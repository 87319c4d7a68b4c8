/** What each event does to a USB device, stated outright: which completions advance the initialisation, which
    request each of them leads to, and when the class driver reads on. */
module UsbSteps {
  import opened Options
  import opened Trbs
  import opened ArrayMaps
  import opened Transfers
  import opened UsbDevice
  import opened UsbService
  import D = Descriptors

  // ---- what a step adds to the requests in flight

  /** One more control request, on the default control pipe. */
  predicate Asked(d: Transfers.Device, e: Transfers.Device, setup: SetupData, buf: addr, len: int, dirIn: bool) {
    var n := |d.live|;
    && |e.live| == n + 1 && e.live[..n] == d.live && e.live[n].ControlRequest?
    && e.live[n] == ControlRequest(1, e.live[n].ioc, setup, buf, len, dirIn)
  }

  /** One more read of an interrupt endpoint, if that has a ring. */
  predicate Read(d: Transfers.Device, e: Transfers.Device, ep: nat, buf: addr, len: int) {
    var n := |d.live|;
    if ep < 1 || ep > |d.rings| || d.rings[ep - 1].None? then e == d
    else
      && |e.live| == n + 1 && e.live[..n] == d.live && e.live[n].InterruptRequest?
      && e.live[n] == InterruptRequest(ep, e.live[n].ioc, buf, len)
  }

  lemma IssueAsked(u: Usb, setup: SetupData, buf: addr, len: int, dirIn: bool)
    requires Ready(u)
    ensures Asked(u.dev, Issue(u, setup, buf, len, dirIn).dev, setup, buf, len, dirIn)
  {
    hide PushControl, Pushable, Put;
  }

  lemma ArmReads(u: Usb)
    requires u.hid.Some? && Armable(u)
    ensures Read(u.dev, Arm(u).dev, u.hid.value.epIn, u.hid.value.buf, u.hid.value.packetSize)
    ensures Arm(u) == u.(dev := Arm(u).dev)
  {
    hide Pushable;
  }

  // ---- initialisation

  /** The completions that advance the initialisation: of GET_DESCRIPTOR (6) with a device descriptor (type 1), then
      with a configuration (type 2) that has a boot interface, then of SET_CONFIGURATION (9). */
  predicate Advances(u: Usb, setup: SetupData, descs: seq<seq<D.byte>>)
    requires descs != [] && D.AllWellformed(descs)
  {
    || (u.phase == 1 && setup.request == 6 && TypeByte(descs) == 1)
    || (u.phase == 2 && setup.request == 6 && TypeByte(descs) == 2
        && exists i | 1 <= i < |descs| :: D.BootInterface(descs[i]))
    || (u.phase == 3 && setup.request == 9 && u.hid.Some?)
  }

  function TypeByte(descs: seq<seq<D.byte>>): nat
    requires descs != [] && D.AllWellformed(descs)
  {
    assert D.Wellformed(descs[0]);
    descs[0][1]
  }

  /** A selection is made exactly if there is a boot interface. */
  lemma SelectedExactly(descs: seq<seq<D.byte>>)
    requires descs != [] && D.AllWellformed(descs) && !D.Select(descs).NullRead?
    ensures D.Select(descs).Selected? <==> exists i | 1 <= i < |descs| :: D.BootInterface(descs[i])
  {
    D.SelectOffers(descs);
    hide D.Select, D.AllWellformed;
    match D.Select(descs)
    case Selected(kind, number, configs) =>
      var i: nat, at :| D.OffersAt(descs, kind, number, configs, i, at);
      assert D.BootInterface(descs[i]);
    case _ =>
  }

  /** The requests the completions lead to: GET_DESCRIPTOR for the configuration (type 2, 256 bytes), and
      SET_CONFIGURATION for the configuration's value, its byte 5. */
  predicate LeadsTo(u: Usb, v: Usb, descs: seq<seq<D.byte>>, b: Buffers)
    requires descs != []
  {
    if u.phase == 1 then Asked(u.dev, v.dev, SetupData(0x80, 6, 0x200, 0, 256), b.device, 256, true)
    else if u.phase == 2 then
      |descs[0]| >= 9 && Asked(u.dev, v.dev, SetupData(0, 9, descs[0][5], 0, 0), 0, 0, false)
    else v.dev == u.dev
  }

  /** Main theorem: what the completion of a control request does to a device that is not initialised, in every state
      and for whatever the device sent. */
  lemma InitialisesExactly(u: Usb, setup: SetupData, descs: seq<seq<D.byte>>, b: Buffers)
    requires !u.initialized && Ready(u) && |u.driverAt| == 16
    requires descs != [] && D.AllWellformed(descs) && Usable(descs)
    ensures var (v, e) := OnControlCompleted(u, setup, descs, b);
      && (Advances(u, setup, descs) ==> v.phase == u.phase + 1 && e == Ok && LeadsTo(u, v, descs, b))
      && (!Advances(u, setup, descs) ==> v == u)
      && (v.initialized <==> u.phase == 3 && Advances(u, setup, descs))
      && (e == Ok <==> Advances(u, setup, descs) || (u.phase == 2 && setup.request == 6 && TypeByte(descs) == 2))
      && (e == InvalidPhase <==> 1 <= u.phase <= 3 && e != Ok)
      && (e == Unsupported <==> u.phase < 1 || 3 < u.phase)
  {
    assert D.Wellformed(descs[0]);
    FirstPhase(u, b);
    if u.phase == 2 && FirstTypeIs(descs, 2) {
      SelectedExactly(descs);
      SecondPhase(u, descs, b);
    }
    hide Issue, Asked, Ready, D.Select, D.AllWellformed, Usable, Phase2, GetDescriptor, SetEndpoints, D.BootInterface;
  }

  lemma FirstPhase(u: Usb, b: Buffers)
    requires Ready(u)
    ensures var v := GetDescriptor(u.(phase := 2), 2, b);
      && v == u.(phase := 2, dev := v.dev)
      && Asked(u.dev, v.dev, SetupData(0x80, 6, 0x200, 0, 256), b.device, 256, true)
  {
    IssueAsked(u.(phase := 2), SetupData(0x80, 6, 0x200, 0, 256), b.device, 256, true);
    hide ControlTransfer, Asked;
  }

  lemma SecondPhase(u: Usb, descs: seq<seq<D.byte>>, b: Buffers)
    requires Ready(u) && |u.driverAt| == 16 && FirstTypeIs(descs, 2) && Usable(descs)
    ensures !D.Select(descs).NullRead?
    ensures var v := Phase2(u, descs, b).0;
      && Phase2(u, descs, b).1 == Ok && v.initialized == u.initialized
      && (D.Select(descs).NoDriver? ==> v == u)
      && (D.Select(descs).Selected? ==>
            && v.phase == 3 && |descs[0]| >= 9
            && Asked(u.dev, v.dev, SetupData(0, 9, descs[0][5], 0, 0), 0, 0, false))
  {
    match D.Select(descs)
    case Selected(kind, interface, configs) =>
      var hid := Hid(interface, if kind.Keyboard? then 8 else 3, b.driver, 0, 0, 0);
      var w := u.(hid := Some(hid), configs := configs, driverAt := Assign(u.driverAt, configs), phase := 3);
      IssueAsked(w, SetupData(0, 9, descs[0][5], 0, 0), 0, 0, false);
      hide ControlTransfer, Asked, Ready, D.Select, D.AllWellformed, Assign;
    case _ =>
  }

  // ---- service

  /** Somebody waits for the completion of this request. */
  predicate Awaited(u: Usb, setup: SetupData) {
    u.hid.Some? && exists i | 0 <= i < |u.waiters| :: u.waiters[i].Used? && u.waiters[i].key == setup
  }

  /** After initialisation a control completion reaches the class driver if it waits for one, and starts its reading
      if that was the first. */
  lemma ServesExactly(u: Usb, setup: SetupData, descs: seq<seq<D.byte>>, b: Buffers)
    requires u.initialized && Ready(u) && |u.driverAt| == 16 && Usable(descs) && Armable(u)
    ensures var (v, e) := OnControlCompleted(u, setup, descs, b);
      && (e == NoWaiter <==> !Awaited(u, setup))
      && (e == Unsupported <==> Awaited(u, setup) && u.hid.value.phase != 1)
      && (e == NoWaiter || e == Unsupported ==> v == u)
      && (Awaited(u, setup) && u.hid.value.phase == 1 ==>
            && v == u.(hid := Some(u.hid.value.(phase := 2)), dev := v.dev)
            && Read(u.dev, v.dev, u.hid.value.epIn, u.hid.value.buf, u.hid.value.packetSize)
            && (e == NoRing <==> v.dev == u.dev) && (e == Ok <==> v.dev != u.dev))
  {
    GetFinds(u.waiters, setup);
    if u.hid.Some? {
      var w := u.(hid := Some(u.hid.value.(phase := 2)));
      ArmReads(w);
      hide Arm, Usable, Ready, Get;
    }
  }

  lemma {:induction false} GetFinds<K, V>(t: seq<Entry<K, V>>, k: K)
    ensures Get(t, k).Some? <==> exists i | 0 <= i < |t| :: t[i].Used? && t[i].key == k
    decreases |t|
  {
  }

  /** A report came: the class driver of the endpoint reads on, if the endpoint is an IN one. */
  lemma ReadsOnExactly(u: Usb, ep: nat)
    requires |u.driverAt| == 16 && Armable(u) && ep <= 31
    ensures var (v, e) := OnInterruptCompleted(u, ep);
      && (e == NoWaiter <==> !u.driverAt[ep / 2] || u.hid.None?)
      && (e == Unsupported <==> u.driverAt[ep / 2] && u.hid.Some? && ep % 2 == 0)
      && (e == NoWaiter || e == Unsupported ==> v == u)
      && (u.driverAt[ep / 2] && u.hid.Some? && ep % 2 == 1 ==>
            && v == u.(dev := v.dev)
            && Read(u.dev, v.dev, u.hid.value.epIn, u.hid.value.buf, u.hid.value.packetSize)
            && (e == NoRing <==> v.dev == u.dev) && (e == Ok <==> v.dev != u.dev))
  {
    if u.hid.Some? {
      ArmReads(u);
      hide Arm;
    }
  }

  // ---- once the endpoints are configured

  /** Endpoint numbers with a driver, from n on. */
  function Drivers(driverAt: seq<bool>, n: nat): nat
    requires n <= |driverAt|
    decreases |driverAt| - n
  {
    if n == |driverAt| then 0 else (if driverAt[n] then 1 else 0) + Drivers(driverAt, n + 1)
  }

  /** SetProtocol for the boot protocol: a class request (0x21) to the interface, number 11, no data. */
  predicate Protocol(r: Request, interface: byte) {
    r.ControlRequest? && r == ControlRequest(1, r.ioc, SetupData(0x21, 11, 0, interface, 0), 0, 0, false)
  }

  ghost predicate Protocols(d: Transfers.Device, e: Transfers.Device, n: nat, interface: byte) {
    && |e.live| == |d.live| + n && e.live[..|d.live|] == d.live
    && forall i | |d.live| <= i < |e.live| :: Protocol(e.live[i], interface)
  }

  /** Main theorem: SetProtocol is sent once for each endpoint number that has the driver. */
  lemma {:induction false} OneProtocolEach(u: Usb, n: nat)
    requires Sending(u, n) && n <= 16
    ensures Ready(u) && |u.driverAt| == 16 && u.hid.Some?
    ensures Protocols(u.dev, OnEndpointsConfigured(u, n).dev, Drivers(u.driverAt, n), u.hid.value.interface)
    decreases 16 - n
  {
    hide *;
    SendingReady(u, n);
    ConfiguredUnfolds(u, n);
    DriversUnfolds(u.driverAt, n);
    if n == 16 {
      NoProtocols(u.dev, u.hid.value.interface);
    } else if u.driverAt[n] {
      var v := SetProtocol(u);
      SendOne(u, n);
      SendingReady(v, n + 1);
      ProtocolAsked(u);
      OneProtocolEach(v, n + 1);
      var after := OnEndpointsConfigured(v, n + 1);
      MoreProtocols(u.dev, v.dev, after.dev, Drivers(u.driverAt, n + 1), u.hid.value.interface);
    } else {
      OneProtocolEach(u, n + 1);
    }
  }

  lemma DriversUnfolds(driverAt: seq<bool>, n: nat)
    requires n <= 16 == |driverAt|
    ensures n == 16 ==> Drivers(driverAt, n) == 0
    ensures n < 16 ==> Drivers(driverAt, n) == (if driverAt[n] then 1 else 0) + Drivers(driverAt, n + 1)
  {
  }

  lemma NoProtocols(d: Transfers.Device, interface: byte)
    ensures Protocols(d, d, 0, interface)
  {
  }

  lemma ProtocolAsked(u: Usb)
    requires Ready(u) && u.hid.Some?
    ensures var v := SetProtocol(u);
      && Asked(u.dev, v.dev, SetupData(0x21, 11, 0, u.hid.value.interface, 0), 0, 0, false)
      && v.driverAt == u.driverAt && v.hid == Some(u.hid.value.(phase := 1))
  {
    var setup := SetupData(0x21, 11, 0, u.hid.value.interface, 0);
    var w := u.(hid := Some(u.hid.value.(phase := 1)), waiters := Put(u.waiters, setup, TheDriver));
    IssueAsked(w, setup, 0, 0, false);
    hide ControlTransfer, Put, Asked, RingAt;
  }

  lemma MoreProtocols(d: Transfers.Device, e: Transfers.Device, f: Transfers.Device, n: nat, interface: byte)
    requires Asked(d, e, SetupData(0x21, 11, 0, interface, 0), 0, 0, false) && Protocols(e, f, n, interface)
    ensures Protocols(d, f, n + 1, interface)
  {
    assert f.live[..|d.live|] == e.live[..|d.live|];
    assert f.live[|d.live|] == e.live[..][|d.live|];
  }
}
