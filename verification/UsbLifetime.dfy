/** Every run of a USB device from its allocation on: its transfer rings never hold more than their
    flow control allows, its setup-stage table never fills, and every completion is its own. */
module UsbLifetime {
  import opened Options
  import opened Trbs
  import opened ProducerRing
  import opened ArrayMaps
  import opened Transfers
  import opened UsbDevice
  import D = Descriptors

  /** Start, Rings and Configured are calls from the port protocol; the controller completes or
      fails the oldest request of an endpoint, having written `descs` to the device's buffer. */
  datatype Action =
    | Start
    | Rings(base: seq<addr>)
    | Configured
    | Complete(i: nat, residual: nat, code: nat, descs: seq<seq<D.byte>>)
    | Fail(i: nat)

  function Known(u: Usb, dci: nat): nat { if dci in u.known then u.known[dci] else 0 }

  /** TRBs of a ring not yet known to be complete: an event for a TRB vouches for all before it. */
  function Unknown(u: Usb, dci: nat): int {
    if RingAt(u.dev.rings, dci).Some? then |RingAt(u.dev.rings, dci).value.pushed| - Known(u, dci) else 0
  }

  predicate Oldest(live: seq<Request>, i: nat) {
    i < |live| && forall j | 0 <= j < i :: live[j].dci != live[i].dci
  }

  predicate Pointed(d: Transfers.Device, i: nat) {
    && i < |d.live| && 1 <= d.live[i].dci <= ENDPOINTS
    && RingAt(d.rings, d.live[i].dci).Some? && d.live[i].ioc < |RingAt(d.rings, d.live[i].dci).value.at|
  }

  /** The order in which the port protocol makes its calls, and the hardware's side. */
  predicate Enabled(u: Usb, a: Action) {
    match a
    case Start => u.stage.Fresh?
    case Rings(base) =>
      u.stage.Initialized? && |base| == ENDPOINTS + 1 && forall dci | 0 <= dci <= ENDPOINTS :: base[dci] % 64 == 0
    case Configured => u.stage.RingsReady?
    case Complete(i, _, code, descs) =>
      Pointed(u.dev, i) && Oldest(u.dev.live, i) && (code == 1 || code == 13) && Usable(descs)
    case Fail(i) => Pointed(u.dev, i) && Oldest(u.dev.live, i)
  }

  /** The event for request i has been seen: it and all TRBs before it are done. */
  function Retire(u: Usb, i: nat): Usb
    requires i < |u.dev.live|
  {
    u.(dev := u.dev.(live := Without(u.dev.live, i)),
       known := u.known[u.dev.live[i].dci := u.dev.live[i].ioc + 1])
  }

  predicate Sane(u: Usb) {
    Ready(u) && |u.driverAt| == 16 && |u.dev.rings| == ENDPOINTS && (u.initialized ==> Armable(u))
  }

  /** OnTransferEventReceived and what it calls. */
  function OnEvent(u: Usb, i: nat, residual: nat, code: nat, descs: seq<seq<D.byte>>, b: Buffers): Usb
    requires Pointed(u.dev, i)
    requires Sane(u) && Usable(descs)
  {
    var r := u.dev.live[i];
    var e := Event(EventPtr(RingAt(u.dev.rings, r.dci).value, r), residual, code);
    var (dev, completion) := OnTransferEvent(u.dev, e);
    var v := Retire(u.(dev := dev.(live := u.dev.live)), i);
    match completion
    case Rejected(_) => v
    case ControlCompleted(setup, buf, len) =>
      if Ready(v) && (v.initialized ==> Armable(v)) then OnControlCompleted(v, setup, descs, b).0 else v
    case InterruptCompleted(buf, len) => if Armable(v) then OnInterruptCompleted(v, r.dci).0 else v
  }

  function Step(u: Usb, a: Action, b: Buffers): Usb
    requires Sane(u) && Enabled(u, a)
  {
    match a
    case Start => StartInitialize(u, b)
    case Rings(base) => u.(dev := AllocRings(u.dev, u.configs, base), stage := RingsReady)
    case Configured => OnEndpointsConfigured(u, 0).(stage := Running)
    case Complete(i, residual, code, descs) => OnEvent(u, i, residual, code, descs, b)
    case Fail(i) => Retire(u, i)
  }

  // ---- invariant

  /** The setup packet a phase waits for. */
  predicate Expects(phase: nat, setup: SetupData) {
    (phase == 1 || phase == 2 ==> setup.request == GET_DESCRIPTOR) &&
    (phase == 3 ==> setup.request == SET_CONFIGURATION)
  }

  predicate HasInterruptIn(configs: seq<D.EndpointConfig>) {
    exists i | 0 <= i < |configs| :: configs[i].transferType == 3 && configs[i].dirIn
  }

  predicate NumbersOk(configs: seq<D.EndpointConfig>) {
    forall i | 0 <= i < |configs| :: 1 <= configs[i].number < 16
  }

  /** TRBs pushed to a ring so far. */
  function Pushed(d: Transfers.Device, dci: nat): nat {
    if RingAt(d.rings, dci).Some? then |RingAt(d.rings, dci).value.pushed| else 0
  }

  /** While initialising there is at most one request, the last on EP0, and before it at most the
      Status Stage of the one before. */
  predicate InitInv(dev: Transfers.Device, known: nat, phase: nat) {
    && |dev.live| <= 1
    && (dev.live == [] ==> 0 <= Pushed(dev, EP0) - known <= 4)
    && (|dev.live| == 1 ==>
          var r := dev.live[0];
          && r.ControlRequest? && r.dci == EP0
          && Pushed(dev, EP0) == r.ioc + (if r.buf == 0 then 1 else 2)
          && 0 <= r.ioc - 1 - known <= 1
          && (phase == 3 <==> r.buf == 0) && Expects(phase, r.setup)
          && InUse(dev.table) == 1)
  }

  /** Nothing in flight on any ring. */
  predicate AtRest(dev: Transfers.Device, known: nat) {
    dev.live == [] && Pushed(dev, EP0) == known && InUse(dev.table) == 0
  }

  /** The interrupt-in endpoint SetEndpoints chose. */
  predicate EpInOk(epIn: nat, driverAt: seq<bool>, configs: seq<D.EndpointConfig>) {
    && 3 <= epIn <= ENDPOINTS && epIn % 2 == 1 && |driverAt| == 16 && driverAt[epIn / 2]
    && exists i | 0 <= i < |configs| :: configs[i].transferType == 3 && Address(configs[i]) == epIn
  }

  /** Requests of one ring are in flight in the order of their pushes. */
  predicate Sorted(live: seq<Request>) {
    forall i, j | 0 <= i < j < |live| && live[i].dci == live[j].dci :: live[i].ioc < live[j].ioc
  }

  /** In service: SetProtocol requests draining from EP0, at most one report being read. */
  predicate ServiceInv(dev: Transfers.Device, known: nat, knownIn: nat, epIn: nat, hidPhase: nat) {
    && 0 <= Pushed(dev, EP0) - known <= 30 && 0 <= Pushed(dev, epIn) - knownIn <= 1
    && Sorted(dev.live)
    && (forall i | 0 <= i < |dev.live| && dev.live[i].ControlRequest? ::
          dev.live[i].dci == EP0 && known <= dev.live[i].ioc)
    && (forall i | 0 <= i < |dev.live| && dev.live[i].InterruptRequest? ::
          dev.live[i].dci == epIn && dev.live[i].ioc == knownIn && Pushed(dev, epIn) == knownIn + 1)
    && (hidPhase == 1 ==> Pushed(dev, epIn) == knownIn)
  }

  /** A SetProtocol request in flight will find its driver among the waiters. */
  predicate Addressed(u: Usb) {
    u.hid.Some? &&
    forall i | 0 <= i < |u.dev.live| && u.dev.live[i].ControlRequest? ::
      u.dev.live[i].setup == SetProtocolSetup(u.hid.value) && Has(u.waiters, SetProtocolSetup(u.hid.value))
  }

  ghost predicate StageInv(u: Usb)
    requires |u.driverAt| == 16
  {
    var known := Known(u, EP0);
    match u.stage
    case Fresh =>
      AtRest(u.dev, known) && !u.initialized && u.hid.None? && !u.driverAt[0] && u.known == map[]
    case Initializing =>
      && InitInv(u.dev, known, u.phase) && 1 <= u.phase <= 3 && !u.initialized && !u.driverAt[0]
      && (u.phase == 3 <==> u.hid.Some?) && u.known.Keys <= {EP0}
      && (u.hid.Some? ==>
            && u.hid.value.phase == 0 && HasInterruptIn(u.configs) && NumbersOk(u.configs)
            && forall i | 0 <= i < |u.configs| :: u.driverAt[u.configs[i].number % 16])
    case Initialized =>
      && AtRest(u.dev, known) && u.initialized && u.hid.Some? && u.hid.value.phase == 0 && !u.driverAt[0]
      && u.known.Keys <= {EP0} && NumbersOk(u.configs) && EpInOk(u.hid.value.epIn, u.driverAt, u.configs)
    case RingsReady =>
      && AtRest(u.dev, known) && u.initialized && u.hid.Some? && u.hid.value.phase == 0 && !u.driverAt[0]
      && EpInOk(u.hid.value.epIn, u.driverAt, u.configs)
      && RingAt(u.dev.rings, u.hid.value.epIn).Some?
      && Pushed(u.dev, u.hid.value.epIn) == Known(u, u.hid.value.epIn)
    case Running =>
      && u.initialized && u.hid.Some? && EpInOk(u.hid.value.epIn, u.driverAt, u.configs)
      && RingAt(u.dev.rings, u.hid.value.epIn).Some?
      && ServiceInv(u.dev, known, Known(u, u.hid.value.epIn), u.hid.value.epIn, u.hid.value.phase)
      && Addressed(u)
  }

  ghost predicate Inv(u: Usb) {
    && DeviceInv(u.dev) && |u.driverAt| == 16 && |u.dev.table| == 16 && InUse(u.dev.table) <= 15
    && RingAt(u.dev.rings, EP0).Some? && |RingAt(u.dev.rings, EP0).value.mem| == RING_SIZE
    && (u.stage.Running? || !Full(u.waiters))
    && StageInv(u)
  }

  // ---- facts about single transfers

  lemma SaneInv(u: Usb)
    requires Inv(u)
    ensures Sane(u) && Ready(u)
    ensures u.hid.Some? && (u.stage.Initialized? || u.stage.RingsReady? || u.stage.Running?) ==> Armable(u)
  {
    assert ProducerInv(u.dev.rings[EP0 - 1].value, Idle);
    ProducerFacts(u.dev.rings[EP0 - 1].value);
    if u.initialized && RingAt(u.dev.rings, u.hid.value.epIn).Some? {
      assert ProducerInv(u.dev.rings[u.hid.value.epIn - 1].value, Idle);
      ProducerFacts(u.dev.rings[u.hid.value.epIn - 1].value);
    }
    hide ProducerInv, TableOk, AllLive, Distinct, Sorted;
  }

  lemma SetRingFacts(d: Transfers.Device, dci: nat, q: Producer)
    requires 1 <= dci <= |d.rings|
    ensures RingAt(SetRing(d, dci, q).rings, dci) == Some(q)
    ensures forall x | x != dci :: RingAt(SetRing(d, dci, q).rings, x) == RingAt(d.rings, x)
  {
  }

  lemma IssueRings(d: Transfers.Device, setup: SetupData, buf: addr, len: int, dirIn: bool)
    requires DeviceInv(d) && RingAt(d.rings, EP0).Some?
    ensures Pushable(RingAt(d.rings, EP0).value)
    ensures var e := ControlTransfer(d, EP0, setup, buf, len, dirIn).0;
      && RingAt(e.rings, EP0).Some? && |RingAt(e.rings, EP0).value.mem| == |RingAt(d.rings, EP0).value.mem|
      && Pushed(e, EP0) == Pushed(d, EP0) + (if buf == 0 then 2 else 3)
      && e.live == d.live + [ControlRequest(EP0, Pushed(d, EP0) + 1, setup, buf, len, dirIn)]
      && forall dci | dci != EP0 :: RingAt(e.rings, dci) == RingAt(d.rings, dci)
  {
    var p := RingAt(d.rings, EP0).value;
    assert ProducerInv(p, Idle);
    ProducerFacts(p);
    PushControlFacts(p, setup, buf, len, dirIn);
    ControlPushes(d, EP0, setup, buf, len, dirIn);
    SetRingFacts(d, EP0, PushControl(p, setup, buf, len, dirIn));
    hide DeviceInv, ProducerInv, PushControl, Put, MakeSetupStage, Interrupting, ControlTransfer, RingAt, SetRing;
    assert SetRing(d, EP0, PushControl(p, setup, buf, len, dirIn)).rings
           == ControlTransfer(d, EP0, setup, buf, len, dirIn).0.rings;
  }

  lemma IssueTable(d: Transfers.Device, setup: SetupData, buf: addr, len: int, dirIn: bool)
    requires DeviceInv(d) && RingAt(d.rings, EP0).Some? && InUse(d.table) < |d.table|
    ensures Pushable(RingAt(d.rings, EP0).value) && !Full(d.table)
    ensures var e := ControlTransfer(d, EP0, setup, buf, len, dirIn).0;
      |e.table| == |d.table| && InUse(e.table) == InUse(d.table) + 1
  {
    var p := RingAt(d.rings, EP0).value;
    assert ProducerInv(p, Idle);
    FullExactly(d.table);
    ProducerFacts(p);
    ControlPushes(d, EP0, setup, buf, len, dirIn);
    PutThenGet(d.table, NextKey(p, EP0), Ptr(EP0, p.writeIndex), NextKey(p, EP0));
    hide DeviceInv, ProducerInv, PushControl, Has, Get, MakeSetupStage, Interrupting, ControlTransfer, InUse, Full;
  }

  /** A control request on EP0, with room on the ring and in the table. */
  lemma IssueFacts(d: Transfers.Device, setup: SetupData, buf: addr, len: int, dirIn: bool)
    requires DeviceInv(d) && RingAt(d.rings, EP0).Some? && |RingAt(d.rings, EP0).value.mem| == RING_SIZE
    requires InUse(d.table) < |d.table| && Room(d, EP0, 3)
    ensures Pushable(RingAt(d.rings, EP0).value)
    ensures var e := ControlTransfer(d, EP0, setup, buf, len, dirIn).0;
      && DeviceInv(e) && |e.table| == |d.table| && InUse(e.table) == InUse(d.table) + 1
      && e.live == d.live + [ControlRequest(EP0, Pushed(d, EP0) + 1, setup, buf, len, dirIn)]
      && RingAt(e.rings, EP0).Some? && |RingAt(e.rings, EP0).value.mem| == RING_SIZE
      && Pushed(e, EP0) == Pushed(d, EP0) + (if buf == 0 then 2 else 3)
      && forall dci | dci != EP0 :: RingAt(e.rings, dci) == RingAt(d.rings, dci)
  {
    IssueTable(d, setup, buf, len, dirIn);
    IssueRings(d, setup, buf, len, dirIn);
    ControlKeepsInv(d, EP0, setup, buf, len, dirIn);
    hide *;
  }

  /** Arming an endpoint whose ring has nothing in flight. */
  lemma ArmFacts(d: Transfers.Device, ep: nat, buf: addr, len: int)
    requires DeviceInv(d) && 1 <= ep <= ENDPOINTS && RingAt(d.rings, ep).Some?
    requires forall r | r in d.live :: r.dci != ep
    ensures Pushable(RingAt(d.rings, ep).value)
    ensures var e := InterruptIn(d, ep, buf, len).0;
      && DeviceInv(e) && e.table == d.table
      && e.live == d.live + [InterruptRequest(ep, Pushed(d, ep), buf, len)]
      && RingAt(e.rings, ep).Some? && |RingAt(e.rings, ep).value.mem| == |RingAt(d.rings, ep).value.mem|
      && Pushed(e, ep) == Pushed(d, ep) + 1
      && forall dci | dci != ep :: RingAt(e.rings, dci) == RingAt(d.rings, dci)
  {
    var p := RingAt(d.rings, ep).value;
    assert ProducerInv(p, Idle);
    ProducerFacts(p);
    PushFacts(p, MakeNormal(buf, len));
    InterruptKeepsInv(d, ep, buf, len);
    hide DeviceInv, ProducerInv, MakeNormal;
  }

  /** Completing or failing request i. */
  lemma RetireFacts(d: Transfers.Device, i: nat, residual: nat, code: nat)
    requires DeviceInv(d) && i < |d.live| && (code == 1 || code == 13)
    ensures Pointed(d, i)
    ensures var r := d.live[i];
      var e := Event(EventPtr(RingAt(d.rings, r.dci).value, r), residual, code);
      var f := OnTransferEvent(d, e).0;
      && OnTransferEvent(d, e).1 == Owed(r, residual)
      && f.rings == d.rings && f.live == d.live && |f.table| == |d.table|
      && DeviceInv(f.(live := Without(d.live, i)))
      && InUse(f.table) == InUse(d.table) - (if r.ControlRequest? then 1 else 0)
  {
    assert LiveOk(d.rings, d.table, d.live[i]);
    CompletionIsOwed(d, i, residual, code);
    CompletionKeepsInv(d, i, residual, code);
    var key := EventPtr(RingAt(d.rings, d.live[i].dci).value, d.live[i]);
    DeleteThenGet(d.table, key, key);
    hide DeviceInv, OnTransferEvent, Owed, InUse, Has, Get;
  }

  // ---- initialisation

  lemma RoomWhenEmpty(d: Transfers.Device, dci: nat, n: nat)
    requires d.live == []
    ensures Room(d, dci, n)
  {
  }

  lemma RequestIsInit(d: Transfers.Device, e: Transfers.Device, known: nat, phase: nat,
                      setup: SetupData, buf: addr, len: int, dirIn: bool)
    requires d.live == [] && InUse(d.table) == 0 && 0 <= Pushed(d, EP0) - known <= 1
    requires e.live == d.live + [ControlRequest(EP0, Pushed(d, EP0) + 1, setup, buf, len, dirIn)]
    requires Pushed(e, EP0) == Pushed(d, EP0) + (if buf == 0 then 2 else 3) && InUse(e.table) == InUse(d.table) + 1
    requires (phase == 3 <==> buf == 0) && Expects(phase, setup)
    ensures InitInv(e, known, phase)
  {
    hide Pushed, InUse, Expects;
  }

  /** Issuing the next initialisation request when nothing is in flight. */
  lemma InitRequest(u: Usb, setup: SetupData, buf: addr, len: int, dirIn: bool)
    requires DeviceInv(u.dev) && RingAt(u.dev.rings, EP0).Some? && |RingAt(u.dev.rings, EP0).value.mem| == RING_SIZE
    requires u.dev.live == [] && InUse(u.dev.table) == 0 && |u.dev.table| == 16
    requires 0 <= Pushed(u.dev, EP0) - Known(u, EP0) <= 1
    requires (u.phase == 3 <==> buf == 0) && Expects(u.phase, setup)
    ensures Ready(u)
    ensures var v := Issue(u, setup, buf, len, dirIn);
      && DeviceInv(v.dev) && |v.dev.table| == 16 && InUse(v.dev.table) == 1
      && RingAt(v.dev.rings, EP0).Some? && |RingAt(v.dev.rings, EP0).value.mem| == RING_SIZE
      && InitInv(v.dev, Known(u, EP0), u.phase) && v == u.(dev := v.dev)
  {
    RoomWhenEmpty(u.dev, EP0, 3);
    IssueFacts(u.dev, setup, buf, len, dirIn);
    var e := ControlTransfer(u.dev, EP0, setup, buf, len, dirIn).0;
    RequestIsInit(u.dev, e, Known(u, EP0), u.phase, setup, buf, len, dirIn);
    hide DeviceInv, RingAt, InUse, ControlTransfer, Room, Known, Pushed, Expects, InitInv;
  }

  lemma StartKeepsInv(u: Usb, b: Buffers)
    requires Inv(u) && u.stage.Fresh? && BuffersOk(b)
    ensures Ready(u) && Inv(StartInitialize(u, b))
  {
    hide DeviceInv, RingAt, InUse, Issue, InitInv, Full, Pushed, EpInOk, ServiceInv, Addressed;
    var v := u.(initialized := false, phase := 1, stage := Initializing);
    InitRequest(v, SetupData(0x80, GET_DESCRIPTOR, 0x100, 0, BUFFER_SIZE), b.device, BUFFER_SIZE, true);
  }

  /** The state after a successful event, before the handlers, for whichever request completed. */
  function Seen(u: Usb, i: nat, residual: nat, code: nat): Usb
    requires Pointed(u.dev, i)
  {
    var r := u.dev.live[i];
    var e := Event(EventPtr(RingAt(u.dev.rings, r.dci).value, r), residual, code);
    Retire(u.(dev := OnTransferEvent(u.dev, e).0.(live := u.dev.live)), i)
  }

  /** A successful control transfer reaches the handler above it with its own setup packet. */
  lemma ControlIsHandled(u: Usb, i: nat, residual: nat, code: nat, descs: seq<seq<D.byte>>, b: Buffers)
    requires Pointed(u.dev, i) && Sane(u) && Usable(descs) && u.dev.live[i].ControlRequest?
    requires var r := u.dev.live[i];
      OnTransferEvent(u.dev, Event(EventPtr(RingAt(u.dev.rings, r.dci).value, r), residual, code)).1
        == Owed(r, residual)
    requires var v := Seen(u, i, residual, code);
      Ready(v) && (v.initialized ==> Armable(v))
    ensures OnEvent(u, i, residual, code, descs, b)
            == OnControlCompleted(Seen(u, i, residual, code), u.dev.live[i].setup, descs, b).0
  {
    hide OnTransferEvent, OnControlCompleted, OnInterruptCompleted, RingAt, EventPtr, Usable, Armable, Ready;
  }

  /** The state in which the completion handler runs: the request is off the list. */
  lemma RetiredRequest(u: Usb, residual: nat, code: nat)
    requires Inv(u) && u.stage.Initializing? && |u.dev.live| == 1 && (code == 1 || code == 13)
    ensures Pointed(u.dev, 0) && u.dev.live[0].ControlRequest?
    ensures var r := u.dev.live[0];
      var e := Event(EventPtr(RingAt(u.dev.rings, r.dci).value, r), residual, code);
      var v := Seen(u, 0, residual, code);
      && OnTransferEvent(u.dev, e).1 == Owed(r, residual)
      && DeviceInv(v.dev) && v.dev.live == [] && InUse(v.dev.table) == 0 && |v.dev.table| == 16
      && v.dev.rings == u.dev.rings && Known(v, EP0) == r.ioc + 1 && v.known.Keys <= {EP0}
      && Pushed(v.dev, EP0) - Known(v, EP0) == (if r.buf == 0 then 0 else 1)
      && v == u.(dev := v.dev, known := v.known)
  {
    RetireFacts(u.dev, 0, residual, code);
    hide DeviceInv, RingAt, InUse, OnTransferEvent, Owed, Expects;
  }

  /** Entering the endpoints found sets exactly their numbers. */
  lemma {:induction false} AssignFacts(driverAt: seq<bool>, configs: seq<D.EndpointConfig>)
    requires |driverAt| == 16 && NumbersOk(configs)
    ensures forall i | 0 <= i < |configs| :: Assign(driverAt, configs)[configs[i].number]
    ensures Assign(driverAt, configs)[0] == driverAt[0]
    decreases |configs|
  {
    if configs != [] {
      AssignFacts(driverAt, configs[..|configs| - 1]);
    }
  }

  predicate IsInterrupt(c: D.EndpointConfig, dirIn: bool) { c.transferType == 3 && c.dirIn == dirIn }

  /** ep is the address of the last interrupt endpoint of a direction, or as before if there is none. */
  ghost predicate LastOf(configs: seq<D.EndpointConfig>, dirIn: bool, ep: nat, before: nat) {
    || (ep == before && forall i | 0 <= i < |configs| :: !IsInterrupt(configs[i], dirIn))
    || exists i | 0 <= i < |configs| ::
         && IsInterrupt(configs[i], dirIn) && Address(configs[i]) == ep
         && forall j | i < j < |configs| :: !IsInterrupt(configs[j], dirIn)
  }

  /** The driver reads and writes the last interrupt endpoint found of each direction. */
  lemma {:induction false} SetEndpointsFacts(hid: Hid, configs: seq<D.EndpointConfig>)
    ensures var h := SetEndpoints(hid, configs);
      && h == hid.(epIn := h.epIn, epOut := h.epOut)
      && LastOf(configs, true, h.epIn, hid.epIn) && LastOf(configs, false, h.epOut, hid.epOut)
    decreases |configs|
  {
    if configs != [] {
      var n := |configs| - 1;
      var g, h := SetEndpoints(hid, configs[..n]), SetEndpoints(hid, configs);
      SetEndpointsFacts(hid, configs[..n]);
      LastOfOneMore(configs, true, g.epIn, h.epIn, hid.epIn);
      LastOfOneMore(configs, false, g.epOut, h.epOut, hid.epOut);
    }
  }

  lemma LastOfOneMore(configs: seq<D.EndpointConfig>, dirIn: bool, ep: nat, ep': nat, before: nat)
    requires configs != [] && LastOf(configs[..|configs| - 1], dirIn, ep, before)
    requires var c := configs[|configs| - 1];
      ep' == if IsInterrupt(c, dirIn) then Address(c) else ep
    ensures LastOf(configs, dirIn, ep', before)
  {
    var n := |configs| - 1;
    if IsInterrupt(configs[n], dirIn) {
      assert IsInterrupt(configs[n], dirIn) && Address(configs[n]) == ep';
    } else if i :| 0 <= i < n && IsInterrupt(configs[..n][i], dirIn) && Address(configs[..n][i]) == ep
                   && forall j | i < j < n :: !IsInterrupt(configs[..n][j], dirIn) {
      assert IsInterrupt(configs[i], dirIn);
      forall j | i < j < |configs| ensures !IsInterrupt(configs[j], dirIn) {
        assert j < n ==> configs[..n][j] == configs[j];
      }
    } else {
      forall i | 0 <= i < |configs| ensures !IsInterrupt(configs[i], dirIn) {
        assert i < n ==> configs[..n][i] == configs[i];
      }
    }
  }

  /** InitializePhase3 finds a driver for every endpoint, and its interrupt-in endpoint among them. */
  lemma Phase3Facts(driverAt: seq<bool>, hid: Hid, configs: seq<D.EndpointConfig>)
    requires |driverAt| == 16 && NumbersOk(configs) && HasInterruptIn(configs)
    requires forall i | 0 <= i < |configs| :: driverAt[configs[i].number % 16]
    ensures EpInOk(SetEndpoints(hid, configs).epIn, driverAt, configs)
    ensures SetEndpoints(hid, configs).phase == hid.phase
  {
    SetEndpointsFacts(hid, configs);
    ChosenEndpoint(driverAt, configs, SetEndpoints(hid, configs).epIn, hid.epIn);
    hide *;
  }

  lemma ChosenEndpoint(driverAt: seq<bool>, configs: seq<D.EndpointConfig>, epIn: nat, before: nat)
    requires |driverAt| == 16 && NumbersOk(configs) && HasInterruptIn(configs) && LastOf(configs, true, epIn, before)
    requires forall i | 0 <= i < |configs| :: driverAt[configs[i].number % 16]
    ensures EpInOk(epIn, driverAt, configs)
  {
    assert exists i | 0 <= i < |configs| :: IsInterrupt(configs[i], true);
    var i :| 0 <= i < |configs| && IsInterrupt(configs[i], true) && Address(configs[i]) == epIn;
    assert epIn == 2 * configs[i].number + 1 && epIn / 2 == configs[i].number;
    assert driverAt[configs[i].number % 16];
  }

  /** What a handler of the initialisation starts from: nothing in flight, one request just done. */
  ghost predicate Between(v: Usb, setup: SetupData) {
    && DeviceInv(v.dev) && |v.driverAt| == 16 && |v.dev.table| == 16
    && RingAt(v.dev.rings, EP0).Some? && |RingAt(v.dev.rings, EP0).value.mem| == RING_SIZE
    && v.dev.live == [] && InUse(v.dev.table) == 0 && v.known.Keys <= {EP0} && !Full(v.waiters)
    && Pushed(v.dev, EP0) - Known(v, EP0) == (if v.phase == 3 then 0 else 1)
    && Expects(v.phase, setup)
    && v.stage.Initializing? && 1 <= v.phase <= 3 && !v.initialized && !v.driverAt[0]
    && (v.phase == 3 <==> v.hid.Some?)
    && (v.hid.Some? ==>
          && v.hid.value.phase == 0 && HasInterruptIn(v.configs) && NumbersOk(v.configs)
          && forall i | 0 <= i < |v.configs| :: v.driverAt[v.configs[i].number % 16])
  }

  lemma BetweenIsInv(v: Usb, setup: SetupData)
    requires Between(v, setup)
    ensures Inv(v) && Ready(v) && !v.initialized
  {
    SaneInv(v);
    hide DeviceInv, InUse, RingAt;
  }

  lemma NextDescriptor(v: Usb, setup: SetupData, b: Buffers)
    requires Between(v, setup) && BuffersOk(b) && v.phase == 1
    ensures Ready(v) && Inv(GetDescriptor(v.(phase := 2), 2, b))
  {
    InitRequest(v.(phase := 2), SetupData(0x80, GET_DESCRIPTOR, 0x200, 0, BUFFER_SIZE), b.device, BUFFER_SIZE, true);
    hide DeviceInv, InUse, RingAt, Issue, InitInv;
  }

  lemma Selecting(v: Usb, setup: SetupData, descs: seq<seq<D.byte>>, b: Buffers)
    requires Between(v, setup) && BuffersOk(b) && v.phase == 2 && FirstTypeIs(descs, 2) && Usable(descs)
    ensures Ready(v) && Inv(Phase2(v, descs, b).0)
  {
    BetweenIsInv(v, setup);
    if D.Select(descs).Selected? {
      var kind, interface, configs := D.Select(descs).kind, D.Select(descs).interface, D.Select(descs).configs;
      assert NumbersOk(configs) && HasInterruptIn(configs);
      AssignFacts(v.driverAt, configs);
      hide D.Select, D.AllWellformed, NumbersOk, HasInterruptIn, Assign;
      var hid := Hid(interface, if kind.Keyboard? then 8 else 3, b.driver, 0, 0, 0);
      var w := v.(hid := Some(hid), configs := configs, driverAt := Assign(v.driverAt, configs), phase := 3);
      InitRequest(w, SetupData(0, SET_CONFIGURATION, descs[0][5], 0, 0), 0, 0, false);
      hide DeviceInv, InUse, RingAt, Issue, InitInv;
      NumbersAssigned(w.driverAt, configs);
    }
  }

  lemma NumbersAssigned(driverAt: seq<bool>, configs: seq<D.EndpointConfig>)
    requires |driverAt| == 16 && NumbersOk(configs)
    requires forall i | 0 <= i < |configs| :: driverAt[configs[i].number]
    ensures forall i | 0 <= i < |configs| :: driverAt[configs[i].number % 16]
  {
  }

  lemma Finishing(v: Usb, setup: SetupData)
    requires Between(v, setup) && v.phase == 3
    ensures Inv(Phase3(v))
  {
    Phase3Facts(v.driverAt, v.hid.value, v.configs);
    hide DeviceInv, InUse, RingAt, SetEndpoints, HasInterruptIn, EpInOk;
  }

  lemma InitCompletes(v: Usb, setup: SetupData, descs: seq<seq<D.byte>>, b: Buffers)
    requires Between(v, setup) && BuffersOk(b) && Usable(descs)
    ensures Ready(v) && Inv(OnControlCompleted(v, setup, descs, b).0)
  {
    BetweenIsInv(v, setup);
    if v.phase == 1 {
      NextDescriptor(v, setup, b);
    } else if v.phase == 3 {
      Finishing(v, setup);
    } else if FirstTypeIs(descs, 2) {
      Selecting(v, setup, descs, b);
    }
    hide Inv, GetDescriptor, Phase2, Phase3, Usable, FirstTypeIs;
  }

  lemma InitCompleteKeepsInv(u: Usb, residual: nat, code: nat, descs: seq<seq<D.byte>>, b: Buffers)
    requires Inv(u) && u.stage.Initializing? && |u.dev.live| == 1 && (code == 1 || code == 13)
    requires BuffersOk(b) && Usable(descs)
    ensures Sane(u) && Pointed(u.dev, 0) && Inv(OnEvent(u, 0, residual, code, descs, b))
  {
    hide *;
    SaneInv(u);
    RetiredRequest(u, residual, code);
    RetiredIsBetween(u, residual, code);
    var v, setup := Seen(u, 0, residual, code), u.dev.live[0].setup;
    BetweenIsInv(v, setup);
    ControlIsHandled(u, 0, residual, code, descs, b);
    InitCompletes(v, setup, descs, b);
  }

  lemma RetiredIsBetween(u: Usb, residual: nat, code: nat)
    requires Inv(u) && u.stage.Initializing? && |u.dev.live| == 1 && (code == 1 || code == 13)
    ensures Pointed(u.dev, 0) && u.dev.live[0].ControlRequest?
    ensures Between(Seen(u, 0, residual, code), u.dev.live[0].setup)
  {
    RetiredRequest(u, residual, code);
    hide Seen, DeviceInv, RingAt, OnTransferEvent, InUse, Owed;
  }
}
