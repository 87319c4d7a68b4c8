/** A device in service, and all its runs: the transfer rings keep their flow control for the whole
    life of the device, and reports keep being read. */
module UsbRuns {
  import opened Options
  import opened Trbs
  import R = ProducerRing
  import opened ArrayMaps
  import opened Transfers
  import opened UsbDevice
  import opened UsbLifetime
  import opened UsbService
  import D = Descriptors

  lemma ConfiguredKeepsInv(u: Usb)
    requires Inv(u) && u.stage.RingsReady?
    ensures Sane(u) && Inv(OnEndpointsConfigured(u, 0).(stage := Running))
  {
    SaneInv(u);
    ReadyToSend(u);
    SendAll(u, 0);
    hide OnEndpointsConfigured;
    SentIsRunning(OnEndpointsConfigured(u, 0));
    hide *;
  }

  lemma ReadyToSend(u: Usb)
    requires Inv(u) && u.stage.RingsReady?
    ensures Sending(u, 0)
  {
    hide DeviceInv, EpInOk, InUse, Full;
  }

  lemma SentIsRunning(u: Usb)
    requires Sending(u, 16)
    ensures Inv(u.(stage := Running))
  {
    hide DeviceInv, EpInOk, InUse, Full, Addressed, Sorted;
    assert Addressed(u.(stage := Running)) by { AddressedFramed(u, u.(stage := Running)); }
  }

  lemma AddressedFramed(u: Usb, v: Usb)
    requires Addressed(u) && v.hid.Some? && v.hid.value.interface == u.hid.value.interface && v.waiters == u.waiters
    requires forall r | r in v.dev.live :: r in u.dev.live || r.InterruptRequest?
    ensures Addressed(v)
  {
    forall i | 0 <= i < |v.dev.live| && v.dev.live[i].ControlRequest?
      ensures v.dev.live[i].setup == SetProtocolSetup(v.hid.value) && Has(v.waiters, SetProtocolSetup(v.hid.value))
    {
      var r := v.dev.live[i];
      assert r in v.dev.live;
      var j :| 0 <= j < |u.dev.live| && u.dev.live[j] == r;
    }
    hide Has;
  }

  // ---- in service

  lemma LivePushed(d: Transfers.Device, i: nat)
    requires DeviceInv(d) && i < |d.live|
    ensures d.live[i].ioc < Pushed(d, d.live[i].dci)
  {
    assert LiveOk(d.rings, d.table, d.live[i]);
  }

  /** What is left of a ring after its oldest request was pushed later. */
  lemma LeftIsLater(live: seq<Request>, i: nat)
    requires Sorted(live) && Distinct(live) && Oldest(live, i)
    ensures forall j | 0 <= j < |live| - 1 :: Without(live, i)[j] in live
    ensures forall j | 0 <= j < |live| - 1 :: Without(live, i)[j].dci == live[i].dci
              ==> live[i].ioc < Without(live, i)[j].ioc
  {
    forall j | 0 <= j < |live| - 1 ensures Without(live, i)[j] == live[if j < i then j else j + 1] {
    }
  }

  lemma RetireControl(d: Transfers.Device, e: Transfers.Device, i: nat, known: nat, knownIn: nat, epIn: nat, phase: nat)
    requires DeviceInv(d) && ServiceInv(d, known, knownIn, epIn, phase) && Oldest(d.live, i) && epIn != EP0
    requires e.rings == d.rings && e.live == Without(d.live, i) && d.live[i].ControlRequest?
    ensures d.live[i].dci == EP0 && ServiceInv(e, d.live[i].ioc + 1, knownIn, epIn, phase)
  {
    LivePushed(d, i);
    LeftIsLater(d.live, i);
    SortedWithout(d.live, i);
    hide DeviceInv, Pushed, Sorted, Oldest, Without;
    assert Pushed(e, EP0) == Pushed(d, EP0) && Pushed(e, epIn) == Pushed(d, epIn) by { SamePushed(d, e); }
  }

  lemma RetireInterrupt(d: Transfers.Device, e: Transfers.Device, i: nat, known: nat, knownIn: nat,
                        epIn: nat, phase: nat)
    requires DeviceInv(d) && ServiceInv(d, known, knownIn, epIn, phase) && Oldest(d.live, i) && epIn != EP0
    requires e.rings == d.rings && e.live == Without(d.live, i) && d.live[i].InterruptRequest?
    ensures d.live[i].dci == epIn && phase != 1 && Pushed(e, epIn) == d.live[i].ioc + 1
    ensures ServiceInv(e, known, d.live[i].ioc + 1, epIn, phase)
  {
    LeftIsLater(d.live, i);
    SortedWithout(d.live, i);
    hide DeviceInv, Pushed, Sorted, Oldest, Without;
    assert Pushed(e, EP0) == Pushed(d, EP0) && Pushed(e, epIn) == Pushed(d, epIn) by { SamePushed(d, e); }
  }

  lemma SamePushed(d: Transfers.Device, e: Transfers.Device)
    requires e.rings == d.rings
    ensures forall dci :: Pushed(e, dci) == Pushed(d, dci)
  {
  }

  lemma SortedWithout(live: seq<Request>, i: nat)
    requires Sorted(live) && i < |live|
    ensures Sorted(Without(live, i))
  {
    var rest := Without(live, i);
    forall j | 0 <= j < |rest| ensures rest[j] == live[if j < i then j else j + 1] {
    }
  }

  /** The state in which the completion handlers run. */
  lemma RetireKeepsInv(u: Usb, f: Transfers.Device, i: nat)
    requires Inv(u) && u.stage.Running? && Oldest(u.dev.live, i)
    requires f.rings == u.dev.rings && f.live == u.dev.live && |f.table| == 16 && InUse(f.table) <= 15
    requires DeviceInv(f.(live := Without(u.dev.live, i)))
    ensures var v := Retire(u.(dev := f), i);
      && Inv(v) && v.stage.Running? && v.dev.rings == u.dev.rings && v.hid == u.hid
      && (u.dev.live[i].InterruptRequest? ==>
            && u.dev.live[i].dci == u.hid.value.epIn && u.hid.value.phase != 1
            && Pushed(v.dev, u.hid.value.epIn) == Known(v, u.hid.value.epIn))
  {
    var v := Retire(u.(dev := f), i);
    WithoutIsPart(u.dev.live, i);
    AddressedFramed(u, v);
    RetiredService(u, f, i);
    hide DeviceInv, ServiceInv, EpInOk, Addressed, Oldest, Full, InUse, RingAt, Known, Pushed;
  }

  lemma ServiceParts(u: Usb)
    requires Inv(u) && u.stage.Running?
    ensures DeviceInv(u.dev) && u.hid.Some? && u.hid.value.epIn != EP0
    ensures ServiceInv(u.dev, Known(u, EP0), Known(u, u.hid.value.epIn), u.hid.value.epIn, u.hid.value.phase)
  {
    hide DeviceInv, ServiceInv, Addressed, Full, InUse, RingAt;
  }

  /** Service goes on with one request less. */
  lemma RetiredService(u: Usb, f: Transfers.Device, i: nat)
    requires Inv(u) && u.stage.Running? && Oldest(u.dev.live, i)
    requires f.rings == u.dev.rings && f.live == u.dev.live
    ensures var v, epIn := Retire(u.(dev := f), i), u.hid.value.epIn;
      && ServiceInv(v.dev, Known(v, EP0), Known(v, epIn), epIn, u.hid.value.phase)
      && (u.dev.live[i].InterruptRequest? ==>
            u.dev.live[i].dci == epIn && u.hid.value.phase != 1 && Pushed(v.dev, epIn) == Known(v, epIn))
  {
    var v := Retire(u.(dev := f), i);
    var epIn := u.hid.value.epIn;
    ServiceParts(u);
    hide Inv, ServiceInv, DeviceInv, Oldest, Pushed;
    if u.dev.live[i].ControlRequest? {
      RetireControl(u.dev, v.dev, i, Known(u, EP0), Known(u, epIn), epIn, u.hid.value.phase);
    } else {
      RetireInterrupt(u.dev, v.dev, i, Known(u, EP0), Known(u, epIn), epIn, u.hid.value.phase);
    }
  }

  lemma WithoutIsPart(live: seq<Request>, i: nat)
    requires i < |live|
    ensures forall r | r in Without(live, i) :: r in live
  {
  }

  /** Arming the interrupt-in endpoint once its last report is in. */
  lemma ArmKeepsInv(v: Usb)
    requires Inv(v) && v.stage.Running? && v.hid.value.phase != 1
    requires Pushed(v.dev, v.hid.value.epIn) == Known(v, v.hid.value.epIn)
    ensures Armable(v) && Inv(Arm(v))
    ensures Arm(v).dev.live == v.dev.live + [InterruptRequest(v.hid.value.epIn, Pushed(v.dev, v.hid.value.epIn),
                                                              v.hid.value.buf, v.hid.value.packetSize)]
  {
    SaneInv(v);
    var hid := v.hid.value;
    NoneInFlight(v.dev, Known(v, EP0), Known(v, hid.epIn), hid.epIn, hid.phase);
    ArmFacts(v.dev, hid.epIn, hid.buf, hid.packetSize);
    var w := Arm(v);
    ArmedService(v.dev, w.dev, Known(v, EP0), Known(v, hid.epIn), hid.epIn, hid.phase, hid.buf, hid.packetSize);
    AddressedFramed(v, w);
    hide DeviceInv, ServiceInv, EpInOk, Addressed, Full, InterruptIn, RingAt, Pushed;
  }

  lemma NoneInFlight(d: Transfers.Device, known: nat, knownIn: nat, epIn: nat, phase: nat)
    requires ServiceInv(d, known, knownIn, epIn, phase) && Pushed(d, epIn) == knownIn && epIn != EP0
    ensures forall r | r in d.live :: r.dci != epIn
  {
    hide Pushed, Sorted;
    forall r | r in d.live ensures r.dci != epIn {
      var i :| 0 <= i < |d.live| && d.live[i] == r;
    }
  }

  lemma ArmedService(d: Transfers.Device, e: Transfers.Device, known: nat, knownIn: nat, epIn: nat, phase: nat,
                     buf: addr, len: int)
    requires ServiceInv(d, known, knownIn, epIn, phase) && Pushed(d, epIn) == knownIn && epIn != EP0 && phase != 1
    requires forall r | r in d.live :: r.dci != epIn
    requires e.live == d.live + [InterruptRequest(epIn, Pushed(d, epIn), buf, len)]
    requires Pushed(e, epIn) == Pushed(d, epIn) + 1 && Pushed(e, EP0) == Pushed(d, EP0)
    ensures ServiceInv(e, known, knownIn, epIn, phase)
  {
    forall i | 0 <= i < |d.live| ensures e.live[i] == d.live[i] && d.live[i].dci != epIn {
      assert d.live[i] in d.live;
    }
    hide Pushed;
  }

  lemma PhaseTwo(v: Usb)
    requires Inv(v) && v.stage.Running? && v.hid.value.phase == 1
    ensures var w := v.(hid := Some(v.hid.value.(phase := 2)));
      Inv(w) && Pushed(w.dev, w.hid.value.epIn) == Known(w, w.hid.value.epIn)
  {
    var w := v.(hid := Some(v.hid.value.(phase := 2)));
    AddressedFramed(v, w);
    PhaseTwoService(v.dev, Known(v, EP0), Known(v, v.hid.value.epIn), v.hid.value.epIn);
    hide DeviceInv, EpInOk, Addressed, Full, RingAt, Known, Pushed, ServiceInv, InUse;
  }

  lemma PhaseTwoService(d: Transfers.Device, known: nat, knownIn: nat, epIn: nat)
    requires ServiceInv(d, known, knownIn, epIn, 1)
    ensures ServiceInv(d, known, knownIn, epIn, 2) && Pushed(d, epIn) == knownIn
  {
    hide Sorted, Pushed;
  }

  /** The request for the next report. */
  function NextReport(u: Usb): Request
    requires u.hid.Some?
  {
    var hid := u.hid.value;
    InterruptRequest(hid.epIn, Pushed(u.dev, hid.epIn), hid.buf, hid.packetSize)
  }

  lemma ControlInService(v: Usb, setup: SetupData, descs: seq<seq<D.byte>>, b: Buffers)
    requires Inv(v) && v.stage.Running? && Has(v.waiters, setup) && Usable(descs)
    ensures Sane(v)
    ensures var w := OnControlCompleted(v, setup, descs, b).0;
      && Inv(w)
      && (v.hid.value.phase == 1 ==>
            w.dev.live == v.dev.live + [NextReport(v)] && w.hid == Some(v.hid.value.(phase := 2)))
      && (v.hid.value.phase != 1 ==> w == v)
  {
    SaneInv(v);
    var hid := v.hid.value;
    if hid.phase == 1 {
      PhaseTwo(v);
      ArmKeepsInv(v.(hid := Some(hid.(phase := 2))));
    }
    hide Inv, RingAt, InterruptIn, Pushed, Usable, Ready;
  }

  lemma InterruptInService(v: Usb)
    requires Inv(v) && v.stage.Running? && v.hid.value.phase != 1
    requires Pushed(v.dev, v.hid.value.epIn) == Known(v, v.hid.value.epIn)
    ensures Armable(v)
    ensures var w := OnInterruptCompleted(v, v.hid.value.epIn).0;
      Inv(w) && w.dev.live == v.dev.live + [NextReport(v)] && w.hid == v.hid
  {
    ArmKeepsInv(v);
    assert v.driverAt[v.hid.value.epIn / 2];
    hide Inv, RingAt, InterruptIn, Pushed;
  }

  lemma SeenFacts(u: Usb, i: nat, residual: nat, code: nat)
    requires Inv(u) && u.stage.Running? && Oldest(u.dev.live, i) && (code == 1 || code == 13)
    ensures Pointed(u.dev, i)
    ensures var v := Seen(u, i, residual, code);
      && Inv(v) && v.stage.Running? && v.dev.rings == u.dev.rings && v.hid == u.hid
      && v.dev.live == Without(u.dev.live, i)
      && (u.dev.live[i].ControlRequest? ==> Has(v.waiters, u.dev.live[i].setup))
      && (u.dev.live[i].InterruptRequest? ==>
            && u.dev.live[i].dci == u.hid.value.epIn && u.hid.value.phase != 1
            && Pushed(v.dev, u.hid.value.epIn) == Known(v, u.hid.value.epIn))
  {
    RetireFacts(u.dev, i, residual, code);
    var r := u.dev.live[i];
    var e := Event(EventPtr(RingAt(u.dev.rings, r.dci).value, r), residual, code);
    RetireKeepsInv(u, OnTransferEvent(u.dev, e).0, i);
    if r.ControlRequest? {
      AddressedHas(u, i);
    }
    hide DeviceInv, OnTransferEvent, EventPtr, Oldest, RingAt, Has, ServiceInv, EpInOk, Addressed,
         Known, Pushed, InUse, Full;
  }

  lemma AddressedHas(u: Usb, i: nat)
    requires Inv(u) && u.stage.Running? && i < |u.dev.live| && u.dev.live[i].ControlRequest?
    ensures Has(u.waiters, u.dev.live[i].setup)
  {
    hide DeviceInv, ServiceInv, EpInOk, Full, InUse, Has, RingAt;
  }

  lemma SameReport(u: Usb, v: Usb)
    requires u.hid.Some? && v.hid == u.hid && v.dev.rings == u.dev.rings
    ensures NextReport(v) == NextReport(u)
  {
  }

  lemma InvParts(u: Usb)
    requires Inv(u) && u.stage.Running?
    ensures DeviceInv(u.dev) && u.hid.Some?
  {
  }

  lemma ReportIsHandled(u: Usb, i: nat, residual: nat, code: nat, descs: seq<seq<D.byte>>, b: Buffers)
    requires Pointed(u.dev, i) && Sane(u) && Usable(descs) && u.dev.live[i].InterruptRequest?
    requires var r := u.dev.live[i];
      OnTransferEvent(u.dev, Event(EventPtr(RingAt(u.dev.rings, r.dci).value, r), residual, code)).1
        == Owed(r, residual)
    requires Armable(Seen(u, i, residual, code))
    ensures OnEvent(u, i, residual, code, descs, b)
            == OnInterruptCompleted(Seen(u, i, residual, code), u.dev.live[i].dci).0
  {
    hide OnTransferEvent, OnControlCompleted, OnInterruptCompleted, RingAt, EventPtr, Usable, Armable, Ready;
  }

  /** In service the first SetProtocol to complete starts the reports, and every report that comes in
      asks for the next one; nothing else changes what is in flight. */
  lemma ServiceCompletes(u: Usb, i: nat, residual: nat, code: nat, descs: seq<seq<D.byte>>, b: Buffers)
    requires Inv(u) && u.stage.Running? && Oldest(u.dev.live, i) && (code == 1 || code == 13) && Usable(descs)
    ensures Pointed(u.dev, i) && Sane(u)
    ensures var w := OnEvent(u, i, residual, code, descs, b);
      var starts := u.dev.live[i].ControlRequest? && u.hid.value.phase == 1;
      && Inv(w)
      && w.dev.live == Without(u.dev.live, i)
                          + (if starts || u.dev.live[i].InterruptRequest? then [NextReport(u)] else [])
      && w.hid == (if starts then Some(u.hid.value.(phase := 2)) else u.hid)
  {
    var r := u.dev.live[i];
    hide *;
    if r.ControlRequest? {
      ControlCompletes(u, i, residual, code, descs, b);
    } else {
      InterruptCompletes(u, i, residual, code, descs, b);
    }
  }

  lemma ControlCompletes(u: Usb, i: nat, residual: nat, code: nat, descs: seq<seq<D.byte>>, b: Buffers)
    requires Inv(u) && u.stage.Running? && Oldest(u.dev.live, i) && (code == 1 || code == 13) && Usable(descs)
    requires i < |u.dev.live| && u.dev.live[i].ControlRequest?
    ensures Pointed(u.dev, i) && Sane(u) && u.hid.Some?
    ensures var w := OnEvent(u, i, residual, code, descs, b);
      var starts := u.hid.value.phase == 1;
      && Inv(w)
      && w.dev.live == Without(u.dev.live, i) + (if starts then [NextReport(u)] else [])
      && w.hid == (if starts then Some(u.hid.value.(phase := 2)) else u.hid)
  {
    hide *;
    SaneInv(u);
    SeenFacts(u, i, residual, code);
    var v := Seen(u, i, residual, code);
    SaneInv(v);
    InvParts(u);
    CompletionIsOwed(u.dev, i, residual, code);
    SameReport(u, v);
    ControlIsHandled(u, i, residual, code, descs, b);
    ControlInService(v, u.dev.live[i].setup, descs, b);
  }

  lemma InterruptCompletes(u: Usb, i: nat, residual: nat, code: nat, descs: seq<seq<D.byte>>, b: Buffers)
    requires Inv(u) && u.stage.Running? && Oldest(u.dev.live, i) && (code == 1 || code == 13) && Usable(descs)
    requires i < |u.dev.live| && u.dev.live[i].InterruptRequest?
    ensures Pointed(u.dev, i) && Sane(u) && u.hid.Some?
    ensures var w := OnEvent(u, i, residual, code, descs, b);
      Inv(w) && w.dev.live == Without(u.dev.live, i) + [NextReport(u)] && w.hid == u.hid
  {
    hide *;
    SaneInv(u);
    SeenFacts(u, i, residual, code);
    var v := Seen(u, i, residual, code);
    SaneInv(v);
    InvParts(u);
    CompletionIsOwed(u.dev, i, residual, code);
    SameReport(u, v);
    ReportIsHandled(u, i, residual, code, descs, b);
    InterruptInService(v);
  }

  // ---- failed transfers

  /** A failed initialisation request leaves the device initialising for good, with a stale entry. */
  lemma FailInitializing(u: Usb)
    requires Inv(u) && u.stage.Initializing? && |u.dev.live| == 1
    ensures Inv(Retire(u, 0))
  {
    FailureKeepsInv(u.dev, 0);
    var v := Retire(u, 0);
    assert v.dev.live == [];
    hide DeviceInv, RingAt, InUse, Full, Expects;
    assert Pushed(v.dev, EP0) == Pushed(u.dev, EP0);
  }

  lemma FailKeepsInv(u: Usb, i: nat)
    requires Inv(u) && Enabled(u, Fail(i))
    ensures Inv(Retire(u, i))
  {
    if u.stage.Running? {
      FailRunning(u, i);
    } else if u.stage.Initializing? {
      FailInitializing(u);
    } else {
      assert false;
    }
    hide Inv;
  }

  lemma FailRunning(u: Usb, i: nat)
    requires Inv(u) && u.stage.Running? && Oldest(u.dev.live, i)
    ensures Inv(Retire(u, i))
  {
    FailureKeepsInv(u.dev, i);
    TableParts(u);
    hide Inv, Oldest, DeviceInv;
    RetireKeepsInv(u, u.dev, i);
    assert u.(dev := u.dev) == u;
  }

  lemma TableParts(u: Usb)
    requires Inv(u)
    ensures DeviceInv(u.dev) && |u.dev.table| == 16 && InUse(u.dev.table) <= 15
  {
    hide DeviceInv, StageInv, InUse, Full;
  }

  lemma CompleteKeepsInv(u: Usb, a: Action, b: Buffers)
    requires Inv(u) && a.Complete? && Enabled(u, a) && BuffersOk(b)
    ensures Sane(u) && Inv(Step(u, a, b))
  {
    SaneInv(u);
    if u.stage.Running? {
      ServiceCompletes(u, a.i, a.residual, a.code, a.descs, b);
    } else if u.stage.Initializing? {
      InitCompleteKeepsInv(u, a.residual, a.code, a.descs, b);
    } else {
      assert false;
    }
    hide Inv, Usable, OnEvent, Sane;
  }

  /** Every call of the port protocol and every event keeps the invariant. */
  lemma StepKeepsInv(u: Usb, a: Action, b: Buffers)
    requires Inv(u) && Enabled(u, a) && BuffersOk(b)
    ensures Sane(u) && Inv(Step(u, a, b))
  {
    SaneInv(u);
    match a {
      case Start => StartKeepsInv(u, b);
      case Rings(base) => RingsKeepInv(u, base);
      case Configured => ConfiguredKeepsInv(u);
      case Complete(_, _, _, _) => CompleteKeepsInv(u, a, b);
      case Fail(i) => FailKeepsInv(u, i);
    }
    hide Inv, StartInitialize, OnEndpointsConfigured, Retire, OnEvent, Enabled;
  }

  ghost predicate Runs(u: Usb, acts: seq<Action>, b: Buffers, v: Usb)
    decreases |acts|
  {
    if acts == [] then u == v
    else Sane(u) && Enabled(u, acts[0]) && Runs(Step(u, acts[0], b), acts[1..], b, v)
  }

  lemma {:induction false} RunKeepsInv(u: Usb, acts: seq<Action>, b: Buffers, v: Usb)
    requires Inv(u) && BuffersOk(b) && Runs(u, acts, b, v)
    ensures Inv(v)
    decreases |acts|
  {
    hide Inv, Step, Enabled, Sane;
    if acts != [] {
      StepKeepsInv(u, acts[0], b);
      RunKeepsInv(Step(u, acts[0], b), acts[1..], b, v);
    }
  }

  lemma NewDeviceInv(base: addr)
    requires base % 64 == 0
    ensures Inv(NewDevice(base))
  {
    FreshRing(base);
    AllFreeUnused(NewDevice(base).dev.table);
    AllFreeHasRoom(NewDevice(base).waiters);
    hide R.ProducerInv, R.InitProducer, InUse, Full;
  }

  lemma AllFreeUnused<K, V>(t: seq<Entry<K, V>>)
    requires forall i | 0 <= i < |t| :: t[i].Free?
    ensures InUse(t) == 0
    decreases |t|
  {
    if t != [] {
      AllFreeUnused(t[..|t| - 1]);
    }
  }

  lemma AllFreeHasRoom<K, V>(t: seq<Entry<K, V>>)
    requires t != [] && t[0].Free?
    ensures !Full(t)
  {
  }

  lemma Bounds(v: Usb)
    requires Inv(v)
    ensures 0 <= Unknown(v, EP0) <= 30
    ensures v.stage.Running? ==> 0 <= Unknown(v, v.hid.value.epIn) <= 1
    ensures v.stage.Running? ==> forall r | r in v.dev.live ::
              r.dci == (if r.ControlRequest? then EP0 else v.hid.value.epIn)
    ensures !v.stage.Running? ==> |v.dev.live| <= 1 && forall r | r in v.dev.live :: r.ControlRequest? && r.dci == EP0
  {
    hide DeviceInv, Full, InUse, EpInOk, Addressed, Sorted, Expects;
    if v.stage.Initializing? && v.dev.live != [] {
      assert v.dev.live[0].ioc < Pushed(v.dev, EP0);
    }
  }

  /** Main theorem: in every run of a device, from its allocation through initialisation and any
      number of reports, with transfers failing anywhere, the TRBs of EP0 not known to be complete
      number at most 30 = buf_size - 2 and those of the interrupt-in ring at most 1: neither ring is
      ever overrun. The setup-stage table is never full, whatever entries failures leave behind. Every
      request in flight is intact and is found by its completion. */
  lemma RingsNeverOverrun(base: addr, acts: seq<Action>, b: Buffers, v: Usb)
    requires base % 64 == 0 && BuffersOk(b) && Runs(NewDevice(base), acts, b, v)
    ensures Inv(v) && DeviceInv(v.dev)
    ensures 0 <= Unknown(v, EP0) <= RING_SIZE - 2
    ensures v.stage.Running? ==> v.hid.Some? && 0 <= Unknown(v, v.hid.value.epIn) <= 1
    ensures InUse(v.dev.table) <= 15 && |v.dev.table| == 16 && !Full(v.dev.table)
    ensures forall i, residual, code | 0 <= i < |v.dev.live| && (code == 1 || code == 13) ::
              Answered(v.dev, i, residual, code)
  {
    NewDeviceInv(base);
    RunKeepsInv(NewDevice(base), acts, b, v);
    Bounds(v);
    FullExactly(v.dev.table);
    hide Full, InUse;
    hide Runs, NewDevice, StageInv, TableOk, RingsOk, AllLive, Distinct;
    forall i: nat, residual: nat, code | 0 <= i < |v.dev.live| && (code == 1 || code == 13)
      ensures Answered(v.dev, i, residual, code)
    {
      CompletionIsOwed(v.dev, i, residual, code);
    }
  }

  /** The completion of request i is passed on with that request's setup packet and buffer. */
  predicate Answered(d: Transfers.Device, i: nat, residual: nat, code: nat)
    requires i < |d.live|
  {
    var r := d.live[i];
    && Pointed(d, i)
    && OnTransferEvent(d, Event(EventPtr(RingAt(d.rings, r.dci).value, r), residual, code)).1 == Owed(r, residual)
  }
}
