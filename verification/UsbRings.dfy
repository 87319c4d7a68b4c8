/** The USB device and the controller on the device's two rings in use: the flow control the rings
    need is nobody's assumption, it follows from what the device and its driver ask for. */
module UsbRings {
  import opened Options
  import opened Trbs
  import R = ProducerRing
  import RingPush
  import opened Transfers
  import opened UsbDevice
  import L = UsbLifetime
  import S = UsbService
  import D = Descriptors
  import UsbRuns
  import UsbBoot

  // ---- growing rings

  /** TRBs as they are handed to `Push`: no Link TRBs, and without a cycle bit. */
  predicate NoLinks(ts: seq<Trb>) { forall i | 0 <= i < |ts| :: ts[i].ctl.ty != LINK && Payload(ts[i]) == ts[i] }

  /** A ring after several pushes. */
  function PushAll(p: R.Producer, ts: seq<Trb>): R.Producer
    requires Pushable(p)
    decreases |ts|
  {
    if ts == [] then p else PushAll(RingPush.Push(p, ts[0]), ts[1..])
  }

  ghost predicate Grew(p: R.Producer, q: R.Producer) {
    exists ts: seq<Trb> :: NoLinks(ts) && Pushable(p) && q == PushAll(p, ts)
  }

  lemma {:induction false} PushAllMore(p: R.Producer, ts: seq<Trb>, more: seq<Trb>)
    requires Pushable(p)
    ensures Pushable(PushAll(p, ts)) && PushAll(p, ts + more) == PushAll(PushAll(p, ts), more)
    decreases |ts|
  {
    if ts == [] {
      assert ts + more == more;
    } else {
      assert (ts + more)[1..] == ts[1..] + more;
      PushAllMore(RingPush.Push(p, ts[0]), ts[1..], more);
    }
  }

  lemma GrewOn(p: R.Producer, q: R.Producer, t: Trb)
    requires Grew(p, q) && t.ctl.ty != LINK && Payload(t) == t
    ensures Pushable(q) && Grew(p, RingPush.Push(q, t))
  {
    var ts :| NoLinks(ts) && Pushable(p) && q == PushAll(p, ts);
    PushAllMore(p, ts, [t]);
    assert PushAll(q, [t]) == RingPush.Push(q, t) by { assert [t][1..] == []; }
    assert NoLinks(ts + [t]);
    hide RingPush.Push;
  }

  lemma GrewNone(p: R.Producer)
    requires Pushable(p)
    ensures Grew(p, p)
  {
    assert NoLinks([]) && p == PushAll(p, []);
  }

  lemma GrewTwice(p: R.Producer, q: R.Producer, r: R.Producer)
    requires Grew(p, q) && Grew(q, r)
    ensures Grew(p, r)
  {
    var ts :| NoLinks(ts) && Pushable(p) && q == PushAll(p, ts);
    var us :| NoLinks(us) && Pushable(q) && r == PushAll(q, us);
    PushAllMore(p, ts, us);
    assert NoLinks(ts + us);
  }

  /** The rings of a device only grow. */
  ghost predicate AllGrew(d: Transfers.Device, e: Transfers.Device) {
    forall dci | RingAt(d.rings, dci).Some? ::
      RingAt(e.rings, dci).Some? && Grew(RingAt(d.rings, dci).value, RingAt(e.rings, dci).value)
  }

  /** Pushable rings throughout. */
  ghost predicate AllPushable(d: Transfers.Device) {
    forall dci | RingAt(d.rings, dci).Some? :: Pushable(RingAt(d.rings, dci).value)
  }

  lemma NoneGrew(d: Transfers.Device, e: Transfers.Device)
    requires AllPushable(d) && e.rings == d.rings
    ensures AllGrew(d, e) && AllPushable(e)
  {
    forall dci | RingAt(d.rings, dci).Some?
      ensures Grew(RingAt(d.rings, dci).value, RingAt(e.rings, dci).value)
    {
      GrewNone(RingAt(d.rings, dci).value);
    }
    hide Grew, RingAt;
  }

  lemma AllGrewTwice(d: Transfers.Device, e: Transfers.Device, f: Transfers.Device)
    requires AllGrew(d, e) && AllGrew(e, f)
    ensures AllGrew(d, f)
  {
    forall dci | RingAt(d.rings, dci).Some?
      ensures RingAt(f.rings, dci).Some? && Grew(RingAt(d.rings, dci).value, RingAt(f.rings, dci).value)
    {
      GrewTwice(RingAt(d.rings, dci).value, RingAt(e.rings, dci).value, RingAt(f.rings, dci).value);
    }
  }

  lemma OneGrew(d: Transfers.Device, e: Transfers.Device, dci: nat, q: R.Producer)
    requires AllPushable(d) && 1 <= dci <= |d.rings| && RingAt(d.rings, dci).Some?
    requires Grew(RingAt(d.rings, dci).value, q) && Pushable(q)
    requires e.rings == SetRing(d, dci, q).rings
    ensures AllGrew(d, e) && AllPushable(e)
  {
    L.SetRingFacts(d, dci, q);
    forall x | RingAt(d.rings, x).Some?
      ensures RingAt(e.rings, x).Some? && Grew(RingAt(d.rings, x).value, RingAt(e.rings, x).value)
    {
      GrewNone(RingAt(d.rings, x).value);
    }
    hide Grew, SetRing, RingAt, Pushable;
  }

  lemma ControlGrew(p: R.Producer, setup: SetupData, buf: addr, len: int, dirIn: bool)
    requires Pushable(p)
    ensures Grew(p, PushControl(p, setup, buf, len, dirIn)) && Pushable(PushControl(p, setup, buf, len, dirIn))
  {
    hide RingPush.Push, Grew;
    GrewNone(p);
    GrewOn(p, p, MakeSetupStage(setup, StageOf(buf, dirIn)));
    var q := RingPush.Push(p, MakeSetupStage(setup, StageOf(buf, dirIn)));
    GrewOn(p, q, Interrupting(buf, len, dirIn));
    var r := RingPush.Push(q, Interrupting(buf, len, dirIn));
    GrewOn(p, r, MakeStatusStage(!dirIn, false));
    var s := RingPush.Push(r, MakeStatusStage(!dirIn, false));
    GrewOn(p, s, MakeStatusStage(!dirIn, false));
  }

  lemma IssueGrew(u: Usb, setup: SetupData, buf: addr, len: int, dirIn: bool)
    requires AllPushable(u.dev) && Ready(u)
    ensures AllGrew(u.dev, Issue(u, setup, buf, len, dirIn).dev) && AllPushable(Issue(u, setup, buf, len, dirIn).dev)
  {
    var p := RingAt(u.dev.rings, EP0).value;
    ControlGrew(p, setup, buf, len, dirIn);
    hide Grew, PushControl, Pushable, AllPushable, AllGrew;
    OneGrew(u.dev, Issue(u, setup, buf, len, dirIn).dev, EP0, PushControl(p, setup, buf, len, dirIn));
  }

  lemma ArmGrew(u: Usb)
    requires AllPushable(u.dev) && u.hid.Some? && Armable(u)
    ensures AllGrew(u.dev, Arm(u).dev) && AllPushable(Arm(u).dev)
  {
    var ep := u.hid.value.epIn;
    if RingAt(u.dev.rings, ep).Some? {
      var p := RingAt(u.dev.rings, ep).value;
      GrewNone(p);
      GrewOn(p, p, MakeNormal(u.hid.value.buf, u.hid.value.packetSize));
      hide Grew, RingPush.Push;
      GrewOn(p, RingPush.Push(p, MakeNormal(u.hid.value.buf, u.hid.value.packetSize)), BLANK);
      OneGrew(u.dev, Arm(u).dev, ep, RingPush.Push(p, MakeNormal(u.hid.value.buf, u.hid.value.packetSize)));
    } else {
      NoneGrew(u.dev, Arm(u).dev);
    }
  }

  /** A handler's effect on the rings, from a state with the same rings. */
  lemma ControlHandlerGrew(u: Usb, setup: SetupData, descs: seq<seq<D.byte>>, b: Buffers)
    requires AllPushable(u.dev) && Ready(u) && |u.driverAt| == 16 && Usable(descs) && (u.initialized ==> Armable(u))
    ensures AllGrew(u.dev, OnControlCompleted(u, setup, descs, b).0.dev)
  {
    var v := OnControlCompleted(u, setup, descs, b).0;
    NoneGrew(u.dev, u.dev);
    hide AllGrew, AllPushable, ControlTransfer, InterruptIn, D.Select, Assign;
    if u.initialized {
      if u.hid.Some? && u.hid.value.phase == 1 {
        ArmGrew(u.(hid := Some(u.hid.value.(phase := 2))));
      }
    } else if u.phase == 1 {
      IssueGrew(u.(phase := 2), SetupData(0x80, GET_DESCRIPTOR, 0x200, 0, BUFFER_SIZE), b.device, BUFFER_SIZE, true);
    } else if u.phase == 2 && setup.request == GET_DESCRIPTOR && FirstTypeIs(descs, 2) {
      PhaseTwoGrew(u, descs, b);
    }
  }

  lemma PhaseTwoGrew(u: Usb, descs: seq<seq<D.byte>>, b: Buffers)
    requires AllPushable(u.dev) && Ready(u) && |u.driverAt| == 16 && FirstTypeIs(descs, 2) && Usable(descs)
    ensures AllGrew(u.dev, Phase2(u, descs, b).0.dev)
  {
    NoneGrew(u.dev, u.dev);
    if D.Select(descs).Selected? {
      IssueGrew(u, SetupData(0, SET_CONFIGURATION, descs[0][5], 0, 0), 0, 0, false);
    }
    hide AllGrew, AllPushable, ControlTransfer, D.Select, Assign, D.AllWellformed;
  }

  lemma {:induction false} ConfiguredGrew(u: Usb, n: nat)
    requires n <= 16 && AllPushable(u.dev) && Ready(u) && |u.driverAt| == 16
    ensures AllGrew(u.dev, OnEndpointsConfigured(u, n).dev)
    decreases 16 - n
  {
    hide AllGrew, AllPushable, ControlTransfer, Ready;
    NoneGrew(u.dev, u.dev);
    if n < 16 && u.driverAt[n] && u.hid.Some? {
      IssueGrew(u, SetProtocolSetup(u.hid.value.(phase := 1)), 0, 0, false);
      var v := SetProtocol(u);
      if Ready(v) {
        ConfiguredGrew(v, n + 1);
        AllGrewTwice(u.dev, v.dev, OnEndpointsConfigured(v, n + 1).dev);
      }
    } else if n < 16 {
      ConfiguredGrew(u, n + 1);
    }
  }

  lemma EventKeepsRings(d: Transfers.Device, e: Event)
    ensures OnTransferEvent(d, e).0.rings == d.rings
  {
  }

  lemma EventGrew(u: Usb, i: nat, residual: nat, code: nat, descs: seq<seq<D.byte>>, b: Buffers)
    requires AllPushable(u.dev) && L.Pointed(u.dev, i) && L.Sane(u) && Usable(descs)
    ensures AllGrew(u.dev, L.OnEvent(u, i, residual, code, descs, b).dev)
  {
    var r := u.dev.live[i];
    var e := Event(EventPtr(RingAt(u.dev.rings, r.dci).value, r), residual, code);
    EventKeepsRings(u.dev, e);
    var (dev, completion) := OnTransferEvent(u.dev, e);
    var v := L.Retire(u.(dev := dev.(live := u.dev.live)), i);
    assert v.dev.rings == u.dev.rings;
    NoneGrew(u.dev, v.dev);
    hide AllGrew, AllPushable, OnTransferEvent, L.Retire, Usable, RingAt, EventPtr, OnInterruptCompleted;
    match completion {
      case Rejected(_) =>
      case ControlCompleted(setup, buf, len) =>
        hide OnControlCompleted, Ready, Armable;
        if Ready(v) && (v.initialized ==> Armable(v)) {
          assert |v.driverAt| == 16 by { RetireKeepsDrivers(u.(dev := dev.(live := u.dev.live)), i); }
          ControlHandlerGrew(v, setup, descs, b);
          AllGrewTwice(u.dev, v.dev, OnControlCompleted(v, setup, descs, b).0.dev);
        }
      case InterruptCompleted(buf, len) =>
        hide OnControlCompleted, Ready, Armable;
        assert |v.driverAt| == 16 by { RetireKeepsDrivers(u.(dev := dev.(live := u.dev.live)), i); }
        if Armable(v) {
          InterruptHandlerGrew(v, r.dci);
          AllGrewTwice(u.dev, v.dev, OnInterruptCompleted(v, r.dci).0.dev);
        }
    }
  }

  lemma RetireKeepsDrivers(u: Usb, i: nat)
    requires i < |u.dev.live|
    ensures L.Retire(u, i).driverAt == u.driverAt
  {
  }

  lemma InterruptHandlerGrew(v: Usb, ep: nat)
    requires AllPushable(v.dev) && |v.driverAt| == 16 && Armable(v) && ep <= ENDPOINTS
    ensures AllGrew(v.dev, OnInterruptCompleted(v, ep).0.dev)
  {
    NoneGrew(v.dev, v.dev);
    if v.hid.Some? {
      ArmGrew(v);
    }
    hide AllGrew, AllPushable, InterruptIn;
  }

  /** Except for the allocation of rings, every step only pushes to them. */
  lemma StepGrew(u: Usb, a: L.Action, b: Buffers)
    requires AllPushable(u.dev) && L.Sane(u) && L.Enabled(u, a) && !a.Rings?
    ensures AllGrew(u.dev, L.Step(u, a, b).dev)
  {
    hide AllGrew, AllPushable, ControlTransfer, L.OnEvent, OnEndpointsConfigured;
    match a
    case Start =>
      IssueGrew(u.(initialized := false, phase := 1, stage := Initializing),
                SetupData(0x80, GET_DESCRIPTOR, 0x100, 0, BUFFER_SIZE), b.device, BUFFER_SIZE, true);
    case Configured => ConfiguredGrew(u, 0);
    case Complete(i, residual, code, descs) => EventGrew(u, i, residual, code, descs, b);
    case Fail(i) => NoneGrew(u.dev, L.Retire(u, i).dev);
  }

  lemma {:induction false} PushedBy(p: R.Producer, ts: seq<Trb>)
    requires Pushable(p) && NoLinks(ts)
    ensures PushAll(p, ts).pushed == p.pushed + ts && |PushAll(p, ts).mem| == |p.mem| && Pushable(PushAll(p, ts))
    decreases |ts|
  {
    if ts != [] {
      PushedBy(RingPush.Push(p, ts[0]), ts[1..]);
      assert p.pushed + [ts[0]] + ts[1..] == p.pushed + ts;
    }
  }

  /** What a ring has grown by can be read off what was pushed. */
  lemma GrewBy(p: R.Producer, q: R.Producer)
    requires Grew(p, q)
    ensures p.pushed <= q.pushed && NoLinks(q.pushed[|p.pushed|..]) && |q.mem| == |p.mem|
    ensures Pushable(p) && Pushable(q) && q == PushAll(p, q.pushed[|p.pushed|..])
  {
    var ts :| NoLinks(ts) && Pushable(p) && q == PushAll(p, ts);
    PushedBy(p, ts);
    assert q.pushed[|p.pushed|..] == ts;
  }

  // ---- a push in progress

  /** Steps left of a push. */
  function Left(pc: R.Pc): nat {
    match pc
    case Idle => 0
    case Data(k, _) => if k <= 4 then 11 - k else 7
    case Link(k) => if k <= 4 then 5 - k else 1
  }

  /** The ring once the push in progress is done. */
  function Finish(p: R.Producer, pc: R.Pc): R.Producer
    decreases Left(pc)
  {
    if pc.Idle? || p.writeIndex >= |p.mem| then p
    else var (q, qc) := R.Produce(p, pc); Finish(q, qc)
  }

  lemma {:induction false} FinishStep(p: R.Producer, pc: R.Pc, n: nat)
    requires p.writeIndex < |p.mem|
    ensures Finish(RingPush.ProduceN(p, pc, n).0, RingPush.ProduceN(p, pc, n).1) == Finish(p, pc)
    decreases n
  {
    hide R.Produce;
    if n > 0 {
      FinishStep(p, pc, n - 1);
      FinishOne(RingPush.ProduceN(p, pc, n - 1).0, RingPush.ProduceN(p, pc, n - 1).1);
    }
  }

  lemma FinishOne(p: R.Producer, pc: R.Pc)
    ensures p.writeIndex < |p.mem| ==> Finish(R.Produce(p, pc).0, R.Produce(p, pc).1) == Finish(p, pc)
  {
  }

  /** A push just begun will be the whole push. */
  lemma FinishIsPush(p: R.Producer, d: Trb)
    requires R.ProducerInv(p, R.Idle) && d.ctl.ty != LINK
    ensures p.writeIndex < |p.mem| && Finish(p, R.Data(0, d)) == RingPush.Push(p, d)
  {
    RingPush.StepsMakePush(p, d);
    FinishStep(p, R.Data(0, d), RingPush.PushSteps(p));
    hide *;
    FinishIdle(RingPush.Push(p, d));
  }

  lemma FinishIdle(p: R.Producer)
    ensures Finish(p, R.Idle) == p
  {
  }

  // ---- a ring between its device and its controller

  /** The ring in memory with the push in progress and the controller's place; then the TRBs the handler
      has still to push. */
  datatype Line = Line(s: R.Sys, todo: seq<Trb>)

  /** The handler is done with this ring. */
  predicate Quiet(l: Line) { l.s.pc.Idle? && l.todo == [] }

  /** Software's next step on a ring: the next store of a push, or the next push. */
  function StoreOn(l: Line): Line
    requires R.InBounds(l.s)
  {
    if !l.s.pc.Idle? then l.(s := R.Next(l.s, R.ProducerStep))
    else if l.todo != [] then Line(R.Next(l.s, R.BeginPush(l.todo[0])), l.todo[1..])
    else l
  }

  function FetchFrom(l: Line): Line
    requires R.InBounds(l.s)
  {
    l.(s := R.Next(l.s, R.ConsumerStep))
  }

  /** What the handler leaves to be pushed for a ring to be as it sees it. */
  function Renewed(l: Line, q: R.Producer): Line {
    l.(todo := if |l.s.p.pushed| <= |q.pushed| then q.pushed[|l.s.p.pushed|..] else [])
  }

  /** The ring protocol's invariant; once all is pushed the ring is the one the device sees, and there is
      room for all of it. */
  ghost predicate Carries(l: Line, q: R.Producer) {
    && R.Inv(l.s) && NoLinks(l.todo) && Pushable(Finish(l.s.p, l.s.pc))
    && q == PushAll(Finish(l.s.p, l.s.pc), l.todo) && |q.mem| == |l.s.p.mem|
    && |q.pushed| - |l.s.c.consumed| <= R.Slots(l.s.p) - 1
  }

  lemma CarriesInBounds(l: Line, q: R.Producer)
    requires Carries(l, q)
    ensures R.InBounds(l.s)
  {
    R.ConsumedIsPrefix(l.s);
    hide R.Inv, PushAll, Finish;
  }

  lemma BeginKeepsCarries(l: Line, q: R.Producer)
    requires Carries(l, q) && l.s.pc.Idle? && l.todo != []
    ensures R.InBounds(l.s) && Carries(StoreOn(l), q)
  {
    CarriesInBounds(l, q);
    assert R.ProducerInv(l.s.p, R.Idle);
    FinishIdle(l.s.p);
    PushedBy(l.s.p, l.todo);
    FinishIsPush(l.s.p, l.todo[0]);
    PushIsPushable(l.s.p, l.todo[0]);
    RoomToBegin(l.s, l.todo, q);
    hide R.ProducerInv, R.ConsumerInv, RingPush.Push, Finish;
    R.NextKeepsInv(l.s, R.BeginPush(l.todo[0]));
  }

  lemma PushIsPushable(p: R.Producer, t: Trb)
    requires Pushable(p)
    ensures Pushable(RingPush.Push(p, t))
  {
  }

  lemma RoomToBegin(s: R.Sys, todo: seq<Trb>, q: R.Producer)
    requires R.Inv(s) && s.pc.Idle? && todo != [] && NoLinks(todo) && |q.pushed| == |s.p.pushed| + |todo|
    requires |q.pushed| - |s.c.consumed| <= R.Slots(s.p) - 1
    ensures R.Enabled(s, R.BeginPush(todo[0]))
  {
    hide R.ProducerInv, R.ConsumerInv;
  }

  lemma StoreKeepsCarries(l: Line, q: R.Producer)
    requires Carries(l, q)
    ensures R.InBounds(l.s) && Carries(StoreOn(l), q)
  {
    CarriesInBounds(l, q);
    if !l.s.pc.Idle? {
      R.NextKeepsInv(l.s, R.ProducerStep);
      FinishOne(l.s.p, l.s.pc);
      ProduceKeepsSize(l.s.p, l.s.pc);
      hide R.Inv, Finish, PushAll, R.Produce, NoLinks;
    } else if l.todo != [] {
      BeginKeepsCarries(l, q);
    }
  }

  lemma ProduceKeepsSize(p: R.Producer, pc: R.Pc)
    requires p.writeIndex < |p.mem|
    ensures |R.Produce(p, pc).0.mem| == |p.mem|
  {
  }

  lemma FetchKeepsCarries(l: Line, q: R.Producer)
    requires Carries(l, q)
    ensures R.InBounds(l.s) && Carries(FetchFrom(l), q) && |l.s.c.consumed| <= |FetchFrom(l).s.c.consumed|
  {
    CarriesInBounds(l, q);
    R.NextKeepsInv(l.s, R.ConsumerStep);
    FetchOnlyAdds(l.s.p, l.s.c);
    hide R.Inv, Finish, PushAll, R.Consume, NoLinks;
  }

  lemma FetchOnlyAdds(p: R.Producer, c: R.Consumer)
    requires c.index < |p.mem|
    ensures c.consumed <= R.Consume(p, c).consumed
  {
  }

  /** A handler's pushes, with room for all of them. */
  lemma RenewedCarries(l: Line, p: R.Producer, q: R.Producer)
    requires Carries(l, p) && Quiet(l) && Grew(p, q) && |q.pushed| - |l.s.c.consumed| <= R.Slots(p) - 1
    ensures Carries(Renewed(l, q), q)
  {
    FinishIdle(l.s.p);
    assert p == l.s.p;
    GrewBy(p, q);
    hide R.Inv, Finish, Grew;
  }

  lemma QuietIsRing(l: Line, q: R.Producer)
    requires Carries(l, q) && Quiet(l)
    ensures l.s.p == q
  {
    FinishIdle(l.s.p);
  }

  // ---- the device and its controller

  /** The device, its ring of EP0, and its ring of the endpoint that SetEndpoints chose for reports. */
  datatype Host = Host(u: Usb, control: Line, report: Line)

  /** A handler runs; one step of its pushes, or of the controller, on one of the rings. */
  datatype Action = Software(a: L.Action) | StoreControl | StoreReport | FetchControl | FetchReport

  predicate InService(u: Usb) { u.hid.Some? && (u.stage.RingsReady? || u.stage.Running?) }

  function LineOf(h: Host, dci: nat): Line { if dci == EP0 then h.control else h.report }

  predicate Fits(h: Host) {
    && L.Sane(h.u) && R.InBounds(h.control.s)
    && (InService(h.u) ==> R.InBounds(h.report.s))
  }

  /** A handler runs once the one before has made all its pushes; an event is sent only for a TRB that
      the controller has taken off its ring. */
  predicate Enabled(h: Host, a: Action) {
    match a
    case Software(x) =>
      && L.Enabled(h.u, x) && Quiet(h.control) && (InService(h.u) ==> Quiet(h.report))
      && (x.Complete? || x.Fail? ==> h.u.dev.live[x.i].ioc < |LineOf(h, h.u.dev.live[x.i].dci).s.c.consumed|)
    case StoreControl => true
    case FetchControl => true
    case StoreReport => InService(h.u)
    case FetchReport => InService(h.u)
  }

  /** A ring as the device sees it. */
  function Ring(u: Usb, dci: nat): R.Producer {
    if RingAt(u.dev.rings, dci).Some? then RingAt(u.dev.rings, dci).value else R.InitProducer(0, RING_SIZE)
  }

  function Fresh(p: R.Producer): Line { Line(R.Sys(p, R.Idle, R.CONSUMER_START), []) }

  function Next(h: Host, a: Action, b: Buffers): Host
    requires Fits(h) && Enabled(h, a)
  {
    match a
    case Software(x) =>
      var v := L.Step(h.u, x, b);
      Host(v, Renewed(h.control, Ring(v, EP0)),
           if !InService(v) then h.report
           else if x.Rings? then Fresh(Ring(v, v.hid.value.epIn))
           else Renewed(h.report, Ring(v, v.hid.value.epIn)))
    case StoreControl => h.(control := StoreOn(h.control))
    case FetchControl => h.(control := FetchFrom(h.control))
    case StoreReport => h.(report := StoreOn(h.report))
    case FetchReport => h.(report := FetchFrom(h.report))
  }

  /** The device's ring is carried; what is known to be complete has been consumed. */
  ghost predicate Carried(u: Usb, dci: nat, l: Line) {
    RingAt(u.dev.rings, dci).Some? && Carries(l, Ring(u, dci)) && L.Known(u, dci) <= |l.s.c.consumed|
  }

  ghost predicate Inv(h: Host) {
    && L.Inv(h.u) && Carried(h.u, EP0, h.control)
    && (InService(h.u) ==> Carried(h.u, h.u.hid.value.epIn, h.report))
  }

  lemma InvFits(h: Host)
    requires Inv(h)
    ensures Fits(h)
  {
    L.SaneInv(h.u);
    CarriesInBounds(h.control, Ring(h.u, EP0));
    if InService(h.u) {
      CarriesInBounds(h.report, Ring(h.u, h.u.hid.value.epIn));
    }
    hide L.Inv, L.Sane, Carries;
  }

  // What a step leaves of `known` and of the chosen endpoint.

  lemma HandlersKeepKnown(u: Usb, setup: SetupData, descs: seq<seq<D.byte>>, b: Buffers, ep: nat)
    requires Ready(u) && |u.driverAt| == 16 && Usable(descs) && ep <= ENDPOINTS
    ensures (u.initialized ==> Armable(u)) ==>
              var v := OnControlCompleted(u, setup, descs, b).0;
              && v.known == u.known && (u.initialized ==> v.initialized)
              && (v.stage == u.stage || (!u.initialized && v.stage.Initialized?))
    ensures Armable(u) ==>
              var v := OnInterruptCompleted(u, ep).0;
              v.known == u.known && v.stage == u.stage && v.initialized == u.initialized
  {
    hide ControlTransfer, InterruptIn, D.Select, Assign, Ready, Armable;
  }

  lemma {:induction false} ConfiguredKeepsKnown(u: Usb, n: nat)
    requires n <= 16 && Ready(u) && |u.driverAt| == 16
    ensures OnEndpointsConfigured(u, n).known == u.known
    decreases 16 - n
  {
    hide ControlTransfer, Ready;
    if n < 16 {
      if u.driverAt[n] && u.hid.Some? {
        var v := SetProtocol(u);
        if Ready(v) {
          ConfiguredKeepsKnown(v, n + 1);
        }
      } else {
        ConfiguredKeepsKnown(u, n + 1);
      }
    }
  }

  /** The event of request i vouches for its TRB and all before it on the same ring. */
  function KnownAfter(u: Usb, a: L.Action): map<nat, nat> {
    if (a.Complete? || a.Fail?) && a.i < |u.dev.live| then u.known[u.dev.live[a.i].dci := u.dev.live[a.i].ioc + 1]
    else u.known
  }

  lemma StepKnown(u: Usb, a: L.Action, b: Buffers)
    requires L.Sane(u) && L.Enabled(u, a)
    ensures L.Step(u, a, b).known == KnownAfter(u, a)
  {
    match a
    case Start => hide ControlTransfer;
    case Rings(base) => hide AllocRings;
    case Configured => ConfiguredKeepsKnown(u, 0); hide OnEndpointsConfigured;
    case Complete(i, residual, code, descs) => EventKnown(u, i, residual, code, descs, b); hide L.OnEvent;
    case Fail(i) =>
  }

  lemma EventKnown(u: Usb, i: nat, residual: nat, code: nat, descs: seq<seq<D.byte>>, b: Buffers)
    requires L.Pointed(u.dev, i) && L.Sane(u) && Usable(descs)
    ensures var v := L.OnEvent(u, i, residual, code, descs, b);
      && v.known == u.known[u.dev.live[i].dci := u.dev.live[i].ioc + 1]
      && (u.initialized ==> v.initialized) && (v.stage == u.stage || (!u.initialized && v.stage.Initialized?))
  {
    var r := u.dev.live[i];
    var e := Event(EventPtr(RingAt(u.dev.rings, r.dci).value, r), residual, code);
    EventKeepsRings(u.dev, e);
    var (dev, completion) := OnTransferEvent(u.dev, e);
    var v := L.Retire(u.(dev := dev.(live := u.dev.live)), i);
    assert v.dev.rings == u.dev.rings && v.driverAt == u.driverAt && Ready(v);
    assert v.known == u.known[r.dci := r.ioc + 1] && v.stage == u.stage && v.initialized == u.initialized;
    hide OnTransferEvent, L.Retire, Usable, RingAt, EventPtr, OnInterruptCompleted, OnControlCompleted, Ready, Armable;
    match completion {
      case Rejected(_) =>
      case ControlCompleted(setup, buf, len) => HandlersKeepKnown(v, setup, descs, b, r.dci);
      case InterruptCompleted(buf, len) => HandlersKeepKnown(v, SetupData(0, 0, 0, 0, 0), descs, b, r.dci);
    }
  }

  /** A device comes into service by the allocation of rings, and keeps its endpoint. */
  lemma StaysInService(u: Usb, a: L.Action, b: Buffers)
    requires L.Inv(u) && L.Enabled(u, a) && BuffersOk(b) && !a.Rings?
    requires L.Sane(u) && InService(L.Step(u, a, b))
    ensures InService(u) && L.Step(u, a, b).stage.Running?
    ensures L.Step(u, a, b).hid.value.epIn == u.hid.value.epIn
  {
    match a
    case Start => hide L.Inv, ControlTransfer;
    case Configured =>
      UsbBoot.ServiceBegins(u, b);
      hide L.Inv, OnEndpointsConfigured;
    case Complete(i, residual, code, descs) =>
      EventKnown(u, i, residual, code, descs, b);
      assert u.dev.live != [];
      if u.stage.Running? {
        UsbRuns.ServiceCompletes(u, i, residual, code, descs, b);
      }
      hide L.OnEvent, Usable, RingAt, DeviceInv;
    case Fail(i) =>
      assert u.dev.live != [];
      hide RingAt, DeviceInv;
  }

  // ---- every step keeps the product's invariant

  lemma RingsArePushable(u: Usb)
    requires L.Inv(u)
    ensures AllPushable(u.dev)
    ensures forall dci | RingAt(u.dev.rings, dci).Some? :: |RingAt(u.dev.rings, dci).value.mem| >= 4
  {
    forall dci | RingAt(u.dev.rings, dci).Some?
      ensures Pushable(RingAt(u.dev.rings, dci).value) && |RingAt(u.dev.rings, dci).value.mem| >= 4
    {
      assert R.ProducerInv(u.dev.rings[dci - 1].value, R.Idle);
      ProducerFacts(u.dev.rings[dci - 1].value);
    }
    hide L.Inv, R.ProducerInv;
  }

  /** A ring that a handler has grown within its bound is still carried. */
  lemma CarriedOn(u: Usb, v: Usb, dci: nat, l: Line)
    requires Carried(u, dci, l) && Quiet(l) && AllGrew(u.dev, v.dev) && L.Known(v, dci) <= |l.s.c.consumed|
    requires L.Unknown(v, dci) <= |RingAt(u.dev.rings, dci).value.mem| - 2
    ensures Carried(v, dci, Renewed(l, Ring(v, dci)))
  {
    RenewedCarries(l, Ring(u, dci), Ring(v, dci));
    hide Carries, Grew, L.Known;
  }

  lemma KnownIsConsumed(h: Host, a: L.Action, b: Buffers, dci: nat, l: Line)
    requires Fits(h) && Enabled(h, Software(a)) && Carried(h.u, dci, l)
    requires l == LineOf(h, dci)
    ensures L.Known(L.Step(h.u, a, b), dci) <= |l.s.c.consumed|
  {
    StepKnown(h.u, a, b);
    hide L.Step, Carries, L.Sane;
  }

  lemma DeviceKeepsInv(h: Host, a: L.Action, b: Buffers)
    requires Inv(h) && Fits(h) && Enabled(h, Software(a)) && BuffersOk(b) && !a.Rings?
    ensures Inv(Next(h, Software(a), b))
  {
    var u, v := h.u, L.Step(h.u, a, b);
    UsbRuns.StepKeepsInv(u, a, b);
    RingsArePushable(u);
    StepGrew(u, a, b);
    UsbRuns.Bounds(v);
    KnownIsConsumed(h, a, b, EP0, h.control);
    if InService(v) {
      StaysInService(u, a, b);
      NotEp0(u);
      KnownIsConsumed(h, a, b, u.hid.value.epIn, h.report);
    }
    Ep0Size(u);
    hide L.Inv, L.Step, L.Sane, L.Enabled, AllGrew, AllPushable, Carried, L.Unknown, Quiet, Renewed;
    CarriedOn(u, v, EP0, h.control);
    if InService(v) {
      CarriedOn(u, v, u.hid.value.epIn, h.report);
    }
  }

  lemma NotEp0(u: Usb)
    requires L.Inv(u) && InService(u)
    ensures u.hid.value.epIn != EP0
  {
    hide DeviceInv;
  }

  lemma Ep0Size(u: Usb)
    requires L.Inv(u)
    ensures RingAt(u.dev.rings, EP0).Some? && |RingAt(u.dev.rings, EP0).value.mem| == RING_SIZE
  {
    hide DeviceInv, L.StageInv;
  }

  /** Fresh rings: the controller starts at their base with cycle state 1. */
  lemma RingsKeepInv(h: Host, base: seq<addr>, b: Buffers)
    requires Inv(h) && Fits(h) && Enabled(h, Software(L.Rings(base))) && BuffersOk(b)
    ensures Inv(Next(h, Software(L.Rings(base)), b))
  {
    var u, v := h.u, L.Step(h.u, L.Rings(base), b);
    UsbRuns.StepKeepsInv(u, L.Rings(base), b);
    S.AllocFacts(u.dev, u.configs, base);
    var i :| 0 <= i < |u.configs| && u.configs[i].transferType == 3 && Address(u.configs[i]) == u.hid.value.epIn;
    R.InitInv(base[u.hid.value.epIn], RING_SIZE);
    hide L.Inv, DeviceInv, AllocRings, R.Inv, RingAt, R.InitProducer, Carries;
    NothingNew(u, v, h.control);
    FreshCarried(v, v.hid.value.epIn, base[u.hid.value.epIn]);
  }

  lemma NothingNew(u: Usb, v: Usb, l: Line)
    requires Carried(u, EP0, l) && Quiet(l) && RingAt(v.dev.rings, EP0) == RingAt(u.dev.rings, EP0)
    requires L.Known(v, EP0) == L.Known(u, EP0)
    ensures Carried(v, EP0, Renewed(l, Ring(v, EP0)))
  {
    QuietIsRing(l, Ring(u, EP0));
    assert Renewed(l, Ring(v, EP0)) == l;
    hide Carries, L.Known;
  }

  lemma FreshCarried(v: Usb, dci: nat, base: addr)
    requires RingAt(v.dev.rings, dci) == Some(R.InitProducer(base, RING_SIZE))
    requires R.Inv(R.Init(base, RING_SIZE)) && L.Inv(v) && v.stage.RingsReady? && dci == v.hid.value.epIn
    ensures Carried(v, dci, Fresh(Ring(v, dci)))
  {
    assert L.Known(v, dci) == |R.InitProducer(base, RING_SIZE).pushed| == 0;
    StartCarries(base);
    hide DeviceInv, R.Inv, Carries;
  }

  lemma StartCarries(base: addr)
    requires R.Inv(R.Init(base, RING_SIZE))
    ensures Carries(Fresh(R.InitProducer(base, RING_SIZE)), R.InitProducer(base, RING_SIZE))
  {
    FinishIdle(R.InitProducer(base, RING_SIZE));
    hide R.Inv, Finish;
  }

  lemma LineKeepsCarried(u: Usb, dci: nat, l: Line)
    requires Carried(u, dci, l)
    ensures R.InBounds(l.s) && Carried(u, dci, StoreOn(l)) && Carried(u, dci, FetchFrom(l))
  {
    StoreKeepsCarries(l, Ring(u, dci));
    FetchKeepsCarries(l, Ring(u, dci));
    StoreConsumesNothing(l);
    hide Carries, StoreOn, FetchFrom, L.Known;
  }

  lemma StoreConsumesNothing(l: Line)
    requires R.InBounds(l.s)
    ensures StoreOn(l).s.c == l.s.c
  {
  }

  /** Every step of device, driver and controller keeps the invariant of both rings. */
  lemma NextKeepsInv(h: Host, a: Action, b: Buffers)
    requires Inv(h) && BuffersOk(b) && Fits(h) && Enabled(h, a)
    ensures Inv(Next(h, a, b))
  {
    match a
    case Software(x) =>
      if x.Rings? {
        RingsKeepInv(h, x.base, b);
      } else {
        DeviceKeepsInv(h, x, b);
      }
      hide Inv, Next;
    case StoreControl => LineKeepsCarried(h.u, EP0, h.control); hide L.Inv, Carried, StoreOn;
    case FetchControl => LineKeepsCarried(h.u, EP0, h.control); hide L.Inv, Carried, FetchFrom;
    case StoreReport => LineKeepsCarried(h.u, h.u.hid.value.epIn, h.report); hide L.Inv, Carried, StoreOn;
    case FetchReport => LineKeepsCarried(h.u, h.u.hid.value.epIn, h.report); hide L.Inv, Carried, FetchFrom;
  }

  ghost predicate Runs(h: Host, acts: seq<Action>, b: Buffers, k: Host)
    decreases |acts|
  {
    if acts == [] then h == k
    else Fits(h) && Enabled(h, acts[0]) && Runs(Next(h, acts[0], b), acts[1..], b, k)
  }

  lemma {:induction false} RunKeepsInv(h: Host, acts: seq<Action>, b: Buffers, k: Host)
    requires Inv(h) && BuffersOk(b) && Runs(h, acts, b, k)
    ensures Inv(k)
    decreases |acts|
  {
    hide Inv, Next, Enabled, Fits;
    if acts != [] {
      NextKeepsInv(h, acts[0], b);
      RunKeepsInv(Next(h, acts[0], b), acts[1..], b, k);
    }
  }

  /** The start: an empty ring for EP0, and no other yet. */
  function Start(base: addr): Host {
    Host(NewDevice(base), Fresh(R.InitProducer(base, RING_SIZE)), Fresh(R.InitProducer(base, RING_SIZE)))
  }

  /** The controller is on the ring, it has consumed a prefix of what the device has pushed or is about to
      push, and no more than n TRBs are ahead of it. */
  predicate OnCourse(u: Usb, dci: nat, l: Line, n: nat) {
    && RingAt(u.dev.rings, dci).Some? && !l.s.c.lost && l.s.c.consumed <= Ring(u, dci).pushed
    && |Ring(u, dci).pushed| - |l.s.c.consumed| <= n
    && (Quiet(l) ==> l.s.p == Ring(u, dci))
  }

  /** Main theorem: in every run of device, driver and controller, with the controller fetching between
      any two stores of a push and no flow control assumed, the controller stays on both rings and has
      consumed exactly a prefix of the TRBs pushed to each; between handlers the rings in memory are the
      ones the device sees. */
  lemma RingsCarryTheDevice(base: addr, acts: seq<Action>, b: Buffers, k: Host)
    requires base % 64 == 0 && BuffersOk(b) && Runs(Start(base), acts, b, k)
    ensures Inv(k) && Fits(k)
    ensures OnCourse(k.u, EP0, k.control, RING_SIZE - 2)
    ensures InService(k.u) ==> OnCourse(k.u, k.u.hid.value.epIn, k.report, 1)
  {
    StartIsInv(base);
    RunKeepsInv(Start(base), acts, b, k);
    InvFits(k);
    Courses(k);
    hide *;
  }

  lemma StartIsInv(base: addr)
    requires base % 64 == 0
    ensures Inv(Start(base))
  {
    UsbRuns.NewDeviceInv(base);
    R.InitInv(base, RING_SIZE);
    StartCarries(base);
    var u := NewDevice(base);
    assert RingAt(u.dev.rings, EP0) == Some(R.InitProducer(base, RING_SIZE));
    hide L.Inv, R.Inv, Carries, R.InitProducer;
  }

  lemma CarriesPrefix(l: Line, q: R.Producer)
    requires Carries(l, q)
    ensures !l.s.c.lost && l.s.c.consumed <= q.pushed
  {
    R.ConsumedIsPrefix(l.s);
    NotLost(l.s);
    FinishGrows(l.s.p, l.s.pc);
    PushedBy(Finish(l.s.p, l.s.pc), l.todo);
    hide R.Inv, Finish, PushAll;
  }

  lemma NotLost(s: R.Sys)
    requires R.Inv(s)
    ensures !s.c.lost
  {
    hide R.ProducerInv;
  }

  lemma {:induction false} FinishGrows(p: R.Producer, pc: R.Pc)
    ensures p.pushed <= Finish(p, pc).pushed
    decreases Left(pc)
  {
    if !pc.Idle? && p.writeIndex < |p.mem| {
      FinishGrows(R.Produce(p, pc).0, R.Produce(p, pc).1);
    }
  }

  lemma Courses(k: Host)
    requires Inv(k)
    ensures OnCourse(k.u, EP0, k.control, RING_SIZE - 2)
    ensures InService(k.u) ==> OnCourse(k.u, k.u.hid.value.epIn, k.report, 1)
  {
    UsbRuns.Bounds(k.u);
    CarriesPrefix(k.control, Ring(k.u, EP0));
    if Quiet(k.control) {
      QuietIsRing(k.control, Ring(k.u, EP0));
    }
    if InService(k.u) {
      if k.u.stage.RingsReady? {
        ReadyIsQuiet(k.u);
      }
      CarriesPrefix(k.report, Ring(k.u, k.u.hid.value.epIn));
      if Quiet(k.report) {
        QuietIsRing(k.report, Ring(k.u, k.u.hid.value.epIn));
      }
    }
    hide L.Inv, Carries, Quiet;
  }

  lemma ReadyIsQuiet(u: Usb)
    requires L.Inv(u) && u.stage.RingsReady?
    ensures L.Unknown(u, u.hid.value.epIn) == 0
  {
    hide DeviceInv;
  }
}
