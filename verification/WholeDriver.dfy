/** Everything together: ports, slots, commands and transfers of all devices, with every completion, of
    commands and of transfers, coming through the event ring and found again from the words of its event. */
module WholeDriver {
  import opened Options
  import opened Trbs
  import opened EventLoop
  import opened Deliveries
  import W = DriverLoop
  import S = DriverSystem
  import P = PortProtocol
  import T = PortTheorems
  import C = CommandRing
  import E = EventRings
  import R = ProducerRing
  import X = Transfers
  import U = UsbDevice
  import L = UsbLifetime
  import D = Descriptors

  /** Both rings of the controller with the port protocol; the device in each slot; then, as history, the
      transfer events written and not handled yet. */
  datatype World = World(w: W.World, usb: Devices, due: seq<Due>)

  function Host(s: World): S.Host { S.Host(s.w.h.x, s.usb) }

  function Init(base: addr, eventBase: addr, low: nat): World {
    World(W.Init(base, eventBase, low), seq(P.MAX_SLOTS + 1, _ => None), [])
  }

  /** What software finds besides events: port registers, a port's speed, memory for rings, and the
      descriptors a device has sent. */
  datatype Env = Env(
    connected: nat -> bool, status: P.PortStatus, speed: nat, rings: seq<addr>, base: addr,
    descs: seq<seq<D.byte>>)

  predicate EnvOk(env: Env) {
    && env.base % 64 == 0 && U.Usable(env.descs)
    && |env.rings| == X.ENDPOINTS + 1 && forall dci | 0 <= dci <= X.ENDPOINTS :: env.rings[dci] % 64 == 0
  }

  function Around(env: Env, t: P.Transfer): W.Surroundings { W.Surroundings(env.connected, env.status, t, env.speed) }

  datatype Action =
    | Post(e: Trb)            // the controller starts to write an event that is no transfer event
    | Answer(x: Due)          // it starts to write the event of a request in flight
    | EventStore | CommandStore | CommandFetch
    | Boot(port: nat, connected: bool)
    | Execute(slot: nat)
    | Software(env: Env)

  // ---- the controller's answers

  /** The request's TRB lies in memory, and what is reported fits the event's fields. */
  predicate Writable(usb: Devices, x: Due) {
    && x.slot < |usb| && usb[x.slot].Some? && x.r.dci < 0x20 && x.residual < 0x100_0000 && x.code < 0x100
    && var ring := X.RingAt(usb[x.slot].value.dev.rings, x.r.dci);
       ring.Some? && x.r.ioc < |ring.value.at| && PointerTo(ring.value, x.r) < WORD64
  }

  function EventFor(usb: Devices, x: Due): Trb
    requires Writable(usb, x)
  {
    TransferEvent(PointerTo(X.RingAt(usb[x.slot].value.dev.rings, x.r.dci).value, x.r), x.residual, x.code,
                  x.r.dci, x.slot)
  }

  // ---- software

  /** The event's slot has a device, and its pointer leads to one of the device's requests. */
  predicate Answers(usb: Devices, t: Trb) {
    && W.SlotId(t) <= P.MAX_SLOTS < |usb| && usb[W.SlotId(t)].Some?
    && var d := usb[W.SlotId(t)].value.dev;
       FindLive(d, PtrOf(d.rings, t), 0) < |d.live|
  }

  /** The call of OnTransferEventReceived, from the words of the event. */
  function Transfer(s: World, t: Trb, env: Env, b: nat -> U.Buffers): (r: S.Action)
    requires Answers(s.usb, t)
    ensures r.Transfer? && r.slot == W.SlotId(t) && r.speed == env.speed && r.rings == env.rings
  {
    var u := s.usb[W.SlotId(t)].value;
    var a := HandlerAction(u.dev, t, env.descs);
    S.Transfer(W.SlotId(t), a, !(L.Sane(u) && L.Enabled(u, a)) || Errs(u, a, b(W.SlotId(t))), env.speed, env.rings)
  }

  /** What the transfer event handler of the port protocol learns from the device. */
  function Learned(s: World, t: Trb, env: Env, b: nat -> U.Buffers): P.Transfer {
    if !Answers(s.usb, t) then P.Failed
    else
      var a := Transfer(s, t, env, b);
      if a.failed then P.Failed else P.Went(S.Call(s.usb[a.slot].value, a.a, b(a.slot)).initialized)
  }

  /** The devices after the handler of an event. */
  function DevicesAfter(maxPorts: nat, s: World, t: Trb, env: Env, b: nat -> U.Buffers): Devices
    requires maxPorts < P.PORTS && S.Sane(Host(s))
  {
    match RouteOf(t)
    case ToTransfer =>
      if Answers(s.usb, t) then
        var a := Transfer(s, t, env, b);
        S.OnTransfer(Host(s), a.slot, a.a, a.failed, a.speed, a.rings, b).usb
      else s.usb
    case ToCommandCompletion =>
      if P.Enabled(maxPorts, s.w.h.x, P.Complete(env.connected))
      then S.OnCommandDone(maxPorts, Host(s), env.connected, env.base, b).usb
      else s.usb
    case _ => s.usb
  }

  predicate Sane(s: World) { W.Sane(s.w) && S.Sane(Host(s)) }

  predicate Enabled(maxPorts: nat, s: World, a: Action)
    requires Sane(s)
  {
    match a
    case Post(e) => e.ctl.ty != TRANSFER_EVENT && W.Enabled(maxPorts, s.w, W.Post(e))
    case Answer(x) =>
      && Writable(s.usb, x) && Answerable(s.usb, s.due, x.slot, x.r)
      && E.Enabled(s.w.e, E.BeginEvent(EventFor(s.usb, x)))
    case EventStore => W.Enabled(maxPorts, s.w, W.EventStore)
    case CommandStore => true
    case CommandFetch => true
    case Boot(port, connected) => W.Enabled(maxPorts, s.w, W.Boot(port, connected))
    case Execute(slot) => W.Enabled(maxPorts, s.w, W.Execute(slot))
    case Software(env) => s.w.h.r.pc.Idle? && EnvOk(env)
  }

  /** Is software about to handle an event? */
  predicate Handling(s: World) { s.w.e.drv.phase.Seen? }

  function Next(maxPorts: nat, s: World, a: Action, inputContext: nat -> addr, b: nat -> U.Buffers): World
    requires maxPorts < P.PORTS && Sane(s) && Enabled(maxPorts, s, a)
  {
    match a
    case Post(e) => s.(w := W.Next(maxPorts, s.w, W.Post(e), inputContext))
    case Answer(x) =>
      s.(w := W.Next(maxPorts, s.w, W.Post(EventFor(s.usb, x)), inputContext), due := s.due + [x])
    case EventStore => s.(w := W.Next(maxPorts, s.w, W.EventStore, inputContext))
    case CommandStore => s.(w := W.Next(maxPorts, s.w, W.CommandStore, inputContext))
    case CommandFetch => s.(w := W.Next(maxPorts, s.w, W.CommandFetch, inputContext))
    case Boot(port, connected) => s.(w := W.Next(maxPorts, s.w, W.Boot(port, connected), inputContext))
    case Execute(slot) => s.(w := W.Next(maxPorts, s.w, W.Execute(slot), inputContext))
    case Software(env) =>
      var t := E.Front(s.w.e);
      var around := Around(env, Learned(s, t, env, b));
      var w := W.Next(maxPorts, s.w, W.Software(around), inputContext);
      if !Handling(s) then s.(w := w)
      else World(w, DevicesAfter(maxPorts, s, t, env, b),
                 if RouteOf(t).ToTransfer? && s.due != [] then s.due[1..] else s.due)
  }

  // ---- invariant

  /** The transfer events written and not handled. */
  function Waiting(e: E.Sys): seq<Trb> {
    var begun, handled := W.OfType(E.Begun(e.src), TRANSFER_EVENT), W.OfType(e.drv.handled, TRANSFER_EVENT);
    if |handled| <= |begun| then begun[|handled|..] else []
  }

  /** The events waiting are those of the requests due. */
  predicate Written(usb: Devices, due: seq<Due>, events: seq<Trb>) {
    && |events| == |due|
    && forall j | 0 <= j < |due| :: Writable(usb, due[j]) && events[j] == EventFor(usb, due[j])
  }

  ghost predicate Inv(maxPorts: nat, s: World, inputContext: nat -> addr) {
    && W.Inv(maxPorts, s.w, inputContext) && S.Inv(maxPorts, Host(s))
    && Queued(s.usb, s.due) && Written(s.usb, s.due, Waiting(s.w.e))
  }

  // ---- the events waiting

  lemma HandledOfType(e: E.Sys)
    requires E.Inv(e)
    ensures var begun, handled := W.OfType(E.Begun(e.src), TRANSFER_EVENT), W.OfType(e.drv.handled, TRANSFER_EVENT);
      handled <= begun
  {
    assert e.drv.handled <= E.Begun(e.src);
    W.OfTypePrefix(e.drv.handled, E.Begun(e.src), TRANSFER_EVENT);
    hide E.Inv, W.OfType, E.Begun;
  }

  lemma WaitingAfterBegin(e: E.Sys, t: Trb)
    requires E.Inv(e) && E.Sane(e) && E.Enabled(e, E.BeginEvent(t))
    ensures Waiting(E.Next(e, E.BeginEvent(t)))
            == if t.ctl.ty == TRANSFER_EVENT then Waiting(e) + [Payload(t)] else Waiting(e)
  {
    HandledOfType(e);
    W.BeginFacts(e, t);
    W.OneMore(E.Begun(e.src), Payload(t), TRANSFER_EVENT);
    hide E.Inv, E.Sane, E.Enabled, E.Next, W.OfType, E.Begun;
  }

  lemma WaitingAfterStore(e: E.Sys)
    requires E.Sane(e) && e.src.writing
    ensures Waiting(E.Next(e, E.ControllerStep)) == Waiting(e)
  {
    var f := E.Next(e, E.ControllerStep);
    E.StepBegins(e, E.ControllerStep);
    assert f.drv == e.drv && E.Begun(f.src) == E.Begun(e.src);
    hide W.OfType, E.Begun, E.Next;
  }

  lemma SeenIsOldest(e: E.Sys)
    requires E.Inv(e) && e.drv.phase.Seen?
    ensures E.InBounds(e) && e.drv.handled <= E.Begun(e.src) && |e.drv.handled| < |E.Begun(e.src)|
    ensures Payload(E.Front(e)) == E.Begun(e.src)[|e.drv.handled|]
  {
    E.FrontIsOldest(e);
    hide E.SourceInv;
  }

  lemma FrontWaits(e: E.Sys)
    requires E.Inv(e) && e.drv.phase.Seen?
    ensures E.InBounds(e)
    ensures E.Front(e).ctl.ty == TRANSFER_EVENT ==> Waiting(e) != [] && Waiting(e)[0] == Payload(E.Front(e))
  {
    HandledOfType(e);
    SeenIsOldest(e);
    hide E.Inv, W.OfType, E.Begun, E.Front, E.InBounds;
    if E.Front(e).ctl.ty == TRANSFER_EVENT {
      W.NextOfType(e.drv.handled, E.Begun(e.src), TRANSFER_EVENT);
    }
  }

  lemma DriveKeepsSource(e: E.Sys)
    requires E.InBounds(e)
    ensures E.Drive(e).src == e.src
    ensures E.Drive(e).drv.handled == e.drv.handled + if e.drv.phase.Seen? then [Payload(E.Front(e))] else []
  {
    hide E.Front;
  }

  lemma WaitingAfterDrive(e: E.Sys)
    requires E.Inv(e)
    ensures E.InBounds(e)
    ensures var counts := e.drv.phase.Seen? && E.Front(e).ctl.ty == TRANSFER_EVENT;
      && (counts ==> Waiting(e) != [])
      && Waiting(E.Drive(e)) == if counts then Waiting(e)[1..] else Waiting(e)
  {
    E.FrontIsOldest(e);
    hide E.Inv, W.OfType, E.Begun, E.Front, E.InBounds, E.Drive;
    DriveKeepsSource(e);
    HandledOfType(e);
    if e.drv.phase.Seen? {
      FrontWaits(e);
      W.OneMore(e.drv.handled, Payload(E.Front(e)), TRANSFER_EVENT);
    } else {
      assert e.drv.handled + [] == e.drv.handled;
    }
  }

  // ---- requests due

  lemma AnswerIsWritten(usb: Devices, due: seq<Due>, events: seq<Trb>, x: Due)
    requires Written(usb, due, events) && Writable(usb, x)
    ensures Written(usb, due + [x], events + [EventFor(usb, x)])
  {
    hide Writable, EventFor;
  }

  lemma RestIsWritten(usb: Devices, due: seq<Due>, events: seq<Trb>)
    requires Written(usb, due, events) && due != []
    ensures Written(usb, due[1..], events[1..])
  {
    hide Writable, EventFor;
  }

  /** A device that keeps the pointers of the requests due. */
  lemma StillWritten(usb: Devices, due: seq<Due>, events: seq<Trb>, slot: nat, v: U.Usb)
    requires Written(usb, due, events) && slot < |usb|
    requires forall j | 0 <= j < |due| && due[j].slot == slot ::
               usb[slot].Some? && SamePointer(usb[slot].value.dev, v.dev, due[j].r)
    ensures Written(usb[slot := Some(v)], due, events)
  {
    var usb' := usb[slot := Some(v)];
    forall j | 0 <= j < |due| ensures Writable(usb', due[j]) && EventFor(usb', due[j]) == EventFor(usb, due[j]) {
      assert Writable(usb, due[j]);
    }
    hide Writable, EventFor;
  }

  /** A device without requests in flight may change in any way. */
  lemma QuietSlotChanges(usb: Devices, due: seq<Due>, events: seq<Trb>, slot: nat, v: U.Usb)
    requires Queued(usb, due) && Written(usb, due, events) && slot < |usb| && LiveIn(usb, slot) == []
    ensures Queued(usb[slot := Some(v)], due) && Written(usb[slot := Some(v)], due, events)
  {
    OtherQueues(usb, due, slot, Some(v));
    forall j | 0 <= j < |due| ensures due[j].slot != slot {
      assert due[j].r in LiveIn(usb, due[j].slot);
    }
    StillWritten(usb, due, events, slot, v);
    hide *;
  }

  // ---- the answer in front

  lemma PayloadDecodes(d: X.Device, t: Trb)
    ensures Decoded(d, Payload(t)) == Decoded(d, t) && W.SlotId(Payload(t)) == W.SlotId(t)
  {
  }

  lemma RingInRange(d: X.Device, dci: nat)
    requires X.DeviceInv(d) && X.RingAt(d.rings, dci).Some?
    ensures 1 <= dci <= X.ENDPOINTS
  {
  }

  /** What the words of an event lead to, for a request due. */
  lemma EventLeads(usb: Devices, x: Due, t: Trb, i: nat)
    requires Writable(usb, x) && Payload(t) == EventFor(usb, x)
    requires var d := usb[x.slot].value.dev;
      X.DeviceInv(d) && i < |d.live| && d.live[i] == x.r && x.slot <= P.MAX_SLOTS
    ensures W.SlotId(t) == x.slot && X.RingAt(usb[x.slot].value.dev.rings, x.r.dci).Some?
    ensures var d := usb[x.slot].value.dev;
      && Decoded(d, t) == X.Event(X.EventPtr(X.RingAt(d.rings, x.r.dci).value, x.r), x.residual, x.code)
      && FindLive(d, PtrOf(d.rings, t), 0) == i
      && 1 <= x.r.dci <= X.ENDPOINTS
  {
    var d := usb[x.slot].value.dev;
    var p := X.RingAt(d.rings, x.r.dci).value;
    RingInRange(d, x.r.dci);
    hide X.DeviceInv, X.RingAt, PointerTo, Decoded, TransferEvent, PtrOf, W.SlotId;
    DecodesBack(d, p, x.r, x.residual, x.code, x.slot);
    PayloadDecodes(d, t);
    PtrIsDecoded(d, t);
    FoundIs(d, i, X.EventPtr(p, x.r));
  }

  lemma PtrIsDecoded(d: X.Device, t: Trb)
    ensures Decoded(d, t).ptr == PtrOf(d.rings, t)
  {
  }

  lemma DeviceFits(maxPorts: nat, s: World, slot: nat)
    requires S.Inv(maxPorts, Host(s)) && slot < |s.usb| && s.usb[slot].Some?
    ensures slot <= P.MAX_SLOTS && |s.usb| == P.MAX_SLOTS + 1 && L.Inv(s.usb[slot].value)
  {
    S.InvSane(maxPorts, Host(s));
    hide S.Inv, L.Inv, P.Inv;
  }

  lemma InvParts(maxPorts: nat, s: World, inputContext: nat -> addr)
    requires Inv(maxPorts, s, inputContext)
    ensures W.Inv(maxPorts, s.w, inputContext) && E.Inv(s.w.e) && C.Inv(maxPorts, s.w.h, inputContext)
    ensures S.Inv(maxPorts, Host(s)) && Queued(s.usb, s.due) && Written(s.usb, s.due, Waiting(s.w.e))
    ensures maxPorts < P.PORTS && P.Inv(maxPorts, s.w.h.x)
  {
    W.FrontPortsBound(maxPorts, s.w, inputContext);
    hide E.Inv, C.Inv, W.Linked, S.Inv, Queued, Written, Waiting;
  }

  lemma FirstIsWritten(usb: Devices, due: seq<Due>, events: seq<Trb>)
    requires Written(usb, due, events) && events != []
    ensures due != [] && Writable(usb, due[0]) && events[0] == EventFor(usb, due[0])
  {
    hide Writable, EventFor;
  }

  lemma WritableSlot(usb: Devices, x: Due)
    requires Writable(usb, x)
    ensures x.slot < |usb| && usb[x.slot].Some?
  {
  }

  lemma RouteIsTransfer(t: Trb)
    ensures RouteOf(t).ToTransfer? <==> t.ctl.ty == TRANSFER_EVENT
  {
  }

  /** The event in front is that of the first request due, the oldest in flight on its ring, and the
      handler finds that request. */
  lemma FrontAnswers(maxPorts: nat, s: World, inputContext: nat -> addr) returns (i: nat)
    requires Inv(maxPorts, s, inputContext) && Handling(s)
    requires E.InBounds(s.w.e) && RouteOf(E.Front(s.w.e)).ToTransfer?
    ensures s.due != [] && Writable(s.usb, s.due[0]) && W.SlotId(E.Front(s.w.e)) == s.due[0].slot <= P.MAX_SLOTS
    ensures |s.usb| == P.MAX_SLOTS + 1 && s.usb[s.due[0].slot].Some? && L.Inv(s.usb[s.due[0].slot].value)
    ensures Leading(s.usb[s.due[0].slot].value, s.due[0], E.Front(s.w.e), i)
  {
    hide Inv, Waiting, EventFor, Writable, E.InBounds, E.Front, RouteOf, Leading, Written;
    InvParts(maxPorts, s, inputContext);
    var t := E.Front(s.w.e);
    RouteIsTransfer(t);
    FrontWaits(s.w.e);
    FirstIsWritten(s.usb, s.due, Waiting(s.w.e));
    WritableSlot(s.usb, s.due[0]);
    DeviceFits(maxPorts, s, s.due[0].slot);
    i := DueLeads(s.usb, s.due, t);
  }

  lemma DueLeads(usb: Devices, due: seq<Due>, t: Trb) returns (i: nat)
    requires Queued(usb, due) && due != [] && Writable(usb, due[0]) && Payload(t) == EventFor(usb, due[0])
    requires due[0].slot <= P.MAX_SLOTS && L.Inv(usb[due[0].slot].value)
    ensures W.SlotId(t) == due[0].slot && Leading(usb[due[0].slot].value, due[0], t, i)
  {
    var u := usb[due[0].slot].value;
    SortedLive(u);
    DistinctLive(u);
    i := OldestDue(usb, due);
    EventLeads(usb, due[0], t, i);
    hide Queued, L.Inv, X.DeviceInv, X.RingAt, Decoded, EventFor, FindLive, PtrOf, W.SlotId, L.Sorted;
  }

  lemma OldestDue(usb: Devices, due: seq<Due>) returns (i: nat)
    requires Queued(usb, due) && due != [] && due[0].slot < |usb| && usb[due[0].slot].Some?
    requires L.Sorted(usb[due[0].slot].value.dev.live)
    ensures var live := usb[due[0].slot].value.dev.live;
      i < |live| && live[i] == due[0].r && L.Oldest(live, i)
  {
    i := FrontIsOldest(usb, due);
    hide Queued;
  }

  /** An event's words lead a device to the oldest request of a ring, and say what is due for it. */
  predicate Leading(u: U.Usb, x: Due, t: Trb, i: nat) {
    var d := u.dev;
    && i < |d.live| && d.live[i] == x.r && L.Oldest(d.live, i) && 1 <= x.r.dci <= X.ENDPOINTS
    && X.RingAt(d.rings, x.r.dci).Some? && x.r.ioc < |X.RingAt(d.rings, x.r.dci).value.at|
    && Decoded(d, t) == X.Event(X.EventPtr(X.RingAt(d.rings, x.r.dci).value, x.r), x.residual, x.code)
    && FindLive(d, PtrOf(d.rings, t), 0) == i
  }

  lemma LeadingAction(u: U.Usb, x: Due, t: Trb, i: nat, descs: seq<seq<D.byte>>)
    requires Leading(u, x, t, i) && U.Usable(descs)
    ensures HandlerAction(u.dev, t, descs)
            == if x.code == 1 || x.code == 13 then L.Complete(i, x.residual, x.code, descs) else L.Fail(i)
    ensures L.Enabled(u, HandlerAction(u.dev, t, descs))
  {
    PtrIsDecoded(u.dev, t);
    hide Decoded, PtrOf, FindLive, L.Oldest, U.Usable, X.EventPtr;
  }

  // ---- handling an answer

  /** The devices after an answer: its request is off the list, pointers stay. */
  lemma AnsweredDevice(usb: Devices, due: seq<Due>, events: seq<Trb>, a: L.Action, b: U.Buffers)
    requires Queued(usb, due) && Written(usb, due, events) && due != [] && due[0].slot < |usb| && usb[due[0].slot].Some?
    requires var u := usb[due[0].slot].value;
      && L.Inv(u) && L.Enabled(u, a) && U.BuffersOk(b) && (a.Complete? || a.Fail?)
      && a.i < |u.dev.live| && u.dev.live[a.i] == due[0].r
    ensures var u := usb[due[0].slot].value;
      && L.Sane(u) && L.Inv(L.Step(u, a, b))
      && Queued(usb[due[0].slot := Some(L.Step(u, a, b))], due[1..])
      && Written(usb[due[0].slot := Some(L.Step(u, a, b))], due[1..], events[1..])
  {
    var slot, u := due[0].slot, usb[due[0].slot].value;
    var more := EventEffect(u, a, b);
    var v := L.Step(u, a, b);
    SortedLive(v);
    DistinctLive(u);
    hide L.Inv, L.Step, L.Enabled, L.Sane, Queued, Written, X.DeviceInv;
    HandledQueues(usb, due, v, a.i, more);
    RestIsWritten(usb, due, events);
    forall j | 0 <= j < |due[1..]| ensures SamePointer(u.dev, v.dev, due[1..][j].r) {
      StepKeepsPointers(u, a, b, due[1..][j].r);
    }
    StillWritten(usb, due[1..], events[1..], slot, v);
  }

  /** An initialised device has nothing in flight. */
  lemma InitializedIsQuiet(u: U.Usb)
    requires L.Inv(u) && (u.stage.Fresh? || u.stage.Initialized? || u.stage.RingsReady?)
    ensures u.dev.live == []
  {
    hide X.DeviceInv;
  }

  /** The port protocol makes the step that the event in front stands for. */
  lemma ProtocolSteps(maxPorts: nat, w: W.World, around: W.Surroundings, inputContext: nat -> addr)
    requires W.Inv(maxPorts, w, inputContext) && W.Sane(w) && w.h.r.pc.Idle? && w.e.drv.phase.Seen?
    ensures maxPorts < P.PORTS && P.ContextPortsInRange(w.h.x)
    ensures var t, x' := E.Front(w.e), W.Next(maxPorts, w, W.Software(around), inputContext).h.x;
      && (RouteOf(t).NoHandler? ==> x' == w.h.x)
      && (!RouteOf(t).NoHandler? ==>
            && P.Enabled(maxPorts, w.h.x, W.Meaning(t, around))
            && x' == P.Step(maxPorts, w.h.x, W.Meaning(t, around)).0)
  {
    W.EventHandles(maxPorts, w, around, inputContext);
    hide W.Inv, E.Drive, E.Front, W.Dispatch, P.Step, P.Enabled, W.Pushing, E.InBounds;
  }

  lemma LeadingFound(u: U.Usb, x: Due, t: Trb, i: nat)
    requires Leading(u, x, t, i)
    ensures i < |u.dev.live| && u.dev.live[i] == x.r && FindLive(u.dev, PtrOf(u.dev.rings, t), 0) == i
  {
    hide Decoded, PtrOf, FindLive, L.Oldest;
  }

  lemma ActionIndex(d: X.Device, t: Trb, descs: seq<seq<D.byte>>)
    ensures var a := HandlerAction(d, t, descs); (a.Complete? || a.Fail?) && a.i == FindLive(d, PtrOf(d.rings, t), 0)
  {
    PtrIsDecoded(d, t);
  }

  lemma AnswersIt(usb: Devices, t: Trb, slot: nat, i: nat)
    requires W.SlotId(t) == slot <= P.MAX_SLOTS < |usb| && usb[slot].Some?
    requires var d := usb[slot].value.dev; i < |d.live| && FindLive(d, PtrOf(d.rings, t), 0) == i
    ensures Answers(usb, t)
  {
    hide FindLive, PtrOf;
  }

  lemma TransferFields(s: World, t: Trb, env: Env, b: nat -> U.Buffers, slot: nat)
    requires Answers(s.usb, t) && slot == W.SlotId(t)
    ensures var u, a := s.usb[slot].value, Transfer(s, t, env, b);
      && a.a == HandlerAction(u.dev, t, env.descs)
      && (L.Sane(u) && L.Enabled(u, a.a) ==> a.failed == Errs(u, a.a, b(slot)))
  {
    hide HandlerAction, L.Sane, L.Enabled, Errs, FindLive, PtrOf, W.SlotId;
    ActionKind(s.usb[slot].value.dev, t, env.descs);
  }

  lemma ActionKind(d: X.Device, t: Trb, descs: seq<seq<D.byte>>)
    ensures HandlerAction(d, t, descs).Complete? || HandlerAction(d, t, descs).Fail?
  {
    hide Decoded, FindLive;
  }

  lemma TransferEnabled(maxPorts: nat, s: World, t: Trb, x: Due, i: nat, env: Env, b: nat -> U.Buffers)
    requires S.Sane(Host(s)) && W.SlotId(t) == x.slot <= P.MAX_SLOTS && s.usb[x.slot].Some?
    requires Leading(s.usb[x.slot].value, x, t, i) && L.Inv(s.usb[x.slot].value) && EnvOk(env)
    ensures Answers(s.usb, t)
    ensures var a, u := Transfer(s, t, env, b), s.usb[x.slot].value;
      && S.Enabled(maxPorts, Host(s), a) && a.slot == x.slot && L.Sane(u) && L.Enabled(u, a.a)
      && (a.a.Complete? || a.a.Fail?) && a.a == HandlerAction(u.dev, t, env.descs) && a.a.i == i
      && a.failed == Errs(u, a.a, b(x.slot))
  {
    var u := s.usb[x.slot].value;
    hide Leading, L.Inv, L.Sane, L.Enabled, HandlerAction, U.Usable, PtrOf, FindLive, W.SlotId, Answers, Transfer, Errs;
    L.SaneInv(u);
    LeadingAction(u, x, t, i, env.descs);
    LeadingFound(u, x, t, i);
    AnswersIt(s.usb, t, x.slot, i);
    TransferFields(s, t, env, b, x.slot);
    ActionIndex(u.dev, t, env.descs);
    ErrsOnFailure(u, HandlerAction(u.dev, t, env.descs), b(x.slot));
  }

  lemma ErrsOnFailure(u: U.Usb, a: L.Action, b: U.Buffers)
    requires L.Sane(u) && L.Enabled(u, a) && (a.Complete? || a.Fail?)
    ensures a.Fail? ==> Errs(u, a, b)
  {
    hide L.Sane, L.Enabled;
  }

  /** What a software step does when an event is in front. */
  lemma HandlingNext(maxPorts: nat, s: World, env: Env, inputContext: nat -> addr, b: nat -> U.Buffers)
    requires maxPorts < P.PORTS && Sane(s) && Enabled(maxPorts, s, Software(env)) && Handling(s)
    ensures var t, n := E.Front(s.w.e), Next(maxPorts, s, Software(env), inputContext, b);
      && n.w == W.Next(maxPorts, s.w, W.Software(Around(env, Learned(s, t, env, b))), inputContext)
      && n.usb == DevicesAfter(maxPorts, s, t, env, b)
      && n.due == if RouteOf(t).ToTransfer? && s.due != [] then s.due[1..] else s.due
  {
    hide W.Next, DevicesAfter, Learned, E.Front, C.Sane, E.Sane;
  }

  /** The protocol's part and the devices' part make a step of both together. */
  lemma TransferNext(maxPorts: nat, s: World, t: Trb, env: Env, n: World, b: nat -> U.Buffers)
    requires maxPorts < P.PORTS && S.Sane(Host(s)) && Answers(s.usb, t) && RouteOf(t).ToTransfer?
    requires S.Enabled(maxPorts, Host(s), Transfer(s, t, env, b))
    requires n.usb == DevicesAfter(maxPorts, s, t, env, b)
    requires n.w.h.x == P.OnTransferEvent(s.w.h.x, W.SlotId(t), Learned(s, t, env, b), env.speed).0
    ensures Host(n) == S.Next(maxPorts, Host(s), Transfer(s, t, env, b), b)
  {
    hide Transfer, Answers, S.Call, P.OnTransferEvent, L.Enabled, W.SlotId, S.Sane;
  }

  lemma TransferMeaning(maxPorts: nat, x: P.Xhc, t: Trb, around: W.Surroundings)
    requires maxPorts < P.PORTS && P.Sized(x) && P.ContextPortsInRange(x) && RouteOf(t).ToTransfer?
    ensures P.Enabled(maxPorts, x, W.Meaning(t, around))
    ensures P.Step(maxPorts, x, W.Meaning(t, around)).0
            == P.OnTransferEvent(x, W.SlotId(t), around.transfer, around.speed).0
  {
    hide P.OnTransferEvent, W.SlotId;
  }

  lemma TransferIsStep(maxPorts: nat, s: World, x: Due, i: nat, env: Env,
                       inputContext: nat -> addr, b: nat -> U.Buffers)
    requires Inv(maxPorts, s, inputContext) && Sane(s) && Enabled(maxPorts, s, Software(env)) && Handling(s)
    requires var t := E.Front(s.w.e);
      && RouteOf(t).ToTransfer? && W.SlotId(t) == x.slot <= P.MAX_SLOTS && s.usb[x.slot].Some?
      && Leading(s.usb[x.slot].value, x, t, i) && L.Inv(s.usb[x.slot].value)
    ensures maxPorts < P.PORTS && Answers(s.usb, E.Front(s.w.e))
    ensures var t, n := E.Front(s.w.e), Next(maxPorts, s, Software(env), inputContext, b);
      var a := Transfer(s, t, env, b);
      && S.Enabled(maxPorts, Host(s), a) && Host(n) == S.Next(maxPorts, Host(s), a, b)
  {
    InvParts(maxPorts, s, inputContext);
    var t := E.Front(s.w.e);
    var around := Around(env, Learned(s, t, env, b));
    SoftwareParts(maxPorts, s, env);
    HandlingNext(maxPorts, s, env, inputContext, b);
    hide Inv, W.Inv, S.Inv, P.Inv, E.Front, L.Inv, W.Next, Next, Sane, Enabled, Leading, Transfer, Answers;
    hide P.OnTransferEvent, W.Meaning, P.Step, DevicesAfter, Learned, W.Sane, S.Sane, Handling, EnvOk,
         W.SlotId, RouteOf;
    TransferEnabled(maxPorts, s, t, x, i, env, b);
    ProtocolSteps(maxPorts, s.w, around, inputContext);
    TransferMeaning(maxPorts, s.w.h.x, t, around);
    TransferNext(maxPorts, s, t, env, Next(maxPorts, s, Software(env), inputContext, b), b);
  }

  lemma SoftwareParts(maxPorts: nat, s: World, env: Env)
    requires Sane(s) && Enabled(maxPorts, s, Software(env))
    ensures W.Sane(s.w) && S.Sane(Host(s)) && s.w.h.r.pc.Idle? && EnvOk(env)
    ensures P.Sized(s.w.h.x) && P.ContextPortsInRange(s.w.h.x) && E.InBounds(s.w.e)
  {
    hide EnvOk, P.Sized, P.ContextPortsInRange, E.InBounds;
  }

  /** The devices after an answer, rings for endpoints included. */
  lemma DevicesAnswered(usb: Devices, due: seq<Due>, events: seq<Trb>, a: L.Action, b: U.Buffers, rings: seq<addr>,
                        configures: bool)
    requires Queued(usb, due) && Written(usb, due, events) && due != [] && due[0].slot < |usb| && usb[due[0].slot].Some?
    requires var u := usb[due[0].slot].value;
      && L.Inv(u) && L.Enabled(u, a) && U.BuffersOk(b) && (a.Complete? || a.Fail?)
      && a.i < |u.dev.live| && u.dev.live[a.i] == due[0].r
      && (configures ==> L.Enabled(S.Call(u, a, b), L.Rings(rings)))
    ensures var v := S.Call(usb[due[0].slot].value, a, b);
      var w := if configures then S.Call(v, L.Rings(rings), b) else v;
      && Queued(usb[due[0].slot := Some(w)], due[1..])
      && Written(usb[due[0].slot := Some(w)], due[1..], events[1..])
  {
    SameLength(usb, due, events);
    hide *;
    var slot, u := due[0].slot, usb[due[0].slot].value;
    S.CallIsStep(u, a, b);
    AnsweredDevice(usb, due, events, a, b);
    var v := S.Call(u, a, b);
    if configures {
      RingsAreQuiet(v, rings);
      QuietDeviceChanges(usb, due[1..], events[1..], slot, v, S.Call(v, L.Rings(rings), b));
    }
  }

  lemma QuietDeviceChanges(usb: Devices, due: seq<Due>, events: seq<Trb>, slot: nat, v: U.Usb, w: U.Usb)
    requires slot < |usb| && v.dev.live == []
    requires Queued(usb[slot := Some(v)], due) && Written(usb[slot := Some(v)], due, events)
    ensures Queued(usb[slot := Some(w)], due) && Written(usb[slot := Some(w)], due, events)
  {
    hide Queued, Written;
    QuietSlot(usb, slot, v);
    QuietSlotChanges(usb[slot := Some(v)], due, events, slot, w);
    assert usb[slot := Some(v)][slot := Some(w)] == usb[slot := Some(w)];
  }

  lemma SameLength(usb: Devices, due: seq<Due>, events: seq<Trb>)
    requires Written(usb, due, events)
    ensures |events| == |due|
  {
  }

  lemma QuietSlot(usb: Devices, slot: nat, v: U.Usb)
    requires slot < |usb| && v.dev.live == []
    ensures LiveIn(usb[slot := Some(v)], slot) == []
  {
  }

  lemma RingsAreQuiet(v: U.Usb, rings: seq<addr>)
    requires L.Inv(v) && L.Enabled(v, L.Rings(rings))
    ensures v.dev.live == []
  {
    InitializedIsQuiet(v);
    hide L.Inv;
  }

  /** A call made by the completion of a command finds nothing in flight. */
  lemma CalledIsQuiet(u: U.Usb, a: L.Action)
    requires L.Inv(u) && L.Enabled(u, a) && (a.Start? || a.Configured?)
    ensures u.dev.live == []
  {
    InitializedIsQuiet(u);
    hide L.Inv;
  }

  lemma OneDeviceChanges(maxPorts: nat, h: S.Host, connected: nat -> bool, base: addr, b: nat -> U.Buffers)
      returns (slot: nat, v: U.Usb)
    requires S.Inv(maxPorts, h) && S.Sane(h) && S.Enabled(maxPorts, h, S.CommandDone(connected, base))
    requires S.InOrder(maxPorts, h, S.CommandDone(connected, base), b)
    ensures maxPorts < P.PORTS
    ensures S.OnCommandDone(maxPorts, h, connected, base, b).usb == h.usb
            || (slot < |h.usb| && LiveIn(h.usb, slot) == []
                && S.OnCommandDone(maxPorts, h, connected, base, b).usb == h.usb[slot := Some(v)])
  {
    S.InvSane(maxPorts, h);
    hide S.Inv, P.Inv, P.Step, S.Call, L.Enabled, S.Fit, L.Inv, U.NewDevice;
    match h.x.commands[h.x.handled]
    case EnableSlot =>
      slot, v := h.x.results[h.x.handled], U.NewDevice(base);
    case AddressDevice(s) =>
      slot, v := s, U.NewDevice(base);
      if P.Step(maxPorts, h.x, P.Complete(connected)).1 == P.Success {
        FitInv(S.ViewOf(h.x, s), h.usb[s]);
        CalledIsQuiet(h.usb[s].value, L.Start);
        v := S.Call(h.usb[s].value, L.Start, b(s));
      }
    case ConfigureEndpoint(s) =>
      slot := s;
      FitInv(S.ViewOf(h.x, s), h.usb[s]);
      CalledIsQuiet(h.usb[s].value, L.Configured);
      v := S.Call(h.usb[s].value, L.Configured, b(s));
  }

  lemma FitInv(v: Option<S.SlotView>, u: Option<U.Usb>)
    requires S.Fit(v, u) && u.Some?
    ensures L.Inv(u.value)
  {
    hide L.Inv;
  }

  // ---- every step

  /** What is left to show of a step, besides what holds of both rings. */
  ghost predicate Delivering(maxPorts: nat, s: World) {
    S.Inv(maxPorts, Host(s)) && Queued(s.usb, s.due) && Written(s.usb, s.due, Waiting(s.w.e))
  }

  /** A software step takes one software step on the event ring. */
  lemma EventTaken(maxPorts: nat, s: World, env: Env, inputContext: nat -> addr, b: nat -> U.Buffers)
    requires maxPorts < P.PORTS && Sane(s) && Enabled(maxPorts, s, Software(env)) && E.Inv(s.w.e)
    ensures var n, counts := Next(maxPorts, s, Software(env), inputContext, b),
                             Handling(s) && E.Front(s.w.e).ctl.ty == TRANSFER_EVENT;
      Waiting(n.w.e) == if counts && Waiting(s.w.e) != [] then Waiting(s.w.e)[1..] else Waiting(s.w.e)
  {
    WaitingAfterDrive(s.w.e);
    hide E.Inv, C.Sane, E.Front, Waiting, E.Drive, DevicesAfter, Learned, W.Dispatch, W.Pushing;
  }

  lemma TransferDelivers(maxPorts: nat, s: World, events: seq<Trb>, n: World, a: S.Action, b: nat -> U.Buffers)
    requires maxPorts < P.PORTS && S.Sane(Host(s)) && S.Enabled(maxPorts, Host(s), a) && a.Transfer?
    requires Host(n) == S.Next(maxPorts, Host(s), a, b) && S.InOrder(maxPorts, Host(s), a, b) && S.BuffersAllOk(b)
    requires Queued(s.usb, s.due) && Written(s.usb, s.due, events) && s.due != [] && a.slot == s.due[0].slot
    requires var u := s.usb[a.slot].value;
      L.Inv(u) && a.a.i < |u.dev.live| && u.dev.live[a.a.i] == s.due[0].r
    ensures Queued(n.usb, s.due[1..]) && Written(n.usb, s.due[1..], events[1..])
  {
    hide Queued, Written, L.Enabled, L.Inv, S.Call, P.OnTransferEvent;
    var configures := |S.OnTransfer(Host(s), a.slot, a.a, a.failed, a.speed, a.rings, b).x.commands|
      > |s.w.h.x.commands|;
    DevicesAnswered(s.usb, s.due, events, a.a, b(a.slot), a.rings, configures);
  }

  lemma TransferKeepsInv(maxPorts: nat, s: World, env: Env, inputContext: nat -> addr, b: nat -> U.Buffers)
    requires Inv(maxPorts, s, inputContext) && Sane(s) && Enabled(maxPorts, s, Software(env)) && Handling(s)
    requires S.BuffersAllOk(b) && RouteOf(E.Front(s.w.e)).ToTransfer?
    ensures maxPorts < P.PORTS && Delivering(maxPorts, Next(maxPorts, s, Software(env), inputContext, b))
  {
    InvParts(maxPorts, s, inputContext);
    SoftwareParts(maxPorts, s, env);
    HandlingNext(maxPorts, s, env, inputContext, b);
    var t, n := E.Front(s.w.e), Next(maxPorts, s, Software(env), inputContext, b);
    hide Inv, Sane, Enabled, Next, RouteOf, E.InBounds, EnvOk;
    var i := FrontAnswers(maxPorts, s, inputContext);
    TransferIsStep(maxPorts, s, s.due[0], i, env, inputContext, b);
    TransferEnabled(maxPorts, s, t, s.due[0], i, env, b);
    LeadingFound(s.usb[s.due[0].slot].value, s.due[0], t, i);
    var a := Transfer(s, t, env, b);
    S.NextKeepsInv(maxPorts, Host(s), a, b);
    hide *;
    TransferDelivers(maxPorts, s, Waiting(s.w.e), n, a, b);
    EventTaken(maxPorts, s, env, inputContext, b);
    RouteIsTransfer(t);
    FrontWaits(s.w.e);
    IsDelivering(maxPorts, n, s.due[1..], Waiting(s.w.e)[1..]);
  }

  lemma IsDelivering(maxPorts: nat, n: World, due: seq<Due>, events: seq<Trb>)
    requires S.Inv(maxPorts, Host(n)) && n.due == due && Waiting(n.w.e) == events
    requires Queued(n.usb, due) && Written(n.usb, due, events)
    ensures Delivering(maxPorts, n)
  {
    hide S.Inv, Queued, Written, Waiting;
  }

  /** A handled command completion makes one call to one device, which has nothing in flight. */
  lemma CommandKeepsInv(maxPorts: nat, s: World, env: Env, inputContext: nat -> addr, b: nat -> U.Buffers)
    requires Inv(maxPorts, s, inputContext) && Sane(s) && Enabled(maxPorts, s, Software(env)) && Handling(s)
    requires S.BuffersAllOk(b) && RouteOf(E.Front(s.w.e)).ToCommandCompletion?
    ensures maxPorts < P.PORTS && Delivering(maxPorts, Next(maxPorts, s, Software(env), inputContext, b))
  {
    InvParts(maxPorts, s, inputContext);
    SoftwareParts(maxPorts, s, env);
    HandlingNext(maxPorts, s, env, inputContext, b);
    var t, n := E.Front(s.w.e), Next(maxPorts, s, Software(env), inputContext, b);
    var around := Around(env, Learned(s, t, env, b));
    ProtocolSteps(maxPorts, s.w, around, inputContext);
    EventTaken(maxPorts, s, env, inputContext, b);
    CommandIsStep(maxPorts, s, t, env, around, n, b);
    RouteIsTransfer(t);
    hide *;
    var a := S.CommandDone(env.connected, env.base);
    S.NextKeepsInv(maxPorts, Host(s), a, b);
    CommandQueues(maxPorts, s, Waiting(s.w.e), env, b);
    IsDelivering(maxPorts, n, s.due, Waiting(s.w.e));
  }

  lemma CommandIsStep(maxPorts: nat, s: World, t: Trb, env: Env, around: W.Surroundings, n: World, b: nat -> U.Buffers)
    requires maxPorts < P.PORTS && S.Sane(Host(s)) && EnvOk(env) && RouteOf(t).ToCommandCompletion?
    requires around.connected == env.connected && P.Enabled(maxPorts, s.w.h.x, W.Meaning(t, around))
    requires n.w.h.x == P.Step(maxPorts, s.w.h.x, W.Meaning(t, around)).0
    requires n.usb == DevicesAfter(maxPorts, s, t, env, b)
    ensures S.Enabled(maxPorts, Host(s), S.CommandDone(env.connected, env.base))
    ensures Host(n) == S.Next(maxPorts, Host(s), S.CommandDone(env.connected, env.base), b)
    ensures n.usb == S.OnCommandDone(maxPorts, Host(s), env.connected, env.base, b).usb
  {
    CommandX(maxPorts, Host(s), env.connected, env.base, b);
    hide S.OnCommandDone, P.Step, P.Enabled, S.Sane, U.Usable;
  }

  lemma CommandX(maxPorts: nat, h: S.Host, connected: nat -> bool, base: addr, b: nat -> U.Buffers)
    requires maxPorts < P.PORTS && S.Sane(h)
    ensures P.Enabled(maxPorts, h.x, P.Complete(connected)) ==>
              S.OnCommandDone(maxPorts, h, connected, base, b).x == P.Step(maxPorts, h.x, P.Complete(connected)).0
  {
    hide P.Step, S.Call, U.NewDevice;
  }

  lemma CommandQueues(maxPorts: nat, s: World, events: seq<Trb>, env: Env, b: nat -> U.Buffers)
    requires S.Inv(maxPorts, Host(s)) && S.Sane(Host(s))
    requires S.Enabled(maxPorts, Host(s), S.CommandDone(env.connected, env.base)) && maxPorts < P.PORTS
    requires S.InOrder(maxPorts, Host(s), S.CommandDone(env.connected, env.base), b)
    requires Queued(s.usb, s.due) && Written(s.usb, s.due, events)
    ensures P.Enabled(maxPorts, s.w.h.x, P.Complete(env.connected))
    ensures var usb := S.OnCommandDone(maxPorts, Host(s), env.connected, env.base, b).usb;
      Queued(usb, s.due) && Written(usb, s.due, events)
  {
    var slot, v := OneDeviceChanges(maxPorts, Host(s), env.connected, env.base, b);
    hide S.Inv, S.OnCommandDone, S.InOrder, Queued, Written, P.Enabled, LiveIn;
    if S.OnCommandDone(maxPorts, Host(s), env.connected, env.base, b).usb != s.usb {
      QuietSlotChanges(s.usb, s.due, events, slot, v);
    }
  }

  /** Events that concern no device. */
  lemma PortEventKeepsInv(maxPorts: nat, s: World, env: Env, inputContext: nat -> addr, b: nat -> U.Buffers)
    requires Inv(maxPorts, s, inputContext) && Sane(s) && Enabled(maxPorts, s, Software(env)) && Handling(s)
    requires S.BuffersAllOk(b) && (RouteOf(E.Front(s.w.e)).ToPortStatus? || RouteOf(E.Front(s.w.e)).NoHandler?)
    ensures maxPorts < P.PORTS && Delivering(maxPorts, Next(maxPorts, s, Software(env), inputContext, b))
  {
    InvParts(maxPorts, s, inputContext);
    SoftwareParts(maxPorts, s, env);
    HandlingNext(maxPorts, s, env, inputContext, b);
    var t, n := E.Front(s.w.e), Next(maxPorts, s, Software(env), inputContext, b);
    var around := Around(env, Learned(s, t, env, b));
    ProtocolSteps(maxPorts, s.w, around, inputContext);
    EventTaken(maxPorts, s, env, inputContext, b);
    RouteIsTransfer(t);
    PortIsStep(maxPorts, s, t, env, around, n, b);
    var a := S.Port(W.Meaning(t, around));
    if RouteOf(t).ToPortStatus? {
      S.NextKeepsInv(maxPorts, Host(s), a, b);
    }
    hide *;
    IsDelivering(maxPorts, n, s.due, Waiting(s.w.e));
  }

  lemma PortIsStep(maxPorts: nat, s: World, t: Trb, env: Env, around: W.Surroundings, n: World, b: nat -> U.Buffers)
    requires maxPorts < P.PORTS && S.Sane(Host(s)) && (RouteOf(t).ToPortStatus? || RouteOf(t).NoHandler?)
    requires RouteOf(t).NoHandler? ==> n.w.h.x == s.w.h.x
    requires RouteOf(t).ToPortStatus? ==>
               P.Enabled(maxPorts, s.w.h.x, W.Meaning(t, around))
               && n.w.h.x == P.Step(maxPorts, s.w.h.x, W.Meaning(t, around)).0
    requires n.usb == DevicesAfter(maxPorts, s, t, env, b)
    ensures n.usb == s.usb
    ensures RouteOf(t).NoHandler? ==> Host(n) == Host(s)
    ensures RouteOf(t).ToPortStatus? ==>
              && S.Enabled(maxPorts, Host(s), S.Port(W.Meaning(t, around)))
              && Host(n) == S.Next(maxPorts, Host(s), S.Port(W.Meaning(t, around)), b)
  {
    hide P.Step, P.Enabled, S.Sane, Transfer, Answers;
  }

  lemma SoftwareKeepsInv(maxPorts: nat, s: World, env: Env, inputContext: nat -> addr, b: nat -> U.Buffers)
    requires Inv(maxPorts, s, inputContext) && Sane(s) && Enabled(maxPorts, s, Software(env)) && S.BuffersAllOk(b)
    ensures maxPorts < P.PORTS && Delivering(maxPorts, Next(maxPorts, s, Software(env), inputContext, b))
  {
    InvParts(maxPorts, s, inputContext);
    if Handling(s) {
      hide Inv, Sane, Enabled, Next, Handling, Delivering;
      match RouteOf(E.Front(s.w.e)) {
        case ToTransfer => TransferKeepsInv(maxPorts, s, env, inputContext, b);
        case ToCommandCompletion => CommandKeepsInv(maxPorts, s, env, inputContext, b);
        case _ => PortEventKeepsInv(maxPorts, s, env, inputContext, b);
      }
    } else {
      EventTaken(maxPorts, s, env, inputContext, b);
      NoEventNext(maxPorts, s, env, inputContext, b);
      hide *;
      IsDelivering(maxPorts, Next(maxPorts, s, Software(env), inputContext, b), s.due, Waiting(s.w.e));
    }
  }

  lemma NoEventNext(maxPorts: nat, s: World, env: Env, inputContext: nat -> addr, b: nat -> U.Buffers)
    requires maxPorts < P.PORTS && Sane(s) && Enabled(maxPorts, s, Software(env)) && !Handling(s)
    ensures var n := Next(maxPorts, s, Software(env), inputContext, b);
      Host(n) == Host(s) && n.usb == s.usb && n.due == s.due
  {
    hide C.Sane, E.Sane, E.Front, E.Drive, DevicesAfter, Learned, W.Dispatch, W.Pushing;
  }

  lemma AnswerKeepsInv(maxPorts: nat, s: World, x: Due, inputContext: nat -> addr, b: nat -> U.Buffers)
    requires Inv(maxPorts, s, inputContext) && Sane(s) && Enabled(maxPorts, s, Answer(x))
    ensures maxPorts < P.PORTS && Delivering(maxPorts, Next(maxPorts, s, Answer(x), inputContext, b))
  {
    InvParts(maxPorts, s, inputContext);
    var t, n := EventFor(s.usb, x), Next(maxPorts, s, Answer(x), inputContext, b);
    assert t.ctl.ty == TRANSFER_EVENT && Payload(t) == t;
    AnswerNext(maxPorts, s, x, inputContext, b);
    WaitingAfterBegin(s.w.e, t);
    hide Inv, W.Inv, S.Inv, E.Inv, Waiting, Next, Queued, Written, Writable, EventFor, Answerable, E.Enabled, E.Next;
    AnswerQueues(s.usb, s.due, x);
    AnswerIsWritten(s.usb, s.due, Waiting(s.w.e), x);
  }

  lemma AnswerNext(maxPorts: nat, s: World, x: Due, inputContext: nat -> addr, b: nat -> U.Buffers)
    requires maxPorts < P.PORTS && Sane(s) && Enabled(maxPorts, s, Answer(x))
    ensures var n := Next(maxPorts, s, Answer(x), inputContext, b);
      && n.w.h == s.w.h && n.w.e == E.Next(s.w.e, E.BeginEvent(EventFor(s.usb, x)))
      && n.usb == s.usb && n.due == s.due + [x]
    ensures W.Enabled(maxPorts, s.w, W.Post(EventFor(s.usb, x)))
  {
    hide C.Sane, E.Sane, E.Next, W.OfType, Writable, Answerable;
  }

  /** Steps of the controller, and of software on the command ring, that no device sees. */
  lemma UnseenKeepsInv(maxPorts: nat, s: World, a: Action, inputContext: nat -> addr, b: nat -> U.Buffers)
    requires Inv(maxPorts, s, inputContext) && Sane(s) && Enabled(maxPorts, s, a)
    requires a.Post? || a.EventStore? || a.CommandStore? || a.CommandFetch?
    ensures maxPorts < P.PORTS && Delivering(maxPorts, Next(maxPorts, s, a, inputContext, b))
  {
    InvParts(maxPorts, s, inputContext);
    var n := Next(maxPorts, s, a, inputContext, b);
    if a.Post? {
      WaitingAfterBegin(s.w.e, a.e);
    } else if a.EventStore? {
      WaitingAfterStore(s.w.e);
    }
    UnseenNext(maxPorts, s, a, inputContext, b);
    hide Inv, W.Inv, S.Inv, E.Inv, Waiting, Next, Queued, Written, E.Enabled, E.Next, Enabled, Sane;
  }

  lemma UnseenNext(maxPorts: nat, s: World, a: Action, inputContext: nat -> addr, b: nat -> U.Buffers)
    requires maxPorts < P.PORTS && Sane(s) && Enabled(maxPorts, s, a)
    requires a.Post? || a.EventStore? || a.CommandStore? || a.CommandFetch?
    ensures var n := Next(maxPorts, s, a, inputContext, b);
      && Host(n) == Host(s) && n.usb == s.usb && n.due == s.due
      && n.w.e == (if a.Post? then E.Next(s.w.e, E.BeginEvent(a.e))
                   else if a.EventStore? then E.Next(s.w.e, E.ControllerStep) else s.w.e)
  {
    hide C.Sane, E.Sane, E.Next, W.OfType, R.Next;
  }

  /** Ports at boot, and commands executed. */
  lemma PortActionKeepsInv(maxPorts: nat, s: World, a: Action, inputContext: nat -> addr, b: nat -> U.Buffers)
    requires Inv(maxPorts, s, inputContext) && Sane(s) && Enabled(maxPorts, s, a) && S.BuffersAllOk(b)
    requires a.Boot? || a.Execute?
    ensures maxPorts < P.PORTS && Delivering(maxPorts, Next(maxPorts, s, a, inputContext, b))
  {
    InvParts(maxPorts, s, inputContext);
    var n := Next(maxPorts, s, a, inputContext, b);
    var p := if a.Boot? then P.BootPort(a.port, a.connected) else P.Execute(a.slot);
    PortActionNext(maxPorts, s, a, p, inputContext, b);
    S.NextKeepsInv(maxPorts, Host(s), S.Port(p), b);
    hide *;
    IsDelivering(maxPorts, n, s.due, Waiting(s.w.e));
  }

  lemma PortActionNext(maxPorts: nat, s: World, a: Action, p: P.Action, inputContext: nat -> addr, b: nat -> U.Buffers)
    requires W.Inv(maxPorts, s.w, inputContext) && maxPorts < P.PORTS && Sane(s) && Enabled(maxPorts, s, a)
    requires (a.Boot? && p == P.BootPort(a.port, a.connected)) || (a.Execute? && p == P.Execute(a.slot))
    ensures var n := Next(maxPorts, s, a, inputContext, b);
      && S.Enabled(maxPorts, Host(s), S.Port(p)) && Host(n) == S.Next(maxPorts, Host(s), S.Port(p), b)
      && n.usb == s.usb && n.due == s.due && n.w.e == s.w.e
  {
    if a.Boot? {
      BootNext(maxPorts, s, a, p, inputContext, b);
    } else {
      ExecuteNext(maxPorts, s, a, p, inputContext, b);
    }
    hide *;
  }

  lemma BootNext(maxPorts: nat, s: World, a: Action, p: P.Action, inputContext: nat -> addr, b: nat -> U.Buffers)
    requires W.Inv(maxPorts, s.w, inputContext) && maxPorts < P.PORTS && Sane(s) && Enabled(maxPorts, s, a)
    requires a.Boot? && p == P.BootPort(a.port, a.connected)
    ensures var n := Next(maxPorts, s, a, inputContext, b);
      && S.Enabled(maxPorts, Host(s), S.Port(p)) && Host(n) == S.Next(maxPorts, Host(s), S.Port(p), b)
      && n.usb == s.usb && n.due == s.due && n.w.e == s.w.e
  {
    W.InvParts(maxPorts, s.w, inputContext);
    W.HandleFacts(maxPorts, s.w.h, p, inputContext);
    hide W.Inv, C.Inv, C.HandleOn, P.ConfigurePort, E.Sane, C.Encode, W.Pushing, C.Sane, C.Next, P.Step;
  }

  lemma ExecuteNext(maxPorts: nat, s: World, a: Action, p: P.Action, inputContext: nat -> addr, b: nat -> U.Buffers)
    requires maxPorts < P.PORTS && Sane(s) && Enabled(maxPorts, s, a) && a.Execute? && p == P.Execute(a.slot)
    ensures var n := Next(maxPorts, s, a, inputContext, b);
      && S.Enabled(maxPorts, Host(s), S.Port(p)) && Host(n) == S.Next(maxPorts, Host(s), S.Port(p), b)
      && n.usb == s.usb && n.due == s.due && n.w.e == s.w.e
  {
    hide E.Sane, C.Sane, P.Step;
  }

  /** Every step of the whole driver keeps the invariant. */
  lemma NextKeepsInv(maxPorts: nat, s: World, a: Action, inputContext: nat -> addr, b: nat -> U.Buffers)
    requires Inv(maxPorts, s, inputContext) && Sane(s) && Enabled(maxPorts, s, a) && S.BuffersAllOk(b)
    ensures maxPorts < P.PORTS && Inv(maxPorts, Next(maxPorts, s, a, inputContext, b), inputContext)
  {
    InvParts(maxPorts, s, inputContext);
    RingsKeepInv(maxPorts, s, a, inputContext, b);
    hide Inv, Sane, Enabled, Next, Delivering;
    match a {
      case Answer(x) => AnswerKeepsInv(maxPorts, s, x, inputContext, b);
      case Software(env) => SoftwareKeepsInv(maxPorts, s, env, inputContext, b);
      case Boot(_, _) => PortActionKeepsInv(maxPorts, s, a, inputContext, b);
      case Execute(_) => PortActionKeepsInv(maxPorts, s, a, inputContext, b);
      case _ => UnseenKeepsInv(maxPorts, s, a, inputContext, b);
    }
    BothParts(maxPorts, Next(maxPorts, s, a, inputContext, b), inputContext);
  }

  lemma BothParts(maxPorts: nat, s: World, inputContext: nat -> addr)
    requires W.Inv(maxPorts, s.w, inputContext) && Delivering(maxPorts, s)
    ensures Inv(maxPorts, s, inputContext)
  {
    hide W.Inv, S.Inv, Queued, Written, Waiting;
  }

  /** The step that both rings and the port protocol make. */
  function OnRings(s: World, a: Action, b: nat -> U.Buffers): W.Action
    requires Sane(s)
    requires a.Answer? ==> Writable(s.usb, a.x)
  {
    match a
    case Post(e) => W.Post(e)
    case Answer(x) => W.Post(EventFor(s.usb, x))
    case EventStore => W.EventStore
    case CommandStore => W.CommandStore
    case CommandFetch => W.CommandFetch
    case Boot(port, connected) => W.Boot(port, connected)
    case Execute(slot) => W.Execute(slot)
    case Software(env) => W.Software(Around(env, Learned(s, E.Front(s.w.e), env, b)))
  }

  lemma StepOnRings(maxPorts: nat, s: World, a: Action, inputContext: nat -> addr, b: nat -> U.Buffers)
    requires maxPorts < P.PORTS && Sane(s) && Enabled(maxPorts, s, a)
    ensures W.Enabled(maxPorts, s.w, OnRings(s, a, b))
    ensures Next(maxPorts, s, a, inputContext, b).w == W.Next(maxPorts, s.w, OnRings(s, a, b), inputContext)
  {
    hide C.Sane, E.Sane, W.Next, W.OfType, DevicesAfter, Learned, E.Front, Answerable, E.Enabled;
  }

  lemma RingsKeepInv(maxPorts: nat, s: World, a: Action, inputContext: nat -> addr, b: nat -> U.Buffers)
    requires Inv(maxPorts, s, inputContext) && Sane(s) && Enabled(maxPorts, s, a)
    ensures maxPorts < P.PORTS && W.Inv(maxPorts, Next(maxPorts, s, a, inputContext, b).w, inputContext)
  {
    InvParts(maxPorts, s, inputContext);
    StepOnRings(maxPorts, s, a, inputContext, b);
    hide Inv, W.Inv, Next, Enabled, W.Enabled, W.Next, OnRings;
    W.NextKeepsInv(maxPorts, s.w, OnRings(s, a, b), inputContext);
  }

  // ---- runs

  lemma SaneInv(maxPorts: nat, s: World, inputContext: nat -> addr)
    requires Inv(maxPorts, s, inputContext)
    ensures Sane(s)
  {
    InvParts(maxPorts, s, inputContext);
    W.SaneInv(maxPorts, s.w, inputContext);
    S.InvSane(maxPorts, Host(s));
    hide W.Inv, S.Inv, W.Sane, S.Sane;
  }

  ghost predicate Runs(maxPorts: nat, s: World, acts: seq<Action>, n: World,
                       inputContext: nat -> addr, b: nat -> U.Buffers)
    requires maxPorts < P.PORTS
    decreases |acts|
  {
    if acts == [] then s == n
    else
      && Sane(s) && Enabled(maxPorts, s, acts[0])
      && Runs(maxPorts, Next(maxPorts, s, acts[0], inputContext, b), acts[1..], n, inputContext, b)
  }

  lemma {:induction false} RunKeepsInv(maxPorts: nat, s: World, acts: seq<Action>, n: World, inputContext: nat -> addr,
                                       b: nat -> U.Buffers)
    requires maxPorts < P.PORTS && Inv(maxPorts, s, inputContext) && S.BuffersAllOk(b)
    requires Runs(maxPorts, s, acts, n, inputContext, b)
    ensures Inv(maxPorts, n, inputContext)
    decreases |acts|
  {
    hide Inv, Next, Sane, Enabled;
    if acts != [] {
      NextKeepsInv(maxPorts, s, acts[0], inputContext, b);
      RunKeepsInv(maxPorts, Next(maxPorts, s, acts[0], inputContext, b), acts[1..], n, inputContext, b);
    }
  }

  lemma InitInv(maxPorts: nat, base: addr, eventBase: addr, low: nat, inputContext: nat -> addr)
    requires maxPorts < P.PORTS && base % 16 == 0 && base + 16 * C.RING_SIZE < WORD64
    requires eventBase % 64 == 0 && eventBase + 16 * C.RING_SIZE < WORD64
    ensures Inv(maxPorts, Init(base, eventBase, low), inputContext)
  {
    hide W.Inv, Waiting, P.Inv, E.Init, S.Inv, P.Start, R.Init;
    W.InitInv(maxPorts, base, eventBase, low, inputContext);
    P.StartInv(maxPorts);
    NothingWaits(eventBase, low);
    StartFits(maxPorts, Init(base, eventBase, low));
    NothingIsDue(Init(base, eventBase, low).usb);
  }

  lemma NothingIsDue(usb: Devices)
    ensures Queued(usb, []) && Written(usb, [], [])
  {
  }

  lemma NothingWaits(eventBase: addr, low: nat)
    ensures Waiting(E.Init(eventBase, C.RING_SIZE, low)) == []
  {
  }

  lemma StartFits(maxPorts: nat, s: World)
    requires P.Inv(maxPorts, P.Start()) && s.w.h.x == P.Start() && s.usb == seq(P.MAX_SLOTS + 1, _ => None)
    ensures S.Inv(maxPorts, Host(s))
  {
    P.InvInRange(maxPorts, P.Start());
    hide P.Inv;
  }

  /** A transfer event about to be handled is the answer to a request in flight, and from the words of the
      event the handler passes on exactly what that request is owed, or that it has failed. */
  ghost predicate Delivered(usb: Devices, t: Trb) {
    && W.SlotId(t) < |usb| && usb[W.SlotId(t)].Some?
    && var d := usb[W.SlotId(t)].value.dev;
       exists i: nat :: i < |d.live| && L.Oldest(d.live, i) && AnswerTo(d, d.live[i], Decoded(d, t))
  }

  /** The event points to the request's TRB, and its handler passes on what the request is owed. */
  predicate AnswerTo(d: X.Device, r: X.Request, e: X.Event) {
    && IsAt(d.rings, r, e.ptr)
    && X.OnTransferEvent(d, e).1
       == if e.code == 1 || e.code == 13 then X.Owed(r, e.residual) else X.Rejected(X.TransferFailed)
  }

  lemma FrontDelivered(maxPorts: nat, s: World, inputContext: nat -> addr)
    requires Inv(maxPorts, s, inputContext) && Handling(s) && E.InBounds(s.w.e)
    requires RouteOf(E.Front(s.w.e)).ToTransfer?
    ensures Delivered(s.usb, E.Front(s.w.e))
  {
    var t := E.Front(s.w.e);
    hide Inv, E.InBounds, E.Front, RouteOf;
    var i := FrontAnswers(maxPorts, s, inputContext);
    var x := s.due[0];
    DistinctLive(s.usb[x.slot].value);
    LeadingDelivers(s.usb, x, t, i);
  }

  lemma LeadingDelivers(usb: Devices, x: Due, t: Trb, i: nat)
    requires W.SlotId(t) == x.slot < |usb| && usb[x.slot].Some? && Leading(usb[x.slot].value, x, t, i)
    requires X.DeviceInv(usb[x.slot].value.dev)
    ensures Delivered(usb, t)
  {
    var d := usb[x.slot].value.dev;
    if x.code == 1 || x.code == 13 {
      X.CompletionIsOwed(d, i, x.residual, x.code);
    } else {
      FailureRejected(d, Decoded(d, t));
    }
    hide X.DeviceInv, X.OnTransferEvent, Decoded, PtrOf, FindLive, X.Owed, L.Oldest, X.RingAt;
    assert AnswerTo(d, d.live[i], Decoded(d, t));
  }

  lemma FailureRejected(d: X.Device, e: X.Event)
    requires e.code != 1 && e.code != 13
    ensures X.OnTransferEvent(d, e).1 == X.Rejected(X.TransferFailed)
  {
  }

  /** When no event waits, no request has an answer that is not handled. */
  lemma NothingDue(maxPorts: nat, s: World, inputContext: nat -> addr)
    requires Inv(maxPorts, s, inputContext) && E.InBounds(s.w.e) && !E.HasFront(s.w.e) && !s.w.e.src.writing
    ensures s.due == []
  {
    InvParts(maxPorts, s, inputContext);
    SameLength(s.usb, s.due, Waiting(s.w.e));
    E.FrontIsOldest(s.w.e);
    hide Inv, W.Inv, S.Inv, C.Inv, W.OfType, E.SourceInv, E.HasFront, E.InBounds;
    assert s.w.e.drv.handled == E.Begun(s.w.e.src);
  }

  /** Main theorem: in every run of the whole driver, with any interleaving of ports, slots, commands and
      transfers of up to eight devices, and with all completions coming through the event ring,
      - a transfer event is handled by the device of its slot, found from the words of the event to be the
        answer to the oldest request of its ring, and delivers what that request is owed;
      - a command completion is handled as that of the oldest command, with its slot, and is accepted unless
        there was no slot for the device;
      - when no event waits, everything reported has been handled;
      - exactly one port is between reset and address assignment while the lock is held, slots match ports,
        at most nine commands are on the command ring, and all devices stay within the flow control of
        their rings. */
  lemma WholeTheorem(maxPorts: nat, base: addr, eventBase: addr, low: nat, acts: seq<Action>, s: World,
                     connected: nat -> bool, inputContext: nat -> addr, b: nat -> U.Buffers)
    requires maxPorts < P.PORTS && base % 16 == 0 && base + 16 * C.RING_SIZE < WORD64
    requires eventBase % 64 == 0 && eventBase + 16 * C.RING_SIZE < WORD64 && S.BuffersAllOk(b)
    requires Runs(maxPorts, Init(base, eventBase, low), acts, s, inputContext, b)
    ensures Sane(s) && E.InBounds(s.w.e)
    ensures Handling(s) && RouteOf(E.Front(s.w.e)).ToTransfer? ==> Delivered(s.usb, E.Front(s.w.e))
    ensures Handling(s) && s.w.h.r.pc.Idle? && W.IsCompletion(E.Front(s.w.e)) ==> W.CompletionFits(s.w, connected)
    ensures !E.HasFront(s.w.e) && !s.w.e.src.writing ==> s.due == []
    ensures T.Matched(s.w.h.x)
    ensures forall p: nat | p < P.PORTS :: P.Busy(s.w.h.x.phase[p]) <==> p == s.w.h.x.addressingPort != 0
    ensures R.Outstanding(s.w.h.r) <= 9 && !s.w.h.r.c.lost
    ensures forall slot | 0 <= slot < |s.usb| && s.usb[slot].Some? :: S.WithinBounds(s.usb[slot].value)
  {
    InitInv(maxPorts, base, eventBase, low, inputContext);
    RunKeepsInv(maxPorts, Init(base, eventBase, low), acts, s, inputContext, b);
    SaneInv(maxPorts, s, inputContext);
    InvParts(maxPorts, s, inputContext);
    E.FrontIsOldest(s.w.e);
    hide *;
    T.Excluded(maxPorts, s.w.h.x);
    T.SlotsMatchPorts(maxPorts, s.w.h.x);
    C.NeverFull(maxPorts, s.w.h, inputContext);
    C.ProtocolInv(maxPorts, s.w.h, inputContext);
    WholeEvents(maxPorts, s, connected, inputContext);
    forall slot | 0 <= slot < |s.usb| && s.usb[slot].Some? ensures S.WithinBounds(s.usb[slot].value) {
      DeviceBounds(maxPorts, s, slot);
    }
  }

  lemma DeviceBounds(maxPorts: nat, s: World, slot: nat)
    requires S.Inv(maxPorts, Host(s)) && slot < |s.usb| && s.usb[slot].Some?
    ensures S.WithinBounds(s.usb[slot].value)
  {
    S.InvSane(maxPorts, Host(s));
    S.DeviceWithinBounds(S.ViewOf(s.w.h.x, slot), s.usb[slot]);
    hide S.Inv, S.Fit, P.Inv, S.WithinBounds, S.ViewOf;
  }

  lemma WholeEvents(maxPorts: nat, s: World, connected: nat -> bool, inputContext: nat -> addr)
    requires Inv(maxPorts, s, inputContext) && Sane(s) && E.InBounds(s.w.e)
    ensures Handling(s) && RouteOf(E.Front(s.w.e)).ToTransfer? ==> Delivered(s.usb, E.Front(s.w.e))
    ensures Handling(s) && s.w.h.r.pc.Idle? && W.IsCompletion(E.Front(s.w.e)) ==> W.CompletionFits(s.w, connected)
    ensures !E.HasFront(s.w.e) && !s.w.e.src.writing ==> s.due == []
  {
    InvParts(maxPorts, s, inputContext);
    if Handling(s) && RouteOf(E.Front(s.w.e)).ToTransfer? {
      FrontDelivered(maxPorts, s, inputContext);
    }
    if Handling(s) && s.w.h.r.pc.Idle? && W.IsCompletion(E.Front(s.w.e)) {
      W.CompletionSucceeds(maxPorts, s.w, connected, inputContext);
    }
    if !E.HasFront(s.w.e) && !s.w.e.src.writing {
      NothingDue(maxPorts, s, inputContext);
    }
    hide *;
  }
}
