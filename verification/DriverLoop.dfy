/** The driver between its two rings: the controller executes commands from the command ring and
    writes events into the event ring; `ProcessEvent` takes them out and hands them to the handlers of
    the port protocol, which push the next commands. That completions are handled in order and after
    execution, which the protocol relies on, is derived here from the events alone. */
module DriverLoop {
  import opened Trbs
  import opened EventLoop
  import P = PortProtocol
  import T = PortTheorems
  import C = CommandRing
  import E = EventRings
  import R = ProducerRing

  datatype World = World(h: C.Host, e: E.Sys)

  function Init(base: addr, eventBase: addr, low: nat): World {
    World(C.Init(base), E.Init(eventBase, C.RING_SIZE, low))
  }

  // ---- events

  /** A CommandCompletionEventTRB with code Success: pointer bits 4 to 63, slot id in the top byte. */
  function CompletionEvent(pointer: nat, slot: nat): Trb {
    var a: addr := pointer % 0x1_0000_0000_0000_0000;
    Trb(Low(a) - Low(a) % 16, High(a), 0x100_0000, Control(0, COMMAND_COMPLETION_EVENT, slot * 0x100), false)
  }

  /** Its words as numbers: the pointer in words 0 and 1, completion code 1 in the top byte of word 2, type 33
      and the slot id in the last one. */
  lemma CompletionWords(pointer: addr, slot: nat)
    requires pointer % 16 == 0 && slot < 0x100
    ensures var t := CompletionEvent(pointer, slot);
      && t.w0 + 0x1_0000_0000 * t.w1 == pointer && t.w2 == 0x100_0000
      && t.ctl.Fits() && t.LastWord() == 0x8400 + 0x100_0000 * slot
  {
    Halves(pointer);
    hide Low, High;
    assert pointer % 0x1_0000_0000_0000_0000 == pointer;
  }

  predicate IsCompletion(t: Trb) { t.ctl.ty == COMMAND_COMPLETION_EVENT }

  /** slot_id of a transfer event or a command completion event. */
  function SlotId(t: Trb): nat { t.ctl.high / 0x100 }

  /** port_id of a port status change event. */
  function PortId(t: Trb): nat { t.w0 / 0x100_0000 }

  /** The events of one type among these. */
  function OfType(events: seq<Trb>, ty: nat): seq<Trb> {
    if events == [] then []
    else
      var n := |events| - 1;
      OfType(events[..n], ty) + (if events[n].ctl.ty == ty then [events[n]] else [])
  }

  function CompletionsIn(events: seq<Trb>): seq<Trb> { OfType(events, COMMAND_COMPLETION_EVENT) }

  // ---- handlers

  /** What the handlers read besides the event: port registers, and what the device of a transfer event
      makes of it. */
  datatype Surroundings = Surroundings(
    connected: nat -> bool, status: P.PortStatus, transfer: P.Transfer, speed: nat)

  /** trb_type of the TRB at an event's pointer, 0 outside the command ring. */
  function IssuerAt(p: R.Producer, pointer: addr): nat {
    if p.base <= pointer && (pointer - p.base) / 16 < |p.mem| then p.mem[(pointer - p.base) / 16].ctl.ty else 0
  }

  function OnCompletion(h: C.Host, t: Trb, connected: nat -> bool): (P.Xhc, P.Error)
    requires P.Sized(h.x) && P.ContextPortsInRange(h.x)
  {
    P.OnCommandCompletion(h.x, IssuerAt(h.r.p, t.Pointer16()), SlotId(t), connected)
  }

  /** ProcessEvent's dispatch on the event in front. */
  function Dispatch(h: C.Host, t: Trb, env: Surroundings): P.Xhc
    requires P.Sized(h.x) && P.ContextPortsInRange(h.x)
  {
    match RouteOf(t)
    case ToTransfer => P.OnTransferEvent(h.x, SlotId(t), env.transfer, env.speed).0
    case ToPortStatus => P.OnPortStatusChange(h.x, PortId(t), env.status).0
    case ToCommandCompletion => OnCompletion(h, t, env.connected).0.(handled := h.x.handled + 1)
    case NoHandler => h.x
  }

  /** The dispatch in numbers: by bits 10 to 15 of the last word, with the slot id from its top byte, the port
      id from the top byte of word 0, and the command's TRB from the pointer in words 0 and 1. */
  lemma DispatchByType(h: C.Host, t: Trb, env: Surroundings)
    requires P.Sized(h.x) && P.ContextPortsInRange(h.x) && t.ctl.Fits()
    ensures var ty, id := TypeBits(t), t.LastWord() / 0x100_0000;
      var pointer: addr := t.w0 - t.w0 % 16 + 0x1_0000_0000 * t.w1;
      && (ty == 32 ==> Dispatch(h, t, env) == P.OnTransferEvent(h.x, id, env.transfer, env.speed).0)
      && (ty == 34 ==> Dispatch(h, t, env) == P.OnPortStatusChange(h.x, t.w0 / 0x100_0000, env.status).0)
      && (ty == 33 ==>
            Dispatch(h, t, env) ==
            P.OnCommandCompletion(h.x, IssuerAt(h.r.p, pointer), id, env.connected).0.(handled := h.x.handled + 1))
      && (ty !in {32, 33, 34} ==> Dispatch(h, t, env) == h.x)
  {
    RouteIsByType(t);
    TopByte(t);
    hide TypeBits, P.OnTransferEvent, P.OnPortStatusChange, P.OnCommandCompletion, IssuerAt, RouteOf, SlotId;
  }

  lemma TopByte(t: Trb)
    requires t.ctl.Fits()
    ensures SlotId(t) == t.LastWord() / 0x100_0000
  {
    var low := (if t.cycle then 1 else 0) + 2 * t.ctl.flags + 0x400 * t.ctl.ty;
    assert t.LastWord() == low + 0x1_0000 * (t.ctl.high % 0x100) + 0x100_0000 * (t.ctl.high / 0x100);
  }

  /** The handler's command, if it has one, goes to the command ring. */
  function Pushing(h: C.Host, y: P.Xhc, inputContext: nat -> addr): C.Host {
    if |y.commands| > |h.x.commands|
    then C.Host(y, h.r.(pc := R.Data(0, C.Encode(y.commands[|h.x.commands|], inputContext))))
    else C.Host(y, h.r)
  }

  // ---- steps

  datatype Action =
    | Post(e: Trb)                            // the controller starts to write an event
    | EventStore                              // it stores a word of it
    | Boot(port: nat, connected: bool)        // software configures a port before it polls
    | Software(env: Surroundings)             // software polls, handles an event, or pops it
    | Execute(slot: nat)                      // the controller executes a command it has fetched
    | CommandStore                            // one step of the push in progress
    | CommandFetch                            // one step of the controller's command ring traversal

  /** What the controller may report: a completion for the oldest executed command that has none yet;
      changes of existing ports; transfer events, and events no handler knows, of any content. */
  predicate Reportable(maxPorts: nat, w: World, e: Trb) {
    var n := |CompletionsIn(E.Begun(w.e.src))|;
    && (IsCompletion(e) ==>
          n < |w.h.x.results| && n < |w.h.r.c.from|
          && Payload(e) == CompletionEvent(w.h.r.p.base + 16 * w.h.r.c.from[n], w.h.x.results[n]))
    && (e.ctl.ty == PORT_STATUS_CHANGE_EVENT ==> 1 <= PortId(e) <= maxPorts)
  }

  predicate Sane(w: World) { C.Sane(w.h) && E.Sane(w.e) }

  /** A handler returns once its push is done; only then does software go on. */
  predicate Enabled(maxPorts: nat, w: World, a: Action)
    requires Sane(w)
  {
    match a
    case Post(e) => E.Enabled(w.e, E.BeginEvent(e)) && Reportable(maxPorts, w, e)
    case EventStore => w.e.src.writing
    case Boot(port, _) => 1 <= port <= maxPorts && w.h.r.pc.Idle? && w.e.drv.phase.Polling?
    case Software(_) => w.h.r.pc.Idle?
    case Execute(slot) => C.Enabled(maxPorts, w.h, C.Execute(slot))
    case CommandStore => true
    case CommandFetch => true
  }

  function Next(maxPorts: nat, w: World, a: Action, inputContext: nat -> addr): World
    requires maxPorts < P.PORTS && Sane(w) && Enabled(maxPorts, w, a)
  {
    match a
    case Post(e) => w.(e := E.Next(w.e, E.BeginEvent(e)))
    case EventStore => w.(e := E.Next(w.e, E.ControllerStep))
    case Boot(port, connected) => w.(h := C.Next(maxPorts, w.h, C.Handle(P.BootPort(port, connected)), inputContext))
    case Software(env) =>
      World(if w.e.drv.phase.Seen? then Pushing(w.h, Dispatch(w.h, E.Front(w.e), env), inputContext) else w.h,
            E.Drive(w.e))
    case Execute(slot) => w.(h := C.Next(maxPorts, w.h, C.Execute(slot), inputContext))
    case CommandStore => w.(h := C.Next(maxPorts, w.h, C.SoftwareStore, inputContext))
    case CommandFetch => w.(h := C.Next(maxPorts, w.h, C.ControllerFetch, inputContext))
  }

  // ---- invariant

  /** The completion events written so far are those of the first commands executed, in order. */
  ghost predicate Reported(done: seq<Trb>, base: nat, from: seq<nat>, results: seq<nat>) {
    && |done| <= |results| <= |from|
    && forall i | 0 <= i < |done| :: done[i] == CompletionEvent(base + 16 * from[i], results[i])
  }

  ghost predicate PortsExist(maxPorts: nat, events: seq<Trb>) {
    forall i | 0 <= i < |events| && events[i].ctl.ty == PORT_STATUS_CHANGE_EVENT :: 1 <= PortId(events[i]) <= maxPorts
  }

  /** What ties the two rings together. */
  ghost predicate Linked(maxPorts: nat, w: World) {
    && w.h.r.p.base + 16 * C.RING_SIZE < 0x1_0000_0000_0000_0000
    && Reported(CompletionsIn(E.Begun(w.e.src)), w.h.r.p.base, w.h.r.c.from, w.h.x.results)
    && PortsExist(maxPorts, E.Begun(w.e.src))
    && |CompletionsIn(w.e.drv.handled)| == w.h.x.handled
  }

  ghost predicate Inv(maxPorts: nat, w: World, inputContext: nat -> addr) {
    C.Inv(maxPorts, w.h, inputContext) && E.Inv(w.e) && Linked(maxPorts, w)
  }

  // ---- sequences of events

  lemma OneMore(s: seq<Trb>, t: Trb, ty: nat)
    ensures OfType(s + [t], ty) == if t.ctl.ty == ty then OfType(s, ty) + [t] else OfType(s, ty)
  {
    assert (s + [t])[..|s|] == s;
  }

  lemma CompletionsOneMore(s: seq<Trb>, t: Trb)
    ensures CompletionsIn(s + [t]) == if IsCompletion(t) then CompletionsIn(s) + [t] else CompletionsIn(s)
  {
    OneMore(s, t, COMMAND_COMPLETION_EVENT);
  }

  lemma {:induction false} OfTypePrefix(s: seq<Trb>, t: seq<Trb>, ty: nat)
    requires s <= t
    ensures OfType(s, ty) <= OfType(t, ty)
    decreases |t|
  {
    if |s| < |t| {
      OfTypePrefix(s, t[..|t| - 1], ty);
    } else {
      assert s == t;
    }
  }

  /** An event of a type after a prefix is the next of all of that type. */
  lemma NextOfType(s: seq<Trb>, t: seq<Trb>, ty: nat)
    requires |s| < |t| && s <= t && t[|s|].ctl.ty == ty
    ensures |OfType(s, ty)| < |OfType(t, ty)| && OfType(t, ty)[|OfType(s, ty)|] == t[|s|]
  {
    hide OfType;
    var u := t[..|s| + 1];
    assert u == s + [t[|s|]];
    OneMore(s, t[|s|], ty);
    OfTypePrefix(u, t, ty);
    AtPrefix(OfType(s, ty), t[|s|], OfType(t, ty));
  }

  lemma AtPrefix(a: seq<Trb>, t: Trb, b: seq<Trb>)
    requires a + [t] <= b
    ensures |a| < |b| && b[|a|] == t
  {
    assert (a + [t])[|a|] == t;
  }

  lemma NextCompletion(s: seq<Trb>, t: seq<Trb>)
    requires |s| < |t| && s <= t && IsCompletion(t[|s|])
    ensures |CompletionsIn(s)| < |CompletionsIn(t)| && CompletionsIn(t)[|CompletionsIn(s)|] == t[|s|]
  {
    NextOfType(s, t, COMMAND_COMPLETION_EVENT);
  }

  // ---- the event in front

  /** The pointer of a completion event leads back to the slot its command was fetched from. */
  lemma PointerLeadsBack(a: addr, id: nat)
    requires a % 16 == 0
    ensures CompletionEvent(a, id).Pointer16() == a && SlotId(CompletionEvent(a, id)) == id
  {
    Halves(a);
    hide Low, High;
    assert a % 0x1_0000_0000_0000_0000 == a;
  }

  lemma Halves(a: addr)
    requires a % 16 == 0
    ensures Low(a) % 16 == 0 && High(a) * 0x1_0000_0000 + Low(a) == a
  {
    assert a == High(a) * 0x1_0000_0000 + Low(a);
    assert a == 16 * (0x1000_0000 * High(a)) + Low(a);
  }

  /** The event software has seen is the oldest written and not handled. */
  lemma FrontEvent(w: World)
    requires E.Inv(w.e) && w.e.drv.phase.Seen?
    ensures E.InBounds(w.e)
    ensures var begun, handled := E.Begun(w.e.src), w.e.drv.handled;
      && handled <= begun && |handled| < |begun| && Payload(E.Front(w.e)) == begun[|handled|]
  {
    E.FrontIsOldest(w.e);
    hide E.SourceInv;
  }

  /** A completion in front is that of the oldest executed command not yet handled. */
  lemma FrontIsNext(maxPorts: nat, w: World, inputContext: nat -> addr)
    requires Inv(maxPorts, w, inputContext) && w.e.drv.phase.Seen?
    ensures E.InBounds(w.e)
    ensures IsCompletion(E.Front(w.e)) ==>
              var n := w.h.x.handled;
              && n < |w.h.x.results| && n < |w.h.r.c.from|
              && Payload(E.Front(w.e)) == CompletionEvent(w.h.r.p.base + 16 * w.h.r.c.from[n], w.h.x.results[n])
  {
    FrontEvent(w);
    PayloadReads(E.Front(w.e));
    if IsCompletion(E.Front(w.e)) {
      NextCompletion(w.e.drv.handled, E.Begun(w.e.src));
    }
    hide C.Inv, E.Inv, CompletionsIn, E.Begun, CompletionEvent, E.Front, E.InBounds;
  }

  /** Its pointer leads to that command's TRB, its slot id is the one the controller gave. */
  lemma FrontCompletion(maxPorts: nat, w: World, inputContext: nat -> addr)
    requires Inv(maxPorts, w, inputContext) && w.e.drv.phase.Seen?
    ensures E.InBounds(w.e)
    ensures IsCompletion(E.Front(w.e)) ==>
              var t, n := E.Front(w.e), w.h.x.handled;
              && n < |w.h.x.results| && n < |w.h.r.c.from| && w.h.r.c.from[n] < |w.h.r.p.mem|
              && t.Pointer16() == w.h.r.p.base + 16 * w.h.r.c.from[n] && SlotId(t) == w.h.x.results[n]
              && IssuerAt(w.h.r.p, t.Pointer16()) == C.IssuerType(w.h)
  {
    FrontIsNext(maxPorts, w, inputContext);
    InvParts(maxPorts, w, inputContext);
    BaseAligned(maxPorts, w.h, inputContext);
    hide *;
    var t, n := E.Front(w.e), w.h.x.handled;
    if IsCompletion(t) {
      ReadsCompletion(w.h.r.p.base, w.h.r.c.from[n], w.h.x.results[n], t);
      IssuerThere(w.h, t);
    }
  }

  lemma Aligned(base: addr, slot: nat)
    requires base % 16 == 0
    ensures (base + 16 * slot) % 16 == 0
  {
  }

  lemma ReadsCompletion(base: addr, slot: nat, id: nat, t: Trb)
    requires base % 16 == 0 && slot < C.RING_SIZE && base + 16 * C.RING_SIZE < 0x1_0000_0000_0000_0000
    requires Payload(t) == CompletionEvent(base + 16 * slot, id)
    ensures t.Pointer16() == base + 16 * slot && SlotId(t) == id
  {
    Aligned(base, slot);
    PayloadReads(t);
    hide *;
    PointerLeadsBack(base + 16 * slot, id);
  }

  lemma InvParts(maxPorts: nat, w: World, inputContext: nat -> addr)
    requires Inv(maxPorts, w, inputContext)
    ensures C.Inv(maxPorts, w.h, inputContext) && E.Inv(w.e)
    ensures w.h.r.p.base + 16 * C.RING_SIZE < 0x1_0000_0000_0000_0000
  {
    hide C.Inv, E.Inv;
  }

  lemma IssuerThere(h: C.Host, t: Trb)
    requires h.x.handled < |h.r.c.from| && h.r.c.from[h.x.handled] < |h.r.p.mem|
    requires t.Pointer16() == h.r.p.base + 16 * h.r.c.from[h.x.handled]
    ensures IssuerAt(h.r.p, t.Pointer16()) == C.IssuerType(h)
  {
    assert (16 * h.r.c.from[h.x.handled]) / 16 == h.r.c.from[h.x.handled];
  }

  lemma PayloadReads(t: Trb)
    ensures Payload(t).Pointer16() == t.Pointer16() && SlotId(Payload(t)) == SlotId(t)
            && PortId(Payload(t)) == PortId(t)
    ensures Payload(t).ctl == t.ctl
  {
  }

  lemma BaseAligned(maxPorts: nat, h: C.Host, inputContext: nat -> addr)
    requires C.Inv(maxPorts, h, inputContext)
    ensures h.r.p.base % 16 == 0 && |h.r.p.mem| == C.RING_SIZE
    ensures forall j | 0 <= j < |h.r.c.from| :: h.r.c.from[j] < |h.r.p.mem|
  {
    C.FetchedInRange(h.r);
    hide R.Layout;
  }

  /** The protocol's action that an event stands for. */
  function Meaning(t: Trb, env: Surroundings): P.Action {
    match RouteOf(t)
    case ToTransfer => P.TransferEvent(SlotId(t), env.transfer, env.speed)
    case ToPortStatus => P.PortEvent(PortId(t), env.status)
    case _ => P.Complete(env.connected)
  }

  /** Handling the event in front is a step of the port protocol, or none. */
  lemma SoftwareRefines(maxPorts: nat, w: World, env: Surroundings, inputContext: nat -> addr)
    requires Inv(maxPorts, w, inputContext) && Sane(w) && w.e.drv.phase.Seen? && w.h.r.pc.Idle?
    ensures var t := E.Front(w.e);
      if RouteOf(t).NoHandler? then Dispatch(w.h, t, env) == w.h.x
      else
        && C.Enabled(maxPorts, w.h, C.Handle(Meaning(t, env)))
        && Dispatch(w.h, t, env) == C.HandleOn(maxPorts, w.h, Meaning(t, env))
  {
    FrontCompletion(maxPorts, w, inputContext);
    FrontPort(maxPorts, w, inputContext);
    ResultsIssued(maxPorts, w, inputContext);
    hide Inv, E.Front, CompletionEvent, IssuerAt, C.IssuerType, C.Inv, E.Inv;
  }

  lemma FrontPort(maxPorts: nat, w: World, inputContext: nat -> addr)
    requires Inv(maxPorts, w, inputContext) && w.e.drv.phase.Seen?
    ensures maxPorts < P.PORTS && E.InBounds(w.e)
    ensures E.Front(w.e).ctl.ty == PORT_STATUS_CHANGE_EVENT ==> 1 <= PortId(E.Front(w.e)) <= maxPorts
  {
    FrontEvent(w);
    PayloadReads(E.Front(w.e));
    hide E.Inv, E.Begun, E.Front, PortId, CompletionsIn, R.Inv, Payload, E.InBounds;
  }

  lemma ResultsIssued(maxPorts: nat, w: World, inputContext: nat -> addr)
    requires Inv(maxPorts, w, inputContext)
    ensures P.Sized(w.h.x) && |w.h.x.results| <= |w.h.x.commands|
  {
    hide E.Inv, R.Inv, Linked;
  }

  // ---- every step

  /** The steps of the port protocol that a step stands for: one or none. */
  function Shadow(w: World, a: Action): seq<P.Action>
    requires Sane(w)
  {
    match a
    case Boot(port, connected) => [P.BootPort(port, connected)]
    case Execute(slot) => [P.Execute(slot)]
    case Software(env) =>
      if w.e.drv.phase.Seen? && !RouteOf(E.Front(w.e)).NoHandler? then [Meaning(E.Front(w.e), env)] else []
    case _ => []
  }

  /** Results only grow, fetched slots only grow, and nothing else of the link changes. */
  lemma LinkFramed(maxPorts: nat, w: World, h: C.Host)
    requires Linked(maxPorts, w) && h.r.p.base == w.h.r.p.base && h.x.handled == w.h.x.handled
    requires w.h.x.results <= h.x.results && w.h.r.c.from <= h.r.c.from && |h.x.results| <= |h.r.c.from|
    ensures Linked(maxPorts, w.(h := h))
  {
    hide CompletionsIn, E.Begun, CompletionEvent;
  }

  lemma PostKeepsLink(maxPorts: nat, w: World, e: Trb)
    requires Linked(maxPorts, w) && Sane(w) && E.Enabled(w.e, E.BeginEvent(e)) && Reportable(maxPorts, w, e)
    ensures Linked(maxPorts, w.(e := E.Next(w.e, E.BeginEvent(e))))
  {
    hide CompletionsIn, E.Begun, E.Next, CompletionEvent, PortId, Payload, Reported,
         PortsExist, C.Sane, E.Sane, E.HasRoom;
    BeginFacts(w.e, e);
    var begun := E.Begun(w.e.src);
    CompletionsOneMore(begun, Payload(e));
    PayloadReads(e);
    ReportedOneMore(CompletionsIn(begun), Payload(e), w.h.r.p.base, w.h.r.c.from, w.h.x.results);
    PortsOneMore(maxPorts, begun, Payload(e));
  }

  lemma BeginFacts(s: E.Sys, e: Trb)
    requires E.Sane(s) && E.Enabled(s, E.BeginEvent(e))
    ensures E.Next(s, E.BeginEvent(e)).drv == s.drv
    ensures E.Begun(E.Next(s, E.BeginEvent(e)).src) == E.Begun(s.src) + [Payload(e)]
  {
    E.StepBegins(s, E.BeginEvent(e));
  }

  lemma ReportedOneMore(done: seq<Trb>, t: Trb, base: nat, from: seq<nat>, results: seq<nat>)
    requires Reported(done, base, from, results)
    ensures |done| < |results| && |done| < |from| && t == CompletionEvent(base + 16 * from[|done|], results[|done|]) ==>
              Reported(done + [t], base, from, results)
  {
    hide CompletionEvent;
  }

  lemma PortsOneMore(maxPorts: nat, events: seq<Trb>, t: Trb)
    requires PortsExist(maxPorts, events)
    ensures (t.ctl.ty == PORT_STATUS_CHANGE_EVENT ==> 1 <= PortId(t) <= maxPorts) ==> PortsExist(maxPorts, events + [t])
  {
    hide PortId;
  }

  lemma StoreKeepsLink(maxPorts: nat, w: World)
    requires Linked(maxPorts, w) && Sane(w) && w.e.src.writing
    ensures Linked(maxPorts, w.(e := E.Next(w.e, E.ControllerStep)))
  {
    var f := E.Next(w.e, E.ControllerStep);
    E.StepBegins(w.e, E.ControllerStep);
    assert f.drv == w.e.drv && E.Begun(f.src) == E.Begun(w.e.src);
    hide CompletionsIn, E.Begun, E.Next, CompletionEvent, PortId, Reported, PortsExist, Sane;
  }

  /** Handling an event counts it, as a completion if it is one. */
  lemma DriveCounts(e: E.Sys)
    requires E.InBounds(e)
    ensures E.Drive(e).src == e.src
    ensures |CompletionsIn(E.Drive(e).drv.handled)|
            == |CompletionsIn(e.drv.handled)| + (if e.drv.phase.Seen? && IsCompletion(E.Front(e)) then 1 else 0)
  {
    CompletionsOneMore(e.drv.handled, Payload(E.Front(e)));
    PayloadReads(E.Front(e));
    hide CompletionsIn, E.Front, E.InBounds;
  }

  lemma DriveKeepsLink(maxPorts: nat, w: World, h: C.Host)
    requires Linked(maxPorts, w) && E.InBounds(w.e)
    requires h.r.p == w.h.r.p && h.r.c == w.h.r.c && h.x.results == w.h.x.results
    requires h.x.handled
             == w.h.x.handled + (if w.e.drv.phase.Seen? && IsCompletion(E.Front(w.e)) then 1 else 0)
    ensures Linked(maxPorts, World(h, E.Drive(w.e)))
  {
    DriveCounts(w.e);
    hide CompletionsIn, CompletionEvent, PortId, E.Front, E.Drive, E.Begun, E.InBounds, IsCompletion;
  }

  /** Only completions count as handled, and no handler executes commands. */
  lemma HandledCount(maxPorts: nat, x: P.Xhc, e: P.Action)
    requires P.Inv(maxPorts, x) && P.Enabled(maxPorts, x, e) && !e.Execute?
    ensures P.ContextPortsInRange(x)
    ensures P.Step(maxPorts, x, e).0.handled == x.handled + (if e.Complete? then 1 else 0)
    ensures P.Step(maxPorts, x, e).0.results == x.results
  {
    P.InvInRange(maxPorts, x);
    C.ResultsKept(maxPorts, x, e);
    hide P.Inv;
  }

  /** A handler leaves both sides of the command ring as they are, but for the push it starts. */
  lemma HandleFacts(maxPorts: nat, h: C.Host, e: P.Action, inputContext: nat -> addr)
    requires C.Inv(maxPorts, h, inputContext) && C.Sane(h) && C.Enabled(maxPorts, h, C.Handle(e))
    ensures var k := C.Next(maxPorts, h, C.Handle(e), inputContext);
      && k == Pushing(h, P.Step(maxPorts, h.x, e).0, inputContext)
      && C.Inv(maxPorts, k, inputContext)
      && k.r.p == h.r.p && k.r.c == h.r.c && k.x == P.Step(maxPorts, h.x, e).0
      && k.x.handled == h.x.handled + (if e.Complete? then 1 else 0) && k.x.results == h.x.results
  {
    C.HandleIsStep(maxPorts, h, inputContext, e);
    C.NextKeepsInv(maxPorts, h, C.Handle(e), inputContext);
    C.ProtocolInv(maxPorts, h, inputContext);
    HandledCount(maxPorts, h.x, e);
    hide C.Inv, P.Inv, P.Step, C.HandleOn, C.Encode;
  }

  lemma SoftwareKeepsInv(maxPorts: nat, w: World, env: Surroundings, inputContext: nat -> addr)
    requires Inv(maxPorts, w, inputContext) && Sane(w) && w.h.r.pc.Idle?
    ensures maxPorts < P.PORTS && Inv(maxPorts, Next(maxPorts, w, Software(env), inputContext), inputContext)
  {
    FrontPortsBound(maxPorts, w, inputContext);
    var h := Next(maxPorts, w, Software(env), inputContext).h;
    assert Next(maxPorts, w, Software(env), inputContext) == World(h, E.Drive(w.e));
    SoftwareHandles(maxPorts, w, env, inputContext);
    InvParts(maxPorts, w, inputContext);
    E.DriveKeepsInv(w.e);
    hide C.Inv, E.Inv, Linked, Sane, E.InBounds, E.Drive, E.Front, Next;
    DriveKeepsLink(maxPorts, w, h);
  }

  /** What a software step does to the command ring and the protocol. */
  lemma SoftwareHandles(maxPorts: nat, w: World, env: Surroundings, inputContext: nat -> addr)
    requires Inv(maxPorts, w, inputContext) && Sane(w) && w.h.r.pc.Idle?
    ensures maxPorts < P.PORTS
    ensures var h := Next(maxPorts, w, Software(env), inputContext).h;
      && C.Inv(maxPorts, h, inputContext)
      && h.r.p == w.h.r.p && h.r.c == w.h.r.c && h.x.results == w.h.x.results
      && h.x.handled == w.h.x.handled + (if w.e.drv.phase.Seen? && IsCompletion(E.Front(w.e)) then 1 else 0)
      && T.Runs(maxPorts, w.h.x, Shadow(w, Software(env)), h.x)
  {
    FrontPortsBound(maxPorts, w, inputContext);
    InvParts(maxPorts, w, inputContext);
    if w.e.drv.phase.Seen? {
      EventHandles(maxPorts, w, env, inputContext);
    }
    hide Inv, C.Inv, C.Sane, E.Inv, E.InBounds, E.Drive, E.Front, Pushing, Dispatch, P.Step, P.Enabled;
  }

  lemma EventHandles(maxPorts: nat, w: World, env: Surroundings, inputContext: nat -> addr)
    requires Inv(maxPorts, w, inputContext) && Sane(w) && w.h.r.pc.Idle? && w.e.drv.phase.Seen?
    ensures maxPorts < P.PORTS
    ensures var t := E.Front(w.e);
      var h := Pushing(w.h, Dispatch(w.h, t, env), inputContext);
      && C.Inv(maxPorts, h, inputContext)
      && h.r.p == w.h.r.p && h.r.c == w.h.r.c && h.x.results == w.h.x.results
      && h.x.handled == w.h.x.handled + (if IsCompletion(t) then 1 else 0)
      && T.Runs(maxPorts, w.h.x, if RouteOf(t).NoHandler? then [] else [Meaning(t, env)], h.x)
      && (RouteOf(t).NoHandler? ==> h == w.h)
      && (!RouteOf(t).NoHandler? ==>
            && C.Sane(w.h) && P.Enabled(maxPorts, w.h.x, Meaning(t, env))
            && h.x == P.Step(maxPorts, w.h.x, Meaning(t, env)).0)
  {
    var t := E.Front(w.e);
    var e := Meaning(t, env);
    SoftwareRefines(maxPorts, w, env, inputContext);
    FrontPortsBound(maxPorts, w, inputContext);
    InvParts(maxPorts, w, inputContext);
    NothingPushed(w.h, inputContext);
    Routes(t, env);
    hide *;
    if RouteOf(t).NoHandler? {
      OneStep(maxPorts, w.h.x, []);
    } else {
      HandleEnabled(maxPorts, w, e);
      HandleFacts(maxPorts, w.h, e, inputContext);
      C.HandleIsStep(maxPorts, w.h, inputContext, e);
      OneStep(maxPorts, w.h.x, [e]);
    }
  }

  lemma HandleEnabled(maxPorts: nat, w: World, e: P.Action)
    requires Sane(w) && C.Enabled(maxPorts, w.h, C.Handle(e))
    ensures C.Sane(w.h) && P.Sized(w.h.x) && P.ContextPortsInRange(w.h.x) && P.Enabled(maxPorts, w.h.x, e)
  {
    hide P.Sized, P.ContextPortsInRange, P.Enabled;
  }

  lemma Routes(t: Trb, env: Surroundings)
    ensures IsCompletion(t) <==> RouteOf(t).ToCommandCompletion?
    ensures !RouteOf(t).NoHandler? ==> (Meaning(t, env).Complete? <==> IsCompletion(t))
  {
  }

  /** A run of one step, or of none. */
  lemma OneStep(maxPorts: nat, x: P.Xhc, acts: seq<P.Action>)
    requires maxPorts < P.PORTS && P.Sized(x) && P.ContextPortsInRange(x)
    requires |acts| <= 1 && forall a | a in acts :: P.Enabled(maxPorts, x, a)
    ensures T.Runs(maxPorts, x, acts, if acts == [] then x else P.Step(maxPorts, x, acts[0]).0)
  {
    hide P.Sized, P.ContextPortsInRange, P.Enabled, P.Step;
    if acts != [] {
      assert acts[0] in acts && acts[1..] == [];
    }
  }

  lemma NothingPushed(h: C.Host, inputContext: nat -> addr)
    ensures Pushing(h, h.x, inputContext) == h
  {
  }

  lemma FrontPortsBound(maxPorts: nat, w: World, inputContext: nat -> addr)
    requires Inv(maxPorts, w, inputContext)
    ensures maxPorts < P.PORTS && P.Inv(maxPorts, w.h.x)
  {
    hide P.Exclusive, P.Agreement, P.Pending, R.Inv, E.Inv, Linked;
  }

  lemma FetchKeepsSlots(r: R.Sys, a: R.Action)
    requires R.InBounds(r) && !a.BeginPush?
    ensures R.Next(r, a).p.base == r.p.base && r.c.from <= R.Next(r, a).c.from
  {
  }

  /** Steps of the command ring alone. */
  lemma RingStepFacts(maxPorts: nat, h: C.Host, a: C.Action, inputContext: nat -> addr)
    requires C.Inv(maxPorts, h, inputContext) && C.Sane(h) && C.Enabled(maxPorts, h, a) && !a.Handle?
    ensures maxPorts < P.PORTS
    ensures var k := C.Next(maxPorts, h, a, inputContext);
      && C.Inv(maxPorts, k, inputContext)
      && k.r.p.base == h.r.p.base && h.r.c.from <= k.r.c.from
      && h.x.results <= k.x.results && k.x.handled == h.x.handled
      && k.x == (if a.Execute? then P.Step(maxPorts, h.x, P.Execute(a.slot)).0 else h.x)
  {
    hide C.Inv, R.Next, P.ExecuteNext;
    ProtocolBound(maxPorts, h, inputContext);
    C.NextKeepsInv(maxPorts, h, a, inputContext);
    if a.Execute? {
      ExecuteGrows(h.x, a.slot);
    } else if a.SoftwareStore? {
      FetchKeepsSlots(h.r, R.ProducerStep);
    } else {
      FetchKeepsSlots(h.r, R.ConsumerStep);
    }
  }

  lemma ExecuteGrows(x: P.Xhc, slot: nat)
    requires P.Sized(x) && |x.results| < |x.commands|
    ensures P.ExecuteNext(x, slot).results == x.results + [slot] && P.ExecuteNext(x, slot).handled == x.handled
  {
  }

  lemma ProtocolBound(maxPorts: nat, h: C.Host, inputContext: nat -> addr)
    requires C.Inv(maxPorts, h, inputContext)
    ensures maxPorts < P.PORTS
  {
    hide R.Inv, P.Exclusive, P.PortsInRange, P.Agreement, P.Pending;
  }

  lemma FetchedCount(maxPorts: nat, h: C.Host, inputContext: nat -> addr)
    requires C.Inv(maxPorts, h, inputContext)
    ensures |h.x.results| <= |h.r.c.from|
  {
    hide R.ProducerInv, P.Inv;
  }

  lemma RingStepKeepsInv(maxPorts: nat, w: World, a: C.Action, inputContext: nat -> addr)
    requires Inv(maxPorts, w, inputContext) && C.Sane(w.h) && C.Enabled(maxPorts, w.h, a) && !a.Handle?
    ensures maxPorts < P.PORTS && Inv(maxPorts, w.(h := C.Next(maxPorts, w.h, a, inputContext)), inputContext)
  {
    FrontPortsBound(maxPorts, w, inputContext);
    RingStepFacts(maxPorts, w.h, a, inputContext);
    var k := C.Next(maxPorts, w.h, a, inputContext);
    FetchedCount(maxPorts, k, inputContext);
    hide C.Inv, E.Inv, Linked, C.Next, C.Sane, C.Enabled;
    LinkFramed(maxPorts, w, k);
  }

  lemma BootKeepsInv(maxPorts: nat, w: World, port: nat, connected: bool, inputContext: nat -> addr)
    requires Inv(maxPorts, w, inputContext) && Sane(w) && Enabled(maxPorts, w, Boot(port, connected))
    ensures maxPorts < P.PORTS && Inv(maxPorts, Next(maxPorts, w, Boot(port, connected), inputContext), inputContext)
  {
    FrontPortsBound(maxPorts, w, inputContext);
    HandleFacts(maxPorts, w.h, P.BootPort(port, connected), inputContext);
    var k := C.Next(maxPorts, w.h, C.Handle(P.BootPort(port, connected)), inputContext);
    FetchedCount(maxPorts, k, inputContext);
    hide C.Inv, E.Inv, Linked, C.Next, Pushing, P.Inv, P.Step;
    LinkFramed(maxPorts, w, k);
  }

  /** Every step of software and controller keeps the two rings and the protocol together. */
  lemma NextKeepsInv(maxPorts: nat, w: World, a: Action, inputContext: nat -> addr)
    requires Inv(maxPorts, w, inputContext) && Sane(w) && Enabled(maxPorts, w, a)
    ensures maxPorts < P.PORTS && Inv(maxPorts, Next(maxPorts, w, a, inputContext), inputContext)
  {
    FrontPortsBound(maxPorts, w, inputContext);
    match a
    case Post(e) =>
      PostKeepsLink(maxPorts, w, e);
      E.NextKeepsInv(w.e, E.BeginEvent(e));
      hide C.Inv, E.Inv, Linked, E.Next;
    case EventStore =>
      StoreKeepsLink(maxPorts, w);
      E.NextKeepsInv(w.e, E.ControllerStep);
      hide C.Inv, E.Inv, Linked, E.Next;
    case Boot(port, connected) => BootKeepsInv(maxPorts, w, port, connected, inputContext); hide *;
    case Software(env) => SoftwareKeepsInv(maxPorts, w, env, inputContext); hide Inv;
    case Execute(slot) => RingStepKeepsInv(maxPorts, w, C.Execute(slot), inputContext); hide Inv;
    case CommandStore => RingStepKeepsInv(maxPorts, w, C.SoftwareStore, inputContext); hide Inv;
    case CommandFetch => RingStepKeepsInv(maxPorts, w, C.ControllerFetch, inputContext); hide Inv;
  }

  // ---- runs

  lemma SaneInv(maxPorts: nat, w: World, inputContext: nat -> addr)
    requires Inv(maxPorts, w, inputContext)
    ensures Sane(w)
  {
    InvParts(maxPorts, w, inputContext);
    C.SaneInv(maxPorts, w.h, inputContext);
    E.FrontIsOldest(w.e);
    hide C.Inv, C.Sane, Linked, E.DriverInv, E.InBounds;
  }

  /** A step is a step of the port protocol, with its assumptions met, or does not touch it. */
  lemma StepRefines(maxPorts: nat, w: World, a: Action, inputContext: nat -> addr)
    requires Inv(maxPorts, w, inputContext) && Sane(w) && Enabled(maxPorts, w, a)
    ensures maxPorts < P.PORTS
    ensures T.Runs(maxPorts, w.h.x, Shadow(w, a), Next(maxPorts, w, a, inputContext).h.x)
  {
    FrontPortsBound(maxPorts, w, inputContext);
    InvParts(maxPorts, w, inputContext);
    hide Inv, C.Inv, E.Inv, E.Sane, C.HandleOn, P.Step, E.Front, R.Next, Dispatch;
    match a
    case Software(env) => SoftwareHandles(maxPorts, w, env, inputContext);
    case Boot(port, connected) => HandleFacts(maxPorts, w.h, P.BootPort(port, connected), inputContext);
    case _ =>
  }

  ghost predicate Runs(maxPorts: nat, w: World, acts: seq<Action>, v: World, inputContext: nat -> addr)
    requires maxPorts < P.PORTS
    decreases |acts|
  {
    if acts == [] then w == v
    else
      && Sane(w) && Enabled(maxPorts, w, acts[0])
      && Runs(maxPorts, Next(maxPorts, w, acts[0], inputContext), acts[1..], v, inputContext)
  }

  /** The run of the port protocol that a run stands for. */
  function ShadowRun(maxPorts: nat, w: World, acts: seq<Action>, inputContext: nat -> addr): seq<P.Action>
    requires maxPorts < P.PORTS
    decreases |acts|
  {
    if acts == [] || !Sane(w) || !Enabled(maxPorts, w, acts[0]) then []
    else Shadow(w, acts[0]) + ShadowRun(maxPorts, Next(maxPorts, w, acts[0], inputContext), acts[1..], inputContext)
  }

  lemma RunsInFront(maxPorts: nat, x: P.Xhc, first: seq<P.Action>, y: P.Xhc, rest: seq<P.Action>, z: P.Xhc)
    requires maxPorts < P.PORTS && |first| <= 1 && T.Runs(maxPorts, x, first, y) && T.Runs(maxPorts, y, rest, z)
    ensures T.Runs(maxPorts, x, first + rest, z)
  {
    hide P.Step, P.Enabled;
    if |first| == 1 {
      assert first[1..] == [] && (first + rest)[1..] == rest;
    } else {
      assert first + rest == rest;
    }
  }

  /** Every run of the driver is a run of the port protocol: completions handled in the order of their
      commands and after execution, with the type and the slot of the command. */
  lemma {:induction false} RunRefines(maxPorts: nat, w: World, acts: seq<Action>, v: World, inputContext: nat -> addr)
    requires maxPorts < P.PORTS && Inv(maxPorts, w, inputContext) && Runs(maxPorts, w, acts, v, inputContext)
    ensures Inv(maxPorts, v, inputContext)
    ensures T.Runs(maxPorts, w.h.x, ShadowRun(maxPorts, w, acts, inputContext), v.h.x)
    decreases |acts|
  {
    hide Inv, Next, Sane, Enabled, Shadow, P.Step, P.Enabled;
    if acts != [] {
      var u := Next(maxPorts, w, acts[0], inputContext);
      NextKeepsInv(maxPorts, w, acts[0], inputContext);
      StepRefines(maxPorts, w, acts[0], inputContext);
      RunRefines(maxPorts, u, acts[1..], v, inputContext);
      hide T.Runs;
      ShadowIsShort(w, acts[0]);
      RunsInFront(maxPorts, w.h.x, Shadow(w, acts[0]), u.h.x, ShadowRun(maxPorts, u, acts[1..], inputContext), v.h.x);
    }
  }

  lemma ShadowIsShort(w: World, a: Action)
    requires Sane(w)
    ensures |Shadow(w, a)| <= 1
  {
  }

  lemma InitLinked(maxPorts: nat, base: addr, eventBase: addr, low: nat)
    requires base + 16 * C.RING_SIZE < 0x1_0000_0000_0000_0000
    ensures Linked(maxPorts, Init(base, eventBase, low))
  {
  }

  lemma InitInv(maxPorts: nat, base: addr, eventBase: addr, low: nat, inputContext: nat -> addr)
    requires maxPorts < P.PORTS && base % 16 == 0 && base + 16 * C.RING_SIZE < 0x1_0000_0000_0000_0000
    requires eventBase % 64 == 0 && eventBase + 16 * C.RING_SIZE < 0x1_0000_0000_0000_0000
    ensures Inv(maxPorts, Init(base, eventBase, low), inputContext)
  {
    InitLinked(maxPorts, base, eventBase, low);
    P.StartInv(maxPorts);
    R.InitInv(base, C.RING_SIZE);
    E.InitInv(eventBase, C.RING_SIZE, low);
    hide Linked, E.Inv, R.Inv, P.Inv, E.Init;
  }

  /** What the handlers find in a completion event: the oldest command not yet handled, its slot, and a
      state in which handling it succeeds, unless there was no slot for the device. */
  ghost predicate CompletionFits(w: World, connected: nat -> bool)
    requires Sane(w)
  {
    var t, n := E.Front(w.e), w.h.x.handled;
    && n < |w.h.x.results| && n < |w.h.x.commands|
    && IssuerAt(w.h.r.p, t.Pointer16()) == P.TypeOf(w.h.x.commands[n]) && SlotId(t) == w.h.x.results[n]
    && (OnCompletion(w.h, t, connected).1 == P.Success <==> w.h.x.commands[n] != P.AddressDevice(0))
  }

  lemma CompletionSucceeds(maxPorts: nat, w: World, connected: nat -> bool, inputContext: nat -> addr)
    requires Inv(maxPorts, w, inputContext) && Sane(w) && w.e.drv.phase.Seen? && w.h.r.pc.Idle?
    requires IsCompletion(E.Front(w.e))
    ensures CompletionFits(w, connected)
  {
    FrontCompletion(maxPorts, w, inputContext);
    InvParts(maxPorts, w, inputContext);
    C.IssuerIsTheCommand(maxPorts, w.h, inputContext);
    FrontPortsBound(maxPorts, w, inputContext);
    ResultsIssued(maxPorts, w, inputContext);
    P.StepKeepsInv(maxPorts, w.h.x, P.Complete(connected));
    hide Inv, C.Inv, E.Inv, E.Front, P.Inv, P.OnCommandCompletion, IssuerAt, C.IssuerType;
  }

  /** When every executed command has been reported and no event waits, all are handled. */
  lemma AllHandled(maxPorts: nat, w: World, inputContext: nat -> addr)
    requires Inv(maxPorts, w, inputContext) && Sane(w)
    requires !E.HasFront(w.e) && !w.e.src.writing
    requires |CompletionsIn(E.Begun(w.e.src))| == |w.h.x.results|
    ensures w.h.x.handled == |w.h.x.results|
  {
    E.FrontIsOldest(w.e);
    hide C.Inv, CompletionsIn, E.HasFront, E.SourceInv;
    assert w.e.drv.handled == E.Begun(w.e.src);
  }

  /** Main theorem: in every run of software and controller over both rings, from the start,
      - the port protocol makes one of its runs, so that its theorems hold of the whole driver;
      - the command ring never holds more than nine commands and the controller never loses its way;
      - a completion event in front is that of the oldest command not yet handled: its pointer leads to
        that command's TRB, it carries the slot the controller gave, and its handler succeeds unless
        that was slot 0;
      - once all that was executed is reported and no event waits, every completion has been handled. */
  lemma LoopTheorem(maxPorts: nat, base: addr, eventBase: addr, low: nat, acts: seq<Action>, v: World,
                    connected: nat -> bool, inputContext: nat -> addr)
    requires maxPorts < P.PORTS && base % 16 == 0 && base + 16 * C.RING_SIZE < 0x1_0000_0000_0000_0000
    requires eventBase % 64 == 0 && eventBase + 16 * C.RING_SIZE < 0x1_0000_0000_0000_0000
    requires Runs(maxPorts, Init(base, eventBase, low), acts, v, inputContext)
    ensures |Init(base, eventBase, low).h.r.p.mem| == |Init(base, eventBase, low).e.mem| == 32
    ensures Sane(v)
    ensures T.Runs(maxPorts, P.Start(), ShadowRun(maxPorts, Init(base, eventBase, low), acts, inputContext), v.h.x)
    ensures T.Matched(v.h.x)
    ensures forall p: nat | p < P.PORTS :: P.Busy(v.h.x.phase[p]) <==> p == v.h.x.addressingPort != 0
    ensures R.Outstanding(v.h.r) <= 9 && !v.h.r.c.lost
    ensures v.e.drv.phase.Seen? && v.h.r.pc.Idle? && IsCompletion(E.Front(v.e)) ==> CompletionFits(v, connected)
    ensures !E.HasFront(v.e) && !v.e.src.writing && |CompletionsIn(E.Begun(v.e.src))| == |v.h.x.results| ==>
              v.h.x.handled == |v.h.x.results|
  {
    var w := Init(base, eventBase, low);
    InitInv(maxPorts, base, eventBase, low, inputContext);
    RunRefines(maxPorts, w, acts, v, inputContext);
    SaneInv(maxPorts, v, inputContext);
    InvParts(maxPorts, v, inputContext);
    C.NeverFull(maxPorts, v.h, inputContext);
    C.ProtocolInv(maxPorts, v.h, inputContext);
    var shadow := ShadowRun(maxPorts, w, acts, inputContext);
    assert w.h.x == P.Start();
    T.RunFromStart(maxPorts, shadow, v.h.x);
    if v.e.drv.phase.Seen? && v.h.r.pc.Idle? && IsCompletion(E.Front(v.e)) {
      CompletionSucceeds(maxPorts, v, connected, inputContext);
    }
    if !E.HasFront(v.e) && !v.e.src.writing && |CompletionsIn(E.Begun(v.e.src))| == |v.h.x.results| {
      AllHandled(maxPorts, v, inputContext);
    }
    hide *;
  }
}
