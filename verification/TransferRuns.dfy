/** Whole runs of requests and completions, and the exact price of a full setup-stage table. */
module TransferRuns {
  import opened Trbs
  import opened ProducerRing
  import opened RingPush
  import opened ArrayMaps
  import opened Transfers

  /** Software issues requests; the controller completes or fails any of those in flight. */
  datatype Action =
    | Control(ep: nat, setup: SetupData, buf: addr, len: int, dirIn: bool)
    | Interrupt(ep: nat, buf: addr, len: int)
    | Complete(i: nat, residual: nat, code: nat)
    | Fail(i: nat, code: nat)

  /** The callers' side of the bargain: endpoints with a ring, room on it, room in the table. */
  predicate Enabled(d: Device, a: Action) {
    match a
    case Control(ep, _, _, _, _) =>
      1 <= ep <= ENDPOINTS && RingAt(d.rings, ep).Some? && Pushable(RingAt(d.rings, ep).value)
      && Room(d, ep, 3) && !Full(d.table)
    case Interrupt(ep, _, _) =>
      1 <= ep <= ENDPOINTS && RingAt(d.rings, ep).Some? && Pushable(RingAt(d.rings, ep).value) && Room(d, ep, 1)
    case Complete(i, _, code) => i < |d.live| && Pointed(d, i) && (code == 1 || code == 13)
    case Fail(i, code) => i < |d.live| && Pointed(d, i) && code != 1 && code != 13
  }

  /** The TRB of request i that interrupts exists. */
  predicate Pointed(d: Device, i: nat)
    requires i < |d.live|
  {
    RingAt(d.rings, d.live[i].dci).Some? && d.live[i].ioc < |RingAt(d.rings, d.live[i].dci).value.at|
  }

  function EventOf(d: Device, i: nat, residual: nat, code: nat): Event
    requires i < |d.live| && Pointed(d, i)
  {
    Event(EventPtr(RingAt(d.rings, d.live[i].dci).value, d.live[i]), residual, code)
  }

  function Next(d: Device, a: Action): Device
    requires Enabled(d, a)
  {
    match a
    case Control(ep, setup, buf, len, dirIn) => ControlTransfer(d, ep, setup, buf, len, dirIn).0
    case Interrupt(ep, buf, len) => InterruptIn(d, ep, buf, len).0
    case Complete(i, residual, code) =>
      OnTransferEvent(d, EventOf(d, i, residual, code)).0.(live := Without(d.live, i))
    case Fail(i, code) => OnTransferEvent(d, EventOf(d, i, 0, code)).0.(live := Without(d.live, i))
  }

  lemma NextKeepsInv(d: Device, a: Action)
    requires DeviceInv(d) && Enabled(d, a)
    ensures DeviceInv(Next(d, a))
  {
    match a
    case Control(ep, setup, buf, len, dirIn) => ControlKeepsInv(d, ep, setup, buf, len, dirIn); hide *;
    case Interrupt(ep, buf, len) => InterruptKeepsInv(d, ep, buf, len); hide *;
    case Complete(i, residual, code) => CompletionKeepsInv(d, i, residual, code); hide *;
    case Fail(i, code) => FailureKeepsInv(d, i); hide *;
  }

  ghost predicate Runs(d: Device, acts: seq<Action>, e: Device)
    decreases |acts|
  {
    if acts == [] then d == e else Enabled(d, acts[0]) && Runs(Next(d, acts[0]), acts[1..], e)
  }

  /** What the handler passes to the USB layer in a run. */
  function Delivered(d: Device, acts: seq<Action>): seq<Completion>
    decreases |acts|
  {
    if acts == [] || !Enabled(d, acts[0]) then []
    else
      (match acts[0]
       case Complete(i, residual, code) => [OnTransferEvent(d, EventOf(d, i, residual, code)).1]
       case Fail(i, code) => [OnTransferEvent(d, EventOf(d, i, 0, code)).1]
       case _ => [])
      + Delivered(Next(d, acts[0]), acts[1..])
  }

  /** What the requests of the run are owed: read off the list of requests alone. */
  function Due(live: seq<Request>, d: Device, acts: seq<Action>): seq<Completion>
    decreases |acts|
  {
    if acts == [] || !Enabled(d, acts[0]) then []
    else
      (match acts[0]
       case Complete(i, residual, code) => if i < |live| then [Owed(live[i], residual)] else []
       case Fail(i, code) => [Rejected(TransferFailed)]
       case _ => [])
      + Due(Next(d, acts[0]).live, Next(d, acts[0]), acts[1..])
  }

  /** Main theorem: over any run, with requests on any endpoints completing or failing in any order,
      each completion delivers exactly what its own request is owed. */
  lemma {:induction false} DeliveryTheorem(d: Device, acts: seq<Action>, e: Device)
    requires DeviceInv(d) && Runs(d, acts, e)
    ensures DeviceInv(e) && Delivered(d, acts) == Due(d.live, d, acts)
    decreases |acts|
  {
    hide DeviceInv, Next, OnTransferEvent, Owed;
    if acts != [] {
      var a := acts[0];
      NextKeepsInv(d, a);
      DeliveryTheorem(Next(d, a), acts[1..], e);
      match a {
        case Complete(i, residual, code) => CompletionIsOwed(d, i, residual, code);
        case Fail(i, code) => FailedEvent(d, EventOf(d, i, 0, code));
        case _ =>
      }
    }
  }

  lemma FailedEvent(d: Device, e: Event)
    requires e.code != 1 && e.code != 13
    ensures OnTransferEvent(d, e) == (d, Rejected(TransferFailed))
  {
  }

  /** The TRB that interrupts is where the next control request's completion will point. */
  lemma NewRequestReadsBack(p: Producer, setup: SetupData, buf: addr, len: int, dirIn: bool)
    requires ProducerInv(p, Idle) && |p.mem| >= 4
    ensures Pushable(p)
    ensures var q := PushControl(p, setup, buf, len, dirIn);
      && NextSlot(p, p.writeIndex) < |q.mem|
      && q.mem[NextSlot(p, p.writeIndex)].ctl.ty == (if buf == 0 then STATUS_STAGE else DATA_STAGE)
  {
    ProducerFacts(p);
    PushControlFacts(p, setup, buf, len, dirIn);
    var q := PushControl(p, setup, buf, len, dirIn);
    Retained(q, |p.pushed| + 1, |p.pushed| + 1);
    hide ProducerInv, PushControl, MakeSetupStage;
  }

  /** When the table is full `Put` drops the entry silently. The completion of the request is then
      lost, exactly if no stale entry happens to be left for the same slot. */
  lemma LostExactlyWhenDropped(d: Device, ep: int, setup: SetupData, buf: addr, len: int, dirIn: bool,
                               residual: nat, code: nat)
    requires DeviceInv(d) && 1 <= ep <= ENDPOINTS && RingAt(d.rings, ep).Some? && Room(d, ep, 3)
    requires code == 1 || code == 13
    ensures Pushable(RingAt(d.rings, ep).value)
    ensures var key := NextKey(RingAt(d.rings, ep).value, ep);
      var d' := ControlTransfer(d, ep, setup, buf, len, dirIn).0;
      var got := OnTransferEvent(d', Event(key, residual, code)).1;
      && (got == Owed(ControlRequest(ep, 0, setup, buf, len, dirIn), residual)
          <==> !Full(d.table) || Has(d.table, key))
      && (Full(d.table) && !Has(d.table, key) ==> got == Rejected(NoCorrespondingSetupStage))
  {
    var p := RingAt(d.rings, ep).value;
    assert ProducerInv(p, Idle) && |p.mem| >= 4;
    ProducerFacts(p);
    hide ProducerInv, RingsOk, TableOk, AllLive, OnTransferEvent, Full, Has;
    var key := NextKey(p, ep);
    var d' := ControlTransfer(d, ep, setup, buf, len, dirIn).0;
    var e := Event(key, residual, code);
    if !Full(d.table) || Has(d.table, key) {
      ControlKeepsInv(d, ep, setup, buf, len, dirIn);
      CompletionIsOwed(d', |d.live|, residual, code);
      NewKey(d, ep, setup, buf, len, dirIn);
      OwedIgnoresIndex(d'.live[|d.live|], residual);
    } else {
      Dropped(d, ep, setup, buf, len, dirIn, e);
    }
  }

  /** With no entry for its slot the completion has no setup stage. */
  lemma Dropped(d: Device, ep: int, setup: SetupData, buf: addr, len: int, dirIn: bool, e: Event)
    requires DeviceInv(d) && 1 <= ep <= ENDPOINTS && RingAt(d.rings, ep).Some? && Room(d, ep, 3)
    requires (e.code == 1 || e.code == 13) && e.ptr == NextKey(RingAt(d.rings, ep).value, ep)
    requires Full(d.table) && !Has(d.table, e.ptr)
    ensures Pushable(RingAt(d.rings, ep).value)
    ensures OnTransferEvent(ControlTransfer(d, ep, setup, buf, len, dirIn).0, e).1
            == Rejected(NoCorrespondingSetupStage)
  {
    var p := RingAt(d.rings, ep).value;
    assert ProducerInv(p, Idle) && |p.mem| >= 4;
    ProducerFacts(p);
    ControlPushes(d, ep, setup, buf, len, dirIn);
    NewRequestReadsBack(p, setup, buf, len, dirIn);
    PutThenGet(d.table, e.ptr, Ptr(ep, p.writeIndex), e.ptr);
    HasIsGet(d.table, e.ptr);
    hide DeviceInv, ControlTransfer, PushControl, Put, Has, Get, Full, NextSlot, Room;
  }

  lemma NewKey(d: Device, ep: int, setup: SetupData, buf: addr, len: int, dirIn: bool)
    requires DeviceInv(d) && 1 <= ep <= ENDPOINTS && RingAt(d.rings, ep).Some?
    ensures Pushable(RingAt(d.rings, ep).value)
    ensures var d' := ControlTransfer(d, ep, setup, buf, len, dirIn).0;
      && |d'.live| == |d.live| + 1
      && var r := d'.live[|d.live|];
         && r == ControlRequest(ep, r.ioc, setup, buf, len, dirIn)
         && RingAt(d'.rings, ep).Some? && r.ioc < |RingAt(d'.rings, ep).value.at|
         && EventPtr(RingAt(d'.rings, ep).value, r) == NextKey(RingAt(d.rings, ep).value, ep)
  {
    var p := RingAt(d.rings, ep).value;
    assert ProducerInv(p, Idle);
    ProducerFacts(p);
    PushControlFacts(p, setup, buf, len, dirIn);
    ControlPushes(d, ep, setup, buf, len, dirIn);
    hide ProducerInv, PushControl, Put, MakeSetupStage, Interrupting, ControlTransfer;
  }

  lemma OwedIgnoresIndex(r: Request, residual: nat)
    requires r.ControlRequest?
    ensures Owed(r, residual) == Owed(r.(ioc := 0), residual)
  {
  }
}
