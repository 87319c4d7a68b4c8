/** Transfer events as the controller writes them, and the requests they answer: what the words of an
    event lead a device to, and the order in which requests in flight are answered. */
module Deliveries {
  import opened Options
  import opened Trbs
  import opened Transfers
  import R = ProducerRing
  import RingPush
  import U = UsbDevice
  import L = UsbLifetime
  import UsbRuns
  import UsbRings
  import D = Descriptors
  import W = DriverLoop

  // ---- the words of a transfer event

  const WORD64 := 0x1_0000_0000_0000_0000

  /** Where the TRB of a request lies that interrupts. */
  function PointerTo(p: R.Producer, r: Request): nat
    requires r.ioc < |p.at|
  {
    p.base + 16 * p.at[r.ioc]
  }

  /** A TransferEventTRB: the pointer in words 0 and 1, the residual length and the completion code in word
      2, the endpoint's index and the slot id in the last one. */
  function TransferEvent(pointer: nat, residual: nat, code: nat, dci: nat, slot: nat): Trb {
    var a: addr := pointer % WORD64;
    Trb(Low(a), High(a), residual % 0x100_0000 + 0x100_0000 * (code % 0x100),
        Control(0, TRANSFER_EVENT, dci + 0x100 * slot), false)
  }

  /** Its words as numbers. */
  lemma EventWords(pointer: addr, residual: nat, code: nat, dci: nat, slot: nat)
    requires residual < 0x100_0000 && code < 0x100 && dci < 0x20 && slot < 0x100
    ensures var t := TransferEvent(pointer, residual, code, dci, slot);
      && t.w0 + 0x1_0000_0000 * t.w1 == pointer && t.w2 == residual + 0x100_0000 * code
      && t.ctl.Fits() && t.LastWord() == 0x8000 + 0x1_0000 * dci + 0x100_0000 * slot
  {
    HalvesJoin(pointer);
    hide Low, High;
  }

  function EndpointOf(t: Trb): nat { t.ctl.high % 0x20 }

  /** The ring and slot an event points to. Rings lie in disjoint blocks, and the controller enters the
      endpoint of the ring it took the TRB from. */
  function PtrOf(rings: seq<Option<R.Producer>>, t: Trb): Ptr {
    match RingAt(rings, EndpointOf(t))
    case None => Ptr(0, 0)
    case Some(p) =>
      var a := t.w0 + 0x1_0000_0000 * t.w1;
      Ptr(EndpointOf(t), if p.base <= a then (a - p.base) / 16 else 0)
  }

  /** The event as OnTransferEventReceived reads it. */
  function Decoded(d: Transfers.Device, t: Trb): Event {
    Event(PtrOf(d.rings, t), t.w2 % 0x100_0000, t.w2 / 0x100_0000)
  }

  lemma WordBack(residual: nat, code: nat)
    requires residual < 0x100_0000 && code < 0x100
    ensures var w := residual % 0x100_0000 + 0x100_0000 * (code % 0x100);
      w % 0x100_0000 == residual && w / 0x100_0000 == code
  {
  }

  lemma LastWordBack(dci: nat, slot: nat)
    requires dci < 0x20
    ensures (dci + 0x100 * slot) % 0x20 == dci && (dci + 0x100 * slot) / 0x100 == slot
  {
    LowBitsBack(dci, 8 * slot);
  }

  lemma LowBitsBack(a: nat, b: nat)
    requires a < 0x20
    ensures (a + 0x20 * b) % 0x20 == a
  {
  }

  /** Decoding inverts encoding, for a TRB in memory. */
  lemma DecodesBack(d: Transfers.Device, p: R.Producer, r: Request, residual: nat, code: nat, slot: nat)
    requires RingAt(d.rings, r.dci) == Some(p) && r.ioc < |p.at| && r.dci < 0x20 && PointerTo(p, r) < WORD64
    requires residual < 0x100_0000 && code < 0x100
    ensures var t := TransferEvent(PointerTo(p, r), residual, code, r.dci, slot);
      Decoded(d, t) == Event(EventPtr(p, r), residual, code) && W.SlotId(t) == slot && EndpointOf(t) == r.dci
  {
    var a: addr := PointerTo(p, r);
    HalvesJoin(a);
    WordBack(residual, code);
    LastWordBack(r.dci, slot);
    hide Low, High, RingAt;
  }

  // ---- the request an event answers

  predicate IsAt(rings: seq<Option<R.Producer>>, r: Request, ptr: Ptr) {
    && r.dci == ptr.dci && RingAt(rings, r.dci).Some? && r.ioc < |RingAt(rings, r.dci).value.at|
    && EventPtr(RingAt(rings, r.dci).value, r) == ptr
  }

  /** Index of the first request in flight from i on that completes at a TRB, or their number. */
  function FindLive(d: Transfers.Device, ptr: Ptr, i: nat): (k: nat)
    requires i <= |d.live|
    ensures i <= k <= |d.live| && (k < |d.live| ==> IsAt(d.rings, d.live[k], ptr))
    ensures forall j | i <= j < k :: !IsAt(d.rings, d.live[j], ptr)
    decreases |d.live| - i
  {
    if i == |d.live| || IsAt(d.rings, d.live[i], ptr) then i else FindLive(d, ptr, i + 1)
  }

  lemma FoundIs(d: Transfers.Device, i: nat, ptr: Ptr)
    requires DeviceInv(d) && i < |d.live| && IsAt(d.rings, d.live[i], ptr)
    ensures FindLive(d, ptr, 0) == i
  {
    var k := FindLive(d, ptr, 0);
    if k < i {
      DifferentPtrs(d, k, i);
    }
    hide DeviceInv, RingAt;
  }

  /** What the handler of a transfer event comes down to: the request it answers completes or fails. */
  function HandlerAction(d: Transfers.Device, t: Trb, descs: seq<seq<D.byte>>): L.Action {
    var e := Decoded(d, t);
    var i := FindLive(d, e.ptr, 0);
    if e.code == 1 || e.code == 13 then L.Complete(i, e.residual, e.code, descs) else L.Fail(i)
  }

  /** OnTransferEventReceived returns an error: the transfer failed, or the handler above it said so. */
  predicate Errs(u: U.Usb, a: L.Action, b: U.Buffers)
    requires L.Sane(u) && L.Enabled(u, a) && (a.Complete? || a.Fail?)
  {
    a.Fail? ||
    var r, v := u.dev.live[a.i], L.Seen(u, a.i, a.residual, a.code);
    match OnTransferEvent(u.dev, Event(EventPtr(RingAt(u.dev.rings, r.dci).value, r), a.residual, a.code)).1
    case Rejected(_) => true
    case ControlCompleted(setup, _, _) =>
      U.Ready(v) && (v.initialized ==> U.Armable(v)) ==> U.OnControlCompleted(v, setup, a.descs, b).1 != U.Ok
    case InterruptCompleted(_, _) => U.Armable(v) ==> U.OnInterruptCompleted(v, r.dci).1 != U.Ok
  }

  // ---- what steps leave of rings and requests

  lemma GrewKeepsAt(p: R.Producer, q: R.Producer)
    requires UsbRings.Grew(p, q)
    ensures q.base == p.base && p.at <= q.at && |q.mem| == |p.mem|
  {
    var ts :| UsbRings.NoLinks(ts) && Pushable(p) && q == UsbRings.PushAll(p, ts);
    PushAllKeepsAt(p, ts);
  }

  lemma {:induction false} PushAllKeepsAt(p: R.Producer, ts: seq<Trb>)
    requires Pushable(p)
    ensures var q := UsbRings.PushAll(p, ts); q.base == p.base && p.at <= q.at && |q.mem| == |p.mem|
    decreases |ts|
  {
    if ts != [] {
      PushAllKeepsAt(RingPush.Push(p, ts[0]), ts[1..]);
    }
  }

  /** A request's completion will point where it did. */
  predicate SamePointer(d: Transfers.Device, e: Transfers.Device, r: Request) {
    RingAt(d.rings, r.dci).Some? && r.ioc < |RingAt(d.rings, r.dci).value.at| ==>
      && RingAt(e.rings, r.dci).Some? && r.ioc < |RingAt(e.rings, r.dci).value.at|
      && PointerTo(RingAt(e.rings, r.dci).value, r) == PointerTo(RingAt(d.rings, r.dci).value, r)
  }

  lemma GrowthKeeps(d: Transfers.Device, e: Transfers.Device, r: Request)
    requires UsbRings.AllGrew(d, e)
    ensures SamePointer(d, e, r)
  {
    if RingAt(d.rings, r.dci).Some? {
      GrewKeepsAt(RingAt(d.rings, r.dci).value, RingAt(e.rings, r.dci).value);
    }
  }

  lemma StepKeepsPointers(u: U.Usb, a: L.Action, b: U.Buffers, r: Request)
    requires L.Inv(u) && L.Sane(u) && L.Enabled(u, a) && !a.Rings?
    ensures SamePointer(u.dev, L.Step(u, a, b).dev, r)
  {
    UsbRings.RingsArePushable(u);
    UsbRings.StepGrew(u, a, b);
    hide L.Inv, L.Step, L.Sane, L.Enabled, UsbRings.AllGrew, UsbRings.AllPushable;
    GrowthKeeps(u.dev, L.Step(u, a, b).dev, r);
  }

  lemma SortedLive(u: U.Usb)
    requires L.Inv(u)
    ensures L.Sorted(u.dev.live)
  {
    hide DeviceInv;
  }

  lemma DistinctLive(u: U.Usb)
    requires L.Inv(u)
    ensures DeviceInv(u.dev) && Distinct(u.dev.live)
  {
    hide L.StageInv, AllLive, TableOk, RingsOk;
  }

  /** The oldest request of its ring. */
  lemma OldestIs(live: seq<Request>, i: nat)
    requires L.Sorted(live) && i < |live|
    requires forall r | r in live && r.dci == live[i].dci :: r.ioc >= live[i].ioc
    ensures L.Oldest(live, i)
  {
    forall j | 0 <= j < i ensures live[j].dci != live[i].dci {
      assert live[j] in live;
    }
  }

  /** Only devices in initialisation or service have requests in flight. */
  lemma LiveStage(u: U.Usb)
    requires L.Inv(u) && u.dev.live != []
    ensures u.stage.Running? || (u.stage.Initializing? && |u.dev.live| == 1)
  {
    hide DeviceInv;
  }

  lemma ServiceEffect(u: U.Usb, a: L.Action, b: U.Buffers) returns (more: seq<Request>)
    requires L.Inv(u) && L.Sane(u) && L.Enabled(u, a) && a.Complete? && u.stage.Running?
    ensures a.i < |u.dev.live| && L.Step(u, a, b).dev.live == Without(u.dev.live, a.i) + more
  {
    UsbRuns.ServiceCompletes(u, a.i, a.residual, a.code, a.descs, b);
    var starts := u.dev.live[a.i].ControlRequest? && u.hid.value.phase == 1;
    more := if starts || u.dev.live[a.i].InterruptRequest? then [UsbRuns.NextReport(u)] else [];
    hide L.Inv, L.OnEvent, L.Sane, UsbRuns.NextReport, Without, U.Usable;
  }

  lemma FailureEffect(u: U.Usb, a: L.Action, b: U.Buffers)
    requires L.Sane(u) && L.Enabled(u, a) && a.Fail?
    ensures a.i < |u.dev.live| && L.Step(u, a, b).dev.live == Without(u.dev.live, a.i)
  {
    hide L.Sane;
  }

  lemma OnlyRequest(live: seq<Request>, i: nat)
    requires |live| == 1 && i < |live|
    ensures Without(live, i) == []
  {
  }

  lemma EventIndex(u: U.Usb, a: L.Action)
    requires L.Enabled(u, a) && (a.Complete? || a.Fail?)
    ensures a.i < |u.dev.live|
  {
  }

  /** An event takes its request off the list; what its handler asks for comes last. */
  lemma EventEffect(u: U.Usb, a: L.Action, b: U.Buffers) returns (more: seq<Request>)
    requires L.Inv(u) && L.Enabled(u, a) && U.BuffersOk(b) && (a.Complete? || a.Fail?)
    ensures L.Sane(u) && a.i < |u.dev.live| && L.Inv(L.Step(u, a, b))
    ensures L.Step(u, a, b).dev.live == Without(u.dev.live, a.i) + more
  {
    hide *;
    UsbRuns.StepKeepsInv(u, a, b);
    EventIndex(u, a);
    LiveStage(u);
    if a.Fail? {
      FailureEffect(u, a, b);
      more := [];
    } else if u.stage.Running? {
      more := ServiceEffect(u, a, b);
    } else {
      OnlyRequest(u.dev.live, a.i);
      more := L.Step(u, a, b).dev.live;
    }
  }

  // ---- answers on their way

  /** A request whose event has been written and not been handled, and what the event says. */
  datatype Due = Due(slot: nat, r: Request, residual: nat, code: nat)

  /** The devices, one for each slot. */
  type Devices = seq<Option<U.Usb>>

  function LiveIn(usb: Devices, slot: nat): seq<Request> {
    if slot < |usb| && usb[slot].Some? then usb[slot].value.dev.live else []
  }

  predicate Among(due: seq<Due>, slot: nat, r: Request) {
    exists k :: 0 <= k < |due| && due[k].slot == slot && due[k].r == r
  }

  /** Answers are for requests in flight, one for each, and those of a ring come in the order of its TRBs. */
  ghost predicate Queued(usb: Devices, due: seq<Due>) {
    && (forall j | 0 <= j < |due| :: due[j].r in LiveIn(usb, due[j].slot))
    && (forall j, k | 0 <= j < k < |due| && due[j].slot == due[k].slot :: due[j].r != due[k].r)
    && (forall j, r | 0 <= j < |due| && r in LiveIn(usb, due[j].slot) && r.dci == due[j].r.dci
                       && r.ioc < due[j].r.ioc ::
          Among(due[..j], due[j].slot, r))
  }

  /** The controller may answer a request once it has answered all before it on the ring. */
  predicate Answerable(usb: Devices, due: seq<Due>, slot: nat, r: Request) {
    && r in LiveIn(usb, slot) && !Among(due, slot, r)
    && forall q | q in LiveIn(usb, slot) && q.dci == r.dci && q.ioc < r.ioc :: Among(due, slot, q)
  }

  lemma IsAmong(due: seq<Due>, j: nat)
    requires j < |due|
    ensures Among(due, due[j].slot, due[j].r)
  {
  }

  lemma NoneAmong(slot: nat, r: Request)
    ensures !Among([], slot, r)
  {
  }

  lemma AnswerQueues(usb: Devices, due: seq<Due>, x: Due)
    requires Queued(usb, due) && Answerable(usb, due, x.slot, x.r)
    ensures Queued(usb, due + [x])
  {
    var longer := due + [x];
    hide LiveIn;
    forall j, r | 0 <= j < |longer| && r in LiveIn(usb, longer[j].slot) && r.dci == longer[j].r.dci
                  && r.ioc < longer[j].r.ioc
      ensures Among(longer[..j], longer[j].slot, r)
    {
      assert longer[..j] == due[..j];
      if j == |due| {
        assert due[..j] == due;
      }
    }
    forall j, k | 0 <= j < k < |longer| && longer[j].slot == longer[k].slot ensures longer[j].r != longer[k].r {
      if k == |due| {
        IsAmong(due, j);
      }
    }
  }

  /** The answer in front is for the oldest request of its ring. */
  lemma FrontIsOldest(usb: Devices, due: seq<Due>) returns (i: nat)
    requires Queued(usb, due) && due != []
    requires L.Sorted(LiveIn(usb, due[0].slot))
    ensures i < |LiveIn(usb, due[0].slot)| && LiveIn(usb, due[0].slot)[i] == due[0].r
    ensures L.Oldest(LiveIn(usb, due[0].slot), i)
  {
    var live := LiveIn(usb, due[0].slot);
    i :| 0 <= i < |live| && live[i] == due[0].r;
    hide LiveIn;
    assert due[..0] == [];
    forall r | r in live && r.dci == live[i].dci ensures r.ioc >= live[i].ioc {
      NoneAmong(due[0].slot, r);
    }
    OldestIs(live, i);
  }

  lemma InWithout(live: seq<Request>, i: nat, r: Request)
    requires i < |live| && Distinct(live)
    ensures r in Without(live, i) <==> r in live && r != live[i]
  {
    var rest := Without(live, i);
    if r in live && r != live[i] {
      var j :| 0 <= j < |live| && live[j] == r;
      assert rest[if j < i then j else j - 1] == r;
    }
    if r in rest {
      var j :| 0 <= j < |rest| && rest[j] == r;
      assert rest[j] == live[if j < i then j else j + 1];
    }
  }

  /** Requests that come last come later on their ring. */
  lemma LaterIsGreater(front: seq<Request>, more: seq<Request>, r: Request, q: Request)
    requires L.Sorted(front + more) && r in front && q in more && r.dci == q.dci
    ensures r.ioc < q.ioc
  {
    var i :| 0 <= i < |front| && front[i] == r;
    var j :| 0 <= j < |more| && more[j] == q;
    assert (front + more)[i] == r && (front + more)[|front| + j] == q;
  }

  lemma AmongRest(due: seq<Due>, j: nat, slot: nat, r: Request)
    requires 1 <= j < |due| && Among(due[..j], slot, r) && !(due[0].slot == slot && due[0].r == r)
    ensures Among(due[1..][..j - 1], slot, r)
  {
    var k :| 0 <= k < j && due[..j][k].slot == slot && due[..j][k].r == r;
    assert due[1..][..j - 1][k - 1] == due[k];
  }

  /** One answer handled: its request is off the list, and what its handler asked for comes last. */
  lemma HandledQueues(usb: Devices, due: seq<Due>, v: U.Usb, i: nat, more: seq<Request>)
    requires Queued(usb, due) && due != [] && due[0].slot < |usb| && usb[due[0].slot].Some?
    requires var live := LiveIn(usb, due[0].slot);
      i < |live| && live[i] == due[0].r && Distinct(live) && v.dev.live == Without(live, i) + more
    requires L.Sorted(v.dev.live)
    ensures Queued(usb[due[0].slot := Some(v)], due[1..])
  {
    var slot, r0, rest := due[0].slot, due[0].r, due[1..];
    var usb' := usb[slot := Some(v)];
    var live := LiveIn(usb, slot);
    assert forall s: nat :: LiveIn(usb', s) == if s == slot then v.dev.live else LiveIn(usb, s);
    hide LiveIn, Without, L.Sorted, Distinct, Among;
    forall j | 0 <= j < |rest| ensures rest[j].r in LiveIn(usb', rest[j].slot) {
      assert rest[j] == due[j + 1];
      if rest[j].slot == slot {
        InWithout(live, i, rest[j].r);
      }
    }
    forall j, r | 0 <= j < |rest| && r in LiveIn(usb', rest[j].slot) && r.dci == rest[j].r.dci && r.ioc < rest[j].r.ioc
      ensures Among(rest[..j], rest[j].slot, r)
    {
      StillBefore(usb, due, v, i, more, j + 1, r);
    }
  }

  lemma StillBefore(usb: Devices, due: seq<Due>, v: U.Usb, i: nat, more: seq<Request>, j: nat, r: Request)
    requires Queued(usb, due) && 1 <= j < |due| && due[0].slot < |usb| && usb[due[0].slot].Some?
    requires var live := LiveIn(usb, due[0].slot);
      i < |live| && live[i] == due[0].r && Distinct(live) && v.dev.live == Without(live, i) + more
    requires L.Sorted(v.dev.live)
    requires r in (if due[j].slot == due[0].slot then v.dev.live else LiveIn(usb, due[j].slot))
    requires r.dci == due[j].r.dci && r.ioc < due[j].r.ioc
    ensures Among(due[1..][..j - 1], due[j].slot, r)
  {
    var slot, live := due[0].slot, LiveIn(usb, due[0].slot);
    hide LiveIn, Without, L.Sorted, Distinct, Among;
    if due[j].slot == slot {
      InWithout(live, i, due[j].r);
      if r in more {
        LaterIsGreater(Without(live, i), more, due[j].r, r);
      }
      InWithout(live, i, r);
    }
    AmongRest(due, j, due[j].slot, r);
  }

  /** A device without requests in flight may change in any way. */
  lemma OtherQueues(usb: Devices, due: seq<Due>, slot: nat, v: Option<U.Usb>)
    requires Queued(usb, due) && slot < |usb| && LiveIn(usb, slot) == []
    ensures Queued(usb[slot := v], due)
  {
    var usb' := usb[slot := v];
    forall j | 0 <= j < |due| ensures due[j].slot != slot && LiveIn(usb', due[j].slot) == LiveIn(usb, due[j].slot) {
      assert due[j].r in LiveIn(usb, due[j].slot);
    }
    hide Among;
  }
}
