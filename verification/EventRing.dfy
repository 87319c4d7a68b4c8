/** The event ring: the controller writes events word by word, software polls the cycle bit of the
    TRB the ERDP register points to, handles it and moves the register on
    (kernel/usb/xhci/ring.cpp and ring.hpp; `ProcessEvent` in xhci.cpp). */
module EventRings {
  import opened Trbs

  /** The ERDP register: a 60-bit pointer field above four bits that pointer writes leave alone. */
  datatype Erdp = Erdp(low: nat, field: nat) {
    function Pointer(): nat { field * 16 }
    function SetPointer(value: nat): Erdp { this.(field := value / 16) }
  }

  /** The controller: next slot, producer cycle state, the event it is writing and how many words of
      it are stored; then the first event of this lap and the events published so far. */
  datatype Source = Source(
    index: nat, cycleState: bool, writing: bool, k: nat, event: Trb,
    lap: nat, produced: seq<Trb>)

  /** Where `ProcessEvent` stands: polling, having seen an event, or having handled it. */
  datatype Phase = Polling | Seen | Handled

  /** Software: ERDP, consumer cycle bit, program point, and the events handled so far. */
  datatype Driver = Driver(erdp: Erdp, cycleBit: bool, phase: Phase, handled: seq<Trb>)

  datatype Sys = Sys(base: addr, mem: seq<Trb>, src: Source, drv: Driver)

  function Init(base: addr, bufSize: nat, low: nat): Sys {
    Sys(base, seq(bufSize, _ => BLANK), Source(0, true, false, 0, BLANK, 0, []),
        Driver(Erdp(low, 0).SetPointer(base), true, Polling, []))
  }

  /** The slot a pointer into the segment denotes. */
  function SlotOf(base: addr, pointer: nat): int { (pointer - base) / 16 }

  /** The slot the ERDP register points to. */
  function FrontSlot(s: Sys): int { SlotOf(s.base, s.drv.erdp.Pointer()) }

  predicate InBounds(s: Sys) {
    s.src.index < |s.mem| && 0 <= FrontSlot(s) < |s.mem|
  }

  // ---- controller steps (xHCI specification, section 4.9.4)

  /** The controller has room unless the slot after the next event is the one ERDP points to. */
  predicate HasRoom(s: Sys) {
    (if s.src.index + 1 == |s.mem| then 0 else s.src.index + 1) != FrontSlot(s)
  }

  /** Stores the next word of the event being written; the last one carries the cycle bit and
      publishes the event. */
  function WriteWord(s: Sys): Sys
    requires InBounds(s) && s.src.k < 4
  {
    var src := s.src;
    var mem := s.mem[src.index := s.mem[src.index].Store(src.k, Stamp(src.event, src.cycleState))];
    if src.k < 3 then s.(mem := mem, src := src.(k := src.k + 1))
    else
      var done := src.(writing := false, k := 0, produced := src.produced + [Payload(src.event)]);
      if src.index + 1 == |s.mem| then
        s.(mem := mem, src := done.(index := 0, cycleState := !src.cycleState, lap := src.lap + |s.mem|))
      else s.(mem := mem, src := done.(index := src.index + 1))
  }

  // ---- software steps

  /** HasFront: does the TRB at ERDP carry the consumer cycle bit? */
  predicate HasFront(s: Sys)
    requires InBounds(s)
  {
    s.mem[FrontSlot(s)].cycle == s.drv.cycleBit
  }

  /** Front, as the handlers read it. */
  function Front(s: Sys): Trb
    requires InBounds(s)
  {
    s.mem[FrontSlot(s)]
  }

  /** Pop: the next TRB, or the first of the segment with the cycle bit flipped. */
  function Pop(base: addr, size: nat, drv: Driver): Driver {
    var p := drv.erdp.Pointer() + 16;
    if p == base + 16 * size then
      drv.(erdp := drv.erdp.SetPointer(base), cycleBit := !drv.cycleBit, phase := Polling)
    else drv.(erdp := drv.erdp.SetPointer(p), phase := Polling)
  }

  /** What software does next: poll, handle what it saw, or pop what it handled. */
  function Drive(s: Sys): Sys
    requires InBounds(s)
  {
    match s.drv.phase
    case Polling => if HasFront(s) then s.(drv := s.drv.(phase := Seen)) else s
    case Seen => s.(drv := s.drv.(phase := Handled, handled := s.drv.handled + [Payload(Front(s))]))
    case Handled => s.(drv := Pop(s.base, |s.mem|, s.drv))
  }

  // ---- the whole system

  datatype Action = BeginEvent(e: Trb) | ControllerStep | DriverStep

  /** The controller writes one event at a time and stops one entry before ERDP. */
  predicate Enabled(s: Sys, a: Action) {
    match a
    case BeginEvent(_) => !s.src.writing && HasRoom(s)
    case ControllerStep => s.src.writing
    case DriverStep => true
  }

  predicate Sane(s: Sys) {
    InBounds(s) && s.src.k < 4
  }

  function Next(s: Sys, a: Action): Sys
    requires Sane(s)
  {
    match a
    case BeginEvent(e) => s.(src := s.src.(writing := true, k := 0, event := e))
    case ControllerStep => WriteWord(s)
    case DriverStep => Drive(s)
  }

  // ---- invariants

  /** Events popped: those handled, less the one about to be popped. */
  function Popped(drv: Driver): int { |drv.handled| - (if drv.phase == Handled then 1 else 0) }

  /** Slots from..n hold the events published since `first`, marked. */
  ghost predicate Holds(mem: seq<Trb>, produced: seq<Trb>, first: int, from: int, n: int, mark: bool) {
    && n <= |mem| && 0 <= from && (from < n ==> 0 <= first + from && first + n <= |produced|)
    && forall s | from <= s < n :: mem[s] == Stamp(produced[first + s], mark)
  }

  ghost predicate Unmarked(mem: seq<Trb>, n: int, mark: bool) {
    0 <= n && forall s | n <= s < |mem| :: mem[s].cycle == !mark
  }

  predicate Copied(t: Trb, d: Trb, k: nat) {
    && (k > 0 ==> t.w0 == d.w0)
    && (k > 1 ==> t.w1 == d.w1)
    && (k > 2 ==> t.w2 == d.w2)
  }

  ghost predicate SourceInv(mem: seq<Trb>, src: Source) {
    && src.k < 4 && (!src.writing ==> src.k == 0)
    && |src.produced| == src.lap + src.index && src.index < |mem|
    && (src.lap == 0 || src.lap >= |mem|) && (src.lap == 0 ==> src.cycleState)
    && Holds(mem, src.produced, src.lap, 0, src.index, src.cycleState)
    && Unmarked(mem, src.index, src.cycleState)
    && (forall j | 0 <= j < |src.produced| :: !src.produced[j].cycle)
    && (src.lap > 0 ==>
          Holds(mem, src.produced, src.lap - |mem|, src.index + (if src.writing then 1 else 0), |mem|, !src.cycleState))
    && (src.writing ==> Copied(mem[src.index], src.event, src.k))
  }

  ghost predicate DriverInv(s: Sys) {
    var src, drv := s.src, s.drv;
    var front := FrontSlot(s);
    var lap := Popped(drv) - front;
    && s.base % 64 == 0 && s.base + 16 * |s.mem| < 0x1_0000_0000_0000_0000
    && 0 <= front < |s.mem| && drv.erdp.Pointer() == s.base + 16 * front
    && lap >= 0 && drv.handled <= src.produced
    && (drv.phase == Seen ==> |drv.handled| < |src.produced|)
    && ((lap == src.lap && drv.cycleBit == src.cycleState) ||
        (lap + |s.mem| == src.lap && drv.cycleBit == !src.cycleState))
    && |src.produced| + (if src.writing then 1 else 0) - Popped(drv) <= |s.mem| - 1
  }

  ghost predicate Inv(s: Sys) { SourceInv(s.mem, s.src) && DriverInv(s) }

  lemma InitInv(base: addr, bufSize: nat, low: nat)
    requires bufSize >= 2 && base % 64 == 0 && base + 16 * bufSize < 0x1_0000_0000_0000_0000
    ensures Inv(Init(base, bufSize, low))
  {
  }

  lemma HoldsFramed(mem: seq<Trb>, mem': seq<Trb>, produced: seq<Trb>, produced': seq<Trb>,
                    first: int, from: int, n: int, mark: bool)
    requires Holds(mem, produced, first, from, n, mark)
    requires |mem'| == |mem| && produced <= produced' && forall s | from <= s < n :: mem'[s] == mem[s]
    ensures Holds(mem', produced', first, from, n, mark)
  {
  }

  lemma HoldsOneMore(mem: seq<Trb>, produced: seq<Trb>, first: int, n: int, mark: bool)
    requires Holds(mem, produced, first, 0, n, mark) && 0 <= n < |mem| && 0 <= first && first + n < |produced|
    requires mem[n] == Stamp(produced[first + n], mark)
    ensures Holds(mem, produced, first, 0, n + 1, mark)
  {
  }

  lemma StoreKeepsSource(s: Sys)
    requires SourceInv(s.mem, s.src) && s.src.writing && s.src.k < 3 && InBounds(s)
    ensures SourceInv(WriteWord(s).mem, WriteWord(s).src)
  {
    var src, t := s.src, WriteWord(s);
    HoldsFramed(s.mem, t.mem, src.produced, t.src.produced, src.lap, 0, src.index, src.cycleState);
    if src.lap > 0 {
      HoldsFramed(s.mem, t.mem, src.produced, t.src.produced, src.lap - |s.mem|, src.index + 1,
                  |s.mem|, !src.cycleState);
    }
    hide Holds;
  }

  lemma PublishFillsSlot(mem: seq<Trb>, src: Source, event: Trb)
    requires SourceInv(mem, src) && src.writing && !event.cycle
    ensures var mem' := mem[src.index := Stamp(event, src.cycleState)];
      && Holds(mem', src.produced + [event], src.lap, 0, src.index + 1, src.cycleState)
      && Unmarked(mem', src.index + 1, src.cycleState)
      && (src.lap > 0 ==>
            Holds(mem', src.produced + [event], src.lap - |mem|, src.index + 1, |mem|, !src.cycleState))
  {
    var mem', produced := mem[src.index := Stamp(event, src.cycleState)], src.produced + [event];
    HoldsFramed(mem, mem', src.produced, produced, src.lap, 0, src.index, src.cycleState);
    HoldsOneMore(mem', produced, src.lap, src.index, src.cycleState);
    if src.lap > 0 {
      HoldsFramed(mem, mem', src.produced, produced, src.lap - |mem|, src.index + 1, |mem|, !src.cycleState);
    }
    UnmarkedAfter(mem, src.index, src.cycleState, Stamp(event, src.cycleState));
    hide Holds, Unmarked, Copied;
  }

  lemma PublishKeepsSource(s: Sys)
    requires SourceInv(s.mem, s.src) && s.src.writing && s.src.k == 3 && InBounds(s)
    ensures SourceInv(WriteWord(s).mem, WriteWord(s).src)
  {
    var src, t := s.src, WriteWord(s);
    var event := Payload(src.event);
    assert t.mem == s.mem[src.index := Stamp(event, src.cycleState)] && t.src.produced == src.produced + [event];
    PublishFillsSlot(s.mem, src, event);
    if src.index + 1 == |s.mem| {
      UnmarkedNextLap(t.mem, t.src.produced, src.lap, src.cycleState);
    }
    hide Holds, Unmarked, Copied, Stamp;
  }

  lemma UnmarkedAfter(mem: seq<Trb>, n: int, mark: bool, t: Trb)
    requires Unmarked(mem, n, mark) && n < |mem|
    ensures Unmarked(mem[n := t], n + 1, mark)
  {
  }

  /** A full lap of marked events is what the next lap, whose mark is the other value, overwrites. */
  lemma UnmarkedNextLap(mem: seq<Trb>, produced: seq<Trb>, first: int, mark: bool)
    requires Holds(mem, produced, first, 0, |mem|, mark)
    ensures Unmarked(mem, 0, !mark)
  {
  }

  lemma WriteKeepsSource(s: Sys)
    requires SourceInv(s.mem, s.src) && s.src.writing && InBounds(s)
    ensures SourceInv(WriteWord(s).mem, WriteWord(s).src)
  {
    hide Holds, Unmarked, Copied;
    if s.src.k < 3 {
      StoreKeepsSource(s);
    } else {
      PublishKeepsSource(s);
    }
  }

  /** HasFront is true exactly when some published event has not been popped, and then the front
      TRB is the oldest such event, complete. */
  lemma FrontIsOldest(s: Sys)
    requires Inv(s)
    ensures InBounds(s)
    ensures HasFront(s) <==> Popped(s.drv) < |s.src.produced|
    ensures HasFront(s) ==> Payload(Front(s)) == s.src.produced[Popped(s.drv)]
  {
  }

  lemma WriteKeepsDriver(s: Sys)
    requires Inv(s) && s.src.writing && InBounds(s)
    ensures DriverInv(WriteWord(s))
  {
    hide Holds, Unmarked, Copied;
  }

  lemma PopKeepsInv(s: Sys)
    requires Inv(s) && InBounds(s) && s.drv.phase == Handled
    ensures DriverInv(Drive(s))
  {
    var front := FrontSlot(s);
    assert s.drv.erdp.Pointer() + 16 == s.base + 16 * (front + 1);
    SlotFacts(s.base, s.drv.erdp, front + 1);
    SlotFacts(s.base, s.drv.erdp, 0);
    hide SourceInv, SlotOf, Erdp.Pointer, Erdp.SetPointer;
  }

  /** Moving ERDP to a slot's TRB. */
  lemma SlotFacts(base: addr, erdp: Erdp, slot: nat)
    requires base % 16 == 0
    ensures erdp.SetPointer(base + 16 * slot).Pointer() == base + 16 * slot
    ensures SlotOf(base, base + 16 * slot) == slot
  {
  }

  lemma DriveKeepsInv(s: Sys)
    requires Inv(s) && InBounds(s)
    ensures Inv(Drive(s))
  {
    FrontIsOldest(s);
    hide SourceInv;
    if s.drv.phase == Handled {
      PopKeepsInv(s);
    }
  }

  /** The stop-before-ERDP rule leaves room for the event about to be written. */
  lemma BeginKeepsInv(s: Sys, e: Trb)
    requires Inv(s) && !s.src.writing && HasRoom(s)
    ensures InBounds(s) && Inv(Next(s, BeginEvent(e)))
  {
    hide Unmarked;
  }

  /** Every step of either side keeps the invariant. */
  lemma NextKeepsInv(s: Sys, a: Action)
    requires Inv(s) && Enabled(s, a)
    ensures Sane(s) && Inv(Next(s, a))
  {
    assert Sane(s) by { FrontIsOldest(s); }
    match a
    case BeginEvent(e) => BeginKeepsInv(s, e);
    case DriverStep => DriveKeepsInv(s);
    case ControllerStep =>
      WriteKeepsSource(s);
      WriteKeepsDriver(s);
      hide SourceInv, DriverInv;
  }

  // ---- exactly-once delivery over whole runs

  ghost predicate Runs(s: Sys, acts: seq<Action>, t: Sys)
    decreases |acts|
  {
    if acts == [] then s == t
    else Sane(s) && Enabled(s, acts[0]) && Runs(Next(s, acts[0]), acts[1..], t)
  }

  /** The events a run's controller writes. */
  function Events(acts: seq<Action>): seq<Trb> {
    if acts == [] then []
    else (if acts[0].BeginEvent? then [Payload(acts[0].e)] else []) + Events(acts[1..])
  }

  function Begun(src: Source): seq<Trb> {
    src.produced + (if src.writing then [Payload(src.event)] else [])
  }

  lemma StepBegins(s: Sys, a: Action)
    requires Sane(s) && Enabled(s, a)
    ensures Begun(Next(s, a).src) == Begun(s.src) + (if a.BeginEvent? then [Payload(a.e)] else [])
  {
  }

  lemma {:induction false} RunKeepsInv(s: Sys, acts: seq<Action>, t: Sys)
    requires Inv(s) && Runs(s, acts, t)
    ensures Inv(t) && Begun(t.src) == Begun(s.src) + Events(acts)
    decreases |acts|
  {
    hide SourceInv, DriverInv, Next, Begun;
    if acts == [] {
      assert Events(acts) == [];
    } else {
      var a := acts[0];
      NextKeepsInv(s, a);
      StepBegins(s, a);
      var begun: seq<Trb> := if a.BeginEvent? then [Payload(a.e)] else [];
      assert Begun(s.src) + begun + Events(acts[1..]) == Begun(s.src) + (begun + Events(acts[1..]));
      RunKeepsInv(Next(s, a), acts[1..], t);
    }
  }

  /** Main theorem: in every run software handles exactly the events the controller wrote, in
      order, once each and complete; it sees an event if and only if one is waiting, and the
      controller's room check never lets it overwrite an event that is not yet popped. */
  lemma ExactlyOnce(base: addr, bufSize: nat, low: nat, acts: seq<Action>, t: Sys)
    requires bufSize >= 2 && base % 64 == 0 && base + 16 * bufSize < 0x1_0000_0000_0000_0000
    requires Runs(Init(base, bufSize, low), acts, t)
    ensures Sane(t)
    ensures t.drv.handled <= Events(acts)
    ensures 0 <= Popped(t.drv) <= |t.src.produced| <= |Events(acts)|
    ensures HasFront(t) <==> Popped(t.drv) < |t.src.produced|
    ensures HasFront(t) ==> Popped(t.drv) < |Events(acts)| && Payload(Front(t)) == Events(acts)[Popped(t.drv)]
    ensures !HasFront(t) && !t.src.writing ==> t.drv.handled == Events(acts)
  {
    InitInv(base, bufSize, low);
    RunKeepsInv(Init(base, bufSize, low), acts, t);
    FrontIsOldest(t);
    assert Begun(t.src) == Events(acts);
    assert t.src.produced <= Begun(t.src);
  }
}
