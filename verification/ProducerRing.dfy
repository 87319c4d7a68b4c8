/** The Command/Transfer Ring of kernel/usb/xhci/ring.cpp run against an xHCI controller.

    Software and controller share nothing but the TRB memory. Every 32-bit store of `Ring::Push`
    and every 32-bit load of the controller is one step, and steps interleave freely. */
module ProducerRing {
  import opened Trbs

  /** Where `Ring::Push` stands between two of its stores. `Data(4, d)` is after the last store of
      the TRB and before `++write_index_`; `Link(4)` is after the last store of the Link TRB and
      before the index and the cycle bit are reset. */
  datatype Pc = Idle | Data(k: nat, d: Trb) | Link(k: nat)

  /** The ring's fields, followed by history: the index of the first TRB of the lap being written,
      the TRBs published so far, and the slot each of them went to. */
  datatype Producer = Producer(
    base: addr, mem: seq<Trb>, writeIndex: nat, cycleBit: bool,
    lap: nat, pushed: seq<Trb>, at: seq<nat>)

  /** A controller: the slot it looks at, its cycle state, how many words of that slot it has read
      (the last word first) and their values, followed by what it has consumed and from where.
      `lost` records that it walked off the ring. */
  datatype Consumer = Consumer(
    index: nat, cycleState: bool, fetched: nat, got: Trb,
    consumed: seq<Trb>, from: seq<nat>, lost: bool)

  datatype Sys = Sys(p: Producer, pc: Pc, c: Consumer)

  /** Number of TRB slots of the ring: all but the last, which holds the Link TRB. */
  function Slots(p: Producer): int { |p.mem| - 1 }

  /** `Ring::Initialize` on memory obtained from the allocator. */
  function InitProducer(base: addr, bufSize: nat): Producer {
    Producer(base, seq(bufSize, _ => BLANK), 0, true, 0, [], [])
  }

  /** The controller starts at slot 0 with cycle state 1. */
  const CONSUMER_START := Consumer(0, true, 0, BLANK, [], [], false)

  function Init(base: addr, bufSize: nat): Sys { Sys(InitProducer(base, bufSize), Idle, CONSUMER_START) }

  // ---- software steps

  /** `buf_[write_index_].data[k] = data[k]`, the cycle bit going into the last word. */
  function StoreWord(p: Producer, k: nat, d: Trb): Producer
    requires p.writeIndex < |p.mem| && k < 4
  {
    p.(mem := p.mem[p.writeIndex := p.mem[p.writeIndex].Store(k, Stamp(d, p.cycleBit))])
  }

  /** The next step of the `Push` in progress. */
  function Produce(p: Producer, pc: Pc): (Producer, Pc)
    requires p.writeIndex < |p.mem|
  {
    match pc
    case Idle => (p, pc)
    case Data(k, d) =>
      if k < 3 then (StoreWord(p, k, d), Data(k + 1, d))
      else if k == 3 then
        (StoreWord(p, 3, d).(pushed := p.pushed + [Payload(d)], at := p.at + [p.writeIndex]), Data(4, d))
      else if p.writeIndex + 1 == |p.mem| - 1 then (p.(writeIndex := p.writeIndex + 1), Link(0))
      else (p.(writeIndex := p.writeIndex + 1), Idle)
    case Link(k) =>
      if k < 3 then (StoreWord(p, k, LinkTo(p.base)), Link(k + 1))
      else if k == 3 then (StoreWord(p, 3, LinkTo(p.base)).(lap := p.lap + |p.mem| - 1), Link(4))
      else (p.(writeIndex := 0, cycleBit := !p.cycleBit), Idle)
  }

  // ---- controller steps (xHCI specification, sections 4.9.2 and 4.9.3)

  /** One step of a conforming controller: load the last word and compare cycle bits, load the
      other words one at a time, then follow a Link TRB or execute anything else. */
  function Consume(p: Producer, c: Consumer): (c': Consumer)
    requires c.index < |p.mem|
    ensures c'.index < |p.mem|
  {
    if c.fetched == 0 then
      if p.mem[c.index].cycle == c.cycleState
      then c.(fetched := 1, got := BLANK.Store(3, p.mem[c.index]))
      else c
    else if c.fetched < 4 then
      c.(fetched := c.fetched + 1, got := c.got.Store(c.fetched - 1, p.mem[c.index]))
    else if c.got.ctl.ty == LINK then
      c.(fetched := 0, index := 0, lost := c.lost || c.got.Pointer16() != p.base,
         cycleState := if c.got.ToggleCycle() then !c.cycleState else c.cycleState)
    else if c.index + 1 == |p.mem| then c.(fetched := 0, lost := true)
    else
      c.(fetched := 0, index := c.index + 1,
         consumed := c.consumed + [Payload(c.got)], from := c.from + [c.index])
  }

  // ---- the whole system

  datatype Action = BeginPush(d: Trb) | ProducerStep | ConsumerStep

  /** TRBs whose push has begun and that the controller has not consumed. */
  function Outstanding(s: Sys): int {
    |s.p.pushed| + (if s.pc.Data? && s.pc.k < 4 then 1 else 0) - |s.c.consumed|
  }

  /** Software pushes one TRB at a time, never a Link TRB, and keeps at most buf_size - 2 of them
      outstanding; that flow control is the caller's, `Ring::Push` has no full check. */
  predicate Enabled(s: Sys, a: Action) {
    a.BeginPush? ==> s.pc.Idle? && a.d.ctl.ty != LINK && Outstanding(s) < |s.p.mem| - 2
  }

  function Next(s: Sys, a: Action): Sys
    requires s.p.writeIndex < |s.p.mem| && s.c.index < |s.p.mem|
  {
    match a
    case BeginPush(d) => s.(pc := Data(0, d))
    case ProducerStep => var (p, pc) := Produce(s.p, s.pc); s.(p := p, pc := pc)
    case ConsumerStep => s.(c := Consume(s.p, s.c))
  }

  // ---- invariants

  /** Slots already written in the current lap. */
  function Written(p: Producer): int { |p.pushed| - p.lap }

  /** The cycle value that marks a TRB of the current lap. */
  function Mark(p: Producer, pc: Pc): bool { if pc.Link? && pc.k == 4 then !p.cycleBit else p.cycleBit }

  /** Words 0 to k - 1 of `t` agree with `d`. */
  predicate Copied(t: Trb, d: Trb, k: nat) {
    && (k > 0 ==> t.w0 == d.w0)
    && (k > 1 ==> t.w1 == d.w1)
    && (k > 2 ==> t.w2 == d.w2)
  }

  ghost predicate Shape(p: Producer, pc: Pc) {
    && Slots(p) >= 2 && p.base % 16 == 0
    && |p.at| == |p.pushed|
    && 0 <= Written(p) <= Slots(p)
    && (p.lap == 0 || p.lap >= Slots(p))
    && (p.lap == 0 ==> Mark(p, pc))
    && match pc
       case Idle => p.writeIndex == Written(p) < Slots(p)
       case Data(k, d) =>
         && k <= 4 && d.ctl.ty != LINK
         && p.writeIndex == (if k < 4 then Written(p) else Written(p) - 1) < Slots(p)
         && (k < 4 ==> Copied(p.mem[p.writeIndex], d, k))
       case Link(k) =>
         && k <= 4 && p.writeIndex == Slots(p)
         && Written(p) == (if k < 4 then Slots(p) else 0)
         && (k < 4 ==> Copied(p.mem[p.writeIndex], LinkTo(p.base), k))
  }

  /** Slots below n hold the TRBs pushed since `first`, marked. */
  ghost predicate Holds(mem: seq<Trb>, pushed: seq<Trb>, first: int, from: int, n: int, mark: bool) {
    && n <= |mem| && 0 <= from && (from < n ==> 0 <= first + from && first + n <= |pushed|)
    && forall s | from <= s < n :: mem[s] == Stamp(pushed[first + s], mark)
  }

  /** No slot from n on carries the current mark. */
  ghost predicate Unmarked(mem: seq<Trb>, n: int, mark: bool) {
    0 <= n && forall s | n <= s < |mem| :: mem[s].cycle == !mark
  }

  /** First slot that still holds last lap's TRB whole: the slot being overwritten does not. */
  function Stale(p: Producer, pc: Pc): int {
    Written(p) + (if pc.Data? && pc.k < 4 then 1 else 0)
  }

  /** Which push wrote each slot: this lap's below Written, the lap before's from there on. */
  ghost predicate Layout(p: Producer, pc: Pc) {
    var mark := Mark(p, pc);
    && |p.mem| > 0
    && Holds(p.mem, p.pushed, p.lap, 0, Written(p), mark)
    && Unmarked(p.mem, Written(p), mark)
    && (p.lap > 0 ==>
          && Holds(p.mem, p.pushed, p.lap - Slots(p), Stale(p, pc), Slots(p), !mark)
          && p.mem[Slots(p)] == Stamp(LinkTo(p.base), !mark))
  }

  /** Where each of the last laps' TRBs went, and that no Link TRB was pushed by a caller. */
  ghost predicate History(pushed: seq<Trb>, at: seq<nat>, lap: int, slots: int) {
    && |at| == |pushed|
    && (forall j | 0 <= j < |at| :: at[j] < slots)
    && (forall j | 0 <= j < |pushed| :: pushed[j].ctl.ty != LINK && !pushed[j].cycle)
    && (forall j | 0 <= j < |pushed| && lap <= j :: at[j] == j - lap)
    && (forall j | 0 <= j < |pushed| && lap - slots <= j < lap :: at[j] == j - (lap - slots))
  }

  ghost predicate ProducerInv(p: Producer, pc: Pc) {
    Shape(p, pc) && Layout(p, pc) && History(p.pushed, p.at, p.lap, Slots(p))
  }

  /** The controller is in the producer's lap or one lap behind, and what it has loaded of a slot
      is what the slot holds. */
  ghost predicate ConsumerInv(p: Producer, mark: bool, c: Consumer) {
    var lap := |c.consumed| - c.index;
    && |p.mem| > 0 && |p.at| == |p.pushed|
    && !c.lost && c.index <= Slots(p) && c.fetched <= 4 && lap >= 0
    && |c.from| == |c.consumed|
    && c.consumed <= p.pushed && c.from <= p.at
    && ((lap == p.lap && c.cycleState == mark) ||
        (lap + Slots(p) == p.lap && c.cycleState == !mark))
    && (c.fetched > 0 ==>
          && (lap == p.lap ==> c.index < Written(p))
          && c.got.ctl == p.mem[c.index].ctl
          && Copied(c.got, p.mem[c.index], c.fetched - 1))
  }

  ghost predicate Inv(s: Sys) {
    ProducerInv(s.p, s.pc) && ConsumerInv(s.p, Mark(s.p, s.pc), s.c) && Outstanding(s) <= Slots(s.p) - 1
  }

  lemma InitInv(base: addr, bufSize: nat)
    requires bufSize >= 3 && base % 16 == 0
    ensures Inv(Init(base, bufSize))
  {
  }

  lemma ConsumedIsPrefix(s: Sys)
    requires Inv(s)
    ensures |s.c.consumed| <= |s.p.pushed| && s.c.fetched <= 4
    ensures s.c.index < |s.p.mem| && s.p.writeIndex < |s.p.mem|
    ensures s.c.consumed + s.p.pushed[|s.c.consumed|..] == s.p.pushed
  {
  }

  /** Stores outside the slots concerned, and later pushes, leave Holds alone. */
  lemma HoldsFramed(mem: seq<Trb>, mem': seq<Trb>, pushed: seq<Trb>, pushed': seq<Trb>,
                    first: int, from: int, n: int, mark: bool)
    requires Holds(mem, pushed, first, from, n, mark)
    requires |mem'| == |mem| && pushed <= pushed' && forall s | from <= s < n :: mem'[s] == mem[s]
    ensures Holds(mem', pushed', first, from, n, mark)
  {
  }

  lemma StoreKeepsLayout(p: Producer, pc: Pc)
    requires Shape(p, pc) && Layout(p, pc) && !pc.Idle? && pc.k < 3
    ensures Layout(Produce(p, pc).0, Produce(p, pc).1)
  {
    var q := Produce(p, pc).0;
    HoldsFramed(p.mem, q.mem, p.pushed, p.pushed, p.lap, 0, Written(p), Mark(p, pc));
    if p.lap > 0 {
      HoldsFramed(p.mem, q.mem, p.pushed, p.pushed, p.lap - Slots(p), Stale(p, pc), Slots(p), !Mark(p, pc));
    }
    hide Holds;
  }

  /** Words 0 to 2 touch nothing a consumer may rely on. */
  lemma StoreKeepsProducer(p: Producer, pc: Pc)
    requires Shape(p, pc) && Layout(p, pc) && !pc.Idle? && pc.k < 3
    ensures Shape(Produce(p, pc).0, Produce(p, pc).1) && Layout(Produce(p, pc).0, Produce(p, pc).1)
  {
    StoreKeepsLayout(p, pc);
    hide Layout, Holds, Unmarked;
    var d := if pc.Data? then pc.d else LinkTo(p.base);
    assert Copied(StoreWord(p, pc.k, d).mem[p.writeIndex], d, pc.k + 1);
  }

  /** The store of the last word publishes the TRB: its slot now belongs to the current lap. */
  lemma PublishKeepsLayout(p: Producer, pc: Pc)
    requires Shape(p, pc) && Layout(p, pc) && pc.Data? && pc.k == 3
    ensures Shape(Produce(p, pc).0, Produce(p, pc).1) && Layout(Produce(p, pc).0, Produce(p, pc).1)
  {
    var q := Produce(p, pc).0;
    assert q.mem[p.writeIndex] == Stamp(Payload(pc.d), p.cycleBit);
    HoldsFramed(p.mem, q.mem, p.pushed, q.pushed, p.lap, 0, Written(p), p.cycleBit);
    HoldsOneMore(q.mem, q.pushed, p.lap, Written(p), p.cycleBit);
    if p.lap > 0 {
      HoldsFramed(p.mem, q.mem, p.pushed, q.pushed, p.lap - Slots(p), Stale(p, pc), Slots(p), !p.cycleBit);
    }
    hide Holds;
  }

  lemma HoldsOneMore(mem: seq<Trb>, pushed: seq<Trb>, first: int, n: int, mark: bool)
    requires Holds(mem, pushed, first, 0, n, mark) && 0 <= n < |mem| && 0 <= first && first + n < |pushed|
    requires mem[n] == Stamp(pushed[first + n], mark)
    ensures Holds(mem, pushed, first, 0, n + 1, mark)
  {
  }

  lemma PublishKeepsHistory(p: Producer, d: Trb)
    requires History(p.pushed, p.at, p.lap, Slots(p)) && p.writeIndex == Written(p) < Slots(p) && d.ctl.ty != LINK
    ensures History(p.pushed + [Payload(d)], p.at + [p.writeIndex], p.lap, Slots(p))
  {
  }

  /** The store of the Link TRB's last word starts a new lap. */
  lemma WrapKeepsProducer(p: Producer, pc: Pc)
    requires ProducerInv(p, pc) && pc.Link? && pc.k == 3
    ensures ProducerInv(Produce(p, pc).0, Produce(p, pc).1)
  {
    var (q, qc) := Produce(p, pc);
    assert q.mem[Slots(p)] == Stamp(LinkTo(p.base), p.cycleBit);
  }

  /** Moving the index, or going back to slot 0, changes no memory. */
  lemma AdvanceKeepsProducer(p: Producer, pc: Pc)
    requires ProducerInv(p, pc) && !pc.Idle? && pc.k == 4
    ensures ProducerInv(Produce(p, pc).0, Produce(p, pc).1)
  {
    hide Holds, Unmarked, History;
  }

  /** Layout and history survive every step of `Push`, the Link TRB's included. */
  lemma ProduceKeepsProducer(p: Producer, pc: Pc)
    requires ProducerInv(p, pc)
    ensures ProducerInv(Produce(p, pc).0, Produce(p, pc).1)
  {
    hide Holds, Unmarked, History;
    if !pc.Idle? {
      if pc.k == 4 {
        AdvanceKeepsProducer(p, pc);
      } else if pc.k < 3 {
        StoreKeepsProducer(p, pc);
      } else if pc.Data? {
        PublishKeepsLayout(p, pc);
        PublishKeepsHistory(p, pc.d);
      } else {
        WrapKeepsProducer(p, pc);
      }
    }
  }

  /** A slot the controller takes for its own holds exactly the next unconsumed TRB, or the
      Link TRB back to the base. */
  lemma OwnedSlot(s: Sys)
    requires Inv(s)
    requires s.c.fetched > 0 || s.p.mem[s.c.index].cycle == s.c.cycleState
    ensures s.c.index < Slots(s.p) ==>
              && |s.c.consumed| < |s.p.pushed| && s.p.at[|s.c.consumed|] == s.c.index
              && Payload(s.p.mem[s.c.index]) == s.p.pushed[|s.c.consumed|]
    ensures s.c.index == Slots(s.p) ==>
              && s.p.lap == |s.c.consumed| && s.c.cycleState == !Mark(s.p, s.pc)
              && Payload(s.p.mem[s.c.index]) == LinkTo(s.p.base)
  {
  }

  /** No store of `Push` reaches a slot the controller is reading. */
  lemma ProduceSparesConsumer(s: Sys)
    requires Inv(s) && s.c.fetched > 0
    ensures Produce(s.p, s.pc).0.mem[s.c.index] == s.p.mem[s.c.index]
  {
  }

  /** The controller's view survives any step that spares the slot it reads: a plain store, a
      published TRB, or a new lap. */
  lemma ConsumerFramed(p: Producer, q: Producer, mark: bool, mark': bool, c: Consumer)
    requires ConsumerInv(p, mark, c) && |q.mem| == |p.mem| && |p.at| == |p.pushed| && |q.at| == |q.pushed|
    requires c.fetched > 0 ==> q.mem[c.index] == p.mem[c.index]
    requires p.pushed <= q.pushed && p.at <= q.at
    requires (q.lap == p.lap && mark' == mark)
             || (q.lap == p.lap + Slots(p) && mark' == !mark && q.pushed == p.pushed
                 && |c.consumed| - c.index == p.lap)
    requires q.lap <= |q.pushed|
    ensures ConsumerInv(q, mark', c)
  {
  }

  lemma ProduceKeepsConsumer(s: Sys)
    requires Inv(s)
    ensures ConsumerInv(Produce(s.p, s.pc).0, Mark(Produce(s.p, s.pc).0, Produce(s.p, s.pc).1), s.c)
  {
    var (q, qc) := Produce(s.p, s.pc);
    if s.c.fetched > 0 {
      ProduceSparesConsumer(s);
    }
    ConsumerFramed(s.p, q, Mark(s.p, s.pc), Mark(q, qc), s.c);
  }

  lemma ProduceKeepsInv(s: Sys)
    requires Inv(s)
    ensures Inv(Next(s, ProducerStep))
  {
    hide ProducerInv, ConsumerInv;
    ConsumedIsPrefix(s);
    ProduceKeepsProducer(s.p, s.pc);
    ProduceKeepsConsumer(s);
  }

  /** Executing an owned slot takes the next TRB, or follows the Link TRB into the new lap. */
  lemma ExecuteKeepsConsumer(s: Sys)
    requires Inv(s) && s.c.fetched == 4
    ensures ConsumerInv(s.p, Mark(s.p, s.pc), Consume(s.p, s.c))
  {
    var p, c := s.p, s.c;
    OwnedSlot(s);
    assert Payload(c.got) == Payload(p.mem[c.index]);
    LinkFacts(p.base);
    assert c.got.ctl.ty == LINK <==> c.index == Slots(p);
  }

  lemma LoadKeepsConsumer(s: Sys)
    requires Inv(s) && s.c.fetched < 4
    ensures ConsumerInv(s.p, Mark(s.p, s.pc), Consume(s.p, s.c))
  {
    if s.p.mem[s.c.index].cycle == s.c.cycleState {
      OwnedSlot(s);
    }
  }

  lemma ConsumeKeepsInv(s: Sys)
    requires Inv(s)
    ensures Inv(Next(s, ConsumerStep))
  {
    hide ProducerInv, ConsumerInv;
    ConsumedIsPrefix(s);
    if s.c.fetched < 4 {
      LoadKeepsConsumer(s);
    } else {
      ExecuteKeepsConsumer(s);
    }
  }

  /** Every step of either side keeps the invariant, as long as software keeps its flow control. */
  lemma NextKeepsInv(s: Sys, a: Action)
    requires Inv(s) && Enabled(s, a)
    ensures Inv(Next(s, a))
  {
    match a
    case BeginPush(d) =>
    case ProducerStep => ProduceKeepsInv(s);
    case ConsumerStep => ConsumeKeepsInv(s);
  }

  // ---- the ring is a FIFO

  /** The queue the ring stands for: published and not yet consumed. */
  function Queue(s: Sys): seq<Trb>
    requires |s.c.consumed| <= |s.p.pushed|
  {
    s.p.pushed[|s.c.consumed|..]
  }

  /** Does this step publish a TRB, or complete the consumption of one? */
  predicate Enqueues(s: Sys, a: Action) { a == ProducerStep && s.pc.Data? && s.pc.k == 3 }
  predicate Dequeues(s: Sys, a: Action) { a == ConsumerStep && s.c.fetched == 4 && s.c.index < Slots(s.p) }

  lemma ExecuteDequeues(s: Sys)
    requires Inv(s) && s.c.fetched == 4
    ensures var c := Consume(s.p, s.c);
      if s.c.index < Slots(s.p)
      then |s.c.consumed| < |s.p.pushed|
           && c.consumed == s.c.consumed + [s.p.pushed[|s.c.consumed|]] && c.index == s.c.index + 1
      else c.consumed == s.c.consumed && c.index == 0 && |s.c.consumed| == s.p.lap
  {
    OwnedSlot(s);
    LinkFacts(s.p.base);
    assert Payload(s.c.got) == Payload(s.p.mem[s.c.index]);
  }

  /** One step of either side is an enqueue, a dequeue of the oldest TRB, or invisible. Only the
      store of a TRB's last word enqueues it, and a controller that is reading dequeues it whole. */
  lemma StepRefinesFifo(s: Sys, a: Action)
    requires Inv(s) && Enabled(s, a)
    ensures var t := Next(s, a);
      && |t.c.consumed| <= |t.p.pushed|
      && (Enqueues(s, a) ==> Queue(t) == Queue(s) + [Payload(s.pc.d)] && t.c == s.c)
      && (Dequeues(s, a) ==>
            && Queue(s) != [] && Queue(t) == Queue(s)[1..]
            && t.c.consumed == s.c.consumed + [Queue(s)[0]])
      && (!Enqueues(s, a) && !Dequeues(s, a) ==> Queue(t) == Queue(s) && t.c.consumed == s.c.consumed)
  {
    hide ProducerInv, ConsumerInv;
    ConsumedIsPrefix(s);
    if a == ConsumerStep && s.c.fetched == 4 {
      ExecuteDequeues(s);
    }
  }

  predicate InBounds(s: Sys) { s.p.writeIndex < |s.p.mem| && s.c.index < |s.p.mem| }

  /** `acts` is a run from s to t. */
  ghost predicate Runs(s: Sys, acts: seq<Action>, t: Sys)
    decreases |acts|
  {
    if acts == [] then s == t
    else InBounds(s) && Enabled(s, acts[0]) && Runs(Next(s, acts[0]), acts[1..], t)
  }

  /** The TRBs a run hands to `Ring::Push`. */
  function Pushes(acts: seq<Action>): seq<Trb> {
    if acts == [] then []
    else (if acts[0].BeginPush? then [Payload(acts[0].d)] else []) + Pushes(acts[1..])
  }

  /** Everything handed to `Ring::Push` up to this state. */
  function Begun(s: Sys): seq<Trb> {
    s.p.pushed + (if s.pc.Data? && s.pc.k < 4 then [Payload(s.pc.d)] else [])
  }

  lemma StepBegins(s: Sys, a: Action)
    requires InBounds(s) && Enabled(s, a)
    ensures Begun(Next(s, a)) == Begun(s) + (if a.BeginPush? then [Payload(a.d)] else [])
  {
  }

  lemma {:induction false} RunKeepsInv(s: Sys, acts: seq<Action>, t: Sys)
    requires Inv(s) && Runs(s, acts, t)
    ensures Inv(t) && Begun(t) == Begun(s) + Pushes(acts)
    decreases |acts|
  {
    hide ProducerInv, ConsumerInv, Next, Begun;
    if acts == [] {
      assert Pushes(acts) == [];
    } else {
      var a := acts[0];
      NextKeepsInv(s, a);
      StepBegins(s, a);
      var begun: seq<Trb> := if a.BeginPush? then [Payload(a.d)] else [];
      assert Begun(s) + begun + Pushes(acts[1..]) == Begun(s) + (begun + Pushes(acts[1..]));
      RunKeepsInv(Next(s, a), acts[1..], t);
    }
  }

  /** Main theorem: in every run of every ring of at least three TRBs the controller stays on the
      ring and consumes exactly the TRBs handed to `Push`, in order, once each and whole. */
  lemma FifoTheorem(base: addr, bufSize: nat, acts: seq<Action>, t: Sys)
    requires bufSize >= 3 && base % 16 == 0
    requires Runs(Init(base, bufSize), acts, t)
    ensures Inv(t) && InBounds(t) && !t.c.lost
    ensures t.c.consumed <= Pushes(acts)
    ensures t.c.from <= t.p.at
    ensures t.pc.Idle? ==> t.c.consumed + Queue(t) == Pushes(acts)
  {
    InitInv(base, bufSize);
    RunKeepsInv(Init(base, bufSize), acts, t);
    assert Begun(t) == Pushes(acts);
    assert t.c.consumed <= t.p.pushed && t.p.pushed <= Begun(t);
  }

  // ---- progress

  /** The controller alone, n steps. */
  function ConsumeN(p: Producer, c: Consumer, n: nat): Consumer
    requires c.index < |p.mem|
    decreases n
  {
    if n == 0 then c else ConsumeN(p, Consume(p, c), n - 1)
  }

  /** Controller steps left until the queue is empty: five for each TRB, five for a Link TRB. */
  function StepsLeft(s: Sys): int
    requires |s.c.consumed| <= |s.p.pushed|
  {
    5 * |Queue(s)| + (if |s.c.consumed| - s.c.index == s.p.lap then 0 else 5) - s.c.fetched
  }

  /** Between pushes, a controller with TRBs left to consume finds its cycle bit. */
  lemma QueuedIsOwned(s: Sys)
    requires Inv(s) && s.pc.Idle? && |s.c.consumed| < |s.p.pushed|
    ensures s.p.mem[s.c.index].cycle == s.c.cycleState
    ensures s.c.index == Slots(s.p) ==> |s.c.consumed| == s.p.lap
    ensures s.c.index < Slots(s.p) ==>
              (|s.c.consumed| + 1 - (s.c.index + 1) == s.p.lap <==> |s.c.consumed| - s.c.index == s.p.lap)
  {
  }

  lemma ConsumeMakesProgress(s: Sys)
    requires Inv(s) && s.pc.Idle? && Queue(s) != []
    ensures Inv(Next(s, ConsumerStep)) && StepsLeft(Next(s, ConsumerStep)) == StepsLeft(s) - 1
    ensures Queue(Next(s, ConsumerStep)) == [] ==>
              Next(s, ConsumerStep).c.fetched == 0 && Next(s, ConsumerStep).c.index > 0
  {
    hide ProducerInv, ConsumerInv;
    ConsumedIsPrefix(s);
    QueuedIsOwned(s);
    ConsumeKeepsInv(s);
    if s.c.fetched == 4 {
      ExecuteDequeues(s);
    }
  }

  lemma {:induction false} DrainSteps(s: Sys) returns (n: nat)
    requires Inv(s) && s.pc.Idle?
    ensures n <= if Queue(s) == [] then 0 else StepsLeft(s)
    ensures ConsumeN(s.p, s.c, n).consumed == s.p.pushed
    ensures Queue(s) != [] ==> ConsumeN(s.p, s.c, n).fetched == 0 && ConsumeN(s.p, s.c, n).index > 0
    decreases StepsLeft(s)
  {
    hide ProducerInv, ConsumerInv, Consume;
    ConsumedIsPrefix(s);
    if Queue(s) == [] {
      n := 0;
    } else {
      ConsumeMakesProgress(s);
      var t := Next(s, ConsumerStep);
      ConsumedIsPrefix(t);
      var m := DrainSteps(t);
      n := m + 1;
    }
  }

  /** Once software is between pushes, the controller on its own consumes all that is queued, in
      at most five steps a TRB and five for the Link TRB; it is never stuck on a stale cycle bit. */
  lemma {:induction false} Drains(s: Sys) returns (n: nat)
    requires Inv(s) && s.pc.Idle?
    ensures n <= 5 * |Queue(s)| + 5
    ensures ConsumeN(s.p, s.c, n).consumed == s.p.pushed
  {
    n := DrainSteps(s);
  }
}
