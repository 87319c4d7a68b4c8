/** `Ring::Push` as one operation: what a complete push leaves in the ring, how long a TRB can be
    read back from its slot, and why buf_size - 2 outstanding TRBs is the most a ring can take. */
module RingPush {
  import opened Trbs
  import opened ProducerRing

  /** Will the next push write the last slot before the Link TRB? */
  predicate Wraps(p: Producer) { p.writeIndex + 1 == |p.mem| - 1 }

  /** The ring after `Push(d)`; the TRB goes to slot `p.writeIndex`. */
  function Push(p: Producer, d: Trb): (r: Producer)
    requires p.writeIndex < |p.mem|
    ensures |r.mem| == |p.mem|
    ensures 0 <= p.writeIndex < |p.mem| - 1 ==> r.writeIndex < |p.mem| - 1
  {
    var q := p.(mem := p.mem[p.writeIndex := Stamp(d, p.cycleBit)], writeIndex := p.writeIndex + 1,
                pushed := p.pushed + [Payload(d)], at := p.at + [p.writeIndex]);
    if Wraps(p) then
      q.(mem := q.mem[q.writeIndex := Stamp(LinkTo(p.base), p.cycleBit)],
         writeIndex := 0, cycleBit := !p.cycleBit, lap := p.lap + |p.mem| - 1)
    else q
  }

  /** n steps of software. */
  function ProduceN(p: Producer, pc: Pc, n: nat): (Producer, Pc)
    requires p.writeIndex < |p.mem|
    decreases n
  {
    if n == 0 then (p, pc)
    else
      var (q, qc) := ProduceN(p, pc, n - 1);
      if q.writeIndex < |q.mem| then Produce(q, qc) else (q, qc)
  }

  /** Steps from the call of `Push` to its return. */
  function PushSteps(p: Producer): nat { if Wraps(p) then 10 else 5 }

  /** Four word stores write the whole TRB with the ring's cycle bit. */
  lemma FourStores(p: Producer, d: Trb)
    requires p.writeIndex < |p.mem|
    ensures StoreWord(StoreWord(StoreWord(StoreWord(p, 0, d), 1, d), 2, d), 3, d)
            == p.(mem := p.mem[p.writeIndex := Stamp(d, p.cycleBit)])
  {
  }

  /** The last word, as a 32-bit number, of the slot being written after its store. */
  function WordStored(p: Producer, d: Trb): word
    requires p.writeIndex < |p.mem| && d.ctl.Fits()
  {
    StoreWord(p, 3, d).mem[p.writeIndex].LastWord()
  }

  /** It is the caller's last word with bit 0 replaced by the cycle bit; the other words stay. */
  lemma LastWordStored(p: Producer, d: Trb)
    requires p.writeIndex < |p.mem| && d.ctl.Fits()
    ensures WordStored(p, d) == d.LastWord() / 2 * 2 + (if p.cycleBit then 1 else 0)
    ensures var t := StoreWord(p, 3, d).mem[p.writeIndex];
      t.w0 == p.mem[p.writeIndex].w0 && t.w1 == p.mem[p.writeIndex].w1 && t.w2 == p.mem[p.writeIndex].w2
  {
    StampFacts(d, p.cycleBit);
  }

  /** The Link TRB's: toggle cycle in bit 1, the type, and the cycle bit. */
  lemma LinkWordStored(p: Producer, base: addr)
    requires p.writeIndex < |p.mem|
    ensures LinkTo(base).ctl.Fits()
    ensures WordStored(p, LinkTo(base)) == (if p.cycleBit then 1 else 0) + 0x2 + 0x1800
    ensures LinkTo(base).w2 == 0
    ensures base % 16 == 0 ==> LinkTo(base).w0 + 0x1_0000_0000 * LinkTo(base).w1 == base
  {
    LastWordStored(p, LinkTo(base));
    LinkFacts(base);
    hide WordStored;
  }

  /** One more step of software. */
  lemma OneMore(p: Producer, pc: Pc, n: nat, q: Producer, qc: Pc)
    requires p.writeIndex < |p.mem| && ProduceN(p, pc, n) == (q, qc) && q.writeIndex < |q.mem|
    ensures ProduceN(p, pc, n + 1) == Produce(q, qc)
  {
  }

  lemma DataSteps(p: Producer, d: Trb, n: nat)
    requires p.writeIndex < |p.mem| && n == 5
    ensures ProduceN(p, Data(0, d), n)
            == (p.(mem := p.mem[p.writeIndex := Stamp(d, p.cycleBit)], writeIndex := p.writeIndex + 1,
                   pushed := p.pushed + [Payload(d)], at := p.at + [p.writeIndex]),
                if Wraps(p) then Link(0) else Idle)
  {
    hide ProduceN;
    var p1 := StoreWord(p, 0, d);
    var p2 := StoreWord(p1, 1, d);
    var p3 := StoreWord(p2, 2, d);
    var p4 := StoreWord(p3, 3, d).(pushed := p.pushed + [Payload(d)], at := p.at + [p.writeIndex]);
    FourStores(p, d);
    ProduceZero(p, Data(0, d));
    OneMore(p, Data(0, d), n - 5, p, Data(0, d));
    OneMore(p, Data(0, d), n - 4, p1, Data(1, d));
    OneMore(p, Data(0, d), n - 3, p2, Data(2, d));
    OneMore(p, Data(0, d), n - 2, p3, Data(3, d));
    OneMore(p, Data(0, d), n - 1, p4, Data(4, d));
  }

  lemma ProduceZero(p: Producer, pc: Pc)
    requires p.writeIndex < |p.mem|
    ensures ProduceN(p, pc, 0) == (p, pc)
  {
  }

  lemma LinkSteps(p: Producer, n: nat)
    requires p.writeIndex < |p.mem| && n == 5
    ensures ProduceN(p, Link(0), n)
            == (p.(mem := p.mem[p.writeIndex := Stamp(LinkTo(p.base), p.cycleBit)],
                   lap := p.lap + |p.mem| - 1, writeIndex := 0, cycleBit := !p.cycleBit), Idle)
  {
    hide LinkTo, ProduceN;
    var d := LinkTo(p.base);
    var p1 := StoreWord(p, 0, d);
    var p2 := StoreWord(p1, 1, d);
    var p3 := StoreWord(p2, 2, d);
    var p4 := StoreWord(p3, 3, d).(lap := p.lap + |p.mem| - 1);
    FourStores(p, d);
    ProduceZero(p, Link(0));
    OneMore(p, Link(0), n - 5, p, Link(0));
    OneMore(p, Link(0), n - 4, p1, Link(1));
    OneMore(p, Link(0), n - 3, p2, Link(2));
    OneMore(p, Link(0), n - 2, p3, Link(3));
    OneMore(p, Link(0), n - 1, p4, Link(4));
  }

  /** Running m + n steps is running m and then n. */
  lemma ProduceNAdds(p: Producer, pc: Pc, m: nat, n: nat)
    requires p.writeIndex < |p.mem|
    requires ProduceN(p, pc, m).0.writeIndex < |ProduceN(p, pc, m).0.mem|
    ensures ProduceN(p, pc, m + n) == ProduceN(ProduceN(p, pc, m).0, ProduceN(p, pc, m).1, n)
    decreases n
  {
    hide Produce;
    if n > 0 {
      ProduceNAdds(p, pc, m, n - 1);
    }
  }

  lemma ProduceNKeeps(p: Producer, pc: Pc, n: nat)
    requires ProducerInv(p, pc) && p.writeIndex < |p.mem|
    ensures ProducerInv(ProduceN(p, pc, n).0, ProduceN(p, pc, n).1)
    decreases n
  {
    hide Produce, ProducerInv;
    if n > 0 {
      ProduceNKeeps(p, pc, n - 1);
      var (q, qc) := ProduceN(p, pc, n - 1);
      if q.writeIndex < |q.mem| {
        ProduceKeepsProducer(q, qc);
      }
    }
  }

  lemma BeginKeepsProducer(p: Producer, d: Trb)
    requires ProducerInv(p, Idle) && d.ctl.ty != LINK
    ensures ProducerInv(p, Data(0, d)) && p.writeIndex + 1 < |p.mem|
  {
    hide Unmarked, History;
  }

  /** The word-by-word steps of `Push` add up to one operation that keeps the ring's invariant. */
  lemma StepsMakePush(p: Producer, d: Trb)
    requires ProducerInv(p, Idle) && d.ctl.ty != LINK
    ensures p.writeIndex < |p.mem|
    ensures ProduceN(p, Data(0, d), PushSteps(p)) == (Push(p, d), Idle)
    ensures ProducerInv(Push(p, d), Idle)
  {
    hide Shape, Layout, History, LinkTo, ProduceN;
    BeginKeepsProducer(p, d);
    var n := PushSteps(p) - (if Wraps(p) then 5 else 0);
    DataSteps(p, d, n);
    if Wraps(p) {
      ProduceNAdds(p, Data(0, d), n, PushSteps(p) - n);
      LinkSteps(ProduceN(p, Data(0, d), n).0, PushSteps(p) - n);
    }
    ProduceNKeeps(p, Data(0, d), PushSteps(p));
  }

  /** A TRB can be read back from its slot until a whole ring of further TRBs has been pushed, and
      until then no other TRB occupies that slot. */
  lemma Retained(p: Producer, j: nat, k: nat)
    requires ProducerInv(p, Idle)
    requires |p.pushed| - Slots(p) <= j <= k < |p.pushed|
    ensures p.at[j] < Slots(p) && Payload(p.mem[p.at[j]]) == p.pushed[j]
    ensures j < k ==> p.at[j] != p.at[k]
  {
  }

  /** Consecutive TRBs sit in consecutive slots, the last slot being followed by slot 0. */
  lemma Successor(p: Producer, j: nat)
    requires ProducerInv(p, Idle)
    requires |p.pushed| - Slots(p) <= j && j + 1 < |p.pushed|
    ensures p.at[j + 1] == if p.at[j] + 1 == Slots(p) then 0 else p.at[j] + 1
  {
  }

  // ---- buf_size - 2 is the exact bound

  /** The controller has consumed a whole lap and not yet followed the Link TRB. */
  predicate ParkedOnLink(s: Sys) { s.c.index == Slots(s.p) && s.c.fetched == 0 }

  /** One TRB beyond the bound: the controller is stuck, with a full ring in front of it, exactly
      when it was parked on the Link TRB, whose cycle bit the push has just flipped away. */
  lemma OneTooMany(s: Sys, d: Trb)
    requires Inv(s) && s.pc.Idle? && d.ctl.ty != LINK && Outstanding(s) == Slots(s.p) - 1
    ensures s.p.writeIndex < |s.p.mem| && s.c.index < |s.p.mem|
    ensures Consume(Push(s.p, d), s.c) == s.c <==> ParkedOnLink(s)
  {
    hide LinkTo, History;
    var p, c := s.p, s.c;
    if |c.consumed| - c.index == p.lap {
      assert c.index == 0 && Wraps(p);
    } else {
      assert c.index == Written(p) + 1;
      assert Wraps(p) <==> c.index == Slots(p);
    }
  }

  /** A stuck controller stays stuck. */
  lemma {:induction false} StuckForever(p: Producer, c: Consumer, n: nat)
    requires c.index < |p.mem| && Consume(p, c) == c
    ensures ConsumeN(p, c, n) == c
    decreases n
  {
    if n > 0 {
      StuckForever(p, c, n - 1);
    }
  }

  // ---- the parked state is reachable, so the bound cannot be raised

  lemma {:induction false} RunsAppend(s: Sys, a: seq<Action>, t: Sys, b: seq<Action>, u: Sys)
    requires Runs(s, a, t) && Runs(t, b, u)
    ensures Runs(s, a + b, u)
    decreases |a|
  {
    hide Next, Enabled;
    if a == [] {
      assert a + b == b;
    } else {
      RunsAppend(Next(s, a[0]), a[1..], t, b, u);
      assert (a + b)[1..] == a[1..] + b;
    }
  }

  lemma {:induction false} ProducerRuns(s: Sys, n: nat)
    requires Inv(s) && s.p.writeIndex < |s.p.mem|
    ensures Runs(s, seq(n, _ => ProducerStep),
                 Sys(ProduceN(s.p, s.pc, n).0, ProduceN(s.p, s.pc, n).1, s.c))
    decreases n
  {
    hide Inv, Produce;
    ConsumedIsPrefix(s);
    if n > 0 {
      ProduceKeepsInv(s);
      var t := Next(s, ProducerStep);
      ConsumedIsPrefix(t);
      ProducerRuns(t, n - 1);
      ProduceZero(s.p, s.pc);
      OneMore(s.p, s.pc, n - n, s.p, s.pc);
      ProduceNAdds(s.p, s.pc, 1, n - 1);
      assert seq(n, _ => ProducerStep)[1..] == seq(n - 1, _ => ProducerStep);
    }
  }

  lemma {:induction false} ConsumerRuns(s: Sys, n: nat)
    requires Inv(s) && s.c.index < |s.p.mem|
    ensures Runs(s, seq(n, _ => ConsumerStep), s.(c := ConsumeN(s.p, s.c, n)))
    ensures Inv(s.(c := ConsumeN(s.p, s.c, n)))
    decreases n
  {
    hide Inv, Consume;
    ConsumedIsPrefix(s);
    if n > 0 {
      ConsumeKeepsInv(s);
      ConsumerRuns(Next(s, ConsumerStep), n - 1);
      assert seq(n, _ => ConsumerStep)[1..] == seq(n - 1, _ => ConsumerStep);
    }
  }

  /** A complete push with an idle controller, as a run. */
  lemma PushRuns(s: Sys, d: Trb) returns (acts: seq<Action>)
    requires Inv(s) && s.pc.Idle? && d.ctl.ty != LINK && Outstanding(s) < Slots(s.p) - 1
    ensures s.p.writeIndex < |s.p.mem|
    ensures Runs(s, acts, s.(p := Push(s.p, d))) && Inv(s.(p := Push(s.p, d)))
  {
    hide ProducerInv, ConsumerInv, Produce, ProduceN;
    ConsumedIsPrefix(s);
    NextKeepsInv(s, BeginPush(d));
    var t := Next(s, BeginPush(d));
    ProducerRuns(t, PushSteps(s.p));
    StepsMakePush(s.p, d);
    var u := s.(p := Push(s.p, d));
    var steps := seq(PushSteps(s.p), _ => ProducerStep);
    acts := [BeginPush(d)] + steps;
    assert acts[1..] == steps;
    RunKeepsInv(s, acts, u);
  }

  /** Where a controller stands that has executed all of the first i TRBs and nothing more. */
  lemma CaughtUp(s: Sys, i: nat)
    requires Inv(s) && s.pc.Idle? && |s.p.pushed| == |s.c.consumed| == i <= Slots(s.p)
    requires i > 0 ==> s.c.index > 0
    ensures s.c.index == i
  {
    hide Layout, History;
  }

  /** A lap consumed as fast as it is pushed: the controller ends up parked on the Link TRB. */
  lemma {:induction false} LockStep(base: addr, bufSize: nat, i: nat) returns (acts: seq<Action>, s: Sys)
    requires bufSize >= 3 && base % 16 == 0 && i <= bufSize - 1
    ensures Runs(Init(base, bufSize), acts, s) && Inv(s) && s.pc.Idle? && |s.p.mem| == bufSize
    ensures |s.p.pushed| == |s.c.consumed| == i && s.c.fetched == 0 && s.c.index == i
    decreases i
  {
    hide ProducerInv, ConsumerInv, Consume;
    InitInv(base, bufSize);
    acts, s := [], Init(base, bufSize);
    if i > 0 {
      acts, s := LockStep(base, bufSize, i - 1);
      var more := PushRuns(s, BLANK);
      var t := s.(p := Push(s.p, BLANK));
      RunsAppend(Init(base, bufSize), acts, s, more, t);
      acts, s := acts + more, t;
      ConsumedIsPrefix(s);
      var n := DrainSteps(s);
      ConsumerRuns(s, n);
      t := s.(c := ConsumeN(s.p, s.c, n));
      RunsAppend(Init(base, bufSize), acts, s, seq(n, _ => ConsumerStep), t);
      acts, s := acts + seq(n, _ => ConsumerStep), t;
      CaughtUp(s, i);
    }
  }

  /** k pushes while the controller does not move. */
  lemma {:induction false} FillUp(s: Sys, k: nat) returns (acts: seq<Action>, t: Sys)
    requires Inv(s) && s.pc.Idle? && Outstanding(s) + k <= Slots(s.p) - 1
    ensures Runs(s, acts, t) && Inv(t) && t.pc.Idle? && t.c == s.c && |t.p.mem| == |s.p.mem|
    ensures Outstanding(t) == Outstanding(s) + k
    decreases k
  {
    hide ProducerInv, ConsumerInv;
    acts, t := [], s;
    if k > 0 {
      var more := PushRuns(s, BLANK);
      var u := s.(p := Push(s.p, BLANK));
      acts, t := FillUp(u, k - 1);
      RunsAppend(s, more, u, acts, t);
      acts := more + acts;
    }
  }

  /** For every ring size there is a run, within the flow control, to a state where one more push
      leaves the controller stuck for good in front of a full ring. */
  lemma BoundIsExact(base: addr, bufSize: nat) returns (acts: seq<Action>, s: Sys)
    requires bufSize >= 3 && base % 16 == 0
    ensures Runs(Init(base, bufSize), acts, s) && Inv(s) && s.pc.Idle?
    ensures s.p.writeIndex < |s.p.mem| && s.c.index < |s.p.mem| && Outstanding(s) == bufSize - 2
    ensures forall d: Trb, n: nat | d.ctl.ty != LINK :: ConsumeN(Push(s.p, d), s.c, n) == s.c
  {
    hide ProducerInv, ConsumerInv, Consume;
    var acts0, s0 := LockStep(base, bufSize, bufSize - 1);
    var acts1, t := FillUp(s0, bufSize - 2);
    RunsAppend(Init(base, bufSize), acts0, s0, acts1, t);
    acts, s := acts0 + acts1, t;
    ConsumedIsPrefix(s);
    forall d: Trb, n: nat | d.ctl.ty != LINK
      ensures ConsumeN(Push(s.p, d), s.c, n) == s.c
    {
      OneTooMany(s, d);
      StuckForever(Push(s.p, d), s.c, n);
    }
  }
}
