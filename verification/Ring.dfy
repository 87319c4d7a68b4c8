/** The class `Ring` itself, with the controller running between any two of its stores. */
module Rings {
  import opened Trbs
  import opened ProducerRing
  import opened RingPush

  class Ring {
    const base: addr
    var buf: array<Trb>
    var writeIndex: nat
    var cycleBit: bool

    // History of the ring, the program point inside Push, and the controller on the other side.
    ghost var lap: nat
    ghost var pushed: seq<Trb>
    ghost var at: seq<nat>
    ghost var pc: Pc
    ghost var controller: Consumer

    /** The ring and its controller as a state of the interleaved system. */
    ghost function View(): Sys
      reads this, buf
    {
      Sys(Producer(base, buf[..], writeIndex, cycleBit, lap, pushed, at), pc, controller)
    }

    ghost predicate Valid()
      reads this, buf
    {
      Inv(View())
    }

    /** Initialize: a zeroed buffer from the allocator, index 0, cycle bit 1. */
    constructor (base: addr, bufSize: nat)
      requires bufSize >= 3 && base % 16 == 0
      ensures Valid() && fresh(buf) && View() == Init(base, bufSize)
    {
      this.base := base;
      cycleBit := true;
      writeIndex := 0;
      buf := new Trb[bufSize](_ => BLANK);
      lap, pushed, at, pc, controller := 0, [], [], Idle, CONSUMER_START;
      new;
      assert buf[..] == seq(bufSize, _ => BLANK);
      InitInv(base, bufSize);
    }

    /** The controller takes any number of steps. */
    ghost method Interfere()
      requires Valid()
      modifies this`controller
      ensures Valid() && old(controller.consumed) <= controller.consumed
    {
      hide ProducerInv, ConsumerInv, Consume;
      var steps: nat :| true;
      while steps > 0
        invariant Valid() && old(controller.consumed) <= controller.consumed
      {
        ConsumerAdvances(View());
        controller := Consume(View().p, controller);
        steps := steps - 1;
      }
    }

    /** Moves the program point past the store or assignment just made: the state reached is the
        next one of the interleaved system. Then the controller may run. */
    ghost method Step(before: Sys)
      requires Inv(before) && before.p.writeIndex < |before.p.mem|
      requires View() == before.(p := Produce(before.p, before.pc).0)
      modifies this`pc, this`controller
      ensures Valid() && (View().p, pc) == Produce(before.p, before.pc)
      ensures before.c.consumed <= controller.consumed
    {
      hide ProducerInv, ConsumerInv, Produce;
      ConsumedIsPrefix(before);
      ProduceKeepsInv(before);
      pc := Produce(before.p, before.pc).1;
      assert View() == Next(before, ProducerStep);
      Interfere();
    }

    /** One 32-bit store of the TRB being pushed, or of the Link TRB. */
    method Store(k: nat, data: Trb)
      requires Valid() && writeIndex < buf.Length
      requires pc == Data(k, data) || (pc == Link(k) && data == LinkTo(base))
      requires k < 4
      modifies this`pc, this`pushed, this`at, this`lap, this`controller, buf
      ensures Valid() && old(controller.consumed) <= controller.consumed
      ensures (View().p, pc) == Produce(old(View().p), old(pc))
    {
      hide Inv, LinkTo;
      ghost var before := View();
      buf[writeIndex] := buf[writeIndex].Store(k, if k < 3 then data else Stamp(data, cycleBit));
      if k == 3 {
        if pc.Link? {
          lap := lap + buf.Length - 1;
        } else {
          pushed, at := pushed + [Payload(data)], at + [writeIndex];
        }
      }
      assert View().p.mem == StoreWord(before.p, k, data).mem;
      Step(before);
    }

    /** data[0..2] are stored before data[3], which carries the cycle bit. */
    method CopyToLast(data: Trb)
      requires Valid() && writeIndex < buf.Length
      requires pc == Data(0, data) || (pc == Link(0) && data == LinkTo(base))
      modifies this`pc, this`pushed, this`at, this`lap, this`controller, buf
      ensures Valid() && old(controller.consumed) <= controller.consumed
      ensures (View().p, pc) == ProduceN(old(View().p), old(pc), 4)
      ensures pc == if old(pc).Link? then Link(4) else Data(4, data)
    {
      hide Inv, LinkTo, ProduceN;
      ghost var p, start := View().p, pc;
      ProduceZero(p, start);
      for i := 0 to 3
        invariant Valid() && old(controller.consumed) <= controller.consumed
        invariant pc == if start.Link? then Link(i) else Data(i, data)
        invariant (View().p, pc) == ProduceN(p, start, i)
      {
        OneMore(p, start, i, View().p, pc);
        Store(i, data);
      }
      OneMore(p, start, 3, View().p, pc);
      Store(3, data);
    }

    /** Appends a TRB, and the Link TRB after the last slot; `slot` stands for the returned pointer.
        Whatever the controller does meanwhile, the ring ends as one atomic push leaves it. */
    method Push(data: Trb) returns (slot: nat)
      requires Valid() && pc.Idle? && data.ctl.ty != LINK
      requires Outstanding(View()) < buf.Length - 2
      modifies this, buf
      ensures Valid() && pc.Idle? && buf == old(buf) && slot == old(writeIndex) < buf.Length
      ensures View().p == RingPush.Push(old(View().p), data)
      ensures old(controller.consumed) <= controller.consumed
    {
      hide ProducerInv, ConsumerInv, LinkTo, ProduceN;
      ghost var p := View().p;
      ConsumedIsPrefix(View());
      NextKeepsInv(View(), BeginPush(data));
      StepsMakePush(p, data);
      slot := writeIndex;
      pc := Data(0, data);
      hide Inv;
      CopyToLast(data);
      ghost var before := View();
      OneMore(p, Data(0, data), 4, before.p, pc);
      writeIndex := writeIndex + 1;
      Step(before);
      if writeIndex == buf.Length - 1 {
        ProduceNAdds(p, Data(0, data), 5, 4);
        CopyToLast(LinkTo(base));
        before := View();
        OneMore(p, Data(0, data), 9, before.p, pc);
        writeIndex := 0;
        cycleBit := !cycleBit;
        Step(before);
      }
    }
  }

  lemma ConsumerAdvances(s: Sys)
    requires Inv(s)
    ensures s.c.index < |s.p.mem| && Inv(s.(c := Consume(s.p, s.c)))
    ensures s.c.consumed <= Consume(s.p, s.c).consumed
  {
    hide ProducerInv, ConsumerInv;
    ConsumedIsPrefix(s);
    ConsumeKeepsInv(s);
  }
}
