/** The class `EventRing` and `ProcessEvent`, with the controller writing events between any two of
    their steps. */
module EventLoop {
  import opened Trbs
  import opened EventRings

  /** What `ProcessEvent` does with an event, by its trb_type. */
  datatype Route = ToTransfer | ToPortStatus | ToCommandCompletion | NoHandler

  function RouteOf(t: Trb): Route {
    if t.ctl.ty == TRANSFER_EVENT then ToTransfer
    else if t.ctl.ty == PORT_STATUS_CHANGE_EVENT then ToPortStatus
    else if t.ctl.ty == COMMAND_COMPLETION_EVENT then ToCommandCompletion
    else NoHandler
  }

  /** trb_type as it lies in memory: bits 10 to 15 of the last word. */
  function TypeBits(t: Trb): nat
    requires t.ctl.Fits()
  {
    t.LastWord() / 0x400 % 0x40
  }

  lemma TypeIsBits(t: Trb)
    requires t.ctl.Fits()
    ensures TypeBits(t) == t.ctl.ty
  {
    var rest := (if t.cycle then 1 else 0) + 2 * t.ctl.flags;
    assert t.LastWord() == rest + 0x400 * (t.ctl.ty + 0x40 * t.ctl.high);
    Quotient(rest, t.ctl.ty + 0x40 * t.ctl.high);
  }

  lemma Quotient(r: nat, q: nat)
    requires r < 0x400
    ensures (r + 0x400 * q) / 0x400 == q
  {
  }

  /** Type 32 goes to the transfer handler, 34 to the port handler, 33 to the command handler, and every
      other type to none. */
  predicate RoutedByType(t: Trb, r: Route) {
    t.ctl.Fits() ==>
      && (r == ToTransfer <==> TypeBits(t) == 32)
      && (r == ToPortStatus <==> TypeBits(t) == 34)
      && (r == ToCommandCompletion <==> TypeBits(t) == 33)
  }

  lemma PayloadRoute(t: Trb)
    ensures RouteOf(Payload(t)) == RouteOf(t) && RoutedByType(Payload(t), RouteOf(t))
  {
    RouteIsByType(Payload(t));
    hide RoutedByType;
  }

  lemma RouteIsByType(t: Trb)
    ensures RoutedByType(t, RouteOf(t))
  {
    if t.ctl.Fits() {
      TypeIsBits(t);
    }
    hide TypeBits;
  }

  datatype Outcome = NoEvent | Routed(route: Route, failed: bool)

  class EventRing {
    const base: addr
    var buf: array<Trb>
    var erdp: Erdp
    var cycleBit: bool

    // The controller on the other side of the segment.
    var source: Source

    // The program point in ProcessEvent, and the events handled so far.
    ghost var phase: Phase
    ghost var handled: seq<Trb>

    ghost function View(): EventRings.Sys
      reads this, buf
    {
      EventRings.Sys(base, buf[..], source, Driver(erdp, cycleBit, phase, handled))
    }

    ghost predicate Valid()
      reads this, buf
    {
      Inv(View())
    }

    /** Initialize: a zeroed segment, cycle bit 1, ERDP at its first TRB. */
    constructor (base: addr, bufSize: nat, erdp: Erdp)
      requires bufSize >= 2 && base % 64 == 0 && base + 16 * bufSize < 0x1_0000_0000_0000_0000
      ensures Valid() && fresh(buf) && View() == Init(base, bufSize, erdp.low)
    {
      this.base := base;
      cycleBit := true;
      buf := new Trb[bufSize](_ => BLANK);
      this.erdp := erdp.SetPointer(base);
      source, phase, handled := Source(0, true, false, 0, BLANK, 0, []), Polling, [];
      new;
      assert buf[..] == seq(bufSize, _ => BLANK);
      InitInv(base, bufSize, erdp.low);
    }

    /** One step of the controller: start writing event e if there is room, or store a word. */
    method ControllerMoves(e: Trb)
      requires Valid()
      modifies this`source, buf
      ensures Valid() && old(source.produced) <= source.produced
    {
      hide SourceInv, DriverInv;
      ghost var s := View();
      FrontIsOldest(s);
      if source.writing {
        NextKeepsInv(s, ControllerStep);
        ghost var t := Next(s, ControllerStep);
        var slot := source.index;
        buf[slot] := buf[slot].Store(source.k, Stamp(source.event, source.cycleState));
        if source.k < 3 {
          source := source.(k := source.k + 1);
        } else {
          source := source.(writing := false, k := 0, produced := source.produced + [Payload(source.event)]);
          source := if slot + 1 == buf.Length
                    then source.(index := 0, cycleState := !source.cycleState, lap := source.lap + buf.Length)
                    else source.(index := slot + 1);
        }
        assert buf[..] == t.mem;
        assert View() == t;
      } else if (if source.index + 1 == buf.Length then 0 else source.index + 1) != SlotOf(base, erdp.Pointer()) {
        NextKeepsInv(s, BeginEvent(e));
        source := source.(writing := true, k := 0, event := e);
        assert View() == Next(s, BeginEvent(e));
      }
    }

    /** The controller takes any number of steps, writing events of its choosing. */
    method Interfere()
      requires Valid()
      modifies this`source, buf
      ensures Valid() && old(source.produced) <= source.produced
    {
      hide Inv;
      var steps: nat := *;
      while steps > 0
        invariant Valid() && old(source.produced) <= source.produced
      {
        var e: Trb := *;
        ControllerMoves(e);
        steps := steps - 1;
      }
    }

    /** HasFront: the cycle bit of the TRB at ERDP. */
    method HasFront() returns (b: bool)
      requires Valid()
      ensures b <==> Popped(View().drv) < |source.produced|
    {
      FrontIsOldest(View());
      hide SourceInv, DriverInv;
      b := buf[SlotOf(base, erdp.Pointer())].cycle == cycleBit;
    }

    /** Front: the oldest event that is not popped yet, complete. */
    method Front() returns (t: Trb)
      requires Valid() && Popped(View().drv) < |source.produced|
      ensures Payload(t) == source.produced[Popped(View().drv)]
    {
      FrontIsOldest(View());
      hide SourceInv, DriverInv;
      t := buf[SlotOf(base, erdp.Pointer())];
    }

    /** Pop: ERDP moves to the next TRB, back to the first after the last. */
    method Pop()
      requires Valid() && phase == Handled
      modifies this`erdp, this`cycleBit, this`phase
      ensures Valid() && View().drv == EventRings.Pop(base, buf.Length, old(View().drv))
      ensures phase == Polling && Popped(View().drv) == old(Popped(View().drv)) + 1
      ensures erdp.low == old(erdp.low)
    {
      ghost var s := View();
      FrontIsOldest(s);
      DriveKeepsInv(s);
      hide SourceInv, DriverInv;
      var p := erdp.Pointer() + 16;
      if p == base + 16 * buf.Length {
        p := base;
        cycleBit := !cycleBit;
      }
      erdp := erdp.SetPointer(p);
      phase := Polling;
      assert View() == Drive(s);
    }

    /** Handles at most one event: none if none is waiting, otherwise the oldest one, once, by its
        type. It is popped on every path, whatever its type and whether or not its handler
        (`handlerFails`) returns an error. */
    method ProcessEvent(handlerFails: bool) returns (outcome: Outcome)
      requires Valid() && phase == Polling
      modifies this, buf
      ensures Valid() && phase == Polling && buf == old(buf)
      ensures old(source.produced) <= source.produced
      ensures |old(handled)| < |old(source.produced)| ==> outcome.Routed?
      ensures outcome.NoEvent? ==> handled == old(handled)
      ensures outcome.Routed? ==>
                && |old(handled)| < |source.produced|
                && var event := source.produced[|old(handled)|];
                   && handled == old(handled) + [event]
                   && outcome.route == RouteOf(event) && RoutedByType(event, outcome.route)
                   && outcome.failed == (outcome.route == NoHandler || handlerFails)
    {
      hide SourceInv, DriverInv, RouteOf, RoutedByType;
      FrontIsOldest(View());
      var hasFront := HasFront();
      if !hasFront {
        return NoEvent;
      }
      DriveKeepsInv(View());
      phase := Seen;
      Interfere();
      FrontIsOldest(View());
      StillWaiting(View());
      var event := Front();
      DriveKeepsInv(View());
      handled := handled + [Payload(event)];
      phase := Handled;
      PayloadRoute(event);
      outcome := Routed(RouteOf(event), RouteOf(event) == NoHandler || handlerFails);
      Interfere();
      Pop();
      Interfere();
    }
  }

  /** An event seen stays in front until it is popped. */
  lemma StillWaiting(s: EventRings.Sys)
    requires Inv(s) && s.drv.phase == Seen
    ensures Popped(s.drv) < |s.src.produced|
  {
    hide SourceInv;
  }
}
