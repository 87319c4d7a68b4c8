/** What every run of the port configuration protocol keeps. */
module PortTheorems {
  import opened Options
  import opened PortProtocol

  // ---- counting

  /** Commands whose keys are below n and all different are at most n many. */
  lemma {:induction false} Pigeonhole(cs: seq<Command>, n: nat)
    requires forall i | 0 <= i < |cs| :: 0 <= Key(cs[i]) < n
    requires forall i, j | 0 <= i < j < |cs| :: Key(cs[i]) != Key(cs[j])
    ensures |cs| <= n
    decreases n
  {
    var first := if cs == [] then 0 else Key(cs[0]);
    if n > 0 {
      if i :| 0 <= i < |cs| && Key(cs[i]) == n - 1 {
        Pigeonhole(cs[..i] + cs[i + 1..], n - 1);
      } else {
        Pigeonhole(cs, n - 1);
      }
    }
  }

  // ---- the command ring

  /** Commands pushed whose completion has not been handled. */
  function Outstanding(x: Xhc): int { |x.commands| - x.handled }

  /** At most nine commands are ever outstanding: one Enable Slot or Address Device, and one
      Configure Endpoint for each of the eight slots. */
  lemma AtMostNineOutstanding(maxPorts: nat, x: Xhc)
    requires Inv(maxPorts, x)
    ensures 0 <= Outstanding(x) <= 9
  {
    var cs := x.commands[x.handled..];
    forall i | 0 <= i < |cs| ensures 0 <= Key(cs[i]) < 9 {
      assert Awaited(x, x.commands[x.handled + i]);
    }
    forall i, j | 0 <= i < j < |cs| ensures Key(cs[i]) != Key(cs[j]) {
      var i', j' := x.handled + i, x.handled + j;
      assert Key(x.commands[i']) != Key(x.commands[j']);
    }
    hide *;
    Pigeonhole(cs, 9);
  }

  /** The slot id of a command, at most eight. */
  predicate SlotInRange(c: Command) { c.EnableSlot? || c.slot <= MAX_SLOTS }

  /** A handler issues at most one command. */
  lemma OneCommandPerStep(maxPorts: nat, x: Xhc, a: Action)
    requires Inv(maxPorts, x) && Enabled(maxPorts, x, a)
    ensures ContextPortsInRange(x)
    ensures AtMostOneMore(x.commands, Step(maxPorts, x, a).0.commands)
  {
    InvInRange(maxPorts, x);
    match a
    case Complete(connected) => CompletionCommands(x, connected); hide Inv, OnCommandCompletion, AtMostOneMore;
    case TransferEvent(slot, t, speed) => TransferCommands(x, slot, t, speed); hide Inv, OnTransferEvent, AtMostOneMore;
    case _ =>
      hide Inv;
      PortCommands(maxPorts, x, a);
      hide AtMostOneMore;
  }

  ghost predicate AtMostOneMore(before: seq<Command>, after: seq<Command>) {
    after == before || exists c :: after == before + [c] && SlotInRange(c)
  }

  lemma Appends(before: seq<Command>, c: Command)
    requires SlotInRange(c)
    ensures AtMostOneMore(before, before + [c])
  {
  }

  lemma PortCommands(maxPorts: nat, x: Xhc, a: Action)
    requires maxPorts < PORTS && Sized(x) && ContextPortsInRange(x) && Enabled(maxPorts, x, a)
    requires a.BootPort? || a.PortEvent? || a.Execute?
    ensures AtMostOneMore(x.commands, Step(maxPorts, x, a).0.commands)
  {
    Appends(x.commands, EnableSlot);
  }

  lemma TransferCommands(x: Xhc, slot: nat, t: Transfer, speed: nat)
    requires Sized(x) && ContextPortsInRange(x)
    ensures AtMostOneMore(x.commands, OnTransferEvent(x, slot, t, speed).0.commands)
  {
    if slot <= MAX_SLOTS {
      Appends(x.commands, ConfigureEndpoint(slot));
    }
  }

  lemma CompletionCommands(x: Xhc, connected: nat -> bool)
    requires Sized(x) && ContextPortsInRange(x)
    ensures forall issuer, slot :: AtMostOneMore(x.commands, OnCommandCompletion(x, issuer, slot, connected).0.commands)
  {
    forall issuer: nat, slot: nat
      ensures AtMostOneMore(x.commands, OnCommandCompletion(x, issuer, slot, connected).0.commands)
    {
      if slot <= MAX_SLOTS {
        Appends(x.commands, AddressDevice(slot));
      }
    }
  }

  // ---- the lock

  /** Inside the Address Device completion the exclusion is broken: after the lock has been handed
      on, the old port is still in AddressingDevice. The handler as a whole restores it. Without a slot
      the handler does not come that far. */
  lemma BrokenThenRestored(maxPorts: nat, x: Xhc, connected: nat -> bool)
    requires Inv(maxPorts, x) && Enabled(maxPorts, x, Complete(connected))
    requires x.commands[x.handled].AddressDevice?
    ensures ContextPortsInRange(x) && Sized(Step(maxPorts, x, Complete(connected)).0)
    ensures var mid, end := HandOff(x, connected).0, Step(maxPorts, x, Complete(connected)).0;
      x.commands[x.handled].slot != 0 ==>
        && Busy(mid.phase[x.addressingPort]) && !Exclusive(mid.phase, mid.addressingPort)
        && !Busy(end.phase[x.addressingPort]) && Exclusive(end.phase, end.addressingPort)
    ensures x.commands[x.handled].slot == 0 ==>
              Step(maxPorts, x, Complete(connected)) == (x.(handled := x.handled + 1), InvalidPhase)
  {
    AddressedFacts(maxPorts, x);
    AddressStep(maxPorts, x, connected);
    Excluded(maxPorts, x);
    Excluded(maxPorts, Step(maxPorts, x, Complete(connected)).0);
    HandOffBreaks(x, connected);
    hide Inv, Step, HandOff;
    IsExclusive(Step(maxPorts, x, Complete(connected)).0);
    HandedFrees(x, x.addressingPort, x.commands[x.handled].slot, connected);
    hide Exclusive, Handed;
  }

  /** The port that was addressed is not the one the lock names any more. */
  lemma HandOffBreaks(x: Xhc, connected: nat -> bool)
    requires Sized(x) && x.addressingPort != 0 && x.phase[x.addressingPort].AddressingDevice?
    ensures var mid := HandOff(x, connected).0;
      Sized(mid) && Busy(mid.phase[x.addressingPort]) && !Exclusive(mid.phase, mid.addressingPort)
  {
    var mid := HandOff(x, connected).0;
    assert mid.phase[x.addressingPort] == AddressingDevice && mid.addressingPort != x.addressingPort;
    hide HandOff;
  }

  lemma HandedFrees(x: Xhc, port: nat, slot: nat, connected: nat -> bool)
    requires Sized(x) && port < PORTS && slot <= MAX_SLOTS && x.devices[slot].Some?
    ensures var y := Handed(x, port, slot, NextInLine(x.phase, connected));
      Sized(y) && !Busy(y.phase[port])
  {
  }

  lemma IsExclusive(x: Xhc)
    requires Sized(x) && forall p: nat | p < PORTS :: Busy(x.phase[p]) <==> p == x.addressingPort != 0
    ensures Exclusive(x.phase, x.addressingPort)
  {
  }

  // ---- ports and slots

  /** The port a live slot was addressed for, as software wrote it. */
  predicate InSlot(x: Xhc, s: int, p: int)
    requires Sized(x)
  {
    0 <= s <= MAX_SLOTS && x.devices[s].Some? && x.devices[s].value.inputPort == p
  }

  /** Slots and ports match: no two live slots carry the same port, in either context; a port has a slot
      if and only if it is at or past AddressingDevice; past it, the device context, which the handlers
      read, says the same. Slot 0 is that of a port for which the controller had no slot. */
  ghost predicate Matched(x: Xhc)
    requires Sized(x)
  {
    && (forall s, t, p | InSlot(x, s, p) && InSlot(x, t, p) :: s == t)
    && (forall p: nat | p < PORTS :: Rank(x.phase[p]) >= 4 <==> exists s :: InSlot(x, s, p))
    && (forall s, p | InSlot(x, s, p) :: 0 < p < PORTS && x.devices[s].value.contextPort in {0, p})
    && (forall s, p | InSlot(x, s, p) && 0 < p < PORTS && Rank(x.phase[p]) > 4 :: x.devices[s].value.contextPort == p)
    && (forall p | InSlot(x, 0, p) :: p == x.addressingPort && x.phase[p].AddressingDevice?)
  }

  lemma WithoutSlot(maxPorts: nat, x: Xhc)
    requires Inv(maxPorts, x)
    ensures Sized(x) && forall p | InSlot(x, 0, p) :: p == x.addressingPort && x.phase[p].AddressingDevice?
  {
    hide PortsInRange, Pending;
  }

  lemma SlotsMatchPorts(maxPorts: nat, x: Xhc)
    requires Inv(maxPorts, x)
    ensures Sized(x) && Matched(x)
  {
    WithoutSlot(maxPorts, x);
    hide Exclusive, PortsInRange, Pending;
    forall p: nat | p < PORTS ensures Rank(x.phase[p]) >= 4 <==> exists s :: InSlot(x, s, p) {
      if p in x.slotOf {
        assert InSlot(x, x.slotOf[p], p);
      }
    }
  }

  /** The slot an event is about, if it is about one. */
  function SlotOf(x: Xhc, a: Action): Option<nat> {
    match a
    case TransferEvent(slot, _, _) => Some(slot)
    case Complete(_) => if x.handled < |x.results| then Some(x.results[x.handled]) else None
    case _ => None
  }

  /** Port p is the one addressed with the slot, or the next in line that gets the lock. */
  predicate OwnPort(x: Xhc, y: Xhc, a: Action, p: nat)
    requires p < |x.phase| && p < |y.phase| && SlotOf(x, a).Some?
  {
    || (p in y.slotOf && y.slotOf[p] == SlotOf(x, a).value)
    || (a.Complete? && x.handled < |x.commands| && x.commands[x.handled].AddressDevice? && p == y.addressingPort
        && x.phase[p].WaitingAddressed? && y.phase[p].ResettingPort?)
  }

  lemma TransferActsOnOwnPort(maxPorts: nat, x: Xhc, slot: nat, t: Transfer, speed: nat, p: nat)
    requires Inv(maxPorts, x) && p < PORTS && ContextPortsInRange(x)
    requires OnTransferEvent(x, slot, t, speed).0.phase[p] != x.phase[p]
    ensures var y := OnTransferEvent(x, slot, t, speed).0; p in y.slotOf && y.slotOf[p] == slot
  {
    hide Exclusive, PortsInRange, Pending;
    if FindBySlot(x, slot).Some? {
      InitializingPort(maxPorts, x, slot);
    }
  }

  lemma PickedActsOnOwnPort(maxPorts: nat, x: Xhc, connected: nat -> bool, p: nat)
    requires Inv(maxPorts, x) && Enabled(maxPorts, x, Complete(connected)) && p < PORTS && ContextPortsInRange(x)
    requires x.commands[x.handled].EnableSlot? && Sized(Step(maxPorts, x, Complete(connected)).0)
    requires Step(maxPorts, x, Complete(connected)).0.phase[p] != x.phase[p]
    ensures OwnPort(x, Step(maxPorts, x, Complete(connected)).0, Complete(connected), p)
  {
    AddressKeepsInv(maxPorts, x);
    hide Exclusive, PortsInRange, Pending, Agreement;
  }

  lemma AddressActsOnOwnPort(maxPorts: nat, x: Xhc, connected: nat -> bool, p: nat)
    requires Inv(maxPorts, x) && Enabled(maxPorts, x, Complete(connected)) && p < PORTS && ContextPortsInRange(x)
    requires x.commands[x.handled].AddressDevice? && Sized(Step(maxPorts, x, Complete(connected)).0)
    requires Step(maxPorts, x, Complete(connected)).0.phase[p] != x.phase[p]
    ensures OwnPort(x, Step(maxPorts, x, Complete(connected)).0, Complete(connected), p)
  {
    AddressedFacts(maxPorts, x);
    AddressStep(maxPorts, x, connected);
    SlotOfHolder(maxPorts, x);
    hide Inv, Step, Handed;
    HandedChanges(x, x.addressingPort, x.commands[x.handled].slot, connected, p);
  }

  /** A hand-off changes the phase of the port addressed and of the next in line. */
  lemma HandedChanges(x: Xhc, port: nat, slot: nat, connected: nat -> bool, p: nat)
    requires Sized(x) && port < PORTS && slot <= MAX_SLOTS && x.devices[slot].Some? && p < PORTS
    ensures var y := Handed(x, port, slot, NextInLine(x.phase, connected));
      && |y.phase| == PORTS && y.slotOf == x.slotOf
      && (y.phase[p] == x.phase[p] || p == port
          || (p == y.addressingPort && x.phase[p].WaitingAddressed? && y.phase[p].ResettingPort?))
  {
  }

  lemma SlotOfHolder(maxPorts: nat, x: Xhc)
    requires Inv(maxPorts, x) && x.handled < |x.results| && x.commands[x.handled].AddressDevice?
    ensures x.addressingPort in x.slotOf && x.slotOf[x.addressingPort] == x.commands[x.handled].slot
  {
    assert Awaited(x, x.commands[x.handled]);
    hide Exclusive, PortsInRange, Agreement;
  }

  lemma FinishActsOnOwnPort(maxPorts: nat, x: Xhc, connected: nat -> bool, p: nat)
    requires Inv(maxPorts, x) && Enabled(maxPorts, x, Complete(connected)) && p < PORTS && ContextPortsInRange(x)
    requires x.commands[x.handled].ConfigureEndpoint? && Sized(Step(maxPorts, x, Complete(connected)).0)
    requires Step(maxPorts, x, Complete(connected)).0.phase[p] != x.phase[p]
    ensures OwnPort(x, Step(maxPorts, x, Complete(connected)).0, Complete(connected), p)
  {
    FinishFacts(maxPorts, x);
    hide Exclusive, PortsInRange, Pending;
  }

  lemma CompletionActsOnOwnPort(maxPorts: nat, x: Xhc, connected: nat -> bool, p: nat)
    requires Inv(maxPorts, x) && Enabled(maxPorts, x, Complete(connected)) && p < PORTS && ContextPortsInRange(x)
    requires Sized(Step(maxPorts, x, Complete(connected)).0)
    requires Step(maxPorts, x, Complete(connected)).0.phase[p] != x.phase[p]
    ensures OwnPort(x, Step(maxPorts, x, Complete(connected)).0, Complete(connected), p)
  {
    hide Exclusive, PortsInRange, Pending, Agreement, OwnPort;
    match x.commands[x.handled] {
      case EnableSlot => PickedActsOnOwnPort(maxPorts, x, connected, p);
      case AddressDevice(slot) => AddressActsOnOwnPort(maxPorts, x, connected, p);
      case ConfigureEndpoint(slot) => FinishActsOnOwnPort(maxPorts, x, connected, p);
    }
  }

  /** A handler driven by a slot changes the phase of the port addressed with that slot and of no
      other, except that the Address Device completion also resets the next port in line. */
  lemma ActsOnOwnPort(maxPorts: nat, x: Xhc, a: Action, p: nat)
    requires Inv(maxPorts, x) && Enabled(maxPorts, x, a) && SlotOf(x, a).Some? && p < PORTS
    requires ContextPortsInRange(x) && Sized(Step(maxPorts, x, a).0)
    requires Step(maxPorts, x, a).0.phase[p] != x.phase[p]
    ensures OwnPort(x, Step(maxPorts, x, a).0, a, p)
  {
    hide Exclusive, PortsInRange, Pending, Agreement, OnTransferEvent, OnCommandCompletion;
    match a
    case TransferEvent(slot, t, speed) => TransferActsOnOwnPort(maxPorts, x, slot, t, speed, p);
    case Complete(connected) => CompletionActsOnOwnPort(maxPorts, x, connected, p);
    case _ =>
  }

  // ---- phases only move forward

  lemma HandedAdvances(x: Xhc, port: nat, slot: nat, connected: nat -> bool, p: nat)
    requires Sized(x) && port < PORTS && slot <= MAX_SLOTS && x.devices[slot].Some? && p < PORTS
    requires x.phase[port].AddressingDevice?
    ensures var q := Handed(x, port, slot, NextInLine(x.phase, connected)).phase[p];
      q == x.phase[p] || Rank(q) > Rank(x.phase[p])
  {
  }

  lemma CompletionSized(maxPorts: nat, x: Xhc, connected: nat -> bool)
    requires Inv(maxPorts, x) && Enabled(maxPorts, x, Complete(connected))
    ensures ContextPortsInRange(x) && Sized(Step(maxPorts, x, Complete(connected)).0)
  {
    StepKeepsInv(maxPorts, x, Complete(connected));
    hide Step, Exclusive, PortsInRange, Agreement, Pending;
  }

  lemma AddressAdvances(maxPorts: nat, x: Xhc, connected: nat -> bool, p: nat)
    requires Inv(maxPorts, x) && Enabled(maxPorts, x, Complete(connected)) && p < PORTS
    requires x.commands[x.handled].AddressDevice?
    ensures ContextPortsInRange(x) && Sized(Step(maxPorts, x, Complete(connected)).0)
    ensures var q := Step(maxPorts, x, Complete(connected)).0.phase[p];
      q == x.phase[p] || Rank(q) > Rank(x.phase[p])
  {
    CompletionSized(maxPorts, x, connected);
    AddressedFacts(maxPorts, x);
    AddressStep(maxPorts, x, connected);
    HandedAdvances(x, x.addressingPort, x.commands[x.handled].slot, connected, p);
    hide *;
  }

  lemma CompletionAdvances(maxPorts: nat, x: Xhc, connected: nat -> bool, p: nat)
    requires Inv(maxPorts, x) && Enabled(maxPorts, x, Complete(connected)) && p < PORTS
    ensures ContextPortsInRange(x) && Sized(Step(maxPorts, x, Complete(connected)).0)
    ensures var q := Step(maxPorts, x, Complete(connected)).0.phase[p];
      q == x.phase[p] || Rank(q) > Rank(x.phase[p])
  {
    InvInRange(maxPorts, x);
    hide Exclusive, PortsInRange, Agreement, Pending;
    match x.commands[x.handled]
    case EnableSlot => AddressKeepsInv(maxPorts, x);
    case AddressDevice(slot) => AddressAdvances(maxPorts, x, connected, p); hide Step;
    case ConfigureEndpoint(slot) => FinishFacts(maxPorts, x);
  }

  /** No event moves any port back. */
  lemma PhasesAdvance(maxPorts: nat, x: Xhc, a: Action, p: nat)
    requires Inv(maxPorts, x) && Enabled(maxPorts, x, a) && p < PORTS
    ensures ContextPortsInRange(x) && Sized(Step(maxPorts, x, a).0)
    ensures var q := Step(maxPorts, x, a).0.phase[p];
      q == x.phase[p] || Rank(q) > Rank(x.phase[p])
  {
    InvInRange(maxPorts, x);
    match a
    case Complete(connected) => CompletionAdvances(maxPorts, x, connected, p); hide *;
    case TransferEvent(slot, t, speed) =>
      TransferAdvances(x, slot, t, speed, p);
      hide Inv, OnTransferEvent, ContextPortsInRange;
    case Execute(slot) => hide Inv;
    case _ =>
      PortEventAdvances(maxPorts, x, a, p);
      hide Inv, Step;
  }

  lemma TransferAdvances(x: Xhc, slot: nat, t: Transfer, speed: nat, p: nat)
    requires Sized(x) && ContextPortsInRange(x) && p < PORTS
    ensures Sized(OnTransferEvent(x, slot, t, speed).0)
    ensures var q := OnTransferEvent(x, slot, t, speed).0.phase[p];
      q == x.phase[p] || Rank(q) > Rank(x.phase[p])
  {
  }

  lemma PortEventAdvances(maxPorts: nat, x: Xhc, a: Action, p: nat)
    requires maxPorts < PORTS && Sized(x) && ContextPortsInRange(x) && Enabled(maxPorts, x, a) && p < PORTS
    requires a.BootPort? || a.PortEvent?
    ensures Sized(Step(maxPorts, x, a).0)
    ensures var q := Step(maxPorts, x, a).0.phase[p];
      q == x.phase[p] || Rank(q) > Rank(x.phase[p])
  {
  }

  // ---- runs

  ghost predicate Runs(maxPorts: nat, x: Xhc, acts: seq<Action>, y: Xhc)
    requires maxPorts < PORTS
    decreases |acts|
  {
    if acts == [] then x == y
    else
      && Sized(x) && ContextPortsInRange(x) && Enabled(maxPorts, x, acts[0])
      && Runs(maxPorts, Step(maxPorts, x, acts[0]).0, acts[1..], y)
  }

  /** How often the phase of port p changes in a run. */
  function Changes(maxPorts: nat, x: Xhc, acts: seq<Action>, p: nat): nat
    requires maxPorts < PORTS && p < PORTS
    decreases |acts|
  {
    if acts == [] || !Sized(x) || !ContextPortsInRange(x) || !Enabled(maxPorts, x, acts[0]) then 0
    else
      var y := Step(maxPorts, x, acts[0]).0;
      (if Sized(y) && y.phase[p] != x.phase[p] then 1 else 0) + Changes(maxPorts, y, acts[1..], p)
  }

  /** How often `CompleteConfiguration` takes effect for port p in a run. */
  function Completions(maxPorts: nat, x: Xhc, acts: seq<Action>, p: nat): nat
    requires maxPorts < PORTS && p < PORTS
    decreases |acts|
  {
    if acts == [] || !Sized(x) || !ContextPortsInRange(x) || !Enabled(maxPorts, x, acts[0]) then 0
    else
      var y := Step(maxPorts, x, acts[0]).0;
      var effect := acts[0].Complete? && x.commands[x.handled].ConfigureEndpoint? &&
                    p in x.slotOf && x.slotOf[p] == x.commands[x.handled].slot;
      (if effect then 1 else 0) + Completions(maxPorts, y, acts[1..], p)
  }

  /** Main theorem: every run keeps the invariant, each port's phase changes at most seven times,
      and its configuration completes at most once. */
  lemma {:induction false} RunTheorem(maxPorts: nat, x: Xhc, acts: seq<Action>, y: Xhc, p: nat)
    requires Inv(maxPorts, x) && Runs(maxPorts, x, acts, y) && p < PORTS
    ensures Inv(maxPorts, y)
    ensures Rank(x.phase[p]) + Changes(maxPorts, x, acts, p) <= Rank(y.phase[p])
    ensures Changes(maxPorts, x, acts, p) <= 7
    ensures Completions(maxPorts, x, acts, p) <= if x.phase[p].Configured? then 0 else 1
    decreases |acts|
  {
    hide Exclusive, PortsInRange, Agreement, Pending, Step;
    if acts != [] {
      StepKeepsInv(maxPorts, x, acts[0]);
      PhasesAdvance(maxPorts, x, acts[0], p);
      var a := acts[0];
      if a.Complete? && x.commands[x.handled].ConfigureEndpoint? &&
         p in x.slotOf && x.slotOf[p] == x.commands[x.handled].slot {
        CompletesOnce(maxPorts, x, a, p);
      }
      RunTheorem(maxPorts, Step(maxPorts, x, acts[0]).0, acts[1..], y, p);
    }
  }

  lemma CompletesOnce(maxPorts: nat, x: Xhc, a: Action, p: nat)
    requires Inv(maxPorts, x) && Enabled(maxPorts, x, a) && p < PORTS
    requires a.Complete? && x.commands[x.handled].ConfigureEndpoint?
    requires p in x.slotOf && x.slotOf[p] == x.commands[x.handled].slot
    ensures ContextPortsInRange(x)
    ensures x.phase[p].ConfiguringEndpoints? && Step(maxPorts, x, a).0.phase[p].Configured?
  {
    InvInRange(maxPorts, x);
    FinishFacts(maxPorts, x);
  }

  /** Main theorem: in every run from the driver's start, a port is between reset and address assignment
      if and only if it is the one `addressing_port` names; slots and ports match; at most nine commands
      are outstanding; each port's phase changes at most seven times and its configuration completes at
      most once. */
  lemma RunFromStart(maxPorts: nat, acts: seq<Action>, y: Xhc)
    requires maxPorts < PORTS && Runs(maxPorts, Start(), acts, y)
    ensures Sized(y)
    ensures forall p: nat | p < PORTS :: Busy(y.phase[p]) <==> p == y.addressingPort != 0
    ensures Matched(y)
    ensures 0 <= Outstanding(y) <= 9
    ensures forall p: nat | p < PORTS ::
              Changes(maxPorts, Start(), acts, p) <= 7 && Completions(maxPorts, Start(), acts, p) <= 1
  {
    StartInv(maxPorts);
    RunTheorem(maxPorts, Start(), acts, y, 0);
    Excluded(maxPorts, y);
    SlotsMatchPorts(maxPorts, y);
    AtMostNineOutstanding(maxPorts, y);
    hide *;
    forall p: nat | p < PORTS
      ensures Changes(maxPorts, Start(), acts, p) <= 7 && Completions(maxPorts, Start(), acts, p) <= 1
    {
      RunTheorem(maxPorts, Start(), acts, y, p);
    }
  }

  lemma Excluded(maxPorts: nat, x: Xhc)
    requires Inv(maxPorts, x)
    ensures Sized(x) && forall p: nat | p < PORTS :: Busy(x.phase[p]) <==> p == x.addressingPort != 0
  {
    hide Agreement, Pending;
  }
}
