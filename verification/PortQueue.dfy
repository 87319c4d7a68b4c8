/** The queue of ports that wait for the `addressing_port` lock: who serves it, how long it takes, when
    it is abandoned, and what happens when the slots run out. */
module PortQueue {
  import opened Options
  import opened PortProtocol
  import opened PortTheorems

  // ---- being served

  /** While some port waits, some port holds the lock. */
  ghost predicate Served(x: Xhc) {
    x.addressingPort == 0 ==> forall p | 0 <= p < |x.phase| :: !x.phase[p].WaitingAddressed?
  }

  /** The completion of an Address Device command that had a slot: the handler hands the lock on. */
  predicate HandsOn(x: Xhc, a: Action) {
    && a.Complete? && x.handled < |x.commands| && x.commands[x.handled].AddressDevice?
    && x.commands[x.handled].slot != 0
  }

  /** The hand-off finds its first waiting port unplugged. */
  predicate LosesHandOff(x: Xhc, a: Action)
    requires Sized(x)
  {
    && HandsOn(x, a)
    && FirstWaiting(x.phase, 0) < PORTS && !a.connectedPorts(FirstWaiting(x.phase, 0))
  }

  /** Port q waits and nobody holds the lock that would be handed on to it. */
  predicate Stranded(x: Xhc, q: nat) {
    q < |x.phase| && x.phase[q].WaitingAddressed? && x.addressingPort == 0
  }

  lemma HandedServes(x: Xhc, connected: nat -> bool, port: nat, slot: nat, q: nat)
    requires Sized(x) && 0 < port < PORTS && slot <= MAX_SLOTS && x.devices[slot].Some? && q < PORTS
    requires x.phase[port].AddressingDevice? && x.phase[0].NotConnected?
    ensures Stranded(Handed(x, port, slot, NextInLine(x.phase, connected)), q)
            <==> FirstWaiting(x.phase, 0) < PORTS && !connected(FirstWaiting(x.phase, 0))
                 && x.phase[q].WaitingAddressed?
  {
    var w := FirstWaiting(x.phase, 0);
    assert w < PORTS ==> w != 0;
  }

  lemma AddressStrands(maxPorts: nat, x: Xhc, connected: nat -> bool, q: nat)
    requires Inv(maxPorts, x) && Enabled(maxPorts, x, Complete(connected)) && q < PORTS
    requires x.commands[x.handled].AddressDevice?
    ensures ContextPortsInRange(x)
    ensures Stranded(Step(maxPorts, x, Complete(connected)).0, q)
            <==> LosesHandOff(x, Complete(connected)) && x.phase[q].WaitingAddressed?
  {
    AddressedFacts(maxPorts, x);
    AddressStep(maxPorts, x, connected);
    FirstNotConnected(maxPorts, x);
    hide Inv, Handed, Step;
    HandedServes(x, connected, x.addressingPort, x.commands[x.handled].slot, q);
  }

  lemma FirstNotConnected(maxPorts: nat, x: Xhc)
    requires Inv(maxPorts, x)
    ensures x.phase[0].NotConnected?
  {
    hide Exclusive, Agreement, Pending;
  }

  /** While the queue is served, a port is stranded by a step if and only if the step is a hand-off that
      meets a disconnected first waiter: `ResetPort` reports success for it and the search ends there,
      whichever other ports wait, connected or not. */
  lemma HandOffExact(maxPorts: nat, x: Xhc, a: Action, q: nat)
    requires Inv(maxPorts, x) && Enabled(maxPorts, x, a) && Served(x) && q < PORTS
    ensures ContextPortsInRange(x)
    ensures Stranded(Step(maxPorts, x, a).0, q) <==> LosesHandOff(x, a) && x.phase[q].WaitingAddressed?
  {
    InvInRange(maxPorts, x);
    if a.Complete? {
      match x.commands[x.handled] {
        case EnableSlot =>
          AddressKeepsInv(maxPorts, x);
          hide Exclusive, Agreement, Pending;
        case AddressDevice(slot) =>
          AddressStrands(maxPorts, x, a.connectedPorts, q);
          hide Inv, Served, Stranded, LosesHandOff, Step;
        case ConfigureEndpoint(slot) =>
          FinishFacts(maxPorts, x);
          hide Exclusive, Agreement, Pending;
      }
    } else {
      hide Agreement, Pending;
    }
  }

  lemma ServedUnlessStranded(maxPorts: nat, x: Xhc, a: Action)
    requires Inv(maxPorts, x) && Enabled(maxPorts, x, a) && Served(x) && !LosesHandOff(x, a)
    ensures ContextPortsInRange(x) && Served(Step(maxPorts, x, a).0)
  {
    hide *;
    StepKeepsInv(maxPorts, x, a);
    InvSized(maxPorts, x);
    var y := Step(maxPorts, x, a).0;
    InvSized(maxPorts, y);
    forall q: nat | q < PORTS ensures !Stranded(y, q) {
      HandOffExact(maxPorts, x, a, q);
    }
    NoneStranded(y);
  }

  lemma InvSized(maxPorts: nat, x: Xhc)
    requires Inv(maxPorts, x)
    ensures Sized(x) && maxPorts < PORTS
  {
  }

  lemma NoneStranded(y: Xhc)
    requires Sized(y) && forall q: nat | q < PORTS :: !Stranded(y, q)
    ensures Served(y)
  {
    if y.addressingPort == 0 {
      forall p | 0 <= p < |y.phase| ensures !y.phase[p].WaitingAddressed? {
        assert !Stranded(y, p);
      }
    }
  }

  /** Ports with numbers from 1 to below n that may still ask for the lock. */
  function Rivals(phase: seq<Phase>, n: nat): nat
    requires n <= |phase|
  {
    if n <= 1 then 0 else Rivals(phase, n - 1) + (if Rank(phase[n - 1]) <= 1 then 1 else 0)
  }

  lemma {:induction false} RivalsShrink(phase: seq<Phase>, phase': seq<Phase>, n: nat)
    requires n <= |phase| == |phase'|
    requires forall p | 0 <= p < n :: Rank(phase[p]) <= Rank(phase'[p])
    ensures Rivals(phase', n) <= Rivals(phase, n)
    ensures (exists p :: 1 <= p < n && Rank(phase[p]) <= 1 < Rank(phase'[p])) ==> Rivals(phase', n) < Rivals(phase, n)
    decreases n
  {
    if n > 1 {
      RivalsShrink(phase, phase', n - 1);
    }
  }

  lemma {:induction false} RivalsBound(phase: seq<Phase>, n: nat)
    requires 0 < n <= |phase|
    ensures Rivals(phase, n) <= n - 1
    decreases n
  {
    if n > 1 {
      RivalsBound(phase, n - 1);
    }
  }

  /** Hand-offs in a run: Address Device completions for a slot. */
  function Addressings(maxPorts: nat, x: Xhc, acts: seq<Action>): nat
    requires maxPorts < PORTS
    decreases |acts|
  {
    if acts == [] || !Sized(x) || !ContextPortsInRange(x) || !Enabled(maxPorts, x, acts[0]) then 0
    else
      (if HandsOn(x, acts[0]) then 1 else 0)
      + Addressings(maxPorts, Step(maxPorts, x, acts[0]).0, acts[1..])
  }

  /** Waiting ports stay plugged in: no hand-off of the run is lost. */
  ghost predicate StaysConnected(maxPorts: nat, x: Xhc, acts: seq<Action>)
    requires maxPorts < PORTS
    decreases |acts|
  {
    acts == [] || (Sized(x) && ContextPortsInRange(x) && Enabled(maxPorts, x, acts[0]) &&
                   !LosesHandOff(x, acts[0]) &&
                   StaysConnected(maxPorts, Step(maxPorts, x, acts[0]).0, acts[1..]))
  }

  /** A hand-off takes the first waiting port out of the queue for good. */
  lemma HandOffProgress(maxPorts: nat, x: Xhc, a: Action, q: nat)
    requires Inv(maxPorts, x) && Enabled(maxPorts, x, a) && !LosesHandOff(x, a)
    requires q < PORTS && x.phase[q].WaitingAddressed? && HandsOn(x, a)
    ensures ContextPortsInRange(x)
    ensures var w, y := FirstWaiting(x.phase, 0), Step(maxPorts, x, a).0;
      1 <= w <= q && Sized(y) && x.phase[w].WaitingAddressed? && y.phase[w].ResettingPort?
  {
    InvInRange(maxPorts, x);
    AddressedFacts(maxPorts, x);
    AddressStep(maxPorts, x, a.connectedPorts);
    hide Exclusive, Agreement, Pending, Step;
  }

  /** With q waiting, no event adds a lower-numbered rival and every hand-off removes one,
      unless it is q's own turn. */
  lemma RivalsStep(maxPorts: nat, x: Xhc, a: Action, q: nat)
    requires Inv(maxPorts, x) && Enabled(maxPorts, x, a) && !LosesHandOff(x, a)
    requires q < PORTS && x.phase[q].WaitingAddressed?
    ensures ContextPortsInRange(x)
    ensures var y := Step(maxPorts, x, a).0;
      && Sized(y)
      && Rivals(y.phase, q)
         + (if HandsOn(x, a) && y.phase[q].WaitingAddressed? then 1 else 0)
         <= Rivals(x.phase, q)
  {
    StepKeepsInv(maxPorts, x, a);
    hide Exclusive, PortsInRange, Agreement, Pending, Step;
    var y := Step(maxPorts, x, a).0;
    forall p | 0 <= p < PORTS ensures Rank(x.phase[p]) <= Rank(y.phase[p]) {
      PhasesAdvance(maxPorts, x, a, p);
    }
    RivalsShrink(x.phase, y.phase, q);
    if HandsOn(x, a) {
      HandOffProgress(maxPorts, x, a, q);
    }
  }

  /** Main theorem: while q waits, each hand-off uses up a port with a lower number that has not had its
      turn. So q starts resetting after at most q - 1 of them, whatever ports ask for the lock meanwhile. */
  lemma {:induction false} NoStarvation(maxPorts: nat, x: Xhc, acts: seq<Action>, y: Xhc, q: nat)
    requires Inv(maxPorts, x) && Runs(maxPorts, x, acts, y) && StaysConnected(maxPorts, x, acts)
    requires q < PORTS && x.phase[q].WaitingAddressed?
    ensures 1 <= q && Sized(y) && Rivals(x.phase, q) <= q - 1
    ensures y.phase[q].WaitingAddressed? ==> Addressings(maxPorts, x, acts) <= Rivals(x.phase, q)
    ensures Addressings(maxPorts, x, acts) > Rivals(x.phase, q) ==> Rank(y.phase[q]) >= Rank(ResettingPort)
    decreases |acts|
  {
    WaitingInRange(maxPorts, x, q);
    RivalsBound(x.phase, q);
    RunTheorem(maxPorts, x, acts, y, q);
    hide Exclusive, PortsInRange, Agreement, Pending, Step, Rivals;
    if acts != [] {
      var z := Step(maxPorts, x, acts[0]).0;
      StepKeepsInv(maxPorts, x, acts[0]);
      RivalsStep(maxPorts, x, acts[0], q);
      PhasesAdvance(maxPorts, x, acts[0], q);
      RunTheorem(maxPorts, z, acts[1..], y, q);
      if z.phase[q].WaitingAddressed? {
        NoStarvation(maxPorts, z, acts[1..], y, q);
      }
    }
  }

  lemma WaitingInRange(maxPorts: nat, x: Xhc, q: nat)
    requires Inv(maxPorts, x) && q < PORTS && x.phase[q].WaitingAddressed?
    ensures 1 <= q <= maxPorts
  {
  }

  /** In every run without a lost hand-off, no state leaves a port waiting with the lock free. */
  lemma {:induction false} AlwaysServed(maxPorts: nat, x: Xhc, acts: seq<Action>, y: Xhc)
    requires Inv(maxPorts, x) && Served(x)
    requires Runs(maxPorts, x, acts, y) && StaysConnected(maxPorts, x, acts)
    ensures Served(y)
    decreases |acts|
  {
    hide Exclusive, PortsInRange, Agreement, Pending, Step, Served;
    if acts != [] {
      StepKeepsInv(maxPorts, x, acts[0]);
      ServedUnlessStranded(maxPorts, x, acts[0]);
      AlwaysServed(maxPorts, Step(maxPorts, x, acts[0]).0, acts[1..], y);
    }
  }

  // ---- being abandoned

  /** The step connects a port that was not connected yet, which then takes the lock. */
  predicate Rescues(x: Xhc, a: Action)
    requires Sized(x)
  {
    match a
    case BootPort(p, connected) => p < PORTS && connected && x.phase[p].NotConnected?
    case PortEvent(p, st) => p < PORTS && st.connected && x.phase[p].NotConnected?
    case _ => false
  }

  /** A stranded port stays stranded under every step but one that connects a new port. */
  lemma StrandedExactly(maxPorts: nat, x: Xhc, a: Action, q: nat)
    requires Inv(maxPorts, x) && Enabled(maxPorts, x, a) && Stranded(x, q)
    ensures ContextPortsInRange(x)
    ensures Stranded(Step(maxPorts, x, a).0, q) <==> !Rescues(x, a)
    ensures Step(maxPorts, x, a).0.phase[q].WaitingAddressed?
  {
    InvInRange(maxPorts, x);
    if a.Complete? {
      match x.commands[x.handled] {
        case EnableSlot => AddressKeepsInv(maxPorts, x);
        case AddressDevice(slot) => AddressedFacts(maxPorts, x);
        case ConfigureEndpoint(slot) => FinishFacts(maxPorts, x);
      }
    }
    hide Agreement, Pending;
  }

  /** Every port of the hub has been connected before: nobody is left to rescue anyone. */
  predicate AllPortsKnown(maxPorts: nat, x: Xhc)
    requires Sized(x) && maxPorts < PORTS
  {
    forall p | 1 <= p <= maxPorts :: !x.phase[p].NotConnected?
  }

  /** Then a stranded port waits for ever. */
  lemma {:induction false} StrandedForever(maxPorts: nat, x: Xhc, acts: seq<Action>, y: Xhc, q: nat)
    requires Inv(maxPorts, x) && Runs(maxPorts, x, acts, y) && AllPortsKnown(maxPorts, x) && Stranded(x, q)
    ensures Stranded(y, q)
    decreases |acts|
  {
    hide Exclusive, PortsInRange, Agreement, Pending, Step;
    if acts != [] {
      StrandedExactly(maxPorts, x, acts[0], q);
      StepKeepsInv(maxPorts, x, acts[0]);
      var z := Step(maxPorts, x, acts[0]).0;
      forall p | 1 <= p <= maxPorts ensures !z.phase[p].NotConnected? {
        PhasesAdvance(maxPorts, x, acts[0], p);
      }
      StrandedForever(maxPorts, z, acts[1..], y, q);
    }
  }

  /** Three ports: port 1 has asked for a slot, the controller has picked slot 1, ports 2 and 3 wait. */
  function SlotPicked(): Xhc {
    var s := Start();
    s.(phase := s.phase[1 := EnablingSlot][2 := WaitingAddressed][3 := WaitingAddressed], addressingPort := 1,
       commands := [EnableSlot], results := [1])
  }

  /** The same last action. */
  ghost predicate EndsAs(all: seq<Action>, acts: seq<Action>) {
    acts != [] ==> all != [] && all[|all| - 1] == acts[|acts| - 1]
  }

  lemma ToSlotPicked(acts: seq<Action>, y: Xhc) returns (all: seq<Action>)
    requires Runs(3, SlotPicked(), acts, y)
    ensures Runs(3, Start(), all, y) && EndsAs(all, acts)
  {
    var s := Start();
    var x1 := s.(phase := s.phase[1 := ResettingPort], addressingPort := 1);
    var x2 := SetPhase(x1, 2, WaitingAddressed);
    var x3 := SetPhase(x2, 3, WaitingAddressed);
    var x4 := Issue(SetPhase(x3, 1, EnablingSlot), EnableSlot);
    assert x4.(results := [1]) == SlotPicked();
    assert x4.devices[1].None?;
    all := Before(x4, Execute(1), SlotPicked(), acts, y);
    all := Before(x3, PortEvent(1, PortStatus(true, true, true)), x4, all, y);
    all := Before(x2, BootPort(3, true), x3, all, y);
    all := Before(x1, BootPort(2, true), x2, all, y);
    all := Before(s, BootPort(1, true), x1, all, y);
  }

  /** A run ends with the hand-off at which, of the three ports, only port 2 is unplugged. */
  predicate OnlyTwoUnplugged(acts: seq<Action>) {
    && acts != [] && acts[|acts| - 1].Complete?
    && acts[|acts| - 1].connectedPorts(1) && !acts[|acts| - 1].connectedPorts(2) && acts[|acts| - 1].connectedPorts(3)
  }

  lemma AbandoningRun() returns (acts: seq<Action>, y: Xhc)
    ensures Runs(3, Start(), acts, y) && OnlyTwoUnplugged(acts)
    ensures Sized(y) && AllPortsKnown(3, y) && Stranded(y, 2) && Stranded(y, 3)
  {
    var onlyTwoUnplugged := (p: nat) => p != 2;
    var x4 := SlotPicked();
    var x5 := x4.(phase := x4.phase[1 := AddressingDevice], commands := [EnableSlot, AddressDevice(1)],
                  devices := x4.devices[1 := Some(Device(1, 0, false))], slotOf := map[1 := 1], handled := 1);
    var x6 := x5.(results := [1, 1], devices := x4.devices[1 := Some(Device(1, 1, false))]);
    y := x6.(phase := x6.phase[1 := InitializingDevice], addressingPort := 0, handled := 2);
    Last(onlyTwoUnplugged, x6, y);
    acts := Before(x5, Execute(1), x6, [Complete(onlyTwoUnplugged)], y);
    acts := Before(x4, Complete(onlyTwoUnplugged), x5, acts, y);
    acts := ToSlotPicked(acts, y);
  }

  /** Three ports, the second unplugged while it waits: after the first is addressed the third, which is
      connected, waits for ever with the lock free, whatever happens then. */
  lemma AbandonedForEver() returns (acts: seq<Action>, y: Xhc)
    ensures Runs(3, Start(), acts, y) && OnlyTwoUnplugged(acts) && Stranded(y, 3)
    ensures forall more: seq<Action>, z: Xhc | Runs(3, y, more, z) :: Stranded(z, 3)
  {
    acts, y := AbandoningRun();
    StartInv(3);
    RunTheorem(3, Start(), acts, y, 3);
    hide Inv, AllPortsKnown, Stranded;
    forall more: seq<Action>, z: Xhc | Runs(3, y, more, z) ensures Stranded(z, 3) {
      StrandedForever(3, y, more, z, 3);
    }
  }

  lemma Before(x: Xhc, a: Action, x': Xhc, acts: seq<Action>, y: Xhc) returns (all: seq<Action>)
    requires Sized(x) && ContextPortsInRange(x) && Enabled(3, x, a) && Step(3, x, a).0 == x'
    requires Runs(3, x', acts, y)
    ensures Runs(3, x, all, y) && EndsAs(all, acts)
  {
    all := [a] + acts;
    assert all[1..] == acts;
  }

  lemma Last(connected: nat -> bool, x: Xhc, y: Xhc)
    requires Sized(x) && ContextPortsInRange(x) && Enabled(3, x, Complete(connected))
    requires Step(3, x, Complete(connected)).0 == y
    ensures Runs(3, x, [Complete(connected)], y)
  {
    assert [Complete(connected)][1..] == [];
  }

  // ---- eight slots

  /** The device of a slot has been addressed. */
  predicate PastAddressing(x: Xhc, s: nat)
    requires Sized(x) && s <= MAX_SLOTS
  {
    && x.devices[s].Some? && x.devices[s].value.inputPort < PORTS
    && Rank(x.phase[x.devices[s].value.inputPort]) > Rank(AddressingDevice)
  }

  /** How many of the slots from 1 to below n. */
  function Addressed(x: Xhc, n: nat): (c: nat)
    requires Sized(x) && n <= MAX_SLOTS + 1
    ensures c <= if n == 0 then 0 else n - 1
  {
    if n <= 1 then 0 else Addressed(x, n - 1) + (if PastAddressing(x, n - 1) then 1 else 0)
  }

  lemma {:induction false} AddressedGrows(x: Xhc, y: Xhc, n: nat)
    requires Sized(x) && Sized(y) && n <= MAX_SLOTS + 1
    requires forall s | 1 <= s < n && PastAddressing(x, s) :: PastAddressing(y, s)
    ensures Addressed(x, n) <= Addressed(y, n)
    ensures (exists s :: 1 <= s < n && !PastAddressing(x, s) && PastAddressing(y, s))
            ==> Addressed(x, n) < Addressed(y, n)
    decreases n
  {
    hide PastAddressing;
    if n > 1 {
      AddressedGrows(x, y, n - 1);
    }
  }

  /** The slot that Enable Slot reports is free until its completion is handled, and 0 if none was. */
  lemma PickedSlot(maxPorts: nat, x: Xhc)
    requires Inv(maxPorts, x) && x.handled < |x.results| && x.commands[x.handled].EnableSlot?
    ensures var slot := x.results[x.handled];
      slot <= MAX_SLOTS && x.devices[slot].None? && (slot == 0 <==> SlotsTaken(x))
  {
    assert ResultFits(x, x.commands[x.handled], x.results[x.handled]);
  }

  lemma DevicesStayOnCompletion(maxPorts: nat, x: Xhc, connected: nat -> bool, s: nat)
    requires Inv(maxPorts, x) && Enabled(maxPorts, x, Complete(connected)) && s <= MAX_SLOTS && x.devices[s].Some?
    ensures ContextPortsInRange(x) && Sized(Step(maxPorts, x, Complete(connected)).0)
    ensures var y := Step(maxPorts, x, Complete(connected)).0;
      y.devices[s].Some? && y.devices[s].value.inputPort == x.devices[s].value.inputPort
  {
    InvInRange(maxPorts, x);
    match x.commands[x.handled] {
      case EnableSlot =>
        PickedSlot(maxPorts, x);
        AddressKeepsInv(maxPorts, x);
        hide Exclusive, PortsInRange, Agreement, Pending, SlotsTaken;
      case AddressDevice(slot) =>
        AddressStep(maxPorts, x, connected);
        hide Exclusive, PortsInRange, Agreement, Pending, Step;
      case ConfigureEndpoint(slot) =>
        FinishFacts(maxPorts, x);
        hide Exclusive, PortsInRange, Agreement, Pending;
    }
  }

  /** No device ever goes away or changes its port. */
  lemma DevicesStay(maxPorts: nat, x: Xhc, a: Action, s: nat)
    requires Inv(maxPorts, x) && Enabled(maxPorts, x, a) && s <= MAX_SLOTS && x.devices[s].Some?
    ensures ContextPortsInRange(x) && Sized(Step(maxPorts, x, a).0)
    ensures var y := Step(maxPorts, x, a).0;
      y.devices[s].Some? && y.devices[s].value.inputPort == x.devices[s].value.inputPort < PORTS
  {
    InvInRange(maxPorts, x);
    InputPorts(maxPorts, x, s);
    if a.TransferEvent? && FindBySlot(x, a.slot).Some? {
      InitializingPort(maxPorts, x, a.slot);
    }
    if a.Complete? {
      DevicesStayOnCompletion(maxPorts, x, a.connectedPorts, s);
      hide Step;
    }
    hide Exclusive, PortsInRange, Agreement, Pending, OnCommandCompletion;
  }

  lemma InputPorts(maxPorts: nat, x: Xhc, s: nat)
    requires Inv(maxPorts, x) && s <= MAX_SLOTS && x.devices[s].Some?
    ensures x.devices[s].value.inputPort < PORTS
  {
  }

  /** Each hand-off takes a slot of its own past addressing. */
  lemma AddressingStep(maxPorts: nat, x: Xhc, a: Action)
    requires Inv(maxPorts, x) && Enabled(maxPorts, x, a)
    ensures ContextPortsInRange(x) && Sized(Step(maxPorts, x, a).0)
    ensures var y := Step(maxPorts, x, a).0;
      Addressed(x, MAX_SLOTS + 1) + (if HandsOn(x, a) then 1 else 0) <= Addressed(y, MAX_SLOTS + 1)
  {
    StepKeepsInv(maxPorts, x, a);
    InvSized(maxPorts, Step(maxPorts, x, a).0);
    var y := Step(maxPorts, x, a).0;
    hide Inv, Step, Rank;
    forall s | 1 <= s < MAX_SLOTS + 1 && PastAddressing(x, s) ensures PastAddressing(y, s) {
      DevicesStay(maxPorts, x, a, s);
      PhasesAdvance(maxPorts, x, a, x.devices[s].value.inputPort);
    }
    if HandsOn(x, a) {
      NewlyAddressed(maxPorts, x, a);
    }
    hide *;
    AddressedGrows(x, y, MAX_SLOTS + 1);
  }

  lemma HandedIsPast(x: Xhc, port: nat, slot: nat, w: nat)
    requires Sized(x) && port < PORTS && slot <= MAX_SLOTS && x.devices[slot].Some? && w <= PORTS
    requires x.devices[slot].value.inputPort == port && x.phase[port].AddressingDevice?
    ensures !PastAddressing(x, slot)
    ensures Sized(Handed(x, port, slot, w)) && PastAddressing(Handed(x, port, slot, w), slot)
  {
  }

  lemma NewlyAddressed(maxPorts: nat, x: Xhc, a: Action)
    requires Inv(maxPorts, x) && Enabled(maxPorts, x, a) && HandsOn(x, a)
    ensures ContextPortsInRange(x) && Sized(Step(maxPorts, x, a).0)
    ensures exists s :: 1 <= s < MAX_SLOTS + 1 && !PastAddressing(x, s) && PastAddressing(Step(maxPorts, x, a).0, s)
  {
    AddressedFacts(maxPorts, x);
    AddressStep(maxPorts, x, a.connectedPorts);
    var s := x.commands[x.handled].slot;
    HandedIsPast(x, x.addressingPort, s, NextInLine(x.phase, a.connectedPorts));
    hide Exclusive, PortsInRange, Agreement, Pending, Step, Handed, PastAddressing;
    assert !PastAddressing(x, s) && PastAddressing(Step(maxPorts, x, a).0, s);
  }

  /** In every run at most eight devices are addressed. */
  lemma {:induction false} AtMostEightAddressed(maxPorts: nat, x: Xhc, acts: seq<Action>, y: Xhc)
    requires Inv(maxPorts, x) && Runs(maxPorts, x, acts, y)
    ensures Sized(y) && Addressed(x, MAX_SLOTS + 1) + Addressings(maxPorts, x, acts) <= Addressed(y, MAX_SLOTS + 1) <= 8
    decreases |acts|
  {
    hide Exclusive, PortsInRange, Agreement, Pending, Step;
    if acts != [] {
      StepKeepsInv(maxPorts, x, acts[0]);
      AddressingStep(maxPorts, x, acts[0]);
      AtMostEightAddressed(maxPorts, Step(maxPorts, x, acts[0]).0, acts[1..], y);
    }
  }
}
