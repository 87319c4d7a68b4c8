/** Whose turn it is to be addressed, and when a turn never ends: a ninth device finds no slot, its port
    keeps the `addressing_port` lock, and nobody is addressed any more. */
module PortTurns {
  import opened Options
  import opened PortProtocol
  import opened PortTheorems
  import opened PortQueue

  /** The port that holds the lock will not hand it on: it waits for its slot and there is none left, or
      it was addressed with slot id 0. */
  predicate Doomed(x: Xhc)
    requires Sized(x)
  {
    var p := x.addressingPort;
    && p != 0
    && if x.phase[p].AddressingDevice? then p in x.slotOf && x.slotOf[p] == 0 else SlotsTaken(x)
  }

  // ---- a turn that does not end

  lemma DoomedCompletion(maxPorts: nat, x: Xhc, connected: nat -> bool)
    requires Inv(maxPorts, x) && Enabled(maxPorts, x, Complete(connected)) && Doomed(x)
    ensures ContextPortsInRange(x)
    ensures var y := Step(maxPorts, x, Complete(connected)).0;
      Sized(y) && y.addressingPort == x.addressingPort && Doomed(y)
  {
    InvInRange(maxPorts, x);
    match x.commands[x.handled]
    case EnableSlot =>
      PickedSlot(maxPorts, x);
      AddressKeepsInv(maxPorts, x);
      hide Exclusive, PortsInRange, Agreement, Pending;
    case AddressDevice(slot) =>
      assert Awaited(x, x.commands[x.handled]);
      AddressStep(maxPorts, x, connected);
      hide Exclusive, PortsInRange, Agreement, Pending, Step;
    case ConfigureEndpoint(slot) =>
      FinishFacts(maxPorts, x);
      hide PortsInRange, Agreement, Pending;
  }

  lemma DoomedTransfer(maxPorts: nat, x: Xhc, slot: nat, t: Transfer, speed: nat)
    requires Inv(maxPorts, x) && Doomed(x)
    ensures ContextPortsInRange(x)
    ensures var y := OnTransferEvent(x, slot, t, speed).0;
      Sized(y) && y.addressingPort == x.addressingPort && Doomed(y)
  {
    InvInRange(maxPorts, x);
    if FindBySlot(x, slot).Some? {
      InitializingPort(maxPorts, x, slot);
    }
    hide PortsInRange, Agreement, Pending;
  }

  /** Every step leaves the lock where it is. */
  lemma DoomedStays(maxPorts: nat, x: Xhc, a: Action)
    requires Inv(maxPorts, x) && Enabled(maxPorts, x, a) && Doomed(x)
    ensures ContextPortsInRange(x)
    ensures var y := Step(maxPorts, x, a).0;
      Sized(y) && y.addressingPort == x.addressingPort && Doomed(y)
  {
    InvInRange(maxPorts, x);
    match a
    case Complete(connected) => DoomedCompletion(maxPorts, x, connected); hide *;
    case TransferEvent(slot, t, speed) =>
      DoomedTransfer(maxPorts, x, slot, t, speed);
      hide Inv, OnTransferEvent, Doomed;
    case Execute(slot) => hide Exclusive, PortsInRange, Agreement, Pending;
    case _ => hide PortsInRange, Agreement, Pending;
  }

  lemma WaitsThroughCompletion(maxPorts: nat, x: Xhc, connected: nat -> bool, q: nat)
    requires Inv(maxPorts, x) && Enabled(maxPorts, x, Complete(connected))
    requires q < PORTS && x.phase[q].WaitingAddressed? && !HandsOn(x, Complete(connected))
    ensures ContextPortsInRange(x) && Sized(Step(maxPorts, x, Complete(connected)).0)
    ensures Step(maxPorts, x, Complete(connected)).0.phase[q].WaitingAddressed?
  {
    InvInRange(maxPorts, x);
    hide Exclusive, PortsInRange, Agreement, Pending;
    match x.commands[x.handled]
    case EnableSlot => AddressKeepsInv(maxPorts, x);
    case AddressDevice(slot) => AddressStep(maxPorts, x, connected); hide Step;
    case ConfigureEndpoint(slot) => FinishFacts(maxPorts, x);
  }

  /** A waiting port leaves the queue only when the lock is handed on. */
  lemma WaitsOn(maxPorts: nat, x: Xhc, a: Action, q: nat)
    requires Inv(maxPorts, x) && Enabled(maxPorts, x, a) && q < PORTS && x.phase[q].WaitingAddressed?
    requires !HandsOn(x, a)
    ensures ContextPortsInRange(x) && Sized(Step(maxPorts, x, a).0)
    ensures Step(maxPorts, x, a).0.phase[q].WaitingAddressed?
  {
    InvInRange(maxPorts, x);
    match a
    case Complete(connected) => WaitsThroughCompletion(maxPorts, x, connected, q); hide *;
    case TransferEvent(slot, t, speed) =>
      WaitsThroughTransfer(x, slot, t, speed, q);
      hide Inv, OnTransferEvent;
    case Execute(slot) => hide Inv;
    case _ => hide Agreement, Pending;
  }

  lemma WaitsThroughTransfer(x: Xhc, slot: nat, t: Transfer, speed: nat, q: nat)
    requires Sized(x) && ContextPortsInRange(x) && q < PORTS && x.phase[q].WaitingAddressed?
    ensures Sized(OnTransferEvent(x, slot, t, speed).0)
    ensures OnTransferEvent(x, slot, t, speed).0.phase[q].WaitingAddressed?
  {
  }

  lemma DoomedHandsNothingOn(maxPorts: nat, x: Xhc, a: Action)
    requires Inv(maxPorts, x) && Enabled(maxPorts, x, a) && Doomed(x)
    ensures !HandsOn(x, a)
  {
    if a.Complete? && x.commands[x.handled].AddressDevice? {
      assert Awaited(x, x.commands[x.handled]);
    }
    hide Exclusive, PortsInRange, Agreement, Pending;
  }

  /** In every continuation the port keeps the lock and gets no further than AddressingDevice, and every
      waiting port goes on waiting. */
  lemma {:induction false} DoomedForEver(maxPorts: nat, x: Xhc, acts: seq<Action>, y: Xhc)
    requires Inv(maxPorts, x) && Runs(maxPorts, x, acts, y) && Doomed(x)
    ensures Sized(y) && y.addressingPort == x.addressingPort && Doomed(y)
    ensures Rank(y.phase[y.addressingPort]) <= Rank(AddressingDevice)
    ensures forall q | 0 <= q < PORTS && x.phase[q].WaitingAddressed? :: y.phase[q].WaitingAddressed?
    decreases |acts|
  {
    HolderIsBusy(maxPorts, x);
    if acts != [] {
      var z := Step(maxPorts, x, acts[0]).0;
      StepKeepsInv(maxPorts, x, acts[0]);
      DoomedStays(maxPorts, x, acts[0]);
      DoomedHandsNothingOn(maxPorts, x, acts[0]);
      hide Inv, Step, Doomed, Enabled;
      forall q | 0 <= q < PORTS && x.phase[q].WaitingAddressed? ensures z.phase[q].WaitingAddressed? {
        WaitsOn(maxPorts, x, acts[0], q);
      }
      DoomedForEver(maxPorts, z, acts[1..], y);
    }
  }

  lemma HolderIsBusy(maxPorts: nat, x: Xhc)
    requires Inv(maxPorts, x) && x.addressingPort != 0
    ensures Busy(x.phase[x.addressingPort]) && 1 <= x.addressingPort <= maxPorts
  {
    hide Agreement, Pending;
  }

  // ---- a turn that can end

  /** The command the holder waits for has been pushed and not been handled. */
  ghost predicate Promised(x: Xhc)
    requires Sized(x)
  {
    var p := x.addressingPort;
    && (x.phase[p].EnablingSlot? ==> exists i :: x.handled <= i < |x.commands| && x.commands[i] == EnableSlot)
    && (x.phase[p].AddressingDevice? && p in x.slotOf && x.slotOf[p] != 0 ==>
          exists i :: x.handled <= i < |x.commands| && x.commands[i] == AddressDevice(x.slotOf[p]))
  }

  /** A command still to be handled after a step that handles none of its kind. */
  lemma StillThere(x: Xhc, y: Xhc, c: Command)
    requires x.commands <= y.commands && x.handled <= y.handled <= x.handled + 1
    requires y.handled == x.handled || (x.handled < |x.commands| && x.commands[x.handled] != c)
    requires exists i :: x.handled <= i < |x.commands| && x.commands[i] == c
    ensures exists i :: y.handled <= i < |y.commands| && y.commands[i] == c
  {
    var i :| x.handled <= i < |x.commands| && x.commands[i] == c;
    assert y.commands[i] == c;
  }

  /** Nothing the holder waits for has changed. */
  lemma PromiseFramed(x: Xhc, y: Xhc)
    requires Sized(x) && Sized(y) && Promised(x) && y.addressingPort == x.addressingPort && y.slotOf == x.slotOf
    requires y.phase[y.addressingPort] == x.phase[x.addressingPort]
    requires x.commands <= y.commands
    requires y.handled == x.handled
             || (y.handled == x.handled + 1 && x.handled < |x.commands| && x.commands[x.handled].ConfigureEndpoint?)
    ensures Promised(y)
  {
    var p := x.addressingPort;
    if x.phase[p].EnablingSlot? {
      StillThere(x, y, EnableSlot);
    }
    if x.phase[p].AddressingDevice? && p in x.slotOf && x.slotOf[p] != 0 {
      StillThere(x, y, AddressDevice(x.slotOf[p]));
    }
  }

  lemma HandedPromises(x: Xhc, port: nat, slot: nat, connected: nat -> bool)
    requires Sized(x) && 0 < port < PORTS && slot <= MAX_SLOTS && x.devices[slot].Some? && x.phase[0].NotConnected?
    ensures var y := Handed(x, port, slot, NextInLine(x.phase, connected)); Sized(y) && Promised(y)
  {
  }

  lemma RefusedPromises(x: Xhc, y: Xhc)
    requires Sized(x) && x.phase[x.addressingPort].AddressingDevice?
    requires x.addressingPort in x.slotOf && x.slotOf[x.addressingPort] == 0 && y == x.(handled := x.handled + 1)
    ensures Promised(y)
  {
  }

  lemma PromisedAddress(maxPorts: nat, x: Xhc, connected: nat -> bool)
    requires Inv(maxPorts, x) && Enabled(maxPorts, x, Complete(connected)) && x.commands[x.handled].AddressDevice?
    ensures ContextPortsInRange(x)
    ensures Sized(Step(maxPorts, x, Complete(connected)).0) && Promised(Step(maxPorts, x, Complete(connected)).0)
  {
    assert Awaited(x, x.commands[x.handled]);
    var slot, p := x.commands[x.handled].slot, x.addressingPort;
    AddressedFacts(maxPorts, x);
    FirstNotConnected(maxPorts, x);
    hide Exclusive, PortsInRange, Agreement, Pending, Step, Handed, Promised;
    AddressStep(maxPorts, x, connected);
    if slot == 0 {
      RefusedPromises(x, x.(handled := x.handled + 1));
    } else {
      HandedPromises(x, p, slot, connected);
    }
  }

  lemma PromisedSlot(maxPorts: nat, x: Xhc, connected: nat -> bool)
    requires Inv(maxPorts, x) && Enabled(maxPorts, x, Complete(connected)) && x.commands[x.handled].EnableSlot?
    ensures ContextPortsInRange(x)
    ensures Sized(Step(maxPorts, x, Complete(connected)).0) && Promised(Step(maxPorts, x, Complete(connected)).0)
  {
    InvInRange(maxPorts, x);
    var y := Step(maxPorts, x, Complete(connected)).0;
    AddressKeepsInv(maxPorts, x);
    PickedSlot(maxPorts, x);
    hide Exclusive, PortsInRange, Agreement, Pending, SlotsTaken;
    assert y.commands[|x.commands|] == AddressDevice(x.results[x.handled]);
  }

  lemma PromisedConfigured(maxPorts: nat, x: Xhc, connected: nat -> bool)
    requires Inv(maxPorts, x) && Enabled(maxPorts, x, Complete(connected)) && Promised(x)
    requires x.commands[x.handled].ConfigureEndpoint?
    ensures ContextPortsInRange(x)
    ensures Sized(Step(maxPorts, x, Complete(connected)).0) && Promised(Step(maxPorts, x, Complete(connected)).0)
  {
    InvInRange(maxPorts, x);
    var y := Step(maxPorts, x, Complete(connected)).0;
    FinishFacts(maxPorts, x);
    if x.addressingPort != 0 {
      HolderIsBusy(maxPorts, x);
    }
    FirstNotConnected(maxPorts, x);
    hide Exclusive, PortsInRange, Agreement, Pending, Promised;
    PromiseFramed(x, y);
  }

  lemma PromisedCompletion(maxPorts: nat, x: Xhc, connected: nat -> bool)
    requires Inv(maxPorts, x) && Enabled(maxPorts, x, Complete(connected)) && Promised(x)
    ensures ContextPortsInRange(x)
    ensures Sized(Step(maxPorts, x, Complete(connected)).0) && Promised(Step(maxPorts, x, Complete(connected)).0)
  {
    InvInRange(maxPorts, x);
    hide Inv, Step, Promised;
    match x.commands[x.handled]
    case EnableSlot => PromisedSlot(maxPorts, x, connected);
    case AddressDevice(slot) => PromisedAddress(maxPorts, x, connected);
    case ConfigureEndpoint(slot) => PromisedConfigured(maxPorts, x, connected);
  }

  lemma PromisedTransfer(maxPorts: nat, x: Xhc, slot: nat, t: Transfer, speed: nat)
    requires Inv(maxPorts, x) && Promised(x)
    ensures ContextPortsInRange(x)
    ensures var y := OnTransferEvent(x, slot, t, speed).0; Sized(y) && Promised(y)
  {
    InvInRange(maxPorts, x);
    var y := OnTransferEvent(x, slot, t, speed).0;
    if FindBySlot(x, slot).Some? {
      InitializingPort(maxPorts, x, slot);
    }
    hide PortsInRange, Agreement, Pending, Promised;
    PromiseFramed(x, y);
  }

  lemma PromisedPortEvent(maxPorts: nat, x: Xhc, a: Action)
    requires Inv(maxPorts, x) && Enabled(maxPorts, x, a) && Promised(x) && (a.BootPort? || a.PortEvent?)
    ensures ContextPortsInRange(x)
    ensures Sized(Step(maxPorts, x, a).0) && Promised(Step(maxPorts, x, a).0)
  {
    InvInRange(maxPorts, x);
    var y := Step(maxPorts, x, a).0;
    hide PortsInRange, Agreement, Pending;
    if y.addressingPort == x.addressingPort && y.phase[y.addressingPort] == x.phase[x.addressingPort] {
      PromiseFramed(x, y);
    } else if |y.commands| > |x.commands| {
      assert y.commands[|x.commands|] == EnableSlot;
    }
  }

  lemma PromisedStep(maxPorts: nat, x: Xhc, a: Action)
    requires Inv(maxPorts, x) && Enabled(maxPorts, x, a) && Promised(x)
    ensures ContextPortsInRange(x)
    ensures Sized(Step(maxPorts, x, a).0) && Promised(Step(maxPorts, x, a).0)
  {
    InvInRange(maxPorts, x);
    match a
    case Complete(connected) => PromisedCompletion(maxPorts, x, connected); hide *;
    case TransferEvent(slot, t, speed) =>
      PromisedTransfer(maxPorts, x, slot, t, speed);
      hide Inv, OnTransferEvent, Promised;
    case Execute(slot) =>
      hide Inv, Promised;
      PromiseFramed(x, Step(maxPorts, x, a).0);
    case _ => PromisedPortEvent(maxPorts, x, a); hide *;
  }

  /** How far the holder is from being addressed. */
  function Ahead(x: Xhc): nat
    requires Sized(x)
  {
    match x.phase[x.addressingPort]
    case ResettingPort => 2
    case EnablingSlot => 1
    case _ => 0
  }

  /** Executions and completions still to come. */
  function Backlog(x: Xhc): int { 2 * |x.commands| - |x.results| - x.handled }

  /** A step towards the end of the holder's turn: its reset is done, the oldest completion is handled, or
      the next command is executed. */
  function Forward(x: Xhc): Action
    requires Sized(x)
  {
    var p := x.addressingPort;
    if x.phase[p].ResettingPort? then PortEvent(p, PortStatus(true, true, true))
    else if x.handled < |x.results| then Complete(_ => true)
    else if |x.results| < |x.commands| then
      match x.commands[|x.results|]
      case EnableSlot => Execute(FreeSlot(x, 1))
      case AddressDevice(s) => Execute(s)
      case ConfigureEndpoint(s) => Execute(s)
    else Execute(0)
  }

  /** The first free slot from s on, or 0. */
  function FreeSlot(x: Xhc, s: nat): (r: nat)
    requires Sized(x) && 1 <= s <= MAX_SLOTS + 1
    ensures r != 0 ==> s <= r <= MAX_SLOTS && x.devices[r].None?
    ensures r == 0 ==> forall t | s <= t <= MAX_SLOTS :: x.devices[t].Some?
    decreases MAX_SLOTS + 1 - s
  {
    if s == MAX_SLOTS + 1 then 0 else if x.devices[s].None? then s else FreeSlot(x, s + 1)
  }

  lemma ForwardEnabled(maxPorts: nat, x: Xhc)
    requires Inv(maxPorts, x) && Promised(x) && x.addressingPort != 0 && !Doomed(x)
    ensures Enabled(maxPorts, x, Forward(x))
  {
    HolderIsBusy(maxPorts, x);
    if x.phase[x.addressingPort].AddressingDevice? {
      HolderHasSlot(maxPorts, x);
    }
    if !x.phase[x.addressingPort].ResettingPort? && x.handled >= |x.results| {
      assert |x.results| < |x.commands|;
    }
    hide Exclusive, PortsInRange, Agreement;
  }

  lemma HolderHasSlot(maxPorts: nat, x: Xhc)
    requires Inv(maxPorts, x) && x.phase[x.addressingPort].AddressingDevice?
    ensures x.addressingPort in x.slotOf
  {
    hide Exclusive, PortsInRange, Pending;
  }

  /** The step brings the end nearer, or is the end. */
  ghost predicate Nearer(x: Xhc, y: Xhc)
    requires Sized(x)
  {
    Sized(y) && (y.addressingPort != x.addressingPort
                 || (!Doomed(y) && (Ahead(y) < Ahead(x) || (Ahead(y) == Ahead(x) && Backlog(y) < Backlog(x)))))
  }

  lemma ResetEnds(maxPorts: nat, x: Xhc)
    requires Inv(maxPorts, x) && x.addressingPort != 0 && !Doomed(x) && x.phase[x.addressingPort].ResettingPort?
    ensures ContextPortsInRange(x) && Enabled(maxPorts, x, Forward(x)) && Nearer(x, Step(maxPorts, x, Forward(x)).0)
  {
    InvInRange(maxPorts, x);
    HolderIsBusy(maxPorts, x);
    hide Exclusive, PortsInRange, Agreement, Pending;
  }

  lemma ExecutionNearer(maxPorts: nat, x: Xhc, slot: nat)
    requires Inv(maxPorts, x) && Enabled(maxPorts, x, Execute(slot)) && !Doomed(x) && x.addressingPort != 0
    ensures Nearer(x, ExecuteNext(x, slot))
  {
    ExecuteKeepsInv(maxPorts, x, slot);
    ExecuteTakesNothing(x, slot);
    hide Exclusive, PortsInRange, Agreement, Pending, SlotsTaken;
  }

  lemma ExecuteTakesNothing(x: Xhc, slot: nat)
    requires Sized(x) && |x.results| < |x.commands|
    ensures SlotsTaken(ExecuteNext(x, slot)) ==> SlotsTaken(x)
  {
    var y := ExecuteNext(x, slot);
    if SlotsTaken(y) {
      forall s | 1 <= s <= MAX_SLOTS ensures x.devices[s].Some? {
        assert y.devices[s].Some?;
      }
    }
  }

  lemma CompletionNearer(maxPorts: nat, x: Xhc, connected: nat -> bool)
    requires Inv(maxPorts, x) && Enabled(maxPorts, x, Complete(connected)) && !Doomed(x) && x.addressingPort != 0
    ensures ContextPortsInRange(x) && Nearer(x, Step(maxPorts, x, Complete(connected)).0)
  {
    InvInRange(maxPorts, x);
    HolderIsBusy(maxPorts, x);
    match x.commands[x.handled]
    case EnableSlot =>
      PickedSlot(maxPorts, x);
      AddressKeepsInv(maxPorts, x);
      hide Exclusive, PortsInRange, Agreement, Pending;
    case AddressDevice(slot) =>
      assert Awaited(x, x.commands[x.handled]);
      AddressStep(maxPorts, x, connected);
      HandedOn(x, x.addressingPort, slot, connected);
      hide Exclusive, PortsInRange, Agreement, Pending, Step, Handed, SlotsTaken;
    case ConfigureEndpoint(slot) =>
      FinishFacts(maxPorts, x);
      hide Exclusive, PortsInRange, Agreement, Pending;
  }

  lemma HandedOn(x: Xhc, port: nat, slot: nat, connected: nat -> bool)
    requires Sized(x) && 0 < port < PORTS && x.phase[port].AddressingDevice?
    requires slot <= MAX_SLOTS && x.devices[slot].Some?
    ensures var y := Handed(x, port, slot, NextInLine(x.phase, connected)); Sized(y) && y.addressingPort != port
  {
  }

  lemma ForwardNearer(maxPorts: nat, x: Xhc)
    requires Inv(maxPorts, x) && Promised(x) && x.addressingPort != 0 && !Doomed(x)
    ensures ContextPortsInRange(x) && Enabled(maxPorts, x, Forward(x)) && Nearer(x, Step(maxPorts, x, Forward(x)).0)
  {
    InvInRange(maxPorts, x);
    ForwardEnabled(maxPorts, x);
    if x.phase[x.addressingPort].ResettingPort? {
      ResetEnds(maxPorts, x);
      hide *;
    } else if x.handled < |x.results| {
      CompletionNearer(maxPorts, x, _ => true);
      hide Inv, Step, Nearer, Promised, Doomed;
    } else {
      hide Inv, Nearer, Promised, Doomed, ExecuteNext;
      ExecutionNearer(maxPorts, x, Forward(x).slot);
    }
  }

  lemma BacklogIsNat(maxPorts: nat, x: Xhc)
    requires Inv(maxPorts, x)
    ensures Sized(x) && Backlog(x) >= 0
  {
    hide Exclusive, PortsInRange, Agreement;
  }

  /** A run in which the holder hands the lock on. */
  lemma {:induction false} TurnCanEnd(maxPorts: nat, x: Xhc) returns (acts: seq<Action>, y: Xhc)
    requires Inv(maxPorts, x) && Promised(x) && x.addressingPort != 0 && !Doomed(x)
    ensures Runs(maxPorts, x, acts, y) && y.addressingPort != x.addressingPort
    decreases Ahead(x), Backlog(x)
  {
    ForwardNearer(maxPorts, x);
    var a := Forward(x);
    var z := Step(maxPorts, x, a).0;
    StepKeepsInv(maxPorts, x, a);
    PromisedStep(maxPorts, x, a);
    BacklogIsNat(maxPorts, x);
    BacklogIsNat(maxPorts, z);
    hide Inv, Step, Doomed, Enabled, Forward, Ahead, Backlog, Promised;
    if z.addressingPort != x.addressingPort {
      acts, y := [], z;
    } else {
      acts, y := TurnCanEnd(maxPorts, z);
    }
    acts := [a] + acts;
    assert acts[1..] + [] == acts[1..];
  }

  /** Some continuation takes the lock away from its holder. */
  ghost predicate TurnMayEnd(maxPorts: nat, x: Xhc)
    requires maxPorts < PORTS
  {
    exists acts, y :: Runs(maxPorts, x, acts, y) && y.addressingPort != x.addressingPort
  }

  /** Main theorem: in every reachable state the turn of the port that holds the lock can end if and only
      if a slot is left for it, or it was addressed with one. */
  lemma TurnEndsExactly(maxPorts: nat, before: seq<Action>, x: Xhc)
    requires maxPorts < PORTS && Runs(maxPorts, Start(), before, x)
    ensures Sized(x) && (x.addressingPort != 0 ==> (TurnMayEnd(maxPorts, x) <==> !Doomed(x)))
  {
    StartInv(maxPorts);
    ReachedPromised(maxPorts, Start(), before, x);
    hide Inv, Doomed, Promised, Start, Runs;
    if x.addressingPort != 0 {
      if Doomed(x) {
        forall acts: seq<Action>, y: Xhc | Runs(maxPorts, x, acts, y) ensures y.addressingPort == x.addressingPort {
          DoomedForEver(maxPorts, x, acts, y);
        }
      } else {
        var acts, y := TurnCanEnd(maxPorts, x);
      }
    }
  }

  lemma {:induction false} ReachedPromised(maxPorts: nat, x: Xhc, acts: seq<Action>, y: Xhc)
    requires Inv(maxPorts, x) && Promised(x) && Runs(maxPorts, x, acts, y)
    ensures Inv(maxPorts, y) && Promised(y)
    decreases |acts|
  {
    InvSized(maxPorts, x);
    hide Inv, Promised, Step, Enabled;
    if acts != [] {
      StepKeepsInv(maxPorts, x, acts[0]);
      PromisedStep(maxPorts, x, acts[0]);
      ReachedPromised(maxPorts, Step(maxPorts, x, acts[0]).0, acts[1..], y);
    }
  }

  // ---- nine devices

  /** Ports 1 to k have been addressed, with slots 1 to k, and nothing is under way. */
  ghost predicate Seated(maxPorts: nat, x: Xhc, k: nat) {
    && Inv(maxPorts, x) && x.addressingPort == 0 && x.handled == |x.results| == |x.commands|
    && (forall p | 0 <= p < PORTS :: x.phase[p] == (if 1 <= p <= k then InitializingDevice else NotConnected))
    && (forall s | 1 <= s <= MAX_SLOTS :: x.devices[s].Some? <==> s <= k)
  }

  /** The port after them connects, is reset and asks for a slot. */
  function Asking(x: Xhc, p: nat): Xhc
    requires Sized(x) && p < PORTS
  {
    x.(phase := x.phase[p := EnablingSlot], addressingPort := p, commands := x.commands + [EnableSlot])
  }

  lemma {:induction false} RunsConcat(maxPorts: nat, x: Xhc, acts: seq<Action>, y: Xhc, more: seq<Action>, z: Xhc)
    requires maxPorts < PORTS && Runs(maxPorts, x, acts, y) && Runs(maxPorts, y, more, z)
    ensures Runs(maxPorts, x, acts + more, z)
    decreases |acts|
  {
    hide Step, Enabled;
    if acts == [] {
      assert acts + more == more;
    } else {
      RunsConcat(maxPorts, Step(maxPorts, x, acts[0]).0, acts[1..], y, more, z);
      assert (acts + more)[1..] == acts[1..] + more;
    }
  }

  /** Three runs, one after the other. */
  lemma ThreeRuns(maxPorts: nat, x: Xhc, a: seq<Action>, y: Xhc, b: seq<Action>, z: Xhc, c: seq<Action>, w: Xhc)
    requires maxPorts < PORTS && Runs(maxPorts, x, a, y) && Runs(maxPorts, y, b, z) && Runs(maxPorts, z, c, w)
    ensures Runs(maxPorts, x, a + b + c, w)
  {
    hide Runs;
    RunsConcat(maxPorts, x, a, y, b, z);
    RunsConcat(maxPorts, x, a + b, z, c, w);
  }

  /** A run of two steps. */
  lemma TwoSteps(maxPorts: nat, x: Xhc, a: Action, y: Xhc, b: Action, z: Xhc)
    requires maxPorts < PORTS && Sized(x) && ContextPortsInRange(x) && Enabled(maxPorts, x, a)
    requires Step(maxPorts, x, a).0 == y && Sized(y) && ContextPortsInRange(y) && Enabled(maxPorts, y, b)
    requires Step(maxPorts, y, b).0 == z
    ensures Runs(maxPorts, x, [a, b], z)
  {
    hide Step, Enabled, ContextPortsInRange;
    assert [a, b][1..] == [b] && [b][1..] == [];
    assert Runs(maxPorts, y, [b], z);
  }

  lemma ToAsking(maxPorts: nat, x: Xhc, k: nat)
    requires Seated(maxPorts, x, k) && k < maxPorts
    ensures maxPorts < PORTS && Sized(x)
    ensures Runs(maxPorts, x, [BootPort(k + 1, true), PortEvent(k + 1, PortStatus(true, true, true))], Asking(x, k + 1))
  {
    InvInRange(maxPorts, x);
    hide Inv;
    var p, st := k + 1, PortStatus(true, true, true);
    var y := x.(phase := x.phase[p := ResettingPort], addressingPort := p);
    assert y.phase[p := EnablingSlot] == x.phase[p := EnablingSlot];
    TwoSteps(maxPorts, x, BootPort(p, true), y, PortEvent(p, st), Asking(x, p));
  }

  /** Nobody waits: what the port registers say does not matter. */
  function Nobody(): nat -> bool { _ => false }

  /** The controller's answer, a slot or 0, and the handler's command. */
  function Answered(x: Xhc, p: nat, slot: nat): Xhc
    requires Sized(x) && p < PORTS && slot <= MAX_SLOTS
  {
    x.(phase := x.phase[p := AddressingDevice], addressingPort := p,
       commands := x.commands + [EnableSlot, AddressDevice(slot)], results := x.results + [slot],
       handled := x.handled + 1, devices := x.devices[slot := Some(Device(p, 0, false))],
       slotOf := x.slotOf[p := slot])
  }

  lemma ToAnswered(maxPorts: nat, x: Xhc, p: nat, slot: nat)
    requires maxPorts < PORTS && Sized(x) && ContextPortsInRange(x) && x.handled == |x.results| == |x.commands|
    requires 0 < p < PORTS && slot <= MAX_SLOTS && x.devices[slot].None? && (slot == 0 <==> SlotsTaken(x))
    ensures Runs(maxPorts, Asking(x, p), [Execute(slot), Complete(Nobody())], Answered(x, p, slot))
  {
    var asking := Asking(x, p);
    var y := asking.(results := x.results + [slot]);
    hide SlotsTaken, Nobody;
    assert asking.commands[|asking.results|] == EnableSlot && y.results[y.handled] == slot;
    assert SlotsTaken(asking) == SlotsTaken(x) by { SameDevices(asking, x); }
    assert y.phase[p := AddressingDevice] == x.phase[p := AddressingDevice];
    assert x.commands + [EnableSlot, AddressDevice(slot)] == y.commands + [AddressDevice(slot)];
    TwoSteps(maxPorts, asking, Execute(slot), y, Complete(Nobody()), Answered(x, p, slot));
  }

  lemma SameDevices(x: Xhc, y: Xhc)
    requires Sized(x) && Sized(y) && x.devices == y.devices
    ensures SlotsTaken(x) <==> SlotsTaken(y)
  {
  }

  /** The port is addressed: its device context is filled in and the lock released. */
  function Done(x: Xhc, p: nat, slot: nat): Xhc
    requires Sized(x) && p < PORTS && 1 <= slot <= MAX_SLOTS
  {
    var y := Answered(x, p, slot);
    y.(phase := x.phase[p := InitializingDevice], addressingPort := 0, results := x.results + [slot, slot],
       handled := x.handled + 2, devices := x.devices[slot := Some(Device(p, p, false))])
  }

  lemma NobodyWaits(phase: seq<Phase>, i: nat)
    requires |phase| == PORTS && i <= PORTS && forall p | i <= p < PORTS :: !phase[p].WaitingAddressed?
    ensures FirstWaiting(phase, i) == PORTS
  {
  }

  lemma ToDone(maxPorts: nat, x: Xhc, p: nat, slot: nat)
    requires maxPorts < PORTS && Sized(x) && ContextPortsInRange(x) && x.handled == |x.results| == |x.commands|
    requires 0 < p < PORTS && 1 <= slot <= MAX_SLOTS && x.devices[slot].None?
    requires forall q | 0 <= q < PORTS :: !x.phase[q].WaitingAddressed?
    ensures Runs(maxPorts, Answered(x, p, slot), [Execute(slot), Complete(Nobody())], Done(x, p, slot))
  {
    var x4 := Answered(x, p, slot);
    var x5 := x4.(results := x.results + [slot, slot], devices := x.devices[slot := Some(Device(p, p, false))]);
    hide Nobody;
    assert x4.results + [slot] == x5.results && x5.results[x5.handled] == slot;
    assert x4.commands[|x4.results|] == AddressDevice(slot);
    assert x4.devices[slot := Some(Device(p, p, false))] == x5.devices;
    assert ExecuteNext(x4, slot) == x5;
    NobodyWaits(x5.phase, 0);
    assert x5.phase[p := InitializingDevice] == x.phase[p := InitializingDevice];
    assert x5.devices[slot := Some(Device(p, p, false))] == x5.devices;
    TwoSteps(maxPorts, x4, Execute(slot), x5, Complete(Nobody()), Done(x, p, slot));
  }

  /** The next port is addressed with the next slot. */
  lemma NextIsSeated(maxPorts: nat, x: Xhc, k: nat) returns (acts: seq<Action>, y: Xhc)
    requires Seated(maxPorts, x, k) && k < maxPorts && k < MAX_SLOTS
    ensures maxPorts < PORTS && Runs(maxPorts, x, acts, y) && Seated(maxPorts, y, k + 1)
  {
    var p := k + 1;
    SeatedFacts(maxPorts, x, k);
    ToAsking(maxPorts, x, k);
    ToAnswered(maxPorts, x, p, p);
    ToDone(maxPorts, x, p, p);
    y := Done(x, p, p);
    DoneIsSeated(maxPorts, x, k);
    hide Seated, Inv, Done, Answered, Asking, Nobody, Runs;
    var ask := [BootPort(p, true), PortEvent(p, PortStatus(true, true, true))];
    var answer := [Execute(p), Complete(Nobody())];
    ThreeRuns(maxPorts, x, ask, Asking(x, p), answer, Answered(x, p, p), answer, y);
    acts := ask + answer + answer;
    RunTheorem(maxPorts, x, acts, y, 0);
    SeatedIs(maxPorts, y, p);
  }

  lemma SeatedFacts(maxPorts: nat, x: Xhc, k: nat)
    requires Seated(maxPorts, x, k)
    ensures maxPorts < PORTS && Sized(x) && ContextPortsInRange(x) && Inv(maxPorts, x)
    ensures x.handled == |x.results| == |x.commands| && x.addressingPort == 0
    ensures forall q | 0 <= q < PORTS :: !x.phase[q].WaitingAddressed?
    ensures k < MAX_SLOTS ==> x.devices[k + 1].None? && !SlotsTaken(x)
    ensures k == MAX_SLOTS ==> SlotsTaken(x)
  {
    InvInRange(maxPorts, x);
    hide Exclusive, PortsInRange, Agreement, Pending;
    assert k < MAX_SLOTS ==> x.devices[k + 1].None?;
  }

  /** All but the invariant. */
  predicate Placed(x: Xhc, k: nat) {
    && Sized(x) && x.addressingPort == 0 && x.handled == |x.results| == |x.commands|
    && (forall p | 0 <= p < PORTS :: x.phase[p] == (if 1 <= p <= k then InitializingDevice else NotConnected))
    && (forall s | 1 <= s <= MAX_SLOTS :: x.devices[s].Some? <==> s <= k)
  }

  lemma DoneIsSeated(maxPorts: nat, x: Xhc, k: nat)
    requires Seated(maxPorts, x, k) && k < MAX_SLOTS
    ensures Sized(x) && Placed(Done(x, k + 1, k + 1), k + 1)
  {
    hide Exclusive, PortsInRange, Agreement, Pending;
  }

  lemma SeatedIs(maxPorts: nat, x: Xhc, k: nat)
    requires Inv(maxPorts, x) && Placed(x, k)
    ensures Seated(maxPorts, x, k)
  {
    hide Inv;
  }

  lemma {:induction false} AllSeated(maxPorts: nat, k: nat) returns (acts: seq<Action>, y: Xhc)
    requires k <= MAX_SLOTS && k <= maxPorts < PORTS
    ensures Runs(maxPorts, Start(), acts, y) && Seated(maxPorts, y, k)
    decreases k
  {
    hide Seated, Inv;
    if k == 0 {
      StartInv(maxPorts);
      acts, y := [], Start();
      SeatedIs(maxPorts, y, 0);
    } else {
      var acts1, x := AllSeated(maxPorts, k - 1);
      var acts2, z := NextIsSeated(maxPorts, x, k - 1);
      hide Runs, Start;
      RunsConcat(maxPorts, Start(), acts1, x, acts2, z);
      acts, y := acts1 + acts2, z;
    }
  }

  /** A ninth port keeps the lock without a slot: its Address Device command, for slot id 0, has been
      handled and refused. */
  predicate NoSlotForNinth(x: Xhc) {
    && Sized(x) && x.addressingPort == 9 && x.phase[9].AddressingDevice? && x.handled == |x.commands| > 0
    && x.commands[|x.commands| - 1] == AddressDevice(0) && Doomed(x)
  }

  lemma ToRefused(maxPorts: nat, x: Xhc)
    requires maxPorts < PORTS && Sized(x) && ContextPortsInRange(x) && x.handled == |x.results| == |x.commands|
    requires x.devices[0].None? && x.phase[0].NotConnected?
    ensures var x4 := Answered(x, 9, 0);
      var y := x4.(results := x.results + [0, 0], handled := x.handled + 2);
      && Runs(maxPorts, x4, [Execute(0), Complete(Nobody())], y) && NoSlotForNinth(y)
  {
    var x4 := Answered(x, 9, 0);
    var x5 := x4.(results := x.results + [0, 0]);
    var y := x5.(handled := x.handled + 2);
    hide Nobody, SlotsTaken;
    assert x4.results + [0] == x5.results && x5.results[x5.handled] == 0;
    assert x4.commands[|x4.results|] == AddressDevice(0);
    assert ExecuteNext(x4, 0) == x5;
    TwoSteps(maxPorts, x4, Execute(0), x5, Complete(Nobody()), y);
  }

  lemma NinthIsRefused(maxPorts: nat, x: Xhc) returns (acts: seq<Action>, y: Xhc)
    requires Seated(maxPorts, x, 8) && 9 <= maxPorts
    ensures maxPorts < PORTS && Runs(maxPorts, x, acts, y) && NoSlotForNinth(y)
  {
    SeatedFacts(maxPorts, x, 8);
    FirstNotConnected(maxPorts, x);
    NoSlotYet(maxPorts, x);
    ToAsking(maxPorts, x, 8);
    ToAnswered(maxPorts, x, 9, 0);
    ToRefused(maxPorts, x);
    y := Answered(x, 9, 0).(results := x.results + [0, 0], handled := x.handled + 2);
    var ask := [BootPort(9, true), PortEvent(9, PortStatus(true, true, true))];
    var answer := [Execute(0), Complete(Nobody())];
    hide *;
    ThreeRuns(maxPorts, x, ask, Asking(x, 9), answer, Answered(x, 9, 0), answer, y);
    acts := ask + answer + answer;
  }

  lemma NinthRun(maxPorts: nat) returns (acts: seq<Action>, y: Xhc)
    requires 9 <= maxPorts < PORTS
    ensures Runs(maxPorts, Start(), acts, y) && NoSlotForNinth(y)
  {
    hide Runs, Seated, NoSlotForNinth, Start, Inv;
    var acts1, x := AllSeated(maxPorts, 8);
    var acts2, z := NinthIsRefused(maxPorts, x);
    RunsConcat(maxPorts, Start(), acts1, x, acts2, z);
    acts, y := acts1 + acts2, z;
  }

  lemma NoSlotYet(maxPorts: nat, x: Xhc)
    requires Inv(maxPorts, x) && x.addressingPort == 0
    ensures x.devices[0].None?
  {
    hide PortsInRange, Pending;
  }

  /** Nine devices: from the start a run addresses eight ports; the ninth gets the lock, slot id 0 and a
      refusal, and then keeps the lock in every continuation, and whoever waits, waits for ever. */
  lemma NinthPortKeepsLock(maxPorts: nat) returns (acts: seq<Action>, y: Xhc)
    requires 9 <= maxPorts < PORTS
    ensures Runs(maxPorts, Start(), acts, y) && NoSlotForNinth(y)
    ensures forall more: seq<Action>, z: Xhc | Runs(maxPorts, y, more, z) ::
              && Sized(z) && z.addressingPort == 9 && z.phase[9].AddressingDevice?
              && forall q | 0 <= q < PORTS && y.phase[q].WaitingAddressed? :: z.phase[q].WaitingAddressed?
  {
    acts, y := NinthRun(maxPorts);
    StartInv(maxPorts);
    RunTheorem(maxPorts, Start(), acts, y, 9);
    hide *;
    forall more: seq<Action>, z: Xhc | Runs(maxPorts, y, more, z)
      ensures Sized(z) && z.addressingPort == 9 && z.phase[9].AddressingDevice?
      ensures forall q | 0 <= q < PORTS && y.phase[q].WaitingAddressed? :: z.phase[q].WaitingAddressed?
    {
      NinthForEver(maxPorts, y, more, z);
    }
  }

  lemma NinthForEver(maxPorts: nat, y: Xhc, more: seq<Action>, z: Xhc)
    requires Inv(maxPorts, y) && Runs(maxPorts, y, more, z) && NoSlotForNinth(y)
    ensures Sized(y) && Sized(z) && z.addressingPort == 9 && z.phase[9].AddressingDevice?
    ensures forall q | 0 <= q < PORTS && y.phase[q].WaitingAddressed? :: z.phase[q].WaitingAddressed?
  {
    DoomedForEver(maxPorts, y, more, z);
    RunTheorem(maxPorts, y, more, z, 9);
    hide Inv, Doomed, Step, Runs;
  }
}
