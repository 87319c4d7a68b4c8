/** Every phase of a port, and exactly what moves it on: which event, with which contents, to which phase
    and with which command. */
module PortSteps {
  import opened Options
  import opened PortProtocol
  import opened PortTheorems
  import opened PortQueue

  /** The event says that the port is plugged in. */
  predicate Connects(a: Action, p: nat) {
    || (a.BootPort? && a.port == p && a.connected)
    || (a.PortEvent? && a.port == p && a.status.connected)
  }

  /** The event says that the port's reset is complete and the port enabled. */
  predicate ReportsReset(a: Action, p: nat) {
    a.PortEvent? && a.port == p && a.status.enabled && a.status.resetChanged
  }

  /** The completion of an Enable Slot command. */
  predicate PicksSlot(x: Xhc, a: Action) {
    a.Complete? && x.handled < |x.commands| && x.commands[x.handled] == EnableSlot
  }

  /** A successful transfer of the port's device, which is initialised after it, at a speed that is known. */
  predicate Finishes(x: Xhc, a: Action, p: nat)
    requires Sized(x)
  {
    && a.TransferEvent? && p in x.slotOf && a.slot == x.slotOf[p] && a.transfer.Went? && 1 <= a.speed <= 5
    && a.slot <= MAX_SLOTS && x.devices[a.slot].Some?
    && (x.devices[a.slot].value.initialized || a.transfer.finished)
  }

  /** The completion of the Configure Endpoint command for the port's slot. */
  predicate Configures(x: Xhc, a: Action, p: nat) {
    && a.Complete? && x.handled < |x.commands| && p in x.slotOf
    && x.commands[x.handled] == ConfigureEndpoint(x.slotOf[p])
  }

  /** The first port that waits. */
  predicate FirstInLine(phase: seq<Phase>, p: nat) {
    p < |phase| && phase[p].WaitingAddressed? && forall q | 0 <= q < p :: !phase[q].WaitingAddressed?
  }

  // ---- what the handlers leave

  lemma FirstIsFound(phase: seq<Phase>, p: nat)
    requires |phase| == PORTS && p < PORTS && phase[p].WaitingAddressed?
    ensures FirstWaiting(phase, 0) < PORTS
    ensures FirstWaiting(phase, 0) == p <==> FirstInLine(phase, p)
  {
  }

  lemma HandedPhase(x: Xhc, port: nat, slot: nat, connected: nat -> bool, p: nat)
    requires Sized(x) && 0 < port < PORTS && slot <= MAX_SLOTS && x.devices[slot].Some? && p < PORTS
    requires x.phase[port].AddressingDevice?
    ensures var y := Handed(x, port, slot, NextInLine(x.phase, connected));
      && |y.phase| == PORTS && y.commands == x.commands && y.slotOf == x.slotOf
      && y.phase[p] == (if p == port then InitializingDevice
                        else if FirstInLine(x.phase, p) && connected(p) then ResettingPort else x.phase[p])
  {
    if x.phase[p].WaitingAddressed? {
      FirstIsFound(x.phase, p);
    }
  }

  lemma PortOfSlot(maxPorts: nat, x: Xhc, slot: nat)
    requires Inv(maxPorts, x) && slot <= MAX_SLOTS && x.devices[slot].Some?
    ensures var p := x.devices[slot].value.inputPort; p < PORTS && p in x.slotOf && x.slotOf[p] == slot
    ensures forall q | q in x.slotOf && x.slotOf[q] == slot :: q == x.devices[slot].value.inputPort
  {
    hide Exclusive, PortsInRange, Pending;
  }

  lemma SlotOfPort(maxPorts: nat, x: Xhc, p: nat)
    requires Inv(maxPorts, x) && p < PORTS && Rank(x.phase[p]) >= 4
    ensures p in x.slotOf && 0 <= x.slotOf[p] <= MAX_SLOTS && x.devices[x.slotOf[p]].Some?
    ensures x.devices[x.slotOf[p]].value.inputPort == p
    ensures Rank(x.phase[p]) > 4 ==> x.devices[x.slotOf[p]].value.contextPort == p
  {
    hide Exclusive, PortsInRange, Pending;
  }

  lemma Holder(maxPorts: nat, x: Xhc, p: nat)
    requires Inv(maxPorts, x) && p < PORTS
    ensures Busy(x.phase[p]) <==> p == x.addressingPort != 0
    ensures x.phase[0].NotConnected?
  {
    Excluded(maxPorts, x);
    FirstNotConnected(maxPorts, x);
    hide Inv;
  }

  /** The completion of Enable Slot. */
  lemma PickedPhase(maxPorts: nat, x: Xhc, connected: nat -> bool, p: nat)
    requires Inv(maxPorts, x) && Enabled(maxPorts, x, Complete(connected)) && p < PORTS
    requires x.commands[x.handled].EnableSlot?
    ensures ContextPortsInRange(x) && Sized(Step(maxPorts, x, Complete(connected)).0)
    ensures x.phase[x.addressingPort].EnablingSlot?
    ensures var y := Step(maxPorts, x, Complete(connected)).0;
      && y.phase[p] == (if p == x.addressingPort then AddressingDevice else x.phase[p])
      && y.commands == x.commands + [AddressDevice(x.results[x.handled])]
      && y.slotOf == x.slotOf[x.addressingPort := x.results[x.handled]]
  {
    AddressKeepsInv(maxPorts, x);
    PickedSlot(maxPorts, x);
    InvInRange(maxPorts, x);
    hide Exclusive, PortsInRange, Agreement, Pending, SlotsTaken;
  }

  /** The completion of Address Device. */
  lemma AddressedPhase(maxPorts: nat, x: Xhc, connected: nat -> bool, p: nat)
    requires Inv(maxPorts, x) && Enabled(maxPorts, x, Complete(connected)) && p < PORTS
    requires x.commands[x.handled].AddressDevice?
    ensures ContextPortsInRange(x) && Sized(Step(maxPorts, x, Complete(connected)).0)
    ensures x.phase[x.addressingPort].AddressingDevice?
    ensures var y := Step(maxPorts, x, Complete(connected)).0;
      && y.commands == x.commands
      && y.phase[p] == (if x.commands[x.handled].slot == 0 then x.phase[p]
                        else if p == x.addressingPort then InitializingDevice
                        else if FirstInLine(x.phase, p) && connected(p) then ResettingPort else x.phase[p])
  {
    CompletionSized(maxPorts, x, connected);
    AddressedFacts(maxPorts, x);
    AddressStep(maxPorts, x, connected);
    hide Inv, Step, Handed, FirstInLine;
    HandedPhase(x, x.addressingPort, x.commands[x.handled].slot, connected, p);
  }

  /** The completion of Configure Endpoint. */
  lemma ConfiguredPhase(maxPorts: nat, x: Xhc, connected: nat -> bool, p: nat)
    requires Inv(maxPorts, x) && Enabled(maxPorts, x, Complete(connected)) && p < PORTS
    requires x.commands[x.handled].ConfigureEndpoint?
    ensures ContextPortsInRange(x) && Sized(Step(maxPorts, x, Complete(connected)).0)
    ensures var y, slot := Step(maxPorts, x, Complete(connected)).0, x.commands[x.handled].slot;
      && y.commands == x.commands && slot <= MAX_SLOTS && x.devices[slot].Some?
      && x.phase[x.devices[slot].value.inputPort % PORTS].ConfiguringEndpoints?
      && y.phase[p] == (if p == x.devices[slot].value.inputPort then Configured else x.phase[p])
  {
    InvInRange(maxPorts, x);
    FinishFacts(maxPorts, x);
    hide Exclusive, PortsInRange, Agreement, Pending;
  }

  /** A transfer event. */
  lemma TransferPhase(maxPorts: nat, x: Xhc, slot: nat, t: Transfer, speed: nat, p: nat)
    requires Inv(maxPorts, x) && p < PORTS
    ensures ContextPortsInRange(x) && Sized(OnTransferEvent(x, slot, t, speed).0)
    ensures var y, a := OnTransferEvent(x, slot, t, speed).0, TransferEvent(slot, t, speed);
      y.phase[p] == if x.phase[p].InitializingDevice? && Finishes(x, a, p) then ConfiguringEndpoints else x.phase[p]
    ensures var y := OnTransferEvent(x, slot, t, speed).0;
      y.commands == if exists q :: 0 <= q < PORTS && x.phase[q].InitializingDevice?
                                   && Finishes(x, TransferEvent(slot, t, speed), q)
                    then x.commands + [ConfigureEndpoint(slot)] else x.commands
  {
    InvInRange(maxPorts, x);
    if FindBySlot(x, slot).Some? {
      InitializingPort(maxPorts, x, slot);
      PortOfSlot(maxPorts, x, slot);
      var q := x.devices[slot].value.inputPort;
      if x.phase[q].InitializingDevice? {
        SlotOfPort(maxPorts, x, q);
      }
      Holder(maxPorts, x, q);
    }
    hide Inv;
  }

  // ---- every phase, exactly

  lemma PortPhase(maxPorts: nat, x: Xhc, a: Action, p: nat)
    requires Inv(maxPorts, x) && Enabled(maxPorts, x, a) && p < PORTS && (a.BootPort? || a.PortEvent?)
    ensures ContextPortsInRange(x) && Sized(Step(maxPorts, x, a).0)
    ensures Step(maxPorts, x, a).0.phase[p] ==
            if x.phase[p].NotConnected? && Connects(a, p) then
              (if x.addressingPort == 0 then ResettingPort else WaitingAddressed)
            else if x.phase[p].ResettingPort? && ReportsReset(a, p) then EnablingSlot
            else x.phase[p]
  {
    InvInRange(maxPorts, x);
    hide Inv;
  }

  lemma CompletePhase(maxPorts: nat, x: Xhc, connected: nat -> bool, p: nat)
    requires Inv(maxPorts, x) && Enabled(maxPorts, x, Complete(connected)) && p < PORTS
    ensures ContextPortsInRange(x) && Sized(Step(maxPorts, x, Complete(connected)).0)
    ensures var a := Complete(connected);
      Step(maxPorts, x, a).0.phase[p] ==
      match x.phase[p]
      case WaitingAddressed =>
        if HandsOn(x, a) && FirstInLine(x.phase, p) && connected(p) then ResettingPort else WaitingAddressed
      case EnablingSlot => if PicksSlot(x, a) then AddressingDevice else EnablingSlot
      case AddressingDevice => if HandsOn(x, a) then InitializingDevice else AddressingDevice
      case ConfiguringEndpoints => if Configures(x, a, p) then Configured else ConfiguringEndpoints
      case _ => x.phase[p]
  {
    Holder(maxPorts, x, p);
    match x.commands[x.handled]
    case EnableSlot =>
      PickedPhase(maxPorts, x, connected, p);
      hide Inv, Step, FirstInLine;
    case AddressDevice(slot) =>
      AddressedPhase(maxPorts, x, connected, p);
      hide Inv, Step;
    case ConfigureEndpoint(slot) =>
      ConfiguredPhase(maxPorts, x, connected, p);
      PortOfSlot(maxPorts, x, slot);
      hide Inv, Step, FirstInLine;
  }

  /** Main theorem: what moves a port on from each phase, and to which. From waiting for its reset to be
      reported complete, in particular, nothing but a port status change event that says so. */
  lemma PhasesExactly(maxPorts: nat, x: Xhc, a: Action, p: nat)
    requires Inv(maxPorts, x) && Enabled(maxPorts, x, a) && p < PORTS
    ensures ContextPortsInRange(x) && Sized(Step(maxPorts, x, a).0)
    ensures Step(maxPorts, x, a).0.phase[p] ==
      match x.phase[p]
      case NotConnected =>
        if !Connects(a, p) then NotConnected
        else if x.addressingPort == 0 then ResettingPort else WaitingAddressed
      case WaitingAddressed =>
        if HandsOn(x, a) && FirstInLine(x.phase, p) && a.connectedPorts(p) then ResettingPort else WaitingAddressed
      case ResettingPort => if ReportsReset(a, p) then EnablingSlot else ResettingPort
      case EnablingSlot => if PicksSlot(x, a) then AddressingDevice else EnablingSlot
      case AddressingDevice => if HandsOn(x, a) then InitializingDevice else AddressingDevice
      case InitializingDevice => if Finishes(x, a, p) then ConfiguringEndpoints else InitializingDevice
      case ConfiguringEndpoints => if Configures(x, a, p) then Configured else ConfiguringEndpoints
      case Configured => Configured
  {
    InvInRange(maxPorts, x);
    match a
    case Complete(connected) => CompletePhase(maxPorts, x, connected, p); hide Inv, Step, FirstInLine;
    case TransferEvent(slot, t, speed) =>
      TransferPhase(maxPorts, x, slot, t, speed, p);
      hide Inv, OnTransferEvent, FirstInLine;
    case Execute(slot) => hide Inv;
    case _ => PortPhase(maxPorts, x, a, p); hide Inv, Step;
  }

  /** The event moves some port from its reset to a slot, or from initialisation to its endpoints. */
  ghost predicate AnyReset(x: Xhc, a: Action) {
    exists p :: 0 <= p < |x.phase| && x.phase[p].ResettingPort? && ReportsReset(a, p)
  }

  ghost predicate AnyFinish(x: Xhc, a: Action)
    requires Sized(x)
  {
    exists p :: 0 <= p < PORTS && x.phase[p].InitializingDevice? && Finishes(x, a, p)
  }

  /** And each command, exactly: Enable Slot when a port's reset is reported complete, Address Device for
      the slot that Enable Slot yielded, Configure Endpoint when a device has come up. */
  lemma CommandsExactly(maxPorts: nat, x: Xhc, a: Action)
    requires Inv(maxPorts, x) && Enabled(maxPorts, x, a)
    ensures ContextPortsInRange(x)
    ensures Step(maxPorts, x, a).0.commands ==
            if AnyReset(x, a) then x.commands + [EnableSlot]
            else if PicksSlot(x, a) then x.commands + [AddressDevice(x.results[x.handled])]
            else if AnyFinish(x, a) then x.commands + [ConfigureEndpoint(a.slot)]
            else x.commands
  {
    InvInRange(maxPorts, x);
    match a
    case Complete(connected) => CompleteCommand(maxPorts, x, connected); hide Inv, Step;
    case TransferEvent(slot, t, speed) =>
      TransferPhase(maxPorts, x, slot, t, speed, 0);
      hide Inv, OnTransferEvent;
    case Execute(slot) => hide Inv;
    case _ => PortCommand(maxPorts, x, a); hide Inv, Step;
  }

  lemma CompleteCommand(maxPorts: nat, x: Xhc, connected: nat -> bool)
    requires Inv(maxPorts, x) && Enabled(maxPorts, x, Complete(connected))
    ensures ContextPortsInRange(x)
    ensures Step(maxPorts, x, Complete(connected)).0.commands ==
            if PicksSlot(x, Complete(connected)) then x.commands + [AddressDevice(x.results[x.handled])] else x.commands
  {
    hide Inv, Step, FirstInLine;
    match x.commands[x.handled]
    case EnableSlot => PickedPhase(maxPorts, x, connected, 0);
    case AddressDevice(slot) => AddressedPhase(maxPorts, x, connected, 0);
    case ConfigureEndpoint(slot) => ConfiguredPhase(maxPorts, x, connected, 0);
  }

  lemma PortCommand(maxPorts: nat, x: Xhc, a: Action)
    requires Inv(maxPorts, x) && Enabled(maxPorts, x, a) && (a.BootPort? || a.PortEvent?)
    ensures ContextPortsInRange(x)
    ensures Step(maxPorts, x, a).0.commands
            == if AnyReset(x, a) then x.commands + [EnableSlot] else x.commands
  {
    InvInRange(maxPorts, x);
    if a.PortEvent? && x.phase[a.port].ResettingPort? && a.status.enabled && a.status.resetChanged {
      assert ReportsReset(a, a.port);
    }
    hide Inv;
  }

  /** A port event that neither connects a new port nor reports a reset changes nothing, and it is an error
      unless the port is not connected yet or being reset. */
  lemma OtherPortEvents(maxPorts: nat, x: Xhc, port: nat, status: PortStatus)
    requires Inv(maxPorts, x) && Enabled(maxPorts, x, PortEvent(port, status))
    ensures ContextPortsInRange(x)
    ensures var a := PortEvent(port, status);
      && (!(x.phase[port].NotConnected? && status.connected)
          && !(x.phase[port].ResettingPort? && status.enabled && status.resetChanged)
          ==> Step(maxPorts, x, a).0 == x)
      && (Step(maxPorts, x, a).1 == Success <==> x.phase[port].NotConnected? || x.phase[port].ResettingPort?)
      && (Step(maxPorts, x, a).1 != Success ==> Step(maxPorts, x, a).1 == InvalidPhase)
  {
    InvInRange(maxPorts, x);
    hide Inv;
  }

  /** A transfer event for a slot without a device, or whose transfer failed, changes nothing. Otherwise the
      device may be initialised after it; the one other error is an unknown speed when its endpoints are
      due to be configured. */
  lemma TransferExactly(maxPorts: nat, x: Xhc, slot: nat, t: Transfer, speed: nat)
    requires Inv(maxPorts, x)
    ensures ContextPortsInRange(x)
    ensures var (y, err) := OnTransferEvent(x, slot, t, speed);
      if slot > 8 || x.devices[slot].None? then y == x && err == InvalidSlotID
      else if t.Failed? then y == x && err == TransferError
      else
        var d := x.devices[slot].value;
        var waits := (d.initialized || t.finished) && x.phase[d.inputPort % PORTS].InitializingDevice?;
        && y.devices == x.devices[slot := Some(Device(d.inputPort, d.contextPort, d.initialized || t.finished))]
        && err == if waits && !(1 <= speed <= 5) then UnknownXHCISpeedID else Success
  {
    InvInRange(maxPorts, x);
    if slot <= MAX_SLOTS && x.devices[slot].Some? {
      InitializingPort(maxPorts, x, slot);
      PortOfSlot(maxPorts, x, slot);
      var q := x.devices[slot].value.inputPort;
      if x.phase[q].InitializingDevice? {
        SlotOfPort(maxPorts, x, q);
      }
    }
    hide Inv;
  }

  /** The issuer types in numbers, and what no handler is meant for. */
  lemma IssuerTypes(x: Xhc, issuer: nat, slot: nat, connected: nat -> bool)
    requires Sized(x) && ContextPortsInRange(x)
    ensures TypeOf(EnableSlot) == 9 && TypeOf(AddressDevice(slot)) == 11 && TypeOf(ConfigureEndpoint(slot)) == 12
    ensures issuer != 9 && issuer != 11 && issuer != 12 ==>
              OnCommandCompletion(x, issuer, slot, connected) == (x, InvalidPhase)
  {
  }

  // ---- over whole runs

  /** No port comes past its reset unless the reset was reported complete on the way. */
  lemma {:induction false} ResetWasReported(maxPorts: nat, x: Xhc, acts: seq<Action>, y: Xhc, p: nat)
    requires Inv(maxPorts, x) && Runs(maxPorts, x, acts, y) && p < PORTS
    ensures Sized(x) && Sized(y)
    ensures Rank(x.phase[p]) <= 2 < Rank(y.phase[p]) ==> exists i :: 0 <= i < |acts| && ReportsReset(acts[i], p)
    decreases |acts|
  {
    InvSized(maxPorts, x);
    hide Inv, Step, Enabled, ReportsReset;
    if acts != [] {
      var z := Step(maxPorts, x, acts[0]).0;
      StepKeepsInv(maxPorts, x, acts[0]);
      PhasesExactly(maxPorts, x, acts[0], p);
      ResetWasReported(maxPorts, z, acts[1..], y, p);
      if i :| 0 <= i < |acts| - 1 && ReportsReset(acts[1..][i], p) {
        assert acts[i + 1] == acts[1..][i];
      }
    }
  }

  function EnableSlots(cs: seq<Command>): nat {
    if cs == [] then 0 else EnableSlots(cs[..|cs| - 1]) + (if cs[|cs| - 1] == EnableSlot then 1 else 0)
  }

  /** Ports below n that are past their reset. */
  function PastReset(phase: seq<Phase>, n: nat): nat
    requires n <= |phase|
  {
    if n == 0 then 0 else PastReset(phase, n - 1) + (if Rank(phase[n - 1]) > 2 then 1 else 0)
  }

  lemma {:induction false} PastResetMoves(phase: seq<Phase>, phase': seq<Phase>, p: nat, n: nat)
    requires n <= |phase| == |phase'|
    requires forall q | 0 <= q < n && q != p :: Rank(phase[q]) > 2 <==> Rank(phase'[q]) > 2
    ensures PastReset(phase', n) == PastReset(phase, n)
            + if p < n then (if Rank(phase'[p]) > 2 then 1 else 0) - (if Rank(phase[p]) > 2 then 1 else 0) else 0
    decreases n
  {
    if n > 0 {
      PastResetMoves(phase, phase', p, n - 1);
    }
  }

  lemma EnableSlotsMore(cs: seq<Command>, c: Command)
    ensures EnableSlots(cs + [c]) == EnableSlots(cs) + if c == EnableSlot then 1 else 0
  {
    assert (cs + [c])[..|cs|] == cs;
  }

  lemma EnableSlotsStep(maxPorts: nat, x: Xhc, a: Action)
    requires Inv(maxPorts, x) && Enabled(maxPorts, x, a)
    ensures ContextPortsInRange(x)
    ensures EnableSlots(Step(maxPorts, x, a).0.commands) == EnableSlots(x.commands) + if AnyReset(x, a) then 1 else 0
  {
    CommandsExactly(maxPorts, x, a);
    hide Inv, Step, EnableSlots, AnyReset, AnyFinish;
    EnableSlotsMore(x.commands, EnableSlot);
    if PicksSlot(x, a) {
      EnableSlotsMore(x.commands, AddressDevice(x.results[x.handled]));
    }
    if a.TransferEvent? {
      EnableSlotsMore(x.commands, ConfigureEndpoint(a.slot));
    }
  }

  lemma PastResetAt(maxPorts: nat, x: Xhc, a: Action, q: nat)
    requires Inv(maxPorts, x) && Enabled(maxPorts, x, a) && q < PORTS
    ensures ContextPortsInRange(x) && Sized(x) && Sized(Step(maxPorts, x, a).0)
    ensures Rank(Step(maxPorts, x, a).0.phase[q]) > 2
            <==> Rank(x.phase[q]) > 2 || (x.phase[q].ResettingPort? && ReportsReset(a, q))
  {
    InvSized(maxPorts, x);
    hide *;
    PhasesExactly(maxPorts, x, a, q);
    PastIs(x.phase[q], Step(maxPorts, x, a).0.phase[q], ReportsReset(a, q));
  }

  lemma PastIs(before: Phase, after: Phase, reported: bool)
    requires before.ResettingPort? ==> after == if reported then EnablingSlot else ResettingPort
    requires before.NotConnected? || before.WaitingAddressed? ==>
               after.NotConnected? || after.WaitingAddressed? || after.ResettingPort?
    requires !before.NotConnected? && !before.WaitingAddressed? && !before.ResettingPort? ==>
               !after.NotConnected? && !after.WaitingAddressed? && !after.ResettingPort?
    ensures Rank(after) > 2 <==> Rank(before) > 2 || (before.ResettingPort? && reported)
  {
  }

  lemma PastResetStep(maxPorts: nat, x: Xhc, a: Action)
    requires Inv(maxPorts, x) && Enabled(maxPorts, x, a)
    ensures ContextPortsInRange(x) && Sized(Step(maxPorts, x, a).0)
    ensures PastReset(Step(maxPorts, x, a).0.phase, PORTS)
            == PastReset(x.phase, PORTS) + if AnyReset(x, a) then 1 else 0
  {
    PastResetAt(maxPorts, x, a, 0);
    InvSized(maxPorts, x);
    hide Inv, Step, PastReset, Enabled, AnyReset;
    var y, p := Step(maxPorts, x, a).0, if a.PortEvent? then a.port else PORTS;
    forall q: nat | q < PORTS
      ensures Rank(y.phase[q]) > 2 <==> Rank(x.phase[q]) > 2 || (x.phase[q].ResettingPort? && ReportsReset(a, q))
    {
      PastResetAt(maxPorts, x, a, q);
    }
    PastResetMoves(x.phase, y.phase, p, PORTS);
    ResetIs(x, a);
  }

  lemma ResetIs(x: Xhc, a: Action)
    ensures AnyReset(x, a)
            <==> a.PortEvent? && a.port < |x.phase| && x.phase[a.port].ResettingPort? && ReportsReset(a, a.port)
  {
  }

  /** A step issues Enable Slot for the one port it moves past its reset. */
  lemma EnableStep(maxPorts: nat, x: Xhc, a: Action)
    requires Inv(maxPorts, x) && Enabled(maxPorts, x, a)
    ensures ContextPortsInRange(x) && Sized(Step(maxPorts, x, a).0)
    ensures var y := Step(maxPorts, x, a).0;
      EnableSlots(y.commands) - EnableSlots(x.commands) == PastReset(y.phase, PORTS) - PastReset(x.phase, PORTS)
  {
    EnableSlotsStep(maxPorts, x, a);
    PastResetStep(maxPorts, x, a);
    hide *;
  }

  /** Main theorem: in every run from the start there is one Enable Slot command for each port whose reset
      was reported complete, and for no other. */
  lemma OneEnableSlotEach(maxPorts: nat, acts: seq<Action>, y: Xhc)
    requires maxPorts < PORTS && Runs(maxPorts, Start(), acts, y)
    ensures Sized(y) && EnableSlots(y.commands) == PastReset(y.phase, PORTS)
    ensures forall p: nat | p < PORTS && Rank(y.phase[p]) > 2 :: exists i :: 0 <= i < |acts| && ReportsReset(acts[i], p)
  {
    StartInv(maxPorts);
    EnableRun(maxPorts, Start(), acts, y);
    NonePast(Start().phase, PORTS);
    hide Inv, Runs, PastReset;
    forall p: nat | p < PORTS && Rank(y.phase[p]) > 2
      ensures exists i :: 0 <= i < |acts| && ReportsReset(acts[i], p)
    {
      ResetWasReported(maxPorts, Start(), acts, y, p);
    }
  }

  lemma NonePast(phase: seq<Phase>, n: nat)
    requires n <= |phase| && forall p | 0 <= p < n :: phase[p].NotConnected?
    ensures PastReset(phase, n) == 0
    decreases n
  {
    if n > 0 {
      NonePast(phase, n - 1);
    }
  }

  lemma {:induction false} EnableRun(maxPorts: nat, x: Xhc, acts: seq<Action>, y: Xhc)
    requires Inv(maxPorts, x) && Runs(maxPorts, x, acts, y)
    ensures Sized(x) && Sized(y)
    ensures EnableSlots(y.commands) - EnableSlots(x.commands) == PastReset(y.phase, PORTS) - PastReset(x.phase, PORTS)
    decreases |acts|
  {
    InvSized(maxPorts, x);
    hide Inv, Step, Enabled, EnableSlots, PastReset;
    if acts != [] {
      StepKeepsInv(maxPorts, x, acts[0]);
      EnableStep(maxPorts, x, acts[0]);
      EnableRun(maxPorts, Step(maxPorts, x, acts[0]).0, acts[1..], y);
    }
  }
}
