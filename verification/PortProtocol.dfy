/** The port configuration protocol of kernel/usb/xhci/xhci.cpp: a phase per root hub port, the
    `addressing_port` lock, and handlers driven by port, transfer and command completion events. */
module PortProtocol {
  import opened Options
  import opened Trbs

  datatype Phase =
    | NotConnected | WaitingAddressed | ResettingPort | EnablingSlot
    | AddressingDevice | InitializingDevice | ConfiguringEndpoints | Configured

  /** The order of the phases in the source's enumeration. */
  function Rank(p: Phase): nat {
    match p
    case NotConnected => 0
    case WaitingAddressed => 1
    case ResettingPort => 2
    case EnablingSlot => 3
    case AddressingDevice => 4
    case InitializingDevice => 5
    case ConfiguringEndpoints => 6
    case Configured => 7
  }

  /** Between reset and address assignment only one port may be at work. */
  predicate Busy(p: Phase) { p.ResettingPort? || p.EnablingSlot? || p.AddressingDevice? }

  datatype Error = Success | InvalidPhase | InvalidSlotID | UnknownXHCISpeedID | TransferError

  /** A device as the handlers see it: root_hub_port_num in the input context (written by software)
      and in the device context (written by the controller), and `IsInitialized`. */
  datatype Device = Device(inputPort: nat, contextPort: nat, initialized: bool)

  datatype Command = EnableSlot | AddressDevice(slot: nat) | ConfigureEndpoint(slot: nat)

  const PORTS := 256
  const MAX_SLOTS := 8

  /** The driver's state; then, as history, the commands pushed so far, how many the controller has
      executed with the slot id of each, how many completions have been handled, and the slot each
      addressed port was given. */
  datatype Xhc = Xhc(
    phase: seq<Phase>, addressingPort: nat, devices: seq<Option<Device>>,
    commands: seq<Command>, results: seq<nat>, handled: nat, slotOf: map<nat, nat>)

  function Start(): Xhc {
    Xhc(seq(PORTS, _ => NotConnected), 0, seq(MAX_SLOTS + 1, _ => None), [], [], 0, map[])
  }

  predicate Sized(x: Xhc) {
    |x.phase| == PORTS && |x.devices| == MAX_SLOTS + 1 && x.addressingPort < PORTS
  }

  // ---- handlers; port registers are read as parameters

  datatype PortStatus = PortStatus(connected: bool, enabled: bool, resetChanged: bool)

  function SetPhase(x: Xhc, port: nat, p: Phase): Xhc
    requires Sized(x) && port < PORTS
  {
    x.(phase := x.phase[port := p])
  }

  function Issue(x: Xhc, c: Command): Xhc { x.(commands := x.commands + [c]) }

  function FindBySlot(x: Xhc, slot: nat): Option<Device>
    requires Sized(x)
  {
    if slot > MAX_SLOTS then None else x.devices[slot]
  }

  function ResetPort(x: Xhc, port: nat, connected: bool): (Xhc, Error)
    requires Sized(x) && port < PORTS
  {
    if !connected then (x, Success)
    else if x.addressingPort != 0 then (SetPhase(x, port, WaitingAddressed), Success)
    else if !x.phase[port].NotConnected? && !x.phase[port].WaitingAddressed? then (x, InvalidPhase)
    else (SetPhase(x, port, ResettingPort).(addressingPort := port), Success)
  }

  function EnableSlotFor(x: Xhc, port: nat, st: PortStatus): (Xhc, Error)
    requires Sized(x) && port < PORTS
  {
    if st.enabled && st.resetChanged
    then (Issue(SetPhase(x, port, EnablingSlot), EnableSlot), Success)
    else (x, Success)
  }

  /** A slot that is already allocated is used as it is: AllocDevice's error is not looked at. */
  function AddressDeviceAt(x: Xhc, port: nat, slot: nat): (Xhc, Error)
    requires Sized(x) && port < PORTS
  {
    if slot > MAX_SLOTS then (x, InvalidSlotID)
    else
      var dev := if x.devices[slot].Some? then x.devices[slot].value else Device(0, 0, false);
      var y := x.(devices := x.devices[slot := Some(dev.(inputPort := port))], slotOf := x.slotOf[port := slot]);
      (Issue(SetPhase(y, port, AddressingDevice), AddressDevice(slot)), Success)
  }

  function InitializeDevice(x: Xhc, port: nat, slot: nat): (Xhc, Error)
    requires Sized(x) && port < PORTS
  {
    if FindBySlot(x, slot).None? then (x, InvalidSlotID)
    else
      var y := SetPhase(x, port, InitializingDevice);
      (y.(devices := y.devices[slot := Some(y.devices[slot].value.(initialized := false))]), Success)
  }

  function CompleteConfiguration(x: Xhc, port: nat, slot: nat): (Xhc, Error)
    requires Sized(x) && port < PORTS
  {
    if FindBySlot(x, slot).None? then (x, InvalidSlotID) else (SetPhase(x, port, Configured), Success)
  }

  function ConfigureEndpoints(x: Xhc, slot: nat, speed: nat): (Xhc, Error)
    requires Sized(x) && FindBySlot(x, slot).Some? && FindBySlot(x, slot).value.contextPort < PORTS
  {
    var dev := x.devices[slot].value;
    var y := x.(devices := x.devices[slot := Some(dev.(inputPort := dev.contextPort))]);
    if speed == 0 || speed > 5 then (y, UnknownXHCISpeedID)
    else (Issue(SetPhase(y, dev.contextPort, ConfiguringEndpoints), ConfigureEndpoint(slot)), Success)
  }

  /** Boot-time loop of main: `ConfigurePort` on each connected port. */
  function ConfigurePort(x: Xhc, port: nat, connected: bool): (Xhc, Error)
    requires Sized(x) && port < PORTS
  {
    if x.phase[port].NotConnected? then ResetPort(x, port, connected) else (x, Success)
  }

  function OnPortStatusChange(x: Xhc, port: nat, st: PortStatus): (Xhc, Error)
    requires Sized(x) && port < PORTS
  {
    match x.phase[port]
    case NotConnected => ResetPort(x, port, st.connected)
    case ResettingPort => EnableSlotFor(x, port, st)
    case _ => (x, InvalidPhase)
  }

  /** What `OnTransferEventReceived` did: fail, or succeed and perhaps finish initialisation. */
  datatype Transfer = Failed | Went(finished: bool)

  predicate ContextPortsInRange(x: Xhc)
    requires Sized(x)
  {
    forall s | 0 <= s <= MAX_SLOTS && x.devices[s].Some? :: x.devices[s].value.contextPort < PORTS
  }

  function OnTransferEvent(x: Xhc, slot: nat, t: Transfer, speed: nat): (Xhc, Error)
    requires Sized(x) && ContextPortsInRange(x)
  {
    if FindBySlot(x, slot).None? then (x, InvalidSlotID)
    else if t.Failed? then (x, TransferError)
    else
      var dev := x.devices[slot].value;
      var dev' := dev.(initialized := dev.initialized || t.finished);
      var y := x.(devices := x.devices[slot := Some(dev')]);
      if dev'.initialized && y.phase[dev.contextPort].InitializingDevice?
      then ConfigureEndpoints(y, slot, speed)
      else (y, Success)
  }

  /** First port from i on that waits, or PORTS. */
  function FirstWaiting(phase: seq<Phase>, i: nat): (w: nat)
    requires |phase| == PORTS && i <= PORTS
    ensures i <= w <= PORTS
    ensures w < PORTS ==> phase[w].WaitingAddressed?
    ensures forall p | i <= p < w :: !phase[p].WaitingAddressed?
    decreases PORTS - i
  {
    if i == PORTS || phase[i].WaitingAddressed? then i else FirstWaiting(phase, i + 1)
  }

  /** Releases the lock and hands it to the first waiting port, if that port is connected. */
  function HandOff(x: Xhc, connected: nat -> bool): (Xhc, Error)
    requires Sized(x)
  {
    var y := x.(addressingPort := 0);
    var w := FirstWaiting(y.phase, 0);
    if w == PORTS then (y, Success) else ResetPort(y, w, connected(w))
  }

  function OnCommandCompletion(x: Xhc, issuer: nat, slot: nat, connected: nat -> bool): (Xhc, Error)
    requires Sized(x) && ContextPortsInRange(x)
  {
    if issuer == ENABLE_SLOT then
      if !x.phase[x.addressingPort].EnablingSlot? then (x, InvalidPhase)
      else AddressDeviceAt(x, x.addressingPort, slot)
    else if issuer == ADDRESS_DEVICE then
      if FindBySlot(x, slot).None? then (x, InvalidSlotID)
      else
        var port := x.devices[slot].value.contextPort;
        if port != x.addressingPort || !x.phase[port].AddressingDevice? then (x, InvalidPhase)
        else
          var (y, err) := HandOff(x, connected);
          if err != Success then (y, err) else InitializeDevice(y, port, slot)
    else if issuer == CONFIGURE_ENDPOINT then
      if FindBySlot(x, slot).None? then (x, InvalidSlotID)
      else
        var port := x.devices[slot].value.contextPort;
        if !x.phase[port].ConfiguringEndpoints? then (x, InvalidPhase)
        else CompleteConfiguration(x, port, slot)
    else (x, InvalidPhase)
  }

  function TypeOf(c: Command): nat {
    match c
    case EnableSlot => ENABLE_SLOT
    case AddressDevice(_) => ADDRESS_DEVICE
    case ConfigureEndpoint(_) => CONFIGURE_ENDPOINT
  }

  // ---- runs: events in any order, commands executed in the order they were pushed

  datatype Action =
    | BootPort(port: nat, connected: bool)
    | PortEvent(port: nat, status: PortStatus)
    | TransferEvent(slot: nat, transfer: Transfer, speed: nat)
    | Execute(slot: nat)
    | Complete(connectedPorts: nat -> bool)

  /** Every slot has its device. */
  predicate SlotsTaken(x: Xhc)
    requires Sized(x)
  {
    forall s | 1 <= s <= MAX_SLOTS :: x.devices[s].Some?
  }

  /** What the hardware is held to: port ids within 1..maxPorts; commands are executed in order; Enable
      Slot yields a slot that is not in use, and slot id 0 exactly if there is none; a completion event
      follows execution. Port and transfer events may come at any time, for any port or slot. */
  predicate Enabled(maxPorts: nat, x: Xhc, a: Action)
    requires Sized(x)
  {
    match a
    case BootPort(port, _) => 1 <= port <= maxPorts
    case PortEvent(port, _) => 1 <= port <= maxPorts
    case TransferEvent(slot, _, _) => true
    case Execute(slot) =>
      && |x.results| < |x.commands|
      && (match x.commands[|x.results|]
          case EnableSlot =>
            if SlotsTaken(x) then slot == 0 else 1 <= slot <= MAX_SLOTS && x.devices[slot].None?
          case AddressDevice(s) => slot == s
          case ConfigureEndpoint(s) => slot == s)
    case Complete(_) => x.handled < |x.results| <= |x.commands|
  }

  /** Executing Address Device copies the input slot context to the device context; for slot id 0 the
      controller reports an error and copies nothing. */
  function ExecuteNext(x: Xhc, slot: nat): Xhc
    requires Sized(x) && |x.results| < |x.commands|
  {
    var y := x.(results := x.results + [slot]);
    match x.commands[|x.results|]
    case AddressDevice(s) =>
      if s != 0 && FindBySlot(x, s).Some?
      then y.(devices := x.devices[s := Some(x.devices[s].value.(contextPort := x.devices[s].value.inputPort))])
      else y
    case _ => y
  }

  function Step(maxPorts: nat, x: Xhc, a: Action): (Xhc, Error)
    requires maxPorts < PORTS && Sized(x) && ContextPortsInRange(x) && Enabled(maxPorts, x, a)
  {
    match a
    case BootPort(port, connected) => ConfigurePort(x, port, connected)
    case PortEvent(port, status) => OnPortStatusChange(x, port, status)
    case TransferEvent(slot, t, speed) => OnTransferEvent(x, slot, t, speed)
    case Execute(slot) => (ExecuteNext(x, slot), Success)
    case Complete(connected) =>
      var (y, err) := OnCommandCompletion(x, TypeOf(x.commands[x.handled]), x.results[x.handled], connected);
      (y.(handled := x.handled + 1), err)
  }

  // ---- invariants

  /** Mutual exclusion: the lock names exactly the port at work. */
  ghost predicate Exclusive(phase: seq<Phase>, addressingPort: nat) {
    forall p | 0 <= p < |phase| :: Busy(phase[p]) <==> p == addressingPort != 0
  }

  ghost predicate PortsInRange(maxPorts: nat, phase: seq<Phase>) {
    forall p | 0 <= p < |phase| && (p == 0 || p > maxPorts) :: phase[p].NotConnected?
  }

  /** Live slots and ports at or past AddressingDevice correspond one to one. Slot 0, which stands for
      none, is never entered in a device context. */
  ghost predicate Agreement(phase: seq<Phase>, devices: seq<Option<Device>>, slotOf: map<nat, nat>)
    requires |phase| == PORTS && |devices| == MAX_SLOTS + 1
  {
    && (forall p | 0 <= p < PORTS :: Rank(phase[p]) >= 4 <==> p in slotOf)
    && (forall p | p in slotOf ::
          && 0 < p < PORTS && 0 <= slotOf[p] <= MAX_SLOTS && devices[slotOf[p]].Some?
          && devices[slotOf[p]].value.inputPort == p
          && (Rank(phase[p]) > 4 ==> devices[slotOf[p]].value.contextPort == p))
    && (forall s | 0 <= s <= MAX_SLOTS && devices[s].Some? ::
          && devices[s].value.inputPort in slotOf && slotOf[devices[s].value.inputPort] == s
          && devices[s].value.contextPort in {0, devices[s].value.inputPort})
    && (devices[0].Some? ==> devices[0].value.contextPort == 0)
  }

  /** Commands of one kind of key exclude each other while they are outstanding. */
  function Key(c: Command): nat { if c.ConfigureEndpoint? then c.slot else 0 }

  /** An outstanding command finds its port in the phase that issued it. */
  ghost predicate Awaited(x: Xhc, c: Command)
    requires Sized(x)
  {
    match c
    case EnableSlot => x.phase[x.addressingPort].EnablingSlot?
    case AddressDevice(s) =>
      && x.phase[x.addressingPort].AddressingDevice?
      && x.addressingPort in x.slotOf && x.slotOf[x.addressingPort] == s
    case ConfigureEndpoint(s) =>
      && 1 <= s <= MAX_SLOTS && x.devices[s].Some? && x.devices[s].value.inputPort < PORTS
      && x.phase[x.devices[s].value.inputPort].ConfiguringEndpoints?
  }

  /** The slot id the controller reports, and what it has done to the device context. */
  ghost predicate ResultFits(x: Xhc, c: Command, slot: nat)
    requires Sized(x)
  {
    match c
    case EnableSlot => slot <= MAX_SLOTS && x.devices[slot].None? && (slot == 0 <==> SlotsTaken(x))
    case AddressDevice(s) =>
      && slot == s && s <= MAX_SLOTS && x.devices[s].Some?
      && x.devices[s].value.contextPort == (if s == 0 then 0 else x.devices[s].value.inputPort)
    case ConfigureEndpoint(s) => slot == s
  }

  ghost predicate Pending(x: Xhc)
    requires Sized(x)
  {
    && x.handled <= |x.results| <= |x.commands|
    && (forall i | x.handled <= i < |x.commands| :: Awaited(x, x.commands[i]))
    && (forall i | x.handled <= i < |x.results| :: ResultFits(x, x.commands[i], x.results[i]))
    && (forall i, j | x.handled <= i < j < |x.commands| :: Key(x.commands[i]) != Key(x.commands[j]))
  }

  ghost predicate Inv(maxPorts: nat, x: Xhc) {
    && maxPorts < PORTS && Sized(x)
    && Exclusive(x.phase, x.addressingPort)
    && PortsInRange(maxPorts, x.phase)
    && Agreement(x.phase, x.devices, x.slotOf)
    && Pending(x)
  }

  lemma StartInv(maxPorts: nat)
    requires maxPorts < PORTS
    ensures Inv(maxPorts, Start())
  {
  }

  lemma InvInRange(maxPorts: nat, x: Xhc)
    requires Inv(maxPorts, x)
    ensures ContextPortsInRange(x)
  {
  }

  /** Agreement depends on the phases only through who is past AddressingDevice. */
  lemma AgreementFramed(phase: seq<Phase>, phase': seq<Phase>, devices: seq<Option<Device>>, slotOf: map<nat, nat>)
    requires |phase| == |phase'| == PORTS && |devices| == MAX_SLOTS + 1
    requires Agreement(phase, devices, slotOf)
    requires forall p | 0 <= p < PORTS :: Rank(phase[p]) >= 4 <==> Rank(phase'[p]) >= 4
    requires forall p | 0 <= p < PORTS :: Rank(phase'[p]) > 4 ==> Rank(phase[p]) > 4
    ensures Agreement(phase', devices, slotOf)
  {
  }

  /** Taking the lock for an idle port, or joining the queue, issues no command. */
  lemma ResetKeepsInv(maxPorts: nat, x: Xhc, port: nat, connected: bool)
    requires Inv(maxPorts, x) && 1 <= port <= maxPorts
    requires x.phase[port].NotConnected? || (x.phase[port].WaitingAddressed? && x.addressingPort == 0)
    ensures Inv(maxPorts, ResetPort(x, port, connected).0)
    ensures ResetPort(x, port, connected).1 == Success
  {
    var y := ResetPort(x, port, connected).0;
    AgreementFramed(x.phase, y.phase, x.devices, x.slotOf);
    hide Agreement;
    forall i | y.handled <= i < |y.commands| ensures Awaited(y, y.commands[i]) {
      assert Awaited(x, x.commands[i]);
    }
    forall i | y.handled <= i < |y.results| ensures ResultFits(y, y.commands[i], y.results[i]) {
      assert ResultFits(x, x.commands[i], x.results[i]);
    }
  }

  lemma EnableSlotKeepsInv(maxPorts: nat, x: Xhc, port: nat, st: PortStatus)
    requires Inv(maxPorts, x) && 1 <= port <= maxPorts && x.phase[port].ResettingPort?
    ensures Inv(maxPorts, EnableSlotFor(x, port, st).0)
  {
    var y := EnableSlotFor(x, port, st).0;
    AgreementFramed(x.phase, y.phase, x.devices, x.slotOf);
    forall i | x.handled <= i < |x.commands| ensures Key(x.commands[i]) != 0 && Awaited(y, x.commands[i]) {
      assert Awaited(x, x.commands[i]);
    }
    forall i | y.handled <= i < |y.results| ensures ResultFits(y, y.commands[i], y.results[i]) {
      assert ResultFits(x, x.commands[i], x.results[i]);
    }
  }

  /** Replacing a device by one with the same ports changes nothing the invariant speaks of. */
  lemma UpdateKeepsInv(maxPorts: nat, x: Xhc, slot: nat, dev: Device)
    requires Inv(maxPorts, x) && slot <= MAX_SLOTS && x.devices[slot].Some?
    requires dev.inputPort == x.devices[slot].value.inputPort && dev.contextPort == x.devices[slot].value.contextPort
    ensures Inv(maxPorts, x.(devices := x.devices[slot := Some(dev)]))
  {
    var y := x.(devices := x.devices[slot := Some(dev)]);
    assert Agreement(y.phase, y.devices, y.slotOf);
    forall i | x.handled <= i < |x.commands| ensures Awaited(y, x.commands[i]) {
      assert Awaited(x, x.commands[i]);
    }
    forall i | y.handled <= i < |y.results| ensures ResultFits(y, y.commands[i], y.results[i]) {
      assert ResultFits(x, x.commands[i], x.results[i]);
    }
  }

  /** A port in InitializingDevice is the one its slot was addressed with, in both contexts. */
  lemma InitializingPort(maxPorts: nat, x: Xhc, slot: nat)
    requires Inv(maxPorts, x) && slot <= MAX_SLOTS && x.devices[slot].Some?
    ensures var dev := x.devices[slot].value;
      && 0 < dev.inputPort < PORTS && dev.contextPort in {0, dev.inputPort} && (slot == 0 ==> dev.contextPort == 0)
      && (x.phase[dev.contextPort].NotConnected? || dev.contextPort == dev.inputPort)
  {
  }

  /** Issuing a command whose key no outstanding command has. */
  lemma PendingAfterIssue(x: Xhc, y: Xhc, c: Command, from: nat)
    requires Sized(x) && Sized(y) && Pending(x) && x.handled <= from <= |x.results|
    requires y.commands == x.commands + [c] && y.results == x.results && y.handled == from
    requires Awaited(y, c)
    requires forall i | from <= i < |x.commands| :: Awaited(y, x.commands[i]) && Key(x.commands[i]) != Key(c)
    requires forall i | from <= i < |x.results| :: ResultFits(y, x.commands[i], x.results[i])
    ensures Pending(y)
  {
    hide Awaited, ResultFits, Key;
  }

  lemma ConfigureAwaited(maxPorts: nat, x: Xhc, slot: nat, port: nat, y: Xhc)
    requires Inv(maxPorts, x) && 1 <= slot <= MAX_SLOTS && x.devices[slot].Some? && 0 < port < PORTS
    requires port == x.devices[slot].value.inputPort && x.phase[port].InitializingDevice?
    requires y == Issue(SetPhase(x, port, ConfiguringEndpoints), ConfigureEndpoint(slot))
    ensures Pending(y)
  {
    forall i | x.handled <= i < |x.commands|
      ensures Awaited(y, x.commands[i]) && Key(x.commands[i]) != slot
    {
      assert Awaited(x, x.commands[i]);
    }
    forall i | x.handled <= i < |x.results| ensures ResultFits(y, x.commands[i], x.results[i]) {
      assert ResultFits(x, x.commands[i], x.results[i]);
    }
    assert Awaited(y, ConfigureEndpoint(slot));
    hide Exclusive, PortsInRange, Agreement, Awaited, ResultFits;
    PendingAfterIssue(x, y, ConfigureEndpoint(slot), x.handled);
  }

  lemma ConfigureKeepsInv(maxPorts: nat, x: Xhc, slot: nat, speed: nat)
    requires Inv(maxPorts, x) && slot <= MAX_SLOTS && x.devices[slot].Some?
    requires x.devices[slot].value.contextPort < PORTS
    requires x.phase[x.devices[slot].value.contextPort].InitializingDevice?
    ensures Inv(maxPorts, ConfigureEndpoints(x, slot, speed).0)
  {
    InitializingPort(maxPorts, x, slot);
    var port := x.devices[slot].value.contextPort;
    assert x.devices[slot := Some(x.devices[slot].value.(inputPort := port))] == x.devices;
    if 1 <= speed <= 5 {
      var y := Issue(SetPhase(x, port, ConfiguringEndpoints), ConfigureEndpoint(slot));
      ConfigureAwaited(maxPorts, x, slot, port, y);
      hide Pending;
      AgreementFramed(x.phase, y.phase, x.devices, x.slotOf);
      hide Agreement;
    }
  }

  lemma TransferKeepsInv(maxPorts: nat, x: Xhc, slot: nat, t: Transfer, speed: nat)
    requires Inv(maxPorts, x)
    ensures ContextPortsInRange(x) && Inv(maxPorts, OnTransferEvent(x, slot, t, speed).0)
  {
    InvInRange(maxPorts, x);
    hide Exclusive, PortsInRange, Agreement, Pending;
    if FindBySlot(x, slot).Some? && t.Went? {
      var dev := x.devices[slot].value;
      var dev' := dev.(initialized := dev.initialized || t.finished);
      UpdateKeepsInv(maxPorts, x, slot, dev');
      var y := x.(devices := x.devices[slot := Some(dev')]);
      if dev'.initialized && y.phase[dev.contextPort].InitializingDevice? {
        ConfigureKeepsInv(maxPorts, y, slot, speed);
      }
    }
  }

  lemma ExecuteKeepsAgreement(maxPorts: nat, x: Xhc, slot: nat)
    requires Inv(maxPorts, x) && Enabled(maxPorts, x, Execute(slot))
    ensures var y := ExecuteNext(x, slot);
      Sized(y) && Agreement(y.phase, y.devices, y.slotOf) && y.phase == x.phase && y.addressingPort == x.addressingPort
  {
    assert Awaited(x, x.commands[|x.results|]);
    hide Exclusive, PortsInRange, ResultFits;
  }

  lemma ExecuteKeepsPending(maxPorts: nat, x: Xhc, slot: nat)
    requires Inv(maxPorts, x) && Enabled(maxPorts, x, Execute(slot))
    ensures Sized(ExecuteNext(x, slot)) && Pending(ExecuteNext(x, slot))
  {
    var y := ExecuteNext(x, slot);
    assert Awaited(x, x.commands[|x.results|]);
    hide Exclusive, PortsInRange;
    forall i | x.handled <= i < |x.commands| ensures Awaited(y, x.commands[i]) {
      assert Awaited(x, x.commands[i]);
    }
    forall i | y.handled <= i < |y.results| ensures ResultFits(y, y.commands[i], y.results[i]) {
      if i < |x.results| {
        assert ResultFits(x, x.commands[i], x.results[i]);
      }
    }
  }

  lemma ExecuteKeepsInv(maxPorts: nat, x: Xhc, slot: nat)
    requires Inv(maxPorts, x) && Enabled(maxPorts, x, Execute(slot))
    ensures Inv(maxPorts, ExecuteNext(x, slot))
  {
    ExecuteKeepsAgreement(maxPorts, x, slot);
    ExecuteKeepsPending(maxPorts, x, slot);
    hide Exclusive, PortsInRange, Agreement, Pending;
  }

  lemma AddressPending(maxPorts: nat, x: Xhc, slot: nat, y: Xhc)
    requires Inv(maxPorts, x) && x.handled < |x.results| && x.commands[x.handled].EnableSlot?
    requires slot == x.results[x.handled] <= MAX_SLOTS && x.devices[slot].None?
    requires y == AddressDeviceAt(x, x.addressingPort, slot).0.(handled := x.handled + 1)
    ensures Pending(y)
  {
    var h := x.handled;
    forall i | h < i < |x.commands| ensures Awaited(y, x.commands[i]) && Key(x.commands[i]) != 0 {
      assert Awaited(x, x.commands[i]) && Key(x.commands[i]) != Key(x.commands[h]);
    }
    forall i | h < i < |x.results| ensures ResultFits(y, x.commands[i], x.results[i]) {
      assert ResultFits(x, x.commands[i], x.results[i]) && Key(x.commands[i]) != Key(x.commands[h]);
    }
    assert Awaited(y, AddressDevice(slot));
    hide Exclusive, PortsInRange, Agreement, Awaited, ResultFits;
    PendingAfterIssue(x, y, AddressDevice(slot), h + 1);
  }

  /** The completion of Enable Slot gives the port that holds the lock a slot no port has. */
  lemma AddressKeepsInv(maxPorts: nat, x: Xhc)
    requires Inv(maxPorts, x) && x.handled < |x.results| && x.commands[x.handled].EnableSlot?
    ensures var slot := x.results[x.handled];
      && x.phase[x.addressingPort].EnablingSlot?
      && Inv(maxPorts, AddressDeviceAt(x, x.addressingPort, slot).0.(handled := x.handled + 1))
  {
    var slot, port := x.results[x.handled], x.addressingPort;
    assert Awaited(x, x.commands[x.handled]) && ResultFits(x, x.commands[x.handled], slot);
    var y := AddressDeviceAt(x, port, slot).0.(handled := x.handled + 1);
    AddressPending(maxPorts, x, slot, y);
    hide Pending;
    assert Exclusive(y.phase, y.addressingPort) && PortsInRange(maxPorts, y.phase);
    hide Exclusive, PortsInRange;
    assert Agreement(y.phase, y.devices, y.slotOf);
  }

  lemma FinishFacts(maxPorts: nat, x: Xhc)
    requires Inv(maxPorts, x) && x.handled < |x.results| && x.commands[x.handled].ConfigureEndpoint?
    ensures var slot := x.commands[x.handled].slot;
      && x.results[x.handled] == slot && 1 <= slot <= MAX_SLOTS && x.devices[slot].Some?
      && var port := x.devices[slot].value.contextPort;
         && 0 < port < PORTS && x.phase[port].ConfiguringEndpoints? && port == x.devices[slot].value.inputPort
  {
    assert Awaited(x, x.commands[x.handled]) && ResultFits(x, x.commands[x.handled], x.results[x.handled]);
  }

  lemma FinishKeepsInv(maxPorts: nat, x: Xhc, slot: nat, port: nat)
    requires Inv(maxPorts, x) && x.handled < |x.results| && x.commands[x.handled] == ConfigureEndpoint(slot)
    requires slot <= MAX_SLOTS && x.devices[slot].Some? && 0 < port < PORTS
    requires x.phase[port].ConfiguringEndpoints? && port == x.devices[slot].value.inputPort
    ensures Inv(maxPorts, CompleteConfiguration(x, port, slot).0.(handled := x.handled + 1))
  {
    var h := x.handled;
    var y := CompleteConfiguration(x, port, slot).0.(handled := h + 1);
    assert Exclusive(y.phase, y.addressingPort) && PortsInRange(maxPorts, y.phase);
    AgreementFramed(x.phase, y.phase, x.devices, x.slotOf);
    hide Exclusive, PortsInRange;
    forall i | h < i < |x.commands| ensures Awaited(y, x.commands[i]) {
      assert Awaited(x, x.commands[i]) && Key(x.commands[i]) != Key(x.commands[h]);
    }
    hide Agreement;
    forall i | y.handled <= i < |y.results| ensures ResultFits(y, y.commands[i], y.results[i]) {
      assert ResultFits(x, x.commands[i], x.results[i]);
    }
  }

  // ---- the Address Device completion

  /** The lock is released: for a moment the port is still in AddressingDevice but holds no lock. */
  lemma AddressedFacts(maxPorts: nat, x: Xhc)
    requires Inv(maxPorts, x) && x.handled < |x.results| && x.commands[x.handled].AddressDevice?
    ensures var slot, port := x.commands[x.handled].slot, x.addressingPort;
      && x.results[x.handled] == slot && slot <= MAX_SLOTS && x.devices[slot].Some?
      && x.devices[slot].value.inputPort == port
      && x.devices[slot].value.contextPort == (if slot == 0 then 0 else port)
      && 0 < port <= maxPorts && x.phase[port].AddressingDevice?
    ensures forall i | x.handled < i < |x.commands| :: x.commands[i].ConfigureEndpoint?
  {
    var h := x.handled;
    assert Awaited(x, x.commands[h]) && ResultFits(x, x.commands[h], x.results[h]);
    forall i | h < i < |x.commands| ensures x.commands[i].ConfigureEndpoint? {
      assert Key(x.commands[i]) != Key(x.commands[h]);
    }
  }

  /** The state the whole handler leaves: port addressed, lock handed to w if w is not PORTS. */
  function Handed(x: Xhc, port: nat, slot: nat, w: nat): Xhc
    requires Sized(x) && port < PORTS && slot <= MAX_SLOTS && x.devices[slot].Some?
  {
    var phase := if w < PORTS then x.phase[w := ResettingPort] else x.phase;
    x.(phase := phase[port := InitializingDevice], addressingPort := if w < PORTS then w else 0,
       devices := x.devices[slot := Some(x.devices[slot].value.(initialized := false))],
       handled := x.handled + 1)
  }

  lemma HandedKeepsInv(maxPorts: nat, x: Xhc, port: nat, slot: nat, w: nat)
    requires Inv(maxPorts, x) && x.handled < |x.results| && x.commands[x.handled] == AddressDevice(slot)
    requires 1 <= slot <= MAX_SLOTS && x.devices[slot].Some? && port == x.addressingPort && 0 < port <= maxPorts
    requires x.devices[slot].value.contextPort == port == x.devices[slot].value.inputPort
    requires x.phase[port].AddressingDevice?
    requires forall i | x.handled < i < |x.commands| :: x.commands[i].ConfigureEndpoint?
    requires w == PORTS || (w < PORTS && x.phase[w].WaitingAddressed?)
    ensures Inv(maxPorts, Handed(x, port, slot, w))
  {
    var h, y := x.handled, Handed(x, port, slot, w);
    assert Exclusive(y.phase, y.addressingPort) && PortsInRange(maxPorts, y.phase);
    assert Agreement(y.phase, y.devices, y.slotOf);
    hide Exclusive, PortsInRange;
    forall i | h < i < |x.commands| ensures Awaited(y, x.commands[i]) {
      assert Awaited(x, x.commands[i]);
    }
    forall i | y.handled <= i < |y.results| ensures ResultFits(y, y.commands[i], y.results[i]) {
      assert ResultFits(x, x.commands[i], x.results[i]);
    }
  }

  /** First waiting port, if its PORTSC says it is connected. */
  function NextInLine(phase: seq<Phase>, connected: nat -> bool): nat
    requires |phase| == PORTS
  {
    var w := FirstWaiting(phase, 0);
    if w < PORTS && connected(w) then w else PORTS
  }

  /** Without a slot the completion is refused: the port stays where it is and keeps the lock. */
  lemma RefusalKeepsInv(maxPorts: nat, x: Xhc, connected: nat -> bool)
    requires Inv(maxPorts, x) && x.handled < |x.results| && x.commands[x.handled] == AddressDevice(0)
    ensures ContextPortsInRange(x) && x.results[x.handled] == 0
    ensures OnCommandCompletion(x, ADDRESS_DEVICE, 0, connected) == (x, InvalidPhase)
    ensures Inv(maxPorts, x.(handled := x.handled + 1))
  {
    InvInRange(maxPorts, x);
    AddressedFacts(maxPorts, x);
    var y := x.(handled := x.handled + 1);
    hide Exclusive, PortsInRange, Agreement;
    forall i | y.handled <= i < |y.commands| ensures Awaited(y, y.commands[i]) {
      assert Awaited(x, x.commands[i]);
    }
    forall i | y.handled <= i < |y.results| ensures ResultFits(y, y.commands[i], y.results[i]) {
      assert ResultFits(x, x.commands[i], x.results[i]);
    }
  }

  /** The completion of Address Device: the port moves on and the lock to the next in line, unless there
      was no slot. */
  lemma CompletionOfAddress(maxPorts: nat, x: Xhc, connected: nat -> bool)
    requires Inv(maxPorts, x) && x.handled < |x.results| && x.commands[x.handled].AddressDevice?
    ensures ContextPortsInRange(x)
    ensures var slot := x.results[x.handled];
      && slot <= MAX_SLOTS && x.devices[slot].Some?
      && (slot == 0 ==> OnCommandCompletion(x, ADDRESS_DEVICE, slot, connected) == (x, InvalidPhase))
    ensures x.results[x.handled] != 0 ==>
      var slot := x.results[x.handled];
      var r := OnCommandCompletion(x, ADDRESS_DEVICE, slot, connected);
         && r.1 == Success
         && r.0.(handled := x.handled + 1) == Handed(x, x.addressingPort, slot, NextInLine(x.phase, connected))
         && Inv(maxPorts, r.0.(handled := x.handled + 1))
  {
    InvInRange(maxPorts, x);
    AddressedFacts(maxPorts, x);
    var slot, port := x.commands[x.handled].slot, x.addressingPort;
    var w := NextInLine(x.phase, connected);
    if slot == 0 {
      RefusalKeepsInv(maxPorts, x, connected);
    } else {
      HandedKeepsInv(maxPorts, x, port, slot, w);
    }
    hide Exclusive, PortsInRange, Agreement, Pending;
    if w < PORTS {
      assert x.phase[port := InitializingDevice][w := ResettingPort]
             == x.phase[w := ResettingPort][port := InitializingDevice];
    }
  }

  /** The step as a whole. */
  lemma AddressStep(maxPorts: nat, x: Xhc, connected: nat -> bool)
    requires Inv(maxPorts, x) && Enabled(maxPorts, x, Complete(connected)) && x.commands[x.handled].AddressDevice?
    ensures ContextPortsInRange(x)
    ensures var slot := x.commands[x.handled].slot;
      && slot <= MAX_SLOTS && x.devices[slot].Some?
      && Step(maxPorts, x, Complete(connected)) ==
         if slot == 0 then (x.(handled := x.handled + 1), InvalidPhase)
         else (Handed(x, x.addressingPort, slot, NextInLine(x.phase, connected)), Success)
    ensures Inv(maxPorts, Step(maxPorts, x, Complete(connected)).0)
  {
    AddressedFacts(maxPorts, x);
    CompletionOfAddress(maxPorts, x, connected);
    if x.commands[x.handled].slot == 0 {
      RefusalKeepsInv(maxPorts, x, connected);
    }
    hide Inv, OnCommandCompletion, Handed, NextInLine;
  }

  lemma CompletionKeepsInv(maxPorts: nat, x: Xhc, connected: nat -> bool)
    requires Inv(maxPorts, x) && Enabled(maxPorts, x, Complete(connected))
    ensures ContextPortsInRange(x) && Inv(maxPorts, Step(maxPorts, x, Complete(connected)).0)
    ensures Step(maxPorts, x, Complete(connected)).1 == Success <==> x.commands[x.handled] != AddressDevice(0)
  {
    InvInRange(maxPorts, x);
    hide Exclusive, PortsInRange, Agreement, Pending;
    match x.commands[x.handled]
    case EnableSlot => AddressKeepsInv(maxPorts, x);
    case AddressDevice(slot) => AddressStep(maxPorts, x, connected); hide Inv, Step;
    case ConfigureEndpoint(slot) =>
      FinishFacts(maxPorts, x);
      FinishKeepsInv(maxPorts, x, slot, x.devices[slot].value.contextPort);
  }

  /** Every event keeps the invariant, and under the hardware's obligations a command completion is
      rejected if and only if it is that of an Address Device command for which there was no slot. */
  lemma StepKeepsInv(maxPorts: nat, x: Xhc, a: Action)
    requires Inv(maxPorts, x) && Enabled(maxPorts, x, a)
    ensures ContextPortsInRange(x) && Inv(maxPorts, Step(maxPorts, x, a).0)
    ensures a.Complete? ==>
              (Step(maxPorts, x, a).1 == Success <==> x.commands[x.handled] != AddressDevice(0))
  {
    InvInRange(maxPorts, x);
    hide Exclusive, PortsInRange, Agreement, Pending;
    match a
    case BootPort(port, connected) =>
      if x.phase[port].NotConnected? {
        ResetKeepsInv(maxPorts, x, port, connected);
      }
    case PortEvent(port, status) =>
      if x.phase[port].NotConnected? {
        ResetKeepsInv(maxPorts, x, port, status.connected);
      } else if x.phase[port].ResettingPort? {
        EnableSlotKeepsInv(maxPorts, x, port, status);
      }
    case TransferEvent(slot, t, speed) => TransferKeepsInv(maxPorts, x, slot, t, speed);
    case Execute(slot) => ExecuteKeepsInv(maxPorts, x, slot);
    case Complete(connected) => CompletionKeepsInv(maxPorts, x, connected);
  }
}
