/** The whole driver: the port protocol and up to eight USB devices. The protocol makes each of its
    calls to a device once and in the order that the device's life requires, so the bounds on transfer
    rings hold for all devices in every run of the driver. */
module DriverSystem {
  import opened Options
  import opened Trbs
  import P = PortProtocol
  import L = UsbLifetime
  import UsbRuns
  import UsbRings
  import U = UsbDevice
  import X = Transfers

  // ---- what the protocol does to one slot

  /** The phase of a slot's port, and whether its device is initialised. */
  datatype SlotView = SlotView(phase: P.Phase, initialized: bool)

  function ViewOf(x: P.Xhc, slot: nat): Option<SlotView>
    requires P.Sized(x) && slot <= P.MAX_SLOTS
  {
    if x.devices[slot].Some? && x.devices[slot].value.inputPort < P.PORTS
    then Some(SlotView(x.phase[x.devices[slot].value.inputPort], x.devices[slot].value.initialized))
    else None
  }

  predicate SameView(x: P.Xhc, y: P.Xhc, slot: nat)
    requires P.Sized(x) && P.Sized(y) && slot <= P.MAX_SLOTS
  {
    ViewOf(x, slot) == ViewOf(y, slot)
  }

  /** Ports of live slots are at or past AddressingDevice, and different. */
  lemma LivePorts(maxPorts: nat, x: P.Xhc, s: nat, t: nat)
    requires P.Inv(maxPorts, x) && s <= P.MAX_SLOTS && t <= P.MAX_SLOTS && x.devices[s].Some?
    ensures 0 < x.devices[s].value.inputPort < P.PORTS && P.Rank(x.phase[x.devices[s].value.inputPort]) >= 4
    ensures x.devices[t].Some? && s != t ==> x.devices[s].value.inputPort != x.devices[t].value.inputPort
  {
    hide P.Exclusive, P.PortsInRange, P.Pending;
  }

  /** Port events and executions concern no slot's port or device flag. */
  lemma PortEventsSpareSlots(maxPorts: nat, x: P.Xhc, a: P.Action, t: nat)
    requires P.Inv(maxPorts, x) && P.Enabled(maxPorts, x, a) && t <= P.MAX_SLOTS
    requires a.BootPort? || a.PortEvent? || a.Execute?
    ensures P.ContextPortsInRange(x)
    ensures P.Sized(P.Step(maxPorts, x, a).0) && SameView(x, P.Step(maxPorts, x, a).0, t)
  {
    P.InvInRange(maxPorts, x);
    if x.devices[t].Some? {
      LivePorts(maxPorts, x, t, t);
    }
    hide P.Exclusive, P.PortsInRange, P.Agreement, P.Pending;
  }

  /** A transfer event concerns its slot only: it may report initialisation, and then the endpoints are
      configured if the port is waiting for that. */
  lemma TransferView(maxPorts: nat, x: P.Xhc, slot: nat, t: P.Transfer, speed: nat, other: nat)
    requires P.Inv(maxPorts, x) && slot <= P.MAX_SLOTS && other <= P.MAX_SLOTS && other != slot
    ensures P.ContextPortsInRange(x)
    ensures var y := P.OnTransferEvent(x, slot, t, speed).0;
      && P.Sized(y) && SameView(x, y, other)
      && (ViewOf(x, slot).None? ==> ViewOf(y, slot).None? && y.commands == x.commands)
      && (ViewOf(x, slot).Some? ==>
            var init := ViewOf(x, slot).value.initialized || (t.Went? && t.finished);
            var configures := t.Went? && init && ViewOf(x, slot).value.phase.InitializingDevice? && 1 <= speed <= 5;
            && ViewOf(y, slot)
               == Some(SlotView(if configures then P.ConfiguringEndpoints else ViewOf(x, slot).value.phase, init))
            && (|y.commands| > |x.commands| <==> configures))
  {
    P.InvInRange(maxPorts, x);
    if x.devices[slot].Some? {
      LivePorts(maxPorts, x, slot, other);
      P.InitializingPort(maxPorts, x, slot);
    }
    if x.devices[other].Some? {
      LivePorts(maxPorts, x, other, slot);
    }
    hide P.Exclusive, P.PortsInRange, P.Agreement, P.Pending;
  }

  /** The completion of Enable Slot makes a device in the slot picked. */
  lemma PickedView(maxPorts: nat, x: P.Xhc, connected: nat -> bool, other: nat)
    requires P.Inv(maxPorts, x) && P.Enabled(maxPorts, x, P.Complete(connected)) && other <= P.MAX_SLOTS
    requires x.commands[x.handled].EnableSlot?
    ensures P.ContextPortsInRange(x)
    ensures var slot, y := x.results[x.handled], P.Step(maxPorts, x, P.Complete(connected)).0;
      && slot <= P.MAX_SLOTS && P.Sized(y)
      && ViewOf(x, slot).None? && x.devices[slot].None? && ViewOf(y, slot) == Some(SlotView(P.AddressingDevice, false))
      && (other != slot ==> SameView(x, y, other))
  {
    P.InvInRange(maxPorts, x);
    assert P.Awaited(x, x.commands[x.handled]) && P.ResultFits(x, x.commands[x.handled], x.results[x.handled]);
    if x.devices[other].Some? {
      LivePorts(maxPorts, x, other, other);
    }
    hide P.Exclusive, P.PortsInRange, P.Agreement, P.Pending;
  }

  /** The completion of Address Device starts the initialisation of its device, if there was a slot. */
  lemma AddressedView(maxPorts: nat, x: P.Xhc, connected: nat -> bool, other: nat)
    requires P.Inv(maxPorts, x) && P.Enabled(maxPorts, x, P.Complete(connected)) && other <= P.MAX_SLOTS
    requires x.commands[x.handled].AddressDevice?
    ensures P.ContextPortsInRange(x)
    ensures var slot, y := x.commands[x.handled].slot, P.Step(maxPorts, x, P.Complete(connected)).0;
      && slot <= P.MAX_SLOTS && P.Sized(y)
      && ViewOf(x, slot).Some? && ViewOf(x, slot).value.phase.AddressingDevice?
      && (slot != 0 ==> ViewOf(y, slot) == Some(SlotView(P.InitializingDevice, false)))
      && (other != slot || slot == 0 ==> SameView(x, y, other))
  {
    P.AddressedFacts(maxPorts, x);
    P.AddressStep(maxPorts, x, connected);
    var slot := x.commands[x.handled].slot;
    LivePorts(maxPorts, x, slot, other);
    if x.devices[other].Some? {
      LivePorts(maxPorts, x, other, slot);
    }
    hide P.Exclusive, P.PortsInRange, P.Agreement, P.Pending, P.Step, P.Handed;
    if slot == 0 {
      HandledOnly(x, x.(handled := x.handled + 1), other);
    } else {
      HandedView(x, x.addressingPort, slot, connected, other);
    }
  }

  lemma HandledOnly(x: P.Xhc, y: P.Xhc, other: nat)
    requires P.Sized(x) && P.Sized(y) && y.phase == x.phase && y.devices == x.devices && other <= P.MAX_SLOTS
    ensures SameView(x, y, other)
  {
  }

  lemma HandedView(x: P.Xhc, port: nat, slot: nat, connected: nat -> bool, other: nat)
    requires P.Sized(x) && 0 < port < P.PORTS && slot <= P.MAX_SLOTS && other <= P.MAX_SLOTS
    requires x.devices[slot].Some? && x.devices[slot].value.inputPort == port
    requires x.devices[other].Some? && other != slot ==>
               var p := x.devices[other].value.inputPort; p != port && p < P.PORTS && P.Rank(x.phase[p]) >= 4
    ensures var y := P.Handed(x, port, slot, P.NextInLine(x.phase, connected));
      && P.Sized(y)
      && ViewOf(y, slot) == Some(SlotView(P.InitializingDevice, false)) && (other != slot ==> SameView(x, y, other))
  {
  }

  /** The completion of Configure Endpoint completes the configuration of its device. */
  lemma FinishedView(maxPorts: nat, x: P.Xhc, connected: nat -> bool, other: nat)
    requires P.Inv(maxPorts, x) && P.Enabled(maxPorts, x, P.Complete(connected)) && other <= P.MAX_SLOTS
    requires x.commands[x.handled].ConfigureEndpoint?
    ensures P.ContextPortsInRange(x)
    ensures var slot, y := x.commands[x.handled].slot, P.Step(maxPorts, x, P.Complete(connected)).0;
      && 1 <= slot <= P.MAX_SLOTS && P.Sized(y)
      && ViewOf(x, slot).Some? && ViewOf(x, slot).value.phase.ConfiguringEndpoints?
      && ViewOf(y, slot) == Some(SlotView(P.Configured, ViewOf(x, slot).value.initialized))
      && (other != slot ==> SameView(x, y, other))
  {
    P.InvInRange(maxPorts, x);
    P.FinishFacts(maxPorts, x);
    var slot := x.commands[x.handled].slot;
    LivePorts(maxPorts, x, slot, other);
    if x.devices[other].Some? {
      LivePorts(maxPorts, x, other, slot);
    }
    hide P.Exclusive, P.PortsInRange, P.Agreement, P.Pending;
  }

  // ---- the product

  /** The protocol, and the USB device in each slot. */
  datatype Host = Host(x: P.Xhc, usb: seq<Option<U.Usb>>)

  /** Port events and executed commands; a transfer event for a slot, with the outcome of its handler and
      memory for rings; a command completion, with memory for a new device's ring. */
  datatype Action =
    | Port(p: P.Action)
    | Transfer(slot: nat, a: L.Action, failed: bool, speed: nat, rings: seq<addr>)
    | CommandDone(connected: nat -> bool, base: addr)

  predicate Sane(h: Host) { P.Sized(h.x) && P.ContextPortsInRange(h.x) && |h.usb| == P.MAX_SLOTS + 1 }

  predicate Enabled(maxPorts: nat, h: Host, a: Action)
    requires Sane(h)
  {
    match a
    case Port(p) => (p.BootPort? || p.PortEvent? || p.Execute?) && P.Enabled(maxPorts, h.x, p)
    case Transfer(slot, e, failed, _, rings) =>
      && slot <= P.MAX_SLOTS && h.usb[slot].Some? && (e.Complete? || e.Fail?) && L.Enabled(h.usb[slot].value, e)
      && (e.Fail? ==> failed)
      && |rings| == X.ENDPOINTS + 1 && forall dci | 0 <= dci <= X.ENDPOINTS :: rings[dci] % 64 == 0
    case CommandDone(connected, base) => P.Enabled(maxPorts, h.x, P.Complete(connected)) && base % 64 == 0
  }

  /** A call the protocol makes to a device; out of order it would have no meaning here, and is shown
      never to be. */
  function Call(u: U.Usb, a: L.Action, b: U.Buffers): U.Usb {
    if L.Sane(u) && L.Enabled(u, a) then L.Step(u, a, b) else u
  }

  function OnTransfer(h: Host, slot: nat, a: L.Action, failed: bool, speed: nat, rings: seq<addr>,
                      b: nat -> U.Buffers): Host
    requires Sane(h) && slot <= P.MAX_SLOTS && h.usb[slot].Some?
  {
    var u := Call(h.usb[slot].value, a, b(slot));
    var y := P.OnTransferEvent(h.x, slot, if failed then P.Failed else P.Went(u.initialized), speed).0;
    Host(y, h.usb[slot := Some(if |y.commands| > |h.x.commands| then Call(u, L.Rings(rings), b(slot)) else u)])
  }

  /** A device whose command completed gets the call that the handler makes. */
  function OnCommandDone(maxPorts: nat, h: Host, connected: nat -> bool, base: addr, b: nat -> U.Buffers): Host
    requires maxPorts < P.PORTS && Sane(h) && P.Enabled(maxPorts, h.x, P.Complete(connected))
  {
    var (y, err) := P.Step(maxPorts, h.x, P.Complete(connected));
    match h.x.commands[h.x.handled]
    case EnableSlot =>
      var slot := h.x.results[h.x.handled];
      if slot <= P.MAX_SLOTS && h.usb[slot].None? then Host(y, h.usb[slot := Some(U.NewDevice(base))])
      else Host(y, h.usb)
    case AddressDevice(slot) =>
      if err == P.Success && slot <= P.MAX_SLOTS && h.usb[slot].Some?
      then Host(y, h.usb[slot := Some(Call(h.usb[slot].value, L.Start, b(slot)))]) else Host(y, h.usb)
    case ConfigureEndpoint(slot) =>
      if err == P.Success && slot <= P.MAX_SLOTS && h.usb[slot].Some?
      then Host(y, h.usb[slot := Some(Call(h.usb[slot].value, L.Configured, b(slot)))]) else Host(y, h.usb)
  }

  function Next(maxPorts: nat, h: Host, a: Action, b: nat -> U.Buffers): Host
    requires maxPorts < P.PORTS && Sane(h) && Enabled(maxPorts, h, a)
  {
    match a
    case Port(p) => h.(x := P.Step(maxPorts, h.x, p).0)
    case Transfer(slot, e, failed, speed, rings) => OnTransfer(h, slot, e, failed, speed, rings, b)
    case CommandDone(connected, base) => OnCommandDone(maxPorts, h, connected, base, b)
  }

  /** The stages of a device's life that a phase of its port stands for. */
  predicate Matches(phase: P.Phase, stage: U.Stage) {
    match phase
    case AddressingDevice => stage.Fresh?
    case InitializingDevice => stage.Initializing? || stage.Initialized?
    case ConfiguringEndpoints => stage.RingsReady?
    case Configured => stage.Running?
    case _ => false
  }

  ghost predicate Fit(v: Option<SlotView>, u: Option<U.Usb>) {
    && (v.None? <==> u.None?)
    && (v.Some? && u.Some? ==>
          L.Inv(u.value) && (v.value.initialized ==> u.value.initialized) && Matches(v.value.phase, u.value.stage))
  }

  ghost predicate Inv(maxPorts: nat, h: Host) {
    && P.Inv(maxPorts, h.x) && Sane(h)
    && forall t | 0 <= t <= P.MAX_SLOTS :: Fit(ViewOf(h.x, t), h.usb[t])
  }

  ghost predicate BuffersAllOk(b: nat -> U.Buffers) { forall s :: U.BuffersOk(b(s)) }

  // ---- one device

  lemma CallIsStep(u: U.Usb, a: L.Action, b: U.Buffers)
    requires L.Inv(u) && L.Enabled(u, a) && U.BuffersOk(b)
    ensures L.Sane(u) && Call(u, a, b) == L.Step(u, a, b) && L.Inv(Call(u, a, b))
  {
    UsbRuns.StepKeepsInv(u, a, b);
    hide L.Inv, L.Step, L.Enabled, L.Sane;
  }

  /** Transfer events come while a device is initialising or in service, and keep it there. */
  lemma EventStages(u: U.Usb, a: L.Action, b: U.Buffers)
    requires L.Inv(u) && L.Enabled(u, a) && U.BuffersOk(b) && (a.Complete? || a.Fail?)
    ensures u.stage.Initializing? || u.stage.Running?
    ensures var v := Call(u, a, b);
      && L.Inv(v) && (u.initialized ==> v.initialized)
      && (u.stage.Running? ==> v.stage.Running?)
      && (u.stage.Initializing? ==> v.stage.Initializing? || v.stage.Initialized?)
      && (v.initialized && u.stage.Initializing? ==> v.stage.Initialized?)
  {
    CallIsStep(u, a, b);
    assert u.dev.live != [];
    LiveStages(u);
    if a.Complete? {
      UsbRings.EventKnown(u, a.i, a.residual, a.code, a.descs, b);
    }
    StageInitialized(u);
    StageInitialized(Call(u, a, b));
    hide L.Inv, L.OnEvent, L.Sane, U.Usable;
  }

  lemma LiveStages(u: U.Usb)
    requires L.Inv(u) && u.dev.live != []
    ensures u.stage.Initializing? || u.stage.Running?
  {
    hide X.DeviceInv;
  }

  lemma StageInitialized(u: U.Usb)
    requires L.Inv(u)
    ensures u.initialized <==> u.stage.Initialized? || u.stage.RingsReady? || u.stage.Running?
  {
    hide X.DeviceInv;
  }

  /** Rings are allocated for an initialised device. */
  lemma RingsCall(u: U.Usb, rings: seq<addr>, b: U.Buffers)
    requires L.Inv(u) && u.stage.Initialized? && U.BuffersOk(b)
    requires |rings| == X.ENDPOINTS + 1 && forall dci | 0 <= dci <= X.ENDPOINTS :: rings[dci] % 64 == 0
    ensures L.Enabled(u, L.Rings(rings)) && L.Inv(Call(u, L.Rings(rings), b))
            && Call(u, L.Rings(rings), b).stage.RingsReady?
    ensures Call(u, L.Rings(rings), b).initialized == u.initialized
  {
    CallIsStep(u, L.Rings(rings), b);
    hide L.Inv, L.Sane, U.AllocRings;
  }

  /** A device is started once, when it is fresh. */
  lemma StartCall(u: U.Usb, b: U.Buffers)
    requires L.Inv(u) && u.stage.Fresh? && U.BuffersOk(b)
    ensures L.Enabled(u, L.Start) && L.Inv(Call(u, L.Start, b)) && Call(u, L.Start, b).stage.Initializing?
  {
    CallIsStep(u, L.Start, b);
    hide L.Inv, L.Sane, U.GetDescriptor;
    StartStage(u, b);
  }

  lemma StartStage(u: U.Usb, b: U.Buffers)
    requires U.Ready(u)
    ensures U.StartInitialize(u, b).stage.Initializing?
  {
    hide U.Ready;
  }

  /** Its drivers are told once, when the rings are there. */
  lemma ConfiguredCall(u: U.Usb, b: U.Buffers)
    requires L.Inv(u) && u.stage.RingsReady? && U.BuffersOk(b)
    ensures L.Enabled(u, L.Configured) && L.Inv(Call(u, L.Configured, b)) && Call(u, L.Configured, b).stage.Running?
  {
    CallIsStep(u, L.Configured, b);
    hide L.Inv, L.Sane, U.OnEndpointsConfigured;
  }

  // ---- every step

  /** Every call that this step makes to a device comes when the device is ready for it. */
  predicate InOrder(maxPorts: nat, h: Host, a: Action, b: nat -> U.Buffers)
    requires maxPorts < P.PORTS && Sane(h) && Enabled(maxPorts, h, a)
  {
    match a
    case Port(_) => true
    case Transfer(slot, e, failed, speed, rings) =>
      var u := Call(h.usb[slot].value, e, b(slot));
      |OnTransfer(h, slot, e, failed, speed, rings, b).x.commands| > |h.x.commands| ==> L.Enabled(u, L.Rings(rings))
    case CommandDone(_, _) =>
      match h.x.commands[h.x.handled]
      case EnableSlot => h.x.results[h.x.handled] <= P.MAX_SLOTS && h.usb[h.x.results[h.x.handled]].None?
      case AddressDevice(slot) =>
        P.Step(maxPorts, h.x, P.Complete(a.connected)).1 == P.Success ==>
          slot <= P.MAX_SLOTS && h.usb[slot].Some? && L.Enabled(h.usb[slot].value, L.Start)
      case ConfigureEndpoint(slot) =>
        slot <= P.MAX_SLOTS && h.usb[slot].Some? && L.Enabled(h.usb[slot].value, L.Configured)
  }

  lemma InvSane(maxPorts: nat, h: Host)
    requires Inv(maxPorts, h)
    ensures Sane(h) && P.Inv(maxPorts, h.x) && forall t | 0 <= t <= P.MAX_SLOTS :: Fit(ViewOf(h.x, t), h.usb[t])
  {
    hide P.Inv, Fit;
  }

  /** Changing one slot and its view, consistently. */
  lemma OneSlotFits(maxPorts: nat, h: Host, y: P.Xhc, slot: nat, u: Option<U.Usb>)
    requires Inv(maxPorts, h) && P.Inv(maxPorts, y) && slot <= P.MAX_SLOTS && P.Sized(y)
    requires forall t | 0 <= t <= P.MAX_SLOTS && t != slot :: SameView(h.x, y, t)
    requires Fit(ViewOf(y, slot), u)
    ensures Inv(maxPorts, Host(y, h.usb[slot := u]))
  {
    P.InvInRange(maxPorts, y);
    InvSane(maxPorts, h);
    hide P.Inv, Fit, ViewOf;
    var usb := h.usb[slot := u];
    forall t | 0 <= t <= P.MAX_SLOTS ensures Fit(ViewOf(y, t), usb[t]) {
      if t != slot {
        assert SameView(h.x, y, t) && Fit(ViewOf(h.x, t), h.usb[t]);
      }
    }
  }

  lemma AllSlotsFit(maxPorts: nat, h: Host, y: P.Xhc)
    requires Inv(maxPorts, h) && P.Inv(maxPorts, y) && P.Sized(y)
    requires forall t | 0 <= t <= P.MAX_SLOTS :: SameView(h.x, y, t)
    ensures Inv(maxPorts, Host(y, h.usb))
  {
    InvSane(maxPorts, h);
    assert SameView(h.x, y, 0);
    OneSlotFits(maxPorts, h, y, 0, h.usb[0]);
    assert h.usb[0 := h.usb[0]] == h.usb;
    hide *;
  }

  lemma PortKeepsInv(maxPorts: nat, h: Host, p: P.Action, b: nat -> U.Buffers)
    requires Inv(maxPorts, h) && Enabled(maxPorts, h, Port(p))
    ensures Inv(maxPorts, Next(maxPorts, h, Port(p), b))
  {
    InvSane(maxPorts, h);
    P.StepKeepsInv(maxPorts, h.x, p);
    var y := P.Step(maxPorts, h.x, p).0;
    PortEventsSpareSlots(maxPorts, h.x, p, 0);
    hide P.Inv, Inv, SameView, P.Step;
    forall t | 0 <= t <= P.MAX_SLOTS ensures SameView(h.x, y, t) {
      PortEventsSpareSlots(maxPorts, h.x, p, t);
    }
    AllSlotsFit(maxPorts, h, y);
  }

  /** A transfer event on the device of its slot: whatever it leads to, view and device fit. */
  lemma TransferFits(v: SlotView, u: U.Usb, e: L.Action, failed: bool, speed: nat, rings: seq<addr>, b: U.Buffers)
    requires Fit(Some(v), Some(u)) && L.Enabled(u, e) && (e.Complete? || e.Fail?) && U.BuffersOk(b)
    requires |rings| == X.ENDPOINTS + 1 && forall dci | 0 <= dci <= X.ENDPOINTS :: rings[dci] % 64 == 0
    ensures var w := Call(u, e, b);
      var init := v.initialized || (!failed && w.initialized);
      var configures := !failed && init && v.phase.InitializingDevice? && 1 <= speed <= 5;
      && (configures ==> L.Enabled(w, L.Rings(rings)))
      && Fit(Some(SlotView(if configures then P.ConfiguringEndpoints else v.phase, init)),
             Some(if configures then Call(w, L.Rings(rings), b) else w))
  {
    EventStages(u, e, b);
    var w := Call(u, e, b);
    var r := Call(w, L.Rings(rings), b);
    if w.stage.Initialized? {
      RingsCall(w, rings, b);
    }
    hide L.Inv, Call, L.Enabled;
    AfterEvent(v, u, w, r, failed, speed);
  }

  lemma AfterEvent(v: SlotView, u: U.Usb, w: U.Usb, r: U.Usb, failed: bool, speed: nat)
    requires Matches(v.phase, u.stage) && (v.initialized ==> u.initialized) && (u.initialized ==> w.initialized)
    requires (u.stage.Running? && w.stage.Running?)
             || (u.stage.Initializing? && (w.stage.Initializing? || w.stage.Initialized?)
                 && (w.initialized ==> w.stage.Initialized?))
    requires L.Inv(w) && (w.stage.Initialized? ==> L.Inv(r) && r.stage.RingsReady? && r.initialized == w.initialized)
    ensures var init := v.initialized || (!failed && w.initialized);
      var configures := !failed && init && v.phase.InitializingDevice? && 1 <= speed <= 5;
      && (configures ==> w.stage.Initialized?)
      && Fit(Some(SlotView(if configures then P.ConfiguringEndpoints else v.phase, init)),
             Some(if configures then r else w))
  {
    hide L.Inv;
  }

  lemma StartFits(v: Option<SlotView>, u: Option<U.Usb>, b: U.Buffers)
    requires Fit(v, u) && v.Some? && v.value.phase.AddressingDevice? && U.BuffersOk(b)
    ensures u.Some? && L.Enabled(u.value, L.Start)
    ensures Fit(Some(SlotView(P.InitializingDevice, false)), Some(Call(u.value, L.Start, b)))
  {
    hide *;
    FitParts(v, u);
    StartCall(u.value, b);
    PartsFit(SlotView(P.InitializingDevice, false), Call(u.value, L.Start, b));
  }

  lemma ConfiguredFits(v: Option<SlotView>, u: Option<U.Usb>, b: U.Buffers)
    requires Fit(v, u) && v.Some? && v.value.phase.ConfiguringEndpoints? && U.BuffersOk(b)
    ensures u.Some? && L.Enabled(u.value, L.Configured)
    ensures Fit(Some(SlotView(P.Configured, v.value.initialized)), Some(Call(u.value, L.Configured, b)))
  {
    hide *;
    FitParts(v, u);
    ConfiguredCall(u.value, b);
    StageInitialized(Call(u.value, L.Configured, b));
    PartsFit(SlotView(P.Configured, v.value.initialized), Call(u.value, L.Configured, b));
  }

  lemma FitParts(v: Option<SlotView>, u: Option<U.Usb>)
    requires Fit(v, u) && v.Some?
    ensures u.Some? && L.Inv(u.value) && (v.value.initialized ==> u.value.initialized)
    ensures v.value.phase.AddressingDevice? ==> u.value.stage.Fresh?
    ensures v.value.phase.ConfiguringEndpoints? ==> u.value.stage.RingsReady?
  {
    hide L.Inv;
  }

  lemma PartsFit(v: SlotView, u: U.Usb)
    requires L.Inv(u) && (v.initialized ==> u.initialized)
    requires (v.phase.Configured? && u.stage.Running?) || (v.phase.InitializingDevice? && u.stage.Initializing?)
    ensures Fit(Some(v), Some(u))
  {
    hide L.Inv;
  }

  lemma NewFits(v: Option<SlotView>, u: Option<U.Usb>, base: addr)
    requires Fit(v, u) && v.None? && base % 64 == 0
    ensures u.None? && Fit(Some(SlotView(P.AddressingDevice, false)), Some(U.NewDevice(base)))
  {
    UsbRuns.NewDeviceInv(base);
    hide L.Inv;
  }

  lemma TransferFitsHere(v: Option<SlotView>, u: Option<U.Usb>, e: L.Action, failed: bool,
                         speed: nat, rings: seq<addr>, b: U.Buffers)
    requires Fit(v, u) && u.Some? && L.Enabled(u.value, e) && (e.Complete? || e.Fail?) && U.BuffersOk(b)
    requires |rings| == X.ENDPOINTS + 1 && forall dci | 0 <= dci <= X.ENDPOINTS :: rings[dci] % 64 == 0
    ensures v.Some?
    ensures var w := Call(u.value, e, b);
      var init := v.value.initialized || (!failed && w.initialized);
      var configures := !failed && init && v.value.phase.InitializingDevice? && 1 <= speed <= 5;
      && (configures ==> L.Enabled(w, L.Rings(rings)))
      && Fit(Some(SlotView(if configures then P.ConfiguringEndpoints else v.value.phase, init)),
             Some(if configures then Call(w, L.Rings(rings), b) else w))
  {
    TransferFits(v.value, u.value, e, failed, speed, rings, b);
    hide L.Inv, Call, L.Enabled;
  }

  lemma TransferOthers(maxPorts: nat, x: P.Xhc, slot: nat, t: P.Transfer, speed: nat)
    requires P.Inv(maxPorts, x) && slot <= P.MAX_SLOTS
    ensures P.ContextPortsInRange(x)
    ensures var y := P.OnTransferEvent(x, slot, t, speed).0;
      && P.Sized(y)
      && (ViewOf(x, slot).Some? ==>
            var init := ViewOf(x, slot).value.initialized || (t.Went? && t.finished);
            var configures := t.Went? && init && ViewOf(x, slot).value.phase.InitializingDevice? && 1 <= speed <= 5;
            && ViewOf(y, slot)
               == Some(SlotView(if configures then P.ConfiguringEndpoints else ViewOf(x, slot).value.phase, init))
            && (|y.commands| > |x.commands| <==> configures))
      && forall other | 0 <= other <= P.MAX_SLOTS && other != slot :: SameView(x, y, other)
  {
    TransferView(maxPorts, x, slot, t, speed, if slot == 0 then 1 else 0);
    hide P.Inv, P.OnTransferEvent, ViewOf, SameView;
    var y := P.OnTransferEvent(x, slot, t, speed).0;
    forall other | 0 <= other <= P.MAX_SLOTS && other != slot ensures SameView(x, y, other) {
      TransferView(maxPorts, x, slot, t, speed, other);
    }
  }

  lemma TransferKeepsInv(maxPorts: nat, h: Host, a: Action, b: nat -> U.Buffers)
    requires Inv(maxPorts, h) && Enabled(maxPorts, h, a) && BuffersAllOk(b) && a.Transfer?
    ensures Inv(maxPorts, Next(maxPorts, h, a, b)) && InOrder(maxPorts, h, a, b)
  {
    var slot, u, failed, speed := a.slot, h.usb[a.slot], a.failed, a.speed;
    InvSane(maxPorts, h);
    TransferParts(maxPorts, h, a, b);
    hide *;
    var w := Call(u.value, a.a, b(slot));
    var t := if failed then P.Failed else P.Went(w.initialized);
    TransferFitsHere(ViewOf(h.x, slot), u, a.a, failed, speed, a.rings, b(slot));
    P.TransferKeepsInv(maxPorts, h.x, slot, t, speed);
    TransferOthers(maxPorts, h.x, slot, t, speed);
    var y := P.OnTransferEvent(h.x, slot, t, speed).0;
    OneSlotFits(maxPorts, h, y, slot,
                Some(if |y.commands| > |h.x.commands| then Call(w, L.Rings(a.rings), b(slot)) else w));
  }

  /** A transfer event in terms of its parts. */
  lemma TransferParts(maxPorts: nat, h: Host, a: Action, b: nat -> U.Buffers)
    requires Inv(maxPorts, h) && Enabled(maxPorts, h, a) && BuffersAllOk(b) && a.Transfer?
    ensures a.slot <= P.MAX_SLOTS && h.usb[a.slot].Some? && Fit(ViewOf(h.x, a.slot), h.usb[a.slot])
    ensures L.Enabled(h.usb[a.slot].value, a.a) && (a.a.Complete? || a.a.Fail?) && U.BuffersOk(b(a.slot))
    ensures |a.rings| == X.ENDPOINTS + 1 && forall dci | 0 <= dci <= X.ENDPOINTS :: a.rings[dci] % 64 == 0
    ensures P.Sized(h.x) && P.ContextPortsInRange(h.x)
    ensures var w := Call(h.usb[a.slot].value, a.a, b(a.slot));
      var y := P.OnTransferEvent(h.x, a.slot, if a.failed then P.Failed else P.Went(w.initialized), a.speed).0;
      && (InOrder(maxPorts, h, a, b) <==> (|y.commands| > |h.x.commands| ==> L.Enabled(w, L.Rings(a.rings))))
      && Next(maxPorts, h, a, b) ==
         Host(y, h.usb[a.slot :=
                  Some(if |y.commands| > |h.x.commands| then Call(w, L.Rings(a.rings), b(a.slot)) else w)])
  {
    hide Fit, P.Inv, P.OnTransferEvent, ViewOf, Call, L.Enabled, U.BuffersOk;
  }

  lemma PickedKeepsInv(maxPorts: nat, h: Host, connected: nat -> bool, base: addr, b: nat -> U.Buffers)
    requires Inv(maxPorts, h) && Enabled(maxPorts, h, CommandDone(connected, base))
    requires h.x.commands[h.x.handled].EnableSlot?
    ensures Inv(maxPorts, OnCommandDone(maxPorts, h, connected, base, b))
    ensures InOrder(maxPorts, h, CommandDone(connected, base), b)
  {
    InvSane(maxPorts, h);
    hide Inv, Fit, P.Inv, P.Step, ViewOf, SameView, Call, L.Enabled, U.NewDevice;
    P.StepKeepsInv(maxPorts, h.x, P.Complete(connected));
    PickedView(maxPorts, h.x, connected, 0);
    var y, slot := P.Step(maxPorts, h.x, P.Complete(connected)).0, h.x.results[h.x.handled];
    forall other | 0 <= other <= P.MAX_SLOTS && other != slot ensures SameView(h.x, y, other) {
      PickedView(maxPorts, h.x, connected, other);
    }
    NewFits(ViewOf(h.x, slot), h.usb[slot], base);
    OneSlotFits(maxPorts, h, y, slot, Some(U.NewDevice(base)));
  }

  /** A handler that calls the device of its slot. */
  lemma DeviceCall(maxPorts: nat, h: Host, connected: nat -> bool, base: addr, b: nat -> U.Buffers,
                   slot: nat, a: L.Action)
    requires maxPorts < P.PORTS && Sane(h) && P.Enabled(maxPorts, h.x, P.Complete(connected)) && base % 64 == 0
    requires P.Step(maxPorts, h.x, P.Complete(connected)).1 == P.Success
    requires var c := h.x.commands[h.x.handled];
      (c == P.AddressDevice(slot) && a == L.Start) || (c == P.ConfigureEndpoint(slot) && a == L.Configured)
    requires slot <= P.MAX_SLOTS && h.usb[slot].Some? && L.Enabled(h.usb[slot].value, a)
    ensures InOrder(maxPorts, h, CommandDone(connected, base), b)
    ensures OnCommandDone(maxPorts, h, connected, base, b)
            == Host(P.Step(maxPorts, h.x, P.Complete(connected)).0,
                    h.usb[slot := Some(Call(h.usb[slot].value, a, b(slot)))])
  {
    hide P.Step, Call, L.Enabled;
  }

  lemma AddressedKeepsInv(maxPorts: nat, h: Host, connected: nat -> bool, base: addr, b: nat -> U.Buffers)
    requires Inv(maxPorts, h) && Enabled(maxPorts, h, CommandDone(connected, base)) && BuffersAllOk(b)
    requires h.x.commands[h.x.handled].AddressDevice?
    ensures Inv(maxPorts, OnCommandDone(maxPorts, h, connected, base, b))
    ensures InOrder(maxPorts, h, CommandDone(connected, base), b)
  {
    InvSane(maxPorts, h);
    hide Inv, Fit, P.Inv, P.Step, ViewOf, SameView, Call, L.Enabled, OnCommandDone, InOrder;
    P.StepKeepsInv(maxPorts, h.x, P.Complete(connected));
    AddressedOthers(maxPorts, h.x, connected);
    var y, slot := P.Step(maxPorts, h.x, P.Complete(connected)).0, h.x.commands[h.x.handled].slot;
    StartFits(ViewOf(h.x, slot), h.usb[slot], b(slot));
    if slot == 0 {
      AllSlotsFit(maxPorts, h, y);
      NoDeviceCall(maxPorts, h, connected, base, b);
    } else {
      OneSlotFits(maxPorts, h, y, slot, Some(Call(h.usb[slot].value, L.Start, b(slot))));
      DeviceCall(maxPorts, h, connected, base, b, slot, L.Start);
    }
  }

  /** A refused completion calls nobody. */
  lemma NoDeviceCall(maxPorts: nat, h: Host, connected: nat -> bool, base: addr, b: nat -> U.Buffers)
    requires maxPorts < P.PORTS && Sane(h) && P.Enabled(maxPorts, h.x, P.Complete(connected)) && base % 64 == 0
    requires P.Step(maxPorts, h.x, P.Complete(connected)).1 != P.Success
    requires h.x.commands[h.x.handled] == P.AddressDevice(0)
    ensures InOrder(maxPorts, h, CommandDone(connected, base), b)
    ensures OnCommandDone(maxPorts, h, connected, base, b)
            == Host(P.Step(maxPorts, h.x, P.Complete(connected)).0, h.usb)
  {
    hide P.Step;
  }

  lemma AddressedOthers(maxPorts: nat, x: P.Xhc, connected: nat -> bool)
    requires P.Inv(maxPorts, x) && P.Enabled(maxPorts, x, P.Complete(connected))
    requires x.commands[x.handled].AddressDevice?
    ensures P.ContextPortsInRange(x)
    ensures var slot, y := x.commands[x.handled].slot, P.Step(maxPorts, x, P.Complete(connected)).0;
      && slot <= P.MAX_SLOTS && P.Sized(y)
      && ViewOf(x, slot).Some? && ViewOf(x, slot).value.phase.AddressingDevice?
      && (slot != 0 ==> ViewOf(y, slot) == Some(SlotView(P.InitializingDevice, false)))
      && forall other | 0 <= other <= P.MAX_SLOTS && (other != slot || slot == 0) :: SameView(x, y, other)
  {
    AddressedView(maxPorts, x, connected, 0);
    hide P.Inv, P.Step, ViewOf, SameView, P.Enabled;
    var y, slot := P.Step(maxPorts, x, P.Complete(connected)).0, x.commands[x.handled].slot;
    forall other | 0 <= other <= P.MAX_SLOTS && (other != slot || slot == 0) ensures SameView(x, y, other) {
      AddressedView(maxPorts, x, connected, other);
    }
  }

  lemma FinishedOthers(maxPorts: nat, x: P.Xhc, connected: nat -> bool)
    requires P.Inv(maxPorts, x) && P.Enabled(maxPorts, x, P.Complete(connected))
    requires x.commands[x.handled].ConfigureEndpoint?
    ensures P.ContextPortsInRange(x)
    ensures var slot, y := x.commands[x.handled].slot, P.Step(maxPorts, x, P.Complete(connected)).0;
      && 1 <= slot <= P.MAX_SLOTS && P.Sized(y)
      && ViewOf(x, slot).Some? && ViewOf(x, slot).value.phase.ConfiguringEndpoints?
      && ViewOf(y, slot) == Some(SlotView(P.Configured, ViewOf(x, slot).value.initialized))
      && forall other | 0 <= other <= P.MAX_SLOTS && other != slot :: SameView(x, y, other)
  {
    FinishedView(maxPorts, x, connected, 0);
    hide P.Inv, P.Step, ViewOf, SameView, P.Enabled;
    var y, slot := P.Step(maxPorts, x, P.Complete(connected)).0, x.commands[x.handled].slot;
    forall other | 0 <= other <= P.MAX_SLOTS && other != slot ensures SameView(x, y, other) {
      FinishedView(maxPorts, x, connected, other);
    }
  }

  lemma FinishedKeepsInv(maxPorts: nat, h: Host, connected: nat -> bool, base: addr, b: nat -> U.Buffers)
    requires Inv(maxPorts, h) && Enabled(maxPorts, h, CommandDone(connected, base)) && BuffersAllOk(b)
    requires h.x.commands[h.x.handled].ConfigureEndpoint?
    ensures Inv(maxPorts, OnCommandDone(maxPorts, h, connected, base, b))
    ensures InOrder(maxPorts, h, CommandDone(connected, base), b)
  {
    InvSane(maxPorts, h);
    hide Inv, Fit, P.Inv, P.Step, ViewOf, SameView, Call, L.Enabled, OnCommandDone, InOrder;
    P.StepKeepsInv(maxPorts, h.x, P.Complete(connected));
    FinishedOthers(maxPorts, h.x, connected);
    var y, slot := P.Step(maxPorts, h.x, P.Complete(connected)).0, h.x.commands[h.x.handled].slot;
    ConfiguredFits(ViewOf(h.x, slot), h.usb[slot], b(slot));
    OneSlotFits(maxPorts, h, y, slot, Some(Call(h.usb[slot].value, L.Configured, b(slot))));
    DeviceCall(maxPorts, h, connected, base, b, slot, L.Configured);
  }

  /** Every step of the driver keeps protocol and devices together, and makes its calls in order. */
  lemma NextKeepsInv(maxPorts: nat, h: Host, a: Action, b: nat -> U.Buffers)
    requires Inv(maxPorts, h) && Enabled(maxPorts, h, a) && BuffersAllOk(b)
    ensures Inv(maxPorts, Next(maxPorts, h, a, b)) && InOrder(maxPorts, h, a, b)
  {
    hide Inv, OnCommandDone, OnTransfer;
    InvSane(maxPorts, h);
    match a
    case Port(p) => PortKeepsInv(maxPorts, h, p, b);
    case Transfer(_, _, _, _, _) => TransferKeepsInv(maxPorts, h, a, b);
    case CommandDone(connected, base) =>
      match h.x.commands[h.x.handled] {
        case EnableSlot => PickedKeepsInv(maxPorts, h, connected, base, b);
        case AddressDevice(_) => AddressedKeepsInv(maxPorts, h, connected, base, b);
        case ConfigureEndpoint(_) => FinishedKeepsInv(maxPorts, h, connected, base, b);
      }
  }

  ghost predicate Runs(maxPorts: nat, h: Host, acts: seq<Action>, b: nat -> U.Buffers, k: Host)
    requires maxPorts < P.PORTS
    decreases |acts|
  {
    if acts == [] then h == k
    else Sane(h) && Enabled(maxPorts, h, acts[0]) && Runs(maxPorts, Next(maxPorts, h, acts[0], b), acts[1..], b, k)
  }

  lemma {:induction false} RunKeepsInv(maxPorts: nat, h: Host, acts: seq<Action>, b: nat -> U.Buffers, k: Host)
    requires maxPorts < P.PORTS && Inv(maxPorts, h) && BuffersAllOk(b) && Runs(maxPorts, h, acts, b, k)
    ensures Inv(maxPorts, k)
    decreases |acts|
  {
    hide Inv, Next, Enabled, Sane;
    if acts != [] {
      NextKeepsInv(maxPorts, h, acts[0], b);
      RunKeepsInv(maxPorts, Next(maxPorts, h, acts[0], b), acts[1..], b, k);
    }
  }

  /** Before any port is configured: no devices. */
  function Start(): Host { Host(P.Start(), seq(P.MAX_SLOTS + 1, _ => None)) }

  /** Flow control of one device: at most 30 TRBs of EP0 and one of its interrupt-in ring are not known
      to be complete. */
  predicate WithinBounds(u: U.Usb) {
    && 0 <= L.Unknown(u, U.EP0) <= U.RING_SIZE - 2
    && (u.stage.Running? && u.hid.Some? ==> 0 <= L.Unknown(u, u.hid.value.epIn) <= 1)
  }

  lemma DeviceWithinBounds(v: Option<SlotView>, u: Option<U.Usb>)
    requires Fit(v, u) && u.Some?
    ensures WithinBounds(u.value)
  {
    UsbRuns.Bounds(u.value);
    hide L.Inv, L.Unknown;
  }

  /** Main theorem: in every run of the whole driver, with any interleaving of ports, slots, commands and
      transfers, every call the protocol makes to a device comes when the device is ready for it, and
      all devices stay within the flow control of their rings. */
  lemma DriverTheorem(maxPorts: nat, acts: seq<Action>, b: nat -> U.Buffers, k: Host)
    requires maxPorts < P.PORTS && BuffersAllOk(b) && Runs(maxPorts, Start(), acts, b, k)
    ensures Sane(k)
    ensures forall t | 0 <= t <= P.MAX_SLOTS && k.usb[t].Some? :: WithinBounds(k.usb[t].value)
    ensures forall a | Enabled(maxPorts, k, a) :: InOrder(maxPorts, k, a, b)
  {
    P.StartInv(maxPorts);
    assert Inv(maxPorts, Start()) by { P.InvInRange(maxPorts, P.Start()); }
    RunKeepsInv(maxPorts, Start(), acts, b, k);
    InvSane(maxPorts, k);
    hide Runs, P.Inv, Fit, WithinBounds, Enabled, InOrder;
    forall t | 0 <= t <= P.MAX_SLOTS && k.usb[t].Some? ensures WithinBounds(k.usb[t].value) {
      DeviceWithinBounds(ViewOf(k.x, t), k.usb[t]);
    }
    forall a | Enabled(maxPorts, k, a) ensures InOrder(maxPorts, k, a, b) {
      NextKeepsInv(maxPorts, k, a, b);
    }
  }
}
