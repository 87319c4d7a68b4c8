/** A cooperative device comes up: three requests in this order, its endpoints and driver found, then
    SetProtocol, then reports. */
module UsbBoot {
  import opened Options
  import opened Trbs
  import opened ArrayMaps
  import opened Transfers
  import opened UsbDevice
  import opened UsbLifetime
  import opened UsbService
  import opened UsbRuns
  import D = Descriptors

  /** Exactly this control request is in flight. */
  predicate Asks(u: Usb, setup: SetupData, buf: addr, len: int, dirIn: bool) {
    && |u.dev.live| == 1 && u.dev.live[0].ControlRequest?
    && u.dev.live[0] == ControlRequest(EP0, u.dev.live[0].ioc, setup, buf, len, dirIn)
  }

  lemma IssueAsks(u: Usb, setup: SetupData, buf: addr, len: int, dirIn: bool)
    requires DeviceInv(u.dev) && RingAt(u.dev.rings, EP0).Some? && u.dev.live == []
    ensures Ready(u) && Asks(Issue(u, setup, buf, len, dirIn), setup, buf, len, dirIn)
  {
    IssueRings(u.dev, setup, buf, len, dirIn);
    hide DeviceInv, RingAt, ControlTransfer;
  }

  /** The only request of a device that is initialising may complete, and is handled by phase. */
  lemma EventInInit(u: Usb, residual: nat, code: nat, descs: seq<seq<D.byte>>, b: Buffers)
    requires Inv(u) && u.stage.Initializing? && |u.dev.live| == 1 && (code == 1 || code == 13)
    requires BuffersOk(b) && Usable(descs)
    ensures Enabled(u, Complete(0, residual, code, descs)) && Sane(u)
    ensures var v := Seen(u, 0, residual, code);
      && Between(v, u.dev.live[0].setup) && Ready(v) && v.phase == u.phase
      && v.hid == u.hid && v.configs == u.configs && v.driverAt == u.driverAt
      && Step(u, Complete(0, residual, code, descs), b) == OnControlCompleted(v, u.dev.live[0].setup, descs, b).0
  {
    hide *;
    SaneInv(u);
    RetiredRequest(u, residual, code);
    RetiredIsBetween(u, residual, code);
    BetweenIsInv(Seen(u, 0, residual, code), u.dev.live[0].setup);
    ControlIsHandled(u, 0, residual, code, descs, b);
    FirstIsOldest(u);
    CompleteIsEvent(u, residual, code, descs, b);
  }

  lemma BetweenAsks(v: Usb, w: Usb, before: SetupData, setup: SetupData, buf: addr, len: int, dirIn: bool)
    requires Between(v, before) && w.dev == v.dev
    ensures Ready(w) && Asks(Issue(w, setup, buf, len, dirIn), setup, buf, len, dirIn)
  {
    hide Issue, Asks, InUse, Full;
    IssueAsks(w, setup, buf, len, dirIn);
  }

  lemma DeviceDescriptorIn(u: Usb, residual: nat, code: nat, descs: seq<seq<D.byte>>, b: Buffers)
    requires Inv(u) && u.stage.Initializing? && |u.dev.live| == 1 && (code == 1 || code == 13)
    requires BuffersOk(b) && Usable(descs) && FirstTypeIs(descs, 1) && u.phase == 1
    ensures Enabled(u, Complete(0, residual, code, descs)) && Sane(u)
    ensures var w := Step(u, Complete(0, residual, code, descs), b);
      && Inv(w) && w.stage.Initializing? && w.phase == 2
      && Asks(w, SetupData(0x80, GET_DESCRIPTOR, 0x200, 0, BUFFER_SIZE), b.device, BUFFER_SIZE, true)
  {
    EventInInit(u, residual, code, descs, b);
    var v, setup := Seen(u, 0, residual, code), u.dev.live[0].setup;
    assert v.stage.Initializing? && !v.initialized && setup.request == GET_DESCRIPTOR;
    BetweenAsks(v, v.(phase := 2), setup, SetupData(0x80, GET_DESCRIPTOR, 0x200, 0, BUFFER_SIZE),
                b.device, BUFFER_SIZE, true);
    hide Inv, Seen, Between, Step, Enabled, Issue, Asks, Usable, FirstTypeIs;
    NextDescriptor(v, setup, b);
  }

  lemma ConfigurationIn(u: Usb, residual: nat, code: nat, descs: seq<seq<D.byte>>, b: Buffers)
    requires Inv(u) && u.stage.Initializing? && |u.dev.live| == 1 && (code == 1 || code == 13)
    requires BuffersOk(b) && FirstTypeIs(descs, 2) && Usable(descs) && D.Select(descs).Selected? && u.phase == 2
    ensures Enabled(u, Complete(0, residual, code, descs)) && Sane(u)
    ensures var w := Step(u, Complete(0, residual, code, descs), b);
      && Inv(w) && w.stage.Initializing? && w.phase == 3 && w.configs == D.Select(descs).configs
      && |descs[0]| >= 9 && Asks(w, SetupData(0, SET_CONFIGURATION, descs[0][5], 0, 0), 0, 0, false)
      && w.hid == Some(NewDriver(D.Select(descs), b))
  {
    EventInInit(u, residual, code, descs, b);
    var v, setup := Seen(u, 0, residual, code), u.dev.live[0].setup;
    assert v.stage.Initializing? && !v.initialized && setup.request == GET_DESCRIPTOR;
    Selecting(v, setup, descs, b);
    PhaseTwoAsks(v, setup, descs, b);
    hide Inv, Seen, Between, Step, Enabled, Issue, Asks, Usable, FirstTypeIs, D.Select, Phase2;
  }

  /** What NewClassDriver makes. */
  function NewDriver(s: D.Selection, b: Buffers): Hid
    requires s.Selected?
  {
    Hid(s.interface, if s.kind.Keyboard? then 8 else 3, b.driver, 0, 0, 0)
  }

  lemma PhaseTwoAsks(v: Usb, setup: SetupData, descs: seq<seq<D.byte>>, b: Buffers)
    requires Between(v, setup) && FirstTypeIs(descs, 2) && Usable(descs) && D.Select(descs).Selected?
    ensures Ready(v) && |descs[0]| >= 9
    ensures var w := Phase2(v, descs, b).0;
      && w.phase == 3 && w.configs == D.Select(descs).configs && w.stage == v.stage
      && Asks(w, SetupData(0, SET_CONFIGURATION, descs[0][5], 0, 0), 0, 0, false)
      && w.hid == Some(NewDriver(D.Select(descs), b))
  {
    var kind, interface, configs := D.Select(descs).kind, D.Select(descs).interface, D.Select(descs).configs;
    var hid := Hid(interface, if kind.Keyboard? then 8 else 3, b.driver, 0, 0, 0);
    var w := v.(hid := Some(hid), configs := configs, driverAt := Assign(v.driverAt, configs), phase := 3);
    BetweenAsks(v, w, setup, SetupData(0, SET_CONFIGURATION, descs[0][5], 0, 0), 0, 0, false);
    hide Between, Issue, Asks, D.Select, Assign, D.AllWellformed;
  }

  lemma ConfigurationSet(u: Usb, residual: nat, code: nat, descs: seq<seq<D.byte>>, b: Buffers)
    requires Inv(u) && u.stage.Initializing? && |u.dev.live| == 1 && (code == 1 || code == 13)
    requires BuffersOk(b) && Usable(descs) && u.phase == 3
    ensures Enabled(u, Complete(0, residual, code, descs)) && Sane(u)
    ensures var w := Step(u, Complete(0, residual, code, descs), b);
      && Inv(w) && w.stage.Initialized? && w.configs == u.configs && w.dev.live == []
      && w.hid.Some? && EpInOk(w.hid.value.epIn, w.driverAt, w.configs)
      && u.hid.Some? && w.hid == Some(SetEndpoints(u.hid.value, u.configs))
  {
    EventInInit(u, residual, code, descs, b);
    var v, setup := Seen(u, 0, residual, code), u.dev.live[0].setup;
    assert v.stage.Initializing? && !v.initialized && setup.request == SET_CONFIGURATION && v.hid.Some?;
    Finishing(v, setup);
    assert Phase3(v).stage.Initialized? && Phase3(v).configs == v.configs;
    assert Phase3(v).hid == Some(SetEndpoints(v.hid.value, v.configs));
    hide SetEndpoints;
    hide Seen, Between, Step, Enabled, Issue, Usable, Phase3, DeviceInv, InUse, RingAt, EpInOk;
  }

  /** The driver made for a keyboard or a mouse: reports of 8 or of 3 bytes, from the last interrupt-in
      endpoint found, into its buffer. */
  ghost predicate DriverFor(hid: Hid, kind: D.DriverKind, interface: nat, configs: seq<D.EndpointConfig>, b: Buffers) {
    && hid.packetSize == (match kind case Keyboard => 8 case Mouse => 3)
    && hid.interface == interface && hid.buf == b.driver && hid.phase == 0
    && LastOf(configs, true, hid.epIn, 0) && LastOf(configs, false, hid.epOut, 0)
  }

  /** Main theorem: whatever well-formed descriptors the device sends, if they offer a boot interface
      the device is initialised by exactly three requests: for its device descriptor, for its
      configuration, and to select that configuration. The endpoints found are the interface's. */
  lemma InitializationSucceeds(u0: Usb, b: Buffers, device: seq<seq<D.byte>>, config: seq<seq<D.byte>>,
                               residual: nat, code: nat)
      returns (u1: Usb, u2: Usb, u3: Usb, u4: Usb)
    requires Inv(u0) && u0.stage.Fresh? && BuffersOk(b) && (code == 1 || code == 13)
    requires FirstTypeIs(device, 1) && Usable(device)
    requires FirstTypeIs(config, 2) && Usable(config) && D.Select(config).Selected?
    ensures Sane(u0) && Enabled(u0, Start) && u1 == Step(u0, Start, b)
    ensures Asks(u1, SetupData(0x80, 6, 0x100, 0, 256), b.device, 256, true)
    ensures Sane(u1) && Enabled(u1, Complete(0, residual, code, device))
            && u2 == Step(u1, Complete(0, residual, code, device), b)
    ensures Asks(u2, SetupData(0x80, 6, 0x200, 0, 256), b.device, 256, true)
    ensures Sane(u2) && Enabled(u2, Complete(0, residual, code, config))
            && u3 == Step(u2, Complete(0, residual, code, config), b)
    ensures |config[0]| >= 9 && Asks(u3, SetupData(0, 9, config[0][5], 0, 0), 0, 0, false)
    ensures Sane(u3) && Enabled(u3, Complete(0, residual, code, config))
            && u4 == Step(u3, Complete(0, residual, code, config), b)
    ensures Inv(u4) && u4.stage.Initialized? && u4.configs == D.Select(config).configs
    ensures u4.dev.live == [] && u4.hid.Some? && EpInOk(u4.hid.value.epIn, u4.driverAt, u4.configs)
    ensures DriverFor(u4.hid.value, D.Select(config).kind, D.Select(config).interface, u4.configs, b)
  {
    hide Inv, Step, Enabled, Sane, Usable, FirstTypeIs, EpInOk, D.Select;
    StartAsks(u0, b);
    u1 := Step(u0, Start, b);
    DeviceDescriptorIn(u1, residual, code, device, b);
    u2 := Step(u1, Complete(0, residual, code, device), b);
    ConfigurationIn(u2, residual, code, config, b);
    u3 := Step(u2, Complete(0, residual, code, config), b);
    ConfigurationSet(u3, residual, code, config, b);
    u4 := Step(u3, Complete(0, residual, code, config), b);
    SetEndpointsFacts(u3.hid.value, u3.configs);
    hide SetEndpoints, LastOf;
  }

  lemma StartAsks(u: Usb, b: Buffers)
    requires Inv(u) && u.stage.Fresh? && BuffersOk(b)
    ensures Sane(u) && Enabled(u, Start)
    ensures var w := Step(u, Start, b);
      && Inv(w) && w.stage.Initializing? && w.phase == 1
      && Asks(w, SetupData(0x80, GET_DESCRIPTOR, 0x100, 0, BUFFER_SIZE), b.device, BUFFER_SIZE, true)
  {
    SaneInv(u);
    StartKeepsInv(u, b);
    var v := u.(initialized := false, phase := 1, stage := Initializing);
    IssueAsks(v, SetupData(0x80, GET_DESCRIPTOR, 0x100, 0, BUFFER_SIZE), b.device, BUFFER_SIZE, true);
    hide Inv, Asks, Issue, DeviceInv, RingAt;
  }

  // ---- into service

  /** SetProtocol is in flight, for the driver as it was. */
  predicate ProtocolSent(u: Usb, v: Usb) {
    v.dev.live != [] && u.hid.Some? && v.hid == Some(u.hid.value.(phase := 1))
  }

  /** With a driver for some endpoint from n on, SetProtocol is sent. */
  lemma {:induction false} SomethingIsSent(u: Usb, n: nat, m: nat)
    requires Sending(u, n) && n <= m < 16 && m < |u.driverAt| && u.driverAt[m]
    ensures Ready(u) && ProtocolSent(u, OnEndpointsConfigured(u, n))
    decreases m - n
  {
    hide *;
    SendingReady(u, n);
    ConfiguredUnfolds(u, n);
    if u.driverAt[n] {
      SendOne(u, n);
      OneSent(u, n);
      SendingReady(SetProtocol(u), n + 1);
      SentStays(SetProtocol(u), n + 1);
    } else {
      SomethingIsSent(u, n + 1, m);
    }
  }

  lemma OneSent(u: Usb, n: nat)
    requires Sending(u, n)
    ensures Ready(u) && ProtocolSent(SetProtocol(u), SetProtocol(u))
    ensures forall v | ProtocolSent(SetProtocol(u), v) :: ProtocolSent(u, v)
  {
    IssueRings(u.dev, SetProtocolSetup(u.hid.value.(phase := 1)), 0, 0, false);
    hide DeviceInv, RingAt, ControlTransfer, Put;
  }

  /** Once sent, later requests change neither that nor the endpoint. */
  lemma {:induction false} SentStays(u: Usb, n: nat)
    requires Sending(u, n) && n <= 16 && ProtocolSent(u, u)
    ensures Ready(u) && ProtocolSent(u, OnEndpointsConfigured(u, n))
    decreases 16 - n
  {
    hide *;
    SendingReady(u, n);
    ConfiguredUnfolds(u, n);
    if n < 16 {
      if u.driverAt[n] {
        SendOne(u, n);
        SendingReady(SetProtocol(u), n + 1);
        OneSent(u, n);
        SentStays(SetProtocol(u), n + 1);
      } else {
        SentStays(u, n + 1);
      }
    }
  }

  /** The SetProtocol packet for the boot protocol: class request to an interface, number 11, value 0. */
  predicate ProtocolRequest(r: Request, interface: nat) {
    && r.ControlRequest? && r.dci == EP0 && r.buf == 0
    && r.setup.requestType == 0x21 && r.setup.request == 11 && r.setup.value == 0 && r.setup.length == 0
    && r.setup.index == interface
  }

  /** CompleteConfiguration puts SetProtocol in flight, and the first of its completions starts the
      reports: the interrupt-in endpoint is armed with the driver's buffer and report size. */
  lemma ReportsStart(u: Usb, b: Buffers, residual: nat, code: nat, descs: seq<seq<D.byte>>) returns (v: Usb, w: Usb)
    requires Inv(u) && u.stage.RingsReady? && BuffersOk(b) && (code == 1 || code == 13) && Usable(descs)
    ensures Sane(u) && Enabled(u, UsbLifetime.Configured) && v == Step(u, UsbLifetime.Configured, b)
    ensures v.dev.live != [] && u.hid.Some? && ProtocolRequest(v.dev.live[0], u.hid.value.interface)
    ensures Sane(v) && Enabled(v, Complete(0, residual, code, descs))
            && w == Step(v, Complete(0, residual, code, descs), b)
    ensures Inv(w) && w.hid == Some(u.hid.value.(phase := 2)) && w.dev.live != []
    ensures var report := w.dev.live[|w.dev.live| - 1];
      && report.InterruptRequest? && report.dci == u.hid.value.epIn
      && report.buf == u.hid.value.buf && report.len == u.hid.value.packetSize
  {
    hide *;
    ServiceBegins(u, b);
    v := Step(u, UsbLifetime.Configured, b);
    RequestIsControl(v.dev.live[0], u.hid.value.interface);
    FirstReport(v, b, residual, code, descs);
    w := Step(v, Complete(0, residual, code, descs), b);
  }

  lemma RequestIsControl(r: Request, interface: nat)
    requires ProtocolRequest(r, interface)
    ensures r.ControlRequest?
  {
  }

  lemma ServiceBegins(u: Usb, b: Buffers)
    requires Inv(u) && u.stage.RingsReady?
    ensures Sane(u) && Enabled(u, UsbLifetime.Configured)
    ensures var v := Step(u, UsbLifetime.Configured, b);
      && Inv(v) && v.stage.Running? && v.dev.live != []
      && u.hid.Some? && v.hid == Some(u.hid.value.(phase := 1))
      && ProtocolRequest(v.dev.live[0], u.hid.value.interface)
  {
    SaneInv(u);
    ReadyToSend(u);
    SomethingIsSent(u, 0, u.hid.value.epIn / 2);
    SendAll(u, 0);
    FirstIsProtocol(OnEndpointsConfigured(u, 0));
    ConfiguredKeepsInv(u);
    hide Inv, OnEndpointsConfigured, Sending, Sane, ProtocolRequest;
  }

  lemma FirstReport(v: Usb, b: Buffers, residual: nat, code: nat, descs: seq<seq<D.byte>>)
    requires Inv(v) && v.stage.Running? && v.dev.live != [] && v.dev.live[0].ControlRequest?
    requires v.hid.Some? && v.hid.value.phase == 1 && (code == 1 || code == 13) && Usable(descs)
    ensures Sane(v) && Enabled(v, Complete(0, residual, code, descs))
    ensures var w := Step(v, Complete(0, residual, code, descs), b);
      && Inv(w) && w.hid == Some(v.hid.value.(phase := 2)) && w.dev.live != []
      && var report := w.dev.live[|w.dev.live| - 1];
         && report.InterruptRequest? && report.dci == v.hid.value.epIn
         && report.buf == v.hid.value.buf && report.len == v.hid.value.packetSize
  {
    hide *;
    FirstIsOldest(v);
    ServiceCompletes(v, 0, residual, code, descs, b);
    CompleteIsEvent(v, residual, code, descs, b);
    ReportFields(v);
  }

  lemma FirstIsOldest(v: Usb)
    requires v.dev.live != []
    ensures Oldest(v.dev.live, 0)
  {
  }

  lemma CompleteIsEvent(v: Usb, residual: nat, code: nat, descs: seq<seq<D.byte>>, b: Buffers)
    requires Sane(v) && Pointed(v.dev, 0) && Oldest(v.dev.live, 0) && (code == 1 || code == 13) && Usable(descs)
    ensures Enabled(v, Complete(0, residual, code, descs))
    ensures Step(v, Complete(0, residual, code, descs), b) == OnEvent(v, 0, residual, code, descs, b)
  {
    hide Sane, Pointed, Oldest, Usable, OnEvent;
  }

  lemma ReportFields(v: Usb)
    requires v.hid.Some?
    ensures var r := NextReport(v);
      && r.InterruptRequest? && r.dci == v.hid.value.epIn && r.buf == v.hid.value.buf
      && r.len == v.hid.value.packetSize
  {
  }

  lemma FirstIsProtocol(u: Usb)
    requires Sending(u, 16) && u.dev.live != []
    ensures u.hid.Some? && ProtocolRequest(u.dev.live[0], u.hid.value.interface)
  {
    hide DeviceInv, EpInOk, InUse, Full, Sorted, Has;
  }

  // ---- from the bytes to the first report

  /** A configuration the driver can cope with, in bytes: type 2, at least nine of its own, and an interface that
      offers at most 16 endpoints, numbered from 1, one of them interrupt-in. */
  ghost predicate Offered(config: seq<seq<D.byte>>, s: D.Selection) {
    && config != [] && D.AllWellformed(config) && |config[0]| >= 9 && config[0][1] == 2
    && s.Selected? && D.Offers(config, s) && |s.configs| <= 16
    && (forall i | 0 <= i < |s.configs| :: 1 <= s.configs[i].number < 16)
    && exists i | 0 <= i < |s.configs| :: s.configs[i].transferType == 3 && s.configs[i].dirIn
  }

  lemma OfferedIsUsable(config: seq<seq<D.byte>>, s: D.Selection)
    requires Offered(config, s)
    ensures FirstTypeIs(config, 2) && Usable(config) && D.Select(config) == s
  {
    D.SelectOffers(config);
    D.OffersOne(config, s, D.Select(config));
    hide D.Select, D.Offers;
    assert D.Wellformed(config[0]);
  }

  lemma DeviceIsUsable(device: seq<seq<D.byte>>)
    requires device != [] && D.AllWellformed(device) && device[0][1] == 1
    ensures FirstTypeIs(device, 1) && Usable(device)
  {
    assert D.Wellformed(device[0]);
    hide D.Select;
  }

  /** The actions that bring a cooperative device up. */
  function BootActions(residual: nat, code: nat, device: seq<seq<D.byte>>, config: seq<seq<D.byte>>,
                       base: seq<addr>): seq<Action> {
    [Start, Complete(0, residual, code, device), Complete(0, residual, code, config),
     Complete(0, residual, code, config), UsbLifetime.Rings(base), UsbLifetime.Configured,
     Complete(0, residual, code, config)]
  }

  lemma RunBefore(u: Usb, a: Action, v: Usb, acts: seq<Action>, b: Buffers, w: Usb)
    requires Sane(u) && Enabled(u, a) && v == Step(u, a, b) && Runs(v, acts, b, w)
    ensures Runs(u, [a] + acts, b, w)
  {
    hide Sane, Enabled, Step;
    assert ([a] + acts)[1..] == acts;
  }

  /** The rest, once the device is initialised. */
  lemma ServiceRuns(u: Usb, b: Buffers, base: seq<addr>, residual: nat, code: nat, descs: seq<seq<D.byte>>)
      returns (w: Usb)
    requires Inv(u) && u.stage.Initialized? && u.hid.Some? && BuffersOk(b) && (code == 1 || code == 13) && Usable(descs)
    requires |base| == ENDPOINTS + 1 && forall dci | 0 <= dci <= ENDPOINTS :: base[dci] % 64 == 0
    ensures var acts := [UsbLifetime.Rings(base)]
                        + ([UsbLifetime.Configured] + ([Complete(0, residual, code, descs)] + []));
      Runs(u, acts, b, w)
    ensures Inv(w) && w.dev.live != []
    ensures var report := w.dev.live[|w.dev.live| - 1];
      && report.InterruptRequest? && report.dci == u.hid.value.epIn
      && report.buf == u.hid.value.buf && report.len == u.hid.value.packetSize
  {
    var a := UsbLifetime.Rings(base);
    StepKeepsInv(u, a, b);
    var u5 := Step(u, a, b);
    assert Enabled(u, a);
    assert u5.hid == u.hid && u5.stage.RingsReady? by { hide AllocRings; }
    hide Inv, Sane, Enabled, Step, ProtocolRequest, Usable, Runs;
    var v, x := ReportsStart(u5, b, residual, code, descs);
    NoMore(x, b);
    RunBefore(v, Complete(0, residual, code, descs), x, [], b, x);
    RunBefore(u5, UsbLifetime.Configured, v, [Complete(0, residual, code, descs)] + [], b, x);
    RunBefore(u, a, u5, [UsbLifetime.Configured] + ([Complete(0, residual, code, descs)] + []), b, x);
    w := x;
  }

  lemma NoMore(u: Usb, b: Buffers)
    ensures Runs(u, [], b, u)
  {
  }

  /** A report being read: 8 bytes from a keyboard, 3 from a mouse, at the last interrupt-in endpoint. */
  ghost predicate ReportFor(r: Request, kind: D.DriverKind, configs: seq<D.EndpointConfig>, b: Buffers) {
    && r.InterruptRequest? && r.buf == b.driver && r.len == (match kind case Keyboard => 8 case Mouse => 3)
    && LastOf(configs, true, r.dci, 0)
  }

  lemma IsReportFor(r: Request, hid: Hid, s: D.Selection, b: Buffers)
    requires s.Selected? && DriverFor(hid, s.kind, s.interface, s.configs, b)
    requires r.InterruptRequest? && r.dci == hid.epIn && r.buf == hid.buf && r.len == hid.packetSize
    ensures ReportFor(r, s.kind, s.configs, b)
  {
    hide LastOf;
  }

  lemma OfferedSelects(config: seq<seq<D.byte>>, s: D.Selection)
    requires Offered(config, s)
    ensures s.Selected?
  {
  }

  /** Main theorem: from the bytes of its descriptors to the first report. A device whose configuration
      offers a boot interface comes up, and its last interrupt-in endpoint is armed for reports of 8 bytes
      if it is a keyboard (protocol 1) and of 3 if it is a mouse (protocol 2). */
  lemma FirstReportFromBytes(u: Usb, b: Buffers, device: seq<seq<D.byte>>, config: seq<seq<D.byte>>, s: D.Selection,
                             base: seq<addr>, residual: nat, code: nat)
      returns (w: Usb)
    requires Inv(u) && u.stage.Fresh? && BuffersOk(b) && (code == 1 || code == 13)
    requires device != [] && D.AllWellformed(device) && device[0][1] == 1 && Offered(config, s)
    requires |base| == ENDPOINTS + 1 && forall dci | 0 <= dci <= ENDPOINTS :: base[dci] % 64 == 0
    ensures Runs(u, BootActions(residual, code, device, config, base), b, w)
    ensures Inv(w) && w.dev.live != []
    ensures s.Selected? && ReportFor(w.dev.live[|w.dev.live| - 1], s.kind, s.configs, b)
  {
    hide *;
    OfferedSelects(config, s);
    OfferedIsUsable(config, s);
    DeviceIsUsable(device);
    var u1, u2, u3, u4 := InitializationSucceeds(u, b, device, config, residual, code);
    w := ServiceRuns(u4, b, base, residual, code, config);
    IsReportFor(w.dev.live[|w.dev.live| - 1], u4.hid.value, s, b);
    var rest := [UsbLifetime.Rings(base)] + ([UsbLifetime.Configured] + ([Complete(0, residual, code, config)] + []));
    var second, third := Complete(0, residual, code, device), Complete(0, residual, code, config);
    RunBefore(u3, third, u4, rest, b, w);
    RunBefore(u2, third, u3, [third] + rest, b, w);
    RunBefore(u1, second, u2, [third] + ([third] + rest), b, w);
    RunBefore(u, Start, u1, [second] + ([third] + ([third] + rest)), b, w);
    InOrder(Start, second, third, rest, residual, code, device, config, base);
  }

  lemma InOrder(first: Action, second: Action, third: Action, rest: seq<Action>, residual: nat, code: nat,
                device: seq<seq<D.byte>>, config: seq<seq<D.byte>>, base: seq<addr>)
    requires first == Start && second == Complete(0, residual, code, device)
    requires third == Complete(0, residual, code, config)
    requires rest == [UsbLifetime.Rings(base)] + ([UsbLifetime.Configured] + ([third] + []))
    ensures [first] + ([second] + ([third] + ([third] + rest))) == BootActions(residual, code, device, config, base)
  {
  }
}
