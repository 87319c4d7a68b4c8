/** The life of a USB device: initialisation requests, the HID driver and its re-armed interrupt
    transfers (kernel/usb/device.cpp, kernel/usb/classdriver/hid.cpp) on top of the transfers of
    kernel/usb/xhci/device.cpp. */
module UsbDevice {
  import opened Options
  import opened Trbs
  import opened ProducerRing
  import opened ArrayMaps
  import opened Transfers
  import D = Descriptors

  /** kDefaultControlPipeID: endpoint number 0, direction in. */
  const EP0 := 1

  const GET_DESCRIPTOR := 6
  const SET_CONFIGURATION := 9
  const SET_PROTOCOL := 11

  const BUFFER_SIZE := 256
  const RING_SIZE := 32

  /** The one class driver a device gets. epIn and epOut are endpoint addresses; phase 0 until its
      endpoints are configured, 1 while SetProtocol runs, 2 once reports are being read. */
  datatype Hid = Hid(interface: byte, packetSize: nat, buf: addr, epIn: nat, epOut: nat, phase: nat)

  datatype DriverRef = TheDriver

  /** usb::Device: the transfers underneath, the initialisation phase, the endpoints found, which
      entries of class_drivers_ are set, the driver, event_waiters_; then, as history, how many TRBs
      of each ring are known to be complete. */
  datatype Usb = Usb(
    dev: Transfers.Device, phase: nat, initialized: bool, configs: seq<D.EndpointConfig>,
    driverAt: seq<bool>, hid: Option<Hid>, waiters: seq<Entry<SetupData, DriverRef>>,
    stage: Stage, known: map<nat, nat>)

  /** How far the rest of the driver has taken the device: StartInitialize, initialisation finished,
      rings of the endpoints allocated, OnEndpointsConfigured. */
  datatype Stage = Fresh | Initializing | Initialized | RingsReady | Running

  datatype Err = Ok | InvalidPhase | NoWaiter | NoRing | Unsupported

  /** Memory the driver and the device use as buffers; neither is null. */
  datatype Buffers = Buffers(device: addr, driver: addr)

  predicate BuffersOk(b: Buffers) { b.device != 0 && b.driver != 0 }

  function NewDevice(base: addr): Usb {
    var rings := seq(ENDPOINTS, _ => None);
    Usb(Transfers.Device(rings[0 := Some(InitProducer(base, RING_SIZE))], seq(16, _ => Free), []),
        0, false, [], seq(16, _ => false), None, seq(4, _ => Free), Fresh, map[])
  }

  // ---- requests

  predicate Ready(u: Usb) { RingAt(u.dev.rings, EP0).Some? && Pushable(RingAt(u.dev.rings, EP0).value) }

  function Issue(u: Usb, setup: SetupData, buf: addr, len: int, dirIn: bool): Usb
    requires Ready(u)
  {
    u.(dev := ControlTransfer(u.dev, EP0, setup, buf, len, dirIn).0)
  }

  function GetDescriptor(u: Usb, ty: byte, b: Buffers): Usb
    requires Ready(u)
  {
    Issue(u, SetupData(0x80, GET_DESCRIPTOR, ty * 0x100, 0, BUFFER_SIZE), b.device, BUFFER_SIZE, true)
  }

  function SetConfiguration(u: Usb, value: byte): Usb
    requires Ready(u)
  {
    Issue(u, SetupData(0, SET_CONFIGURATION, value, 0, 0), 0, 0, false)
  }

  function SetProtocolSetup(hid: Hid): SetupData { SetupData(0x21, SET_PROTOCOL, 0, hid.interface, 0) }

  /** HIDBaseDriver::OnEndpointsConfigured: registers the driver as waiter, then sends SetProtocol. */
  function SetProtocol(u: Usb): Usb
    requires Ready(u) && u.hid.Some?
  {
    var hid := u.hid.value.(phase := 1);
    Issue(u.(hid := Some(hid), waiters := Put(u.waiters, SetProtocolSetup(hid), TheDriver)),
          SetProtocolSetup(hid), 0, 0, false)
  }

  function StartInitialize(u: Usb, b: Buffers): Usb
    requires Ready(u)
  {
    GetDescriptor(u.(initialized := false, phase := 1, stage := Initializing), 1, b)
  }

  // ---- OnControlCompleted; `descs` is what the device has written to the buffer

  predicate FirstTypeIs(descs: seq<seq<D.byte>>, ty: nat) {
    descs != [] && D.AllWellformed(descs) && D.Wellformed(descs[0]) && descs[0][1] == ty
  }

  function Address(c: D.EndpointConfig): nat { 2 * c.number + (if c.dirIn then 1 else 0) }

  /** class_drivers_ after the endpoints found were entered. */
  function Assign(driverAt: seq<bool>, configs: seq<D.EndpointConfig>): (r: seq<bool>)
    requires |driverAt| == 16 && forall i | 0 <= i < |configs| :: configs[i].number < 16
    ensures |r| == 16
  {
    if configs == [] then driverAt
    else Assign(driverAt, configs[..|configs| - 1])[configs[|configs| - 1].number := true]
  }

  /** SetEndpoint for each endpoint found. */
  function SetEndpoints(hid: Hid, configs: seq<D.EndpointConfig>): Hid {
    if configs == [] then hid
    else
      var h := SetEndpoints(hid, configs[..|configs| - 1]);
      var c := configs[|configs| - 1];
      if c.transferType == 3 then
        if c.dirIn then h.(epIn := Address(c)) else h.(epOut := Address(c))
      else h
  }

  /** What a device must offer for the driver to cope with it: endpoints 1 to 15, at most 16 of
      them, one of them interrupt-in, and a full configuration descriptor. */
  predicate Usable(descs: seq<seq<D.byte>>) {
    FirstTypeIs(descs, 2) ==>
      match D.Select(descs)
      case NoDriver => true
      case NullRead => false
      case Selected(_, _, configs) =>
        && |descs[0]| >= 9 && |configs| <= 16
        && (forall i | 0 <= i < |configs| :: 1 <= configs[i].number < 16)
        && exists i | 0 <= i < |configs| :: configs[i].transferType == 3 && configs[i].dirIn
  }

  function Phase2(u: Usb, descs: seq<seq<D.byte>>, b: Buffers): (Usb, Err)
    requires Ready(u) && |u.driverAt| == 16 && FirstTypeIs(descs, 2) && Usable(descs)
  {
    match D.Select(descs)
    case NoDriver => (u, Ok)
    case NullRead => (u, Ok)
    case Selected(kind, interface, configs) =>
      var hid := Hid(interface, if kind.Keyboard? then 8 else 3, b.driver, 0, 0, 0);
      (SetConfiguration(u.(hid := Some(hid), configs := configs, driverAt := Assign(u.driverAt, configs), phase := 3),
                        descs[0][5]), Ok)
  }

  function Phase3(u: Usb): Usb
    requires u.hid.Some?
  {
    u.(hid := Some(SetEndpoints(u.hid.value, u.configs)), phase := 4, initialized := true, stage := Initialized)
  }

  predicate Armable(u: Usb) {
    u.hid.Some? ==>
      1 <= u.hid.value.epIn <= ENDPOINTS &&
      (RingAt(u.dev.rings, u.hid.value.epIn).Some? ==> Pushable(RingAt(u.dev.rings, u.hid.value.epIn).value))
  }

  /** Arms the interrupt-in endpoint. */
  function Arm(u: Usb): Usb
    requires u.hid.Some? && Armable(u)
  {
    u.(dev := InterruptIn(u.dev, u.hid.value.epIn, u.hid.value.buf, u.hid.value.packetSize).0)
  }

  /** What InterruptIn answers: the endpoint may have no ring. */
  function ArmErr(u: Usb): Err
    requires u.hid.Some?
  {
    if RingAt(u.dev.rings, u.hid.value.epIn).Some? then Ok else NoRing
  }

  function OnControlCompleted(u: Usb, setup: SetupData, descs: seq<seq<D.byte>>, b: Buffers): (Usb, Err)
    requires Ready(u) && |u.driverAt| == 16 && Usable(descs)
    requires u.initialized ==> Armable(u)
  {
    if u.initialized then
      if Get(u.waiters, setup).None? || u.hid.None? then (u, NoWaiter)
      else if u.hid.value.phase == 1 then (Arm(u.(hid := Some(u.hid.value.(phase := 2)))), ArmErr(u))
      else (u, Unsupported)
    else if u.phase == 1 then
      if setup.request == GET_DESCRIPTOR && FirstTypeIs(descs, 1)
      then (GetDescriptor(u.(phase := 2), 2, b), Ok) else (u, InvalidPhase)
    else if u.phase == 2 then
      if setup.request == GET_DESCRIPTOR && FirstTypeIs(descs, 2) then Phase2(u, descs, b) else (u, InvalidPhase)
    else if u.phase == 3 then
      if setup.request == SET_CONFIGURATION && u.hid.Some? then (Phase3(u), Ok) else (u, InvalidPhase)
    else (u, Unsupported)
  }

  function OnInterruptCompleted(u: Usb, ep: nat): (Usb, Err)
    requires |u.driverAt| == 16 && Armable(u) && ep <= ENDPOINTS
  {
    if u.driverAt[ep / 2] && u.hid.Some? then
      if ep % 2 == 1 then (Arm(u), ArmErr(u)) else (u, Unsupported)
    else (u, NoWaiter)
  }

  /** OnEndpointsConfigured: one SetProtocol for every endpoint number with a driver, from n on. */
  function OnEndpointsConfigured(u: Usb, n: nat): Usb
    requires n <= 16 && Ready(u) && |u.driverAt| == 16
    decreases 16 - n
  {
    if n == 16 then u
    else if !u.driverAt[n] || u.hid.None? then OnEndpointsConfigured(u, n + 1)
    else
      var v := SetProtocol(u);
      if Ready(v) then OnEndpointsConfigured(v, n + 1) else v
  }

  /** The rings that ConfigureEndpoints allocates for the endpoints found. */
  function AllocRings(dev: Transfers.Device, configs: seq<D.EndpointConfig>, base: seq<addr>): (r: Transfers.Device)
    requires |dev.rings| == ENDPOINTS && |base| == ENDPOINTS + 1
    ensures |r.rings| == ENDPOINTS
  {
    if configs == [] then dev
    else
      var d := AllocRings(dev, configs[..|configs| - 1], base);
      var dci := Address(configs[|configs| - 1]);
      if 1 <= dci <= ENDPOINTS then SetRing(d, dci, InitProducer(base[dci], RING_SIZE)) else d
  }
}
