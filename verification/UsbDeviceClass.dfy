/** `usb::Device` and the `HIDBaseDriver` bound to it, with their fields changed in place. */
module UsbDeviceClass {
  import opened Options
  import opened Trbs
  import R = ProducerRing
  import opened ArrayMaps
  import opened Transfers
  import opened UsbDevice
  import D = Descriptors
  import X = XhciDevice
  import M = ArrayMapClass

  class Device {
    const xhc: X.Device
    const eventWaiters: M.ArrayMap<SetupData, DriverRef>
    const classDrivers: array<bool>
    const buf: array<D.byte>
    const buffers: Buffers
    var initializePhase: nat
    var isInitialized: bool
    var epConfigs: seq<D.EndpointConfig>

    // The driver object NewClassDriver made, if any.
    var hid: Option<Hid>

    ghost var stage: UsbDevice.Stage
    ghost var known: map<nat, nat>

    ghost function Repr(): set<object> {
      {this, xhc, xhc.transferRings, xhc.setupStageMap.table, eventWaiters.table, classDrivers}
    }

    ghost function View(): Usb
      reads Repr()
    {
      Usb(xhc.View(), initializePhase, isInitialized, epConfigs, classDrivers[..], hid, eventWaiters.table[..],
          stage, known)
    }

    /** With a ring for the default control pipe. */
    ghost predicate Valid()
      reads Repr()
    {
      && xhc.Valid() && xhc.transferRings[EP0 - 1].Some? && classDrivers.Length == 16 && buf.Length == BUFFER_SIZE
      && (isInitialized ==> Armable(View()))
    }

    static lemma NewDeviceIs(base: addr, u: Usb)
      requires var rings := seq(ENDPOINTS, _ => None);
        u.dev.rings == rings[EP0 - 1 := Some(R.InitProducer(base, RING_SIZE))]
      requires u.dev.table == seq(16, _ => Free) && u.dev.live == []
      requires |u.driverAt| == 16 && forall i | 0 <= i < 16 :: !u.driverAt[i]
      requires |u.waiters| == 4 && forall i | 0 <= i < 4 :: u.waiters[i].Free?
      requires u == Usb(u.dev, 0, false, [], u.driverAt, None, u.waiters, Fresh, map[])
      ensures u == NewDevice(base)
    {
      hide R.InitProducer;
      assert u.driverAt == seq(16, _ => false);
      assert u.waiters == seq(4, _ => Free);
    }

    /** A new device with its default control pipe. */
    constructor (base: addr, buffers: Buffers)
      requires base % 64 == 0
      ensures Valid() && fresh(Repr()) && fresh(buf) && this.buffers == buffers
      ensures View() == NewDevice(base)
      ensures xhc.transferRings.Length == 31 && xhc.setupStageMap.table.Length == 16
      ensures eventWaiters.table.Length == 4 && classDrivers.Length == 16 && buf.Length == 256
    {
      xhc := new X.Device();
      eventWaiters := new M.ArrayMap(4);
      classDrivers := new bool[16](_ => false);
      buf := new D.byte[BUFFER_SIZE](_ => 0);
      this.buffers := buffers;
      initializePhase, isInitialized, epConfigs, hid := 0, false, [], None;
      stage, known := Fresh, map[];
      new;

      xhc.AllocTransferRing(EP0, base, RING_SIZE);
      NewDeviceIs(base, View());
    }

    method Issue(setup: SetupData, data: addr, len: int, dirIn: bool)
      requires Valid()
      modifies xhc, xhc.transferRings, xhc.setupStageMap.table
      ensures Valid() && Ready(old(View())) && View() == UsbDevice.Issue(old(View()), setup, data, len, dirIn)
    {
      var err := xhc.Control(EP0, setup, data, len, dirIn);
    }

    method GetDescriptor(ty: D.byte)
      requires Valid() && ty <= 2
      modifies xhc, xhc.transferRings, xhc.setupStageMap.table
      ensures Valid() && Ready(old(View())) && View() == UsbDevice.GetDescriptor(old(View()), ty, buffers)
    {
      Issue(SetupData(0x80, GET_DESCRIPTOR, ty * 0x100, 0, BUFFER_SIZE), buffers.device, BUFFER_SIZE, true);
    }

    method StartInitialize()
      requires Valid()
      modifies this, xhc, xhc.transferRings, xhc.setupStageMap.table
      ensures Valid() && Ready(old(View())) && View() == UsbDevice.StartInitialize(old(View()), buffers)
    {
      isInitialized := false;
      initializePhase := 1;
      stage := Initializing;
      GetDescriptor(1);
    }

    /** HIDBaseDriver::SetEndpoint. */
    method SetEndpoint(c: D.EndpointConfig)
      requires hid.Some?
      modifies this`hid
      ensures hid == Some(SetEndpoints(old(hid).value, [c]))
    {
      if c.transferType == 3 && c.dirIn {
        hid := Some(hid.value.(epIn := Address(c)));
      } else if c.transferType == 3 {
        hid := Some(hid.value.(epOut := Address(c)));
      }
    }

    /** HIDBaseDriver::OnEndpointsConfigured. */
    method SetProtocol()
      requires Valid() && hid.Some?
      modifies Repr()
      ensures Valid() && Ready(old(View())) && View() == UsbDevice.SetProtocol(old(View()))
    {
      hid := Some(hid.value.(phase := 1));
      var setup := SetProtocolSetup(hid.value);
      eventWaiters.Put(setup, TheDriver);
      Issue(setup, 0, 0, false);
    }

    /** The entries of class_drivers_ for the endpoints found. */
    method AssignDrivers(configs: seq<D.EndpointConfig>)
      requires classDrivers.Length == 16 && forall i | 0 <= i < |configs| :: configs[i].number < 16
      modifies classDrivers
      ensures classDrivers[..] == Assign(old(classDrivers[..]), configs)
    {
      for i := 0 to |configs|
        invariant classDrivers[..] == Assign(old(classDrivers[..]), configs[..i])
      {
        classDrivers[configs[i].number] := true;
        assert configs[..i + 1][..i] == configs[..i];
      }
      assert configs[..|configs|] == configs;
    }

    method InitializePhase2(len: nat, ghost descs: seq<seq<D.byte>>)
      requires Valid() && !isInitialized && len <= BUFFER_SIZE && buf[..len] == D.Serialize(descs)
      requires FirstTypeIs(descs, 2) && Usable(descs)
      modifies Repr()
      ensures Valid() && Ready(old(View())) && View() == Phase2(old(View()), descs, buffers).0
    {
      var value := Byte(len, 5, descs);
      var s := D.InitializePhase2(buf, len, descs);
      match s {
        case NoDriver =>
        case NullRead => assert false;
        case Selected(kind, interface, configs) =>
          hide D.Select, D.Serialize, D.AllWellformed;
          Configure(kind, interface, configs, value);
      }
    }

    /** The driver, the endpoints found, and SetConfiguration. */
    method Configure(kind: D.DriverKind, interface: D.byte, configs: seq<D.EndpointConfig>, value: D.byte)
      requires Valid() && !isInitialized && forall i | 0 <= i < |configs| :: configs[i].number < 16
      modifies Repr()
      ensures Valid() && Ready(old(View()))
      ensures View() == SetConfiguration(
                old(View()).(hid := Some(Hid(interface, if kind.Keyboard? then 8 else 3, buffers.driver, 0, 0, 0)),
                             configs := configs, driverAt := Assign(old(classDrivers[..]), configs), phase := 3), value)
    {
      hid := Some(Hid(interface, if kind.Keyboard? then 8 else 3, buffers.driver, 0, 0, 0));
      epConfigs := configs;
      AssignDrivers(configs);
      initializePhase := 3;
      hide ControlTransfer, Assign;
      Issue(SetupData(0, SET_CONFIGURATION, value, 0, 0), 0, 0, false);
    }

    /** Byte i of the first descriptor, or 0 if it has none. */
    method Byte(len: nat, i: nat, ghost descs: seq<seq<D.byte>>) returns (b: D.byte)
      requires len <= buf.Length && buf[..len] == D.Serialize(descs) && descs != [] && D.AllWellformed(descs)
      ensures i < |descs[0]| ==> b == descs[0][i]
    {
      D.Located(descs, 0);
      assert D.Wellformed(descs[0]);
      assert buf[..len][0..|descs[0]|] == descs[0];
      if i < len {
        assert i < |descs[0]| ==> descs[0][i] == buf[i];
        b := buf[i];
      } else {
        b := 0;
      }
    }

    method InitializePhase3()
      requires Valid() && hid.Some? && !isInitialized
      requires 1 <= SetEndpoints(hid.value, epConfigs).epIn <= ENDPOINTS
      modifies this
      ensures Valid() && View() == Phase3(old(View()))
    {
      for i := 0 to |epConfigs|
        invariant epConfigs == old(epConfigs)
        invariant hid == Some(SetEndpoints(old(hid).value, epConfigs[..i]))
        invariant View() == old(View()).(hid := hid)
      {
        SetEndpoint(epConfigs[i]);
        assert epConfigs[..i + 1][..i] == epConfigs[..i];
      }
      assert epConfigs[..|epConfigs|] == epConfigs;
      initializePhase := 4;
      isInitialized := true;
      stage := Initialized;
    }

    /** HIDBaseDriver arms its interrupt-in endpoint. */
    method Arm() returns (err: Err)
      requires Valid() && hid.Some? && Armable(View())
      modifies xhc, xhc.transferRings
      ensures Valid() && View() == UsbDevice.Arm(old(View())) && err == ArmErr(old(View()))
    {
      var e := xhc.InterruptIn(hid.value.epIn, hid.value.buf, hid.value.packetSize);
      err := if e == Success then Ok else NoRing;
    }

    method OnControlCompleted(setup: SetupData, len: nat, ghost descs: seq<seq<D.byte>>) returns (err: Err)
      requires Valid() && len <= BUFFER_SIZE && buf[..len] == D.Serialize(descs)
      requires descs != [] && D.AllWellformed(descs) && Usable(descs)
      requires hid.Some? ==> 1 <= SetEndpoints(hid.value, epConfigs).epIn <= ENDPOINTS
      modifies Repr()
      ensures Valid() && Ready(old(View()))
      ensures (View(), err) == UsbDevice.OnControlCompleted(old(View()), setup, descs, buffers)
    {
      if isInitialized {
        var w := eventWaiters.Get(setup);
        if w.None? || hid.None? {
          return NoWaiter;
        }
        if hid.value.phase == 1 {
          hid := Some(hid.value.(phase := 2));
          err := Arm();
          return;
        }
        return Unsupported;
      }
      assert D.Wellformed(descs[0]);
      var ty := Byte(len, 1, descs);
      if initializePhase == 1 {
        if setup.request == GET_DESCRIPTOR && ty == 1 {
          initializePhase := 2;
          GetDescriptor(2);
          return Ok;
        }
        return InvalidPhase;
      } else if initializePhase == 2 {
        if setup.request == GET_DESCRIPTOR && ty == 2 {
          InitializePhase2(len, descs);
          return Ok;
        }
        return InvalidPhase;
      } else if initializePhase == 3 {
        if setup.request == SET_CONFIGURATION && hid.Some? {
          InitializePhase3();
          return Ok;
        }
        return InvalidPhase;
      }
      return Unsupported;
    }

    method OnInterruptCompleted(ep: nat) returns (err: Err)
      requires Valid() && ep <= ENDPOINTS && Armable(View())
      modifies xhc, xhc.transferRings
      ensures Valid() && (View(), err) == UsbDevice.OnInterruptCompleted(old(View()), ep)
    {
      if classDrivers[ep / 2] && hid.Some? {
        if ep % 2 == 1 {
          err := Arm();
          return;
        }
        return Unsupported;
      }
      return NoWaiter;
    }

    method OnEndpointsConfigured()
      requires Valid()
      modifies Repr()
      ensures Valid() && Ready(old(View())) && View() == UsbDevice.OnEndpointsConfigured(old(View()), 0)
    {
      assert Ready(View());
      for n := 0 to 16
        invariant Valid() && Ready(View())
        invariant UsbDevice.OnEndpointsConfigured(View(), n) == UsbDevice.OnEndpointsConfigured(old(View()), 0)
      {
        if classDrivers[n] && hid.Some? {
          SetProtocol();
        }
      }
    }
  }
}
