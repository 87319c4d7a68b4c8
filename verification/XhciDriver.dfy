/** The handlers of kernel/usb/xhci/xhci.cpp on the state they change in place, each proved against
    its step of the protocol. */
module XhciDriver {
  import opened Options
  import opened Trbs
  import opened PortProtocol

  class Controller {
    const portConfigPhase: array<Phase>
    const devices: array<Option<Device>>
    var addressingPort: nat
    var commandRing: seq<Command>

    // What the controller has executed and software has handled, and which slot each port got.
    ghost var results: seq<nat>
    ghost var handled: nat
    ghost var slotOf: map<nat, nat>

    ghost function View(): Xhc
      reads this, portConfigPhase, devices
    {
      Xhc(portConfigPhase[..], addressingPort, devices[..], commandRing, results, handled, slotOf)
    }

    ghost predicate Valid()
      reads this, portConfigPhase, devices
    {
      Sized(View()) && ContextPortsInRange(View())
    }

    constructor ()
      ensures Valid() && View() == Start()
      ensures fresh(portConfigPhase) && fresh(devices)
    {
      portConfigPhase := new Phase[PORTS](_ => NotConnected);
      devices := new Option<Device>[MAX_SLOTS + 1](_ => None);
      addressingPort := 0;
      commandRing, results, handled, slotOf := [], [], 0, map[];
      new;
      assert portConfigPhase[..] == Start().phase && devices[..] == Start().devices;
    }

    method ResetPort(port: nat, connected: bool) returns (err: Error)
      requires Valid() && port < PORTS
      modifies this`addressingPort, portConfigPhase
      ensures Valid() && (View(), err) == PortProtocol.ResetPort(old(View()), port, connected)
    {
      if !connected {
        return Success;
      }
      if addressingPort != 0 {
        portConfigPhase[port] := WaitingAddressed;
      } else {
        var portPhase := portConfigPhase[port];
        if !portPhase.NotConnected? && !portPhase.WaitingAddressed? {
          return InvalidPhase;
        }
        addressingPort := port;
        portConfigPhase[port] := ResettingPort;
      }
      return Success;
    }

    method EnableSlotFor(port: nat, st: PortStatus) returns (err: Error)
      requires Valid() && port < PORTS
      modifies this`commandRing, portConfigPhase
      ensures Valid() && (View(), err) == PortProtocol.EnableSlotFor(old(View()), port, st)
    {
      if st.enabled && st.resetChanged {
        portConfigPhase[port] := EnablingSlot;
        commandRing := commandRing + [EnableSlot];
      }
      return Success;
    }

    method AddressDeviceAt(port: nat, slot: nat) returns (err: Error)
      requires Valid() && port < PORTS
      modifies this`commandRing, this`slotOf, portConfigPhase, devices
      ensures Valid() && (View(), err) == PortProtocol.AddressDeviceAt(old(View()), port, slot)
    {
      if slot > MAX_SLOTS {
        return InvalidSlotID;
      }
      if devices[slot].None? {
        devices[slot] := Some(Device(0, 0, false));
      }
      devices[slot] := Some(devices[slot].value.(inputPort := port));
      slotOf := slotOf[port := slot];
      portConfigPhase[port] := AddressingDevice;
      commandRing := commandRing + [AddressDevice(slot)];
      assert devices[..] == old(devices[..])[slot := devices[slot]];
      return Success;
    }

    method InitializeDevice(port: nat, slot: nat) returns (err: Error)
      requires Valid() && port < PORTS
      modifies portConfigPhase, devices
      ensures Valid() && (View(), err) == PortProtocol.InitializeDevice(old(View()), port, slot)
    {
      if slot > MAX_SLOTS || devices[slot].None? {
        return InvalidSlotID;
      }
      portConfigPhase[port] := InitializingDevice;
      devices[slot] := Some(devices[slot].value.(initialized := false));
      return Success;
    }

    method CompleteConfiguration(port: nat, slot: nat) returns (err: Error)
      requires Valid() && port < PORTS
      modifies portConfigPhase
      ensures Valid() && (View(), err) == PortProtocol.CompleteConfiguration(old(View()), port, slot)
    {
      if slot > MAX_SLOTS || devices[slot].None? {
        return InvalidSlotID;
      }
      portConfigPhase[port] := Configured;
      return Success;
    }

    method ConfigureEndpoints(slot: nat, speed: nat) returns (err: Error)
      requires Valid() && slot <= MAX_SLOTS && devices[slot].Some?
      modifies this`commandRing, portConfigPhase, devices
      ensures Valid() && (View(), err) == PortProtocol.ConfigureEndpoints(old(View()), slot, speed)
    {
      var port := devices[slot].value.contextPort;
      assert View().devices[slot].value.contextPort < PORTS;
      devices[slot] := Some(devices[slot].value.(inputPort := port));
      if speed == 0 || speed > 5 {
        return UnknownXHCISpeedID;
      }
      portConfigPhase[port] := ConfiguringEndpoints;
      commandRing := commandRing + [ConfigureEndpoint(slot)];
      return Success;
    }

    method ConfigurePort(port: nat, connected: bool) returns (err: Error)
      requires Valid() && port < PORTS
      modifies this`addressingPort, portConfigPhase
      ensures Valid() && (View(), err) == PortProtocol.ConfigurePort(old(View()), port, connected)
    {
      if portConfigPhase[port].NotConnected? {
        err := ResetPort(port, connected);
      } else {
        err := Success;
      }
    }

    method OnPortStatusChange(port: nat, st: PortStatus) returns (err: Error)
      requires Valid() && port < PORTS
      modifies this`addressingPort, this`commandRing, portConfigPhase
      ensures Valid() && (View(), err) == PortProtocol.OnPortStatusChange(old(View()), port, st)
    {
      match portConfigPhase[port] {
        case NotConnected => err := ResetPort(port, st.connected);
        case ResettingPort => err := EnableSlotFor(port, st);
        case _ => err := InvalidPhase;
      }
    }

    method OnTransferEvent(slot: nat, t: Transfer, speed: nat) returns (err: Error)
      requires Valid()
      modifies this`commandRing, portConfigPhase, devices
      ensures Valid() && (View(), err) == PortProtocol.OnTransferEvent(old(View()), slot, t, speed)
    {
      if slot > MAX_SLOTS || devices[slot].None? {
        return InvalidSlotID;
      }
      if t.Failed? {
        return TransferError;
      }
      var dev := devices[slot].value;
      assert View().devices[slot].value.contextPort < PORTS;
      if t.finished {
        dev := dev.(initialized := true);
      }
      devices[slot] := Some(dev);
      if dev.initialized && portConfigPhase[dev.contextPort].InitializingDevice? {
        err := ConfigureEndpoints(slot, speed);
      } else {
        err := Success;
      }
    }

    /** The search for the next waiting port, lowest number first. */
    method HandOff(connected: nat -> bool) returns (err: Error)
      requires Valid()
      modifies this`addressingPort, portConfigPhase
      ensures Valid() && (View(), err) == PortProtocol.HandOff(old(View()), connected)
    {
      addressingPort := 0;
      ghost var phases := portConfigPhase[..];
      for i := 0 to portConfigPhase.Length
        invariant portConfigPhase[..] == phases && View() == old(View()).(addressingPort := 0)
        invariant FirstWaiting(phases, i) == FirstWaiting(phases, 0)
      {
        if portConfigPhase[i].WaitingAddressed? {
          err := ResetPort(i, connected(i));
          return;
        }
      }
      return Success;
    }

    method OnCommandCompletion(issuer: nat, slot: nat, connected: nat -> bool) returns (err: Error)
      requires Valid()
      modifies this`addressingPort, this`commandRing, this`slotOf, portConfigPhase, devices
      ensures Valid() && (View(), err) == PortProtocol.OnCommandCompletion(old(View()), issuer, slot, connected)
    {
      if issuer == ENABLE_SLOT {
        if !portConfigPhase[addressingPort].EnablingSlot? {
          return InvalidPhase;
        }
        err := AddressDeviceAt(addressingPort, slot);
      } else if issuer == ADDRESS_DEVICE {
        if slot > MAX_SLOTS || devices[slot].None? {
          return InvalidSlotID;
        }
        var port := devices[slot].value.contextPort;
        assert View().devices[slot].value.contextPort < PORTS;
        if port != addressingPort || !portConfigPhase[port].AddressingDevice? {
          return InvalidPhase;
        }
        err := HandOff(connected);
        if err != Success {
          return;
        }
        err := InitializeDevice(port, slot);
      } else if issuer == CONFIGURE_ENDPOINT {
        if slot > MAX_SLOTS || devices[slot].None? {
          return InvalidSlotID;
        }
        var port := devices[slot].value.contextPort;
        assert View().devices[slot].value.contextPort < PORTS;
        if !portConfigPhase[port].ConfiguringEndpoints? {
          return InvalidPhase;
        }
        err := CompleteConfiguration(port, slot);
      } else {
        err := InvalidPhase;
      }
    }
  }
}
