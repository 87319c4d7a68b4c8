/** The PCI scan of kernel/pci.cpp: mutually recursive methods that enter functions into a table of 32. */
module PciScan {

  type byte = x: nat | x < 0x100
  type word = x: nat | x < 0x1_0000_0000

  /** Configuration space: CONFIG_DATA for every value of CONFIG_ADDRESS. */
  type Config = word -> word

  const MAX_DEVICES := 32

  /** MakeAddress: the fields of CONFIG_ADDRESS do not overlap, so `|` is addition. */
  function MakeAddress(bus: byte, device: nat, function_: nat, reg: byte): word
    requires device < 32 && function_ < 8
  {
    0x8000_0000 + 0x1_0000 * bus + 0x800 * device + 0x100 * function_ + (reg - reg % 4)
  }

  /** Different registers have different addresses. */
  lemma AddressesDiffer(bus: byte, device: nat, function_: nat, reg: byte,
                        bus': byte, device': nat, function': nat, reg': byte)
    requires device < 32 && function_ < 8 && device' < 32 && function' < 8 && reg % 4 == 0 && reg' % 4 == 0
    ensures MakeAddress(bus, device, function_, reg) == MakeAddress(bus', device', function', reg')
            <==> bus == bus' && device == device' && function_ == function' && reg == reg'
  {
    Digits(0x1_0000, bus, 0x800 * device + 0x100 * function_ + reg, bus', 0x800 * device' + 0x100 * function' + reg');
    Digits(0x800, device, 0x100 * function_ + reg, device', 0x100 * function' + reg');
    Digits(0x100, function_, reg, function', reg');
  }

  lemma Digits(m: nat, q: nat, r: nat, q': nat, r': nat)
    requires r < m && r' < m
    ensures m * q + r == m * q' + r' <==> q == q' && r == r'
  {
    if m * q + r == m * q' + r' {
      assert m * (q - q') == r' - r;
      assert q - q' >= 1 ==> m * (q - q') >= m;
      assert q - q' <= -1 ==> m * (q - q') + m <= 0;
    }
  }

  datatype ClassCode = ClassCode(base: byte, sub: byte, interface: byte)

  datatype Device = Device(bus: byte, device: nat, fn: nat, headerType: byte, classCode: ClassCode)

  /** A place a function can be at. */
  predicate Slot(device: nat, fn: nat) { device < 32 && fn < 8 }

  function VendorId(cfg: Config, bus: byte, device: nat, fn: nat): nat
    requires Slot(device, fn)
  {
    cfg(MakeAddress(bus, device, fn, 0)) % 0x1_0000
  }

  predicate Present(cfg: Config, bus: byte, device: nat, fn: nat)
    requires Slot(device, fn)
  {
    VendorId(cfg, bus, device, fn) != 0xffff
  }

  function HeaderType(cfg: Config, bus: byte, device: nat, fn: nat): byte
    requires Slot(device, fn)
  {
    cfg(MakeAddress(bus, device, fn, 0x0c)) / 0x1_0000 % 0x100
  }

  predicate SingleFunction(headerType: byte) { headerType < 0x80 }

  function ReadClassCode(cfg: Config, bus: byte, device: nat, fn: nat): ClassCode
    requires Slot(device, fn)
  {
    var reg := cfg(MakeAddress(bus, device, fn, 0x08));
    ClassCode(reg / 0x100_0000, reg / 0x1_0000 % 0x100, reg / 0x100 % 0x100)
  }

  /** A standard PCI-PCI bridge. */
  predicate IsBridge(c: ClassCode) { c.base == 6 && c.sub == 4 }

  function SecondaryBus(cfg: Config, bus: byte, device: nat, fn: nat): byte
    requires Slot(device, fn)
  {
    cfg(MakeAddress(bus, device, fn, 0x18)) / 0x100 % 0x100
  }

  function DeviceAt(cfg: Config, bus: byte, device: nat, fn: nat): Device
    requires Slot(device, fn)
  {
    Device(bus, device, fn, HeaderType(cfg, bus, device, fn), ReadClassCode(cfg, bus, device, fn))
  }

  // ---- the depth-first preorder, cut off `depth` bridges down

  function FunctionSeq(cfg: Config, bus: byte, device: nat, fn: nat, depth: nat): (r: seq<Device>)
    requires Slot(device, fn)
    ensures r != []
    decreases depth, 0, 0
  {
    [DeviceAt(cfg, bus, device, fn)] +
    if IsBridge(ReadClassCode(cfg, bus, device, fn)) && depth > 0
    then BusFrom(cfg, SecondaryBus(cfg, bus, device, fn), 0, depth - 1) else []
  }

  /** The functions of a device from one on. */
  function FunctionsFrom(cfg: Config, bus: byte, device: nat, fn: nat, depth: nat): seq<Device>
    requires device < 32 && fn <= 8
    decreases depth, 1, 8 - fn
  {
    if fn == 8 then []
    else (if Present(cfg, bus, device, fn) then FunctionSeq(cfg, bus, device, fn, depth) else [])
         + FunctionsFrom(cfg, bus, device, fn + 1, depth)
  }

  function DeviceSeq(cfg: Config, bus: byte, device: nat, depth: nat): seq<Device>
    requires device < 32
    decreases depth, 1, 9
  {
    FunctionSeq(cfg, bus, device, 0, depth) +
    if SingleFunction(HeaderType(cfg, bus, device, 0)) then [] else FunctionsFrom(cfg, bus, device, 1, depth)
  }

  /** The devices of a bus from one on. */
  function BusFrom(cfg: Config, bus: byte, device: nat, depth: nat): seq<Device>
    requires device <= 32
    decreases depth, 2, 32 - device
  {
    if device == 32 then []
    else (if Present(cfg, bus, device, 0) then DeviceSeq(cfg, bus, device, depth) else [])
         + BusFrom(cfg, bus, device + 1, depth)
  }

  /** The buses scanned for a multi-function host bridge. */
  function HostsFrom(cfg: Config, fn: nat, depth: nat): seq<Device>
    requires fn <= 8
    decreases 8 - fn
  {
    if fn == 8 then []
    else (if Present(cfg, 0, 0, fn) then BusFrom(cfg, fn, 0, depth) else []) + HostsFrom(cfg, fn + 1, depth)
  }

  function AllSeq(cfg: Config, depth: nat): seq<Device> {
    if SingleFunction(HeaderType(cfg, 0, 0, 0)) then BusFrom(cfg, 0, 0, depth) else HostsFrom(cfg, 1, depth)
  }

  // One step of each list.

  lemma FunctionsStep(cfg: Config, bus: byte, device: nat, fn: nat, depth: nat)
    requires device < 32 && fn <= 8
    ensures FunctionsFrom(cfg, bus, device, fn, depth) ==
            if fn == 8 then []
            else (if Present(cfg, bus, device, fn) then FunctionSeq(cfg, bus, device, fn, depth) else [])
                 + FunctionsFrom(cfg, bus, device, fn + 1, depth)
  {
    hide FunctionSeq, Present;
  }

  lemma DeviceStep(cfg: Config, bus: byte, device: nat, depth: nat)
    requires device < 32
    ensures DeviceSeq(cfg, bus, device, depth) ==
            FunctionSeq(cfg, bus, device, 0, depth)
            + if SingleFunction(HeaderType(cfg, bus, device, 0)) then [] else FunctionsFrom(cfg, bus, device, 1, depth)
  {
    hide FunctionSeq, FunctionsFrom;
  }

  lemma BusStep(cfg: Config, bus: byte, device: nat, depth: nat)
    requires device <= 32
    ensures BusFrom(cfg, bus, device, depth) ==
            if device == 32 then []
            else (if Present(cfg, bus, device, 0) then DeviceSeq(cfg, bus, device, depth) else [])
                 + BusFrom(cfg, bus, device + 1, depth)
  {
    hide DeviceSeq, Present;
  }

  lemma HostsStep(cfg: Config, fn: nat, depth: nat)
    requires fn <= 8
    ensures HostsFrom(cfg, fn, depth) ==
            if fn == 8 then []
            else (if Present(cfg, 0, 0, fn) then BusFrom(cfg, fn, 0, depth) else []) + HostsFrom(cfg, fn + 1, depth)
  {
    hide BusFrom, Present;
  }

  lemma AllStep(cfg: Config, depth: nat)
    ensures AllSeq(cfg, depth) ==
            [] + if SingleFunction(HeaderType(cfg, 0, 0, 0)) then BusFrom(cfg, 0, 0, depth)
                 else HostsFrom(cfg, 1, depth)
  {
    hide BusFrom, HostsFrom;
  }

  // ---- the scan

  /** What is left of a list in a table of 32. */
  predicate Filled(all: seq<Device>, table: seq<Device>, full: bool) {
    && (full <==> |all| > 32)
    && table == if full then all[..32] else all
  }

  /** Scanning one list after another; once the table is full, what follows changes nothing. */
  lemma FilledNext(found: seq<Device>, s: seq<Device>, t: seq<Device>, after: seq<Device>, full: bool)
    requires Filled(found + s, after, full)
    ensures full ==> Filled(found + (s + t), after, true)
    ensures !full ==> after + t == found + (s + t)
  {
    assert found + (s + t) == found + s + t;
  }

  lemma FilledAll(all: seq<Device>, table: seq<Device>)
    requires table + [] == all && |table| <= MAX_DEVICES
    ensures Filled(all, table, false)
  {
  }

  /** devices and num_device, and the configuration space they are filled from. */
  class Scanner {
    const cfg: Config
    const devices: array<Device>
    var numDevice: nat

    ghost predicate Valid()
      reads this
    {
      devices.Length == MAX_DEVICES && numDevice <= MAX_DEVICES
    }

    ghost function Found(): (s: seq<Device>)
      requires Valid()
      reads this, devices
      ensures |s| == numDevice
    {
      devices[..numDevice]
    }

    constructor (cfg: Config)
      ensures Valid() && fresh(devices) && this.cfg == cfg && Found() == []
    {
      this.cfg := cfg;
      devices := new Device[MAX_DEVICES](_ => Device(0, 0, 0, 0, ClassCode(0, 0, 0)));
      numDevice := 0;
    }

    method AddDevice(d: Device) returns (full: bool)
      requires Valid()
      modifies this, devices
      ensures Valid() && Filled(old(Found()) + [d], Found(), full)
    {
      if numDevice == devices.Length {
        return true;
      }
      devices[numDevice] := d;
      numDevice := numDevice + 1;
      return false;
    }

    /** Every method fills the table with the preorder below its place. Since each bridge entered
        leaves less room, `depth` bridges down are enough; that also bounds the recursion, whatever
        the secondary bus numbers are. */
    method ScanFunction(bus: byte, device: nat, fn: nat, ghost depth: nat) returns (full: bool)
      requires Valid() && Slot(device, fn) && depth >= MAX_DEVICES - numDevice
      modifies this, devices
      ensures Valid() && numDevice >= old(numDevice)
      ensures Filled(old(Found()) + FunctionSeq(cfg, bus, device, fn, depth), Found(), full)
      decreases MAX_DEVICES - numDevice, 1
    {
      var dev := DeviceAt(cfg, bus, device, fn);
      ghost var rest := FunctionSeq(cfg, bus, device, fn, depth)[1..];
      assert FunctionSeq(cfg, bus, device, fn, depth) == [dev] + rest;
      ghost var before := Found();
      full := AddDevice(dev);
      FilledNext(before, [dev], rest, Found(), full);
      if !full && IsBridge(dev.classCode) {
        full := ScanBus(SecondaryBus(cfg, bus, device, fn), depth - 1);
      }
    }

    method ScanDevice(bus: byte, device: nat, ghost depth: nat) returns (full: bool)
      requires Valid() && device < 32 && depth >= MAX_DEVICES - numDevice
      modifies this, devices
      ensures Valid() && numDevice >= old(numDevice)
      ensures Filled(old(Found()) + DeviceSeq(cfg, bus, device, depth), Found(), full)
      decreases MAX_DEVICES - numDevice, 2
    {
      hide Filled, Present, FunctionSeq, FunctionsFrom, DeviceSeq, SingleFunction, HeaderType;
      DeviceStep(cfg, bus, device, depth);
      ghost var before := Found();
      full := ScanFunction(bus, device, 0, depth);
      ghost var rest := if SingleFunction(HeaderType(cfg, bus, device, 0)) then []
                        else FunctionsFrom(cfg, bus, device, 1, depth);
      FilledNext(before, FunctionSeq(cfg, bus, device, 0, depth), rest, Found(), full);
      if full {
        return;
      }
      if SingleFunction(HeaderType(cfg, bus, device, 0)) {
        FilledAll(before + DeviceSeq(cfg, bus, device, depth), Found());
        return;
      }
      for fn := 1 to 8
        invariant Valid() && numDevice >= old(numDevice)
        invariant Found() + FunctionsFrom(cfg, bus, device, fn, depth) == before + DeviceSeq(cfg, bus, device, depth)
      {
        FunctionsStep(cfg, bus, device, fn, depth);
        if Present(cfg, bus, device, fn) {
          ghost var found := Found();
          full := ScanFunction(bus, device, fn, depth);
          FilledNext(found, FunctionSeq(cfg, bus, device, fn, depth), FunctionsFrom(cfg, bus, device, fn + 1, depth),
                     Found(), full);
          if full {
            return;
          }
        }
      }
      FunctionsStep(cfg, bus, device, 8, depth);
      FilledAll(before + DeviceSeq(cfg, bus, device, depth), Found());
      full := false;
    }

    method ScanBus(bus: byte, ghost depth: nat) returns (full: bool)
      requires Valid() && depth >= MAX_DEVICES - numDevice
      modifies this, devices
      ensures Valid() && numDevice >= old(numDevice)
      ensures Filled(old(Found()) + BusFrom(cfg, bus, 0, depth), Found(), full)
      decreases MAX_DEVICES - numDevice, 3
    {
      hide Filled, Present, DeviceSeq, BusFrom;
      ghost var before := Found();
      for device := 0 to 32
        invariant Valid() && numDevice >= old(numDevice)
        invariant Found() + BusFrom(cfg, bus, device, depth) == before + BusFrom(cfg, bus, 0, depth)
      {
        BusStep(cfg, bus, device, depth);
        if Present(cfg, bus, device, 0) {
          ghost var found := Found();
          full := ScanDevice(bus, device, depth);
          FilledNext(found, DeviceSeq(cfg, bus, device, depth), BusFrom(cfg, bus, device + 1, depth), Found(), full);
          if full {
            return;
          }
        }
      }
      BusStep(cfg, bus, 32, depth);
      FilledAll(before + BusFrom(cfg, bus, 0, depth), Found());
      full := false;
    }

    /** The table holds the first 32 functions of the preorder, and kFull is returned exactly if
        there are more, however deep the preorder is cut. A multi-function host bridge starts with
        bus 1. */
    method ScanAllBus(ghost depth: nat) returns (full: bool)
      requires Valid() && depth >= MAX_DEVICES
      modifies this, devices
      ensures Valid() && Filled(AllSeq(cfg, depth), Found(), full)
    {
      hide Filled, Present, BusFrom, HostsFrom, AllSeq, SingleFunction, HeaderType;
      AllStep(cfg, depth);
      numDevice := 0;
      if SingleFunction(HeaderType(cfg, 0, 0, 0)) {
        full := ScanBus(0, depth);
        return;
      }
      for fn := 1 to 8
        invariant Valid()
        invariant Found() + HostsFrom(cfg, fn, depth) == AllSeq(cfg, depth)
      {
        HostsStep(cfg, fn, depth);
        if Present(cfg, 0, 0, fn) {
          ghost var found := Found();
          full := ScanBus(fn, depth);
          FilledNext(found, BusFrom(cfg, fn, 0, depth), HostsFrom(cfg, fn + 1, depth), Found(), full);
          if full {
            return;
          }
        }
      }
      HostsStep(cfg, 8, depth);
      FilledAll(AllSeq(cfg, depth), Found());
      full := false;
    }
  }
}
