/** The PCI scan in terms of the bytes of configuration space: 256 of them for each function, of which the
    scan reads vendor id, class code, header type and, of bridges, the secondary bus. */
module PciBytes {
  import opened PciScan
  import opened PciTree

  /** Configuration space: a byte for each bus, device, function and offset. */
  type Space = (byte, nat, nat, nat) -> byte

  /** A register: its four bytes, the lowest first. */
  function Register(m: Space, bus: byte, d: nat, f: nat, reg: nat): nat {
    m(bus, d, f, reg) + 0x100 * m(bus, d, f, reg + 1) + 0x1_0000 * m(bus, d, f, reg + 2)
    + 0x100_0000 * m(bus, d, f, reg + 3)
  }

  /** CONFIG_ADDRESS selects a register by the enable bit, the bus in bits 16 to 23, the device in bits 11 to 15,
      the function in bits 8 to 10 and the offset in the low byte. */
  ghost predicate Given(cfg: Config, m: Space) {
    forall bus: byte, d: nat, f: nat, reg: nat | d < 32 && f < 8 && reg < 0x100 && reg % 4 == 0 ::
      cfg(Address(bus, d, f, reg)) == Register(m, bus, d, f, reg)
  }

  function Address(bus: byte, d: nat, f: nat, reg: nat): word
    requires d < 32 && f < 8 && reg < 0x100
  {
    0x8000_0000 + 0x1_0000 * bus + 0x800 * d + 0x100 * f + reg
  }

  // ---- what the bytes say

  /** Bytes 0 and 1, the vendor id, are not both 0xff. */
  predicate IsThere(m: Space, bus: byte, d: nat, f: nat) { !(m(bus, d, f, 0) == 0xff && m(bus, d, f, 1) == 0xff) }

  /** Bit 7 of byte 0x0e of function 0. */
  predicate HasMore(m: Space, bus: byte, d: nat) { m(bus, d, 0, 0x0e) >= 0x80 }

  predicate IsVisited(m: Space, bus: byte, d: nat, f: nat) {
    && d < 32 && f < 8 && IsThere(m, bus, d, f)
    && (f == 0 || (IsThere(m, bus, d, 0) && HasMore(m, bus, d)))
  }

  /** Bytes 0x0b and 0x0a, base class and subclass, are 6 and 4. */
  predicate IsPciBridge(m: Space, bus: byte, d: nat, f: nat) {
    IsVisited(m, bus, d, f) && m(bus, d, f, 0x0b) == 6 && m(bus, d, f, 0x0a) == 4
  }

  /** From one bus to another through k bridges; the bus behind a bridge is its byte 0x19. */
  ghost predicate Leads(m: Space, from: byte, to: byte, k: nat)
    decreases k
  {
    if k == 0 then from == to
    else exists b: byte, d, f :: IsPciBridge(m, b, d, f) && m(b, d, f, 0x19) == to && Leads(m, from, b, k - 1)
  }

  /** Bus 0 if function 0 of its device 0 is the only one; otherwise a bus for each function from 1 on. */
  predicate StartsAt(m: Space, r: byte) {
    if HasMore(m, 0, 0) then 1 <= r < 8 && IsThere(m, 0, 0, r) else r == 0
  }

  // ---- registers

  lemma RegisterBytes(m: Space, bus: byte, d: nat, f: nat, reg: nat)
    ensures var w := Register(m, bus, d, f, reg);
      && w % 0x100 == m(bus, d, f, reg) && w / 0x100 % 0x100 == m(bus, d, f, reg + 1)
      && w / 0x1_0000 % 0x100 == m(bus, d, f, reg + 2) && w / 0x100_0000 == m(bus, d, f, reg + 3)
      && (w % 0x1_0000 == 0xffff <==> m(bus, d, f, reg) == 0xff && m(bus, d, f, reg + 1) == 0xff)
  {
    FourBytes(m(bus, d, f, reg), m(bus, d, f, reg + 1), m(bus, d, f, reg + 2), m(bus, d, f, reg + 3));
  }

  lemma FourBytes(a: byte, b: byte, c: byte, e: byte)
    ensures var w := a + 0x100 * b + 0x1_0000 * c + 0x100_0000 * e;
      && w % 0x100 == a && w / 0x100 % 0x100 == b && w / 0x1_0000 % 0x100 == c && w / 0x100_0000 == e
      && (w % 0x1_0000 == 0xffff <==> a == 0xff && b == 0xff)
  {
    var w := a + 0x100 * b + 0x1_0000 * c + 0x100_0000 * e;
    assert w / 0x100 == b + 0x100 * c + 0x1_0000 * e;
    assert w / 0x1_0000 == c + 0x100 * e;
    assert w % 0x1_0000 == a + 0x100 * b;
  }

  lemma ReadsRegister(cfg: Config, m: Space, bus: byte, d: nat, f: nat, reg: byte)
    requires Given(cfg, m) && d < 32 && f < 8 && reg % 4 == 0
    ensures cfg(MakeAddress(bus, d, f, reg)) == Register(m, bus, d, f, reg)
  {
    assert MakeAddress(bus, d, f, reg) == Address(bus, d, f, reg);
    hide MakeAddress, Address, Register;
  }

  /** Everything the scan reads of a function. */
  lemma FunctionBytes(cfg: Config, m: Space, bus: byte, d: nat, f: nat)
    requires Given(cfg, m) && d < 32 && f < 8
    ensures Present(cfg, bus, d, f) <==> IsThere(m, bus, d, f)
    ensures HeaderType(cfg, bus, d, f) == m(bus, d, f, 0x0e)
    ensures ReadClassCode(cfg, bus, d, f) == ClassCode(m(bus, d, f, 0x0b), m(bus, d, f, 0x0a), m(bus, d, f, 0x09))
    ensures SecondaryBus(cfg, bus, d, f) == m(bus, d, f, 0x19)
  {
    ReadsRegister(cfg, m, bus, d, f, 0);
    ReadsRegister(cfg, m, bus, d, f, 0x08);
    ReadsRegister(cfg, m, bus, d, f, 0x0c);
    ReadsRegister(cfg, m, bus, d, f, 0x18);
    RegisterBytes(m, bus, d, f, 0);
    RegisterBytes(m, bus, d, f, 0x08);
    RegisterBytes(m, bus, d, f, 0x0c);
    RegisterBytes(m, bus, d, f, 0x18);
    hide Given, MakeAddress, Register;
  }

  // ---- the scan

  /** A function is a bridge by its registers and by its bytes, to the same bus. */
  predicate SameBridge(cfg: Config, m: Space, bus: byte, d: nat, f: nat) {
    && (Bridge(cfg, bus, d, f) <==> IsPciBridge(m, bus, d, f))
    && (Bridge(cfg, bus, d, f) ==> Behind(cfg, bus, d, f) == m(bus, d, f, 0x19))
  }

  lemma VisitedBytes(cfg: Config, m: Space, bus: byte, d: nat, f: nat)
    requires Given(cfg, m)
    ensures Visited(cfg, bus, d, f) <==> IsVisited(m, bus, d, f)
    ensures SameBridge(cfg, m, bus, d, f)
  {
    if d < 32 && f < 8 {
      FunctionBytes(cfg, m, bus, d, f);
      FunctionBytes(cfg, m, bus, d, 0);
    }
    hide Given, Present, HeaderType, ReadClassCode, SecondaryBus, IsThere;
  }

  lemma {:induction false} LeadsBytes(cfg: Config, m: Space, from: byte, to: byte, k: nat)
    requires Given(cfg, m)
    ensures Reaches(cfg, from, to, k) <==> Leads(m, from, to, k)
    decreases k
  {
    hide Given, Bridge, IsPciBridge, Behind;
    if k > 0 {
      if Reaches(cfg, from, to, k) {
        var b, d, f :| Bridge(cfg, b, d, f) && Behind(cfg, b, d, f) == to && Reaches(cfg, from, b, k - 1);
        VisitedBytes(cfg, m, b, d, f);
        LeadsBytes(cfg, m, from, b, k - 1);
      }
      if Leads(m, from, to, k) {
        var b: byte, d, f :| IsPciBridge(m, b, d, f) && m(b, d, f, 0x19) == to && Leads(m, from, b, k - 1);
        VisitedBytes(cfg, m, b, d, f);
        LeadsBytes(cfg, m, from, b, k - 1);
      }
    }
  }

  lemma RootBytes(cfg: Config, m: Space, r: byte)
    requires Given(cfg, m)
    ensures Root(cfg, r) <==> StartsAt(m, r)
  {
    FunctionBytes(cfg, m, 0, 0, 0);
    if r < 8 {
      FunctionBytes(cfg, m, 0, 0, r);
    }
    hide Given, Present, HeaderType, IsThere;
  }

  ghost predicate ComesTo(m: Space, bus: byte) { exists r: byte, k :: StartsAt(m, r) && Leads(m, r, bus, k) }

  lemma ComesToBytes(cfg: Config, m: Space, bus: byte)
    requires Given(cfg, m)
    ensures Scanned(cfg, bus) <==> ComesTo(m, bus)
  {
    forall r: byte ensures Root(cfg, r) <==> StartsAt(m, r) {
      RootBytes(cfg, m, r);
    }
    forall r: byte, k: nat ensures Reaches(cfg, r, bus, k) <==> Leads(m, r, bus, k) {
      LeadsBytes(cfg, m, r, bus, k);
    }
    hide Given, Root, StartsAt, Reaches, Leads;
  }

  /** Main theorem: the scan lists exactly the functions that the bytes of configuration space say are there,
      on the buses they lead to. */
  lemma ListedByBytes(cfg: Config, m: Space, bus: byte, d: nat, f: nat)
    requires Given(cfg, m)
    ensures Listed(cfg, bus, d, f) <==> ComesTo(m, bus) && IsVisited(m, bus, d, f)
  {
    ListedExactly(cfg, bus, d, f);
    ComesToBytes(cfg, m, bus);
    VisitedBytes(cfg, m, bus, d, f);
    hide *;
  }

  /** And each entry holds the header type and the class code of its function. */
  lemma EntriesByBytes(cfg: Config, m: Space, depth: nat, table: seq<Device>, full: bool, i: nat)
    requires Given(cfg, m) && Filled(AllSeq(cfg, depth), table, full) && i < |table|
    ensures var e := table[i];
      && ComesTo(m, e.bus) && IsVisited(m, e.bus, e.device, e.fn)
      && e.headerType == m(e.bus, e.device, e.fn, 0x0e)
      && e.classCode == ClassCode(m(e.bus, e.device, e.fn, 0x0b), m(e.bus, e.device, e.fn, 0x0a),
                                  m(e.bus, e.device, e.fn, 0x09))
  {
    var e := table[i];
    hide AllSeq, Given, IsVisited, ComesTo, Listed, ReachedFrom;
    assert e in AllSeq(cfg, depth);
    EntryIsRead(cfg, depth, e);
    ListedByBytes(cfg, m, e.bus, e.device, e.fn);
    FunctionBytes(cfg, m, e.bus, e.device, e.fn);
    hide HeaderType, ReadClassCode, SecondaryBus, Present;
  }

  lemma EntryIsRead(cfg: Config, depth: nat, e: Device)
    requires e in AllSeq(cfg, depth)
    ensures Listed(cfg, e.bus, e.device, e.fn)
    ensures e.device < 32 && e.fn < 8 && e == DeviceAt(cfg, e.bus, e.device, e.fn)
  {
    var r := AllFromRoots(cfg, depth, e);
    hide AllSeq, Reaches, DeviceAt;
  }
}
