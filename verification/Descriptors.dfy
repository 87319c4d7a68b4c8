/** The configuration descriptor walk of kernel/usb/device.cpp: a reader that hops over descriptors
    by their length bytes, and the search for a HID boot interface and its endpoints. */
module Descriptors {
  import opened Options

  type byte = x: nat | x < 0x100

  const ENDPOINT := 5
  const INTERFACE := 4

  /** A descriptor: its bytes, of which the first is their number and the second its type. */
  predicate Wellformed(d: seq<byte>) {
    2 <= |d| && d[0] == |d| && (d[1] == INTERFACE ==> |d| >= 9) && (d[1] == ENDPOINT ==> |d| >= 7)
  }

  predicate AllWellformed(ds: seq<seq<byte>>) { forall i | 0 <= i < |ds| :: Wellformed(ds[i]) }

  /** What the device sends: its descriptors one after the other. */
  function Serialize(ds: seq<seq<byte>>): seq<byte> {
    if ds == [] then [] else ds[0] + Serialize(ds[1..])
  }

  /** Offset of the k-th descriptor. */
  function Offset(ds: seq<seq<byte>>, k: nat): nat
    requires k <= |ds|
  {
    if k == 0 then 0 else Offset(ds, k - 1) + |ds[k - 1]|
  }

  lemma {:induction false} OffsetTail(ds: seq<seq<byte>>, k: nat)
    requires 1 <= k <= |ds|
    ensures Offset(ds, k) == |ds[0]| + Offset(ds[1..], k - 1)
    decreases k
  {
    if k > 1 {
      OffsetTail(ds, k - 1);
      assert ds[1..][k - 2] == ds[k - 1];
    }
  }

  /** The k-th descriptor lies at its offset. */
  lemma {:induction false} Located(ds: seq<seq<byte>>, k: nat)
    requires k < |ds|
    ensures Offset(ds, k) + |ds[k]| <= |Serialize(ds)|
    ensures Serialize(ds)[Offset(ds, k)..Offset(ds, k) + |ds[k]|] == ds[k]
    decreases k
  {
    if k > 0 {
      Located(ds[1..], k - 1);
      OffsetTail(ds, k);
      var rest, o := Serialize(ds[1..]), Offset(ds[1..], k - 1);
      assert Serialize(ds)[|ds[0]| + o..|ds[0]| + o + |ds[k]|] == rest[o..o + |ds[k]|];
    }
  }

  lemma {:induction false} OffsetEnd(ds: seq<seq<byte>>)
    ensures Offset(ds, |ds|) == |Serialize(ds)|
  {
    if ds != [] {
      OffsetEnd(ds[1..]);
      OffsetTail(ds, |ds|);
    }
  }

  lemma {:induction false} OffsetMonotone(ds: seq<seq<byte>>, i: nat, j: nat)
    requires i <= j <= |ds|
    ensures Offset(ds, i) <= Offset(ds, j)
    decreases j
  {
    if i < j {
      OffsetMonotone(ds, i, j - 1);
    }
  }

  /** ConfigurationDescriptorReader over a buffer that holds a serialised list. */
  class Reader {
    const buf: array<byte>
    const len: nat
    var p: nat

    // The list in the buffer and the index of the descriptor p points to.
    ghost const descs: seq<seq<byte>>
    ghost var at: nat

    ghost predicate Valid()
      reads this, buf
    {
      && len <= buf.Length && buf[..len] == Serialize(descs) && AllWellformed(descs)
      && at <= |descs| && p == Offset(descs, at)
    }

    constructor (buf: array<byte>, len: nat, ghost descs: seq<seq<byte>>)
      requires len <= buf.Length && buf[..len] == Serialize(descs) && AllWellformed(descs)
      ensures Valid() && at == 0 && this.descs == descs && this.buf == buf && this.len == len
    {
      this.buf := buf;
      this.len := len;
      this.descs := descs;
      p, at := 0, 0;
    }

    /** Next: on to the following descriptor, or null after the last one. */
    method Next() returns (r: Option<nat>)
      requires Valid() && at < |descs|
      modifies this
      ensures Valid() && at == old(at) + 1
      ensures r == if at < |descs| then Some(Offset(descs, at)) else None
    {
      Located(descs, at);
      OffsetEnd(descs);
      assert buf[..len][p..p + |descs[at]|] == descs[at];
      assert descs[at][0] == buf[p];
      p := p + buf[p];
      at := at + 1;
      OffsetMonotone(descs, at, |descs|);
      if at < |descs| {
        Located(descs, at);
        assert Wellformed(descs[at]);
      }
      if p < len {
        return Some(p);
      }
      return None;
    }

    /** A byte of the current descriptor. */
    method ByteAt(i: nat) returns (b: byte)
      requires Valid() && at < |descs| && i < |descs[at]|
      ensures b == descs[at][i]
    {
      Located(descs, at);
      assert buf[..len][p..p + |descs[at]|][i] == buf[p + i];
      b := buf[p + i];
    }

    /** Next<InterfaceDescriptor>: skips whatever is not an interface descriptor. */
    method NextInterface() returns (found: bool)
      requires Valid() && at < |descs|
      modifies this
      ensures Valid() && at == NextOfType(descs, old(at) + 1, INTERFACE)
      ensures found <==> at < |descs|
    {
      ghost var start := at;
      while true
        invariant Valid() && start <= at < |descs|
        invariant NextOfType(descs, at + 1, INTERFACE) == NextOfType(descs, start + 1, INTERFACE)
        decreases |descs| - at
      {
        var n := Next();
        if n.None? {
          return false;
        }
        assert Wellformed(descs[at]);
        var ty := ByteAt(1);
        if ty == INTERFACE {
          return true;
        }
      }
    }
  }

  /** Index of the first descriptor of a type from i on, or the number of descriptors. */
  function NextOfType(ds: seq<seq<byte>>, i: nat, ty: nat): (r: nat)
    requires i <= |ds| && AllWellformed(ds)
    ensures i <= r <= |ds| && (r < |ds| ==> ds[r][1] == ty)
    ensures forall j | i <= j < r :: ds[j][1] != ty
    decreases |ds| - i
  {
    if i == |ds| || ds[i][1] == ty then i else NextOfType(ds, i + 1, ty)
  }

  /** The descriptor that starts at an offset of the buffer. */
  function DescriptorAt(s: seq<byte>, o: nat): seq<byte>
    requires o < |s| && o + s[o] <= |s|
  {
    s[o..o + s[o]]
  }

  /** The descriptor at an offset. */
  ghost predicate LeadsToOne(s: seq<byte>, o: nat, d: seq<byte>) {
    o < |s| && o + s[o] <= |s| && DescriptorAt(s, o) == d
  }

  lemma FoundAtOffset(ds: seq<seq<byte>>, k: nat)
    requires AllWellformed(ds) && k < |ds|
    ensures LeadsToOne(Serialize(ds), Offset(ds, k), ds[k])
  {
    Located(ds, k);
    assert Wellformed(ds[k]);
    hide Serialize, Offset, AllWellformed;
    var s, o := Serialize(ds), Offset(ds, k);
    assert s[o] == s[o..o + |ds[k]|][0];
  }

  /** The walk inverts serialisation: from the start, Next yields the second to the last descriptor
      in order, each where it was written, and then null. */
  method WalkAll(buf: array<byte>, len: nat, ghost descs: seq<seq<byte>>) returns (found: seq<nat>)
    requires len <= buf.Length && buf[..len] == Serialize(descs) && AllWellformed(descs) && descs != []
    ensures |found| == |descs| - 1 && LeadTo(buf[..len], found, descs)
  {
    var reader := new Reader(buf, len, descs);
    found := [];
    while true
      invariant fresh(reader) && reader.buf == buf && reader.len == len && reader.descs == descs
      invariant reader.Valid() && reader.at < |descs| && |found| == reader.at
      invariant forall k | 1 <= k <= reader.at :: found[k - 1] == Offset(descs, k)
      decreases |descs| - reader.at
    {
      var n := reader.Next();
      if n.None? {
        break;
      }
      found := found + [n.value];
    }
    assert |found| == |descs| - 1;
    assert forall k | 1 <= k < |descs| :: found[k - 1] == Offset(descs, k);
    AllFound(descs, found);
    assert buf[..len] == Serialize(descs);
  }

  /** Offsets found in order lead to the descriptors. */
  ghost predicate LeadTo(s: seq<byte>, found: seq<nat>, ds: seq<seq<byte>>) {
    forall k | 0 <= k < |found| :: k + 1 < |ds| && LeadsToOne(s, found[k], ds[k + 1])
  }

  lemma AllFound(ds: seq<seq<byte>>, found: seq<nat>)
    requires AllWellformed(ds) && |found| == |ds| - 1
    requires forall k | 1 <= k < |ds| :: found[k - 1] == Offset(ds, k)
    ensures LeadTo(Serialize(ds), found, ds)
  {
    hide Serialize, Offset, Wellformed, LeadsToOne;
    forall k | 0 <= k < |found| ensures LeadsToOne(Serialize(ds), found[k], ds[k + 1]) {
      assert found[k + 1 - 1] == Offset(ds, k + 1);
      FoundAtOffset(ds, k + 1);
    }
  }

  // ---- InitializePhase2

  /** An endpoint as MakeEPConfig reads it off an endpoint descriptor. */
  datatype EndpointConfig = EndpointConfig(number: nat, dirIn: bool, transferType: nat,
    maxPacketSize: nat, interval: nat)

  function MakeEPConfig(d: seq<byte>): EndpointConfig
    requires |d| >= 7
  {
    EndpointConfig(d[2] % 16, d[2] / 128 == 1, d[3] % 4, (d[4] as nat) + 0x100 * (d[5] as nat), d[6])
  }

  datatype DriverKind = Keyboard | Mouse

  /** NewClassDriver: HID boot keyboards and mice only. */
  function NewClassDriver(d: seq<byte>): Option<DriverKind>
    requires |d| >= 9
  {
    if d[5] == 3 && d[6] == 1 then
      if d[7] == 1 then Some(Keyboard) else if d[7] == 2 then Some(Mouse) else None
    else None
  }

  predicate IsBootInterface(d: seq<byte>)
    requires Wellformed(d)
  {
    d[1] == INTERFACE && NewClassDriver(d).Some?
  }

  /** What the phase selects; `NullRead` stands for the null pointer it follows when the endpoint
      descriptors run out. */
  datatype Selection =
    | NoDriver
    | Selected(kind: DriverKind, interface: byte, configs: seq<EndpointConfig>)
    | NullRead

  /** The first boot interface after the configuration descriptor. */
  function FirstBoot(ds: seq<seq<byte>>, i: nat): (r: nat)
    requires i <= |ds| && AllWellformed(ds)
    ensures i <= r <= |ds| && (r < |ds| ==> IsBootInterface(ds[r]))
    ensures forall j | i <= j < r :: !IsBootInterface(ds[j])
    decreases |ds| - i
  {
    if i == |ds| || IsBootInterface(ds[i]) then i else FirstBoot(ds, i + 1)
  }

  /** The endpoints of all endpoint descriptors from i on, in order. */
  function EndpointsFrom(ds: seq<seq<byte>>, i: nat): seq<EndpointConfig>
    requires i <= |ds| && AllWellformed(ds)
    decreases |ds| - i
  {
    if i == |ds| then []
    else (if ds[i][1] == ENDPOINT then [MakeEPConfig(ds[i])] else []) + EndpointsFrom(ds, i + 1)
  }

  /** The first boot interface and as many endpoints after it as it announces, if there are so many. */
  function Select(ds: seq<seq<byte>>): Selection
    requires AllWellformed(ds) && ds != []
  {
    var i := FirstBoot(ds, 1);
    if i == |ds| then NoDriver
    else if |EndpointsFrom(ds, i + 1)| < ds[i][4] then NullRead
    else Selected(NewClassDriver(ds[i]).value, ds[i][2], EndpointsFrom(ds, i + 1)[..ds[i][4]])
  }

  // ---- what is selected, in bytes

  /** An interface descriptor of a HID boot keyboard or mouse: type 4, class 3, subclass 1, protocol 1 or 2. */
  predicate BootInterface(d: seq<byte>) {
    |d| >= 9 && d[1] == 4 && d[5] == 3 && d[6] == 1 && (d[7] == 1 || d[7] == 2)
  }

  /** The first one after the configuration descriptor. */
  predicate FirstBootAt(ds: seq<seq<byte>>, i: nat) {
    1 <= i < |ds| && BootInterface(ds[i]) && forall j | 1 <= j < i :: !BootInterface(ds[j])
  }

  predicate IsEndpoint(d: seq<byte>) { |d| >= 7 && d[1] == 5 }

  /** The place of the next endpoint descriptor after one. */
  predicate NextEndpoint(ds: seq<seq<byte>>, before: nat, place: nat) {
    before < place < |ds| && IsEndpoint(ds[place]) && forall j | before < j < place :: !IsEndpoint(ds[j])
  }

  /** The places of the next endpoint descriptors, whatever lies between them. */
  predicate Follow(ds: seq<seq<byte>>, from: nat, at: seq<nat>)
    decreases |at|
  {
    at == [] || (NextEndpoint(ds, from, at[0]) && Follow(ds, at[0], at[1..]))
  }

  /** An endpoint as its descriptor gives it: the address's low four bits and top bit, the transfer type in
      two bits, the packet size in two bytes, the interval. */
  predicate ReadFrom(c: EndpointConfig, d: seq<byte>) {
    && IsEndpoint(d) && c.number == d[2] % 16 && (c.dirIn <==> d[2] >= 128) && c.transferType == d[3] % 4
    && c.maxPacketSize == (d[4] as nat) + 0x100 * (d[5] as nat) && c.interval == d[6]
  }

  predicate AllReadFrom(configs: seq<EndpointConfig>, ds: seq<seq<byte>>, at: seq<nat>)
    decreases |at|
  {
    if at == [] then configs == []
    else configs != [] && at[0] < |ds| && ReadFrom(configs[0], ds[at[0]]) && AllReadFrom(configs[1..], ds, at[1..])
  }

  predicate OffersAt(ds: seq<seq<byte>>, kind: DriverKind, number: byte, configs: seq<EndpointConfig>,
                     i: nat, at: seq<nat>)
  {
    && FirstBootAt(ds, i) && Follow(ds, i, at) && |at| == ds[i][4] && AllReadFrom(configs, ds, at)
    && kind == (if ds[i][7] == 1 then Keyboard else Mouse) && number == ds[i][2]
  }

  /** What a configuration offers, read off its bytes: a keyboard for protocol 1 and a mouse for protocol 2,
      the interface's number, and as many endpoints after it as it announces. */
  ghost predicate Offers(ds: seq<seq<byte>>, s: Selection) {
    match s
    case NoDriver => forall i | 1 <= i < |ds| :: !BootInterface(ds[i])
    case Selected(kind, number, configs) =>
      exists i: nat, at :: OffersAt(ds, kind, number, configs, i, at)
    case NullRead =>
      exists i: nat :: FirstBootAt(ds, i) && forall at | Follow(ds, i, at) :: |at| < ds[i][4]
  }

  lemma EndpointBytes(d: seq<byte>)
    requires Wellformed(d)
    ensures d[1] == ENDPOINT <==> IsEndpoint(d)
    ensures IsEndpoint(d) ==> ReadFrom(MakeEPConfig(d), d)
  {
  }

  lemma BootBytes(d: seq<byte>)
    requires Wellformed(d)
    ensures IsBootInterface(d) <==> BootInterface(d)
    ensures BootInterface(d) ==> NewClassDriver(d) == Some(if d[7] == 1 then Keyboard else Mouse)
  {
  }

  /** The endpoints from i on are those read at places, and no list of places is longer. */
  lemma {:induction false} Places(ds: seq<seq<byte>>, i: nat, n: nat) returns (at: seq<nat>)
    requires 1 <= i <= |ds| && AllWellformed(ds) && n <= |EndpointsFrom(ds, i)|
    ensures |at| == n && Follow(ds, i - 1, at) && AllReadFrom(EndpointsFrom(ds, i)[..n], ds, at)
    decreases |ds| - i
  {
    if n == 0 {
      at := [];
      assert EndpointsFrom(ds, i)[..n] == [];
    } else {
      EndpointBytes(ds[i]);
      if ds[i][1] == ENDPOINT {
        var rest := Places(ds, i + 1, n - 1);
        at := [i] + rest;
        assert EndpointsFrom(ds, i)[..n] == [MakeEPConfig(ds[i])] + EndpointsFrom(ds, i + 1)[..n - 1];
        assert ([MakeEPConfig(ds[i])] + EndpointsFrom(ds, i + 1)[..n - 1])[1..] == EndpointsFrom(ds, i + 1)[..n - 1];
        assert at[1..] == rest;
        hide MakeEPConfig, Wellformed, ReadFrom, IsEndpoint, EndpointsFrom;
      } else {
        assert EndpointsFrom(ds, i) == EndpointsFrom(ds, i + 1);
        at := Places(ds, i + 1, n);
        hide MakeEPConfig, Wellformed, ReadFrom, IsEndpoint;
        NotAPlace(ds, i, at);
      }
    }
  }

  lemma NotAPlace(ds: seq<seq<byte>>, i: nat, at: seq<nat>)
    requires 1 <= i < |ds| && !IsEndpoint(ds[i]) && Follow(ds, i, at)
    ensures Follow(ds, i - 1, at)
  {
    hide IsEndpoint;
  }

  lemma {:induction false} NoMorePlaces(ds: seq<seq<byte>>, i: nat, at: seq<nat>)
    requires 1 <= i <= |ds| && AllWellformed(ds) && Follow(ds, i - 1, at)
    ensures |at| <= |EndpointsFrom(ds, i)|
    decreases |ds| - i
  {
    if at != [] {
      EndpointBytes(ds[i]);
      if ds[i][1] == ENDPOINT {
        assert at[0] == i;
        NoMorePlaces(ds, i + 1, at[1..]);
      } else {
        NoMorePlaces(ds, i + 1, at);
      }
    }
  }

  /** The selection is what the bytes offer. */
  lemma SelectOffers(ds: seq<seq<byte>>)
    requires AllWellformed(ds) && ds != []
    ensures Offers(ds, Select(ds))
  {
    var i := FirstBoot(ds, 1);
    FirstInBytes(ds, i);
    hide NewClassDriver, MakeEPConfig, Wellformed, IsBootInterface, BootInterface, EndpointsFrom, Follow, AllReadFrom;
    if i < |ds| {
      BootBytes(ds[i]);
      var n := ds[i][4];
      if |EndpointsFrom(ds, i + 1)| < n {
        forall at: seq<nat> | Follow(ds, i, at) ensures |at| < n {
          NoMorePlaces(ds, i + 1, at);
        }
      } else {
        var at := Places(ds, i + 1, n);
        assert OffersAt(ds, NewClassDriver(ds[i]).value, ds[i][2], EndpointsFrom(ds, i + 1)[..n], i, at);
      }
    }
  }

  lemma FirstInBytes(ds: seq<seq<byte>>, i: nat)
    requires AllWellformed(ds) && 1 <= i <= |ds| && (i < |ds| ==> IsBootInterface(ds[i]))
    requires forall j | 1 <= j < i :: !IsBootInterface(ds[j])
    ensures i < |ds| ==> FirstBootAt(ds, i)
    ensures i == |ds| ==> forall j | 1 <= j < |ds| :: !BootInterface(ds[j])
  {
    forall j | 1 <= j <= i && j < |ds| ensures IsBootInterface(ds[j]) <==> BootInterface(ds[j]) {
      BootBytes(ds[j]);
    }
    hide IsBootInterface, BootInterface;
  }

  /** Nothing else is offered: at most one selection. */
  lemma OffersOne(ds: seq<seq<byte>>, s: Selection, t: Selection)
    requires Offers(ds, s) && Offers(ds, t)
    ensures s == t
  {
    if s.Selected? && t.Selected? {
      hide OffersAt;
      var i: nat, at :| OffersAt(ds, s.kind, s.interface, s.configs, i, at);
      var i': nat, at' :| OffersAt(ds, t.kind, t.interface, t.configs, i', at');
      SameOffer(ds, s, t, i, at, i', at');
    } else if s.Selected? {
      NotBoth(ds, s, t);
    } else if t.Selected? {
      NotBoth(ds, t, s);
    }
    hide BootInterface, Follow;
  }

  lemma NotBoth(ds: seq<seq<byte>>, s: Selection, t: Selection)
    requires Offers(ds, s) && s.Selected? && !t.Selected?
    ensures !Offers(ds, t)
  {
    hide BootInterface, Follow, AllReadFrom;
    var i: nat, at :| OffersAt(ds, s.kind, s.interface, s.configs, i, at);
    forall j: nat | FirstBootAt(ds, j) ensures j == i {
    }
  }

  lemma SameOffer(ds: seq<seq<byte>>, s: Selection, t: Selection, i: nat, at: seq<nat>, i': nat, at': seq<nat>)
    requires s.Selected? && OffersAt(ds, s.kind, s.interface, s.configs, i, at)
    requires t.Selected? && OffersAt(ds, t.kind, t.interface, t.configs, i', at')
    ensures s == t
  {
    assert i == i' by { hide BootInterface, Follow, AllReadFrom; }
    SamePlaces(ds, i, at, at');
    SameConfigs(ds, at, s.configs, t.configs);
    hide BootInterface, Follow, AllReadFrom;
  }

  lemma {:induction false} SamePlaces(ds: seq<seq<byte>>, from: nat, at: seq<nat>, at': seq<nat>)
    requires Follow(ds, from, at) && Follow(ds, from, at') && |at| == |at'|
    ensures at == at'
    decreases |at|
  {
    if at != [] {
      assert at[0] == at'[0];
      SamePlaces(ds, at[0], at[1..], at'[1..]);
      assert at == [at[0]] + at[1..] && at' == [at'[0]] + at'[1..];
    }
  }

  lemma {:induction false} SameConfigs(ds: seq<seq<byte>>, at: seq<nat>, a: seq<EndpointConfig>, b: seq<EndpointConfig>)
    requires AllReadFrom(a, ds, at) && AllReadFrom(b, ds, at)
    ensures a == b
    decreases |at|
  {
    if at != [] {
      SameConfigs(ds, at[1..], a[1..], b[1..]);
      assert a == [a[0]] + a[1..] && b == [b[0]] + b[1..];
    }
  }

  /** InitializePhase2's search, on the buffer of a well-formed configuration. */
  method InitializePhase2(buf: array<byte>, len: nat, ghost descs: seq<seq<byte>>) returns (s: Selection)
    requires len <= buf.Length && buf[..len] == Serialize(descs) && AllWellformed(descs) && descs != []
    ensures s == Select(descs) && Offers(descs, s)
  {
    SelectOffers(descs);
    hide Offers;
    hide Serialize, Offset, EndpointsFrom, NextOfType, NewClassDriver, HidBoot;
    var reader := new Reader(buf, len, descs);
    while true
      invariant fresh(reader) && reader.descs == descs && reader.Valid() && reader.at < |descs|
      invariant FirstBoot(descs, reader.at + 1) == FirstBoot(descs, 1)
      decreases |descs| - reader.at
    {
      SkipToInterface(descs, reader.at + 1);
      var found := reader.NextInterface();
      if !found {
        return NoDriver;
      }
      assert Wellformed(descs[reader.at]);
      var kind := ClassDriverOf(reader);
      if kind.Some? {
        s := Chosen(reader, kind.value);
        return;
      }
    }
  }

  /** The rest of the search, at the first boot interface. */
  method Chosen(reader: Reader, kind: DriverKind) returns (s: Selection)
    requires reader.Valid() && reader.descs != [] && reader.at == FirstBoot(reader.descs, 1) < |reader.descs|
    requires NewClassDriver(reader.descs[reader.at]) == Some(kind)
    modifies reader
    ensures s == Select(reader.descs)
  {
    hide Serialize, Offset, EndpointsFrom, NextOfType, NewClassDriver;
    assert Wellformed(reader.descs[reader.at]);
    var number := reader.ByteAt(2);
    var wanted := reader.ByteAt(4);
    var configs := CollectEndpoints(reader, wanted);
    s := if configs.Some? then Selected(kind, number, configs.value) else NullRead;
  }

  /** Class 3 and subclass 1. */
  predicate HidBoot(d: seq<byte>) { |d| >= 9 && d[5] == 3 && d[6] == 1 }

  /** NewClassDriver on the interface descriptor the reader is at: protocol 1 of a HID boot interface is a keyboard,
      protocol 2 a mouse, and there is no driver for anything else. */
  method ClassDriverOf(reader: Reader) returns (kind: Option<DriverKind>)
    requires reader.Valid() && reader.at < |reader.descs| && |reader.descs[reader.at]| >= 9
    ensures kind == NewClassDriver(reader.descs[reader.at])
    ensures kind == Some(Keyboard) <==> HidBoot(reader.descs[reader.at]) && reader.descs[reader.at][7] == 1
    ensures kind == Some(Mouse) <==> HidBoot(reader.descs[reader.at]) && reader.descs[reader.at][7] == 2
  {
    var cls := reader.ByteAt(5);
    var sub := reader.ByteAt(6);
    var protocol := reader.ByteAt(7);
    if cls == 3 && sub == 1 {
      if protocol == 1 {
        return Some(Keyboard);
      } else if protocol == 2 {
        return Some(Mouse);
      }
    }
    return None;
  }

  /** Descriptors of other types are no boot interfaces. */
  lemma {:induction false} SkipToInterface(ds: seq<seq<byte>>, i: nat)
    requires i <= |ds| && AllWellformed(ds)
    ensures FirstBoot(ds, i) == FirstBoot(ds, NextOfType(ds, i, INTERFACE))
    decreases |ds| - i
  {
    if i < |ds| && ds[i][1] != INTERFACE {
      SkipToInterface(ds, i + 1);
    }
  }

  /** The inner loop: the next `wanted` endpoint descriptors, whatever lies between them. */
  method CollectEndpoints(reader: Reader, wanted: nat) returns (configs: Option<seq<EndpointConfig>>)
    requires reader.Valid() && reader.at < |reader.descs|
    modifies reader
    ensures var all := EndpointsFrom(reader.descs, old(reader.at) + 1);
      configs == if |all| < wanted then None else Some(all[..wanted])
  {
    hide Serialize, Offset;
    ghost var ds := reader.descs;
    ghost var start := reader.at + 1;
    var found: seq<EndpointConfig> := [];
    while |found| < wanted
      invariant reader.Valid() && start <= reader.at + 1 <= |ds| && |found| <= wanted
      invariant found + EndpointsFrom(ds, reader.at + 1) == EndpointsFrom(ds, start)
      decreases |ds| - reader.at
    {
      ghost var done := found;
      var n := reader.Next();
      if n.None? {
        return None;
      }
      assert Wellformed(ds[reader.at]);
      var ty := reader.ByteAt(1);
      if ty == ENDPOINT {
        var address := reader.ByteAt(2);
        var attributes := reader.ByteAt(3);
        var low: nat := reader.ByteAt(4);
        var high: nat := reader.ByteAt(5);
        var interval := reader.ByteAt(6);
        var conf := EndpointConfig(address % 16, address / 128 == 1, attributes % 4, low + 0x100 * high, interval);
        assert conf == MakeEPConfig(ds[reader.at]);
        found := found + [conf];
      }
      assert EndpointsFrom(ds, reader.at) ==
             (if ty == ENDPOINT then [MakeEPConfig(ds[reader.at])] else []) + EndpointsFrom(ds, reader.at + 1);
    }
    return Some(found);
  }
}
