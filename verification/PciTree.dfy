/** What the preorder of the PCI scan means: where it is cut does not matter, nothing in it repeats
    on a tree of buses, and a multi-function host bridge is passed over. */
module PciTree {
  import opened PciScan

  // ---- the cut

  function Take(s: seq<Device>, k: nat): seq<Device> { if |s| <= k then s else s[..k] }

  lemma TakeConcat(a: seq<Device>, a': seq<Device>, b: seq<Device>, b': seq<Device>, k: nat)
    requires Take(a, k) == Take(a', k) && Take(b, k) == Take(b', k)
    ensures Take(a + b, k) == Take(a' + b', k)
  {
    assert |Take(a, k)| == |Take(a', k)|;
    if |a| >= k {
      assert Take(a, k) == a[..k] && Take(a', k) == a'[..k];
      assert (a + b)[..k] == a[..k] && (a' + b')[..k] == a'[..k];
      assert Take(a + b, k) == a[..k] && Take(a' + b', k) == a'[..k];
    } else {
      assert a == a';
      assert |Take(b, k)| == |Take(b', k)|;
      if |b| > k - |a| {
        assert (a + b)[..k] == a + Take(b, k)[..k - |a|];
        assert (a' + b')[..k] == a + Take(b', k)[..k - |a|];
      }
    }
  }

  lemma {:induction false} FunctionCut(cfg: Config, bus: byte, device: nat, fn: nat, d: nat, e: nat, room: nat)
    requires Slot(device, fn) && room <= d && room <= e
    ensures Take(FunctionSeq(cfg, bus, device, fn, d), room + 1) == Take(FunctionSeq(cfg, bus, device, fn, e), room + 1)
    decreases d, 0, 0
  {
    hide BusFrom;
    if IsBridge(ReadClassCode(cfg, bus, device, fn)) && room > 0 {
      var sec := SecondaryBus(cfg, bus, device, fn);
      BusCut(cfg, sec, 0, d - 1, e - 1, room - 1);
      var a, b := BusFrom(cfg, sec, 0, d - 1), BusFrom(cfg, sec, 0, e - 1);
      var dev := DeviceAt(cfg, bus, device, fn);
      assert Take([dev] + a, room + 1) == [dev] + Take(a, room);
      assert Take([dev] + b, room + 1) == [dev] + Take(b, room);
    } else {
      var dev := DeviceAt(cfg, bus, device, fn);
      if room == 0 {
        assert Take(FunctionSeq(cfg, bus, device, fn, d), 1) == [dev];
        assert Take(FunctionSeq(cfg, bus, device, fn, e), 1) == [dev];
      }
    }
  }

  lemma {:induction false} FunctionsCut(cfg: Config, bus: byte, device: nat, fn: nat, d: nat, e: nat, room: nat)
    requires device < 32 && fn <= 8 && room <= d && room <= e
    ensures Take(FunctionsFrom(cfg, bus, device, fn, d), room + 1)
            == Take(FunctionsFrom(cfg, bus, device, fn, e), room + 1)
    decreases d, 1, 8 - fn
  {
    hide FunctionSeq, FunctionsFrom, Take, Present;
    FunctionsStep(cfg, bus, device, fn, d);
    FunctionsStep(cfg, bus, device, fn, e);
    if fn < 8 {
      FunctionsCut(cfg, bus, device, fn + 1, d, e, room);
      if Present(cfg, bus, device, fn) {
        FunctionCut(cfg, bus, device, fn, d, e, room);
        TakeConcat(FunctionSeq(cfg, bus, device, fn, d), FunctionSeq(cfg, bus, device, fn, e),
                   FunctionsFrom(cfg, bus, device, fn + 1, d), FunctionsFrom(cfg, bus, device, fn + 1, e), room + 1);
      } else {
        TakeConcat([], [], FunctionsFrom(cfg, bus, device, fn + 1, d),
                   FunctionsFrom(cfg, bus, device, fn + 1, e), room + 1);
      }
    }
  }

  lemma {:induction false} DeviceCut(cfg: Config, bus: byte, device: nat, d: nat, e: nat, room: nat)
    requires device < 32 && room <= d && room <= e
    ensures Take(DeviceSeq(cfg, bus, device, d), room + 1) == Take(DeviceSeq(cfg, bus, device, e), room + 1)
    decreases d, 1, 9
  {
    DeviceStep(cfg, bus, device, d);
    DeviceStep(cfg, bus, device, e);
    FunctionCut(cfg, bus, device, 0, d, e, room);
    FunctionsCut(cfg, bus, device, 1, d, e, room);
    hide *;
    var first, first' := FunctionSeq(cfg, bus, device, 0, d), FunctionSeq(cfg, bus, device, 0, e);
    TakeConcat(first, first', [], [], room + 1);
    TakeConcat(first, first', FunctionsFrom(cfg, bus, device, 1, d), FunctionsFrom(cfg, bus, device, 1, e), room + 1);
  }

  lemma {:induction false} BusCut(cfg: Config, bus: byte, device: nat, d: nat, e: nat, room: nat)
    requires device <= 32 && room <= d && room <= e
    ensures Take(BusFrom(cfg, bus, device, d), room + 1) == Take(BusFrom(cfg, bus, device, e), room + 1)
    decreases d, 2, 32 - device
  {
    hide DeviceSeq, BusFrom, Take, Present;
    BusStep(cfg, bus, device, d);
    BusStep(cfg, bus, device, e);
    if device < 32 {
      BusCut(cfg, bus, device + 1, d, e, room);
      if Present(cfg, bus, device, 0) {
        DeviceCut(cfg, bus, device, d, e, room);
        TakeConcat(DeviceSeq(cfg, bus, device, d), DeviceSeq(cfg, bus, device, e),
                   BusFrom(cfg, bus, device + 1, d), BusFrom(cfg, bus, device + 1, e), room + 1);
      } else {
        TakeConcat([], [], BusFrom(cfg, bus, device + 1, d), BusFrom(cfg, bus, device + 1, e), room + 1);
      }
    }
  }

  lemma {:induction false} HostsCut(cfg: Config, fn: nat, d: nat, e: nat, room: nat)
    requires 1 <= fn <= 8 && room <= d && room <= e
    ensures Take(HostsFrom(cfg, fn, d), room + 1) == Take(HostsFrom(cfg, fn, e), room + 1)
    decreases 8 - fn
  {
    hide HostsFrom, BusFrom, Take, Present;
    HostsStep(cfg, fn, d);
    HostsStep(cfg, fn, e);
    if fn < 8 {
      HostsCut(cfg, fn + 1, d, e, room);
      if Present(cfg, 0, 0, fn) {
        BusCut(cfg, fn, 0, d, e, room);
        TakeConcat(BusFrom(cfg, fn, 0, d), BusFrom(cfg, fn, 0, e), HostsFrom(cfg, fn + 1, d), HostsFrom(cfg, fn + 1, e),
                   room + 1);
      } else {
        TakeConcat([], [], HostsFrom(cfg, fn + 1, d), HostsFrom(cfg, fn + 1, e), room + 1);
      }
    }
  }

  /** The outcome of the scan is the same wherever, from 32 bridges down on, the preorder is cut:
      a bridge that leads back to a bus already scanned can only fill the table. */
  lemma CutIsInvisible(cfg: Config, d: nat, e: nat, table: seq<Device>, full: bool)
    requires d >= MAX_DEVICES && e >= MAX_DEVICES
    ensures Filled(AllSeq(cfg, d), table, full) <==> Filled(AllSeq(cfg, e), table, full)
  {
    BusCut(cfg, 0, 0, d, e, MAX_DEVICES);
    HostsCut(cfg, 1, d, e, MAX_DEVICES);
    var s, t := AllSeq(cfg, d), AllSeq(cfg, e);
    hide BusFrom, HostsFrom, SingleFunction, HeaderType, Take;
    assert Take(s, MAX_DEVICES + 1) == Take(t, MAX_DEVICES + 1);
    SameCut(s, t, table, full);
    hide AllSeq, Filled;
  }

  /** What fills the table is the first 32, and whether there are more. */
  lemma SameCut(s: seq<Device>, t: seq<Device>, table: seq<Device>, full: bool)
    requires Take(s, MAX_DEVICES + 1) == Take(t, MAX_DEVICES + 1)
    ensures Filled(s, table, full) <==> Filled(t, table, full)
  {
    if |s| > MAX_DEVICES {
      assert s[..MAX_DEVICES] == s[..MAX_DEVICES + 1][..MAX_DEVICES];
      assert t[..MAX_DEVICES] == t[..MAX_DEVICES + 1][..MAX_DEVICES];
    }
  }

  // ---- a tree of buses

  /** Does the scan of a bus visit this function? Functions 1 to 7 only of a multi-function device. */
  predicate Visited(cfg: Config, bus: byte, device: nat, fn: nat) {
    Slot(device, fn) && Present(cfg, bus, device, fn) && (fn == 0 || Multi(cfg, bus, device))
  }

  predicate Multi(cfg: Config, bus: byte, device: nat) {
    device < 32 && Present(cfg, bus, device, 0) && !SingleFunction(HeaderType(cfg, bus, device, 0))
  }

  predicate Bridge(cfg: Config, bus: byte, device: nat, fn: nat) {
    Visited(cfg, bus, device, fn) && IsBridge(ReadClassCode(cfg, bus, device, fn))
  }

  /** The bus behind a bridge. */
  function Behind(cfg: Config, bus: byte, device: nat, fn: nat): byte {
    if Slot(device, fn) then SecondaryBus(cfg, bus, device, fn) else 0
  }

  /** Every bus has a level, one more behind each bridge, and no two bridges lead to the same bus. */
  ghost predicate Tree(cfg: Config, level: byte -> nat) {
    && (forall b: byte, d, f | Bridge(cfg, b, d, f) :: level(Behind(cfg, b, d, f)) == level(b) + 1)
    && forall b: byte, d, f, b': byte, d', f' | Bridge(cfg, b, d, f) && Bridge(cfg, b', d', f')
                                                && Behind(cfg, b, d, f) == Behind(cfg, b', d', f') ::
         b == b' && d == d' && f == f'
  }

  /** From one bus to another through k bridges. */
  ghost predicate Reaches(cfg: Config, from: byte, to: byte, k: nat)
    decreases k
  {
    if k == 0 then from == to
    else exists b: byte, d, f :: Bridge(cfg, b, d, f) && Behind(cfg, b, d, f) == to && Reaches(cfg, from, b, k - 1)
  }

  lemma {:induction false} ReachesThrough(cfg: Config, b: byte, d: nat, f: nat, to: byte, k: nat)
    requires Bridge(cfg, b, d, f) && Reaches(cfg, Behind(cfg, b, d, f), to, k)
    ensures Reaches(cfg, b, to, k + 1)
    decreases k
  {
    hide Bridge, Behind;
    if k == 0 {
      assert Reaches(cfg, b, b, 0);
    } else {
      var b', d', f' :| Bridge(cfg, b', d', f') && Behind(cfg, b', d', f') == to
                        && Reaches(cfg, Behind(cfg, b, d, f), b', k - 1);
      ReachesThrough(cfg, b, d, f, b', k - 1);
    }
  }

  /** On a tree a bus is reached through as many bridges from one bus only. */
  lemma {:induction false} ReachedFromOne(cfg: Config, level: byte -> nat, from: byte, from': byte, to: byte, k: nat)
    requires Tree(cfg, level) && Reaches(cfg, from, to, k) && Reaches(cfg, from', to, k)
    ensures from == from'
    decreases k
  {
    hide Bridge, Behind;
    if k > 0 {
      var b, d, f :| Bridge(cfg, b, d, f) && Behind(cfg, b, d, f) == to && Reaches(cfg, from, b, k - 1);
      var b', d', f' :| Bridge(cfg, b', d', f') && Behind(cfg, b', d', f') == to && Reaches(cfg, from', b', k - 1);
      ReachedFromOne(cfg, level, from, from', b, k - 1);
    }
  }

  /** Is a function the one at this place, or behind the bridge there? */
  ghost predicate Under(cfg: Config, level: byte -> nat, e: Device, bus: byte, d: nat, f: nat) {
    || (e.bus == bus && e.device == d && e.fn == f)
    || (level(e.bus) > level(bus) && Bridge(cfg, bus, d, f)
        && Reaches(cfg, Behind(cfg, bus, d, f), e.bus, level(e.bus) - level(bus) - 1))
  }

  predicate SamePlace(x: Device, y: Device) { x.bus == y.bus && x.device == y.device && x.fn == y.fn }

  lemma UnderOne(cfg: Config, level: byte -> nat, x: Device, y: Device, bus: byte, d: nat, f: nat, d': nat, f': nat)
    requires Tree(cfg, level) && Under(cfg, level, x, bus, d, f) && Under(cfg, level, y, bus, d', f') && SamePlace(x, y)
    ensures d == d' && f == f'
  {
    hide Bridge, Behind, Reaches;
    if level(x.bus) > level(bus) {
      ReachedFromOne(cfg, level, Behind(cfg, bus, d, f), Behind(cfg, bus, d', f'), x.bus,
                     level(x.bus) - level(bus) - 1);
    }
  }

  /** A function behind a bridge is under the bridge. */
  lemma UnderBridge(cfg: Config, level: byte -> nat, e: Device, bus: byte, d: nat, f: nat, d': nat, f': nat)
    requires Tree(cfg, level) && Bridge(cfg, bus, d, f) && Under(cfg, level, e, Behind(cfg, bus, d, f), d', f')
    ensures level(e.bus) > level(bus) && Under(cfg, level, e, bus, d, f)
  {
    hide Bridge, Behind;
    var sec := Behind(cfg, bus, d, f);
    if e.bus == sec {
      assert Reaches(cfg, sec, sec, 0);
    } else {
      ReachesThrough(cfg, sec, d', f', e.bus, level(e.bus) - level(sec) - 1);
    }
  }

  ghost predicate NoRepeat(s: seq<Device>) {
    forall i, j | 0 <= i < j < |s| :: !SamePlace(s[i], s[j])
  }

  /** All entries are under this function. */
  ghost predicate UnderFunction(cfg: Config, level: byte -> nat, s: seq<Device>, bus: byte, d: nat, f: nat) {
    forall i | 0 <= i < |s| :: Under(cfg, level, s[i], bus, d, f)
  }

  ghost predicate FromFunction(cfg: Config, level: byte -> nat, e: Device, bus: byte, d: nat, f: nat) {
    exists f': nat | f <= f' :: Under(cfg, level, e, bus, d, f')
  }

  /** All entries are under functions of this device from f on. */
  ghost predicate UnderDevice(cfg: Config, level: byte -> nat, s: seq<Device>, bus: byte, d: nat, f: nat) {
    forall i | 0 <= i < |s| :: FromFunction(cfg, level, s[i], bus, d, f)
  }

  ghost predicate FromDevice(cfg: Config, level: byte -> nat, e: Device, bus: byte, d: nat) {
    exists d': nat, f': nat | d <= d' :: Under(cfg, level, e, bus, d', f')
  }

  /** All entries are under devices of this bus from d on. */
  ghost predicate UnderBus(cfg: Config, level: byte -> nat, s: seq<Device>, bus: byte, d: nat) {
    forall i | 0 <= i < |s| :: FromDevice(cfg, level, s[i], bus, d)
  }

  lemma Apart(a: seq<Device>, b: seq<Device>)
    requires NoRepeat(a) && NoRepeat(b) && forall i, j | 0 <= i < |a| && 0 <= j < |b| :: !SamePlace(a[i], b[j])
    ensures NoRepeat(a + b)
  {
  }

  lemma FunctionThenRest(cfg: Config, level: byte -> nat, a: seq<Device>, b: seq<Device>, bus: byte, d: nat, f: nat)
    requires Tree(cfg, level) && NoRepeat(a) && NoRepeat(b)
    requires UnderFunction(cfg, level, a, bus, d, f) && UnderDevice(cfg, level, b, bus, d, f + 1)
    ensures NoRepeat(a + b) && UnderDevice(cfg, level, a + b, bus, d, f)
  {
    hide Under, Tree, SamePlace;
    forall i, j | 0 <= i < |a| && 0 <= j < |b| ensures !SamePlace(a[i], b[j]) {
      assert FromFunction(cfg, level, b[j], bus, d, f + 1);
      var f': nat :| f + 1 <= f' && Under(cfg, level, b[j], bus, d, f');
      if SamePlace(a[i], b[j]) {
        UnderOne(cfg, level, a[i], b[j], bus, d, f, d, f');
      }
    }
    Apart(a, b);
    forall i | 0 <= i < |a + b| ensures FromFunction(cfg, level, (a + b)[i], bus, d, f) {
      if i < |a| {
        assert Under(cfg, level, (a + b)[i], bus, d, f);
      } else {
        assert FromFunction(cfg, level, b[i - |a|], bus, d, f + 1);
        var f': nat :| f + 1 <= f' && Under(cfg, level, b[i - |a|], bus, d, f');
        assert Under(cfg, level, (a + b)[i], bus, d, f');
      }
    }
  }

  lemma DeviceThenRest(cfg: Config, level: byte -> nat, a: seq<Device>, b: seq<Device>, bus: byte, d: nat)
    requires Tree(cfg, level) && NoRepeat(a) && NoRepeat(b)
    requires UnderDevice(cfg, level, a, bus, d, 0) && UnderBus(cfg, level, b, bus, d + 1)
    ensures NoRepeat(a + b) && UnderBus(cfg, level, a + b, bus, d)
  {
    hide Under, Tree, SamePlace;
    forall i, j | 0 <= i < |a| && 0 <= j < |b| ensures !SamePlace(a[i], b[j]) {
      assert FromFunction(cfg, level, a[i], bus, d, 0) && FromDevice(cfg, level, b[j], bus, d + 1);
      var f: nat :| Under(cfg, level, a[i], bus, d, f);
      var d': nat, f': nat :| d + 1 <= d' && Under(cfg, level, b[j], bus, d', f');
      if SamePlace(a[i], b[j]) {
        UnderOne(cfg, level, a[i], b[j], bus, d, f, d', f');
      }
    }
    Apart(a, b);
    forall i | 0 <= i < |a + b| ensures FromDevice(cfg, level, (a + b)[i], bus, d) {
      if i < |a| {
        assert FromFunction(cfg, level, a[i], bus, d, 0);
        var f: nat :| Under(cfg, level, a[i], bus, d, f);
        assert Under(cfg, level, (a + b)[i], bus, d, f);
      } else {
        assert FromDevice(cfg, level, b[i - |a|], bus, d + 1);
        var d': nat, f': nat :| d + 1 <= d' && Under(cfg, level, b[i - |a|], bus, d', f');
        assert Under(cfg, level, (a + b)[i], bus, d', f');
      }
    }
  }

  lemma {:induction false} FunctionOnce(cfg: Config, level: byte -> nat, bus: byte, d: nat, f: nat, depth: nat)
    requires Tree(cfg, level) && Visited(cfg, bus, d, f)
    ensures var s := FunctionSeq(cfg, bus, d, f, depth);
      NoRepeat(s) && UnderFunction(cfg, level, s, bus, d, f)
    decreases depth, 0, 0
  {
    hide Tree, BusFrom, SamePlace;
    var dev := DeviceAt(cfg, bus, d, f);
    if IsBridge(ReadClassCode(cfg, bus, d, f)) && depth > 0 {
      var sec := Behind(cfg, bus, d, f);
      BusOnce(cfg, level, sec, 0, depth - 1);
      var rest := BusFrom(cfg, sec, 0, depth - 1);
      BehindOnce(cfg, level, dev, rest, bus, d, f);
    } else {
      assert Under(cfg, level, dev, bus, d, f);
    }
  }

  lemma BehindOnce(cfg: Config, level: byte -> nat, dev: Device, rest: seq<Device>, bus: byte, d: nat, f: nat)
    requires Tree(cfg, level) && Bridge(cfg, bus, d, f) && dev.bus == bus && dev.device == d && dev.fn == f
    requires NoRepeat(rest) && UnderBus(cfg, level, rest, Behind(cfg, bus, d, f), 0)
    ensures NoRepeat([dev] + rest) && UnderFunction(cfg, level, [dev] + rest, bus, d, f)
  {
    forall i | 0 <= i < |rest| ensures !SamePlace(dev, rest[i]) && Under(cfg, level, rest[i], bus, d, f) {
      assert FromDevice(cfg, level, rest[i], Behind(cfg, bus, d, f), 0);
      var d': nat, f': nat :| Under(cfg, level, rest[i], Behind(cfg, bus, d, f), d', f');
      UnderBridge(cfg, level, rest[i], bus, d, f, d', f');
    }
    assert Under(cfg, level, dev, bus, d, f);
    hide Tree, Under, Bridge, SamePlace, UnderBus;
    Apart([dev], rest);
  }

  lemma {:induction false} FunctionsOnce(cfg: Config, level: byte -> nat, bus: byte, d: nat, f: nat, depth: nat)
    requires Tree(cfg, level) && d < 32 && 1 <= f <= 8 && Multi(cfg, bus, d)
    ensures var s := FunctionsFrom(cfg, bus, d, f, depth);
      NoRepeat(s) && UnderDevice(cfg, level, s, bus, d, f)
    decreases depth, 1, 8 - f
  {
    hide Tree, FunctionSeq, FunctionsFrom, Under, Present, SamePlace, Multi, NoRepeat, UnderFunction, UnderDevice;
    FunctionsStep(cfg, bus, d, f, depth);
    if f < 8 {
      FunctionsOnce(cfg, level, bus, d, f + 1, depth);
      var rest := FunctionsFrom(cfg, bus, d, f + 1, depth);
      if Present(cfg, bus, d, f) {
        VisitedHere(cfg, bus, d, f);
        FunctionOnce(cfg, level, bus, d, f, depth);
        FunctionThenRest(cfg, level, FunctionSeq(cfg, bus, d, f, depth), rest, bus, d, f);
      } else {
        NoneBefore(cfg, level, [], bus, d, f);
        FunctionThenRest(cfg, level, [], rest, bus, d, f);
      }
    } else {
      NoneBefore(cfg, level, [], bus, d, f);
    }
  }

  lemma VisitedHere(cfg: Config, bus: byte, d: nat, f: nat)
    requires Multi(cfg, bus, d) && f < 8 && Present(cfg, bus, d, f)
    ensures Visited(cfg, bus, d, f)
  {
  }

  lemma NoneBefore(cfg: Config, level: byte -> nat, s: seq<Device>, bus: byte, d: nat, f: nat)
    requires s == []
    ensures NoRepeat(s) && UnderFunction(cfg, level, s, bus, d, f) && UnderDevice(cfg, level, s, bus, d, f)
  {
  }

  lemma {:induction false} DeviceOnce(cfg: Config, level: byte -> nat, bus: byte, d: nat, depth: nat)
    requires Tree(cfg, level) && d < 32 && Present(cfg, bus, d, 0)
    ensures var s := DeviceSeq(cfg, bus, d, depth);
      NoRepeat(s) && UnderDevice(cfg, level, s, bus, d, 0)
    decreases depth, 1, 9
  {
    DeviceStep(cfg, bus, d, depth);
    FunctionOnce(cfg, level, bus, d, 0, depth);
    var first := FunctionSeq(cfg, bus, d, 0, depth);
    if SingleFunction(HeaderType(cfg, bus, d, 0)) {
      hide Tree, FunctionSeq, FunctionsFrom, DeviceSeq, Under, SamePlace;
      FunctionThenRest(cfg, level, first, [], bus, d, 0);
    } else {
      FunctionsOnce(cfg, level, bus, d, 1, depth);
      hide Tree, FunctionSeq, FunctionsFrom, DeviceSeq, Under, SamePlace;
      FunctionThenRest(cfg, level, first, FunctionsFrom(cfg, bus, d, 1, depth), bus, d, 0);
    }
  }

  lemma {:induction false} BusOnce(cfg: Config, level: byte -> nat, bus: byte, d: nat, depth: nat)
    requires Tree(cfg, level) && d <= 32
    ensures var s := BusFrom(cfg, bus, d, depth);
      NoRepeat(s) && UnderBus(cfg, level, s, bus, d)
    decreases depth, 2, 32 - d
  {
    BusStep(cfg, bus, d, depth);
    hide Tree, DeviceSeq, BusFrom, Under, SamePlace, Present;
    if d < 32 {
      BusOnce(cfg, level, bus, d + 1, depth);
      var a := if Present(cfg, bus, d, 0) then DeviceSeq(cfg, bus, d, depth) else [];
      if Present(cfg, bus, d, 0) {
        DeviceOnce(cfg, level, bus, d, depth);
      }
      DeviceThenRest(cfg, level, a, BusFrom(cfg, bus, d + 1, depth), bus, d);
    }
  }

  /** On a tree of buses, with a single-function host bridge, the table never lists a function twice. */
  lemma ListedOnce(cfg: Config, level: byte -> nat, depth: nat, table: seq<Device>, full: bool)
    requires Tree(cfg, level) && SingleFunction(HeaderType(cfg, 0, 0, 0))
    requires Filled(AllSeq(cfg, depth), table, full)
    ensures NoRepeat(table)
  {
    BusOnce(cfg, level, 0, 0, depth);
    assert AllSeq(cfg, depth) == BusFrom(cfg, 0, 0, depth);
    hide Tree, BusFrom, SamePlace, HeaderType;
  }

  // ---- what is listed

  /** The buses the scan starts from: bus 0, or for a multi-function host bridge one for each of its
      functions from 1 on. */
  predicate Root(cfg: Config, r: byte) {
    if SingleFunction(HeaderType(cfg, 0, 0, 0)) then r == 0 else 1 <= r < 8 && Present(cfg, 0, 0, r)
  }

  ghost predicate ReachedFrom(cfg: Config, from: byte, e: Device) {
    && (exists k :: Reaches(cfg, from, e.bus, k))
    && Visited(cfg, e.bus, e.device, e.fn) && e == DeviceAt(cfg, e.bus, e.device, e.fn)
  }

  /** All entries are functions that the scan of a bus visits, there or behind its bridges. */
  ghost predicate AllReached(cfg: Config, from: byte, s: seq<Device>) {
    forall e | e in s :: ReachedFrom(cfg, from, e)
  }

  lemma ReachedConcat(cfg: Config, from: byte, a: seq<Device>, b: seq<Device>)
    requires (a == [] || AllReached(cfg, from, a)) && (b == [] || AllReached(cfg, from, b))
    ensures AllReached(cfg, from, a + b)
  {
    hide ReachedFrom;
  }

  lemma NothingReached(cfg: Config, from: byte)
    ensures AllReached(cfg, from, [])
  {
  }

  lemma ReachedBehind(cfg: Config, bus: byte, d: nat, f: nat, dev: Device, rest: seq<Device>)
    requires Visited(cfg, bus, d, f) && dev == DeviceAt(cfg, bus, d, f)
    requires rest == [] || (Bridge(cfg, bus, d, f) && AllReached(cfg, Behind(cfg, bus, d, f), rest))
    ensures AllReached(cfg, bus, [dev] + rest)
  {
    hide Visited, Bridge, Behind;
    assert Reaches(cfg, bus, bus, 0);
    forall e | e in rest ensures ReachedFrom(cfg, bus, e) {
      var k: nat :| Reaches(cfg, Behind(cfg, bus, d, f), e.bus, k);
      ReachesThrough(cfg, bus, d, f, e.bus, k);
    }
    hide Reaches;
  }

  lemma {:induction false} FunctionReached(cfg: Config, bus: byte, d: nat, f: nat, depth: nat)
    requires Visited(cfg, bus, d, f)
    ensures AllReached(cfg, bus, FunctionSeq(cfg, bus, d, f, depth))
    decreases depth, 0, 0
  {
    var dev := DeviceAt(cfg, bus, d, f);
    var sec := SecondaryBus(cfg, bus, d, f);
    hide BusFrom, AllReached;
    if IsBridge(ReadClassCode(cfg, bus, d, f)) && depth > 0 {
      BusReached(cfg, sec, 0, depth - 1);
      ReachedBehind(cfg, bus, d, f, dev, BusFrom(cfg, sec, 0, depth - 1));
    } else {
      ReachedBehind(cfg, bus, d, f, dev, []);
    }
  }

  lemma {:induction false} FunctionsReached(cfg: Config, bus: byte, d: nat, f: nat, depth: nat)
    requires d < 32 && 1 <= f <= 8 && Multi(cfg, bus, d)
    ensures AllReached(cfg, bus, FunctionsFrom(cfg, bus, d, f, depth))
    decreases depth, 1, 8 - f
  {
    hide FunctionSeq, FunctionsFrom, Present, Multi, AllReached, ReachedFrom;
    FunctionsStep(cfg, bus, d, f, depth);
    if f < 8 {
      FunctionsReached(cfg, bus, d, f + 1, depth);
      var rest := FunctionsFrom(cfg, bus, d, f + 1, depth);
      if Present(cfg, bus, d, f) {
        VisitedHere(cfg, bus, d, f);
        FunctionReached(cfg, bus, d, f, depth);
        ReachedConcat(cfg, bus, FunctionSeq(cfg, bus, d, f, depth), rest);
      } else {
        ReachedConcat(cfg, bus, [], rest);
      }
    } else {
      NothingReached(cfg, bus);
    }
  }

  lemma VisitedFirst(cfg: Config, bus: byte, d: nat)
    requires d < 32 && Present(cfg, bus, d, 0)
    ensures Visited(cfg, bus, d, 0)
    ensures !SingleFunction(HeaderType(cfg, bus, d, 0)) ==> Multi(cfg, bus, d)
  {
  }

  lemma {:induction false} DeviceReached(cfg: Config, bus: byte, d: nat, depth: nat)
    requires d < 32 && Present(cfg, bus, d, 0)
    ensures AllReached(cfg, bus, DeviceSeq(cfg, bus, d, depth))
    decreases depth, 1, 9
  {
    hide FunctionSeq, FunctionsFrom, DeviceSeq, Present, Multi, AllReached, ReachedFrom, SingleFunction, HeaderType;
    DeviceStep(cfg, bus, d, depth);
    VisitedFirst(cfg, bus, d);
    FunctionReached(cfg, bus, d, 0, depth);
    var first := FunctionSeq(cfg, bus, d, 0, depth);
    if SingleFunction(HeaderType(cfg, bus, d, 0)) {
      ReachedConcat(cfg, bus, first, []);
    } else {
      FunctionsReached(cfg, bus, d, 1, depth);
      ReachedConcat(cfg, bus, first, FunctionsFrom(cfg, bus, d, 1, depth));
    }
  }

  lemma {:induction false} BusReached(cfg: Config, bus: byte, d: nat, depth: nat)
    requires d <= 32
    ensures AllReached(cfg, bus, BusFrom(cfg, bus, d, depth))
    decreases depth, 2, 32 - d
  {
    hide DeviceSeq, BusFrom, Present, AllReached, ReachedFrom;
    BusStep(cfg, bus, d, depth);
    if d < 32 {
      BusReached(cfg, bus, d + 1, depth);
      var rest := BusFrom(cfg, bus, d + 1, depth);
      if Present(cfg, bus, d, 0) {
        DeviceReached(cfg, bus, d, depth);
        ReachedConcat(cfg, bus, DeviceSeq(cfg, bus, d, depth), rest);
      } else {
        ReachedConcat(cfg, bus, [], rest);
      }
    } else {
      NothingReached(cfg, bus);
    }
  }

  lemma InFirstOrRest(e: Device, a: seq<Device>, b: seq<Device>, s: seq<Device>)
    requires s == a + b && e in s
    ensures e in a || e in b
  {
  }

  /** Whatever is in a list of hosts comes from the bus of one of them. */
  lemma {:induction false} HostsReached(cfg: Config, fn: nat, depth: nat, e: Device) returns (r: byte)
    requires 1 <= fn <= 8 && e in HostsFrom(cfg, fn, depth)
    ensures fn <= r < 8 && Present(cfg, 0, 0, r) && ReachedFrom(cfg, r, e)
    decreases 8 - fn
  {
    hide HostsFrom, BusFrom, Present, ReachedFrom;
    HostsStep(cfg, fn, depth);
    if fn == 8 {
      assert false;
    } else {
      var first := if Present(cfg, 0, 0, fn) then BusFrom(cfg, fn, 0, depth) else [];
      InFirstOrRest(e, first, HostsFrom(cfg, fn + 1, depth), HostsFrom(cfg, fn, depth));
      if e in first {
        BusReached(cfg, fn, 0, depth);
        r := fn;
      } else {
        r := HostsReached(cfg, fn + 1, depth, e);
      }
    }
  }

  predicate Part(a: seq<Device>, b: seq<Device>) { forall e | e in a :: e in b }

  lemma PartConcat(s: seq<Device>, a: seq<Device>, b: seq<Device>)
    requires Part(s, a) || Part(s, b)
    ensures Part(s, a + b)
  {
  }

  lemma PartTransitive(a: seq<Device>, b: seq<Device>, c: seq<Device>)
    requires Part(a, b) && Part(b, c)
    ensures Part(a, c)
  {
  }

  lemma {:induction false} InFunctions(cfg: Config, bus: byte, d: nat, from: nat, f: nat, depth: nat)
    requires d < 32 && from <= f < 8 && Present(cfg, bus, d, f)
    ensures Part(FunctionSeq(cfg, bus, d, f, depth), FunctionsFrom(cfg, bus, d, from, depth))
    decreases f - from
  {
    FunctionsStep(cfg, bus, d, from, depth);
    hide FunctionSeq, FunctionsFrom, Present, Part;
    var s, rest := FunctionSeq(cfg, bus, d, f, depth), FunctionsFrom(cfg, bus, d, from + 1, depth);
    if from < f {
      InFunctions(cfg, bus, d, from + 1, f, depth);
    } else {
      assert Part(s, s) by { WholeIsPart(s); }
    }
    PartConcat(s, if Present(cfg, bus, d, from) then FunctionSeq(cfg, bus, d, from, depth) else [], rest);
  }

  lemma WholeIsPart(s: seq<Device>)
    ensures Part(s, s)
  {
  }

  lemma InDevice(cfg: Config, bus: byte, d: nat, f: nat, depth: nat)
    requires Visited(cfg, bus, d, f)
    ensures Part(FunctionSeq(cfg, bus, d, f, depth), DeviceSeq(cfg, bus, d, depth))
  {
    DeviceStep(cfg, bus, d, depth);
    var s, first := FunctionSeq(cfg, bus, d, f, depth), FunctionSeq(cfg, bus, d, 0, depth);
    WholeIsPart(s);
    if f > 0 {
      InFunctions(cfg, bus, d, 1, f, depth);
    }
    hide FunctionSeq, FunctionsFrom, DeviceSeq, Present, Part, HeaderType;
    PartConcat(s, first,
               if SingleFunction(HeaderType(cfg, bus, d, 0)) then [] else FunctionsFrom(cfg, bus, d, 1, depth));
  }

  lemma {:induction false} InBus(cfg: Config, bus: byte, from: nat, d: nat, depth: nat)
    requires from <= d < 32 && Present(cfg, bus, d, 0)
    ensures Part(DeviceSeq(cfg, bus, d, depth), BusFrom(cfg, bus, from, depth))
    decreases d - from
  {
    BusStep(cfg, bus, from, depth);
    hide DeviceSeq, BusFrom, Present, Part;
    var s := DeviceSeq(cfg, bus, d, depth);
    if from < d {
      InBus(cfg, bus, from + 1, d, depth);
    } else {
      WholeIsPart(s);
    }
    PartConcat(s, if Present(cfg, bus, from, 0) then DeviceSeq(cfg, bus, from, depth) else [],
               BusFrom(cfg, bus, from + 1, depth));
  }

  /** A function that is visited is in the list of its bus, with all that is behind it. */
  lemma VisitedIn(cfg: Config, bus: byte, d: nat, f: nat, depth: nat)
    requires Visited(cfg, bus, d, f)
    ensures Part(FunctionSeq(cfg, bus, d, f, depth), BusFrom(cfg, bus, 0, depth))
  {
    assert Present(cfg, bus, d, 0);
    InDevice(cfg, bus, d, f, depth);
    InBus(cfg, bus, 0, d, depth);
    PartTransitive(FunctionSeq(cfg, bus, d, f, depth), DeviceSeq(cfg, bus, d, depth), BusFrom(cfg, bus, 0, depth));
    hide *;
  }

  lemma BehindIn(cfg: Config, bus: byte, d: nat, f: nat, m: nat)
    requires Bridge(cfg, bus, d, f)
    ensures Part(BusFrom(cfg, Behind(cfg, bus, d, f), 0, m), BusFrom(cfg, bus, 0, m + 1))
  {
    VisitedIn(cfg, bus, d, f, m + 1);
    var rest := BusFrom(cfg, Behind(cfg, bus, d, f), 0, m);
    assert FunctionSeq(cfg, bus, d, f, m + 1) == [DeviceAt(cfg, bus, d, f)] + rest;
    hide BusFrom, FunctionSeq, DeviceAt, Part;
    WholeIsPart(rest);
    PartConcat(rest, [DeviceAt(cfg, bus, d, f)], rest);
    PartTransitive(rest, FunctionSeq(cfg, bus, d, f, m + 1), BusFrom(cfg, bus, 0, m + 1));
  }

  lemma {:induction false} ReachedIn(cfg: Config, from: byte, to: byte, k: nat, m: nat)
    requires Reaches(cfg, from, to, k)
    ensures Part(BusFrom(cfg, to, 0, m), BusFrom(cfg, from, 0, m + k))
    decreases k
  {
    hide Bridge, Behind, BusFrom, Part;
    if k == 0 {
      WholeIsPart(BusFrom(cfg, to, 0, m));
    } else {
      var b, d, f :| Bridge(cfg, b, d, f) && Behind(cfg, b, d, f) == to && Reaches(cfg, from, b, k - 1);
      BehindIn(cfg, b, d, f, m);
      ReachedIn(cfg, from, b, k - 1, m + 1);
      PartTransitive(BusFrom(cfg, to, 0, m), BusFrom(cfg, b, 0, m + 1), BusFrom(cfg, from, 0, m + k));
    }
  }

  lemma {:induction false} HostIn(cfg: Config, from: nat, r: nat, depth: nat)
    requires 1 <= from <= r < 8 && Present(cfg, 0, 0, r)
    ensures Part(BusFrom(cfg, r, 0, depth), HostsFrom(cfg, from, depth))
    decreases r - from
  {
    HostsStep(cfg, from, depth);
    hide HostsFrom, BusFrom, Present, Part;
    if from < r {
      HostIn(cfg, from + 1, r, depth);
    } else {
      WholeIsPart(BusFrom(cfg, r, 0, depth));
    }
    PartConcat(BusFrom(cfg, r, 0, depth), if Present(cfg, 0, 0, from) then BusFrom(cfg, from, 0, depth) else [],
               HostsFrom(cfg, from + 1, depth));
  }

  lemma RootIn(cfg: Config, r: byte, depth: nat)
    requires Root(cfg, r)
    ensures Part(BusFrom(cfg, r, 0, depth), AllSeq(cfg, depth))
  {
    hide BusFrom, HostsFrom, Part, Present, HeaderType;
    if SingleFunction(HeaderType(cfg, 0, 0, 0)) {
      WholeIsPart(BusFrom(cfg, r, 0, depth));
    } else {
      HostIn(cfg, 1, r, depth);
    }
  }

  lemma AllFromRoots(cfg: Config, depth: nat, e: Device) returns (r: byte)
    requires e in AllSeq(cfg, depth)
    ensures Root(cfg, r) && ReachedFrom(cfg, r, e)
  {
    hide BusFrom, HostsFrom, Present, HeaderType, ReachedFrom;
    if SingleFunction(HeaderType(cfg, 0, 0, 0)) {
      BusReached(cfg, 0, 0, depth);
      r := 0;
    } else {
      r := HostsReached(cfg, 1, depth, e);
    }
  }

  /** Does the scan come to this bus, from one it starts with and through any number of bridges? */
  ghost predicate Scanned(cfg: Config, bus: byte) {
    exists r: byte, k :: Root(cfg, r) && Reaches(cfg, r, bus, k)
  }

  /** Is a function in the preorder, if that is followed far enough? */
  ghost predicate Listed(cfg: Config, bus: byte, d: nat, f: nat) {
    exists depth: nat, e :: e in AllSeq(cfg, depth) && e.bus == bus && e.device == d && e.fn == f
  }

  /** The scan lists exactly the functions it visits on the buses it comes to. */
  lemma ListedExactly(cfg: Config, bus: byte, d: nat, f: nat)
    ensures Listed(cfg, bus, d, f) <==> Scanned(cfg, bus) && Visited(cfg, bus, d, f)
  {
    if Listed(cfg, bus, d, f) {
      var depth: nat, e :| e in AllSeq(cfg, depth) && e.bus == bus && e.device == d && e.fn == f;
      var r := AllFromRoots(cfg, depth, e);
      hide Root, Reaches, Visited, AllSeq;
    }
    if Scanned(cfg, bus) && Visited(cfg, bus, d, f) {
      ScannedIsListed(cfg, bus, d, f);
    }
  }

  lemma FirstIsIn(cfg: Config, bus: byte, d: nat, f: nat) returns (e: Device)
    requires Visited(cfg, bus, d, f)
    ensures e in FunctionSeq(cfg, bus, d, f, 0) && e.bus == bus && e.device == d && e.fn == f
  {
    e := DeviceAt(cfg, bus, d, f);
  }

  lemma PartHas(a: seq<Device>, b: seq<Device>, e: Device)
    requires Part(a, b) && e in a
    ensures e in b
  {
  }

  lemma ScannedIsListed(cfg: Config, bus: byte, d: nat, f: nat)
    requires Scanned(cfg, bus) && Visited(cfg, bus, d, f)
    ensures Listed(cfg, bus, d, f)
  {
    hide Root, Reaches, AllSeq, BusFrom, FunctionSeq, Part, Present, Multi;
    var r: byte, k: nat :| Root(cfg, r) && Reaches(cfg, r, bus, k);
    var e := FirstIsIn(cfg, bus, d, f);
    VisitedIn(cfg, bus, d, f, 0);
    PartHas(FunctionSeq(cfg, bus, d, f, 0), BusFrom(cfg, bus, 0, 0), e);
    ReachedIn(cfg, r, bus, k, 0);
    PartHas(BusFrom(cfg, bus, 0, 0), BusFrom(cfg, r, 0, k), e);
    RootIn(cfg, r, k);
    PartHas(BusFrom(cfg, r, 0, k), AllSeq(cfg, k), e);
  }

  // ---- multi-function host bridges

  /** The loop over the functions of a multi-function host bridge starts with function 1. So functions of
      bus 0, the host bridge itself included, are listed if and only if there is a device on bus 0 and
      some bridge on or behind the buses 1 to 7 leads back to it. */
  lemma BusZeroIsMissed(cfg: Config)
    requires !SingleFunction(HeaderType(cfg, 0, 0, 0))
    ensures (exists d, f :: Listed(cfg, 0, d, f))
            <==> (exists d :: d < 32 && Present(cfg, 0, d, 0))
                 && exists r: byte, k: nat :: 1 <= r < 8 && Present(cfg, 0, 0, r) && Reaches(cfg, r, 0, k)
  {
    hide Listed, Present, HeaderType, SingleFunction, Reaches, Scanned;
    OtherRoots(cfg);
    if d, f :| Listed(cfg, 0, d, f) {
      ListedExactly(cfg, 0, d, f);
      VisitedPresent(cfg, 0, d, f);
    }
    if Scanned(cfg, 0) {
      if d: nat :| d < 32 && Present(cfg, 0, d, 0) {
        VisitedFirst(cfg, 0, d);
        ListedExactly(cfg, 0, d, 0);
      }
    }
  }

  lemma VisitedPresent(cfg: Config, bus: byte, d: nat, f: nat)
    requires Visited(cfg, bus, d, f)
    ensures d < 32 && Present(cfg, bus, d, 0)
  {
  }

  lemma OtherRoots(cfg: Config)
    requires !SingleFunction(HeaderType(cfg, 0, 0, 0))
    ensures Scanned(cfg, 0)
            <==> exists r: byte, k: nat :: 1 <= r < 8 && Present(cfg, 0, 0, r) && Reaches(cfg, r, 0, k)
  {
    hide Present, HeaderType, SingleFunction, Reaches;
    if Scanned(cfg, 0) {
      var r: byte, k: nat :| Root(cfg, r) && Reaches(cfg, r, 0, k);
      assert 1 <= r < 8 && Present(cfg, 0, 0, r) && Reaches(cfg, r, 0, k);
    } else {
      forall r: byte, k: nat | 1 <= r < 8 && Present(cfg, 0, 0, r) ensures !Reaches(cfg, r, 0, k) {
        assert Root(cfg, r);
      }
    }
  }

  /** Then no table has an entry of bus 0. */
  lemma TableMissesBusZero(cfg: Config, depth: nat, table: seq<Device>, full: bool)
    requires Filled(AllSeq(cfg, depth), table, full) && !Scanned(cfg, 0)
    ensures forall i | 0 <= i < |table| :: table[i].bus != 0
  {
    hide AllSeq, Scanned;
    forall i | 0 <= i < |table| ensures table[i].bus != 0 {
      var e := table[i];
      assert e in AllSeq(cfg, depth);
      ListedExactly(cfg, e.bus, e.device, e.fn);
    }
  }

  /** With a single-function host bridge the first function of bus 0 that is present comes first. */
  lemma HostComesFirst(cfg: Config, depth: nat, table: seq<Device>, full: bool)
    requires SingleFunction(HeaderType(cfg, 0, 0, 0)) && Present(cfg, 0, 0, 0)
    requires Filled(AllSeq(cfg, depth), table, full)
    ensures table != [] && table[0] == DeviceAt(cfg, 0, 0, 0)
  {
    BusStep(cfg, 0, 0, depth);
    DeviceStep(cfg, 0, 0, depth);
    assert FunctionSeq(cfg, 0, 0, 0, depth)[0] == DeviceAt(cfg, 0, 0, 0);
    hide BusFrom, DeviceSeq, FunctionSeq, FunctionsFrom, DeviceAt, HeaderType;
  }
}
