/** The boot loader's ELF segment loading (MikanLoaderPkg/Main.c): address range, page count, copying
    and the entry point. */
module ElfLoader {

  type byte = x: nat | x < 0x100

  const WORD := 0x1_0000_0000_0000_0000
  const MAX_UINT64 := 0xffff_ffff_ffff_ffff
  const PT_LOAD := 1

  /** Sizes of Elf64_Ehdr and Elf64_Phdr, and the offset of e_entry. */
  const EHDR := 64
  const PHDR := 56
  const E_ENTRY := 24

  /** n little-endian bytes. */
  function Le(s: seq<byte>, at: nat, n: nat): nat
    requires at + n <= |s|
    decreases n
  {
    if n == 0 then 0 else s[at] + 0x100 * Le(s, at + 1, n - 1)
  }

  /** A program header: p_type, p_offset, p_vaddr, p_filesz, p_memsz. */
  datatype Segment = Segment(ty: nat, offset: nat, vaddr: nat, filesz: nat, memsz: nat)

  function PhOff(file: seq<byte>): nat
    requires |file| >= EHDR
  {
    Le(file, 32, 8)
  }

  function PhNum(file: seq<byte>): nat
    requires |file| >= EHDR
  {
    Le(file, 56, 2)
  }

  function Entry(file: seq<byte>): nat
    requires |file| >= EHDR
  {
    Le(file, E_ENTRY, 8)
  }

  /** The program headers lie within the file. */
  predicate HasHeaders(file: seq<byte>) {
    |file| >= EHDR && PhOff(file) + PHDR * PhNum(file) <= |file|
  }

  /** The program header at an offset. */
  function HeaderAt(file: seq<byte>, at: nat): Segment
    requires at + PHDR <= |file|
  {
    Segment(Le(file, at, 4), Le(file, at + 8, 8), Le(file, at + 16, 8), Le(file, at + 32, 8), Le(file, at + 40, 8))
  }

  lemma HeaderFits(file: seq<byte>, i: nat)
    requires HasHeaders(file) && i < PhNum(file)
    ensures PhOff(file) + PHDR * i + PHDR <= |file|
  {
    hide Le;
    assert PHDR * (i + 1) <= PHDR * PhNum(file);
  }

  function ProgramHeader(file: seq<byte>, i: nat): Segment
    requires HasHeaders(file) && i < PhNum(file)
  {
    HeaderFits(file, i);
    HeaderAt(file, PhOff(file) + PHDR * i)
  }

  /** The program header table. */
  function Table(file: seq<byte>): (ts: seq<Segment>)
    requires HasHeaders(file)
    ensures |ts| == PhNum(file) && forall i | 0 <= i < |ts| :: ts[i] == ProgramHeader(file, i)
  {
    hide Le;
    seq(PhNum(file), i requires 0 <= i < PhNum(file) => ProgramHeader(file, i))
  }

  predicate Loads(s: Segment) { s.ty == PT_LOAD }

  /** A segment's bytes are in a file of this size, and its addresses exist. */
  predicate SegmentOk(s: Segment, size: nat, memory: nat) {
    s.offset + s.filesz <= size && s.filesz <= s.memsz && s.vaddr + s.memsz <= memory
  }

  predicate Loadable(ts: seq<Segment>, size: nat, memory: nat) {
    memory < WORD - 0x1000 && forall i | 0 <= i < |ts| && Loads(ts[i]) :: SegmentOk(ts[i], size, memory)
  }

  predicate Covers(s: Segment, a: nat) { s.vaddr <= a < s.vaddr + s.memsz }

  // ---- address range

  function First(ts: seq<Segment>): nat {
    if ts == [] then MAX_UINT64
    else
      var f, s := First(ts[..|ts| - 1]), ts[|ts| - 1];
      if Loads(s) && s.vaddr <= f then s.vaddr else f
  }

  function Last(ts: seq<Segment>): nat {
    if ts == [] then 0
    else
      var l, s := Last(ts[..|ts| - 1]), ts[|ts| - 1];
      if Loads(s) && l <= (s.vaddr + s.memsz) % WORD then (s.vaddr + s.memsz) % WORD else l
  }

  method CalcLoadAddressRange(file: seq<byte>) returns (first: nat, last: nat)
    requires HasHeaders(file)
    ensures first == First(Table(file)) && last == Last(Table(file))
  {
    hide Le, HeaderAt;
    first, last := MAX_UINT64, 0;
    ghost var ts := Table(file);
    for i := 0 to PhNum(file)
      invariant first == First(ts[..i]) && last == Last(ts[..i])
    {
      assert ts[..i + 1][..i] == ts[..i];
      var phdr := ProgramHeader(file, i);
      if phdr.ty != PT_LOAD {
        continue;
      }
      first := if first < phdr.vaddr then first else phdr.vaddr;
      var end := (phdr.vaddr + phdr.memsz) % WORD;
      last := if last > end then last else end;
    }
    assert ts[..PhNum(file)] == ts;
  }

  /** The number of pages allocated from the first address on, in 64-bit arithmetic. */
  function NumPages(first: nat, last: nat): nat
    requires first < WORD && last < WORD
  {
    (last - first + 0xfff) % WORD / 0x1000
  }

  /** First and last are the exact bounds of the segments that are loaded. */
  lemma {:induction false} RangeIsTight(ts: seq<Segment>, size: nat, memory: nat)
    requires Loadable(ts, size, memory)
    ensures First(ts) <= MAX_UINT64 && Last(ts) <= memory
    ensures forall i | 0 <= i < |ts| && Loads(ts[i]) ::
              First(ts) <= ts[i].vaddr && ts[i].vaddr + ts[i].memsz <= Last(ts)
    ensures (forall i | 0 <= i < |ts| :: !Loads(ts[i]))
            || (exists i, j | 0 <= i < |ts| && 0 <= j < |ts| :: Loads(ts[i]) && Loads(ts[j])
                  && ts[i].vaddr == First(ts) && ts[j].vaddr + ts[j].memsz == Last(ts))
    decreases |ts|
  {
    if ts != [] {
      var n := |ts| - 1;
      RangeIsTight(ts[..n], size, memory);
      assert Loads(ts[n]) ==> SegmentOk(ts[n], size, memory);
      assert Loads(ts[n]) ==> (ts[n].vaddr + ts[n].memsz) % WORD == ts[n].vaddr + ts[n].memsz;
      if forall i | 0 <= i < n :: !Loads(ts[..n][i]) {
        NothingToLoad(ts[..n]);
        assert Loads(ts[n]) ==> ts[n].vaddr == First(ts) && ts[n].vaddr + ts[n].memsz == Last(ts);
      } else {
        var i, j :| 0 <= i < n && 0 <= j < n && Loads(ts[..n][i]) && Loads(ts[..n][j])
                    && ts[..n][i].vaddr == First(ts[..n]) && ts[..n][j].vaddr + ts[..n][j].memsz == Last(ts[..n]);
        var i' := if First(ts) == First(ts[..n]) then i else n;
        var j' := if Last(ts) == Last(ts[..n]) then j else n;
        assert Loads(ts[i']) && Loads(ts[j']) && ts[i'].vaddr == First(ts) && ts[j'].vaddr + ts[j'].memsz == Last(ts);
      }
    }
  }

  // ---- copying

  /** A byte of memory after the program headers of a table have been processed. */
  function ByteAfter(file: seq<byte>, before: byte, a: nat, ts: seq<Segment>): byte
    requires forall i | 0 <= i < |ts| && Loads(ts[i]) :: ts[i].offset + ts[i].filesz <= |file|
  {
    if ts == [] then before
    else
      var s := ts[|ts| - 1];
      if Loads(s) && Covers(s, a) then Image(file, s, a) else ByteAfter(file, before, a, ts[..|ts| - 1])
  }

  /** The byte a segment stands for at one of its addresses: of the file, or zero in the remainder. */
  function Image(file: seq<byte>, s: Segment, a: nat): byte
    requires Covers(s, a) && s.offset + s.filesz <= |file|
  {
    if a < s.vaddr + s.filesz then file[s.offset + (a - s.vaddr)] else 0
  }

  method CopyMem(mem: array<byte>, dst: nat, file: seq<byte>, src: nat, n: nat)
    requires dst + n <= mem.Length && src + n <= |file|
    modifies mem
    ensures forall a | 0 <= a < mem.Length :: mem[a]
              == if dst <= a < dst + n then file[src + (a - dst)] else old(mem[a])
  {
    for k := 0 to n
      invariant forall a | 0 <= a < mem.Length ::
                  mem[a] == if dst <= a < dst + k then file[src + (a - dst)] else old(mem[a])
    {
      mem[dst + k] := file[src + k];
    }
  }

  method SetMem(mem: array<byte>, dst: nat, n: nat, value: byte)
    requires dst + n <= mem.Length
    modifies mem
    ensures forall a | 0 <= a < mem.Length :: mem[a] == if dst <= a < dst + n then value else old(mem[a])
  {
    for k := 0 to n
      invariant forall a | 0 <= a < mem.Length :: mem[a] == if dst <= a < dst + k then value else old(mem[a])
    {
      mem[dst + k] := value;
    }
  }

  /** Physical memory is `mem`; the file has been read into memory that no segment overlaps. */
  method CopyLoadSegments(file: seq<byte>, mem: array<byte>)
    requires HasHeaders(file) && Loadable(Table(file), |file|, mem.Length)
    modifies mem
    ensures forall a | 0 <= a < mem.Length :: mem[a] == ByteAfter(file, old(mem[a]), a, Table(file))
  {
    hide Le, HeaderAt;
    ghost var ts := Table(file);
    for i := 0 to PhNum(file)
      invariant forall a | 0 <= a < mem.Length :: mem[a] == ByteAfter(file, old(mem[a]), a, ts[..i])
    {
      assert ts[..i + 1][..i] == ts[..i];
      var phdr := ProgramHeader(file, i);
      if phdr.ty != PT_LOAD {
        continue;
      }
      assert SegmentOk(ts[i], |file|, mem.Length);
      CopyMem(mem, phdr.vaddr, file, phdr.offset, phdr.filesz);
      var remainBytes := phdr.memsz - phdr.filesz;
      SetMem(mem, phdr.vaddr + phdr.filesz, remainBytes, 0);
    }
    assert ts[..PhNum(file)] == ts;
  }

  // ---- what loading achieves

  predicate Disjoint(ts: seq<Segment>) {
    forall i, j | 0 <= i < j < |ts| && Loads(ts[i]) && Loads(ts[j]) ::
      ts[i].vaddr + ts[i].memsz <= ts[j].vaddr || ts[j].vaddr + ts[j].memsz <= ts[i].vaddr
  }

  lemma {:induction false} OnlyCoveredChange(file: seq<byte>, memory: nat, before: byte, a: nat, ts: seq<Segment>)
    requires Loadable(ts, |file|, memory)
    requires forall i | 0 <= i < |ts| && Loads(ts[i]) :: !Covers(ts[i], a)
    ensures ByteAfter(file, before, a, ts) == before
    decreases |ts|
  {
    if ts != [] {
      OnlyCoveredChange(file, memory, before, a, ts[..|ts| - 1]);
    }
  }

  lemma {:induction false} CoveredIsImage(file: seq<byte>, memory: nat, before: byte, a: nat, ts: seq<Segment>, i: nat)
    requires Loadable(ts, |file|, memory) && Disjoint(ts) && i < |ts|
    requires Loads(ts[i]) && Covers(ts[i], a)
    ensures SegmentOk(ts[i], |file|, memory) && ByteAfter(file, before, a, ts) == Image(file, ts[i], a)
    decreases |ts|
  {
    if i < |ts| - 1 {
      assert !(Loads(ts[|ts| - 1]) && Covers(ts[|ts| - 1], a));
      CoveredIsImage(file, memory, before, a, ts[..|ts| - 1], i);
    }
  }

  lemma CoveredIsInPages(ts: seq<Segment>, size: nat, memory: nat, a: nat, i: nat)
    requires Loadable(ts, size, memory) && i < |ts| && Loads(ts[i]) && Covers(ts[i], a)
    ensures First(ts) < WORD && Last(ts) < WORD
    ensures First(ts) <= a < First(ts) + 0x1000 * NumPages(First(ts), Last(ts))
  {
    RangeIsTight(ts, size, memory);
    hide First, Last, NumPages;
    PagesCover(First(ts), Last(ts));
  }

  /** Main theorem: of disjoint segments, memory holds the file's bytes on each file part, zeros on
      each remainder, and is unchanged elsewhere; all of it lies in the pages allocated. */
  lemma LoadIsExact(file: seq<byte>, memory: nat, before: byte, a: nat, ts: seq<Segment>)
    requires Loadable(ts, |file|, memory) && Disjoint(ts)
    ensures First(ts) < WORD && Last(ts) < WORD
    ensures forall i | 0 <= i < |ts| && Loads(ts[i]) && Covers(ts[i], a) ::
              && SegmentOk(ts[i], |file|, memory)
              && ByteAfter(file, before, a, ts) == Image(file, ts[i], a)
              && First(ts) <= a < First(ts) + 0x1000 * NumPages(First(ts), Last(ts))
    ensures (forall i | 0 <= i < |ts| && Loads(ts[i]) :: !Covers(ts[i], a)) ==> ByteAfter(file, before, a, ts) == before
  {
    RangeIsTight(ts, |file|, memory);
    hide First, Last, NumPages, Image;
    forall i | 0 <= i < |ts| && Loads(ts[i]) && Covers(ts[i], a)
      ensures SegmentOk(ts[i], |file|, memory) && ByteAfter(file, before, a, ts) == Image(file, ts[i], a)
      ensures First(ts) <= a < First(ts) + 0x1000 * NumPages(First(ts), Last(ts))
    {
      CoveredIsImage(file, memory, before, a, ts, i);
      CoveredIsInPages(ts, |file|, memory, a, i);
    }
    if forall i | 0 <= i < |ts| && Loads(ts[i]) :: !Covers(ts[i], a) {
      OnlyCoveredChange(file, memory, before, a, ts);
    }
  }

  /** The pages reach the last address, and one less would not. */
  lemma PagesCover(first: nat, last: nat)
    requires first <= last < WORD - 0x1000
    ensures last <= first + 0x1000 * NumPages(first, last) < last + 0x1000
  {
    var d := last - first + 0xfff;
    assert d % WORD == d;
  }

  /** The word the loader jumps to is what the file has 24 bytes into the lowest segment: the entry
      point of the ELF header if that segment starts with the header. */
  lemma EntryIsFound(file: seq<byte>, mem: seq<byte>, before: seq<byte>, ts: seq<Segment>, i: nat)
    requires |file| >= EHDR && |mem| == |before| && Loadable(ts, |file|, |mem|) && Disjoint(ts)
    requires forall a | 0 <= a < |mem| :: mem[a] == ByteAfter(file, before[a], a, ts)
    requires i < |ts| && Loads(ts[i]) && ts[i].vaddr == First(ts) && ts[i].filesz >= E_ENTRY + 8
    ensures First(ts) + E_ENTRY + 8 <= |mem| && ts[i].offset + E_ENTRY + 8 <= |file|
    ensures Le(mem, First(ts) + E_ENTRY, 8) == Le(file, ts[i].offset + E_ENTRY, 8)
    ensures ts[i].offset == 0 ==> Le(mem, First(ts) + E_ENTRY, 8) == Entry(file)
  {
    hide First, Le, ByteAfter, Covers, Image;
    var s := ts[i];
    assert SegmentOk(s, |file|, |mem|);
    forall a | s.vaddr <= a < s.vaddr + s.filesz ensures mem[a] == file[s.offset + (a - s.vaddr)] {
      FileByte(file, |mem|, before[a], a, ts, i);
    }
    hide *;
    SameWindow(mem, s.vaddr, file, s.offset, s.filesz, E_ENTRY, 8);
    SameBytes(mem, s.vaddr + E_ENTRY, file, s.offset + E_ENTRY, 8);
    EntryWord(file);
  }

  lemma EntryWord(file: seq<byte>)
    requires |file| >= EHDR
    ensures E_ENTRY + 8 <= |file| && Entry(file) == Le(file, E_ENTRY, 8)
  {
    hide Le;
  }

  /** A byte of a segment's file part. */
  lemma FileByte(file: seq<byte>, memory: nat, before: byte, a: nat, ts: seq<Segment>, i: nat)
    requires Loadable(ts, |file|, memory) && Disjoint(ts) && i < |ts| && Loads(ts[i])
    requires ts[i].vaddr <= a < ts[i].vaddr + ts[i].filesz
    ensures SegmentOk(ts[i], |file|, memory) && ByteAfter(file, before, a, ts) == file[ts[i].offset + (a - ts[i].vaddr)]
  {
    assert SegmentOk(ts[i], |file|, memory);
    CoveredIsImage(file, memory, before, a, ts, i);
    hide ByteAfter;
  }

  lemma SameWindow(s: seq<byte>, i: nat, t: seq<byte>, j: nat, n: nat, at: nat, k: nat)
    requires i + n <= |s| && j + n <= |t| && at + k <= n
    requires forall a | i <= a < i + n :: s[a] == t[j + (a - i)]
    ensures s[i + at..i + at + k] == t[j + at..j + at + k]
  {
    var u, v := s[i + at..i + at + k], t[j + at..j + at + k];
    forall b | 0 <= b < k ensures u[b] == v[b] {
      assert s[i + at + b] == t[j + (i + at + b - i)];
    }
  }

  lemma {:induction false} SameBytes(s: seq<byte>, i: nat, t: seq<byte>, j: nat, n: nat)
    requires i + n <= |s| && j + n <= |t| && s[i..i + n] == t[j..j + n]
    ensures Le(s, i, n) == Le(t, j, n)
    decreases n
  {
    if n > 0 {
      assert s[i] == s[i..i + n][0] && t[j] == t[j..j + n][0];
      assert s[i + 1..i + n] == s[i..i + n][1..] && t[j + 1..j + n] == t[j..j + n][1..];
      SameBytes(s, i + 1, t, j + 1, n - 1);
    }
  }

  /** Without a segment to load the range is the wrong way round, and the subtraction wraps to one
      page at the very last address. */
  lemma {:induction false} NothingToLoad(ts: seq<Segment>)
    requires forall i | 0 <= i < |ts| :: !Loads(ts[i])
    ensures First(ts) == MAX_UINT64 && Last(ts) == 0 && NumPages(First(ts), Last(ts)) == 1
    decreases |ts|
  {
    if ts != [] {
      NothingToLoad(ts[..|ts| - 1]);
    }
  }
}
