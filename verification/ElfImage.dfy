/** An ELF file as written, field by field in the order of Elf64_Ehdr and Elf64_Phdr (MikanLoaderPkg/elf.hpp),
    and what the boot loader reads of it and leaves in memory. */
module ElfImage {
  import opened ElfLoader

  /** A field of so many bytes. */
  datatype Field = Field(width: nat, value: nat)

  function LeBytes(v: nat, n: nat): (s: seq<byte>)
    ensures |s| == n
    decreases n
  {
    if n == 0 then [] else [v % 0x100] + LeBytes(v / 0x100, n - 1)
  }

  /** The fields one after another. */
  function Write(fs: seq<Field>): (s: seq<byte>)
    ensures |s| == Width(fs)
    decreases |fs|
  {
    if fs == [] then [] else LeBytes(fs[0].value, fs[0].width) + Write(fs[1..])
  }

  function Width(fs: seq<Field>): nat
    decreases |fs|
  {
    if fs == [] then 0 else fs[0].width + Width(fs[1..])
  }

  function Power256(n: nat): nat { if n == 0 then 1 else 0x100 * Power256(n - 1) }

  lemma {:induction false} ValueReadsBack(file: seq<byte>, at: nat, v: nat, n: nat)
    requires at + n <= |file| && file[at..at + n] == LeBytes(v, n) && v < Power256(n)
    ensures Le(file, at, n) == v
    decreases n
  {
    if n > 0 {
      var s := file[at..at + n];
      assert s[0] == file[at] && s[1..] == file[at + 1..at + n];
      ValueReadsBack(file, at + 1, v / 0x100, n - 1);
    }
  }

  /** A field is read back at the sum of the widths before it. */
  lemma {:induction false} FieldReadsBack(file: seq<byte>, at: nat, fs: seq<Field>, k: nat)
    requires at + Width(fs) <= |file| && file[at..at + Width(fs)] == Write(fs)
    requires k < |fs| && fs[k].value < Power256(fs[k].width)
    ensures at + Width(fs[..k]) + fs[k].width <= |file|
    ensures Le(file, at + Width(fs[..k]), fs[k].width) == fs[k].value
    decreases k
  {
    hide Power256, Le, LeBytes;
    var w, s := fs[0].width, file[at..at + Width(fs)];
    assert s[..w] == LeBytes(fs[0].value, w) && s[w..] == Write(fs[1..]);
    assert s[..w] == file[at..at + w];
    assert s[w..] == file[at + w..at + w + Width(fs[1..])];
    if k == 0 {
      ValueReadsBack(file, at, fs[0].value, w);
    } else {
      FieldReadsBack(file, at + w, fs[1..], k - 1);
      assert fs[..k][0] == fs[0] && fs[..k][1..] == fs[1..][..k - 1];
    }
  }

  // ---- program headers

  datatype Phdr = Phdr(ty: nat, flags: nat, offset: nat, vaddr: nat, paddr: nat, filesz: nat, memsz: nat, align: nat)

  function PhdrFields(p: Phdr): seq<Field> {
    [Field(4, p.ty), Field(4, p.flags), Field(8, p.offset), Field(8, p.vaddr), Field(8, p.paddr), Field(8, p.filesz),
     Field(8, p.memsz), Field(8, p.align)]
  }

  /** The values fit. */
  predicate Fits(fs: seq<Field>) { forall k | 0 <= k < |fs| :: fs[k].value < Power256(fs[k].width) }

  lemma {:induction false} WidthSum(fs: seq<Field>, k: nat)
    requires k < |fs|
    ensures Width(fs[..k + 1]) == Width(fs[..k]) + fs[k].width
    decreases k
  {
    assert fs[..k + 1][0] == fs[0];
    assert fs[..k + 1][1..] == fs[1..][..k];
    if k > 0 {
      assert fs[..k][1..] == fs[1..][..k - 1];
      WidthSum(fs[1..], k - 1);
    }
  }

  lemma PhdrOffsets(p: Phdr)
    ensures var fs := PhdrFields(p);
      && Width(fs[..0]) == 0 && Width(fs[..2]) == 8 && Width(fs[..3]) == 16 && Width(fs[..5]) == 32
      && Width(fs[..6]) == 40 && Width(fs) == 56
  {
    var fs := PhdrFields(p);
    assert fs[..8] == fs;
    for k := 0 to 8
      invariant forall j | 0 <= j <= k :: Width(fs[..j]) == if j <= 2 then 4 * j else 8 * j - 8
    {
      WidthSum(fs, k);
    }
  }

  /** This program header is written there. */
  ghost predicate HasPhdr(file: seq<byte>, at: nat, p: Phdr) {
    at + 56 <= |file| && Fits(PhdrFields(p)) && file[at..at + 56] == Write(PhdrFields(p))
  }

  /** The loader reads a program header as it was written. */
  lemma PhdrReadsBack(file: seq<byte>, at: nat, p: Phdr)
    requires HasPhdr(file, at, p)
    ensures HeaderAt(file, at) == Segment(p.ty, p.offset, p.vaddr, p.filesz, p.memsz)
  {
    var fs := PhdrFields(p);
    PhdrOffsets(p);
    hide Le, Write, Width, Power256;
    FieldReadsBack(file, at, fs, 0);
    FieldReadsBack(file, at, fs, 2);
    FieldReadsBack(file, at, fs, 3);
    FieldReadsBack(file, at, fs, 5);
    FieldReadsBack(file, at, fs, 6);
  }

  // ---- the ELF header

  datatype Ehdr = Ehdr(ident: nat, ty: nat, machine: nat, version: nat, entry: nat, phoff: nat, shoff: nat, flags: nat,
                       ehsize: nat, phentsize: nat, phnum: nat, shentsize: nat, shnum: nat, shstrndx: nat)

  function EhdrFields(e: Ehdr): seq<Field> {
    [Field(16, e.ident), Field(2, e.ty), Field(2, e.machine), Field(4, e.version), Field(8, e.entry), Field(8, e.phoff),
     Field(8, e.shoff), Field(4, e.flags), Field(2, e.ehsize), Field(2, e.phentsize), Field(2, e.phnum),
     Field(2, e.shentsize), Field(2, e.shnum), Field(2, e.shstrndx)]
  }

  lemma EhdrOffsets(e: Ehdr)
    ensures var fs := EhdrFields(e);
      Width(fs[..4]) == 24 && Width(fs[..5]) == 32 && Width(fs[..10]) == 56 && Width(fs) == 64
  {
    var fs := EhdrFields(e);
    assert fs[..14] == fs && Width(fs[..0]) == 0;
    hide Width;
    for k := 0 to 14
      invariant forall j | 0 <= j <= k ::
                  Width(fs[..j]) == (if j == 0 then 0 else if j <= 2 then 14 + 2 * j else if j == 3 then 20
                                     else if j <= 7 then 8 * j - 8 else 36 + 2 * j)
    {
      WidthSum(fs, k);
    }
  }

  lemma EhdrReadsBack(file: seq<byte>, e: Ehdr)
    requires 64 <= |file| && Width(EhdrFields(e)) == 64 && file[..64] == Write(EhdrFields(e)) && Fits(EhdrFields(e))
    ensures Entry(file) == e.entry && PhOff(file) == e.phoff && PhNum(file) == e.phnum
  {
    var fs := EhdrFields(e);
    EhdrOffsets(e);
    hide Le, Write, Width, Power256;
    assert file[0..64] == file[..64];
    FieldReadsBack(file, 0, fs, 4);
    FieldReadsBack(file, 0, fs, 5);
    FieldReadsBack(file, 0, fs, 10);
  }

  // ---- the file

  /** A file that begins with this ELF header and has these program headers at e_phoff. */
  ghost predicate IsElf(file: seq<byte>, e: Ehdr, ps: seq<Phdr>) {
    && |file| >= 64 && Fits(EhdrFields(e)) && file[..64] == Write(EhdrFields(e))
    && |ps| == e.phnum && e.phoff + 56 * |ps| <= |file|
    && forall i | 0 <= i < |ps| :: HasPhdr(file, e.phoff + 56 * i, ps[i])
  }

  function SegmentOf(p: Phdr): Segment { Segment(p.ty, p.offset, p.vaddr, p.filesz, p.memsz) }

  function Segments(ps: seq<Phdr>): (ts: seq<Segment>)
    ensures |ts| == |ps| && forall i | 0 <= i < |ts| :: ts[i] == SegmentOf(ps[i])
  {
    seq(|ps|, i requires 0 <= i < |ps| => SegmentOf(ps[i]))
  }

  /** The loader sees the entry point and the segments of the file. */
  lemma ReadsAsWritten(file: seq<byte>, e: Ehdr, ps: seq<Phdr>)
    requires IsElf(file, e, ps)
    ensures HasHeaders(file) && Entry(file) == e.entry && Table(file) == Segments(ps)
  {
    EhdrOffsets(e);
    EhdrReadsBack(file, e);
    hide Entry, PhOff, PhNum, Width, Write, EhdrFields, HeaderAt, HasPhdr, Fits;
    forall i | 0 <= i < |ps| ensures ProgramHeader(file, i) == SegmentOf(ps[i]) {
      assert HasPhdr(file, e.phoff + 56 * i, ps[i]);
      PhdrReadsBack(file, e.phoff + 56 * i, ps[i]);
    }
  }

  /** A byte of a segment in memory. */
  predicate Holds(b: byte, file: seq<byte>, p: Phdr, k: nat) {
    if k < p.filesz then p.offset + k < |file| && b == file[p.offset + k] else b == 0
  }

  lemma SegmentByte(file: seq<byte>, ps: seq<Phdr>, memory: nat, before: byte, i: nat, k: nat)
    requires Loadable(Segments(ps), |file|, memory) && Disjoint(Segments(ps))
    requires i < |ps| && ps[i].ty == 1 && k < ps[i].memsz
    ensures ps[i].vaddr + k < memory && Holds(ByteAfter(file, before, ps[i].vaddr + k, Segments(ps)), file, ps[i], k)
  {
    var ts := Segments(ps);
    assert SegmentOk(ts[i], |file|, memory);
    CoveredIsImage(file, memory, before, ts[i].vaddr + k, ts, i);
    hide ByteAfter, Disjoint;
  }

  /** Main theorem: loading a file puts every PT_LOAD segment at p_vaddr: p_filesz bytes of the file from p_offset
      on, then zeros up to p_memsz. */
  lemma LoadsAsWritten(file: seq<byte>, e: Ehdr, ps: seq<Phdr>, memory: nat, before: byte, i: nat, k: nat)
    requires IsElf(file, e, ps) && Loadable(Segments(ps), |file|, memory) && Disjoint(Segments(ps))
    requires i < |ps| && ps[i].ty == 1 && k < ps[i].memsz
    ensures HasHeaders(file) && Loadable(Table(file), |file|, memory)
    ensures Holds(ByteAfter(file, before, ps[i].vaddr + k, Table(file)), file, ps[i], k)
    ensures ps[i].vaddr + k < memory
  {
    hide IsElf, HasHeaders, PhNum, ProgramHeader, ByteAfter, Disjoint, SegmentOk, Loads, Loadable, Holds, Fits;
    ReadsAsWritten(file, e, ps);
    SegmentByte(file, ps, memory, before, i, k);
  }
}
