/** What a console should show: the last lines of everything written so far, and the pixels of a
    screenful of lines (kernel/console.hpp, kernel/font.cpp). */
module ConsoleText {

  type byte = x: nat | x < 0x100

  /** A C++ `char`, which is signed. */
  type char8 = x: int | -0x80 <= x < 0x80

  const NEWLINE: char8 := 10
  const ROWS := 25
  const COLUMNS := 80
  const WIDTH := 8 * COLUMNS
  const HEIGHT := 16 * ROWS

  /** The characters of a C string. */
  function CString(s: seq<char8>): seq<char8> {
    if s == [] || s[0] == 0 then [] else [s[0]] + CString(s[1..])
  }

  /** There is a NUL from i on. */
  predicate Terminated(s: seq<char8>, i: nat) {
    exists j | i <= j < |s| :: s[j] == 0
  }

  lemma CStringStep(s: seq<char8>, i: nat)
    requires Terminated(s, i)
    ensures i < |s|
    ensures s[i] == 0 ==> CString(s[i..]) == []
    ensures s[i] != 0 ==> Terminated(s, i + 1) && CString(s[i..]) == [s[i]] + CString(s[i + 1..])
  {
    assert s[i..][1..] == s[i + 1..];
  }

  // ---- text

  /** The lines of a text; the last one is still open. */
  function Lines(text: seq<char8>): (ls: seq<seq<char8>>)
    ensures ls != []
  {
    if text == [] then [[]]
    else
      var ls, c := Lines(text[..|text| - 1]), text[|text| - 1];
      if c == NEWLINE then ls + [[]] else ls[..|ls| - 1] + [ls[|ls| - 1] + [c]]
  }

  /** What fits of a line: its first 79 characters. */
  function Cut(line: seq<char8>): seq<char8> {
    if |line| < COLUMNS then line else line[..COLUMNS - 1]
  }

  /** The first line shown, once there are more than 25. */
  function Top(n: nat): nat { if n > ROWS then n - ROWS else 0 }

  function RowOf(ls: seq<seq<char8>>, r: nat): seq<char8> {
    if Top(|ls|) + r < |ls| then Cut(ls[Top(|ls|) + r]) else []
  }

  /** The 25 rows to be shown of a text. */
  function Rows(text: seq<char8>): (rows: seq<seq<char8>>)
    ensures |rows| == ROWS && forall r | 0 <= r < ROWS :: rows[r] == RowOf(Lines(text), r)
  {
    var ls := Lines(text);
    seq(ROWS, r requires 0 <= r < ROWS => RowOf(ls, r))
  }

  /** The row of the open line. */
  function CursorRow(text: seq<char8>): nat {
    if |Lines(text)| < ROWS then |Lines(text)| - 1 else ROWS - 1
  }

  lemma LinesAfterNewline(text: seq<char8>)
    ensures Lines(text + [NEWLINE]) == Lines(text) + [[]]
    ensures CursorRow(text + [NEWLINE]) == if |Lines(text)| < ROWS then CursorRow(text) + 1 else ROWS - 1
  {
    assert (text + [NEWLINE])[..|text|] == text;
  }

  /** A new line scrolls exactly if the open one is the last of the screen. */
  lemma RowsAfterNewline(text: seq<char8>)
    ensures Rows(text + [NEWLINE]) ==
            if |Lines(text)| < ROWS then Rows(text) else Rows(text)[1..] + [[]]
    ensures CursorRow(text + [NEWLINE]) == if |Lines(text)| < ROWS then CursorRow(text) + 1 else ROWS - 1
    ensures Rows(text + [NEWLINE])[CursorRow(text + [NEWLINE])] == []
  {
    hide Lines, Rows, RowOf;
    var ls := Lines(text);
    LinesAfterNewline(text);
    var a, b := Rows(text), Rows(text + [NEWLINE]);
    NewlineRow(ls, CursorRow(text + [NEWLINE]));
    if |ls| < ROWS {
      forall r | 0 <= r < ROWS ensures b[r] == a[r] {
        NewlineRow(ls, r);
      }
      SameRows(a, b);
    } else {
      forall r | 0 <= r < ROWS ensures b[r] == if r < ROWS - 1 then a[r + 1] else [] {
        NewlineRow(ls, r);
        assert r < ROWS - 1 ==> a[r + 1] == RowOf(ls, r + 1);
      }
      MovedUp(a, b);
    }
  }

  lemma SameRows(a: seq<seq<char8>>, b: seq<seq<char8>>)
    requires |a| == |b| && forall r | 0 <= r < |a| :: b[r] == a[r]
    ensures b == a
  {
  }

  lemma MovedUp(a: seq<seq<char8>>, b: seq<seq<char8>>)
    requires |a| == |b| == ROWS && forall r | 0 <= r < ROWS :: b[r] == if r < ROWS - 1 then a[r + 1] else []
    ensures b == a[1..] + [[]]
  {
    SameRows(a[1..] + [[]], b);
  }

  lemma NewlineRow(ls: seq<seq<char8>>, r: nat)
    requires ls != [] && r < ROWS
    ensures RowOf(ls + [[]], r) ==
            if |ls| < ROWS then RowOf(ls, r) else if r < ROWS - 1 then RowOf(ls, r + 1) else []
    ensures r >= |ls| ==> RowOf(ls + [[]], r) == []
  {
  }

  /** Any other character goes to the end of the row of the open line, if there is room for it. */
  lemma RowsAfterChar(text: seq<char8>, c: char8)
    requires c != NEWLINE
    ensures var r, line := CursorRow(text), Rows(text)[CursorRow(text)];
      && |line| <= COLUMNS - 1 && CursorRow(text + [c]) == r
      && Rows(text + [c]) == if |line| < COLUMNS - 1 then Rows(text)[r := line + [c]] else Rows(text)
  {
    hide Lines, RowOf, Longer;
    var a, b, cursor := Rows(text), Rows(text + [c]), CursorRow(text);
    LinesAfterChar(text, c);
    forall r | 0 <= r < ROWS
      ensures b[r] == if r == cursor && |a[r]| < COLUMNS - 1 then a[r] + [c] else a[r]
      ensures r == cursor ==> |a[r]| <= COLUMNS - 1
    {
      CharRow(Lines(text), c, r);
    }
    if |a[cursor]| < COLUMNS - 1 {
      SameRows(a[cursor := a[cursor] + [c]], b);
    } else {
      SameRows(a, b);
    }
  }

  /** The open line grows. */
  function Longer(ls: seq<seq<char8>>, c: char8): seq<seq<char8>>
    requires ls != []
  {
    ls[..|ls| - 1] + [ls[|ls| - 1] + [c]]
  }

  lemma LinesAfterChar(text: seq<char8>, c: char8)
    requires c != NEWLINE
    ensures Lines(text + [c]) == Longer(Lines(text), c) && |Lines(text + [c])| == |Lines(text)|
  {
    assert (text + [c])[..|text|] == text;
  }

  lemma CharRow(ls: seq<seq<char8>>, c: char8, r: nat)
    requires ls != [] && r < ROWS
    ensures var row, cursor := RowOf(ls, r), if |ls| < ROWS then |ls| - 1 else ROWS - 1;
      && RowOf(Longer(ls, c), r) == (if r == cursor && |row| < COLUMNS - 1 then row + [c] else row)
      && |row| <= COLUMNS - 1
  {
    CutOneMore(ls[|ls| - 1], c);
  }

  lemma CutOneMore(line: seq<char8>, c: char8)
    ensures Cut(line + [c]) == if |Cut(line)| < COLUMNS - 1 then Cut(line) + [c] else Cut(line)
  {
  }

  // ---- pixels

  datatype Color = Color(r: byte, g: byte, b: byte)

  /** GetFont: the offset of a character's glyph in the font. A negative `char` becomes a huge
      `unsigned int`. */
  function GlyphAt(c: char8): nat { 16 * (c as int) % 0x1_0000_0000 }

  predicate HasGlyph(font: seq<byte>, c: char8) { GlyphAt(c) < |font| }

  function Power(n: nat): nat { if n == 0 then 1 else 2 * Power(n - 1) }

  /** Is the bit set that the shift by dx moves to 0x80? */
  predicate BitSet(b: byte, dx: nat) { b * Power(dx) / 0x80 % 2 == 1 }

  /** Is this pixel of a character's cell drawn? */
  predicate Lit(font: seq<byte>, c: char8, dx: nat, dy: nat) {
    HasGlyph(font, c) && GlyphAt(c) + dy < |font| && BitSet(font[GlyphAt(c) + dy], dx)
  }

  datatype Style = Style(font: seq<byte>, fg: Color, bg: Color)

  /** The color of a pixel when these rows are drawn on an empty screen. */
  function PixelOf(style: Style, rows: seq<seq<char8>>, x: nat, y: nat): Color
    requires |rows| == ROWS && y < HEIGHT
  {
    var line := rows[y / 16];
    if x / 8 < |line| && Lit(style.font, line[x / 8], x % 8, y % 16) then style.fg else style.bg
  }

  /** Drawing one more character of a row is drawing one more glyph. */
  lemma PixelsOneMore(style: Style, rows: seq<seq<char8>>, r: nat, c: char8, x: nat, y: nat)
    requires |rows| == ROWS && r < ROWS && y < HEIGHT
    ensures PixelOf(style, rows[r := rows[r] + [c]], x, y) ==
            if y / 16 == r && x / 8 == |rows[r]| && Lit(style.font, c, x % 8, y % 16)
            then style.fg else PixelOf(style, rows, x, y)
  {
    hide Lit;
  }

  // ---- what the console shows, in numbers

  /** The bit of a font byte that is drawn at dx: the highest on the left. */
  predicate BitFromLeft(b: byte, dx: nat) {
    match dx
    case 0 => b >= 128
    case 1 => b / 64 % 2 == 1
    case 2 => b / 32 % 2 == 1
    case 3 => b / 16 % 2 == 1
    case 4 => b / 8 % 2 == 1
    case 5 => b / 4 % 2 == 1
    case 6 => b / 2 % 2 == 1
    case _ => b % 2 == 1
  }

  /** The font has sixteen bytes for each character from 0 on, one for each line of its cell; characters below 0 are
      beyond the end of any font of fewer than 2^32 - 2048 bytes. */
  predicate Inked(font: seq<byte>, c: char8, dx: nat, dy: nat) {
    c >= 0 && 16 * c + dy < |font| && BitFromLeft(font[16 * c + dy], dx)
  }

  lemma BitIsFromLeft(b: byte, dx: nat)
    requires dx < 8
    ensures BitSet(b, dx) <==> BitFromLeft(b, dx)
  {
    PowersOfTwo();
    hide Power;
    var p := Power(dx);
    Shifted(b, p, if dx == 0 then 128 else if dx == 1 then 64 else if dx == 2 then 32 else if dx == 3 then 16
                  else if dx == 4 then 8 else if dx == 5 then 4 else if dx == 6 then 2 else 1);
  }

  lemma Shifted(b: byte, p: nat, q: nat)
    requires q > 0 && p * q == 128
    ensures b * p / 128 == b / q
  {
    var k, r := b / q, b % q;
    assert b * p == k * (q * p) + r * p;
    assert r * p < q * p;
    Quotient(k, r * p);
  }

  lemma Quotient(k: nat, r: nat)
    requires r < 128
    ensures (k * 128 + r) / 128 == k
  {
  }

  lemma PowersOfTwo()
    ensures Power(0) == 1 && Power(1) == 2 && Power(2) == 4 && Power(3) == 8
    ensures Power(4) == 16 && Power(5) == 32 && Power(6) == 64 && Power(7) == 128
  {
    assert Power(2) == 4;
    assert Power(4) == 16;
  }

  lemma LitIsInked(font: seq<byte>, c: char8, dx: nat, dy: nat)
    requires |font| % 16 == 0 && |font| < 0xffff_f800 && dx < 8 && dy < 16
    ensures Lit(font, c, dx, dy) <==> Inked(font, c, dx, dy)
  {
    if c >= 0 {
      assert GlyphAt(c) == 16 * c;
      if 16 * c + dy < |font| {
        BitIsFromLeft(font[16 * c + dy], dx);
      }
    } else {
      assert GlyphAt(c) >= 0xffff_f800;
    }
    hide BitSet, BitFromLeft, GlyphAt;
  }

  /** The lines of a text, with a new line (10) between one and the next. */
  function Joined(ls: seq<seq<char8>>): seq<char8>
    requires ls != []
  {
    if |ls| == 1 then ls[0] else Joined(ls[..|ls| - 1]) + [10] + ls[|ls| - 1]
  }

  lemma JoinOneMore(ls: seq<seq<char8>>)
    requires ls != []
    ensures Joined(ls + [[]]) == Joined(ls) + [10]
  {
    assert (ls + [[]])[..|ls|] == ls;
  }

  lemma JoinLonger(ls: seq<seq<char8>>, c: char8)
    requires ls != []
    ensures Joined(Longer(ls, c)) == Joined(ls) + [c]
  {
    assert Longer(ls, c)[..|ls| - 1] == ls[..|ls| - 1];
  }

  lemma {:induction false} LinesJoin(text: seq<char8>)
    ensures Joined(Lines(text)) == text
    ensures forall i | 0 <= i < |Lines(text)| :: 10 !in Lines(text)[i]
    decreases |text|
  {
    if text != [] {
      var before, c := text[..|text| - 1], text[|text| - 1];
      LinesJoin(before);
      var ls := Lines(before);
      assert Lines(text) == if c == 10 then ls + [[]] else Longer(ls, c);
      JoinOneMore(ls);
      JoinLonger(ls, c);
      assert before + [c] == text;
      hide Lines, Joined;
    }
  }

  /** The pixel at (x, y): of the last 25 lines, the one y / 16 rows down shows its first 79 characters. */
  lemma PixelFromText(style: Style, text: seq<char8>, x: nat, y: nat)
    requires |style.font| % 16 == 0 && |style.font| < 0xffff_f800 && x < 640 && y < 400
    ensures var ls := Lines(text);
      var i := (if |ls| > 25 then |ls| - 25 else 0) + y / 16;
      PixelOf(style, Rows(text), x, y) ==
        if i < |ls| && x / 8 < 79 && x / 8 < |ls[i]| && Inked(style.font, ls[i][x / 8], x % 8, y % 16)
        then style.fg else style.bg
  {
    hide Lines, Lit, Inked;
    var line := Rows(text)[y / 16];
    if x / 8 < |line| {
      LitIsInked(style.font, line[x / 8], x % 8, y % 16);
    }
  }
}
