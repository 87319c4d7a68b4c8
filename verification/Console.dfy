/** The console of kernel/console.cpp: a character buffer and pixels, both changed in place. */
module Consoles {
  import opened ConsoleText

  class Console {
    const style: Style
    const screen: array2<Color>
    const buffer: array2<char8>
    var cursorRow: nat
    var cursorColumn: nat

    // Everything written so far.
    ghost var text: seq<char8>

    ghost predicate Shaped()
      reads this
    {
      && screen.Length0 == HEIGHT && screen.Length1 == WIDTH
      && buffer.Length0 == ROWS && buffer.Length1 == COLUMNS + 1
      && |style.font| % 16 == 0
    }

    /** A row of the buffer holds this line, zero padded. */
    ghost predicate Holds(r: nat, line: seq<char8>)
      requires Shaped() && r < ROWS
      reads this, buffer
    {
      && |line| < COLUMNS && (forall k | 0 <= k < |line| :: line[k] != 0)
      && forall k | 0 <= k <= COLUMNS :: buffer[r, k] == if k < |line| then line[k] else 0
    }

    ghost predicate AllHold(rows: seq<seq<char8>>)
      requires Shaped()
      reads this, buffer
    {
      |rows| == ROWS && forall r | 0 <= r < ROWS :: Holds(r, rows[r])
    }

    /** The pixels are those of these rows. */
    ghost predicate Shows(rows: seq<seq<char8>>)
      requires Shaped() && |rows| == ROWS
      reads this, screen
    {
      forall y, x | 0 <= y < HEIGHT && 0 <= x < WIDTH :: screen[y, x] == PixelOf(style, rows, x, y)
    }

    ghost predicate Valid()
      reads this, screen, buffer
    {
      && Shaped()
      && AllHold(Rows(text))
      && Shows(Rows(text))
      && cursorRow == CursorRow(text) && cursorColumn == |Rows(text)[cursorRow]|
    }

    /** On a screen filled with the background color. */
    constructor (style: Style)
      requires |style.font| % 16 == 0
      ensures Valid() && text == [] && fresh(screen) && fresh(buffer) && this.style == style
    {
      this.style := style;
      screen := new Color[HEIGHT, WIDTH]((y, x) => style.bg);
      buffer := new char8[ROWS, COLUMNS + 1]((r, k) => 0);
      cursorRow, cursorColumn := 0, 0;
      text := [];
    }

    /** WriteAscii: draws the pixels of a glyph and leaves the others of its cell alone. */
    method WriteAscii(column: nat, row: nat, c: char8)
      requires Shaped() && column < COLUMNS && row < ROWS
      modifies screen
      ensures forall y, x | 0 <= y < HEIGHT && 0 <= x < WIDTH ::
                screen[y, x] == if y / 16 == row && x / 8 == column && Lit(style.font, c, x % 8, y % 16)
                                then style.fg else old(screen[y, x])
    {
      if GlyphAt(c) >= |style.font| {
        return;
      }
      for dy := 0 to 16
        invariant forall y, x | 0 <= y < HEIGHT && 0 <= x < WIDTH ::
                    screen[y, x] == if y / 16 == row && y % 16 < dy && x / 8 == column
                       && Lit(style.font, c, x % 8, y % 16)
                                    then style.fg else old(screen[y, x])
      {
        for dx := 0 to 8
          invariant forall y, x | 0 <= y < HEIGHT && 0 <= x < WIDTH ::
                      screen[y, x] == if y / 16 == row && x / 8 == column && Lit(style.font, c, x % 8, y % 16)
                                         && (y % 16 < dy || (y % 16 == dy && x % 8 < dx))
                                      then style.fg else old(screen[y, x])
        {
          if BitSet(style.font[GlyphAt(c) + dy], dx) {
            screen[16 * row + dy, 8 * column + dx] := style.fg;
          }
        }
      }
    }

    /** WriteString on a row of the buffer, up to the first NUL. */
    method WriteString(row: nat, ghost line: seq<char8>)
      requires Shaped() && row < ROWS && Holds(row, line)
      modifies screen
      ensures forall y, x | 0 <= y < HEIGHT && 0 <= x < WIDTH ::
                screen[y, x] == if y / 16 == row && x / 8 < |line| && Lit(style.font, line[x / 8], x % 8, y % 16)
                                then style.fg else old(screen[y, x])
    {
      var i := 0;
      while buffer[row, i] != 0
        invariant i <= |line| && Holds(row, line)
        invariant forall y, x | 0 <= y < HEIGHT && 0 <= x < WIDTH ::
                    screen[y, x] == if y / 16 == row && x / 8 < i && Lit(style.font, line[x / 8], x % 8, y % 16)
                                    then style.fg else old(screen[y, x])
        decreases |line| - i
      {
        WriteAscii(i, row, buffer[row, i]);
        i := i + 1;
      }
    }

    /** Fills the console's area with the background color. */
    method Clear()
      requires Shaped()
      modifies screen
      ensures forall y, x | 0 <= y < HEIGHT && 0 <= x < WIDTH :: screen[y, x] == style.bg
    {
      for y := 0 to 16 * ROWS
        invariant forall v, u | 0 <= v < y && 0 <= u < WIDTH :: screen[v, u] == style.bg
      {
        for x := 0 to 8 * COLUMNS
          invariant forall v, u | 0 <= v < y && 0 <= u < WIDTH :: screen[v, u] == style.bg
          invariant forall u | 0 <= u < x :: screen[y, u] == style.bg
        {
          screen[y, x] := style.bg;
        }
      }
    }

    /** memcpy of a row onto the one above it. */
    method CopyRowUp(row: nat, ghost rows: seq<seq<char8>>)
      requires Shaped() && row < ROWS - 1 && AllHold(rows)
      modifies buffer
      ensures AllHold(rows[row := rows[row + 1]])
    {
      for j := 0 to COLUMNS + 1
        invariant forall r, k | 0 <= r < ROWS && 0 <= k <= COLUMNS ::
                    buffer[r, k] == if r == row && k < j then old(buffer[row + 1, k]) else old(buffer[r, k])
      {
        buffer[row, j] := buffer[row + 1, j];
      }
    }

    /** memset of the last row. */
    method ClearLastRow(ghost rows: seq<seq<char8>>)
      requires Shaped() && AllHold(rows)
      modifies buffer
      ensures AllHold(rows[ROWS - 1 := []])
    {
      for j := 0 to COLUMNS + 1
        invariant forall r, k | 0 <= r < ROWS && 0 <= k <= COLUMNS ::
                    buffer[r, k] == if r == ROWS - 1 && k < j then 0 else old(buffer[r, k])
      {
        buffer[ROWS - 1, j] := 0;
      }
    }

    /** Scrolls: clears the screen and draws the moved rows one by one. */
    method Scroll(ghost rows: seq<seq<char8>>)
      requires Shaped() && AllHold(rows)
      modifies screen, buffer
      ensures AllHold(rows[1..] + [[]])
      ensures Shows(rows[1..] + [[]])
    {
      Clear();
      ghost var now, next := rows, rows[1..] + [[]];
      for row := 0 to ROWS - 1
        invariant AllHold(now)
        invariant forall r | 0 <= r < ROWS :: now[r] == if r < row then next[r] else rows[r]
        invariant forall y, x | 0 <= y < HEIGHT && 0 <= x < WIDTH ::
                    screen[y, x] == if y / 16 < row then PixelOf(style, next, x, y) else style.bg
      {
        CopyRowUp(row, now);
        now := now[row := now[row + 1]];
        assert next[row] == now[row];
        WriteString(row, now[row]);
      }
      ClearLastRow(now);
      assert now[ROWS - 1 := []] == next;
    }

    method Newline()
      requires Valid()
      modifies this, screen, buffer
      ensures Valid() && text == old(text) + [NEWLINE]
    {
      RowsAfterNewline(text);
      ghost var next := Rows(text + [NEWLINE]);
      cursorColumn := 0;
      if cursorRow < ROWS - 1 {
        cursorRow := cursorRow + 1;
      } else {
        Scroll(Rows(text));
      }
      assert AllHold(next) && Shows(next);
      text := text + [NEWLINE];
    }

    /** One more character of a row, on the screen and in the buffer. */
    method Append(c: char8, ghost rows: seq<seq<char8>>)
      requires Shaped() && AllHold(rows) && Shows(rows) && c != 0
      requires cursorRow < ROWS && cursorColumn == |rows[cursorRow]| < COLUMNS - 1
      modifies screen, buffer
      ensures AllHold(rows[cursorRow := rows[cursorRow] + [c]]) && Shows(rows[cursorRow := rows[cursorRow] + [c]])
    {
      WriteAscii(cursorColumn, cursorRow, c);
      buffer[cursorRow, cursorColumn] := c;
      forall y, x | 0 <= y < HEIGHT && 0 <= x < WIDTH
        ensures screen[y, x] == PixelOf(style, rows[cursorRow := rows[cursorRow] + [c]], x, y)
      {
        PixelsOneMore(style, rows, cursorRow, c, x, y);
      }
    }

    /** One more character of the open line. */
    method PutChar(c: char8)
      requires Valid() && c != NEWLINE && c != 0
      modifies this, screen, buffer
      ensures Valid() && text == old(text) + [c]
    {
      RowsAfterChar(text, c);
      if cursorColumn < COLUMNS - 1 {
        Append(c, Rows(text));
        cursorColumn := cursorColumn + 1;
      }
      text := text + [c];
    }

    /** Main theorem: after any sequence of calls the buffer holds the last 25 lines of all text put
        so far, each cut to 79 characters, and the pixels are those of the buffer. */
    method PutString(s: seq<char8>)
      requires Valid() && Terminated(s, 0)
      modifies this, screen, buffer
      ensures Valid() && text == old(text) + CString(s)
    {
      hide Valid, CString, Terminated;
      var i := 0;
      CStringStep(s, 0);
      assert s[0..] == s;
      while s[i] != 0
        invariant i < |s| && Terminated(s, i) && Valid() && text + CString(s[i..]) == old(text) + CString(s)
        decreases |s| - i
      {
        CStringStep(s, i);
        if s[i] == NEWLINE {
          Newline();
        } else {
          PutChar(s[i]);
        }
        i := i + 1;
        CStringStep(s, i);
      }
      CStringStep(s, i);
    }
  }
}
