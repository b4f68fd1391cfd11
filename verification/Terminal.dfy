/** The VGA text screen as the last 25 lines of an unbounded transcript. */
module Terminal {
  import opened Bits

  const WIDTH: int := 80
  const HEIGHT: int := 25

  type Glyph = g: int | 0 <= g < 0x1_0000

  /** vga_entry: char is signed, so from 128 up the sign fills the colour byte. */
  function Entry(c: Byte, color: Byte): Glyph {
    if c < 128 then c + 256 * color else 0xFF00 + c
  }

  // ----- A terminal that never scrolls -----

  type Row = r: seq<Glyph> | |r| == WIDTH witness seq(WIDTH, _ => 0)

  /** Every line written so far; the screen shows the last 25 of them. */
  datatype Transcript = Transcript(lines: seq<Row>, row: nat, col: nat)

  function Blank(color: Byte): Row {
    seq(WIDTH, _ => Entry(32, color))
  }

  function Cleared(color: Byte): Transcript {
    Transcript(seq(HEIGHT, _ => Blank(color)), 0, 0)
  }

  /** First line on the screen. */
  function Top(t: Transcript): int {
    |t.lines| - HEIGHT
  }

  ghost predicate WellFormed(t: Transcript) {
    |t.lines| >= HEIGHT && Top(t) <= t.row < |t.lines| && t.col < WIDTH
  }

  function Write(t: Transcript, row: nat, col: nat, g: Glyph): Transcript
    requires row < |t.lines| && col < WIDTH
  {
    t.(lines := t.lines[row := t.lines[row][col := g]])
  }

  /** The effect of a character before wrapping: the column may be one past the end. */
  function Typed(t: Transcript, c: Byte, color: Byte): Transcript
    requires t.row < |t.lines| && t.col < WIDTH
  {
    if c == 10 then t.(row := t.row + 1, col := 0)
    else if c == 13 then t.(col := 0)
    else if c == 9 then t.(col := (t.col / 8 + 1) * 8)
    else if c == 8 then (if t.col > 0 then Write(t, t.row, t.col - 1, Entry(32, color)).(col := t.col - 1) else t)
    else Write(t, t.row, t.col, Entry(c, color)).(col := t.col + 1)
  }

  function Wrapped(t: Transcript): Transcript {
    if t.col >= WIDTH then t.(row := t.row + 1, col := 0) else t
  }

  /** A new line is appended when the cursor leaves the last one. */
  function Extended(t: Transcript, color: Byte): Transcript {
    if t.row >= |t.lines| then t.(lines := t.lines + [Blank(color)]) else t
  }

  function Put(t: Transcript, c: Byte, color: Byte): Transcript
    requires t.row < |t.lines| && t.col < WIDTH
  {
    Extended(Wrapped(Typed(t, c, color)), color)
  }

  /** The cursor stays on the screen, lines above the screen are final, and others only by the cursor. */
  lemma PutFacts(t: Transcript, c: Byte, color: Byte)
    requires WellFormed(t)
    ensures var t' := Put(t, c, color);
      && WellFormed(t') && |t.lines| <= |t'.lines| <= |t.lines| + 1
      && t'.lines[..t.row] == t.lines[..t.row]
      && t'.lines[t.row + 1..|t.lines|] == t.lines[t.row + 1..]
  {}

  /** The low byte of a glyph is the character and the high byte its colours, foreground in the low half. */
  lemma EntryIs(c: Byte, color: Byte)
    requires c < 128
    ensures Entry(c, color) % 256 == c && Entry(c, color) / 256 == color
  {}

  /** A cleared screen has 25 lines of 80 blanks and the cursor in the corner. */
  lemma ClearedIs(color: Byte, r: nat, c: nat)
    requires r < 25 && c < 80
    ensures var t := Cleared(color); |t.lines| == 25 && t.row == 0 && t.col == 0 && t.lines[r][c] == 32 + 256 * color
  {}

  /** What control characters do to the cursor.  A newline (10) goes to the start of the next line, a carriage
      return (13) to the start of this one, a tab (9) to the next multiple of eight, which after column 71 is the
      next line, and a backspace (8) one back if it can, leaving a blank.  No other cell changes. */
  lemma ControlCharacters(t: Transcript, color: Byte)
    requires WellFormed(t)
    ensures var n := Put(t, 10, color); n.row == t.row + 1 && n.col == 0 && n.lines[..|t.lines|] == t.lines
    ensures Put(t, 13, color) == t.(col := 0)
    ensures var n := Put(t, 9, color);
      && n.lines[..|t.lines|] == t.lines
      && if t.col < 72 then n.row == t.row && n.col % 8 == 0 && t.col < n.col <= t.col + 8
         else n.row == t.row + 1 && n.col == 0
    ensures t.col == 0 ==> Put(t, 8, color) == t
    ensures t.col > 0 ==>
      var n := Put(t, 8, color);
      n.row == t.row && n.col == t.col - 1 && n.lines == t.lines[t.row := t.lines[t.row][n.col := 32 + 256 * color]]
  {}

  /** Any other character is written where the cursor is, which goes one on, or to the next line after column
      79; a line that is added is blank. */
  lemma PrintedCharacter(t: Transcript, c: Byte, color: Byte)
    requires WellFormed(t) && c < 128 && c !in {8, 9, 10, 13}
    ensures var n := Put(t, c, color);
      && n.lines[..|t.lines|] == t.lines[t.row := t.lines[t.row][t.col := c + 256 * color]]
      && (t.col < 79 ==> n.row == t.row && n.col == t.col + 1)
      && (t.col == 79 ==> n.row == t.row + 1 && n.col == 0)
      && (|n.lines| > |t.lines| ==> forall k :: 0 <= k < 80 ==> n.lines[|t.lines|][k] == 32 + 256 * color)
  {}

  /** A character and the colour it is printed in. */
  datatype Inked = Inked(c: Byte, color: Byte)

  function InkAll(str: seq<Byte>, color: Byte): (r: seq<Inked>)
  {
    seq(|str|, i requires 0 <= i < |str| => Inked(str[i], color))
  }

  function PutAll(t: Transcript, s: seq<Inked>): (r: Transcript)
    requires WellFormed(t)
    ensures WellFormed(r) && |r.lines| >= |t.lines|
  {
    if s == [] then t
    else
      var t' := PutAll(t, s[..|s| - 1]);
      PutFacts(t', s[|s| - 1].c, s[|s| - 1].color);
      Put(t', s[|s| - 1].c, s[|s| - 1].color)
  }

  predicate Printing(c: Byte) {
    c != 10 && c != 13 && c != 9 && c != 8
  }

  lemma NextPosition(n: nat)
    ensures (n + 1) / WIDTH == if n % WIDTH == WIDTH - 1 then n / WIDTH + 1 else n / WIDTH
    ensures (n + 1) % WIDTH == if n % WIDTH == WIDTH - 1 then 0 else n % WIDTH + 1
  {}

  lemma OtherPosition(i: nat, n: nat)
    requires i < n
    ensures i / WIDTH <= n / WIDTH && (i / WIDTH != n / WIDTH || i % WIDTH != n % WIDTH)
  {}

  /** The text stands in reading order: character i in line i / 80, column i % 80, in its own colour. */
  ghost predicate Filled(t: Transcript, s: seq<Inked>) {
    && t.row == |s| / 80 < |t.lines| && t.col == |s| % 80
    && forall i :: 0 <= i < |s| ==> HasGlyph(t, i, Entry(s[i].c, s[i].color))
  }

  ghost predicate HasGlyph(t: Transcript, i: nat, g: Glyph) {
    i / 80 < |t.lines| && t.lines[i / 80][i % 80] == g
  }

  lemma FilledNext(t: Transcript, s: seq<Inked>, x: Inked)
    requires WellFormed(t) && Filled(t, s) && Printing(x.c)
    ensures Filled(Put(t, x.c, x.color), s + [x])
  {
    NextPosition(|s|);
    var t' := Put(t, x.c, x.color);
    assert HasGlyph(t', |s|, Entry(x.c, x.color));
    forall i | 0 <= i < |s|
      ensures HasGlyph(t', i, Entry(s[i].c, s[i].color))
    {
      OtherPosition(i, |s|);
      assert HasGlyph(t, i, Entry(s[i].c, s[i].color));
    }
  }

  /** Text without control characters, printed from a cleared screen, fills the transcript in reading order. */
  lemma {:induction false} PlainText(color: Byte, s: seq<Inked>)
    requires forall i :: 0 <= i < |s| ==> Printing(s[i].c)
    ensures Filled(PutAll(Cleared(color), s), s)
  {
    if s != [] {
      var n := |s| - 1;
      PlainText(color, s[..n]);
      FilledNext(PutAll(Cleared(color), s[..n]), s[..n], s[n]);
      assert s[..n] + [s[n]] == s;
    }
  }

  /** Backspace takes back a printed character exactly when that character did not end its line. */
  lemma BackspaceErases(t: Transcript, x: Inked, color: Byte)
    requires WellFormed(t) && Printing(x.c) && Entry(x.c, x.color) != Entry(32, color)
    ensures Put(Put(t, x.c, x.color), 8, color) == Write(t, t.row, t.col, Entry(32, color)) <==> t.col < WIDTH - 1
  {
    var typed, erased := Put(t, x.c, x.color), Write(t, t.row, t.col, Entry(32, color));
    if t.col < WIDTH - 1 {
      assert typed.lines[t.row][t.col := Entry(32, color)] == t.lines[t.row][t.col := Entry(32, color)];
      assert Put(typed, 8, color).lines == erased.lines;
    } else {
      assert Put(typed, 8, color) == typed;
      assert typed.lines[t.row][t.col] == Entry(x.c, x.color);
    }
  }

  // ----- The screen -----

  class Screen {
    const buffer: array<Glyph>
    var row: int
    var col: int
    var color: Byte
    ghost var transcript: Transcript     // what the screen shows the end of

    ghost predicate Valid()
      reads this, buffer
    {
      && buffer.Length == WIDTH * HEIGHT && WellFormed(transcript)
      && row == transcript.row - Top(transcript) && col == transcript.col
      && Shows(transcript)
    }

    ghost predicate Shows(t: Transcript)
      requires buffer.Length == WIDTH * HEIGHT && |t.lines| >= HEIGHT
      reads buffer
    {
      forall r, c :: 0 <= r < HEIGHT && 0 <= c < WIDTH ==> At(r, c) == t.lines[Top(t) + r][c]
    }

    /** The screen is the last 25 lines of 80 glyphs, row by row, and the cursor is on it. */
    lemma ScreenIs(r: int, c: int)
      requires Valid() && 0 <= r < 25 && 0 <= c < 80
      ensures buffer.Length == 2000 && buffer[80 * r + c] == transcript.lines[|transcript.lines| - 25 + r][c]
      ensures 0 <= row < 25 && 0 <= col < 80 && row == transcript.row - (|transcript.lines| - 25)
    {
      assert At(r, c) == buffer[80 * r + c];
    }

    function At(r: int, c: int): Glyph
      requires buffer.Length == WIDTH * HEIGHT && 0 <= r < HEIGHT && 0 <= c < WIDTH
      reads buffer
    {
      buffer[r * WIDTH + c]
    }

    constructor ()
      ensures Valid() && fresh(buffer) && transcript == Cleared(7)
    {
      buffer := new Glyph[WIDTH * HEIGHT](_ => Entry(32, 7));
      row, col, color := 0, 0, 7;
      transcript := Cleared(7);
    }

    method Clear()
      requires Valid()
      modifies this`row, this`col, this`transcript, buffer
      ensures Valid() && transcript == Cleared(color)
    {
      var i := 0;
      while i < WIDTH * HEIGHT
        invariant 0 <= i <= WIDTH * HEIGHT
        invariant forall k :: 0 <= k < i ==> buffer[k] == Entry(32, color)
      {
        buffer[i] := Entry(32, color);
        i := i + 1;
      }
      row, col := 0, 0;
      transcript := Cleared(color);
    }

    method WriteCell(r: int, c: int, g: Glyph)
      requires buffer.Length == WIDTH * HEIGHT && 0 <= r < HEIGHT && 0 <= c < WIDTH
      modifies buffer
      ensures forall i, j :: 0 <= i < HEIGHT && 0 <= j < WIDTH ==>
        At(i, j) == if i == r && j == c then g else old(At(i, j))
    {
      buffer[r * WIDTH + c] := g;
      forall i, j | 0 <= i < HEIGHT && 0 <= j < WIDTH
        ensures At(i, j) == if i == r && j == c then g else old(At(i, j))
      {
        assert i * WIDTH + j == r * WIDTH + c ==> i == r && j == c;
      }
    }

    /** Moves every line up when the cursor has left the screen. */
    method Scroll()
      requires buffer.Length == WIDTH * HEIGHT && row <= HEIGHT
      modifies this`row, buffer
      ensures old(row) < HEIGHT ==>
        row == old(row) && forall k :: 0 <= k < buffer.Length ==> buffer[k] == old(buffer[k])
      ensures old(row) == HEIGHT ==>
        && row == HEIGHT - 1
        && forall i, j :: 0 <= i < HEIGHT && 0 <= j < WIDTH ==>
             At(i, j) == if i < HEIGHT - 1 then old(At(i + 1, j)) else Entry(32, color)
    {
      if row >= HEIGHT {
        MoveUp();
        row := HEIGHT - 1;
      }
    }

    method MoveUp()
      requires buffer.Length == WIDTH * HEIGHT
      modifies buffer
      ensures forall i, j :: 0 <= i < HEIGHT && 0 <= j < WIDTH ==>
        At(i, j) == if i < HEIGHT - 1 then old(At(i + 1, j)) else Entry(32, color)
    {
      var i := 0;
      while i < (HEIGHT - 1) * WIDTH
        invariant 0 <= i <= (HEIGHT - 1) * WIDTH
        invariant forall k :: 0 <= k < i ==> buffer[k] == old(buffer[k + WIDTH])
        invariant forall k :: i <= k < buffer.Length ==> buffer[k] == old(buffer[k])
      {
        buffer[i] := buffer[i + WIDTH];
        i := i + 1;
      }
      while i < HEIGHT * WIDTH
        invariant (HEIGHT - 1) * WIDTH <= i <= HEIGHT * WIDTH
        invariant forall k :: 0 <= k < (HEIGHT - 1) * WIDTH ==> buffer[k] == old(buffer[k + WIDTH])
        invariant forall k :: (HEIGHT - 1) * WIDTH <= k < i ==> buffer[k] == Entry(32, color)
      {
        buffer[i] := Entry(32, color);
        i := i + 1;
      }
      forall r, c | 0 <= r < HEIGHT && 0 <= c < WIDTH
        ensures At(r, c) == if r < HEIGHT - 1 then old(At(r + 1, c)) else Entry(32, color)
      {
        assert r < HEIGHT - 1 ==> buffer[r * WIDTH + c] == old(buffer[r * WIDTH + c + WIDTH]);
      }
    }

    /** Moves the cursor and writes, leaving the cursor perhaps one past the end of its line or screen. */
    method Type(c: Byte)
      requires Valid()
      modifies this`row, this`col, buffer
      ensures row == Typed(transcript, c, color).row - Top(transcript) && col == Typed(transcript, c, color).col
      ensures Shows(Typed(transcript, c, color))
    {
      if c == 10 {
        col := 0;
        row := row + 1;
      } else if c == 13 {
        col := 0;
      } else if c == 9 {
        col := (col + 8) / 8 * 8;
      } else if c == 8 {
        if col > 0 {
          col := col - 1;
          WriteCell(row, col, Entry(32, color));
        }
      } else {
        WriteCell(row, col, Entry(c, color));
        col := col + 1;
      }
    }

    /** Prints one character: the screen then shows the end of the transcript with it added. */
    method Putchar(c: Byte)
      requires Valid()
      modifies this`row, this`col, this`transcript, buffer
      ensures Valid() && transcript == Put(old(transcript), c, color)
    {
      ghost var t := transcript;
      PutFacts(t, c, color);
      Type(c);
      if col >= WIDTH {
        col := 0;
        row := row + 1;
      }
      ghost var wrapped := Wrapped(Typed(t, c, color));
      ScrollTo(wrapped);
      transcript := Extended(wrapped, color);
    }

    /** Scrolling shows the end of the transcript again, with the line that was missing. */
    method ScrollTo(ghost t: Transcript)
      requires buffer.Length == WIDTH * HEIGHT && |t.lines| >= HEIGHT && Shows(t)
      requires row == t.row - Top(t) && 0 <= row <= HEIGHT
      modifies this`row, buffer
      ensures Shows(Extended(t, color)) && row == t.row - Top(Extended(t, color))
    {
      Scroll();
      ghost var extended := Extended(t, color);
      forall r, c | 0 <= r < HEIGHT && 0 <= c < WIDTH
        ensures At(r, c) == extended.lines[Top(extended) + r][c]
      {
        if Top(extended) == Top(t) {
          assert At(r, c) == old(At(r, c));
        } else if r < HEIGHT - 1 {
          assert At(r, c) == old(At(r + 1, c)) == t.lines[Top(t) + (r + 1)][c];
        }
      }
    }

    /** Prints the characters of a string, all in the current colours. */
    method Puts(str: seq<Byte>)
      requires Valid()
      modifies this`row, this`col, this`transcript, buffer
      ensures Valid() && transcript == PutAll(old(transcript), InkAll(str, color))
    {
      ghost var t, inked := transcript, InkAll(str, color);
      var i := 0;
      while i < |str|
        invariant 0 <= i <= |str| && Valid() && transcript == PutAll(t, inked[..i])
      {
        Putchar(str[i]);
        i := i + 1;
        assert inked[..i][..i - 1] == inked[..i - 1];
      }
      assert inked[..|str|] == inked;
    }

    method SetColor(fg: nat, bg: nat)
      requires Valid() && fg < 16 && bg < 16
      modifies this`color
      ensures Valid() && color % 16 == fg && color / 16 == bg
    {
      color := fg + 16 * bg;
    }

    /** Moves the cursor to a position on the screen; any other is ignored. */
    method SetCursor(x: int, y: int)
      requires Valid()
      modifies this`row, this`col, this`transcript
      ensures Valid()
      ensures transcript == if 0 <= x < WIDTH && 0 <= y < HEIGHT
        then old(transcript).(row := Top(old(transcript)) + y, col := x) else old(transcript)
    {
      if x >= 0 && x < WIDTH && y >= 0 && y < HEIGHT {
        col := x;
        row := y;
        transcript := transcript.(row := Top(transcript) + y, col := x);
      }
    }
  }
}
