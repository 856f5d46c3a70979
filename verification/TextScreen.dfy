// The text screen of kernel/main.c as a value: what vga_putchar makes of one character.
module TextScreen {
  import opened Sgr
  import opened Pages

  datatype Cell = Cell(c: char, colour: nat)

  // Cells row by row, the cursor, the colours, and the escape sequence being collected.
  datatype Screen = Screen(cells: seq<Cell>, row: nat, col: nat, fg: nat, bg: nat, inEsc: bool, esc: string)

  ghost predicate Valid(s: Screen) {
    |s.cells| == 2000 && s.row < 25 && s.col < 80 && s.fg < 16 && s.bg < 8 && |s.esc| <= 31
  }

  // ---- Colours ----

  function Dist(a: Ink, b: Ink): nat
    requires a.Rgb? && b.Rgb?
    ensures Dist(a, b) == 0 <==> a == b
  {
    Square(a.r - b.r) + Square(a.g - b.g) + Square(a.b - b.b)
  }

  function Square(x: int): (y: nat)
    ensures y == 0 <==> x == 0
  {
    if x > 0 then x * x else -x * -x
  }

  lemma SquareSmall(x: int)
    requires -256 < x < 256
    ensures Square(x) <= 65536
  {
    var y := if x > 0 then x else -x;
    assert y * y <= y * 256 <= 256 * 256;
  }

  lemma PaletteRgb(i: nat)
    requires i < 16
    ensures IsRgb(PALETTE16[i])
  {
  }

  lemma DistIs(a: Ink, b: Ink)
    requires a.Rgb? && b.Rgb?
    ensures Dist(a, b) == (a.r - b.r) * (a.r - b.r) + (a.g - b.g) * (a.g - b.g) + (a.b - b.b) * (a.b - b.b)
  {
    SquareIs(a.r - b.r);
    SquareIs(a.g - b.g);
    SquareIs(a.b - b.b);
  }

  lemma SquareIs(x: int)
    ensures Square(x) == x * x
  {
    assert -x * -x == x * x;
  }

  // No distance reaches what the search starts from.
  lemma DistSmall(a: Ink, i: nat)
    requires IsRgb(a) && i < 16
    ensures Dist(a, PALETTE16[i]) < 0x7fffffff
  {
    PaletteRgb(i);
    var b := PALETTE16[i];
    SquareSmall(a.r - b.r);
    SquareSmall(a.g - b.g);
    SquareSmall(a.b - b.b);
  }

  // The first of the n first palette entries that is nearest.
  function Best(palette: seq<Ink>, c: Ink, n: nat): (k: nat)
    requires c.Rgb? && 1 <= n <= |palette| && forall i | 0 <= i < |palette| :: palette[i].Rgb?
    ensures k < n
    ensures forall i | 0 <= i < n :: Dist(c, palette[k]) <= Dist(c, palette[i])
    ensures forall i | 0 <= i < k :: Dist(c, palette[k]) < Dist(c, palette[i])
  {
    if n == 1 then 0
    else if Dist(c, palette[n - 1]) < Dist(c, palette[Best(palette, c, n - 1)]) then n - 1
    else Best(palette, c, n - 1)
  }

  function Nearest(c: Ink): nat
    requires c.Rgb?
  {
    Best(PALETTE16, c, 16)
  }

  lemma PaletteDiffers(i: nat, j: nat)
    requires i < j < 16
    ensures PALETTE16[i] != PALETTE16[j]
  {
  }

  // A palette colour stands for itself.
  lemma NearestExact(i: nat)
    requires i < 16
    ensures Nearest(PALETTE16[i]) == i
  {
    var k := Nearest(PALETTE16[i]);
    assert Dist(PALETTE16[i], PALETTE16[i]) == 0;
    assert Dist(PALETTE16[i], PALETTE16[k]) == 0;
    if k < i { PaletteDiffers(k, i); }
  }

  function FgOf(c: Ink, old_: nat): nat {
    match c
    case Keep => old_
    case Default => 7
    case Rgb(_, _, _) => Nearest(c)
  }

  function BgOf(c: Ink, old_: nat): nat {
    match c
    case Keep => old_
    case Default => 0
    case Rgb(_, _, _) => Nearest(c) % 8
  }

  function Blank(s: Screen): Cell { Cell(' ', s.fg + 16 * s.bg) }

  // ---- One character ----

  function Blanks(n: nat, b: Cell): seq<Cell> { seq(n, _ => b) }

  // Cells from i to j turn to b.
  function Fill(cells: seq<Cell>, i: nat, j: nat, b: Cell): seq<Cell>
    requires i <= j <= |cells|
  {
    cells[..i] + Blanks(j - i, b) + cells[j..]
  }

  lemma FillMore(cells: seq<Cell>, i: nat, k: nat, b: Cell)
    requires i <= k < |cells|
    ensures Fill(cells, i, i, b) == cells
    ensures Fill(cells, i, k + 1, b) == Fill(cells, i, k, b)[k := b]
  {
  }

  function NewLine(s: Screen): Screen
    requires Valid(s)
  {
    if s.row < 24 then s.(row := s.row + 1, col := 0)
    else s.(cells := s.cells[80..] + Blanks(80, Blank(s)), row := 24, col := 0)
  }

  function Back(s: Screen): Screen
    requires Valid(s)
  {
    if s.col > 0 then s.(col := s.col - 1)
    else if s.row > 0 then s.(row := s.row - 1, col := 79)
    else s
  }

  // A complete sequence whose first character is the bracket.
  function Control(s: Screen, c: char): Screen
    requires Valid(s) && s.esc != ""
  {
    if c == 'K' then s.(cells := Fill(s.cells, s.row * 80 + s.col, s.row * 80 + 80, Blank(s)))
    else if c == 'J' then s.(cells := Blanks(2000, Blank(s)), row := 0, col := 0)
    else if c == 'H' then s.(row := 0, col := 0)
    else if c == 'D' then Back(s)
    else if c == 'C' then
      if s.col < 79 then s.(col := s.col + 1)
      else s.(col := 0, row := if s.row < 24 then s.row + 1 else s.row)
    else if c == 'm' then
      var st := Colours(s.esc);
      s.(fg := FgOf(st.fg, s.fg), bg := BgOf(st.bg, s.bg))
    else s
  }

  function PutEscape(s: Screen, c: char): Screen
    requires Valid(s)
  {
    var t := s.(esc := if |s.esc| < 31 then s.esc + [c] else s.esc);
    if !IsFinal(c) then t
    else (if t.esc[0] == '[' then Control(t, c) else t).(inEsc := false, esc := "")
  }

  function PutGround(s: Screen, c: char): Screen
    requires Valid(s)
  {
    if c == '\n' then NewLine(s)
    else if c == '\r' then s.(col := 0)
    else if c == '\t' then
      var k := TabStop(s.col);
      if k >= 80 then NewLine(s) else s.(col := k)
    else if c == 8 as char || c == 127 as char then
      if s.row == 0 && s.col == 0 then s
      else
        var t := Back(s);
        t.(cells := t.cells[t.row * 80 + t.col := Blank(s)])
    else
      var t := s.(cells := s.cells[s.row * 80 + s.col := Cell(c, s.fg + 16 * s.bg)]);
      if s.col < 79 then t.(col := s.col + 1) else NewLine(t)
  }

  function Put(s: Screen, c: char): Screen
    requires Valid(s)
  {
    if s.inEsc then PutEscape(s, c)
    else if c == ESC then s.(inEsc := true, esc := "")
    else if c == 7 as char then s
    else PutGround(s, Glyph(c))
  }

  // Any byte at all keeps the cursor, the colours and the escape length in range.
  lemma PutValid(s: Screen, c: char)
    requires Valid(s)
    ensures Valid(Put(s, c))
  {
    if s.inEsc {
      EscapeValid(s, c);
    } else {
      GroundValid(s, Glyph(c));
    }
  }

  lemma EscapeValid(s: Screen, c: char)
    requires Valid(s)
    ensures Valid(PutEscape(s, c))
  {
  }

  lemma GroundValid(s: Screen, c: char)
    requires Valid(s)
    ensures Valid(PutGround(s, c))
  {
  }

  // ---- A run of characters ----

  ghost function Feed(s: Screen, text: string): Screen
    requires Valid(s)
    ensures Valid(Feed(s, text))
    decreases |text|
  {
    if text == "" then s
    else
      PutValid(s, text[0]);
      Feed(Put(s, text[0]), text[1..])
  }

  lemma {:induction false} FeedMore(s: Screen, a: string, b: string)
    requires Valid(s)
    ensures Feed(s, a + b) == Feed(Feed(s, a), b)
    decreases |a|
  {
    if a == "" {
      assert a + b == b;
    } else {
      PutValid(s, a[0]);
      FeedMore(Put(s, a[0]), a[1..], b);
      assert (a + b)[1..] == a[1..] + b;
    }
  }

  lemma FeedOne(s: Screen, a: string, c: char)
    requires Valid(s)
    ensures Feed(s, a + [c]) == Put(Feed(s, a), c)
  {
    FeedMore(s, a, [c]);
    PutValid(Feed(s, a), c);
    assert [c][1..] == "";
  }

  // The screen after vga_clear, out of any escape sequence.
  function Cleared(s: Screen): Screen { s.(cells := Blanks(2000, Cell(' ', 15)), row := 0, col := 0) }
}
