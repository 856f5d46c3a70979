// kernel/main.c: vga_putchar and vga_clear on the text buffer.
module Vga {
  import opened Sgr
  import opened TextScreen
  import opened Pages

  class Display {
    const buffer: array<Cell>
    const escBuf: array<char>
    var row: nat
    var col: nat
    var fg: nat
    var bg: nat
    var inEsc: bool
    var escLen: nat

    ghost predicate Shape()
      reads this
    {
      && buffer.Length == 2000 && escBuf.Length == 32 && escLen <= 31
      && row < 25 && col < 80 && fg < 16 && bg < 8
    }

    ghost function State(): Screen
      reads this, buffer, escBuf
      requires Shape()
    {
      Screen(buffer[..], row, col, fg, bg, inEsc, escBuf[..escLen])
    }

    constructor ()
      ensures Shape() && State() == Cleared(State()) && !inEsc && fg == 7 && bg == 0
      ensures fresh(buffer) && fresh(escBuf)
    {
      buffer := new Cell[2000](_ => Cell(' ', 15));
      escBuf := new char[32];
      row, col, fg, bg, inEsc, escLen := 0, 0, 7, 0, false, 0;
    }

    function Blanked(): Cell
      reads this
    {
      Cell(' ', fg + 16 * bg)
    }

    method FillCells(i: nat, j: nat, b: Cell)
      requires i <= j <= buffer.Length
      modifies buffer
      ensures buffer[..] == Fill(old(buffer[..]), i, j, b)
    {
      var k := i;
      while k < j
        invariant i <= k <= j
        invariant buffer[..] == Fill(old(buffer[..]), i, k, b)
      {
        ghost var was := buffer[..];
        buffer[k] := b;
        assert buffer[..] == was[k := b];
        FillMore(old(buffer[..]), i, k, b);
        k := k + 1;
      }
    }

    // Lines 90-105.
    method Clear()
      requires Shape()
      modifies this`row, this`col, buffer
      ensures Shape() && State() == Cleared(old(State()))
    {
      FillCells(0, 2000, Cell(' ', 15));
      row, col := 0, 0;
    }

    method ShiftUp()
      requires buffer.Length == 2000
      modifies buffer
      ensures buffer[..] == old(buffer[..])[80..] + old(buffer[..])[1920..]
    {
      ghost var was := buffer[..];
      var i := 0;
      while i < 1920
        invariant i <= 1920
        invariant buffer[..i] == was[80..80 + i] && buffer[i..] == was[i..]
      {
        assert buffer[i + 80] == buffer[i..][80] == was[i + 80];
        buffer[i] := buffer[i + 80];
        assert buffer[i + 1..] == was[i..][1..];
        i := i + 1;
      }
      assert buffer[..] == buffer[..i] + buffer[i..];
    }

    method LineFeed()
      requires Shape()
      modifies this`row, this`col, buffer
      ensures Shape() && State() == NewLine(old(State()))
    {
      ghost var was := buffer[..];
      col := 0;
      row := row + 1;
      if row >= 25 {
        ShiftUp();
        ghost var mid := buffer[..];
        FillCells(1920, 2000, Blanked());
        assert mid[..1920] == was[80..];
        row := 24;
      }
    }

    // Lines 119-159: a complete sequence.
    method ControlSequence(c: char, ghost s: Screen)
      requires Shape() && escLen > 0 && State() == s
      modifies this`row, this`col, this`fg, this`bg, buffer
      ensures Shape() && State() == TextScreen.Control(s, c)
    {
      if c == 'K' {
        FillCells(row * 80 + col, row * 80 + 80, Blanked());
      } else if c == 'J' {
        FillCells(0, 2000, Blanked());
        row, col := 0, 0;
      } else if c == 'H' {
        row, col := 0, 0;
      } else if c == 'D' {
        StepBack();
      } else if c == 'C' {
        if col < 79 {
          col := col + 1;
        } else {
          col := 0;
          if row < 24 { row := row + 1; }
        }
      } else if c == 'm' {
        SetColours(escBuf[..escLen]);
      }
    }

    method StepBack()
      requires Shape()
      modifies this`row, this`col
      ensures Shape() && State() == Back(old(State()))
    {
      if col > 0 {
        col := col - 1;
      } else if row > 0 {
        row, col := row - 1, 79;
      }
    }

    method SetColours(esc: string)
      requires Shape() && esc != ""
      modifies this`fg, this`bg
      ensures Shape() && fg == FgOf(Colours(esc).fg, old(fg)) && bg == BgOf(Colours(esc).bg, old(bg))
    {
      var st := AskedFor(esc);
      if st.fg == Default { fg := 7; } else if st.fg.Rgb? { fg := NearestColour(st.fg); }
      if st.bg == Default { bg := 0; } else if st.bg.Rgb? { var k := NearestColour(st.bg); bg := k % 8; }
    }

    // Lines 71-82.
    method NearestColour(c: Ink) returns (best: nat)
      requires IsRgb(c)
      ensures best == Nearest(c) < 16
    {
      forall i: nat | i < 16 ensures Dist(c, PALETTE16[i]) < 0x7fffffff { DistSmall(c, i); }
      best := Search(PALETTE16, c);
    }

    method Search(palette: seq<Ink>, c: Ink) returns (best: nat)
      requires |palette| == 16 && c.Rgb? && forall i | 0 <= i < 16 :: palette[i].Rgb?
      requires forall i | 0 <= i < 16 :: Dist(c, palette[i]) < 0x7fffffff
      ensures best == Best(palette, c, 16)
    {
      var bestd: nat := 0x7fffffff;
      best := 0;
      var i := 0;
      while i < 16
        invariant i <= 16 && best < 16
        invariant if i == 0 then bestd == 0x7fffffff else best == Best(palette, c, i) && bestd == Dist(c, palette[best])
      {
        var d := Dist(c, palette[i]);
        if d < bestd { bestd, best := d, i; }
        i := i + 1;
      }
    }

    // Lines 115-164: one more character of an escape sequence.
    method Collect(c: char)
      requires Shape() && inEsc
      modifies this, buffer, escBuf
      ensures Shape() && State() == PutEscape(old(State()), c)
    {
      ghost var s := State();
      if escLen < 31 {
        escBuf[escLen] := c;
        escLen := escLen + 1;
      }
      ghost var t := s.(esc := if |s.esc| < 31 then s.esc + [c] else s.esc);
      assert State() == t;
      if IsFinal(c) {
        assert t.esc[0] == escBuf[0];
        if escLen >= 1 && escBuf[0] == '[' {
          ControlSequence(c, t);
        }
        inEsc := false;
        escLen := 0;
      }
    }

    // Lines 171-221: a character outside any sequence.
    method Ground(c: char)
      requires Shape()
      modifies this`row, this`col, buffer
      ensures Shape() && State() == PutGround(old(State()), c)
    {
      if c == '\n' {
        LineFeed();
      } else if c == '\r' {
        col := 0;
      } else if c == '\t' {
        Tab();
      } else if c == 8 as char || c == 127 as char {
        Rubout();
      } else {
        Draw(c);
      }
    }

    method Tab()
      requires Shape()
      modifies this`row, this`col, buffer
      ensures Shape() && State() == PutGround(old(State()), '\t')
    {
      var k := (col / 8 + 1) * 8;
      if k >= 80 {
        LineFeed();
      } else {
        col := k;
      }
    }

    method Rubout()
      requires Shape()
      modifies this`row, this`col, buffer
      ensures Shape() && State() == PutGround(old(State()), 8 as char)
    {
      ghost var was := buffer[..];
      if col > 0 || row > 0 {
        StepBack();
        buffer[row * 80 + col] := Blanked();
        assert buffer[..] == was[row * 80 + col := Blanked()];
      }
    }

    method Draw(c: char)
      requires Shape() && c !in "\n\r\t" && c != 8 as char && c != 127 as char
      modifies this`row, this`col, buffer
      ensures Shape() && State() == PutGround(old(State()), c)
    {
      ghost var was := buffer[..];
      buffer[row * 80 + col] := Cell(c, fg + 16 * bg);
      assert buffer[..] == was[row * 80 + col := Cell(c, fg + 16 * bg)];
      if col + 1 >= 80 {
        LineFeed();
      } else {
        col := col + 1;
      }
    }

    // Lines 108-221.
    method Putchar(c: char)
      requires Shape()
      modifies this, buffer, escBuf
      ensures Shape() && State() == Put(old(State()), c)
    {
      if inEsc {
        Collect(c);
      } else if c == ESC {
        inEsc := true;
        escLen := 0;
      } else if c != 7 as char {
        Ground(Glyph(c));
      }
    }

    method Write(text: string)
      requires Shape()
      modifies this, buffer, escBuf
      ensures Shape() && State() == Feed(old(State()), text)
    {
      ghost var s0 := State();
      var i := 0;
      assert text[..0] == "";
      while i < |text|
        invariant i <= |text| && Shape() && State() == Feed(s0, text[..i])
      {
        assert text[..i + 1] == text[..i] + [text[i]];
        FeedOne(s0, text[..i], text[i]);
        Putchar(text[i]);
        i := i + 1;
      }
      assert text[..i] == text;
    }
  }
}
