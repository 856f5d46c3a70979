// kernel/fb.c on the pixels themselves: fb_draw_char, fb_scroll, fb_clear and fb_putchar.
module FbPixels {
  import opened Sgr
  import opened Framebuffer
  import opened Pages

  // Whether a character's glyph covers a row and column of its 8 by 8 block.
  type Font = (char, nat, nat) -> bool

  // The colour that a log leaves on one pixel, for h rows of text.
  ghost function Look(font: Font, h: nat, log: seq<Mark>, x: nat, y: nat): nat
    decreases |log|, 0
  {
    if log == [] then 0 else Over(font, h, log[..|log| - 1], log[|log| - 1], x, y)
  }

  ghost function Over(font: Font, h: nat, log: seq<Mark>, m: Mark, x: nat, y: nat): nat
    decreases |log|, 1
  {
    match m
    case Drawn(cx, cy, c, fg, bg) =>
      if x / 8 == cx && y / 8 == cy then (if font(c, y % 8, x % 8) then fg else bg) else Look(font, h, log, x, y)
    case Scrolled(bg) => if y + 8 < h * 8 then Look(font, h, log, x, y + 8) else bg
    case Wiped(bg) => bg
  }

  lemma LookLast(font: Font, h: nat, log: seq<Mark>, m: Mark, x: nat, y: nat)
    ensures Look(font, h, log + [m], x, y) == Over(font, h, log, m, x, y)
  {
    assert (log + [m])[..|log|] == log;
  }

  class Console {
    const pixels: array2<nat>
    const escBuf: array<char>
    const font: Font
    const w: nat
    const h: nat
    var cx: nat
    var cy: nat
    var fg: nat
    var bg: nat
    var inEsc: bool
    var escLen: nat
    ghost var log: seq<Mark>

    ghost predicate Shape()
      reads this
    {
      && escBuf.Length == 32 && escLen <= 31 && cx < w && cy < h
      && w == pixels.Length1 / 8 && h == pixels.Length0 / 8
    }

    // Every pixel has the colour that the log leaves on it.
    ghost predicate Seen()
      reads this, pixels
    {
      forall y: nat, x: nat | y < pixels.Length0 && x < pixels.Length1 :: pixels[y, x] == Look(font, h, log, x, y)
    }

    ghost function State(): Fb
      reads this, escBuf
      requires Shape()
    {
      Fb(w, h, cx, cy, fg, bg, inEsc, escBuf[..escLen], log)
    }

    constructor (width: nat, height: nat, font: Font)
      requires width >= 8 && height >= 8
      ensures Shape() && Seen() && w == width / 8 && h == height / 8 && this.font == font
      ensures fresh(pixels) && fresh(escBuf)
      ensures State() == Fb(w, h, 0, 0, LIGHT_GREY, 0, false, "", [])
    {
      pixels := new nat[height, width]((_, _) => 0);
      escBuf := new char[32];
      this.font, w, h := font, width / 8, height / 8;
      cx, cy, fg, bg, inEsc, escLen := 0, 0, LIGHT_GREY, 0, false, 0;
      log := [];
    }

    // fb_draw_char: one block.
    method DrawChar(x: nat, c: char)
      requires Shape() && Seen() && x < w
      modifies pixels, this`log
      ensures Shape() && Seen() && log == old(log) + [Drawn(x, cy, c, fg, bg)]
    {
      ghost var was := log;
      var row := 0;
      while row < 8
        invariant row <= 8 && log == was
        invariant Blocks(was, x, c, row, 0)
      {
        DrawRow(x, c, row);
        row := row + 1;
      }
      log := log + [Drawn(x, cy, c, fg, bg)];
      forall py: nat, px: nat | py < pixels.Length0 && px < pixels.Length1
        ensures pixels[py, px] == Look(font, h, log, px, py)
      {
        LookLast(font, h, was, Drawn(x, cy, c, fg, bg), px, py);
      }
    }

    // The first rows of the block at x, and the first columns of the next row, are drawn.
    ghost predicate Blocks(was: seq<Mark>, x: nat, c: char, row: nat, col: nat)
      reads this, pixels
    {
      forall py: nat, px: nat | py < pixels.Length0 && px < pixels.Length1 ::
        pixels[py, px] == Block(was, x, c, row, col, px, py)
    }

    ghost function Block(was: seq<Mark>, x: nat, c: char, row: nat, col: nat, px: nat, py: nat): nat
      reads this
    {
      if px / 8 == x && py / 8 == cy && (py % 8 < row || (py % 8 == row && px % 8 < col))
      then (if font(c, py % 8, px % 8) then fg else bg)
      else Look(font, h, was, px, py)
    }

    method DrawRow(x: nat, c: char, row: nat)
      requires Shape() && x < w && row < 8 && Blocks(log, x, c, row, 0)
      modifies pixels
      ensures Blocks(log, x, c, row + 1, 0)
    {
      var col := 0;
      while col < 8
        invariant col <= 8 && Blocks(log, x, c, row, col)
      {
        var px, py := x * 8 + col, cy * 8 + row;
        if px < pixels.Length1 && py < pixels.Length0 {
          pixels[py, px] := if font(c, row, col) then fg else bg;
        }
        col := col + 1;
      }
    }

    // fb_scroll.
    method Scroll()
      requires Shape() && Seen()
      modifies pixels, this`log
      ensures Shape() && Seen() && log == old(log) + [Scrolled(bg)]
    {
      ghost var was, m := log, Scrolled(bg);
      var y := 0;
      while y < (h - 1) * 8
        invariant y <= (h - 1) * 8 && Moved(log, m, y) && log == was
      {
        MoveRow(y);
        y := y + 1;
      }
      while y < pixels.Length0
        invariant (h - 1) * 8 <= y <= pixels.Length0 && Moved(log, m, y) && log == was
      {
        ClearRow(y, log, m);
        y := y + 1;
      }
      log := log + [m];
      Settled(was, m);
    }

    // The rows above y are as after m, the others as before.
    ghost predicate Moved(was: seq<Mark>, m: Mark, y: nat)
      reads this, pixels
    {
      forall py: nat, px: nat | py < pixels.Length0 && px < pixels.Length1 ::
        pixels[py, px] == if py < y then Over(font, h, was, m, px, py) else Look(font, h, was, px, py)
    }

    lemma Settled(was: seq<Mark>, m: Mark)
      requires Moved(was, m, pixels.Length0) && log == was + [m]
      ensures Seen()
    {
      forall py: nat, px: nat | py < pixels.Length0 && px < pixels.Length1
        ensures pixels[py, px] == Look(font, h, log, px, py)
      {
        LookLast(font, h, was, m, px, py);
      }
    }

    method MoveRow(y: nat)
      requires Shape() && y + 8 < h * 8 && Moved(log, Scrolled(bg), y)
      modifies pixels
      ensures Moved(log, Scrolled(bg), y + 1)
    {
      var x := 0;
      while x < pixels.Length1
        invariant x <= pixels.Length1
        invariant forall py: nat, px: nat | py < pixels.Length0 && px < pixels.Length1 ::
            pixels[py, px] ==
              if py < y || (py == y && px < x) then Over(font, h, log, Scrolled(bg), px, py)
              else Look(font, h, log, px, py)
      {
        pixels[y, x] := pixels[y + 8, x];
        x := x + 1;
      }
    }

    method ClearRow(y: nat, ghost was: seq<Mark>, ghost m: Mark)
      requires y < pixels.Length0 && Moved(was, m, y)
      requires m == Wiped(bg) || (m == Scrolled(bg) && y + 8 >= h * 8)
      modifies pixels
      ensures Moved(was, m, y + 1)
    {
      var x := 0;
      while x < pixels.Length1
        invariant x <= pixels.Length1
        invariant forall py: nat, px: nat | py < pixels.Length0 && px < pixels.Length1 ::
            pixels[py, px] ==
              if py < y || (py == y && px < x) then Over(font, h, was, m, px, py)
              else Look(font, h, was, px, py)
      {
        pixels[y, x] := bg;
        x := x + 1;
      }
    }

    // fb_clear with the background.
    method Wipe()
      requires Shape() && Seen()
      modifies pixels, this`log, this`cx, this`cy
      ensures Shape() && Seen() && log == old(log) + [Wiped(bg)] && cx == cy == 0
    {
      ghost var was, m := log, Wiped(bg);
      var y := 0;
      while y < pixels.Length0
        invariant y <= pixels.Length0 && Moved(log, m, y) && log == was
      {
        ClearRow(y, log, m);
        y := y + 1;
      }
      log := log + [m];
      Settled(was, m);
      cx, cy := 0, 0;
    }

    method LineFeed()
      requires Shape() && Seen()
      modifies pixels, this`log, this`cx, this`cy
      ensures Shape() && Seen() && State() == NewLine(old(State()))
    {
      cx := 0;
      if cy + 1 >= h {
        Scroll();
        cy := h - 1;
      } else {
        cy := cy + 1;
      }
    }

    method BlankRest()
      requires Shape() && Seen()
      modifies pixels, this`log
      ensures Shape() && Seen() && State() == BlankFrom(old(State()), cx)
    {
      ghost var s := State();
      var i := cx;
      while i < w
        invariant cx <= i <= w && Shape() && Seen()
        invariant BlankFrom(s, cx) == BlankFrom(State(), i)
        invariant State() == s.(log := log)
      {
        DrawChar(i, ' ');
        i := i + 1;
      }
    }

    method SetColours(esc: string)
      requires Shape() && esc != ""
      modifies this`fg, this`bg
      ensures Shape() && fg == FgOf(Colours(esc).fg, old(fg)) && bg == BgOf(Colours(esc).bg, old(bg))
    {
      var st := AskedFor(esc);
      fg, bg := FgOf(st.fg, fg), BgOf(st.bg, bg);
    }

    // Lines 209-249: a complete sequence.
    method ControlSequence(c: char)
      requires Shape() && Seen() && escLen > 0
      modifies pixels, this`log, this`cx, this`cy, this`fg, this`bg
      ensures Shape() && Seen() && State() == Control(old(State()), c)
    {
      if c == 'K' {
        BlankRest();
      } else if c == 'J' {
        Wipe();
      } else if c == 'H' {
        cx, cy := 0, 0;
      } else if c == 'D' {
        if cx > 0 { cx := cx - 1; }
      } else if c == 'C' {
        if cx + 1 < w { cx := cx + 1; }
      } else if c == 'm' {
        SetColours(escBuf[..escLen]);
      }
    }

    method Collect(c: char)
      requires Shape() && Seen() && inEsc
      modifies this, pixels, escBuf
      ensures Shape() && Seen() && State() == PutEscape(old(State()), c)
    {
      ghost var s := State();
      if escLen < 31 {
        escBuf[escLen] := c;
        escLen := escLen + 1;
      }
      assert State() == Collected(s, c);
      if IsFinal(c) {
        assert Collected(s, c).esc[0] == escBuf[0];
        if escLen >= 1 && escBuf[0] == '[' {
          ControlSequence(c);
        }
        inEsc := false;
        escLen := 0;
      }
    }

    // Lines 257-280: a character outside any sequence.
    method GroundChar(c: char)
      requires Shape() && Seen()
      modifies pixels, this`log, this`cx, this`cy
      ensures Shape() && Seen() && State() == PutGround(old(State()), c)
    {
      if c == '\n' {
        LineFeed();
      } else if c == '\r' {
        cx := 0;
      } else if c == 8 as char {
        if cx > 0 {
          cx := cx - 1;
          DrawChar(cx, ' ');
        }
      } else if c == '\t' {
        if (cx / 8 + 1) * 8 >= w { LineFeed(); } else { cx := (cx / 8 + 1) * 8; }
      } else {
        DrawChar(cx, Glyph(c));
        if cx + 1 >= w { LineFeed(); } else { cx := cx + 1; }
      }
    }

    // Lines 201-281.
    method Putchar(c: char)
      requires Shape() && Seen()
      modifies this, pixels, escBuf
      ensures Shape() && Seen() && State() == Put(old(State()), c)
    {
      if inEsc {
        Collect(c);
      } else if c == ESC {
        inEsc := true;
        escLen := 0;
      } else if c != 7 as char {
        GroundChar(c);
      }
    }

    // sys_write: every byte in turn.
    method Write(text: string)
      requires Shape() && Seen()
      modifies this, pixels, escBuf
      ensures Shape() && Seen() && State() == Feed(old(State()), text)
    {
      ghost var s0 := State();
      var i := 0;
      assert text[..0] == "";
      while i < |text|
        invariant i <= |text| && Shape() && Seen() && State() == Feed(s0, text[..i])
      {
        assert text[..i + 1] == text[..i] + [text[i]];
        FeedMore(s0, text[..i], [text[i]]);
        assert [text[i]][1..] == "";
        Putchar(text[i]);
        assert State() == Feed(Feed(s0, text[..i]), [text[i]]);
        i := i + 1;
      }
      assert text[..i] == text;
    }

    // One colour sequence, number by number.
    method WriteColour(lead: string, r: nat, g: nat, b: nat)
      requires Shape() && Seen()
      modifies this, pixels, escBuf
      ensures Shape() && Seen()
      ensures State() ==
        Feed(old(State()), [ESC] + "[" + lead + ";2;" + Decimal(r) + ";" + Decimal(g) + ";" + Decimal(b) + "m")
    {
      var rev := WriteNumber(r);
      var text := [ESC] + "[" + lead + ";2;";
      ghost var s0 := State();
      Write(text);
      FeedMore(s0, text, rev);
      Write(rev);
      FeedMore(s0, text + rev, ";");
      Write(";");
      text := text + rev + ";";
      rev := WriteNumber(g);
      FeedMore(s0, text, rev);
      Write(rev);
      FeedMore(s0, text + rev, ";");
      Write(";");
      text := text + rev + ";";
      rev := WriteNumber(b);
      FeedMore(s0, text, rev);
      Write(rev);
      FeedMore(s0, text + rev, "m");
      Write("m");
    }

    // Lines 300-306.
    method RgbPrint(t: string, r: nat, g: nat, b: nat)
      requires Shape() && Seen() && r < 256 && g < 256 && b < 256
      modifies this, pixels, escBuf
      ensures Shape() && Seen() && State() == Feed(old(State()), RgbText(t, r, g, b))
      ensures old(Ground(State())) && NoEscape(t) ==> DrewIn(old(State()), State(), t, Pack(Rgb(r, g, b)), old(bg))
    {
      ghost var s0 := State();
      ghost var one := Sequence(ColourBody(38, r, g, b));
      SequenceText(r, g, b);
      WriteColour("38", r, g, b);
      FeedMore(s0, one, t);
      Write(t);
      FeedMore(s0, one + t, Sequence("0"));
      Write([ESC] + "[0" + "m");
      assert Sequence("0") == [ESC] + "[0" + "m";
      if Ground(s0) && NoEscape(t) {
        var marks := RgbPrintDraws(s0, t, r, g, b);
        assert State().log[|s0.log|..] == marks;
      }
    }

    // Lines 307-316.
    method RgbPrintBg(t: string, r: nat, g: nat, b: nat, br: nat, bgr: nat, bb: nat)
      requires Shape() && Seen() && r < 256 && g < 256 && b < 256 && br < 256 && bgr < 256 && bb < 256
      modifies this, pixels, escBuf
      ensures Shape() && Seen() && State() == Feed(old(State()), RgbBgText(t, r, g, b, br, bgr, bb))
      ensures old(Ground(State())) && NoEscape(t) ==>
        DrewIn(old(State()), State(), t, Pack(Rgb(r, g, b)), Pack(Rgb(br, bgr, bb)))
    {
      ghost var s0 := State();
      ghost var one, two := Sequence(ColourBody(38, r, g, b)), Sequence(ColourBody(48, br, bgr, bb));
      SequenceText(r, g, b);
      SequenceText(br, bgr, bb);
      WriteColour("38", r, g, b);
      FeedMore(s0, one, two);
      WriteColour("48", br, bgr, bb);
      FeedMore(s0, one + two, t);
      Write(t);
      FeedMore(s0, one + two + t, Sequence("0"));
      Write([ESC] + "[0" + "m");
      assert Sequence("0") == [ESC] + "[0" + "m";
      if Ground(s0) && NoEscape(t) {
        var marks := RgbPrintBgDraws(s0, t, r, g, b, br, bgr, bb);
        assert State().log[|s0.log|..] == marks;
      }
    }
  }

  // From s to e the text was drawn in these colours and the defaults are back.
  ghost predicate DrewIn(s: Fb, e: Fb, t: string, fg: nat, bg: nat) {
    && Ground(e) && e.fg == LIGHT_GREY && e.bg == 0
    && |s.log| <= |e.log| && e.log[..|s.log|] == s.log
    && AllIn(e.log[|s.log|..], fg, bg)
    && (8 as char !in t ==> Inked(e.log[|s.log|..]) == Printed(t))
  }

  // The pieces the printer writes are the sequence of the body.
  lemma SequenceText(r: nat, g: nat, b: nat)
    ensures [ESC] + "[" + "38" + ";2;" + Decimal(r) + ";" + Decimal(g) + ";" + Decimal(b) + "m"
         == Sequence(ColourBody(38, r, g, b))
    ensures [ESC] + "[" + "48" + ";2;" + Decimal(r) + ";" + Decimal(g) + ";" + Decimal(b) + "m"
         == Sequence(ColourBody(48, r, g, b))
  {
    FixedFields();
    Pieces("38;2;", Decimal(r), Decimal(g), Decimal(b));
    Pieces("48;2;", Decimal(r), Decimal(g), Decimal(b));
    assert [ESC] + "[" + "38" + ";2;" == [ESC] + "[" + "38;2;";
    assert [ESC] + "[" + "48" + ";2;" == [ESC] + "[" + "48;2;";
  }

  lemma Pieces(lead: string, r: string, g: string, b: string)
    ensures [ESC] + "[" + lead + r + ";" + g + ";" + b + "m" == [ESC] + ("[" + (lead + r + ";" + g + ";" + b)) + "m"
  {
  }
}
