// The pixel terminal of kernel/fb.c shows the last rows of a page without end, as wide as
// the screen: character by character, and on the pixels.
module FbScroll {
  import opened Sgr
  import opened Pages
  import opened Framebuffer
  import F = FbPixels

  // ---- What a log leaves on each character cell ----

  datatype Cell = Plain(bg: nat) | Char(c: char, fg: nat, bg: nat)

  ghost function CellAt(h: nat, log: seq<Mark>, k: nat, r: nat): Cell
    decreases |log|, 0
  {
    if log == [] then Plain(0) else CellAfter(h, log[..|log| - 1], log[|log| - 1], k, r)
  }

  ghost function CellAfter(h: nat, log: seq<Mark>, m: Mark, k: nat, r: nat): Cell
    decreases |log|, 1
  {
    match m
    case Drawn(x, y, c, fg, bg) => if k == x && r == y then Char(c, fg, bg) else CellAt(h, log, k, r)
    case Scrolled(bg) => if r + 1 < h then CellAt(h, log, k, r + 1) else Plain(bg)
    case Wiped(bg) => Plain(bg)
  }

  lemma CellLast(h: nat, log: seq<Mark>, m: Mark, k: nat, r: nat)
    ensures CellAt(h, log + [m], k, r) == CellAfter(h, log, m, k, r)
  {
    assert (log + [m])[..|log|] == log;
  }

  // A pixel of the text area has the colour that the glyph in its cell gives it.
  ghost function Pixel(font: F.Font, cell: Cell, x: nat, y: nat): nat {
    match cell
    case Plain(bg) => bg
    case Char(c, fg, bg) => if font(c, y % 8, x % 8) then fg else bg
  }

  lemma {:induction false} PixelOfCell(font: F.Font, h: nat, log: seq<Mark>, x: nat, y: nat)
    requires y / 8 < h
    ensures F.Look(font, h, log, x, y) == Pixel(font, CellAt(h, log, x / 8, y / 8), x, y)
    decreases |log|
  {
    if log != [] {
      var less := log[..|log| - 1];
      PixelOfCell(font, h, less, x, y);
      if y / 8 + 1 < h { PixelOfCell(font, h, less, x, y + 8); }
    }
  }

  // ---- The page ----

  predicate Flows(c: char) { c != ESC && c != 8 as char }

  predicate AllFlow(text: string) { forall i | 0 <= i < |text| :: Flows(text[i]) }

  // A cell holds a character of the page in the colours set, or is a blank of that colour.
  predicate CellShows(cell: Cell, c: char, fg: nat, bg: nat) {
    cell == Char(c, fg, bg) || (c == ' ' && cell == Plain(bg))
  }

  ghost predicate Shows(s: Fb, d: Page) {
    && Valid(s) && Ground(s) && PageOk(d) && d.w == s.w
    && s.cy + Top(d, s.h) + 1 == |d.rows| && s.cx == d.col
    && forall r: nat, k: nat | r < s.h && k < s.w :: ShowsAt(s, d, r, k)
  }

  ghost predicate ShowsAt(s: Fb, d: Page, r: nat, k: nat)
    requires k < s.w && PageOk(d) && d.w == s.w
  {
    CellShows(CellAt(s.h, s.log, k, r), PageAt(d, Top(d, s.h) + r, k), s.fg, s.bg)
  }

  lemma ShowsNewLine(s: Fb, d: Page)
    requires Shows(s, d)
    ensures Shows(NewLine(s), Open(d))
  {
    var t, e := NewLine(s), Open(d);
    forall r: nat, k: nat | r < s.h && k < s.w ensures ShowsAt(t, e, r, k) {
      assert ShowsAt(s, d, r, k);
      if s.cy + 1 == s.h {
        CellLast(s.h, s.log, Scrolled(s.bg), k, r);
        if r + 1 < s.h { assert ShowsAt(s, d, r + 1, k); }
      }
    }
  }

  lemma ShowsCell(s: Fb, d: Page, c: char)
    requires Shows(s, d)
    ensures var last := |d.rows| - 1; Shows(Paint1(s, s.cx, c), d.(rows := d.rows[last := d.rows[last][d.col := c]]))
  {
    var last := |d.rows| - 1;
    var t, e := Paint1(s, s.cx, c), d.(rows := d.rows[last := d.rows[last][d.col := c]]);
    forall r: nat, k: nat | r < s.h && k < s.w ensures ShowsAt(t, e, r, k) {
      CellLast(s.h, s.log, Drawn(s.cx, s.cy, c, s.fg, s.bg), k, r);
      assert ShowsAt(s, d, r, k);
    }
  }

  lemma ShowsMoved(s: Fb, d: Page, col: nat)
    requires Shows(s, d) && col < s.w
    ensures Shows(s.(cx := col), d.(col := col))
  {
    forall r: nat, k: nat | r < s.h && k < s.w ensures ShowsAt(s.(cx := col), d.(col := col), r, k) {
      assert ShowsAt(s, d, r, k);
    }
  }

  lemma ShowsDrawn(s: Fb, d: Page, g: char)
    requires Shows(s, d) && Flows(g) && g !in "\n\r\t" && g != 7 as char && Glyph(g) == g
    ensures Shows(Put(s, g), Draw(d, g))
  {
    var last := |d.rows| - 1;
    ShowsCell(s, d, g);
    var t, e := Paint1(s, s.cx, g), d.(rows := d.rows[last := d.rows[last][d.col := g]]);
    if s.cx + 1 < s.w { ShowsMoved(t, e, s.cx + 1); } else { ShowsNewLine(t, e); }
  }

  // One character keeps screen and page together.
  lemma ShowsStep(s: Fb, d: Page, c: char)
    requires Shows(s, d) && Flows(c)
    ensures Shows(Put(s, c), Lay(d, c)) && Put(s, c).fg == s.fg && Put(s, c).bg == s.bg
  {
    if c == '\n' {
      ShowsNewLine(s, d);
    } else if c == '\r' {
      ShowsMoved(s, d, 0);
    } else if c == '\t' {
      if TabStop(s.cx) >= s.w { ShowsNewLine(s, d); } else { ShowsMoved(s, d, TabStop(s.cx)); }
    } else if c != 7 as char {
      ShowsDrawn(s, d, Glyph(c));
      assert Put(s, c) == Put(s, Glyph(c));
    }
  }

  lemma {:induction false} ShowsRun(s: Fb, d: Page, text: string)
    requires Shows(s, d) && AllFlow(text)
    ensures var e := Feed(s, text);
      Shows(e, LayAll(d, text)) && e.w == s.w && e.h == s.h && e.fg == s.fg && e.bg == s.bg
    decreases |text|
  {
    if text != "" {
      ShowsStep(s, d, text[0]);
      ShowsRun(Put(s, text[0]), Lay(d, text[0]), text[1..]);
    }
  }

  // A terminal with nothing on it.
  predicate Fresh(s: Fb) { s.cx == 0 && s.cy == 0 && !s.inEsc && s.esc == "" && s.log == [] && s.bg == 0 }

  // From a fresh terminal on, any text without escapes and backspaces: the screen shows the
  // last rows of its page.
  lemma ScreenIsEndOfPage(s: Fb, text: string)
    requires Valid(s) && Fresh(s) && AllFlow(text)
    ensures Shows(Feed(s, text), LayAll(BlankPage(s.w), text))
  {
    assert Shows(s, BlankPage(s.w)) by {
      forall r: nat, k: nat | r < s.h && k < s.w ensures ShowsAt(s, BlankPage(s.w), r, k) {}
    }
    ShowsRun(s, BlankPage(s.w), text);
  }

  // The same after the sequence that erases the screen.
  lemma ErasedIsEndOfPage(s: Fb, text: string)
    requires Valid(s) && Ground(s) && AllFlow(text)
    ensures Shows(Feed(s, [ESC] + "[J" + text), LayAll(BlankPage(s.w), text))
  {
    var e := s.(log := s.log + [Wiped(s.bg)], cx := 0, cy := 0);
    Erase(s);
    FeedMore(s, [ESC] + "[J", text);
    assert Shows(e, BlankPage(s.w)) by {
      forall r: nat, k: nat | r < s.h && k < s.w ensures ShowsAt(e, BlankPage(s.w), r, k) {
        CellLast(s.h, s.log, Wiped(s.bg), k, r);
      }
    }
    ShowsRun(e, BlankPage(s.w), text);
  }

  lemma Erase(s: Fb)
    requires Ground(s)
    ensures Feed(s, [ESC] + "[J") == s.(log := s.log + [Wiped(s.bg)], cx := 0, cy := 0)
  {
    ControlFed(s, 'J');
    assert Control(s.(inEsc := true, esc := "[J"), 'J') ==
      s.(inEsc := true, esc := "[J", log := s.log + [Wiped(s.bg)], cx := 0, cy := 0);
  }

  // A sequence of one letter.
  lemma ControlFed(s: Fb, c: char)
    requires Ground(s) && IsFinal(c)
    ensures Feed(s, [ESC] + "[" + [c]) == Control(s.(inEsc := true, esc := "[" + [c]), c).(inEsc := false, esc := "")
  {
    var t := s.(inEsc := true, esc := "[");
    EscapeOpens(s);
    FeedMore(s, [ESC], "[");
    assert "[" == ['['] && ['['][1..] == "";
    assert Feed(s.(inEsc := true), ['[']) == Feed(Put(s.(inEsc := true), '['), "");
    assert "" + ['['] == "[";
    FeedMore(s, [ESC] + "[", [c]);
    assert [c][1..] == "" && Feed(t, [c]) == Feed(Put(t, c), "");
    assert ("[" + [c])[0] == '[';
  }

  // Erasing to the end of the line blanks the cells from the cursor on, and no other.
  lemma ErasesLine(s: Fb, k: nat, r: nat)
    requires Valid(s) && Ground(s) && k < s.w && r < s.h
    ensures var e := Feed(s, [ESC] + "[K");
      && e == s.(log := e.log)
      && CellAt(s.h, e.log, k, r) == if r == s.cy && k >= s.cx then Char(' ', s.fg, s.bg) else CellAt(s.h, s.log, k, r)
  {
    var t := s.(inEsc := true, esc := "[K");
    ControlFed(s, 'K');
    assert "[" + ['K'] == "[K" && [ESC] + "[" + ['K'] == [ESC] + "[K";
    BlankFromMarks(t, s.cx);
    BlankFromCells(t, s.cx, k, r);
  }

  lemma {:induction false} BlankFromCells(s: Fb, x: nat, k: nat, r: nat)
    requires k < s.w
    ensures CellAt(s.h, BlankFrom(s, x).log, k, r) ==
      if r == s.cy && k >= x then Char(' ', s.fg, s.bg) else CellAt(s.h, s.log, k, r)
    decreases s.w - x
  {
    if x < s.w {
      BlankFromCells(Paint1(s, x, ' '), x + 1, k, r);
      CellLast(s.h, s.log, Drawn(x, s.cy, ' ', s.fg, s.bg), k, r);
    }
  }

  lemma FedOne(s: Fb, c: char)
    ensures Feed(s, [c]) == Put(s, c)
  {
    assert [c][1..] == "";
    assert Feed(s, [c]) == Feed(Put(s, c), "");
  }

  lemma LeftFed(s: Fb)
    requires Ground(s)
    ensures Feed(s, [ESC] + "[D") == if s.cx > 0 then s.(cx := s.cx - 1) else s
  {
    ControlFed(s, 'D');
    assert [ESC] + "[" + ['D'] == [ESC] + "[D";
  }

  lemma RightFed(s: Fb)
    requires Ground(s)
    ensures Feed(s, [ESC] + "[C") == if s.cx + 1 < s.w then s.(cx := s.cx + 1) else s
  {
    ControlFed(s, 'C');
    assert [ESC] + "[" + ['C'] == [ESC] + "[C";
  }

  lemma HomeFed(s: Fb)
    requires Ground(s)
    ensures Feed(s, [ESC] + "[H") == s.(cx := 0, cy := 0)
  {
    ControlFed(s, 'H');
    assert [ESC] + "[" + ['H'] == [ESC] + "[H";
  }

  // A printing character that leaves room in its row.
  lemma OneDrawn(s: Fb, c: char)
    requires Ground(s) && s.cx + 1 < s.w && Flows(c) && Printable(c)
    ensures Feed(s, [c]) == Paint1(s, s.cx, Glyph(c)).(cx := s.cx + 1)
    ensures CellAt(s.h, Paint1(s, s.cx, Glyph(c)).log, s.cx, s.cy) == Char(Glyph(c), s.fg, s.bg)
  {
    FedOne(s, c);
    CellLast(s.h, s.log, Drawn(s.cx, s.cy, Glyph(c), s.fg, s.bg), s.cx, s.cy);
  }

  // A character and a backspace: its cell is blank and the cursor where it was.
  lemma TypeThenRub(s: Fb, c: char, rub: char)
    requires Ground(s) && s.cx + 1 < s.w && Flows(c) && Printable(c) && rub == 8 as char
    ensures var e := Feed(Feed(s, [c]), [rub]);
      e == s.(log := e.log) && CellAt(s.h, e.log, s.cx, s.cy) == Char(' ', s.fg, s.bg)
  {
    var t := Paint1(s, s.cx, Glyph(c));
    OneDrawn(s, c);
    Rubbed(t.(cx := s.cx + 1), rub);
    CellLast(s.h, t.log, Drawn(s.cx, s.cy, ' ', s.fg, s.bg), s.cx, s.cy);
  }

  lemma Rubbed(s: Fb, rub: char)
    requires Ground(s) && s.cx > 0 && rub == 8 as char
    ensures Feed(s, [rub]) == Paint1(s.(cx := s.cx - 1), s.cx - 1, ' ')
  {
    FedOne(s, rub);
  }

  // A character, a cursor left, and another: that takes its place.
  lemma DrawOver(s: Fb, c: char, g: char)
    requires Ground(s) && s.cx + 1 < s.w && Flows(c) && Printable(c) && Flows(g) && Printable(g)
    ensures var e := Feed(Feed(Feed(s, [c]), [ESC] + "[D"), [g]);
      e == s.(log := e.log, cx := s.cx + 1) && CellAt(s.h, e.log, s.cx, s.cy) == Char(Glyph(g), s.fg, s.bg)
  {
    var t := Paint1(s, s.cx, Glyph(c));
    OneDrawn(s, c);
    LeftFed(t.(cx := s.cx + 1));
    OneDrawn(t, g);
  }

  // From anywhere, a home sequence makes the next character the first of the screen.
  lemma HomeFirst(s: Fb, c: char)
    requires Ground(s) && s.w > 1 && Flows(c) && Printable(c)
    ensures CellAt(s.h, Feed(Feed(s, [ESC] + "[H"), [c]).log, 0, 0) == Char(Glyph(c), s.fg, s.bg)
  {
    HomeFed(s);
    OneDrawn(s.(cx := 0, cy := 0), c);
  }

  lemma LeftThenRight(s: Fb)
    requires Ground(s) && 0 < s.cx < s.w
    ensures Feed(Feed(s, [ESC] + "[D"), [ESC] + "[C") == s && Feed(s, [ESC] + "[D").cx < s.cx
  {
    LeftFed(s);
    RightFed(s.(cx := s.cx - 1));
  }

  // ---- On the pixels ----

  // The glyph of the space has no dots.
  ghost predicate BlankSpace(font: F.Font) { forall y: nat, x: nat | y < 8 && x < 8 :: !font(' ', y, x) }

  // The pixel at x, y of a screen that shows page d.
  ghost function PagePixel(font: F.Font, s: Fb, d: Page, x: nat, y: nat): nat
    requires PageOk(d) && x / 8 < d.w
  {
    if font(PageAt(d, Top(d, s.h) + y / 8, x / 8), y % 8, x % 8) then s.fg else s.bg
  }

  lemma PixelsShow(font: F.Font, s: Fb, d: Page, x: nat, y: nat)
    requires Shows(s, d) && BlankSpace(font) && x / 8 < s.w && y / 8 < s.h
    ensures F.Look(font, s.h, s.log, x, y) == PagePixel(font, s, d, x, y)
  {
    PixelOfCell(font, s.h, s.log, x, y);
    assert ShowsAt(s, d, y / 8, x / 8);
  }

  // A terminal is set up and a text written to it: every pixel of the text area has the
  // colour that the glyph on the page gives it.
  method WriteOn(width: nat, height: nat, font: F.Font, text: string) returns (c: F.Console)
    requires width >= 8 && height >= 8 && AllFlow(text) && BlankSpace(font)
    ensures c.Shape() && c.w == width / 8 && c.h == height / 8 && PageOk(LayAll(BlankPage(c.w), text))
    ensures forall y: nat, x: nat | y < c.h * 8 && x < c.w * 8 ::
      c.pixels[y, x] == PagePixel(font, c.State(), LayAll(BlankPage(c.w), text), x, y)
  {
    c := new F.Console(width, height, font);
    ghost var s := c.State();
    c.Write(text);
    ScreenIsEndOfPage(s, text);
    forall y: nat, x: nat | y < c.h * 8 && x < c.w * 8
      ensures c.pixels[y, x] == PagePixel(font, c.State(), LayAll(BlankPage(c.w), text), x, y)
    {
      PixelsShow(font, c.State(), LayAll(BlankPage(c.w), text), x, y);
      assert y < c.pixels.Length0 && x < c.pixels.Length1;
    }
  }
}
