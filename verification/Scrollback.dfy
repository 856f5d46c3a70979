// The text screen of kernel/main.c is the last 25 rows of a page without end, 80 columns
// wide, in the colours that are set.
module Scrollback {
  import opened Sgr
  import opened TextScreen
  import opened Pages

  // Everything but escapes and rubouts.
  predicate Flows(c: char) { c != ESC && c != 8 as char && c != 127 as char }

  predicate AllFlow(text: string) { forall i | 0 <= i < |text| :: Flows(text[i]) }

  ghost function CellAt(s: Screen, r: nat, k: nat): Cell
    requires |s.cells| == 2000 && r < 25 && k < 80
  {
    s.cells[r * 80 + k]
  }

  // A cell holds a character of the page; what was never written may have any colour.
  predicate CellShows(cell: Cell, c: char, colour: nat) { cell.c == c && (cell.colour == colour || c == ' ') }

  ghost predicate Shows(s: Screen, d: Page) {
    && Valid(s) && !s.inEsc && PageOk(d) && d.w == 80
    && s.row + Top(d, 25) + 1 == |d.rows| && s.col == d.col
    && forall r: nat, k: nat | r < 25 && k < 80 :: ShowsAt(s, d, r, k)
  }

  ghost predicate ShowsAt(s: Screen, d: Page, r: nat, k: nat)
    requires |s.cells| == 2000 && r < 25 && k < 80 && PageOk(d) && d.w == 80
  {
    CellShows(CellAt(s, r, k), PageAt(d, Top(d, 25) + r, k), s.fg + 16 * s.bg)
  }

  lemma ShowsNewLine(s: Screen, d: Page)
    requires Shows(s, d)
    ensures Shows(NewLine(s), Open(d))
  {
    var t, e := NewLine(s), Open(d);
    forall r: nat, k: nat | r < 25 && k < 80 ensures ShowsAt(t, e, r, k) {
      if s.row == 24 && r < 24 {
        assert CellAt(t, r, k) == CellAt(s, r + 1, k) && ShowsAt(s, d, r + 1, k);
      } else if s.row < 24 {
        assert CellAt(t, r, k) == CellAt(s, r, k) && ShowsAt(s, d, r, k);
      }
    }
  }

  lemma ShowsCell(s: Screen, d: Page, cell: Cell)
    requires Shows(s, d) && cell.colour == s.fg + 16 * s.bg
    ensures var last := |d.rows| - 1;
      Shows(s.(cells := s.cells[s.row * 80 + s.col := cell]),
            d.(rows := d.rows[last := d.rows[last][d.col := cell.c]]))
  {
    var last := |d.rows| - 1;
    var t := s.(cells := s.cells[s.row * 80 + s.col := cell]);
    var e := d.(rows := d.rows[last := d.rows[last][d.col := cell.c]]);
    forall r: nat, k: nat | r < 25 && k < 80 ensures ShowsAt(t, e, r, k) {
      if r != s.row || k != s.col {
        assert r * 80 + k != s.row * 80 + s.col;
        assert CellAt(t, r, k) == CellAt(s, r, k) && ShowsAt(s, d, r, k);
      }
    }
  }

  lemma ShowsMoved(s: Screen, d: Page, col: nat)
    requires Shows(s, d) && col < 80
    ensures Shows(s.(col := col), d.(col := col))
  {
    forall r: nat, k: nat | r < 25 && k < 80 ensures ShowsAt(s.(col := col), d.(col := col), r, k) {
      assert ShowsAt(s, d, r, k);
    }
  }

  // One character keeps screen and page together.
  lemma ShowsStep(s: Screen, d: Page, c: char)
    requires Shows(s, d) && Flows(c)
    ensures Valid(Put(s, c)) && Shows(Put(s, c), Lay(d, c))
  {
    if c == '\n' {
      ShowsNewLine(s, d);
    } else if c == '\r' {
      ShowsMoved(s, d, 0);
    } else if c == '\t' {
      if TabStop(s.col) >= 80 { ShowsNewLine(s, d); } else { ShowsMoved(s, d, TabStop(s.col)); }
    } else if c != 7 as char {
      ShowsDrawn(s, d, Glyph(c));
    }
  }

  lemma ShowsDrawn(s: Screen, d: Page, g: char)
    requires Shows(s, d) && Flows(g) && g !in "\n\r\t"
    ensures Shows(PutGround(s, g), Draw(d, g))
  {
    var cell := Cell(g, s.fg + 16 * s.bg);
    var last := |d.rows| - 1;
    ShowsCell(s, d, cell);
    var t := s.(cells := s.cells[s.row * 80 + s.col := cell]);
    var e := d.(rows := d.rows[last := d.rows[last][d.col := g]]);
    if s.col < 79 { ShowsMoved(t, e, s.col + 1); } else { ShowsNewLine(t, e); }
  }

  lemma {:induction false} ShowsRun(s: Screen, d: Page, text: string)
    requires Shows(s, d) && AllFlow(text)
    ensures Shows(Feed(s, text), LayAll(d, text))
    decreases |text|
  {
    if text != "" {
      ShowsStep(s, d, text[0]);
      ShowsRun(Put(s, text[0]), Lay(d, text[0]), text[1..]);
    }
  }

  // From a cleared screen on, any text at all.
  lemma ScreenIsEndOfPage(s: Screen, text: string)
    requires Valid(s) && !s.inEsc && AllFlow(text)
    ensures Shows(Feed(Cleared(s), text), LayAll(BlankPage(80), text))
  {
    assert Shows(Cleared(s), BlankPage(80)) by {
      forall r: nat, k: nat | r < 25 && k < 80 ensures ShowsAt(Cleared(s), BlankPage(80), r, k) {}
    }
    ShowsRun(Cleared(s), BlankPage(80), text);
  }

  // The same after the sequence that erases the screen.
  lemma ErasedIsEndOfPage(s: Screen, text: string)
    requires Valid(s) && !s.inEsc && AllFlow(text)
    ensures Shows(Feed(s, [ESC] + "[J" + text), LayAll(BlankPage(80), text))
  {
    var e := s.(cells := Blanks(2000, Blank(s)), row := 0, col := 0, esc := "");
    Erase(s);
    FeedMore(s, [ESC] + "[J", text);
    assert Shows(e, BlankPage(80)) by {
      forall r: nat, k: nat | r < 25 && k < 80 ensures ShowsAt(e, BlankPage(80), r, k) {}
    }
    ShowsRun(e, BlankPage(80), text);
  }

  lemma Erase(s: Screen)
    requires Valid(s) && !s.inEsc
    ensures Feed(s, [ESC] + "[J") == s.(cells := Blanks(2000, Blank(s)), row := 0, col := 0, esc := "")
  {
    EscapeBegins(s);
    FeedOne(s, [ESC] + "[", 'J');
    assert [ESC] + "[" + ['J'] == [ESC] + "[J";
    assert IsFinal('J') && ("[" + ['J'])[0] == '[';
  }

  lemma EscapeBegins(s: Screen)
    requires Valid(s) && !s.inEsc
    ensures Feed(s, [ESC] + "[") == s.(inEsc := true, esc := "[")
  {
    FeedOne(s, [], ESC);
    FeedOne(s, [ESC], '[');
    assert [] + [ESC] == [ESC] && [ESC] + ['['] == [ESC] + "[";
    assert "" + ['['] == "[";
  }

  // A character and a rubout: the cell is blank and the cursor where it was, also at the
  // end of a row, but not when the character made the screen scroll.
  lemma TypeThenRub(s: Screen, c: char)
    requires Valid(s) && !s.inEsc && Flows(c) && c !in "\n\r\t" && c != 7 as char
    ensures Valid(Put(s, c))
    ensures Put(Put(s, c), 8 as char) == s.(cells := s.cells[s.row * 80 + s.col := Blank(s)])
      <==> s.row < 24 || s.col < 79
  {
    var i, cell := s.row * 80 + s.col, Cell(Glyph(c), s.fg + 16 * s.bg);
    var t := s.(cells := s.cells[i := cell]);
    assert t.cells[i := Blank(s)] == s.cells[i := Blank(s)];
    PutValid(s, c);
    assert Put(s, c) == if s.col < 79 then t.(col := s.col + 1) else NewLine(t);
    RubStep(Put(s, c));
  }

  lemma RubStep(s: Screen)
    requires Valid(s) && !s.inEsc && (s.row > 0 || s.col > 0)
    ensures Put(s, 8 as char) == Back(s).(cells := s.cells[Back(s).row * 80 + Back(s).col := Blank(s)])
  {
  }
}
