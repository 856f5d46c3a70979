// The shell's line on the text screen: after every key the cursor row holds the prompt and
// the line, as long as they fit in it.
module LineScreen {
  import opened Sgr
  import opened TextScreen
  import opened LineEdit

  // ---- One row ----

  ghost function RowText(s: Screen): string
    requires Valid(s)
  {
    seq(80, k requires 0 <= k < 80 => s.cells[s.row * 80 + k].c)
  }

  // The same row is current, and the other rows are as they were.
  ghost predicate SameElsewhere(s: Screen, e: Screen) {
    && Valid(s) && Valid(e) && e.row == s.row
    && forall i | 0 <= i < 2000 && (i < s.row * 80 || s.row * 80 + 80 <= i) :: e.cells[i] == s.cells[i]
  }

  // From s to e only the current row changed, and it holds text.
  ghost predicate RowBecomes(s: Screen, e: Screen, text: string, col: nat) {
    SameElsewhere(s, e) && !e.inEsc && RowText(e) == text && e.col == col
  }

  lemma Further(a: Screen, b: Screen, c: Screen)
    requires SameElsewhere(a, b) && SameElsewhere(b, c)
    ensures SameElsewhere(a, c)
  {
  }

  // ---- Sequences ----

  lemma FeedChar(s: Screen, c: char)
    requires Valid(s)
    ensures Valid(Put(s, c)) && Feed(s, [c]) == Put(s, c)
  {
    PutValid(s, c);
    assert [c][1..] == "";
  }

  lemma {:induction false} FeedBody(s: Screen, body: string)
    requires Valid(s) && s.inEsc && Quiet(body) && |s.esc| + |body| <= 31
    ensures Feed(s, body) == s.(esc := s.esc + body)
    decreases |body|
  {
    if body == "" {
      assert s.esc + body == s.esc;
    } else {
      PutValid(s, body[0]);
      FeedBody(Put(s, body[0]), body[1..]);
      assert s.esc + body == s.esc + [body[0]] + body[1..];
    }
  }

  lemma EscapeOpens(s: Screen, body: string)
    requires Valid(s) && !s.inEsc && Quiet(body) && |body| <= 29
    ensures Feed(s, [ESC] + ("[" + body)) == s.(inEsc := true, esc := "[" + body)
  {
    FeedMore(s, [ESC], "[" + body);
    FeedChar(s, ESC);
    FeedBody(s.(inEsc := true, esc := ""), "[" + body);
    assert "" + ("[" + body) == "[" + body;
  }

  lemma FeedControl(s: Screen, body: string, c: char)
    requires Valid(s) && !s.inEsc && Quiet(body) && |body| <= 29 && IsFinal(c)
    ensures var t := s.(inEsc := true, esc := "[" + body + [c]);
      Valid(t) && Feed(s, [ESC] + ("[" + body) + [c]) == Control(t, c).(inEsc := false, esc := "")
  {
    EscapeOpens(s, body);
    FeedMore(s, [ESC] + ("[" + body), [c]);
    FeedChar(s.(inEsc := true, esc := "[" + body), c);
  }

  lemma FeedColours(s: Screen, body: string)
    requires Valid(s) && !s.inEsc && Quiet(body) && |body| <= 29
    ensures var e := Feed(s, Sequence(body)); e == s.(fg := e.fg, bg := e.bg, esc := "")
  {
    FeedControl(s, body, 'm');
  }

  // A colour of the palette, asked for by its number, is the colour set: all 16 for the
  // text, and the 8 dark ones behind it, which stand for the bright ones too.
  lemma PaletteInk(s: Screen, i: nat)
    requires Valid(s) && !s.inEsc && i < 16
    ensures Feed(s, Sequence(ParamText([38, 5, i]))).fg == i && Feed(s, Sequence(ParamText([38, 5, i]))).bg == s.bg
    ensures Feed(s, Sequence(ParamText([48, 5, i]))).bg == i % 8 && Feed(s, Sequence(ParamText([48, 5, i]))).fg == s.fg
  {
    NearestExact(i);
    IndexedColour(i);
    IndexedQuiet(38, i);
    IndexedQuiet(48, i);
    InksSet(s, [38, 5, i], Style(PALETTE16[i], Keep));
    InksSet(s, [48, 5, i], Style(Keep, PALETTE16[i]));
  }

  lemma InksSet(s: Screen, ps: seq<nat>, st: Style)
    requires Valid(s) && !s.inEsc && 1 <= |ps| <= 16 && Asked(ps) == st
    requires Quiet(ParamText(ps)) && |ParamText(ps)| <= 29
    ensures var e := Feed(s, Sequence(ParamText(ps))); e.fg == FgOf(st.fg, s.fg) && e.bg == BgOf(st.bg, s.bg)
  {
    BodySets(s, ParamText(ps), st);
  }

  lemma BodySets(s: Screen, body: string, st: Style)
    requires Valid(s) && !s.inEsc && Quiet(body) && |body| <= 29 && Colours("[" + body + "m") == st
    ensures var e := Feed(s, Sequence(body)); e.fg == FgOf(st.fg, s.fg) && e.bg == BgOf(st.bg, s.bg)
  {
    FeedControl(s, body, 'm');
    assert "[" + body + ['m'] == "[" + body + "m";
  }

  lemma IndexedQuiet(lead: nat, i: nat)
    requires lead < 256 && i < 256
    ensures Quiet(ParamText([lead, 5, i])) && |ParamText([lead, 5, i])| <= 29
  {
    assert [lead, 5, i][..2] == [lead, 5] && [] + [lead] == [lead] && [lead] + [5] == [lead, 5];
    FieldsTextMore([], lead);
    FieldsTextMore([lead], 5);
    DecimalShort(lead);
    DecimalShort(5);
    DecimalShort(i);
    QuietField("", lead);
    QuietField(Field("", lead), 5);
  }

  // ---- Steps along the row ----

  lemma ReturnStep(s: Screen)
    requires Valid(s) && !s.inEsc
    ensures RowBecomes(s, Feed(s, "\r"), RowText(s), 0)
  {
    FeedChar(s, '\r');
    assert Feed(s, "\r") == s.(col := 0);
  }

  function Spaces(n: nat): string { seq(n, _ => ' ') }

  lemma ClearStep(s: Screen)
    requires Valid(s) && !s.inEsc
    ensures RowBecomes(s, Feed(s, CLEAR_RIGHT), RowText(s)[..s.col] + Spaces(80 - s.col), s.col)
  {
    FeedControl(s, "", 'K');
    assert [ESC] + ("[" + "") + ['K'] == CLEAR_RIGHT;
    var e := Feed(s, CLEAR_RIGHT);
    var i, j := s.row * 80 + s.col, s.row * 80 + 80;
    assert e.cells == Fill(s.cells, i, j, Blank(s));
    FillKeeps(s.cells, i, j, Blank(s));
  }

  lemma FillKeeps(cells: seq<Cell>, i: nat, j: nat, b: Cell)
    requires i <= j <= |cells|
    ensures |Fill(cells, i, j, b)| == |cells|
    ensures forall k | 0 <= k < |cells| :: Fill(cells, i, j, b)[k] == if i <= k < j then b else cells[k]
  {
  }

  lemma LeftStep(s: Screen)
    requires Valid(s) && !s.inEsc && s.col > 0
    ensures RowBecomes(s, Feed(s, CURSOR_LEFT), RowText(s), s.col - 1)
  {
    FeedControl(s, "", 'D');
    assert [ESC] + ("[" + "") + ['D'] == CURSOR_LEFT;
  }

  lemma RightStep(s: Screen)
    requires Valid(s) && !s.inEsc && s.col < 79
    ensures RowBecomes(s, Feed(s, CURSOR_RIGHT), RowText(s), s.col + 1)
  {
    FeedControl(s, "", 'C');
    assert [ESC] + ("[" + "") + ['C'] == CURSOR_RIGHT;
  }

  lemma {:induction false} LeftSteps(s: Screen, n: nat)
    requires Valid(s) && !s.inEsc && n <= s.col
    ensures RowBecomes(s, Feed(s, Times(CURSOR_LEFT, n)), RowText(s), s.col - n)
  {
    if n > 0 {
      LeftSteps(s, n - 1);
      FeedMore(s, Times(CURSOR_LEFT, n - 1), CURSOR_LEFT);
      LeftStep(Feed(s, Times(CURSOR_LEFT, n - 1)));
    }
  }

  lemma {:induction false} RightSteps(s: Screen, n: nat)
    requires Valid(s) && !s.inEsc && s.col + n < 80
    ensures RowBecomes(s, Feed(s, Times(CURSOR_RIGHT, n)), RowText(s), s.col + n)
  {
    if n > 0 {
      RightSteps(s, n - 1);
      FeedMore(s, Times(CURSOR_RIGHT, n - 1), CURSOR_RIGHT);
      RightStep(Feed(s, Times(CURSOR_RIGHT, n - 1)));
    }
  }

  lemma CellSet(s: Screen, e: Screen, cell: Cell)
    requires Valid(s) && e.cells == s.cells[s.row * 80 + s.col := cell] && e.row == s.row && Valid(e)
    ensures SameElsewhere(s, e) && RowText(e) == RowText(s)[s.col := cell.c]
  {
    var i, row := s.row * 80 + s.col, RowText(s);
    forall k | 0 <= k < 80 ensures RowText(e)[k] == row[s.col := cell.c][k] {
      assert s.row * 80 + k == i <==> k == s.col;
    }
  }

  lemma PutPlain(s: Screen, c: char)
    requires Valid(s) && !s.inEsc && s.col < 79 && ' ' <= c <= '~'
    ensures Put(s, c) == s.(cells := s.cells[s.row * 80 + s.col := Cell(c, s.fg + 16 * s.bg)], col := s.col + 1)
  {
  }

  lemma CharStep(s: Screen, c: char)
    requires Valid(s) && !s.inEsc && s.col < 79 && ' ' <= c <= '~'
    ensures RowBecomes(s, Feed(s, [c]), RowText(s)[s.col := c], s.col + 1)
  {
    var cell, e := Cell(c, s.fg + 16 * s.bg), Feed(s, [c]);
    PutPlain(s, c);
    FeedChar(s, c);
    assert e.cells == s.cells[s.row * 80 + s.col := cell] && e.row == s.row && e.col == s.col + 1 && !e.inEsc;
    CellSet(s, e, cell);
  }

  // Text that fits overwrites the row from the cursor on.
  lemma {:induction false} TextStep(s: Screen, t: string)
    requires Valid(s) && !s.inEsc && s.col + |t| < 80 && Typed(t)
    ensures RowBecomes(s, Feed(s, t), RowText(s)[..s.col] + t + RowText(s)[s.col + |t|..], s.col + |t|)
    decreases |t|
  {
    var row := RowText(s);
    if t == "" {
      assert row[..s.col] + t + row[s.col..] == row;
    } else {
      var u := Feed(s, [t[0]]);
      CharStep(s, t[0]);
      FeedMore(s, [t[0]], t[1..]);
      assert [t[0]] + t[1..] == t;
      TextStep(u, t[1..]);
      Further(s, u, Feed(s, t));
      Overwrite(row, s.col, t);
    }
  }

  lemma Overwrite(row: string, a: nat, t: string)
    requires t != "" && a + |t| <= |row|
    ensures var r := row[a := t[0]]; r[..a + 1] + t[1..] + r[a + |t|..] == row[..a] + t + row[a + |t|..]
  {
    var r := row[a := t[0]];
    assert r[..a + 1] == row[..a] + [t[0]] && [t[0]] + t[1..] == t;
    assert r[a + |t|..] == row[a + |t|..];
  }

  // Cursor left and right undo each other, over the end of a row too.
  lemma LeftThenRight(s: Screen)
    requires Valid(s) && !s.inEsc && s.esc == "" && (s.row > 0 || s.col > 0)
    ensures Feed(Feed(s, CURSOR_LEFT), CURSOR_RIGHT) == s
    ensures var l := Feed(s, CURSOR_LEFT); l.row * 80 + l.col + 1 == s.row * 80 + s.col
  {
    assert [ESC] + ("[" + "") + ['D'] == CURSOR_LEFT && [ESC] + ("[" + "") + ['C'] == CURSOR_RIGHT;
    FeedControl(s, "", 'D');
    FeedControl(Back(s), "", 'C');
  }

  // From anywhere, a home sequence makes the next character the first of the screen.
  lemma HomeFirst(s: Screen, c: char)
    requires Valid(s) && !s.inEsc && ' ' <= c <= '~'
    ensures var e := Feed(Feed(s, [ESC] + "[H"), [c]);
      e.cells[0] == Cell(c, s.fg + 16 * s.bg) && e.row == 0 && e.col == 1
  {
    assert [ESC] + ("[" + "") + ['H'] == [ESC] + "[H";
    FeedControl(s, "", 'H');
    var home := Feed(s, [ESC] + "[H");
    FeedChar(home, c);
    PutPlain(home, c);
  }

  // ---- The whole line ----

  ghost predicate FitsRow(z: Zip) { |PROMPT| + |z.before| + |z.after| <= 79 && TypedZip(z) }

  ghost function LineRow(z: Zip): string
    requires FitsRow(z)
  {
    PROMPT + Text(z) + Spaces(71 - |Text(z)|)
  }

  // From s to e the current row came to hold the prompt and the line, with the cursor
  // where the line's cursor is.
  ghost predicate ShowsLine(s: Screen, e: Screen, z: Zip) {
    FitsRow(z) && RowBecomes(s, e, LineRow(z), 9 + |z.before|)
  }

  lemma Rows(row: string, a: nat, t: string)
    requires |row| == 80 && a + |t| <= 80 && row[a..] == Spaces(80 - a)
    ensures row[..a] + t + row[a + |t|..] == row[..a] + t + Spaces(80 - a - |t|)
  {
    assert row[a + |t|..] == row[a..][|t|..];
  }

  lemma ColourStep(s: Screen, body: string)
    requires Valid(s) && !s.inEsc && Quiet(body) && |body| <= 29
    ensures RowBecomes(s, Feed(s, Sequence(body)), RowText(s), s.col)
  {
    FeedColours(s, body);
    assert Feed(s, Sequence(body)).cells == s.cells;
  }

  // Two steps one after the other.
  lemma Then(s: Screen, a: string, b: string, rowA: string, colA: nat, row: string, col: nat)
    requires Valid(s) && RowBecomes(s, Feed(s, a), rowA, colA)
    requires RowBecomes(Feed(s, a), Feed(Feed(s, a), b), row, col)
    ensures RowBecomes(s, Feed(s, a + b), row, col)
  {
    FeedMore(s, a, b);
    Further(s, Feed(s, a), Feed(s, a + b));
  }

  // A coloured text on an empty row.
  lemma ColouredStep(s: Screen, body: string, t: string)
    requires Valid(s) && !s.inEsc && s.col == 0 && RowText(s) == Spaces(80)
    requires Quiet(body) && |body| <= 29 && Typed(t) && |t| < 80
    ensures RowBecomes(s, Feed(s, Sequence(body) + t + Sequence("0")), t + Spaces(80 - |t|), |t|)
  {
    var ink, row := Sequence(body), t + Spaces(80 - |t|);
    ColourStep(s, body);
    TextStep(Feed(s, ink), t);
    Rows(Spaces(80), 0, t);
    assert Spaces(80)[..0] + t == t;
    Then(s, ink, t, Spaces(80), 0, row, |t|);
    ColourStep(Feed(s, ink + t), "0");
    Then(s, ink + t, Sequence("0"), row, |t|, row, |t|);
  }

  // The prompt on an empty row.
  lemma PromptStep(s: Screen)
    requires Valid(s) && !s.inEsc && s.col == 0 && RowText(s) == Spaces(80)
    ensures RowBecomes(s, Feed(s, Prompt()), PROMPT + Spaces(71), 9)
  {
    BodyFits(38, GREEN.r, GREEN.g, GREEN.b);
    ColouredStep(s, ColourBody(38, GREEN.r, GREEN.g, GREEN.b), PROMPT);
  }

  lemma EmptyLineStep(s: Screen)
    requires Valid(s) && !s.inEsc
    ensures RowBecomes(s, Feed(s, "\r" + CLEAR_RIGHT), Spaces(80), 0)
  {
    ReturnStep(s);
    ClearStep(Feed(s, "\r"));
    assert RowText(s)[..0] + Spaces(80) == Spaces(80);
    Then(s, "\r", CLEAR_RIGHT, RowText(s), 0, Spaces(80), 0);
  }

  // refresh_line on whatever the row held before.
  lemma RefreshShows(s: Screen, z: Zip)
    requires Valid(s) && !s.inEsc && FitsRow(z)
    ensures ShowsLine(s, Feed(s, Refresh(z)), z)
  {
    var head := "\r" + CLEAR_RIGHT;
    var t, end := Text(z), 9 + |Text(z)|;
    EmptyLineStep(s);
    PromptStep(Feed(s, head));
    Then(s, head, Prompt(), Spaces(80), 0, PROMPT + Spaces(71), 9);
    var p := head + Prompt();
    LineStep(Feed(s, p), z);
    Then(s, p, t, PROMPT + Spaces(71), 9, LineRow(z), end);
    ClearedAlready(Feed(s, p + t), z);
    Then(s, p + t, CLEAR_RIGHT, LineRow(z), end, LineRow(z), end);
    var u := p + t + CLEAR_RIGHT;
    LeftSteps(Feed(s, u), |z.after|);
    Then(s, u, Times(CURSOR_LEFT, |z.after|), LineRow(z), end, LineRow(z), 9 + |z.before|);
  }

  lemma LineStep(s: Screen, z: Zip)
    requires Valid(s) && !s.inEsc && FitsRow(z) && s.col == 9 && RowText(s) == PROMPT + Spaces(71)
    ensures RowBecomes(s, Feed(s, Text(z)), LineRow(z), 9 + |Text(z)|)
  {
    TypedText(z);
    TextStep(s, Text(z));
    assert RowText(s)[9..] == Spaces(71);
    Rows(RowText(s), 9, Text(z));
    assert RowText(s)[..9] == PROMPT;
  }

  lemma ClearedAlready(s: Screen, z: Zip)
    requires Valid(s) && !s.inEsc && FitsRow(z) && s.col == 9 + |Text(z)| && RowText(s) == LineRow(z)
    ensures RowBecomes(s, Feed(s, CLEAR_RIGHT), LineRow(z), s.col)
  {
    ClearStep(s);
    var k := s.col;
    assert LineRow(z)[..k] == PROMPT + Text(z);
  }

  // ---- Every key ----

  lemma BeepStep(s: Screen)
    requires Valid(s) && !s.inEsc
    ensures Feed(s, BEEP) == s && Feed(s, "") == s
  {
    FeedChar(s, 7 as char);
  }

  // A screen that shows the line goes on showing it after a key.
  lemma KeyKeepsLine(s: Screen, e: Ed, k: Key)
    requires Ok(e) && KeyOk(k) && ShowsLine(s, s, e.z) && FitsRow(Press(e, k).z)
    ensures ShowsLine(s, Feed(s, Printed(e, k)), Press(e, k).z)
  {
    if Redraws(e, k) {
      RefreshShows(s, Press(e, k).z);
    } else {
      QuietKeepsText(e, k);
      BeepStep(s);
      match k
      case GoLeft => if e.z.before != "" { LeftStep(s); }
      case GoRight => if e.z.after != "" { RightStep(s); }
      case GoHome => LeftSteps(s, |e.z.before|);
      case GoEnd => RightSteps(s, |e.z.after|);
      case _ =>
    }
  }

  // ---- A run of keys ----

  // The line fits in the row after every key of the run.
  ghost predicate StaysShort(e: Ed, ks: seq<Key>)
    requires KeysOk(ks)
    decreases |ks|
  {
    ks == [] || (FitsRow(Press(e, ks[0]).z) && StaysShort(Press(e, ks[0]), ks[1..]))
  }

  lemma {:induction false} RunKeepsLine(s: Screen, e: Ed, ks: seq<Key>)
    requires Ok(e) && KeysOk(ks) && ShowsLine(s, s, e.z) && StaysShort(e, ks)
    ensures Ok(PressAll(e, ks)) && ShowsLine(s, Feed(s, PrintedAll(e, ks)), PressAll(e, ks).z)
    decreases |ks|
  {
    if ks != [] {
      var f, out := Press(e, ks[0]), Printed(e, ks[0]);
      var t := Feed(s, out);
      KeyKeepsLine(s, e, ks[0]);
      PressOk(e, ks[0]);
      RunKeepsLine(t, f, ks[1..]);
      FeedMore(s, out, PrintedAll(f, ks[1..]));
      Further(s, t, Feed(s, PrintedAll(e, ks)));
    }
  }
}
