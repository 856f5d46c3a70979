// A page without end, written from the top: what the screens show the last rows of.
module Pages {
  // ---- The page ----

  // All rows so far, w columns wide, the last one being written at col.
  datatype Page = Page(w: nat, rows: seq<string>, col: nat)

  ghost predicate PageOk(d: Page) {
    |d.rows| > 0 && d.col < d.w && forall r | 0 <= r < |d.rows| :: |d.rows[r]| == d.w
  }

  function Empty(w: nat): string { seq(w, _ => ' ') }

  function Open(d: Page): Page { d.(rows := d.rows + [Empty(d.w)], col := 0) }

  // The next tab stop, at a multiple of 8.
  function TabStop(col: nat): (k: nat)
    ensures col < k <= col + 8 && k % 8 == 0
  {
    (col / 8 + 1) * 8
  }

  // No characters from 128 on.
  function Glyph(c: char): char { if c as int >= 128 then '?' else c }

  function Draw(d: Page, g: char): Page
    requires PageOk(d)
  {
    var last := |d.rows| - 1;
    var t := d.(rows := d.rows[last := d.rows[last][d.col := g]]);
    if d.col + 1 < d.w then t.(col := d.col + 1) else Open(t)
  }

  function Lay(d: Page, c: char): Page
    requires PageOk(d)
  {
    if c == 7 as char then d
    else if c == '\n' then Open(d)
    else if c == '\r' then d.(col := 0)
    else if c == '\t' then
      var k := TabStop(d.col);
      if k >= d.w then Open(d) else d.(col := k)
    else Draw(d, Glyph(c))
  }

  lemma LayOk(d: Page, c: char)
    requires PageOk(d)
    ensures PageOk(Lay(d, c)) && Lay(d, c).w == d.w
  {
  }

  function LayAll(d: Page, text: string): (e: Page)
    requires PageOk(d)
    ensures PageOk(e) && e.w == d.w
    decreases |text|
  {
    if text == "" then d
    else
      LayOk(d, text[0]);
      LayAll(Lay(d, text[0]), text[1..])
  }

  function BlankPage(w: nat): Page { Page(w, [Empty(w)], 0) }

  // The character at row r and column k; rows not begun are blank.
  ghost function PageAt(d: Page, r: nat, k: nat): char
    requires PageOk(d) && k < d.w
  {
    if r < |d.rows| then d.rows[r][k] else ' '
  }

  // The first of the last h rows.
  function Top(d: Page, h: nat): nat { if |d.rows| <= h then 0 else |d.rows| - h }

  // ---- The page line by line ----

  function Padded(w: nat, s: string): string
    requires |s| <= w
  {
    s + seq(w - |s|, _ => ' ')
  }

  // A line in rows of w, with a fresh row after every full one.
  function Wrap(w: nat, line: string): seq<string>
    requires w > 0
  {
    if |line| < w then [Padded(w, line)] else [line[..w]] + Wrap(w, line[w..])
  }

  predicate Plain(text: string) { forall i | 0 <= i < |text| :: text[i] !in "\r\t" && text[i] != 7 as char }

  function Glyphs(text: string): string { seq(|text|, i requires 0 <= i < |text| => Glyph(text[i])) }

  function LineEnd(text: string, i: nat): (k: nat)
    requires i <= |text|
    ensures i <= k <= |text| && '\n' !in text[i..k] && (k < |text| ==> text[k] == '\n')
    decreases |text| - i
  {
    if i == |text| || text[i] == '\n' then i else LineEnd(text, i + 1)
  }

  // Each line wrapped, one after the other.
  function Wrapped(w: nat, text: string): seq<string>
    requires w > 0
    decreases |text|
  {
    var k := LineEnd(text, 0);
    Wrap(w, Glyphs(text[..k])) + if k < |text| then Wrapped(w, text[k + 1..]) else []
  }

  lemma LineEndAfter(text: string)
    requires text != "" && text[0] != '\n'
    ensures LineEnd(text, 0) == 1 + LineEnd(text[1..], 0)
  {
    LineEndShift(text, 0);
  }

  lemma {:induction false} LineEndShift(text: string, i: nat)
    requires text != "" && i <= |text| - 1
    ensures LineEnd(text, i + 1) == 1 + LineEnd(text[1..], i)
    decreases |text| - i
  {
    if i < |text| - 1 && text[i + 1] != '\n' { LineEndShift(text, i + 1); }
  }

  // Wrapped, for a first line that already starts with cur.
  ghost function WrappedAfter(w: nat, cur: string, text: string): seq<string>
    requires w > 0
  {
    var k := LineEnd(text, 0);
    Wrap(w, cur + Glyphs(text[..k])) + if k < |text| then Wrapped(w, text[k + 1..]) else []
  }

  lemma WrapFull(w: nat, full: string, rest: string)
    requires |full| == w > 0
    ensures Wrap(w, full + rest) == [full] + Wrap(w, rest)
  {
    assert (full + rest)[w..] == rest;
  }

  lemma WrappedNext(w: nat, cur: string, text: string)
    requires w > 0 && text != "" && text[0] != '\n'
    ensures WrappedAfter(w, cur, text) == WrappedAfter(w, cur + [Glyph(text[0])], text[1..])
  {
    var k, g := LineEnd(text, 0), Glyph(text[0]);
    LineEndAfter(text);
    assert cur + Glyphs(text[..k]) == cur + [g] + Glyphs(text[1..][..k - 1]);
    assert text[k..] == text[1..][k - 1..];
    if k < |text| { assert text[k + 1..] == text[1..][k..]; }
  }

  lemma WrappedFull(w: nat, cur: string, text: string)
    requires |cur| == w > 0
    ensures WrappedAfter(w, cur, text) == [cur] + WrappedAfter(w, "", text)
  {
    var k := LineEnd(text, 0);
    WrapFull(w, cur, Glyphs(text[..k]));
    assert "" + Glyphs(text[..k]) == Glyphs(text[..k]);
  }

  lemma WrappedFresh(w: nat, text: string)
    requires w > 0
    ensures WrappedAfter(w, "", text) == Wrapped(w, text)
  {
    assert "" + Glyphs(text[..LineEnd(text, 0)]) == Glyphs(text[..LineEnd(text, 0)]);
  }

  lemma WrappedBreak(w: nat, cur: string, text: string)
    requires |cur| < w && text != "" && text[0] == '\n'
    ensures WrappedAfter(w, cur, text) == [Padded(w, cur)] + WrappedAfter(w, "", text[1..])
  {
    WrappedFresh(w, text[1..]);
    assert cur + Glyphs(text[..0]) == cur;
  }

  // A page whose last row holds cur so far.
  function Started(w: nat, done: seq<string>, cur: string): Page
    requires |cur| < w
  {
    Page(w, done + [Padded(w, cur)], |cur|)
  }

  lemma LayPlain(w: nat, done: seq<string>, cur: string, c: char)
    requires |cur| < w && PageOk(Started(w, done, cur)) && Plain([c])
    ensures Lay(Started(w, done, cur), c) == Started(w, NextDone(w, done, cur, c), NextCur(w, cur, c))
  {
    assert c == [c][0];
    var d := Started(w, done, cur);
    assert Padded(w, "") == Empty(w);
    if c != '\n' {
      var full := cur + [Glyph(c)];
      assert d.rows[|done|] == Padded(w, cur);
      assert Padded(w, cur)[|cur| := Glyph(c)] == Padded(w, full);
      assert d.rows[|done| := Padded(w, full)] == done + [Padded(w, full)];
      if |full| == w { assert Padded(w, full) == full; }
    }
  }

  lemma Assoc(a: seq<string>, x: string, rest: seq<string>)
    ensures a + ([x] + rest) == a + [x] + rest
  {
  }

  // The rows complete and the start of the next after one character.
  function NextDone(w: nat, done: seq<string>, cur: string, c: char): seq<string>
    requires |cur| < w
  {
    if c == '\n' then done + [Padded(w, cur)] else if |cur| + 1 < w then done else done + [cur + [Glyph(c)]]
  }

  function NextCur(w: nat, cur: string, c: char): string {
    if c == '\n' || |cur| + 1 >= w then "" else cur + [Glyph(c)]
  }

  // One character moves from the text to the rows.
  lemma WrappedStep(w: nat, done: seq<string>, cur: string, text: string)
    requires |cur| < w && text != ""
    ensures done + WrappedAfter(w, cur, text) ==
      NextDone(w, done, cur, text[0]) + WrappedAfter(w, NextCur(w, cur, text[0]), text[1..])
  {
    var more := WrappedAfter(w, "", text[1..]);
    if text[0] == '\n' {
      WrappedBreak(w, cur, text);
      Assoc(done, Padded(w, cur), more);
    } else {
      WrappedNext(w, cur, text);
      if |cur| + 1 == w {
        WrappedFull(w, cur + [Glyph(text[0])], text[1..]);
        Assoc(done, cur + [Glyph(text[0])], more);
      }
    }
  }

  lemma {:induction false} LayWraps(w: nat, done: seq<string>, cur: string, text: string)
    requires |cur| < w && PageOk(Started(w, done, cur)) && Plain(text)
    ensures LayAll(Started(w, done, cur), text).rows == done + WrappedAfter(w, cur, text)
    decreases |text|
  {
    if text == "" {
      assert cur + Glyphs("") == cur && [Padded(w, cur)] + [] == [Padded(w, cur)];
    } else {
      LayOk(Started(w, done, cur), text[0]);
      LayPlain(w, done, cur, text[0]);
      WrappedStep(w, done, cur, text);
      LayWraps(w, NextDone(w, done, cur, text[0]), NextCur(w, cur, text[0]), text[1..]);
    }
  }

  // The page of a text is its lines, each wrapped at w columns.
  lemma PageOfText(w: nat, text: string)
    requires w > 0 && Plain(text)
    ensures LayAll(BlankPage(w), text).rows == Wrapped(w, text)
  {
    assert Padded(w, "") == Empty(w);
    assert BlankPage(w) == Started(w, [], "");
    LayWraps(w, [], "", text);
    WrappedFresh(w, text);
  }
}
