// kernel/fb.c: fb_putchar, and the printers rgb_print and rgb_print_bg that feed it.
module Framebuffer {
  import opened Sgr
  import opened Pages

  // What happens to the pixels, oldest first.
  datatype Mark = Drawn(x: nat, y: nat, c: char, fg: nat, bg: nat) | Scrolled(bg: nat) | Wiped(bg: nat)

  datatype Fb = Fb(w: nat, h: nat, cx: nat, cy: nat, fg: nat, bg: nat, inEsc: bool, esc: string, log: seq<Mark>)

  ghost predicate Valid(s: Fb) { s.cx < s.w && s.cy < s.h && |s.esc| <= 31 }

  // 8 bits a channel, as rgb packs them.
  function Pack(c: Ink): nat
    requires c.Rgb?
  {
    c.r * 65536 + c.g * 256 + c.b
  }

  lemma PackBytes(r: nat, g: nat, b: nat)
    requires r < 256 && g < 256 && b < 256
    ensures var v := Pack(Rgb(r, g, b)); v / 65536 == r && v / 256 % 256 == g && v % 256 == b
  {
    assert Pack(Rgb(r, g, b)) / 256 == 256 * r + g;
  }

  const LIGHT_GREY := 0xBBBBBB

  function FgOf(c: Ink, old_: nat): nat {
    match c
    case Keep => old_
    case Default => LIGHT_GREY
    case Rgb(_, _, _) => Pack(c)
  }

  function BgOf(c: Ink, old_: nat): nat {
    match c
    case Keep => old_
    case Default => 0
    case Rgb(_, _, _) => Pack(c)
  }

  // ---- One character ----

  function Paint1(s: Fb, x: nat, c: char): Fb { s.(log := s.log + [Drawn(x, s.cy, c, s.fg, s.bg)]) }

  // Blanks from x to the right edge.
  function BlankFrom(s: Fb, x: nat): Fb
    decreases s.w - x
  {
    if x >= s.w then s else BlankFrom(Paint1(s, x, ' '), x + 1)
  }

  function NewLine(s: Fb): Fb {
    if s.cy + 1 < s.h then s.(cx := 0, cy := s.cy + 1) else s.(cx := 0, log := s.log + [Scrolled(s.bg)])
  }

  function Control(s: Fb, c: char): Fb
    requires s.esc != ""
  {
    if c == 'K' then BlankFrom(s, s.cx)
    else if c == 'J' then s.(log := s.log + [Wiped(s.bg)], cx := 0, cy := 0)
    else if c == 'H' then s.(cx := 0, cy := 0)
    else if c == 'D' then if s.cx > 0 then s.(cx := s.cx - 1) else s
    else if c == 'C' then if s.cx + 1 < s.w then s.(cx := s.cx + 1) else s
    else if c == 'm' then s.(fg := FgOf(Colours(s.esc).fg, s.fg), bg := BgOf(Colours(s.esc).bg, s.bg))
    else s
  }

  function Collected(s: Fb, c: char): Fb { s.(esc := if |s.esc| < 31 then s.esc + [c] else s.esc) }

  function PutEscape(s: Fb, c: char): Fb {
    var t := Collected(s, c);
    if !IsFinal(c) then t
    else (if t.esc[0] == '[' then Control(t, c) else t).(inEsc := false, esc := "")
  }

  function PutGround(s: Fb, c: char): Fb {
    if c == '\n' then NewLine(s)
    else if c == '\r' then s.(cx := 0)
    else if c == 8 as char then if s.cx > 0 then Paint1(s.(cx := s.cx - 1), s.cx - 1, ' ') else s
    else if c == '\t' then
      var k := TabStop(s.cx);
      if k >= s.w then NewLine(s) else s.(cx := k)
    else
      var t := Paint1(s, s.cx, Glyph(c));
      if s.cx + 1 < s.w then t.(cx := s.cx + 1) else NewLine(t)
  }

  function Put(s: Fb, c: char): Fb {
    if s.inEsc then PutEscape(s, c)
    else if c == ESC then s.(inEsc := true, esc := "")
    else if c == 7 as char then s
    else PutGround(s, c)
  }

  lemma {:induction false} BlankFromMarks(s: Fb, x: nat)
    ensures var t := BlankFrom(s, x); t == s.(log := t.log)
    decreases s.w - x
  {
    if x < s.w { BlankFromMarks(Paint1(s, x, ' '), x + 1); }
  }

  lemma PutValid(s: Fb, c: char)
    requires Valid(s)
    ensures Valid(Put(s, c)) && Put(s, c).w == s.w && Put(s, c).h == s.h
  {
    BlankFromMarks(Collected(s, c), s.cx);
  }

  function Feed(s: Fb, text: string): Fb
    decreases |text|
  {
    if text == "" then s else Feed(Put(s, text[0]), text[1..])
  }

  // Any bytes at all keep the cursor and the escape length in range.
  lemma {:induction false} FeedValid(s: Fb, text: string)
    requires Valid(s)
    ensures Valid(Feed(s, text))
    decreases |text|
  {
    if text != "" {
      PutValid(s, text[0]);
      FeedValid(Put(s, text[0]), text[1..]);
    }
  }

  lemma {:induction false} FeedMore(s: Fb, a: string, b: string)
    ensures Feed(s, a + b) == Feed(Feed(s, a), b)
    decreases |a|
  {
    if a == "" {
      assert a + b == b;
    } else {
      FeedMore(Put(s, a[0]), a[1..], b);
      assert (a + b)[1..] == a[1..] + b;
    }
  }

  // ---- A whole escape sequence ----

  lemma {:induction false} FeedBody(s: Fb, body: string)
    requires s.inEsc && Quiet(body) && |s.esc| + |body| <= 31
    ensures Feed(s, body) == s.(esc := s.esc + body)
    decreases |body|
  {
    if body == "" {
      assert s.esc + body == s.esc;
    } else {
      FeedBody(Put(s, body[0]), body[1..]);
      assert s.esc + body == s.esc + [body[0]] + body[1..];
    }
  }

  lemma EscapeOpens(s: Fb)
    requires !s.inEsc && s.esc == ""
    ensures Feed(s, [ESC]) == s.(inEsc := true)
  {
    assert [ESC][1..] == "";
    assert Feed(s, [ESC]) == Feed(Put(s, ESC), "");
  }

  lemma EscapeCloses(t: Fb, body: string)
    requires t.inEsc && t.esc == "[" + body && |body| <= 29
    ensures var st := Colours("[" + body + "m");
      Feed(t, "m") == t.(fg := FgOf(st.fg, t.fg), bg := BgOf(st.bg, t.bg), inEsc := false, esc := "")
  {
    assert "m"[1..] == "";
    assert Feed(t, "m") == Feed(Put(t, 'm'), "");
    assert Collected(t, 'm').esc == "[" + body + "m";
  }

  // A sequence sets the colours its body asks for, and does nothing else.
  lemma FeedColours(s: Fb, body: string)
    requires !s.inEsc && s.esc == "" && Quiet(body) && |body| <= 29
    ensures var st := Colours("[" + body + "m");
      Feed(s, Sequence(body)) == s.(fg := FgOf(st.fg, s.fg), bg := BgOf(st.bg, s.bg))
  {
    var t := s.(inEsc := true);
    FeedMore(s, [ESC] + ("[" + body), "m");
    FeedMore(s, [ESC], "[" + body);
    EscapeOpens(s);
    FeedBody(t, "[" + body);
    assert t.esc + ("[" + body) == "[" + body;
    EscapeCloses(t.(esc := "[" + body), body);
  }

  // ---- Text between sequences ----

  ghost predicate NoEscape(t: string) { forall i | 0 <= i < |t| :: t[i] != ESC }

  ghost predicate Ground(s: Fb) { !s.inEsc && s.esc == "" }

  predicate InColours(m: Mark, fg: nat, bg: nat) {
    match m
    case Drawn(_, _, _, f, b) => f == fg && b == bg
    case Scrolled(b) => b == bg
    case Wiped(_) => false
  }

  ghost predicate AllIn(marks: seq<Mark>, fg: nat, bg: nat) {
    forall i | 0 <= i < |marks| :: InColours(marks[i], fg, bg)
  }

  // The characters drawn, in order.
  function Inked(marks: seq<Mark>): string {
    if marks == [] then "" else (if marks[0].Drawn? then [marks[0].c] else "") + Inked(marks[1..])
  }

  // The characters of a text that are drawn, if it has no backspace.
  function Printable(c: char): bool { c !in "\n\r\t" && c != 7 as char }

  function Printed(t: string): string {
    if t == "" then ""
    else (if Printable(t[0]) then [Glyph(t[0])] else "") + Printed(t[1..])
  }

  lemma {:induction false} InkedMore(a: seq<Mark>, b: seq<Mark>)
    ensures Inked(a + b) == Inked(a) + Inked(b)
    decreases |a|
  {
    if a == [] {
      assert a + b == b;
    } else {
      var ab := a + b;
      assert ab[1..] == a[1..] + b && ab[0] == a[0];
      InkedMore(a[1..], b);
      assert Inked(ab) == (if a[0].Drawn? then [a[0].c] else "") + (Inked(a[1..]) + Inked(b));
    }
  }

  // What one character does to the log.
  function Marks(s: Fb, c: char): seq<Mark> {
    if |s.log| <= |Put(s, c).log| then Put(s, c).log[|s.log|..] else []
  }

  lemma CharInColours(s: Fb, c: char)
    requires Ground(s) && c != ESC
    ensures Ground(Put(s, c)) && Put(s, c).fg == s.fg && Put(s, c).bg == s.bg
    ensures Put(s, c).log == s.log + Marks(s, c) && AllIn(Marks(s, c), s.fg, s.bg)
  {
  }

  lemma CharInked(s: Fb, c: char)
    requires Ground(s) && c != ESC && c != 8 as char
    ensures Inked(Marks(s, c)) == if Printable(c) then [Glyph(c)] else ""
  {
    var ms := Marks(s, c);
    assert |ms| <= 2;
    if Printable(c) {
      assert ms[0].Drawn?;
      assert |ms| == 2 ==> ms[1].Scrolled? && ms[1..][1..] == [];
      assert Inked(ms[1..]) == "";
    }
  }

  lemma {:induction false} TextInColours(s: Fb, t: string) returns (marks: seq<Mark>)
    requires Ground(s) && NoEscape(t)
    ensures var e := Feed(s, t); Ground(e) && e.fg == s.fg && e.bg == s.bg && e.log == s.log + marks
    ensures AllIn(marks, s.fg, s.bg) && (8 as char !in t ==> Inked(marks) == Printed(t))
    decreases |t|
  {
    if t == "" {
      marks := [];
    } else {
      CharInColours(s, t[0]);
      var one := Marks(s, t[0]);
      var more := TextInColours(Put(s, t[0]), t[1..]);
      marks := one + more;
      if 8 as char !in t {
        CharInked(s, t[0]);
        InkedMore(one, more);
      }
    }
  }

  // ---- The printers ----

  lemma SetsInk(s: Fb, r: nat, g: nat, b: nat)
    requires Ground(s) && r < 256 && g < 256 && b < 256
    ensures Feed(s, Sequence(ColourBody(38, r, g, b))) == s.(fg := Pack(Rgb(r, g, b)))
    ensures Feed(s, Sequence(ColourBody(48, r, g, b))) == s.(bg := Pack(Rgb(r, g, b)))
  {
    PrinterAndParserAgree(r, g, b);
    BodyFits(38, r, g, b);
    BodyFits(48, r, g, b);
    FeedColours(s, ColourBody(38, r, g, b));
    FeedColours(s, ColourBody(48, r, g, b));
  }

  lemma Resets(s: Fb)
    requires Ground(s)
    ensures Feed(s, Sequence("0")) == s.(fg := LIGHT_GREY, bg := 0)
  {
    ZeroResets();
    ZeroBody();
    ResetBy(s, "0");
  }

  lemma ZeroBody()
    ensures "[" + "0" + "m" == "[0m" && Quiet("0")
  {
  }

  lemma ResetBy(s: Fb, body: string)
    requires Ground(s) && Quiet(body) && |body| <= 29 && Colours("[" + body + "m") == Style(Default, Default)
    ensures Feed(s, Sequence(body)) == s.(fg := LIGHT_GREY, bg := 0)
  {
    FeedColours(s, body);
  }

  // Text in the colours of s, and then the reset.
  lemma PrintedThenReset(s: Fb, t: string) returns (marks: seq<Mark>)
    requires Ground(s) && NoEscape(t)
    ensures var e := Feed(s, t + Sequence("0"));
      Ground(e) && e.fg == LIGHT_GREY && e.bg == 0 && e.log == s.log + marks
    ensures AllIn(marks, s.fg, s.bg) && (8 as char !in t ==> Inked(marks) == Printed(t))
  {
    marks := TextInColours(s, t);
    FeedMore(s, t, Sequence("0"));
    Resets(Feed(s, t));
  }

  // The text of rgb_print is drawn in rgb(r, g, b), and the default colours are left.
  lemma RgbPrintDraws(s: Fb, t: string, r: nat, g: nat, b: nat) returns (marks: seq<Mark>)
    requires Ground(s) && NoEscape(t) && r < 256 && g < 256 && b < 256
    ensures var e := Feed(s, RgbText(t, r, g, b));
      Ground(e) && e.fg == LIGHT_GREY && e.bg == 0 && e.log == s.log + marks
    ensures AllIn(marks, Pack(Rgb(r, g, b)), s.bg) && (8 as char !in t ==> Inked(marks) == Printed(t))
  {
    var one := Sequence(ColourBody(38, r, g, b));
    SetsInk(s, r, g, b);
    assert RgbText(t, r, g, b) == one + (t + Sequence("0"));
    FeedMore(s, one, t + Sequence("0"));
    marks := PrintedThenReset(s.(fg := Pack(Rgb(r, g, b))), t);
  }

  lemma RgbPrintBgDraws(s: Fb, t: string, r: nat, g: nat, b: nat, br: nat, bg: nat, bb: nat) returns (marks: seq<Mark>)
    requires Ground(s) && NoEscape(t) && r < 256 && g < 256 && b < 256 && br < 256 && bg < 256 && bb < 256
    ensures var e := Feed(s, RgbBgText(t, r, g, b, br, bg, bb));
      Ground(e) && e.fg == LIGHT_GREY && e.bg == 0 && e.log == s.log + marks
    ensures AllIn(marks, Pack(Rgb(r, g, b)), Pack(Rgb(br, bg, bb)))
    ensures 8 as char !in t ==> Inked(marks) == Printed(t)
  {
    var one, two := Sequence(ColourBody(38, r, g, b)), Sequence(ColourBody(48, br, bg, bb));
    BgTextParts(t, r, g, b, br, bg, bb);
    SetsInks(s, one, two, t + Sequence("0"), r, g, b, br, bg, bb);
    marks := PrintedThenReset(s.(fg := Pack(Rgb(r, g, b)), bg := Pack(Rgb(br, bg, bb))), t);
  }

  lemma BgTextParts(t: string, r: nat, g: nat, b: nat, br: nat, bg: nat, bb: nat)
    ensures RgbBgText(t, r, g, b, br, bg, bb) ==
      Sequence(ColourBody(38, r, g, b)) + (Sequence(ColourBody(48, br, bg, bb)) + (t + Sequence("0")))
  {
  }

  lemma SetsInks(s: Fb, one: string, two: string, more: string, r: nat, g: nat, b: nat, br: nat, bg: nat, bb: nat)
    requires Ground(s) && r < 256 && g < 256 && b < 256 && br < 256 && bg < 256 && bb < 256
    requires one == Sequence(ColourBody(38, r, g, b)) && two == Sequence(ColourBody(48, br, bg, bb))
    ensures Feed(s, one + (two + more)) == Feed(s.(fg := Pack(Rgb(r, g, b)), bg := Pack(Rgb(br, bg, bb))), more)
  {
    var s1 := s.(fg := Pack(Rgb(r, g, b)));
    SetsInk(s, r, g, b);
    SetsInk(s1, br, bg, bb);
    FeedMore(s, one, two + more);
    FeedMore(s1, two, more);
  }
}
