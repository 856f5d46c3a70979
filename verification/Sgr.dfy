// Colour sequences ESC [ ... m: the parser that kernel/main.c and kernel/fb.c both hold, and
// the numbers that rgb_print writes for it.
module Sgr {
  const ESC: char := 27 as char

  predicate IsDigit(c: char) { '0' <= c <= '9' }

  predicate IsFinal(c: char) { 'A' <= c <= 'Z' || 'a' <= c <= 'z' || c == '~' }

  // ---- Parameters ----

  // The number that the digits of a field write; anything else in it is passed over.
  function Number(field: string): nat {
    if field == "" then 0 else
    var k := |field| - 1;
    if IsDigit(field[k]) then 10 * Number(field[..k]) + (field[k] as int - '0' as int) else Number(field[..k])
  }

  function LastField(body: string): string {
    if body == "" || body[|body| - 1] == ';' then ""
    else LastField(body[..|body| - 1]) + [body[|body| - 1]]
  }

  // The values of the fields that a semicolon ends.
  function Ended(body: string): seq<nat> {
    if body == "" then [] else
    var k := |body| - 1;
    if body[k] == ';' then Ended(body[..k]) + [Number(LastField(body[..k]))] else Ended(body[..k])
  }

  function AtMost16(ps: seq<nat>): seq<nat> { if |ps| <= 16 then ps else ps[..16] }

  // The first m from i on.
  function FirstM(esc: string, i: nat): (k: nat)
    requires i <= |esc|
    ensures i <= k <= |esc| && 'm' !in esc[i..k] && (k < |esc| ==> esc[k] == 'm')
    decreases |esc| - i
  {
    if i == |esc| || esc[i] == 'm' then i else FirstM(esc, i + 1)
  }

  // The parameters of a sequence, whose first character is the bracket.
  function Params(esc: string): (ps: seq<nat>)
    requires |esc| > 0
    ensures 1 <= |ps| <= 16
  {
    var k := FirstM(esc, 1);
    var all := Ended(esc[1..k]) + if k < |esc| then [Number(LastField(esc[1..k]))] else [];
    if all == [] then [0] else AtMost16(all)
  }

  lemma OneMore(body: string, c: char)
    ensures Number(body + [c]) == if IsDigit(c) then 10 * Number(body) + (c as int - '0' as int) else Number(body)
    ensures LastField(body + [c]) == if c == ';' then "" else LastField(body) + [c]
    ensures Ended(body + [c]) == Ended(body) + if c == ';' then [Number(LastField(body))] else []
  {
    assert (body + [c])[..|body|] == body;
  }

  method Push(params: array<nat>, pcnt: nat, v: nat, ghost all: seq<nat>) returns (n: nat)
    requires params.Length == 16 && pcnt <= 16 && params[..pcnt] == AtMost16(all)
    modifies params
    ensures n <= 16 && params[..n] == AtMost16(all + [v])
  {
    n := pcnt;
    if pcnt < 16 {
      params[pcnt] := v;
      n := pcnt + 1;
    }
  }

  // The body read so far has these ended fields, and the open one is worth cur.
  ghost predicate Scanned(body: string, all: seq<nat>, cur: nat) {
    all == Ended(body) && cur == Number(LastField(body))
  }

  lemma ScanStep(body: string, all: seq<nat>, cur: nat, c: char)
    requires Scanned(body, all, cur)
    ensures if c == ';' then Scanned(body + [c], all + [cur], 0)
      else Scanned(body + [c], all, if IsDigit(c) then cur * 10 + (c as int - '0' as int) else cur)
  {
    OneMore(body, c);
    OneMore(LastField(body), c);
  }

  lemma ScanDone(esc: string, i: nat, all: seq<nat>, cur: nat)
    requires 1 <= i <= |esc| && FirstM(esc, 1) == i && Scanned(esc[1..i], all, cur)
    ensures var got := AtMost16(if i < |esc| then all + [cur] else all);
      Params(esc) == if got == [] then [0] else got
  {
    assert all + [] == all;
  }

  // kernel/fb.c:216-223 and kernel/main.c:125-132.
  method ParseParams(esc: string) returns (params: array<nat>, pcnt: nat)
    requires |esc| > 0
    ensures fresh(params) && params.Length == 16 && pcnt <= 16 && params[..pcnt] == Params(esc)
  {
    params := new nat[16];
    var cur, i;
    ghost var all;
    pcnt, cur, i, all := ScanFields(esc, params);
    ScanDone(esc, i, all, cur);
    if i < |esc| {
      pcnt := Push(params, pcnt, cur, all);
    }
    if pcnt == 0 {
      pcnt := Push(params, pcnt, 0, []);
    }
  }

  // The loop, up to the m or the end.
  method ScanFields(esc: string, params: array<nat>) returns (pcnt: nat, cur: nat, i: nat, ghost all: seq<nat>)
    requires |esc| > 0 && params.Length == 16
    modifies params
    ensures 1 <= i <= |esc| && FirstM(esc, 1) == i && Scanned(esc[1..i], all, cur)
    ensures pcnt <= 16 && params[..pcnt] == AtMost16(all)
  {
    var has := false;
    pcnt, cur, i, all := 0, 0, 1, [];
    while i < |esc| && esc[i] != 'm'
      invariant 1 <= i <= |esc| && pcnt <= 16 && FirstM(esc, 1) == FirstM(esc, i)
      invariant Scanned(esc[1..i], all, cur) && (has || cur == 0)
      invariant params[..pcnt] == AtMost16(all)
    {
      var ch := esc[i];
      assert esc[1..i + 1] == esc[1..i] + [ch];
      ScanStep(esc[1..i], all, cur, ch);
      if IsDigit(ch) {
        cur, has := cur * 10 + (ch as int - '0' as int), true;
      } else if ch == ';' {
        pcnt := Push(params, pcnt, if has then cur else 0, all);
        all := all + [cur];
        cur, has := 0, false;
      }
      i := i + 1;
    }
    cur := if has then cur else 0;
  }

  // ---- Colours ----

  datatype Ink = Keep | Default | Rgb(r: nat, g: nat, b: nat)

  const PALETTE16: seq<Ink> := [
    Rgb(0, 0, 0), Rgb(128, 0, 0), Rgb(0, 128, 0), Rgb(128, 128, 0),
    Rgb(0, 0, 128), Rgb(128, 0, 128), Rgb(0, 128, 128), Rgb(192, 192, 192),
    Rgb(128, 128, 128), Rgb(255, 0, 0), Rgb(0, 255, 0), Rgb(255, 255, 0),
    Rgb(0, 0, 255), Rgb(255, 0, 255), Rgb(0, 255, 255), Rgb(255, 255, 255)]

  predicate IsRgb(c: Ink) { c.Rgb? && c.r < 256 && c.g < 256 && c.b < 256 }

  // One axis of the six by six by six cube.
  function Level(k: nat): nat { if k == 0 then 0 else 55 + k * 40 }

  // kernel/fb.c:26-36, kernel/main.c:59-70.
  function Palette256(idx: nat): (c: Ink)
    requires idx < 256
    ensures IsRgb(c)
  {
    if idx < 16 then PALETTE16[idx]
    else if idx < 232 then
      var k := idx - 16;
      Rgb(Level(k / 36), Level(k / 6 % 6), Level(k % 6))
    else
      var v := 8 + (idx - 232) * 10;
      Rgb(v, v, v)
  }

  datatype Style = Style(fg: Ink, bg: Ink)

  function Shade(k: nat, bright: bool): Ink
    requires k < 8
  {
    PALETTE16[if bright then k + 8 else k]
  }

  // An extended colour at parameter i and the number of parameters it takes.
  function Extended(ps: seq<nat>, i: nat): (r: (Ink, nat))
    requires i < |ps|
    ensures 1 <= r.1 && i + r.1 <= |ps|
  {
    if i + 2 < |ps| && ps[i + 1] == 5 then (Palette256(ps[i + 2] % 256), 3)
    else if i + 4 < |ps| && ps[i + 1] == 2 then
      (Rgb(ps[i + 2] % 256, ps[i + 3] % 256, ps[i + 4] % 256), 5)
    else (Keep, 1)
  }

  function OneColour(v: nat, bright: bool, st: Style): Style {
    if v == 0 then Style(Default, Default)
    else if 30 <= v <= 37 then st.(fg := Shade(v - 30, bright))
    else if 40 <= v <= 47 then st.(bg := Shade(v - 40, bright))
    else if 90 <= v <= 97 then st.(fg := Shade(v - 90, true))
    else if 100 <= v <= 107 then st.(bg := Shade(v - 100, true))
    else st
  }

  // What the parameters from i on make of a style.
  function Paint(ps: seq<nat>, i: nat, bright: bool, st: Style): Style
    requires i <= |ps|
    decreases |ps| - i
  {
    if i == |ps| then st else
    var v := ps[i];
    if v == 38 || v == 48 then
      var (c, n) := Extended(ps, i);
      Paint(ps, i + n, bright, if c == Keep then st else if v == 38 then st.(fg := c) else st.(bg := c))
    else Paint(ps, i + 1, v == 1 || (bright && v != 0 && v != 22), OneColour(v, bright, st))
  }

  predicate Proper(st: Style) { (st.fg.Rgb? ==> IsRgb(st.fg)) && (st.bg.Rgb? ==> IsRgb(st.bg)) }

  // Every ink asked for has three bytes.
  lemma {:induction false} PaintProper(ps: seq<nat>, i: nat, bright: bool, st: Style)
    requires i <= |ps| && Proper(st)
    ensures Proper(Paint(ps, i, bright, st))
    decreases |ps| - i
  {
    if i < |ps| {
      var v := ps[i];
      if v == 38 || v == 48 {
        var (c, n) := Extended(ps, i);
        PaintProper(ps, i + n, bright, if c == Keep then st else if v == 38 then st.(fg := c) else st.(bg := c));
      } else {
        PaintProper(ps, i + 1, v == 1 || (bright && v != 0 && v != 22), OneColour(v, bright, st));
      }
    }
  }

  // kernel/fb.c:224-248, kernel/main.c:133-158.
  method Attributes(params: array<nat>, pcnt: nat) returns (st: Style)
    requires params.Length == 16 && pcnt <= 16
    ensures st == Paint(params[..pcnt], 0, false, Style(Keep, Keep))
  {
    st := Style(Keep, Keep);
    var bright, i := false, 0;
    ghost var ps, start := params[..pcnt], 0;
    while i < pcnt
      invariant i <= pcnt && Paint(ps, start, false, Style(Keep, Keep)) == Paint(ps, i, bright, st)
    {
      var v := params[i];
      if v == 38 || v == 48 {
        var c, n := Keep, 1;
        if i + 1 < pcnt && params[i + 1] == 5 && i + 2 < pcnt {
          c, n := Palette256(params[i + 2] % 256), 3;
        } else if i + 1 < pcnt && params[i + 1] == 2 && i + 4 < pcnt {
          c, n := Rgb(params[i + 2] % 256, params[i + 3] % 256, params[i + 4] % 256), 5;
        }
        assert (c, n) == Extended(ps, i);
        if c != Keep {
          if v == 48 { st := st.(bg := c); } else { st := st.(fg := c); }
        }
        i := i + n;
      } else {
        st := OneColour(v, bright, st);
        if v == 0 || v == 22 { bright := false; } else if v == 1 { bright := true; }
        i := i + 1;
      }
    }
  }

  // Lines 215-249 of kernel/fb.c and 124-159 of kernel/main.c.
  method AskedFor(esc: string) returns (st: Style)
    requires |esc| > 0
    ensures st == Colours(esc) && Proper(st)
  {
    var params, pcnt := ParseParams(esc);
    st := Attributes(params, pcnt);
    PaintProper(params[..pcnt], 0, false, Style(Keep, Keep));
  }

  // What a whole sequence does to the colours.
  function Colours(esc: string): Style
    requires |esc| > 0
  {
    Paint(Params(esc), 0, false, Style(Keep, Keep))
  }

  // ---- Numbers as rgb_print writes them ----

  function Digit(d: nat): (c: char)
    requires d < 10
    ensures IsDigit(c) && c as int - '0' as int == d
  {
    ('0' as int + d) as char
  }

  function Decimal(v: nat): (s: string)
    ensures |s| > 0 && forall i | 0 <= i < |s| :: IsDigit(s[i])
  {
    if v < 10 then [Digit(v)] else Decimal(v / 10) + [Digit(v % 10)]
  }

  lemma {:induction false} DecimalReads(v: nat)
    ensures Number(Decimal(v)) == v
  {
    if v < 10 {
      OneMore("", Digit(v));
      assert "" + [Digit(v)] == [Digit(v)];
    } else {
      var w, d := v / 10, v % 10;
      assert v == 10 * w + d;
      DecimalReads(w);
      OneMore(Decimal(w), Digit(d));
    }
  }

  lemma DecimalShort(v: nat)
    requires v < 256
    ensures |Decimal(v)| <= 3
  {
    var w := v / 10;
    assert |Decimal(w / 10)| == 1;
    assert w >= 10 ==> |Decimal(w)| == 2;
    assert w < 10 ==> |Decimal(w)| == 1;
  }

  // The digits come lowest first and are turned round.
  method WriteNumber(v0: nat) returns (rev: string)
    ensures rev == Decimal(v0)
  {
    if v0 == 0 {
      rev := "0";
      assert Digit(0) == '0';
    } else {
      var tmp := LowestFirst(v0);
      rev := TurnRound(tmp);
    }
  }

  method LowestFirst(v0: nat) returns (tmp: string)
    requires v0 > 0
    ensures Turned(tmp) == Decimal(v0)
  {
    var v: nat := v0;
    tmp := "";
    assert Decimal(v0) + "" == Decimal(v0);
    while v > 0
      invariant (if v == 0 then "" else Decimal(v)) + Turned(tmp) == Decimal(v0)
    {
      ghost var d := Digit(v % 10);
      TurnedMore(tmp, d);
      assert v >= 10 ==> Decimal(v / 10) + [d] + Turned(tmp) == Decimal(v / 10) + ([d] + Turned(tmp));
      tmp := tmp + [Digit(v % 10)];
      v := v / 10;
    }
    assert "" + Turned(tmp) == Turned(tmp);
  }

  method TurnRound(tmp: string) returns (rev: string)
    ensures rev == Turned(tmp)
  {
    rev := "";
    var tt := |tmp|;
    assert tmp[..tt] == tmp && rev + Turned(tmp) == Turned(tmp);
    while tt > 0
      invariant tt <= |tmp| && Turned(tmp) == rev + Turned(tmp[..tt])
    {
      tt := tt - 1;
      assert tmp[..tt + 1][..tt] == tmp[..tt];
      assert rev + ([tmp[tt]] + Turned(tmp[..tt])) == rev + [tmp[tt]] + Turned(tmp[..tt]);
      rev := rev + [tmp[tt]];
    }
    assert rev + Turned(tmp[..0]) == rev;
  }

  function Turned(s: string): string {
    if s == "" then "" else [s[|s| - 1]] + Turned(s[..|s| - 1])
  }

  lemma TurnedMore(s: string, c: char)
    ensures Turned(s + [c]) == [c] + Turned(s)
  {
    assert (s + [c])[..|s|] == s;
  }

  // ---- The sequence rgb_print writes ----

  function Field(body: string, v: nat): string { body + Decimal(v) + ";" }

  function ColourBody(lead: nat, r: nat, g: nat, b: nat): string {
    Field(Field(Field(Field("", lead), 2), r), g) + Decimal(b)
  }

  // Two fixed fields, which the printer writes as one literal.
  lemma FixedFields()
    ensures Field(Field("", 38), 2) == "38;2;"
    ensures Field(Field("", 48), 2) == "48;2;"
  {
    assert Digit(2) == '2' && Digit(3) == '3' && Digit(4) == '4' && Digit(8) == '8';
    assert Decimal(2) == "2" && Decimal(38) == "38" && Decimal(48) == "48";
  }

  lemma FieldMore(body: string, pre: string, c: char)
    requires IsDigit(c) && LastField(body + pre) == LastField(body) + pre && Ended(body + pre) == Ended(body)
    ensures LastField(body + (pre + [c])) == LastField(body) + (pre + [c]) && Ended(body + (pre + [c])) == Ended(body)
  {
    assert body + (pre + [c]) == (body + pre) + [c];
    OneMore(body + pre, c);
    assert LastField(body) + pre + [c] == LastField(body) + (pre + [c]);
  }

  // Digits stay in the field they follow.
  lemma {:induction false} FieldOf(body: string, digits: string)
    requires forall i | 0 <= i < |digits| :: IsDigit(digits[i])
    ensures LastField(body + digits) == LastField(body) + digits && Ended(body + digits) == Ended(body)
    decreases |digits|
  {
    if digits == "" {
      assert body + digits == body && LastField(body) + digits == LastField(body);
    } else {
      var k := |digits| - 1;
      FieldOf(body, digits[..k]);
      FieldMore(body, digits[..k], digits[k]);
      assert digits == digits[..k] + [digits[k]];
    }
  }

  ghost predicate AllEnded(body: string, ps: seq<nat>) {
    Ended(body) == ps && LastField(body) == "" && 'm' !in body
  }

  lemma AddField(body: string, v: nat, ps: seq<nat>)
    requires AllEnded(body, ps)
    ensures AllEnded(Field(body, v), ps + [v])
  {
    DecimalReads(v);
    EndField(body, Decimal(v), v, ps);
  }

  lemma EndField(body: string, d: string, v: nat, ps: seq<nat>)
    requires AllEnded(body, ps) && (forall i | 0 <= i < |d| :: IsDigit(d[i])) && Number(d) == v
    ensures AllEnded(body + d + ";", ps + [v])
  {
    FieldOf(body, d);
    assert "" + d == d;
    OneMore(body + d, ';');
  }

  lemma {:induction false} FirstMIs(esc: string, i: nat, k: nat)
    requires i <= k < |esc| && esc[k] == 'm' && 'm' !in esc[i..k]
    ensures FirstM(esc, i) == k
    decreases k - i
  {
    if i < k {
      assert esc[i] == esc[i..k][0] && esc[i + 1..k] == esc[i..k][1..];
      FirstMIs(esc, i + 1, k);
    }
  }

  lemma LastOne(body: string, v: nat, ps: seq<nat>)
    requires AllEnded(body, ps) && |ps| < 16
    ensures Params("[" + (body + Decimal(v)) + "m") == ps + [v]
  {
    var d := Decimal(v);
    var esc := "[" + (body + d) + "m";
    FieldOf(body, d);
    DecimalReads(v);
    assert "" + d == d;
    assert esc[1..|esc| - 1] == body + d;
    FirstMIs(esc, 1, |esc| - 1);
  }

  // Numbers written one after the other, each with its semicolon.
  function FieldsText(ps: seq<nat>): string {
    if ps == [] then "" else Field(FieldsText(ps[..|ps| - 1]), ps[|ps| - 1])
  }

  lemma {:induction false} FieldsRead(ps: seq<nat>)
    ensures AllEnded(FieldsText(ps), ps)
  {
    if ps != [] {
      var k := |ps| - 1;
      FieldsRead(ps[..k]);
      AddField(FieldsText(ps[..k]), ps[k], ps[..k]);
      assert ps[..k] + [ps[k]] == ps;
    }
  }

  lemma FieldsTextMore(ps: seq<nat>, v: nat)
    ensures FieldsText(ps + [v]) == Field(FieldsText(ps), v)
  {
    assert (ps + [v])[..|ps|] == ps;
  }

  lemma FourFields(lead: nat, r: nat, g: nat)
    ensures FieldsText([lead, 2, r, g]) == Field(Field(Field(Field("", lead), 2), r), g)
  {
    FieldsTextMore([], lead);
    FieldsTextMore([lead], 2);
    FieldsTextMore([lead, 2], r);
    FieldsTextMore([lead, 2, r], g);
    assert [] + [lead] == [lead] && [lead] + [2] == [lead, 2];
    assert [lead, 2] + [r] == [lead, 2, r] && [lead, 2, r] + [g] == [lead, 2, r, g];
  }

  // The parser reads back what the printer wrote.
  lemma ColourBodyParams(lead: nat, r: nat, g: nat, b: nat)
    ensures Params("[" + ColourBody(lead, r, g, b) + "m") == [lead, 2, r, g, b]
  {
    var ps := [lead, 2, r, g];
    FourFields(lead, r, g);
    FieldsRead(ps);
    LastOne(FieldsText(ps), b, ps);
  }

  lemma Painted(lead: nat, r: nat, g: nat, b: nat)
    requires (lead == 38 || lead == 48) && r < 256 && g < 256 && b < 256
    ensures Paint([lead, 2, r, g, b], 0, false, Style(Keep, Keep)) ==
      if lead == 38 then Style(Rgb(r, g, b), Keep) else Style(Keep, Rgb(r, g, b))
  {
    var ps := [lead, 2, r, g, b];
    assert Extended(ps, 0) == (Rgb(r, g, b), 5);
  }

  // One truecolor ink, and no other change; a bare zero resets both colours.
  lemma PrinterAndParserAgree(r: nat, g: nat, b: nat)
    requires r < 256 && g < 256 && b < 256
    ensures Colours("[" + ColourBody(38, r, g, b) + "m") == Style(Rgb(r, g, b), Keep)
    ensures Colours("[" + ColourBody(48, r, g, b) + "m") == Style(Keep, Rgb(r, g, b))
  {
    ColourBodyParams(38, r, g, b);
    ColourBodyParams(48, r, g, b);
    Painted(38, r, g, b);
    Painted(48, r, g, b);
  }

  // Parameters as a sequence gives them.
  function ParamText(ps: seq<nat>): string
    requires ps != []
  {
    FieldsText(ps[..|ps| - 1]) + Decimal(ps[|ps| - 1])
  }

  // Up to 16 parameters are read back as they were written.
  lemma ParamsRead(ps: seq<nat>)
    requires 1 <= |ps| <= 16
    ensures Params("[" + ParamText(ps) + "m") == ps
  {
    var k := |ps| - 1;
    FieldsRead(ps[..k]);
    LastOne(FieldsText(ps[..k]), ps[k], ps[..k]);
    assert ps[..k] + [ps[k]] == ps;
  }

  function Asked(ps: seq<nat>): Style
    requires 1 <= |ps| <= 16
  {
    Colours("[" + ParamText(ps) + "m")
  }

  lemma AskedIs(ps: seq<nat>)
    requires 1 <= |ps| <= 16
    ensures Asked(ps) == Paint(ps, 0, false, Style(Keep, Keep))
  {
    ParamsRead(ps);
  }

  // The 256 colours of xterm: a cube of six levels on each axis, and grey in steps of 10.
  const LEVELS := [0, 95, 135, 175, 215, 255]

  lemma XtermPalette(r: nat, g: nat, b: nat, k: nat)
    requires r < 6 && g < 6 && b < 6 && k < 24
    ensures Palette256(16 + 36 * r + 6 * g + b) == Rgb(LEVELS[r], LEVELS[g], LEVELS[b])
    ensures var grey := Palette256(232 + k); grey.r == grey.g == grey.b == 8 + 10 * k
  {
    CubeIndex(r, g, b);
  }

  lemma CubeIndex(r: nat, g: nat, b: nat)
    requires r < 6 && g < 6 && b < 6
    ensures var k := 36 * r + 6 * g + b; k < 216 && k / 36 == r && k / 6 % 6 == g && k % 6 == b
  {
    var k := 36 * r + 6 * g + b;
    assert k / 6 == 6 * r + g;
  }

  // An index of 0 to 255 asks for its colour, for the text or for what is behind it.
  lemma IndexedColour(n: nat)
    requires n < 256
    ensures Asked([38, 5, n]) == Style(Palette256(n), Keep)
    ensures Asked([48, 5, n]) == Style(Keep, Palette256(n))
  {
    AskedIs([38, 5, n]);
    AskedIs([48, 5, n]);
    PaintIndexed([38, 5, n]);
    PaintIndexed([48, 5, n]);
  }

  lemma PaintIndexed(ps: seq<nat>)
    requires |ps| == 3 && (ps[0] == 38 || ps[0] == 48) && ps[1] == 5 && ps[2] < 256
    ensures Paint(ps, 0, false, Style(Keep, Keep)) ==
      if ps[0] == 38 then Style(Palette256(ps[2]), Keep) else Style(Keep, Palette256(ps[2]))
  {
    assert Extended(ps, 0) == (Palette256(ps[2]), 3);
    assert Paint(ps, 3, false, Style(Palette256(ps[2]), Keep)) == Style(Palette256(ps[2]), Keep);
  }

  // The eight basic colours are the first of the 256, and the bright ones the next eight,
  // asked for by their own codes or after a 1 that no 22 takes back.
  lemma BasicColour(k: nat)
    requires k < 8
    ensures Asked([30 + k]) == Style(Palette256(k), Keep) && Asked([40 + k]) == Style(Keep, Palette256(k))
    ensures Asked([90 + k]) == Style(Palette256(k + 8), Keep) && Asked([100 + k]) == Style(Keep, Palette256(k + 8))
    ensures Asked([1, 30 + k]) == Style(Palette256(k + 8), Keep) && Asked([1, 40 + k]) == Style(Keep, Palette256(k + 8))
    ensures Asked([1, 22, 30 + k]) == Style(Palette256(k), Keep)
  {
    AskedOne(30 + k);
    AskedOne(40 + k);
    AskedOne(90 + k);
    AskedOne(100 + k);
    AskedBright(30 + k);
    AskedBright(40 + k);
    AskedPlain(30 + k);
  }

  lemma AskedOne(v: nat)
    requires v != 38 && v != 48
    ensures Asked([v]) == OneColour(v, false, Style(Keep, Keep))
  {
    AskedIs([v]);
    assert Paint([v], 1, v == 1, OneColour(v, false, Style(Keep, Keep))) == OneColour(v, false, Style(Keep, Keep));
  }

  lemma AskedBright(v: nat)
    requires v != 38 && v != 48
    ensures Asked([1, v]) == OneColour(v, true, Style(Keep, Keep))
  {
    var ps := [1, v];
    AskedIs(ps);
    assert Paint(ps, 0, false, Style(Keep, Keep)) == Paint(ps, 1, true, Style(Keep, Keep));
    assert Paint(ps, 2, v == 1 || (v != 0 && v != 22), OneColour(v, true, Style(Keep, Keep)))
      == OneColour(v, true, Style(Keep, Keep));
  }

  lemma AskedPlain(v: nat)
    requires v != 38 && v != 48
    ensures Asked([1, 22, v]) == OneColour(v, false, Style(Keep, Keep))
  {
    var ps := [1, 22, v];
    AskedIs(ps);
    assert Paint(ps, 0, false, Style(Keep, Keep)) == Paint(ps, 1, true, Style(Keep, Keep));
    assert Paint(ps, 1, true, Style(Keep, Keep)) == Paint(ps, 2, false, Style(Keep, Keep));
    assert Paint(ps, 3, v == 1, OneColour(v, false, Style(Keep, Keep))) == OneColour(v, false, Style(Keep, Keep));
  }

  // Index 196 is pure red.
  lemma PureRed()
    ensures Asked([38, 5, 196]) == Style(Rgb(255, 0, 0), Keep)
  {
    IndexedColour(196);
    XtermPalette(5, 0, 0, 0);
  }

  lemma ZeroResets()
    ensures Colours("[0m") == Style(Default, Default)
  {
    LastOne("", 0, []);
    assert Digit(0) == '0';
    assert "[" + ("" + Decimal(0)) + "m" == "[0m";
    assert [] + [0] == [0];
    PaintZero([0]);
  }

  lemma PaintZero(ps: seq<nat>)
    requires ps == [0]
    ensures Paint(ps, 0, false, Style(Keep, Keep)) == Style(Default, Default)
  {
  }

  // ---- What the printers write ----

  // ESC, a bracket, a body and an m.
  function Sequence(body: string): string { [ESC] + ("[" + body) + "m" }

  function RgbText(t: string, r: nat, g: nat, b: nat): string {
    Sequence(ColourBody(38, r, g, b)) + t + Sequence("0")
  }

  function RgbBgText(t: string, r: nat, g: nat, b: nat, br: nat, bg: nat, bb: nat): string {
    Sequence(ColourBody(38, r, g, b)) + Sequence(ColourBody(48, br, bg, bb)) + t + Sequence("0")
  }

  // No character of the body would end the sequence.
  ghost predicate Quiet(body: string) { forall i | 0 <= i < |body| :: !IsFinal(body[i]) }

  lemma BodyFits(lead: nat, r: nat, g: nat, b: nat)
    requires lead < 256 && r < 256 && g < 256 && b < 256
    ensures Quiet(ColourBody(lead, r, g, b)) && |ColourBody(lead, r, g, b)| <= 29
  {
    DecimalShort(lead);
    DecimalShort(2);
    DecimalShort(r);
    DecimalShort(g);
    DecimalShort(b);
    QuietField("", lead);
    QuietField(Field("", lead), 2);
    QuietField(Field(Field("", lead), 2), r);
    QuietField(Field(Field(Field("", lead), 2), r), g);
  }

  lemma QuietField(body: string, v: nat)
    requires Quiet(body)
    ensures Quiet(Field(body, v)) && |Field(body, v)| == |body| + |Decimal(v)| + 1
  {
  }
}
