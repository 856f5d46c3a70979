// LS_COLORS in kernel/coreutils/ls.c: get_funky_string and parse_ls_color, two nested
// state machines over one string and one buffer.
module LsColors {
  // The character at i; the string ends in a NUL.
  function At(s: string, i: nat): char { if i < |s| then s[i] else '\0' }

  predicate NoNul(s: string) { forall i | 0 <= i < |s| :: s[i] != '\0' }

  // ---- What an escaped string stands for ----

  predicate InBase(c: char, base: nat) {
    if base == 8 then '0' <= c <= '7'
    else '0' <= c <= '9' || 'a' <= c <= 'f' || 'A' <= c <= 'F'
  }

  function Digit(c: char): nat
    requires InBase(c, 16)
  {
    if c <= '9' then c as int - '0' as int
    else if c <= 'F' then c as int - 'A' as int + 10
    else c as int - 'a' as int + 10
  }

  // The first position from i on that holds no digit.
  function RunEnd(s: string, i: nat, base: nat): (e: nat)
    ensures i <= e && (i <= |s| ==> e <= |s|) && !InBase(At(s, e), base)
    ensures forall k | i <= k < e :: InBase(At(s, k), base)
    decreases |s| + 1 - i
  {
    if i < |s| && InBase(s[i], base) then RunEnd(s, i + 1, base) else i
  }

  predicate AllDigits(s: string, i: nat, e: nat, base: nat) { forall k | i <= k < e :: InBase(At(s, k), base) }

  // The number written from i to e, however long.
  function Number(s: string, i: nat, e: nat, base: nat): nat
    requires i <= e && (base == 8 || base == 16) && AllDigits(s, i, e, base)
    decreases e
  {
    if i == e then 0 else Number(s, i, e - 1, base) * base + Digit(At(s, e - 1))
  }

  function Low(n: nat): char { (n % 256) as char }

  function Named(c: char): char {
    match c
    case 'a' => 7 as char
    case 'b' => 8 as char
    case 'e' => 27 as char
    case 'f' => 12 as char
    case 'n' => 10 as char
    case 'r' => 13 as char
    case 't' => 9 as char
    case 'v' => 11 as char
    case '?' => 127 as char
    case '_' => ' '
    case _ => c
  }

  datatype Token = Piece(c: char, end: nat) | Bad(end: nat)

  // One character or escape at i.
  function TokenAt(s: string, i: nat): Token {
    var e := At(s, i + 1);
    if At(s, i) == '\\' then
      if e == '\0' then Bad(i + 2)
      else if InBase(e, 8) then
        var j := RunEnd(s, i + 1, 8);
        Piece(Low(Number(s, i + 1, j, 8)), j)
      else if e == 'x' || e == 'X' then
        var j := RunEnd(s, i + 2, 16);
        Piece(Low(Number(s, i + 2, j, 16)), j)
      else Piece(Named(e), i + 2)
    else if At(s, i) == '^' then
      if '@' <= e <= '~' then Piece((e as int % 32) as char, i + 2)
      else if e == '?' then Piece(127 as char, i + 1)
      else Bad(i + 1)
    else Piece(At(s, i), i + 1)
  }

  predicate Ends(c: char, equalsEnd: bool) { c == ':' || c == '\0' || (c == '=' && equalsEnd) }

  // Every token takes at least one character and stays within the string.
  lemma TokenMoves(s: string, i: nat)
    requires i < |s|
    ensures TokenAt(s, i).Piece? ==> i < TokenAt(s, i).end <= |s|
    ensures TokenAt(s, i).Bad? ==> i < TokenAt(s, i).end <= |s| + 1
  {
    if At(s, i) == '\\' && i + 1 < |s| {
      assert RunEnd(s, i + 1, 8) <= |s|;
      if i + 2 <= |s| { assert RunEnd(s, i + 2, 16) <= |s|; }
      if InBase(At(s, i + 1), 8) { assert RunEnd(s, i + 1, 8) == RunEnd(s, i + 2, 8); }
    }
  }

  datatype Got = Got(bytes: string, end: nat, ok: bool)

  function Prepend(done: string, g: Got): Got { Got(done + g.bytes, g.end, g.ok) }

  function Decode(s: string, i: nat, equalsEnd: bool): Got
    decreases |s| - i
  {
    if Ends(At(s, i), equalsEnd) then Got("", i, true)
    else if i >= |s| then Got("", i, true)
    else
      TokenMoves(s, i);
      var t := TokenAt(s, i);
      if t.Bad? then Got("", t.end, false) else Prepend([t.c], Decode(s, t.end, equalsEnd))
  }

  // A decoded string is no longer than what spells it, and ends where a terminator is.
  lemma {:induction false} DecodeFits(s: string, i: nat, equalsEnd: bool)
    requires i <= |s|
    ensures var g := Decode(s, i, equalsEnd);
      && i + |g.bytes| <= g.end
      && (if g.ok then g.end <= |s| && Ends(At(s, g.end), equalsEnd) else i + |g.bytes| < g.end <= |s| + 1)
    decreases |s| - i
  {
    if !Ends(At(s, i), equalsEnd) {
      TokenMoves(s, i);
      if TokenAt(s, i).Piece? { DecodeFits(s, TokenAt(s, i).end, equalsEnd); }
    }
  }

  // ---- Any bytes can be spelled ----

  function SpellOne(c: char): string {
    match c
    case '\0' => "^@"
    case ':' => "\\:"
    case '=' => "\\="
    case '\\' => "\\\\"
    case '^' => "\\^"
    case _ => [c]
  }

  function Spell(bytes: string): string {
    if bytes == "" then "" else SpellOne(bytes[0]) + Spell(bytes[1..])
  }

  function CharOf(w: string, k: nat): char
    requires k < |w|
  {
    w[k]
  }

  ghost predicate HasAt(s: string, i: nat, w: string) {
    i + |w| <= |s| && forall k: nat | k < |w| :: CharOf(w, k) == s[i + k]
  }

  lemma SpelledToken(s: string, i: nat, c: char)
    requires HasAt(s, i, SpellOne(c))
    ensures !Ends(s[i], true) && TokenAt(s, i) == Piece(c, i + |SpellOne(c)|)
  {
    var one := SpellOne(c);
    assert At(s, i) == CharOf(one, 0);
    if |one| == 2 { assert At(s, i + 1) == CharOf(one, 1); }
  }

  lemma CutInTwo(s: string, i: nat, a: string, b: string)
    requires HasAt(s, i, a + b)
    ensures HasAt(s, i, a) && HasAt(s, i + |a|, b)
  {
    forall k: nat | k < |a| ensures CharOf(a, k) == s[i + k] { assert CharOf(a + b, k) == a[k]; }
    forall k: nat | k < |b| ensures CharOf(b, k) == s[i + |a| + k] { assert CharOf(a + b, |a| + k) == b[k]; }
  }

  lemma SpelledStep(s: string, i: nat, c: char, one: string, more: string, equalsEnd: bool)
    requires one == SpellOne(c) && HasAt(s, i, one + more)
    ensures HasAt(s, i + |one|, more) && Decode(s, i, equalsEnd) == Prepend([c], Decode(s, i + |one|, equalsEnd))
  {
    CutInTwo(s, i, one, more);
    SpelledToken(s, i, c);
    DecodeStep(s, i, c, i + |one|, equalsEnd);
  }

  lemma DecodeStep(s: string, i: nat, c: char, j: nat, equalsEnd: bool)
    requires i < |s| && !Ends(s[i], true) && TokenAt(s, i) == Piece(c, j)
    ensures i < j && Decode(s, i, equalsEnd) == Prepend([c], Decode(s, j, equalsEnd))
  {
    TokenMoves(s, i);
  }

  lemma SpelledFirst(bytes: string) returns (c: char, rest: string, one: string)
    requires bytes != ""
    ensures bytes == [c] + rest && one == SpellOne(c) && Spell(bytes) == one + Spell(rest)
  {
    c, rest := bytes[0], bytes[1..];
    one := SpellOne(c);
  }

  lemma SpelledMore(s: string, i: nat, c: char, one: string, rest: string, end: nat, equalsEnd: bool)
    requires one == SpellOne(c) && HasAt(s, i, one + Spell(rest))
    requires Decode(s, i + |one|, equalsEnd) == Got(rest, end, true)
    ensures Decode(s, i, equalsEnd) == Got([c] + rest, end, true)
  {
    SpelledStep(s, i, c, one, Spell(rest), equalsEnd);
  }

  // Spelled anywhere in a string and followed by a terminator, any bytes decode to
  // themselves.
  lemma {:induction false} SpelledDecodes(s: string, i: nat, bytes: string, equalsEnd: bool)
    requires HasAt(s, i, Spell(bytes)) && Ends(At(s, i + |Spell(bytes)|), equalsEnd)
    ensures Decode(s, i, equalsEnd) == Got(bytes, i + |Spell(bytes)|, true)
    decreases |bytes|
  {
    if bytes != "" {
      var c, rest, one := SpelledFirst(bytes);
      CutInTwo(s, i, one, Spell(rest));
      SpelledDecodes(s, i + |one|, rest, equalsEnd);
      SpelledMore(s, i, c, one, rest, i + |one| + |Spell(rest)|, equalsEnd);
    }
  }

  // ---- The other ways to spell a byte ----

  datatype How = InOctal | InHex(capital: bool) | ByName | ByCaret

  function OctalDigit(d: nat): (c: char)
    requires d < 8
    ensures InBase(c, 8) && InBase(c, 16) && Digit(c) == d
  {
    ('0' as int + d) as char
  }

  function HexDigit(d: nat, capital: bool): (c: char)
    requires d < 16
    ensures InBase(c, 16) && Digit(c) == d
  {
    if d < 10 then ('0' as int + d) as char
    else if capital then ('A' as int + d - 10) as char
    else ('a' as int + d - 10) as char
  }

  // The letters of the named escapes, and the bytes they stand for.
  const NAMES := "abefnrtv?_"
  const NAMED: seq<nat> := [7, 8, 27, 12, 10, 13, 9, 11, 127, 32]

  // Whether byte b can be spelled so; k is the place of its name.
  predicate CanSpell(b: nat, how: How, k: nat) {
    b < 256 &&
    match how
    case ByName => k < 10 && NAMED[k] == b
    case ByCaret => b < 32
    case _ => true
  }

  function SpellAs(b: nat, how: How, k: nat): string
    requires CanSpell(b, how, k)
  {
    match how
    case InOctal => ['\\', OctalDigit(b / 64), OctalDigit(b / 8 % 8), OctalDigit(b % 8)]
    case InHex(capital) => ['\\', if capital then 'X' else 'x', HexDigit(b / 16, capital), HexDigit(b % 16, capital)]
    case ByName => ['\\', NAMES[k]]
    case ByCaret => ['^', ('@' as int + b) as char]
  }

  // So spelled, and with no further digit after a number, a byte is one token that stands
  // for it.
  lemma SpelledOtherwise(s: string, i: nat, b: nat, how: How, k: nat)
    requires CanSpell(b, how, k) && HasAt(s, i, SpellAs(b, how, k))
    requires how == InOctal ==> !InBase(At(s, i + 4), 8)
    requires how.InHex? ==> !InBase(At(s, i + 4), 16)
    ensures TokenAt(s, i) == Piece(b as char, i + |SpellAs(b, how, k)|)
  {
    var w := SpellAs(b, how, k);
    assert s[i] == CharOf(w, 0) && s[i + 1] == CharOf(w, 1);
    match how
    case InOctal =>
      assert s[i + 2] == CharOf(w, 2) && s[i + 3] == CharOf(w, 3);
      ThreeDigits(s, i + 1, b);
    case InHex(_) =>
      assert s[i + 2] == CharOf(w, 2) && s[i + 3] == CharOf(w, 3);
      TwoDigits(s, i + 2, b);
    case ByName => NameStands(k);
    case ByCaret =>
  }

  lemma NameStands(k: nat)
    requires k < 10
    ensures Named(NAMES[k]) as int == NAMED[k] && !InBase(NAMES[k], 8) && NAMES[k] !in "xX" && NAMES[k] != '\0'
  {
    assert NAMES[k] in "abefnrtv?_";
  }

  lemma ThreeDigits(s: string, i: nat, b: nat)
    requires b < 256 && i + 3 <= |s| && !InBase(At(s, i + 3), 8)
    requires s[i] == OctalDigit(b / 64) && s[i + 1] == OctalDigit(b / 8 % 8) && s[i + 2] == OctalDigit(b % 8)
    ensures RunEnd(s, i, 8) == i + 3 && Number(s, i, i + 3, 8) == b
  {
    assert RunEnd(s, i, 8) == RunEnd(s, i + 1, 8) == RunEnd(s, i + 2, 8) == RunEnd(s, i + 3, 8);
    assert Number(s, i, i, 8) == 0;
    assert Number(s, i, i + 1, 8) == b / 64;
    assert Number(s, i, i + 2, 8) == b / 64 * 8 + b / 8 % 8;
    assert b / 64 == b / 8 / 8;
  }

  lemma TwoDigits(s: string, i: nat, b: nat)
    requires b < 256 && i + 2 <= |s| && !InBase(At(s, i + 2), 16)
    requires InBase(s[i], 16) && Digit(s[i]) == b / 16 && InBase(s[i + 1], 16) && Digit(s[i + 1]) == b % 16
    ensures RunEnd(s, i, 16) == i + 2 && Number(s, i, i + 2, 16) == b
  {
    assert RunEnd(s, i, 16) == RunEnd(s, i + 1, 16) == RunEnd(s, i + 2, 16);
    assert Number(s, i, i, 16) == 0;
    assert Number(s, i, i + 1, 16) == b / 16;
  }

  // ---- Where ^? goes wrong ----

  // TokenAt but with both characters of ^? taken, as for every other caret escape.
  function Meant(s: string, i: nat, equalsEnd: bool): Got
    decreases |s| - i
  {
    if Ends(At(s, i), equalsEnd) then Got("", i, true)
    else if i >= |s| then Got("", i, true)
    else
      TokenMoves(s, i);
      var t := TokenAt(s, i);
      if t.Bad? then Got("", t.end, false)
      else if IsCaretDelete(s, i) then Prepend([t.c], Meant(s, i + 2, equalsEnd))
      else Prepend([t.c], Meant(s, t.end, equalsEnd))
  }

  predicate IsCaretDelete(s: string, i: nat) { At(s, i) == '^' && At(s, i + 1) == '?' }

  // The number of ^? escapes read.
  function CaretDeletes(s: string, i: nat, equalsEnd: bool): nat
    decreases |s| - i
  {
    if Ends(At(s, i), equalsEnd) || i >= |s| then 0
    else
      TokenMoves(s, i);
      var t := TokenAt(s, i);
      if t.Bad? then 0
      else if IsCaretDelete(s, i) then 1 + CaretDeletes(s, i + 2, equalsEnd)
      else CaretDeletes(s, t.end, equalsEnd)
  }

  // Each ^? leaves a question mark behind the delete character; without one the string
  // means what it should.
  lemma {:induction false} CaretDeleteLeavesQuestion(s: string, i: nat, equalsEnd: bool)
    ensures var g, m := Decode(s, i, equalsEnd), Meant(s, i, equalsEnd);
      && |g.bytes| == |m.bytes| + CaretDeletes(s, i, equalsEnd)
      && g.ok == m.ok && g.end == m.end
      && (g == m <==> CaretDeletes(s, i, equalsEnd) == 0)
    decreases |s| - i
  {
    if !Ends(At(s, i), equalsEnd) && i < |s| {
      TokenMoves(s, i);
      if IsCaretDelete(s, i) {
        assert Decode(s, i + 1, equalsEnd) == Prepend(['?'], Decode(s, i + 2, equalsEnd));
        CaretDeleteLeavesQuestion(s, i + 2, equalsEnd);
      } else if TokenAt(s, i).Piece? {
        CaretDeleteLeavesQuestion(s, TokenAt(s, i).end, equalsEnd);
        PrependSame([TokenAt(s, i).c], Decode(s, TokenAt(s, i).end, equalsEnd), Meant(s, TokenAt(s, i).end, equalsEnd));
      }
    }
  }

  // At the input ^? itself.
  lemma CaretDeleteDecoded()
    ensures Decode("^?", 0, false) == Got([127 as char, '?'], 2, true)
    ensures Meant("^?", 0, false) == Got([127 as char], 2, true)
  {
    var s := "^?";
    assert TokenAt(s, 0) == Piece(127 as char, 1) && TokenAt(s, 1) == Piece('?', 2);
    assert Decode(s, 2, false) == Got("", 2, true);
    assert Decode(s, 1, false) == Got("?", 2, true);
  }

  lemma PrependSame(d: string, g: Got, m: Got)
    ensures Prepend(d, g) == Prepend(d, m) <==> g == m
  {
    if Prepend(d, g) == Prepend(d, m) {
      assert (d + g.bytes)[|d|..] == g.bytes;
      assert (d + m.bytes)[|d|..] == m.bytes;
    }
  }

  // ---- What the whole variable stands for ----

  datatype Entry = Extension(ext: string, code: string) | Indicator(ind: nat, code: string)

  const INDICATOR_NAMES: seq<string> := [
    "lc", "rc", "ec", "rs", "no", "fi", "di", "ln", "pi", "so",
    "bd", "cd", "mi", "or", "ex", "do", "su", "sg", "st",
    "ow", "tw", "ca", "mh", "cl"]

  // The first of these names that is name, from n on, or how many there are.
  function IndexFrom(names: seq<string>, name: string, n: nat): (k: nat)
    requires n <= |names|
    ensures n <= k <= |names| && (k < |names| ==> names[k] == name) && name !in names[n..k]
    decreases |names| - n
  {
    if n == |names| || names[n] == name then n else IndexFrom(names, name, n + 1)
  }

  // A colon, a definition, or what is neither.
  datatype Item = Blank | Def(entry: Entry, end: nat) | Malformed | Finish

  function ItemAt(names: seq<string>, s: string, i: nat): Item {
    var c := At(s, i);
    if c == '\0' then Finish
    else if c == ':' then Blank
    else if c == '*' then
      var g := Decode(s, i + 1, true);
      if !g.ok || At(s, g.end) != '=' then Malformed else
      var h := Decode(s, g.end + 1, false);
      if h.ok then Def(Extension(g.bytes, h.bytes), h.end) else Malformed
    else
      if At(s, i + 1) == '\0' then Malformed else Valued(names, s, i + 2, IndexFrom(names, [c, s[i + 1]], 0))
  }

  // Indicator k, with its value after an equal sign at i.
  function Valued(names: seq<string>, s: string, i: nat, k: nat): Item {
    if At(s, i) != '=' || k == |names| then Malformed else
    var h := Decode(s, i + 1, false);
    if h.ok then Def(Indicator(k, h.bytes), h.end) else Malformed
  }

  lemma ItemMoves(names: seq<string>, s: string, i: nat)
    ensures ItemAt(names, s, i).Def? ==> i < ItemAt(names, s, i).end <= |s|
  {
    if i < |s| && s[i] == '*' {
      DecodeFits(s, i + 1, true);
      var g := Decode(s, i + 1, true);
      if g.ok && At(s, g.end) == '=' { DecodeFits(s, g.end + 1, false); }
    } else if i + 3 <= |s| {
      DecodeFits(s, i + 3, false);
    }
  }

  datatype Parsed = Parsed(entries: seq<Entry>, ok: bool)

  function Following(done: seq<Entry>, r: Parsed): Parsed { if r.ok then Parsed(done + r.entries, true) else r }

  // The definitions in order, if all are well formed.
  function Parse(names: seq<string>, s: string, i: nat): Parsed
    decreases |s| - i
  {
    ItemMoves(names, s, i);
    match ItemAt(names, s, i)
    case Finish => Parsed([], true)
    case Malformed => Parsed([], false)
    case Blank => Parse(names, s, i + 1)
    case Def(e, end) => Following([e], Parse(names, s, end))
  }

  function Whole(names: seq<string>, s: string): Parsed { Parse(names, s, 0) }

  lemma WholeDone(names: seq<string>, s: string, done: seq<Entry>, i: nat)
    requires Whole(names, s) == Following(done, Parse(names, s, i))
    ensures ItemAt(names, s, i) == Finish ==> Whole(names, s) == Parsed(done, true)
    ensures ItemAt(names, s, i) == Malformed ==> !Whole(names, s).ok
  {
  }

  // ---- Any definitions can be written ----

  ghost predicate GoodName(name: string) { |name| == 2 && name[0] !in "*:" && NoNul(name) }

  ghost predicate GoodNames(names: seq<string>) {
    && (forall k | 0 <= k < |names| :: GoodName(names[k]))
    && forall j, k | 0 <= j < k < |names| :: names[j] != names[k]
  }

  lemma KnownNames()
    ensures GoodNames(INDICATOR_NAMES)
  {
    KnownApart();
    KnownGood();
  }

  lemma KnownGood()
    ensures forall k | 0 <= k < |INDICATOR_NAMES| :: GoodName(INDICATOR_NAMES[k])
  {
  }

  lemma KnownApart()
    ensures forall j, k | 0 <= j < k < |INDICATOR_NAMES| :: INDICATOR_NAMES[j] != INDICATOR_NAMES[k]
  {
  }

  lemma NameKnown(names: seq<string>, k: nat)
    requires GoodNames(names) && k < |names|
    ensures IndexFrom(names, names[k], 0) == k
  {
    assert names[k] == names[k];
  }

  predicate Writable(names: seq<string>, es: seq<Entry>) {
    forall k | 0 <= k < |es| :: es[k].Indicator? ==> es[k].ind < |names|
  }

  function Head(names: seq<string>, e: Entry): string
    requires e.Indicator? ==> e.ind < |names|
  {
    if e.Extension? then "*" + Spell(e.ext) else names[e.ind]
  }

  // The value after a head, and what follows it.
  function Tail(code: string, more: string): string { "=" + (Spell(code) + (":" + more)) }

  function Write(names: seq<string>, es: seq<Entry>): string
    requires Writable(names, es)
  {
    if es == [] then "" else Head(names, es[0]) + Tail(es[0].code, Write(names, es[1..]))
  }

  lemma Char(s: string, i: nat, c: char, more: string)
    requires HasAt(s, i, [c] + more)
    ensures At(s, i) == c && HasAt(s, i + 1, more)
  {
    CutInTwo(s, i, [c], more);
    assert s[i] == CharOf([c], 0);
  }

  lemma TailParts(s: string, i: nat, code: string, more: string)
    requires HasAt(s, i, Tail(code, more))
    ensures At(s, i) == '=' && HasAt(s, i + 1, Spell(code))
    ensures At(s, i + 1 + |Spell(code)|) == ':' && HasAt(s, i + 2 + |Spell(code)|, more)
  {
    Char(s, i, '=', Spell(code) + (":" + more));
    CutInTwo(s, i + 1, Spell(code), ":" + more);
    Char(s, i + 1 + |Spell(code)|, ':', more);
  }

  // A value written before a colon.
  lemma ValueWritten(s: string, i: nat, code: string, more: string)
    requires HasAt(s, i, Tail(code, more))
    ensures At(s, i) == '=' && Decode(s, i + 1, false) == Got(code, i + 1 + |Spell(code)|, true)
    ensures At(s, i + 1 + |Spell(code)|) == ':' && HasAt(s, i + 2 + |Spell(code)|, more)
  {
    TailParts(s, i, code, more);
    SpelledDecodes(s, i + 1, code, false);
  }

  lemma StarItem(names: seq<string>, s: string, i: nat, ext: string, mid: nat, code: string, end: nat)
    requires At(s, i) == '*' && Decode(s, i + 1, true) == Got(ext, mid, true) && At(s, mid) == '='
    requires Decode(s, mid + 1, false) == Got(code, end, true)
    ensures ItemAt(names, s, i) == Def(Extension(ext, code), end)
  {
  }

  lemma StarBroken(names: seq<string>, s: string, i: nat)
    requires At(s, i) == '*'
    requires var g := Decode(s, i + 1, true);
      g.ok && At(s, g.end) == '=' ==> !Decode(s, g.end + 1, false).ok
    ensures ItemAt(names, s, i) == Malformed
  {
  }

  // An extension's head, up to the equal sign.
  lemma StarWritten(s: string, i: nat, ext: string, head: string)
    requires head == "*" + Spell(ext) && HasAt(s, i, head) && At(s, i + |head|) == '='
    ensures At(s, i) == '*' && Decode(s, i + 1, true) == Got(ext, i + |head|, true)
  {
    Char(s, i, '*', Spell(ext));
    SpelledDecodes(s, i + 1, ext, true);
  }

  lemma IndicatorWritten(names: seq<string>, s: string, i: nat, k: nat, code: string, end: nat)
    requires GoodNames(names) && k < |names| && HasAt(s, i, names[k]) && At(s, i + 2) == '='
    requires Decode(s, i + 3, false) == Got(code, end, true)
    ensures ItemAt(names, s, i) == Def(Indicator(k, code), end)
  {
    var name := names[k];
    NameKnown(names, k);
    assert GoodName(name);
    assert s[i] == CharOf(name, 0) && s[i + 1] == CharOf(name, 1);
    assert [s[i], s[i + 1]] == name;
    assert At(s, i + 1) != '\0';
    assert Valued(names, s, i + 2, k) == Def(Indicator(k, code), end);
  }

  lemma TailWritten(s: string, i: nat, head: string, code: string, more: string)
    requires HasAt(s, i, head + Tail(code, more))
    ensures HasAt(s, i, head) && At(s, i + |head|) == '='
    ensures var j := i + |head| + 1 + |Spell(code)|;
      Decode(s, i + |head| + 1, false) == Got(code, j, true) && At(s, j) == ':' && HasAt(s, j + 1, more)
  {
    var at := i + |head|;
    CutInTwo(s, i, head, Tail(code, more));
    ValueWritten(s, at, code, more);
  }

  lemma ParseStep(names: seq<string>, s: string, i: nat, e: Entry, j: nat)
    requires ItemAt(names, s, i) == Def(e, j) && At(s, j) == ':'
    ensures i < j && Parse(names, s, i) == Following([e], Parse(names, s, j + 1))
  {
    ItemMoves(names, s, i);
    assert ItemAt(names, s, j) == Blank;
  }

  ghost predicate ItemWritten(names: seq<string>, s: string, i: nat, e: Entry, j: nat, more: string) {
    ItemAt(names, s, i) == Def(e, j) && At(s, j) == ':' && HasAt(s, j + 1, more)
  }

  lemma ExtensionEntry(names: seq<string>, s: string, i: nat, ext: string, head: string, code: string,
                       more: string, j: nat)
    requires head == "*" + Spell(ext) && HasAt(s, i, head + Tail(code, more)) && j == i + |head| + 1 + |Spell(code)|
    ensures ItemWritten(names, s, i, Extension(ext, code), j, more)
  {
    var at := i + |head|;
    TailWritten(s, i, head, code, more);
    StarWritten(s, i, ext, head);
    StarItem(names, s, i, ext, at, code, j);
  }

  lemma IndicatorEntry(names: seq<string>, s: string, i: nat, k: nat, name: string, code: string, more: string, j: nat)
    requires GoodNames(names) && k < |names| && name == names[k] && |name| == 2
    requires HasAt(s, i, name + Tail(code, more)) && j == i + 3 + |Spell(code)|
    ensures ItemWritten(names, s, i, Indicator(k, code), j, more)
  {
    TailWritten(s, i, name, code, more);
    IndicatorWritten(names, s, i, k, code, j);
  }

  lemma EntryWritten(names: seq<string>, s: string, i: nat, e: Entry, more: string, j: nat)
    requires GoodNames(names) && (e.Indicator? ==> e.ind < |names|)
    requires HasAt(s, i, Head(names, e) + Tail(e.code, more)) && j == i + |Head(names, e)| + 1 + |Spell(e.code)|
    ensures ItemWritten(names, s, i, e, j, more)
  {
    if e.Extension? {
      ExtensionEntry(names, s, i, e.ext, Head(names, e), e.code, more, j);
    } else {
      assert GoodName(names[e.ind]);
      IndicatorEntry(names, s, i, e.ind, names[e.ind], e.code, more, j);
    }
  }

  lemma WriteStep(names: seq<string>, s: string, i: nat, es: seq<Entry>) returns (j: nat)
    requires GoodNames(names) && Writable(names, es) && es != [] && HasAt(s, i, Write(names, es))
    ensures ItemWritten(names, s, i, es[0], j, Write(names, es[1..]))
    ensures i + |Write(names, es)| == j + 1 + |Write(names, es[1..])|
  {
    j := i + |Head(names, es[0])| + 1 + |Spell(es[0].code)|;
    EntryWritten(names, s, i, es[0], Write(names, es[1..]), j);
  }

  // From i on, s is these definitions written out.
  ghost predicate WrittenFrom(names: seq<string>, s: string, i: nat, es: seq<Entry>) {
    GoodNames(names) && Writable(names, es) && HasAt(s, i, Write(names, es)) && i + |Write(names, es)| == |s|
  }

  // One definition, and then those that follow.
  lemma FirstWritten(names: seq<string>, s: string, i: nat, es: seq<Entry>) returns (j: nat)
    requires WrittenFrom(names, s, i, es) && es != []
    ensures ItemAt(names, s, i) == Def(es[0], j) && At(s, j) == ':' && WrittenFrom(names, s, j + 1, es[1..])
  {
    j := WriteStep(names, s, i, es);
  }

  lemma FirstParsed(names: seq<string>, s: string, i: nat, es: seq<Entry>) returns (j: nat)
    requires WrittenFrom(names, s, i, es) && es != []
    ensures WrittenFrom(names, s, j + 1, es[1..])
    ensures Parse(names, s, j + 1) == Parsed(es[1..], true) ==> Parse(names, s, i) == Parsed(es, true)
  {
    j := FirstWritten(names, s, i, es);
    OneMore(names, s, i, es, j);
  }

  // Written in full and parsed, any definitions come back as they were.
  lemma {:induction false} WrittenParses(names: seq<string>, s: string, i: nat, es: seq<Entry>)
    ensures WrittenFrom(names, s, i, es) ==> Parse(names, s, i) == Parsed(es, true)
    decreases |es|
  {
    if !WrittenFrom(names, s, i, es) { return; }
    if es == [] {
      NothingWritten(names, s);
    } else {
      var j := FirstParsed(names, s, i, es);
      WrittenParses(names, s, j + 1, es[1..]);
    }
  }

  lemma NothingWritten(names: seq<string>, s: string)
    ensures Parse(names, s, |s|) == Parsed([], true)
  {
  }

  lemma OneMore(names: seq<string>, s: string, i: nat, es: seq<Entry>, j: nat)
    requires es != [] && ItemAt(names, s, i) == Def(es[0], j) && At(s, j) == ':'
    ensures Parse(names, s, j + 1) == Parsed(es[1..], true) ==> Parse(names, s, i) == Parsed(es, true)
  {
    ParseStep(names, s, i, es[0], j);
    assert [es[0]] + es[1..] == es;
  }

  lemma {:induction false} SpellNoNul(bytes: string)
    ensures NoNul(Spell(bytes))
  {
    if bytes != "" { SpellNoNul(bytes[1..]); }
  }

  lemma {:induction false} WrittenNoNul(names: seq<string>, es: seq<Entry>)
    requires GoodNames(names) && Writable(names, es)
    ensures NoNul(Write(names, es))
  {
    if es != [] {
      if es[0].Extension? { SpellNoNul(es[0].ext); } else { assert GoodName(names[es[0].ind]); }
      SpellNoNul(es[0].code);
      WrittenNoNul(names, es[1..]);
      assert NoNul(Head(names, es[0]));
    }
  }

  // The extension list: the newest first.
  function Extensions(es: seq<Entry>): seq<(string, string)> {
    if es == [] then [] else
    var e := es[|es| - 1];
    (if e.Extension? then [(e.ext, e.code)] else []) + Extensions(es[..|es| - 1])
  }

  // The indicators set: the last definition wins.
  function Indicators(es: seq<Entry>): map<nat, string> {
    if es == [] then map[] else
    var e := es[|es| - 1];
    if e.Indicator? then Indicators(es[..|es| - 1])[e.ind := e.code] else Indicators(es[..|es| - 1])
  }

  lemma Snoc(es: seq<Entry>, e: Entry)
    ensures Extensions(es + [e]) == (if e.Extension? then [(e.ext, e.code)] else []) + Extensions(es)
    ensures Indicators(es + [e]) == if e.Indicator? then Indicators(es)[e.ind := e.code] else Indicators(es)
  {
    assert (es + [e])[..|es|] == es;
  }

  // ---- The machines ----

  datatype State = Gnd | Backslash | Octal | Hex | Caret | End | Error

  function Rank(st: State): nat {
    match st
    case Gnd => 2
    case End => 0
    case Error => 0
    case _ => 3
  }

  // Where the inner machine is within the token at t.
  ghost predicate InToken(s: string, t: nat, st: State, num: nat, p: nat, equalsEnd: bool) {
    t <= |s| && num < 256 &&
    match st
    case Gnd => p == t
    case Backslash => p == t + 1 && Opens(s, t, '\\')
    case Caret => p == t + 1 && Opens(s, t, '^')
    case Octal => Opens(s, t, '\\') && t + 2 <= p <= |s| && InRun(s, t + 1, p, 8, num)
    case Hex => Opens(s, t, '\\') && t + 2 <= p <= |s| && At(s, t + 1) in "xX" && InRun(s, t + 2, p, 16, num)
    case End => p == t && Ends(At(s, t), equalsEnd)
    case Error => t < |s| && !Ends(At(s, t), equalsEnd) && TokenAt(s, t) == Bad(p)
  }

  predicate Opens(s: string, t: nat, c: char) { t < |s| && s[t] == c }

  // From i to p all are digits, and num is the low byte of their number.
  ghost predicate InRun(s: string, i: nat, p: nat, base: nat, num: nat)
    requires base == 8 || base == 16
  {
    i <= p && AllDigits(s, i, p, base) && num == Number(s, i, p, base) % 256
  }

  lemma RunGrows(s: string, i: nat, p: nat, base: nat, num: nat)
    requires (base == 8 || base == 16) && InRun(s, i, p, base, num) && InBase(At(s, p), base)
    ensures InRun(s, i, p + 1, base, (num * base + Digit(At(s, p))) % 256)
  {
    LowKept(Number(s, i, p, base), base, Digit(At(s, p)));
  }

  lemma LowKept(n: nat, base: nat, d: nat)
    requires base == 8 || base == 16
    ensures (n % 256 * base + d) % 256 == (n * base + d) % 256
  {
    if base == 8 { assert n * 8 + d == (n % 256 * 8 + d) + 256 * (n / 256 * 8); }
    else { assert n * 16 + d == (n % 256 * 16 + d) + 256 * (n / 256 * 16); }
  }

  lemma {:induction false} RunEndsAt(s: string, i: nat, p: nat, base: nat)
    requires i <= p <= |s| && AllDigits(s, i, p, base) && !InBase(At(s, p), base) && (base == 8 || base == 16)
    ensures RunEnd(s, i, base) == p
    decreases p - i
  {
    if i < p {
      assert InBase(At(s, i), base);
      RunEndsAt(s, i + 1, p, base);
    }
  }

  // A finished token puts its character before the rest.
  lemma TokenDone(s: string, p0: nat, done: string, t: nat, equalsEnd: bool)
    requires Decode(s, p0, equalsEnd) == Prepend(done, Decode(s, t, equalsEnd))
    requires t < |s| && !Ends(s[t], equalsEnd) && TokenAt(s, t).Piece?
    ensures Decode(s, p0, equalsEnd) == Prepend(done + [TokenAt(s, t).c], Decode(s, TokenAt(s, t).end, equalsEnd))
  {
    var rest := Decode(s, TokenAt(s, t).end, equalsEnd);
    assert done + ([TokenAt(s, t).c] + rest.bytes) == done + [TokenAt(s, t).c] + rest.bytes;
  }

  // A stretch of the buffer.
  datatype BinStr = BinStr(at: nat, len: nat)

  ghost predicate Within(text: string, b: BinStr) { b.at + b.len <= |text| }

  ghost function Cut(text: string, b: BinStr): string
    requires Within(text, b)
  {
    text[b.at..b.at + b.len]
  }

  datatype ExtType = ExtType(ext: BinStr, code: BinStr)

  // What the list and the indicators hold is what the definitions say.
  ghost predicate ListHolds(text: string, list: seq<ExtType>, es: seq<Entry>) {
    var want := Extensions(es);
    |list| == |want| && forall k | 0 <= k < |list| :: Holds(text, list[k], want[k])
  }

  ghost predicate Holds(text: string, x: ExtType, want: (string, string)) {
    Spans(text, x.ext, want.0) && Spans(text, x.code, want.1)
  }

  ghost predicate Spans(text: string, b: BinStr, want: string) { Within(text, b) && Cut(text, b) == want }

  ghost predicate IndicatorsHold(text: string, set_: map<nat, BinStr>, es: seq<Entry>) {
    var want := Indicators(es);
    set_.Keys == want.Keys && forall k | k in set_ :: Spans(text, set_[k], want[k])
  }

  // Writing more keeps all that was recorded.
  lemma WritingKeeps(text: string, more: string, list: seq<ExtType>, set_: map<nat, BinStr>, es: seq<Entry>)
    ensures ListHolds(text, list, es) ==> ListHolds(text + more, list, es)
    ensures IndicatorsHold(text, set_, es) ==> IndicatorsHold(text + more, set_, es)
  {
    forall b: BinStr | Within(text, b) ensures Within(text + more, b) && Cut(text + more, b) == Cut(text, b) {}
    if ListHolds(text, list, es) {
      forall k | 0 <= k < |list| ensures Holds(text + more, list[k], Extensions(es)[k]) {
        assert Holds(text, list[k], Extensions(es)[k]);
      }
    }
  }

  lemma SpansNew(text: string, more: string)
    ensures Spans(text + more, BinStr(|text|, |more|), more)
  {
  }

  lemma IndicatorAdded(text: string, set_: map<nat, BinStr>, es: seq<Entry>, k: nat, b: BinStr, code: string)
    requires IndicatorsHold(text, set_, es) && Spans(text, b, code)
    ensures IndicatorsHold(text, set_[k := b], es + [Indicator(k, code)])
  {
    Snoc(es, Indicator(k, code));
  }

  lemma ExtensionAdded(text: string, list: seq<ExtType>, es: seq<Entry>, x: ExtType, ext: string, code: string)
    requires ListHolds(text, list, es) && Holds(text, x, (ext, code))
    ensures ListHolds(text, [x] + list, es + [Extension(ext, code)])
  {
    Snoc(es, Extension(ext, code));
  }

  lemma NewIndicator(text: string, code: string, list: seq<ExtType>, set_: map<nat, BinStr>, es: seq<Entry>, k: nat)
    requires ListHolds(text, list, es) && IndicatorsHold(text, set_, es)
    ensures ListHolds(text + code, list, es + [Indicator(k, code)])
    ensures IndicatorsHold(text + code, set_[k := BinStr(|text|, |code|)], es + [Indicator(k, code)])
  {
    WritingKeeps(text, code, list, set_, es);
    SpansNew(text, code);
    IndicatorAdded(text + code, set_, es, k, BinStr(|text|, |code|), code);
    Snoc(es, Indicator(k, code));
  }

  lemma NewExtension(text: string, code: string, list: seq<ExtType>, set_: map<nat, BinStr>, es: seq<Entry>,
                     b: BinStr, ext: string)
    requires ListHolds(text, list, es) && IndicatorsHold(text, set_, es) && Spans(text, b, ext)
    ensures ListHolds(text + code, [ExtType(b, BinStr(|text|, |code|))] + list, es + [Extension(ext, code)])
    ensures IndicatorsHold(text + code, set_, es + [Extension(ext, code)])
  {
    WritingKeeps(text, code, list, set_, es);
    SpansNew(text, code);
    assert Cut(text + code, b) == Cut(text, b);
    ExtensionAdded(text + code, list, es, ExtType(b, BinStr(|text|, |code|)), ext, code);
    Snoc(es, Extension(ext, code));
  }

  lemma ParsedMore(names: seq<string>, s: string, done: seq<Entry>, i: nat)
    requires Whole(names, s) == Following(done, Parse(names, s, i)) && ItemAt(names, s, i).Def?
    ensures Whole(names, s) == Following(done + [ItemAt(names, s, i).entry], Parse(names, s, ItemAt(names, s, i).end))
  {
    var d := ItemAt(names, s, i);
    var r := Parse(names, s, d.end);
    ItemMoves(names, s, i);
    assert Parse(names, s, i) == Following([d.entry], r);
    assert done + ([d.entry] + r.entries) == done + [d.entry] + r.entries;
  }

  datatype Phase = Start | Second | Equals | ExtEquals | Done | Fail

  class Parser {
    const src: string
    const names: seq<string>
    const buf: array<char>
    var p: nat
    var q: nat
    var count: nat
    ghost var begun: nat
    // The list, newest first, and the indicators defined by the string.
    var extList: seq<ExtType>
    var indicators: map<nat, BinStr>
    var printWithColor: bool
    // The definitions read so far, and where the one being read starts.
    ghost var done: seq<Entry>
    ghost var item: nat

    ghost predicate Room()
      reads this
    {
      NoNul(src) && buf.Length == |src| + 1 && q <= buf.Length && p <= |src| + 1 && begun + count == q
    }

    // What has been written.
    ghost function Text(): string
      reads this`q, buf
      requires q <= buf.Length
    {
      buf[..q]
    }

    method Put(c: char)
      requires Room() && q < buf.Length
      modifies this`q, this`count, buf
      ensures Room() && q == old(q) + 1 && Text() == old(Text()) + [c]
    {
      buf[q] := c;
      q := q + 1;
      count := count + 1;
    }

    // Lines 2522-2549: no escape is open.
    method Ground(equalsEnd: bool) returns (st: State)
      requires Room() && q <= p <= |src|
      modifies this`p, this`q, this`count, buf
      ensures Room() && p <= |src|
      ensures var c := At(src, old(p));
        if Ends(c, equalsEnd) then st == End && p == old(p) && Text() == old(Text())
        else if c == '\\' || c == '^' then
          st == (if c == '^' then Caret else Backslash) && p == old(p) + 1 && Text() == old(Text())
        else st == Gnd && p == old(p) + 1 && Text() == old(Text()) + [c]
    {
      var c := At(src, p);
      st := Gnd;
      if c == ':' || c == '\0' {
        st := End;
      } else if c == '\\' {
        st := Backslash;
        p := p + 1;
      } else if c == '^' {
        st := Caret;
        p := p + 1;
      } else if c == '=' && equalsEnd {
        st := End;
      } else {
        Put(c);
        p := p + 1;
      }
    }

    // Lines 2551-2611: after a backslash.
    method AfterBackslash() returns (st: State, num: nat)
      requires Room() && q < p <= |src|
      modifies this`p, this`q, this`count, buf
      ensures Room() && p == old(p) + 1 && num < 256
      ensures var c := At(src, old(p));
        if c == '\0' then st == Error && Text() == old(Text())
        else if InBase(c, 8) then st == Octal && num == Digit(c) && Text() == old(Text())
        else if c in "xX" then st == Hex && num == 0 && Text() == old(Text())
        else st == Gnd && Text() == old(Text()) + [Named(c)]
    {
      var c := At(src, p);
      st, num := Gnd, 0;
      if '0' <= c <= '7' {
        st, num := Octal, c as int - '0' as int;
      } else if c == 'x' || c == 'X' {
        st := Hex;
      } else if c == '\0' {
        st := Error;
      } else {
        Put(Named(c));
      }
      p := p + 1;
    }

    // Lines 2616-2664: one more digit, or the number is done.
    method Digits(base: nat, n: nat) returns (st: State, num: nat)
      requires Room() && q < p <= |src| && n < 256 && (base == 8 || base == 16)
      modifies this`p, this`q, this`count, buf
      ensures Room() && num < 256
      ensures if InBase(At(src, old(p)), base) then
          st == (if base == 8 then Octal else Hex) && p == old(p) + 1 && p <= |src|
          && num == (n * base + Digit(At(src, old(p)))) % 256 && Text() == old(Text())
        else st == Gnd && num == n && p == old(p) && Text() == old(Text()) + [n as char]
    {
      num := n;
      if InBase(At(src, p), base) {
        st := if base == 8 then Octal else Hex;
        num := (n * base + Digit(At(src, p))) % 256;
        p := p + 1;
      } else {
        st := Gnd;
        Put(n as char);
      }
    }

    // Lines 2666-2680: after a caret.  A question mark is not skipped.
    method AfterCaret() returns (st: State)
      requires Room() && q < p <= |src|
      modifies this`p, this`q, this`count, buf
      ensures Room()
      ensures var c := At(src, old(p));
        if '@' <= c <= '~' then
          st == Gnd && p == old(p) + 1 <= |src| && Text() == old(Text()) + [(c as int % 32) as char]
        else if c == '?' then st == Gnd && p == old(p) && Text() == old(Text()) + [127 as char]
        else st == Error && p == old(p) && Text() == old(Text())
    {
      st := Gnd;
      var c := At(src, p);
      if '@' <= c <= '~' {
        Put((c as int % 32) as char);
        p := p + 1;
      } else if c == '?' {
        Put(127 as char);
      } else {
        st := Error;
      }
    }

    // The token that started at t0 is written, and the next starts here.
    lemma Wrote(p0: nat, done: string, t0: nat, c: char, equalsEnd: bool)
      requires Decode(src, p0, equalsEnd) == Prepend(done, Decode(src, t0, equalsEnd))
      requires t0 < |src| && !Ends(src[t0], equalsEnd) && TokenAt(src, t0) == Piece(c, p)
      ensures Decode(src, p0, equalsEnd) == Prepend(done + [c], Decode(src, p, equalsEnd))
      ensures t0 < p <= |src|
    {
      TokenDone(src, p0, done, t0, equalsEnd);
      TokenMoves(src, t0);
    }

    method NumberTurn(base: nat, num0: nat, ghost t0: nat, equalsEnd: bool) returns (st: State, num: nat)
      requires Room() && (base == 8 || base == 16) && q <= t0 < p
      requires InToken(src, t0, if base == 8 then Octal else Hex, num0, p, equalsEnd)
      modifies this`p, this`q, this`count, buf
      ensures Room() && num < 256
      ensures if st == Gnd then
          TokenAt(src, t0) == Piece(num as char, p) && p == old(p) && Text() == old(Text()) + [num as char]
        else InToken(src, t0, st, num, p, equalsEnd) && p > old(p) && Text() == old(Text()) && st in {Octal, Hex}
    {
      ghost var i := if base == 8 then t0 + 1 else t0 + 2;
      if InBase(At(src, p), base) {
        RunGrows(src, i, p, base, num0);
      } else {
        RunEndsAt(src, i, p, base);
        assert InBase(At(src, i), base) || base == 16;
        assert TokenAt(src, t0) == Piece(Low(Number(src, i, p, base)), p);
      }
      st, num := Digits(base, num0);
    }

    // A turn either goes on reading the token at t or writes its character.
    ghost predicate Turned(t: nat, st: State, num: nat, q0: nat, text0: string, equalsEnd: bool)
      reads this, buf
    {
      && Room() && num < 256 && q0 < buf.Length
      && (q == q0 ==> InToken(src, t, st, num, p, equalsEnd) && Text() == text0)
      && (q != q0 ==>
            && st == Gnd && q == q0 + 1 && Text() == text0 + [buf[q0]]
            && t < |src| && !Ends(src[t], equalsEnd) && TokenAt(src, t) == Piece(buf[q0], p))
    }

    method GroundTurn(equalsEnd: bool, ghost t0: nat, num: nat) returns (st: State)
      requires Room() && InToken(src, t0, Gnd, num, p, equalsEnd) && q <= t0
      modifies this`p, this`q, this`count, buf
      ensures Turned(t0, st, num, old(q), old(Text()), equalsEnd)
      ensures p > old(p) || (p == old(p) && st == End)
    {
      st := Ground(equalsEnd);
    }

    method BackslashTurn(equalsEnd: bool, ghost t0: nat, num0: nat) returns (st: State, num: nat)
      requires Room() && InToken(src, t0, Backslash, num0, p, equalsEnd) && q <= t0
      modifies this`p, this`q, this`count, buf
      ensures Turned(t0, st, num, old(q), old(Text()), equalsEnd) && p > old(p)
    {
      st, num := AfterBackslash();
    }

    method CaretTurn(equalsEnd: bool, ghost t0: nat, num: nat) returns (st: State)
      requires Room() && InToken(src, t0, Caret, num, p, equalsEnd) && q <= t0
      modifies this`p, this`q, this`count, buf
      ensures Turned(t0, st, num, old(q), old(Text()), equalsEnd)
      ensures p > old(p) || (p == old(p) && Rank(st) < Rank(Caret))
    {
      st := AfterCaret();
    }

    // One turn of the inner loop; t is where the token being read starts.
    method Turn(st0: State, num0: nat, equalsEnd: bool, ghost t0: nat) returns (st: State, num: nat)
      requires Room() && Rank(st0) > 0 && InToken(src, t0, st0, num0, p, equalsEnd) && q <= t0
      modifies this`p, this`q, this`count, buf
      ensures Turned(t0, st, num, old(q), old(Text()), equalsEnd)
      ensures p > old(p) || (p == old(p) && Rank(st) < Rank(st0))
    {
      st, num := st0, num0;
      match st0
      case Gnd => st := GroundTurn(equalsEnd, t0, num0);
      case Backslash => st, num := BackslashTurn(equalsEnd, t0, num0);
      case Octal => st, num := NumberTurn(8, num0, t0, equalsEnd);
      case Hex => st, num := NumberTurn(16, num0, t0, equalsEnd);
      case Caret => st := CaretTurn(equalsEnd, t0, num0);
    }

    // Lines 2499-2692.
    method GetFunkyString(equalsEnd: bool) returns (n: nat, ok: bool)
      requires Room() && q <= p <= |src|
      modifies this`p, this`q, this`count, this`begun, buf
      ensures Room() && q <= p
      ensures var g := Decode(src, old(p), equalsEnd);
        ok == g.ok && p == g.end && n == |g.bytes| && Text() == old(Text()) + g.bytes
    {
      ghost var p0, t, done := p, p, "";
      ghost var was := Text();
      var st, num := Gnd, 0;
      count := 0;
      begun := q;
      while Rank(st) > 0
        invariant Room() && InToken(src, t, st, num, p, equalsEnd) && q <= t && begun == |was|
        invariant Decode(src, p0, equalsEnd) == Prepend(done, Decode(src, t, equalsEnd))
        invariant Text() == was + done
        decreases |src| + 1 - p, Rank(st)
      {
        ghost var q0 := q;
        st, num := Turn(st, num, equalsEnd, t);
        if q > q0 {
          Wrote(p0, done, t, buf[q0], equalsEnd);
          t, done := p, done + [buf[q0]];
        }
      }
      n, ok := count, st == End;
    }

    // Where the outer machine is within the definition at item.
    ghost predicate InItem(ph: Phase, name: string)
      reads this
    {
      item <= |src| && q <= |src| && (ph.Done? || ph.Fail? || q <= p <= |src|) &&
      match ph
      case Start => p == item
      case Second => p == item + 1 && src[item] !in ":*" && |name| == 2 && name[0] == src[item]
      case Equals => p == item + 2 && src[item] !in ":*" && name == [src[item], src[item + 1]]
      case ExtEquals =>
        item < p && src[item] == '*' && Decode(src, item + 1, true).ok && p == Decode(src, item + 1, true).end
      case Done => ItemAt(names, src, item) == Finish
      case Fail => ItemAt(names, src, item) == Malformed
    }

    ghost predicate Recorded(ph: Phase)
      reads this, buf
      requires q <= buf.Length
    {
      && IndicatorsHold(Text(), indicators, done)
      && (if ph.ExtEquals? then
            && extList != [] && ListHolds(Text(), extList[1..], done)
            && Spans(Text(), extList[0].ext, Decode(src, item + 1, true).bytes)
          else ListHolds(Text(), extList, done))
    }

    ghost predicate Inv(ph: Phase, name: string)
      reads this, buf
    {
      && Room() && InItem(ph, name) && Whole(names, src) == Following(done, Parse(names, src, item))
      && (ph.Fail? || Recorded(ph))
    }

    // Lines 2763-2797: the start of a definition.
    method AtStart(name0: string) returns (ph: Phase, name: string)
      requires Inv(Start, name0) && |name0| == 2
      modifies this`p, this`q, this`count, this`begun, this`extList, this`item, buf
      ensures Inv(ph, name) && |name| == 2
      ensures p > old(p) || (ph == Done && p == old(p))
    {
      ph, name := Start, name0;
      var c := At(src, p);
      if c == ':' {
        SkipColon();
      } else if c == '*' {
        ph := ExtensionName();
      } else if c == '\0' {
        ph := Done;
      } else {
        name := name[0 := c];
        p := p + 1;
        ph := Second;
      }
    }

    method SkipColon()
      requires Inv(Start, "") && At(src, p) == ':'
      modifies this`p, this`item
      ensures Inv(Start, "") && p == old(p) + 1
    {
      assert ItemAt(names, src, item) == Blank;
      p := p + 1;
      item := p;
    }

    // A new entry at the head of the list, with its name.
    method ExtensionName() returns (ph: Phase)
      requires Inv(Start, "") && p < |src| && src[p] == '*'
      modifies this`p, this`q, this`count, this`begun, this`extList, buf
      ensures (ph == ExtEquals || ph == Fail) && Inv(ph, "") && p > old(p)
    {
      DecodeFits(src, p + 1, true);
      ghost var was, list, g := Text(), extList, Decode(src, p + 1, true);
      p := p + 1;
      var ok := ReadName(g);
      ph := if ok then ExtEquals else Fail;
      AfterName(g, was, list);
    }

    // The name of a new entry was read.
    lemma AfterName(g: Got, was: string, list: seq<ExtType>)
      requires Room() && q <= |src| && item < |src| && src[item] == '*' && p == g.end && (g.ok ==> q <= p <= |src|)
      requires item < p && g == Decode(src, item + 1, true)
      requires Whole(names, src) == Following(done, Parse(names, src, item)) && Text() == was + g.bytes
      requires extList != [] && extList[1..] == list && extList[0].ext == BinStr(|was|, |g.bytes|)
      ensures ListHolds(was, list, done) && IndicatorsHold(was, indicators, done) ==>
        Inv(if g.ok then ExtEquals else Fail, "")
    {
      if g.ok {
        WritingKeeps(was, g.bytes, list, indicators, done);
        SpansNew(was, g.bytes);
      } else {
        StarBroken(names, src, item);
      }
    }

    method ReadName(ghost g: Got) returns (ok: bool)
      requires Room() && q <= p <= |src| && g == Decode(src, p, true)
      modifies this`p, this`q, this`count, this`begun, this`extList, buf
      ensures Room() && extList != [] && extList[1..] == old(extList)
      ensures ok == g.ok && p == g.end && Text() == old(Text()) + g.bytes
      ensures extList[0].ext == BinStr(old(q), |g.bytes|)
    {
      var at := q;
      var n;
      n, ok := GetFunkyString(true);
      extList := [ExtType(BinStr(at, n), BinStr(0, 0))] + extList;
    }

    // Lines 2799-2807: the second character of an indicator's name.
    method SecondChar(name0: string) returns (ph: Phase, name: string)
      requires Inv(Second, name0)
      modifies this`p
      ensures Inv(ph, name) && |name| == 2 && (if ph == Equals then p == old(p) + 1 else ph == Fail && p == old(p))
    {
      name := name0;
      if At(src, p) != '\0' {
        name := name[1 := src[p]];
        p := p + 1;
        ph := Equals;
      } else {
        ph := Fail;
      }
    }

    // The search for the name among the indicators.
    method FindIndicator(name: string) returns (k: nat)
      ensures k == IndexFrom(names, name, 0)
    {
      k := 0;
      while k < |names| && names[k] != name
        invariant k <= |names| && IndexFrom(names, name, 0) == IndexFrom(names, name, k)
      {
        k := k + 1;
      }
    }

    // Both characters of the name are read.
    lemma NameRead(name: string)
      requires Inv(Equals, name)
      ensures ItemAt(names, src, item) == Valued(names, src, p, IndexFrom(names, name, 0))
    {
    }

    // Lines 2809-2827: the equal sign after an indicator's name, and its value.
    method EqualSign(name: string) returns (ph: Phase)
      requires Inv(Equals, name)
      modifies this`p, this`q, this`count, this`begun, this`indicators, this`done, this`item, buf
      ensures (ph == Start || ph == Fail) && Inv(ph, name) && p > old(p)
    {
      NameRead(name);
      var c := At(src, p);
      p := p + 1;
      ph := Fail;
      if c == '=' {
        var k := FindIndicator(name);
        if k < |names| {
          ph := IndicatorValue(k);
        }
      }
    }

    method IndicatorValue(k: nat) returns (ph: Phase)
      requires Room() && item <= |src| && q < p <= |src| && At(src, p - 1) == '='
      requires k < |names| && ItemAt(names, src, item) == Valued(names, src, p - 1, k)
      requires Whole(names, src) == Following(done, Parse(names, src, item)) && Recorded(Start)
      modifies this`p, this`q, this`count, this`begun, this`indicators, this`done, this`item, buf
      ensures (ph == Start || ph == Fail) && Inv(ph, "") && p >= old(p)
    {
      ghost var was := Text();
      ghost var h := Decode(src, p, false);
      ghost var set0 := indicators;
      DecodeFits(src, p, false);
      var ok := ReadIndicator(k, h);
      ph := if ok then Start else Fail;
      if ok {
        NewIndicator(was, h.bytes, extList, set0, done, k);
        Defined(Indicator(k, h.bytes));
      }
    }

    method ReadIndicator(k: nat, ghost g: Got) returns (ok: bool)
      requires Room() && q <= p <= |src| && g == Decode(src, p, false)
      modifies this`p, this`q, this`count, this`begun, this`indicators, buf
      ensures Room() && q <= p
      ensures ok == g.ok && p == g.end && Text() == old(Text()) + g.bytes
      ensures indicators == old(indicators)[k := BinStr(old(q), |g.bytes|)]
    {
      var at := q;
      var n;
      n, ok := GetFunkyString(false);
      indicators := indicators[k := BinStr(at, n)];
    }

    // Lines 2829-2838: the equal sign after an extension, and its value.
    method ExtensionValue() returns (ph: Phase)
      requires Inv(ExtEquals, "")
      modifies this`p, this`q, this`count, this`begun, this`extList, this`done, this`item, buf
      ensures (ph == Start || ph == Fail) && Inv(ph, "") && p > old(p)
    {
      var c := At(src, p);
      p := p + 1;
      ph := Fail;
      if c == '=' { ph := ExtensionCode(); }
    }

    method ExtensionCode() returns (ph: Phase)
      requires Room() && item < |src| && src[item] == '*' && q < p <= |src| && At(src, p - 1) == '='
      requires Decode(src, item + 1, true).ok && p - 1 == Decode(src, item + 1, true).end
      requires Whole(names, src) == Following(done, Parse(names, src, item)) && Recorded(ExtEquals)
      modifies this`p, this`q, this`count, this`begun, this`extList, this`done, this`item, buf
      ensures (ph == Start || ph == Fail) && Inv(ph, "") && p >= old(p)
    {
      DecodeFits(src, p, false);
      ghost var g, h := Decode(src, item + 1, true), Decode(src, p, false);
      ghost var was, list := Text(), extList;
      var ok := ReadCode(h);
      ph := if ok then Start else Fail;
      AfterCode(g, h, was, list[0].ext, list[1..]);
    }

    // The code of the extension at the head of the list was read.
    ghost method AfterCode(g: Got, h: Got, was: string, b: BinStr, xs: seq<ExtType>)
      requires Room() && q <= |src| && item < |src| && src[item] == '*' && p == h.end && (h.ok ==> q <= p <= |src|)
      requires g == Decode(src, item + 1, true) && g.ok && At(src, g.end) == '=' && h == Decode(src, g.end + 1, false)
      requires Whole(names, src) == Following(done, Parse(names, src, item))
      requires Text() == was + h.bytes && extList == [ExtType(b, BinStr(|was|, |h.bytes|))] + xs
      modifies this`done, this`item
      ensures ListHolds(was, xs, old(done)) && IndicatorsHold(was, indicators, old(done)) && Spans(was, b, g.bytes) ==>
        Inv(if h.ok then Start else Fail, "")
    {
      if h.ok {
        StarItem(names, src, item, g.bytes, g.end, h.bytes, p);
        ExtensionRead(g.bytes, h.bytes, was, b, xs);
      } else {
        StarBroken(names, src, item);
      }
    }

    // The extension ext has its code, and both are recorded.
    ghost method ExtensionRead(ext: string, code: string, was: string, b: BinStr, tail: seq<ExtType>)
      requires Room() && q <= p <= |src| && Whole(names, src) == Following(done, Parse(names, src, item))
      requires ItemAt(names, src, item) == Def(Extension(ext, code), p)
      requires Text() == was + code && extList == [ExtType(b, BinStr(|was|, |code|))] + tail
      modifies this`done, this`item
      ensures ListHolds(was, tail, old(done)) && IndicatorsHold(was, indicators, old(done)) && Spans(was, b, ext) ==>
        Inv(Start, "")
    {
      if ListHolds(was, tail, done) && IndicatorsHold(was, indicators, done) && Spans(was, b, ext) {
        NewExtension(was, code, tail, indicators, done, b, ext);
      }
      Defined(Extension(ext, code));
    }

    method ReadCode(ghost g: Got) returns (ok: bool)
      requires Room() && q <= p <= |src| && extList != [] && g == Decode(src, p, false)
      modifies this`p, this`q, this`count, this`begun, this`extList, buf
      ensures Room() && q <= p
      ensures ok == g.ok && p == g.end && Text() == old(Text()) + g.bytes
      ensures extList == [ExtType(old(extList[0].ext), BinStr(old(q), |g.bytes|))] + old(extList[1..])
    {
      var at := q;
      var n;
      n, ok := GetFunkyString(false);
      extList := extList[0 := extList[0].(code := BinStr(at, n))];
    }

    // The definition is complete.
    ghost method Defined(e: Entry)
      requires ItemAt(names, src, item) == Def(e, p) && Whole(names, src) == Following(done, Parse(names, src, item))
      modifies this`done, this`item
      ensures done == old(done) + [e] && item == p
      ensures Whole(names, src) == Following(done, Parse(names, src, item))
    {
      ParsedMore(names, src, done, item);
      done, item := done + [e], p;
    }

    constructor (s: string)
      requires NoNul(s)
      ensures src == s && names == INDICATOR_NAMES && fresh(buf) && Inv(Start, "??")
      ensures p == q == item == 0 && done == [] && printWithColor
    {
      src, names, buf := s, INDICATOR_NAMES, new char[|s| + 1];
      p, q, count, begun := 0, 0, 0, 0;
      extList, indicators, printWithColor := [], map[], true;
      done, item := [], 0;
    }

    // One turn of the outer loop.
    method Turning(ph0: Phase, name0: string) returns (ph: Phase, name: string)
      requires Inv(ph0, name0) && |name0| == 2 && ph0 != Done && ph0 != Fail
      modifies this`p, this`q, this`count, this`begun, this`extList, this`indicators, this`done, this`item, buf
      ensures Inv(ph, name) && |name| == 2
      ensures p > old(p) || (p == old(p) && (ph == Done || ph == Fail))
    {
      ph, name := ph0, name0;
      match ph0
      case Start => ph, name := AtStart(name0);
      case Second => ph, name := SecondChar(name0);
      case Equals => ph := EqualSign(name0);
      case ExtEquals => ph := ExtensionValue();
    }

    // Lines 2752-2865, from a string that is set: colours stay on just when every
    // definition is well formed, and then each one is recorded as it was meant; what is
    // written fits the copy of the string.
    method ParseLsColor()
      requires Inv(Start, "??") && printWithColor && done == [] && item == 0
      modifies this, buf
      ensures q <= |src| && q <= buf.Length
      ensures printWithColor == Whole(names, src).ok
      ensures printWithColor ==> ListHolds(Text(), extList, Whole(names, src).entries)
      ensures printWithColor ==> IndicatorsHold(Text(), indicators, Whole(names, src).entries)
    {
      var ph, name := Start, "??";
      while ph != Done && ph != Fail
        invariant Inv(ph, name) && |name| == 2 && printWithColor && q <= |src|
        decreases |src| + 1 - p, if ph.Done? || ph.Fail? then 0 else 1
      {
        ph, name := Turning(ph, name);
      }
      if ph == Fail {
        printWithColor := false;
      }
      WholeDone(names, src, done, item);
    }
  }

  // Written in full and parsed by the machines, any definitions are recorded.
  method WriteThenParse(es: seq<Entry>) returns (p: Parser)
    requires Writable(INDICATOR_NAMES, es) && es != []
    ensures p.printWithColor && p.q <= p.buf.Length
    ensures ListHolds(p.Text(), p.extList, es) && IndicatorsHold(p.Text(), p.indicators, es)
  {
    var s := Write(INDICATOR_NAMES, es);
    KnownNames();
    WrittenNoNul(INDICATOR_NAMES, es);
    p := new Parser(s);
    WrittenParses(p.names, s, 0, es);
    p.ParseLsColor();
  }
}
