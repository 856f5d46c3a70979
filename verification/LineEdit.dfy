// What the keys of the shell do, in kernel/shell.c: to the text on either side of the
// cursor, to the history, and to the terminal line.
module LineEdit {
  import opened Sgr

  // ---- The line ----

  datatype Zip = Zip(before: string, after: string)

  function Text(z: Zip): string { z.before + z.after }

  const NOTHING := Zip("", "")

  predicate Fits(z: Zip) { |z.before| + |z.after| <= 127 }

  function DropLast(s: string): string
    requires s != ""
  {
    s[..|s| - 1]
  }

  function Insert(z: Zip, c: char): Zip {
    if |z.before| + |z.after| + 1 >= 128 then z else Zip(z.before + [c], z.after)
  }

  function Left(z: Zip): Zip {
    if z.before == "" then z else Zip(DropLast(z.before), [z.before[|z.before| - 1]] + z.after)
  }

  function Right(z: Zip): Zip { if z.after == "" then z else Zip(z.before + [z.after[0]], z.after[1..]) }

  function Home(z: Zip): Zip { Zip("", Text(z)) }

  function End(z: Zip): Zip { Zip(Text(z), "") }

  function Backspace(z: Zip): Zip { if z.before == "" then z else Zip(DropLast(z.before), z.after) }

  function Delete(z: Zip): Zip { if z.after == "" then z else Zip(z.before, z.after[1..]) }

  function KillEnd(z: Zip): Zip { Zip(z.before, "") }

  // With the cursor at the start the whole line goes.
  function KillStart(z: Zip): Zip { if z.before == "" then NOTHING else Zip("", z.after) }

  function DropSpaces(s: string): string {
    if s != "" && s[|s| - 1] == ' ' then DropSpaces(DropLast(s)) else s
  }

  function DropWord(s: string): string {
    if s != "" && s[|s| - 1] != ' ' then DropWord(DropLast(s)) else s
  }

  function EraseWord(z: Zip): Zip { Zip(DropWord(DropSpaces(z.before)), z.after) }

  // What is kept, one run without spaces, and one run of spaces.
  lemma EraseWordTakes(s: string)
    ensures var t := DropSpaces(s);
      var u := DropWord(t);
      && |u| <= |t| <= |s| && s[..|t|] == t && t[..|u|] == u
      && (forall i | |t| <= i < |s| :: s[i] == ' ') && ' ' !in t[|u|..]
      && (u != "" ==> u[|u| - 1] == ' ') && (s != "" ==> |u| < |s|)
  {
    DropSpacesTakes(s);
    DropWordTakes(DropSpaces(s));
  }

  lemma {:induction false} DropSpacesTakes(s: string)
    ensures var t := DropSpaces(s);
      |t| <= |s| && s[..|t|] == t && (forall i | |t| <= i < |s| :: s[i] == ' ') && (t != "" ==> t[|t| - 1] != ' ')
  {
    if s != "" && s[|s| - 1] == ' ' {
      DropSpacesTakes(DropLast(s));
    }
  }

  lemma {:induction false} DropWordTakes(s: string)
    ensures var t := DropWord(s);
      && |t| <= |s| && s[..|t|] == t && ' ' !in s[|t|..] && (t != "" ==> t[|t| - 1] == ' ')
      && (s != "" && s[|s| - 1] != ' ' ==> |t| < |s|)
  {
    if s != "" && s[|s| - 1] != ' ' {
      DropWordTakes(DropLast(s));
      var t := DropWord(s);
      assert s[|t|..] == DropLast(s)[|t|..] + [s[|s| - 1]];
    }
  }

  // ---- Completion ----

  predicate Extend(matches: seq<string>, at: nat) {
    && matches != [] && at < |matches[0]|
    && forall i | 0 <= i < |matches| :: at < |matches[i]| && matches[i][at] == matches[0][at]
  }

  // What all matches have in common from at on.
  function Common(matches: seq<string>, at: nat): string
    requires matches != []
    decreases if at < |matches[0]| then |matches[0]| - at else 0
  {
    if Extend(matches, at) then [matches[0][at]] + Common(matches, at + 1) else ""
  }

  function Take(s: string, n: int): string {
    if n <= 0 then "" else if |s| <= n then s else s[..n]
  }

  // A single match is filled in and a space set after it; several, as far as they agree.
  function Complete(z: Zip, matches: seq<string>, plen: nat): Zip
    requires forall i | 0 <= i < |matches| :: plen <= |matches[i]|
  {
    if matches == [] then z
    else if |matches| == 1 then
      if |Text(z)| + (|matches[0]| - plen) + 1 >= 128 then z else
      var b := z.before + matches[0][plen..];
      Zip(if z.after == "" || z.after[0] != ' ' then b + " " else b, z.after)
    else Zip(z.before + Take(Common(matches, plen), 127 - |Text(z)|), z.after)
  }

  // ---- The history ----

  function Trimmed(s: string): string { DropSpaces(DropFirstSpaces(s)) }

  function DropFirstSpaces(s: string): string {
    if s != "" && s[0] == ' ' then DropFirstSpaces(s[1..]) else s
  }

  function Added(hist: seq<string>, s: string): seq<string> {
    if s == "" || (hist != [] && hist[|hist| - 1] == s) then hist else hist + [s]
  }

  // All that was entered, trimmed, without blank lines and repetitions.
  function Recorded(entered: seq<string>): seq<string> {
    if entered == [] then []
    else Added(Recorded(entered[..|entered| - 1]), Trimmed(entered[|entered| - 1]))
  }

  ghost predicate NoneTwice(h: seq<string>) {
    (forall i | 0 <= i < |h| :: h[i] != "") && (forall i, j | 0 <= i < |h| && j == i + 1 < |h| :: h[i] != h[j])
  }

  lemma {:induction false} NoRepetition(entered: seq<string>)
    ensures NoneTwice(Recorded(entered))
  {
    if entered != [] { NoRepetition(entered[..|entered| - 1]); }
  }

  // ---- The keys ----

  // Only characters that can be typed.
  predicate TypedZip(z: Zip) { Typed(z.before) && Typed(z.after) }

  lemma TypedText(z: Zip)
    requires TypedZip(z)
    ensures Typed(Text(z))
  {
  }

  predicate Typed(s: string) { forall i | 0 <= i < |s| :: ' ' <= s[i] <= '~' }

  // The line, the history, the place in it, and the line put by while browsing.
  datatype Ed = Ed(z: Zip, hist: seq<string>, at: nat, saved: string, hasSaved: bool)

  ghost predicate Ok(e: Ed) {
    && Fits(e.z) && |e.saved| <= 127 && e.at <= |e.hist| <= e.at + 32
    && (e.at < |e.hist| ==> e.hasSaved)
    && (forall i | 0 <= i < |e.hist| :: |e.hist[i]| <= 127 && Typed(e.hist[i]))
    && TypedZip(e.z) && Typed(e.saved)
  }

  // The line being typed is put by when browsing starts.
  function PutBy(e: Ed): Ed { if e.at == |e.hist| then e.(saved := Text(e.z), hasSaved := true) else e }

  function Up(e: Ed): Ed {
    if e.hist == [] then e else
    var f := PutBy(e);
    if 0 < e.at <= |e.hist| && e.at + 32 > |e.hist| then f.(at := e.at - 1, z := Zip(e.hist[e.at - 1], "")) else f
  }

  function Down(e: Ed): Ed {
    if e.at >= |e.hist| then e
    else if e.at + 1 < |e.hist| then e.(at := e.at + 1, z := Zip(e.hist[e.at + 1], ""))
    else e.(at := e.at + 1, z := Zip(if e.hasSaved then e.saved else "", ""))
  }

  function Enter(e: Ed): Ed {
    var h := Added(e.hist, Trimmed(Text(e.z)));
    Ed(NOTHING, h, |h|, e.saved, e.hasSaved && h == e.hist)
  }

  function Interrupt(e: Ed): Ed { e.(z := NOTHING, at := |e.hist|) }

  // ---- Browsing the history ----

  ghost function Ups(e: Ed, k: nat): Ed { if k == 0 then e else Up(Ups(e, k - 1)) }

  ghost function Downs(e: Ed, k: nat): Ed { if k == 0 then e else Down(Downs(e, k - 1)) }

  lemma UpOk(e: Ed)
    requires Ok(e)
    ensures Ok(Up(e)) && Ok(Down(e)) && Ok(Interrupt(e))
  {
  }

  // The number of entries that k Ups go back.
  function Reach(hist: seq<string>, k: nat): nat {
    if k <= |hist| && k <= 32 then k else if |hist| <= 32 then |hist| else 32
  }

  // e was browsing from the line typed in f, and is now n entries back.
  ghost predicate Browsing(f: Ed, e: Ed, n: nat) {
    && n <= |f.hist| && n <= 32 && e.hist == f.hist && e.at == |f.hist| - n
    && (n > 0 ==> e.z == Zip(f.hist[e.at], "") && e.hasSaved && e.saved == Text(f.z))
    && (n == 0 ==> Text(e.z) == Text(f.z))
  }

  lemma {:induction false} UpsReach(f: Ed, k: nat)
    requires Ok(f) && f.at == |f.hist|
    ensures Browsing(f, Ups(f, k), Reach(f.hist, k))
  {
    if k > 0 { UpsReach(f, k - 1); }
  }

  lemma {:induction false} DownsReturn(f: Ed, e: Ed, n: nat, k: nat)
    requires Ok(f) && Browsing(f, e, n)
    ensures Browsing(f, Downs(e, k), if k < n then n - k else 0)
  {
    if k > 0 { DownsReturn(f, e, n, k - 1); }
  }

  // However often Up is pressed, as many Downs bring the typed line back; only the cursor
  // may have moved to its end.
  lemma UpsThenDowns(f: Ed, k: nat)
    requires Ok(f) && f.at == |f.hist|
    ensures var e := Downs(Ups(f, k), k);
      Text(e.z) == Text(f.z) && e.at == f.at && e.hist == f.hist
  {
    UpsReach(f, k);
    DownsReturn(f, Ups(f, k), Reach(f.hist, k), k);
  }

  // ---- What the keys print ----

  const CURSOR_LEFT := [ESC] + "[D"
  const CURSOR_RIGHT := [ESC] + "[C"
  const CLEAR_RIGHT := [ESC] + "[K"
  const PROMPT := "StrixOS> "

  function Times(s: string, n: nat): string { if n == 0 then "" else Times(s, n - 1) + s }

  lemma TimesMore(o: string, s: string, n: nat)
    ensures o + Times(s, n + 1) == o + Times(s, n) + s
  {
  }

  const GREEN := Rgb(80, 255, 120)

  // The prompt, in green.
  function Prompt(): string { RgbText(PROMPT, GREEN.r, GREEN.g, GREEN.b) }

  // refresh_line.
  function Refresh(z: Zip): string {
    "\r" + CLEAR_RIGHT + Prompt() + Text(z) + CLEAR_RIGHT + Times(CURSOR_LEFT, |z.after|)
  }

  const BEEP := [7 as char]

  datatype Key =
    | Type(c: char) | GoLeft | GoRight | GoHome | GoEnd | Rub | Del
    | CutEnd | CutStart | CutWord | Older | Newer
    | Tab(matches: seq<string>, plen: nat)

  predicate KeyOk(k: Key) {
    match k
    case Type(c) => ' ' <= c <= '~'
    case Tab(matches, plen) => forall i | 0 <= i < |matches| :: plen <= |matches[i]| && Typed(matches[i])
    case _ => true
  }

  function Edit(z: Zip, k: Key): Zip
    requires KeyOk(k)
  {
    match k
    case Type(c) => Insert(z, c)
    case GoLeft => Left(z)
    case GoRight => Right(z)
    case GoHome => Home(z)
    case GoEnd => End(z)
    case Rub => Backspace(z)
    case Del => Delete(z)
    case CutEnd => KillEnd(z)
    case CutStart => KillStart(z)
    case CutWord => EraseWord(z)
    case Tab(matches, plen) => Complete(z, matches, plen)
    case _ => z
  }

  function Press(e: Ed, k: Key): Ed
    requires KeyOk(k)
  {
    match k
    case Older => Up(e)
    case Newer => Down(e)
    case _ => e.(z := Edit(e.z, k))
  }

  // A key that changes the text, or loads one, redraws the line.
  function Redraws(e: Ed, k: Key): bool
    requires KeyOk(k)
  {
    match k
    case Older => 0 < e.at <= |e.hist| < e.at + 32
    case Newer => e.at < |e.hist|
    case Tab(matches, plen) =>
      if |matches| == 1 then |Text(e.z)| + (|matches[0]| - plen) + 1 < 128 else Complete(e.z, matches, plen) != e.z
    case Type(_) => |Text(e.z)| < 127
    case Rub => e.z.before != ""
    case Del => e.z.after != ""
    case CutEnd => e.z.after != ""
    case CutStart => Text(e.z) != ""
    case CutWord => e.z.before != ""
    case _ => false
  }

  // What a key prints.
  function Printed(e: Ed, k: Key): string
    requires KeyOk(k)
  {
    match k
    case GoLeft => if e.z.before != "" then CURSOR_LEFT else BEEP
    case GoRight => if e.z.after != "" then CURSOR_RIGHT else BEEP
    case GoHome => Times(CURSOR_LEFT, |e.z.before|)
    case GoEnd => Times(CURSOR_RIGHT, |e.z.after|)
    case CutEnd => if Redraws(e, k) then Refresh(Press(e, k).z) else ""
    case CutStart => if Redraws(e, k) then Refresh(Press(e, k).z) else ""
    case _ => if Redraws(e, k) then Refresh(Press(e, k).z) else BEEP
  }

  // Every key keeps the line within 127 characters, the place in the history on an entry
  // that is still stored, and what is shown printable.
  lemma PressOk(e: Ed, k: Key)
    requires Ok(e) && KeyOk(k)
    ensures Ok(Press(e, k))
  {
    TypedText(e.z);
    match k
    case CutWord =>
      EraseWordTakes(e.z.before);
    case Tab(matches, plen) =>
      CompleteOk(e.z, matches, plen);
    case _ =>
  }

  lemma CompleteOk(z: Zip, matches: seq<string>, plen: nat)
    requires Fits(z) && TypedZip(z) && KeyOk(Tab(matches, plen))
    ensures var y := Complete(z, matches, plen); Fits(y) && TypedZip(y)
  {
    if |matches| > 1 {
      CommonTyped(matches, plen);
    } else if |matches| == 1 {
      assert Typed(matches[0][plen..]);
    }
  }

  lemma {:induction false} CommonTyped(matches: seq<string>, at: nat)
    requires matches != [] && Typed(matches[0])
    ensures Typed(Common(matches, at))
    decreases if at < |matches[0]| then |matches[0]| - at else 0
  {
    if Extend(matches, at) { CommonTyped(matches, at + 1); }
  }

  // A key that does not redraw leaves the text as it is.
  lemma QuietKeepsText(e: Ed, k: Key)
    requires Ok(e) && KeyOk(k) && !Redraws(e, k)
    ensures Text(Press(e, k).z) == Text(e.z)
  {
    match k
    case GoLeft => MovesKeepText(e.z);
    case GoRight => MovesKeepText(e.z);
    case GoHome => MovesKeepText(e.z);
    case GoEnd => MovesKeepText(e.z);
    case _ =>
  }

  lemma MovesKeepText(z: Zip)
    ensures Text(Left(z)) == Text(Right(z)) == Text(Home(z)) == Text(End(z)) == Text(z)
  {
  }

  // What one key does, its opposite takes back.
  lemma TypeThenRub(z: Zip, c: char)
    requires |z.before| + |z.after| < 127
    ensures Backspace(Insert(z, c)) == z && Delete(Left(Insert(z, c))) == z
  {
    assert DropLast(z.before + [c]) == z.before;
    assert ([c] + z.after)[1..] == z.after;
  }

  lemma LeftThenRight(z: Zip)
    requires z.before != ""
    ensures Right(Left(z)) == z
  {
    var c := z.before[|z.before| - 1];
    assert ([c] + z.after)[1..] == z.after;
    assert DropLast(z.before) + [c] == z.before;
  }

  // Common is in every match, and no match could give one more character.
  lemma {:induction false} CommonLongest(matches: seq<string>, at: nat)
    requires matches != [] && forall i | 0 <= i < |matches| :: at <= |matches[i]|
    ensures var c := Common(matches, at);
      && !Extend(matches, at + |c|)
      && forall i | 0 <= i < |matches| :: at + |c| <= |matches[i]| && matches[i][at..at + |c|] == c
    decreases if at < |matches[0]| then |matches[0]| - at else 0
  {
    if Extend(matches, at) {
      CommonLongest(matches, at + 1);
      var c := Common(matches, at + 1);
      forall i | 0 <= i < |matches| ensures matches[i][at..at + 1 + |c|] == [matches[0][at]] + c {
        assert matches[i][at + 1..at + 1 + |c|] == c;
      }
    }
  }

  lemma {:induction false} DropFirstTakes(s: string)
    ensures |DropFirstSpaces(s)| <= |s| && (Typed(s) ==> Typed(DropFirstSpaces(s)))
  {
    if s != "" && s[0] == ' ' { DropFirstTakes(s[1..]); }
  }

  lemma TrimmedOk(s: string)
    ensures |Trimmed(s)| <= |s| && (Typed(s) ==> Typed(Trimmed(s)))
  {
    DropFirstTakes(s);
    DropSpacesTakes(DropFirstSpaces(s));
  }

  lemma RecordedMore(entered: seq<string>, t: string)
    requires entered != [] && entered[|entered| - 1] == t
    ensures Recorded(entered) == Added(Recorded(entered[..|entered| - 1]), Trimmed(t))
  {
  }

  lemma EnterOk(e: Ed)
    requires Ok(e)
    ensures Ok(Enter(e))
  {
    TypedText(e.z);
    TrimmedOk(Text(e.z));
  }

  // ---- A run of keys ----

  predicate KeysOk(ks: seq<Key>) { forall i | 0 <= i < |ks| :: KeyOk(ks[i]) }

  ghost function PressAll(e: Ed, ks: seq<Key>): Ed
    requires KeysOk(ks)
    decreases |ks|
  {
    if ks == [] then e else PressAll(Press(e, ks[0]), ks[1..])
  }

  ghost function PrintedAll(e: Ed, ks: seq<Key>): string
    requires KeysOk(ks)
    decreases |ks|
  {
    if ks == [] then "" else Printed(e, ks[0]) + PrintedAll(Press(e, ks[0]), ks[1..])
  }

  // After the first i keys of ks, from e to f, with out printed so far.
  ghost predicate Underway(e: Ed, ks: seq<Key>, i: nat, o: string, f: Ed, out: string) {
    && KeysOk(ks) && i <= |ks|
    && PressAll(e, ks) == PressAll(f, ks[i..]) && o + PrintedAll(e, ks) == out + PrintedAll(f, ks[i..])
  }

  lemma NextKey(e: Ed, ks: seq<Key>, i: nat, o: string, f: Ed, out: string)
    requires Underway(e, ks, i, o, f, out) && i < |ks|
    ensures Underway(e, ks, i + 1, o, Press(f, ks[i]), out + Printed(f, ks[i]))
  {
    var k, more := ks[i], ks[i + 1..];
    assert ks[i..][1..] == more;
    assert out + (Printed(f, k) + PrintedAll(Press(f, k), more)) == out + Printed(f, k) + PrintedAll(Press(f, k), more);
  }

  // ---- What a run of typing leaves ----

  function TypeKeys(t: string): seq<Key> { seq(|t|, i requires 0 <= i < |t| => Type(t[i])) }

  // Text typed character by character goes in at the cursor, as long as there is room.
  lemma {:induction false} TypedIn(e: Ed, t: string)
    requires Typed(t) && |Text(e.z)| + |t| <= 127
    ensures KeysOk(TypeKeys(t)) && PressAll(e, TypeKeys(t)) == e.(z := Zip(e.z.before + t, e.z.after))
    decreases |t|
  {
    if t == "" {
      assert e.z.before + t == e.z.before;
    } else {
      var f := Press(e, Type(t[0]));
      assert TypeKeys(t)[1..] == TypeKeys(t[1..]);
      TypedIn(f, t[1..]);
      assert f.z.before + t[1..] == e.z.before + t;
    }
  }

  // Typed at a fresh prompt and entered, it is recorded without the spaces around it, and
  // the first Up brings it back.
  lemma TypedAndEntered(e: Ed, t: string)
    requires Ok(e) && e.z == NOTHING && Typed(t) && |t| <= 127 && Trimmed(t) != ""
    ensures KeysOk(TypeKeys(t))
    ensures var f := Enter(PressAll(e, TypeKeys(t)));
      && f.z == NOTHING && f.at == |f.hist|
      && f.hist == (if e.hist != [] && e.hist[|e.hist| - 1] == Trimmed(t) then e.hist else e.hist + [Trimmed(t)])
      && Up(f).z == Zip(Trimmed(t), "")
  {
    TypedIn(e, t);
    assert "" + t + "" == t;
  }

  // What trimming keeps: all but the spaces at both ends.
  lemma TrimmedTakes(s: string) returns (i: nat, j: nat)
    ensures i <= j <= |s| && Trimmed(s) == s[i..j]
    ensures (forall k | 0 <= k < i :: s[k] == ' ') && (forall k | j <= k < |s| :: s[k] == ' ')
    ensures Trimmed(s) != "" ==> s[i] != ' ' && s[j - 1] != ' '
  {
    i := FirstSpaces(s);
    var t := s[i..];
    DropSpacesTakes(t);
    var u := DropSpaces(t);
    j := i + |u|;
    assert t[..|u|] == s[i..j];
    forall k | j <= k < |s| ensures s[k] == ' ' { assert s[k] == t[k - i]; }
    if u != "" {
      assert u[0] == t[0] && u[|u| - 1] == s[j - 1];
    }
  }

  lemma {:induction false} FirstSpaces(s: string) returns (i: nat)
    ensures i <= |s| && DropFirstSpaces(s) == s[i..] && (forall k | 0 <= k < i :: s[k] == ' ')
    ensures i < |s| ==> s[i] != ' '
  {
    if s != "" && s[0] == ' ' {
      var j := FirstSpaces(s[1..]);
      i := j + 1;
      assert s[1..][j..] == s[i..];
      forall k | 0 <= k < i ensures s[k] == ' ' { if k > 0 { assert s[1..][k - 1] == ' '; } }
    } else {
      i := 0;
    }
  }

  // The keys on the text as one string with a cursor in it: what goes, and where the
  // cursor is afterwards.
  lemma EditsText(z: Zip)
    ensures var t, p := Text(z), |z.before|;
      && Shows(Left(z), t, if p > 0 then p - 1 else 0)
      && Shows(Right(z), t, if p < |t| then p + 1 else p)
      && Shows(Home(z), t, 0) && Shows(End(z), t, |t|)
      && Shows(Backspace(z), if p > 0 then t[..p - 1] + t[p..] else t, if p > 0 then p - 1 else 0)
      && Shows(Delete(z), if p < |t| then t[..p] + t[p + 1..] else t, p)
      && Shows(KillEnd(z), t[..p], p)
      && Shows(KillStart(z), if p > 0 then t[p..] else "", 0)
  {
  }

  ghost predicate Shows(z: Zip, text: string, cursor: nat) { Text(z) == text && |z.before| == cursor }

  // A single match that fits stands before the cursor in place of the part typed of it,
  // with one space after it, which may have been there before.
  lemma CompletedOne(z: Zip, m: string, plen: nat)
    requires plen <= |m| && plen <= |z.before| && z.before[|z.before| - plen..] == m[..plen]
    requires |Text(z)| + (|m| - plen) + 1 < 128
    ensures var y, kept := Complete(z, [m], plen), z.before[..|z.before| - plen];
      && y.after == z.after
      && (y.before == kept + m + " " || (y.before == kept + m && z.after != "" && z.after[0] == ' '))
  {
    assert z.before == z.before[..|z.before| - plen] + m[..plen];
    assert m == m[..plen] + m[plen..];
    assert [m][0] == m;
  }
}
