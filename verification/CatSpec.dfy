// What kernel/coreutils/cat.c outputs: byte by byte, as the program decides it, and line
// by line, as its documentation promises it.
module CatSpec {
  type Byte = b: int | 0 <= b < 256

  const TAB: Byte := 9
  const LF: Byte := 10
  const CR: Byte := 13

  datatype Flags = Flags(showNonprinting: bool, showTabs: bool, number: bool, numberNonblank: bool,
                         showEnds: bool, squeezeBlank: bool)

  // ---- Line numbers ----

  function Dec(n: nat): (ds: seq<Byte>)
    ensures |ds| > 0
  {
    if n < 10 then [48 + n] else Dec(n / 10) + [48 + n % 10]
  }

  function Spaces(n: int): (s: seq<Byte>)
    ensures |s| == (if n > 0 then n else 0)
  {
    if n <= 0 then [] else Spaces(n - 1) + [32]
  }

  // %6d and a tab
  function LineNo(n: nat): seq<Byte> { Spaces(6 - |Dec(n)|) + Dec(n) + [TAB] }

  function Pow10(k: nat): nat { if k == 0 then 1 else 10 * Pow10(k - 1) }

  lemma {:induction false} DecLength(n: nat, k: nat)
    requires k > 0
    ensures n < Pow10(k) <==> |Dec(n)| <= k
  {
    if n < 10 {
      PowPositive(k - 1);
    } else if k > 1 {
      DecLength(n / 10, k - 1);
      assert Pow10(k) == 10 * Pow10(k - 1);
      assert n / 10 < Pow10(k - 1) <==> n < 10 * Pow10(k - 1);
    } else {
      assert Pow10(1) == 10 * Pow10(0);
    }
  }

  lemma PowPositive(k: nat)
    ensures Pow10(k) >= 1
  {
  }

  // The number that a numeral writes.
  function Value(ds: seq<Byte>): int {
    if ds == [] then 0 else 10 * Value(ds[..|ds| - 1]) + (ds[|ds| - 1] as int - 48)
  }

  lemma {:induction false} DecValue(n: nat)
    ensures Value(Dec(n)) == n && forall d | d in Dec(n) :: 48 <= d < 58
  {
    if n >= 10 {
      DecValue(n / 10);
      assert Dec(n)[..|Dec(n)| - 1] == Dec(n / 10);
    } else {
      assert Dec(n)[..0] == [];
    }
  }

  lemma OnlySpaces(n: int)
    ensures forall c | c in Spaces(n) :: c == 32
  {
  }

  // A line number is right-aligned in six columns, or as wide as it is, before a tab.
  lemma LineNoReads(n: nat) returns (k: nat)
    ensures var s := LineNo(n);
      && k < |s| - 1 && |s| >= 7 && (k > 0 ==> |s| == 7) && s[|s| - 1] == TAB
      && (forall i | 0 <= i < k :: s[i] == 32)
      && (forall i | k <= i < |s| - 1 :: 48 <= s[i] < 58) && Value(s[k..|s| - 1]) == n
  {
    var s, ds := LineNo(n), Dec(n);
    k := |Spaces(6 - |ds|)|;
    OnlySpaces(6 - |ds|);
    DecValue(n);
    assert s[k..|s| - 1] == ds;
    forall i | 0 <= i < k ensures s[i] == 32 { assert s[i] in Spaces(6 - |ds|); }
    forall i | k <= i < |s| - 1 ensures 48 <= s[i] < 58 { assert s[i] == ds[i - k] && ds[i - k] in ds; }
  }

  // ---- Single bytes ----

  // The ^ and M- notation of -v.
  function Quoted(b: Byte, showTabs: bool): seq<Byte>
    requires b != LF
  {
    if b >= 32 then
      if b < 127 then [b]
      else if b == 127 then [94, 63]
      else if b >= 128 + 32 then
        if b < 128 + 127 then [77, 45, b - 128] else [77, 45, 94, 63]
      else [77, 45, 94, b - 128 + 64]
    else if b == TAB && !showTabs then [TAB]
    else [94, b + 64]
  }

  function Shown(f: Flags, b: Byte): (s: seq<Byte>)
    requires b != LF
    ensures 1 <= |s| <= 4
  {
    if f.showNonprinting then Quoted(b, f.showTabs)
    else if b == TAB && f.showTabs then [94, 73]
    else [b]
  }

  // With -E but not -v, a carriage return counts as part of the line end if a newline
  // follows.
  predicate HeldBack(f: Flags, b: Byte) { b == CR && f.showEnds && !f.showNonprinting }

  // ---- Reading the notation back ----

  // The second character of ^c.
  predicate CaretChar(c: Byte) { 63 <= c < 96 }

  // A byte as it is, or ^c for c less 64 and ^? for delete; and how much of s it takes.
  function ReadLow(s: seq<Byte>): (Byte, nat)
    requires s != []
  {
    if |s| > 1 && s[0] == 94 && CaretChar(s[1]) then (if s[1] == 63 then 127 else s[1] - 64, 2) else (s[0], 1)
  }

  // M- adds 128.
  function ReadOne(s: seq<Byte>): (Byte, nat)
    requires s != []
  {
    if |s| > 2 && s[0] == 77 && s[1] == 45 then
      var low := ReadLow(s[2..]);
      ((128 + low.0) % 256, 2 + low.1)
    else ReadLow(s)
  }

  function Read(s: seq<Byte>): seq<Byte>
    decreases |s|
  {
    if s == [] then []
    else
      var one := ReadOne(s);
      [one.0] + if one.1 <= |s| then Read(s[one.1..]) else []
  }

  predicate Graphic(c: Byte) { 32 <= c < 127 }

  // Every byte but the newline is shown in printing characters that stand for it, apart
  // from a tab without -T.
  lemma QuotedReads(b: Byte, showTabs: bool)
    requires b != LF
    ensures ReadOne(Quoted(b, showTabs)) == (b, |Quoted(b, showTabs)|)
    ensures if b == TAB && !showTabs then Quoted(b, showTabs) == [TAB]
      else forall c | c in Quoted(b, showTabs) :: Graphic(c)
  {
  }

  // What is shown of a byte begins with a character that could follow a caret.
  predicate LooksCaret(c: Byte, showTabs: bool) {
    if c == TAB then showTabs else c < 32 || CaretChar(c) || c >= 127
  }

  // Byte i of a line, shown as ^ or ends so, or as M, runs into what is shown after it.
  predicate RunsOn(line: seq<Byte>, i: nat, showTabs: bool)
    requires i < |line|
  {
    i + 1 < |line| &&
    if line[i] == 94 || line[i] == 128 + 94 then LooksCaret(line[i + 1], showTabs)
    else line[i] == 77 && line[i + 1] == 45 && i + 2 < |line|
  }

  predicate NoneRunOn(line: seq<Byte>, showTabs: bool) {
    forall i: nat | i < |line| :: !RunsOn(line, i, showTabs)
  }

  // A byte and what is shown after it.
  lemma ReadQuoted(b: Byte, showTabs: bool, more: seq<Byte>)
    requires b != LF
    requires (b == 94 || b == 128 + 94) && more != [] ==> !CaretChar(more[0])
    requires b == 77 && |more| > 1 ==> more[0] != 45
    ensures ReadOne(Quoted(b, showTabs) + more) == (b, |Quoted(b, showTabs)|)
  {
    var q := Quoted(b, showTabs);
    var s := q + more;
    assert |q| > 2 ==> s[2..] == q[2..] + more;
  }

  lemma MisreadQuoted(b: Byte, showTabs: bool, more: seq<Byte>)
    requires b != LF
    requires || ((b == 94 || b == 128 + 94) && more != [] && CaretChar(more[0]))
             || (b == 77 && |more| > 1 && more[0] == 45 && more[1] < 128)
    ensures ReadOne(Quoted(b, showTabs) + more).0 != b
  {
    var q := Quoted(b, showTabs);
    var s := q + more;
    assert |q| > 2 ==> s[2..] == q[2..] + more;
  }

  // ---- Byte by byte ----

  // What is carried from byte to byte, over reads and files: newlines (-1 inside a line,
  // else the empty lines seen, up to 2), whether a carriage return is held back, and the
  // last line number.
  datatype State = State(newlines: int, pendingCr: bool, count: nat)

  const START := State(0, false, 0)

  predicate StateOk(st: State) { -1 <= st.newlines <= 2 && (st.pendingCr ==> st.newlines == -1) }

  function AfterNewline(st: State): int { if st.newlines >= 1 then 2 else st.newlines + 1 }

  predicate Squeezed(f: Flags, st: State) { f.squeezeBlank && AfterNewline(st) == 2 }

  predicate BlankNumbered(f: Flags, st: State) { AfterNewline(st) > 0 && f.number && !f.numberNonblank }

  function Eol(f: Flags, pendingCr: bool): seq<Byte> {
    (if f.showEnds then (if pendingCr then [94, 77] else []) + [36] else []) + [LF]
  }

  predicate LineNumbered(f: Flags, st: State) { st.newlines >= 0 && f.number }

  function Next(f: Flags, st: State, b: Byte): State {
    if b == LF then
      if Squeezed(f, st) then st.(newlines := 2)
      else State(AfterNewline(st), st.pendingCr && !f.showEnds, st.count + if BlankNumbered(f, st) then 1 else 0)
    else State(-1, HeldBack(f, b), st.count + if LineNumbered(f, st) then 1 else 0)
  }

  function Emit(f: Flags, st: State, b: Byte): seq<Byte> {
    if b == LF then
      if Squeezed(f, st) then []
      else (if BlankNumbered(f, st) then LineNo(st.count + 1) else []) + Eol(f, st.pendingCr)
    else
      (if st.pendingCr then [CR] else []) + (if LineNumbered(f, st) then LineNo(st.count + 1) else [])
      + (if HeldBack(f, b) then [] else Shown(f, b))
  }

  lemma NewlineEmits(f: Flags, st: State, o: seq<Byte>)
    ensures o + Emit(f, st, LF) ==
      if Squeezed(f, st) then o
      else o + (if BlankNumbered(f, st) then LineNo(st.count + 1) else []) + Eol(f, st.pendingCr)
  {
  }

  lemma TabShown(f: Flags, st: State)
    requires !f.showNonprinting && f.showTabs && st.newlines == -1 && !st.pendingCr
    ensures Emit(f, st, TAB) == [94, TAB + 64]
  {
    assert [] + [94, TAB + 64] == [94, TAB + 64];
  }

  // All output for input s from state st on, with the carriage return main writes last.
  function Out(f: Flags, st: State, s: seq<Byte>): seq<Byte>
    decreases |s|
  {
    if s == [] then (if st.pendingCr then [CR] else [])
    else Emit(f, st, s[0]) + Out(f, Next(f, st, s[0]), s[1..])
  }

  function Final(f: Flags, st: State, s: seq<Byte>): State
    decreases |s|
  {
    if s == [] then st else Final(f, Next(f, st, s[0]), s[1..])
  }

  lemma {:induction false} CountGrows(f: Flags, st: State, s: seq<Byte>)
    ensures Final(f, st, s).count >= st.count
    decreases |s|
  {
    if s != [] { CountGrows(f, Next(f, st, s[0]), s[1..]); }
  }

  // The output for s before what follows it, with nothing held back written yet.
  function Placed(f: Flags, st: State, s: seq<Byte>): seq<Byte>
    decreases |s|
  {
    if s == [] then [] else Emit(f, st, s[0]) + Placed(f, Next(f, st, s[0]), s[1..])
  }

  lemma {:induction false} OutConcat(f: Flags, st: State, s: seq<Byte>, t: seq<Byte>)
    ensures Out(f, st, s + t) == Placed(f, st, s) + Out(f, Final(f, st, s), t)
    decreases |s|
  {
    if s == [] {
      assert s + t == t;
    } else {
      var st1 := Next(f, st, s[0]);
      assert (s + t)[1..] == s[1..] + t;
      OutConcat(f, st1, s[1..], t);
      Regroup(Emit(f, st, s[0]), Placed(f, st1, s[1..]), Out(f, Final(f, st1, s[1..]), t));
    }
  }

  // ---- Line by line ----

  // The content of a line: every byte shown, but a carriage return before the line end
  // that -E shows as ^M.
  function Body(f: Flags, line: seq<Byte>, ended: bool): seq<Byte>
    requires LF !in line
  {
    if line == [] then []
    else if |line| == 1 && HeldBack(f, line[0]) then (if ended then [94, 77] else [CR])
    else Shown(f, line[0]) + Body(f, line[1..], ended)
  }

  // A line shown with -v can be read back just when nothing in it runs on.
  lemma {:induction false} LineReads(f: Flags, line: seq<Byte>, ended: bool)
    requires f.showNonprinting && LF !in line
    ensures Read(Body(f, line, ended)) == line <==> NoneRunOn(line, f.showTabs)
    decreases |line|
  {
    if line != [] {
      var more := Body(f, line[1..], ended);
      LineReads(f, line[1..], ended);
      BodyStarts(f, line[1..], ended);
      BodyGraphic(f, line[1..], ended);
      assert Body(f, line, ended) == Quoted(line[0], f.showTabs) + more;
      NoneRunOnNext(line, f.showTabs);
      if RunsOn(line, 0, f.showTabs) {
        MisreadQuoted(line[0], f.showTabs, more);
      } else {
        ReadQuoted(line[0], f.showTabs, more);
        ReadStep(line[0], Quoted(line[0], f.showTabs), more);
        assert line == [line[0]] + line[1..];
      }
    }
  }

  lemma ReadStep(b: Byte, shown: seq<Byte>, more: seq<Byte>)
    requires shown != [] && ReadOne(shown + more) == (b, |shown|)
    ensures Read(shown + more) == [b] + Read(more)
  {
    assert (shown + more)[|shown|..] == more;
  }

  lemma NoneRunOnNext(line: seq<Byte>, showTabs: bool)
    requires line != []
    ensures NoneRunOn(line, showTabs) <==> !RunsOn(line, 0, showTabs) && NoneRunOn(line[1..], showTabs)
  {
    forall i: nat | i < |line[1..]| ensures RunsOn(line[1..], i, showTabs) == RunsOn(line, i + 1, showTabs) {}
    if NoneRunOn(line, showTabs) {
      forall i: nat | i < |line[1..]| ensures !RunsOn(line[1..], i, showTabs) {
        assert !RunsOn(line, i + 1, showTabs);
      }
    }
    if !RunsOn(line, 0, showTabs) && NoneRunOn(line[1..], showTabs) {
      forall i: nat | i < |line| ensures !RunsOn(line, i, showTabs) {
        if i > 0 { assert !RunsOn(line[1..], i - 1, showTabs); }
      }
    }
  }

  // Nothing but printing characters is shown, and tabs without -T.
  lemma {:induction false} BodyGraphic(f: Flags, line: seq<Byte>, ended: bool)
    requires f.showNonprinting && LF !in line
    ensures forall i | 0 <= i < |Body(f, line, ended)| ::
      Graphic(Body(f, line, ended)[i]) || (Body(f, line, ended)[i] == TAB && !f.showTabs)
    decreases |line|
  {
    if line != [] {
      BodyGraphic(f, line[1..], ended);
      QuotedReads(line[0], f.showTabs);
      var q, more := Quoted(line[0], f.showTabs), Body(f, line[1..], ended);
      assert Body(f, line, ended) == q + more;
      forall i | 0 <= i < |q + more| ensures Graphic((q + more)[i]) || ((q + more)[i] == TAB && !f.showTabs) {
        assert if i < |q| then (q + more)[i] in q else (q + more)[i] == more[i - |q|];
      }
    }
  }

  // How the line shown begins.
  lemma {:induction false} BodyStarts(f: Flags, line: seq<Byte>, ended: bool)
    requires f.showNonprinting && LF !in line
    ensures |Body(f, line, ended)| >= |line| && (line == [] ==> Body(f, line, ended) == [])
    ensures line != [] ==> (CaretChar(Body(f, line, ended)[0]) <==> LooksCaret(line[0], f.showTabs))
    ensures line != [] ==> (Body(f, line, ended)[0] == 45 <==> line[0] == 45)
    ensures |line| == 1 && line[0] == 45 ==> |Body(f, line, ended)| == 1
  {
    if line != [] { BodyStarts(f, line[1..], ended); }
  }

  function LineLength(s: seq<Byte>): (n: nat)
    ensures n <= |s| && LF !in s[..n] && (n < |s| ==> s[n] == LF)
  {
    if s == [] || s[0] == LF then 0
    else
      var n := 1 + LineLength(s[1..]);
      assert s[..n] == [s[0]] + s[1..][..n - 1];
      n
  }

  // The documented output: lines are numbered (-n, or -b for those not blank), repeated
  // blank lines dropped (-s), and ends marked (-E).
  function CatLines(f: Flags, s: seq<Byte>, afterBlank: bool, count: nat): seq<Byte>
    decreases |s|
  {
    var n := LineLength(s);
    var line := s[..n];
    if s == [] then []
    else if n == |s| then Numbered(f.number, count) + Body(f, line, false)
    else if line == [] then
      if afterBlank && f.squeezeBlank then CatLines(f, s[1..], true, count)
      else
        var numbered := f.number && !f.numberNonblank;
        Numbered(numbered, count) + Eol(f, false) + CatLines(f, s[1..], true, count + if numbered then 1 else 0)
    else
      LineThen(f, line, count, CatLines(f, s[n + 1..], false, count + if f.number then 1 else 0))
  }

  // A line with text, and the output after it.
  function LineThen(f: Flags, line: seq<Byte>, count: nat, rest: seq<Byte>): seq<Byte>
    requires LF !in line
  {
    Numbered(f.number, count) + (Body(f, line, true) + (Eol(f, false) + rest))
  }

  function Numbered(yes: bool, count: nat): seq<Byte> { if yes then LineNo(count + 1) else [] }

  lemma OutCons(f: Flags, st: State, b: Byte, t: seq<Byte>)
    ensures Out(f, st, [b] + t) == Emit(f, st, b) + Out(f, Next(f, st, b), t)
  {
    assert ([b] + t)[1..] == t;
  }

  lemma OutFirst(f: Flags, st: State, u: seq<Byte>)
    requires u != []
    ensures Out(f, st, u) == Emit(f, st, u[0]) + Out(f, Next(f, st, u[0]), u[1..])
  {
  }

  // A byte inside a line, where a carriage return may be held back.
  lemma MidByte(f: Flags, st: State, b: Byte)
    requires st.newlines == -1 && b != LF
    ensures Next(f, st, b) == State(-1, HeldBack(f, b), st.count)
    ensures Emit(f, st, b) == (if st.pendingCr then [CR] else []) + if HeldBack(f, b) then [] else Shown(f, b)
  {
    var pending: seq<Byte> := if st.pendingCr then [CR] else [];
    assert pending + [] == pending;
  }

  // A held-back carriage return not followed by a newline is written as it is.
  lemma PendingFirst(f: Flags, k: nat, u: seq<Byte>)
    requires u != [] && u[0] != LF
    ensures Out(f, State(-1, true, k), u) == [CR] + Out(f, State(-1, false, k), u)
  {
    PendingBefore(f, State(-1, true, k), State(-1, false, k), u);
  }

  lemma PendingBefore(f: Flags, st: State, clear: State, u: seq<Byte>)
    requires u != [] && u[0] != LF && st.newlines == -1 && st.pendingCr && clear == st.(pendingCr := false)
    ensures Out(f, st, u) == [CR] + Out(f, clear, u)
  {
    OutFirst(f, st, u);
    OutFirst(f, clear, u);
    MidByte(f, st, u[0]);
    MidByte(f, clear, u[0]);
    var shown: seq<Byte> := if HeldBack(f, u[0]) then [] else Shown(f, u[0]);
    assert [] + shown == shown;
    Regroup([CR], shown, Out(f, Next(f, st, u[0]), u[1..]));
  }

  lemma EmptyEnded(f: Flags, t: seq<Byte>, k: nat)
    ensures Out(f, State(-1, false, k), [LF] + t) == Eol(f, false) + Out(f, State(0, false, k), t)
  {
    OutCons(f, State(-1, false, k), LF, t);
  }

  lemma ShownCrEnded(f: Flags, t: seq<Byte>, k: nat)
    requires HeldBack(f, CR)
    ensures Out(f, State(-1, true, k), [LF] + t) == [94, 77] + (Eol(f, false) + Out(f, State(0, false, k), t))
  {
    OutCons(f, State(-1, true, k), LF, t);
    Regroup([94, 77], Eol(f, false), Out(f, State(0, false, k), t));
  }

  lemma CrEnded(f: Flags, t: seq<Byte>, k: nat)
    requires HeldBack(f, CR)
    ensures Out(f, State(-1, false, k), [CR] + ([LF] + t)) == [94, 77] + (Eol(f, false) + Out(f, State(0, false, k), t))
  {
    OutCons(f, State(-1, false, k), CR, [LF] + t);
    ShownCrEnded(f, t, k);
  }

  lemma Regroup(a: seq<Byte>, b: seq<Byte>, c: seq<Byte>)
    ensures a + (b + c) == a + b + c
  {
  }

  // A byte inside a line that is not its last.
  lemma InsideLine(f: Flags, b: Byte, u: seq<Byte>, k: nat)
    requires b != LF && (HeldBack(f, b) ==> u != [] && u[0] != LF)
    ensures Out(f, State(-1, false, k), [b] + u) == Shown(f, b) + Out(f, State(-1, false, k), u)
  {
    var st := State(-1, false, k);
    OutCons(f, st, b, u);
    MidByte(f, st, b);
    if HeldBack(f, b) {
      PendingFirst(f, k, u);
      assert [] + Out(f, State(-1, true, k), u) == [CR] + Out(f, st, u);
    } else {
      assert [] + Shown(f, b) == Shown(f, b);
    }
  }

  lemma {:induction false} EndedLine(f: Flags, c: seq<Byte>, t: seq<Byte>, k: nat)
    requires LF !in c
    ensures Out(f, State(-1, false, k), c + ([LF] + t))
      == Body(f, c, true) + (Eol(f, false) + Out(f, State(0, false, k), t))
    decreases |c|
  {
    var end := Eol(f, false) + Out(f, State(0, false, k), t);
    if c == [] {
      assert c + ([LF] + t) == [LF] + t;
      EmptyEnded(f, t, k);
    } else if |c| == 1 && HeldBack(f, c[0]) {
      assert c == [CR];
      CrEnded(f, t, k);
    } else {
      var rest := c[1..] + ([LF] + t);
      assert c + ([LF] + t) == [c[0]] + rest;
      EndedLine(f, c[1..], t, k);
      InLine(f, c[0], rest, k, Body(f, c[1..], true), end);
    }
  }

  lemma InLine(f: Flags, b: Byte, u: seq<Byte>, k: nat, body: seq<Byte>, end: seq<Byte>)
    requires b != LF && (HeldBack(f, b) ==> u != [] && u[0] != LF)
    requires Out(f, State(-1, false, k), u) == body + end
    ensures Out(f, State(-1, false, k), [b] + u) == Shown(f, b) + body + end
  {
    InsideLine(f, b, u, k);
    Regroup(Shown(f, b), body, end);
  }

  lemma {:induction false} OpenLine(f: Flags, c: seq<Byte>, k: nat)
    requires LF !in c
    ensures Out(f, State(-1, false, k), c) == Body(f, c, false)
    decreases |c|
  {
    if c != [] {
      if HeldBack(f, c[0]) && |c| > 1 { PendingFirst(f, k, c[1..]); }
      OpenLine(f, c[1..], k);
    }
  }

  // The first byte of a line brings its number; after it the line is in progress.
  lemma BeginLine(f: Flags, st: State, s: seq<Byte>)
    requires st.newlines >= 0 && !st.pendingCr && s != [] && s[0] != LF
    ensures Out(f, st, s) == Numbered(f.number, st.count)
      + Out(f, State(-1, false, st.count + if f.number then 1 else 0), s)
  {
  }

  lemma BlankLine(f: Flags, t: seq<Byte>, st: State)
    requires st.newlines >= 0 && !st.pendingCr
    ensures Out(f, st, [LF] + t) ==
      if st.newlines >= 1 && f.squeezeBlank then Out(f, State(2, false, st.count), t)
      else
        var numbered := f.number && !f.numberNonblank;
        Numbered(numbered, st.count) + Eol(f, false)
        + Out(f, State(AfterNewline(st), false, st.count + if numbered then 1 else 0), t)
  {
    OutCons(f, st, LF, t);
  }

  lemma TextLine(f: Flags, c: seq<Byte>, t: seq<Byte>, st: State)
    requires st.newlines >= 0 && !st.pendingCr && c != [] && LF !in c
    ensures var k := st.count + if f.number then 1 else 0;
      Out(f, st, c + ([LF] + t)) == LineThen(f, c, st.count, Out(f, State(0, false, k), t))
  {
    BeginLine(f, st, c + ([LF] + t));
    EndedLine(f, c, t, st.count + if f.number then 1 else 0);
  }

  lemma LineLengthIs(c: seq<Byte>, t: seq<Byte>)
    requires LF !in c
    ensures LineLength(c + ([LF] + t)) == |c|
  {
    if c != [] {
      assert (c + ([LF] + t))[1..] == c[1..] + ([LF] + t);
      LineLengthIs(c[1..], t);
    }
  }

  lemma LinesText(f: Flags, c: seq<Byte>, t: seq<Byte>, afterBlank: bool, count: nat)
    requires c != [] && LF !in c
    ensures CatLines(f, c + ([LF] + t), afterBlank, count) ==
      LineThen(f, c, count, CatLines(f, t, false, count + if f.number then 1 else 0))
  {
    var s := c + ([LF] + t);
    LineLengthIs(c, t);
    assert s[..|c|] == c && s[|c| + 1..] == t;
  }

  // The byte-by-byte output is the documented one.
  lemma {:induction false} LineByLine(f: Flags, s: seq<Byte>, st: State)
    requires st.newlines >= 0 && !st.pendingCr
    ensures Out(f, st, s) == CatLines(f, s, st.newlines >= 1, st.count)
    decreases |s|, 1
  {
    var n := LineLength(s);
    if s == [] {
    } else if n == |s| {
      OpenByLine(f, s, st);
    } else if n == 0 {
      BlankByLine(f, s, st);
    } else {
      var c, t := s[..n], s[n + 1..];
      assert s == c + ([LF] + t);
      LineByLine(f, t, State(0, false, st.count + if f.number then 1 else 0));
      TextLine(f, c, t, st);
      LinesText(f, c, t, st.newlines >= 1, st.count);
    }
  }

  lemma OpenByLine(f: Flags, s: seq<Byte>, st: State)
    requires st.newlines >= 0 && !st.pendingCr && s != [] && LineLength(s) == |s|
    ensures Out(f, st, s) == CatLines(f, s, st.newlines >= 1, st.count)
  {
    assert s[..|s|] == s;
    BeginLine(f, st, s);
    OpenLine(f, s, st.count + if f.number then 1 else 0);
  }

  lemma {:induction false} BlankByLine(f: Flags, s: seq<Byte>, st: State)
    requires st.newlines >= 0 && !st.pendingCr && s != [] && s[0] == LF
    ensures Out(f, st, s) == CatLines(f, s, st.newlines >= 1, st.count)
    decreases |s|, 0
  {
    assert s == [LF] + s[1..] && LineLength(s) == 0;
    BlankLine(f, s[1..], st);
    if st.newlines >= 1 && f.squeezeBlank {
      LineByLine(f, s[1..], State(2, false, st.count));
    } else {
      var numbered := f.number && !f.numberNonblank;
      LineByLine(f, s[1..], State(AfterNewline(st), false, st.count + if numbered then 1 else 0));
    }
  }

  // ---- Runs of blank lines ----

  function Newlines(k: nat): seq<Byte> { if k == 0 then [] else [LF] + Newlines(k - 1) }

  // With -s a run of blank lines comes out as one, and without it as it is, if no numbers
  // are asked for.
  lemma {:induction false} BlankRun(f: Flags, k: nat, rest: seq<Byte>, count: nat)
    requires !f.number && k > 0 && (rest != [] ==> rest[0] != LF)
    ensures CatLines(f, Newlines(k) + rest, false, count) ==
      TimesThen(Eol(f, false), if f.squeezeBlank then 1 else k, CatLines(f, rest, true, count))
  {
    var more := Newlines(k - 1) + rest;
    assert Newlines(k) + rest == [LF] + more;
    BlankFirst(f, more, false, count);
    if f.squeezeBlank {
      BlanksDropped(f, k - 1, rest, count);
    } else {
      BlanksKept(f, k - 1, rest, count);
    }
  }

  // k times s and then the rest.
  function TimesThen(s: seq<Byte>, k: nat, rest: seq<Byte>): seq<Byte> {
    if k == 0 then rest else s + TimesThen(s, k - 1, rest)
  }

  lemma BlankFirst(f: Flags, more: seq<Byte>, afterBlank: bool, count: nat)
    requires !f.number
    ensures CatLines(f, [LF] + more, afterBlank, count) ==
      if afterBlank && f.squeezeBlank then CatLines(f, more, true, count)
      else Eol(f, false) + CatLines(f, more, true, count)
  {
    var s := [LF] + more;
    assert LineLength(s) == 0 && s[1..] == more && s[..0] == [];
    assert [] + Eol(f, false) == Eol(f, false);
  }

  lemma {:induction false} BlanksDropped(f: Flags, k: nat, rest: seq<Byte>, count: nat)
    requires !f.number && f.squeezeBlank
    ensures CatLines(f, Newlines(k) + rest, true, count) == CatLines(f, rest, true, count)
  {
    if k == 0 {
      assert Newlines(0) + rest == rest;
    } else {
      assert Newlines(k) + rest == [LF] + (Newlines(k - 1) + rest);
      BlankFirst(f, Newlines(k - 1) + rest, true, count);
      BlanksDropped(f, k - 1, rest, count);
    }
  }

  lemma {:induction false} BlanksKept(f: Flags, k: nat, rest: seq<Byte>, count: nat)
    requires !f.number && !f.squeezeBlank
    ensures CatLines(f, Newlines(k) + rest, true, count) == TimesThen(Eol(f, false), k, CatLines(f, rest, true, count))
  {
    if k == 0 {
      assert Newlines(0) + rest == rest;
    } else {
      assert Newlines(k) + rest == [LF] + (Newlines(k - 1) + rest);
      BlankFirst(f, Newlines(k - 1) + rest, true, count);
      BlanksKept(f, k - 1, rest, count);
    }
  }

  // ---- Documented outputs ----

  lemma BodyFirst(f: Flags, b: Byte, more: seq<Byte>, ended: bool)
    requires b != LF && LF !in more && (more == [] ==> !HeldBack(f, b))
    ensures Body(f, [b] + more, ended) == Shown(f, b) + Body(f, more, ended)
  {
    assert ([b] + more)[1..] == more;
  }

  // -A: tabs as ^I, delete as ^?, a carriage return at the end as ^M, bytes from 128 on
  // with M-, and $ at the end of the line.
  lemma ShowAll(f: Flags)
    requires f == Flags(true, true, false, false, true, false)
    ensures Body(f, [TAB] + ([127] + ([1] + ([200] + [CR]))), true) ==
      [94, 73] + ([94, 63] + ([94, 65] + ([77, 45, 72] + [94, 77])))
    ensures Eol(f, false) == [36, LF]
  {
    BodyFirst(f, CR, [], true);
    BodyFirst(f, 200, [CR], true);
    BodyFirst(f, 1, [200] + [CR], true);
    BodyFirst(f, 127, [1] + ([200] + [CR]), true);
    BodyFirst(f, TAB, [127] + ([1] + ([200] + [CR])), true);
    assert [CR] + [] == [CR];
  }

  // -E alone: the carriage return that ends a line as ^M, others as they are.
  lemma ShowEnds(f: Flags)
    requires f == Flags(false, false, false, false, true, false)
    ensures Body(f, [CR] + [CR], true) == [CR] + [94, 77] && Body(f, [CR] + [CR], false) == [CR] + [CR]
  {
    BodyFirst(f, CR, [CR], true);
    BodyFirst(f, CR, [CR], false);
  }
}
