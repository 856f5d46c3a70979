// kernel/shell.c: the line buffer, the history ring and the key loop of shell_task.
module Shell {
  import opened Sgr
  import opened LineEdit

  class LineEditor {
    const line: array<char>
    const history: array<string>
    var len: nat
    var pos: nat
    var histLen: nat
    var histPos: nat
    var histTmp: string
    var histHasTmp: bool
    // The bytes written to the terminal.
    var out: string
    // Every line entered, and what is recorded of them.
    ghost var entered: seq<string>
    ghost var entries: seq<string>

    ghost predicate Shape()
      reads this
    {
      line.Length == 128 && history.Length == 32 && pos <= len <= 127
    }

    ghost function State(): Ed
      reads this, line
      requires Shape()
    {
      Ed(Zip(line[..pos], line[pos..len]), entries, histPos, histTmp, histHasTmp)
    }

    // The ring holds the last 32 entries.
    ghost predicate Ring()
      reads this`histLen, this`entries, history
      requires history.Length == 32
    {
      && histLen == |entries|
      && forall k | 0 <= k < histLen && histLen <= k + 32 :: history[k % 32] == entries[k]
    }

    ghost predicate Valid()
      reads this, line, history
    {
      Shape() && Ok(State()) && Ring() && entries == Recorded(entered)
    }

    constructor ()
      ensures Valid() && State() == Ed(NOTHING, [], 0, "", false) && entered == [] && out == ""
      ensures fresh(line) && fresh(history)
    {
      line, history := new char[128], new string[32](_ => "");
      len, pos, histLen, histPos, histTmp, histHasTmp, out := 0, 0, 0, 0, "", false, "";
      entered, entries := [], [];
    }

    // ---- The buffer ----

    // Room for one character at the cursor.
    method Insert1(c: char)
      requires Shape() && len < 127
      modifies line, this`len, this`pos
      ensures Shape() && len == old(len) + 1 && pos == old(pos) + 1
      ensures line[..pos] == old(line[..pos]) + [c] && line[pos..len] == old(line[pos..len])
    {
      ShiftRight(1);
      ghost var tail := line[pos + 1..len + 1];
      line[pos] := c;
      assert line[pos + 1..len + 1] == tail;
      len, pos := len + 1, pos + 1;
      assert line[..pos] == line[..pos - 1] + [c];
    }

    // The characters from p to p + del go.
    method RemoveAt(p: nat, del: nat)
      requires Shape() && p + del <= len
      modifies line
      ensures line[..len - del] == old(line[..p] + line[p + del..len])
    {
      ghost var was := line[..];
      var i := p;
      while i < len - del
        invariant p <= i <= len - del
        invariant line[..i] == was[..p] + was[p + del..i + del] && line[i..] == was[i..]
      {
        assert line[i + del] == line[i..][del] == was[i + del];
        line[i] := line[i + del];
        i := i + 1;
        assert line[i..] == was[i..] by { assert was[i..] == was[i - 1..][1..]; }
      }
    }

    method Load(h: string)
      requires Shape() && |h| <= 127
      modifies line, this`len, this`pos
      ensures Shape() && len == pos && line[..pos] == h
    {
      PutAt(0, h);
      len, pos := |h|, |h|;
    }

    method PutAt(p: nat, t: string)
      requires p + |t| <= line.Length
      modifies line
      ensures line[..p + |t|] == old(line[..p]) + t && line[p + |t|..] == old(line[p + |t|..])
    {
      var i := 0;
      while i < |t|
        invariant i <= |t| && line[..p + i] == old(line[..p]) + t[..i]
        invariant line[p + |t|..] == old(line[p + |t|..])
      {
        line[p + i] := t[i];
        i := i + 1;
        assert line[..p + i] == line[..p + i - 1] + [t[i - 1]];
      }
    }

    // ---- The terminal ----

    method RefreshLine()
      requires Shape()
      modifies this`out
      ensures out == old(out) + Refresh(State().z)
    {
      assert line[..len] == line[..pos] + line[pos..len];
      out := out + ("\r" + CLEAR_RIGHT + Prompt() + line[..len] + CLEAR_RIGHT);
      MoveCursor(CURSOR_LEFT, len - pos);
      var a, b := "\r" + CLEAR_RIGHT + Prompt() + line[..len] + CLEAR_RIGHT, Times(CURSOR_LEFT, len - pos);
      assert old(out) + a + b == old(out) + (a + b);
    }

    method MoveCursor(seq_: string, n: nat)
      modifies this`out
      ensures out == old(out) + Times(seq_, n)
    {
      var i := 0;
      assert old(out) + "" == old(out);
      while i < n
        invariant i <= n && out == old(out) + Times(seq_, i)
      {
        TimesMore(old(out), seq_, i);
        out := out + seq_;
        i := i + 1;
      }
    }

    // ---- The keys ----

    // From state e and output o, key k was carried out.
    ghost predicate Did(e: Ed, k: Key, o: string)
      reads this, line, history
      requires KeyOk(k)
    {
      Valid() && State() == Press(e, k) && out == o + Printed(e, k)
    }

    // The line became what the key makes of it and is drawn again.
    method Redraw(ghost e: Ed, ghost k: Key)
      requires Shape() && Ring() && entries == Recorded(entered)
      requires KeyOk(k) && Ok(e) && Redraws(e, k) && State() == Press(e, k)
      requires k != GoLeft && k != GoRight && k != GoHome && k != GoEnd
      modifies this`out
      ensures Did(e, k, old(out))
    {
      PressOk(e, k);
      RefreshLine();
    }

    // The key only prints.
    method Say(ghost e: Ed, ghost k: Key, said: string)
      requires Shape() && Ring() && entries == Recorded(entered)
      requires KeyOk(k) && Ok(e) && State() == Press(e, k) && Printed(e, k) == said
      modifies this`out
      ensures Did(e, k, old(out))
    {
      PressOk(e, k);
      out := out + said;
    }

    // Lines 935-942.
    method OnType(c: char)
      requires Valid() && ' ' <= c <= '~'
      modifies line, this`len, this`pos, this`out
      ensures Did(old(State()), Type(c), old(out))
    {
      ghost var e := State();
      if len + 1 >= 128 {
        Say(e, Type(c), BEEP);
      } else {
        Insert1(c);
        Redraw(e, Type(c));
      }
    }

    // The del characters before the cursor go.
    method RemoveBefore(del: nat)
      requires Shape() && del <= pos
      modifies line, this`len, this`pos
      ensures Shape() && pos == old(pos) - del && len == old(len) - del
      ensures line[..pos] == old(line[..pos])[..pos] && line[pos..len] == old(line[pos..len])
    {
      ghost var kept := line[..pos - del] + line[pos..len];
      RemoveAt(pos - del, del);
      pos, len := pos - del, len - del;
      Cut(kept);
    }

    // Lines 834-841.
    method OnRub()
      requires Valid()
      modifies line, this`len, this`pos, this`out
      ensures Did(old(State()), Rub, old(out))
    {
      ghost var e := State();
      if pos > 0 {
        RemoveBefore(1);
        assert State().z == Backspace(e.z);
        Redraw(e, Rub);
      } else {
        Say(e, Rub, BEEP);
      }
    }

    // The text is in place on both sides of the cursor.
    lemma Cut(t: string)
      requires Shape() && line[..len] == t
      ensures line[..pos] == t[..pos] && line[pos..len] == t[pos..]
    {
      assert line[..len][pos..] == line[pos..len];
    }

    // Lines 767-776.
    method OnDel()
      requires Valid()
      modifies line, this`len, this`out
      ensures Did(old(State()), Del, old(out))
    {
      ghost var e := State();
      if pos < len {
        RemoveAt(pos, 1);
        len := len - 1;
        Cut(e.z.before + e.z.after[1..]);
        Redraw(e, Del);
      } else {
        Say(e, Del, BEEP);
      }
    }

    // Lines 753-760.
    method OnLeft()
      requires Valid()
      modifies this`pos, this`out
      ensures Did(old(State()), GoLeft, old(out))
    {
      ghost var e := State();
      if pos > 0 {
        pos := pos - 1;
        assert State().z == Left(e.z);
        Say(e, GoLeft, CURSOR_LEFT);
      } else {
        Say(e, GoLeft, BEEP);
      }
    }

    method OnRight()
      requires Valid()
      modifies this`pos, this`out
      ensures Did(old(State()), GoRight, old(out))
    {
      ghost var e := State();
      if pos < len {
        pos := pos + 1;
        assert State().z == Right(e.z);
        Say(e, GoRight, CURSOR_RIGHT);
      } else {
        Say(e, GoRight, BEEP);
      }
    }

    // Lines 761-766 and 784-791.
    method OnHome()
      requires Valid()
      modifies this`pos, this`out
      ensures Did(old(State()), GoHome, old(out))
    {
      PressOk(State(), GoHome);
      StepsLeft();
    }

    method StepsLeft()
      requires Shape()
      modifies this`pos, this`out
      ensures Shape() && State().z == Home(old(State().z)) && out == old(out) + Times(CURSOR_LEFT, old(pos))
    {
      ghost var n := 0;
      assert line[..len] == line[..pos] + line[pos..len];
      assert out + "" == out;
      while pos > 0
        invariant pos + n == old(pos) && out == old(out) + Times(CURSOR_LEFT, n)
        decreases pos
      {
        TimesMore(old(out), CURSOR_LEFT, n);
        out := out + CURSOR_LEFT;
        pos, n := pos - 1, n + 1;
      }
      Cut(line[..len]);
    }

    method OnEnd()
      requires Valid()
      modifies this`pos, this`out
      ensures Did(old(State()), GoEnd, old(out))
    {
      PressOk(State(), GoEnd);
      StepsRight();
    }

    method StepsRight()
      requires Shape()
      modifies this`pos, this`out
      ensures Shape() && State().z == End(old(State().z)) && out == old(out) + Times(CURSOR_RIGHT, len - old(pos))
    {
      ghost var n := 0;
      assert line[..len] == line[..pos] + line[pos..len];
      assert out + "" == out;
      while pos < len
        invariant pos == old(pos) + n <= len && out == old(out) + Times(CURSOR_RIGHT, n)
      {
        TimesMore(old(out), CURSOR_RIGHT, n);
        out := out + CURSOR_RIGHT;
        pos, n := pos + 1, n + 1;
      }
      Cut(line[..len]);
    }

    // Lines 792-795.
    method OnCutEnd()
      requires Valid()
      modifies this`len, this`out
      ensures Did(old(State()), CutEnd, old(out))
    {
      ghost var e := State();
      assert out + "" == out;
      if pos < len {
        len := pos;
        Redraw(e, CutEnd);
      } else {
        assert e.z == KillEnd(e.z);
      }
    }

    // Lines 796-803.
    method OnCutStart()
      requires Valid()
      modifies line, this`len, this`pos, this`out
      ensures Did(old(State()), CutStart, old(out))
    {
      ghost var e := State();
      assert out + "" == out;
      if pos > 0 {
        RemoveBefore(pos);
        assert State().z == KillStart(e.z);
        Redraw(e, CutStart);
      } else if len > 0 {
        len, pos := 0, 0;
        Redraw(e, CutStart);
      }
    }

    // Lines 804-813.
    method OnCutWord()
      requires Valid()
      modifies line, this`len, this`pos, this`out
      ensures Did(old(State()), CutWord, old(out))
    {
      ghost var e := State();
      if pos == 0 {
        Say(e, CutWord, BEEP);
      } else {
        var p := BackOverWord();
        RemoveBefore(pos - p);
        assert State().z == EraseWord(e.z);
        Redraw(e, CutWord);
      }
    }

    method BackOverWord() returns (p: nat)
      requires Shape()
      ensures p <= pos && line[..p] == DropWord(DropSpaces(line[..pos]))
    {
      p := pos;
      while p > 0 && line[p - 1] == ' '
        invariant p <= pos && DropSpaces(line[..pos]) == DropSpaces(line[..p])
      {
        assert DropLast(line[..p]) == line[..p - 1];
        p := p - 1;
      }
      ghost var mid := line[..p];
      while p > 0 && line[p - 1] != ' '
        invariant p <= pos && DropWord(mid) == DropWord(line[..p])
      {
        assert DropLast(line[..p]) == line[..p - 1];
        p := p - 1;
      }
    }

    // Lines 720-734.
    method OnOlder()
      requires Valid()
      modifies line, this`len, this`pos, this`out, this`histPos, this`histTmp, this`histHasTmp
      ensures Did(old(State()), Older, old(out))
    {
      ghost var e := State();
      if histLen == 0 {
        Say(e, Older, BEEP);
      } else {
        SaveTyped();
        StepBack(e);
      }
    }

    // Going back from e, whose line has been put by.
    method StepBack(ghost e: Ed)
      requires Valid() && Ok(e) && e.hist != [] && State() == PutBy(e)
      modifies line, this`len, this`pos, this`out, this`histPos
      ensures Did(e, Older, old(out))
    {
      if histPos > 0 && histPos + 32 > histLen {
        LoadEntry(histPos - 1);
        Redraw(e, Older);
      } else {
        Say(e, Older, BEEP);
      }
    }

    // Entry k of the history becomes the line.
    method LoadEntry(k: nat)
      requires Shape() && Ring() && k < histLen <= k + 32 && |entries[k]| <= 127
      modifies line, this`len, this`pos, this`histPos
      ensures Shape() && State() == old(State()).(z := Zip(entries[k], ""), at := k)
    {
      histPos := k;
      assert history[k % 32] == entries[k];
      Load(history[k % 32]);
    }

    // The line being typed is put by when browsing starts.
    method SaveTyped()
      requires Valid() && histLen > 0
      modifies this`histTmp, this`histHasTmp
      ensures Valid()
      ensures State() == PutBy(old(State()))
    {
      if histPos == histLen {
        TypedText(State().z);
        assert line[..len] == line[..pos] + line[pos..len];
        histTmp, histHasTmp := line[..len], true;
      }
    }

    // Lines 735-752.
    method OnNewer()
      requires Valid()
      modifies line, this`len, this`pos, this`out, this`histPos
      ensures Did(old(State()), Newer, old(out))
    {
      ghost var e := State();
      if histPos < histLen {
        LoadNewer();
        Redraw(e, Newer);
      } else {
        Say(e, Newer, BEEP);
      }
    }

    method LoadNewer()
      requires Valid() && histPos < histLen
      modifies line, this`len, this`pos, this`histPos
      ensures Shape() && Ring() && State() == Down(old(State()))
    {
      histPos := histPos + 1;
      if histPos == histLen {
        Load(if histHasTmp then histTmp else "");
      } else {
        LoadEntry(histPos);
      }
    }

    // ---- Completion ----

    // Lines 878-880: a text goes in at the cursor.
    method InsertText(t: string)
      requires Shape() && len + |t| <= 127
      modifies line, this`len, this`pos
      ensures Shape() && len == old(len) + |t| && pos == old(pos) + |t|
      ensures line[..pos] == old(line[..pos]) + t && line[pos..len] == old(line[pos..len])
    {
      ShiftRight(|t|);
      ghost var p := pos + |t|;
      ghost var tail := line[p..len + |t|];
      assert line[p..][..len - pos] == tail;
      PutAt(pos, t);
      assert line[p..][..len - pos] == line[p..len + |t|];
      len, pos := len + |t|, pos + |t|;
    }

    method ShiftRight(need: nat)
      requires Shape() && len + need <= 127
      modifies line
      ensures line[..pos] == old(line[..pos]) && line[pos + need..len + need] == old(line[pos..len])
    {
      ghost var was := line[..];
      var i := len;
      while i > pos
        invariant pos <= i <= len && Shifted(was, line[..], i, need, len)
      {
        i := i - 1;
        ShiftedOne(was, line[..], i, need, len);
        line[i + need] := line[i];
      }
      assert line[..pos] == line[..][..pos] && line[pos + need..len + need] == line[..][pos + need..len + need];
    }

    // Lines 873-919 for the matches found: they all start with the plen characters
    // before the cursor.
    method OnTab(matches: seq<string>, plen: nat)
      requires Valid() && KeyOk(Tab(matches, plen))
      modifies line, this`len, this`pos, this`out
      ensures Did(old(State()), Tab(matches, plen), old(out))
    {
      if |matches| == 0 {
        Say(State(), Tab(matches, plen), BEEP);
      } else if |matches| == 1 {
        CompleteOne(matches, plen);
      } else {
        CompleteCommon(matches, plen);
      }
    }

    method CompleteOne(matches: seq<string>, plen: nat)
      requires Valid() && KeyOk(Tab(matches, plen)) && |matches| == 1
      modifies line, this`len, this`pos, this`out
      ensures Did(old(State()), Tab(matches, plen), old(out))
    {
      ghost var e := State();
      if len + (|matches[0]| - plen) + 1 >= 128 {
        Say(e, Tab(matches, plen), BEEP);
      } else {
        FillIn(matches, plen);
        Redraw(e, Tab(matches, plen));
      }
    }

    method FillIn(matches: seq<string>, plen: nat)
      requires Shape() && KeyOk(Tab(matches, plen)) && |matches| == 1
      requires len + (|matches[0]| - plen) + 1 < 128
      modifies line, this`len, this`pos
      ensures Shape() && State().z == Complete(old(State().z), matches, plen)
    {
      InsertText(matches[0][plen..]);
      if pos >= len || line[pos] != ' ' {
        Insert1(' ');
      }
    }

    method CompleteCommon(matches: seq<string>, plen: nat)
      requires Valid() && KeyOk(Tab(matches, plen)) && |matches| > 1
      modifies line, this`len, this`pos, this`out
      ensures Did(old(State()), Tab(matches, plen), old(out))
    {
      ghost var e := State();
      var grown := FillCommon(matches, plen);
      if grown {
        Redraw(e, Tab(matches, plen));
      } else {
        Say(e, Tab(matches, plen), BEEP);
      }
    }

    method FillCommon(matches: seq<string>, plen: nat) returns (grown: bool)
      requires Shape() && KeyOk(Tab(matches, plen)) && |matches| > 1
      modifies line, this`len, this`pos
      ensures Shape() && State().z == Complete(old(State().z), matches, plen)
      ensures grown == (State().z != old(State().z))
    {
      ghost var was := line[..pos];
      grown := TypeCommon(matches, plen);
      assert !grown ==> was + "" == was;
    }

    method TypeCommon(matches: seq<string>, plen: nat) returns (grown: bool)
      requires Shape() && matches != []
      modifies line, this`len, this`pos
      ensures Shape() && line[pos..len] == old(line[pos..len])
      ensures var t := Take(Common(matches, plen), 127 - old(len));
        line[..pos] == old(line[..pos]) + t && grown == (t != "")
    {
      ghost var was, n, whole, typed := line[..pos], len, Common(matches, plen), "";
      var common := plen;
      var all := AllAgree(matches, common);
      while all && len + 1 < 128
        invariant Shape() && line[pos..len] == old(line[pos..len])
        invariant plen <= common && all == Extend(matches, common)
        invariant common - plen == len - n == |typed|
        invariant TypedSo(was, typed, line[..pos], whole, Common(matches, common))
        decreases 127 - len
      {
        ghost var before := line[..pos];
        var c := matches[0][common];
        Insert1(c);
        TypedOne(was, typed, before, whole, c, Common(matches, common + 1));
        typed := typed + [c];
        common := common + 1;
        all := AllAgree(matches, common);
      }
      TakeIs(typed, Common(matches, common), 127 - n);
      grown := common > plen;
    }

    method AllAgree(matches: seq<string>, at: nat) returns (all: bool)
      requires matches != []
      ensures all == Extend(matches, at)
    {
      all := true;
      var i := 0;
      while i < |matches| && all
        invariant i <= |matches|
        invariant all && i > 0 ==> at < |matches[0]|
        invariant all ==> forall k | 0 <= k < i :: at < |matches[k]| && matches[k][at] == matches[0][at]
        invariant !all ==> !Extend(matches, at)
      {
        if |matches[i]| <= at || matches[i][at] != matches[0][at] { all := false; }
        i := i + 1;
      }
    }

    // ---- The key loop ----

    // Lines 709-943: one key.
    method OnKey(k: Key)
      requires Valid() && KeyOk(k)
      modifies line, this`len, this`pos, this`out, this`histPos, this`histTmp, this`histHasTmp
      ensures Did(old(State()), k, old(out))
    {
      match k
      case Type(c) => OnType(c);
      case GoLeft => OnLeft();
      case GoRight => OnRight();
      case GoHome => OnHome();
      case GoEnd => OnEnd();
      case Rub => OnRub();
      case Del => OnDel();
      case CutEnd => OnCutEnd();
      case CutStart => OnCutStart();
      case CutWord => OnCutWord();
      case Older => OnOlder();
      case Newer => OnNewer();
      case Tab(matches, plen) => OnTab(matches, plen);
    }

    // Keys one after the other, between two Enters.
    method OnKeys(ks: seq<Key>)
      requires Valid() && KeysOk(ks)
      modifies line, this`len, this`pos, this`out, this`histPos, this`histTmp, this`histHasTmp
      ensures Valid() && State() == PressAll(old(State()), ks) && out == old(out) + PrintedAll(old(State()), ks)
    {
      ghost var e, o := State(), out;
      var i := 0;
      assert ks[0..] == ks;
      while i < |ks|
        invariant Valid() && Underway(e, ks, i, o, State(), out)
      {
        NextKey(e, ks, i, o, State(), out);
        OnKey(ks[i]);
        i := i + 1;
      }
      assert out + "" == out;
    }

    // Lines 48-57.
    method HistoryAdd(s: string)
      requires history.Length == 32 && Ring()
      modifies history, this`histLen, this`histPos, this`histHasTmp, this`entries
      ensures Ring() && entries == Added(old(entries), s)
      ensures histHasTmp == (old(histHasTmp) && entries == old(entries))
      ensures histPos == if entries == old(entries) then old(histPos) else histLen
    {
      if histLen > 0 { assert history[(histLen - 1) % 32] == entries[histLen - 1]; }
      if s != "" && !(histLen > 0 && history[(histLen - 1) % 32] == s) {
        Append(s);
        histPos := histLen;
        histHasTmp := false;
        assert entries[..histLen - 1] == old(entries);
      }
    }

    method Append(s: string)
      requires history.Length == 32 && Ring()
      modifies history, this`histLen, this`entries
      ensures Ring() && entries == old(entries) + [s]
    {
      ghost var n := histLen;
      history[histLen % 32] := s;
      entries := entries + [s];
      histLen := histLen + 1;
      forall k | 0 <= k < histLen && histLen <= k + 32 ensures history[k % 32] == entries[k] {
        if k < n {
          OtherSlot(k, n);
          assert history[k % 32] == old(history[k % 32]);
        }
      }
    }

    lemma OtherSlot(k: nat, n: nat)
      requires k < n < k + 32
      ensures k % 32 != n % 32
    {
    }

    // trim, on a copy of the line.
    method Trim() returns (s: string)
      requires Shape()
      ensures s == Trimmed(line[..len])
    {
      var p := SkipSpaces();
      var l := StripSpaces(p);
      s := line[p..l];
    }

    method SkipSpaces() returns (p: nat)
      requires Shape()
      ensures p <= len && DropFirstSpaces(line[..len]) == line[p..len]
    {
      p := 0;
      assert line[0..len] == line[..len];
      while p < len && line[p] == ' '
        invariant p <= len && DropFirstSpaces(line[..len]) == DropFirstSpaces(line[p..len])
      {
        assert line[p..len][1..] == line[p + 1..len];
        p := p + 1;
      }
    }

    method StripSpaces(p: nat) returns (l: nat)
      requires Shape() && p <= len
      ensures p <= l <= len && DropSpaces(line[p..len]) == line[p..l]
    {
      l := len;
      while l > p && line[l - 1] == ' '
        invariant p <= l <= len && DropSpaces(line[p..len]) == DropSpaces(line[p..l])
      {
        assert DropLast(line[p..l]) == line[p..l - 1];
        l := l - 1;
      }
    }

    // Lines 921-933; the command prints what it prints.
    method OnEnter(printed: string)
      requires Valid()
      modifies this, history
      ensures Valid() && State() == Enter(old(State())) && entered == old(entered) + [old(Text(State().z))]
      ensures out == old(out) + "\n" + printed + Prompt()
    {
      ghost var e := State();
      assert line[..len] == Text(e.z);
      var trimmed := Trim();
      EnterOk(e);
      Record(Text(e.z), trimmed);
      FreshLine("\n" + printed);
      assert out == old(out) + "\n" + printed + Prompt() by {
        assert old(out) + ("\n" + printed) == old(out) + "\n" + printed;
      }
      Entered(e);
    }

    lemma Entered(e: Ed)
      requires Shape() && pos == len == 0 && entries == Added(e.hist, Trimmed(Text(e.z))) && histPos == |entries|
      requires histTmp == e.saved && histHasTmp == (e.hasSaved && entries == e.hist)
      ensures State() == Enter(e)
    {
      assert line[..0] == "" && line[0..0] == "";
    }

    method FreshLine(said: string)
      requires Shape()
      modifies this`len, this`pos, this`out
      ensures Shape() && len == pos == 0 && out == old(out) + said + Prompt()
    {
      out := out + said;
      len, pos := 0, 0;
      out := out + Prompt();
    }

    method Record(ghost text: string, trimmed: string)
      requires history.Length == 32 && Ring() && entries == Recorded(entered) && trimmed == Trimmed(text)
      modifies history, this`histLen, this`histPos, this`histHasTmp, this`entries, this`entered
      ensures Ring() && entries == Added(old(entries), trimmed) && histPos == histLen
      ensures histHasTmp == (old(histHasTmp) && entries == old(entries))
      ensures entered == old(entered) + [text] && entries == Recorded(entered)
    {
      entered := entered + [text];
      RecordedMore(entered, text);
      assert entered[..|entered| - 1] == old(entered);
      HistoryAdd(trimmed);
      histPos := histLen;
    }

    // Lines 819-833, apart from the processes it stops and what it says about them.
    method OnInterrupt(said: string)
      requires Valid()
      modifies this`len, this`pos, this`histPos, this`out
      ensures Valid() && State() == Interrupt(old(State())) && out == old(out) + said + Prompt()
    {
      ghost var e := State();
      UpOk(e);
      FreshLine(said);
      histPos := histLen;
      assert State() == Interrupt(e);
    }
  }

  // From i to n, was is found need places further on.
  ghost predicate Shifted(was: string, now: string, i: nat, need: nat, n: nat) {
    i <= n && n + need <= |was| == |now| && now[..i] == was[..i] && now[i + need..n + need] == was[i..n]
  }

  lemma ShiftedOne(was: string, now: string, i: nat, need: nat, n: nat)
    requires Shifted(was, now, i + 1, need, n)
    ensures Shifted(was, now[i + need := now[i]], i, need, n)
  {
    var next := now[i + need := now[i]];
    assert now[i] == now[..i + 1][i] == was[i];
    assert next[..i] == now[..i + 1][..i] && was[..i] == was[..i + 1][..i];
    assert next[i + need..n + need] == [was[i]] + now[i + 1 + need..n + need];
  }

  // Of whole, typed is in the line after was, and rest is left.
  ghost predicate TypedSo(was: string, typed: string, now: string, whole: string, rest: string) {
    now == was + typed && whole == typed + rest
  }

  lemma TypedOne(was: string, typed: string, now: string, whole: string, c: char, rest: string)
    requires TypedSo(was, typed, now, whole, [c] + rest)
    ensures TypedSo(was, typed + [c], now + [c], whole, rest)
  {
  }

  lemma TakeIs(typed: string, rest: string, m: nat)
    requires |typed| <= m && (rest == "" || |typed| == m)
    ensures Take(typed + rest, m) == typed
  {
  }
}
