// kernel/editor.c: the edits on the buffer, and loading and saving through the file table.
module Editor {
  import opened Words
  import opened HeapBlocks
  import opened Heap
  import opened FileTable
  import opened FileStore
  import opened Vfs

  const NEWLINE: Byte := 10

  datatype Doc = Doc(text: seq<Byte>, cur: nat)

  ghost predicate DocOk(d: Doc) { d.cur <= |d.text| <= 8191 }

  function Insert(d: Doc, c: Byte): Doc
    requires d.cur <= |d.text|
  {
    if |d.text| < 8190 then Doc(d.text[..d.cur] + [c] + d.text[d.cur..], d.cur + 1) else d
  }

  function Backspace(d: Doc): Doc
    requires d.cur <= |d.text|
  {
    if d.cur > 0 then Doc(d.text[..d.cur - 1] + d.text[d.cur..], d.cur - 1) else d
  }

  // The start of the line that position i is in.
  function LineStart(text: seq<Byte>, i: nat): (k: nat)
    requires i <= |text|
    ensures k <= i && (k > 0 ==> text[k - 1] == NEWLINE) && NEWLINE !in text[k..i]
  {
    if i == 0 || text[i - 1] == NEWLINE then i else LineStart(text, i - 1)
  }

  // The end of that line, past its newline if it has one.
  function LineEnd(text: seq<Byte>, i: nat): (k: nat)
    requires i <= |text|
    ensures i <= k <= |text|
    ensures if k > i && text[k - 1] == NEWLINE then NEWLINE !in text[i..k - 1] else k == |text| && NEWLINE !in text[i..]
    decreases |text| - i
  {
    if i == |text| then i else if text[i] == NEWLINE then i + 1 else LineEnd(text, i + 1)
  }

  function CutLine(d: Doc): Doc
    requires d.cur <= |d.text|
  {
    var ls, le := LineStart(d.text, d.cur), LineEnd(d.text, d.cur);
    var t := d.text[..ls] + d.text[le..];
    Doc(t, if d.cur > |t| then |t| else d.cur)
  }

  // Lines with their newlines; the last may have none.
  function Lines(text: seq<Byte>): seq<seq<Byte>>
    decreases |text|
  {
    if text == [] then [] else
    var k := LineEnd(text, 0);
    if k == 0 then [] else [text[..k]] + Lines(text[k..])
  }

  predicate Ended(text: seq<Byte>) { text == [] || text[|text| - 1] == NEWLINE }

  lemma {:induction false} LineEndIn(a: seq<Byte>, b: seq<Byte>, i: nat)
    requires i < |a| && Ended(a)
    ensures LineEnd(a + b, i) == LineEnd(a, i)
    decreases |a| - i
  {
    if a[i] != NEWLINE {
      LineEndIn(a, b, i + 1);
    }
  }

  // Text that ends in a newline keeps its lines whatever follows.
  lemma {:induction false} LinesSplit(a: seq<Byte>, b: seq<Byte>)
    requires Ended(a)
    ensures Lines(a + b) == Lines(a) + Lines(b)
    decreases |a|
  {
    if a == [] {
      assert a + b == b;
    } else {
      var k := LineEnd(a, 0);
      LineEndIn(a, b, 0);
      LinesSplit(a[k..], b);
      CutAt(a, b, k);
    }
  }

  lemma CutAt(a: seq<Byte>, b: seq<Byte>, k: nat)
    requires k <= |a|
    ensures (a + b)[..k] == a[..k] && (a + b)[k..] == a[k..] + b
  {
  }

  lemma {:induction false} OneLine(l: seq<Byte>, i: nat)
    requires i < |l| && NEWLINE !in l[i..|l| - 1]
    ensures LineEnd(l, i) == |l|
    decreases |l| - i
  {
    if i < |l| - 1 {
      assert l[i] == l[i..|l| - 1][0] && l[i + 1..|l| - 1] == l[i..|l| - 1][1..];
      OneLine(l, i + 1);
    }
  }

  lemma LinesOfOne(l: seq<Byte>)
    requires l != [] && NEWLINE !in l[..|l| - 1]
    ensures Lines(l) == [l]
  {
    assert l[0..|l| - 1] == l[..|l| - 1];
    OneLine(l, 0);
    assert l[..|l|] == l && Lines(l[|l|..]) == [];
  }

  function AsLine(l: seq<Byte>): seq<seq<Byte>> { if l == [] then [] else [l] }

  // A line before the rest.
  lemma LinesFirst(l: seq<Byte>, b: seq<Byte>)
    requires (b == [] || Ended(l)) && (l == [] || NEWLINE !in l[..|l| - 1])
    ensures Lines(l + b) == AsLine(l) + Lines(b)
  {
    if l != [] { LinesOfOne(l); }
    if b == [] { assert l + b == l; } else { LinesSplit(l, b); }
  }

  // ^K takes the cursor's line out of the list of lines, and touches no other.
  lemma CutTakesOneLine(d: Doc)
    requires DocOk(d)
    ensures var ls, le := LineStart(d.text, d.cur), LineEnd(d.text, d.cur);
      && Lines(d.text) == Lines(d.text[..ls]) + (AsLine(d.text[ls..le]) + Lines(d.text[le..]))
      && Lines(CutLine(d).text) == Lines(d.text[..ls]) + Lines(d.text[le..])
  {
    var ls, le := LineStart(d.text, d.cur), LineEnd(d.text, d.cur);
    CutLineWhole(d, ls, le);
    CutParts(d.text, ls, le);
    LinesSplit(d.text[..ls], d.text[le..]);
  }

  lemma LinesAround(a: seq<Byte>, l: seq<Byte>, b: seq<Byte>)
    requires Ended(a) && (b == [] || Ended(l)) && (l == [] || NEWLINE !in l[..|l| - 1])
    ensures Lines(a + (l + b)) == Lines(a) + (AsLine(l) + Lines(b))
  {
    LinesFirst(l, b);
    LinesSplit(a, l + b);
  }

  lemma ThreeParts(t: seq<Byte>, ls: nat, le: nat)
    requires ls <= le <= |t|
    ensures t == t[..ls] + (t[ls..le] + t[le..])
    ensures ls < le ==> t[ls..le][..le - ls - 1] == t[ls..le - 1]
  {
  }

  lemma CutParts(t: seq<Byte>, ls: nat, le: nat)
    requires ls <= le <= |t| && Ended(t[..ls]) && (ls < le ==> NEWLINE !in t[ls..le - 1])
    requires le == |t| || Ended(t[ls..le])
    ensures Lines(t) == Lines(t[..ls]) + (AsLine(t[ls..le]) + Lines(t[le..]))
  {
    ThreeParts(t, ls, le);
    LinesAround(t[..ls], t[ls..le], t[le..]);
  }

  lemma Pointwise(t: seq<Byte>, a: nat, b: nat)
    requires a <= b <= |t|
    ensures NEWLINE !in t[a..b] <==> forall k | a <= k < b :: t[k] != NEWLINE
  {
    if NEWLINE !in t[a..b] {
      forall k | a <= k < b ensures t[k] != NEWLINE { assert t[k] == t[a..b][k - a]; }
    }
  }

  // The line cut holds no newline but its last character.
  lemma CutLineWhole(d: Doc, ls: nat, le: nat)
    requires DocOk(d) && ls == LineStart(d.text, d.cur) && le == LineEnd(d.text, d.cur)
    ensures ls < le ==> NEWLINE !in d.text[ls..le - 1]
    ensures le == |d.text| || Ended(d.text[ls..le])
  {
    var t, i := d.text, d.cur;
    var ended := le > i && t[le - 1] == NEWLINE;
    if ended {
      NoneIn(t, ls, i, le - 1);
    } else {
      assert t[i..] == t[i..le];
      NoneIn(t, ls, i, le);
      if ls < le {
        Pointwise(t, ls, le);
        Pointwise(t, ls, le - 1);
      }
    }
  }

  lemma NoneIn(t: seq<Byte>, a: nat, b: nat, c: nat)
    requires a <= b <= c <= |t| && NEWLINE !in t[a..b] && NEWLINE !in t[b..c]
    ensures NEWLINE !in t[a..c]
  {
    assert t[a..c] == t[a..b] + t[b..c];
  }

  // The cursor stays where it was, so it is at the start of the line that moved up only
  // if it was at the start of the line cut, or if that was the last line.
  lemma CutCursor(d: Doc)
    requires DocOk(d)
    ensures var ls := LineStart(d.text, d.cur);
      CutLine(d).cur == ls <==> d.cur == ls || LineEnd(d.text, d.cur) == |d.text|
  {
  }

  // ---- The keys ----

  datatype Key = Char(c: Byte) | Rub | Cut | GoLeft | GoRight

  function Press(d: Doc, k: Key): Doc
    requires d.cur <= |d.text|
  {
    match k
    case Char(c) => Insert(d, c)
    case Rub => Backspace(d)
    case Cut => CutLine(d)
    case GoLeft => if d.cur > 0 then d.(cur := d.cur - 1) else d
    case GoRight => if d.cur < |d.text| then d.(cur := d.cur + 1) else d
  }

  lemma PressOk(d: Doc, k: Key)
    requires DocOk(d)
    ensures DocOk(Press(d, k))
  {
  }

  // A character typed and rubbed out leaves the text as it was.
  lemma TypeThenRub(d: Doc, c: Byte)
    requires DocOk(d) && |d.text| < 8190
    ensures Backspace(Insert(d, c)) == d
  {
    var e := Insert(d, c);
    assert e.text[..d.cur] == d.text[..d.cur];
    assert e.text[d.cur + 1..] == d.text[d.cur..];
  }

  ghost function PressAll(d: Doc, ks: seq<Key>): Doc
    requires DocOk(d)
    decreases |ks|
  {
    if ks == [] then d
    else
      PressOk(d, ks[0]);
      PressAll(Press(d, ks[0]), ks[1..])
  }

  function TypeKeys(t: seq<Byte>): seq<Key> { seq(|t|, i requires 0 <= i < |t| => Char(t[i])) }

  // Text typed byte by byte goes in at the cursor, as long as there is room.
  lemma {:induction false} TypedIn(d: Doc, t: seq<Byte>)
    requires DocOk(d) && |d.text| + |t| <= 8190
    ensures PressAll(d, TypeKeys(t)) == Doc(d.text[..d.cur] + t + d.text[d.cur..], d.cur + |t|)
    decreases |t|
  {
    if t == [] {
      assert d.text[..d.cur] + t + d.text[d.cur..] == d.text;
    } else {
      var e := Insert(d, t[0]);
      assert TypeKeys(t)[0] == Char(t[0]) && TypeKeys(t)[1..] == TypeKeys(t[1..]);
      TypedIn(e, t[1..]);
      TypedMore(d.text[..d.cur], t, d.text[d.cur..]);
    }
  }

  lemma TypedMore(a: seq<Byte>, t: seq<Byte>, b: seq<Byte>)
    requires t != []
    ensures var e := a + [t[0]] + b; e[..|a| + 1] + t[1..] + e[|a| + 1..] == a + t + b
  {
    var e := a + [t[0]] + b;
    assert e[..|a| + 1] == a + [t[0]] && e[|a| + 1..] == b;
    assert [t[0]] + t[1..] == t;
  }

  // After a left the next byte goes before the one just typed; a right then passes it.
  lemma TypedBefore(d: Doc, a: Byte, b: Byte)
    requires DocOk(d) && |d.text| + 2 <= 8190
    ensures PressAll(d, [Char(a), GoLeft, Char(b), GoRight]) == PressAll(d, TypeKeys([b, a]))
  {
    TypedIn(d, [b, a]);
    var e := Doc(d.text[..d.cur] + [a] + d.text[d.cur..], d.cur);
    var f := Doc(d.text[..d.cur] + [b, a] + d.text[d.cur..], d.cur + 1);
    assert Press(Press(d, Char(a)), GoLeft) == e;
    assert e.text[..d.cur] == d.text[..d.cur] && e.text[d.cur..] == [a] + d.text[d.cur..];
    assert Press(e, Char(b)).text == f.text;
    FourKeys(d, Char(a), GoLeft, Char(b), GoRight);
  }

  lemma FourKeys(d: Doc, j: Key, k: Key, l: Key, n: Key)
    requires DocOk(d)
    ensures DocOk(Press(d, j)) && DocOk(Press(Press(d, j), k)) && DocOk(Press(Press(Press(d, j), k), l))
    ensures PressAll(d, [j, k, l, n]) == Press(Press(Press(Press(d, j), k), l), n)
  {
    OneKey(d, j, [k, l, n]);
    var d1 := Press(d, j);
    OneKey(d1, k, [l, n]);
    var d2 := Press(d1, k);
    OneKey(d2, l, [n]);
    OneKey(Press(d2, l), n, []);
    assert [j] + [k, l, n] == [j, k, l, n] && [k] + [l, n] == [k, l, n] && [l] + [n] == [l, n] && [n] + [] == [n];
  }

  lemma OneKey(d: Doc, k: Key, ks: seq<Key>)
    requires DocOk(d)
    ensures DocOk(Press(d, k)) && PressAll(d, [k] + ks) == PressAll(Press(d, k), ks)
  {
    PressOk(d, k);
    assert ([k] + ks)[1..] == ks;
  }

  function First8191(bytes: seq<Byte>): seq<Byte> { if |bytes| <= 8191 then bytes else bytes[..8191] }

  // The read of editor_open: at most 8191 bytes, none if the file cannot be opened.
  method ReadFile(fs: Descriptors, name: string) returns (bytes: seq<Byte>)
    requires fs.Valid()
    modifies fs.fds
    ensures fs.Valid()
    ensures bytes ==
      if Strip(name) in old(fs.store.contents) && !AllUsed(old(fs.fds[..]), MAX_FD)
      then First8191(fs.store.contents[Strip(name)]) else []
  {
    bytes := [];
    var fd := fs.Open(name, 0);
    if fd >= 0 {
      ghost var all := fs.store.contents[Strip(name)];
      assert all[0..] == all;
      var r;
      assert Sum([8191][..0]) == 0;
      r, bytes := fs.Read(fd, 8191);
      assert all == bytes + fs.Ahead(fd);
      assert all[..|bytes|] == bytes;
      var c := fs.Close(fd);
    }
  }

  // From i to n, was is found one place further on.
  ghost predicate MovedUp(was: seq<Byte>, now: seq<Byte>, i: nat, n: nat) {
    i <= n < |was| == |now| && now[..i] == was[..i] && now[i + 1..n + 1] == was[i..n]
  }

  lemma MovedOne(was: seq<Byte>, now: seq<Byte>, i: nat, n: nat)
    requires MovedUp(was, now, i, n) && i > 0
    ensures MovedUp(was, now[i := now[i - 1]], i - 1, n)
  {
    var next := now[i := now[i - 1]];
    assert now[i - 1] == now[..i][i - 1] == was[i - 1];
    assert next[..i - 1] == now[..i][..i - 1] && was[..i - 1] == was[..i][..i - 1];
    assert next[i..n + 1] == [was[i - 1]] + now[i + 1..n + 1];
  }

  class TextEditor {
    const fs: Descriptors
    const name: string
    const buf: array<Byte>
    var len: nat
    var cur: nat
    var modified: bool
    // The bytes last loaded or saved.
    ghost var saved: seq<Byte>

    ghost predicate Shape()
      reads this
    {
      buf.Length == 8192 && cur <= len <= 8191
    }

    ghost function State(): Doc
      reads this, buf
      requires Shape()
    {
      Doc(buf[..len], cur)
    }

    // An unmodified text is the one last loaded or saved.
    ghost predicate Valid()
      reads this, buf
    {
      Shape() && (modified || State().text == saved)
    }

    // editor_open up to the key loop; the file is read while a descriptor is free.
    constructor (fs: Descriptors, name: string)
      requires fs.Valid()
      modifies fs.fds
      ensures Valid() && fs.Valid() && this.fs == fs && this.name == name && !modified && fresh(buf)
      ensures cur == len
      ensures State().text ==
        if Strip(name) in old(fs.store.contents) && !AllUsed(old(fs.fds[..]), MAX_FD)
        then First8191(fs.store.contents[Strip(name)]) else []
    {
      this.fs, this.name := fs, name;
      buf := new Byte[8192](_ => 0);
      len, cur, modified, saved := 0, 0, false, [];
      new;
      assert fs.fds[..] == old(fs.fds[..]);
      var bytes := ReadFile(fs, name);
      Load(bytes);
      saved := bytes;
      cur := len;
    }

    method Load(bytes: seq<Byte>)
      requires buf.Length == 8192 && |bytes| <= 8191
      modifies buf, this`len
      ensures len == |bytes| && buf[..len] == bytes
    {
      var i := 0;
      while i < |bytes|
        invariant i <= |bytes| && buf[..i] == bytes[..i]
      {
        buf[i] := bytes[i];
        i := i + 1;
      }
      len := |bytes|;
    }

    // Lines 91-96.
    method OnChar(c: Byte)
      requires Valid()
      modifies this`len, this`cur, this`modified, buf
      ensures Valid() && State() == Insert(old(State()), c)
    {
      if len < 8190 {
        ghost var was := buf[..len];
        ShiftUp();
        ghost var tail := buf[cur + 1..len + 1];
        buf[cur] := c;
        assert buf[cur + 1..len + 1] == tail;
        assert buf[..cur] == was[..cur];
        assert buf[..len + 1] == buf[..cur] + [c] + tail;
        cur, len, modified := cur + 1, len + 1, true;
      }
    }

    // Room for one character at the cursor.
    method ShiftUp()
      requires Shape() && len < 8190
      modifies buf
      ensures buf[..cur] == old(buf[..len])[..cur] && buf[cur + 1..len + 1] == old(buf[..len])[cur..]
    {
      ghost var was := buf[..];
      var i := len;
      while i > cur
        invariant cur <= i <= len && MovedUp(was, buf[..], i, len)
      {
        MovedOne(was, buf[..], i, len);
        buf[i] := buf[i - 1];
        i := i - 1;
      }
      assert buf[..cur] == buf[..][..cur] && buf[cur + 1..len + 1] == buf[..][cur + 1..len + 1];
    }

    // The characters from p to p + n go.
    method RemoveAt(p: nat, n: nat)
      requires Shape() && p + n <= len
      modifies buf
      ensures buf[..len - n] == old(buf[..p] + buf[p + n..len])
    {
      ghost var was := buf[..];
      var i := p;
      while i + n < len
        invariant p <= i <= len - n
        invariant buf[..i] == was[..p] + was[p + n..i + n] && buf[i..] == was[i..]
      {
        assert buf[i + n] == buf[i..][n] == was[i + n];
        buf[i] := buf[i + n];
        i := i + 1;
        assert buf[i..] == was[i..] by { assert was[i..] == was[i - 1..][1..]; }
      }
    }

    // Lines 88-90.
    method OnRub()
      requires Valid()
      modifies this`len, this`cur, this`modified, buf
      ensures Valid() && State() == Backspace(old(State()))
    {
      if cur > 0 {
        ghost var t := buf[..len];
        RemoveAt(cur - 1, 1);
        assert buf[..len - 1] == t[..cur - 1] + t[cur..];
        cur, len, modified := cur - 1, len - 1, true;
      }
    }

    // Lines 81-87.
    method OnCut()
      requires Valid()
      modifies this`len, this`cur, this`modified, buf
      ensures Valid() && State() == CutLine(old(State()))
    {
      var ls := FindStart();
      var le := FindEnd();
      RemoveLine(ls, le);
    }

    method RemoveLine(ls: nat, le: nat)
      requires Shape() && ls <= le <= len
      modifies this`len, this`cur, this`modified, buf
      ensures Shape() && modified && buf[..len] == old(buf[..len])[..ls] + old(buf[..len])[le..]
      ensures cur == if old(cur) > len then len else old(cur)
    {
      ghost var t := buf[..len];
      assert t[..ls] == buf[..ls] && t[le..] == buf[le..len];
      RemoveAt(ls, le - ls);
      len := len - (le - ls);
      if cur > len { cur := len; }
      modified := true;
    }

    method FindStart() returns (ls: nat)
      requires Shape()
      ensures ls == LineStart(buf[..len], cur)
    {
      ls := cur;
      while ls > 0 && buf[ls - 1] != NEWLINE
        invariant ls <= cur && LineStart(buf[..len], cur) == LineStart(buf[..len], ls)
      {
        ls := ls - 1;
      }
    }

    method FindEnd() returns (le: nat)
      requires Shape()
      ensures le == LineEnd(buf[..len], cur)
    {
      le := cur;
      while le < len && buf[le] != NEWLINE
        invariant cur <= le <= len && LineEnd(buf[..len], cur) == LineEnd(buf[..len], le)
      {
        le := le + 1;
      }
      if le < len { le := le + 1; }
    }

    method OnKey(k: Key)
      requires Valid()
      modifies this`len, this`cur, this`modified, buf
      ensures Valid() && State() == Press(old(State()), k)
    {
      match k
      case Char(c) => OnChar(c);
      case Rub => OnRub();
      case Cut => OnCut();
      case GoLeft => if cur > 0 { cur := cur - 1; }
      case GoRight => if cur < len { cur := cur + 1; }
    }

    // Lines 74-80: what is saved is what is shown, and opening it again shows it again.
    method Save() returns (ok: bool)
      requires Valid() && fs.Valid() && NameOk(Strip(name))
      modifies this`modified, this`saved
      modifies fs.store`count, fs.store`contents, fs.store.files, fs.store.heap`blocks, fs.store.heap.mem
      ensures Valid() && fs.Valid() && ok == old(fs.CanSave(name, State().text)) && State() == old(State())
      ensures ok ==> !modified && saved == State().text
      ensures ok ==> fs.store.contents == old(fs.store.contents)[Strip(name) := State().text]
      ensures ok ==> First8191(fs.store.contents[Strip(name)]) == State().text
      ensures !ok ==> modified == old(modified) && saved == old(saved) && fs.store.contents == old(fs.store.contents)
    {
      var r := fs.Save(name, buf[..len]);
      ok := r == 0;
      if ok {
        modified := false;
        saved := buf[..len];
      }
    }
  }

  // Opened in the editor and saved at once: the file is as it was just when it fits the
  // buffer, and otherwise cut short.
  method OpenThenSave(fs: Descriptors, name: string) returns (ok: bool)
    requires fs.Valid() && NameOk(Strip(name)) && Strip(name) in fs.store.contents
    requires !AllUsed(fs.fds[..], MAX_FD)
    modifies fs.fds
    modifies fs.store`count, fs.store`contents, fs.store.files, fs.store.heap`blocks, fs.store.heap.mem
    ensures fs.Valid()
    ensures !ok ==> fs.store.contents == old(fs.store.contents)
    ensures ok ==> (fs.store.contents == old(fs.store.contents) <==> |old(fs.store.contents)[Strip(name)]| <= 8191)
    ensures ok ==> Strip(name) in fs.store.contents
    ensures ok ==> fs.store.contents[Strip(name)] == First8191(old(fs.store.contents)[Strip(name)])
  {
    assert fs.fds[..] == old(fs.fds[..]);
    var editor := new TextEditor(fs, name);
    assert editor.State().text == First8191(fs.store.contents[Strip(name)]);
    ok := editor.Save();
  }
}
