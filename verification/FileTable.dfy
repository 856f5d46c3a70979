// The file table of kernel/initrd.c as a value over the heap: what it owns there, and the
// map from names to contents that it stands for.
module FileTable {
  import opened HeapBlocks
  import opened Heap

  // Where a file's bytes lie: one of the arrays compiled in, or a block of the heap.
  datatype Ptr = Null | Static(k: nat) | Block_(p: nat)

  datatype Entry = Entry(name: string, data: Ptr, size: nat)

  const SENTINEL := Entry("", Null, 0)

  predicate NameOk(name: string) { 1 <= |name| <= 31 }

  function Strip(path: string): string { if path != "" && path[0] == '/' then path[1..] else path }

  // Two paths of one file: the same, or one of them with a slash in front.
  predicate SameFile(a: string, b: string) { a == b || WithSlash(a, b) || WithSlash(b, a) }

  predicate WithSlash(a: string, b: string) { (a == "" || a[0] != '/') && b == "/" + a }

  lemma SlashStripped(a: string, b: string)
    requires SameFile(a, b)
    ensures Strip(a) == Strip(b) && (a == "" || a[0] != '/' ==> Strip(a) == a)
  {
    assert ("/" + a)[1..] == a && ("/" + b)[1..] == b;
  }

  // ---- The heap as its users see it ----

  // The blocks in use and memory, from address base on.
  datatype View = View(blocks: seq<Block>, mem: seq<Cell>, base: nat)

  ghost predicate BytesAt(m: seq<Cell>, at: int, bytes: seq<Byte>) {
    0 <= at && at + |bytes| <= |m| && forall j | 0 <= j < |bytes| :: m[at + j] == Payload(bytes[j])
  }

  // A live block at p holds these bytes.
  ghost predicate Stored(v: View, p: nat, bytes: seq<Byte>) {
    exists b :: b in Live(v.blocks) && HoldsAt(v, b, p, bytes)
  }

  ghost predicate HoldsAt(v: View, b: Block, p: nat, bytes: seq<Byte>) {
    b.Ptr() == p && |bytes| <= b.size && BytesAt(v.mem, p - v.base, bytes)
  }

  // Every live block at p is still live with the same payload.
  ghost predicate Keeps(v: View, w: View, p: nat) {
    && w.base == v.base
    && forall b | b in Live(v.blocks) && b.Ptr() == p ::
        b in Live(w.blocks) && PayloadKept(v.mem, w.mem, v.base, b)
  }

  lemma StoredKept(v: View, w: View, p: nat, bytes: seq<Byte>)
    requires Stored(v, p, bytes) && Keeps(v, w, p)
    ensures Stored(w, p, bytes)
  {
    var b :| b in Live(v.blocks) && HoldsAt(v, b, p, bytes);
    BytesKept(v, w, b, bytes);
    assert HoldsAt(w, b, p, bytes);
  }

  lemma BytesKept(v: View, w: View, b: Block, bytes: seq<Byte>)
    requires PayloadKept(v.mem, w.mem, v.base, b) && BytesAt(v.mem, b.Ptr() - v.base, bytes) && |bytes| <= b.size
    ensures BytesAt(w.mem, b.Ptr() - v.base, bytes)
  {
    forall j | 0 <= j < |bytes| ensures w.mem[b.Ptr() - v.base + j] == Payload(bytes[j]) {
      assert v.mem[b.Ptr() - v.base + j] == Payload(bytes[j]);
    }
  }

  lemma StoredIsLive(v: View, p: nat, bytes: seq<Byte>)
    requires Stored(v, p, bytes)
    ensures p in LivePtrs(v.blocks)
  {
  }

  // ---- The table ----

  ghost predicate EntryHolds(e: Entry, bytes: seq<Byte>, statics: seq<seq<Byte>>, v: View) {
    && NameOk(e.name) && e.size == |bytes|
    && match e.data
       case Null => false
       case Static(k) => k < |statics| && bytes == statics[k]
       case Block_(p) => Stored(v, p, bytes)
  }

  ghost predicate Unique(t: seq<Entry>) { forall i, j | 0 <= i < j < |t| :: t[i].name != t[j].name }

  // No block belongs to two entries.
  ghost predicate OneOwner(t: seq<Entry>) {
    forall i, j | 0 <= i < j < |t| :: t[i].data.Block_? ==> t[i].data != t[j].data
  }

  ghost predicate Named(t: seq<Entry>, files: map<string, seq<Byte>>) {
    && (forall i | 0 <= i < |t| :: t[i].name in files)
    && forall n | n in files :: exists i | 0 <= i < |t| :: t[i].name == n
  }

  // The table stands for the map.
  ghost predicate TableOk(t: seq<Entry>, files: map<string, seq<Byte>>, statics: seq<seq<Byte>>, v: View) {
    && Unique(t) && OneOwner(t) && Named(t, files)
    && forall i | 0 <= i < |t| :: EntryHolds(t[i], files[t[i].name], statics, v)
  }

  // The blocks that belong to the table.
  ghost function Owned(t: seq<Entry>): set<nat> { set i | 0 <= i < |t| && t[i].data.Block_? :: t[i].data.p }

  lemma OwnedLive(t: seq<Entry>, files: map<string, seq<Byte>>, statics: seq<seq<Byte>>, v: View)
    requires TableOk(t, files, statics, v)
    ensures Owned(t) <= LivePtrs(v.blocks)
  {
    forall p | p in Owned(t) ensures p in LivePtrs(v.blocks) {
      var i :| 0 <= i < |t| && t[i].data == Block_(p);
      assert EntryHolds(t[i], files[t[i].name], statics, v);
      StoredIsLive(v, p, files[t[i].name]);
    }
  }

  // The heap may change elsewhere.
  lemma TableKept(t: seq<Entry>, files: map<string, seq<Byte>>, statics: seq<seq<Byte>>, v: View, w: View)
    requires TableOk(t, files, statics, v) && forall p | p in Owned(t) :: Keeps(v, w, p)
    ensures TableOk(t, files, statics, w)
  {
    forall i | 0 <= i < |t| ensures EntryHolds(t[i], files[t[i].name], statics, w) {
      assert EntryHolds(t[i], files[t[i].name], statics, v);
      if t[i].data.Block_? {
        assert t[i].data.p in Owned(t);
        StoredKept(v, w, t[i].data.p, files[t[i].name]);
      }
    }
  }

  lemma TableReplaced(t: seq<Entry>, files: map<string, seq<Byte>>, statics: seq<seq<Byte>>, v: View,
                      i: nat, p: nat, bytes: seq<Byte>)
    requires TableOk(t, files, statics, v) && i < |t| && p !in Owned(t) && Stored(v, p, bytes)
    ensures var e := t[i].(data := Block_(p), size := |bytes|);
      TableOk(t[i := e], files[t[i].name := bytes], statics, v)
    ensures var e := t[i].(data := Block_(p), size := |bytes|);
      Owned(t[i := e]) == Owned(t) - Blocks(t[i].data) + {p}
  {
    var e := t[i].(data := Block_(p), size := |bytes|);
    var u, g := t[i := e], files[t[i].name := bytes];
    forall j | 0 <= j < |u| ensures EntryHolds(u[j], g[u[j].name], statics, v) {
      assert EntryHolds(t[j], files[t[j].name], statics, v);
      if j < i { assert t[j].name != t[i].name; } else if i < j { assert t[i].name != t[j].name; }
    }
    NamedReplaced(t, files, i, e, bytes);
    OwnerReplaced(t, i, e);
    OwnedReplaced(t, i, e);
  }

  lemma NamedReplaced(t: seq<Entry>, files: map<string, seq<Byte>>, i: nat, e: Entry, bytes: seq<Byte>)
    requires Named(t, files) && i < |t| && e.name == t[i].name
    ensures Named(t[i := e], files[e.name := bytes])
  {
    var u, g := t[i := e], files[e.name := bytes];
    forall n | n in g ensures exists j | 0 <= j < |u| :: u[j].name == n {
      if n == e.name { assert u[i].name == n; } else {
        var j :| 0 <= j < |t| && t[j].name == n;
        assert u[j].name == n;
      }
    }
  }

  lemma OwnerReplaced(t: seq<Entry>, i: nat, e: Entry)
    requires Unique(t) && OneOwner(t) && i < |t| && e.name == t[i].name && e.data.Block_? && e.data.p !in Owned(t)
    ensures Unique(t[i := e]) && OneOwner(t[i := e])
  {
    var u := t[i := e];
    forall j, k | 0 <= j < k < |u| ensures u[j].name != u[k].name && (u[j].data.Block_? ==> u[j].data != u[k].data) {
      assert t[j].name != t[k].name && (t[j].data.Block_? ==> t[j].data != t[k].data);
      assert t[j].data.Block_? ==> t[j].data.p in Owned(t);
      assert t[k].data.Block_? ==> t[k].data.p in Owned(t);
    }
  }

  lemma OwnedReplaced(t: seq<Entry>, i: nat, e: Entry)
    requires OneOwner(t) && i < |t| && e.data.Block_? && e.data.p !in Owned(t)
    ensures Owned(t[i := e]) == Owned(t) - Blocks(t[i].data) + {e.data.p}
  {
    var u := t[i := e];
    forall p | p in Owned(t) && t[i].data != Block_(p) ensures p in Owned(u) {
      var j :| 0 <= j < |t| && t[j].data == Block_(p);
      assert u[j].data == Block_(p);
    }
    assert u[i].data == e.data;
    forall p | p in Owned(u) && p != e.data.p ensures p in Owned(t) && t[i].data != Block_(p) {
      var j :| 0 <= j < |u| && u[j].data == Block_(p);
      assert t[j].data == Block_(p) && j != i;
      if j < i { assert t[j].data != t[i].data; } else { assert t[i].data.Block_? ==> t[i].data != t[j].data; }
    }
  }

  lemma TableAppended(t: seq<Entry>, files: map<string, seq<Byte>>, statics: seq<seq<Byte>>, v: View,
                      name: string, p: nat, bytes: seq<Byte>)
    requires TableOk(t, files, statics, v) && name !in files && NameOk(name) && p !in Owned(t) && Stored(v, p, bytes)
    ensures TableOk(t + [Entry(name, Block_(p), |bytes|)], files[name := bytes], statics, v)
    ensures Owned(t + [Entry(name, Block_(p), |bytes|)]) == Owned(t) + {p}
  {
    var e := Entry(name, Block_(p), |bytes|);
    var u, g := t + [e], files[name := bytes];
    forall j | 0 <= j < |u| ensures EntryHolds(u[j], g[u[j].name], statics, v) {
      if j < |t| { assert EntryHolds(t[j], files[t[j].name], statics, v); }
    }
    forall n | n in g ensures exists j | 0 <= j < |u| :: u[j].name == n {
      if n == name { assert u[|t|].name == n; } else {
        var j :| 0 <= j < |t| && t[j].name == n;
        assert u[j].name == n;
      }
    }
    forall j | 0 <= j < |t| ensures t[j].data != e.data && t[j].name != name {
      assert t[j].data.Block_? ==> t[j].data.p in Owned(t);
    }
    assert u[|t|] == e;
    forall q | q in Owned(t) ensures q in Owned(u) {
      var j :| 0 <= j < |t| && t[j].data == Block_(q);
      assert u[j].data == Block_(q);
    }
  }

  function Without(t: seq<Entry>, i: nat): seq<Entry>
    requires i < |t|
  {
    t[..i] + t[i + 1..]
  }

  lemma TableRemoved(t: seq<Entry>, files: map<string, seq<Byte>>, statics: seq<seq<Byte>>, v: View, i: nat)
    requires TableOk(t, files, statics, v) && i < |t|
    ensures TableOk(Without(t, i), files - {t[i].name}, statics, v)
    ensures Owned(Without(t, i)) == Owned(t) - Blocks(t[i].data)
  {
    var u, g := Without(t, i), files - {t[i].name};
    NamedRemoved(t, files, i);
    forall j | 0 <= j < |u| ensures EntryHolds(u[j], g[u[j].name], statics, v) {
      var k := if j < i then j else j + 1;
      assert u[j] == t[k] && EntryHolds(t[k], files[t[k].name], statics, v);
    }
    OwnedRemoved(t, i);
  }

  lemma NamedRemoved(t: seq<Entry>, files: map<string, seq<Byte>>, i: nat)
    requires Unique(t) && Named(t, files) && i < |t|
    ensures Unique(Without(t, i)) && Named(Without(t, i), files - {t[i].name})
  {
    var u, g := Without(t, i), files - {t[i].name};
    forall j: nat | j < |u| ensures u[j].name in g { KeptEntry(t, i, j); }
    forall n | n in g ensures exists j | 0 <= j < |u| :: u[j].name == n {
      var k: nat :| k < |t| && t[k].name == n;
      MovedEntry(t, i, k);
    }
    UniqueRemoved(t, i);
  }

  lemma KeptEntry(t: seq<Entry>, i: nat, j: nat)
    requires Unique(t) && i < |t| && j < |Without(t, i)|
    ensures Without(t, i)[j] == t[if j < i then j else j + 1] && Without(t, i)[j].name != t[i].name
  {
  }

  lemma MovedEntry(t: seq<Entry>, i: nat, k: nat)
    requires i < |t| && k < |t| && k != i
    ensures var j := if k < i then k else k - 1; j < |Without(t, i)| && Without(t, i)[j] == t[k]
  {
  }

  lemma UniqueRemoved(t: seq<Entry>, i: nat)
    requires Unique(t) && i < |t|
    ensures Unique(Without(t, i))
  {
    var u := Without(t, i);
    forall j: nat, k: nat | j < k < |u| ensures u[j].name != u[k].name {
      KeptEntry(t, i, j);
      KeptEntry(t, i, k);
    }
  }

  lemma OwnedRemoved(t: seq<Entry>, i: nat)
    requires OneOwner(t) && i < |t|
    ensures OneOwner(Without(t, i))
    ensures Owned(Without(t, i)) == Owned(t) - Blocks(t[i].data)
  {
    var u := Without(t, i);
    forall j, k | 0 <= j < k < |u| ensures u[j].data.Block_? ==> u[j].data != u[k].data {
      var a, b := if j < i then j else j + 1, if k < i then k else k + 1;
      assert u[j] == t[a] && u[k] == t[b] && a < b;
    }
    forall p | p in Owned(t) && t[i].data != Block_(p) ensures p in Owned(u) {
      var j :| 0 <= j < |t| && t[j].data == Block_(p);
      assert u[if j < i then j else j - 1].data == Block_(p);
    }
    forall p | p in Owned(u) ensures p in Owned(t) && t[i].data != Block_(p) {
      var j :| 0 <= j < |u| && u[j].data == Block_(p);
      var k := if j < i then j else j + 1;
      assert t[k].data == Block_(p);
      if k < i { assert t[k].data != t[i].data; } else { assert t[i].data.Block_? ==> t[i].data != t[k].data; }
    }
  }

  // ---- What the heap keeps ----

  function Blocks(d: Ptr): set<nat> { if d.Block_? then {d.p} else {} }

  // Every live block other than those of gone is still live with the same payload.
  ghost predicate Beside(v: View, w: View, gone: set<nat>) {
    && w.base == v.base
    && forall b | b in Live(v.blocks) && b.Ptr() !in gone :: b in Live(w.blocks) && PayloadKept(v.mem, w.mem, v.base, b)
  }

  lemma BesideThen(v: View, w: View, x: View, gone: set<nat>, more: set<nat>)
    requires Beside(v, w, gone) && Beside(w, x, more)
    ensures Beside(v, x, gone + more)
  {
    forall b | b in Live(v.blocks) && b.Ptr() !in gone + more
      ensures b in Live(x.blocks) && PayloadKept(v.mem, x.mem, v.base, b)
    {
      assert PayloadKept(v.mem, w.mem, v.base, b) && PayloadKept(w.mem, x.mem, v.base, b);
    }
  }

  lemma TableBeside(t: seq<Entry>, files: map<string, seq<Byte>>, statics: seq<seq<Byte>>,
                    v: View, w: View, gone: set<nat>)
    requires TableOk(t, files, statics, v) && Beside(v, w, gone) && Owned(t) !! gone
    ensures TableOk(t, files, statics, w)
  {
    forall p | p in Owned(t) ensures Keeps(v, w, p) {}
    TableKept(t, files, statics, v, w);
  }
}
