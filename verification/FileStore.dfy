// kernel/initrd.c: initrd_save and initrd_remove on the file table and the heap.
module FileStore {
  import opened Words
  import opened HeapBlocks
  import opened Heap
  import opened FileTable

  const MAX_FILES := 32

  class Initrd {
    const heap: KernelHeap
    const statics: seq<seq<Byte>>
    const files: array<Entry>
    var count: nat
    ghost var contents: map<string, seq<Byte>>

    ghost function Mem(): View
      reads heap, heap.mem
    {
      View(heap.blocks, heap.mem[..], heap.base)
    }

    ghost function Table(): seq<Entry>
      reads this`count, files
      requires count <= files.Length
    {
      files[..count]
    }

    // The entry after the last has an empty name.
    ghost predicate Valid()
      reads this, files, heap, heap.mem
    {
      && heap.Valid() && heap.base > 0
      && files.Length == MAX_FILES && count < MAX_FILES && files[count] == SENTINEL
      && TableOk(Table(), contents, statics, Mem())
    }

    // The boot-time table over a fresh heap.
    constructor (heap: KernelHeap, statics: seq<seq<Byte>>, names: seq<string>)
      requires heap.Valid() && heap.base > 0
      requires |statics| == |names| < MAX_FILES
      requires forall i | 0 <= i < |names| :: NameOk(names[i])
      requires forall i, j | 0 <= i < j < |names| :: names[i] != names[j]
      ensures Valid() && this.heap == heap && this.statics == statics && fresh(files)
      ensures count == |names| && forall i | 0 <= i < |names| :: files[i] == Entry(names[i], Static(i), |statics[i]|)
    {
      this.heap, this.statics := heap, statics;
      files := new Entry[MAX_FILES](_ => SENTINEL);
      count := |names|;
      contents := BootContents(names, statics);
      new;
      var i := 0;
      while i < |names|
        invariant i <= |names| == count && Booted(files[..], names, statics, i)
        invariant contents == BootContents(names, statics)
      {
        files[i] := Entry(names[i], Static(i), |statics[i]|);
        i := i + 1;
      }
      BootOk(files[..], names, statics, Mem());
    }

    // The blocks in use that are not the table's.
    ghost function Spare(): set<nat>
      reads this, files, heap
      requires count <= files.Length
    {
      LivePtrs(heap.blocks) - Owned(Table())
    }

    // The first entry with this name, or count.
    method Find(name: string) returns (i: nat)
      requires Valid()
      ensures i <= count && (i < count ==> files[i].name == name) && (i == count <==> name !in contents)
    {
      i := 0;
      while i < count && files[i].name != name
        invariant i <= count && forall k | 0 <= k < i :: Table()[k].name != name
      {
        i := i + 1;
      }
      if i < count { assert Table()[i].name in contents; }
    }

    // kfree, unless the bytes are compiled in.
    method ReleaseData(d: Ptr)
      requires heap.Valid() && heap.base > 0 && Blocks(d) <= LivePtrs(heap.blocks)
      modifies heap`blocks, heap.mem
      ensures heap.Valid() && LivePtrs(heap.blocks) == old(LivePtrs(heap.blocks)) - Blocks(d)
      ensures Beside(old(Mem()), Mem(), Blocks(d))
    {
      if d.Block_? {
        ghost var k := LiveIndex(heap.blocks, d.p);
        heap.FreePtr(d.p);
      }
    }

    // A block of its own for the new bytes, and the old block freed.
    method Replace(i: nat, data: seq<Byte>) returns (ok: bool)
      requires Valid() && i < count && |data| <= 0x1_0000_0000_0000_0000 - 16
      modifies this`contents, files, heap`blocks, heap.mem
      ensures Valid()
      ensures ok == !NoFit(old(heap.blocks), RoundUp(if |data| > 0 then |data| else 1))
      ensures ok ==> contents == old(contents)[old(files[i].name) := data]
      ensures ok ==> OthersStay(old(Table()), Table(), old(files[i].name))
      ensures !ok ==> contents == old(contents) && files[..] == old(files[..]) && Mem() == old(Mem())
      ensures Beside(old(Mem()), Mem(), old(Owned(Table()))) && Spare() == old(Spare())
    {
      ghost var t := Table();
      OwnedLive(t, contents, statics, Mem());
      var p := CopyIn(heap, data);
      ok := p != 0;
      if ok {
        TableBeside(t, contents, statics, old(Mem()), Mem(), {});
        ghost var w := Mem();
        Exchange(i, p, data, |data|);
        BesideThen(old(Mem()), w, Mem(), {}, Blocks(t[i].data));
      }
    }

    // The entry takes the block at p in place of its old one.
    method Exchange(i: nat, p: nat, ghost data: seq<Byte>, n: nat)
      requires Valid() && i < count && p !in Owned(Table()) && Stored(Mem(), p, data) && n == |data|
      modifies this`contents, files, heap`blocks, heap.mem
      ensures Valid()
      ensures contents == old(contents)[old(files[i].name) := data]
      ensures OthersStay(old(Table()), Table(), old(files[i].name))
      ensures Owned(Table()) == old(Owned(Table())) - Blocks(old(files[i].data)) + {p}
      ensures LivePtrs(heap.blocks) == old(LivePtrs(heap.blocks)) - Blocks(old(files[i].data))
      ensures Beside(old(Mem()), Mem(), Blocks(old(files[i].data)))
    {
      ghost var w, t := Mem(), Table();
      var d := files[i].data;
      var e := files[i].(data := Block_(p), size := n);
      OwnedLive(t, contents, statics, w);
      TableReplaced(t, contents, statics, w, i, p, data);
      ReleaseData(d);
      files[i] := e;
      contents := contents[e.name := data];
      assert Table() == t[i := e];
      StaysReplaced(t, i, e);
      TableBeside(t[i := e], contents, statics, w, Mem(), Blocks(d));
    }

    method Add(name: string, data: seq<Byte>) returns (ok: bool)
      requires Valid() && NameOk(name) && name !in contents && |data| <= 0x1_0000_0000_0000_0000 - 16
      modifies this`count, this`contents, files, heap`blocks, heap.mem
      ensures Valid()
      ensures ok == (old(count) < MAX_FILES - 1 && !NoFit(old(heap.blocks), RoundUp(if |data| > 0 then |data| else 1)))
      ensures ok ==> contents == old(contents)[name := data]
      ensures ok ==> OthersStay(old(Table()), Table(), name)
      ensures !ok ==> contents == old(contents) && count == old(count)
      ensures !ok ==> files[..] == old(files[..]) && Mem() == old(Mem())
      ensures Beside(old(Mem()), Mem(), {}) && Spare() == old(Spare())
    {
      if count >= MAX_FILES - 1 {
        return false;
      }
      ghost var v, t, c := Mem(), Table(), contents;
      OwnedLive(t, c, statics, v);
      var p := CopyIn(heap, data);
      ok := p != 0;
      if ok {
        TableBeside(t, c, statics, v, Mem(), {});
        TableAppended(t, c, statics, Mem(), name, p, data);
        files[count] := Entry(name, Block_(p), |data|);
        count := count + 1;
        contents := contents[name := data];
        files[count] := SENTINEL;
        assert Table() == t + [Entry(name, Block_(p), |data|)];
        StaysAppended(t, Table()[|t|], name);
      }
    }

    // Lines 25-58.
    method Save(path: string, data: seq<Byte>) returns (r: int)
      requires Valid() && (path == "" || NameOk(Strip(path))) && |data| <= 0x1_0000_0000_0000_0000 - 16
      modifies this`count, this`contents, files, heap`blocks, heap.mem
      ensures Valid()
      ensures r == 0 || r == -1
      ensures r == 0 <==>
        && path != "" && !NoFit(old(heap.blocks), RoundUp(if |data| > 0 then |data| else 1))
        && (Strip(path) in old(contents) || old(count) < MAX_FILES - 1)
      ensures r == 0 ==> contents == old(contents)[Strip(path) := data]
      ensures r == 0 ==> OthersStay(old(Table()), Table(), Strip(path))
      ensures r != 0 ==> contents == old(contents) && count == old(count)
      ensures r != 0 ==> files[..] == old(files[..]) && Mem() == old(Mem())
      ensures Beside(old(Mem()), Mem(), old(Owned(Table()))) && Spare() == old(Spare())
    {
      if path == "" {
        return -1;
      }
      var name := Strip(path);
      var i := Find(name);
      var ok;
      if i < count {
        ok := Replace(i, data);
      } else {
        ok := Add(name, data);
      }
      r := if ok then 0 else -1;
    }

    // Lines 59-76.
    method Remove(path: string) returns (r: int)
      requires Valid()
      modifies this`count, this`contents, files, heap`blocks, heap.mem
      ensures Valid()
      ensures r == if Strip(path) in old(contents) then 0 else -1
      ensures contents == old(contents) - {Strip(path)}
      ensures r == 0 ==> count == old(count) - 1 && OthersStay(old(Table()), Table(), Strip(path))
      ensures r != 0 ==> count == old(count) && files[..] == old(files[..]) && Mem() == old(Mem())
      ensures Beside(old(Mem()), Mem(), old(Owned(Table()))) && Spare() == old(Spare())
    {
      var name := Strip(path);
      var i := Find(name);
      if i == count {
        return -1;
      }
      RemoveAt(i);
      r := 0;
    }

    method RemoveAt(i: nat)
      requires Valid() && i < count
      modifies this`count, this`contents, files, heap`blocks, heap.mem
      ensures Valid()
      ensures count == old(count) - 1 && contents == old(contents) - {old(files[i].name)}
      ensures OthersStay(old(Table()), Table(), old(files[i].name))
      ensures Beside(old(Mem()), Mem(), old(Owned(Table()))) && Spare() == old(Spare())
    {
      ghost var v, t, c := Mem(), Table(), contents;
      var d := files[i].data;
      OwnedLive(t, c, statics, v);
      TableRemoved(t, c, statics, v, i);
      ReleaseData(d);
      ShiftDown(i);
      count := count - 1;
      contents := contents - {t[i].name};
      files[count] := SENTINEL;
      assert Table() == Without(t, i);
      StaysWithout(t, i);
      TableBeside(Without(t, i), contents, statics, v, Mem(), Blocks(d));
    }

    method ShiftDown(i: nat)
      requires files.Length == MAX_FILES && i < count < MAX_FILES
      modifies files
      ensures files[..count - 1] == Without(old(files[..count]), i)
    {
      ghost var was := files[..];
      var j := i;
      while j < count - 1
        invariant i <= j <= count - 1
        invariant files[..j] == was[..i] + was[i + 1..j + 1] && files[j..] == was[j..]
      {
        assert files[j + 1] == files[j..][1] == was[j + 1];
        files[j] := files[j + 1];
        j := j + 1;
        assert files[j..] == was[j..] by { assert was[j..] == was[j - 1..][1..]; }
      }
    }
  }

  // Every entry of another name is still there as it was.
  ghost predicate OthersStay(t: seq<Entry>, u: seq<Entry>, name: string) {
    forall i | 0 <= i < |t| && t[i].name != name :: t[i] in u
  }

  lemma StaysReplaced(t: seq<Entry>, i: nat, e: Entry)
    requires i < |t|
    ensures OthersStay(t, t[i := e], t[i].name)
  {
    forall j | 0 <= j < |t| && t[j].name != t[i].name ensures t[j] in t[i := e] { assert t[i := e][j] == t[j]; }
  }

  lemma StaysAppended(t: seq<Entry>, e: Entry, name: string)
    ensures OthersStay(t, t + [e], name)
  {
  }

  lemma StaysWithout(t: seq<Entry>, i: nat)
    requires i < |t|
    ensures OthersStay(t, Without(t, i), t[i].name)
  {
  }

  ghost function Index(names: seq<string>, n: string): (k: nat)
    requires n in names
    ensures k < |names| && names[k] == n
  {
    if names[0] == n then 0 else 1 + Index(names[1..], n)
  }

  ghost function BootContents(names: seq<string>, statics: seq<seq<Byte>>): map<string, seq<Byte>>
    requires |statics| == |names|
  {
    map n | n in names :: statics[Index(names, n)]
  }

  // The first i entries are in place.
  ghost predicate Booted(files: seq<Entry>, names: seq<string>, statics: seq<seq<Byte>>, i: nat)
    requires |statics| == |names|
  {
    && |files| == MAX_FILES && i <= |names|
    && forall k | 0 <= k < |files| ::
        files[k] == if k < i then Entry(names[k], Static(k), |statics[k]|) else SENTINEL
  }

  lemma BootOk(files: seq<Entry>, names: seq<string>, statics: seq<seq<Byte>>, v: View)
    requires |statics| == |names| < MAX_FILES && Booted(files, names, statics, |names|)
    requires forall i | 0 <= i < |names| :: NameOk(names[i])
    requires forall i, j | 0 <= i < j < |names| :: names[i] != names[j]
    ensures TableOk(files[..|names|], BootContents(names, statics), statics, v)
  {
    var t, c := files[..|names|], BootContents(names, statics);
    forall i | 0 <= i < |t| ensures t[i].name in c && EntryHolds(t[i], c[t[i].name], statics, v) {
      var k := Index(names, names[i]);
      assert k == i;
    }
    forall n | n in c ensures exists i | 0 <= i < |t| :: t[i].name == n {
      assert t[Index(names, n)].name == n;
    }
  }

  // ---- Into the heap ----

  ghost function ViewOf(heap: KernelHeap): View
    reads heap, heap.mem
  {
    View(heap.blocks, heap.mem[..], heap.base)
  }

  lemma PayloadChanged(m: seq<Cell>, m': seq<Cell>, base: nat, bs: seq<Block>, k: nat, lo: nat, hi: nat)
    requires WellFormed(bs, base) && k < |bs| && bs[k].Ptr() <= lo && hi <= bs[k].End()
    requires ChangedWithin(m, m', base, lo, hi)
    ensures ChangedWithin(m, m', base, bs[k].addr, bs[k].End())
    ensures ChangedWithin(m, m', base, bs[k].Ptr(), bs[k].End())
  {
  }

  lemma BesideOthers(v: View, w: View, k: nat)
    requires WellFormed(v.blocks, v.base) && k < |v.blocks| && w.blocks == v.blocks && w.base == v.base
    requires ChangedWithin(v.mem, w.mem, v.base, v.blocks[k].addr, v.blocks[k].End())
    ensures Beside(v, w, {v.blocks[k].Ptr()})
  {
    OthersKept(v.mem, w.mem, v.base, v.blocks, k);
  }

  // Nothing was lost where nothing was.
  lemma NotThere(v: View, w: View, p: nat)
    requires Beside(v, w, {} + {p}) && p !in LivePtrs(v.blocks)
    ensures Beside(v, w, {})
  {
  }

  // kmalloc and the copying loop.
  method CopyIn(heap: KernelHeap, data: seq<Byte>) returns (p: nat)
    requires heap.Valid() && heap.base > 0 && |data| <= 0x1_0000_0000_0000_0000 - 16
    modifies heap`blocks, heap.mem
    ensures heap.Valid()
    ensures p == 0 <==> NoFit(old(heap.blocks), RoundUp(if |data| > 0 then |data| else 1))
    ensures p == 0 ==> ViewOf(heap) == old(ViewOf(heap))
    ensures p != 0 ==> Stored(ViewOf(heap), p, data) && p !in old(LivePtrs(heap.blocks))
    ensures p != 0 ==> LivePtrs(heap.blocks) == old(LivePtrs(heap.blocks)) + {p}
    ensures Beside(old(ViewOf(heap)), ViewOf(heap), {})
  {
    ghost var v := ViewOf(heap);
    var request: Word := if |data| > 0 then |data| else 1;
    p := heap.Kmalloc(request);
    if p != 0 {
      RoundUpCovers(request);
      ghost var k := AllocatedBlock(v.blocks, heap.blocks, v.mem, heap.mem[..], heap.base, p, RoundUp(request));
      ghost var w := ViewOf(heap);
      AllocatedPtrs(v.blocks, heap.blocks, k);
      Fill(heap, p, data, k);
      PayloadChanged(w.mem, heap.mem[..], heap.base, heap.blocks, k, p, p + |data|);
      BesideOthers(w, ViewOf(heap), k);
      BesideThen(v, w, ViewOf(heap), {}, {p});
      NotThere(v, ViewOf(heap), p);
    }
  }

  method Fill(heap: KernelHeap, p: nat, data: seq<Byte>, ghost k: nat)
    requires heap.Valid() && heap.base > 0 && IsLive(heap.blocks, p, k) && |data| <= heap.blocks[k].size
    modifies heap.mem
    ensures heap.Valid() && Stored(ViewOf(heap), p, data)
    ensures ChangedWithin(old(heap.mem[..]), heap.mem[..], heap.base, p, p + |data|)
  {
    Within(heap.blocks, heap.base, heap.base + HEAP_SIZE, k);
    ghost var m := heap.mem[..];
    var i := 0;
    while i < |data|
      invariant i <= |data|
      invariant ChangedWithin(m, heap.mem[..], heap.base, p, p + i)
      invariant BytesAt(heap.mem[..], p - heap.base, data[..i])
    {
      heap.mem[p - heap.base + i] := Payload(data[i]);
      i := i + 1;
    }
    assert data[..i] == data;
    PayloadWrite(m, heap.mem[..], heap.base, heap.blocks, k);
    assert HoldsAt(ViewOf(heap), heap.blocks[k], p, data);
  }
}
