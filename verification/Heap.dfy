// kernel/heap.c: the first-fit free-list heap, its headers lying between the payloads.
module Heap {
  import opened Words
  import opened HeapBlocks

  const HEAP_MAGIC: int := 0xDEADBEEF

  type Byte = b: int | 0 <= b < 256

  // One byte of heap memory.  A struct block is kept in the cell of its first byte, and
  // the 23 others are its inside; writing any of them as a payload byte would show.
  datatype Cell = Payload(b: Byte) | Header(size: nat, free: bool, magic: int, next: nat) | Inner

  ghost function NextOf(bs: seq<Block>, i: nat): nat {
    if i + 1 < |bs| then bs[i + 1].addr else 0
  }

  ghost predicate HeaderAt(m: seq<Cell>, base: nat, bs: seq<Block>, i: nat)
    requires i < |bs|
  {
    && base <= bs[i].addr < base + |m|
    && m[bs[i].addr - base] == Header(bs[i].size, bs[i].free, HEAP_MAGIC, NextOf(bs, i))
  }

  // The headers in memory are those of the list.
  ghost predicate Matches(m: seq<Cell>, base: nat, bs: seq<Block>) {
    |m| == HEAP_SIZE && forall i | 0 <= i < |bs| :: HeaderAt(m, base, bs, i)
  }

  // Memory differs at most from address lo up to hi.
  ghost predicate ChangedWithin(m: seq<Cell>, m': seq<Cell>, base: nat, lo: nat, hi: nat) {
    |m'| == |m| && forall c | 0 <= c < |m| && !(lo <= base + c < hi) :: m'[c] == m[c]
  }

  // The payload of b is the same in both memories.
  ghost predicate PayloadKept(m: seq<Cell>, m': seq<Cell>, base: nat, b: Block) {
    |m'| == |m| && forall c | 0 <= c < |m| && b.Ptr() <= base + c < b.End() :: m'[c] == m[c]
  }

  lemma OthersKept(m: seq<Cell>, m': seq<Cell>, base: nat, bs: seq<Block>, k: nat)
    requires WellFormed(bs, base) && k < |bs| && ChangedWithin(m, m', base, bs[k].addr, bs[k].End())
    ensures forall b | b in Live(bs) && b != bs[k] :: PayloadKept(m, m', base, b)
  {
    forall b | b in Live(bs) && b != bs[k] ensures PayloadKept(m, m', base, b) {
      var j: nat :| j < |bs| && bs[j] == b;
      Apart(bs, base, base + HEAP_SIZE, j, k);
    }
  }

  // ---- What the stores of kmalloc and kfree do to the headers ----

  lemma SetHeader(m: seq<Cell>, base: nat, bs: seq<Block>, k: nat, b: Block)
    requires Tiled(bs, base, base + HEAP_SIZE) && Matches(m, base, bs) && k < |bs|
    requires b.addr == bs[k].addr && b.size == bs[k].size
    ensures base <= b.addr < base + HEAP_SIZE
    ensures Matches(m[b.addr - base := Header(b.size, b.free, HEAP_MAGIC, NextOf(bs, k))], base, bs[k := b])
  {
    assert HeaderAt(m, base, bs, k);
    var m' := m[b.addr - base := Header(b.size, b.free, HEAP_MAGIC, NextOf(bs, k))];
    var t := bs[k := b];
    forall i: nat | i < |t| ensures HeaderAt(m', base, t, i) {
      assert HeaderAt(m, base, bs, i);
      if i != k { Apart(bs, base, base + HEAP_SIZE, i, k); }
    }
  }

  lemma SplitHeaders(m: seq<Cell>, m': seq<Cell>, base: nat, bs: seq<Block>, k: nat, n: nat)
    requires Tiled(bs, base, base + HEAP_SIZE) && Matches(m, base, bs) && k < |bs| && bs[k].size >= n + 24
    requires ChangedWithin(m, m', base, bs[k].addr, bs[k].End())
    requires var b, rest := bs[k].addr, bs[k].addr + 24 + n;
      && base <= b && rest < base + HEAP_SIZE
      && m'[b - base] == Header(n, false, HEAP_MAGIC, rest)
      && m'[rest - base] == Header(bs[k].size - n - 24, true, HEAP_MAGIC, NextOf(bs, k))
    ensures Matches(m', base, Split(bs, k, n))
  {
    var t := Split(bs, k, n);
    forall i: nat | i < |t| ensures HeaderAt(m', base, t, i) {
      if i < k {
        assert HeaderAt(m, base, bs, i) && t[i] == bs[i] && NextOf(t, i) == NextOf(bs, i);
        Apart(bs, base, base + HEAP_SIZE, i, k);
      } else if i > k + 1 {
        assert HeaderAt(m, base, bs, i - 1) && t[i] == bs[i - 1] && NextOf(t, i) == NextOf(bs, i - 1);
        Apart(bs, base, base + HEAP_SIZE, i - 1, k);
      }
    }
  }

  lemma MergeHeaders(m: seq<Cell>, base: nat, bs: seq<Block>, k: nat)
    requires Tiled(bs, base, base + HEAP_SIZE) && Matches(m, base, bs) && k + 1 < |bs|
    ensures base <= bs[k].addr < base + HEAP_SIZE
    ensures Matches(m[bs[k].addr - base :=
      Header(bs[k].size + 24 + bs[k + 1].size, bs[k].free, HEAP_MAGIC, NextOf(bs, k + 1))], base, MergeAt(bs, k))
  {
    assert HeaderAt(m, base, bs, k);
    var t := MergeAt(bs, k);
    var m' := m[bs[k].addr - base := Header(t[k].size, t[k].free, HEAP_MAGIC, NextOf(bs, k + 1))];
    forall i: nat | i < |t| ensures HeaderAt(m', base, t, i) {
      if i < k {
        assert HeaderAt(m, base, bs, i) && t[i] == bs[i] && NextOf(t, i) == NextOf(bs, i);
        Apart(bs, base, base + HEAP_SIZE, i, k);
      } else if i > k {
        assert HeaderAt(m, base, bs, i + 1) && t[i] == bs[i + 1] && NextOf(t, i) == NextOf(bs, i + 1);
        Apart(bs, base, base + HEAP_SIZE, i + 1, k);
      }
    }
  }

  // What a successful kmalloc does: the first block that fits is taken, and memory
  // changes within it only.
  ghost predicate Allocated(bs: seq<Block>, bs': seq<Block>, m: seq<Cell>, m': seq<Cell>, base: nat, p: nat, n: nat) {
    exists k: nat ::
      && IsFirstFit(bs, n, k)
      && p == bs[k].Ptr()
      && bs' == Take(bs, k, n)
      && ChangedWithin(m, m', base, bs[k].addr, bs[k].End())
  }

  lemma AllocatedBlock(bs: seq<Block>, bs': seq<Block>, m: seq<Cell>, m': seq<Cell>, base: nat, p: nat, n: nat)
    returns (k: nat)
    requires WellFormed(bs, base) && Allocated(bs, bs', m, m', base, p, n)
    ensures IsLive(bs', p, k) && n <= bs'[k].size < n + 40
    ensures FreeBytes(bs') <= FreeBytes(bs) <= FreeBytes(bs') + n + 39
    ensures bs'[k] !in Live(bs) && Live(bs') == Live(bs) + {bs'[k]}
    ensures forall b | b in Live(bs) :: PayloadKept(m, m', base, b) && b.Ptr() != p
  {
    k :| IsFirstFit(bs, n, k) && p == bs[k].Ptr() && bs' == Take(bs, k, n)
      && ChangedWithin(m, m', base, bs[k].addr, bs[k].End());
    TakeLive(bs, base, k, n);
    TakeRest(bs, k, n);
    TakeWellFormed(bs, base, k, n);
    OthersKept(m, m', base, bs, k);
    forall b | b in Live(bs) ensures b.Ptr() != p {
      var j: nat :| j < |bs| && bs[j] == b;
      Apart(bs, base, base + HEAP_SIZE, j, k);
    }
  }

  // The n bytes from p on are what those from ptr on were.
  ghost predicate Moved(m: seq<Cell>, m': seq<Cell>, base: nat, ptr: nat, p: nat, n: nat) {
    && base <= ptr && ptr + n <= base + |m| && base <= p && p + n <= base + |m'|
    && forall c | p - base <= c < p - base + n :: m'[c] == m[c - p + ptr]
  }

  lemma MovedSince(m: seq<Cell>, m1: seq<Cell>, m2: seq<Cell>, base: nat, c: Block, p: nat)
    requires PayloadKept(m, m1, base, c) && Moved(m1, m2, base, c.Ptr(), p, c.size)
    ensures Moved(m, m2, base, c.Ptr(), p, c.size)
  {
  }

  // Writing into a payload touches no header.
  lemma PayloadWrite(m: seq<Cell>, m': seq<Cell>, base: nat, bs: seq<Block>, k: nat)
    requires WellFormed(bs, base) && Matches(m, base, bs) && k < |bs|
    requires ChangedWithin(m, m', base, bs[k].Ptr(), bs[k].End())
    ensures Matches(m', base, bs)
  {
    forall i: nat | i < |bs| ensures HeaderAt(m', base, bs, i) {
      assert HeaderAt(m, base, bs, i);
      if i != k { Apart(bs, base, base + HEAP_SIZE, i, k); }
    }
  }

  lemma OneLiveBlock(bs: seq<Block>, base: nat, p: nat, k: nat)
    requires WellFormed(bs, base) && IsLive(bs, p, k)
    ensures forall i: nat | IsLive(bs, p, i) :: i == k
    ensures forall b | b in Live(bs) && b.Ptr() == p :: b == bs[k]
  {
    forall i: nat | i < |bs| && i != k ensures bs[i].Ptr() != p {
      Apart(bs, base, base + HEAP_SIZE, i, k);
    }
  }

  lemma AllocatedPtrs(bs: seq<Block>, bs': seq<Block>, j: nat)
    requires j < |bs'| && Live(bs') == Live(bs) + {bs'[j]}
    ensures LivePtrs(bs') == LivePtrs(bs) + {bs'[j].Ptr()}
  {
  }

  // These pointers are in use, each once.
  ghost predicate AllLive(ps: seq<nat>, bs: seq<Block>) {
    && (forall i, j | 0 <= i < j < |ps| :: ps[i] != ps[j])
    && forall i | 0 <= i < |ps| :: ps[i] in LivePtrs(bs)
  }

  lemma MetNext(bs: seq<Block>, bs': seq<Block>, m: seq<Cell>, m': seq<Cell>, base: nat, p: nat, n: nat,
                s: nat, ps: seq<nat>)
    requires WellFormed(bs, base) && Allocated(bs, bs', m, m', base, p, n)
    requires Filling(bs, s) && n >= 16 && AllLive(ps, bs)
    ensures Filling(bs', s + n + 24) && AllLive(ps + [p], bs')
  {
    var k: nat :| IsFirstFit(bs, n, k) && p == bs[k].Ptr() && bs' == Take(bs, k, n)
      && ChangedWithin(m, m', base, bs[k].addr, bs[k].End());
    FillStep(bs, s, n, k);
    var j := AllocatedBlock(bs, bs', m, m', base, p, n);
    AllocatedPtrs(bs, bs', j);
    assert p !in LivePtrs(bs);
  }

  class KernelHeap {
    const base: nat
    const mem: array<Cell>
    var head: nat
    ghost var blocks: seq<Block>

    // The list from head on is blocks, and its headers are in memory.
    ghost predicate Linked()
      reads this, mem
    {
      && base > 0 && head == base
      && Tiled(blocks, base, base + HEAP_SIZE)
      && Matches(mem[..], base, blocks)
    }

    ghost predicate Valid()
      reads this, mem
    {
      && mem.Length == HEAP_SIZE
      && if base == 0 then head == 0 && blocks == [] else Linked() && NoAdjacentFree(blocks)
    }

    ghost predicate LivePtr(p: nat)
      reads this
    {
      exists k: nat :: IsLive(blocks, p, k)
    }

    // heap_init, over the pages pmm_alloc_pages returned; zero when it had none.
    constructor (pages: nat)
      ensures Valid() && base == pages && fresh(mem)
      ensures blocks == if pages == 0 then [] else Initial(pages)
    {
      base := pages;
      mem := new Cell[HEAP_SIZE](_ => Payload(0));
      head := pages;
      blocks := if pages == 0 then [] else Initial(pages);
      new;
      if pages != 0 {
        mem[0] := Header(HEAP_SIZE - 24, true, HEAP_MAGIC, 0);
      }
    }

    // find_free: the first free block that is large enough, or null.
    method FindFree(size: nat) returns (b: nat, ghost k: nat)
      requires Valid()
      ensures b == 0 <==> NoFit(blocks, size)
      ensures b != 0 ==> IsFirstFit(blocks, size, k) && b == blocks[k].addr
    {
      b, k := head, 0;
      while b != 0
        invariant k <= |blocks| && (b == 0 <==> k == |blocks|)
        invariant b != 0 ==> b == blocks[k].addr
        invariant forall i | 0 <= i < k :: !(blocks[i].free && blocks[i].size >= size)
        decreases |blocks| - k
      {
        assert HeaderAt(mem[..], base, blocks, k);
        var cur := mem[b - base];
        if cur.free && cur.size >= size { return; }
        b := cur.next;
        k := k + 1;
      }
    }

    // Writing the 24 bytes of a header over whatever was there.
    method WriteHeader(a: nat, h: Cell)
      requires base <= a && a + 24 <= base + mem.Length
      modifies mem
      ensures mem[a - base] == h
      ensures ChangedWithin(old(mem[..]), mem[..], base, a, a + 24)
    {
      for i := 1 to 24
        invariant forall c | 0 <= c < mem.Length && !(a - base < c < a - base + i) :: mem[c] == old(mem[c])
      {
        mem[a - base + i] := Inner;
      }
      mem[a - base] := h;
    }

    // kmalloc: the first fit, split when the rest can hold a header and 16 bytes.
    method Kmalloc(request: Word) returns (p: nat)
      requires Valid()
      modifies this`blocks, mem
      ensures Valid()
      ensures p == 0 <==> request == 0 || NoFit(old(blocks), RoundUp(request))
      ensures p == 0 ==> blocks == old(blocks) && mem[..] == old(mem[..])
      ensures p != 0 ==> Allocated(old(blocks), blocks, old(mem[..]), mem[..], base, p, RoundUp(request))
    {
      if request == 0 { return 0; }
      var size := RoundUp(request);
      var b, k := FindFree(size);
      if b == 0 { return 0; }
      TakeBlock(b, k, size);
      p := b + 24;
    }

    // Requests one after the other, of a fresh heap: they are all met just when they fit in
    // it together with their headers.
    method KmallocAll(requests: seq<Word>) returns (ps: seq<nat>)
      requires Valid() && base != 0 && blocks == Initial(base)
      requires forall i | 0 <= i < |requests| :: 0 < requests[i] <= 0x1_0000_0000_0000_0000 - 16
      modifies this`blocks, mem
      ensures Valid() && |ps| == |requests|
      ensures 0 !in ps <==> Space(requests) <= HEAP_SIZE
      ensures 0 !in ps ==> forall i, j | 0 <= i < j < |ps| :: ps[i] != ps[j]
      ensures 0 !in ps ==> forall i | 0 <= i < |ps| :: ps[i] in LivePtrs(blocks)
    {
      ps := [];
      assert requests[..|requests|] == requests;
      ghost var s := 0;
      while |ps| < |requests|
        invariant Valid() && |ps| <= |requests| && s == Space(requests[..|ps|])
        invariant 0 !in ps <==> s <= HEAP_SIZE
        invariant 0 !in ps ==> Filling(blocks, s) && AllLive(ps, blocks)
        decreases |requests| - |ps|
      {
        var request := requests[|ps|];
        ghost var done := requests[..|ps| + 1];
        assert done[..|ps|] == requests[..|ps|];
        var p := KmallocNext(request, s, ps);
        ps, s := ps + [p], s + RoundUp(request) + 24;
      }
    }

    method KmallocNext(request: Word, ghost s: nat, ghost ps: seq<nat>) returns (p: nat)
      requires Valid() && base != 0 && 0 < request <= 0x1_0000_0000_0000_0000 - 16
      requires 0 !in ps ==> Filling(blocks, s) && AllLive(ps, blocks)
      modifies this`blocks, mem
      ensures Valid()
      ensures 0 !in ps ==> (p != 0 <==> s + RoundUp(request) + 24 <= HEAP_SIZE)
      ensures 0 !in ps + [p] ==> Filling(blocks, s + RoundUp(request) + 24) && AllLive(ps + [p], blocks)
    {
      RoundUpCovers(request);
      if 0 !in ps { FillFits(blocks, s, RoundUp(request)); }
      p := Kmalloc(request);
      if 0 !in ps && p != 0 {
        MetNext(old(blocks), blocks, old(mem[..]), mem[..], base, p, RoundUp(request), s, ps);
      }
    }

    method TakeBlock(b: nat, ghost k: nat, size: nat)
      requires Valid() && IsFirstFit(blocks, size, k) && b == blocks[k].addr
      modifies this`blocks, mem
      ensures Valid() && blocks == Take(old(blocks), k, size)
      ensures ChangedWithin(old(mem[..]), mem[..], base, b, old(blocks)[k].End())
    {
      Within(blocks, base, base + HEAP_SIZE, k);
      TakeWellFormed(blocks, base, k, size);
      assert HeaderAt(mem[..], base, blocks, k);
      var h := mem[b - base];
      ghost var was := mem[..];
      if h.size >= size + 24 + 16 {
        var n := b + 24 + size;
        WriteHeader(n, Header(h.size - size - 24, true, HEAP_MAGIC, h.next));
        mem[b - base] := h.(size := size, next := n);
        mem[b - base] := mem[b - base].(free := false);
        SplitHeaders(was, mem[..], base, blocks, k, size);
      } else {
        mem[b - base] := h.(free := false);
        SetHeader(was, base, blocks, k, blocks[k].(free := false));
        assert mem[..] == was[b - base := Header(h.size, false, HEAP_MAGIC, NextOf(blocks, k))];
      }
      blocks := Take(blocks, k, size);
    }

    // kfree of a pointer kmalloc returned: the block becomes free and joins its free
    // neighbours.
    method Kfree(ptr: nat)
      requires Valid() && (ptr != 0 ==> LivePtr(ptr))
      modifies this`blocks, mem
      ensures Valid()
      ensures ptr == 0 ==> blocks == old(blocks) && mem[..] == old(mem[..])
      ensures ptr != 0 ==> exists k: nat :: IsLive(old(blocks), ptr, k) && blocks == Release(old(blocks), k)
      ensures forall b | b in Live(old(blocks)) && b.Ptr() != ptr :: PayloadKept(old(mem[..]), mem[..], base, b)
    {
      if ptr == 0 { return; }
      ghost var bs := blocks;
      ghost var k: nat :| IsLive(bs, ptr, k);
      var b := ptr - 24;
      assert HeaderAt(mem[..], base, bs, k);
      ReleaseWellFormed(bs, base, k);
      if mem[b - base].magic != HEAP_MAGIC { return; }
      MarkFree(b, k);
      JoinNext(b, k);
      JoinPrev(b, k);
      ReleasedKept(old(mem[..]), mem[..], base, bs, k);
    }

    // b->free = 1
    method MarkFree(b: nat, ghost k: nat)
      requires Linked() && k < |blocks| && b == blocks[k].addr
      modifies this`blocks, mem
      ensures Linked() && blocks == old(blocks)[k := old(blocks)[k].(free := true)]
      ensures forall c | 0 <= c < mem.Length && base + c != b :: mem[c] == old(mem[c])
    {
      ghost var was := mem[..];
      assert HeaderAt(was, base, blocks, k);
      SetHeader(was, base, blocks, k, blocks[k].(free := true));
      MarkTiled(blocks, base, base + HEAP_SIZE, k);
      mem[b - base] := mem[b - base].(free := true);
      assert mem[..] == was[b - base := Header(blocks[k].size, true, HEAP_MAGIC, NextOf(blocks, k))];
      blocks := blocks[k := blocks[k].(free := true)];
    }

    // The merge with the next block.
    method JoinNext(b: nat, ghost k: nat)
      requires Linked() && k < |blocks| && b == blocks[k].addr
      modifies this`blocks, mem
      ensures Linked() && blocks == MergeNext(old(blocks), k)
      ensures forall c | 0 <= c < mem.Length && base + c != b :: mem[c] == old(mem[c])
    {
      assert HeaderAt(mem[..], base, blocks, k);
      var next := mem[b - base].next;
      if next != 0 {
        assert HeaderAt(mem[..], base, blocks, k + 1);
        if mem[next - base].free {
          Absorb(b, next, k);
        }
      }
    }

    // The merge into the block before, looked for from the head on.
    method JoinPrev(b: nat, ghost k: nat)
      requires Linked() && k < |blocks| && b == blocks[k].addr
      modifies this`blocks, mem
      ensures Linked() && blocks == MergePrev(old(blocks), k)
      ensures forall c | 0 <= c < mem.Length && (k == 0 || base + c != old(blocks)[k - 1].addr) :: mem[c] == old(mem[c])
    {
      var cur := FindPrev(b, k);
      if k > 0 { Within(blocks, base, base + HEAP_SIZE, k - 1); }
      if cur != 0 {
        assert HeaderAt(mem[..], base, blocks, k - 1);
        if mem[cur - base].free {
          Absorb(cur, b, k - 1);
        }
      }
    }

    method FindPrev(b: nat, ghost k: nat) returns (cur: nat)
      requires Linked() && k < |blocks| && b == blocks[k].addr
      ensures cur == if k == 0 then 0 else blocks[k - 1].addr
    {
      cur := head;
      ghost var j := 0;
      assert HeaderAt(mem[..], base, blocks, 0);
      while cur != 0 && mem[cur - base].next != b
        invariant j <= |blocks| && (cur == 0 <==> j == |blocks|)
        invariant cur != 0 ==> cur == blocks[j].addr && HeaderAt(mem[..], base, blocks, j)
        invariant k > 0 ==> j < k
        decreases |blocks| - j
      {
        cur := mem[cur - base].next;
        j := j + 1;
        if j < |blocks| { assert HeaderAt(mem[..], base, blocks, j); }
      }
      if cur != 0 {
        NextIsUnique(blocks, base, base + HEAP_SIZE, j, k);
      }
    }

    // Block a takes over block n after it.
    method Absorb(a: nat, n: nat, ghost k: nat)
      requires Linked() && k + 1 < |blocks| && a == blocks[k].addr && n == blocks[k + 1].addr
      modifies this`blocks, mem
      ensures Linked() && blocks == MergeAt(old(blocks), k)
      ensures forall c | 0 <= c < mem.Length && base + c != a :: mem[c] == old(mem[c])
    {
      ghost var was := mem[..];
      assert HeaderAt(was, base, blocks, k) && HeaderAt(was, base, blocks, k + 1);
      MergeHeaders(was, base, blocks, k);
      MergeTiled(blocks, base, base + HEAP_SIZE, k);
      mem[a - base] := mem[a - base].(size := mem[a - base].size + 24 + mem[n - base].size);
      mem[a - base] := mem[a - base].(next := mem[n - base].next);
      assert mem[..] == was[a - base :=
        Header(blocks[k].size + 24 + blocks[k + 1].size, blocks[k].free, HEAP_MAGIC, NextOf(blocks, k + 1))];
      blocks := MergeAt(blocks, k);
    }

    // kcalloc.  n * size is a size_t product; one that kmalloc would round down to
    // nothing is cleared far beyond the heap, so it is excluded.
    method Kcalloc(n: Word, size: Word) returns (p: nat)
      requires Valid() && Wrap(n * size) <= 0x1_0000_0000_0000_0000 - 16
      modifies this`blocks, mem
      ensures Valid()
      ensures p == 0 <==> Wrap(n * size) == 0 || NoFit(old(blocks), RoundUp(Wrap(n * size)))
      ensures p == 0 ==> blocks == old(blocks) && mem[..] == old(mem[..])
      ensures p != 0 ==> exists k: nat ::
        && IsLive(blocks, p, k) && Wrap(n * size) <= blocks[k].size
        && Live(blocks) == Live(old(blocks)) + {blocks[k]} && blocks[k] !in Live(old(blocks))
        && Cleared(p, Wrap(n * size))
      ensures forall b | b in Live(old(blocks)) :: PayloadKept(old(mem[..]), mem[..], base, b)
    {
      var tot := Wrap(n * size);
      p := Kmalloc(tot);
      if p != 0 {
        ghost var k := AllocatedBlock(old(blocks), blocks, old(mem[..]), mem[..], base, p, RoundUp(tot));
        RoundUpCovers(tot);
        ghost var m1 := mem[..];
        Clear(p, k, tot);
        OthersKept(m1, mem[..], base, blocks, k);
      }
    }

    ghost predicate Cleared(p: nat, n: nat)
      reads mem
    {
      base <= p && p + n <= base + mem.Length && forall c | p - base <= c < p - base + n :: mem[c] == Payload(0)
    }

    method Clear(p: nat, ghost k: nat, n: nat)
      requires Valid() && IsLive(blocks, p, k) && n <= blocks[k].size
      modifies mem
      ensures Valid() && Cleared(p, n)
      ensures ChangedWithin(old(mem[..]), mem[..], base, p, p + n)
    {
      Within(blocks, base, base + HEAP_SIZE, k);
      ghost var was := mem[..];
      for i := 0 to n
        invariant ChangedWithin(was, mem[..], base, p, p + i)
        invariant forall c | p - base <= c < p - base + i :: mem[c] == Payload(0)
      {
        mem[p + i - base] := Payload(0);
      }
      PayloadWrite(was, mem[..], base, blocks, k);
    }

    // krealloc: in place if the block is large enough; else a new block with the old
    // contents, or null with everything as it was.  Other payloads stay.
    method Krealloc(ptr: nat, size: Word) returns (p: nat)
      requires Valid() && (ptr != 0 ==> LivePtr(ptr)) && size <= 0x1_0000_0000_0000_0000 - 16
      modifies this`blocks, mem
      ensures Valid()
      ensures forall b | b in Live(old(blocks)) && b.Ptr() != ptr :: PayloadKept(old(mem[..]), mem[..], base, b)
      ensures ptr == 0 && p != 0 ==> Allocated(old(blocks), blocks, old(mem[..]), mem[..], base, p, RoundUp(size))
      ensures ptr != 0 && size == 0 ==> p == 0 && LivePtrs(blocks) == old(LivePtrs(blocks)) - {ptr}
      ensures size > 0 ==> (p == 0 <==> !old(FitsInPlace(ptr, size)) && NoFit(old(blocks), RoundUp(size)))
      ensures p == 0 && (ptr == 0 || size > 0) ==> blocks == old(blocks) && mem[..] == old(mem[..])
      ensures ptr != 0 && size > 0 && old(FitsInPlace(ptr, size)) ==>
        p == ptr && blocks == old(blocks) && mem[..] == old(mem[..])
      ensures ptr != 0 && size > 0 && !old(FitsInPlace(ptr, size)) ==> p != ptr
      ensures ptr != 0 && size > 0 && p != 0 ==>
        && LivePtrs(blocks) == old(LivePtrs(blocks)) - {ptr} + {p}
        && (exists k: nat :: IsLive(blocks, p, k) && blocks[k].size >= size)
        && forall k: nat | IsLive(old(blocks), ptr, k) ::
            Moved(old(mem[..]), mem[..], base, ptr, p, old(blocks)[k].size)
    {
      if ptr == 0 {
        p := Kmalloc(size);
        if p != 0 { var _ := AllocatedBlock(old(blocks), blocks, old(mem[..]), mem[..], base, p, RoundUp(size)); }
        return;
      }
      ghost var k: nat :| IsLive(blocks, ptr, k);
      OneLiveBlock(blocks, base, ptr, k);
      if size == 0 {
        FreePtr(ptr);
        return 0;
      }
      var b := ptr - 24;
      assert HeaderAt(mem[..], base, blocks, k);
      var oldSize := mem[b - base].size;
      if oldSize >= size {
        Within(blocks, base, base + HEAP_SIZE, k);
        return ptr;
      }
      p := Grow(ptr, oldSize, size, k);
    }

    method Grow(ptr: nat, oldSize: nat, size: Word, ghost k: nat) returns (p: nat)
      requires Valid() && IsLive(blocks, ptr, k) && blocks[k].size == oldSize < size
      requires size <= 0x1_0000_0000_0000_0000 - 16
      modifies this`blocks, mem
      ensures Valid()
      ensures p == 0 <==> NoFit(old(blocks), RoundUp(size))
      ensures p == 0 ==> blocks == old(blocks) && mem[..] == old(mem[..])
      ensures p != ptr
      ensures p != 0 ==> LivePtrs(blocks) == old(LivePtrs(blocks)) - {ptr} + {p}
      ensures p != 0 ==> exists j: nat :: IsLive(blocks, p, j) && blocks[j].size >= size
      ensures p != 0 ==> Moved(old(mem[..]), mem[..], base, ptr, p, oldSize)
      ensures forall b | b in Live(old(blocks)) && b.Ptr() != ptr :: PayloadKept(old(mem[..]), mem[..], base, b)
    {
      p := Kmalloc(size);
      if p == 0 { return; }
      ghost var j := AllocatedBlock(old(blocks), blocks, old(mem[..]), mem[..], base, p, RoundUp(size));
      RoundUpCovers(size);
      AllocatedPtrs(old(blocks), blocks, j);
      ghost var c, m1 := old(blocks)[k], mem[..];
      assert c in Live(old(blocks)) && p !in old(LivePtrs(blocks));
      Within(old(blocks), base, base + HEAP_SIZE, k);
      Relocate(ptr, p, oldSize, c, j);
      MovedSince(old(mem[..]), m1, mem[..], base, c, p);
      forall b | b in Live(old(blocks)) && b.Ptr() != ptr ensures PayloadKept(old(mem[..]), mem[..], base, b) {
        assert PayloadKept(old(mem[..]), m1, base, b) && PayloadKept(m1, mem[..], base, b);
      }
    }

    // heap_used and heap_free; with the headers they account for the whole heap.
    method HeapUsed() returns (used: nat)
      requires Valid()
      ensures used == UsedBytes(blocks)
      ensures base != 0 ==> used + FreeBytes(blocks) + 24 * |blocks| == HEAP_SIZE
    {
      used := 0;
      var cur := head;
      ghost var k := 0;
      while cur != 0
        invariant k <= |blocks| && (cur == 0 <==> k == |blocks|)
        invariant cur != 0 ==> cur == blocks[k].addr
        invariant used + UsedBytes(blocks[k..]) == UsedBytes(blocks)
        decreases |blocks| - k
      {
        assert HeaderAt(mem[..], base, blocks, k) && blocks[k..][1..] == blocks[k + 1..];
        if !mem[cur - base].free { used := used + mem[cur - base].size; }
        cur := mem[cur - base].next;
        k := k + 1;
      }
      if base != 0 { Conservation(blocks, base, base + HEAP_SIZE); }
    }

    method HeapFree() returns (free: nat)
      requires Valid()
      ensures free == FreeBytes(blocks)
      ensures base != 0 ==> UsedBytes(blocks) + free + 24 * |blocks| == HEAP_SIZE
    {
      free := 0;
      var cur := head;
      ghost var k := 0;
      while cur != 0
        invariant k <= |blocks| && (cur == 0 <==> k == |blocks|)
        invariant cur != 0 ==> cur == blocks[k].addr
        invariant free + FreeBytes(blocks[k..]) == FreeBytes(blocks)
        decreases |blocks| - k
      {
        assert HeaderAt(mem[..], base, blocks, k) && blocks[k..][1..] == blocks[k + 1..];
        if mem[cur - base].free { free := free + mem[cur - base].size; }
        cur := mem[cur - base].next;
        k := k + 1;
      }
      if base != 0 { Conservation(blocks, base, base + HEAP_SIZE); }
    }

    ghost predicate FitsInPlace(ptr: nat, size: nat)
      reads this
    {
      exists k: nat :: IsLive(blocks, ptr, k) && blocks[k].size >= size
    }

    // Kfree, with what it does to the set of live pointers.
    method FreePtr(ptr: nat)
      requires Valid() && ptr != 0 && LivePtr(ptr)
      modifies this`blocks, mem
      ensures Valid()
      ensures LivePtrs(blocks) == old(LivePtrs(blocks)) - {ptr}
      ensures Live(blocks) == set b | b in Live(old(blocks)) && b.Ptr() != ptr
      ensures forall b | b in Live(old(blocks)) && b.Ptr() != ptr :: PayloadKept(old(mem[..]), mem[..], base, b)
    {
      Kfree(ptr);
      ghost var k: nat :| IsLive(old(blocks), ptr, k) && blocks == Release(old(blocks), k);
      ReleasePtrs(old(blocks), base, ptr, k);
      ReleaseLive(old(blocks), base, k);
      OneLiveBlock(old(blocks), base, ptr, k);
    }

    // The copy to the new block and the release of the old one, c.
    method Relocate(ptr: nat, p: nat, n: nat, ghost c: Block, ghost j: nat)
      requires Valid() && c in Live(blocks) && c.Ptr() == ptr && c.size == n
      requires IsLive(blocks, p, j) && p != ptr && n <= blocks[j].size
      modifies this`blocks, mem
      ensures Valid()
      ensures LivePtrs(blocks) == old(LivePtrs(blocks)) - {ptr}
      ensures exists k: nat :: IsLive(blocks, p, k) && blocks[k].size == old(blocks)[j].size
      ensures Moved(old(mem[..]), mem[..], base, ptr, p, n)
      ensures forall b | b in Live(old(blocks)) && b.Ptr() != ptr && b.Ptr() != p ::
        PayloadKept(old(mem[..]), mem[..], base, b)
    {
      ghost var i: nat :| i < |blocks| && blocks[i] == c;
      ghost var target := blocks[j];
      Copy(ptr, p, n, i, j);
      ghost var m1 := mem[..];
      OthersKept(old(mem[..]), m1, base, blocks, j);
      Within(blocks, base, base + HEAP_SIZE, j);
      assert target in Live(blocks) && IsLive(blocks, ptr, i);
      FreePtr(ptr);
      assert target in Live(blocks) && PayloadKept(m1, mem[..], base, target);
      ghost var k: nat :| k < |blocks| && blocks[k] == target;
      assert IsLive(blocks, p, k);
      forall b | b in Live(old(blocks)) && b.Ptr() != ptr && b.Ptr() != p
        ensures PayloadKept(old(mem[..]), mem[..], base, b)
      {
        assert PayloadKept(old(mem[..]), m1, base, b) && PayloadKept(m1, mem[..], base, b);
      }
    }

    method Copy(ptr: nat, p: nat, n: nat, ghost i: nat, ghost j: nat)
      requires Valid() && IsLive(blocks, ptr, i) && IsLive(blocks, p, j) && p != ptr
      requires n <= blocks[i].size && n <= blocks[j].size
      modifies mem
      ensures Valid()
      ensures Moved(old(mem[..]), mem[..], base, ptr, p, n)
      ensures ChangedWithin(old(mem[..]), mem[..], base, p, p + n)
    {
      Within(blocks, base, base + HEAP_SIZE, i);
      Within(blocks, base, base + HEAP_SIZE, j);
      Apart(blocks, base, base + HEAP_SIZE, i, j);
      ghost var was := mem[..];
      CopyCells(ptr, p, n);
      PayloadWrite(was, mem[..], base, blocks, j);
    }

    method CopyCells(ptr: nat, p: nat, n: nat)
      requires base <= ptr && ptr + n <= base + mem.Length && base <= p && p + n <= base + mem.Length
      requires p + n <= ptr || ptr + n <= p
      modifies mem
      ensures Moved(old(mem[..]), mem[..], base, ptr, p, n)
      ensures ChangedWithin(old(mem[..]), mem[..], base, p, p + n)
    {
      for k := 0 to n
        invariant ChangedWithin(old(mem[..]), mem[..], base, p, p + k)
        invariant Moved(old(mem[..]), mem[..], base, ptr, p, k)
      {
        mem[p + k - base] := mem[ptr + k - base];
      }
    }
  }

  lemma NextIsUnique(bs: seq<Block>, lo: nat, hi: nat, j: nat, k: nat)
    requires Tiled(bs, lo, hi) && lo > 0 && j < |bs| && k < |bs| && NextOf(bs, j) == bs[k].addr
    ensures k == j + 1
  {
    if j + 1 < |bs| && k != j + 1 { Apart(bs, lo, hi, j + 1, k); }
    Within(bs, lo, hi, k);
  }

  // A free touches headers only, so every other payload is kept.
  lemma ReleasedKept(m: seq<Cell>, m': seq<Cell>, base: nat, bs: seq<Block>, k: nat)
    requires WellFormed(bs, base) && k < |bs| && |m'| == |m|
    requires forall c | 0 <= c < |m| && base + c != bs[k].addr && (k == 0 || base + c != bs[k - 1].addr) ::
        m'[c] == m[c]
    ensures forall b | b in Live(bs) :: PayloadKept(m, m', base, b)
  {
    forall b | b in Live(bs) ensures PayloadKept(m, m', base, b) {
      var j: nat :| j < |bs| && bs[j] == b;
      if j != k { Apart(bs, base, base + HEAP_SIZE, j, k); }
      if k > 0 && j != k - 1 { Apart(bs, base, base + HEAP_SIZE, j, k - 1); }
    }
  }
}
