// The block list of kernel/heap.c as a value: what splitting and merging do to it.
module HeapBlocks {
  import opened Words

  const HEAP_SIZE: int := 1048576

  // A block: a header of 24 bytes at addr, then size bytes of payload.
  datatype Block = Block(addr: nat, size: nat, free: bool) {
    function End(): nat { addr + 24 + size }

    function Ptr(): nat { addr + 24 }
  }

  // (size + 15) & ~15 in size_t
  function RoundUp(size: Word): Word { Wrap(size + 15) - Wrap(size + 15) % 16 }

  // The rounding is enough for the request unless size + 15 wraps around.
  lemma RoundUpCovers(size: Word)
    ensures RoundUp(size) >= size <==> size <= 0x1_0000_0000_0000_0000 - 16
    ensures RoundUp(size) < size ==> RoundUp(size) == 0
    ensures RoundUp(size) % 16 == 0 && RoundUp(size) < size + 16
  {
  }

  // ---- Well-formed lists ----

  // The blocks follow each other without a gap from lo to hi.
  ghost predicate Tiled(bs: seq<Block>, lo: nat, hi: nat) {
    && |bs| > 0 && bs[0].addr == lo && bs[|bs| - 1].End() == hi
    && forall i | 0 <= i < |bs| - 1 :: bs[i].End() == bs[i + 1].addr
  }

  ghost predicate NoAdjacentFree(bs: seq<Block>) {
    forall i | 0 <= i < |bs| - 1 :: !(bs[i].free && bs[i + 1].free)
  }

  ghost predicate WellFormed(bs: seq<Block>, lo: nat) {
    Tiled(bs, lo, lo + HEAP_SIZE) && NoAdjacentFree(bs)
  }

  function Initial(lo: nat): seq<Block> { [Block(lo, HEAP_SIZE - 24, true)] }

  lemma {:induction false} Ascending(bs: seq<Block>, lo: nat, hi: nat, i: nat, j: nat)
    requires Tiled(bs, lo, hi) && i < j < |bs|
    ensures bs[i].End() <= bs[j].addr
    decreases j
  {
    if i + 1 < j {
      Ascending(bs, lo, hi, i, j - 1);
    }
    assert bs[j - 1].End() == bs[j].addr;
  }

  lemma Within(bs: seq<Block>, lo: nat, hi: nat, i: nat)
    requires Tiled(bs, lo, hi) && i < |bs|
    ensures lo <= bs[i].addr && bs[i].End() <= hi
  {
    if i > 0 { Ascending(bs, lo, hi, 0, i); }
    if i < |bs| - 1 { Ascending(bs, lo, hi, i, |bs| - 1); }
  }

  // Two different blocks do not overlap, headers included.
  lemma Apart(bs: seq<Block>, lo: nat, hi: nat, i: nat, j: nat)
    requires Tiled(bs, lo, hi) && i < |bs| && j < |bs| && i != j
    ensures bs[i].End() <= bs[j].addr || bs[j].End() <= bs[i].addr
  {
    if i < j { Ascending(bs, lo, hi, i, j); } else { Ascending(bs, lo, hi, j, i); }
  }

  // ---- Conservation ----

  ghost function UsedBytes(bs: seq<Block>): nat {
    if bs == [] then 0 else (if bs[0].free then 0 else bs[0].size) + UsedBytes(bs[1..])
  }

  ghost function FreeBytes(bs: seq<Block>): nat {
    if bs == [] then 0 else (if bs[0].free then bs[0].size else 0) + FreeBytes(bs[1..])
  }

  lemma {:induction false} Conservation(bs: seq<Block>, lo: nat, hi: nat)
    requires Tiled(bs, lo, hi)
    ensures UsedBytes(bs) + FreeBytes(bs) + 24 * |bs| == hi - lo
  {
    if |bs| > 1 {
      assert bs[0].End() == bs[1].addr;
      var rest := bs[1..];
      forall i | 0 <= i < |rest| - 1 ensures rest[i].End() == rest[i + 1].addr {
        assert bs[i + 1].End() == bs[i + 1 + 1].addr;
      }
      Conservation(bs[1..], bs[1].addr, hi);
    } else {
      assert bs[1..] == [];
    }
  }

  // ---- Allocation: taking block k ----

  ghost predicate IsFirstFit(bs: seq<Block>, n: nat, k: nat) {
    && k < |bs| && bs[k].free && bs[k].size >= n
    && forall i | 0 <= i < k :: !(bs[i].free && bs[i].size >= n)
  }

  ghost predicate NoFit(bs: seq<Block>, n: nat) {
    forall i | 0 <= i < |bs| :: !(bs[i].free && bs[i].size >= n)
  }

  ghost function Take(bs: seq<Block>, k: nat, n: nat): seq<Block>
    requires k < |bs| && bs[k].size >= n
  {
    if bs[k].size >= n + 24 + 16 then Split(bs, k, n) else bs[k := bs[k].(free := false)]
  }

  ghost function Split(bs: seq<Block>, k: nat, n: nat): seq<Block>
    requires k < |bs| && bs[k].size >= n + 24
  {
    bs[..k] + [Block(bs[k].addr, n, false), Block(bs[k].addr + 24 + n, bs[k].size - n - 24, true)] + bs[k + 1..]
  }

  ghost function Live(bs: seq<Block>): set<Block> { set b | b in bs && !b.free }

  lemma TakeWellFormed(bs: seq<Block>, lo: nat, k: nat, n: nat)
    requires WellFormed(bs, lo) && k < |bs| && bs[k].free && bs[k].size >= n
    ensures WellFormed(Take(bs, k, n), lo)
  {
    if bs[k].size >= n + 24 + 16 {
      var t := Split(bs, k, n);
      forall i | 0 <= i < |t| - 1 ensures t[i].End() == t[i + 1].addr && !(t[i].free && t[i + 1].free) {
        if i + 1 < k { assert t[i] == bs[i] && t[i + 1] == bs[i + 1]; }
        else if i + 1 == k { assert t[i] == bs[i] && bs[i].End() == bs[i + 1].addr; }
        else if i > k { assert t[i + 1] == bs[i]; assert bs[i - 1].End() == bs[i - 1 + 1].addr; }
      }
    } else {
      var t := bs[k := bs[k].(free := false)];
      assert forall i | 0 <= i < |t| - 1 :: bs[i].End() == bs[i + 1].addr && t[i].End() == t[i + 1].addr;
    }
  }

  // The blocks in use are those before and the one handed out, which was not among them.
  lemma TakeLive(bs: seq<Block>, lo: nat, k: nat, n: nat)
    requires WellFormed(bs, lo) && k < |bs| && bs[k].free && bs[k].size >= n
    ensures var t := Take(bs, k, n);
      && k < |t| && t[k].addr == bs[k].addr && t[k].size >= n
      && t[k] !in Live(bs) && Live(t) == Live(bs) + {t[k]}
  {
    var t := Take(bs, k, n);
    forall i: nat | i < |bs| ensures bs[i] != t[k] {
      if i != k { Apart(bs, lo, lo + HEAP_SIZE, i, k); }
    }
    if bs[k].size >= n + 24 + 16 {
      assert bs == bs[..k] + [bs[k]] + bs[k + 1..];
      assert forall b: Block :: b in t <==> b in bs[..k] || b == t[k] || b == t[k + 1] || b in bs[k + 1..];
    } else {
      UpdateMembers(bs, k, t[k]);
    }
  }

  // ---- What an allocation leaves ----

  lemma {:induction false} FreeBytesMore(a: seq<Block>, b: seq<Block>)
    ensures FreeBytes(a + b) == FreeBytes(a) + FreeBytes(b)
  {
    if a == [] {
      assert a + b == b;
    } else {
      assert (a + b)[1..] == a[1..] + b;
      FreeBytesMore(a[1..], b);
    }
  }

  lemma FreeBytesAt(bs: seq<Block>, k: nat)
    requires k < |bs|
    ensures FreeBytes(bs) == FreeBytes(bs[..k]) + (if bs[k].free then bs[k].size else 0) + FreeBytes(bs[k + 1..])
  {
    FreeBytesMore(bs[..k], bs[k..]);
    assert bs == bs[..k] + bs[k..] && bs[k..][1..] == bs[k + 1..];
  }

  // The block handed out is less than a header and 16 bytes larger than asked for, and no
  // more than that is lost to the free bytes besides it.
  lemma TakeRest(bs: seq<Block>, k: nat, n: nat)
    requires k < |bs| && bs[k].free && bs[k].size >= n
    ensures var t := Take(bs, k, n);
      && k < |t| && n <= t[k].size < n + 40 && FreeBytes(t) <= FreeBytes(bs) <= FreeBytes(t) + n + 39
  {
    var t := Take(bs, k, n);
    FreeBytesAt(bs, k);
    FreeBytesAt(t, k);
    assert t[..k] == bs[..k];
    if |t| > |bs| {
      assert t[k + 1..] == [t[k + 1]] + bs[k + 1..];
    } else {
      assert t[k + 1..] == bs[k + 1..];
    }
  }

  // Sizes are multiples of 8, and no block is too small to be of use.  A fresh heap is so.
  ghost predicate Sized(bs: seq<Block>) { forall i | 0 <= i < |bs| :: SizeOk(bs[i].size) }

  predicate SizeOk(size: nat) { size >= 16 && size % 8 == 0 }

  lemma TakeSized(bs: seq<Block>, k: nat, n: nat)
    requires Sized(bs) && k < |bs| && bs[k].size >= n && n >= 16 && n % 16 == 0
    ensures Sized(Take(bs, k, n))
  {
    var t := Take(bs, k, n);
    assert SizeOk(bs[k].size) && SizeOk(n);
    if |t| > |bs| { CutSized(bs[k].size, n); }
    forall i | 0 <= i < |t| ensures SizeOk(t[i].size) {
      if |t| > |bs| && i > k + 1 { assert t[i] == bs[i - 1]; }
    }
  }

  lemma CutSized(size: nat, n: nat)
    requires SizeOk(size) && SizeOk(n) && size >= n + 24 + 16
    ensures SizeOk(size - n - 24)
  {
  }

  lemma ReleaseSized(bs: seq<Block>, k: nat)
    requires Sized(bs) && k < |bs|
    ensures Sized(Release(bs, k))
  {
    var b1 := bs[k := bs[k].(free := true)];
    var b2 := MergeNext(b1, k);
    assert Sized(b1);
    if k + 1 < |b1| { MergeSized(b1, k); }
    if 0 < k < |b2| { MergeSized(b2, k - 1); }
  }

  lemma MergeSized(bs: seq<Block>, k: nat)
    requires Sized(bs) && k + 1 < |bs|
    ensures Sized(MergeAt(bs, k))
  {
    MergeElements(bs, k);
    assert SizeOk(bs[k].size) && SizeOk(bs[k + 1].size);
  }

  // So every pointer handed out is a multiple of 8.
  lemma {:induction false} SizedAligned(bs: seq<Block>, lo: nat, hi: nat, i: nat)
    requires Sized(bs) && Tiled(bs, lo, hi) && lo % 8 == 0 && i < |bs|
    ensures bs[i].Ptr() % 8 == 0
  {
    if i > 0 {
      SizedAligned(bs, lo, hi, i - 1);
      assert bs[i - 1].End() == bs[i - 1 + 1].addr;
    }
  }

  // ---- Filling a fresh heap ----

  // What requests take with their headers.
  function Space(requests: seq<Word>): nat {
    if requests == [] then 0
    else Space(requests[..|requests| - 1]) + RoundUp(requests[|requests| - 1]) + 24
  }

  lemma {:induction false} SpaceGrows(requests: seq<Word>, i: nat)
    requires i <= |requests|
    ensures Space(requests[..i]) <= Space(requests)
    decreases |requests|
  {
    if i < |requests| {
      var less := requests[..|requests| - 1];
      SpaceGrows(less, i);
      assert less[..i] == requests[..i];
    } else {
      assert requests[..i] == requests;
    }
  }

  // Only the last block can be free, and s bytes are gone; if it is not free, too few for
  // another block were left over.
  ghost predicate Filling(bs: seq<Block>, s: nat) {
    && bs != [] && (forall i | 0 <= i < |bs| - 1 :: !bs[i].free)
    && s <= HEAP_SIZE
    && if bs[|bs| - 1].free then bs[|bs| - 1].size + 24 + s == HEAP_SIZE else HEAP_SIZE < s + 40
  }

  // The next request is met just when there is room for it and its header.
  lemma FillFits(bs: seq<Block>, s: nat, n: nat)
    requires Filling(bs, s) && n >= 16
    ensures NoFit(bs, n) <==> s + n + 24 > HEAP_SIZE
  {
    assert bs[|bs| - 1].free && bs[|bs| - 1].size >= n ==> !NoFit(bs, n);
  }

  lemma FillStep(bs: seq<Block>, s: nat, n: nat, k: nat)
    requires Filling(bs, s) && n >= 16 && IsFirstFit(bs, n, k)
    ensures Filling(Take(bs, k, n), s + n + 24)
  {
    assert k == |bs| - 1;
  }

  lemma UpdateMembers(bs: seq<Block>, k: nat, x: Block)
    requires k < |bs|
    ensures forall b | b in bs && b != bs[k] :: b in bs[k := x]
    ensures forall b | b in bs[k := x] && b != x :: b in bs
  {
    assert bs == bs[..k] + [bs[k]] + bs[k + 1..];
    assert bs[k := x] == bs[..k] + [x] + bs[k + 1..];
  }

  // kmalloc fails only for want of room: there is no first fit exactly when no stretch of
  // header plus n bytes avoids all blocks in use.
  ghost predicate Gap(bs: seq<Block>, lo: nat, at: nat, n: nat) {
    && lo <= at && at + 24 + n <= lo + HEAP_SIZE
    && forall i | 0 <= i < |bs| && !bs[i].free :: at + 24 + n <= bs[i].addr || bs[i].End() <= at
  }

  lemma NoFitIffNoGap(bs: seq<Block>, lo: nat, n: nat)
    requires WellFormed(bs, lo)
    ensures NoFit(bs, n) <==> forall at: nat :: !Gap(bs, lo, at, n)
  {
    if !NoFit(bs, n) {
      var k :| 0 <= k < |bs| && bs[k].free && bs[k].size >= n;
      Within(bs, lo, lo + HEAP_SIZE, k);
      forall i | 0 <= i < |bs| && !bs[i].free
        ensures bs[k].addr + 24 + n <= bs[i].addr || bs[i].End() <= bs[k].addr
      {
        Apart(bs, lo, lo + HEAP_SIZE, i, k);
      }
      assert Gap(bs, lo, bs[k].addr, n);
    }
    forall at: nat | Gap(bs, lo, at, n) ensures !NoFit(bs, n) {
      var k := BlockAt(bs, lo, lo + HEAP_SIZE, at);
      assert bs[k].free;
      NextIsFree(bs, lo, n, at, k);
    }
  }

  lemma NextIsFree(bs: seq<Block>, lo: nat, n: nat, at: nat, k: nat)
    requires WellFormed(bs, lo) && Gap(bs, lo, at, n) && k < |bs| && bs[k].free
    requires bs[k].addr <= at < bs[k].End()
    ensures at + 24 + n <= bs[k].End()
  {
    if k < |bs| - 1 {
      assert bs[k].End() == bs[k + 1].addr && !(bs[k].free && bs[k + 1].free);
    }
  }

  lemma {:induction false} BlockAt(bs: seq<Block>, lo: nat, hi: nat, at: nat) returns (k: nat)
    requires Tiled(bs, lo, hi) && lo <= at < hi
    ensures k < |bs| && bs[k].addr <= at < bs[k].End()
  {
    k := 0;
    while bs[k].End() <= at
      invariant k < |bs| && bs[k].addr <= at
      decreases |bs| - k
    {
      assert bs[k].End() == bs[k + 1].addr;
      k := k + 1;
    }
  }

  // The first fit is at the lowest address where there is room at all.
  lemma FirstFitIsLowest(bs: seq<Block>, lo: nat, n: nat, k: nat, at: nat)
    requires WellFormed(bs, lo) && IsFirstFit(bs, n, k) && Gap(bs, lo, at, n)
    ensures bs[k].addr <= at
  {
    var j := BlockAt(bs, lo, lo + HEAP_SIZE, at);
    assert bs[j].free;
    NextIsFree(bs, lo, n, at, j);
    if k < j { Ascending(bs, lo, lo + HEAP_SIZE, k, j); }
  }

  // ---- Release: freeing block k and merging it with free neighbours ----

  ghost function MergeAt(bs: seq<Block>, k: nat): seq<Block>
    requires k + 1 < |bs|
  {
    bs[..k] + [Block(bs[k].addr, bs[k].size + 24 + bs[k + 1].size, bs[k].free)] + bs[k + 2..]
  }

  ghost function MergeNext(bs: seq<Block>, k: nat): seq<Block>
    requires k < |bs|
  {
    if k + 1 < |bs| && bs[k + 1].free then MergeAt(bs, k) else bs
  }

  ghost function MergePrev(bs: seq<Block>, k: nat): seq<Block>
    requires k < |bs|
  {
    if k > 0 && bs[k - 1].free then MergeAt(bs, k - 1) else bs
  }

  ghost function Release(bs: seq<Block>, k: nat): seq<Block>
    requires k < |bs|
  {
    MergePrev(MergeNext(bs[k := bs[k].(free := true)], k), k)
  }

  lemma MergeTiled(bs: seq<Block>, lo: nat, hi: nat, k: nat)
    requires Tiled(bs, lo, hi) && k + 1 < |bs|
    ensures Tiled(MergeAt(bs, k), lo, hi)
  {
    var t := MergeAt(bs, k);
    assert bs[k].End() == bs[k + 1].addr;
    assert t[k].End() == bs[k + 1].End();
    forall i | 0 <= i < |t| - 1 ensures t[i].End() == t[i + 1].addr {
      if i < k { assert t[i] == bs[i] && bs[i].End() == bs[i + 1].addr && t[i + 1].addr == bs[i + 1].addr; }
      else { assert t[i + 1] == bs[i + 2] && t[i].End() == bs[i + 1].End() && bs[i + 1].End() == bs[i + 1 + 1].addr; }
    }
  }

  lemma MergeElements(bs: seq<Block>, k: nat)
    requires k + 1 < |bs|
    ensures var t := MergeAt(bs, k);
      && |t| == |bs| - 1 && t[k].free == bs[k].free
      && (forall i | 0 <= i < k :: t[i] == bs[i])
      && (forall i | k < i < |t| :: t[i] == bs[i + 1])
  {
  }

  // No two neighbours are free, except perhaps block k and one next to it.
  ghost predicate FreeOnlyBeside(bs: seq<Block>, k: nat) {
    forall i | 0 <= i < |bs| - 1 && i != k && i + 1 != k :: !(bs[i].free && bs[i + 1].free)
  }

  lemma MergeNextBeside(bs: seq<Block>, k: nat)
    requires FreeOnlyBeside(bs, k) && k < |bs| && bs[k].free
    ensures var t := MergeNext(bs, k);
      k < |t| && t[k].free && FreeOnlyBeside(t, k) && (k + 1 < |t| ==> !t[k + 1].free)
  {
    if k + 1 < |bs| && bs[k + 1].free {
      MergeElements(bs, k);
      assert k + 2 < |bs| ==> !bs[k + 1 + 1].free;
      var t := MergeAt(bs, k);
      forall i | 0 <= i < |t| - 1 && i != k && i + 1 != k ensures !(t[i].free && t[i + 1].free) {
        if i > k { assert t[i] == bs[i + 1] && t[i + 1] == bs[i + 1 + 1]; }
      }
    }
  }

  lemma MergePrevBeside(bs: seq<Block>, k: nat)
    requires FreeOnlyBeside(bs, k) && k < |bs| && bs[k].free && (k + 1 < |bs| ==> !bs[k + 1].free)
    ensures NoAdjacentFree(MergePrev(bs, k))
  {
    if k > 0 && bs[k - 1].free {
      MergeElements(bs, k - 1);
      assert k > 1 ==> !bs[k - 2].free;
      var t := MergeAt(bs, k - 1);
      forall i | 0 <= i < |t| - 1 ensures !(t[i].free && t[i + 1].free) {
        if i >= k { assert t[i] == bs[i + 1] && t[i + 1] == bs[i + 1 + 1]; }
      }
    } else {
      forall i | 0 <= i < |bs| - 1 ensures !(bs[i].free && bs[i + 1].free) {
      }
    }
  }

  lemma MarkTiled(bs: seq<Block>, lo: nat, hi: nat, k: nat)
    requires Tiled(bs, lo, hi) && k < |bs|
    ensures var b1 := bs[k := bs[k].(free := true)];
      Tiled(b1, lo, hi) && (NoAdjacentFree(bs) ==> FreeOnlyBeside(b1, k))
  {
    var b1 := bs[k := bs[k].(free := true)];
    assert forall i | 0 <= i < |bs| - 1 :: bs[i].End() == bs[i + 1].addr && b1[i].End() == b1[i + 1].addr;
  }

  lemma ReleaseWellFormed(bs: seq<Block>, lo: nat, k: nat)
    requires WellFormed(bs, lo) && k < |bs| && !bs[k].free
    ensures WellFormed(Release(bs, k), lo)
  {
    var b1 := bs[k := bs[k].(free := true)];
    MarkTiled(bs, lo, lo + HEAP_SIZE, k);
    MergeNextBeside(b1, k);
    var b2 := MergeNext(b1, k);
    MergePrevBeside(b2, k);
    if k + 1 < |b1| && b1[k + 1].free { MergeTiled(b1, lo, lo + HEAP_SIZE, k); }
    if k > 0 && b2[k - 1].free { MergeTiled(b2, lo, lo + HEAP_SIZE, k - 1); }
  }

  // The blocks in use are those before without the one freed.
  lemma ReleaseLive(bs: seq<Block>, lo: nat, k: nat)
    requires WellFormed(bs, lo) && k < |bs| && !bs[k].free
    ensures Live(Release(bs, k)) == Live(bs) - {bs[k]}
  {
    var b1 := bs[k := bs[k].(free := true)];
    forall i: nat | i < |bs| && i != k ensures bs[i] != bs[k] {
      Apart(bs, lo, lo + HEAP_SIZE, i, k);
    }
    UpdateMembers(bs, k, b1[k]);
    assert bs[k] !in b1;
    assert Live(b1) == Live(bs) - {bs[k]};
    var b2 := MergeNext(b1, k);
    if |b2| < |b1| { MergeLive(b1, k); }
    assert b2[k].free;
    if |MergePrev(b2, k)| < |b2| { MergeLive(b2, k - 1); }
  }

  lemma MergeLive(bs: seq<Block>, k: nat)
    requires k + 1 < |bs| && bs[k].free && bs[k + 1].free
    ensures Live(MergeAt(bs, k)) == Live(bs)
  {
    assert bs == bs[..k] + [bs[k], bs[k + 1]] + bs[k + 2..];
  }

  // ---- Freeing everything ----

  ghost predicate IsLive(bs: seq<Block>, p: nat, k: nat) {
    k < |bs| && !bs[k].free && bs[k].Ptr() == p
  }

  // The pointers kmalloc has handed out and that are not freed yet.
  ghost function LivePtrs(bs: seq<Block>): set<nat> { set b | b in Live(bs) :: b.Ptr() }

  lemma LiveIndex(bs: seq<Block>, p: nat) returns (k: nat)
    requires p in LivePtrs(bs)
    ensures IsLive(bs, p, k)
  {
    var b :| b in Live(bs) && b.Ptr() == p;
    k :| k < |bs| && bs[k] == b;
  }

  lemma ReleasePtrs(bs: seq<Block>, lo: nat, p: nat, k: nat)
    requires WellFormed(bs, lo) && IsLive(bs, p, k)
    ensures LivePtrs(Release(bs, k)) == LivePtrs(bs) - {p}
  {
    ReleaseLive(bs, lo, k);
    forall b | b in Live(bs) && b != bs[k] ensures b.Ptr() != p {
      var j: nat :| j < |bs| && bs[j] == b;
      Apart(bs, lo, lo + HEAP_SIZE, j, k);
    }
  }

  // Some run of kfree calls on the pointers of order, each live when its turn comes.
  ghost predicate FreeRun(bs: seq<Block>, order: seq<nat>, bs': seq<Block>)
    decreases |order|
  {
    if order == [] then bs' == bs
    else exists k: nat :: IsLive(bs, order[0], k) && FreeRun(Release(bs, k), order[1..], bs')
  }

  // Freeing all live pointers, in whatever order, gives the heap back as one free block.
  lemma {:induction false} FreeingAllRestores(bs: seq<Block>, lo: nat, order: seq<nat>, bs': seq<Block>)
    requires WellFormed(bs, lo) && FreeRun(bs, order, bs')
    requires forall p :: p in LivePtrs(bs) ==> p in order
    ensures bs' == Initial(lo)
    decreases |order|
  {
    if order == [] {
      AllFreeIsOne(bs);
    } else {
      var k: nat :| IsLive(bs, order[0], k) && FreeRun(Release(bs, k), order[1..], bs');
      ReleaseWellFormed(bs, lo, k);
      ReleasePtrs(bs, lo, order[0], k);
      FreeingAllRestores(Release(bs, k), lo, order[1..], bs');
    }
  }

  lemma AllFreeIsOne(bs: seq<Block>)
    requires |bs| > 0 && NoAdjacentFree(bs) && LivePtrs(bs) == {}
    ensures |bs| == 1 && bs[0].free
  {
    forall i | 0 <= i < |bs| ensures bs[i].free {
      if !bs[i].free { InUseHasPtr(bs, i); }
    }
    if |bs| > 1 { NotBothFree(bs, 0); }
  }

  lemma InUseHasPtr(bs: seq<Block>, i: nat)
    requires i < |bs| && !bs[i].free
    ensures LivePtrs(bs) != {}
  {
    assert bs[i] in Live(bs) && bs[i].Ptr() in LivePtrs(bs);
  }

  lemma NotBothFree(bs: seq<Block>, i: nat)
    requires NoAdjacentFree(bs) && i + 1 < |bs|
    ensures !(bs[i].free && bs[i + 1].free)
  {
  }

  // Any order of the live pointers is such a run.
  lemma {:induction false} AnyOrderRuns(bs: seq<Block>, lo: nat, order: seq<nat>) returns (bs': seq<Block>)
    requires WellFormed(bs, lo)
    requires forall p :: p in order ==> p in LivePtrs(bs)
    requires forall i, j :: 0 <= i < j < |order| ==> order[i] != order[j]
    ensures FreeRun(bs, order, bs')
    decreases |order|
  {
    if order == [] {
      bs' := bs;
    } else {
      var k := LiveIndex(bs, order[0]);
      ReleaseWellFormed(bs, lo, k);
      ReleasePtrs(bs, lo, order[0], k);
      bs' := AnyOrderRuns(Release(bs, k), lo, order[1..]);
    }
  }
}
