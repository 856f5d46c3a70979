// kernel/pmm.c: the bitmap allocator of physical page frames.
module Pmm {
  import opened Words

  const MEM_START: int := 0x200000
  const MEM_END: int := 0x4000000
  const TOTAL_PAGES: int := 15872
  const FIRST_FRAME: int := 512
  const BITMAP_ADDR: int := 0x150000

  // ---- One byte of the bitmap ----

  function Mask(k: nat): bv8
    requires k < 8
  {
    (1 as bv8) << k
  }

  predicate TestBit(b: bv8, k: nat)
    requires k < 8
  {
    b & Mask(k) != 0
  }

  lemma SetBit(b: bv8, k: nat, j: nat)
    requires k < 8 && j < 8
    ensures TestBit(b | Mask(k), j) == (j == k || TestBit(b, j))
  {
  }

  lemma ClearBit(b: bv8, k: nat, j: nat)
    requires k < 8 && j < 8
    ensures TestBit(b & !Mask(k), j) == (j != k && TestBit(b, j))
  {
  }

  function WithBit(b: bv8, k: nat): (r: bv8)
    requires k < 8
    ensures forall j: nat | j < 8 :: TestBit(r, j) == (j == k || TestBit(b, j))
  {
    forall j: nat | j < 8 ensures TestBit(b | Mask(k), j) == (j == k || TestBit(b, j)) { SetBit(b, k, j); }
    b | Mask(k)
  }

  function WithoutBit(b: bv8, k: nat): (r: bv8)
    requires k < 8
    ensures forall j: nat | j < 8 :: TestBit(r, j) == (j != k && TestBit(b, j))
  {
    forall j: nat | j < 8 ensures TestBit(b & !Mask(k), j) == (j != k && TestBit(b, j)) { ClearBit(b, k, j); }
    b & !Mask(k)
  }

  lemma BitPlace(i: nat, b: nat, k: nat)
    requires k < 8
    ensures 8 * b + k == i <==> b == i / 8 && k == i % 8
  {
  }

  // ---- The abstract state: the set of pages in use ----

  // Whether n consecutive pages from page i on exist and are all free.
  ghost predicate FreeRun(used: set<nat>, i: nat, n: nat) {
    i + n <= TOTAL_PAGES && forall k: nat :: i <= k < i + n ==> k !in used
  }

  ghost predicate IsLowestRun(used: set<nat>, i: nat, n: nat) {
    FreeRun(used, i, n) && forall s: nat :: FreeRun(used, s, n) ==> i <= s
  }

  lemma LowestOne(used: set<nat>, i: nat)
    requires i < TOTAL_PAGES && i !in used && forall k: nat :: k < i ==> k in used
    ensures IsLowestRun(used, i, 1)
  {
    forall s: nat | FreeRun(used, s, 1) ensures i <= s {
      assert s !in used;
    }
  }

  // The n pages from page i on.
  ghost function Pages(i: nat, n: nat): (pages: set<nat>)
    ensures forall k :: k in pages <==> i <= k < i + n
  {
    if n == 0 then {} else Pages(i, n - 1) + {i + n - 1}
  }

  lemma PagesSize(i: nat, n: nat)
    ensures |Pages(i, n)| == n
  {
  }

  function PageToAddr(i: nat): nat { 0x200000 + i * 4096 }

  // (a - MEM_START) / 4096 in uint64_t, so an address below MEM_START wraps.
  function AddrToPage(a: Word): nat { Wrap(a - 0x200000) / 4096 }

  lemma PageAddress(i: nat)
    requires i < TOTAL_PAGES
    ensures PageToAddr(i) / 4096 == FIRST_FRAME + i
    ensures Freeable(PageToAddr(i)) && AddrToPage(PageToAddr(i)) == i
  {
  }

  // The page that freeing address a releases, if any: a must be a page-aligned
  // address inside the managed range.
  predicate Freeable(a: Word) { MEM_START <= a < MEM_END && a % 4096 == 0 }

  ghost function FreedPage(a: Word): set<nat> {
    if Freeable(a) then {AddrToPage(a)} else {}
  }

  // What freeing p, p + 4096, ... releases, the addresses computed in uint64_t.
  ghost function FreedPages(p: Word, n: nat): set<nat> {
    if n == 0 then {} else
      FreedPages(p, n - 1) + FreedPage(Wrap(p + (n - 1) * 4096))
  }

  class FrameAllocator {
    const mem: array<Word>
    const bitmap: array<bv8>
    var freePages: nat
    var usedPages: nat
    // The pages whose bit is set.
    ghost var used: set<nat>

    predicate Test(i: nat)
      requires i < TOTAL_PAGES && bitmap.Length == TOTAL_PAGES / 8
      reads bitmap
    {
      TestBit(bitmap[i / 8], i % 8)
    }

    ghost predicate BitmapValid()
      reads this, bitmap
    {
      && bitmap.Length == TOTAL_PAGES / 8
      && MEM_END / 8 <= mem.Length
      && (forall i :: i in used ==> i < TOTAL_PAGES)
      && (forall b: nat, k: nat {:trigger TestBit(bitmap[b], k)} ::
            b < bitmap.Length && k < 8 ==> (8 * b + k in used <==> TestBit(bitmap[b], k)))
    }

    // The bitmap holds the set of used pages and the counters count it; RAM reaches MEM_END.
    ghost predicate Valid()
      reads this, bitmap
    {
      BitmapValid() && usedPages == |used| && freePages + usedPages == TOTAL_PAGES
    }

    method BmpSet(i: nat)
      requires i < TOTAL_PAGES && BitmapValid()
      modifies bitmap, this`used
      ensures BitmapValid() && used == old(used) + {i}
    {
      ghost var was := bitmap[..];
      bitmap[i / 8] := WithBit(bitmap[i / 8], i % 8);
      used := used + {i};
      forall b: nat, k: nat | b < bitmap.Length && k < 8
        ensures 8 * b + k in used <==> TestBit(bitmap[b], k)
      {
        BitPlace(i, b, k);
        assert 8 * b + k in old(used) <==> TestBit(was[b], k);
      }
    }

    method BmpClear(i: nat)
      requires i < TOTAL_PAGES && BitmapValid()
      modifies bitmap, this`used
      ensures BitmapValid() && used == old(used) - {i}
    {
      ghost var was := bitmap[..];
      bitmap[i / 8] := WithoutBit(bitmap[i / 8], i % 8);
      used := used - {i};
      forall b: nat, k: nat | b < bitmap.Length && k < 8
        ensures 8 * b + k in used <==> TestBit(bitmap[b], k)
      {
        BitPlace(i, b, k);
        assert 8 * b + k in old(used) <==> TestBit(was[b], k);
      }
    }

    // pmm_init.  The page of the bitmap itself is below MEM_START: its page number
    // wraps to a huge value, so nothing is marked.
    constructor (mem: array<Word>)
      requires MEM_END / 8 <= mem.Length
      ensures Valid() && this.mem == mem && fresh(bitmap)
      ensures used == {}
    {
      this.mem := mem;
      this.bitmap := new bv8[TOTAL_PAGES / 8](_ => 0);
      this.freePages := TOTAL_PAGES;
      this.usedPages := 0;
      this.used := {};
      new;
      assert AddrToPage(BITMAP_ADDR) >= TOTAL_PAGES;
    }

    // pmm_alloc_page: first fit, and the page is cleared.  Zero when all pages are in use.
    method AllocPage() returns (p: Word)
      requires Valid()
      modifies this, bitmap, mem
      ensures Valid()
      ensures p == 0 <==> old(freePages) == 0
      ensures p == 0 ==> used == old(used) && freePages == 0 && mem[..] == old(mem[..])
      ensures p == 0 ==> forall i: nat :: i < TOTAL_PAGES ==> i in used
      ensures p != 0 ==> freePages == old(freePages) - 1
      ensures p != 0 ==> exists i: nat ::
        && IsLowestRun(old(used), i, 1)
        && p == PageToAddr(i)
        && used == old(used) + {i}
        && mem[..] == ZeroFrames(old(mem[..]), p / 4096, 1)
    {
      var i := 0;
      while i < TOTAL_PAGES
        invariant i <= TOTAL_PAGES
        invariant forall k: nat :: k < i ==> k in used
      {
        if !Test(i) {
          TakePage(i);
          p := PageToAddr(i);
          PageAddress(i);
          LowestOne(old(used), i);
          return;
        }
        i := i + 1;
      }
      assert used == Pages(0, i);
      PagesSize(0, i);
      p := 0;
    }

    method TakePage(i: nat)
      requires Valid() && i < TOTAL_PAGES && i !in used
      modifies this, bitmap, mem
      ensures Valid() && used == old(used) + {i} && freePages == old(freePages) - 1
      ensures mem[..] == ZeroFrames(old(mem[..]), FIRST_FRAME + i, 1)
    {
      BmpSet(i);
      WithinTotal(used, TOTAL_PAGES);
      freePages := freePages - 1;
      usedPages := usedPages + 1;
      ZeroPages(i, 1);
    }

    // The zeroing loop of both allocation functions.
    method ZeroPages(i: nat, n: nat)
      requires i + n <= TOTAL_PAGES && MEM_END / 8 <= mem.Length
      modifies mem
      ensures mem[..] == ZeroFrames(old(mem[..]), FIRST_FRAME + i, n)
    {
      var base := PageToAddr(i) / 8;
      for k := 0 to n * 512
        invariant forall j :: 0 <= j < mem.Length ==>
          mem[j] == if base <= j < base + k then 0 else old(mem[j])
      {
        mem[base + k] := 0;
      }
    }

    // pmm_free_page: addresses outside the range, unaligned ones and pages that are
    // already free are ignored.
    method FreePage(a: Word)
      requires Valid()
      modifies this, bitmap
      ensures Valid()
      ensures used == old(used) - FreedPage(a)
    {
      if a < MEM_START || a >= MEM_END { return; }
      if a % 4096 != 0 { return; }
      var i := AddrToPage(a);
      if !Test(i) { return; }
      BmpClear(i);
      freePages := freePages + 1;
      usedPages := usedPages - 1;
    }

    // One page is a run of one.
    method AllocOne() returns (p: Word)
      requires Valid()
      modifies this, bitmap, mem
      ensures Valid()
      ensures p == 0 <==> forall i: nat :: !FreeRun(old(used), i, 1)
      ensures p == 0 ==> used == old(used) && mem[..] == old(mem[..])
      ensures p != 0 ==> exists i: nat ::
        && IsLowestRun(old(used), i, 1)
        && p == PageToAddr(i)
        && used == old(used) + Pages(i, 1)
        && mem[..] == ZeroFrames(old(mem[..]), p / 4096, 1)
    {
      p := AllocPage();
      if p == 0 {
        forall i: nat ensures !FreeRun(old(used), i, 1) {
          assert i < TOTAL_PAGES ==> i in used;
        }
      } else {
        ghost var i: nat :| IsLowestRun(old(used), i, 1) && p == PageToAddr(i) && used == old(used) + {i}
          && mem[..] == ZeroFrames(old(mem[..]), p / 4096, 1);
        assert FreeRun(old(used), i, 1);
        assert Pages(i, 1) == {i};
      }
    }

    // pmm_alloc_pages: the lowest run of n free pages, although the search skips past
    // each used page it meets; zero exactly when there is no such run.
    method AllocPages(n: Word) returns (p: Word)
      requires Valid()
      modifies this, bitmap, mem
      ensures Valid()
      ensures p == 0 <==> n == 0 || forall i: nat :: !FreeRun(old(used), i, n)
      ensures p == 0 ==> used == old(used) && mem[..] == old(mem[..])
      ensures p != 0 ==> exists i: nat ::
        && IsLowestRun(old(used), i, n)
        && p == PageToAddr(i)
        && used == old(used) + Pages(i, n)
        && mem[..] == ZeroFrames(old(mem[..]), p / 4096, n)
    {
      if n == 0 { return 0; }
      if n == 1 {
        p := AllocOne();
        return;
      }
      var i: nat := 0;
      while i + n <= TOTAL_PAGES
        invariant Valid() && used == old(used) && mem[..] == old(mem[..])
        invariant forall s: nat :: s < i ==> !FreeRun(old(used), s, n)
        decreases TOTAL_PAGES + n - i
      {
        var j := FirstUsed(i, n);
        if j == n {
          p := TakeRun(i, n);
          return;
        }
        forall s: nat | s < i + j + 1 ensures !FreeRun(old(used), s, n) {
          if s >= i {
            assert s <= i + j < s + n;
          }
        }
        i := i + j + 1;
      }
      p := 0;
    }

    // The inner loop of pmm_alloc_pages: how many pages from page i on are free, up to n.
    method FirstUsed(i: nat, n: nat) returns (j: nat)
      requires Valid() && i + n <= TOTAL_PAGES
      ensures j <= n && forall k: nat :: i <= k < i + j ==> k !in used
      ensures j < n ==> i + j in used
    {
      j := 0;
      while j < n && !Test(i + j)
        invariant j <= n && forall k: nat :: i <= k < i + j ==> k !in used
      {
        j := j + 1;
      }
    }

    method MarkRun(i: nat, n: nat)
      requires BitmapValid() && i + n <= TOTAL_PAGES
      modifies bitmap, this`used
      ensures BitmapValid() && used == old(used) + Pages(i, n)
    {
      for j := 0 to n
        invariant BitmapValid() && used == old(used) + Pages(i, j)
      {
        BmpSet(i + j);
      }
    }

    // The tail of pmm_alloc_pages: mark the run found and clear it.
    method TakeRun(i: nat, n: nat) returns (p: Word)
      requires Valid() && n > 0 && FreeRun(used, i, n)
      modifies this, bitmap, mem
      ensures Valid()
      ensures p == PageToAddr(i)
      ensures used == old(used) + Pages(i, n)
      ensures mem[..] == ZeroFrames(old(mem[..]), p / 4096, n)
    {
      MarkRun(i, n);
      UsedAfter(old(used), i, n);
      freePages := freePages - n;
      usedPages := usedPages + n;
      p := PageToAddr(i);
      PageAddress(i);
      ZeroPages(i, n);
    }

    // pmm_free_pages
    method FreePages(p: Word, n: nat)
      requires Valid()
      modifies this, bitmap
      ensures Valid()
      ensures used == old(used) - FreedPages(p, n)
    {
      for i := 0 to n
        invariant Valid() && used == old(used) - FreedPages(p, i)
      {
        FreePage(Wrap(p + i * 4096));
        FreedStep(old(used), p, i);
      }
    }
  }

  lemma FreedStep(used: set<nat>, p: Word, i: nat)
    ensures used - FreedPages(p, i + 1) == used - FreedPages(p, i) - FreedPage(Wrap(p + i * 4096))
  {
  }

  lemma WithinTotal(used: set<nat>, total: nat)
    requires forall i :: i in used ==> i < total
    ensures |used| <= total
  {
    PagesSize(0, total);
    SubsetSize(used, Pages(0, total));
  }

  lemma UsedAfter(used: set<nat>, i: nat, n: nat)
    requires FreeRun(used, i, n) && forall k :: k in used ==> k < TOTAL_PAGES
    ensures |used + Pages(i, n)| == |used| + n <= TOTAL_PAGES
  {
    PagesSize(i, n);
    assert used !! Pages(i, n);
    WithinTotal(used + Pages(i, n), TOTAL_PAGES);
  }

  lemma SubsetSize(a: set<nat>, b: set<nat>)
    requires a <= b
    ensures |a| <= |b|
  {
    if a != {} {
      var x :| x in a;
      SubsetSize(a - {x}, b - {x});
    }
  }

  lemma {:induction false} FreedAreAllocated(i: nat, n: nat)
    requires i + n <= TOTAL_PAGES
    ensures FreedPages(PageToAddr(i), n) == Pages(i, n)
  {
    if n > 0 {
      FreedAreAllocated(i, n - 1);
      var p := PageToAddr(i);
      assert FreedPages(p, n - 1) == Pages(i, n - 1);
      var a := Wrap(PageToAddr(i) + (n - 1) * 4096);
      assert a == PageToAddr(i + n - 1);
      PageAddress(i + n - 1);
      assert FreedPages(p, n) == FreedPages(p, n - 1) + {i + n - 1};
    }
  }

  // Freeing what an allocation returned gives back exactly the set of pages there was.
  lemma FreeUndoesAlloc(used: set<nat>, i: nat, n: nat)
    requires FreeRun(used, i, n)
    ensures used + Pages(i, n) - FreedPages(PageToAddr(i), n) == used
  {
    FreedAreAllocated(i, n);
  }

  // The set of used pages fixes the bytes of the bitmap, so they too are as before.
  lemma UsedFixesBitmap(b: seq<bv8>, c: seq<bv8>)
    requires |b| == |c|
    requires forall i: nat :: i < 8 * |b| ==> TestBit(b[i / 8], i % 8) == TestBit(c[i / 8], i % 8)
    ensures b == c
  {
    forall k | 0 <= k < |b| ensures b[k] == c[k] {
      forall j: nat | j < 8 ensures TestBit(b[k], j) == TestBit(c[k], j) {
        assert (8 * k + j) / 8 == k && (8 * k + j) % 8 == j;
      }
      BitsFixByte(b[k], c[k]);
    }
  }

  lemma BitsFixByte(a: bv8, b: bv8)
    requires forall k: nat :: k < 8 ==> TestBit(a, k) == TestBit(b, k)
    ensures a == b
  {
    assert TestBit(a, 0) == TestBit(b, 0);
    assert TestBit(a, 1) == TestBit(b, 1);
    assert TestBit(a, 2) == TestBit(b, 2);
    assert TestBit(a, 3) == TestBit(b, 3);
    assert TestBit(a, 4) == TestBit(b, 4);
    assert TestBit(a, 5) == TestBit(b, 5);
    assert TestBit(a, 6) == TestBit(b, 6);
    assert TestBit(a, 7) == TestBit(b, 7);
  }
}
