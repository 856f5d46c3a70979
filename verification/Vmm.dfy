// kernel/vmm.c: mapping, unmapping and looking up 4 KiB pages.
module Vmm {
  import opened Words
  import opened PageTables
  import opened Pmm
  import opened HugePages

  const PTE_NX: Word := 0x8000_0000_0000_0000

  // (pa & ~0xFFF) | (flags & 0xFFF) | PTE_PRESENT, with PTE_NX added if flags have it.
  function LeafEntry(pa: Word, flags: Word): (e: Word)
    ensures Present(e)
  {
    var low := flags % 4096;
    var e := pa - pa % 4096 + if low % 2 == 1 then low else low + 1;
    if flags >= PTE_NX && e < PTE_NX then e + PTE_NX else e
  }

  // The entry has the frame of pa, the low flags and NX as asked for, and is present.
  lemma LeafBits(pa: Word, flags: Word)
    ensures var e := LeafEntry(pa, flags);
      && Present(e) && e % 4096 / 2 == flags % 4096 / 2 && (Writable(e) <==> flags / 2 % 2 == 1)
      && FrameOf(e) % 0x8_0000_0000_0000 == FrameOf(pa) % 0x8_0000_0000_0000
      && (e >= PTE_NX <==> pa >= PTE_NX || flags >= PTE_NX)
  {
    var low := flags % 4096;
    var set_ := if low % 2 == 1 then low else low + 1;
    var q := FrameOf(LeafEntry(pa, flags));
    FrameAndLow(FrameOf(pa), set_);
    FrameAndLow(FrameOf(pa) + 0x8_0000_0000_0000, set_);
    assert set_ / 2 == low / 2 && (set_ / 2 % 2 == 1 <==> flags / 2 % 2 == 1) by { LowBit(flags); }
    assert q == FrameOf(pa) || q == FrameOf(pa) + 0x8_0000_0000_0000;
  }

  lemma FrameAndLow(q: nat, low: nat)
    requires low < 4096
    ensures (q * 4096 + low) / 4096 == q && (q * 4096 + low) % 4096 == low
    ensures (q * 4096 + low) / 2 % 2 == low / 2 % 2 && (q * 4096 + low) % 2 == low % 2
  {
    assert (q * 4096 + low) / 2 == 2048 * q + low / 2;
  }

  lemma LowBit(flags: nat)
    ensures flags / 2 % 2 == flags % 4096 / 2 % 2
  {
    FrameAndLow(flags / 4096, flags % 4096);
  }

  // vmm_get_phys does not mask NX.  It gives back pa exactly when NX was not asked for
  // or is a bit of pa anyway.
  lemma RoundTrip(pa: Word, flags: Word, va: Word)
    ensures Address(Page4K(LeafEntry(pa, flags)), va) == pa - pa % 4096 + va % 4096
      <==> (flags < PTE_NX || pa >= PTE_NX)
  {
  }

  const TEST_VA: Word := 0x8000000

  // How many new tables mapping a 4 KiB page takes; none if the page is mapped already
  // or lies in a huge page.
  datatype Cost = Blocked | NewTables(n: nat)

  ghost function MapCost(m: seq<Word>, root: nat, p: Page): Cost {
    var e4 := Rd(m, root, p.i4);
    if !Present(e4) then NewTables(3) else
    var e3 := Rd(m, FrameOf(e4), p.i3);
    if Huge(e3) then Blocked else if !Present(e3) then NewTables(2) else
    var e2 := Rd(m, FrameOf(e3), p.i2);
    if Huge(e2) then Blocked else if !Present(e2) then NewTables(1) else
    if Present(Rd(m, FrameOf(e2), p.i1)) then Blocked else NewTables(0)
  }

  // The frame of the page directory that the walk for a page reads.
  ghost function Directory(m: seq<Word>, root: nat, p: Page): nat {
    FrameOf(Rd(m, FrameOf(Rd(m, root, p.i4)), p.i3))
  }

  // The frame that the next allocation hands out.
  ghost predicate IsNextFrame(used: set<nat>, g: nat) {
    g >= FIRST_FRAME && IsLowestRun(used, g - FIRST_FRAME, 1)
  }

  // Frames of tables that the frame allocator manages are in use.
  ghost predicate Owned(frames: set<nat>, used: set<nat>) {
    forall f :: f in frames && FIRST_FRAME <= f < FIRST_FRAME + TOTAL_PAGES ==> f - FIRST_FRAME in used
  }

  // Tables are only added, and only in frames that were not in use.
  ghost predicate TablesGrew(t: Tables, t': Tables, used: set<nat>, used': set<nat>) {
    && t.All() <= t'.All() && used <= used'
    && forall f :: f in t'.All() ==> f in t.All() || (FIRST_FRAME <= f && f - FIRST_FRAME !in used)
  }

  lemma GrewTwice(t: Tables, t1: Tables, t2: Tables, u: set<nat>, u1: set<nat>, u2: set<nat>)
    requires TablesGrew(t, t1, u, u1) && TablesGrew(t1, t2, u1, u2)
    ensures TablesGrew(t, t2, u, u2)
  {
  }

  // An entry made for the table in frame g leads there.
  lemma TableEntry(g: nat)
    requires g * 4096 + 3 < 0x1_0000_0000_0000_0000
    ensures LinkTo(g * 4096 + 3, g)
  {
    FrameAndLow(g, 3);
    BitSeven(2 * (16 * g), 3);
    EvenDouble(16 * g);
    assert g * 4096 == 2 * (16 * g) * 128;
  }

  lemma EvenDouble(h: nat)
    ensures 2 * h % 2 == 0
  {
  }

  lemma BitSeven(q: nat, low: nat)
    requires low < 128
    ensures (q * 128 + low) / 128 == q
  {
  }

  // PML4 entries 0 and 511 are the same present entry, as the loader makes them.
  ghost predicate Aliased(m: seq<Word>, root: nat) {
    Present(Rd(m, root, 0)) && Rd(m, root, 0) == Rd(m, root, 511)
  }

  lemma AliasAgrees(m: seq<Word>, root: nat, p: Page)
    requires Aliased(m, root) && p.i4 == 0
    ensures Mapping(m, root, p.(i4 := 511)) == Mapping(m, root, p)
  {
  }

  // Mapping k pages from va on to frames from pa on: what was mapped is as before, and
  // a page is newly mapped only as the request says.
  ghost predicate RangeMapped(m: seq<Word>, m': seq<Word>, root: nat, va: Word, pa: Word, k: nat, flags: Word) {
    forall q: Page | q.Ok() :: WalkKept(m, m', root, q) && RangeMappedAt(m, m', root, va, pa, k, flags, q)
  }

  ghost predicate RangeMappedAt(m: seq<Word>, m': seq<Word>, root: nat, va: Word, pa: Word, k: nat, flags: Word,
                                q: Page)
  {
    || Mapping(m', root, q) == Mapping(m, root, q)
    || (&& Mapping(m, root, q) == Nothing
        && exists i: nat :: i < k && MappedAs(m', root, q, Wrap(va + i * 4096), Wrap(pa + i * 4096), flags))
  }

  ghost predicate MappedAs(m: seq<Word>, root: nat, q: Page, va: Word, pa: Word, flags: Word) {
    SameSlot(m, root, q, PageOf(va)) && Mapping(m, root, q) == Page4K(LeafEntry(pa, flags))
  }

  // The page i pages on from va.
  function PageAt(va: Word, i: nat): Page { PageOf(Wrap(va + i * 4096)) }

  ghost predicate AllMapped(m: seq<Word>, root: nat, va: Word, k: nat) {
    forall i: nat | i < k :: Mapping(m, root, PageAt(va, i)) != Nothing
  }

  lemma RangeStep(m: seq<Word>, m1: seq<Word>, m2: seq<Word>, root: nat, va: Word, pa: Word, k: nat, flags: Word,
                  va1: Word, pa1: Word)
    requires RangeMapped(m, m1, root, va, pa, k, flags)
    requires va1 == Wrap(va + k * 4096) && pa1 == Wrap(pa + k * 4096)
    requires SameMapping(m1, m2, root) || Remapped(m1, m2, root, PageOf(va1), Nothing, Page4K(LeafEntry(pa1, flags)))
    ensures RangeMapped(m, m2, root, va, pa, k + 1, flags)
  {
    forall q: Page | q.Ok()
      ensures WalkKept(m, m2, root, q) && RangeMappedAt(m, m2, root, va, pa, k + 1, flags, q)
    {
      RangeStepAt(m, m1, m2, root, va, pa, k, flags, PageOf(va1), LeafEntry(pa1, flags), q);
    }
  }

  lemma RangeStepAt(m: seq<Word>, m1: seq<Word>, m2: seq<Word>, root: nat, va: Word, pa: Word, k: nat, flags: Word,
                    p: Page, e: Word, q: Page)
    requires RangeMapped(m, m1, root, va, pa, k, flags) && q.Ok()
    requires p == PageOf(Wrap(va + k * 4096)) && e == LeafEntry(Wrap(pa + k * 4096), flags)
    requires SameMapping(m1, m2, root) || Remapped(m1, m2, root, p, Nothing, Page4K(e))
    ensures WalkKept(m, m2, root, q) && RangeMappedAt(m, m2, root, va, pa, k + 1, flags, q)
  {
    assert WalkKept(m, m1, root, q) && RangeMappedAt(m, m1, root, va, pa, k, flags, q);
    assert WalkKept(m1, m2, root, q);
    if !SameMapping(m1, m2, root) {
      assert RemappedAt(m1, m2, root, p, Nothing, Page4K(e), q);
    }
    if Mapping(m1, root, q) != Mapping(m, root, q) {
      var i: nat :| i < k && MappedAs(m1, root, q, Wrap(va + i * 4096), Wrap(pa + i * 4096), flags);
      assert WalkKept(m1, m2, root, PageOf(Wrap(va + i * 4096)));
      assert MappedAs(m2, root, q, Wrap(va + i * 4096), Wrap(pa + i * 4096), flags);
    } else if Mapping(m2, root, q) != Mapping(m1, root, q) {
      assert MappedAs(m2, root, q, Wrap(va + k * 4096), Wrap(pa + k * 4096), flags);
    }
  }

  lemma RangeKeepsHuge(m: seq<Word>, m': seq<Word>, root: nat, va: Word, pa: Word, k: nat, flags: Word)
    requires RangeMapped(m, m', root, va, pa, k, flags)
    ensures HugeKept(m, m', root)
  {
    forall q: Page | q.Ok() && Mapping(m, root, q).Page2M? ensures Mapping(m', root, q) == Mapping(m, root, q) {
      assert RangeMappedAt(m, m', root, va, pa, k, flags, q);
    }
  }

  // A call of one of the functions that change the tables.
  datatype Call =
    | MapCall(va: Word, pa: Word, flags: Word)
    | UnmapCall(va: Word)
    | RangeCall(va: Word, pa: Word, pages: nat, flags: Word)
    | TestCall

  // Where a table is missing, as many are missing as before.
  ghost predicate CostKept(m: seq<Word>, m': seq<Word>, root: nat, q: Page) {
    var c := MapCost(m, root, q);
    c.NewTables? && c.n > 0 ==> MapCost(m', root, q) == c
  }

  lemma LeafKeepsCost(m: seq<Word>, m': seq<Word>, t: Tables, f: nat, i: nat, e: Word)
    requires TablesOk(m, t) && f in t.l1 && Wrote(m, m', f, i, e)
    ensures forall q: Page | q.Ok() :: CostKept(m, m', t.root, q)
  {
  }

  // A page that is mapped stays so.
  lemma LeafSettles(m: seq<Word>, m': seq<Word>, t: Tables, p: Page, v: View)
    requires Remapped(m, m', t.root, p, Nothing, v) && v != Nothing && p.Ok()
    ensures Mapping(m', t.root, p) == v
    ensures forall q: Page | q.Ok() && Mapping(m, t.root, q) != Nothing :: Mapping(m', t.root, q) != Nothing
  {
    assert RemappedAt(m, m', t.root, p, Nothing, v, p);
    forall q: Page | q.Ok() && Mapping(m, t.root, q) != Nothing ensures Mapping(m', t.root, q) != Nothing {
      assert RemappedAt(m, m', t.root, p, Nothing, v, q);
    }
  }

  // Entry i of table f leads to g, a new and empty table, and the tables there were are
  // otherwise as before.
  ghost predicate Hooked(m: seq<Word>, m': seq<Word>, t: Tables, t': Tables, f: nat, i: nat, g: nat) {
    && g !in t.All() && t' == WithTable(t, f, g) && LinkTo(Rd(m', f, i), g)
    && (forall j: nat | j < 512 :: Rd(m', g, j) == 0)
    && forall h: nat, j: nat | h in t.All() && j < 512 && (h != f || j != i) :: Rd(m', h, j) == Rd(m, h, j)
  }

  class AddressSpace {
    const pmm: FrameAllocator
    const mem: array<Word>
    var pml4: Word
    ghost var tables: Tables

    ghost predicate Valid()
      reads this, pmm, pmm.bitmap, mem
    {
      && pmm.Valid()
      && mem == pmm.mem
      && FrameOf(pml4) == tables.root
      && TablesOk(mem[..], tables)
      && Owned(tables.All(), pmm.used)
    }

    // vmm_init: the tables are those CR3 points to.
    constructor (pmm: FrameAllocator, cr3: Word, ghost tables: Tables)
      requires pmm.Valid() && FrameOf(cr3) == tables.root
      requires TablesOk(pmm.mem[..], tables) && Owned(tables.All(), pmm.used)
      ensures Valid() && this.pmm == pmm && this.tables == tables
    {
      this.pmm := pmm;
      this.mem := pmm.mem;
      this.pml4 := cr3;
      this.tables := tables;
    }

    ghost function Map(p: Page): View
      reads this, mem
    {
      Mapping(mem[..], tables.root, p)
    }

    function Entry(f: nat, i: nat): (e: Word)
      requires f * 512 + i < mem.Length
      reads mem
      ensures e == Rd(mem[..], f, i)
    {
      mem[f * 512 + i]
    }

    // The frame of a new table: zeroed, and not one of the tables.
    method FreshTable() returns (table: Word, ghost g: nat)
      requires Valid()
      modifies pmm, pmm.bitmap, mem
      ensures Valid()
      ensures table == 0 <==> old(pmm.freePages) == 0
      ensures table == 0 ==> mem[..] == old(mem[..]) && pmm.freePages == 0
      ensures table != 0 ==> pmm.freePages == old(pmm.freePages) - 1
      ensures table != 0 ==> table == g * 4096 && g !in tables.All() && InRam(mem[..], g) && Owned({g}, pmm.used)
      ensures table != 0 ==> mem[..] == ZeroFrames(old(mem[..]), g, 1)
      ensures table != 0 ==> FIRST_FRAME <= g < FIRST_FRAME + TOTAL_PAGES && g - FIRST_FRAME !in old(pmm.used)
      ensures table != 0 ==> IsNextFrame(old(pmm.used), g)
      ensures old(pmm.used) <= pmm.used
      ensures SameMapping(old(mem[..]), mem[..], tables.root)
      ensures old(HugeApart(mem[..], tables)) ==> HugeApart(mem[..], tables)
    {
      table := pmm.AllocPage();
      g := 0;
      if table == 0 { return; }
      ghost var was := old(mem[..]);
      ghost var k: nat :| IsLowestRun(old(pmm.used), k, 1) && table == PageToAddr(k)
        && pmm.used == old(pmm.used) + {k} && mem[..] == ZeroFrames(was, table / 4096, 1);
      assert FreeRun(old(pmm.used), k, 1);
      PageAddress(k);
      g := table / 4096;
      ZeroingStaysInside(was, g);
      ForeignFrame(was, mem[..], tables, g);
      if HugeApart(was, tables) { ForeignKeepsApart(was, mem[..], tables, g); }
    }

    // table | PTE_PRESENT | PTE_WRITABLE into entry i of table f.
    method Hook(f: nat, i: nat, table: Word, ghost g: nat)
      requires Valid() && f in {tables.root} + tables.l3 + tables.l2 && i < 512
      requires !Present(Rd(mem[..], f, i))
      requires table == g * 4096 && g !in tables.All() && InRam(mem[..], g) && Owned({g}, pmm.used)
      requires forall j: nat :: j < 512 ==> Rd(mem[..], g, j) == 0
      modifies this`tables, mem
      ensures Valid() && tables == WithTable(old(tables), f, g)
      ensures exists e: Word :: LinkTo(e, g) && Wrote(old(mem[..]), mem[..], f, i, e)
      ensures SameMapping(old(mem[..]), mem[..], tables.root)
      ensures g >= FIRST_FRAME && old(HugeApart(mem[..], tables)) ==> HugeApart(mem[..], tables)
    {
      ghost var was := mem[..];
      var e: Word := table + 3;
      mem[f * 512 + i] := e;
      StoreWrites(was, f, i, e);
      assert mem[..] == was[f * 512 + i := e];
      TableEntry(g);
      LinkEmptyTable(was, mem[..], tables, f, i, e, g);
      if g >= FIRST_FRAME && HugeApart(was, tables) { LinkKeepsApart(was, mem[..], tables, f, i, e, g); }
      tables := WithTable(tables, f, g);
    }

    // The stanza vmm_map_page repeats for each level: allocate a table for entry i of
    // table f, which is not present, and hook it in.
    method NewTable(f: nat, i: nat) returns (ok: bool)
      requires Valid() && f in {tables.root} + tables.l3 + tables.l2 && i < 512
      requires !Present(Rd(mem[..], f, i))
      modifies this`tables, pmm, pmm.bitmap, mem
      ensures Valid()
      ensures ok <==> old(pmm.freePages) > 0
      ensures !ok ==> mem[..] == old(mem[..]) && pmm.freePages == 0 && tables == old(tables)
      ensures ok ==> pmm.freePages == old(pmm.freePages) - 1
      ensures SameMapping(old(mem[..]), mem[..], tables.root)
      ensures TablesGrew(old(tables), tables, old(pmm.used), pmm.used)
      ensures old(HugeApart(mem[..], tables)) ==> HugeApart(mem[..], tables)
      ensures ok ==> exists g: nat ::
        IsNextFrame(old(pmm.used), g) && Hooked(old(mem[..]), mem[..], old(tables), tables, f, i, g)
    {
      var table, g := FreshTable();
      if table == 0 { return false; }
      ZeroingStaysInside(old(mem[..]), g);
      ghost var m1 := mem[..];
      Hook(f, i, table, g);
      SameTwice(old(mem[..]), m1, mem[..], tables.root);
      assert Hooked(old(mem[..]), mem[..], old(tables), tables, f, i, g);
      ok := true;
    }

    // Lines 30-35: the PDPT of the page.
    method EnterPdpt(p: Page) returns (ok: bool, f3: nat)
      requires Valid() && p.Ok()
      modifies this`tables, pmm, pmm.bitmap, mem
      ensures Valid() && tables.root == old(tables.root)
      ensures SameMapping(old(mem[..]), mem[..], tables.root)
      ensures old(HugeApart(mem[..], tables)) ==> HugeApart(mem[..], tables)
      ensures Feasible(p) == old(Feasible(p))
      ensures old(Aliased(mem[..], tables.root)) ==> Aliased(mem[..], tables.root)
      ensures !ok ==> !Feasible(p) && (Map(p) != Nothing || pmm.freePages == 0)
      ensures old(pmm.freePages) == 0 ==> mem[..] == old(mem[..])
      ensures pmm.freePages <= old(pmm.freePages)
      ensures old(Present(Rd(mem[..], tables.root, p.i4))) ==> mem[..] == old(mem[..]) && pmm.used == old(pmm.used)
      ensures TablesGrew(old(tables), tables, old(pmm.used), pmm.used)
      ensures ok ==> Present(Rd(mem[..], tables.root, p.i4)) && f3 == FrameOf(Rd(mem[..], tables.root, p.i4))
    {
      var f := FrameOf(pml4);
      if !Present(Entry(f, p.i4)) {
        ok := NewTable(f, p.i4);
        if !ok { return false, 0; }
      }
      ok, f3 := true, FrameOf(Entry(f, p.i4));
    }

    // Lines 37-43: the page directory of the page, unless it lies in a 1 GiB page.
    method EnterPd(p: Page, f3: nat) returns (ok: bool, f2: nat)
      requires Valid() && p.Ok()
      requires Present(Rd(mem[..], tables.root, p.i4)) && f3 == FrameOf(Rd(mem[..], tables.root, p.i4))
      modifies this`tables, pmm, pmm.bitmap, mem
      ensures Valid() && tables.root == old(tables.root)
      ensures SameMapping(old(mem[..]), mem[..], tables.root)
      ensures old(HugeApart(mem[..], tables)) ==> HugeApart(mem[..], tables)
      ensures Feasible(p) == old(Feasible(p))
      ensures forall i: nat :: i < 512 ==> Rd(mem[..], tables.root, i) == old(Rd(mem[..], tables.root, i))
      ensures !ok ==> !Feasible(p) && (Map(p) != Nothing || pmm.freePages == 0)
      ensures old(pmm.freePages) == 0 ==> mem[..] == old(mem[..])
      ensures pmm.freePages <= old(pmm.freePages)
      ensures ok && !old(Present(Rd(mem[..], f3, p.i3))) ==> IsNextFrame(old(pmm.used), f2)
      ensures TablesGrew(old(tables), tables, old(pmm.used), pmm.used)
      ensures ok ==> var e3 := Rd(mem[..], f3, p.i3); Present(e3) && !Huge(e3) && f2 == FrameOf(e3)
    {
      if Huge(Entry(f3, p.i3)) { return false, 0; }
      if !Present(Entry(f3, p.i3)) {
        ok := NewTable(f3, p.i3);
        if !ok { return false, 0; }
      }
      ok, f2 := true, FrameOf(Entry(f3, p.i3));
    }

    // Lines 44-53: the page table of the page, unless it lies in a 2 MiB page.
    method EnterPt(p: Page, f3: nat, f2: nat) returns (ok: bool, f1: nat)
      requires Valid() && p.Ok()
      requires Present(Rd(mem[..], tables.root, p.i4)) && f3 == FrameOf(Rd(mem[..], tables.root, p.i4))
      requires var e3 := Rd(mem[..], f3, p.i3); Present(e3) && !Huge(e3) && f2 == FrameOf(e3)
      modifies this`tables, pmm, pmm.bitmap, mem
      ensures Valid() && tables.root == old(tables.root)
      ensures SameMapping(old(mem[..]), mem[..], tables.root)
      ensures old(HugeApart(mem[..], tables)) ==> HugeApart(mem[..], tables)
      ensures Feasible(p) == old(Feasible(p))
      ensures forall i: nat :: i < 512 ==> Rd(mem[..], tables.root, i) == old(Rd(mem[..], tables.root, i))
      ensures !ok ==> !Feasible(p) && (Map(p) != Nothing || pmm.freePages == 0)
      ensures old(pmm.freePages) == 0 ==> mem[..] == old(mem[..])
      ensures pmm.freePages <= old(pmm.freePages)
      ensures Rd(mem[..], f3, p.i3) == old(Rd(mem[..], f3, p.i3))
      ensures TablesGrew(old(tables), tables, old(pmm.used), pmm.used)
      ensures ok ==> WalkTo(mem[..], tables.root, p) == Slot(f1, p.i1) && f1 in tables.l1
    {
      if Huge(Entry(f2, p.i2)) { return false, 0; }
      if !Present(Entry(f2, p.i2)) {
        ok := NewTable(f2, p.i2);
        if !ok { return false, 0; }
      }
      ok, f1 := true, FrameOf(Entry(f2, p.i2));
    }

    ghost function Reached(p: Page): Walk
      reads this, mem
    {
      WalkTo(mem[..], tables.root, p)
    }

    // Whether mapping page p can succeed: it is not blocked and the pages for the tables
    // it needs are there.
    ghost predicate Feasible(p: Page)
      reads this, pmm, mem
    {
      match MapCost(mem[..], tables.root, p)
      case Blocked => false
      case NewTables(n) => n <= pmm.freePages
    }

    // Page q is mapped, or no frame is left for the tables that mapping it takes.
    ghost predicate Settled(q: Page)
      reads this, pmm, mem
    {
      Map(q) != Nothing || (pmm.freePages == 0 && !Feasible(q))
    }

    // The three levels together: the page table of page p.
    method Descend(p: Page) returns (ok: bool, f1: nat)
      requires Valid() && p.Ok()
      modifies this`tables, pmm, pmm.bitmap, mem
      ensures Valid() && tables.root == old(tables.root)
      ensures SameMapping(old(mem[..]), mem[..], tables.root)
      ensures old(HugeApart(mem[..], tables)) ==> HugeApart(mem[..], tables)
      ensures Feasible(p) == old(Feasible(p))
      ensures old(Aliased(mem[..], tables.root)) ==> Aliased(mem[..], tables.root)
      ensures !ok ==> !Feasible(p) && (Map(p) != Nothing || pmm.freePages == 0)
      ensures old(pmm.freePages) == 0 ==> mem[..] == old(mem[..])
      ensures pmm.freePages <= old(pmm.freePages)
      ensures ok && old(MapCost(mem[..], tables.root, p)) == NewTables(2) ==>
        IsNextFrame(old(pmm.used), Directory(mem[..], tables.root, p))
      ensures TablesGrew(old(tables), tables, old(pmm.used), pmm.used)
      ensures ok ==> Reached(p) == Slot(f1, p.i1) && f1 in tables.l1
    {
      var f3, f2;
      ok, f3 := EnterPdpt(p);
      if !ok { return false, 0; }
      ghost var m1, t1, u1 := mem[..], tables, pmm.used;
      ok, f2 := EnterPd(p, f3);
      SameTwice(old(mem[..]), m1, mem[..], tables.root);
      GrewTwice(old(tables), t1, tables, old(pmm.used), u1, pmm.used);
      if !ok { return false, 0; }
      ghost var m2, t2, u2 := mem[..], tables, pmm.used;
      ok, f1 := EnterPt(p, f3, f2);
      SameTwice(old(mem[..]), m2, mem[..], tables.root);
      GrewTwice(old(tables), t2, tables, old(pmm.used), u2, pmm.used);
    }

    // The entry page p reaches becomes e.
    method StoreEntry(p: Page, f: nat, i: nat, e: Word)
      requires Valid() && p.Ok() && Reached(p) == Slot(f, i)
      modifies mem
      ensures Valid()
      ensures forall h: nat, j: nat | h !in tables.l1 && j < 512 :: Rd(mem[..], h, j) == old(Rd(mem[..], h, j))
      ensures old(HugeApart(mem[..], tables)) ==> HugeApart(mem[..], tables)
      ensures forall q: Page | q.Ok() :: CostKept(old(mem[..]), mem[..], tables.root, q)
      ensures Remapped(old(mem[..]), mem[..], tables.root, p, old(Map(p)), if Present(e) then Page4K(e) else Nothing)
    {
      ghost var was := mem[..];
      assert f in tables.l1;
      mem[f * 512 + i] := e;
      assert mem[..] == was[f * 512 + i := e];
      StoreWrites(was, f, i, e);
      StoreLeaf(was, mem[..], tables, p, e);
      LeafKeepsCost(was, mem[..], tables, f, i, e);
      if HugeApart(was, tables) { LeafKeepsApart(was, mem[..], tables, f, i, e); }
    }

    // vmm_map_page succeeds exactly when it is feasible.  Then the pages that share the
    // entry of va's page, none of them mapped before, map to the new frame and all others
    // are as before; when it fails, even midway, no page changes.
    method MapPage(va: Word, pa: Word, flags: Word) returns (r: int)
      requires Valid()
      modifies this`tables, pmm, pmm.bitmap, mem
      ensures Valid() && tables.root == old(tables.root)
      ensures r == if old(Feasible(PageOf(va))) then 0 else -1
      ensures r != 0 ==> SameMapping(old(mem[..]), mem[..], tables.root)
      ensures r != 0 ==> Map(PageOf(va)) != Nothing || pmm.freePages == 0
      ensures Settled(PageOf(va)) && forall q: Page | q.Ok() && old(Settled(q)) :: Settled(q)
      ensures r == 0 ==>
        Remapped(old(mem[..]), mem[..], tables.root, PageOf(va), Nothing, Page4K(LeafEntry(pa, flags)))
      ensures r == 0 ==> (CanWrite(mem[..], tables.root, PageOf(va)) <==> flags / 2 % 2 == 1)
      ensures pmm.freePages <= old(pmm.freePages)
      ensures TablesGrew(old(tables), tables, old(pmm.used), pmm.used)
      ensures old(Aliased(mem[..], tables.root)) ==> Aliased(mem[..], tables.root)
      ensures old(HugeApart(mem[..], tables)) ==> HugeApart(mem[..], tables)
      ensures HugeKept(old(mem[..]), mem[..], tables.root)
      ensures r == 0 && old(MapCost(mem[..], tables.root, PageOf(va))) == NewTables(2) ==>
        IsNextFrame(old(pmm.used), Directory(mem[..], tables.root, PageOf(va)))
    {
      var p := PageOf(va);
      var ok, f1 := Descend(p);
      SameKeepsHuge(old(mem[..]), mem[..], tables.root);
      if !ok { return -1; }
      if Present(Entry(f1, p.i1)) { return -1; }
      ghost var m1 := mem[..];
      MapEntry(p, f1, LeafEntry(pa, flags));
      SameThenRemapped(old(mem[..]), m1, mem[..], tables.root, p, Nothing, Page4K(LeafEntry(pa, flags)));
      HugeKeptTwice(old(mem[..]), m1, mem[..], tables.root);
      LeafBits(pa, flags);
      WritableThrough(mem[..], tables, p);
      r := 0;
    }

    // The empty entry page p reaches becomes e.
    method MapEntry(p: Page, f: nat, e: Word)
      requires Valid() && p.Ok() && Reached(p) == Slot(f, p.i1) && Map(p) == Nothing && Present(e)
      modifies mem
      ensures Valid() && Remapped(old(mem[..]), mem[..], tables.root, p, Nothing, Page4K(e)) && Map(p) == Page4K(e)
      ensures Settled(p) && forall q: Page | q.Ok() && old(Settled(q)) :: Settled(q)
      ensures forall h: nat, j: nat | h !in tables.l1 && j < 512 :: Rd(mem[..], h, j) == old(Rd(mem[..], h, j))
      ensures old(HugeApart(mem[..], tables)) ==> HugeApart(mem[..], tables)
      ensures HugeKept(old(mem[..]), mem[..], tables.root)
    {
      ghost var was := mem[..];
      StoreEntry(p, f, p.i1, e);
      LeafSettles(was, mem[..], tables, p, Page4K(e));
      MapKeepsHuge(was, mem[..], tables.root, p, Page4K(e));
    }

    // vmm_unmap_page clears the entry it finds and reports whether it found one.  The
    // pages whose walk reads that entry lose their translation, and no others do.  These
    // are the pages it is for, the ones that share the entry of va, just when the walk
    // meets no huge bit, which is not tested.  The exception is a huge page that holds a
    // table of its own walk.  There is none in the tables of a running kernel, and there
    // huge pages stay mapped whatever is unmapped.
    method UnmapPage(va: Word) returns (r: int)
      requires Valid()
      modifies mem
      ensures Valid()
      ensures r == if old(Target(va)) == NoTarget then -1 else 0
      ensures r != 0 ==> mem[..] == old(mem[..])
      ensures r == 0 ==> mem[..] == Zeroed(old(mem[..]), old(Target(va)).f, old(Target(va)).i)
      ensures r == 0 ==> Cleared(old(mem[..]), mem[..], tables.root, old(Target(va)).f, old(Target(va)).i)
      ensures r == 0 && (old(Reached(PageOf(va))).Slot? || !old(OnOwnWalk(va))) ==>
        (Unmapped(old(mem[..]), mem[..], tables.root, PageOf(va)) <==> old(Reached(PageOf(va))).Slot?)
      ensures r == 0 && !old(Reached(PageOf(va))).Slot? && old(OnOwnWalk(va)) ==>
        (Unmapped(old(mem[..]), mem[..], tables.root, PageOf(va)) <==> old(OwnOrOnlyWay(va)))
      ensures r == 0 && old(Reached(PageOf(va))).Slot? ==>
        && Remapped(old(mem[..]), mem[..], tables.root, PageOf(va), old(Map(PageOf(va))), Nothing)
        && (old(Aliased(mem[..], tables.root)) ==> Aliased(mem[..], tables.root))
      ensures r == 0 && old(Target(va)).f !in tables.All() ==>
        SameMapping(old(mem[..]), mem[..], tables.root) && Map(PageOf(va)) != Nothing
      ensures old(HugeApart(mem[..], tables)) ==>
        && HugeApart(mem[..], tables) && HugeKept(old(mem[..]), mem[..], tables.root)
        && (r == 0 ==>
          (Unmapped(old(mem[..]), mem[..], tables.root, PageOf(va)) <==> old(Reached(PageOf(va))).Slot?))
        && (old(Aliased(mem[..], tables.root)) ==> Aliased(mem[..], tables.root))
    {
      var p := PageOf(va);
      var f4 := FrameOf(pml4);
      if !Present(Entry(f4, p.i4)) { return -1; }
      var f3 := FrameOf(Entry(f4, p.i4));
      if !Present(Entry(f3, p.i3)) { return -1; }
      var f2 := FrameOf(Entry(f3, p.i3));
      if !Present(Anywhere(f2, p.i2)) { return -1; }
      var f1 := FrameOf(Anywhere(f2, p.i2));
      ghost var was := mem[..];
      ClearEntry(p, f1, p.i1);
      TargetPlace(was, tables.root, p);
      UnmapsExactly(was, mem[..], tables, p, f1, p.i1);
      if HugeApart(was, tables) { UnmapsApart(was, mem[..], tables, p, f1, p.i1); }
      r := 0;
    }

    // Entry i of a frame that need not be a table, nor in RAM.
    function Anywhere(f: nat, i: nat): (e: Word)
      reads mem
      ensures e == Rd(mem[..], f, i)
    {
      if f * 512 + i < mem.Length then mem[f * 512 + i] else 0
    }

    method ClearEntry(p: Page, f: nat, i: nat)
      requires Valid() && p.Ok() && i < 512
      modifies mem
      ensures Valid() && mem[..] == Zeroed(old(mem[..]), f, i)
      ensures Cleared(old(mem[..]), mem[..], tables.root, f, i)
      ensures old(Reached(p)) == Slot(f, i) ==>
        Remapped(old(mem[..]), mem[..], tables.root, p, old(Map(p)), Nothing)
      ensures f !in tables.All() ==> SameMapping(old(mem[..]), mem[..], tables.root)
      ensures f != tables.root && old(Aliased(mem[..], tables.root)) ==> Aliased(mem[..], tables.root)
      ensures old(HugeApart(mem[..], tables)) ==> HugeApart(mem[..], tables)
    {
      ghost var was := mem[..];
      if f * 512 + i < mem.Length { mem[f * 512 + i] := 0; }
      assert mem[..] == Zeroed(was, f, i);
      ZeroedWrites(was, f, i);
      ClearAnyEntry(was, mem[..], tables, f, i);
      if WalkTo(was, tables.root, p) == Slot(f, i) {
        StoreLeaf(was, mem[..], tables, p, 0);
      }
      if f !in tables.All() {
        ForeignFrame(was, mem[..], tables, f);
      }
      if HugeApart(was, tables) { ClearKeepsApart(was, mem[..], tables, f, i); }
    }

    // The walk for va reads the entry that unmapping it clears.
    ghost predicate OnOwnWalk(va: Word)
      reads this, mem
    {
      Target(va) != NoTarget && Passes(mem[..], tables.root, PageOf(va), Target(va).f, Target(va).i)
    }

    // That entry is the one va is translated by, or the only way to it.
    ghost predicate OwnOrOnlyWay(va: Word)
      reads this, mem
      requires Target(va) != NoTarget
    {
      var p, t := PageOf(va), Target(va);
      PlaceOf(mem[..], tables.root, p) == At(t.f, t.i) || OnlyWayTo(mem[..], tables.root, p, t.f, t.i)
    }

    ghost function Target(va: Word): Target
      reads this, mem
    {
      UnmapTarget(mem[..], tables.root, PageOf(va))
    }

    // vmm_get_phys reads the mapping.
    method GetPhys(va: Word) returns (pa: Word)
      requires Valid()
      ensures pa == Address(Map(PageOf(va)), va)
    {
      var p := PageOf(va);
      var root := FrameOf(pml4);
      if !Present(Entry(root, p.i4)) { return 0; }
      var f3 := FrameOf(Entry(root, p.i4));
      if !Present(Entry(f3, p.i3)) { return 0; }
      var e3 := Entry(f3, p.i3);
      if Huge(e3) { return Address(Page1G(e3), va); }
      var f2 := FrameOf(e3);
      if !Present(Entry(f2, p.i2)) { return 0; }
      var e2 := Entry(f2, p.i2);
      if Huge(e2) { return Address(Page2M(e2), va); }
      var f1 := FrameOf(e2);
      if !Present(Entry(f1, p.i1)) { return 0; }
      return Address(Page4K(Entry(f1, p.i1)), va);
    }

    // vmm_map_range never replaces a mapping, maps only what it is asked to, and leaves
    // no page of the range unmapped but those that no frame was left for.
    method MapRange(va: Word, pa: Word, pages: nat, flags: Word)
      requires Valid()
      modifies this`tables, pmm, pmm.bitmap, mem
      ensures Valid() && tables.root == old(tables.root)
      ensures RangeMapped(old(mem[..]), mem[..], tables.root, va, pa, pages, flags)
      ensures RangeSettled(va, pages)
      ensures pmm.freePages > 0 ==> AllMapped(mem[..], tables.root, va, pages)
      ensures HugeKept(old(mem[..]), mem[..], tables.root) && (old(AsLoaded()) ==> AsLoaded())
    {
      for k := 0 to pages
        invariant Valid() && tables.root == old(tables.root)
        invariant RangeMapped(old(mem[..]), mem[..], tables.root, va, pa, k, flags)
        invariant RangeSettled(va, k) && (old(AsLoaded()) ==> AsLoaded())
      {
        MapNext(old(mem[..]), va, pa, k, flags);
      }
      RangeKeepsHuge(old(mem[..]), mem[..], tables.root, va, pa, pages, flags);
    }

    ghost predicate RangeSettled(va: Word, k: nat)
      reads this, pmm, mem
    {
      forall i: nat | i < k :: Settled(PageAt(va, i))
    }

    // One turn of that loop.
    method MapNext(ghost was: seq<Word>, va: Word, pa: Word, k: nat, flags: Word)
      requires Valid() && RangeMapped(was, mem[..], tables.root, va, pa, k, flags) && RangeSettled(va, k)
      modifies this`tables, pmm, pmm.bitmap, mem
      ensures Valid() && tables.root == old(tables.root)
      ensures RangeMapped(was, mem[..], tables.root, va, pa, k + 1, flags) && RangeSettled(va, k + 1)
      ensures old(AsLoaded()) ==> AsLoaded()
    {
      ghost var m1 := mem[..];
      var va1, pa1 := Wrap(va + k * 4096), Wrap(pa + k * 4096);
      var _ := MapPage(va1, pa1, flags);
      assert Settled(PageAt(va, k));
      RangeStep(was, m1, mem[..], tables.root, va, pa, k, flags, va1, pa1);
    }

    // vmm_test maps a fresh frame at 128 MiB, writes through the mapping and takes it
    // down again: whatever happens on the way, the map is as it was.
    method SelfTest() returns (passed: bool)
      requires Valid()
      modifies this`tables, pmm, pmm.bitmap, mem
      ensures Valid() && tables.root == old(tables.root)
      ensures SameMapping(old(mem[..]), mem[..], tables.root) && (old(AsLoaded()) ==> AsLoaded())
      ensures passed ==> old(Map(PageOf(TEST_VA))) == Nothing
    {
      var phys, g := FreshTable();
      if phys == 0 { return false; }
      ghost var m1 := mem[..];
      passed := MapPokeUnmap(phys, g);
      SameTwice(old(mem[..]), m1, mem[..], tables.root);
      if passed { GiveBack(phys, g); }
    }

    // A frame that is no table is freed.
    method GiveBack(phys: Word, ghost g: nat)
      requires Valid() && phys == g * 4096 && g !in tables.All() && FIRST_FRAME <= g < FIRST_FRAME + TOTAL_PAGES
      modifies pmm, pmm.bitmap
      ensures Valid()
    {
      PageAddress(g - FIRST_FRAME);
      pmm.FreePage(phys);
    }

    method MapPokeUnmap(phys: Word, ghost g: nat) returns (passed: bool)
      requires Valid() && phys == g * 4096 && g !in tables.All() && InRam(mem[..], g)
      requires FIRST_FRAME <= g < FIRST_FRAME + TOTAL_PAGES && Owned({g}, pmm.used)
      modifies this`tables, pmm, pmm.bitmap, mem
      ensures Valid() && tables.root == old(tables.root) && g !in tables.All()
      ensures SameMapping(old(mem[..]), mem[..], tables.root) && (old(AsLoaded()) ==> AsLoaded())
      ensures passed ==> old(Map(PageOf(TEST_VA))) == Nothing
    {
      var r := MapPage(TEST_VA, phys, 2);
      if r != 0 { return false; }
      ghost var m1 := mem[..];
      ghost var root, p, v := tables.root, PageOf(TEST_VA), Page4K(LeafEntry(phys, 2));
      assert RemappedAt(old(mem[..]), m1, root, p, Nothing, v, p);
      Poke(phys, g);
      ghost var m2 := mem[..];
      passed := mem[phys / 8] == 0xDEADBEEFCAFEBABE;
      RemappedThenSame(old(mem[..]), m1, m2, root, p, Nothing, v);
      assert RemappedAt(old(mem[..]), m2, root, p, Nothing, v, p);
      var _ := UnmapPage(TEST_VA);
      RemappedBack(old(mem[..]), m2, mem[..], root, p, Nothing, v);
    }

    // The write through the new mapping lands in the frame itself.
    method Poke(phys: Word, ghost g: nat)
      requires Valid() && phys == g * 4096 && g !in tables.All() && InRam(mem[..], g)
      modifies mem
      ensures Valid() && SameMapping(old(mem[..]), mem[..], tables.root) && (old(AsLoaded()) ==> AsLoaded())
      ensures mem[phys / 8] == 0xDEADBEEFCAFEBABE
    {
      ghost var was := mem[..];
      mem[phys / 8] := 0xDEADBEEFCAFEBABE;
      assert mem[..] == was[g * 512 := 0xDEADBEEFCAFEBABE];
      StoreWrites(was, g, 0, 0xDEADBEEFCAFEBABE);
      ForeignFrame(was, mem[..], tables, g);
      if HugeApart(was, tables) { ForeignKeepsApart(was, mem[..], tables, g); }
    }

    // ---- Runs ----

    // The tables are as the loader leaves them and as every call keeps them.
    ghost predicate AsLoaded()
      reads this, mem
    {
      HugeApart(mem[..], tables) && Aliased(mem[..], tables.root)
    }

    // A mapping made and taken down again leaves every translation as it was, for all
    // arguments.
    method MapThenUnmap(va: Word, pa: Word, flags: Word) returns (r: int)
      requires Valid()
      modifies this`tables, pmm, pmm.bitmap, mem
      ensures Valid() && tables.root == old(tables.root)
      ensures r == if old(Feasible(PageOf(va))) then 0 else -1
      ensures SameMapping(old(mem[..]), mem[..], tables.root)
    {
      r := MapPage(va, pa, flags);
      if r != 0 { return; }
      ghost var m1, p, v := mem[..], PageOf(va), Page4K(LeafEntry(pa, flags));
      assert RemappedAt(old(mem[..]), m1, tables.root, p, Nothing, v, p);
      r := UnmapPage(va);
      RemappedBack(old(mem[..]), m1, mem[..], tables.root, p, Nothing, v);
    }

    method Perform(c: Call)
      requires Valid() && AsLoaded()
      modifies this`tables, pmm, pmm.bitmap, mem
      ensures Valid() && AsLoaded() && tables.root == old(tables.root)
      ensures HugeKept(old(mem[..]), mem[..], tables.root)
    {
      match c
      case MapCall(va, pa, flags) => var _ := MapPage(va, pa, flags);
      case UnmapCall(va) => var _ := UnmapPage(va);
      case RangeCall(va, pa, pages, flags) => MapRange(va, pa, pages, flags);
      case TestCall =>
        var _ := SelfTest();
        SameKeepsHuge(old(mem[..]), mem[..], tables.root);
    }

    // Whatever is called, and however often: the two ends of the address space agree, and
    // what a huge page maps is mapped as before.
    method Run(calls: seq<Call>)
      requires Valid() && AsLoaded()
      modifies this`tables, pmm, pmm.bitmap, mem
      ensures Valid() && AsLoaded() && tables.root == old(tables.root)
      ensures HugeKept(old(mem[..]), mem[..], tables.root)
      ensures forall p: Page | p.Ok() && p.i4 == 0 :: Map(p.(i4 := 511)) == Map(p)
    {
      for k := 0 to |calls|
        invariant Valid() && AsLoaded() && tables.root == old(tables.root)
        invariant HugeKept(old(mem[..]), mem[..], tables.root)
      {
        ghost var m1 := mem[..];
        Perform(calls[k]);
        HugeKeptTwice(old(mem[..]), m1, mem[..], tables.root);
      }
      forall p: Page | p.Ok() && p.i4 == 0 ensures Map(p.(i4 := 511)) == Map(p) {
        AliasAgrees(mem[..], tables.root, p);
      }
    }
  }
}
