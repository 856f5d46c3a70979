// uefi/loader.c, lines 183-217: the page tables the kernel starts with.
module Loader {
  import opened Words
  import opened PageTables
  import opened HugePages
  import V = Vmm
  import P = Pmm

  // The frames of the tables: PML4 at 0x1000, PDPT at 0x2000 and the page directories
  // of the four lowest GiB.
  const ROOT: nat := 1

  function PdFrame(i3: nat): nat
    requires i3 < 4
  {
    if i3 == 3 then 8 else 3 + i3
  }

  ghost const LOADER_TABLES := Tables(1, {2}, {3, 4, 5, 8}, {})

  // The physical address of 2 MiB page i2 of GiB i3.
  function Base(i3: nat, i2: nat): nat { i3 * 0x4000_0000 + i2 * 0x20_0000 }

  // The entry of that page before the framebuffer is mapped.
  function InitialEntry(i3: nat, i2: nat): nat {
    if i3 == 0 && i2 == 510 then 0x83 else Base(i3, i2) + 0x87
  }

  // Its entry once the framebuffer is mapped for the 2 MiB pages from lo up to hi.
  function WindowEntry(i3: nat, i2: nat, lo: nat, hi: nat): nat {
    if lo <= Base(i3, i2) < hi then Base(i3, i2) + 0x83 else InitialEntry(i3, i2)
  }

  ghost predicate DirectoriesAre(mem: seq<Word>, lo: nat, hi: nat) {
    |mem| >= 9 * 512 && forall i3: nat, i2: nat | i3 < 4 && i2 < 512 ::
      Rd(mem, PdFrame(i3), i2) == WindowEntry(i3, i2, lo, hi)
  }

  // pml4[0] and pml4[511] lead to the PDPT, whose first four entries lead to the
  // directories; all other entries are zero.
  ghost predicate TopIs(mem: seq<Word>) {
    && |mem| >= 9 * 512
    && (forall i: nat | i < 512 :: Rd(mem, 1, i) == if i == 0 || i == 511 then 0x2003 else 0)
    && (forall i: nat | i < 512 :: Rd(mem, 2, i) == if i < 4 then PdFrame(i) * 4096 + 3 else 0)
  }

  // Lines 188-199.
  method FillIdentity(mem: array<Word>)
    requires mem.Length >= 9 * 512
    modifies mem
    ensures TopIs(mem[..]) && DirectoriesAre(mem[..], 0, 0)
  {
    ClearTables(mem);
    HookTables(mem);
    ghost var top := mem[..];
    FillDirectories(mem);
    mem[3 * 512 + 510] := 0x83;
    assert forall i: nat | i < 512 :: Rd(mem[..], 1, i) == Rd(top, 1, i) && Rd(mem[..], 2, i) == Rd(top, 2, i);
    forall i3: nat, i2: nat | i3 < 4 && i2 < 512
      ensures Rd(mem[..], PdFrame(i3), i2) == WindowEntry(i3, i2, 0, 0)
    {
    }
  }

  method HookTables(mem: array<Word>)
    requires mem.Length >= 9 * 512
    requires forall k :: 512 <= k < 3 * 512 ==> mem[k] == 0
    modifies mem
    ensures TopIs(mem[..])
  {
    mem[1 * 512 + 0] := 0x2003;
    mem[1 * 512 + 511] := 0x2003;
    mem[2 * 512 + 0] := 0x3003;
    mem[2 * 512 + 1] := 0x4003;
    mem[2 * 512 + 2] := 0x5003;
    mem[2 * 512 + 3] := 0x8003;
  }

  method FillDirectories(mem: array<Word>)
    requires mem.Length >= 9 * 512
    modifies mem
    ensures forall k :: 0 <= k < 3 * 512 ==> mem[k] == old(mem[k])
    ensures forall j: nat :: j < 512 ==> mem[3 * 512 + j] == Base(0, j) + 0x87
    ensures forall j: nat :: j < 512 ==> mem[4 * 512 + j] == Base(1, j) + 0x87
    ensures forall j: nat :: j < 512 ==> mem[5 * 512 + j] == Base(2, j) + 0x87
    ensures forall j: nat :: j < 512 ==> mem[8 * 512 + j] == Base(3, j) + 0x87
  {
    for i := 0 to 512
      invariant forall k :: 0 <= k < 3 * 512 ==> mem[k] == old(mem[k])
      invariant forall j: nat :: j < i ==> mem[3 * 512 + j] == Base(0, j) + 0x87
      invariant forall j: nat :: j < i ==> mem[4 * 512 + j] == Base(1, j) + 0x87
      invariant forall j: nat :: j < i ==> mem[5 * 512 + j] == Base(2, j) + 0x87
      invariant forall j: nat :: j < i ==> mem[8 * 512 + j] == Base(3, j) + 0x87
    {
      mem[3 * 512 + i] := i * 0x20_0000 + 0x87;
      mem[4 * 512 + i] := i * 0x20_0000 + 0x4000_0000 + 0x87;
      mem[5 * 512 + i] := i * 0x20_0000 + 0x8000_0000 + 0x87;
      mem[8 * 512 + i] := i * 0x20_0000 + 0xC000_0000 + 0x87;
    }
  }

  method ClearTables(mem: array<Word>)
    requires mem.Length >= 9 * 512
    modifies mem
    ensures forall k :: 512 <= k < 6 * 512 || 8 * 512 <= k < 9 * 512 ==> mem[k] == 0
  {
    for i := 0 to 512
      invariant forall k :: (512 <= k < 6 * 512 || 8 * 512 <= k < 9 * 512) && k % 512 < i ==> mem[k] == 0
    {
      mem[512 + i], mem[2 * 512 + i], mem[3 * 512 + i] := 0, 0, 0;
      mem[4 * 512 + i], mem[5 * 512 + i], mem[8 * 512 + i] := 0, 0, 0;
    }
  }

  // Lines 200-213: the 2 MiB pages the framebuffer touches.
  method MapWindow(mem: array<Word>, fbBase: Word, fbSize: Word)
    requires mem.Length >= 9 * 512 && TopIs(mem[..]) && DirectoriesAre(mem[..], 0, 0)
    requires fbBase + fbSize <= 0x1_0000_0000_0000_0000 - 0x20_0000
    modifies mem
    ensures TopIs(mem[..])
    ensures DirectoriesAre(mem[..], fbBase - fbBase % 0x20_0000, fbBase + fbSize)
  {
    var gbase := fbBase - fbBase % 0x20_0000;
    var gend := fbBase + fbSize;
    var a := gbase;
    EmptyWindow(mem[..], gbase);
    while a < gend
      invariant gbase <= a && a % 0x20_0000 == 0
      invariant a <= gbase || a < gend + 0x20_0000
      invariant TopIs(mem[..]) && DirectoriesAre(mem[..], gbase, a)
    {
      MapWindowPage(mem, gbase, a);
      a := a + 0x20_0000;
    }
    WindowEnd(mem[..], gbase, a, gend);
  }

  method MapWindowPage(mem: array<Word>, gbase: nat, a: nat)
    requires mem.Length >= 9 * 512 && TopIs(mem[..]) && DirectoriesAre(mem[..], gbase, a)
    requires gbase <= a && a % 0x20_0000 == 0 && a + 0x20_0000 < 0x1_0000_0000_0000_0000
    modifies mem
    ensures TopIs(mem[..]) && DirectoriesAre(mem[..], gbase, a + 0x20_0000)
  {
    var idx := a / 0x4000_0000;
    ghost var was := mem[..];
    if idx < 4 {
      // The PDPT entry is present already, so its test never writes it.
      assert Present(Rd(was, 2, idx));
      var i2 := a / 0x20_0000 % 512;
      AlignedIsBase(a);
      var e: Word := a + 0x83;
      mem[PdFrame(idx) * 512 + i2] := e;
      assert mem[..] == was[PdFrame(idx) * 512 + i2 := e];
      StoreWrites(was, PdFrame(idx), i2, e);
      WindowStep(was, mem[..], gbase, a, idx, i2);
    } else {
      WindowBeyond(was, gbase, a);
    }
  }

  lemma AlignedIsBase(a: nat)
    requires a % 0x20_0000 == 0
    ensures a == Base(a / 0x4000_0000, a / 0x20_0000 % 512)
  {
    var q := a / 0x20_0000;
    Shift30(a);
    assert a == q * 0x20_0000 && q == q / 512 * 512 + q % 512;
  }

  lemma WindowStep(m: seq<Word>, m': seq<Word>, lo: nat, a: nat, idx: nat, i2: nat)
    requires TopIs(m) && DirectoriesAre(m, lo, a)
    requires idx < 4 && i2 < 512 && a == Base(idx, i2) && lo <= a
    requires Wrote(m, m', PdFrame(idx), i2, a + 0x83)
    ensures TopIs(m') && DirectoriesAre(m', lo, a + 0x20_0000)
  {
    forall j3: nat, j2: nat | j3 < 4 && j2 < 512
      ensures Rd(m', PdFrame(j3), j2) == WindowEntry(j3, j2, lo, a + 0x20_0000)
    {
      assert Base(j3, j2) == a <==> j3 == idx && j2 == i2;
    }
  }

  lemma WindowBeyond(m: seq<Word>, lo: nat, a: nat)
    requires DirectoriesAre(m, lo, a) && a >= 0x1_0000_0000
    ensures DirectoriesAre(m, lo, a + 0x20_0000)
  {
  }

  lemma EmptyWindow(m: seq<Word>, lo: nat)
    requires DirectoriesAre(m, 0, 0)
    ensures DirectoriesAre(m, lo, lo)
  {
  }

  lemma WindowEnd(m: seq<Word>, lo: nat, a: nat, hi: nat)
    requires DirectoriesAre(m, lo, a) && a % 0x20_0000 == 0 && hi <= a
    requires a <= lo || a < hi + 0x20_0000
    ensures DirectoriesAre(m, lo, hi)
  {
    forall i3: nat, i2: nat | i3 < 4 && i2 < 512
      ensures WindowEntry(i3, i2, lo, hi) == WindowEntry(i3, i2, lo, a)
    {
      assert Base(i3, i2) % 0x20_0000 == 0;
    }
  }

  // All of lines 188-217.  The last ones only write entries that are not present, and
  // those of the directories are all present.
  method BuildTables(mem: array<Word>, fbBase: Word, fbSize: Word)
    requires mem.Length >= 9 * 512
    requires fbBase + fbSize <= 0x1_0000_0000_0000_0000 - 0x20_0000
    modifies mem
    ensures TopIs(mem[..])
    ensures DirectoriesAre(mem[..], fbBase - fbBase % 0x20_0000, fbBase + fbSize)
    ensures TablesOk(mem[..], LOADER_TABLES) && HugeApart(mem[..], LOADER_TABLES)
    ensures V.Aliased(mem[..], ROOT)
    ensures LowMapped(mem[..], fbBase - fbBase % 0x20_0000, fbBase + fbSize)
  {
    FillIdentity(mem);
    MapWindow(mem, fbBase, fbSize);
    LoaderShape(mem[..], fbBase - fbBase % 0x20_0000, fbBase + fbSize);
  }

  lemma LoaderShape(m: seq<Word>, lo: nat, hi: nat)
    requires TopIs(m) && DirectoriesAre(m, lo, hi)
    ensures Present(Rd(m, 2, 3)) && Present(Rd(m, PdFrame(3), 256)) && Present(Rd(m, PdFrame(3), 257))
    ensures TablesOk(m, LOADER_TABLES) && HugeApart(m, LOADER_TABLES) && V.Aliased(m, ROOT) && LowMapped(m, lo, hi)
  {
    DirectoryEntry(3, 256, lo, hi);
    DirectoryEntry(3, 257, lo, hi);
    LoaderTablesOk(m, lo, hi);
    LoaderApart(m, lo, hi);
    LowIsMapped(m, lo, hi);
  }

  // From the loader to vmm_init: the address space the kernel starts with is well formed,
  // with its huge pages apart from the frames handed out and both ends alike.
  method Boot(mem: array<Word>, fbBase: Word, fbSize: Word) returns (vm: V.AddressSpace)
    requires P.MEM_END / 8 <= mem.Length
    requires fbBase + fbSize <= 0x1_0000_0000_0000_0000 - 0x20_0000
    modifies mem
    ensures vm.Valid() && vm.tables.root == ROOT && vm.mem == mem && vm.pmm.used == {} && vm.AsLoaded()
    ensures fresh(vm) && fresh(vm.pmm) && fresh(vm.pmm.bitmap)
    ensures TopIs(mem[..])
    ensures DirectoriesAre(mem[..], fbBase - fbBase % 0x20_0000, fbBase + fbSize)
    ensures LowMapped(mem[..], fbBase - fbBase % 0x20_0000, fbBase + fbSize)
  {
    BuildTables(mem, fbBase, fbSize);
    ghost var m := mem[..];
    vm := Init(mem);
    assert mem[..] == m;
  }

  // pmm_init and vmm_init, with the page tables in CR3.
  method Init(mem: array<Word>) returns (vm: V.AddressSpace)
    requires P.MEM_END / 8 <= mem.Length && TablesOk(mem[..], LOADER_TABLES)
    ensures vm.Valid() && vm.tables == LOADER_TABLES && vm.mem == mem && vm.pmm.used == {}
    ensures fresh(vm) && fresh(vm.pmm) && fresh(vm.pmm.bitmap)
  {
    var pmm := new P.FrameAllocator(mem);
    vm := new V.AddressSpace(pmm, 0x1000, LOADER_TABLES);
  }

  // The lowest 4 GiB are where they should be.
  ghost predicate LowMapped(m: seq<Word>, lo: nat, hi: nat) {
    forall va: Word | va < 0x1_0000_0000 :: LowMappedAt(m, lo, hi, va)
  }

  ghost predicate LowMappedAt(m: seq<Word>, lo: nat, hi: nat, va: Word) {
    var v := Mapping(m, ROOT, PageOf(va));
    v.Page2M? && Address(v, va) == LowTarget(va, lo, hi)
  }

  lemma LowIsMapped(m: seq<Word>, lo: nat, hi: nat)
    requires TopIs(m) && DirectoriesAre(m, lo, hi)
    ensures LowMapped(m, lo, hi)
  {
    forall va: Word | va < 0x1_0000_0000 ensures LowMappedAt(m, lo, hi, va) {
      LowPage(va);
      LowMapping(m, lo, hi, PageOf(va));
      IdentityBelow4G(m, lo, hi, va);
    }
  }

  // Booted, and then whatever calls of the virtual memory functions: the lowest 4 GiB are
  // still where they were, and the high end of the address space agrees with the low end.
  method BootAndRun(mem: array<Word>, fbBase: Word, fbSize: Word, calls: seq<V.Call>) returns (vm: V.AddressSpace)
    requires P.MEM_END / 8 <= mem.Length
    requires fbBase + fbSize <= 0x1_0000_0000_0000_0000 - 0x20_0000
    modifies mem
    ensures vm.Valid() && vm.mem == mem
    ensures LowMapped(mem[..], fbBase - fbBase % 0x20_0000, fbBase + fbSize)
    ensures forall p: Page | p.Ok() && p.i4 == 0 :: vm.Map(p.(i4 := 511)) == vm.Map(p)
  {
    vm := Boot(mem, fbBase, fbSize);
    ghost var was := mem[..];
    vm.Run(calls);
    LowStays(was, mem[..], fbBase - fbBase % 0x20_0000, fbBase + fbSize);
  }

  lemma LowStays(m: seq<Word>, m': seq<Word>, lo: nat, hi: nat)
    requires LowMapped(m, lo, hi) && HugeKept(m, m', ROOT)
    ensures LowMapped(m', lo, hi)
  {
    forall va: Word | va < 0x1_0000_0000 ensures LowMappedAt(m', lo, hi, va) {
      assert LowMappedAt(m, lo, hi, va);
    }
  }

  // Unmapping 0x200000 unmaps 0x1_0000_0000 instead.  The page directory made for that is
  // in the first frame handed out, which is the one at 0x200000, in a huge page.
  method UnmapsAnotherPage(mem: array<Word>) returns (vm: V.AddressSpace, mapped: int, before: Word, unmapped: int,
                                                      after: Word, still: Word)
    requires P.MEM_END / 8 <= mem.Length
    modifies mem
    ensures vm.Valid() && mapped == 0 && before == 0x30_0000
    ensures unmapped == 0 && after == 0 && still == 0x20_0000
  {
    vm := Boot(mem, 0, 0);
    mapped, before := MapHigh(vm);
    unmapped, after, still := UnmapLow(vm);
  }

  // The two addresses, and the walks for them in the end.
  const LOW: Word := 0x20_0000
  const HIGH: Word := 0x1_0000_0000

  ghost predicate HighInLow(m: seq<Word>) {
    && Mapping(m, ROOT, PageOf(LOW)) == Page2M(0x20_0087)
    && Mapping(m, ROOT, PageOf(HIGH)) == Page4K(0x30_0003)
    && V.Directory(m, ROOT, PageOf(HIGH)) == 512
  }

  method MapHigh(vm: V.AddressSpace) returns (r: int, before: Word)
    requires vm.Valid() && vm.tables.root == ROOT && vm.pmm.used == {} && vm.AsLoaded()
    requires TopIs(vm.mem[..]) && DirectoriesAre(vm.mem[..], 0, 0)
    modifies vm`tables, vm.pmm, vm.pmm.bitmap, vm.mem
    ensures vm.Valid() && vm.tables.root == ROOT && vm.AsLoaded() && HighInLow(vm.mem[..])
    ensures r == 0 && before == 0x30_0000
  {
    HighAndLow(vm.mem[..]);
    NextIsFirst();
    r := vm.MapPage(HIGH, 0x30_0000, 2);
    assert V.LeafEntry(0x30_0000, 2) == 0x30_0003;
    before := vm.GetPhys(HIGH);
  }

  method UnmapLow(vm: V.AddressSpace) returns (r: int, after: Word, still: Word)
    requires vm.Valid() && vm.tables.root == ROOT && vm.AsLoaded() && HighInLow(vm.mem[..])
    modifies vm.mem
    ensures vm.Valid() && r == 0 && after == 0 && still == 0x20_0000
  {
    HighPasses(vm.mem[..]);
    r := vm.UnmapPage(LOW);
    after := vm.GetPhys(HIGH);
    still := vm.GetPhys(LOW);
  }

  lemma NextIsFirst()
    ensures forall g: nat :: V.IsNextFrame({}, g) ==> g == 512
  {
    assert P.FreeRun({}, 0, 1);
  }

  lemma HighPasses(m: seq<Word>)
    requires HighInLow(m)
    ensures PageOf(LOW) == Page(0, 0, 1, 0) && PageOf(HIGH) == Page(0, 4, 0, 0)
    ensures UnmapTarget(m, ROOT, PageOf(LOW)) == Target(512, 0)
    ensures Passes(m, ROOT, PageOf(HIGH), 512, 0)
  {
  }

  // What the loader has at the two addresses.
  lemma HighAndLow(m: seq<Word>)
    requires TopIs(m) && DirectoriesAre(m, 0, 0)
    ensures V.MapCost(m, ROOT, PageOf(HIGH)) == V.NewTables(2)
    ensures Mapping(m, ROOT, PageOf(LOW)) == Page2M(0x20_0087)
  {
    HighLowPages();
    LowMapping(m, 0, 0, Page(0, 0, 1, 0));
    assert Rd(m, 1, 0) == 0x2003 && FrameOf(0x2003) == 2 && Rd(m, 2, 4) == 0;
  }

  lemma HighLowPages()
    ensures PageOf(LOW) == Page(0, 0, 1, 0) && PageOf(HIGH) == Page(0, 4, 0, 0)
  {
  }

  lemma DirectoryEntry(i3: nat, i2: nat, lo: nat, hi: nat)
    requires i3 < 4 && i2 < 512
    ensures var e: Word := WindowEntry(i3, i2, lo, hi); Present(e) && Writable(e) && Huge(e)
  {
    EntryBits(0, 0x83);
    EntryBits(i3 * 0x40_0000 + i2 * 0x2000, 0x83);
    EntryBits(i3 * 0x40_0000 + i2 * 0x2000, 0x87);
  }

  lemma EntryBits(q: nat, low: nat)
    requires low == 0x83 || low == 0x87
    ensures (q * 256 + low) % 2 == 1 && (q * 256 + low) / 2 % 2 == 1 && (q * 256 + low) / 128 % 2 == 1
  {
    assert (q * 256 + low) / 128 == 2 * q + 1;
    assert (q * 256 + low) / 2 == 128 * q + low / 2;
  }

  lemma LoaderTablesOk(m: seq<Word>, lo: nat, hi: nat)
    requires TopIs(m) && DirectoriesAre(m, lo, hi)
    ensures TablesOk(m, LOADER_TABLES)
  {
    forall f: nat, i: nat | f in LOADER_TABLES.l2 && i < 512 ensures EntryLeads(Rd(m, f, i), LOADER_TABLES.l1) {
      var i3 := if f == 8 then 3 else f - 3;
      DirectoryEntry(i3, i, lo, hi);
      assert f == PdFrame(i3);
    }
  }

  // The loader's huge pages lie on 2 MiB.
  lemma LoaderApart(m: seq<Word>, lo: nat, hi: nat)
    requires TopIs(m) && DirectoriesAre(m, lo, hi)
    ensures HugeApart(m, LOADER_TABLES)
  {
    forall f: nat, i: nat | f in LOADER_TABLES.l2 && i < 512 ensures PdEntryApart(f, Rd(m, f, i)) {
      var i3 := if f == 8 then 3 else f - 3;
      assert f == PdFrame(i3);
      WindowAligned(i3, i, lo, hi);
    }
    forall f: nat, i: nat | f in LOADER_TABLES.l3 && i < 512 ensures PdptEntryApart(f, Rd(m, f, i)) {
      if i < 4 { PdptEntry(i); }
    }
  }

  lemma WindowAligned(i3: nat, i2: nat, lo: nat, hi: nat)
    requires i3 < 4 && i2 < 512
    ensures FrameOf(WindowEntry(i3, i2, lo, hi)) % 512 == 0
  {
    var q := i3 * 512 + i2;
    assert FrameOf(q * 0x20_0000 + 0x83) == FrameOf(q * 0x20_0000 + 0x87) == q * 512;
  }

  lemma PdptEntry(i3: nat)
    requires i3 < 4
    ensures var e: Word := PdFrame(i3) * 4096 + 3; Present(e) && Writable(e) && !Huge(e) && FrameOf(e) == PdFrame(i3)
  {
  }

  // The walk for a page, given the entries it meets.
  lemma WalkIs(m: seq<Word>, p: Page, e4: Word, e3: Word, e2: Word)
    requires e4 == Rd(m, ROOT, p.i4) && Present(e4) && e3 == Rd(m, FrameOf(e4), p.i3)
    requires Present(e3) && !Huge(e3) && e2 == Rd(m, FrameOf(e3), p.i2)
    ensures Present(e2) && Huge(e2) ==> Mapping(m, ROOT, p) == Page2M(e2)
  {
  }

  lemma LowMapping(m: seq<Word>, lo: nat, hi: nat, p: Page)
    requires TopIs(m) && DirectoriesAre(m, lo, hi) && p.Ok() && (p.i4 == 0 || p.i4 == 511) && p.i3 < 4
    ensures Mapping(m, ROOT, p) == Page2M(WindowEntry(p.i3, p.i2, lo, hi))
  {
    PdptEntry(p.i3);
    DirectoryEntry(p.i3, p.i2, lo, hi);
    WalkIs(m, p, 0x2003, PdFrame(p.i3) * 4096 + 3, WindowEntry(p.i3, p.i2, lo, hi));
  }

  lemma NoMapping(m: seq<Word>, p: Page)
    requires TopIs(m) && p.Ok() && !((p.i4 == 0 || p.i4 == 511) && p.i3 < 4)
    ensures Mapping(m, ROOT, p) == Nothing
  {
    var e4 := Rd(m, ROOT, p.i4);
    assert Present(e4) ==> FrameOf(e4) == 2 && Rd(m, 2, p.i3) == 0;
  }

  // What the loader's tables map: the lowest 4 GiB, in 2 MiB pages, at both ends of the
  // address space.
  lemma LoaderMapping(m: seq<Word>, lo: nat, hi: nat, p: Page)
    requires TopIs(m) && DirectoriesAre(m, lo, hi) && p.Ok()
    ensures Mapping(m, ROOT, p) ==
      if (p.i4 == 0 || p.i4 == 511) && p.i3 < 4 then Page2M(WindowEntry(p.i3, p.i2, lo, hi)) else Nothing
  {
    if (p.i4 == 0 || p.i4 == 511) && p.i3 < 4 { LowMapping(m, lo, hi, p); } else { NoMapping(m, p); }
  }

  // Every address below 4 GiB is its own physical address, except in the 2 MiB page at
  // 0x3FC00000, which leads to physical 0 unless the framebuffer covers it.
  function LowTarget(va: Word, lo: nat, hi: nat): int {
    if va - va % 0x20_0000 == 0x3FC0_0000 && !(lo <= 0x3FC0_0000 < hi) then va - 0x3FC0_0000 else va
  }

  lemma IdentityBelow4G(m: seq<Word>, lo: nat, hi: nat, va: Word)
    requires TopIs(m) && DirectoriesAre(m, lo, hi) && va < 0x1_0000_0000
    ensures Address(Mapping(m, ROOT, PageOf(va)), va) == LowTarget(va, lo, hi)
  {
    var p := PageOf(va);
    LoaderMapping(m, lo, hi, p);
    LowPage(va);
    WindowAddress(p.i3, p.i2, lo, hi, va);
  }

  lemma LowPage(va: Word)
    requires va < 0x1_0000_0000
    ensures var p := PageOf(va); p.i4 == 0 && p.i3 < 4 && Base(p.i3, p.i2) == va - va % 0x20_0000
  {
    var q := va / 0x20_0000;
    Shift30(va);
    assert q / 512 < 4 && q == q / 512 * 512 + q % 512;
    assert va - va % 0x20_0000 == q * 0x20_0000;
  }

  lemma WindowAddress(i3: nat, i2: nat, lo: nat, hi: nat, va: Word)
    requires i3 < 4 && i2 < 512 && Base(i3, i2) == va - va % 0x20_0000
    ensures Address(Page2M(WindowEntry(i3, i2, lo, hi)), va) ==
      if Base(i3, i2) == 0x3FC0_0000 && !(lo <= 0x3FC0_0000 < hi) then va - 0x3FC0_0000 else va
  {
    assert (Base(i3, i2) + 0x83) % 0x20_0000 == 0x83;
    assert (Base(i3, i2) + 0x87) % 0x20_0000 == 0x87;
  }
}
