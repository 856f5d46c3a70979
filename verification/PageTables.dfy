// The four-level page tables of x86-64 as they lie in physical memory
// (4-level paging, section 4.5 of the Intel SDM, Volume 3A), and the map from
// pages to page frames that they stand for.
module PageTables {
  import opened Words

  // ---- Entries ----

  predicate Present(e: Word) { e % 2 == 1 }

  predicate Writable(e: Word) { e / 2 % 2 == 1 }

  predicate Huge(e: Word) { e / 128 % 2 == 1 }

  // The page frame that e & ~0xFFF is the address of.
  function FrameOf(e: Word): nat { e / 4096 }

  // ---- Virtual pages ----

  // A virtual page, by its index in each of the four tables.
  datatype Page = Page(i4: nat, i3: nat, i2: nat, i1: nat) {
    predicate Ok() { i4 < 512 && i3 < 512 && i2 < 512 && i1 < 512 }
  }

  function PageOf(va: Word): (p: Page)
    ensures p.Ok()
  {
    Page(va / 0x80_0000_0000 % 512, va / 0x4000_0000 % 512, va / 0x20_0000 % 512, va / 0x1000 % 512)
  }

  // Two addresses of the 48-bit address space are on one page exactly when their
  // indices agree.
  lemma PagesAreAddresses(va: Word, vb: Word)
    requires va < 0x1_0000_0000_0000 && vb < 0x1_0000_0000_0000
    ensures PageOf(va) == PageOf(vb) <==> va / 4096 == vb / 4096
  {
    Digits(va / 4096);
    Digits(vb / 4096);
    ShiftIsDivision(va);
    ShiftIsDivision(vb);
  }

  lemma ShiftIsDivision(va: Word)
    ensures PageOf(va) ==
      Page(va / 4096 / 512 / 512 / 512 % 512, va / 4096 / 512 / 512 % 512, va / 4096 / 512 % 512, va / 4096 % 512)
  {
    Shift21(va);
    Shift30(va);
    Shift39(va);
  }

  lemma Shift21(va: nat)
    ensures va / 0x20_0000 == va / 0x1000 / 512
  {
  }

  lemma Shift30(va: nat)
    ensures va / 0x4000_0000 == va / 0x20_0000 / 512
  {
  }

  lemma Shift39(va: nat)
    ensures va / 0x80_0000_0000 == va / 0x4000_0000 / 512
  {
  }

  lemma Digits(n: nat)
    requires n < 512 * 512 * 512 * 512
    ensures n == ((n / 512 / 512 / 512 % 512 * 512 + n / 512 / 512 % 512) * 512 + n / 512 % 512) * 512 + n % 512
  {
  }

  // ---- The walk ----

  // Where walking the tables for a page ends: at a missing table, at a 1 GiB or a
  // 2 MiB page, or at an entry of a last-level table.
  datatype Walk = Missing | Giant(e: Word) | Large(e: Word) | Slot(pt: nat, i: nat)

  ghost function WalkTo(m: seq<Word>, root: nat, p: Page): Walk {
    var e4 := Rd(m, root, p.i4);
    if !Present(e4) then Missing else
    var e3 := Rd(m, FrameOf(e4), p.i3);
    if !Present(e3) then Missing else if Huge(e3) then Giant(e3) else
    var e2 := Rd(m, FrameOf(e3), p.i2);
    if !Present(e2) then Missing else if Huge(e2) then Large(e2) else
    Slot(FrameOf(e2), p.i1)
  }

  // What a page is mapped to.
  datatype View = Nothing | Page1G(e: Word) | Page2M(e: Word) | Page4K(e: Word)

  // The page-to-frame map that the tables under root stand for.
  ghost function Mapping(m: seq<Word>, root: nat, p: Page): View {
    match WalkTo(m, root, p)
    case Missing => Nothing
    case Giant(e) => Page1G(e)
    case Large(e) => Page2M(e)
    case Slot(pt, i) => if Present(Rd(m, pt, i)) then Page4K(Rd(m, pt, i)) else Nothing
  }

  lemma Within1G(e: Word, va: Word)
    ensures 0 <= e - e % 0x4000_0000 + va % 0x4000_0000 < 0x1_0000_0000_0000_0000
  {
  }

  lemma Within2M(e: Word, va: Word)
    ensures 0 <= e - e % 0x20_0000 + va % 0x20_0000 < 0x1_0000_0000_0000_0000
  {
  }

  lemma Within4K(e: Word, va: Word)
    ensures 0 <= e - e % 0x1000 + va % 0x1000 < 0x1_0000_0000_0000_0000
  {
  }

  // The physical address vmm_get_phys makes of an address on a page mapped like this.
  function Address(v: View, va: Word): Word {
    match v
    case Nothing => 0
    case Page1G(e) => Within1G(e, va); e - e % 0x4000_0000 + va % 0x4000_0000
    case Page2M(e) => Within2M(e, va); e - e % 0x20_0000 + va % 0x20_0000
    case Page4K(e) => Within4K(e, va); e - e % 0x1000 + va % 0x1000
  }

  // ---- Well-formed tables ----

  // The frames that hold tables, by level: one PML4, PDPTs, PDs and PTs.
  datatype Tables = Tables(root: nat, l3: set<nat>, l2: set<nat>, l1: set<nat>) {
    ghost function All(): set<nat> { {root} + l3 + l2 + l1 }

    ghost predicate Levelled() {
      root !in l3 && root !in l2 && root !in l1 && l3 !! l2 && l3 !! l1 && l2 !! l1
    }
  }

  ghost predicate InRam(m: seq<Word>, f: nat) { f * 512 + 512 <= |m| }

  // No frame is a table of two levels, every present entry leads to a table of the next
  // level, for writing too, unless it maps a huge page, and an entry that is not present is
  // not huge.
  ghost predicate TablesOk(m: seq<Word>, t: Tables) {
    && t.Levelled()
    && (forall f :: f in t.All() ==> InRam(m, f))
    && (forall i: nat :: i < 512 && Present(Rd(m, t.root, i)) ==>
          FrameOf(Rd(m, t.root, i)) in t.l3 && Writable(Rd(m, t.root, i)))
    && EntriesLead(m, t.l3, t.l2)
    && EntriesLead(m, t.l2, t.l1)
  }

  ghost predicate EntriesLead(m: seq<Word>, from: set<nat>, to: set<nat>) {
    forall f: nat, i: nat | f in from && i < 512 :: EntryLeads(Rd(m, f, i), to)
  }

  predicate EntryLeads(e: Word, to: set<nat>) {
    (Huge(e) ==> Present(e)) && (Present(e) && !Huge(e) ==> FrameOf(e) in to && Writable(e))
  }

  // The processor lets a page be written when every entry on its walk does.
  ghost predicate CanWrite(m: seq<Word>, root: nat, p: Page) {
    var e4 := Rd(m, root, p.i4);
    Present(e4) && Writable(e4) &&
    var e3 := Rd(m, FrameOf(e4), p.i3);
    Present(e3) && Writable(e3) && (Huge(e3) ||
      var e2 := Rd(m, FrameOf(e3), p.i2);
      Present(e2) && Writable(e2) && (Huge(e2) ||
        var e1 := Rd(m, FrameOf(e2), p.i1);
        Present(e1) && Writable(e1)))
  }

  // So the entry that maps a page decides.
  lemma WritableThrough(m: seq<Word>, t: Tables, p: Page)
    requires TablesOk(m, t) && p.Ok() && Mapping(m, t.root, p) != Nothing
    ensures CanWrite(m, t.root, p) <==> Writable(Mapping(m, t.root, p).e)
  {
    var e4 := Rd(m, t.root, p.i4);
    var e3 := Rd(m, FrameOf(e4), p.i3);
    assert EntryLeads(e3, t.l2);
    if !Huge(e3) { assert EntryLeads(Rd(m, FrameOf(e3), p.i2), t.l1); }
  }

  // The address computed is in the page mapped, at the same place as the address asked for.
  lemma AddressInPage(v: View, va: Word)
    requires v != Nothing
    ensures var size: int := if v.Page1G? then 0x4000_0000 else if v.Page2M? then 0x20_0000 else 0x1000;
      Address(v, va) / size == v.e / size && Address(v, va) % size == va % size
  {
    match v
    case Page1G(e) => Pieces1G(e, va);
    case Page2M(e) => Pieces2M(e, va);
    case Page4K(e) => Pieces4K(e, va);
  }

  lemma Pieces1G(e: Word, va: Word)
    ensures var a := e - e % 0x4000_0000 + va % 0x4000_0000;
      a / 0x4000_0000 == e / 0x4000_0000 && a % 0x4000_0000 == va % 0x4000_0000
  {
  }

  lemma Pieces2M(e: Word, va: Word)
    ensures var a := e - e % 0x20_0000 + va % 0x20_0000;
      a / 0x20_0000 == e / 0x20_0000 && a % 0x20_0000 == va % 0x20_0000
  {
  }

  lemma Pieces4K(e: Word, va: Word)
    ensures var a := e - e % 0x1000 + va % 0x1000; a / 0x1000 == e / 0x1000 && a % 0x1000 == va % 0x1000
  {
  }

  // m' is m with entry i of frame f overwritten.
  ghost predicate Wrote(m: seq<Word>, m': seq<Word>, f: nat, i: nat, e: Word) {
    && Rd(m', f, i) == e
    && |m'| == |m|
    && forall g: nat, j: nat :: j < 512 && (g != f || j != i) ==> Rd(m', g, j) == Rd(m, g, j)
  }

  lemma StoreWrites(m: seq<Word>, f: nat, i: nat, e: Word)
    requires InRam(m, f) && i < 512
    ensures Wrote(m, m[f * 512 + i := e], f, i, e)
  {
  }

  lemma ZeroedWrites(m: seq<Word>, f: nat, i: nat)
    requires i < 512
    ensures Wrote(m, Zeroed(m, f, i), f, i, 0)
  {
  }

  ghost predicate SameOutside(m: seq<Word>, m': seq<Word>, f: nat) {
    |m'| == |m| && forall g: nat, j: nat :: j < 512 && g != f ==> Rd(m', g, j) == Rd(m, g, j)
  }

  lemma ZeroingStaysInside(m: seq<Word>, f: nat)
    ensures SameOutside(m, ZeroFrames(m, f, 1), f)
    ensures forall j: nat :: j < 512 ==> Rd(ZeroFrames(m, f, 1), f, j) == 0
  {
  }

  // The two memories map the same, and a walk that ended at an entry still ends there.
  ghost predicate SameMapping(m: seq<Word>, m': seq<Word>, root: nat) {
    forall p: Page | p.Ok() :: Mapping(m', root, p) == Mapping(m, root, p) && WalkKept(m, m', root, p)
  }

  ghost predicate WalkKept(m: seq<Word>, m': seq<Word>, root: nat, p: Page) {
    WalkTo(m, root, p).Slot? ==> WalkTo(m', root, p) == WalkTo(m, root, p)
  }

  ghost predicate SameSlot(m: seq<Word>, root: nat, p: Page, q: Page) {
    WalkTo(m, root, p).Slot? && WalkTo(m, root, p) == WalkTo(m, root, q)
  }

  // m' maps like m, except that the pages sharing the entry of p went from u to v.
  ghost predicate Remapped(m: seq<Word>, m': seq<Word>, root: nat, p: Page, u: View, v: View) {
    WalkTo(m', root, p).Slot? && forall q: Page | q.Ok() :: RemappedAt(m, m', root, p, u, v, q)
  }

  ghost predicate RemappedAt(m: seq<Word>, m': seq<Word>, root: nat, p: Page, u: View, v: View, q: Page) {
    && WalkKept(m, m', root, q)
    && if SameSlot(m', root, q, p) then Mapping(m, root, q) == u && Mapping(m', root, q) == v
       else Mapping(m', root, q) == Mapping(m, root, q)
  }

  // ---- What each kind of store does to the mapping ----

  // Clearing a frame that is not a table is not visible in the mapping.
  lemma ForeignFrame(m: seq<Word>, m': seq<Word>, t: Tables, f: nat)
    requires TablesOk(m, t) && f !in t.All() && SameOutside(m, m', f)
    ensures TablesOk(m', t) && SameMapping(m, m', t.root)
  {
  }

  // t with one more table, g, below a table of the level of f.
  ghost function WithTable(t: Tables, f: nat, g: nat): Tables {
    if f == t.root then t.(l3 := t.l3 + {g})
    else if f in t.l3 then t.(l2 := t.l2 + {g})
    else t.(l1 := t.l1 + {g})
  }

  predicate LinkTo(e: Word, g: nat) { Present(e) && Writable(e) && !Huge(e) && FrameOf(e) == g }

  // Hooking an empty table into an entry that was not present maps nothing new.
  lemma LinkEmptyTable(m: seq<Word>, m': seq<Word>, t: Tables, f: nat, i: nat, e: Word, g: nat)
    requires TablesOk(m, t) && f in {t.root} + t.l3 + t.l2 && i < 512
    requires g !in t.All() && InRam(m, g) && (forall j: nat :: j < 512 ==> Rd(m, g, j) == 0)
    requires !Present(Rd(m, f, i)) && LinkTo(e, g) && Wrote(m, m', f, i, e)
    ensures TablesOk(m', WithTable(t, f, g)) && SameMapping(m, m', t.root)
  {
    forall p: Page | p.Ok()
      ensures Mapping(m', t.root, p) == Mapping(m, t.root, p) && WalkKept(m, m', t.root, p)
    {
      LinkedMapping(m, m', t, f, i, e, g, p);
    }
  }

  lemma LinkedMapping(m: seq<Word>, m': seq<Word>, t: Tables, f: nat, i: nat, e: Word, g: nat, p: Page)
    requires TablesOk(m, t) && f in {t.root} + t.l3 + t.l2 && i < 512 && p.Ok()
    requires g !in t.All() && (forall j: nat :: j < 512 ==> Rd(m, g, j) == 0)
    requires !Present(Rd(m, f, i)) && LinkTo(e, g) && Wrote(m, m', f, i, e)
    ensures Mapping(m', t.root, p) == Mapping(m, t.root, p) && WalkKept(m, m', t.root, p)
  {
    assert Rd(m', g, p.i3) == 0 && Rd(m', g, p.i2) == 0 && Rd(m', g, p.i1) == 0;
  }

  // Overwriting an entry of a last-level table changes exactly the pages whose walk
  // ends there.
  lemma StoreLeaf(m: seq<Word>, m': seq<Word>, t: Tables, p: Page, e: Word)
    requires TablesOk(m, t) && p.Ok() && WalkTo(m, t.root, p).Slot?
    requires var s := WalkTo(m, t.root, p); Wrote(m, m', s.pt, s.i, e)
    ensures TablesOk(m', t)
    ensures Remapped(m, m', t.root, p, Mapping(m, t.root, p), if Present(e) then Page4K(e) else Nothing)
  {
    var s := WalkTo(m, t.root, p);
    assert s.pt in t.l1 && s.i < 512;
    forall q: Page | q.Ok() ensures WalkTo(m', t.root, q) == WalkTo(m, t.root, q) {
    }
  }

  lemma SameTwice(m: seq<Word>, m1: seq<Word>, m2: seq<Word>, root: nat)
    requires SameMapping(m, m1, root) && SameMapping(m1, m2, root)
    ensures SameMapping(m, m2, root)
  {
    forall p: Page | p.Ok() ensures Mapping(m2, root, p) == Mapping(m, root, p) && WalkKept(m, m2, root, p) {
      assert WalkKept(m, m1, root, p) && WalkKept(m1, m2, root, p);
    }
  }

  lemma SameThenRemapped(m: seq<Word>, m1: seq<Word>, m2: seq<Word>, root: nat, p: Page, u: View, v: View)
    requires SameMapping(m, m1, root) && Remapped(m1, m2, root, p, u, v)
    ensures Remapped(m, m2, root, p, u, v)
  {
    forall q: Page | q.Ok() ensures RemappedAt(m, m2, root, p, u, v, q) {
      assert WalkKept(m, m1, root, q) && RemappedAt(m1, m2, root, p, u, v, q);
    }
  }

  lemma RemappedThenSame(m: seq<Word>, m1: seq<Word>, m2: seq<Word>, root: nat, p: Page, u: View, v: View)
    requires p.Ok() && v.Page4K? && Remapped(m, m1, root, p, u, v) && SameMapping(m1, m2, root)
    ensures Remapped(m, m2, root, p, u, v)
  {
    assert WalkKept(m1, m2, root, p) && RemappedAt(m, m1, root, p, u, v, p);
    forall q: Page | q.Ok() ensures RemappedAt(m, m2, root, p, u, v, q) {
      assert WalkKept(m1, m2, root, q) && RemappedAt(m, m1, root, p, u, v, q);
      SharedIsSameView(m2, root, p, q);
    }
  }

  lemma SharedIsSameView(m: seq<Word>, root: nat, p: Page, q: Page)
    ensures SameSlot(m, root, q, p) ==> Mapping(m, root, q) == Mapping(m, root, p)
  {
  }

  // Giving the pages that share an entry back what they mapped to restores the whole map.
  lemma RemappedBack(m: seq<Word>, m1: seq<Word>, m2: seq<Word>, root: nat, p: Page, u: View, v: View)
    requires p.Ok() && v.Page4K? && Remapped(m, m1, root, p, u, v) && Remapped(m1, m2, root, p, v, u)
    ensures SameMapping(m, m2, root)
  {
    forall q: Page | q.Ok() ensures Mapping(m2, root, q) == Mapping(m, root, q) && WalkKept(m, m2, root, q) {
      assert RemappedAt(m, m1, root, p, u, v, q) && RemappedAt(m1, m2, root, p, v, u, q);
      assert RemappedAt(m1, m2, root, p, v, u, p);
    }
  }

  // ---- Clearing any entry ----

  // The entry a page's translation is read from.
  datatype Place = NoPlace | At(f: nat, i: nat)

  ghost function PlaceOf(m: seq<Word>, root: nat, p: Page): Place {
    var e4 := Rd(m, root, p.i4);
    if !Present(e4) then NoPlace else
    var e3 := Rd(m, FrameOf(e4), p.i3);
    if !Present(e3) then NoPlace else if Huge(e3) then At(FrameOf(e4), p.i3) else
    var e2 := Rd(m, FrameOf(e3), p.i2);
    if !Present(e2) then NoPlace else if Huge(e2) then At(FrameOf(e3), p.i2) else
    At(FrameOf(e2), p.i1)
  }

  ghost predicate SameEntry(m: seq<Word>, root: nat, p: Page, q: Page) {
    PlaceOf(m, root, p) != NoPlace && PlaceOf(m, root, q) == PlaceOf(m, root, p)
  }

  // The walk for p reads entry i of frame f.
  ghost predicate Passes(m: seq<Word>, root: nat, p: Page, f: nat, i: nat) {
    var e4 := Rd(m, root, p.i4);
    var e3 := Rd(m, FrameOf(e4), p.i3);
    var e2 := Rd(m, FrameOf(e3), p.i2);
    || (f == root && i == p.i4)
    || (Present(e4) && f == FrameOf(e4) && i == p.i3)
    || (Present(e4) && Present(e3) && !Huge(e3) && f == FrameOf(e3) && i == p.i2)
    || (Present(e4) && Present(e3) && !Huge(e3) && Present(e2) && !Huge(e2) && f == FrameOf(e2) && i == p.i1)
  }

  // Exactly the pages whose walk reads an entry lose their translation when it is cleared.
  ghost predicate Cleared(m: seq<Word>, m': seq<Word>, root: nat, f: nat, i: nat) {
    forall q: Page | q.Ok() :: ClearedAt(m, m', root, f, i, q)
  }

  ghost predicate ClearedAt(m: seq<Word>, m': seq<Word>, root: nat, f: nat, i: nat, q: Page) {
    Mapping(m', root, q) == if Passes(m, root, q, f, i) then Nothing else Mapping(m, root, q)
  }

  lemma ClearEntryAt(m: seq<Word>, m': seq<Word>, root: nat, f: nat, i: nat, q: Page)
    requires Wrote(m, m', f, i, 0) && i < 512 && q.Ok()
    ensures ClearedAt(m, m', root, f, i, q)
  {
  }

  lemma ClearAnyEntry(m: seq<Word>, m': seq<Word>, t: Tables, f: nat, i: nat)
    requires TablesOk(m, t) && Wrote(m, m', f, i, 0) && i < 512
    ensures TablesOk(m', t) && Cleared(m, m', t.root, f, i)
  {
    forall q: Page | q.Ok() ensures ClearedAt(m, m', t.root, f, i, q) {
      ClearEntryAt(m, m', t.root, f, i, q);
    }
  }

  // What unmapping page p should do: the pages with its entry translate no more, and all
  // others as before.
  ghost predicate Unmapped(m: seq<Word>, m': seq<Word>, root: nat, p: Page) {
    forall q: Page | q.Ok() :: UnmappedAt(m, m', root, p, q)
  }

  ghost predicate UnmappedAt(m: seq<Word>, m': seq<Word>, root: nat, p: Page, q: Page) {
    Mapping(m', root, q) == if SameEntry(m, root, p, q) then Nothing else Mapping(m, root, q)
  }

  // The entry is above p's own on the walk for p, and is the way to the pages with p's
  // entry and to no other page that is mapped.
  ghost predicate OnlyWayTo(m: seq<Word>, root: nat, p: Page, f: nat, i: nat) {
    && Passes(m, root, p, f, i)
    && forall q: Page | q.Ok() && Mapping(m, root, q) != Nothing :: OnlyWayAt(m, root, p, f, i, q)
  }

  ghost predicate OnlyWayAt(m: seq<Word>, root: nat, p: Page, f: nat, i: nat, q: Page) {
    Passes(m, root, q, f, i) <==> SameEntry(m, root, p, q)
  }

  lemma MappedHasPlace(m: seq<Word>, root: nat, p: Page)
    ensures Mapping(m, root, p) != Nothing ==> SameEntry(m, root, p, p)
  {
  }

  // In levelled tables only the pages with an entry pass it.
  lemma OwnEntryPasses(m: seq<Word>, t: Tables, p: Page, f: nat, i: nat, q: Page)
    requires TablesOk(m, t) && p.Ok() && q.Ok() && PlaceOf(m, t.root, p) == At(f, i)
    ensures OnlyWayAt(m, t.root, p, f, i, q)
  {
  }

  // Clearing an entry unmaps p, and nothing else, exactly when the entry is p's own or
  // the only way to it.
  lemma UnmapsOwnOrOnlyWay(m: seq<Word>, m': seq<Word>, t: Tables, p: Page, f: nat, i: nat)
    requires TablesOk(m, t) && p.Ok() && Cleared(m, m', t.root, f, i)
    requires Mapping(m, t.root, p) != Nothing || PlaceOf(m, t.root, p) == At(f, i)
    ensures Unmapped(m, m', t.root, p) <==> PlaceOf(m, t.root, p) == At(f, i) || OnlyWayTo(m, t.root, p, f, i)
  {
    var root := t.root;
    if PlaceOf(m, root, p) == At(f, i) {
      forall q: Page | q.Ok() ensures UnmappedAt(m, m', root, p, q) {
        OwnEntryPasses(m, t, p, f, i, q);
        assert ClearedAt(m, m', root, f, i, q);
      }
    } else if OnlyWayTo(m, root, p, f, i) {
      forall q: Page | q.Ok() ensures UnmappedAt(m, m', root, p, q) {
        assert ClearedAt(m, m', root, f, i, q);
        assert Mapping(m, root, q) != Nothing ==> OnlyWayAt(m, root, p, f, i, q);
      }
    } else if Unmapped(m, m', root, p) {
      assert UnmappedAt(m, m', root, p, p) && ClearedAt(m, m', root, f, i, p);
      forall q: Page | q.Ok() && Mapping(m, root, q) != Nothing ensures OnlyWayAt(m, root, p, f, i, q) {
        assert UnmappedAt(m, m', root, p, q) && ClearedAt(m, m', root, f, i, q);
      }
    }
  }
}
