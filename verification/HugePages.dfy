// Huge pages in the tables, which vmm_unmap_page in kernel/vmm.c does not tell from
// tables: what it clears, what that unmaps, and what it never touches in the tables that
// the loader leaves and vmm_map_page adds to.
module HugePages {
  import opened Words
  import opened PageTables
  import opened Pmm

  // The entry vmm_unmap_page clears: it follows every present entry as if it led to a
  // table, huge or not.
  datatype Target = NoTarget | Target(f: nat, i: nat)

  ghost function UnmapTarget(m: seq<Word>, root: nat, p: Page): Target {
    var e4 := Rd(m, root, p.i4);
    if !Present(e4) then NoTarget else
    var e3 := Rd(m, FrameOf(e4), p.i3);
    if !Present(e3) then NoTarget else
    var e2 := Rd(m, FrameOf(e3), p.i2);
    if !Present(e2) then NoTarget else Target(FrameOf(e2), p.i1)
  }

  // Where a target is found, the page is mapped by a huge page or the target is its entry.
  lemma TargetPlace(m: seq<Word>, root: nat, p: Page)
    requires UnmapTarget(m, root, p) != NoTarget
    ensures var t := UnmapTarget(m, root, p);
      if WalkTo(m, root, p).Slot? then PlaceOf(m, root, p) == At(t.f, t.i) && Passes(m, root, p, t.f, t.i)
      else Mapping(m, root, p) != Nothing
  {
  }

  // What the call is for happens exactly on walks that meet no huge bit.  The one
  // exception is a huge page that holds a table of its own walk, at the very entry the
  // walk reads there.
  lemma UnmapsExactly(m: seq<Word>, m': seq<Word>, t: Tables, p: Page, f: nat, i: nat)
    requires TablesOk(m, t) && p.Ok() && UnmapTarget(m, t.root, p) == Target(f, i) && Cleared(m, m', t.root, f, i)
    ensures WalkTo(m, t.root, p).Slot? || !Passes(m, t.root, p, f, i) ==>
      (Unmapped(m, m', t.root, p) <==> WalkTo(m, t.root, p).Slot?)
    ensures !WalkTo(m, t.root, p).Slot? && Passes(m, t.root, p, f, i) ==>
      (Unmapped(m, m', t.root, p) <==> PlaceOf(m, t.root, p) == At(f, i) || OnlyWayTo(m, t.root, p, f, i))
  {
    TargetPlace(m, t.root, p);
    UnmapsOwnOrOnlyWay(m, m', t, p, f, i);
    if !Passes(m, t.root, p, f, i) {
      assert Mapping(m, t.root, p) != Nothing && ClearedAt(m, m', t.root, f, i, p);
      MappedHasPlace(m, t.root, p);
      assert !UnmappedAt(m, m', t.root, p, p);
    }
  }

  // ---- The tables of a running kernel ----

  // Huge pages have 2 MiB and start on 2 MiB, and the directories they hang from are the
  // loader's, below the frames that are handed out; only tables down there lead to them.
  ghost predicate HugeApart(m: seq<Word>, t: Tables) {
    && 0 !in t.All() && t.root < FIRST_FRAME
    && (forall f: nat, i: nat | f in t.l3 && i < 512 :: PdptEntryApart(f, Rd(m, f, i)))
    && (forall f: nat, i: nat | f in t.l2 && i < 512 :: PdEntryApart(f, Rd(m, f, i)))
  }

  predicate PdptEntryApart(f: nat, e: Word) {
    !Huge(e) && (Present(e) && FrameOf(e) < FIRST_FRAME ==> f < FIRST_FRAME)
  }

  predicate PdEntryApart(f: nat, e: Word) { Huge(e) ==> f < FIRST_FRAME && FrameOf(e) % 512 == 0 }

  // Every store of the two functions keeps that: clearing a frame that is no table,
  lemma ForeignKeepsApart(m: seq<Word>, m': seq<Word>, t: Tables, f: nat)
    requires HugeApart(m, t) && f !in t.All() && SameOutside(m, m', f)
    ensures HugeApart(m', t)
  {
  }

  // hooking an empty table that was handed out,
  lemma LinkKeepsApart(m: seq<Word>, m': seq<Word>, t: Tables, f: nat, i: nat, e: Word, g: nat)
    requires HugeApart(m, t) && f in {t.root} + t.l3 + t.l2 && i < 512 && t.Levelled()
    requires g !in t.All() && g >= FIRST_FRAME && (forall j: nat :: j < 512 ==> Rd(m, g, j) == 0)
    requires LinkTo(e, g) && Wrote(m, m', f, i, e)
    ensures HugeApart(m', WithTable(t, f, g))
  {
  }

  // writing an entry of a last-level table,
  lemma LeafKeepsApart(m: seq<Word>, m': seq<Word>, t: Tables, f: nat, i: nat, e: Word)
    requires HugeApart(m, t) && t.Levelled() && f in t.l1 && Wrote(m, m', f, i, e)
    ensures HugeApart(m', t)
  {
  }

  // and clearing any word.
  lemma ClearKeepsApart(m: seq<Word>, m': seq<Word>, t: Tables, f: nat, i: nat)
    requires HugeApart(m, t) && Wrote(m, m', f, i, 0)
    ensures HugeApart(m', t)
  {
    assert PdptEntryApart(f, 0) && PdEntryApart(f, 0);
  }

  // Where the walk of a page in a huge page goes.
  lemma HugeWalk(m: seq<Word>, t: Tables, p: Page)
    requires TablesOk(m, t) && HugeApart(m, t) && p.Ok()
    ensures Mapping(m, t.root, p).Page2M? ==>
      var f3 := FrameOf(Rd(m, t.root, p.i4));
      var f2 := FrameOf(Rd(m, f3, p.i3));
      && 0 < f3 < FIRST_FRAME && 0 < f2 < FIRST_FRAME && f3 in t.l3 && f2 in t.l2
      && WalkTo(m, t.root, p) == Large(Rd(m, f2, p.i2)) && FrameOf(Rd(m, f2, p.i2)) % 512 == 0
    ensures !Mapping(m, t.root, p).Page1G?
  {
    var e4 := Rd(m, t.root, p.i4);
    if Present(e4) {
      var e3 := Rd(m, FrameOf(e4), p.i3);
      assert PdptEntryApart(FrameOf(e4), e3);
      if Present(e3) {
        assert PdEntryApart(FrameOf(e3), Rd(m, FrameOf(e3), p.i2));
      }
    }
  }

  // What vmm_unmap_page may clear is in a last-level table or in a frame at a multiple of
  // 2 MiB.
  lemma TargetApart(m: seq<Word>, t: Tables, p: Page)
    requires TablesOk(m, t) && HugeApart(m, t) && p.Ok() && UnmapTarget(m, t.root, p) != NoTarget
    ensures var f := UnmapTarget(m, t.root, p).f; if WalkTo(m, t.root, p).Slot? then f in t.l1 else f % 512 == 0
  {
    TargetPlace(m, t.root, p);
    HugeWalk(m, t, p);
  }

  // So it is never on the walk to a huge page, and never in the top table.
  lemma NotOnHugeWalk(m: seq<Word>, t: Tables, f: nat, i: nat, q: Page)
    requires TablesOk(m, t) && HugeApart(m, t) && q.Ok() && (f in t.l1 || f % 512 == 0)
    ensures f != t.root && (Mapping(m, t.root, q).Page2M? ==> !Passes(m, t.root, q, f, i))
  {
    HugeWalk(m, t, q);
    assert t.root in t.All() && t.root % 512 == t.root;
  }

  // Every page that a huge page maps is still mapped by it.
  ghost predicate HugeKept(m: seq<Word>, m': seq<Word>, root: nat) {
    forall q: Page | q.Ok() && Mapping(m, root, q).Page2M? :: Mapping(m', root, q) == Mapping(m, root, q)
  }

  // In such tables a call of vmm_unmap_page does what it is for if and only if the page is
  // in no huge page, and huge pages stay as they are.
  lemma UnmapsApart(m: seq<Word>, m': seq<Word>, t: Tables, p: Page, f: nat, i: nat)
    requires TablesOk(m, t) && HugeApart(m, t) && p.Ok() && UnmapTarget(m, t.root, p) == Target(f, i)
    requires Cleared(m, m', t.root, f, i)
    ensures f != t.root && HugeKept(m, m', t.root)
    ensures Unmapped(m, m', t.root, p) <==> WalkTo(m, t.root, p).Slot?
  {
    TargetApart(m, t, p);
    TargetPlace(m, t.root, p);
    HugeWalk(m, t, p);
    UnmapsExactly(m, m', t, p, f, i);
    forall q: Page | q.Ok() ensures f != t.root && (Mapping(m, t.root, q).Page2M? ==> !Passes(m, t.root, q, f, i)) {
      NotOnHugeWalk(m, t, f, i, q);
    }
    forall q: Page | q.Ok() && Mapping(m, t.root, q).Page2M?
      ensures Mapping(m', t.root, q) == Mapping(m, t.root, q)
    {
      assert ClearedAt(m, m', t.root, f, i, q);
    }
    assert f != t.root by { NotOnHugeWalk(m, t, f, i, p); }
  }

  lemma SameKeepsHuge(m: seq<Word>, m': seq<Word>, root: nat)
    requires SameMapping(m, m', root)
    ensures HugeKept(m, m', root)
  {
  }

  lemma MapKeepsHuge(m: seq<Word>, m': seq<Word>, root: nat, p: Page, v: View)
    requires Remapped(m, m', root, p, Nothing, v)
    ensures HugeKept(m, m', root)
  {
    forall q: Page | q.Ok() && Mapping(m, root, q).Page2M? ensures Mapping(m', root, q) == Mapping(m, root, q) {
      assert RemappedAt(m, m', root, p, Nothing, v, q);
    }
  }

  lemma HugeKeptTwice(m: seq<Word>, m1: seq<Word>, m2: seq<Word>, root: nat)
    requires HugeKept(m, m1, root) && HugeKept(m1, m2, root)
    ensures HugeKept(m, m2, root)
  {
  }
}
