// The -R traversal of kernel/coreutils/ls.c: a stack of pending directories and markers,
// and the active set that keeps it from following a loop for ever.
module LsTraversal {
  // A device and inode number.
  type Id = nat

  // A name in a directory; target is the directory it is or leads to, if isDir.
  datatype Entry = Entry(name: string, isDir: bool, target: Id)

  type Path = seq<string>

  // The directories that can be opened, with their sorted entries.  Links may make the
  // graph cyclic.
  datatype Fs = Fs(dirs: map<Id, seq<Entry>>)

  // A marker says that its directory is done.  The program keeps its path only; the id is
  // what assert_matching_dev_ino would find for that path.
  datatype Pending = Dir(path: Path, id: Id) | Marker(path: Path, id: Id)

  // What ls prints: a listing, a failed open, or the refusal to list a directory again.
  datatype Event = Listed(path: Path, id: Id) | CannotOpen(path: Path) | AlreadyListed(path: Path)

  // ---- The traversal as a recursion ----

  predicate IsSubdir(e: Entry) { e.isDir && e.name != "." && e.name != ".." }

  ghost function Visit(fs: Fs, path: Path, id: Id, active: set<Id>): seq<Event>
    decreases fs.dirs.Keys - active, 0
  {
    if id !in fs.dirs then [CannotOpen(path)]
    else if id in active then [AlreadyListed(path)]
    else [Listed(path, id)] + VisitAll(fs, path, fs.dirs[id], active + {id})
  }

  ghost function VisitAll(fs: Fs, path: Path, entries: seq<Entry>, active: set<Id>): seq<Event>
    decreases fs.dirs.Keys - active, 1 + |entries|
  {
    if entries == [] then []
    else
      (if IsSubdir(entries[0]) then Visit(fs, path + [entries[0].name], entries[0].target, active) else [])
      + VisitAll(fs, path, entries[1..], active)
  }

  // ---- What the pending list stands for ----

  ghost function Elems(stack: seq<Id>): set<Id> { set d | d in stack }

  ghost function Rest(fs: Fs, pending: seq<Pending>, stack: seq<Id>): seq<Event> {
    if pending == [] then []
    else if pending[0].Marker? then (if stack == [] then [] else Rest(fs, pending[1..], stack[..|stack| - 1]))
    else Visit(fs, pending[0].path, pending[0].id, Elems(stack)) + Rest(fs, pending[1..], stack)
  }

  // The number of turns the loop still takes: the measure of its termination.
  ghost function Cost(fs: Fs, id: Id, active: set<Id>): nat
    decreases fs.dirs.Keys - active, 0
  {
    if id !in fs.dirs || id in active then 1 else 2 + CostAll(fs, fs.dirs[id], active + {id})
  }

  ghost function CostAll(fs: Fs, entries: seq<Entry>, active: set<Id>): nat
    decreases fs.dirs.Keys - active, 1 + |entries|
  {
    if entries == [] then 0
    else (if IsSubdir(entries[0]) then Cost(fs, entries[0].target, active) else 0) + CostAll(fs, entries[1..], active)
  }

  ghost function Work(fs: Fs, pending: seq<Pending>, stack: seq<Id>): nat {
    if pending == [] then 0
    else if pending[0].Marker? then 1 + Work(fs, pending[1..], if stack == [] then [] else stack[..|stack| - 1])
    else Cost(fs, pending[0].id, Elems(stack)) + Work(fs, pending[1..], stack)
  }

  // The directories whose markers are pending, the next one first.
  ghost function Markers(pending: seq<Pending>): seq<Id> {
    if pending == [] then []
    else (if pending[0].Marker? then [pending[0].id] else []) + Markers(pending[1..])
  }

  ghost function Reversed(stack: seq<Id>): seq<Id> {
    if stack == [] then [] else [stack[|stack| - 1]] + Reversed(stack[..|stack| - 1])
  }

  // A marker pushed with its directory comes off with it.
  lemma PushedPair(pending: seq<Pending>, stack: seq<Id>, path: Path, id: Id)
    ensures Markers([Marker(path, id)] + pending) == [id] + Markers(pending)
    ensures Reversed(stack + [id]) == [id] + Reversed(stack)
  {
    assert ([Marker(path, id)] + pending)[1..] == pending;
    assert (stack + [id])[..|stack|] == stack;
  }

  // Queueing the subdirectories of a listed directory in front.
  ghost function Subdirs(path: Path, entries: seq<Entry>): seq<Pending> {
    if entries == [] then []
    else
      (if IsSubdir(entries[0]) then [Dir(path + [entries[0].name], entries[0].target)] else [])
      + Subdirs(path, entries[1..])
  }

  // The list p is rest with directories in front that stand for these events and turns.
  ghost predicate InFront(fs: Fs, p: seq<Pending>, rest: seq<Pending>, stack: seq<Id>, events: seq<Event>, cost: nat) {
    && Rest(fs, p, stack) == events + Rest(fs, rest, stack)
    && Work(fs, p, stack) == cost + Work(fs, rest, stack)
    && Markers(p) == Markers(rest)
  }

  lemma OneInFront(fs: Fs, d: Pending, rest: seq<Pending>, stack: seq<Id>)
    requires d.Dir?
    ensures InFront(fs, [d] + rest, rest, stack, Visit(fs, d.path, d.id, Elems(stack)), Cost(fs, d.id, Elems(stack)))
  {
    assert ([d] + rest)[1..] == rest;
  }

  lemma FrontOfFront(fs: Fs, p: seq<Pending>, q: seq<Pending>, rest: seq<Pending>, stack: seq<Id>,
                     e: seq<Event>, c: nat, f: seq<Event>, d: nat)
    requires InFront(fs, p, q, stack, e, c) && InFront(fs, q, rest, stack, f, d)
    ensures InFront(fs, p, rest, stack, e + f, c + d)
  {
    assert e + (f + Rest(fs, rest, stack)) == e + f + Rest(fs, rest, stack);
  }

  lemma {:induction false} SubdirsFirst(fs: Fs, path: Path, entries: seq<Entry>, rest: seq<Pending>, stack: seq<Id>)
    ensures InFront(fs, Subdirs(path, entries) + rest, rest, stack,
                    VisitAll(fs, path, entries, Elems(stack)), CostAll(fs, entries, Elems(stack)))
  {
    if entries == [] {
      assert Subdirs(path, entries) + rest == rest && [] + Rest(fs, rest, stack) == Rest(fs, rest, stack);
    } else {
      SubdirsFirst(fs, path, entries[1..], rest, stack);
      var tail := Subdirs(path, entries[1..]) + rest;
      if IsSubdir(entries[0]) {
        var d := Dir(path + [entries[0].name], entries[0].target);
        assert Subdirs(path, entries) + rest == [d] + tail;
        DirFirst(fs, d, tail, rest, stack,
                 VisitAll(fs, path, entries[1..], Elems(stack)), CostAll(fs, entries[1..], Elems(stack)));
      } else {
        NotDirFirst(fs, path, entries, rest, stack);
      }
    }
  }

  lemma DirFirst(fs: Fs, d: Pending, tail: seq<Pending>, rest: seq<Pending>, stack: seq<Id>,
                 events: seq<Event>, cost: nat)
    requires d.Dir? && InFront(fs, tail, rest, stack, events, cost)
    ensures InFront(fs, [d] + tail, rest, stack,
                    Visit(fs, d.path, d.id, Elems(stack)) + events, Cost(fs, d.id, Elems(stack)) + cost)
  {
    OneInFront(fs, d, tail, stack);
    var first, turns := Visit(fs, d.path, d.id, Elems(stack)), Cost(fs, d.id, Elems(stack));
    FrontOfFront(fs, [d] + tail, tail, rest, stack, first, turns, events, cost);
  }

  lemma NotDirFirst(fs: Fs, path: Path, entries: seq<Entry>, rest: seq<Pending>, stack: seq<Id>)
    requires entries != [] && !IsSubdir(entries[0])
    ensures Subdirs(path, entries) + rest == Subdirs(path, entries[1..]) + rest
    ensures VisitAll(fs, path, entries, Elems(stack)) == VisitAll(fs, path, entries[1..], Elems(stack))
    ensures CostAll(fs, entries, Elems(stack)) == CostAll(fs, entries[1..], Elems(stack))
  {
  }

  class Lister {
    const fs: Fs
    var pending: seq<Pending>
    // The hash table, and the obstack that mirrors it.
    var active: set<Id>
    var stack: seq<Id>
    var out: seq<Event>

    // The stack holds the active directories, each once, and the pending markers are
    // theirs, in the order in which they will be popped.
    ghost predicate Valid()
      reads this
    {
      && active == Elems(stack)
      && (forall i, j | 0 <= i < j < |stack| :: stack[i] != stack[j])
      && Markers(pending) == Reversed(stack)
    }

    constructor (fs: Fs, roots: seq<Pending>)
      requires forall i | 0 <= i < |roots| :: roots[i].Dir?
      ensures Valid() && this.fs == fs && pending == roots && stack == [] && out == []
    {
      this.fs, pending, active, stack, out := fs, roots, {}, [], [];
      new;
      NoMarkers(roots);
    }

    method QueueDirectory(p: Pending)
      modifies this`pending
      ensures pending == [p] + old(pending)
    {
      pending := [p] + pending;
    }

    // extract_dirs_from_files: a marker, and before it the subdirectories in order,
    // queued last one first.
    method ExtractDirs(path: Path, id: Id, entries: seq<Entry>)
      modifies this`pending
      ensures pending == Subdirs(path, entries) + ([Marker(path, id)] + old(pending))
    {
      QueueDirectory(Marker(path, id));
      var i := |entries|;
      ghost var base := pending;
      assert entries[i..] == [];
      while i != 0
        invariant 0 <= i <= |entries|
        invariant pending == Subdirs(path, entries[i..]) + base
      {
        i := i - 1;
        assert entries[i..][1..] == entries[i + 1..];
        if IsSubdir(entries[i]) {
          QueueDirectory(Dir(path + [entries[i].name], entries[i].target));
        }
      }
      assert entries[0..] == entries;
    }

    // print_dir
    method PrintDir(d: Pending)
      requires Valid() && d.Dir?
      modifies this
      ensures Valid()
      ensures out + Rest(fs, pending, stack) ==
        old(out) + (Visit(fs, d.path, d.id, Elems(old(stack))) + Rest(fs, old(pending), old(stack)))
      ensures Work(fs, pending, stack) < Cost(fs, d.id, Elems(old(stack))) + Work(fs, old(pending), old(stack))
    {
      ghost var rest, was := Rest(fs, pending, stack), out;
      if d.id !in fs.dirs {
        out := out + [CannotOpen(d.path)];
        assert was + ([CannotOpen(d.path)] + rest) == out + rest;
        return;
      }
      if d.id in active {
        out := out + [AlreadyListed(d.path)];
        assert was + ([AlreadyListed(d.path)] + rest) == out + rest;
        return;
      }
      ListDir(d);
    }

    method ListDir(d: Pending)
      requires Valid() && d.Dir? && d.id in fs.dirs && d.id !in active
      modifies this
      ensures Valid()
      ensures out + Rest(fs, pending, stack) ==
        old(out) + (Visit(fs, d.path, d.id, Elems(old(stack))) + Rest(fs, old(pending), old(stack)))
      ensures Work(fs, pending, stack) < Cost(fs, d.id, Elems(old(stack))) + Work(fs, old(pending), old(stack))
    {
      active := active + {d.id};
      stack := stack + [d.id];
      out := out + [Listed(d.path, d.id)];
      ExtractDirs(d.path, d.id, fs.dirs[d.id]);
      ListedDir(fs, d, old(pending), old(stack), old(out));
    }

    // The loop of main.  It ends on every finite graph, cyclic or not, with nothing left
    // active, and prints what the recursion does.
    method Run()
      requires Valid()
      modifies this
      ensures pending == [] && stack == [] && active == {}
      ensures out == old(out) + Rest(fs, old(pending), old(stack))
    {
      while pending != []
        invariant Valid()
        invariant out + Rest(fs, pending, stack) == old(out) + Rest(fs, old(pending), old(stack))
        decreases Work(fs, pending, stack)
      {
        var thispend := pending[0];
        pending := pending[1..];
        if thispend.Marker? {
          var di := PopMarker(thispend);
          continue;
        }
        PrintDir(thispend);
      }
    }

    // The pop of a marker yields its own directory, which is in the active set.
    method PopMarker(m: Pending) returns (di: Id)
      requires m.Marker? && active == Elems(stack) && [m.id] + Markers(pending) == Reversed(stack)
      requires forall i, j | 0 <= i < j < |stack| :: stack[i] != stack[j]
      modifies this`active, this`stack
      ensures Valid() && di == m.id && di in old(active)
      ensures old(stack) == stack + [di] && active == old(active) - {di}
    {
      ghost var below := stack[..|stack| - 1];
      assert Reversed(stack) == [stack[|stack| - 1]] + Reversed(below);
      assert Reversed(stack)[1..] == Markers(pending);
      di := stack[|stack| - 1];
      assert di in active;
      stack := stack[..|stack| - 1];
      active := active - {di};
    }
  }

  lemma NoMarkers(roots: seq<Pending>)
    requires forall i | 0 <= i < |roots| :: roots[i].Dir?
    ensures Markers(roots) == []
  {
  }

  lemma ListedDir(fs: Fs, d: Pending, pending: seq<Pending>, stack: seq<Id>, out: seq<Event>)
    requires d.Dir? && d.id in fs.dirs && d.id !in Elems(stack)
    ensures var p := Subdirs(d.path, fs.dirs[d.id]) + ([Marker(d.path, d.id)] + pending);
      var s, o := stack + [d.id], out + [Listed(d.path, d.id)];
      && Elems(s) == Elems(stack) + {d.id}
      && (Markers(pending) == Reversed(stack) ==> Markers(p) == Reversed(s))
      && o + Rest(fs, p, s) == out + (Visit(fs, d.path, d.id, Elems(stack)) + Rest(fs, pending, stack))
      && Work(fs, p, s) < Cost(fs, d.id, Elems(stack)) + Work(fs, pending, stack)
  {
    var s, marked := stack + [d.id], [Marker(d.path, d.id)] + pending;
    assert Elems(s) == Elems(stack) + {d.id};
    assert marked[1..] == pending && s[..|s| - 1] == stack;
    PushedPair(pending, stack, d.path, d.id);
    SubdirsFirst(fs, d.path, fs.dirs[d.id], marked, s);
    var below, rest := VisitAll(fs, d.path, fs.dirs[d.id], Elems(s)), Rest(fs, pending, stack);
    assert out + [Listed(d.path, d.id)] + (below + rest) == out + ([Listed(d.path, d.id)] + below + rest);
  }

  // The listing of some roots is that of each in turn, with nothing active before it.
  lemma {:induction false} RootsInTurn(fs: Fs, roots: seq<Pending>)
    requires forall i | 0 <= i < |roots| :: roots[i].Dir?
    ensures Rest(fs, roots, []) == Concat(fs, roots)
  {
    if roots != [] { RootsInTurn(fs, roots[1..]); assert Elems([]) == {}; }
  }

  ghost function Concat(fs: Fs, roots: seq<Pending>): seq<Event>
    requires forall i | 0 <= i < |roots| :: roots[i].Dir?
  {
    if roots == [] then [] else Visit(fs, roots[0].path, roots[0].id, {}) + Concat(fs, roots[1..])
  }

  // ls -R on some roots.
  method List(fs: Fs, roots: seq<Pending>) returns (out: seq<Event>)
    requires forall i | 0 <= i < |roots| :: roots[i].Dir?
    ensures out == Concat(fs, roots)
  {
    var lister := new Lister(fs, roots);
    lister.Run();
    RootsInTurn(fs, roots);
    out := lister.out;
  }

  // ---- Every reachable directory is listed ----

  // Entry e stands for directory b: it is one, and not the directory itself or its parent.
  predicate StandsFor(e: Entry, b: Id) { e.isDir && e.name != "." && e.name != ".." && e.target == b }

  predicate Leads(fs: Fs, a: Id, b: Id) {
    a in fs.dirs && exists i :: 0 <= i < |fs.dirs[a]| && StandsFor(fs.dirs[a][i], b)
  }

  // A walk through directories that can be opened.
  ghost predicate IsWalk(fs: Fs, w: seq<Id>) {
    && w != [] && (forall i | 0 <= i < |w| :: w[i] in fs.dirs)
    && forall i: nat | i + 1 < |w| :: Leads(fs, w[i], w[i + 1])
  }

  ghost predicate Simple(w: seq<Id>) { forall i, j | 0 <= i < j < |w| :: w[i] != w[j] }

  ghost predicate Lists(events: seq<Event>, id: Id) { exists e :: e in events && e.Listed? && e.id == id }

  lemma {:induction false} MakeSimple(fs: Fs, w: seq<Id>) returns (s: seq<Id>)
    requires IsWalk(fs, w)
    ensures IsWalk(fs, s) && Simple(s) && s[0] == w[0] && s[|s| - 1] == w[|w| - 1]
    ensures forall d | d in s :: d in w
    decreases |w|
  {
    if |w| == 1 {
      s := w;
    } else if w[0] in w[1..] {
      var j :| 1 <= j < |w| && w[j] == w[0];
      s := MakeSimple(fs, w[j..]);
    } else {
      var t := MakeSimple(fs, w[1..]);
      s := [w[0]] + t;
      assert Leads(fs, w[0], w[0 + 1]);
      forall i: nat | i + 1 < |s| ensures Leads(fs, s[i], s[i + 1]) {
        if i > 0 { assert Leads(fs, t[i - 1], t[i - 1 + 1]); }
      }
    }
  }

  lemma {:induction false} VisitCovers(fs: Fs, path: Path, w: seq<Id>, active: set<Id>)
    requires IsWalk(fs, w) && Simple(w) && forall d | d in w :: d !in active
    ensures Lists(Visit(fs, path, w[0], active), w[|w| - 1])
    decreases |w|
  {
    var id := w[0];
    assert w[0] !in active;
    if |w| == 1 {
      assert Listed(path, id) in Visit(fs, path, id, active);
    } else {
      assert Leads(fs, w[0], w[0 + 1]);
      var i :| 0 <= i < |fs.dirs[id]| && StandsFor(fs.dirs[id][i], w[1]);
      var child := path + [fs.dirs[id][i].name];
      forall k: nat | k + 1 < |w[1..]| ensures Leads(fs, w[1..][k], w[1..][k + 1]) {
        assert Leads(fs, w[k + 1], w[k + 1 + 1]);
      }
      VisitCovers(fs, child, w[1..], active + {id});
      PartOfAll(fs, path, fs.dirs[id], active + {id}, i);
      var e :| e in Visit(fs, child, w[1], active + {id}) && e.Listed? && e.id == w[|w| - 1];
      assert e in Visit(fs, path, id, active);
    }
  }

  lemma {:induction false} PartOfAll(fs: Fs, path: Path, entries: seq<Entry>, active: set<Id>, i: nat)
    requires i < |entries| && IsSubdir(entries[i])
    ensures forall e | e in Visit(fs, path + [entries[i].name], entries[i].target, active) ::
        e in VisitAll(fs, path, entries, active)
  {
    if i > 0 { PartOfAll(fs, path, entries[1..], active, i - 1); }
  }

  // Whatever the loops, a directory that can be reached through directories that can be
  // opened is listed.
  lemma ReachableIsListed(fs: Fs, path: Path, w: seq<Id>)
    requires IsWalk(fs, w)
    ensures Lists(Visit(fs, path, w[0], {}), w[|w| - 1])
  {
    var s := MakeSimple(fs, w);
    VisitCovers(fs, path, s, {});
  }

  // Going through names from directory a, one entry of that name in each, leads to b, and
  // every directory on the way can be opened.
  ghost predicate Reaches(fs: Fs, a: Id, names: Path, b: Id)
    decreases |names|
  {
    && a in fs.dirs
    && if names == [] then a == b
       else exists i: nat :: i < |fs.dirs[a]| && ReachesBy(fs, fs.dirs[a][i], names, b)
  }

  ghost predicate ReachesBy(fs: Fs, e: Entry, names: Path, b: Id)
    requires names != []
    decreases |names|, 0
  {
    StandsFor(e, e.target) && e.name == names[0] && Reaches(fs, e.target, names[1..], b)
  }

  // The path of every listing is the path it started from and names that lead to the
  // directory listed.
  lemma {:induction false} ListedIsReached(fs: Fs, path: Path, id: Id, active: set<Id>, e: Event)
    returns (names: Path)
    requires e in Visit(fs, path, id, active) && e.Listed?
    ensures e.path == path + names && Reaches(fs, id, names, e.id)
    decreases fs.dirs.Keys - active, 0
  {
    if e == Listed(path, id) {
      names := [];
    } else {
      var i, more := ListedBelow(fs, path, fs.dirs[id], active + {id}, e);
      names := [fs.dirs[id][i].name] + more;
      assert names[1..] == more;
      assert ReachesBy(fs, fs.dirs[id][i], names, e.id);
    }
  }

  lemma {:induction false} ListedBelow(fs: Fs, path: Path, entries: seq<Entry>, active: set<Id>, e: Event)
    returns (i: nat, names: Path)
    requires e in VisitAll(fs, path, entries, active) && e.Listed?
    ensures i < |entries| && StandsFor(entries[i], entries[i].target)
    ensures e.path == path + [entries[i].name] + names && Reaches(fs, entries[i].target, names, e.id)
    decreases fs.dirs.Keys - active, 1 + |entries|
  {
    if IsSubdir(entries[0]) && e in Visit(fs, path + [entries[0].name], entries[0].target, active) {
      names := ListedIsReached(fs, path + [entries[0].name], entries[0].target, active, e);
      i := 0;
    } else {
      i, names := ListedBelow(fs, path, entries[1..], active, e);
      i := i + 1;
    }
  }

  // ---- Every route is reported once, and in order ----

  // A route by the index of an entry at each step.  It goes on only from a directory that
  // can be opened and is not active.
  ghost predicate Route(fs: Fs, id: Id, active: set<Id>, r: seq<nat>)
    decreases |r|
  {
    r == [] ||
    (id in fs.dirs && id !in active && r[0] < |fs.dirs[id]| && RouteOn(fs, fs.dirs[id][r[0]], active + {id}, r))
  }

  ghost predicate RouteOn(fs: Fs, e: Entry, active: set<Id>, r: seq<nat>)
    requires r != []
    decreases |r|, 0
  {
    StandsFor(e, e.target) && Route(fs, e.target, active, r[1..])
  }

  // What is printed at its end.
  ghost function Report(fs: Fs, path: Path, id: Id, active: set<Id>, r: seq<nat>): Event
    requires Route(fs, id, active, r)
    decreases |r|
  {
    if r == [] then
      if id !in fs.dirs then CannotOpen(path) else if id in active then AlreadyListed(path) else Listed(path, id)
    else
      var e := fs.dirs[id][r[0]];
      assert RouteOn(fs, e, active + {id}, r);
      Report(fs, path + [e.name], e.target, active + {id}, r[1..])
  }

  // A directory comes before what is in it, and its entries in their order.
  ghost predicate Before(r: seq<nat>, t: seq<nat>) {
    t != [] && (r == [] || r[0] < t[0] || (r[0] == t[0] && Before(r[1..], t[1..])))
  }

  ghost predicate InOrder(rs: seq<seq<nat>>) { forall j, k | 0 <= j < k < |rs| :: Before(rs[j], rs[k]) }

  ghost predicate Reported(fs: Fs, path: Path, id: Id, active: set<Id>, events: seq<Event>, rs: seq<seq<nat>>) {
    |events| == |rs| && forall k | 0 <= k < |rs| :: ReportedAt(fs, path, id, active, events[k], rs[k])
  }

  ghost predicate ReportedAt(fs: Fs, path: Path, id: Id, active: set<Id>, event: Event, r: seq<nat>) {
    Route(fs, id, active, r) && event == Report(fs, path, id, active, r)
  }

  // What a visit prints is the report of each route, of every one there is, in order.
  lemma {:induction false} VisitInOrder(fs: Fs, path: Path, id: Id, active: set<Id>) returns (rs: seq<seq<nat>>)
    ensures Reported(fs, path, id, active, Visit(fs, path, id, active), rs) && InOrder(rs)
    ensures forall r | Route(fs, id, active, r) :: r in rs
    decreases fs.dirs.Keys - active, 0
  {
    if id !in fs.dirs || id in active {
      rs := [[]];
    } else {
      var more := BelowInOrder(fs, path, id, active, 0);
      rs := [[]] + more;
      assert fs.dirs[id][0..] == fs.dirs[id];
      forall k | 0 <= k < |rs|
        ensures ReportedAt(fs, path, id, active, Visit(fs, path, id, active)[k], rs[k])
      {
        if k > 0 { assert rs[k] == more[k - 1]; }
      }
    }
  }

  // The same for the entries from i on.
  lemma {:induction false} BelowInOrder(fs: Fs, path: Path, id: Id, active: set<Id>, i: nat) returns (rs: seq<seq<nat>>)
    requires id in fs.dirs && id !in active && i <= |fs.dirs[id]|
    ensures Reported(fs, path, id, active, VisitAll(fs, path, fs.dirs[id][i..], active + {id}), rs) && InOrder(rs)
    ensures forall k | 0 <= k < |rs| :: rs[k] != [] && rs[k][0] >= i
    ensures forall r | Route(fs, id, active, r) && r != [] && r[0] >= i :: r in rs
    decreases fs.dirs.Keys - (active + {id}), 1 + |fs.dirs[id]| - i
  {
    var entries := fs.dirs[id];
    if i == |entries| { return []; }
    assert entries[i..][1..] == entries[i + 1..];
    rs := BelowInOrder(fs, path, id, active, i + 1);
    var e := entries[i];
    if IsSubdir(e) {
      var first := VisitInOrder(fs, path + [e.name], e.target, active + {id});
      var events := Visit(fs, path + [e.name], e.target, active + {id});
      StepFirst(fs, path, id, active, i, events, first);
      rs := Joined(fs, path, id, active, i, events, first,
                   VisitAll(fs, path, entries[i + 1..], active + {id}), rs);
    } else {
      forall r | Route(fs, id, active, r) && r != [] && r[0] >= i ensures r in rs {
        assert RouteOn(fs, entries[r[0]], active + {id}, r);
      }
    }
  }

  function Prefixed(i: nat, rs: seq<seq<nat>>): seq<seq<nat>> { seq(|rs|, k requires 0 <= k < |rs| => [i] + rs[k]) }

  // The routes through entry i.
  lemma StepFirst(fs: Fs, path: Path, id: Id, active: set<Id>, i: nat, events: seq<Event>, first: seq<seq<nat>>)
    requires id in fs.dirs && id !in active && i < |fs.dirs[id]| && StandsFor(fs.dirs[id][i], fs.dirs[id][i].target)
    requires var e := fs.dirs[id][i];
      && Reported(fs, path + [e.name], e.target, active + {id}, events, first) && InOrder(first)
      && forall r | Route(fs, e.target, active + {id}, r) :: r in first
    ensures Reported(fs, path, id, active, events, Prefixed(i, first)) && InOrder(Prefixed(i, first))
    ensures forall r | Route(fs, id, active, r) && r != [] && r[0] == i :: r in Prefixed(i, first)
  {
    var e, rs := fs.dirs[id][i], Prefixed(i, first);
    forall k | 0 <= k < |rs| ensures ReportedAt(fs, path, id, active, events[k], rs[k]) {
      assert rs[k][1..] == first[k];
      assert ReportedAt(fs, path + [e.name], e.target, active + {id}, events[k], first[k]);
      assert RouteOn(fs, e, active + {id}, rs[k]);
    }
    forall j, k | 0 <= j < k < |rs| ensures Before(rs[j], rs[k]) {
      assert rs[j][1..] == first[j] && rs[k][1..] == first[k] && Before(first[j], first[k]);
    }
    forall r | Route(fs, id, active, r) && r != [] && r[0] == i ensures r in rs {
      assert RouteOn(fs, e, active + {id}, r);
      assert Route(fs, e.target, active + {id}, r[1..]) && r[1..] in first;
      var k :| 0 <= k < |first| && first[k] == r[1..];
      assert rs[k] == [i] + r[1..] == r;
    }
  }

  // The routes through entry i, and then those through later ones.
  lemma Joined(fs: Fs, path: Path, id: Id, active: set<Id>, i: nat,
               events: seq<Event>, first: seq<seq<nat>>, later: seq<Event>, rest: seq<seq<nat>>)
    returns (rs: seq<seq<nat>>)
    requires Reported(fs, path, id, active, events, Prefixed(i, first)) && InOrder(Prefixed(i, first))
    requires forall r | Route(fs, id, active, r) && r != [] && r[0] == i :: r in Prefixed(i, first)
    requires Reported(fs, path, id, active, later, rest) && InOrder(rest)
    requires forall k | 0 <= k < |rest| :: rest[k] != [] && rest[k][0] >= i + 1
    requires forall r | Route(fs, id, active, r) && r != [] && r[0] >= i + 1 :: r in rest
    ensures Reported(fs, path, id, active, events + later, rs) && InOrder(rs)
    ensures forall k | 0 <= k < |rs| :: rs[k] != [] && rs[k][0] >= i
    ensures forall r | Route(fs, id, active, r) && r != [] && r[0] >= i :: r in rs
  {
    var head := Prefixed(i, first);
    rs := head + rest;
    forall k | 0 <= k < |rs| ensures ReportedAt(fs, path, id, active, (events + later)[k], rs[k]) {
      if k < |head| {
        assert ReportedAt(fs, path, id, active, events[k], head[k]);
      } else {
        assert ReportedAt(fs, path, id, active, later[k - |head|], rest[k - |head|]);
      }
    }
    forall j, k | 0 <= j < k < |rs| ensures Before(rs[j], rs[k]) {
      if k < |head| {
        assert Before(head[j], head[k]);
      } else if j >= |head| {
        assert Before(rest[j - |head|], rest[k - |head|]);
      } else {
        assert rs[j] == [i] + first[j] && rs[k] == rest[k - |head|];
      }
    }
  }

  // And none is listed again while it is active, that is, inside itself.
  lemma {:induction false} NeverInsideItself(fs: Fs, path: Path, id: Id, active: set<Id>)
    ensures forall e | e in Visit(fs, path, id, active) && e.Listed? :: e.id !in active
    decreases fs.dirs.Keys - active, 0
  {
    if id in fs.dirs && id !in active {
      NeverInsideItselfAll(fs, path, fs.dirs[id], active + {id});
    }
  }

  lemma {:induction false} NeverInsideItselfAll(fs: Fs, path: Path, entries: seq<Entry>, active: set<Id>)
    ensures forall e | e in VisitAll(fs, path, entries, active) && e.Listed? :: e.id !in active
    decreases fs.dirs.Keys - active, 1 + |entries|
  {
    if entries != [] {
      if IsSubdir(entries[0]) {
        NeverInsideItself(fs, path + [entries[0].name], entries[0].target, active);
      }
      NeverInsideItselfAll(fs, path, entries[1..], active);
    }
  }
}
