// The round-robin policy of kernel/process.c as a value: the cyclic task list, the task
// states and the current task, and what holds over every run.
module RoundRobin {
  datatype State = Unused | Ready | Running | Blocked

  // The tasks in list order, main first; the state of each slot of tasks[]; and the
  // position of the current task in the list.
  datatype Sched = Sched(order: seq<nat>, states: seq<State>, pos: nat) {
    ghost predicate Ok() {
      && pos < |order|
      && (forall k | 0 <= k < |order| :: order[k] < |states|)
      && (forall j, k | 0 <= j < k < |order| :: order[j] != order[k])
    }

    // The list position d steps after the current one.
    function Ahead(d: nat): nat
      requires pos < |order| && d <= |order|
    {
      if pos + d < |order| then pos + d else pos + d - |order|
    }

    // The task after the one d steps ahead.
    function AfterAhead(d: nat): nat
      requires Ok() && d <= |order|
    {
      order[if d < |order| then Ahead(d + 1) else Ahead(1)]
    }

    // The state of the task there.
    function StateAhead(d: nat): State
      requires Ok() && d <= |order|
    {
      states[order[Ahead(d)]]
    }

    function Current(): nat
      requires Ok()
    {
      order[pos]
    }

    // How many steps ahead list position q is.
    function Distance(q: nat): nat
      requires Ok() && q < |order|
    {
      if q >= pos then q - pos else q + |order| - pos
    }

    // The first d from 1 on whose task is READY; it may be the current task, at d = |order|.
    ghost predicate FirstReady(d: nat)
      requires Ok()
    {
      && 1 <= d <= |order| && StateAhead(d) == Ready
      && forall e | 1 <= e < d :: StateAhead(e) != Ready
    }

    ghost predicate NoneReady()
      requires Ok()
    {
      forall d | 1 <= d <= |order| :: StateAhead(d) != Ready
    }

    // Handing over from the current task to the one d steps ahead.
    function SwitchTo(d: nat): Sched
      requires Ok() && d <= |order|
    {
      var prev := order[pos];
      var demoted := if states[prev] == Running then states[prev := Ready] else states;
      Sched(order, demoted[order[Ahead(d)] := Running], Ahead(d))
    }

    // At most one task is RUNNING, and it is the current one; main can always run; slots
    // off the list are not in use.
    ghost predicate Inv() {
      && Ok()
      && (forall i | 0 <= i < |states| && states[i] == Running :: i == order[pos])
      && order[0] == 0 && (states[0] == Ready || states[0] == Running)
      && (forall i: nat | i < |states| && states[i] != Unused :: i in order)
    }
  }

  // One call of schedule().
  ghost predicate Scheduled(s: Sched, s': Sched)
    requires s.Ok()
  {
    (s.NoneReady() && s' == s) ||
    (exists d: nat :: s.FirstReady(d) && s' == if s.Ahead(d) == s.pos then s else s.SwitchTo(d))
  }

  // What happens between calls: a task blocks, wakes, exits or is killed.  Only
  // schedule() makes a task run.
  ghost predicate StateSet(s: Sched, s': Sched, i: nat, st: State)
    requires s.Ok()
  {
    i in s.order && st != Running && (i == 0 ==> st == Ready) && s' == s.(states := s.states[i := st])
  }

  // The table after task_create took slot i, which was off the list.
  function Added(s: Sched, i: nat): Sched
    requires i < |s.states|
  {
    Sched(s.order + [i], s.states[i := Ready], s.pos)
  }

  ghost predicate Created(s: Sched, s': Sched) {
    exists i: nat :: i < |s.states| && i !in s.order && s' == Added(s, i)
  }

  ghost predicate Step(s: Sched, s': Sched)
    requires s.Ok()
  {
    || Scheduled(s, s')
    || (exists i: nat, st: State :: i < |s.states| && StateSet(s, s', i, st))
    || Created(s, s')
  }

  // A run is the sequence of its states.
  ghost predicate IsRun(run: seq<Sched>) {
    && |run| > 0 && (forall k | 0 <= k < |run| :: run[k].Ok())
    && forall k | 0 <= k < |run| - 1 :: Step(run[k], run[k + 1])
  }

  lemma ScheduledInv(s: Sched, s': Sched)
    requires s.Inv() && Scheduled(s, s')
    ensures s'.Inv() && s'.order == s.order
  {
  }

  lemma AddedOk(s: Sched, i: nat)
    requires s.Inv() && i < |s.states| && i !in s.order
    ensures Added(s, i).Inv() && Added(s, i).Current() == s.Current()
  {
  }

  lemma StepInv(s: Sched, s': Sched)
    requires s.Inv() && Step(s, s')
    ensures s'.Inv() && s.order <= s'.order && |s'.states| == |s.states|
  {
    if Created(s, s') {
      var i: nat :| i < |s.states| && i !in s.order && s' == Added(s, i);
      AddedOk(s, i);
    } else if !Scheduled(s, s') {
      var i: nat, st :| i < |s.states| && StateSet(s, s', i, st);
    }
  }

  // In every state of every run from a good state, a RUNNING task is the current one, and
  // the list has only grown at its end.
  lemma {:induction false} RunInv(run: seq<Sched>)
    requires IsRun(run) && run[0].Inv()
    ensures forall k | 0 <= k < |run| :: run[k].Inv()
    ensures forall j, k | 0 <= j <= k < |run| :: run[j].order <= run[k].order
  {
    if |run| > 1 {
      assert Step(run[0], run[0 + 1]);
      StepInv(run[0], run[1]);
      var rest := run[1..];
      TailIsRun(run);
      RunInv(rest);
      forall k | 0 <= k < |run| ensures run[k].Inv() {
        if k > 0 { assert rest[k - 1] == run[k]; }
      }
      forall j, k | 0 <= j <= k < |run| ensures run[j].order <= run[k].order {
        if k > 0 {
          assert rest[k - 1] == run[k] && rest[0].order <= rest[k - 1].order;
          if j > 0 { assert rest[j - 1] == run[j]; }
        }
      }
    }
  }

  // What a call does to the states: one task runs, the one that ran before can run again,
  // and no other changes.
  lemma ScheduledStates(s: Sched, s': Sched, i: nat)
    requires s.Inv() && Scheduled(s, s') && i < |s.states|
    ensures |s'.states| == |s.states|
    ensures s'.states[i] == if i == s'.Current() && s'.pos != s.pos then Running
      else if i == s.Current() && s'.pos != s.pos && s.states[i] == Running then Ready
      else s.states[i]
  {
  }

  // ---- No task starves ----

  // A READY task that schedule() does not pick yet is nearer afterwards.
  lemma DistanceFalls(s: Sched, s': Sched, q: nat)
    requires s.Ok() && Scheduled(s, s') && q < |s.order| && q != s.pos && s.states[s.order[q]] == Ready
    ensures s'.Ok() && s'.order == s.order
    ensures s'.pos == q || (s'.Distance(q) < s.Distance(q) && s'.states[s.order[q]] == Ready)
  {
    assert s.Ahead(s.Distance(q)) == q && s.StateAhead(s.Distance(q)) == Ready;
    var d: nat :| s.FirstReady(d) && s' == if s.Ahead(d) == s.pos then s else s.SwitchTo(d);
    assert d <= s.Distance(q);
  }

  // How many steps of the run are calls of schedule().
  ghost function Calls(run: seq<Sched>): nat
    requires IsRun(run)
    decreases |run|
  {
    if |run| == 1 then 0
    else
      TailIsRun(run);
      (if Scheduled(run[0], run[1]) then 1 else 0) + Calls(run[1..])
  }

  lemma TailIsRun(run: seq<Sched>)
    requires IsRun(run) && |run| > 1
    ensures IsRun(run[1..])
  {
    var rest := run[1..];
    forall k | 0 <= k < |rest| - 1 ensures Step(rest[k], rest[k + 1]) {
      assert Step(run[k + 1], run[k + 1 + 1]);
    }
  }

  // How many are creations.
  ghost function Creations(run: seq<Sched>): nat
    requires IsRun(run)
    decreases |run|
  {
    if |run| == 1 then 0
    else
      TailIsRun(run);
      (if Created(run[0], run[1]) then 1 else 0) + Creations(run[1..])
  }

  // Each creation lengthens the list by one, and nothing else does.
  lemma {:induction false} CreationsLengthen(run: seq<Sched>)
    requires IsRun(run)
    ensures |run[|run| - 1].order| == |run[0].order| + Creations(run)
    decreases |run|
  {
    if |run| > 1 {
      TailIsRun(run);
      assert Step(run[0], run[0 + 1]);
      CreationsLengthen(run[1..]);
    }
  }

  // A creation keeps the place of every slot and puts it at most one step further away.
  lemma DistanceRises(s: Sched, s': Sched, q: nat)
    requires s.Ok() && s'.Ok() && Created(s, s') && q < |s.order|
    ensures s'.pos == s.pos && |s'.order| == |s.order| + 1 && s'.order[q] == s.order[q]
    ensures s.Distance(q) <= s'.Distance(q) <= s.Distance(q) + 1
  {
  }

  // The task at place q is READY, or has just been picked, throughout.
  ghost predicate StaysReady(run: seq<Sched>, q: nat, slot: nat) {
    forall k | 0 <= k < |run| ::
      && q < |run[k].order| && run[k].order[q] == slot && slot < |run[k].states|
      && (run[k].pos == q || run[k].states[slot] == Ready)
  }

  // One step brings the task nearer by what it adds to the calls less the creations.
  lemma StepNearer(s: Sched, s': Sched, q: nat)
    requires s.Ok() && s'.Ok() && Step(s, s') && q < |s.order| && s.pos != q && s.states[s.order[q]] == Ready
    ensures q < |s'.order| && s'.order[q] == s.order[q]
    ensures s'.pos == q ||
      s'.Distance(q) + (if Scheduled(s, s') then 1 else 0) <= s.Distance(q) + (if Created(s, s') then 1 else 0)
  {
    if Created(s, s') {
      DistanceRises(s, s', q);
    } else if Scheduled(s, s') {
      DistanceFalls(s, s', q);
    }
  }

  // A task that stays READY runs once schedule() has been called as often as it was
  // steps ahead, and once more for each task created meanwhile.
  lemma {:induction false} NoStarvation(run: seq<Sched>, q: nat)
    requires IsRun(run) && q < |run[0].order| && StaysReady(run, q, run[0].order[q])
    requires Calls(run) >= run[0].Distance(q) + Creations(run)
    ensures exists k :: 0 <= k < |run| && run[k].pos == q
    decreases |run|
  {
    if run[0].pos != q {
      assert run[0].Distance(q) > 0;
      assert |run| > 1;
      TailIsRun(run);
      var rest := run[1..];
      assert Step(run[0], run[0 + 1]);
      if run[1].pos != q {
        StepNearer(run[0], run[1], q);
        NoStarvation(rest, q);
        var k :| 0 <= k < |rest| && rest[k].pos == q;
        assert run[k + 1].pos == q;
      }
    }
  }

  // So it runs within as many calls as the list is long in the end, less one.
  lemma RunsWithinList(run: seq<Sched>, q: nat)
    requires IsRun(run) && q < |run[0].order| && StaysReady(run, q, run[0].order[q])
    requires Calls(run) >= |run[|run| - 1].order| - 1
    ensures exists k :: 0 <= k < |run| && run[k].pos == q
  {
    CreationsLengthen(run);
    DistanceBound(run[0], q);
    NoStarvation(run, q);
  }

  // Nobody but the scheduler touches this slot.
  ghost predicate LeftAlone(run: seq<Sched>, slot: nat) {
    forall k: nat | k + 1 < |run| :: StepApart(run[k], run[k + 1], slot)
  }

  ghost predicate StepApart(s: Sched, s': Sched, slot: nat) {
    s.Ok() && (Scheduled(s, s') || Created(s, s') ||
      exists i: nat, st: State :: i < |s.states| && i != slot && StateSet(s, s', i, st))
  }

  ghost predicate CanRun(s: Sched, slot: nat) {
    slot in s.order && slot < |s.states| && (s.states[slot] == Ready || s.states[slot] == Running)
  }

  lemma StepCanRun(s: Sched, s': Sched, slot: nat)
    requires s.Inv() && Step(s, s') && StepApart(s, s', slot) && CanRun(s, slot)
    ensures CanRun(s', slot)
  {
    StepInv(s, s');
    if Scheduled(s, s') {
      ScheduledStates(s, s', slot);
    } else if !Created(s, s') {
      var i: nat, st :| i < |s.states| && i != slot && StateSet(s, s', i, st);
    }
  }

  // A task that can run can run for good, whatever the others do.
  lemma {:induction false} CanRunThroughout(run: seq<Sched>, slot: nat)
    requires IsRun(run) && run[0].Inv() && LeftAlone(run, slot) && CanRun(run[0], slot)
    ensures forall k | 0 <= k < |run| :: CanRun(run[k], slot)
    decreases |run|
  {
    if |run| > 1 {
      assert Step(run[0], run[0 + 1]) && StepApart(run[0], run[0 + 1], slot);
      StepInv(run[0], run[1]);
      StepCanRun(run[0], run[1], slot);
      TailIsRun(run);
      var rest := run[1..];
      forall k: nat | k + 1 < |rest| ensures StepApart(rest[k], rest[k + 1], slot) {
        assert StepApart(run[k + 1], run[k + 1 + 1], slot);
      }
      CanRunThroughout(rest, slot);
      forall k | 0 <= k < |run| ensures CanRun(run[k], slot) {
        if k > 0 { assert run[k] == rest[k - 1]; }
      }
    }
  }

  // So it gets its turn within as many calls as the list is long in the end, less one,
  // with nothing asked of the states on the way.
  lemma GetsItsTurn(run: seq<Sched>, q: nat)
    requires IsRun(run) && run[0].Inv() && q < |run[0].order|
    requires LeftAlone(run, run[0].order[q]) && CanRun(run[0], run[0].order[q])
    requires Calls(run) >= |run[|run| - 1].order| - 1
    ensures exists k :: 0 <= k < |run| && run[k].pos == q
  {
    var slot := run[0].order[q];
    RunInv(run);
    CanRunThroughout(run, slot);
    forall k | 0 <= k < |run|
      ensures q < |run[k].order| && run[k].order[q] == slot && slot < |run[k].states|
      ensures run[k].pos == q || run[k].states[slot] == Ready
    {
      assert run[0].order <= run[k].order && run[k].Inv() && CanRun(run[k], slot);
      if run[k].states[slot] == Running { OncePlaced(run[k], q); }
    }
    RunsWithinList(run, q);
  }

  lemma OncePlaced(s: Sched, q: nat)
    requires s.Inv() && q < |s.order| && s.order[q] < |s.states| && s.states[s.order[q]] == Running
    ensures s.pos == q
  {
    assert s.order[q] == s.order[s.pos];
  }

  lemma DistanceBound(s: Sched, q: nat)
    requires s.Ok() && q < |s.order|
    ensures s.Distance(q) <= |s.order| - 1
  {
  }

  // A task other than main that exits hands over: main is READY, so someone runs.
  lemma ExitHandsOver(s: Sched, s1: Sched, s2: Sched)
    requires s.Inv() && s.Current() != 0 && StateSet(s, s1, s.Current(), Unused) && Scheduled(s1, s2)
    ensures s2.Current() != s.Current() && s2.states[s2.Current()] == Running
    ensures s2.states[s.Current()] == Unused
  {
    assert s1.states[0] == Ready;
    assert s1.StateAhead(s1.Distance(0)) == Ready;
  }
}
