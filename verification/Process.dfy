// kernel/process.c: the task table and its linked list.
module Process {
  import opened RoundRobin

  const MAX_TASKS: nat := 16

  // A pointer to a struct task: null, or a slot of tasks[].
  datatype Link = Null | To(slot: nat)

  datatype Task = Task(pid: nat, state: State, entry: nat, next: Link)

  // From the list head on, the next links visit exactly the slots of order.
  ghost predicate Linked(tasks: seq<Task>, head: Link, order: seq<nat>) {
    && head == (if |order| > 0 then To(order[0]) else Null)
    && (forall k | 0 <= k < |order| :: order[k] < |tasks|)
    && (forall j, k | 0 <= j < k < |order| :: order[j] != order[k])
    && forall k: nat | k < |order| :: LinkAt(tasks, order, k)
  }

  ghost predicate LinkAt(tasks: seq<Task>, order: seq<nat>, k: nat) {
    k < |order| && order[k] < |tasks| && tasks[order[k]].next == NextIn(order, k)
  }

  ghost function NextIn(order: seq<nat>, k: nat): Link {
    if k + 1 < |order| then To(order[k + 1]) else Null
  }

  ghost function States(tasks: seq<Task>): (states: seq<State>)
    ensures |states| == |tasks| && forall i | 0 <= i < |tasks| :: states[i] == tasks[i].state
  {
    seq(|tasks|, i requires 0 <= i < |tasks| => tasks[i].state)
  }

  class Scheduler {
    const tasks: array<Task>
    var taskList: Link
    var current: Link
    var nextPid: nat
    ghost var sched: Sched

    // sched is the abstract value of the table.
    ghost predicate Represents()
      reads this, tasks
    {
      && tasks.Length == MAX_TASKS
      && Linked(tasks[..], taskList, sched.order)
      && sched.states == States(tasks[..])
      && sched.Ok()
      && current == To(sched.Current())
    }

    ghost predicate Valid()
      reads this, tasks
    {
      Represents() && sched.Inv()
    }

    // process_init
    constructor ()
      ensures Valid() && fresh(tasks)
      ensures sched.order == [0] && sched.states[0] == Running
    {
      tasks := new Task[MAX_TASKS](_ => Task(0, Unused, 0, Null));
      current, taskList := To(0), To(0);
      nextPid := 2;
      sched := Sched([0], seq(MAX_TASKS, i => if i == 0 then Running else Unused), 0);
      new;
      tasks[0] := Task(1, Running, 0, Null);
    }

    // prev->next ? prev->next : task_list
    function Next(t: nat): Link
      requires t < tasks.Length
      reads this, tasks
    {
      if tasks[t].next != Null then tasks[t].next else taskList
    }

    // schedule(), up to the context switch.
    method Schedule()
      requires Valid()
      modifies this, tasks
      ensures Valid() && Scheduled(old(sched), sched)
    {
      var prev := current.slot;
      var next, d := FindReady(prev);
      if tasks[next].state != Ready { return; }
      if next == prev { return; }
      SwitchOver(prev, next, d);
      ScheduledInv(old(sched), sched);
    }

    // The do-while loop: the first READY task after prev, or where the search began.
    method FindReady(prev: nat) returns (next: nat, ghost d: nat)
      requires Represents() && prev == sched.Current()
      ensures 1 <= d <= |sched.order| && next == sched.order[sched.Ahead(d)]
      ensures tasks[next].state == Ready ==> sched.FirstReady(d)
      ensures tasks[next].state != Ready ==> sched.NoneReady()
    {
      next := Advance(prev, 0);
      d := 1;
      var start := next;
      while tasks[next].state != Ready
        invariant 1 <= d <= |sched.order| && next == sched.order[sched.Ahead(d)]
        invariant start == sched.order[sched.Ahead(1)]
        invariant SearchedTo(sched, d)
        decreases |sched.order| - d
      {
        next := Advance(next, d);
        if next == start {
          NoneFound(sched, d);
          d := 1;
          return;
        }
        StillSearching(sched, d);
        d := d + 1;
      }
      SearchEnd(sched, d);
    }

    method Advance(t: nat, ghost d: nat) returns (u: nat)
      requires Represents() && d <= |sched.order| && t == sched.order[sched.Ahead(d)]
      ensures u == sched.AfterAhead(d)
    {
      StepAhead(sched, tasks[..], taskList, d);
      u := Next(t).slot;
    }

    method SwitchOver(prev: nat, next: nat, ghost d: nat)
      requires Represents() && prev == sched.Current() && next != prev
      requires d <= |sched.order| && next == sched.order[sched.Ahead(d)]
      modifies this, tasks
      ensures Represents() && sched == old(sched).SwitchTo(d)
    {
      SwitchIs(sched, d);
      SetState(prev, if tasks[prev].state == Running then Ready else tasks[prev].state);
      SetState(next, Running);
      current := To(next);
      sched := old(sched).SwitchTo(d);
    }

    method SetState(t: nat, st: State)
      requires Represents() && t < MAX_TASKS
      modifies this`sched, tasks
      ensures Represents() && sched == old(sched).(states := old(sched).states[t := st])
    {
      ghost var was := tasks[..];
      tasks[t] := tasks[t].(state := st);
      sched := sched.(states := sched.states[t := st]);
      SameLinks(was, tasks[..], taskList, sched.order);
    }

    // task_exit, up to its hlt loop, for a task other than main: someone else runs.
    method TaskExit()
      requires Valid() && sched.Current() != 0
      modifies this, tasks
      ensures Valid() && sched.order == old(sched.order)
      ensures sched.Current() != old(sched.Current()) && sched.states[sched.Current()] == Running
      ensures sched.states[old(sched.Current())] == Unused
    {
      var t := current.slot;
      SetState(t, Unused);
      ghost var s1 := sched;
      assert StateSet(old(sched), s1, t, Unused);
      StepInv(old(sched), s1);
      Schedule();
      ExitHandsOver(old(sched), s1, sched);
    }

    // task_create; stackOk is whether pmm_alloc_pages had a stack for it.  The first
    // unused slot is taken.  If that slot is on the list already, which is so after its
    // task exited, the list ends in a loop from which no order can be read any more.
    method TaskCreate(entry: nat, stackOk: bool) returns (t: Link)
      requires Valid()
      modifies this, tasks
      ensures t == Null <==> !stackOk || forall i | 0 <= i < MAX_TASKS :: old(tasks[i].state) != Unused
      ensures t == Null ==> Valid() && sched == old(sched)
      ensures t != Null ==> FirstUnused(old(tasks[..]), t.slot)
      ensures t != Null && t.slot !in old(sched.order) ==> Valid() && sched == Added(old(sched), t.slot)
      ensures t != Null && t.slot in old(sched.order) ==> Looping(tasks[..], taskList, t.slot)
    {
      var i := 0;
      while i < MAX_TASKS
        invariant i <= MAX_TASKS && forall j | 0 <= j < i :: tasks[j].state != Unused
      {
        if tasks[i].state == Unused {
          t := InitTask(i, entry, stackOk);
          return;
        }
        i := i + 1;
      }
      t := Null;
    }

    // The body of task_create for slot i.
    method InitTask(i: nat, entry: nat, stackOk: bool) returns (t: Link)
      requires Valid() && i < MAX_TASKS && tasks[i].state == Unused
      modifies this, tasks
      ensures t == if stackOk then To(i) else Null
      ensures t == Null ==> Valid() && sched == old(sched)
      ensures t != Null && i !in old(sched.order) ==> Valid() && sched == Added(old(sched), i)
      ensures t != Null && i in old(sched.order) ==> Looping(tasks[..], taskList, i)
    {
      var pid := nextPid;
      nextPid := nextPid + 1;
      if !stackOk {
        FillSlot(i, Task(pid, Unused, entry, tasks[i].next));
        return Null;
      }
      LinkSlot(i, Task(pid, Ready, entry, Null));
      t := To(i);
    }

    // Slot i with its fields set; the stack for it could not be had.
    method FillSlot(i: nat, task: Task)
      requires Valid() && i < MAX_TASKS && tasks[i].state == task.state && tasks[i].next == task.next
      modifies tasks
      ensures Valid()
    {
      ghost var was := tasks[..];
      tasks[i] := task;
      SameLinks(was, tasks[..], taskList, sched.order);
      assert States(tasks[..]) == States(was);
    }

    method LinkSlot(i: nat, task: Task)
      requires Valid() && i < MAX_TASKS && tasks[i].state == Unused && task.state == Ready && task.next == Null
      modifies this`sched, tasks
      ensures i !in old(sched.order) ==> Valid() && sched == Added(old(sched), i)
      ensures i in old(sched.order) ==> Looping(tasks[..], taskList, i)
    {
      ghost var was := tasks[..];
      ghost var order := sched.order;
      tasks[i] := task;
      ghost var m1 := tasks[..];
      ghost var cut := CutAt(was, m1, taskList, order, i);
      Append(i, cut);
      if i in order {
        LoopMade(m1, tasks[..], taskList, cut, i);
      } else {
        AddedOk(sched, i);
        sched := Added(sched, i);
      }
    }

    // Lines 51-53: the walk to the end of the list, and the new link there.
    method Append(i: nat, ghost order: seq<nat>)
      requires tasks.Length == MAX_TASKS && i < MAX_TASKS && |order| > 0
      requires Linked(tasks[..], taskList, order) && tasks[i].next == Null
      modifies tasks
      ensures var last := order[|order| - 1]; tasks[..] == old(tasks[..])[last := old(tasks[last]).(next := To(i))]
      ensures i !in order ==> Linked(tasks[..], taskList, order + [i])
    {
      ghost var was := tasks[..];
      var cur := taskList.slot;
      ghost var k := 0;
      LinkOf(was, taskList, order, 0);
      while tasks[cur].next != Null
        invariant k < |order| && cur == order[k] && tasks[..] == was
        invariant tasks[cur].next == NextIn(order, k)
        decreases |order| - k
      {
        LinkOf(was, taskList, order, k + 1);
        cur := tasks[cur].next.slot;
        k := k + 1;
      }
      tasks[cur] := tasks[cur].(next := To(i));
      if i !in order { AppendLinks(was, taskList, order, i); }
    }
  }

  // From process_init on: main creates a task.
  method BootAndCreate(entry: nat) returns (s: Scheduler)
    ensures fresh(s) && fresh(s.tasks) && s.Valid()
    ensures s.sched.order == [0, 1] && s.sched.pos == 0 && s.sched.states[0] == Running && s.sched.states[1] == Ready
  {
    s := new Scheduler();
    ghost var s0 := s.sched;
    assert s.tasks[0].state == s0.states[0] && s.tasks[1].state == s0.states[1] == Unused;
    var t := s.TaskCreate(entry, true);
    assert t == To(1);
  }

  // The task runs and exits, and the next one created takes its slot, which is still
  // linked: the list ends in the loop.
  method ReuseAfterExit(entry: nat, next: nat) returns (s: Scheduler)
    ensures fresh(s) && fresh(s.tasks) && Looping(s.tasks[..], s.taskList, 1)
  {
    s := BootAndCreate(entry);
    assert s.sched.FirstReady(1);
    s.Schedule();
    s.TaskExit();
    assert s.tasks[1].state == s.sched.states[1] && s.tasks[0].state == s.sched.states[0];
    var t := s.TaskCreate(next, true);
    assert t == To(1);
  }

  // Slot i links to itself, and no finite order is the list.
  ghost predicate Looping(tasks: seq<Task>, head: Link, i: nat) {
    i < |tasks| && tasks[i].next == To(i) && forall order :: !Linked(tasks, head, order)
  }

  lemma LinkOf(tasks: seq<Task>, head: Link, order: seq<nat>, k: nat)
    requires Linked(tasks, head, order) && k < |order|
    ensures tasks[order[k]].next == NextIn(order, k)
    ensures k + 1 < |order| ==> order[k] != order[k + 1]
  {
    assert LinkAt(tasks, order, k);
  }

  ghost predicate FirstUnused(tasks: seq<Task>, i: nat) {
    i < |tasks| && tasks[i].state == Unused && forall j | 0 <= j < i :: tasks[j].state != Unused
  }

  lemma AppendLinks(tasks: seq<Task>, head: Link, order: seq<nat>, i: nat)
    requires Linked(tasks, head, order) && |order| > 0 && i !in order && i < |tasks| && tasks[i].next == Null
    ensures var last := order[|order| - 1];
      Linked(tasks[last := tasks[last].(next := To(i))], head, order + [i])
  {
    var last := order[|order| - 1];
    var tasks', order' := tasks[last := tasks[last].(next := To(i))], order + [i];
    forall k: nat | k < |order'| ensures LinkAt(tasks', order', k) {
      if k < |order| { assert LinkAt(tasks, order, k); }
    }
  }

  // Clearing the next link of slot i: the list now ends there if i is on it.
  lemma CutAt(was: seq<Task>, tasks: seq<Task>, head: Link, order: seq<nat>, i: nat) returns (cut: seq<nat>)
    requires Linked(was, head, order) && |order| > 0 && |tasks| == |was| && i < |was|
    requires tasks[i].next == Null && forall j | 0 <= j < |was| && j != i :: tasks[j].next == was[j].next
    ensures |cut| > 0 && Linked(tasks, head, cut)
    ensures if i in order then cut[|cut| - 1] == i else cut == order
  {
    if i in order {
      var p :| 0 <= p < |order| && order[p] == i;
      cut := order[..p + 1];
    } else {
      cut := order;
    }
    forall k: nat | k < |cut| ensures LinkAt(tasks, cut, k) {
      assert LinkAt(was, order, k);
    }
  }

  // A list whose last task links to itself is the list of no finite order.
  lemma SelfLoop(tasks: seq<Task>, head: Link, order: seq<nat>, other: seq<nat>)
    requires |order| > 0 && head == To(order[0]) && LoopAt(tasks, order)
    ensures !Linked(tasks, head, other)
  {
    if Linked(tasks, head, other) {
      var k := 0;
      LinkOf(tasks, head, other, 0);
      while k < |order| - 1
        invariant 0 <= k < |order| && k < |other| && other[k] == order[k]
      {
        assert StepAt(tasks, order, k);
        LinkOf(tasks, head, other, k);
        k := k + 1;
      }
      LinkOf(tasks, head, other, k);
    }
  }

  lemma LoopMade(m1: seq<Task>, tasks: seq<Task>, head: Link, cut: seq<nat>, i: nat)
    requires Linked(m1, head, cut) && |cut| > 0 && i < |m1| && cut[|cut| - 1] == i
    requires tasks == m1[i := m1[i].(next := To(i))]
    ensures Looping(tasks, head, i)
  {
    forall k: nat | k < |cut| - 1 ensures StepAt(tasks, cut, k) {
      assert LinkAt(m1, cut, k);
    }
    forall other ensures !Linked(tasks, head, other) {
      SelfLoop(tasks, head, cut, other);
    }
  }

  ghost predicate StepAt(tasks: seq<Task>, order: seq<nat>, k: nat) {
    k + 1 < |order| && order[k] < |tasks| && tasks[order[k]].next == To(order[k + 1])
  }

  // The links follow order to its last task, and that links to itself.
  ghost predicate LoopAt(tasks: seq<Task>, order: seq<nat>) {
    && |order| > 0 && (forall k: nat | k < |order| - 1 :: StepAt(tasks, order, k))
    && var last := order[|order| - 1]; last < |tasks| && tasks[last].next == To(last)
  }

  lemma SwitchIs(s: Sched, d: nat)
    requires s.Ok() && d <= |s.order|
    ensures var prev, next := s.Current(), s.order[s.Ahead(d)];
      var demoted := if s.states[prev] == Running then Ready else s.states[prev];
      && s.SwitchTo(d) == Sched(s.order, s.states[prev := demoted][next := Running], s.Ahead(d))
      && s.SwitchTo(d).Ok()
  {
  }

  ghost predicate SearchedTo(s: Sched, d: nat)
    requires s.Ok() && d <= |s.order|
  {
    forall e | 1 <= e < d :: s.StateAhead(e) != Ready
  }

  lemma SearchEnd(s: Sched, d: nat)
    requires s.Ok() && 1 <= d <= |s.order| && SearchedTo(s, d) && s.StateAhead(d) == Ready
    ensures s.FirstReady(d)
  {
  }

  lemma StillSearching(s: Sched, d: nat)
    requires s.Ok() && 1 <= d <= |s.order| && SearchedTo(s, d) && s.StateAhead(d) != Ready
    requires s.AfterAhead(d) != s.order[s.Ahead(1)]
    ensures d < |s.order| && SearchedTo(s, d + 1) && s.AfterAhead(d) == s.order[s.Ahead(d + 1)]
  {
  }

  // The search is back where it began after as many steps as there are tasks.
  lemma NoneFound(s: Sched, d: nat)
    requires s.Ok() && 1 <= d <= |s.order| && SearchedTo(s, d) && s.StateAhead(d) != Ready
    requires s.AfterAhead(d) == s.order[s.Ahead(1)]
    ensures s.NoneReady()
  {
  }

  lemma SameLinks(tasks: seq<Task>, tasks': seq<Task>, head: Link, order: seq<nat>)
    requires Linked(tasks, head, order) && |tasks'| == |tasks|
    requires forall i | 0 <= i < |tasks| :: tasks'[i].next == tasks[i].next
    ensures Linked(tasks', head, order)
  {
    assert forall k: nat | k < |order| :: LinkAt(tasks, order, k) ==> LinkAt(tasks', order, k);
  }

  // Following next, or going back to the head at the end, is one step ahead in the list.
  lemma StepAhead(s: Sched, tasks: seq<Task>, head: Link, d: nat)
    requires s.Ok() && Linked(tasks, head, s.order) && d <= |s.order|
    ensures var t := s.order[s.Ahead(d)];
      var next := if tasks[t].next != Null then tasks[t].next else head;
      next == To(s.AfterAhead(d))
  {
    assert LinkAt(tasks, s.order, s.Ahead(d));
  }
}
