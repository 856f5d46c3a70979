// kernel/context.asm and the stack task_create prepares (kernel/process.c:41-47).
//
// Stack addresses count 8-byte words, so push moves rsp by one.
module Context {
  import opened Words

  // The registers context_switch saves.
  datatype Regs = Regs(rbp: Word, rbx: Word, r12: Word, r13: Word, r14: Word, r15: Word, flags: Word)

  // Where a task is: its registers, the instruction it continues at, its stack pointer.
  datatype Cpu = Cpu(regs: Regs, rip: Word, rsp: nat)

  const STACK_WORDS: nat := 2048

  // The frame at rsp holds what a task needs to continue as c.
  ghost predicate FrameHolds(mem: seq<Word>, rsp: nat, c: Cpu) {
    && rsp + 8 <= |mem| && c.rsp == rsp + 8
    && mem[rsp] == c.regs.flags && mem[rsp + 1] == c.regs.r15 && mem[rsp + 2] == c.regs.r14
    && mem[rsp + 3] == c.regs.r13 && mem[rsp + 4] == c.regs.r12 && mem[rsp + 5] == c.regs.rbx
    && mem[rsp + 6] == c.regs.rbp && mem[rsp + 7] == c.rip
  }

  ghost predicate SameOutside(mem: seq<Word>, mem': seq<Word>, lo: nat, hi: nat) {
    |mem'| == |mem| && forall a | 0 <= a < |mem| && !(lo <= a < hi) :: mem'[a] == mem[a]
  }

  class Machine {
    const mem: array<Word>
    // tasks[i].rsp
    const saved: array<nat>
    var rbp: Word, rbx: Word
    var r12: Word, r13: Word, r14: Word, r15: Word
    var flags: Word
    var rdi: Word
    // The instruction after the current call.
    var rip: Word
    var rsp: nat

    ghost function Now(): Cpu
      reads this
    {
      Cpu(Regs(rbp, rbx, r12, r13, r14, r15, flags), rip, rsp)
    }

    // context_switch(&tasks[task].rsp, newRsp), from the call to the ret.
    method ContextSwitch(task: nat, newRsp: nat)
      requires task < saved.Length && 8 <= rsp <= mem.Length && newRsp + 8 <= mem.Length
      modifies this, mem, saved
      ensures saved[..] == old(saved[..])[task := old(rsp) - 8]
      ensures SameOutside(old(mem[..]), mem[..], old(rsp) - 8, old(rsp))
      ensures FrameHolds(mem[..], old(rsp) - 8, old(Now()))
      ensures FrameHolds(mem[..], newRsp, Now())
    {
      SaveFrame();
      saved[task] := rsp;
      rsp := newRsp;
      RestoreFrame();
    }

    // The pops, and the ret.
    method RestoreFrame()
      requires rsp + 8 <= mem.Length
      modifies this
      ensures FrameHolds(mem[..], old(rsp), Now())
    {
      flags := Pop();
      r15 := Pop();
      r14 := Pop();
      r13 := Pop();
      r12 := Pop();
      rbx := Pop();
      rbp := Pop();
      rip := Pop();
    }

    method Push(x: Word)
      requires 1 <= rsp <= mem.Length
      modifies this`rsp, mem
      ensures rsp == old(rsp) - 1 && mem[..] == old(mem[..])[rsp := x]
    {
      rsp := rsp - 1;
      mem[rsp] := x;
    }

    method Pop() returns (x: Word)
      requires rsp < mem.Length
      modifies this`rsp
      ensures rsp == old(rsp) + 1 && x == mem[old(rsp)]
    {
      x := mem[rsp];
      rsp := rsp + 1;
    }

    // The pushes: the return address by the call, then the registers.
    method SaveFrame()
      requires 8 <= rsp <= mem.Length
      modifies this`rsp, mem
      ensures rsp == old(rsp) - 8
      ensures SameOutside(old(mem[..]), mem[..], rsp, rsp + 8)
      ensures FrameHolds(mem[..], rsp, old(Now()))
    {
      Push(rip);
      Push(rbp);
      Push(rbx);
      Push(r12);
      Push(r13);
      Push(r14);
      Push(r15);
      Push(flags);
    }

    // task_create, lines 41-47: the frame a new task is first switched to.
    method PrepareStack(task: nat, stack: nat, entry: Word, trampoline: Word)
      requires task < saved.Length && stack + STACK_WORDS <= mem.Length && stack % 2 == 0
      modifies mem, saved
      ensures var top := stack + STACK_WORDS;
        && saved[..] == old(saved[..])[task := top - 9]
        && FrameHolds(mem[..], top - 9, Fresh(trampoline, top - 1))
        && mem[top - 1] == entry
        && SameOutside(old(mem[..]), mem[..], top - 9, top)
    {
      // The mask of line 42 changes nothing: the top of the stack is 16-byte aligned.
      var top := stack + STACK_WORDS;
      top := top - 1; mem[top] := entry;
      top := top - 1; mem[top] := trampoline;
      top := top - 1; mem[top] := 0;
      top := top - 1; mem[top] := 0;
      top := top - 1; mem[top] := 0;
      top := top - 1; mem[top] := 0;
      top := top - 1; mem[top] := 0;
      top := top - 1; mem[top] := 0;
      top := top - 1; mem[top] := 0x202;
      saved[task] := top;
    }

    // task_trampoline, up to the first instruction of the task: entry is called with the
    // stack pointer 8 bytes below a 16-byte boundary, as after any call.
    method Trampoline(stack: nat, entry: Word, back: Word)
      requires stack + STACK_WORDS <= mem.Length && stack % 2 == 0
      requires rsp == stack + STACK_WORDS - 1 && mem[rsp] == entry
      modifies this, mem
      ensures rip == entry && rdi == entry
      ensures rsp == stack + STACK_WORDS - 1 && rsp % 2 == 1 && mem[rsp] == back
      ensures SameOutside(old(mem[..]), mem[..], rsp, rsp + 1)
    {
      rdi := mem[rsp]; rsp := rsp + 1;
      rsp := rsp - 1; mem[rsp] := back;
      rip := rdi;
    }

    // ---- The machine as a system of tasks ----

    ghost function SysOf(cur: nat): Sys
      reads this, mem, saved
    {
      Sys(Now(), mem[..], saved[..], cur)
    }

    // A switch from one task to another is a step of the system.
    method SwitchTo(t: nat, u: nat, ghost rs: seq<Region>)
      requires t < |rs| == saved.Length && u < |rs|
      requires rs[t].lo + 8 <= rsp <= rs[t].hi <= mem.Length && saved[u] + 8 <= mem.Length
      modifies this, mem, saved
      ensures Switches(rs, old(SysOf(t)), SysOf(u))
    {
      ContextSwitch(t, saved[u]);
    }

    // So is the preparation of a stack while another task runs.
    method Prepare(t: nat, entry: Word, trampoline: Word, ghost cur: nat, stack: nat, ghost rs: seq<Region>)
      requires t < |rs| == saved.Length && cur != t && rs[t] == Region(stack, stack + STACK_WORDS)
      requires stack + STACK_WORDS <= mem.Length && stack % 2 == 0
      modifies mem, saved
      ensures Prepares(rs, old(SysOf(cur)), SysOf(cur), t, trampoline, entry)
    {
      PrepareStack(t, stack, entry, trampoline);
    }
  }

  function Fresh(trampoline: Word, rsp: nat): Cpu {
    Cpu(Regs(0, 0, 0, 0, 0, 0, 0x202), trampoline, rsp)
  }

  // Bit 9 of the flags.
  predicate InterruptsOn(c: Cpu) { c.regs.flags / 512 % 2 == 1 }

  // ---- Runs of a system of tasks ----

  datatype Region = Region(lo: nat, hi: nat)

  datatype Sys = Sys(cpu: Cpu, mem: seq<Word>, saved: seq<nat>, cur: nat)

  // Every task has a stack of its own.
  ghost predicate Stacks(rs: seq<Region>) {
    forall i, j | 0 <= i < |rs| && 0 <= j < |rs| && i != j :: rs[i].hi <= rs[j].lo || rs[j].hi <= rs[i].lo
  }

  // The current task computes: it may change anything but the stacks of the others.
  ghost predicate Computes(rs: seq<Region>, s: Sys, s': Sys) {
    && s'.cur == s.cur && s'.saved == s.saved && |s'.mem| == |s.mem|
    && forall t: nat | t < |rs| && t != s.cur :: StackKept(rs[t], s.mem, s'.mem)
  }

  ghost predicate StackKept(r: Region, mem: seq<Word>, mem': seq<Word>) {
    |mem'| == |mem| && forall a | r.lo <= a < r.hi && a < |mem| :: mem'[a] == mem[a]
  }

  // It switches to another task, with room for the frame on its stack.
  ghost predicate Switches(rs: seq<Region>, s: Sys, s': Sys) {
    && s.cur < |rs| == |s.saved| && s'.cur < |rs|
    && rs[s.cur].lo + 8 <= s.cpu.rsp <= rs[s.cur].hi
    && s'.saved == s.saved[s.cur := s.cpu.rsp - 8]
    && SameOutside(s.mem, s'.mem, s.cpu.rsp - 8, s.cpu.rsp)
    && FrameHolds(s'.mem, s.cpu.rsp - 8, s.cpu)
    && FrameHolds(s'.mem, s.saved[s'.cur], s'.cpu)
  }

  // It creates task t: the top of that task's stack is written.
  ghost predicate Prepares(rs: seq<Region>, s: Sys, s': Sys, t: nat, trampoline: Word, entry: Word) {
    && t < |rs| == |s.saved| && t != s.cur && s'.cur == s.cur
    && rs[t].lo + 9 <= rs[t].hi <= |s.mem|
    && s'.saved == s.saved[t := rs[t].hi - 9]
    && SameOutside(s.mem, s'.mem, rs[t].hi - 9, rs[t].hi)
    && FrameHolds(s'.mem, rs[t].hi - 9, Fresh(trampoline, rs[t].hi - 1)) && s'.mem[rs[t].hi - 1] == entry
  }

  ghost predicate Creates(rs: seq<Region>, s: Sys, s': Sys, t: nat) {
    exists trampoline: Word, entry: Word :: Prepares(rs, s, s', t, trampoline, entry)
  }

  ghost predicate Step(rs: seq<Region>, s: Sys, s': Sys) {
    Computes(rs, s, s') || Switches(rs, s, s') || exists t: nat :: Creates(rs, s, s', t)
  }

  // Task t is suspended and its stack holds what it needs to continue as c.
  ghost predicate Parked(rs: seq<Region>, s: Sys, t: nat, c: Cpu) {
    && t < |rs| == |s.saved| && s.cur != t
    && rs[t].lo <= s.saved[t] && s.saved[t] + 8 <= rs[t].hi
    && FrameHolds(s.mem, s.saved[t], c)
  }

  lemma SwitchParks(rs: seq<Region>, s: Sys, s': Sys)
    requires Switches(rs, s, s') && s'.cur != s.cur
    ensures Parked(rs, s', s.cur, s.cpu)
  {
  }

  lemma ComputingKeeps(rs: seq<Region>, s: Sys, s': Sys, t: nat, c: Cpu)
    requires Parked(rs, s, t, c) && Computes(rs, s, s')
    ensures Parked(rs, s', t, c)
  {
    assert StackKept(rs[t], s.mem, s'.mem);
  }

  lemma SwitchingKeeps(rs: seq<Region>, s: Sys, s': Sys, t: nat, c: Cpu)
    requires Stacks(rs) && Parked(rs, s, t, c) && Switches(rs, s, s')
    ensures if s'.cur == t then s'.cpu == c else Parked(rs, s', t, c)
  {
    assert rs[s.cur].hi <= rs[t].lo || rs[t].hi <= rs[s.cur].lo;
  }

  lemma CreatingKeeps(rs: seq<Region>, s: Sys, s': Sys, t: nat, c: Cpu, u: nat)
    requires Stacks(rs) && Parked(rs, s, t, c) && u != t && Creates(rs, s, s', u)
    ensures Parked(rs, s', t, c)
  {
    assert rs[u].hi <= rs[t].lo || rs[t].hi <= rs[u].lo;
  }

  // A parked task stays parked until it is switched to, unless it is created anew.
  lemma StaysParked(rs: seq<Region>, s: Sys, s': Sys, t: nat, c: Cpu)
    requires Stacks(rs) && Parked(rs, s, t, c) && Step(rs, s, s') && !Creates(rs, s, s', t)
    ensures if s'.cur == t then s'.cpu == c else Parked(rs, s', t, c)
  {
    if Computes(rs, s, s') {
      ComputingKeeps(rs, s, s', t, c);
    } else if Switches(rs, s, s') {
      SwitchingKeeps(rs, s, s', t, c);
    } else {
      var u: nat :| Creates(rs, s, s', u);
      CreatingKeeps(rs, s, s', t, c, u);
    }
  }

  ghost predicate IsRun(rs: seq<Region>, run: seq<Sys>) {
    forall i: nat | i + 1 < |run| :: Step(rs, run[i], run[i + 1])
  }

  // From step j to step k + 1 task t is off the processor, and is not created anew.
  ghost predicate Away(rs: seq<Region>, run: seq<Sys>, j: nat, k: nat, t: nat)
    requires j <= k && k + 1 < |run|
  {
    forall i | j <= i <= k :: run[i].cur != t && !Creates(rs, run[i], run[i + 1], t)
  }

  // Parked all that time, it is on again as it was.
  lemma BackAgain(rs: seq<Region>, run: seq<Sys>, j: nat, k: nat, t: nat, c: Cpu)
    requires Stacks(rs) && IsRun(rs, run) && j <= k && k + 1 < |run|
    requires Parked(rs, run[j], t, c) && Away(rs, run, j, k, t) && run[k + 1].cur == t
    ensures run[k + 1].cpu == c
  {
    var i := j;
    while i < k
      invariant j <= i <= k && Parked(rs, run[i], t, c)
    {
      assert Step(rs, run[i], run[i + 1]);
      StaysParked(rs, run[i], run[i + 1], t, c);
      i := i + 1;
    }
    assert Step(rs, run[k], run[k + 1]);
    StaysParked(rs, run[k], run[k + 1], t, c);
  }

  // A task that was switched away from at step j and comes back at step k + 1 finds its
  // registers, stack pointer and return address as they were, whatever ran or was created
  // in between.
  lemma Resumes(rs: seq<Region>, run: seq<Sys>, j: nat, k: nat, t: nat)
    requires Stacks(rs) && IsRun(rs, run) && j < k && k + 1 < |run|
    requires run[j].cur == t && Switches(rs, run[j], run[j + 1])
    requires Away(rs, run, j + 1, k, t) && run[k + 1].cur == t
    ensures run[k + 1].cpu == run[j].cpu
  {
    SwitchParks(rs, run[j], run[j + 1]);
    BackAgain(rs, run, j + 1, k, t, run[j].cpu);
  }

  lemma CreatedIsParked(rs: seq<Region>, s: Sys, s': Sys, t: nat, trampoline: Word, entry: Word)
    requires Prepares(rs, s, s', t, trampoline, entry)
    ensures Parked(rs, s', t, Fresh(trampoline, rs[t].hi - 1))
  {
  }

  // No step of another task touches the stack of t, but its creation.
  lemma TopKept(rs: seq<Region>, s: Sys, s': Sys, t: nat)
    requires Stacks(rs) && Step(rs, s, s') && t < |rs| && s.cur != t && !Creates(rs, s, s', t)
    ensures StackKept(rs[t], s.mem, s'.mem)
  {
    if Switches(rs, s, s') {
      assert rs[s.cur].hi <= rs[t].lo || rs[t].hi <= rs[s.cur].lo;
    } else if !Computes(rs, s, s') {
      var u: nat :| Creates(rs, s, s', u);
      assert rs[u].hi <= rs[t].lo || rs[t].hi <= rs[u].lo;
    }
  }

  // The word at the top of its stack is there as long as the task is away.
  lemma TopStays(rs: seq<Region>, run: seq<Sys>, j: nat, k: nat, t: nat)
    requires Stacks(rs) && IsRun(rs, run) && j <= k && k + 1 < |run| && Away(rs, run, j, k, t)
    requires t < |rs| && rs[t].lo < rs[t].hi <= |run[j].mem|
    ensures |run[k + 1].mem| == |run[j].mem| && run[k + 1].mem[rs[t].hi - 1] == run[j].mem[rs[t].hi - 1]
  {
    var i := j;
    while i <= k
      invariant j <= i <= k + 1
      invariant |run[i].mem| == |run[j].mem| && run[i].mem[rs[t].hi - 1] == run[j].mem[rs[t].hi - 1]
    {
      assert Step(rs, run[i], run[i + 1]);
      TopKept(rs, run[i], run[i + 1], t);
      i := i + 1;
    }
  }

  // A task created at step j and first switched to at step k + 1 enters the trampoline
  // with its entry on top of the stack.
  lemma FirstSwitch(rs: seq<Region>, run: seq<Sys>, j: nat, k: nat, t: nat, trampoline: Word, entry: Word)
    requires Stacks(rs) && IsRun(rs, run) && j < k && k + 1 < |run|
    requires Prepares(rs, run[j], run[j + 1], t, trampoline, entry)
    requires Away(rs, run, j + 1, k, t) && run[k + 1].cur == t
    ensures run[k + 1].cpu == Fresh(trampoline, rs[t].hi - 1)
    ensures InterruptsOn(run[k + 1].cpu) && run[k + 1].cpu.rip == trampoline && run[k + 1].cpu.rsp == rs[t].hi - 1
    ensures rs[t].hi <= |run[k + 1].mem| && run[k + 1].mem[rs[t].hi - 1] == entry
  {
    CreatedIsParked(rs, run[j], run[j + 1], t, trampoline, entry);
    BackAgain(rs, run, j + 1, k, t, Fresh(trampoline, rs[t].hi - 1));
    TopStays(rs, run, j + 1, k, t);
  }
}
