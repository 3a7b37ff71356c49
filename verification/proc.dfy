/** Creating and finding processes: proc_create over kmalloc, and proc_find. */
module ProcCreation {
  import opened Options
  import opened Scheduler
  import HB = HeapBlocks

  const KSTACK_SIZE: nat := 16384

  /** alloc_proc: the first unused slot. */
  function FirstUnused(procs: seq<Proc>, i: nat): Option<nat>
    requires i <= |procs|
    decreases |procs| - i
  {
    if i == |procs| then None
    else if procs[i].state == Unused then Some(i) else FirstUnused(procs, i + 1)
  }

  /** proc_find: the first slot in use that holds the pid. */
  function Find(procs: seq<Proc>, pid: int, i: nat): Option<nat>
    requires i <= |procs|
    decreases |procs| - i
  {
    if i == |procs| then None
    else if procs[i].state != Unused && procs[i].pid == pid then Some(i) else Find(procs, pid, i + 1)
  }

  lemma {:induction false} FirstUnusedIs(procs: seq<Proc>, i: nat)
    requires i <= |procs|
    ensures FirstUnused(procs, i).None? <==> forall j | i <= j < |procs| :: procs[j].state != Unused
    ensures FirstUnused(procs, i).Some? ==>
              var k := FirstUnused(procs, i).value;
              i <= k < |procs| && procs[k].state == Unused && forall j | i <= j < k :: procs[j].state != Unused
    decreases |procs| - i
  {
    if i < |procs| { FirstUnusedIs(procs, i + 1); }
  }

  lemma {:induction false} FindIs(procs: seq<Proc>, pid: int, i: nat)
    requires i <= |procs|
    ensures Find(procs, pid, i).None? <==> forall j | i <= j < |procs| ::
      procs[j].state == Unused || procs[j].pid != pid
    ensures Find(procs, pid, i).Some? ==>
              var k := Find(procs, pid, i).value;
              && i <= k < |procs| && procs[k].state != Unused && procs[k].pid == pid
              && forall j | i <= j < k :: procs[j].state == Unused || procs[j].pid != pid
    decreases |procs| - i
  {
    if i < |procs| { FindIs(procs, pid, i + 1); }
  }

  /** Process table, pid counter and heap. */
  datatype Machine = Machine(s: Sched, nextPid: int, heap: HB.Heap)

  /** The pid of the current process, read after slot i has received its own. */
  function ParentPid(s: Sched, i: nat, pid: int): int
    requires IsSched(s)
  {
    if s.cur == i then pid else if s.cur >= 0 then s.procs[s.cur].pid else 0
  }

  /** The slot proc_create fills in; the fields it does not mention stay as they are. */
  function Born(p: Proc, pid: int, ppid: int, stack: nat): Proc {
    p.(pid := pid, ppid := ppid, state := Ready, exitCode := 0, sleepTicks := 0, kernelRsp := stack + KSTACK_SIZE)
  }

  /** proc_create: the slot, or None when the table is full or the heap has no room. */
  function Create(m: Machine): (Machine, Option<nat>)
    requires IsSched(m.s)
  {
    match FirstUnused(m.s.procs, 0)
    case None => (m, None)
    case Some(i) =>
      var (h, stack) := HB.Kmalloc(m.heap, KSTACK_SIZE);
      if stack == 0 || i >= PROC_MAX then (m.(heap := h), None)
      else
        var p := Born(m.s.procs[i], m.nextPid, ParentPid(m.s, i, m.nextPid), stack);
        (Machine(m.s.(procs := m.s.procs[i := p]), m.nextPid + 1, h), Some(i))
  }

  /** The slot proc_create_elf fills in, after clearing all of it; its stack is a page frame. */
  function BornElf(pid: int, rsp: nat): Proc {
    Proc(pid, 0, Ready, 0, 0, rsp, true, false)
  }

  /** proc_create_elf as far as the table goes; rsp is the top of the frame it takes. */
  function CreateElf(m: Machine, rsp: nat): (Machine, Option<nat>)
    requires IsSched(m.s)
  {
    match FirstUnused(m.s.procs, 0)
    case None => (m, None)
    case Some(i) =>
      if i >= PROC_MAX then (m, None)
      else (m.(s := m.s.(procs := m.s.procs[i := BornElf(m.nextPid, rsp)]), nextPid := m.nextPid + 1), Some(i))
  }

  /** What proc_create leaves behind: the first unused slot holds the next pid, a READY process
      without ticks or exit code, its parent, and a stack from kmalloc; no other slot changes.
      It fails exactly when no slot is unused or kmalloc has no room for the stack. */
  lemma CreateIs(m: Machine)
    requires IsSched(m.s)
    ensures var ((m1, slot), (heap, stack)) := (Create(m), HB.Kmalloc(m.heap, KSTACK_SIZE));
      && (slot.None? <==> (forall j | 0 <= j < PROC_MAX :: m.s.procs[j].state != Unused) || stack == 0)
      && (slot.None? ==> m1.s == m.s && m1.nextPid == m.nextPid)
      && (slot.Some? ==>
            && slot.value < PROC_MAX && m.s.procs[slot.value].state == Unused
            && (forall j | 0 <= j < slot.value :: m.s.procs[j].state != Unused)
            && m1.heap == heap && m1.nextPid == m.nextPid + 1
            && m1.s.cur == m.s.cur && |m1.s.procs| == PROC_MAX
            && (forall j | 0 <= j < PROC_MAX && j != slot.value :: m1.s.procs[j] == m.s.procs[j])
            && var p, q := m.s.procs[slot.value], m1.s.procs[slot.value];
               && q.state == Ready && q.pid == m.nextPid && q.exitCode == 0 && q.sleepTicks == 0
               && (m.s.cur != slot.value ==> q.ppid == if m.s.cur < 0 then 0 else m.s.procs[m.s.cur].pid)
               && (m.s.cur == slot.value ==> q.ppid == m.nextPid)
               && q.kernelRsp == stack + KSTACK_SIZE && q.isUser == p.isUser && q.started == p.started)
  {
    FirstUnusedIs(m.s.procs, 0);
    hide HB.Kmalloc;
  }

  /** What proc_create_elf leaves behind: everything the slot held before is gone, its parent's
      pid included, and it holds a READY user process that has not started. */
  lemma CreateElfIs(m: Machine, rsp: nat)
    requires IsSched(m.s)
    ensures var (m1, slot) := CreateElf(m, rsp);
      && (slot.None? <==> forall j | 0 <= j < PROC_MAX :: m.s.procs[j].state != Unused)
      && (slot.None? ==> m1 == m)
      && (slot.Some? ==>
            && slot.value < PROC_MAX && m.s.procs[slot.value].state == Unused
            && (forall j | 0 <= j < slot.value :: m.s.procs[j].state != Unused)
            && m1.heap == m.heap && m1.nextPid == m.nextPid + 1
            && m1.s.cur == m.s.cur && |m1.s.procs| == PROC_MAX
            && (forall j | 0 <= j < PROC_MAX && j != slot.value :: m1.s.procs[j] == m.s.procs[j])
            && var q := m1.s.procs[slot.value];
               && q.state == Ready && q.pid == m.nextPid && q.ppid == 0 && q.exitCode == 0 && q.sleepTicks == 0
               && q.kernelRsp == rsp && q.isUser && !q.started)
  {
    FirstUnusedIs(m.s.procs, 0);
  }

  // --- the whole life of the table -------------------------------------------------------------

  /** Everything that touches the table or the heap: creation of both kinds, the hand-over of
      kernel_main to the first process, the scheduler's own events, and a store over the size in
      the header of block k. */
  datatype Op = CreateOne | CreateUser(rsp: nat) | Launch | Other(e: Event) | StoreSize(k: nat, size: nat)

  function Do(m: Machine, op: Op): (m1: Machine)
    requires IsSched(m.s)
    ensures IsSched(m1.s)
  {
    match op
    case CreateOne => Create(m).0
    case CreateUser(rsp) => CreateElf(m, rsp).0
    case Launch => m.(s := Sched(m.s.procs[0 := m.s.procs[0].(state := Running)], 0))
    case Other(e) => m.(s := Happen(m.s, e))
    case StoreSize(k, size) =>
      if k < |m.heap.blocks|
      then m.(heap := m.heap.(blocks := m.heap.blocks[k := m.heap.blocks[k].(size := size)]))
      else m
  }

  function RunOps(m: Machine, ops: seq<Op>): (m1: Machine)
    requires IsSched(m.s)
    ensures IsSched(m1.s)
    decreases ops
  {
    if ops == [] then m else RunOps(Do(m, ops[0]), ops[1..])
  }

  /** Creation is the only way a slot comes into use; the hand-over happens while nothing runs
      yet and the first process has been created. */
  predicate Orderly(m: Machine, ops: seq<Op>)
    requires IsSched(m.s)
    decreases ops
  {
    ops != [] ==>
      && (ops[0].Other? ==> !ops[0].e.Start?)
      && (ops[0].Launch? ==> m.s.cur == -1 && m.s.procs[0].state == Ready)
      && Orderly(Do(m, ops[0]), ops[1..])
  }

  const STEP: nat := HB.HEADER + KSTACK_SIZE

  /** Where the block of the n-th kernel stack begins. */
  function StackAt(n: nat): nat {
    HB.HEAP_START + n * STEP
  }

  /** The blocks of n kernel stacks, newest first, all in use.  Nothing is said of the sizes in
      their headers, for the first dispatch of a process overwrites the next block's. */
  predicate StackBlocks(blocks: seq<HB.Block>, n: nat) {
    |blocks| == n && forall k | 0 <= k < n :: blocks[k].addr == StackAt(n - 1 - k) && !blocks[k].free
  }

  /** How many of the processes have their stack on the heap; kinds[i] says it of slot i. */
  function OnHeap(kinds: seq<bool>): (n: nat)
    ensures n <= |kinds|
  {
    if kinds == [] then 0
    else OnHeap(kinds[..|kinds| - 1]) + if kinds[|kinds| - 1] then 1 else 0
  }

  /** The processes fill the first slots in the order of their pids, those made by proc_create
      each have a stack of their own, and the heap holds these stacks and nothing else. */
  predicate Filled(m: Machine, kinds: seq<bool>) {
    && IsSched(m.s) && |kinds| <= PROC_MAX && m.s.cur < |kinds| && m.nextPid == |kinds| + 1
    && m.heap.ptr == StackAt(OnHeap(kinds)) && StackBlocks(m.heap.blocks, OnHeap(kinds))
    && (forall i | 0 <= i < |kinds| ::
          && m.s.procs[i].state != Unused && m.s.procs[i].pid == i + 1
          && (kinds[i] ==> m.s.procs[i].kernelRsp == StackAt(OnHeap(kinds[..i]) + 1)))
    && (forall i | |kinds| <= i < PROC_MAX :: m.s.procs[i].state == Unused)
  }

  lemma StackGranted(blocks: seq<HB.Block>, n: nat)
    requires n < PROC_MAX && StackBlocks(blocks, n)
    ensures HB.Kmalloc(HB.Heap(StackAt(n), blocks), KSTACK_SIZE) ==
            (HB.Heap(StackAt(n + 1), [HB.Block(StackAt(n), KSTACK_SIZE, false)] + blocks), StackAt(n) + HB.HEADER)
    ensures StackBlocks([HB.Block(StackAt(n), KSTACK_SIZE, false)] + blocks, n + 1)
    ensures StackAt(n) + HB.HEADER + KSTACK_SIZE == StackAt(n + 1)
  {
    hide HB.FirstFit, HB.Align16;
    AlignedStack();
    HB.FirstFitIs(blocks, KSTACK_SIZE);
    StepsGrow(n + 1, PROC_MAX);
  }

  lemma AlignedStack()
    ensures HB.Align16(KSTACK_SIZE) == KSTACK_SIZE
  {
    HB.AlignFacts(KSTACK_SIZE);
  }

  lemma OneMore(kinds: seq<bool>, kind: bool)
    ensures OnHeap(kinds + [kind]) == OnHeap(kinds) + if kind then 1 else 0
    ensures forall i | 0 <= i <= |kinds| :: (kinds + [kind])[..i] == kinds[..i]
    ensures kinds[..|kinds|] == kinds
  {
    assert (kinds + [kind])[..|kinds|] == kinds;
  }

  lemma CreateFilled(m: Machine, kinds: seq<bool>)
    requires Filled(m, kinds)
    ensures |kinds| < PROC_MAX ==> Filled(Create(m).0, kinds + [true]) && Create(m).1 == Some(|kinds|)
    ensures |kinds| == PROC_MAX ==> Create(m) == (m, None)
  {
    hide StackBlocks, StackAt, HB.Kmalloc, OnHeap;
    FirstUnusedIs(m.s.procs, 0);
    if |kinds| < PROC_MAX {
      assert m.s.procs[|kinds|].state == Unused;
      StackGranted(m.heap.blocks, OnHeap(kinds));
      OneMore(kinds, true);
    }
  }

  lemma CreateElfFilled(m: Machine, kinds: seq<bool>, rsp: nat)
    requires Filled(m, kinds)
    ensures |kinds| < PROC_MAX ==> Filled(CreateElf(m, rsp).0, kinds + [false]) && CreateElf(m, rsp).1 == Some(|kinds|)
    ensures |kinds| == PROC_MAX ==> CreateElf(m, rsp) == (m, None)
  {
    hide StackBlocks, StackAt, OnHeap;
    FirstUnusedIs(m.s.procs, 0);
    if |kinds| < PROC_MAX {
      assert m.s.procs[|kinds|].state == Unused;
      OneMore(kinds, false);
    }
  }

  /** The scheduler moves no process and changes no pid or stack. */
  lemma HappenKeeps(s: Sched, e: Event, n: nat)
    requires IsSched(s) && s.cur < n <= PROC_MAX && !e.Start?
    requires forall i | 0 <= i < PROC_MAX :: s.procs[i].state == Unused <==> i >= n
    ensures var s1 := Happen(s, e);
      && s1.cur < n
      && forall i | 0 <= i < PROC_MAX ::
           && (s1.procs[i].state == Unused <==> i >= n)
           && s1.procs[i].pid == s.procs[i].pid && s1.procs[i].kernelRsp == s.procs[i].kernelRsp
  {
    match e {
      case Timer(slice) =>
        var s0 := s.(procs := CountAll(s.procs));
        if slice { ScheduleKeeps(s0, n); }
      case WakeupOf(i) =>
      case SleepFor(ms) =>
        if s.cur >= 0 {
          ScheduleKeeps(Calls(s, e).value, n);
        }
      case ExitWith(code) =>
        if s.cur >= 0 {
          ScheduleKeeps(Calls(s, e).value, n);
        }
      case Yield => ScheduleKeeps(s, n);
    }
  }

  lemma ScheduleKeeps(s: Sched, n: nat)
    requires IsSched(s) && s.cur < n <= PROC_MAX
    requires forall i | 0 <= i < PROC_MAX :: s.procs[i].state == Unused <==> i >= n
    ensures var s1 := Schedule(s);
      && s1.cur < n
      && forall i | 0 <= i < PROC_MAX ::
           && (s1.procs[i].state == Unused <==> i >= n)
           && s1.procs[i].pid == s.procs[i].pid && s1.procs[i].kernelRsp == s.procs[i].kernelRsp
  {
    if s.cur >= 0 { NextReadyIs(s.procs[s.cur := Preempt(s.procs[s.cur])], s.cur, 1); }
  }

  lemma DoFilled(m: Machine, kinds: seq<bool>, op: Op) returns (kinds1: seq<bool>)
    requires Filled(m, kinds) && Orderly(m, [op])
    ensures Filled(Do(m, op), kinds1) && kinds <= kinds1
    ensures |kinds1| == |kinds| + if (op.CreateOne? || op.CreateUser?) && |kinds| < PROC_MAX then 1 else 0
  {
    kinds1 := kinds;
    match op {
      case CreateOne =>
        CreateFilled(m, kinds);
        if |kinds| < PROC_MAX { kinds1 := kinds + [true]; }
      case CreateUser(rsp) =>
        CreateElfFilled(m, kinds, rsp);
        if |kinds| < PROC_MAX { kinds1 := kinds + [false]; }
      case Launch => LaunchFilled(m, kinds);
      case Other(e) => OtherFilled(m, kinds, e);
      case StoreSize(k, size) => StoreFilled(m, kinds, k, size);
    }
    hide Filled, OnHeap, Create, CreateElf;
  }

  lemma LaunchFilled(m: Machine, kinds: seq<bool>)
    requires Filled(m, kinds) && m.s.cur == -1 && m.s.procs[0].state == Ready
    ensures Filled(Do(m, Launch), kinds)
  {
    hide OnHeap, StackAt, StackBlocks;
  }

  lemma OtherFilled(m: Machine, kinds: seq<bool>, e: Event)
    requires Filled(m, kinds) && !e.Start?
    ensures Filled(Do(m, Other(e)), kinds)
  {
    HappenKeeps(m.s, e, |kinds|);
    hide OnHeap, StackAt, StackBlocks, Happen;
  }

  lemma StoreFilled(m: Machine, kinds: seq<bool>, k: nat, size: nat)
    requires Filled(m, kinds)
    ensures Filled(Do(m, StoreSize(k, size)), kinds)
  {
    hide OnHeap, StackAt;
  }

  /** The hand-over makes the first process the one that runs. */
  lemma LaunchIdles(m: Machine)
    requires Safe(m.s) && m.s.cur == -1 && m.s.procs[0].state == Ready
    ensures Idling(Do(m, Launch).s, 0)
  {
  }

  function Creations(ops: seq<Op>): nat {
    if ops == [] then 0 else (if ops[0].CreateOne? || ops[0].CreateUser? then 1 else 0) + Creations(ops[1..])
  }

  /** In every reachable state the processes fill a prefix of the table as long as the number
      of creations, up to 64; slot i holds pid i + 1; and each process of proc_create has a
      16 KB stack of its own on the heap, which holds nothing else, whatever becomes of the
      sizes in the headers. */
  lemma {:induction false} RunFilled(m: Machine, kinds: seq<bool>, ops: seq<Op>) returns (kinds1: seq<bool>)
    requires Filled(m, kinds) && Orderly(m, ops)
    ensures Filled(RunOps(m, ops), kinds1) && kinds <= kinds1
    ensures |kinds1| == var created := |kinds| + Creations(ops); if created <= PROC_MAX then created else PROC_MAX
    decreases ops
  {
    hide Filled, Do;
    FilledSched(m, kinds);
    if ops == [] {
      kinds1 := kinds;
    } else {
      assert Orderly(m, [ops[0]]);
      var mid := DoFilled(m, kinds, ops[0]);
      kinds1 := RunFilled(Do(m, ops[0]), mid, ops[1..]);
    }
  }

  lemma FilledSched(m: Machine, kinds: seq<bool>)
    requires Filled(m, kinds)
    ensures IsSched(m.s) && |kinds| <= PROC_MAX
  {
  }

  /** The same from the start: proc_init, then any orderly history. */
  lemma HistoryFilled(procs: seq<Proc>, ops: seq<Op>) returns (kinds: seq<bool>)
    requires |procs| == PROC_MAX && forall i | 0 <= i < PROC_MAX :: procs[i].state == Unused
    requires Orderly(Machine(Sched(procs, -1), 1, HB.Heap(HB.HEAP_START, [])), ops)
    ensures Filled(RunOps(Machine(Sched(procs, -1), 1, HB.Heap(HB.HEAP_START, [])), ops), kinds)
    ensures |kinds| == if Creations(ops) <= PROC_MAX then Creations(ops) else PROC_MAX
  {
    kinds := RunFilled(Machine(Sched(procs, -1), 1, HB.Heap(HB.HEAP_START, [])), [], ops);
  }

  /** proc_create fails exactly when the table is full: the heap never runs out first. */
  lemma CreateFailsExact(m: Machine, kinds: seq<bool>)
    requires Filled(m, kinds)
    ensures Create(m).1 == None <==> |kinds| == PROC_MAX
  {
    hide StackBlocks, OnHeap;
    CreateFilled(m, kinds);
  }

  /** proc_find is exact: pid k is in slot k - 1, and no other pid exists. */
  lemma FindExact(m: Machine, kinds: seq<bool>, pid: int)
    requires Filled(m, kinds)
    ensures Find(m.s.procs, pid, 0) == if 1 <= pid <= |kinds| then Some(pid - 1) else None
  {
    FindIs(m.s.procs, pid, 0);
    if 1 <= pid <= |kinds| { assert m.s.procs[pid - 1].pid == pid; }
  }

  lemma {:induction false} OnHeapGrows(kinds: seq<bool>, i: nat, j: nat)
    requires i < j <= |kinds|
    ensures OnHeap(kinds[..i]) + (if kinds[i] then 1 else 0) <= OnHeap(kinds[..j])
    decreases j
  {
    assert kinds[..j][..j - 1] == kinds[..j - 1];
    if i < j - 1 { OnHeapGrows(kinds, i, j - 1); }
  }

  /** No two kernel stacks overlap, and all lie inside the heap. */
  lemma StacksDisjoint(m: Machine, kinds: seq<bool>, i: nat, j: nat)
    requires Filled(m, kinds) && i < j < |kinds| && kinds[i] && kinds[j]
    ensures m.s.procs[i].kernelRsp <= m.s.procs[j].kernelRsp - KSTACK_SIZE - HB.HEADER
    ensures HB.HEAP_START + HB.HEADER <= m.s.procs[i].kernelRsp - KSTACK_SIZE && m.s.procs[j].kernelRsp <= HB.HEAP_END
  {
    hide StackBlocks;
    OnHeapGrows(kinds, i, j);
    StepsGrow(OnHeap(kinds[..i]) + 1, OnHeap(kinds[..j]));
    StepsGrow(OnHeap(kinds[..j]) + 1, PROC_MAX);
  }

  lemma StepsGrow(i: nat, j: nat)
    requires i <= j
    ensures i * STEP <= j * STEP
  {
  }
}

/** kernel/proc/proc.c: the process table, updated in place. */
module Processes {
  import opened Options
  import opened Bits
  import opened Scheduler
  import opened ProcCreation
  import HB = HeapBlocks
  import opened KernelHeap

  const NO_PROC := Proc(0, 0, Unused, 0, 0, 0, false, false)

  class ProcTable {
    const procs: array<Proc>
    var current: int
    var ticks: nat
    var nextPid: int

    ghost predicate Valid()
      reads this
    {
      procs.Length == PROC_MAX && -1 <= current < PROC_MAX
    }

    ghost function State(): Sched
      reads this, procs
    {
      Sched(procs[..], current)
    }

    /** proc_init */
    constructor ()
      ensures Valid() && fresh(procs) && ticks == 0 && nextPid == 1 && current == -1
      ensures forall i | 0 <= i < PROC_MAX :: procs[i] == NO_PROC
    {
      procs := new Proc[PROC_MAX](_ => NO_PROC);
      current, ticks, nextPid := -1, 0, 1;
    }

    method Schedule()
      requires Valid()
      modifies this`current, procs
      ensures Valid() && State() == Scheduler.Schedule(old(State()))
    {
      hide IsSched, NextReady;
      if current < 0 { return; }
      var start := current;
      if procs[start].state == Running {
        procs[start] := procs[start].(state := Ready);
      }
      ghost var preempted := procs[..];
      assert preempted == old(procs[..])[start := Preempt(old(procs[start]))];
      for n := 1 to PROC_MAX + 1
        modifies this`current, procs
        invariant procs[..] == preempted && current == start
        invariant NextReady(preempted, start, 1) == NextReady(preempted, start, n)
      {
        NextReadyStep(preempted, start, n);
        var idx := (start + n) % PROC_MAX;
        if procs[idx].state == Ready {
          current := idx;
          procs[idx] := procs[idx].(state := Running);
          if procs[idx].isUser && !procs[idx].started {
            procs[idx] := procs[idx].(started := true);
          }
          assert procs[..] == preempted[idx := Dispatch(preempted[idx])];
          return;
        }
      }
      NextReadyStep(preempted, start, PROC_MAX + 1);
      NoneReady(preempted, start);
      // The search comes back to the current slot at step 64, so it cannot still be READY.
      if procs[start].state == Ready { assert false; }
    }

    /** proc_wakeup */
    method Wakeup(i: nat)
      requires Valid() && i < PROC_MAX
      modifies procs
      ensures State() == Scheduler.Wakeup(old(State()), i)
    {
      if procs[i].state == Sleeping {
        procs[i] := procs[i].(state := Ready);
      }
      assert procs[..] == old(procs[..])[i := Wake(old(procs[i]))];
    }

    /** proc_sleep */
    method Sleep(ms: nat)
      requires Valid()
      modifies this`current, procs
      ensures Valid() && State() == Scheduler.Sleep(old(State()), ms)
    {
      if current < 0 { return; }
      procs[current] := procs[current].(sleepTicks := (ms * PIT_HZ) % TWO64 / 1000);
      if procs[current].sleepTicks == 0 {
        procs[current] := procs[current].(sleepTicks := 1);
      }
      procs[current] := procs[current].(state := Sleeping);
      assert procs[..] == old(procs[..])[current :=
          old(procs[current]).(sleepTicks := SleepTicks(ms), state := Sleeping)];
      Schedule();
    }

    /** proc_exit */
    method Exit(code: int)
      requires Valid()
      modifies this`current, procs
      ensures Valid() && State() == Scheduler.Exit(old(State()), code)
    {
      if current < 0 { return; }
      procs[current] := procs[current].(state := Zombie);
      procs[current] := procs[current].(exitCode := code);
      assert procs[..] == old(procs[..])[current := old(procs[current]).(state := Zombie, exitCode := code)];
      Schedule();
    }

    /** sched_tick, called with the tick counter already advanced. */
    method SchedTick()
      requires Valid()
      modifies this`current, procs
      ensures Valid() && State() == Tick(old(State()), ticks % 10 == 0)
    {
      for i := 0 to PROC_MAX
        modifies procs
        invariant forall j | 0 <= j < PROC_MAX :: procs[j] == if j < i then CountDown(old(procs[j])) else old(procs[j])
      {
        if procs[i].state == Sleeping {
          if procs[i].sleepTicks > 0 {
            procs[i] := procs[i].(sleepTicks := procs[i].sleepTicks - 1);
          }
          if procs[i].sleepTicks == 0 {
            procs[i] := procs[i].(state := Ready);
          }
        }
      }
      assert procs[..] == CountAll(old(procs[..]));
      if current >= 0 && ticks % 10 == 0 {
        Schedule();
      }
    }

    /** proc_find */
    method Find(pid: int) returns (slot: Option<nat>)
      requires Valid()
      ensures slot == ProcCreation.Find(procs[..], pid, 0)
      ensures slot.Some? ==> slot.value < PROC_MAX
    {
      for i := 0 to PROC_MAX
        invariant ProcCreation.Find(procs[..], pid, 0) == ProcCreation.Find(procs[..], pid, i)
      {
        if procs[i].state != Unused && procs[i].pid == pid { return Some(i); }
      }
      return None;
    }

    /** alloc_proc */
    method AllocProc() returns (slot: Option<nat>)
      requires Valid()
      ensures slot == FirstUnused(procs[..], 0)
      ensures slot.Some? ==> slot.value < PROC_MAX
    {
      for i := 0 to PROC_MAX
        invariant FirstUnused(procs[..], 0) == FirstUnused(procs[..], i)
      {
        if procs[i].state == Unused { return Some(i); }
      }
      return None;
    }

    /** alloc_proc_slot */
    method AllocProcSlot() returns (slot: Option<nat>)
      requires Valid()
      modifies procs
      ensures slot == FirstUnused(old(procs[..]), 0)
      ensures slot.None? ==> procs[..] == old(procs[..])
      ensures slot.Some? ==>
                slot.value < PROC_MAX && procs[..] == old(procs[..])[slot.value := NO_PROC.(state := Ready)]
    {
      slot := AllocProc();
      if slot.Some? {
        procs[slot.value] := NO_PROC;
        procs[slot.value] := procs[slot.value].(state := Ready);
      }
    }

    /** alloc_pid */
    method AllocPid() returns (pid: int)
      modifies this`nextPid
      ensures pid == old(nextPid) && nextPid == old(nextPid) + 1
    {
      pid := nextPid;
      nextPid := nextPid + 1;
    }

    /** proc_create_elf's part in the table, with a stack whose top is rsp. */
    method CreateElf(rsp: nat) returns (slot: Option<nat>)
      requires Valid()
      modifies this`nextPid, procs
      ensures Valid()
      ensures forall heap: HB.Heap :: (Machine(State(), nextPid, heap), slot) ==
                ProcCreation.CreateElf(Machine(old(State()), old(nextPid), heap), rsp)
    {
      slot := AllocProcSlot();
      if slot == None { return; }
      var i := slot.value;
      var pid := AllocPid();
      procs[i] := procs[i].(pid := pid);
      procs[i] := procs[i].(state := Ready);
      procs[i] := procs[i].(isUser := true);
      procs[i] := procs[i].(started := false);
      procs[i] := procs[i].(kernelRsp := rsp);
      assert procs[..] == old(procs[..])[i := BornElf(old(nextPid), rsp)];
    }

    /** proc_create, with the kernel stack taken from the heap. */
    method Create(heap: KHeap) returns (slot: Option<nat>)
      requires Valid() && heap.Valid() && HB.NoWrap(heap.state, KSTACK_SIZE)
      modifies this`nextPid, procs, heap
      ensures Valid() && heap.Valid()
      ensures (Machine(State(), nextPid, heap.state), slot) ==
              ProcCreation.Create(old(Machine(State(), nextPid, heap.state)))
    {
      slot := AllocProc();
      if slot == None { return; }
      var i := slot.value;
      var stack := heap.Kmalloc(KSTACK_SIZE);
      if stack == 0 { return None; }
      procs[i] := procs[i].(kernelRsp := stack + KSTACK_SIZE);
      procs[i] := procs[i].(pid := nextPid);
      nextPid := nextPid + 1;
      var parent := if current >= 0 then procs[current].pid else 0;
      procs[i] := procs[i].(ppid := parent);
      procs[i] := procs[i].(state := Ready);
      procs[i] := procs[i].(exitCode := 0);
      procs[i] := procs[i].(sleepTicks := 0);
      assert procs[..] == old(procs[..])[i := Born(old(procs[i]), old(nextPid), parent, stack)];
    }
  }
}
