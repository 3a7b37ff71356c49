/** Context switching: kernel/arch/x86_64/context.asm under the scheduler. */
module Contexts {
  import opened Bits
  import opened Scheduler

  /** cpu_context_t */
  datatype Context = Context(r15: nat, r14: nat, r13: nat, r12: nat, rbx: nat, rbp: nat, rip: nat, rsp: nat)

  /** The registers switch_context deals with; rip is where execution goes on. */
  datatype Cpu = Cpu(r15: nat, r14: nat, r13: nat, r12: nat, rbx: nat, rbp: nat, rip: nat, rsp: nat)

  /** 64-bit words by address; what was never written reads as zero. */
  type Memory = map<nat, nat>

  function Load(mem: Memory, a: nat): nat {
    if a in mem then mem[a] else 0
  }

  /** The processor, its memory, and the saved contexts of all processes. */
  datatype Hart = Hart(cpu: Cpu, mem: Memory, ctx: seq<Context>)

  /** What a plain `ret` at this point would do. */
  function Return(c: Cpu, mem: Memory): Cpu {
    c.(rip := Load(mem, c.rsp), rsp := (c.rsp + 8) % TWO64)
  }

  function Saved(c: Cpu, mem: Memory): Context {
    Context(c.r15, c.r14, c.r13, c.r12, c.rbx, c.rbp, Load(mem, c.rsp), c.rsp)
  }

  function Restored(x: Context): Cpu {
    Cpu(x.r15, x.r14, x.r13, x.r12, x.rbx, x.rbp, x.rip, (x.rsp + 8) % TWO64)
  }

  /** switch_context */
  function Switch(h: Hart, prev: nat, next: nat): (h1: Hart)
    requires prev < |h.ctx| && next < |h.ctx|
    ensures |h1.ctx| == |h.ctx|
  {
    var ctx := h.ctx[prev := Saved(h.cpu, h.mem)];
    Hart(Restored(ctx[next]), h.mem[ctx[next].rsp := ctx[next].rip], ctx)
  }

  /** Switching to oneself returns as if nothing had happened. */
  lemma SelfSwitch(h: Hart, i: nat, a: nat)
    requires i < |h.ctx|
    ensures Switch(h, i, i).cpu == Return(h.cpu, h.mem) && Load(Switch(h, i, i).mem, a) == Load(h.mem, a)
  {
  }

  // --- runs -------------------------------------------------------------------------------------

  datatype System = System(s: Sched, h: Hart)

  /** Scheduler operations, a new process with its first context, and the current process
      computing whatever it likes. */
  datatype Move = Op(e: Event) | Born(slot: nat, p: Proc, first: Context) | Work(cpu: Cpu, mem: Memory)

  predicate IsSystem(y: System) {
    IsSched(y.s) && |y.h.ctx| == PROC_MAX
  }

  /** The operation gets as far as switch_context. */
  predicate Switches(s: Sched, e: Event)
    requires IsSched(s)
  {
    var c := Calls(s, e);
    c.Some? && IsSched(c.value) && c.value.cur >= 0
    && NextReady(c.value.procs[c.value.cur := Preempt(c.value.procs[c.value.cur])], c.value.cur, 1).Some?
  }

  function Step(y: System, m: Move): (y1: System)
    requires IsSystem(y)
    ensures IsSystem(y1)
  {
    match m
    case Op(e) =>
      var s1 := Happen(y.s, e);
      if e.Start? then y
      else if Switches(y.s, e) && s1.cur >= 0 then System(s1, Switch(y.h, y.s.cur, s1.cur))
      else y.(s := s1)
    case Born(slot, p, first) =>
      if slot < PROC_MAX && y.s.procs[slot].state == Unused
      then System(Happen(y.s, Start(slot, p)), y.h.(ctx := y.h.ctx[slot := first]))
      else y
    case Work(cpu, mem) => if y.s.cur >= 0 then y.(h := y.h.(cpu := cpu, mem := mem)) else y
  }

  /** Registers and memory at one moment. */
  datatype Moment = Moment(cpu: Cpu, mem: Memory)

  predicate Leaves(y: System, m: Move, i: nat)
    requires IsSystem(y)
  {
    m.Op? && !m.e.Start? && Switches(y.s, m.e) && y.s.cur == i
  }

  predicate Resumes(y: System, m: Move, i: nat)
    requires IsSystem(y)
  {
    m.Op? && !m.e.Start? && Switches(y.s, m.e) && Happen(y.s, m.e).cur == i
  }

  function LeftBy(y: System, m: Move, i: nat): seq<Moment>
    requires IsSystem(y)
  {
    if Leaves(y, m, i) then [Moment(y.h.cpu, y.h.mem)] else []
  }

  function ReturnedBy(y: System, m: Move, i: nat): seq<Moment>
    requires IsSystem(y)
  {
    if Resumes(y, m, i) then [Moment(Step(y, m).h.cpu, Step(y, m).h.mem)] else []
  }

  /** The moments at which process i calls switch_context. */
  function Leavings(y: System, moves: seq<Move>, i: nat): seq<Moment>
    requires IsSystem(y)
    decreases moves
  {
    if moves == [] then [] else LeftBy(y, moves[0], i) + Leavings(Step(y, moves[0]), moves[1..], i)
  }

  /** The moments at which switch_context returns in process i. */
  function Returns(y: System, moves: seq<Move>, i: nat): seq<Moment>
    requires IsSystem(y)
    decreases moves
  {
    if moves == [] then [] else ReturnedBy(y, moves[0], i) + Returns(Step(y, moves[0]), moves[1..], i)
  }

  /** A process that is not current has its registers in its context. */
  predicate Parked(y: System, i: nat, left: seq<Moment>) {
    && IsSystem(y) && i < PROC_MAX && y.s.procs[i].state != Unused
    && (y.s.cur >= 0 ==> y.s.procs[y.s.cur].state != Unused)
    && if y.s.cur == i then left == []
       else |left| == 1 && y.h.ctx[i] == Saved(left[0].cpu, left[0].mem)
  }

  /** What process i is waiting to resume after one more move. */
  function Left(y: System, m: Move, i: nat, left: seq<Moment>): (left1: seq<Moment>)
    requires Parked(y, i, left)
  {
    var l := left + LeftBy(y, m, i);
    if Resumes(y, m, i) && l != [] then l[1..] else l
  }

  lemma OpParked(y: System, e: Event, i: nat, left: seq<Moment>)
    requires Parked(y, i, left)
    ensures Parked(Step(y, Op(e)), i, Left(y, Op(e), i, left))
    ensures var l := left + LeftBy(y, Op(e), i);
      Resumes(y, Op(e), i) ==> l != [] && Step(y, Op(e)).h.cpu == Return(l[0].cpu, l[0].mem)
  {
    hide Happen, Switches, Load;
    if !e.Start? { SlotsKept(y.s, e); SwitchesMoves(y.s, e); }
  }

  lemma StepParked(y: System, m: Move, i: nat, left: seq<Moment>)
    requires Parked(y, i, left)
    ensures Parked(Step(y, m), i, Left(y, m, i, left))
    ensures var l := left + LeftBy(y, m, i);
      Resumes(y, m, i) ==> l != [] && Step(y, m).h.cpu == Return(l[0].cpu, l[0].mem)
  {
    if m.Op? { OpParked(y, m.e, i, left); }
  }

  /** Without a switch the current process goes on. */
  lemma SwitchesMoves(s: Sched, e: Event)
    requires IsSched(s) && !e.Start?
    ensures !Switches(s, e) ==> Happen(s, e).cur == s.cur
    ensures Switches(s, e) ==> s.cur >= 0 && Happen(s, e).cur >= 0
  {
    var c := Calls(s, e);
    if c.Some? { NextReadyIs(c.value.procs[s.cur := Preempt(c.value.procs[s.cur])], s.cur, 1); }
  }

  /** Each return answers the departure in the same place; one departure may be open. */
  ghost predicate Answered(l: seq<Moment>, r: seq<Moment>) {
    && |r| <= |l| <= |r| + 1
    && forall k | 0 <= k < |r| :: r[k].cpu == Return(l[k].cpu, l[k].mem)
  }

  lemma AnsweredNext(l: seq<Moment>, r: seq<Moment>, l0: Moment, r0: Moment)
    requires Answered(l, r) && r0.cpu == Return(l0.cpu, l0.mem)
    ensures Answered([l0] + l, [r0] + r)
  {
  }

  lemma Unroll(y: System, moves: seq<Move>, i: nat, left: seq<Moment>)
    requires Parked(y, i, left) && moves != []
    requires Resumes(y, moves[0], i) ==> left + LeftBy(y, moves[0], i) != []
    ensures var m, y1 := moves[0], Step(y, moves[0]);
      var l, l1, r1 := left + LeftBy(y, m, i), Left(y, m, i, left) + Leavings(y1, moves[1..], i),
          Returns(y1, moves[1..], i);
      && left + Leavings(y, moves, i) == (if Resumes(y, m, i) then [l[0]] + l1 else l1)
      && Returns(y, moves, i) == (if Resumes(y, m, i) then [Moment(y1.h.cpu, y1.h.mem)] + r1 else r1)
  {
    assert IsSystem(y);
    hide Step, Resumes, LeftBy, Parked;
    var m, y1 := moves[0], Step(y, moves[0]);
    Shift(left, LeftBy(y, m, i), Leavings(y1, moves[1..], i));
    assert Resumes(y, m, i) ==> ReturnedBy(y, m, i) == [Moment(y1.h.cpu, y1.h.mem)];
    assert !Resumes(y, m, i) ==> ReturnedBy(y, m, i) + Returns(y1, moves[1..], i) == Returns(y1, moves[1..], i);
  }

  lemma Shift(left: seq<Moment>, gone: seq<Moment>, later: seq<Moment>)
    ensures var l := left + gone;
      && left + (gone + later) == l + later
      && (l != [] ==> left + (gone + later) == [l[0]] + (l[1..] + later))
  {
    var l := left + gone;
    assert left + (gone + later) == l + later;
    if l != [] { assert l + later == [l[0]] + (l[1..] + later); }
  }

  /** Every return is to the oldest departure not yet returned from, starting with what is in
      the context of a process that is not current. */
  lemma {:induction false} RunParked(y: System, moves: seq<Move>, i: nat, left: seq<Moment>)
    requires Parked(y, i, left)
    ensures Answered(left + Leavings(y, moves, i), Returns(y, moves, i))
    decreases moves
  {
    if moves == [] {
      assert left + [] == left;
    } else {
      hide Step, Leaves, Resumes, LeftBy, ReturnedBy, Left, Answered;
      var m, y1 := moves[0], Step(y, moves[0]);
      StepParked(y, m, i, left);
      RunParked(y1, moves[1..], i, Left(y, m, i, left));
      Unroll(y, moves, i, left);
      if Resumes(y, m, i) {
        var l := left + LeftBy(y, m, i);
        AnsweredNext(Left(y, m, i, left) + Leavings(y1, moves[1..], i), Returns(y1, moves[1..], i),
                     l[0], Moment(y1.h.cpu, y1.h.mem));
      }
    }
  }

  /** Resumption: over any run, however the scheduler interleaves the processes, each time a
      process is chosen again it goes on with the registers, the stack pointer and the return
      address of its own last call of switch_context, as if that call had simply returned. */
  lemma Resumption(y: System, moves: seq<Move>)
    requires IsSystem(y) && y.s.cur >= 0 && y.s.procs[y.s.cur].state != Unused
    ensures var l, r := Leavings(y, moves, y.s.cur), Returns(y, moves, y.s.cur);
      && |r| <= |l| <= |r| + 1
      && forall k | 0 <= k < |r| :: r[k].cpu == Return(l[k].cpu, l[k].mem)
  {
    RunParked(y, moves, y.s.cur, []);
    assert [] + Leavings(y, moves, y.s.cur) == Leavings(y, moves, y.s.cur);
  }

  // --- stacks ---------------------------------------------------------------------------------------

  /** Saved stack pointers point into the stack of their process or to memory that belongs to
      no stack, as those of new processes do. */
  ghost predicate Docked(y: System, owner: nat -> int) {
    && IsSystem(y)
    && forall j | 0 <= j < PROC_MAX && y.s.procs[j].state != Unused ::
         owner(y.h.ctx[j].rsp) == j || owner(y.h.ctx[j].rsp) == -1
  }

  /** Processes leave each other's stacks alone, and call switch_context on their own or on one
      that nobody else uses, as the boot stack is. */
  ghost predicate Disciplined(y: System, m: Move, owner: nat -> int)
    requires IsSystem(y)
  {
    match m
    case Op(e) =>
      !e.Start? && Switches(y.s, e) ==> owner(y.h.cpu.rsp) == y.s.cur || owner(y.h.cpu.rsp) == -1
    case Born(slot, p, first) => owner(first.rsp) == slot || owner(first.rsp) == -1
    case Work(cpu, mem) => forall a: nat :: owner(a) >= 0 && owner(a) != y.s.cur ==> Load(mem, a) == Load(y.h.mem, a)
  }

  ghost predicate AllDisciplined(y: System, moves: seq<Move>, owner: nat -> int)
    requires IsSystem(y)
    decreases moves
  {
    moves != [] ==> Disciplined(y, moves[0], owner) && AllDisciplined(Step(y, moves[0]), moves[1..], owner)
  }

  /** The stack of i is the same in both memories. */
  ghost predicate SameStack(mem: Memory, mem1: Memory, i: nat, owner: nat -> int) {
    forall a: nat :: owner(a) == i ==> Load(mem1, a) == Load(mem, a)
  }

  ghost predicate StackParked(y: System, i: nat, left: seq<Moment>, owner: nat -> int) {
    Parked(y, i, left) && (left != [] ==> SameStack(left[0].mem, y.h.mem, i, owner))
  }

  lemma StartFills(s: Sched, slot: nat, p: Proc)
    requires IsSched(s) && slot < PROC_MAX
    ensures Happen(s, Start(slot, p)) ==
            if s.procs[slot].state == Unused then s.(procs := s.procs[slot := p.(state := Ready)]) else s
  {
  }

  lemma StepDocked(y: System, m: Move, owner: nat -> int)
    requires Docked(y, owner) && Disciplined(y, m, owner) && (y.s.cur >= 0 ==> y.s.procs[y.s.cur].state != Unused)
    ensures Docked(Step(y, m), owner)
  {
    hide Happen, Switches, Load;
    match m {
      case Op(e) =>
        if !e.Start? { SlotsKept(y.s, e); SwitchesMoves(y.s, e); }
      case Born(slot, p, first) =>
        if slot < PROC_MAX { StartFills(y.s, slot, p); }
      case Work(cpu, mem) =>
    }
  }

  lemma StepStack(y: System, m: Move, i: nat, left: seq<Moment>, owner: nat -> int)
    requires StackParked(y, i, left, owner) && Docked(y, owner) && Disciplined(y, m, owner)
    ensures StackParked(Step(y, m), i, Left(y, m, i, left), owner)
    ensures var l := left + LeftBy(y, m, i);
      Resumes(y, m, i) ==> l != [] && SameStack(l[0].mem, Step(y, m).h.mem, i, owner)
  {
    StepParked(y, m, i, left);
    hide Happen, Switches;
    if m.Op? && !m.e.Start? { SlotsKept(y.s, m.e); SwitchesMoves(y.s, m.e); }
  }

  ghost predicate StacksAnswered(l: seq<Moment>, r: seq<Moment>, i: nat, owner: nat -> int) {
    && |r| <= |l| <= |r| + 1
    && forall k | 0 <= k < |r| :: SameStack(l[k].mem, r[k].mem, i, owner)
  }

  lemma StacksAnsweredNext(l: seq<Moment>, r: seq<Moment>, l0: Moment, r0: Moment, i: nat, owner: nat -> int)
    requires StacksAnswered(l, r, i, owner) && SameStack(l0.mem, r0.mem, i, owner)
    ensures StacksAnswered([l0] + l, [r0] + r, i, owner)
  {
    hide SameStack;
  }

  lemma {:induction false} RunStack(y: System, moves: seq<Move>, i: nat, left: seq<Moment>, owner: nat -> int)
    requires StackParked(y, i, left, owner) && Docked(y, owner) && AllDisciplined(y, moves, owner)
    ensures StacksAnswered(left + Leavings(y, moves, i), Returns(y, moves, i), i, owner)
    decreases moves
  {
    if moves == [] {
      assert left + [] == left;
    } else {
      hide Step, Leaves, Resumes, LeftBy, ReturnedBy, Left, StacksAnswered, SameStack, Docked, Disciplined;
      var m, y1 := moves[0], Step(y, moves[0]);
      StepStack(y, m, i, left, owner);
      StepDocked(y, m, owner);
      RunStack(y1, moves[1..], i, Left(y, m, i, left), owner);
      Unroll(y, moves, i, left);
      if Resumes(y, m, i) {
        var l := left + LeftBy(y, m, i);
        StacksAnsweredNext(Left(y, m, i, left) + Leavings(y1, moves[1..], i), Returns(y1, moves[1..], i), l[0],
                           Moment(y1.h.cpu, y1.h.mem), i, owner);
      }
    }
  }

  /** Each time a process is chosen again its whole stack is as it left it, provided that the
      others leave it alone: the word that switch_context writes is the one it read. */
  lemma StackPreserved(y: System, moves: seq<Move>, owner: nat -> int)
    requires IsSystem(y) && y.s.cur >= 0 && y.s.procs[y.s.cur].state != Unused
    requires Docked(y, owner) && AllDisciplined(y, moves, owner)
    ensures var i := y.s.cur;
      var l, r := Leavings(y, moves, i), Returns(y, moves, i);
      && |r| <= |l| <= |r| + 1
      && forall k | 0 <= k < |r| :: SameStack(l[k].mem, r[k].mem, i, owner)
  {
    RunStack(y, moves, y.s.cur, [], owner);
    assert [] + Leavings(y, moves, y.s.cur) == Leavings(y, moves, y.s.cur);
  }
}

/** The stacks and first contexts that proc_create hands out. */
module KernelStacks {
  import opened Scheduler
  import opened ProcCreation
  import opened Contexts
  import HB = HeapBlocks

  /** The number of the kernel stack in which the word at an address lies, -1 for other memory. */
  function Owner(a: nat): int {
    if a < HB.HEAP_START then -1
    else
      var number, off := (a - HB.HEAP_START) / STEP, (a - HB.HEAP_START) % STEP;
      if number < PROC_MAX && HB.HEADER <= off && off + 8 <= STEP then number else -1
  }

  /** Multiples of the 16408 bytes that a stack and its header take. */
  lemma SlotAt(x: nat, i: nat)
    ensures x / STEP == i <==> i * STEP <= x < (i + 1) * STEP
    ensures x / STEP == i ==> x % STEP == x - i * STEP
  {
    assert STEP == 16408;
    assert x == x / 16408 * 16408 + x % 16408;
  }

  /** The context that proc_create prepares: the trampoline gets the entry point in r12 and the
      top of the kernel stack, kernel_rsp, as its stack pointer. */
  function FirstContext(entry: nat, trampoline: nat, top: nat): Context {
    Context(0, 0, 0, entry, 0, 0, trampoline, top)
  }

  lemma StackWords(number: nat, a: nat)
    requires number < PROC_MAX
    ensures var top := StackAt(number + 1);
      (Owner(a) == number <==> top - KSTACK_SIZE <= a && a + 8 <= top) && Owner(top) == -1
  {
    if a >= HB.HEAP_START { SlotAt(a - HB.HEAP_START, number); }
    SlotAt((number + 1) * STEP, number + 1);
  }

  lemma StackNumber(m: Machine, kinds: seq<bool>, i: nat)
    requires Filled(m, kinds) && i < |kinds| && kinds[i]
    ensures OnHeap(kinds[..i]) < OnHeap(kinds) <= PROC_MAX
    ensures m.s.procs[i].kernelRsp == StackAt(OnHeap(kinds[..i]) + 1)
  {
    hide StackAt, StackBlocks, OnHeap;
    OnHeapGrows(kinds, i, |kinds|);
    assert kinds[..|kinds|] == kinds;
  }

  /** The slot whose kernel stack holds the word at an address, -1 for other memory. */
  ghost function SlotOwner(kinds: seq<bool>, a: nat): int {
    if exists i: nat | i < |kinds| :: HasStack(kinds, i, Owner(a))
    then var i: nat :| i < |kinds| && HasStack(kinds, i, Owner(a)); i
    else -1
  }

  predicate HasStack(kinds: seq<bool>, i: nat, number: int)
    requires i < |kinds|
  {
    kinds[i] && OnHeap(kinds[..i]) == number
  }

  lemma OneSlot(kinds: seq<bool>, i: nat, j: nat, number: int)
    requires i < |kinds| && j < |kinds| && HasStack(kinds, i, number) && HasStack(kinds, j, number)
    ensures i == j
  {
    if i < j { OnHeapGrows(kinds, i, j); }
    if j < i { OnHeapGrows(kinds, j, i); }
  }

  /** Whatever processes were created and scheduled, each word of a kernel stack on the heap
      belongs to one slot, and the first stack pointer of a process, just past its stack, to
      none. */
  lemma StackOwners(m: Machine, kinds: seq<bool>, i: nat, a: nat)
    requires Filled(m, kinds) && i < |kinds| && kinds[i]
    ensures var top := m.s.procs[i].kernelRsp;
      (SlotOwner(kinds, a) == i <==> top - KSTACK_SIZE <= a && a + 8 <= top) && SlotOwner(kinds, top) == -1
  {
    StackNumber(m, kinds, i);
    hide OnHeap, Owner, StackBlocks, StackAt, Filled;
    StackWords(OnHeap(kinds[..i]), a);
    if Owner(a) == OnHeap(kinds[..i]) {
      assert HasStack(kinds, i, Owner(a));
      OneSlot(kinds, i, SlotOwner(kinds, a), Owner(a));
    }
  }

  /** With these owners: each time a process of proc_create is chosen again, every word of its
      16 KB stack is as it left it, if the others leave that stack alone. */
  lemma KernelStackPreserved(m: Machine, kinds: seq<bool>, owner: nat -> int,
      y: System, moves: seq<Move>, k: nat, a: nat)
    requires forall w: nat :: owner(w) == SlotOwner(kinds, w)
    requires Filled(m, kinds) && IsSystem(y) && 0 <= y.s.cur < |kinds| && kinds[y.s.cur]
    requires y.s.procs[y.s.cur].state != Unused
    requires Docked(y, owner) && AllDisciplined(y, moves, owner)
    requires var top := m.s.procs[y.s.cur].kernelRsp; top - KSTACK_SIZE <= a && a + 8 <= top
    ensures var l, r := Leavings(y, moves, y.s.cur), Returns(y, moves, y.s.cur);
      k < |r| ==> k < |l| && Load(r[k].mem, a) == Load(l[k].mem, a)
  {
    StackOwners(m, kinds, y.s.cur, a);
    assert owner(a) == y.s.cur;
    StackPreserved(y, moves, owner);
  }

  lemma BlockAt(blocks: seq<HB.Block>, n: nat, k: nat)
    requires StackBlocks(blocks, n)
    ensures (exists b | b in blocks :: b.addr == StackAt(k)) <==> k < n
  {
    if k < n {
      assert blocks[n - 1 - k] in blocks;
    } else if b :| b in blocks && b.addr == StackAt(k) {
      var j :| 0 <= j < |blocks| && blocks[j] == b;
      StepsDiffer(n - 1 - j, k);
    }
  }

  lemma StepsDiffer(i: nat, j: nat)
    requires i < j
    ensures StackAt(i) < StackAt(j)
  {
    StepsGrow(i + 1, j);
  }

  /** The first stack pointer of a process is the address of a block, the one of the next stack,
      exactly when a later process has its stack on the heap; until then it is the bump pointer. */
  lemma NextHeader(m: Machine, kinds: seq<bool>, i: nat)
    requires Filled(m, kinds) && i < |kinds| && kinds[i]
    ensures var top, number := m.s.procs[i].kernelRsp, OnHeap(kinds[..i]);
      && ((exists b | b in m.heap.blocks :: b.addr == top) <==> number + 1 < OnHeap(kinds))
      && (top == m.heap.ptr <==> number + 1 == OnHeap(kinds))
  {
    hide OnHeap, StackBlocks, StackAt;
    StackNumber(m, kinds, i);
    var number := OnHeap(kinds[..i]);
    BlockAt(m.heap.blocks, OnHeap(kinds), number + 1);
    if number + 1 < OnHeap(kinds) { StepsDiffer(number + 1, OnHeap(kinds)); }
  }

  /** So the first dispatch of a process stores the trampoline's address there, over the size in
      the header of the next stack's block if there is one, and leaves the stack pointer one
      word above, so that the trampoline's call keeps its return address in the same place. */
  lemma FirstDispatch(m: Machine, kinds: seq<bool>, i: nat, h: Hart, prev: nat, entry: nat, trampoline: nat)
    requires Filled(m, kinds) && i < |kinds| && kinds[i] && i < |h.ctx| && prev < |h.ctx| && prev != i
    requires h.ctx[i] == FirstContext(entry, trampoline, m.s.procs[i].kernelRsp)
    ensures var h1, top := Switch(h, prev, i), m.s.procs[i].kernelRsp;
      && h1.cpu.rip == trampoline && h1.cpu.r12 == entry && h1.mem == h.mem[top := trampoline]
      && h1.cpu.rsp - 8 == top
    ensures (exists b | b in m.heap.blocks :: b.addr == m.s.procs[i].kernelRsp)
            <==> OnHeap(kinds[..i]) + 1 < OnHeap(kinds)
  {
    hide OnHeap, StackBlocks;
    NextHeader(m, kinds, i);
    StackNumber(m, kinds, i);
    StepsGrow(OnHeap(kinds[..i]) + 1, PROC_MAX);
  }

  /** In the other direction, a proc_create after the dispatch of the last such process puts the
      header of its block on that return address. */
  lemma ReturnOverwritten(m: Machine, kinds: seq<bool>, i: nat)
    requires Filled(m, kinds) && i < |kinds| < PROC_MAX && kinds[i] && OnHeap(kinds[..i]) + 1 == OnHeap(kinds)
    ensures Create(m).1.Some? && Create(m).0.heap.blocks[..1] == [HB.Block(m.s.procs[i].kernelRsp, KSTACK_SIZE, false)]
  {
    hide OnHeap, StackBlocks, StackAt;
    NextHeader(m, kinds, i);
    CreateFilled(m, kinds);
    StackGranted(m.heap.blocks, OnHeap(kinds));
    FirstUnusedIs(m.s.procs, 0);
  }
}

/** kernel/arch/x86_64/context.asm, instruction by instruction. */
module ContextSwitch {
  import opened Bits
  import opened Contexts

  class Core {
    var r15: nat
    var r14: nat
    var r13: nat
    var r12: nat
    var rbx: nat
    var rbp: nat
    var rax: nat
    var rip: nat
    var rsp: nat
    var mem: Memory
    const contexts: array<Context>

    ghost function State(): Hart
      reads this, contexts
    {
      Hart(Cpu(r15, r14, r13, r12, rbx, rbp, rip, rsp), mem, contexts[..])
    }

    /** switch_context with the contexts rdi and rsi point to. */
    method SwitchContext(rdi: nat, rsi: nat)
      requires rdi < contexts.Length && rsi < contexts.Length
      modifies this, contexts
      ensures State() == Switch(old(State()), rdi, rsi)
    {
      contexts[rdi] := contexts[rdi].(r15 := r15);
      contexts[rdi] := contexts[rdi].(r14 := r14);
      contexts[rdi] := contexts[rdi].(r13 := r13);
      contexts[rdi] := contexts[rdi].(r12 := r12);
      contexts[rdi] := contexts[rdi].(rbx := rbx);
      contexts[rdi] := contexts[rdi].(rbp := rbp);
      rax := Load(mem, rsp);
      contexts[rdi] := contexts[rdi].(rip := rax);
      contexts[rdi] := contexts[rdi].(rsp := rsp);
      assert contexts[..] == old(contexts[..])[rdi := Saved(old(State()).cpu, mem)];
      r15 := contexts[rsi].r15;
      r14 := contexts[rsi].r14;
      r13 := contexts[rsi].r13;
      r12 := contexts[rsi].r12;
      rbx := contexts[rsi].rbx;
      rbp := contexts[rsi].rbp;
      rsp := contexts[rsi].rsp;
      rax := contexts[rsi].rip;
      mem := mem[rsp := rax];
      Ret();
    }

    method Ret()
      modifies this`rip, this`rsp
      ensures rip == Load(mem, old(rsp)) && rsp == (old(rsp) + 8) % TWO64
    {
      rip := Load(mem, rsp);
      rsp := (rsp + 8) % TWO64;
    }
  }
}
