/** No wakeup is lost: how long a process inside ipc_recv can go without a message that is
    in its queue, counted in calls of schedule, ticks and sleeps. */
module MessageLiveness {
  import opened Options
  import opened SetSizes
  import opened Scheduler
  import opened Messages
  import opened MessageRuns

  /** Process r is inside ipc_recv with a message in its queue. */
  ghost predicate Pending(k: K, r: nat) {
    && Inv(k) && Safe(k.m.s) && k.m.s.cur >= 0 && r < PROC_MAX
    && (k.pc[r] == Gap || k.pc[r] == Receiving) && k.m.queues[r] != []
    && (k.m.s.procs[r].state == Ready || k.m.s.procs[r].state == Running || k.m.s.procs[r].state == Sleeping)
  }

  /** What a step asks of the scheduler. */
  function Ask(k: K, e: MessageRuns.Event): Option<Scheduler.Event>
    requires IsK(k) && Enabled(k, e)
  {
    match e
    case Enqueue => Some(WakeupOf(k.pc[k.m.s.cur].target))
    case Nap => Some(SleepFor(10))
    case Other(oe) => Some(oe)
    case _ => None
  }

  /** One if the step calls schedule while r is in the given state, else zero. */
  function CallsWhile(k: K, e: MessageRuns.Event, r: nat, state: PState): nat
    requires IsK(k) && Enabled(k, e) && r < PROC_MAX
  {
    match Ask(k, e)
    case None => 0
    case Some(oe) =>
      match Calls(k.m.s, oe)
      case None => 0
      case Some(s) => if IsSched(s) && s.procs[r].state == state then 1 else 0
  }

  /** One if the step is a timer tick while r sleeps. */
  function TickWhile(k: K, e: MessageRuns.Event, r: nat): nat
    requires IsK(k) && r < PROC_MAX
  {
    if e.Other? && e.e.Timer? && k.m.s.procs[r].state == Sleeping then 1 else 0
  }

  function NapOf(k: K, e: MessageRuns.Event, r: nat): nat
    requires IsK(k)
  {
    if e.Nap? && k.m.s.cur == r then 1 else 0
  }

  // --- what is left to wait for ----------------------------------------------------------------

  /** Steps of the round robin until it comes to r; 64 when r has yet to be woken. */
  function Turns(s: Sched, r: nat): nat
    requires IsSched(s) && r < PROC_MAX
  {
    match s.procs[r].state
    case Ready => Dist(s.cur, r)
    case Running => 0
    case _ => 64
  }

  /** A process that has seen the queue empty goes round once more. */
  function Budget(k: K, r: nat): nat
    requires IsK(k) && r < PROC_MAX
  {
    Turns(k.m.s, r) + if k.pc[r] == Gap then 64 else 0
  }

  function TickBudget(k: K, r: nat): nat
    requires IsK(k) && r < PROC_MAX
  {
    (if k.m.s.procs[r].state == Sleeping then k.m.s.procs[r].sleepTicks else 0) + if k.pc[r] == Gap then 1 else 0
  }

  function NapBudget(k: K, r: nat): nat
    requires IsK(k) && r < PROC_MAX
  {
    if k.pc[r] == Gap then 1 else 0
  }

  /** A call of schedule brings a READY slot at least one step closer, and costs a RUNNING
      one at most 63. */
  lemma ScheduleTurns(s: Sched, r: nat)
    requires Safe(s) && s.cur >= 0 && r < PROC_MAX
    requires s.procs[r].state == Ready || s.procs[r].state == Running || s.procs[r].state == Sleeping
    ensures var s1 := Schedule(s);
      && (s.procs[r].state == Sleeping ==> s1.procs[r] == s.procs[r])
      && (s.procs[r].state != Sleeping ==> s1.procs[r].state == Ready || s1.procs[r].state == Running)
      && Turns(s1, r) + (if s.procs[r].state == Ready then 1 else 0)
           <= Turns(s, r) + (if s.procs[r].state == Running then 63 else 0)
  {
    ScheduleIs(s);
    hide Schedule;
    if s.procs[r].state == Ready { assert Runnable(s, r); }
    if s.procs[r].state == Running { assert Runnable(s, r); }
  }

  /** What a scheduler operation of another process, or of the timer, does to r. */
  lemma HappenTurns(s: Sched, e: Scheduler.Event, r: nat)
    requires Safe(s) && s.cur >= 0 && r < PROC_MAX
    requires s.procs[r].state == Ready || s.procs[r].state == Running || s.procs[r].state == Sleeping
    requires e.SleepFor? || e.ExitWith? ==> s.cur != r
    ensures var s1, ticks := Happen(s, e), (p: Proc) => if p.state == Sleeping then p.sleepTicks else 0;
      && s1.cur >= 0
      && (s1.procs[r].state == Ready || s1.procs[r].state == Running || s1.procs[r].state == Sleeping)
      && (s.procs[r].state != Sleeping ==> s1.procs[r].state != Sleeping)
      && ticks(s1.procs[r]) + (if e.Timer? && s.procs[r].state == Sleeping then 1 else 0) <= ticks(s.procs[r])
      && var c := Calls(s, e);
         Turns(s1, r) + (if c.Some? && c.value.procs[r].state == Ready then 1 else 0)
           <= Turns(s, r) + (if c.Some? && c.value.procs[r].state == Running then 63 else 0)
  {
    var c := Calls(s, e);
    if c.Some? {
      CallsSafe(s, e);
      ScheduleTurns(c.value, r);
      ScheduleIs(c.value);
    }
  }

  /** ipc_recv's own sleep: one tick, and not before the next call of schedule. */
  lemma NapTurns(s: Sched)
    requires Safe(s) && s.cur >= 0
    ensures var s1 := Happen(s, SleepFor(10));
      && s1.cur >= 0 && s1.procs[s.cur].state == Sleeping && s1.procs[s.cur].sleepTicks == 1
  {
    hide Schedule;
    var s0 := Calls(s, SleepFor(10)).value;
    CallsSafe(s, SleepFor(10));
    ScheduleTurns(s0, s.cur);
    ScheduleIs(s0);
  }

  /** What one step leaves to wait for, less what has just been waited for. */
  ghost predicate Spends(k: K, e: MessageRuns.Event, r: nat, k1: K)
    requires IsK(k) && IsK(k1) && Enabled(k, e) && r < PROC_MAX
  {
    && Budget(k1, r) + CallsWhile(k, e, r, Ready) <= Budget(k, r) + 63 * CallsWhile(k, e, r, Running)
    && TickBudget(k1, r) + TickWhile(k, e, r) <= TickBudget(k, r)
    && NapBudget(k1, r) + NapOf(k, e, r) <= NapBudget(k, r)
  }

  lemma PendingNap(k: K, r: nat)
    requires Pending(k, r) && Enabled(k, Nap)
    ensures Pending(Step(k, Nap), r) && Spends(k, Nap, r, Step(k, Nap))
  {
    StepInv(k, Nap);
    hide Schedule, HoldsNode, EmptySlot, Accounted, Queued, SendBegin, NextReady;
    var s := k.m.s;
    HappenSafe(s, SleepFor(10));
    if s.cur == r { NapTurns(s); } else { HappenTurns(s, SleepFor(10), r); }
  }

  lemma PendingOther(k: K, oe: Scheduler.Event, r: nat)
    requires Pending(k, r) && Enabled(k, MessageRuns.Other(oe))
    ensures var e := MessageRuns.Other(oe); Pending(Step(k, e), r) && Spends(k, e, r, Step(k, e))
  {
    StepInv(k, MessageRuns.Other(oe));
    hide Schedule, HoldsNode, EmptySlot, Accounted, Queued, SendBegin, NextReady, CountAll, CountDown;
    HappenSafe(k.m.s, oe);
    HappenTurns(k.m.s, oe, r);
  }

  lemma PendingEnqueue(k: K, r: nat)
    requires Pending(k, r) && Enabled(k, Enqueue)
    ensures Pending(Step(k, Enqueue), r) && Spends(k, Enqueue, r, Step(k, Enqueue))
  {
    StepInv(k, Enqueue);
    hide Schedule, HoldsNode, EmptySlot, Accounted, Queued, SendBegin, NextReady, CountAll, CountDown;
    var wake := WakeupOf(k.pc[k.m.s.cur].target);
    HappenTurns(k.m.s, wake, r);
    HappenSafe(k.m.s, wake);
  }

  /** A step that does not hand r a message leaves it waiting, with no more to wait for than
      before, less what it has just waited. */
  lemma PendingStep(k: K, e: MessageRuns.Event, r: nat)
    requires Pending(k, r) && Enabled(k, e) && GotBy(k, e, r) == []
    ensures Pending(Step(k, e), r) && Spends(k, e, r, Step(k, e))
  {
    hide HoldsNode, EmptySlot, Accounted, Queued, SendBegin;
    StepInv(k, e);
    match e {
      case Send(_, _, _, _) => SendBeginQueued(k.m, e.dst, e.typ, e.data, e.len);
      case Enqueue => PendingEnqueue(k, r);
      case Check(_) =>
      case Nap => PendingNap(k, r);
      case Other(oe) => PendingOther(k, oe, r);
    }
  }

  // --- runs ---------------------------------------------------------------------------------------

  /** Calls of schedule over a run while r is in the given state. */
  ghost function AllCalls(k: K, events: seq<MessageRuns.Event>, r: nat, state: PState): nat
    requires Inv(k) && Possible(k, events) && r < PROC_MAX
    decreases events
  {
    if events == [] then 0
    else
      StepInv(k, events[0]);
      CallsWhile(k, events[0], r, state) + AllCalls(Step(k, events[0]), events[1..], r, state)
  }

  ghost function AllTicks(k: K, events: seq<MessageRuns.Event>, r: nat): nat
    requires Inv(k) && Possible(k, events) && r < PROC_MAX
    decreases events
  {
    if events == [] then 0
    else
      StepInv(k, events[0]);
      TickWhile(k, events[0], r) + AllTicks(Step(k, events[0]), events[1..], r)
  }

  ghost function AllNaps(k: K, events: seq<MessageRuns.Event>, r: nat): nat
    requires Inv(k) && Possible(k, events) && r < PROC_MAX
    decreases events
  {
    if events == [] then 0
    else
      StepInv(k, events[0]);
      NapOf(k, events[0], r) + AllNaps(Step(k, events[0]), events[1..], r)
  }

  lemma {:induction false} RunPending(k: K, events: seq<MessageRuns.Event>, r: nat)
    requires Pending(k, r) && Possible(k, events) && Got(k, events, r) == []
    ensures Pending(MessageRuns.Run(k, events), r)
    ensures AllCalls(k, events, r, Ready) <= Budget(k, r) + 63 * AllCalls(k, events, r, Running)
    ensures TickBudget(MessageRuns.Run(k, events), r) + AllTicks(k, events, r) <= TickBudget(k, r)
    ensures NapBudget(MessageRuns.Run(k, events), r) + AllNaps(k, events, r) <= NapBudget(k, r)
    decreases events
  {
    hide Pending, Budget, TickBudget, NapBudget, CallsWhile, TickWhile, NapOf, GotBy;
    if events != [] {
      PendingInv(k, r);
      var e, rest := events[0], events[1..];
      StepInv(k, e);
      PendingStep(k, e, r);
      RunPending(Step(k, e), rest, r);
    }
  }

  lemma PendingInv(k: K, r: nat)
    requires Pending(k, r)
    ensures Inv(k) && r < PROC_MAX
  {
  }

  /** A message wakes its receiver at once.  From the moment it is enqueued for a process in
      the loop of ipc_recv, asleep or not, until that process has received, the process is
      never asleep: no tick is waited for, there is no further sleep, and it is READY in no
      more than 64 calls of schedule, 63 more for each call while it is RUNNING. */
  lemma SendWakes(k: K, events: seq<MessageRuns.Event>, r: nat)
    requires Inv(k) && Safe(k.m.s) && Enabled(k, Enqueue) && r < PROC_MAX
    requires k.pc[k.m.s.cur].target == r && k.pc[r] == Receiving
    requires k.m.s.procs[r].state == Ready || k.m.s.procs[r].state == Running || k.m.s.procs[r].state == Sleeping
    requires Inv(Step(k, Enqueue)) && Possible(Step(k, Enqueue), events) && Got(Step(k, Enqueue), events, r) == []
    ensures var k1, state := Step(k, Enqueue), MessageRuns.Run(Step(k, Enqueue), events).m.s.procs[r].state;
      && (state == Ready || state == Running) && AllTicks(k1, events, r) == 0 && AllNaps(k1, events, r) == 0
      && AllCalls(k1, events, r, Ready) <= 64 + 63 * AllCalls(k1, events, r, Running)
  {
    var k1 := Step(k, Enqueue);
    var node := k.pc[k.m.s.cur].node;
    SendEndWakes(k.m, r, node);
    HappenSafe(k.m.s, WakeupOf(r));
    assert k1.m.queues[r] == k.m.queues[r] + [node];
    hide HoldsNode, EmptySlot, Accounted, Queued;
    assert Pending(k1, r) && TickBudget(k1, r) == 0 && Budget(k1, r) <= 64;
    RunPending(k1, events, r);
  }

  // --- with an idle process -----------------------------------------------------------------------

  /** With an idle process that never sleeps or exits, the current process is RUNNING, so a
      process inside ipc_recv is awake in the gap and otherwise sleeps for one tick at most. */
  ghost predicate Punctual(k: K, idle: nat) {
    && Inv(k) && Idling(k.m.s, idle)
    && forall r | 0 <= r < PROC_MAX :: Timely(k, r)
  }

  predicate Timely(k: K, r: nat)
    requires IsK(k) && r < PROC_MAX
  {
    var p := k.m.s.procs[r];
    && (k.pc[r] == Gap ==> p.state == Ready || p.state == Running)
    && (k.pc[r] == Receiving ==> p.state == Ready || p.state == Running || (p.state == Sleeping && p.sleepTicks <= 1))
  }

  /** An empty pool and a running idle process are such a state. */
  lemma StartPunctual(k: K, idle: nat)
    requires IsK(k) && Idling(k.m.s, idle)
    requires forall i | 0 <= i < POOL_SIZE :: !k.m.used[i]
    requires forall p | 0 <= p < PROC_MAX :: k.m.queues[p] == [] && k.pc[p] == Outside
    ensures Punctual(k, idle)
  {
    EmptyInv(k);
  }

  /** The idle process itself does not sleep or exit in this step. */
  predicate SparesIdle(k: K, e: MessageRuns.Event, idle: nat)
    requires IsK(k)
  {
    k.m.s.cur == idle ==> !e.Nap? && !(e.Other? && (e.e.SleepFor? || e.e.ExitWith?))
  }

  lemma StepTimely(k: K, e: MessageRuns.Event, idle: nat, r: nat)
    requires Punctual(k, idle) && Enabled(k, e) && SparesIdle(k, e, idle) && r < PROC_MAX
    ensures Timely(Step(k, e), r)
  {
    hide Schedule, HoldsNode, EmptySlot, Accounted, Queued, SendBegin, NextReady, CountAll, CountDown, Turns, Calls;
    assert Timely(k, r);
    var s := k.m.s;
    if k.pc[r] == Gap || k.pc[r] == Receiving {
      match e {
        case Send(_, _, _, _) => SendBeginQueued(k.m, e.dst, e.typ, e.data, e.len);
        case Enqueue => HappenTurns(s, WakeupOf(k.pc[s.cur].target), r);
        case Check(_) =>
        case Nap => if s.cur == r { NapTurns(s); } else { HappenTurns(s, SleepFor(10), r); }
        case Other(oe) => HappenTurns(s, oe, r);
      }
    }
  }

  lemma StepPunctual(k: K, e: MessageRuns.Event, idle: nat)
    requires Punctual(k, idle) && Enabled(k, e) && SparesIdle(k, e, idle)
    ensures Punctual(Step(k, e), idle)
  {
    StepInv(k, e);
    forall r | 0 <= r < PROC_MAX ensures Timely(Step(k, e), r) { StepTimely(k, e, idle, r); }
    hide Timely, HoldsNode, EmptySlot, Accounted, Queued;
    match e {
      case Send(_, _, _, _) => SendBeginQueued(k.m, e.dst, e.typ, e.data, e.len);
      case Enqueue => HappenIdling(k.m.s, idle, WakeupOf(k.pc[k.m.s.cur].target));
      case Check(_) =>
      case Nap => HappenIdling(k.m.s, idle, SleepFor(10));
      case Other(oe) => HappenIdling(k.m.s, idle, oe);
    }
  }

  ghost predicate IdleSpared(k: K, events: seq<MessageRuns.Event>, idle: nat)
    requires Inv(k) && Possible(k, events)
    decreases events
  {
    events != [] ==>
      SparesIdle(k, events[0], idle) && (StepInv(k, events[0]); IdleSpared(Step(k, events[0]), events[1..], idle))
  }

  lemma {:induction false} RunPunctual(k: K, events: seq<MessageRuns.Event>, idle: nat)
    requires Punctual(k, idle) && Possible(k, events) && IdleSpared(k, events, idle)
    ensures Punctual(MessageRuns.Run(k, events), idle)
    decreases events
  {
    if events != [] {
      hide Punctual;
      StepInv(k, events[0]);
      StepPunctual(k, events[0], idle);
      RunPunctual(Step(k, events[0]), events[1..], idle);
    }
  }

  /** No lost wakeup.  Let a message be in the queue of a process inside ipc_recv, even one
      that came between the empty check and the sleep.  Any run in which schedule is called
      more than 128 times while the process is READY (63 times more for each call while it is
      RUNNING), or more than one tick comes while it sleeps, or it goes to sleep more than
      once, delivers the first of the queued messages. */
  lemma NoLostWakeup(k: K, events: seq<MessageRuns.Event>, idle: nat, r: nat)
    requires Punctual(k, idle) && Possible(k, events)
    requires r < PROC_MAX && (k.pc[r] == Gap || k.pc[r] == Receiving) && k.m.queues[r] != []
    requires
      || AllCalls(k, events, r, Ready) > 128 + 63 * AllCalls(k, events, r, Running)
      || AllTicks(k, events, r) > 1
      || AllNaps(k, events, r) > 1
    ensures Got(k, events, r) != [] && Got(k, events, r)[0] == LettersIn(k.m, r)[0]
  {
    assert Timely(k, r);
    assert Budget(k, r) <= 128;
    if Got(k, events, r) == [] { RunPending(k, events, r); }
    Fifo(k, events, r);
    assert (LettersIn(k.m, r) + Sent(k, events, r))[0] == LettersIn(k.m, r)[0];
  }

  // --- mail for those who have exited --------------------------------------------------------------

  lemma ZombieStep(k: K, e: MessageRuns.Event, idle: nat, r: nat)
    requires Punctual(k, idle) && Enabled(k, e) && SparesIdle(k, e, idle)
    requires r < PROC_MAX && k.m.s.procs[r].state == Zombie
    ensures var k1 := Step(k, e);
      && k1.m.s.procs[r].state == Zombie && GotBy(k, e, r) == [] && k.m.queues[r] <= k1.m.queues[r]
  {
    hide Schedule, HoldsNode, EmptySlot, Accounted, Queued, Timely;
    var s := k.m.s;
    match e {
      case Send(_, _, _, _) => SendBeginQueued(k.m, e.dst, e.typ, e.data, e.len);
      case Enqueue => HappenIdling(s, idle, WakeupOf(k.pc[s.cur].target));
      case Check(_) =>
      case Nap => HappenIdling(s, idle, SleepFor(10));
      case Other(oe) => HappenIdling(s, idle, oe);
    }
  }

  /** With an idle process, an exited process never receives again: over every run, what is in
      its queue stays there, nodes and all, and what is sent to it joins it. */
  lemma {:induction false} ZombieMail(k: K, events: seq<MessageRuns.Event>, idle: nat, r: nat)
    requires Punctual(k, idle) && Possible(k, events) && IdleSpared(k, events, idle)
    requires r < PROC_MAX && k.m.s.procs[r].state == Zombie
    ensures var k1 := MessageRuns.Run(k, events);
      && k1.m.s.procs[r].state == Zombie && k.m.queues[r] <= k1.m.queues[r]
      && Got(k, events, r) == [] && LettersIn(k1.m, r) == LettersIn(k.m, r) + Sent(k, events, r)
    decreases events
  {
    PunctualInv(k, idle);
    Fifo(k, events, r);
    if events != [] {
      hide Punctual, GotBy, LettersIn, SentBy;
      StepInv(k, events[0]);
      ZombieStep(k, events[0], idle, r);
      StepPunctual(k, events[0], idle);
      ZombieMail(Step(k, events[0]), events[1..], idle, r);
    }
  }

  lemma PunctualInv(k: K, idle: nat)
    requires Punctual(k, idle)
    ensures Inv(k)
  {
  }

  /** Once the whole pool is in the queue of an exited process, no send succeeds any more. */
  lemma PoolLost(k: K, events: seq<MessageRuns.Event>, idle: nat, r: nat,
      dst: int, typ: nat, data: Option<seq<nat>>, len: nat)
    requires Punctual(k, idle) && Possible(k, events) && IdleSpared(k, events, idle)
    requires r < PROC_MAX && k.m.s.procs[r].state == Zombie && |k.m.queues[r]| == POOL_SIZE
    requires Buffered(data, len)
    ensures SendBegin(MessageRuns.Run(k, events).m, dst, typ, data, len).1.Failed?
  {
    ZombieMail(k, events, idle, r);
    var m := MessageRuns.Run(k, events).m;
    QueueFills(m, r);
    SendBeginErrors(m, dst, typ, data, len);
  }

  lemma QueueFills(m: Mail, r: nat)
    requires Queued(m) && r < PROC_MAX && |m.queues[r]| >= POOL_SIZE
    ensures forall i | 0 <= i < POOL_SIZE :: m.used[i]
  {
    var q := m.queues[r];
    ElementsCount(q);
    MarkedAtMost(m.used, POOL_SIZE);
    forall i | i in q ensures i in Marked(m.used, POOL_SIZE) {
      var a :| 0 <= a < |q| && q[a] == i;
    }
    assert Elements(q) <= Marked(m.used, POOL_SIZE);
    SubsetCount(Elements(q), Marked(m.used, POOL_SIZE));
    if i: nat :| i < POOL_SIZE && !m.used[i] {
      MarkedLess(m.used, POOL_SIZE, i);
    }
  }

  lemma {:induction false} MarkedLess(used: seq<bool>, n: nat, i: nat)
    requires i < n <= |used| && !used[i]
    ensures |Marked(used, n)| < n
  {
    assert Marked(used, n) == Marked(used, n - 1) + if used[n - 1] then {n - 1} else {};
    MarkedAtMost(used, n - 1);
    if i < n - 1 { MarkedLess(used, n - 1, i); }
  }
}
