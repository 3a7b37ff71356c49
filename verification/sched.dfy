/** The scheduler of kernel/proc/proc.c on values. */
module Scheduler {
  import opened Options
  import opened Bits

  const PROC_MAX: nat := 64
  const PIT_HZ: nat := 100

  datatype PState = Unused | Ready | Running | Sleeping | Waiting | Zombie

  datatype Proc = Proc(
    pid: int, ppid: int, state: PState, exitCode: int, sleepTicks: nat,
    kernelRsp: nat, isUser: bool, started: bool)

  /** The process table, and the slot current_proc points to, -1 when it is NULL. */
  datatype Sched = Sched(procs: seq<Proc>, cur: int)

  predicate IsSched(s: Sched) {
    |s.procs| == PROC_MAX && -1 <= s.cur < PROC_MAX
  }

  // --- schedule ----------------------------------------------------------------------------

  /** The round-robin search: the first READY slot among those n, n+1, ... steps after start. */
  function NextReady(procs: seq<Proc>, start: nat, n: nat): Option<nat>
    requires |procs| == PROC_MAX
    decreases PROC_MAX + 1 - n
  {
    if n > PROC_MAX then None
    else
      var idx := (start + n) % PROC_MAX;
      if procs[idx].state == Ready then Some(idx) else NextReady(procs, start, n + 1)
  }

  /** Steps from slot `from` to slot i, going round; a slot is 64 steps from itself. */
  function Dist(from: int, i: int): int {
    if i > from then i - from else i - from + PROC_MAX
  }

  function Preempt(p: Proc): Proc {
    if p.state == Running then p.(state := Ready) else p
  }

  function Dispatch(p: Proc): Proc {
    p.(state := Running, started := p.started || p.isUser)
  }

  function Schedule(s: Sched): (s1: Sched)
    requires IsSched(s)
    ensures IsSched(s1)
  {
    if s.cur < 0 then s
    else
      var procs := s.procs[s.cur := Preempt(s.procs[s.cur])];
      match NextReady(procs, s.cur, 1)
      case Some(i) => if i < PROC_MAX then Sched(procs[i := Dispatch(procs[i])], i) else s
      case None => s.(procs := procs)
  }

  lemma StepWraps(start: nat, n: nat)
    requires start < PROC_MAX && 1 <= n <= PROC_MAX
    ensures (start + n) % PROC_MAX < PROC_MAX && Dist(start, (start + n) % PROC_MAX) == n
  {
  }

  /** The search finds the READY slot that comes next in cyclic order, if there is one. */
  lemma {:induction false} NextReadyIs(procs: seq<Proc>, start: nat, n: nat)
    requires |procs| == PROC_MAX && start < PROC_MAX && 1 <= n <= PROC_MAX + 1
    ensures NextReady(procs, start, n).None? <==>
            forall i | 0 <= i < PROC_MAX && procs[i].state == Ready :: Dist(start, i) < n
    ensures NextReady(procs, start, n).Some? ==>
              var i := NextReady(procs, start, n).value;
              && i < PROC_MAX && procs[i].state == Ready && n <= Dist(start, i)
              && forall j | 0 <= j < PROC_MAX && procs[j].state == Ready && n <= Dist(start, j) ::
                   Dist(start, i) <= Dist(start, j)
    decreases PROC_MAX + 1 - n
  {
    if n <= PROC_MAX {
      StepWraps(start, n);
      NextReadyIs(procs, start, n + 1);
      var idx := (start + n) % PROC_MAX;
      forall i | 0 <= i < PROC_MAX && Dist(start, i) == n ensures i == idx {}
    }
  }

  lemma NextReadyStep(procs: seq<Proc>, start: nat, n: nat)
    requires |procs| == PROC_MAX
    ensures n > PROC_MAX ==> NextReady(procs, start, n) == None
    ensures n <= PROC_MAX ==>
              var idx := (start + n) % PROC_MAX;
              NextReady(procs, start, n) ==
              if procs[idx].state == Ready then Some(idx) else NextReady(procs, start, n + 1)
  {
  }

  lemma NoneReady(procs: seq<Proc>, start: nat)
    requires |procs| == PROC_MAX && start < PROC_MAX
    ensures NextReady(procs, start, 1).None? <==> forall i | 0 <= i < PROC_MAX :: procs[i].state != Ready
  {
    NextReadyIs(procs, start, 1);
  }

  lemma NearestReady(procs: seq<Proc>, start: nat)
    requires |procs| == PROC_MAX && start < PROC_MAX && NextReady(procs, start, 1).Some?
    ensures var i := NextReady(procs, start, 1).value;
      && i < PROC_MAX && procs[i].state == Ready
      && forall j | 0 <= j < PROC_MAX && procs[j].state == Ready :: Dist(start, i) <= Dist(start, j)
  {
    NextReadyIs(procs, start, 1);
  }

  predicate Runnable(s: Sched, i: int)
    requires IsSched(s) && 0 <= i < PROC_MAX
  {
    s.procs[i].state == Ready || (i == s.cur && s.procs[i].state == Running)
  }

  /** schedule runs the runnable slot that is next in cyclic order from the current one; the
      current slot itself comes last.  Without a runnable slot the current one goes on,
      whatever its state.  The chosen slot becomes RUNNING, and started if it is a user's; the
      slot that ran before becomes READY; all else stays. */
  lemma ScheduleIs(s: Sched)
    requires IsSched(s) && s.cur >= 0
    ensures var s1 := Schedule(s);
      && s1.cur >= 0
      && ((exists i | 0 <= i < PROC_MAX :: Runnable(s, i)) ==>
            var p := s.procs[s1.cur];
            && Runnable(s, s1.cur)
            && s1.procs[s1.cur] == p.(state := Running, started := p.started || p.isUser)
            && (forall j | 0 <= j < PROC_MAX && Runnable(s, j) :: Dist(s.cur, s1.cur) <= Dist(s.cur, j)))
      && ((forall i | 0 <= i < PROC_MAX :: !Runnable(s, i)) ==> s1 == s)
      && (forall i | 0 <= i < PROC_MAX && i != s1.cur :: s1.procs[i] ==
            if i == s.cur && s.procs[i].state == Running then s.procs[i].(state := Ready) else s.procs[i])
  {
    var procs := s.procs[s.cur := Preempt(s.procs[s.cur])];
    hide NextReady, Dist;
    NoneReady(procs, s.cur);
    forall i | 0 <= i < PROC_MAX ensures procs[i].state == Ready <==> Runnable(s, i) {}
    if NextReady(procs, s.cur, 1).None? {
      assert procs == s.procs;
    } else {
      NearestReady(procs, s.cur);
    }
  }

  // --- the other operations --------------------------------------------------------------------

  /** proc_sleep's tick count, in 64 bits. */
  function SleepTicks(ms: nat): (t: nat)
    ensures t >= 1
  {
    var t := (ms * PIT_HZ) % TWO64 / 1000;
    if t == 0 then 1 else t
  }

  /** The count is a tenth of the milliseconds, at least one, exactly as long as the product
      stays within 64 bits. */
  lemma SleepTicksExact(ms: nat)
    requires ms < TWO64
    ensures SleepTicks(ms) == (if ms / 10 == 0 then 1 else ms / 10) <==> ms * PIT_HZ < TWO64
  {
    var q := ms * PIT_HZ / TWO64;
    assert ms * PIT_HZ == q * TWO64 + (ms * PIT_HZ) % TWO64;
  }

  function Sleep(s: Sched, ms: nat): (s1: Sched)
    requires IsSched(s)
    ensures IsSched(s1)
  {
    if s.cur < 0 then s
    else
      Schedule(s.(procs := s.procs[s.cur := s.procs[s.cur].(sleepTicks := SleepTicks(ms), state := Sleeping)]))
  }

  function Exit(s: Sched, code: int): (s1: Sched)
    requires IsSched(s)
    ensures IsSched(s1)
  {
    if s.cur < 0 then s
    else Schedule(s.(procs := s.procs[s.cur := s.procs[s.cur].(state := Zombie, exitCode := code)]))
  }

  /** proc_wakeup: the remaining ticks stay as they are. */
  function Wake(p: Proc): Proc {
    if p.state == Sleeping then p.(state := Ready) else p
  }

  function Wakeup(s: Sched, i: nat): (s1: Sched)
    requires IsSched(s) && i < PROC_MAX
    ensures IsSched(s1)
  {
    s.(procs := s.procs[i := Wake(s.procs[i])])
  }

  function CountDown(p: Proc): Proc {
    if p.state == Sleeping then
      var t := if p.sleepTicks > 0 then p.sleepTicks - 1 else 0;
      p.(sleepTicks := t, state := if t == 0 then Ready else Sleeping)
    else p
  }

  function CountAll(procs: seq<Proc>): (procs1: seq<Proc>)
    ensures |procs1| == |procs| && forall i | 0 <= i < |procs| :: procs1[i] == CountDown(procs[i])
  {
    seq(|procs|, i requires 0 <= i < |procs| => CountDown(procs[i]))
  }

  /** sched_tick; `slice` says whether the tick ends the time slice (ticks % 10 == 0). */
  function Tick(s: Sched, slice: bool): (s1: Sched)
    requires IsSched(s)
    ensures IsSched(s1)
  {
    var s0 := s.(procs := CountAll(s.procs));
    if slice then Schedule(s0) else s0
  }

  /** The process that sleeps has as many ticks to go as it asked for, whatever schedule does. */
  lemma SleepIs(s: Sched, ms: nat)
    requires IsSched(s) && s.cur >= 0
    ensures Sleep(s, ms).procs[s.cur] == s.procs[s.cur].(state := Sleeping, sleepTicks := SleepTicks(ms))
  {
    ScheduleIs(s.(procs := s.procs[s.cur := s.procs[s.cur].(sleepTicks := SleepTicks(ms), state := Sleeping)]));
  }

  /** The process that exits leaves its exit code behind. */
  lemma ExitIs(s: Sched, code: int)
    requires IsSched(s) && s.cur >= 0
    ensures Exit(s, code).procs[s.cur] == s.procs[s.cur].(state := Zombie, exitCode := code)
  {
    ScheduleIs(s.(procs := s.procs[s.cur := s.procs[s.cur].(state := Zombie, exitCode := code)]));
  }

  /** A tick takes one off what each sleeper has left and makes those READY who have none
      left; it touches nobody else.  At the end of a slice schedule follows. */
  lemma TickIs(s: Sched, slice: bool)
    requires IsSched(s)
    ensures var s0 := Tick(s, false);
      && s0.cur == s.cur && Tick(s, slice) == (if slice then Schedule(s0) else s0)
      && forall i | 0 <= i < PROC_MAX ::
           var p, p0 := s.procs[i], s0.procs[i];
           && (p.state != Sleeping ==> p0 == p)
           && (p.state == Sleeping && p.sleepTicks > 1 ==> p0 == p.(sleepTicks := p.sleepTicks - 1))
           && (p.state == Sleeping && p.sleepTicks <= 1 ==> p0 == p.(sleepTicks := 0, state := Ready))
  {
    hide Schedule;
  }

  // --- events and runs ---------------------------------------------------------------------------

  /** What can happen to the scheduler: a timer tick at any time, a wakeup, a new process,
      and what the current process asks for. */
  datatype Event = Timer(slice: bool) | WakeupOf(slot: nat) | SleepFor(ms: nat)
    | ExitWith(code: int) | Yield | Start(slot: nat, p: Proc)

  function Happen(s: Sched, e: Event): (s1: Sched)
    requires IsSched(s)
    ensures IsSched(s1)
  {
    match e
    case Timer(slice) => Tick(s, slice)
    case WakeupOf(i) => if i < PROC_MAX then Wakeup(s, i) else s
    case SleepFor(ms) => Sleep(s, ms)
    case ExitWith(code) => Exit(s, code)
    case Yield => Schedule(s)
    case Start(i, p) =>
      if i < PROC_MAX && s.procs[i].state == Unused then s.(procs := s.procs[i := p.(state := Ready)]) else s
  }

  function Run(s: Sched, events: seq<Event>): (s1: Sched)
    requires IsSched(s)
    ensures IsSched(s1)
    decreases events
  {
    if events == [] then s else Run(Happen(s, events[0]), events[1..])
  }

  // --- operations that end in schedule ------------------------------------------------------

  /** The state in which an operation calls schedule, if it does. */
  function Calls(s: Sched, e: Event): Option<Sched>
    requires IsSched(s)
  {
    if s.cur < 0 then None
    else
      match e
      case Timer(slice) => if slice then Some(s.(procs := CountAll(s.procs))) else None
      case SleepFor(ms) =>
        Some(s.(procs := s.procs[s.cur := s.procs[s.cur].(sleepTicks := SleepTicks(ms), state := Sleeping)]))
      case ExitWith(code) =>
        Some(s.(procs := s.procs[s.cur := s.procs[s.cur].(state := Zombie, exitCode := code)]))
      case Yield => Some(s)
      case _ => None
  }

  lemma CallsLast(s: Sched, e: Event)
    requires IsSched(s) && Calls(s, e).Some?
    ensures var s0 := Calls(s, e).value; IsSched(s0) && s0.cur == s.cur >= 0 && Happen(s, e) == Schedule(s0)
  {
    hide Schedule;
  }

  /** Operations that call schedule do it last, after their own changes. */
  lemma CallsSafe(s: Sched, e: Event)
    requires Safe(s) && Calls(s, e).Some?
    ensures var s0 := Calls(s, e).value; Safe(s0) && s0.cur == s.cur && Happen(s, e) == Schedule(s0)
  {
    hide Schedule;
  }

  // --- safety over runs ------------------------------------------------------------------------------

  /** Only the current slot is RUNNING, and whoever sleeps has a tick left to wait for. */
  predicate Safe(s: Sched) {
    && IsSched(s)
    && forall i | 0 <= i < PROC_MAX ::
         && (s.procs[i].state == Running ==> i == s.cur)
         && (s.procs[i].state == Sleeping ==> s.procs[i].sleepTicks >= 1)
  }

  lemma ScheduleSafe(s: Sched)
    requires Safe(s)
    ensures Safe(Schedule(s))
  {
    if s.cur >= 0 { ScheduleIs(s); }
  }

  lemma HappenSafe(s: Sched, e: Event)
    requires Safe(s)
    ensures Safe(Happen(s, e))
  {
    match e {
      case Timer(slice) => ScheduleSafe(s.(procs := CountAll(s.procs)));
      case WakeupOf(i) =>
      case SleepFor(ms) =>
        if s.cur >= 0 {
          ScheduleSafe(s.(procs := s.procs[s.cur := s.procs[s.cur].(sleepTicks := SleepTicks(ms), state := Sleeping)]));
        }
      case ExitWith(code) =>
        if s.cur >= 0 {
          ScheduleSafe(s.(procs := s.procs[s.cur := s.procs[s.cur].(state := Zombie, exitCode := code)]));
        }
      case Yield => ScheduleSafe(s);
      case Start(i, p) =>
    }
  }

  /** In every reachable state at most one slot is RUNNING, and it is the current one; every
      SLEEPING slot has at least one tick left. */
  lemma {:induction false} RunSafe(s: Sched, events: seq<Event>)
    requires Safe(s)
    ensures Safe(Run(s, events))
    decreases events
  {
    if events != [] {
      HappenSafe(s, events[0]);
      RunSafe(Happen(s, events[0]), events[1..]);
    }
  }

  /** The idle process is READY or RUNNING, and some process is running. */
  predicate Idling(s: Sched, idle: nat) {
    && Safe(s) && idle < PROC_MAX && s.cur >= 0
    && (s.procs[idle].state == Ready || s.procs[idle].state == Running)
    && s.procs[s.cur].state == Running
  }

  /** The idle process itself never sleeps or exits. */
  predicate IdleStays(s: Sched, idle: nat, events: seq<Event>)
    requires IsSched(s)
    decreases events
  {
    events != [] ==>
      && (s.cur == idle ==> !events[0].SleepFor? && !events[0].ExitWith?)
      && IdleStays(Happen(s, events[0]), idle, events[1..])
  }

  lemma ScheduleIdling(s: Sched, idle: nat)
    requires Safe(s) && idle < PROC_MAX && s.cur >= 0
    requires s.procs[idle].state == Ready || s.procs[idle].state == Running
    ensures Idling(Schedule(s), idle)
  {
    assert Runnable(s, idle);
    ScheduleIs(s);
    ScheduleSafe(s);
  }

  lemma HappenIdling(s: Sched, idle: nat, e: Event)
    requires Idling(s, idle) && (s.cur == idle ==> !e.SleepFor? && !e.ExitWith?)
    ensures Idling(Happen(s, e), idle)
    ensures forall i | 0 <= i < PROC_MAX && s.procs[i].state == Zombie :: Happen(s, e).procs[i] == s.procs[i]
  {
    HappenSafe(s, e);
    match e {
      case Timer(slice) =>
        var s0 := s.(procs := CountAll(s.procs));
        if slice { ScheduleIdling(s0, idle); ScheduleIs(s0); }
      case WakeupOf(i) =>
      case SleepFor(ms) =>
        var s0 := s.(procs := s.procs[s.cur := s.procs[s.cur].(sleepTicks := SleepTicks(ms), state := Sleeping)]);
        ScheduleIdling(s0, idle);
        ScheduleIs(s0);
      case ExitWith(code) =>
        var s0 := s.(procs := s.procs[s.cur := s.procs[s.cur].(state := Zombie, exitCode := code)]);
        ScheduleIdling(s0, idle);
        ScheduleIs(s0);
      case Yield =>
        ScheduleIdling(s, idle);
        ScheduleIs(s);
      case Start(i, p) =>
    }
  }

  /** As long as the idle process neither sleeps nor exits, the current process is RUNNING
      after every operation, and a zombie stays as it is for good. */
  lemma {:induction false} RunIdling(s: Sched, idle: nat, events: seq<Event>)
    requires Idling(s, idle) && IdleStays(s, idle, events)
    ensures Idling(Run(s, events), idle)
    ensures forall i | 0 <= i < PROC_MAX && s.procs[i].state == Zombie :: Run(s, events).procs[i] == s.procs[i]
    decreases events
  {
    if events != [] {
      HappenIdling(s, idle, events[0]);
      RunIdling(Happen(s, events[0]), idle, events[1..]);
    }
  }

  /** After schedule the current process is RUNNING exactly when something was runnable. */
  lemma ScheduleRunsExact(s: Sched)
    requires IsSched(s) && s.cur >= 0
    ensures Schedule(s).procs[Schedule(s).cur].state == Running <==> exists i | 0 <= i < PROC_MAX :: Runnable(s, i)
  {
    ScheduleIs(s);
    hide Schedule;
    var cur := Schedule(s).cur;
    if Schedule(s).procs[cur].state == Running {
      if forall i | 0 <= i < PROC_MAX :: !Runnable(s, i) { assert Runnable(s, cur); }
    }
  }

  /** A zombie stops being one exactly when it is still the current process and sleeps. */
  lemma ZombieRevives(s: Sched, e: Event, i: nat)
    requires IsSched(s) && i < PROC_MAX && s.procs[i].state == Zombie
    ensures Happen(s, e).procs[i].state != Zombie <==> s.cur == i && e.SleepFor?
  {
    var c := Calls(s, e);
    if c.Some? {
      ScheduleIs(c.value);
      CallsLast(s, e);
    }
  }

  /** Without an idle process both promises fail: the only process exits, goes on as a zombie,
      and a later sleep turns the zombie into a sleeper. */
  lemma AloneZombieSleeps(s: Sched)
    requires Safe(s) && s.cur >= 0 && s.procs[s.cur].state == Running
    requires forall i | 0 <= i < PROC_MAX && i != s.cur :: s.procs[i].state == Unused
    ensures var s1 := Happen(s, ExitWith(0));
      && s1.cur == s.cur && s1.procs[s1.cur].state == Zombie
      && Happen(s1, SleepFor(10)).procs[s.cur].state == Sleeping
  {
    var s0 := s.(procs := s.procs[s.cur := s.procs[s.cur].(state := Zombie, exitCode := 0)]);
    ScheduleIs(s0);
    var s1 := Happen(s, ExitWith(0));
    ScheduleIs(s1.(procs := s1.procs[s1.cur := s1.procs[s1.cur].(sleepTicks := SleepTicks(10), state := Sleeping)]));
  }

  /** The scheduler leaves the set of existing processes alone, but for a new one. */
  lemma SlotsKept(s: Sched, e: Event)
    requires IsSched(s) && (s.cur >= 0 ==> s.procs[s.cur].state != Unused)
    requires e.Start? ==> e.slot < PROC_MAX && e.slot != s.cur && s.procs[e.slot].state == Unused
    ensures var s1 := Happen(s, e);
      && (s1.cur >= 0 ==> s1.procs[s1.cur].state != Unused)
      && forall i | 0 <= i < PROC_MAX ::
           s1.procs[i].state == Unused <==> s.procs[i].state == Unused && !(e.Start? && i == e.slot)
  {
    match e {
      case Timer(slice) =>
        if slice && s.cur >= 0 { ScheduleIs(s.(procs := CountAll(s.procs))); }
      case WakeupOf(i) =>
      case SleepFor(ms) =>
        if s.cur >= 0 {
          ScheduleIs(s.(procs := s.procs[s.cur := s.procs[s.cur].(sleepTicks := SleepTicks(ms), state := Sleeping)]));
        }
      case ExitWith(code) =>
        if s.cur >= 0 {
          ScheduleIs(s.(procs := s.procs[s.cur := s.procs[s.cur].(state := Zombie, exitCode := code)]));
        }
      case Yield => if s.cur >= 0 { ScheduleIs(s); }
      case Start(i, p) =>
    }
  }

  // --- how long a sleep lasts ------------------------------------------------------------------

  /** No wakeup of slot i, and no sleep or exit of its own. */
  predicate Alone(s: Sched, e: Event, i: nat) {
    e != WakeupOf(i) && (s.cur == i ==> !e.SleepFor? && !e.ExitWith?)
  }

  predicate LeftAlone(s: Sched, events: seq<Event>, i: nat)
    requires IsSched(s)
    decreases events
  {
    events != [] ==> Alone(s, events[0], i) && LeftAlone(Happen(s, events[0]), events[1..], i)
  }

  function Timers(events: seq<Event>): nat {
    if events == [] then 0 else (if events[0].Timer? then 1 else 0) + Timers(events[1..])
  }

  /** A sleeper with t ticks to go when n of them have come. */
  predicate AfterTicks(was: Proc, n: nat, now: Proc) {
    if n < was.sleepTicks then now == was.(sleepTicks := was.sleepTicks - n)
    else now.state == Ready || now.state == Running
  }

  lemma SleeperStep(s: Sched, e: Event, i: nat)
    requires IsSched(s) && i < PROC_MAX && Alone(s, e, i)
    requires s.procs[i].state == Sleeping && s.procs[i].sleepTicks > 0
    ensures AfterTicks(s.procs[i], if e.Timer? then 1 else 0, Happen(s, e).procs[i])
  {
    var c := Calls(s, e);
    if e.Timer? { TickIs(s, e.slice); }
    if c.Some? {
      ScheduleIs(c.value);
      CallsLast(s, e);
    }
  }

  lemma AwakeStep(s: Sched, e: Event, i: nat)
    requires IsSched(s) && i < PROC_MAX && Alone(s, e, i)
    requires s.procs[i].state == Ready || s.procs[i].state == Running
    ensures Happen(s, e).procs[i].state == Ready || Happen(s, e).procs[i].state == Running
  {
    var c := Calls(s, e);
    if c.Some? {
      ScheduleIs(c.value);
      CallsLast(s, e);
    }
  }

  lemma {:induction false} RunAwake(s: Sched, events: seq<Event>, i: nat)
    requires IsSched(s) && i < PROC_MAX && LeftAlone(s, events, i)
    requires s.procs[i].state == Ready || s.procs[i].state == Running
    ensures Run(s, events).procs[i].state == Ready || Run(s, events).procs[i].state == Running
    decreases events
  {
    hide Happen;
    if events != [] {
      AwakeStep(s, events[0], i);
      RunAwake(Happen(s, events[0]), events[1..], i);
    }
  }

  /** A sleep lasts as many ticks as it was asked for: over every run in which nobody wakes the
      sleeper, one with t ticks to go is still asleep exactly while fewer than t ticks have
      come, with the difference left to go, and READY or RUNNING from then on. */
  lemma {:induction false} SleepsExactly(s: Sched, events: seq<Event>, i: nat)
    requires IsSched(s) && i < PROC_MAX && LeftAlone(s, events, i)
    requires s.procs[i].state == Sleeping && s.procs[i].sleepTicks > 0
    ensures AfterTicks(s.procs[i], Timers(events), Run(s, events).procs[i])
    ensures Run(s, events).procs[i].state == Sleeping <==> Timers(events) < s.procs[i].sleepTicks
    decreases events
  {
    hide Happen;
    if events != [] {
      var s1 := Happen(s, events[0]);
      SleeperStep(s, events[0], i);
      if s1.procs[i].state == Sleeping {
        SleepsExactly(s1, events[1..], i);
      } else {
        RunAwake(s1, events[1..], i);
      }
    }
  }

  /** The same from the call of proc_sleep on. */
  lemma SleepLasts(s: Sched, ms: nat, events: seq<Event>)
    requires IsSched(s) && s.cur >= 0 && LeftAlone(Sleep(s, ms), events, s.cur)
    ensures Run(Sleep(s, ms), events).procs[s.cur].state == Sleeping <==> Timers(events) < SleepTicks(ms)
  {
    SleepIs(s, ms);
    SleepsExactly(Sleep(s, ms), events, s.cur);
  }

  // --- bounded waiting --------------------------------------------------------------------------------

  /** A slot that waits comes closer with every call, until it is chosen. */
  lemma ScheduleCloser(s: Sched, i: nat)
    requires IsSched(s) && s.cur >= 0 && i < PROC_MAX && s.procs[i].state == Ready
    ensures var s1 := Schedule(s);
      if s1.cur == i then s1.procs[i].state == Running
      else s1.procs[i].state == Ready && 1 <= Dist(s1.cur, i) < Dist(s.cur, i)
  {
    assert Runnable(s, i);
    ScheduleIs(s);
  }

  /** Consecutive calls of schedule on the given states: whatever happens between two calls
      leaves the current process alone and the waiting slot READY. */
  predicate Waits(calls: seq<Sched>, i: nat) {
    && i < PROC_MAX
    && (forall k | 0 <= k < |calls| :: IsSched(calls[k]) && calls[k].cur >= 0 && calls[k].procs[i].state == Ready)
    && (forall k | 0 <= k < |calls| - 1 :: calls[k + 1].cur == Schedule(calls[k]).cur)
  }

  /** A slot that stays READY is chosen within as many calls of schedule as it is steps away
      from the current slot: 63 at most, 64 for the current slot itself. */
  lemma {:induction false} BoundedWaiting(calls: seq<Sched>, i: nat)
    requires Waits(calls, i) && |calls| > 0 && |calls| >= Dist(calls[0].cur, i)
    ensures exists k | 0 <= k < Dist(calls[0].cur, i) ::
      Schedule(calls[k]).cur == i && Schedule(calls[k]).procs[i].state == Running
    ensures Dist(calls[0].cur, i) <= (if calls[0].cur == i then 64 else 63)
    decreases |calls|
  {
    ScheduleCloser(calls[0], i);
    if Schedule(calls[0]).cur != i {
      var rest := calls[1..];
      assert rest[0].cur == Schedule(calls[0]).cur;
      forall k | 0 <= k < |rest| - 1 ensures rest[k + 1].cur == Schedule(rest[k]).cur {
        assert calls[k + 1 + 1].cur == Schedule(calls[k + 1]).cur;
      }
      BoundedWaiting(rest, i);
      var k :| 0 <= k < Dist(rest[0].cur, i) &&
        Schedule(rest[k]).cur == i && Schedule(rest[k]).procs[i].state == Running;
      assert Schedule(calls[k + 1]).cur == i;
    }
  }
}
