/** Runs of the whole message system: sends and receives of all processes, interleaved with
    the scheduler at the points where interrupts are on. */
module MessageRuns {
  import opened Options
  import opened Scheduler
  import opened Messages

  /** Where a process stands: holding a filled node it has yet to enqueue, between the empty
      check of ipc_recv and its sleep, or back in the loop of ipc_recv. */
  datatype Pc = Outside | Sending(target: nat, node: nat, letter: Letter) | Gap | Receiving

  datatype K = K(m: Mail, pc: seq<Pc>)

  /** One atomic step: Send, Enqueue, Check and Nap are the sections of ipc_send and ipc_recv
      that the current process runs, `out` being the receiver's buffer; Other is everything
      the scheduler does besides. */
  datatype Event =
    | Send(dst: int, typ: nat, data: Option<seq<nat>>, len: nat)
    | Enqueue
    | Check(out: Node)
    | Nap
    | Other(e: Scheduler.Event)

  predicate IsK(k: K) {
    IsMail(k.m) && |k.pc| == PROC_MAX
  }

  predicate Enabled(k: K, e: Event)
    requires IsK(k)
  {
    var cur := k.m.s.cur;
    match e
    case Send(_, _, data, len) => cur >= 0 && k.pc[cur] == Outside && Buffered(data, len)
    case Enqueue => cur >= 0 && k.pc[cur].Sending? && k.pc[cur].target < PROC_MAX
    case Check(out) => cur >= 0 && (k.pc[cur] == Outside || k.pc[cur] == Receiving) && |out.data| == MSG_MAX
    case Nap => cur >= 0 && k.pc[cur] == Gap
    case Other(Timer(_)) => true
    case Other(WakeupOf(_)) => false
    case Other(Start(slot, _)) => slot < PROC_MAX && k.m.s.procs[slot].state == Unused && slot != cur
    case Other(_) => cur >= 0 && k.pc[cur] == Outside
  }

  /** The letter that the arguments of a send describe. */
  function Meant(k: K, e: Event, stale: seq<nat>): Letter
    requires IsK(k) && e.Send? && Buffered(e.data, e.len)
  {
    Letter(SenderPid(k.m.s), e.typ, e.len, if e.data.Some? then e.data.value[..e.len] else stale)
  }

  function Stale(pool: seq<Node>, i: nat, len: nat): seq<nat> {
    if i < |pool| && len <= |pool[i].data| then pool[i].data[..len] else []
  }

  function Step(k: K, e: Event): (k1: K)
    requires IsK(k) && Queued(k.m) && Enabled(k, e)
    ensures IsK(k1)
  {
    var cur := k.m.s.cur;
    match e
    case Send(dst, typ, data, len) =>
      SendBeginQueued(k.m, dst, typ, data, len);
      var (m1, r) := SendBegin(k.m, dst, typ, data, len);
      if r.Failed? then k
      else K(m1, k.pc[cur := Sending(r.target, r.node, Meant(k, e, Stale(k.m.pool, r.node, len)))])
    case Enqueue => K(SendEnd(k.m, k.pc[cur].target, k.pc[cur].node), k.pc[cur := Outside])
    case Check(_) => if k.m.queues[cur] == [] then k.(pc := k.pc[cur := Gap]) else K(Dequeue(k.m), k.pc[cur := Outside])
    case Nap => K(k.m.(s := Sleep(k.m.s, 10)), k.pc[cur := Receiving])
    case Other(oe) => k.(m := k.m.(s := Happen(k.m.s, oe)))
  }

  // --- ownership of the pool --------------------------------------------------------------------

  /** The process that holds a node is the only one who knows it, and has filled it with
      what it means to send. */
  ghost predicate HoldsNode(k: K, p: nat)
    requires IsK(k) && p < PROC_MAX
  {
    k.pc[p].Sending? ==>
      var i := k.pc[p].node;
      && i < POOL_SIZE && k.m.used[i] && k.m.pool[i].len <= MSG_MAX
      && k.pc[p].target < PROC_MAX && k.m.s.procs[k.pc[p].target].state != Unused
      && LetterOf(k.m.pool[i]) == k.pc[p].letter
      && (forall q | 0 <= q < PROC_MAX :: i !in k.m.queues[q])
      && (forall q | 0 <= q < PROC_MAX && q != p && k.pc[q].Sending? :: k.pc[q].node != i)
  }

  /** Nobody but an existing process has mail or a send under way. */
  ghost predicate EmptySlot(k: K, p: nat)
    requires IsK(k) && p < PROC_MAX
  {
    k.m.s.procs[p].state == Unused ==> k.m.queues[p] == [] && k.pc[p] == Outside
  }

  ghost function Elements(q: seq<nat>): set<nat> {
    set i | i in q
  }

  /** The nodes of process p: those in its queue and the one it is about to enqueue. */
  ghost function Nodes(k: K, p: nat): set<nat>
    requires IsK(k) && p < PROC_MAX
  {
    Elements(k.m.queues[p]) + (if k.pc[p].Sending? then {k.pc[p].node} else {})
  }

  ghost predicate Accounted(k: K, i: nat)
    requires IsK(k)
  {
    exists p | 0 <= p < PROC_MAX :: i in Nodes(k, p)
  }

  ghost predicate Inv(k: K) {
    && IsK(k) && Queued(k.m)
    && (k.m.s.cur >= 0 ==> k.m.s.procs[k.m.s.cur].state != Unused)
    && (forall p | 0 <= p < PROC_MAX :: HoldsNode(k, p))
    && (forall p | 0 <= p < PROC_MAX :: EmptySlot(k, p))
    && (forall i | 0 <= i < POOL_SIZE && k.m.used[i] :: Accounted(k, i))
  }

  lemma SendInv(k: K, e: Event)
    requires Inv(k) && e.Send? && Enabled(k, e)
    ensures Inv(Step(k, e))
  {
    SendBeginQueued(k.m, e.dst, e.typ, e.data, e.len);
    var (m1, r) := SendBegin(k.m, e.dst, e.typ, e.data, e.len);
    if r.Held? {
      var k1 := Step(k, e);
      var cur := k.m.s.cur;
      forall p | 0 <= p < PROC_MAX ensures HoldsNode(k1, p) {
        assert HoldsNode(k, p);
        forall q | 0 <= q < PROC_MAX && q != cur && k.pc[q].Sending? ensures k.pc[q].node != r.node {
          assert HoldsNode(k, q);
        }
      }
      forall p | 0 <= p < PROC_MAX ensures EmptySlot(k1, p) { assert EmptySlot(k, p); }
      forall i | 0 <= i < POOL_SIZE && k1.m.used[i] ensures Accounted(k1, i) {
        if i == r.node {
          assert i in Nodes(k1, cur);
        } else {
          assert Accounted(k, i);
          var p :| 0 <= p < PROC_MAX && i in Nodes(k, p);
          assert i in Nodes(k1, p);
        }
      }
    }
  }

  lemma EnqueueInv(k: K)
    requires Inv(k) && Enabled(k, Enqueue)
    ensures Inv(Step(k, Enqueue))
  {
    var cur := k.m.s.cur;
    var target, node := k.pc[cur].target, k.pc[cur].node;
    assert HoldsNode(k, cur);
    SendEndQueued(k.m, target, node);
    var k1 := Step(k, Enqueue);
    forall i ensures i in k1.m.queues[target] <==> i in k.m.queues[target] || i == node {
      InAppend(k.m.queues[target], node, i);
    }
    forall p | 0 <= p < PROC_MAX ensures HoldsNode(k1, p) { assert HoldsNode(k, p); }
    forall p | 0 <= p < PROC_MAX ensures EmptySlot(k1, p) { assert EmptySlot(k, p); }
    forall i | 0 <= i < POOL_SIZE && k1.m.used[i] ensures Accounted(k1, i) {
      assert Accounted(k, i);
      var p :| 0 <= p < PROC_MAX && i in Nodes(k, p);
      assert i in Nodes(k1, if i == node then target else p);
    }
  }

  lemma CheckInv(k: K, out: Node)
    requires Inv(k) && Enabled(k, Check(out))
    ensures Inv(Step(k, Check(out)))
  {
    var cur := k.m.s.cur;
    var k1 := Step(k, Check(out));
    if k.m.queues[cur] != [] {
      DequeueQueued(k.m);
      var node := k.m.queues[cur][0];
      assert k.m.queues[cur] == [node] + k1.m.queues[cur];
      forall i ensures i in k.m.queues[cur] <==> i in k1.m.queues[cur] || i == node {}
    }
    forall p | 0 <= p < PROC_MAX ensures HoldsNode(k1, p) { assert HoldsNode(k, p); }
    forall p | 0 <= p < PROC_MAX ensures EmptySlot(k1, p) { assert EmptySlot(k, p); }
    forall i | 0 <= i < POOL_SIZE && k1.m.used[i] ensures Accounted(k1, i) {
      assert Accounted(k, i);
      var p :| 0 <= p < PROC_MAX && i in Nodes(k, p);
      assert i in Nodes(k1, p);
    }
  }

  lemma SchedInv(k: K, k1: K, e: Scheduler.Event)
    requires Inv(k) && IsK(k1) && k1.m == k.m.(s := Happen(k.m.s, e))
    requires e.Start? ==> e.slot < PROC_MAX && e.slot != k.m.s.cur && k.m.s.procs[e.slot].state == Unused
    requires forall p | 0 <= p < PROC_MAX ::
      k1.pc[p] == k.pc[p] || (p == k.m.s.cur && !k.pc[p].Sending? && !k1.pc[p].Sending?)
    ensures Inv(k1)
  {
    SlotsKept(k.m.s, e);
    forall p | 0 <= p < PROC_MAX ensures HoldsNode(k1, p) { assert HoldsNode(k, p); }
    forall p | 0 <= p < PROC_MAX ensures EmptySlot(k1, p) { assert EmptySlot(k, p); }
    forall i | 0 <= i < POOL_SIZE && k1.m.used[i] ensures Accounted(k1, i) {
      assert Accounted(k, i);
      var p :| 0 <= p < PROC_MAX && i in Nodes(k, p);
      assert i in Nodes(k1, p);
    }
  }

  lemma StepInv(k: K, e: Event)
    requires Inv(k) && Enabled(k, e)
    ensures Inv(Step(k, e))
  {
    match e {
      case Send(_, _, _, _) => SendInv(k, e);
      case Enqueue => EnqueueInv(k);
      case Check(out) => CheckInv(k, out);
      case Nap => SchedInv(k, Step(k, e), SleepFor(10));
      case Other(oe) => SchedInv(k, Step(k, e), oe);
    }
  }

  /** An empty pool and empty queues are a start, whatever processes there are. */
  lemma EmptyInv(k: K)
    requires IsK(k) && (k.m.s.cur >= 0 ==> k.m.s.procs[k.m.s.cur].state != Unused)
    requires forall i | 0 <= i < POOL_SIZE :: !k.m.used[i]
    requires forall p | 0 <= p < PROC_MAX :: k.m.queues[p] == [] && k.pc[p] == Outside
    ensures Inv(k)
  {
  }

  // --- runs ---------------------------------------------------------------------------------------

  ghost predicate Possible(k: K, events: seq<Event>)
    requires Inv(k)
    decreases events
  {
    events != [] ==>
      Enabled(k, events[0]) && (StepInv(k, events[0]); Possible(Step(k, events[0]), events[1..]))
  }

  ghost function Run(k: K, events: seq<Event>): (k1: K)
    requires Inv(k) && Possible(k, events)
    ensures Inv(k1)
    decreases events
  {
    if events == [] then k
    else
      StepInv(k, events[0]);
      Run(Step(k, events[0]), events[1..])
  }

  // --- counting ------------------------------------------------------------------------------------

  /** Queued messages and sends under way of the first n processes. */
  ghost function Count(k: K, n: nat): nat
    requires IsK(k) && n <= PROC_MAX
  {
    if n == 0 then 0 else Count(k, n - 1) + |k.m.queues[n - 1]| + (if k.pc[n - 1].Sending? then 1 else 0)
  }

  ghost function NodesBelow(k: K, n: nat): set<nat>
    requires IsK(k) && n <= PROC_MAX
  {
    if n == 0 then {} else NodesBelow(k, n - 1) + Nodes(k, n - 1)
  }

  ghost function UsedNodes(k: K): set<nat>
    requires IsK(k)
  {
    Marked(k.m.used, POOL_SIZE)
  }

  ghost function Marked(used: seq<bool>, n: nat): set<nat>
    requires n <= |used|
  {
    set i: nat | i < n && used[i]
  }

  lemma {:induction false} MarkedAtMost(used: seq<bool>, n: nat)
    requires n <= |used|
    ensures |Marked(used, n)| <= n
  {
    if n > 0 {
      MarkedAtMost(used, n - 1);
      assert Marked(used, n) == Marked(used, n - 1) + if used[n - 1] then {n - 1} else {};
    }
  }

  lemma {:induction false} ElementsCount(q: seq<nat>)
    requires forall a, b | 0 <= a < b < |q| :: q[a] != q[b]
    ensures |Elements(q)| == |q|
  {
    if q == [] {
      assert Elements(q) == {};
    } else {
      var rest := q[1..];
      ElementsCount(rest);
      assert q == [q[0]] + rest;
      assert forall b | 0 <= b < |rest| :: rest[b] == q[b + 1] != q[0];
      assert Elements(q) == {q[0]} + Elements(rest);
    }
  }

  lemma NodesCount(k: K, p: nat)
    requires Inv(k) && p < PROC_MAX
    ensures |Nodes(k, p)| == |k.m.queues[p]| + (if k.pc[p].Sending? then 1 else 0)
  {
    assert HoldsNode(k, p);
    hide Accounted, EmptySlot;
    ElementsCount(k.m.queues[p]);
    if k.pc[p].Sending? { assert k.pc[p].node !in Elements(k.m.queues[p]); }
  }

  lemma NodesApart(k: K, p: nat, q: nat)
    requires Inv(k) && p < PROC_MAX && q < PROC_MAX && p != q
    ensures Nodes(k, p) !! Nodes(k, q)
  {
    assert HoldsNode(k, p) && HoldsNode(k, q);
  }

  lemma {:induction false} InNodesBelow(k: K, n: nat, i: nat)
    requires IsK(k) && n <= PROC_MAX
    ensures i in NodesBelow(k, n) <==> exists p | 0 <= p < n :: i in Nodes(k, p)
  {
    hide Nodes;
    if n > 0 { InNodesBelow(k, n - 1, i); }
  }

  lemma BelowApart(k: K, n: nat)
    requires Inv(k) && n < PROC_MAX
    ensures NodesBelow(k, n) !! Nodes(k, n)
  {
    assert IsK(k);
    hide Nodes, NodesBelow, Inv;
    forall i: nat | i in NodesBelow(k, n) ensures i !in Nodes(k, n) {
      InNodesBelow(k, n, i);
      var p :| 0 <= p < n && i in Nodes(k, p);
      NodesApart(k, p, n);
    }
  }

  lemma BelowIs(k: K, n: nat)
    requires IsK(k) && 0 < n <= PROC_MAX
    ensures NodesBelow(k, n) == NodesBelow(k, n - 1) + Nodes(k, n - 1)
  {
  }

  lemma BelowStep(k: K, n: nat)
    requires Inv(k) && 0 < n <= PROC_MAX
    ensures |NodesBelow(k, n)| == |NodesBelow(k, n - 1)| + |Nodes(k, n - 1)|
  {
    hide *;
    CountStep(k, n);
    BelowIs(k, n);
    BelowApart(k, n - 1);
    ApartCount(NodesBelow(k, n - 1), Nodes(k, n - 1));
  }

  lemma CountStep(k: K, n: nat)
    requires Inv(k) && n <= PROC_MAX
    ensures IsK(k) && (n == 0 ==> NodesBelow(k, n) == {} && Count(k, n) == 0)
    ensures n > 0 ==> Count(k, n) == Count(k, n - 1) + |k.m.queues[n - 1]| + (if k.pc[n - 1].Sending? then 1 else 0)
  {
  }

  lemma ApartCount(a: set<nat>, b: set<nat>)
    requires a !! b
    ensures |a + b| == |a| + |b|
  {
  }

  lemma {:induction false} NodesBelowCount(k: K, n: nat)
    requires Inv(k) && n <= PROC_MAX
    ensures |NodesBelow(k, n)| == Count(k, n)
    decreases n
  {
    hide *;
    CountStep(k, n);
    if n > 0 {
      NodesBelowCount(k, n - 1);
      NodesCount(k, n - 1);
      BelowStep(k, n);
    }
  }

  lemma NodesUsed(k: K, p: nat, i: nat)
    requires Inv(k) && p < PROC_MAX && i in Nodes(k, p)
    ensures i < POOL_SIZE && k.m.used[i]
  {
    assert HoldsNode(k, p);
    if i in k.m.queues[p] {
      var a :| 0 <= a < |k.m.queues[p]| && k.m.queues[p][a] == i;
    }
  }

  /** Every node in use belongs to exactly one process, in its queue or about to be enqueued;
      so the queue lengths and the sends under way add up to the nodes in use, at most 128. */
  lemma PoolConserved(k: K)
    requires Inv(k)
    ensures NodesBelow(k, PROC_MAX) == UsedNodes(k)
    ensures forall p, q | 0 <= p < q < PROC_MAX :: Nodes(k, p) !! Nodes(k, q)
    ensures Count(k, PROC_MAX) == |UsedNodes(k)| <= POOL_SIZE
  {
    MarkedAtMost(k.m.used, POOL_SIZE);
    NodesBelowCount(k, PROC_MAX);
    forall i: nat ensures i in NodesBelow(k, PROC_MAX) <==> i in UsedNodes(k) {
      InNodesBelow(k, PROC_MAX, i);
      if i in UsedNodes(k) {
        assert Accounted(k, i);
      }
      if i in NodesBelow(k, PROC_MAX) {
        var p :| 0 <= p < PROC_MAX && i in Nodes(k, p);
        NodesUsed(k, p, i);
      }
    }
    forall p, q | 0 <= p < q < PROC_MAX ensures Nodes(k, p) !! Nodes(k, q) { NodesApart(k, p, q); }
  }

  // --- first in, first out --------------------------------------------------------------------------

  /** The letter a step adds to the queue of p, if any. */
  ghost function SentBy(k: K, e: Event, p: nat): seq<Letter>
    requires IsK(k) && Enabled(k, e)
  {
    if e.Enqueue? && k.pc[k.m.s.cur].target == p then [k.pc[k.m.s.cur].letter] else []
  }

  /** The letter that process p finds in its buffer after a step, if the step gives it one. */
  ghost function GotBy(k: K, e: Event, p: nat): seq<Letter>
    requires IsK(k) && Queued(k.m) && Enabled(k, e)
  {
    if e.Check? && k.m.s.cur == p && k.m.queues[p] != []
    then [LetterOf(Deliver(e.out, k.m.pool[k.m.queues[p][0]]))]
    else []
  }

  ghost function Sent(k: K, events: seq<Event>, p: nat): seq<Letter>
    requires Inv(k) && Possible(k, events)
    decreases events
  {
    if events == [] then []
    else
      StepInv(k, events[0]);
      SentBy(k, events[0], p) + Sent(Step(k, events[0]), events[1..], p)
  }

  ghost function Got(k: K, events: seq<Event>, p: nat): seq<Letter>
    requires Inv(k) && Possible(k, events)
    decreases events
  {
    if events == [] then []
    else
      StepInv(k, events[0]);
      GotBy(k, events[0], p) + Got(Step(k, events[0]), events[1..], p)
  }

  lemma SendLetters(k: K, e: Event, p: nat)
    requires Inv(k) && e.Send? && Enabled(k, e) && p < PROC_MAX
    ensures Queued(Step(k, e).m) && LettersIn(Step(k, e).m, p) == LettersIn(k.m, p)
  {
    SendBeginQueued(k.m, e.dst, e.typ, e.data, e.len);
    var (m1, r) := SendBegin(k.m, e.dst, e.typ, e.data, e.len);
    hide SendBegin;
    forall a | 0 <= a < |k.m.queues[p]| ensures m1.pool[k.m.queues[p][a]] == k.m.pool[k.m.queues[p][a]] {
      assert k.m.queues[p][a] in k.m.queues[p];
    }
    LettersStay(k.m, m1, p);
  }

  lemma EnqueueLetters(k: K, p: nat)
    requires Inv(k) && Enabled(k, Enqueue) && p < PROC_MAX
    ensures Queued(Step(k, Enqueue).m)
    ensures LettersIn(Step(k, Enqueue).m, p) == LettersIn(k.m, p) + SentBy(k, Enqueue, p)
  {
    EnqueueInv(k);
    assert HoldsNode(k, k.m.s.cur);
    hide Queued;
    var k1 := Step(k, Enqueue);
    if k.pc[k.m.s.cur].target != p { LettersStay(k.m, k1.m, p); }
  }

  lemma CheckLetters(k: K, out: Node, p: nat)
    requires Inv(k) && Enabled(k, Check(out)) && p < PROC_MAX
    ensures Queued(Step(k, Check(out)).m)
    ensures LettersIn(k.m, p) == GotBy(k, Check(out), p) + LettersIn(Step(k, Check(out)).m, p)
  {
    var cur := k.m.s.cur;
    if k.m.queues[cur] != [] {
      DequeueLetters(k.m, p);
      DeliverLetter(out, k.m.pool[k.m.queues[cur][0]]);
    }
    hide Queued, LettersIn, Deliver;
  }

  lemma StepLetters(k: K, e: Event, p: nat)
    requires Inv(k) && Enabled(k, e) && p < PROC_MAX
    ensures Queued(Step(k, e).m)
    ensures LettersIn(k.m, p) + SentBy(k, e, p) == GotBy(k, e, p) + LettersIn(Step(k, e).m, p)
  {
    StepInv(k, e);
    match e {
      case Send(_, _, _, _) => SendLetters(k, e, p);
      case Enqueue => EnqueueLetters(k, p);
      case Check(out) => CheckLetters(k, out, p);
      case Nap => LettersStay(k.m, Step(k, e).m, p);
      case Other(_) => LettersStay(k.m, Step(k, e).m, p);
    }
  }

  /** Exactly once and in order: over every run and for every process, what was in its queue
      followed by what was sent to it is what it found in its buffers followed by what is in
      its queue now, letter for letter, although the nodes are used over and over and the
      buffers hold anything before. */
  lemma {:induction false} Fifo(k: K, events: seq<Event>, p: nat)
    requires Inv(k) && Possible(k, events) && p < PROC_MAX
    ensures LettersIn(k.m, p) + Sent(k, events, p) == Got(k, events, p) + LettersIn(Run(k, events).m, p)
    decreases events
  {
    if events != [] {
      var e, rest := events[0], events[1..];
      StepInv(k, e);
      var k1 := Step(k, e);
      StepLetters(k, e, p);
      Fifo(k1, rest, p);
      Regroup(LettersIn(k.m, p), SentBy(k, e, p), Sent(k1, rest, p), GotBy(k, e, p), LettersIn(k1.m, p),
              Got(k1, rest, p), LettersIn(Run(k1, rest).m, p));
    }
  }

  lemma Regroup(q: seq<Letter>, s1: seq<Letter>, s2: seq<Letter>, g1: seq<Letter>, q1: seq<Letter>,
      g2: seq<Letter>, q2: seq<Letter>)
    requires q + s1 == g1 + q1 && q1 + s2 == g2 + q2
    ensures q + (s1 + s2) == (g1 + g2) + q2
  {
    assert q + (s1 + s2) == (q + s1) + s2;
    assert (g1 + q1) + s2 == g1 + (q1 + s2);
    assert g1 + (g2 + q2) == (g1 + g2) + q2;
  }
}
