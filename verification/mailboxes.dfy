/** kernel/ipc/ipc.c, updated in place: the message queues are linked lists threaded through
    one static pool. */
module Mailboxes {
  import opened Options
  import Scheduler
  import opened ProcCreation
  import opened Messages
  import opened Processes

  const PROC_MAX := Scheduler.PROC_MAX

  /** The caller's ipc_message_t. */
  class Buffer {
    var from: int
    var typ: nat
    var len: nat
    const data: array<nat>

    constructor ()
      ensures fresh(data) && data.Length == MSG_MAX
    {
      from, typ, len := 0, 0, 0;
      data := new nat[MSG_MAX](_ => 0);
    }

    ghost function Value(): Node
      reads this, data
    {
      Node(from, typ, len, data[..])
    }
  }

  /** next[i] is the link of pool node i; heads, tails and counts are msg_queue, msg_tail and
      msg_count of the processes; -1 is NULL. */
  class Ipc {
    const table: ProcTable
    const pool: array<Node>
    const used: array<bool>
    const next: array<int>
    const heads: array<int>
    const tails: array<int>
    const counts: array<nat>
    ghost var queues: seq<seq<nat>>

    /** An empty pool and empty queues. */
    constructor (t: ProcTable)
      requires t.Valid()
      ensures Valid() && table == t && fresh(pool) && fresh(used) && fresh(next)
      ensures fresh(heads) && fresh(tails) && fresh(counts)
      ensures forall i | 0 <= i < POOL_SIZE :: !used[i]
      ensures forall p | 0 <= p < PROC_MAX :: queues[p] == []
    {
      table := t;
      pool := new Node[POOL_SIZE](_ => Node(0, 0, 0, seq(MSG_MAX, _ => 0)));
      used := new bool[POOL_SIZE](_ => false);
      next := new int[POOL_SIZE](_ => -1);
      heads := new int[PROC_MAX](_ => -1);
      tails := new int[PROC_MAX](_ => -1);
      counts := new nat[PROC_MAX](_ => 0);
      queues := seq(PROC_MAX, _ => []);
    }

    ghost predicate Separate() {
      && pool.Length == used.Length == next.Length == POOL_SIZE
      && heads.Length == tails.Length == counts.Length == table.procs.Length == PROC_MAX
      && next != heads && next != tails && heads != tails
    }

    ghost function State(): Mail
      reads this, table, table.procs, pool, used
    {
      Mail(table.State(), pool[..], used[..], queues)
    }

    ghost predicate Valid()
      reads this, table, table.procs, pool, used, next, heads, tails, counts
    {
      && Separate() && table.Valid() && Queued(State())
      && Lists(queues, next[..], heads[..], tails[..], counts[..])
    }

    /** msg_alloc */
    method MsgAlloc() returns (m: Option<nat>)
      requires Separate()
      modifies used, next
      ensures m == FirstFree(old(used[..]), 0)
      ensures m == None ==> used[..] == old(used[..]) && next[..] == old(next[..])
      ensures m.Some? ==>
                && m.value < POOL_SIZE && !old(used[m.value])
                && used[..] == old(used[..])[m.value := true] && next[..] == old(next[..])[m.value := -1]
    {
      for i := 0 to POOL_SIZE
        invariant used[..] == old(used[..]) && next[..] == old(next[..])
        invariant FirstFree(used[..], 0) == FirstFree(used[..], i)
      {
        if !used[i] {
          used[i] := true;
          next[i] := -1;
          return Some(i);
        }
      }
      return None;
    }

    /** msg_free */
    method MsgFree(i: int)
      requires Separate()
      modifies used
      ensures used[..] == if 0 <= i < POOL_SIZE then old(used[..])[i := false] else old(used[..])
    {
      if 0 <= i < POOL_SIZE { used[i] := false; }
    }

    /** The copy loop of ipc_send. */
    method CopyIn(i: nat, src: seq<nat>, len: nat)
      requires Separate() && i < POOL_SIZE && len <= |src| && len <= |pool[i].data|
      modifies pool
      ensures pool[..] == old(pool[..])[i := old(pool[i]).(data := Overlay(src, old(pool[i].data), len))]
    {
      hide Overlay;
      ghost var was := pool[i].data;
      OverlayNone(src, was);
      for j := 0 to len
        invariant pool[i] == old(pool[i]).(data := Overlay(src, was, j))
        invariant forall k | 0 <= k < POOL_SIZE && k != i :: pool[k] == old(pool[k])
      {
        OverlayStep(src, was, j);
        pool[i] := pool[i].(data := pool[i].data[j := src[j]]);
      }
    }

    /** ipc_send up to the point where the filled node waits to be enqueued. */
    method SendBegin(dst: int, typ: nat, data: Option<seq<nat>>, len: nat) returns (r: SendResult)
      requires Valid() && Buffered(data, len)
      modifies pool, used, next
      ensures Valid() && (State(), r) == Messages.SendBegin(old(State()), dst, typ, data, len)
    {
      assert IsMail(State());
      hide Lists, Linked, Queued, FirstFree, Overlay, Find;
      SendBeginQueued(State(), dst, typ, data, len);
      FindIs(table.procs[..], dst, 0);
      FirstFreeIs(used[..], 0);
      var target := table.Find(dst);
      if target == None { return Failed(-ESRCH); }
      if len > MSG_MAX { return Failed(-EINVAL); }
      var m := MsgAlloc();
      if m == None { return Failed(-ENOMEM); }
      var i := m.value;
      var sender := if table.current >= 0 then table.procs[table.current].pid else 0;
      FillNode(i, sender, typ, data, len);
      r := Held(target.value, i);
      ListsAlloc(queues, old(next[..]), heads[..], tails[..], counts[..], i);
    }

    /** ipc_send's writes to its new node. */
    method FillNode(i: nat, sender: int, typ: nat, data: Option<seq<nat>>, len: nat)
      requires Separate() && i < POOL_SIZE && len <= |pool[i].data| && Buffered(data, len)
      modifies pool
      ensures pool[..] == old(pool[..])[i := Node(sender, typ, len, Fill(old(pool[i].data), data, len))]
    {
      pool[i] := pool[i].(from := sender);
      pool[i] := pool[i].(typ := typ);
      pool[i] := pool[i].(len := len);
      if len > 0 && data.Some? { CopyIn(i, data.value, len); }
    }

    /** ipc_send as a whole, undisturbed. */
    method Send(dst: int, typ: nat, data: Option<seq<nat>>, len: nat) returns (status: int)
      requires Valid() && Buffered(data, len)
      modifies this`queues, table.procs, pool, used, next, heads, tails, counts
      ensures Valid()
      ensures var (m, r) := Messages.SendBegin(old(State()), dst, typ, data, len);
        && status == (if r.Failed? then r.errno else 0)
        && IsMail(m) && (r.Held? ==> r.target < PROC_MAX)
        && State() == if r.Failed? then old(State()) else Messages.SendEnd(m, r.target, r.node)
    {
      hide Lists, Linked, Queued, FirstFree, Overlay, Find;
      SendBeginQueued(State(), dst, typ, data, len);
      var r := SendBegin(dst, typ, data, len);
      hide Messages.SendBegin;
      if r.Failed? { return r.errno; }
      SendEnd(r.target, r.node);
      return 0;
    }

    /** The enqueue section of ipc_send. */
    method SendEnd(target: nat, node: nat)
      requires Valid() && target < PROC_MAX && node < POOL_SIZE
      requires used[node] && pool[node].len <= MSG_MAX
      requires forall p | 0 <= p < PROC_MAX :: node !in queues[p]
      modifies this`queues, table.procs, next, heads, tails, counts
      ensures Valid() && State() == Messages.SendEnd(old(State()), target, node)
    {
      hide Lists, Linked;
      ListsTail(queues, next[..], heads[..], tails[..], counts[..], target);
      ListsAppend(queues, next[..], heads[..], tails[..], counts[..], target, node);
      hide Queued;
      SendEndQueued(State(), target, node);
      Append(target, node);
      queues := queues[target := queues[target] + [node]];
      if table.procs[target].state == Scheduler.Sleeping { table.Wakeup(target); }
    }

    /** The list operation of the enqueue section. */
    method Append(target: nat, node: nat)
      requires Separate() && target < PROC_MAX && node < POOL_SIZE && -1 <= tails[target] < POOL_SIZE
      modifies next, heads, tails, counts
      ensures heads[..] == if old(tails[target]) == -1 then old(heads[..])[target := node] else old(heads[..])
      ensures tails[..] == old(tails[..])[target := node]
      ensures counts[..] == old(counts[..])[target := old(counts[target]) + 1]
      ensures next[..] == if old(tails[target]) == -1 then old(next[..])[node := -1]
                          else old(next[..])[node := -1][old(tails[target]) := node]
    {
      next[node] := -1;
      if tails[target] == -1 {
        heads[target] := node;
        tails[target] := node;
      } else {
        next[tails[target]] := node;
        tails[target] := node;
      }
      counts[target] := counts[target] + 1;
    }

    /** One round of ipc_recv's loop with interrupts off: None when the queue was empty and the
        process is about to sleep. */
    method RecvCheck(out: Buffer?) returns (status: Option<int>)
      requires Valid() && (out != null ==> out.data.Length == MSG_MAX)
      modifies this`queues, used, heads, tails, counts, Written(out)
      ensures Valid() && status == RecvStatus(old(State()), out)
      ensures status == Some(0) ==>
                && State() == Dequeue(old(State()))
                && out.Value() == Deliver(old(out.Value()), old(pool[queues[table.current][0]]))
                && old(LettersIn(State(), table.current)) == [LetterOf(out.Value())] + LettersIn(State(), table.current)
      ensures status != Some(0) ==> State() == old(State()) && (out != null ==> out.Value() == old(out.Value()))
    {
      if table.current < 0 || out == null { return Some(-EINVAL); }
      ListsHead(queues, next[..], heads[..], tails[..], counts[..], table.current);
      if heads[table.current] == -1 { return None; }
      Take(out);
      return Some(0);
    }

    /** One full round of ipc_recv's loop, with nothing in between: sleep when there is no
        message. */
    method RecvRound(out: Buffer?) returns (status: Option<int>)
      requires Valid() && (out != null ==> out.data.Length == MSG_MAX)
      modifies this`queues, table`current, table.procs, used, heads, tails, counts, Written(out)
      ensures Valid() && status == RecvStatus(old(State()), out)
      ensures status == None ==> State() == old(State()).(s := Scheduler.Sleep(old(State()).s, 10))
      ensures status == Some(0) ==>
                && State() == Dequeue(old(State()))
                && out.Value() == Deliver(old(out.Value()), old(pool[queues[table.current][0]]))
                && old(LettersIn(State(), table.current)) == [LetterOf(out.Value())] + LettersIn(State(), table.current)
      ensures status == Some(-EINVAL) ==> State() == old(State())
    {
      hide Lists, Linked, Overlay, Dequeue, Deliver, Scheduler.Schedule, Scheduler.Sleep;
      status := RecvCheck(out);
      if status == None { table.Sleep(10); }
    }

    /** The dequeue section of ipc_recv. */
    method Take(out: Buffer)
      requires Valid() && out.data.Length == MSG_MAX && table.current >= 0 && queues[table.current] != []
      modifies this`queues, used, heads, tails, counts, out, out.data
      ensures Valid() && State() == Dequeue(old(State()))
      ensures out.Value() == Deliver(old(out.Value()), old(pool[queues[table.current][0]]))
      ensures old(LettersIn(State(), table.current)) == [LetterOf(out.Value())] + LettersIn(State(), table.current)
    {
      hide Lists, Linked, Overlay, LettersIn, LetterOf;
      var p := table.current;
      ghost var m := State();
      assert IsMail(m);
      TakeLetters(m, out.Value());
      hide Queued;
      ListsHead(queues, next[..], heads[..], tails[..], counts[..], p);
      DequeueQueued(m);
      ListsPop(queues, next[..], heads[..], tails[..], counts[..], p);
      var i := heads[p];
      Pop(p);
      CopyOut(out, pool[i]);
      MsgFree(i);
      queues := queues[p := queues[p][1..]];
    }

    /** The list operation of the dequeue section. */
    method Pop(p: nat)
      requires Separate() && p < PROC_MAX && 0 <= heads[p] < POOL_SIZE && counts[p] > 0
      modifies heads, tails, counts
      ensures heads[..] == old(heads[..])[p := next[old(heads[p])]]
      ensures tails[..] == if next[old(heads[p])] == -1 then old(tails[..])[p := -1] else old(tails[..])
      ensures counts[..] == old(counts[..])[p := old(counts[p]) - 1]
    {
      heads[p] := next[heads[p]];
      if heads[p] == -1 { tails[p] := -1; }
      counts[p] := counts[p] - 1;
    }

    /** ipc_recv's copy into the caller's buffer. */
    method CopyOut(out: Buffer, n: Node)
      requires n.len <= |n.data| && n.len <= out.data.Length
      modifies out, out.data
      ensures out.Value() == Deliver(old(out.Value()), n)
    {
      hide Overlay;
      out.from := n.from;
      out.typ := n.typ;
      out.len := n.len;
      ghost var was := out.data[..];
      OverlayNone(n.data, was);
      for j := 0 to n.len
        modifies out.data
        invariant out.data[..] == Overlay(n.data, was, j)
      {
        OverlayStep(n.data, was, j);
        out.data[j] := n.data[j];
      }
    }
  }

  /** The outcome of one round of ipc_recv; None stands for the sleep. */
  ghost function RecvStatus(m: Mail, out: Buffer?): Option<int>
    requires IsMail(m)
  {
    if m.s.cur < 0 || out == null then Some(-EINVAL) else if m.queues[m.s.cur] == [] then None else Some(0)
  }

  /** What a receive writes in the caller's memory. */
  ghost function Written(out: Buffer?): set<object> {
    if out == null then {} else {out, out.data}
  }

  /** A list of nodes q, linked by next from head to tail and ending in NULL. */
  ghost predicate Linked(q: seq<nat>, next: seq<int>, head: int, tail: int, count: nat) {
    && count == |q|
    && (forall a | 0 <= a < |q| :: q[a] < |next|)
    && if q == [] then head == -1 && tail == -1
       else
         && head == q[0] && tail == q[|q| - 1] && next[tail] == -1
         && forall a | 0 <= a < |q| - 1 :: next[q[a]] == q[a + 1]
  }

  /** The queues of all processes as lists. */
  ghost predicate Lists(queues: seq<seq<nat>>, next: seq<int>, heads: seq<int>, tails: seq<int>, counts: seq<nat>) {
    && |queues| == |heads| == |tails| == |counts| == PROC_MAX
    && forall p | 0 <= p < PROC_MAX :: Linked(queues[p], next, heads[p], tails[p], counts[p])
  }

  lemma ListsTail(queues: seq<seq<nat>>, next: seq<int>, heads: seq<int>, tails: seq<int>, counts: seq<nat>, p: nat)
    requires Lists(queues, next, heads, tails, counts) && p < PROC_MAX
    ensures -1 <= tails[p] < |next| && (tails[p] == -1 <==> queues[p] == [])
  {
    assert Linked(queues[p], next, heads[p], tails[p], counts[p]);
  }

  lemma ListsHead(queues: seq<seq<nat>>, next: seq<int>, heads: seq<int>, tails: seq<int>, counts: seq<nat>, p: nat)
    requires Lists(queues, next, heads, tails, counts) && p < PROC_MAX
    ensures if queues[p] == [] then heads[p] == -1
            else heads[p] == queues[p][0] < |next| && counts[p] > 0
  {
    assert Linked(queues[p], next, heads[p], tails[p], counts[p]);
  }

  lemma ListsAlloc(queues: seq<seq<nat>>, next: seq<int>, heads: seq<int>, tails: seq<int>, counts: seq<nat>, node: nat)
    requires Lists(queues, next, heads, tails, counts) && node < |next|
    requires forall p | 0 <= p < PROC_MAX :: node !in queues[p]
    ensures Lists(queues, next[node := -1], heads, tails, counts)
  {
    hide Linked;
    forall p | 0 <= p < PROC_MAX ensures Linked(queues[p], next[node := -1], heads[p], tails[p], counts[p]) {
      LinkApart(queues[p], next, next[node := -1], heads[p], tails[p], counts[p]);
    }
  }

  /** Appending a node at the tail. */
  lemma ListsAppend(queues: seq<seq<nat>>, next: seq<int>, heads: seq<int>, tails: seq<int>,
      counts: seq<nat>, target: nat, node: nat)
    requires Lists(queues, next, heads, tails, counts) && target < PROC_MAX && node < |next|
    requires forall p | 0 <= p < PROC_MAX :: node !in queues[p]
    requires forall p, a, b | 0 <= p < PROC_MAX && 0 <= a < b < |queues[p]| :: queues[p][a] != queues[p][b]
    requires forall p, q, i | 0 <= p < q < PROC_MAX && i in queues[p] :: i !in queues[q]
    ensures var empty, tail := queues[target] == [], tails[target];
      && (!empty ==> 0 <= tail < |next|)
      && Lists(queues[target := queues[target] + [node]],
               if empty then next[node := -1] else next[node := -1][tail := node],
               if empty then heads[target := node] else heads, tails[target := node],
               counts[target := counts[target] + 1])
  {
    assert Linked(queues[target], next, heads[target], tails[target], counts[target]);
    LinkAppend(queues[target], next, heads[target], tails[target], counts[target], node);
    var empty, tail := queues[target] == [], tails[target];
    if !empty { assert queues[target][|queues[target]| - 1] in queues[target]; }
    var next1 := if empty then next[node := -1] else next[node := -1][tail := node];
    forall p | 0 <= p < PROC_MAX && p != target ensures Linked(queues[p], next1, heads[p], tails[p], counts[p]) {
      assert !empty ==> tail !in queues[p];
      hide Linked;
      LinkApart(queues[p], next, next1, heads[p], tails[p], counts[p]);
    }
  }

  /** Removing the node at the head. */
  lemma ListsPop(queues: seq<seq<nat>>, next: seq<int>, heads: seq<int>, tails: seq<int>, counts: seq<nat>, p: nat)
    requires Lists(queues, next, heads, tails, counts) && p < PROC_MAX && queues[p] != []
    ensures 0 <= heads[p] < |next| && counts[p] > 0
    ensures Lists(queues[p := queues[p][1..]], next, heads[p := next[heads[p]]],
                  if next[heads[p]] == -1 then tails[p := -1] else tails, counts[p := counts[p] - 1])
  {
    assert Linked(queues[p], next, heads[p], tails[p], counts[p]);
    var rest := queues[p][1..];
    if rest != [] { assert next[queues[p][0]] == queues[p][1] == rest[0]; }
    forall a | 0 <= a < |rest| - 1 ensures next[rest[a]] == rest[a + 1] {
      assert queues[p][a + 1] == rest[a] && queues[p][a + 2] == rest[a + 1];
    }
    assert Linked(rest, next, next[heads[p]], if next[heads[p]] == -1 then -1 else tails[p], counts[p] - 1);
  }

  lemma LinkAppend(q: seq<nat>, next: seq<int>, head: int, tail: int, count: nat, node: nat)
    requires Linked(q, next, head, tail, count) && node !in q && node < |next|
    requires forall a, b | 0 <= a < b < |q| :: q[a] != q[b]
    ensures q == [] ==> Linked(q + [node], next[node := -1], node, node, count + 1)
    ensures q != [] ==> Linked(q + [node], next[node := -1][tail := node], head, node, count + 1)
  {
  }

  /** A list is not touched by changes to the links of other nodes. */
  lemma LinkApart(q: seq<nat>, next: seq<int>, next1: seq<int>, head: int, tail: int, count: nat)
    requires Linked(q, next, head, tail, count) && |next1| == |next|
    requires forall i | i in q && i < |next| :: next1[i] == next[i]
    ensures Linked(q, next1, head, tail, count)
  {
    forall a | 0 <= a < |q| ensures next1[q[a]] == next[q[a]] { assert q[a] in q; }
  }
}
