/** Messages between processes: kernel/ipc/ipc.c on values. */
module Messages {
  import opened Options
  import opened Scheduler
  import opened ProcCreation

  const POOL_SIZE: nat := 128
  const MSG_MAX: nat := 256
  const ESRCH: int := 3
  const ENOMEM: int := 12
  const EINVAL: int := 22

  /** ipc_message_t without its link. */
  datatype Node = Node(from: int, typ: nat, len: nat, data: seq<nat>)

  /** What a message says: the first len bytes of the data count. */
  datatype Letter = Letter(from: int, typ: nat, len: nat, bytes: seq<nat>)

  /** The scheduler, the message pool, and for every process the pool nodes of its queue. */
  datatype Mail = Mail(s: Sched, pool: seq<Node>, used: seq<bool>, queues: seq<seq<nat>>)

  predicate IsMail(m: Mail) {
    && IsSched(m.s) && |m.pool| == POOL_SIZE && |m.used| == POOL_SIZE && |m.queues| == PROC_MAX
    && forall i | 0 <= i < POOL_SIZE :: |m.pool[i].data| == MSG_MAX
  }

  /** Queued nodes are in use, hold at most 256 bytes, and stand in one queue, once. */
  ghost predicate Queued(m: Mail) {
    && IsMail(m)
    && (forall p, a | 0 <= p < PROC_MAX && 0 <= a < |m.queues[p]| ::
          var i := m.queues[p][a]; i < POOL_SIZE && m.used[i] && m.pool[i].len <= MSG_MAX)
    && (forall p, a, b | 0 <= p < PROC_MAX && 0 <= a < b < |m.queues[p]| :: m.queues[p][a] != m.queues[p][b])
    && (forall p, q, i | 0 <= p < q < PROC_MAX && i in m.queues[p] :: i !in m.queues[q])
  }

  function LetterOf(n: Node): Letter
    requires n.len <= |n.data|
  {
    Letter(n.from, n.typ, n.len, n.data[..n.len])
  }

  /** msg_alloc's search. */
  function FirstFree(used: seq<bool>, i: nat): Option<nat>
    requires i <= |used|
    decreases |used| - i
  {
    if i == |used| then None else if !used[i] then Some(i) else FirstFree(used, i + 1)
  }

  lemma {:induction false} FirstFreeIs(used: seq<bool>, i: nat)
    requires i <= |used|
    ensures FirstFree(used, i).None? <==> forall j | i <= j < |used| :: used[j]
    ensures FirstFree(used, i).Some? ==>
              var k := FirstFree(used, i).value;
              i <= k < |used| && !used[k] && forall j | i <= j < k :: used[j]
    decreases |used| - i
  {
    if i < |used| { FirstFreeIs(used, i + 1); }
  }

  /** A buffer whose first n bytes have been copied from src. */
  function Overlay(src: seq<nat>, was: seq<nat>, n: nat): (now: seq<nat>)
    requires n <= |was| && n <= |src|
    ensures |now| == |was|
  {
    src[..n] + was[n..]
  }

  lemma OverlayStep(src: seq<nat>, was: seq<nat>, n: nat)
    requires n < |was| && n < |src|
    ensures Overlay(src, was, n)[n := src[n]] == Overlay(src, was, n + 1)
  {
  }

  lemma OverlayNone(src: seq<nat>, was: seq<nat>)
    ensures Overlay(src, was, 0) == was
  {
  }

  /** The data of a node after ipc_send's copy; without a buffer nothing is copied. */
  function Fill(was: seq<nat>, data: Option<seq<nat>>, len: nat): (now: seq<nat>)
    requires len <= |was| && (data.Some? ==> len <= |data.value|)
    ensures |now| == |was|
  {
    if len > 0 && data.Some? then Overlay(data.value, was, len) else was
  }

  datatype SendResult = Failed(errno: int) | Held(target: nat, node: nat)

  /** A caller's buffer holds at least the bytes it announces. */
  predicate Buffered(data: Option<seq<nat>>, len: nat) {
    data.Some? ==> len <= |data.value|
  }

  function SenderPid(s: Sched): int
    requires IsSched(s)
  {
    if s.cur >= 0 then s.procs[s.cur].pid else 0
  }

  /** ipc_send up to the point where the filled node waits to be enqueued. */
  function SendBegin(m: Mail, dst: int, typ: nat, data: Option<seq<nat>>, len: nat): (Mail, SendResult)
    requires IsMail(m) && Buffered(data, len)
  {
    match Find(m.s.procs, dst, 0)
    case None => (m, Failed(-ESRCH))
    case Some(target) =>
      if len > MSG_MAX then (m, Failed(-EINVAL))
      else
        match FirstFree(m.used, 0)
        case None => (m, Failed(-ENOMEM))
        case Some(i) =>
          if i >= POOL_SIZE then (m, Failed(-ENOMEM))
          else
            var n := Node(SenderPid(m.s), typ, len, Fill(m.pool[i].data, data, len));
            (m.(pool := m.pool[i := n], used := m.used[i := true]), Held(target, i))
  }

  /** The enqueue section of ipc_send: append, count, wake the target. */
  function SendEnd(m: Mail, target: nat, node: nat): (m1: Mail)
    requires IsMail(m) && target < PROC_MAX
    ensures IsMail(m1)
  {
    m.(queues := m.queues[target := m.queues[target] + [node]], s := Wakeup(m.s, target))
  }

  /** What the receiver's buffer holds afterwards: its bytes beyond len stay. */
  function Deliver(out: Node, n: Node): Node
    requires n.len <= |n.data| && n.len <= |out.data|
  {
    Node(n.from, n.typ, n.len, Overlay(n.data, out.data, n.len))
  }

  /** The receiver's buffer says what the message said, and nothing beyond its bytes changes. */
  lemma DeliverLetter(out: Node, n: Node)
    requires n.len <= |n.data| && n.len <= |out.data|
    ensures var d := Deliver(out, n);
      |d.data| == |out.data| && d.len == n.len && LetterOf(d) == LetterOf(n) && d.data[n.len..] == out.data[n.len..]
  {
    assert Overlay(n.data, out.data, n.len)[..n.len] == n.data[..n.len];
    assert Overlay(n.data, out.data, n.len)[n.len..] == out.data[n.len..];
  }

  /** The dequeue section of ipc_recv for the current process. */
  function Dequeue(m: Mail): (m1: Mail)
    requires Queued(m) && m.s.cur >= 0 && m.queues[m.s.cur] != []
    ensures IsMail(m1)
  {
    var p := m.s.cur;
    var i := m.queues[p][0];
    m.(queues := m.queues[p := m.queues[p][1..]], used := m.used[i := false])
  }

  // --- the shape of the queues --------------------------------------------------------------

  lemma SendBeginQueued(m: Mail, dst: int, typ: nat, data: Option<seq<nat>>, len: nat)
    requires Queued(m) && Buffered(data, len)
    ensures var (m1, r) := SendBegin(m, dst, typ, data, len);
      && Queued(m1) && m1.queues == m.queues && m1.s == m.s
      && (r.Failed? ==> m1 == m)
      && (r.Held? ==>
            && r.target < PROC_MAX && m.s.procs[r.target].state != Unused && m.s.procs[r.target].pid == dst
            && r.node < POOL_SIZE && !m.used[r.node] && m1.used == m.used[r.node := true]
            && (forall i | 0 <= i < r.node :: m.used[i])
            && (forall p | 0 <= p < PROC_MAX :: r.node !in m.queues[p])
            && (forall i | 0 <= i < POOL_SIZE && i != r.node :: m1.pool[i] == m.pool[i])
            && m1.pool[r.node].len == len <= MSG_MAX
            && m1.pool[r.node].from == (if m.s.cur < 0 then 0 else m.s.procs[m.s.cur].pid)
            && m1.pool[r.node].typ == typ
            && LetterOf(m1.pool[r.node]).bytes ==
                 (if data.Some? then data.value[..len] else m.pool[r.node].data[..len])
            && m1.pool[r.node].data[len..] == m.pool[r.node].data[len..])
  {
    FindIs(m.s.procs, dst, 0);
    FirstFreeIs(m.used, 0);
  }

  /** ipc_send reports exactly why it fails, in this order: no such process, too long, no
      free message. */
  lemma SendBeginErrors(m: Mail, dst: int, typ: nat, data: Option<seq<nat>>, len: nat)
    requires IsMail(m) && Buffered(data, len)
    ensures var r := SendBegin(m, dst, typ, data, len).1;
      var known := exists j | 0 <= j < PROC_MAX :: m.s.procs[j].state != Unused && m.s.procs[j].pid == dst;
      var room := exists i | 0 <= i < POOL_SIZE :: !m.used[i];
      r.Held? <==> known && len <= MSG_MAX && room
    ensures var r := SendBegin(m, dst, typ, data, len).1;
      var known := exists j | 0 <= j < PROC_MAX :: m.s.procs[j].state != Unused && m.s.procs[j].pid == dst;
      r.Failed? ==> r.errno == if !known then -ESRCH else if len > MSG_MAX then -EINVAL else -ENOMEM
  {
    FindIs(m.s.procs, dst, 0);
    FirstFreeIs(m.used, 0);
  }

  /** The send with the same arguments puts the same letter into the same node when the pool
      holds other bytes. */
  predicate SameLetter(m: Mail, pool: seq<Node>, dst: int, typ: nat, data: Option<seq<nat>>, len: nat)
    requires IsMail(m) && IsMail(m.(pool := pool)) && Buffered(data, len)
  {
    var (m1, r1) := SendBegin(m, dst, typ, data, len);
    var (m2, r2) := SendBegin(m.(pool := pool), dst, typ, data, len);
    r2 == r1 && (r1.Held? && r1.node < POOL_SIZE ==> LetterOf(m2.pool[r1.node]) == LetterOf(m1.pool[r1.node]))
  }

  /** What a message says does not depend on the bytes its node held before exactly when it
      has no length or comes with a buffer. */
  lemma LetterExact(m: Mail, dst: int, typ: nat, data: Option<seq<nat>>, len: nat)
    requires Queued(m) && Buffered(data, len) && SendBegin(m, dst, typ, data, len).1.Held?
    ensures (forall pool | IsMail(m.(pool := pool)) :: SameLetter(m, pool, dst, typ, data, len))
            <==> len == 0 || data.Some?
  {
    SendBeginQueued(m, dst, typ, data, len);
    var i := SendBegin(m, dst, typ, data, len).1.node;
    var bytes := m.pool[i].data;
    if len == 0 || data.Some? {
      forall pool | IsMail(m.(pool := pool)) ensures SameLetter(m, pool, dst, typ, data, len) {}
    } else {
      var pool := m.pool[i := m.pool[i].(data := bytes[0 := bytes[0] + 1])];
      assert IsMail(m.(pool := pool));
      assert LetterOf(SendBegin(m, dst, typ, data, len).0.pool[i]).bytes[0] == bytes[0];
      assert LetterOf(SendBegin(m.(pool := pool), dst, typ, data, len).0.pool[i]).bytes[0] == bytes[0] + 1;
      assert !SameLetter(m, pool, dst, typ, data, len);
    }
  }

  /** A message to a process that has exited is accepted like any other and joins its queue. */
  lemma ExitedAccepts(m: Mail, j: nat, typ: nat, data: Option<seq<nat>>, len: nat)
    requires Queued(m) && Buffered(data, len) && len <= MSG_MAX && j < PROC_MAX && m.s.procs[j].state == Zombie
    requires forall i | 0 <= i < PROC_MAX && m.s.procs[i].state != Unused &&
      m.s.procs[i].pid == m.s.procs[j].pid :: i == j
    requires exists i | 0 <= i < POOL_SIZE :: !m.used[i]
    ensures var (m1, r) := SendBegin(m, m.s.procs[j].pid, typ, data, len);
      && r.Held? && r.target == j && IsMail(m1)
      && var m2 := SendEnd(m1, j, r.node);
         m2.queues[j] == m.queues[j] + [r.node] && m2.s == m.s
  {
    SendBeginQueued(m, m.s.procs[j].pid, typ, data, len);
    SendBeginErrors(m, m.s.procs[j].pid, typ, data, len);
    hide SendBegin;
    assert m.s.procs[j := Wake(m.s.procs[j])] == m.s.procs;
  }

  lemma SendEndQueued(m: Mail, target: nat, node: nat)
    requires Queued(m) && target < PROC_MAX && node < POOL_SIZE && m.used[node] && m.pool[node].len <= MSG_MAX
    requires forall p | 0 <= p < PROC_MAX :: node !in m.queues[p]
    ensures Queued(SendEnd(m, target, node))
  {
    var m1 := SendEnd(m, target, node);
    forall i ensures i in m1.queues[target] <==> i in m.queues[target] || i == node {
      InAppend(m.queues[target], node, i);
    }
    forall p, a, b | 0 <= p < PROC_MAX && 0 <= a < b < |m1.queues[p]| ensures m1.queues[p][a] != m1.queues[p][b] {
      if p == target && b == |m.queues[p]| { assert m.queues[p][a] in m.queues[p]; }
    }
  }

  /** The enqueue section wakes a sleeping target at once and does nothing else to the
      scheduler; a target in any other state it leaves alone. */
  lemma SendEndWakes(m: Mail, target: nat, node: nat)
    requires IsMail(m) && target < PROC_MAX
    ensures var (p, s1) := (m.s.procs[target], SendEnd(m, target, node).s);
      && (p.state == Sleeping ==> s1 == m.s.(procs := m.s.procs[target := p.(state := Ready)]))
      && (p.state != Sleeping ==> s1 == m.s)
  {
    assert m.s.procs[target := m.s.procs[target]] == m.s.procs;
  }

  lemma InAppend(q: seq<nat>, node: nat, i: nat)
    ensures i in q + [node] <==> i in q || i == node
  {
  }

  lemma DequeueQueued(m: Mail)
    requires Queued(m) && m.s.cur >= 0 && m.queues[m.s.cur] != []
    ensures Queued(Dequeue(m))
    ensures forall p | 0 <= p < PROC_MAX :: m.queues[m.s.cur][0] !in Dequeue(m).queues[p]
  {
    var p := m.s.cur;
    var i := m.queues[p][0];
    var m1 := Dequeue(m);
    assert i in m.queues[p];
    forall j | j in m1.queues[p] ensures j in m.queues[p] && j != i {
      var a :| 0 <= a < |m1.queues[p]| && m1.queues[p][a] == j;
      assert m.queues[p][a + 1] == j;
    }
  }

  // --- the letters in a queue ---------------------------------------------------------------

  /** The letters in a queue, in order. */
  ghost function LettersIn(m: Mail, p: nat): (ls: seq<Letter>)
    requires Queued(m) && p < PROC_MAX
    ensures |ls| == |m.queues[p]|
    ensures forall a | 0 <= a < |ls| :: ls[a] == LetterOf(m.pool[m.queues[p][a]])
  {
    seq(|m.queues[p]|, a requires 0 <= a < |m.queues[p]| => LetterOf(m.pool[m.queues[p][a]]))
  }

  /** The letters in a queue stay the same where the queue and its nodes do. */
  lemma LettersStay(m: Mail, m1: Mail, p: nat)
    requires Queued(m) && Queued(m1) && p < PROC_MAX && m1.queues[p] == m.queues[p]
    requires forall a | 0 <= a < |m.queues[p]| :: m1.pool[m.queues[p][a]] == m.pool[m.queues[p][a]]
    ensures LettersIn(m1, p) == LettersIn(m, p)
  {
  }

  lemma DequeueLetters(m: Mail, p: nat)
    requires Queued(m) && m.s.cur >= 0 && m.queues[m.s.cur] != [] && p < PROC_MAX
    ensures Queued(Dequeue(m))
    ensures LettersIn(m, p) ==
            (if p == m.s.cur then [LetterOf(m.pool[m.queues[p][0]])] else []) + LettersIn(Dequeue(m), p)
  {
    DequeueQueued(m);
    var m1 := Dequeue(m);
    hide Queued;
    if p != m.s.cur {
      LettersStay(m, m1, p);
    } else {
      assert m1.queues[p] == m.queues[p][1..] && m1.pool == m.pool;
      assert LettersIn(m, p)[1..] == LettersIn(m1, p);
    }
  }

  /** What the dequeue section hands to the current process, in a buffer that held `out`, is
      the first letter of its queue; the rest of the queue stays. */
  lemma TakeLetters(m: Mail, out: Node)
    requires Queued(m) && m.s.cur >= 0 && m.queues[m.s.cur] != [] && |out.data| == MSG_MAX
    ensures var p := m.s.cur;
      var n := m.pool[m.queues[p][0]];
      && n.len <= |n.data| == MSG_MAX && Queued(Dequeue(m))
      && Deliver(out, n).len <= |Deliver(out, n).data|
      && LettersIn(m, p) == [LetterOf(Deliver(out, n))] + LettersIn(Dequeue(m), p)
  {
    DequeueLetters(m, m.s.cur);
    DeliverLetter(out, m.pool[m.queues[m.s.cur][0]]);
  }
}
