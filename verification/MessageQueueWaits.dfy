/** Who waits for messages: the steps of the message queue together with the suspend list. A
    receiver that is resumed does not get the message with it: it tries again when it runs. */
module MessageQueueWaits {
  import opened Sequences
  import opened IpcQueue
  import M = MessageQueueModel

  /** `receivers` is the suspend list; the resumed threads have left it and not run yet. */
  datatype State = State(queue: M.State, receivers: seq<Tid>, resumed: set<Tid>)

  predicate Known(s: State, q: Discipline) {
    forall w :: w in s.receivers ==> w in q.priority
  }

  /** A message was linked: the first waiting receiver is resumed. */
  function Resumed(s: State): State {
    if s.receivers == [] then s else s.(receivers := s.receivers[1..], resumed := s.resumed + {s.receivers[0]})
  }

  /** One pass of the loop of rt_mq_recv with `timeout` ticks left */
  ghost function TryReceive(s: State, q: Discipline, t: Tid, timeout: int): State
    requires Known(s, q) && t in q.priority && t !in s.queue.held
  {
    if s.queue.queued != [] then s.(queue := M.Step(s.queue, M.Unlink(t)))
    else if timeout == 0 then s
    else s.(receivers := Queued(s.receivers, q.priority, t, q.prio))
  }

  /** A step on the nodes alone, the second half of a send, a receiver's first and later passes, its
      timeout, and a reset, which resumes the waiters with an error. */
  datatype Op =
    | NodeOp(op: M.Op)
    | LinkOp(op: M.Op)
    | Receive(t: Tid, timeout: int)
    | ReceiverRuns(t: Tid, timeout: int)
    | Timeout(t: Tid)
    | Reset

  predicate Idle(s: State, t: Tid) {
    t !in s.receivers && t !in s.resumed
  }

  ghost predicate Legal(s: State, q: Discipline, op: Op) {
    && Known(s, q)
    && match op
       case NodeOp(o) => (o.Grab? || o.Fill? || o.GiveBack?) && M.Legal(s.queue, o) && Idle(s, o.t)
       case LinkOp(o) => (o.Append? || o.Prepend?) && M.Legal(s.queue, o)
       case Receive(t, _) => t in q.priority && Idle(s, t) && t !in s.queue.held
       case ReceiverRuns(t, _) => t in q.priority && t in s.resumed && t !in s.queue.held
       case Timeout(t) => t in s.receivers
       case Reset => true
  }

  ghost function Step(s: State, q: Discipline, op: Op): State
    requires Legal(s, q, op)
  {
    match op
    case NodeOp(o) => s.(queue := M.Step(s.queue, o))
    case LinkOp(o) => Resumed(s.(queue := M.Step(s.queue, o)))
    case Receive(t, timeout) => TryReceive(s, q, t, timeout)
    case ReceiverRuns(t, timeout) => TryReceive(s.(resumed := s.resumed - {t}), q, t, timeout)
    case Timeout(t) => s.(receivers := Without(s.receivers, t))
    case Reset => s.(queue := M.Step(s.queue, M.ResetOp), receivers := [])
  }

  // ----- invariant -----

  /** A thread waits or is resumed or holds a node. */
  ghost predicate Apart(s: State) {
    && Distinct(s.receivers) && (forall t :: t in s.receivers ==> t !in s.resumed)
    && forall t :: t in s.receivers || t in s.resumed ==> t !in s.queue.held
  }

  /** While receivers wait, every queued message has a resumed receiver to come for it. */
  ghost predicate NoneLost(s: State) {
    s.receivers != [] ==> |s.queue.queued| <= |s.resumed|
  }

  ghost predicate Inv(s: State, nodes: set<int>) {
    M.Inv(s.queue, nodes) && Apart(s) && NoneLost(s)
  }

  lemma {:induction false} LinkKeepsInv(s: State, nodes: set<int>, o: M.Op)
    requires Inv(s, nodes) && (o.Append? || o.Prepend?) && M.Legal(s.queue, o)
    ensures Inv(Resumed(s.(queue := M.Step(s.queue, o))), nodes)
  {
    hide M.Inv;
    M.StepKeepsInv(s.queue, nodes, o);
    if s.receivers != [] {
      var w := s.receivers[0];
      assert w in s.receivers && |s.resumed + {w}| == |s.resumed| + 1;
      TailMembers(s.receivers);
    }
  }

  /** A receiver's pass; one that was resumed has given up its claim to a message. */
  lemma {:induction false} TryReceiveKeepsInv(s: State, nodes: set<int>, q: Discipline, t: Tid, timeout: int)
    requires M.Inv(s.queue, nodes) && Apart(s) && Known(s, q) && t in q.priority && Idle(s, t) && t !in s.queue.held
    requires s.receivers != [] ==> |s.queue.queued| <= |s.resumed| + 1
    ensures Inv(TryReceive(s, q, t, timeout), nodes)
  {
    hide M.Inv, Queued;
    if s.queue.queued != [] {
      M.StepKeepsInv(s.queue, nodes, M.Unlink(t));
    } else if timeout != 0 {
      QueuedMembers(s.receivers, q.priority, t, q.prio);
    }
  }

  lemma {:induction false} ReceiverRunsKeepsInv(s: State, nodes: set<int>, q: Discipline, t: Tid, timeout: int)
    requires Inv(s, nodes) && Known(s, q) && t in q.priority && t in s.resumed && t !in s.queue.held
    ensures Inv(TryReceive(s.(resumed := s.resumed - {t}), q, t, timeout), nodes)
  {
    hide M.Inv, TryReceive;
    assert |s.resumed - {t}| == |s.resumed| - 1;
    TryReceiveKeepsInv(s.(resumed := s.resumed - {t}), nodes, q, t, timeout);
  }

  lemma {:induction false} StepKeepsInv(s: State, nodes: set<int>, q: Discipline, op: Op)
    requires Inv(s, nodes) && Legal(s, q, op)
    ensures Inv(Step(s, q, op), nodes)
  {
    hide M.Inv, TryReceive, Without, Distinct;
    match op
    case NodeOp(o) => M.StepKeepsInv(s.queue, nodes, o);
    case LinkOp(o) => LinkKeepsInv(s, nodes, o);
    case Receive(t, timeout) => TryReceiveKeepsInv(s, nodes, q, t, timeout);
    case ReceiverRuns(t, timeout) => ReceiverRunsKeepsInv(s, nodes, q, t, timeout);
    case Timeout(t) => WithoutMembers(s.receivers, t);
    case Reset =>
      M.StepKeepsInv(s.queue, nodes, M.ResetOp);
      NobodyWaits(s, nodes);
  }

  lemma NobodyWaits(s: State, nodes: set<int>)
    requires Inv(s, nodes)
    ensures Apart(s.(queue := M.Step(s.queue, M.ResetOp), receivers := []))
  {
  }

  // ----- runs -----

  ghost predicate IsRun(states: seq<State>, ops: seq<Op>, q: Discipline) {
    && |states| == |ops| + 1
    && forall i :: 0 <= i < |ops| ==> Legal(states[i], q, ops[i]) && states[i + 1] == Step(states[i], q, ops[i])
  }

  /** Under any interleaving of the halves of sends and receives, resumed threads running, timeouts
      and resets, no wake-up is lost and the nodes stay partitioned. */
  lemma {:induction false} RunKeepsInv(states: seq<State>, ops: seq<Op>, nodes: set<int>, q: Discipline, n: nat)
    requires IsRun(states, ops, q) && Inv(states[0], nodes) && n <= |ops|
    ensures Inv(states[n], nodes)
    decreases n
  {
    hide Inv, Step, Legal;
    if n > 0 {
      RunKeepsInv(states, ops, nodes, q, n - 1);
      StepKeepsInv(states[n - 1], nodes, q, ops[n - 1]);
    }
  }

  /** When every resumed receiver has run, nobody waits for a message that is there. */
  lemma {:induction false} QuietMeansServed(states: seq<State>, ops: seq<Op>, nodes: set<int>, q: Discipline, n: nat)
    requires IsRun(states, ops, q) && Inv(states[0], nodes) && n <= |ops| && states[n].resumed == {}
    ensures states[n].receivers != [] ==> states[n].queue.queued == []
  {
    hide IsRun, M.Inv;
    RunKeepsInv(states, ops, nodes, q, n);
  }

  // ----- the nodes go the way of the queue -----

  /** What a step does to the nodes. */
  ghost predicate NodesStep(s: State, op: Op, queue: M.State)
    requires match op {
               case NodeOp(o) => M.Legal(s.queue, o)
               case LinkOp(o) => M.Legal(s.queue, o)
               case Receive(t, _) => t !in s.queue.held
               case ReceiverRuns(t, _) => t !in s.queue.held
               case _ => true
             }
  {
    match op
    case NodeOp(o) => queue == M.Step(s.queue, o)
    case LinkOp(o) => queue == M.Step(s.queue, o)
    case Receive(t, _) => queue == M.Step(s.queue, M.Unlink(t))
    case ReceiverRuns(t, _) => queue == M.Step(s.queue, M.Unlink(t))
    case Timeout(_) => queue == s.queue
    case Reset => queue == M.Step(s.queue, M.ResetOp)
  }

  /** Every step moves the nodes as the queue's own step does, so that what is proved of runs of the
      queue holds here; a receiver that finds nothing moves none. */
  lemma {:induction false} StepOnNodes(s: State, q: Discipline, op: Op)
    requires Legal(s, q, op)
    ensures NodesStep(s, op, Step(s, q, op).queue)
  {
    hide Queued, Without;
  }

  // ----- who waits, told from the calls -----

  /** A message linked for the first waiting receiver. */
  predicate Wakes(s: State, op: Op, t: Tid) {
    op.LinkOp? && s.receivers != [] && s.receivers[0] == t
  }

  /** Thread `t` has come to wait: its last pass found no message, and since then it was neither
      resumed nor timed out nor reset. */
  ghost predicate Waiting(states: seq<State>, ops: seq<Op>, t: Tid, n: nat)
    requires |states| == |ops| + 1 && n <= |ops|
  {
    n > 0 && WaitsAfter(states[n - 1], ops[n - 1], t, Waiting(states, ops, t, n - 1))
  }

  predicate WaitsAfter(s: State, op: Op, t: Tid, before: bool) {
    if (op.Receive? || op.ReceiverRuns?) && op.t == t then s.queue.queued == [] && op.timeout != 0
    else op != Reset && op != Timeout(t) && !Wakes(s, op, t) && before
  }

  lemma {:induction false} StepReceivers(s: State, nodes: set<int>, q: Discipline, op: Op, t: Tid)
    requires Inv(s, nodes) && Legal(s, q, op)
    ensures t in Step(s, q, op).receivers <==> WaitsAfter(s, op, t, t in s.receivers)
  {
    hide M.Inv, M.Step, M.Legal, Queued, Without, Distinct;
    if (op.Receive? || op.ReceiverRuns?) && s.queue.queued == [] {
      QueuedMembers(s.receivers, q.priority, op.t, q.prio);
    } else if op.Timeout? {
      WithoutMembers(s.receivers, op.t);
    } else if s.receivers != [] {
      TailMembers(s.receivers);
      assert s.receivers == [s.receivers[0]] + s.receivers[1..];
    }
  }

  /** In every state of every run from an idle queue the suspend list holds exactly the threads that
      have come to wait. */
  lemma {:induction false} SuspendedIffWaiting(states: seq<State>, ops: seq<Op>, nodes: set<int>, q: Discipline, t: Tid, n: nat)
    requires IsRun(states, ops, q) && Inv(states[0], nodes) && states[0].receivers == [] && n <= |ops|
    ensures t in states[n].receivers <==> Waiting(states, ops, t, n)
    decreases n
  {
    hide Inv, Step, Legal, WaitsAfter;
    if n > 0 {
      SuspendedIffWaiting(states, ops, nodes, q, t, n - 1);
      RunKeepsInv(states, ops, nodes, q, n - 1);
      StepReceivers(states[n - 1], nodes, q, ops[n - 1], t);
    }
  }
}
