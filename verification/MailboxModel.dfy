/** The mailbox of src/ipc.c as a state machine. A blocked thread that is resumed does not
    get a message or a slot with it: it tries again when it runs, and others may run first. */
module MailboxModel {
  import opened Sequences
  import opened IpcQueue

  /** `receivers` and `senders` are the suspend lists; the resumed threads have left their
      list and not run yet. */
  datatype State = State(size: nat, contents: seq<int>, receivers: seq<Tid>, senders: seq<Tid>,
                         resumedReceivers: set<Tid>, resumedSenders: set<Tid>)

  function Initial(size: nat): State {
    State(size, [], [], [], {}, {})
  }

  predicate Known(s: State, q: Discipline) {
    && (forall w :: w in s.receivers ==> w in q.priority) && (forall w :: w in s.senders ==> w in q.priority)
  }

  /** A message goes in, and the first waiting receiver is resumed. */
  function Put(s: State, v: int): State {
    var s1 := s.(contents := s.contents + [v]);
    if s.receivers == [] then s1
    else s1.(receivers := s.receivers[1..], resumedReceivers := s.resumedReceivers + {s.receivers[0]})
  }

  /** The oldest message comes out, and the first waiting sender is resumed. */
  function Get(s: State): State
    requires s.contents != []
  {
    var s1 := s.(contents := s.contents[1..]);
    if s.senders == [] then s1
    else s1.(senders := s.senders[1..], resumedSenders := s.resumedSenders + {s.senders[0]})
  }

  /** One pass of the loop of rt_mb_send_wait with `timeout` ticks left */
  function TrySend(s: State, q: Discipline, t: Tid, v: int, timeout: int): State
    requires Known(s, q) && t in q.priority
  {
    if |s.contents| != s.size then Put(s, v)
    else if timeout == 0 then s
    else s.(senders := Queued(s.senders, q.priority, t, q.prio))
  }

  /** One pass of the loop of rt_mb_recv */
  function TryReceive(s: State, q: Discipline, t: Tid, timeout: int): State
    requires Known(s, q) && t in q.priority
  {
    if s.contents != [] then Get(s)
    else if timeout == 0 then s
    else s.(receivers := Queued(s.receivers, q.priority, t, q.prio))
  }

  /** rt_mb_control with RT_IPC_CMD_RESET: waiters are resumed with an error. */
  function Reset(s: State): State {
    s.(contents := [], receivers := [], senders := [])
  }

  datatype Op =
    | Send(t: Tid, v: int, timeout: int)
    | SenderRuns(t: Tid, v: int, timeout: int)
    | Receive(t: Tid, timeout: int)
    | ReceiverRuns(t: Tid, timeout: int)
    | SenderTimeout(t: Tid)
    | ReceiverTimeout(t: Tid)
    | ResetOp

  predicate Idle(s: State, t: Tid) {
    t !in s.receivers && t !in s.senders && t !in s.resumedReceivers && t !in s.resumedSenders
  }

  predicate Legal(s: State, q: Discipline, op: Op) {
    && Known(s, q)
    && match op
       case Send(t, _, _) => t in q.priority && Idle(s, t)
       case SenderRuns(t, _, _) => t in q.priority && t in s.resumedSenders
       case Receive(t, _) => t in q.priority && Idle(s, t)
       case ReceiverRuns(t, _) => t in q.priority && t in s.resumedReceivers
       case SenderTimeout(t) => t in s.senders
       case ReceiverTimeout(t) => t in s.receivers
       case ResetOp => true
  }

  function Step(s: State, q: Discipline, op: Op): State
    requires Legal(s, q, op)
  {
    match op
    case Send(t, v, timeout) => TrySend(s, q, t, v, timeout)
    case SenderRuns(t, v, timeout) => TrySend(s.(resumedSenders := s.resumedSenders - {t}), q, t, v, timeout)
    case Receive(t, timeout) => TryReceive(s, q, t, timeout)
    case ReceiverRuns(t, timeout) => TryReceive(s.(resumedReceivers := s.resumedReceivers - {t}), q, t, timeout)
    case SenderTimeout(t) => s.(senders := Without(s.senders, t))
    case ReceiverTimeout(t) => s.(receivers := Without(s.receivers, t))
    case ResetOp => Reset(s)
  }

  // ----- invariant -----

  /** While receivers wait, every message has a resumed receiver to come for it; while
      senders wait, every free slot has a resumed sender. */
  ghost predicate NoneLost(s: State) {
    && (s.receivers != [] ==> |s.contents| <= |s.resumedReceivers|)
    && (s.senders != [] ==> s.size - |s.contents| <= |s.resumedSenders|)
  }

  /** A thread is in at most one place. */
  ghost predicate Apart(s: State) {
    && Distinct(s.receivers) && Distinct(s.senders) && s.resumedReceivers !! s.resumedSenders
    && (forall t :: t in s.receivers ==> t !in s.senders && t !in s.resumedReceivers && t !in s.resumedSenders)
    && (forall t :: t in s.senders ==> t !in s.resumedReceivers && t !in s.resumedSenders)
  }

  ghost predicate Inv(s: State) {
    Apart(s) && NoneLost(s) && |s.contents| <= s.size
  }

  lemma {:induction false} PutKeepsInv(s: State, v: int)
    requires Apart(s) && |s.contents| < s.size
    requires s.receivers != [] ==> |s.contents| <= |s.resumedReceivers|
    requires s.senders != [] ==> s.size - |s.contents| <= |s.resumedSenders| + 1
    ensures Inv(Put(s, v))
  {
    var s' := Put(s, v);
    if s.receivers != [] {
      var w := s.receivers[0];
      assert w in s.receivers;
      assert |s.resumedReceivers + {w}| == |s.resumedReceivers| + 1;
      TailMembers(s.receivers);
    }
  }

  lemma {:induction false} GetKeepsInv(s: State)
    requires Apart(s) && s.contents != [] && |s.contents| <= s.size
    requires s.senders != [] ==> s.size - |s.contents| <= |s.resumedSenders|
    requires s.receivers != [] ==> |s.contents| <= |s.resumedReceivers| + 1
    ensures Inv(Get(s))
  {
    var s' := Get(s);
    if s.senders != [] {
      var w := s.senders[0];
      assert w in s.senders;
      assert |s.resumedSenders + {w}| == |s.resumedSenders| + 1;
      TailMembers(s.senders);
    }
  }

  lemma {:induction false} QueueSenderKeepsInv(s: State, q: Discipline, t: Tid)
    requires Inv(s) && Known(s, q) && t in q.priority && Idle(s, t) && |s.contents| == s.size
    ensures Inv(s.(senders := Queued(s.senders, q.priority, t, q.prio)))
  {
    hide Queued;
    QueuedMembers(s.senders, q.priority, t, q.prio);
  }

  lemma {:induction false} QueueReceiverKeepsInv(s: State, q: Discipline, t: Tid)
    requires Inv(s) && Known(s, q) && t in q.priority && Idle(s, t) && s.contents == []
    ensures Inv(s.(receivers := Queued(s.receivers, q.priority, t, q.prio)))
  {
    hide Queued;
    QueuedMembers(s.receivers, q.priority, t, q.prio);
  }

  /** A sender's pass; one that was resumed has given up its claim to a slot. */
  lemma {:induction false} TrySendKeepsInv(s: State, q: Discipline, t: Tid, v: int, timeout: int)
    requires Apart(s) && Known(s, q) && t in q.priority && Idle(s, t)
    requires |s.contents| <= s.size
    requires s.receivers != [] ==> |s.contents| <= |s.resumedReceivers|
    requires s.senders != [] ==> s.size - |s.contents| <= |s.resumedSenders| + 1
    requires s.senders != [] && |s.contents| == s.size ==> s.size - |s.contents| <= |s.resumedSenders|
    ensures Inv(TrySend(s, q, t, v, timeout))
  {
    hide Apart, Put, Queued;
    if |s.contents| != s.size {
      PutKeepsInv(s, v);
    } else if timeout != 0 {
      QueueSenderKeepsInv(s, q, t);
    }
  }

  lemma {:induction false} TryReceiveKeepsInv(s: State, q: Discipline, t: Tid, timeout: int)
    requires Apart(s) && Known(s, q) && t in q.priority && Idle(s, t)
    requires |s.contents| <= s.size
    requires s.senders != [] ==> s.size - |s.contents| <= |s.resumedSenders|
    requires s.receivers != [] ==> |s.contents| <= |s.resumedReceivers| + 1
    ensures Inv(TryReceive(s, q, t, timeout))
  {
    hide Apart, Get, Queued;
    if s.contents != [] {
      GetKeepsInv(s);
    } else if timeout != 0 {
      QueueReceiverKeepsInv(s, q, t);
    }
  }

  lemma {:induction false} SenderRunsKeepsInv(s: State, q: Discipline, t: Tid, v: int, timeout: int)
    requires Inv(s) && Known(s, q) && t in q.priority && t in s.resumedSenders
    ensures Inv(TrySend(s.(resumedSenders := s.resumedSenders - {t}), q, t, v, timeout))
  {
    hide TrySend;
    assert |s.resumedSenders - {t}| == |s.resumedSenders| - 1;
    TrySendKeepsInv(s.(resumedSenders := s.resumedSenders - {t}), q, t, v, timeout);
  }

  lemma {:induction false} ReceiverRunsKeepsInv(s: State, q: Discipline, t: Tid, timeout: int)
    requires Inv(s) && Known(s, q) && t in q.priority && t in s.resumedReceivers
    ensures Inv(TryReceive(s.(resumedReceivers := s.resumedReceivers - {t}), q, t, timeout))
  {
    hide TryReceive;
    assert |s.resumedReceivers - {t}| == |s.resumedReceivers| - 1;
    TryReceiveKeepsInv(s.(resumedReceivers := s.resumedReceivers - {t}), q, t, timeout);
  }

  lemma {:induction false} TimeoutKeepsInv(s: State, t: Tid)
    requires Inv(s)
    ensures t in s.senders ==> Inv(s.(senders := Without(s.senders, t)))
    ensures t in s.receivers ==> Inv(s.(receivers := Without(s.receivers, t)))
  {
    hide Without;
    if t in s.senders {
      WithoutMembers(s.senders, t);
    }
    if t in s.receivers {
      WithoutMembers(s.receivers, t);
    }
  }

  lemma {:induction false} StepKeepsInv(s: State, q: Discipline, op: Op)
    requires Inv(s) && Legal(s, q, op)
    ensures Inv(Step(s, q, op))
  {
    hide TrySend, TryReceive, Without, Apart;
    match op
    case Send(t, v, timeout) => TrySendKeepsInv(s, q, t, v, timeout);
    case SenderRuns(t, v, timeout) => SenderRunsKeepsInv(s, q, t, v, timeout);
    case Receive(t, timeout) => TryReceiveKeepsInv(s, q, t, timeout);
    case ReceiverRuns(t, timeout) => ReceiverRunsKeepsInv(s, q, t, timeout);
    case SenderTimeout(t) => TimeoutKeepsInv(s, t);
    case ReceiverTimeout(t) => TimeoutKeepsInv(s, t);
    case ResetOp => ResetKeepsInv(s);
  }

  lemma ResetKeepsInv(s: State)
    requires Inv(s)
    ensures Inv(Reset(s))
  {
  }

  // ----- runs -----

  /** The states a run goes through, under any interleaving of calls, resumed threads
      running, timeouts and resets. */
  ghost predicate IsRun(states: seq<State>, ops: seq<Op>, size: nat, q: Discipline) {
    && |states| == |ops| + 1 && states[0] == Initial(size)
    && forall i :: 0 <= i < |ops| ==> Legal(states[i], q, ops[i]) && states[i + 1] == Step(states[i], q, ops[i])
  }

  /** In no state of any run is a wake-up lost, and the mailbox never holds more than its size. */
  lemma {:induction false} RunKeepsInv(states: seq<State>, ops: seq<Op>, size: nat, q: Discipline, n: nat)
    requires IsRun(states, ops, size, q) && n <= |ops|
    ensures Inv(states[n])
    decreases n
  {
    hide Inv, Step, Legal;
    if n == 0 {
      InitialInv(size);
    } else {
      RunKeepsInv(states, ops, size, q, n - 1);
      StepKeepsInv(states[n - 1], q, ops[n - 1]);
    }
  }

  lemma InitialInv(size: nat)
    ensures Inv(Initial(size))
  {
  }

  /** When every resumed thread has run, no receiver waits for a message that is there and no
      sender for a slot that is free. */
  lemma {:induction false} QuietMeansServed(states: seq<State>, ops: seq<Op>, size: nat, q: Discipline, n: nat)
    requires IsRun(states, ops, size, q) && n <= |ops|
    requires states[n].resumedReceivers == {} && states[n].resumedSenders == {}
    ensures states[n].receivers != [] ==> states[n].contents == []
    ensures states[n].senders != [] ==> |states[n].contents| == states[n].size
  {
    hide IsRun;
    RunKeepsInv(states, ops, size, q, n);
  }

  // ----- what the mailbox delivers, told from the calls -----

  /** A sender's pass that finds room. */
  predicate Accepts(s: State, op: Op) {
    (op.Send? || op.SenderRuns?) && |s.contents| != s.size
  }

  /** A receiver's pass that finds a message. */
  predicate Delivers(s: State, op: Op) {
    (op.Receive? || op.ReceiverRuns?) && s.contents != []
  }

  /** The values sent since the last reset by passes that found room. */
  ghost function Sent(states: seq<State>, ops: seq<Op>, n: nat): seq<int>
    requires |states| == |ops| + 1 && n <= |ops|
  {
    if n == 0 || ops[n - 1] == ResetOp then []
    else Sent(states, ops, n - 1) + if Accepts(states[n - 1], ops[n - 1]) then [ops[n - 1].v] else []
  }

  /** The messages that receivers found first, since the last reset. */
  ghost function Received(states: seq<State>, ops: seq<Op>, n: nat): seq<int>
    requires |states| == |ops| + 1 && n <= |ops|
  {
    if n == 0 || ops[n - 1] == ResetOp then []
    else Received(states, ops, n - 1) + if Delivers(states[n - 1], ops[n - 1]) then [states[n - 1].contents[0]] else []
  }

  /** In every run the values sent are those received, in order, followed by those in the mailbox. */
  lemma {:induction false} RunIsFifo(states: seq<State>, ops: seq<Op>, size: nat, q: Discipline, n: nat)
    requires IsRun(states, ops, size, q) && n <= |ops|
    ensures Sent(states, ops, n) == Received(states, ops, n) + states[n].contents
    decreases n
  {
    hide Step, Legal, Accepts, Delivers;
    if n > 0 {
      RunIsFifo(states, ops, size, q, n - 1);
      StepOnContents(states[n - 1], q, ops[n - 1]);
      if ops[n - 1] != ResetOp {
        FifoStep(Sent(states, ops, n - 1), Received(states, ops, n - 1), states[n - 1], ops[n - 1], states[n].contents);
      }
    }
  }

  ghost predicate ContentsStep(s: State, op: Op, contents: seq<int>) {
    contents == if op == ResetOp then [] else if Accepts(s, op) then s.contents + [op.v]
                else if Delivers(s, op) then s.contents[1..] else s.contents
  }

  /** A message goes in as it was sent, at the end, and comes out at the front. */
  lemma {:induction false} StepOnContents(s: State, q: Discipline, op: Op)
    requires Legal(s, q, op)
    ensures ContentsStep(s, op, Step(s, q, op).contents)
  {
    hide Queued, Without;
  }

  lemma {:induction false} FifoStep(sent: seq<int>, received: seq<int>, s: State, op: Op, contents: seq<int>)
    requires sent == received + s.contents && ContentsStep(s, op, contents) && op != ResetOp
    ensures sent + (if Accepts(s, op) then [op.v] else []) == received + (if Delivers(s, op) then [s.contents[0]] else []) + contents
  {
    if Accepts(s, op) {
      assert received + s.contents + [op.v] == received + (s.contents + [op.v]);
      assert received + [] == received;
    } else if Delivers(s, op) {
      assert received + [s.contents[0]] + s.contents[1..] == received + s.contents;
      assert sent + [] == sent;
    } else {
      assert sent + [] == sent && received + [] == received;
    }
  }

  // ----- who waits, told from the calls -----

  /** Thread `t` has come to wait to send: its last pass found no room, and since then it was neither
      resumed nor timed out nor reset. */
  ghost predicate WaitsToSend(states: seq<State>, ops: seq<Op>, t: Tid, n: nat)
    requires |states| == |ops| + 1 && n <= |ops|
  {
    n > 0 &&
    var s, op := states[n - 1], ops[n - 1];
    if (op.Send? || op.SenderRuns?) && op.t == t then |s.contents| == s.size && op.timeout != 0
    else op != ResetOp && op != SenderTimeout(t) && !WakesSender(s, op, t) && WaitsToSend(states, ops, t, n - 1)
  }

  /** A receiver makes room for the first waiting sender. */
  predicate WakesSender(s: State, op: Op, t: Tid) {
    Delivers(s, op) && s.senders != [] && s.senders[0] == t
  }

  /** The same to receive. */
  ghost predicate WaitsToReceive(states: seq<State>, ops: seq<Op>, t: Tid, n: nat)
    requires |states| == |ops| + 1 && n <= |ops|
  {
    n > 0 &&
    var s, op := states[n - 1], ops[n - 1];
    if (op.Receive? || op.ReceiverRuns?) && op.t == t then s.contents == [] && op.timeout != 0
    else op != ResetOp && op != ReceiverTimeout(t) && !WakesReceiver(s, op, t) && WaitsToReceive(states, ops, t, n - 1)
  }

  predicate WakesReceiver(s: State, op: Op, t: Tid) {
    Accepts(s, op) && s.receivers != [] && s.receivers[0] == t
  }

  /** In every state of every run the suspend lists hold exactly the threads that have come to wait. */
  lemma {:induction false} SuspendedIffWaiting(states: seq<State>, ops: seq<Op>, size: nat, q: Discipline, t: Tid, n: nat)
    requires IsRun(states, ops, size, q) && n <= |ops|
    ensures t in states[n].senders <==> WaitsToSend(states, ops, t, n)
    ensures t in states[n].receivers <==> WaitsToReceive(states, ops, t, n)
    decreases n
  {
    hide Inv, Step, Legal, WakesSender, WakesReceiver;
    if n > 0 {
      SuspendedIffWaiting(states, ops, size, q, t, n - 1);
      RunKeepsInv(states, ops, size, q, n - 1);
      StepSenders(states[n - 1], q, ops[n - 1], t);
      StepReceivers(states[n - 1], q, ops[n - 1], t);
    }
  }

  lemma {:induction false} StepSenders(s: State, q: Discipline, op: Op, t: Tid)
    requires Inv(s) && Legal(s, q, op)
    ensures t in Step(s, q, op).senders <==>
            if (op.Send? || op.SenderRuns?) && op.t == t then |s.contents| == s.size && op.timeout != 0
            else op != ResetOp && op != SenderTimeout(t) && !WakesSender(s, op, t) && t in s.senders
  {
    hide Queued, Without, Distinct, NoneLost;
    if (op.Send? || op.SenderRuns?) && |s.contents| == s.size {
      QueuedMembers(s.senders, q.priority, op.t, q.prio);
    } else if op.SenderTimeout? {
      WithoutMembers(s.senders, op.t);
    } else if s.senders != [] {
      TailMembers(s.senders);
      assert s.senders == [s.senders[0]] + s.senders[1..];
    }
  }

  lemma {:induction false} StepReceivers(s: State, q: Discipline, op: Op, t: Tid)
    requires Inv(s) && Legal(s, q, op)
    ensures t in Step(s, q, op).receivers <==>
            if (op.Receive? || op.ReceiverRuns?) && op.t == t then s.contents == [] && op.timeout != 0
            else op != ResetOp && op != ReceiverTimeout(t) && !WakesReceiver(s, op, t) && t in s.receivers
  {
    hide Queued, Without, Distinct, NoneLost;
    if (op.Receive? || op.ReceiverRuns?) && s.contents == [] {
      QueuedMembers(s.receivers, q.priority, op.t, q.prio);
    } else if op.ReceiverTimeout? {
      WithoutMembers(s.receivers, op.t);
    } else if s.receivers != [] {
      TailMembers(s.receivers);
      assert s.receivers == [s.receivers[0]] + s.receivers[1..];
    }
  }
}
