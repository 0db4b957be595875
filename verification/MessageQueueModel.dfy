/** The message queue of src/ipc.c as a state machine. Sending and receiving are each split:
    a node is taken in one critical section, its buffer copied outside any, and the node
    linked or given back in another, so that any number of nodes are in threads' hands. */
module MessageQueueModel {
  import opened Sequences
  import opened IpcQueue

  type Buffer = seq<int>

  /** A node in a thread's hands: from the free list, filled by a sender, or taken from the
      queue by a receiver with the buffer it then had. */
  datatype Hold = Blank(node: int) | Filled(node: int, msg: Buffer, urgent: bool) | Taken(node: int, buffer: Buffer)

  datatype State = State(messageSize: nat, free: seq<int>, queued: seq<int>, held: map<Tid, Hold>, buffers: map<int, Buffer>)

  /** The buffer of a node. */
  function At(buffers: map<int, Buffer>, n: int): Buffer {
    if n in buffers then buffers[n] else []
  }

  datatype Op =
    | Grab(t: Tid)
    | Fill(t: Tid, msg: Buffer, urgent: bool)
    | Append(t: Tid)
    | Prepend(t: Tid)
    | Unlink(t: Tid)
    | GiveBack(t: Tid)
    | ResetOp

  /** Each step is made by a thread that is there: with no node to take one, with the right
      node to go on. A message is no longer than a node's buffer. */
  ghost predicate Legal(s: State, op: Op) {
    match op
    case Grab(t) => t !in s.held
    case Fill(t, msg, _) => t in s.held && s.held[t].Blank? && |msg| <= s.messageSize == |At(s.buffers, s.held[t].node)|
    case Append(t) => t in s.held && s.held[t].Filled? && !s.held[t].urgent
    case Prepend(t) => t in s.held && s.held[t].Filled? && s.held[t].urgent
    case Unlink(t) => t !in s.held
    case GiveBack(t) => t in s.held && s.held[t].Taken?
    case ResetOp => true
  }

  function Reversed(s: seq<int>): seq<int> {
    if s == [] then [] else Reversed(s[1..]) + [s[0]]
  }

  ghost function Step(s: State, op: Op): State
    requires Legal(s, op)
  {
    match op
    case Grab(t) =>
      if s.free == [] then s else s.(free := s.free[1..], held := s.held[t := Blank(s.free[0])])
    case Fill(t, msg, urgent) =>
      var n := s.held[t].node;
      s.(buffers := s.buffers[n := msg + At(s.buffers, n)[|msg|..]], held := s.held[t := Filled(n, msg, urgent)])
    case Append(t) => s.(queued := s.queued + [s.held[t].node], held := s.held - {t})
    case Prepend(t) => s.(queued := [s.held[t].node] + s.queued, held := s.held - {t})
    case Unlink(t) =>
      if s.queued == [] then s
      else s.(queued := s.queued[1..], held := s.held[t := Taken(s.queued[0], At(s.buffers, s.queued[0]))])
    case GiveBack(t) => s.(free := [s.held[t].node] + s.free, held := s.held - {t})
    case ResetOp => s.(queued := [], free := Reversed(s.queued) + s.free)
  }

  // ----- invariant -----

  /** Every node is in exactly one place: free, queued, or in one thread's hands. */
  ghost predicate Partitioned(s: State, nodes: set<int>) {
    && Distinct(s.free) && Distinct(s.queued)
    && (forall n :: n in s.free ==> n in nodes && n !in s.queued)
    && (forall n :: n in s.queued ==> n in nodes)
    && (forall t :: t in s.held ==> s.held[t].node in nodes && s.held[t].node !in s.free && s.held[t].node !in s.queued)
    && (forall t, u :: t in s.held && u in s.held && t != u ==> s.held[t].node != s.held[u].node)
    && |s.free| + |s.queued| + |s.held| == |nodes|
  }

  /** What a thread put into or found in its node is still there. */
  ghost predicate Intact(s: State, nodes: set<int>) {
    && s.buffers.Keys == nodes && (forall n :: n in nodes ==> |At(s.buffers, n)| == s.messageSize)
    && (forall t :: t in s.held ==> HoldIntact(s.held[t], s.buffers))
  }

  ghost predicate HoldIntact(h: Hold, buffers: map<int, Buffer>) {
    && h.node in buffers
    && match h
       case Blank(_) => true
       case Filled(n, msg, _) => msg <= At(buffers, n)
       case Taken(n, buffer) => At(buffers, n) == buffer
  }

  ghost predicate Inv(s: State, nodes: set<int>) {
    Partitioned(s, nodes) && Intact(s, nodes)
  }

  lemma {:induction false} HeldAdded(held: map<Tid, Hold>, t: Tid, h: Hold)
    requires t !in held
    ensures |held[t := h]| == |held| + 1
  {
    assert held[t := h].Keys == held.Keys + {t};
  }

  lemma {:induction false} HeldRemoved(held: map<Tid, Hold>, t: Tid)
    requires t in held
    ensures |held - {t}| == |held| - 1
  {
    assert (held - {t}).Keys == held.Keys - {t};
  }

  lemma {:induction false} GrabKeepsInv(s: State, nodes: set<int>, t: Tid)
    requires Inv(s, nodes) && t !in s.held && s.free != []
    ensures Inv(s.(free := s.free[1..], held := s.held[t := Blank(s.free[0])]), nodes)
  {
    TailMembers(s.free);
    assert s.free[0] in s.free;
    HeldAdded(s.held, t, Blank(s.free[0]));
  }

  /** The copy outside the critical sections touches no node but the sender's own. */
  lemma {:induction false} FillKeepsInv(s: State, nodes: set<int>, t: Tid, msg: Buffer, urgent: bool)
    requires Inv(s, nodes) && Legal(s, Fill(t, msg, urgent))
    ensures Inv(Step(s, Fill(t, msg, urgent)), nodes)
  {
    hide Distinct;
    var n := s.held[t].node;
    var s' := Step(s, Fill(t, msg, urgent));
    assert s'.held.Keys == s.held.Keys;
    assert At(s'.buffers, n) == msg + At(s.buffers, n)[|msg|..];
  }

  lemma {:induction false} AppendKeepsInv(s: State, nodes: set<int>, t: Tid)
    requires Inv(s, nodes) && t in s.held
    ensures Inv(s.(queued := s.queued + [s.held[t].node], held := s.held - {t}), nodes)
  {
    hide Distinct, HoldIntact;
    PushMembers(s.queued, s.held[t].node);
    HeldRemoved(s.held, t);
  }

  lemma {:induction false} PrependKeepsInv(s: State, nodes: set<int>, t: Tid)
    requires Inv(s, nodes) && t in s.held
    ensures Inv(s.(queued := [s.held[t].node] + s.queued, held := s.held - {t}), nodes)
  {
    hide Distinct, HoldIntact;
    PushMembers(s.queued, s.held[t].node);
    HeldRemoved(s.held, t);
  }

  lemma {:induction false} GiveBackKeepsInv(s: State, nodes: set<int>, t: Tid)
    requires Inv(s, nodes) && t in s.held
    ensures Inv(s.(free := [s.held[t].node] + s.free, held := s.held - {t}), nodes)
  {
    hide Distinct, HoldIntact;
    PushMembers(s.free, s.held[t].node);
    HeldRemoved(s.held, t);
  }

  lemma {:induction false} UnlinkKeepsInv(s: State, nodes: set<int>, t: Tid)
    requires Inv(s, nodes) && t !in s.held && s.queued != []
    ensures Inv(s.(queued := s.queued[1..], held := s.held[t := Taken(s.queued[0], At(s.buffers, s.queued[0]))]), nodes)
  {
    TailMembers(s.queued);
    assert s.queued[0] in s.queued;
    HeldAdded(s.held, t, Taken(s.queued[0], At(s.buffers, s.queued[0])));
  }

  lemma ReversedMembers(s: seq<int>)
    ensures |Reversed(s)| == |s| && (forall n :: n in Reversed(s) <==> n in s)
    ensures Distinct(s) ==> Distinct(Reversed(s))
  {
    if s != [] {
      ReversedMembers(s[1..]);
      PushMembers(Reversed(s[1..]), s[0]);
      assert s == [s[0]] + s[1..];
      if Distinct(s) {
        TailMembers(s);
      }
    }
  }

  lemma {:induction false} ResetKeepsInv(s: State, nodes: set<int>)
    requires Inv(s, nodes)
    ensures Inv(Step(s, ResetOp), nodes)
  {
    hide HoldIntact;
    ReversedMembers(s.queued);
    var free := Reversed(s.queued) + s.free;
    assert Distinct(free) by {
      forall i, j | 0 <= i < j < |free| ensures free[i] != free[j] {
        if i < |s.queued| <= j {
          assert free[i] in Reversed(s.queued) && free[j] in s.free;
        }
      }
    }
  }

  lemma {:induction false} StepKeepsInv(s: State, nodes: set<int>, op: Op)
    requires Inv(s, nodes) && Legal(s, op)
    ensures Inv(Step(s, op), nodes)
  {
    hide Inv, Reversed;
    match op
    case Grab(t) =>
      if s.free != [] {
        GrabKeepsInv(s, nodes, t);
      }
    case Fill(t, msg, urgent) => FillKeepsInv(s, nodes, t, msg, urgent);
    case Append(t) => AppendKeepsInv(s, nodes, t);
    case Prepend(t) => PrependKeepsInv(s, nodes, t);
    case Unlink(t) =>
      if s.queued != [] {
        UnlinkKeepsInv(s, nodes, t);
      }
    case GiveBack(t) => GiveBackKeepsInv(s, nodes, t);
    case ResetOp => ResetKeepsInv(s, nodes);
  }

  // ----- what the queue delivers -----

  /** The buffers of the queued nodes, first to be received first. */
  ghost function Contents(s: State, nodes: set<int>): (c: seq<Buffer>)
    requires Inv(s, nodes)
    ensures |c| == |s.queued|
  {
    seq(|s.queued|, i requires 0 <= i < |s.queued| => At(s.buffers, s.queued[i]))
  }

  /** Ordinary messages go to the end and urgent ones to the front, each with its sender's
      message at the start of its buffer; a receiver takes the front and keeps what was in
      it; nothing else changes what is queued. */
  ghost predicate ContentsStep(s: State, op: Op, s': State, c: seq<Buffer>, c': seq<Buffer>)
    requires Legal(s, op)
  {
    match op
    case Append(t) => c' == c + [At(s.buffers, s.held[t].node)] && s.held[t].msg <= c'[|c|]
    case Prepend(t) => c' == [At(s.buffers, s.held[t].node)] + c && s.held[t].msg <= c'[0]
    case Unlink(t) =>
      if s.queued == [] then c' == c
      else c != [] && c' == c[1..] && t in s'.held && s'.held[t] == Taken(s.queued[0], c[0])
    case ResetOp => c' == []
    case _ => c' == c
  }

  lemma {:induction false} StepOnContents(s: State, nodes: set<int>, op: Op)
    requires Inv(s, nodes) && Legal(s, op)
    ensures Inv(Step(s, op), nodes)
    ensures ContentsStep(s, op, Step(s, op), Contents(s, nodes), Contents(Step(s, op), nodes))
  {
    hide Partitioned, Reversed, Distinct;
    StepKeepsInv(s, nodes, op);
    match op
    case Append(t) => assert HoldIntact(s.held[t], s.buffers);
    case Prepend(t) => assert HoldIntact(s.held[t], s.buffers);
    case Fill(t, msg, urgent) => FillKeepsContents(s, nodes, t, msg, urgent);
    case _ =>
  }

  lemma {:induction false} FillKeepsContents(s: State, nodes: set<int>, t: Tid, msg: Buffer, urgent: bool)
    requires Inv(s, nodes) && Legal(s, Fill(t, msg, urgent)) && Inv(Step(s, Fill(t, msg, urgent)), nodes)
    ensures Contents(Step(s, Fill(t, msg, urgent)), nodes) == Contents(s, nodes)
  {
    hide Distinct, HoldIntact;
    assert forall i :: 0 <= i < |s.queued| ==> s.queued[i] in s.queued;
  }

  // ----- runs -----

  ghost predicate IsRun(states: seq<State>, ops: seq<Op>) {
    && |states| == |ops| + 1
    && forall i :: 0 <= i < |ops| ==> Legal(states[i], ops[i]) && states[i + 1] == Step(states[i], ops[i])
  }

  /** In every state of every run the nodes are partitioned and every buffer is as its
      holder left or found it. */
  lemma {:induction false} RunKeepsInv(states: seq<State>, ops: seq<Op>, nodes: set<int>, n: nat)
    requires IsRun(states, ops) && Inv(states[0], nodes) && n <= |ops|
    ensures Inv(states[n], nodes)
    decreases n
  {
    hide Inv, Step, Legal;
    if n > 0 {
      RunKeepsInv(states, ops, nodes, n - 1);
      StepKeepsInv(states[n - 1], nodes, ops[n - 1]);
    }
  }

  /** The buffers appended and the buffers taken by the first `n` steps. */
  ghost function Appended(states: seq<State>, ops: seq<Op>, n: nat): seq<Buffer>
    requires IsRun(states, ops) && n <= |ops|
  {
    if n == 0 then []
    else
      var s, op := states[n - 1], ops[n - 1];
      Appended(states, ops, n - 1) + if op.Append? then [At(s.buffers, s.held[op.t].node)] else []
  }

  ghost function Received(states: seq<State>, ops: seq<Op>, n: nat): seq<Buffer>
    requires IsRun(states, ops) && n <= |ops|
  {
    if n == 0 then []
    else
      var s, op := states[n - 1], ops[n - 1];
      Received(states, ops, n - 1) + if op.Unlink? && s.queued != [] then [At(s.buffers, s.queued[0])] else []
  }

  /** Without urgent messages and resets the queue is first in first out: what was there and
      what was appended since is what was received, in order, followed by what is there. */
  lemma {:induction false} RunIsFifo(states: seq<State>, ops: seq<Op>, nodes: set<int>, n: nat)
    requires IsRun(states, ops) && Inv(states[0], nodes) && n <= |ops|
    requires forall i :: 0 <= i < n ==> !ops[i].Prepend? && !ops[i].ResetOp?
    ensures Inv(states[n], nodes)
    ensures Contents(states[0], nodes) + Appended(states, ops, n) == Received(states, ops, n) + Contents(states[n], nodes)
    decreases n
  {
    hide Inv, Step, Contents;
    RunKeepsInv(states, ops, nodes, n);
    if n == 0 {
      assert Contents(states[0], nodes) + [] == [] + Contents(states[0], nodes);
    } else {
      RunIsFifo(states, ops, nodes, n - 1);
      RunKeepsInv(states, ops, nodes, n - 1);
      var s, op := states[n - 1], ops[n - 1];
      StepOnContents(s, nodes, op);
      var c0, c, c' := Contents(states[0], nodes), Contents(s, nodes), Contents(states[n], nodes);
      FifoStep(c0, Appended(states, ops, n - 1), Received(states, ops, n - 1), c, c', op, s, states[n], nodes);
    }
  }

  lemma {:induction false} FifoStep(c0: seq<Buffer>, a: seq<Buffer>, r: seq<Buffer>, c: seq<Buffer>, c': seq<Buffer>, op: Op, s: State, s': State, nodes: set<int>)
    requires c0 + a == r + c && Inv(s, nodes) && c == Contents(s, nodes) && Legal(s, op) && !op.Prepend? && !op.ResetOp?
    requires ContentsStep(s, op, s', c, c')
    ensures c0 + (a + if op.Append? then [At(s.buffers, s.held[op.t].node)] else [])
            == (r + if op.Unlink? && s.queued != [] then [At(s.buffers, s.queued[0])] else []) + c'
  {
    hide Inv;
    assert a + [] == a && r + [] == r;
    match op
    case Append(t) =>
      var b := [At(s.buffers, s.held[t].node)];
      assert c0 + (a + b) == (c0 + a) + b && (r + c) + b == r + (c + b);
    case Unlink(t) =>
      if c != [] {
        assert r + [c[0]] + c[1..] == r + c;
      }
    case _ =>
  }

  // ----- messages told from the calls -----

  /** The message that thread `t` last put into a node. */
  ghost function LastFill(ops: seq<Op>, t: Tid, n: nat): Buffer
    requires n <= |ops|
  {
    if n == 0 then [] else if ops[n - 1].Fill? && ops[n - 1].t == t then ops[n - 1].msg else LastFill(ops, t, n - 1)
  }

  lemma {:induction false} StepOnHeld(s: State, op: Op, t: Tid)
    requires Legal(s, op)
    ensures var s' := Step(s, op);
            t in s'.held && s'.held[t].Filled? ==>
              if op.Fill? && op.t == t then s'.held[t].msg == op.msg else t in s.held && s'.held[t] == s.held[t]
    ensures op.Fill? ==> op.t in Step(s, op).held && Step(s, op).held[op.t] == Filled(s.held[op.t].node, op.msg, op.urgent)
  {
    hide Reversed;
  }

  /** In every run from a queue that nobody sends to yet, what a sender links is what it was last
      given to send. */
  lemma {:induction false} LinksLastFill(states: seq<State>, ops: seq<Op>, t: Tid, n: nat)
    requires IsRun(states, ops) && states[0].held == map[] && n <= |ops|
    ensures t in states[n].held && states[n].held[t].Filled? ==> states[n].held[t].msg == LastFill(ops, t, n)
    decreases n
  {
    hide Step, Legal;
    if n > 0 {
      LinksLastFill(states, ops, t, n - 1);
      StepOnHeld(states[n - 1], ops[n - 1], t);
    }
  }

  /** The messages sent and received by the first `n` steps, as their senders gave them. */
  ghost function Messages(states: seq<State>, ops: seq<Op>, n: nat): seq<Buffer>
    requires IsRun(states, ops) && n <= |ops|
  {
    if n == 0 then [] else Messages(states, ops, n - 1) + if ops[n - 1].Append? then [LastFill(ops, ops[n - 1].t, n - 1)] else []
  }

  /** First in, first out, on the messages themselves: without urgent messages and resets the `k`th
      buffer received starts with the `k`th message sent. */
  lemma {:induction false} ReceivesWhatWasSent(states: seq<State>, ops: seq<Op>, nodes: set<int>, n: nat, k: nat)
    requires IsRun(states, ops) && Inv(states[0], nodes) && states[0].held == map[] && states[0].queued == [] && n <= |ops|
    requires forall i :: 0 <= i < n ==> !ops[i].Prepend? && !ops[i].ResetOp?
    requires k < |Received(states, ops, n)|
    ensures k < |Messages(states, ops, n)| && Messages(states, ops, n)[k] <= Received(states, ops, n)[k]
  {
    hide Inv, Step, Legal;
    RunIsFifo(states, ops, nodes, n);
    AppendsMessages(states, ops, nodes, n);
    assert Contents(states[0], nodes) == [];
    assert Appended(states, ops, n) == Received(states, ops, n) + Contents(states[n], nodes);
  }

  lemma {:induction false} AppendsMessages(states: seq<State>, ops: seq<Op>, nodes: set<int>, n: nat)
    requires IsRun(states, ops) && Inv(states[0], nodes) && states[0].held == map[] && n <= |ops|
    ensures |Messages(states, ops, n)| == |Appended(states, ops, n)|
    ensures forall k :: 0 <= k < |Messages(states, ops, n)| ==> Messages(states, ops, n)[k] <= Appended(states, ops, n)[k]
    decreases n
  {
    hide Step, Partitioned;
    if n > 0 {
      AppendsMessages(states, ops, nodes, n - 1);
      if ops[n - 1].Append? {
        RunKeepsInv(states, ops, nodes, n - 1);
        LinksLastFill(states, ops, ops[n - 1].t, n - 1);
        assert HoldIntact(states[n - 1].held[ops[n - 1].t], states[n - 1].buffers);
      }
    }
  }
}
