/** The message queue as it is kept: nodes linked through `next`, three list pointers and a
    count. Each method is one interrupt-disabled section, or one copy between two. */
module MessageQueue {
  import opened Chains
  import opened Sequences
  import opened IpcQueue
  import opened MessageQueueModel
  import W = MessageQueueWaits

  /** What a receiver's pass came to. */
  datatype Outcome = Took(msg: int) | TimedOut | Waiting

  function Last(s: seq<int>): int {
    if s == [] then NULL else s[|s| - 1]
  }

  /** The nodes in ordinary senders' hands have ended their links. */
  ghost predicate Ended(next: map<int, int>, held: map<Tid, Hold>) {
    forall t :: t in held && held[t].Filled? && !held[t].urgent ==> held[t].node in next && next[held[t].node] == NULL
  }

  /** The pointers spell out the model's lists: head and tail are the ends of the queue, both
      null when it is empty. */
  ghost predicate Spelled(next: map<int, int>, free: int, head: int, tail: int, s: State) {
    Chain(next, free, s.free) && Chain(next, head, s.queued) && tail == Last(s.queued) && Ended(next, s.held)
  }

  // ----- the pointer updates -----

  lemma {:induction false} HeldApart(s: State, nodes: set<int>, t: Tid)
    requires Inv(s, nodes) && t in s.held && NULL !in nodes
    ensures var n := s.held[t].node; n != NULL && n !in s.free && n !in s.queued
    ensures forall u :: u in s.held && u != t ==> s.held[u].node != s.held[t].node
    ensures forall u :: u in s.held ==> s.held[u].node !in s.queued
    ensures Distinct(s.queued) && (forall m :: m in s.queued ==> m !in s.free)
  {
  }

  lemma {:induction false} FillLegal(s: State, nodes: set<int>, t: Tid, msg: Buffer, urgent: bool)
    requires Inv(s, nodes) && t in s.held && s.held[t].Blank? && |msg| <= s.messageSize
    ensures Legal(s, Op.Fill(t, msg, urgent))
  {
  }

  lemma {:induction false} SpelledGrab(next: map<int, int>, free: int, head: int, tail: int, s: State, t: Tid)
    requires Spelled(next, free, head, tail, s) && t !in s.held && s.free != []
    ensures free == s.free[0] && free in next && Spelled(next, next[free], head, tail, Step(s, Op.Grab(t)))
  {
    ChainTail(next, free, s.free);
  }

  lemma {:induction false} SpelledFill(next: map<int, int>, free: int, head: int, tail: int, s: State, nodes: set<int>, t: Tid, msg: Buffer, urgent: bool)
    requires Spelled(next, free, head, tail, s) && Inv(s, nodes) && NULL !in nodes && Legal(s, Op.Fill(t, msg, urgent))
    ensures var next' := if urgent then next else next[s.held[t].node := NULL];
            Spelled(next', free, head, tail, Step(s, Op.Fill(t, msg, urgent)))
  {
    hide Chain, Inv, Distinct;
    HeldApart(s, nodes, t);
    ChainFrame(next, free, s.free, s.held[t].node, NULL);
    ChainFrame(next, head, s.queued, s.held[t].node, NULL);
  }

  lemma {:induction false} SpelledAppend(next: map<int, int>, free: int, head: int, tail: int, s: State, nodes: set<int>, t: Tid)
    requires Spelled(next, free, head, tail, s) && Inv(s, nodes) && NULL !in nodes && Legal(s, Op.Append(t))
    ensures var n := s.held[t].node;
            Spelled(if tail == NULL then next else next[tail := n], free, if head == NULL then n else head, n, Step(s, Op.Append(t)))
  {
    hide Chain, Inv, Distinct;
    var n := s.held[t].node;
    HeldApart(s, nodes, t);
    ChainEnds(next, head, s.queued);
    if s.queued == [] {
      ChainOne(next, n);
    } else {
      ChainAppend(next, head, s.queued, n);
      ChainFrame(next, free, s.free, tail, n);
    }
  }

  lemma {:induction false} SpelledPrepend(next: map<int, int>, free: int, head: int, tail: int, s: State, nodes: set<int>, t: Tid)
    requires Spelled(next, free, head, tail, s) && Inv(s, nodes) && NULL !in nodes && Legal(s, Op.Prepend(t))
    ensures var n := s.held[t].node;
            Spelled(next[n := head], free, n, if tail == NULL then n else tail, Step(s, Op.Prepend(t)))
  {
    hide Chain, Inv, Distinct;
    var n := s.held[t].node;
    HeldApart(s, nodes, t);
    ChainEnds(next, head, s.queued);
    ChainPush(next, head, s.queued, n);
    ChainFrame(next, free, s.free, n, head);
  }

  lemma {:induction false} SpelledUnlink(next: map<int, int>, free: int, head: int, tail: int, s: State, nodes: set<int>, t: Tid)
    requires Spelled(next, free, head, tail, s) && Inv(s, nodes) && t !in s.held && s.queued != []
    ensures head == s.queued[0] && head in next
    ensures Spelled(next, free, next[head], if tail == head then NULL else tail, Step(s, Op.Unlink(t)))
  {
    hide HoldIntact;
    ChainTail(next, head, s.queued);
  }

  lemma {:induction false} SpelledGiveBack(next: map<int, int>, free: int, head: int, tail: int, s: State, nodes: set<int>, t: Tid)
    requires Spelled(next, free, head, tail, s) && Inv(s, nodes) && NULL !in nodes && Legal(s, Op.GiveBack(t))
    ensures var n := s.held[t].node; Spelled(next[n := free], n, head, tail, Step(s, Op.GiveBack(t)))
  {
    hide Chain, Inv, Distinct;
    HeldApart(s, nodes, t);
    ChainPush(next, free, s.free, s.held[t].node);
    ChainFrame(next, head, s.queued, s.held[t].node, free);
  }

  /** One round of the reset loop: the first queued node goes to the free list. */
  ghost function Dropped(s: State): State
    requires s.queued != []
  {
    s.(queued := s.queued[1..], free := [s.queued[0]] + s.free)
  }

  lemma {:induction false} SpelledDropped(next: map<int, int>, free: int, head: int, tail: int, s: State, nodes: set<int>)
    requires Spelled(next, free, head, tail, s) && Inv(s, nodes) && s.queued != []
    ensures head == s.queued[0] && head in next
    ensures Spelled(next[head := free], head, next[head], if tail == head then NULL else tail, Dropped(s))
    ensures Inv(Dropped(s), nodes) && Step(Dropped(s), ResetOp) == Step(s, ResetOp)
  {
    hide HoldIntact, Chain;
    ChainEnds(next, head, s.queued);
    ChainFirst(next, head, s.queued);
    ChainTail(next, head, s.queued);
    TailMembers(s.queued);
    PushMembers(s.free, head);
    ChainPush(next, free, s.free, head);
    ChainFrame(next, next[head], s.queued[1..], head, free);
    assert Reversed(s.queued) + s.free == Reversed(s.queued[1..]) + ([s.queued[0]] + s.free);
  }

  // ----- the pool -----

  /** sizeof(struct rt_mq_message) */
  const LINK_SIZE := 4
  /** The sizes and counts of a queue are 16-bit words. */
  const SHORT_RANGE := 0x1_0000

  /** RT_ALIGN to four bytes */
  function Align(n: nat): nat {
    (n + 3) / 4 * 4
  }

  /** The size of a node's buffer as it is kept. */
  function NodeSize(messageSize: nat): nat {
    Align(messageSize) % SHORT_RANGE
  }

  /** The first `n` nodes of a pool, last one first. */
  function PoolNodes(pool: int, stride: nat, n: nat): (s: seq<int>)
    ensures |s| == n
  {
    if n == 0 then [] else [pool + (n - 1) * stride] + PoolNodes(pool, stride, n - 1)
  }

  lemma PoolBelow(pool: int, stride: nat, n: nat)
    requires stride > 0
    ensures forall x :: x in PoolNodes(pool, stride, n) ==> pool <= x < pool + n * stride
    ensures n * stride >= 0
  {
    if n > 0 {
      PoolBelow(pool, stride, n - 1);
      assert n * stride == (n - 1) * stride + stride;
    }
  }

  lemma {:induction false} PoolGrows(s: State, nodes: set<int>, node: int, blank: Buffer)
    requires Inv(s, nodes) && s.queued == [] && s.held == map[] && node !in s.free && |blank| == s.messageSize
    requires |nodes| == |s.free|
    ensures node !in nodes
    ensures Inv(s.(free := [node] + s.free, buffers := s.buffers[node := blank]), nodes + {node})
  {
    hide Intact;
    PushMembers(s.free, node);
    AllMembers(s.free, nodes);
    assert |nodes + {node}| == |nodes| + 1;
    IntactGrows(s, nodes, node, blank);
  }

  lemma {:induction false} IntactGrows(s: State, nodes: set<int>, node: int, blank: Buffer)
    requires Intact(s, nodes) && s.held == map[] && |blank| == s.messageSize
    ensures Intact(s.(free := [node] + s.free, buffers := s.buffers[node := blank]), nodes + {node})
  {
  }

  lemma NothingFree(s: State, nodes: set<int>)
    requires Inv(s, nodes) && nodes == {}
    ensures s.free == []
  {
  }

  /** A list of distinct nodes as long as the set has members lists them all. */
  lemma {:induction false} AllMembers(s: seq<int>, nodes: set<int>)
    requires Distinct(s) && (forall n :: n in s ==> n in nodes) && |s| == |nodes|
    ensures forall n :: n in nodes ==> n in s
  {
    if s != [] {
      var x := s[0];
      assert x in s;
      assert x in nodes;
      TailMembers(s);
      AllMembers(s[1..], nodes - {x});
    }
  }

  class Queue {
    const messageSize: nat
    var next: map<int, int>
    var buffers: map<int, Buffer>
    var free: int
    var head: int
    var tail: int
    var entry: nat
    var suspended: seq<Tid>
    ghost var nodes: set<int>
    ghost var s: State
    /** The receivers resumed that have not run yet. */
    ghost var resumed: set<Tid>

    ghost predicate Valid()
      reads this
    {
      && Inv(s, nodes) && NULL !in nodes && s.messageSize == messageSize && s.buffers == buffers
      && Spelled(next, free, head, tail, s) && entry == |s.queued|
    }

    ghost function Waits(): W.State
      reads this
    {
      W.State(s, suspended, resumed)
    }

    lemma HeadTailNull()
      requires Valid()
      ensures head == NULL <==> tail == NULL
      ensures head == NULL <==> entry == 0
      ensures |s.free| + entry + |s.held| == |nodes|
    {
      ChainEnds(next, head, s.queued);
    }

    /** rt_mq_init: the pool cut into nodes, all of them free. A count of 2^16 is kept as 0, and so is
        a size. */
    constructor (pool: int, messageSize: nat, poolSize: nat)
      requires pool > NULL
      ensures Valid() && this.messageSize == NodeSize(messageSize)
      ensures |nodes| == poolSize / (NodeSize(messageSize) + LINK_SIZE) % SHORT_RANGE
      ensures s.free == PoolNodes(pool, NodeSize(messageSize) + LINK_SIZE, |nodes|) && s.queued == [] && s.held == map[]
      ensures W.Inv(Waits(), nodes)
    {
      var stride := NodeSize(messageSize) + LINK_SIZE;
      var count := poolSize / stride % SHORT_RANGE;
      this.messageSize := NodeSize(messageSize);
      next, free, head, tail, entry := map[], NULL, NULL, NULL, 0;
      buffers := map[];
      suspended, resumed, nodes := [], {}, {};
      s := State(NodeSize(messageSize), [], [], map[], map[]);
      new;
      CutPool(pool, stride, count);
    }

    /** The loop of rt_mq_init */
    method CutPool(pool: int, stride: nat, count: nat)
      requires pool > NULL && stride > 0 && Valid() && nodes == {} && s.held == map[] && s.queued == []
      modifies this`next, this`buffers, this`free, this`nodes, this`s
      ensures Valid() && |nodes| == count
      ensures s.free == PoolNodes(pool, stride, count) && s.queued == [] && s.held == map[]
    {
      hide Inv, Chain, Ended, Distinct;
      NothingFree(s, nodes);
      var temp := 0;
      while temp < count
        invariant 0 <= temp <= count && Valid() && |nodes| == temp
        invariant s.free == PoolNodes(pool, stride, temp) && s.queued == [] && s.held == map[]
      {
        PoolBelow(pool, stride, temp);
        AddNode(pool + temp * stride);
        temp := temp + 1;
      }
    }

    method AddNode(node: int)
      requires node != NULL && node !in s.free && Valid() && |nodes| == |s.free| && s.held == map[] && s.queued == []
      modifies this`next, this`buffers, this`free, this`nodes, this`s
      ensures Valid() && |nodes| == old(|nodes|) + 1
      ensures s.free == [node] + old(s).free && s.queued == [] && s.held == map[]
    {
      hide Inv, Chain, Distinct;
      var blank := seq(messageSize, _ => 0);
      PoolGrows(s, nodes, node, blank);
      ChainPush(next, free, s.free, node);
      ChainFrame(next, head, s.queued, node, free);
      next := next[node := free];
      free := node;
      buffers := buffers[node := blank];
      nodes := nodes + {node};
      s := s.(free := [node] + s.free, buffers := buffers);
    }

    /** The first critical section of rt_mq_send and rt_mq_urgent */
    method Grab(t: Tid) returns (msg: int)
      requires Valid() && t !in s.held
      modifies this`free, this`s
      ensures Valid() && s == Step(old(s), Op.Grab(t))
      ensures if old(s).free == [] then msg == NULL else t in s.held && s.held[t] == Blank(msg)
    {
      hide Inv, Reversed, Chain;
      ChainEnds(next, free, s.free);
      msg := free;
      if msg == NULL {
        return;
      }
      StepKeepsInv(s, nodes, Op.Grab(t));
      SpelledGrab(next, free, head, tail, s, t);
      free := next[msg];
      s := Step(s, Op.Grab(t));
    }

    /** Between the critical sections of a sender: copy the message, and for an ordinary one end
        the node's link. */
    method Fill(t: Tid, msg: int, buffer: Buffer, urgent: bool)
      requires Valid() && t in s.held && s.held[t] == Blank(msg) && |buffer| <= messageSize
      modifies this`next, this`buffers, this`s
      ensures Legal(old(s), Op.Fill(t, buffer, urgent))
      ensures Valid() && s == Step(old(s), Op.Fill(t, buffer, urgent)) && s.held[t] == Filled(msg, buffer, urgent)
    {
      hide Inv, Spelled, Reversed;
      FillLegal(s, nodes, t, buffer, urgent);
      StepKeepsInv(s, nodes, Op.Fill(t, buffer, urgent));
      SpelledFill(next, free, head, tail, s, nodes, t, buffer, urgent);
      if !urgent {
        next := next[msg := NULL];
      }
      buffers := buffers[msg := buffer + At(buffers, msg)[|buffer|..]];
      s := Step(s, Op.Fill(t, buffer, urgent));
    }

    /** The first waiting receiver, if any, is resumed. */
    method ResumeFirst()
      modifies this`suspended, this`resumed
      ensures Waits() == W.Resumed(old(Waits()))
      ensures suspended == if old(suspended) == [] then [] else old(suspended)[1..]
    {
      if suspended != [] {
        resumed := resumed + {suspended[0]};
        suspended := suspended[1..];
      }
    }

    /** The second critical section of rt_mq_send */
    method Append(t: Tid, msg: int)
      requires Valid() && t in s.held && s.held[t].Filled? && !s.held[t].urgent && s.held[t].node == msg
      modifies this`next, this`head, this`tail, this`entry, this`s, this`suspended, this`resumed
      ensures Legal(old(s), Op.Append(t)) && Valid() && s == Step(old(s), Op.Append(t))
      ensures Waits() == W.Resumed(old(Waits()).(queue := Step(old(s), Op.Append(t))))
      ensures suspended == if old(suspended) == [] then [] else old(suspended)[1..]
    {
      hide Inv, Spelled, Reversed;
      StepKeepsInv(s, nodes, Op.Append(t));
      SpelledAppend(next, free, head, tail, s, nodes, t);
      if tail != NULL {
        next := next[tail := msg];
      }
      tail := msg;
      if head == NULL {
        head := msg;
      }
      entry := entry + 1;
      s := Step(s, Op.Append(t));
      ResumeFirst();
    }

    /** The second critical section of rt_mq_urgent */
    method Prepend(t: Tid, msg: int)
      requires Valid() && t in s.held && s.held[t].Filled? && s.held[t].urgent && s.held[t].node == msg
      modifies this`next, this`head, this`tail, this`entry, this`s, this`suspended, this`resumed
      ensures Legal(old(s), Op.Prepend(t)) && Valid() && s == Step(old(s), Op.Prepend(t))
      ensures Waits() == W.Resumed(old(Waits()).(queue := Step(old(s), Op.Prepend(t))))
      ensures suspended == if old(suspended) == [] then [] else old(suspended)[1..]
    {
      hide Inv, Spelled, Reversed;
      StepKeepsInv(s, nodes, Op.Prepend(t));
      SpelledPrepend(next, free, head, tail, s, nodes, t);
      next := next[msg := head];
      head := msg;
      if tail == NULL {
        tail := msg;
      }
      entry := entry + 1;
      s := Step(s, Op.Prepend(t));
      ResumeFirst();
    }

    /** The critical section of rt_mq_recv that takes a message, when there is one */
    method Unlink(t: Tid) returns (msg: int)
      requires Valid() && t !in s.held && entry > 0
      modifies this`head, this`tail, this`entry, this`s
      ensures Valid() && s == Step(old(s), Op.Unlink(t)) && t in s.held && s.held[t] == Taken(msg, At(buffers, msg))
    {
      hide Inv, Spelled, Reversed;
      StepKeepsInv(s, nodes, Op.Unlink(t));
      SpelledUnlink(next, free, head, tail, s, nodes, t);
      msg := head;
      head := next[msg];
      if tail == msg {
        tail := NULL;
      }
      entry := entry - 1;
      s := Step(s, Op.Unlink(t));
    }

    /** rt_mq_recv from the test of the loop to the point where the caller has a message, returns or
        sleeps */
    method Receive(t: Tid, timeout: int, q: Discipline) returns (r: Outcome)
      requires Valid() && t !in s.held && W.Known(Waits(), q) && t in q.priority
      modifies this`head, this`tail, this`entry, this`s, this`suspended
      ensures Valid() && Waits() == W.TryReceive(old(Waits()), q, t, timeout)
      ensures r.TimedOut? <==> old(entry) == 0 && timeout == 0
      ensures r.Waiting? <==> old(entry) == 0 && timeout != 0
      ensures r.Took? ==> t in s.held && s.held[t] == Taken(r.msg, At(buffers, r.msg))
    {
      hide Inv, Spelled, Reversed, Queued;
      if entry == 0 {
        if timeout == 0 {
          return TimedOut;
        }
        suspended := ListSuspend(suspended, q.priority, t, q.prio);
        return Waiting;
      }
      var msg := Unlink(t);
      r := Took(msg);
    }

    /** The copy of rt_mq_recv, outside any critical section: the receiver gets the message it
        took, up to the size of its own buffer. */
    method CopyOut(t: Tid, msg: int, size: nat) returns (buffer: Buffer)
      requires Valid() && t in s.held && s.held[t].Taken? && s.held[t].node == msg
      ensures |buffer| == (if size > messageSize then messageSize else size) && buffer <= s.held[t].buffer
    {
      hide Chain, Distinct;
      assert HoldIntact(s.held[t], buffers);
      buffer := At(buffers, msg)[..if size > messageSize then messageSize else size];
    }

    /** The last critical section of rt_mq_recv */
    method GiveBack(t: Tid, msg: int)
      requires Valid() && t in s.held && s.held[t].Taken? && s.held[t].node == msg
      modifies this`next, this`free, this`s
      ensures Valid() && s == Step(old(s), Op.GiveBack(t))
    {
      hide Inv, Spelled, Reversed;
      StepKeepsInv(s, nodes, Op.GiveBack(t));
      SpelledGiveBack(next, free, head, tail, s, nodes, t);
      next := next[msg := free];
      free := msg;
      s := Step(s, Op.GiveBack(t));
    }

    /** rt_mq_control with RT_IPC_CMD_RESET: waiters are resumed with an error and the messages go
        back to the free list; nodes in threads' hands stay there. */
    method Reset()
      requires Valid()
      modifies this`next, this`free, this`head, this`tail, this`entry, this`s, this`suspended
      ensures Valid() && Waits() == W.State(Step(old(s), ResetOp), [], old(resumed))
    {
      hide Inv, Chain, Ended, Reversed, Distinct;
      suspended := [];
      ChainEnds(next, head, s.queued);
      while head != NULL
        invariant Inv(s, nodes) && s.messageSize == messageSize && s.buffers == buffers && Spelled(next, free, head, tail, s)
        invariant Step(s, ResetOp) == Step(old(s), ResetOp) && suspended == []
        decreases |s.queued|
      {
        ChainEnds(next, head, s.queued);
        SpelledDropped(next, free, head, tail, s, nodes);
        var msg := head;
        head := next[msg];
        if tail == msg {
          tail := NULL;
        }
        next := next[msg := free];
        free := msg;
        s := Dropped(s);
      }
      ChainEnds(next, head, s.queued);
      NothingDropped(s);
      entry := 0;
    }
  }

  lemma NothingDropped(s: State)
    requires s.queued == []
    ensures Step(s, ResetOp) == s
  {
  }
}
