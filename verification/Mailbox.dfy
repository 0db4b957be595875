/** The mailbox as it is kept: a ring of message words with two offsets and a count. Each
    method is one interrupt-disabled section. */
module Mailbox {
  import opened Arithmetic
  import opened Sequences
  import opened IpcQueue
  import opened MailboxModel

  const SHORT_RANGE := 0x1_0000

  datatype Outcome = Done | Full | Empty | Waiting

  /** The messages of a ring, oldest first. */
  function Messages(pool: seq<int>, out: nat, entry: nat): (m: seq<int>)
    requires entry <= |pool| && (entry > 0 ==> out < |pool|)
    ensures |m| == entry
  {
    seq(entry, i requires 0 <= i < entry => pool[Slot(out, i, |pool|)])
  }

  /** The position of the `i`th message of a ring that starts at `out`. */
  function Slot(out: nat, i: nat, size: nat): (k: nat)
    requires out < size && i <= size
    ensures k < size
  {
    if out + i < size then out + i else out + i - size
  }

  lemma SlotIsModulo(out: nat, i: nat, size: nat)
    requires out < size && i <= size
    ensures Slot(out, i, size) == (out + i) % size
  {
    if out + i < size {
      DivMod(0, size, out + i);
    } else {
      DivMod(1, size, out + i - size);
    }
  }

  lemma {:induction false} PutMessage(pool: seq<int>, out: nat, entry: nat, v: int)
    requires entry < |pool| && out < |pool|
    ensures Messages(pool[Slot(out, entry, |pool|) := v], out, entry + 1) == Messages(pool, out, entry) + [v]
  {
  }

  lemma {:induction false} GetMessage(pool: seq<int>, out: nat, entry: nat)
    requires 0 < entry <= |pool| && out < |pool|
    ensures Messages(pool, out, entry)[0] == pool[out]
    ensures Messages(pool, Slot(out, 1, |pool|), entry - 1) == Messages(pool, out, entry)[1..]
  {
    var a, b := Messages(pool, Slot(out, 1, |pool|), entry - 1), Messages(pool, out, entry)[1..];
    forall i | 0 <= i < entry - 1 ensures a[i] == b[i] {
      assert Slot(Slot(out, 1, |pool|), i, |pool|) == Slot(out, i + 1, |pool|);
    }
  }

  class MailboxObject {
    const size: nat
    const pool: array<int>
    var entry: nat
    var inOffset: nat
    var outOffset: nat
    var suspendThread: seq<Tid>
    var suspendSenderThread: seq<Tid>
    ghost var s: State

    /** The offsets stay apart by the count, and the ring holds the model's messages. */
    ghost predicate Valid()
      reads this, pool
    {
      && pool.Length == size && entry <= size
      && (size > 0 ==> outOffset < size && inOffset == Slot(outOffset, entry, size))
      && s.size == size && s.contents == Messages(pool[..], outOffset, entry)
      && s.receivers == suspendThread && s.senders == suspendSenderThread
    }

    /** rt_mb_init; the size is kept in a 16-bit word. */
    constructor (size: nat)
      ensures Valid() && fresh(pool) && s == Initial(size % SHORT_RANGE)
    {
      this.size := size % SHORT_RANGE;
      pool := new int[size % SHORT_RANGE];
      entry, inOffset, outOffset := 0, 0, 0;
      suspendThread, suspendSenderThread := [], [];
      s := Initial(size % SHORT_RANGE);
    }

    /** The end of rt_mb_send_wait, once there is room */
    method PutIn(value: int)
      requires Valid() && entry < size
      modifies this`entry, this`inOffset, this`suspendThread, this`s, pool
      ensures Valid() && s == Put(old(s), value)
      ensures Messages(pool[..], outOffset, entry) == old(Messages(pool[..], outOffset, entry)) + [value]
      ensures suspendThread == if old(suspendThread) == [] then [] else old(suspendThread)[1..]
    {
      hide Messages;
      PutMessage(pool[..], outOffset, entry, value);
      pool[inOffset] := value;
      assert pool[..] == old(pool[..])[old(inOffset) := value];
      inOffset := inOffset + 1;
      if inOffset >= size {
        inOffset := 0;
      }
      entry := entry + 1;
      if suspendThread != [] {
        suspendThread := suspendThread[1..];
      }
      s := Put(s, value);
    }

    /** The end of rt_mb_recv, once there is a message */
    method TakeOut() returns (value: int)
      requires Valid() && entry > 0
      modifies this`entry, this`outOffset, this`suspendSenderThread, this`s
      ensures Valid() && old(s).contents != [] && s == Get(old(s))
      ensures old(Messages(pool[..], outOffset, entry)) == [value] + Messages(pool[..], outOffset, entry)
      ensures suspendSenderThread == if old(suspendSenderThread) == [] then [] else old(suspendSenderThread)[1..]
    {
      hide Messages;
      GetMessage(pool[..], outOffset, entry);
      value := pool[outOffset];
      outOffset := outOffset + 1;
      if outOffset >= size {
        outOffset := 0;
      }
      entry := entry - 1;
      if suspendSenderThread != [] {
        suspendSenderThread := suspendSenderThread[1..];
      }
      s := Get(s);
    }

    /** rt_mb_send_wait from the test of the loop to the point where the caller returns or
        sleeps */
    method Send(thread: Tid, value: int, timeout: int, q: Discipline) returns (r: Outcome)
      requires Valid() && Known(s, q) && thread in q.priority
      modifies this`entry, this`inOffset, this`suspendThread, this`suspendSenderThread, this`s, pool
      ensures Valid() && s == TrySend(old(s), q, thread, value, timeout)
      ensures r == if old(entry) < size then Done else if timeout == 0 then Full else Waiting
      ensures r == Done ==> Messages(pool[..], outOffset, entry) == old(Messages(pool[..], outOffset, entry)) + [value]
      ensures r == Done ==> suspendThread == if old(suspendThread) == [] then [] else old(suspendThread)[1..]
    {
      hide Messages, Put, Queued;
      if entry == size && timeout == 0 {
        return Full;
      }
      if entry == size {
        suspendSenderThread := ListSuspend(suspendSenderThread, q.priority, thread, q.prio);
        s := s.(senders := suspendSenderThread);
        return Waiting;
      }
      PutIn(value);
      return Done;
    }

    /** rt_mb_recv, likewise */
    method Receive(thread: Tid, timeout: int, q: Discipline) returns (r: Outcome, value: int)
      requires Valid() && Known(s, q) && thread in q.priority
      modifies this`entry, this`outOffset, this`suspendThread, this`suspendSenderThread, this`s
      ensures Valid() && s == TryReceive(old(s), q, thread, timeout)
      ensures r == if old(entry) > 0 then Done else if timeout == 0 then Empty else Waiting
      ensures r == Done ==> old(Messages(pool[..], outOffset, entry)) == [value] + Messages(pool[..], outOffset, entry)
      ensures r == Done ==> suspendSenderThread == if old(suspendSenderThread) == [] then [] else old(suspendSenderThread)[1..]
    {
      hide Messages, Get, Queued;
      value := 0;
      if entry == 0 && timeout == 0 {
        return Empty, value;
      }
      if entry == 0 {
        suspendThread := ListSuspend(suspendThread, q.priority, thread, q.prio);
        s := s.(receivers := suspendThread);
        return Waiting, value;
      }
      value := TakeOut();
      return Done, value;
    }

    /** rt_mb_control with RT_IPC_CMD_RESET */
    method Reset()
      requires Valid()
      modifies this`entry, this`inOffset, this`outOffset, this`suspendThread, this`suspendSenderThread, this`s
      ensures Valid() && s == MailboxModel.Reset(old(s))
      ensures entry == 0 && suspendThread == [] && suspendSenderThread == []
    {
      while suspendThread != []
        invariant Valid() && s.(receivers := []) == old(s).(receivers := [])
        decreases |suspendThread|
      {
        suspendThread := suspendThread[1..];
        s := s.(receivers := suspendThread);
      }
      while suspendSenderThread != []
        invariant Valid() && s.(senders := []) == old(s).(receivers := [], senders := [])
        decreases |suspendSenderThread|
      {
        suspendSenderThread := suspendSenderThread[1..];
        s := s.(senders := suspendSenderThread);
      }
      entry, inOffset, outOffset := 0, 0, 0;
      s := s.(contents := []);
    }
  }
}
