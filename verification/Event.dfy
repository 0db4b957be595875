/** rt_event_send and rt_event_recv as they update the event's flags, the suspend list and
    the threads' own event fields. */
module Event {
  import opened Sequences
  import opened IpcQueue
  import opened EventModel

  /** A thread's event_set and event_info fields. */
  datatype Info = Info(eventSet: Flags, all: bool, clear: bool)

  datatype Outcome = Got(flags: Flags) | TimedOut | Waiting | Refused

  ghost function WaitOf(info: map<Tid, Info>, t: Tid): Wait
    requires t in info
  {
    Wait(t, info[t].eventSet, info[t].all, info[t].clear)
  }

  /** The waits of a list of threads. */
  ghost function Waits(info: map<Tid, Info>, list: seq<Tid>): (w: seq<Wait>)
    requires forall t :: t in list ==> t in info
    ensures |w| == |list| && forall i :: 0 <= i < |list| ==> w[i] == WaitOf(info, list[i])
  {
    seq(|list|, i requires 0 <= i < |list| => WaitOf(info, list[i]))
  }

  class EventObject {
    /** RT_IPC_FLAG_PRIO */
    const prio: bool
    var flags: Flags
    var suspended: seq<Tid>
    var info: map<Tid, Info>

    ghost predicate Valid()
      reads this
    {
      Distinct(suspended) && forall t :: t in suspended ==> t in info
    }

    ghost function Abs(): State
      reads this
      requires Valid()
    {
      State(flags, Waits(info, suspended))
    }

    /** The test of one waiter in the loop of rt_event_send: it gets what an immediate receive
        would get, and leaves the flags that would leave. */
    method Offer(thread: Tid) returns (resumed: bool)
      requires thread in info
      modifies this`flags, this`info
      ensures var w := old(WaitOf(info, thread));
              && resumed == Satisfied(old(flags), w)
              && (resumed ==> flags == Left(old(flags), w) && info == old(info)[thread := old(info[thread]).(eventSet := Received(old(flags), w))])
              && (!resumed ==> flags == old(flags) && info == old(info))
    {
      var i := info[thread];
      resumed := false;
      if i.all {
        if i.eventSet <= flags {
          AllReceived(flags, i.eventSet);
          resumed := true;
        }
      } else {
        if i.eventSet * flags != {} {
          AnyCleared(flags, i.eventSet);
          i := i.(eventSet := i.eventSet * flags);
          resumed := true;
        }
      }
      if resumed {
        if i.clear {
          flags := flags - i.eventSet;
        }
        info := info[thread := i];
      }
    }

    /** rt_event_send: the same flags, wake-ups and received values as an immediate receive for
        each waiter in queue order */
    method Send(sent: Flags) returns (ok: bool, ghost got: seq<Delivery>)
      requires Valid()
      modifies this`flags, this`info, this`suspended
      ensures Valid() && ok == (sent != {}) && Abs() == EventModel.Send(old(Abs()), sent)
      ensures ok ==> got == Deliver(old(Abs()).flags + sent, old(Abs()).waiters).2
      ensures ok && Inv(old(Abs())) ==> FairSend(old(flags) + sent, old(Abs()).waiters, flags, Abs().waiters, got)
      ensures forall d :: d in got ==> d.tid in info && info[d.tid].eventSet == d.flags && d.tid !in suspended
    {
      got := [];
      if sent == {} {
        return false, got;
      }
      ghost var before := Waits(info, suspended);
      ghost var start := flags + sent;
      WaitsOnce(info, suspended);
      if Inv(Abs()) {
        InterestsOf(Abs());
        DeliverIsFair(start, before);
      }
      flags := flags + sent;
      var n: nat := 0;
      ResumeStart(start, before);
      assert suspended[0..] == suspended;
      while n < |suspended|
        invariant Visited(n, start, before, got)
        decreases |suspended| - n
      {
        n, got := Visit(n, start, before, got);
      }
      assert suspended[..n] == suspended && Waits(info, suspended[n..]) == [];
      ResumeDone(start, before, flags, Waits(info, suspended), got);
      return true, got;
    }

    /** The waiters up to `n` have been seen; those before it still wait. */
    ghost predicate Visited(n: nat, start: Flags, before: seq<Wait>, got: seq<Delivery>)
      reads this
    {
      && Valid() && n <= |suspended|
      && ResumeOk(start, before, flags, Waits(info, suspended[..n]), Waits(info, suspended[n..]), got)
      && forall d :: d in got ==> d.tid in info && info[d.tid].eventSet == d.flags && d.tid !in suspended
    }

    method Visit(n: nat, ghost start: Flags, ghost before: seq<Wait>, ghost got: seq<Delivery>)
      returns (n': nat, ghost got': seq<Delivery>)
      requires Visited(n, start, before, got) && n < |suspended|
      modifies this`flags, this`info, this`suspended
      ensures Visited(n', start, before, got') && |suspended| - n' < old(|suspended| - n)
    {
      hide ResumeOk, Satisfied, Left, Distinct;
      var thread := suspended[n];
      ghost var list, i, f := suspended, info, flags;
      ghost var w := WaitOf(i, thread);
      RestOfWaits(i, list, n);
      ResumeStep(start, before, f, Waits(i, list[..n]), Waits(i, list[n..]), got);
      var resumed := Offer(thread);
      if resumed {
        RemovedList(i, list, n, info[thread], info);
        suspended := suspended[..n] + suspended[n + 1..];
        n', got' := n, got + [Delivery(thread, Received(f, w))];
      } else {
        n', got' := n + 1, got;
      }
    }

    /** rt_event_recv up to the point where the caller returns or sleeps; an empty interest is
        refused. */
    method Receive(thread: Tid, interest: Flags, all: bool, clear: bool, timeout: int, priority: map<Tid, int>) returns (r: Outcome)
      requires Valid() && thread !in suspended && thread in priority && forall t :: t in suspended ==> t in priority
      modifies this`flags, this`info, this`suspended
      ensures Valid()
      ensures interest == {} ==> r == Refused && Abs() == old(Abs())
      ensures interest != {} ==>
                var w := Wait(thread, interest, all, clear);
                var k := if prio then Place(old(suspended), priority, priority[thread]) else |old(suspended)|;
                && Abs() == EventModel.Receive(old(Abs()), w, timeout, k)
                && (r.Got? <==> if all then forall x :: x in interest ==> x in old(flags) else exists x :: x in interest && x in old(flags))
                && (r.TimedOut? <==> !r.Got? && timeout == 0) && (r.Waiting? <==> !r.Got? && timeout != 0)
                && (if r.Waiting? then
                      && suspended == Queued(old(suspended), priority, thread, prio)
                      && thread in info && info[thread] == Info(interest, all, clear)
                    else suspended == old(suspended) && info == old(info))
                && (r.Got? ==> forall x :: x in r.flags <==> x in interest && x in old(flags))
                && (forall x :: x in flags <==> x in old(flags) && !(r.Got? && clear && x in interest))
    {
      if interest == {} {
        return Refused;
      }
      SatisfiedIff(flags, Wait(thread, interest, all, clear));
      var ok := if all then interest <= flags else flags * interest != {};
      if ok {
        r := Got(flags * interest);
        if clear {
          flags := flags - interest;
        }
        return;
      }
      if timeout == 0 {
        return TimedOut;
      }
      Enqueue(thread, Info(interest, all, clear), priority);
      return Waiting;
    }

    method Enqueue(thread: Tid, i: Info, priority: map<Tid, int>)
      requires Valid() && thread !in suspended && thread in priority && forall t :: t in suspended ==> t in priority
      modifies this`info, this`suspended
      ensures Valid()
      ensures var k := if prio then Place(old(suspended), priority, priority[thread]) else |old(suspended)|;
              Abs() == old(Abs()).(waiters := Splice(old(Abs()).waiters, k, Wait(thread, i.eventSet, i.all, i.clear)))
      ensures suspended == Queued(old(suspended), priority, thread, prio) && thread in info && info[thread] == i
    {
      hide Place, Distinct;
      QueuedMembers(suspended, priority, thread, prio);
      QueuedWaits(info, suspended, thread, i, if prio then Place(suspended, priority, priority[thread]) else |suspended|);
      info := info[thread := i];
      suspended := ListSuspend(suspended, priority, thread, prio);
    }

    /** rt_event_control with RT_IPC_CMD_RESET */
    method Reset()
      requires Valid()
      modifies this`flags, this`suspended
      ensures Valid() && Abs() == State({}, [])
    {
      while suspended != []
        invariant Valid()
        decreases |suspended|
      {
        suspended := suspended[1..];
      }
      flags := {};
    }
  }

  lemma WaitsOnce(info: map<Tid, Info>, list: seq<Tid>)
    requires Distinct(list) && forall t :: t in list ==> t in info
    ensures OnceEach(Waits(info, list))
  {
  }

  lemma InterestsOf(s: State)
    requires Inv(s)
    ensures forall w :: w in s.waiters ==> w.interest != {}
  {
  }

  /** An all-wait receives its whole interest. */
  lemma AllReceived(flags: Flags, interest: Flags)
    requires interest <= flags
    ensures flags * interest == interest
  {
  }

  /** Clearing what an any-wait received clears its interest. */
  lemma AnyCleared(flags: Flags, interest: Flags)
    ensures interest * flags == flags * interest
    ensures flags - interest * flags == flags - interest
  {
  }

  /** The loop of rt_event_send part way: `kept` still wait, `rest` are to come. */
  ghost predicate ResumeOk(start: Flags, before: seq<Wait>, flags: Flags, kept: seq<Wait>, rest: seq<Wait>, got: seq<Delivery>) {
    var (f, r, g) := Deliver(flags, rest);
    Deliver(start, before) == (f, kept + r, got + g)
  }

  lemma {:induction false} ResumeStart(start: Flags, before: seq<Wait>)
    ensures ResumeOk(start, before, start, [], before, [])
  {
    var (f, r, g) := Deliver(start, before);
    assert [] + r == r && [] + g == g;
  }

  lemma {:induction false} RestOfWaits(info: map<Tid, Info>, list: seq<Tid>, n: nat)
    requires n < |list| && forall t :: t in list ==> t in info
    ensures list[n] in list
    ensures var rest := Waits(info, list[n..]);
            && rest != [] && rest[0] == WaitOf(info, list[n]) && rest[1..] == Waits(info, list[n + 1..])
            && Waits(info, list[..n + 1]) == Waits(info, list[..n]) + [rest[0]]
  {
    var rest := Waits(info, list[n..]);
    assert rest[1..] == Waits(info, list[n + 1..]);
  }

  /** Taking a thread off the list leaves the others' waits as they were. */
  lemma {:induction false} RemovedList(info: map<Tid, Info>, list: seq<Tid>, n: nat, x: Info, info': map<Tid, Info>)
    requires n < |list| && Distinct(list) && (forall t :: t in list ==> t in info)
    requires info' == info[list[n] := x]
    ensures var r := list[..n] + list[n + 1..];
            && Distinct(r) && list[n] !in r && (forall t :: t in r ==> t in list && t in info')
            && Waits(info', r[..n]) == Waits(info, list[..n]) && Waits(info', r[n..]) == Waits(info, list[n + 1..])
  {
    var r := list[..n] + list[n + 1..];
    assert r == RemoveAt(list, n);
    RemoveAtMembers(list, n);
    assert r[..n] == list[..n] && r[n..] == list[n + 1..];
    assert forall i :: 0 <= i < n ==> list[i] != list[n] && info'[list[i]] == info[list[i]];
    assert forall i :: n < i < |list| ==> list[i] != list[n] && info'[list[i]] == info[list[i]];
  }

  lemma {:induction false} QueuedWaits(info: map<Tid, Info>, list: seq<Tid>, t: Tid, i: Info, k: nat)
    requires (forall x :: x in list ==> x in info) && t !in list && k <= |list|
    ensures forall x :: x in Splice(list, k, t) ==> x in info[t := i]
    ensures Waits(info[t := i], Splice(list, k, t)) == Splice(Waits(info, list), k, Wait(t, i.eventSet, i.all, i.clear))
  {
    SpliceMembers(list, k, t);
    var a, b := Waits(info[t := i], Splice(list, k, t)), Splice(Waits(info, list), k, Wait(t, i.eventSet, i.all, i.clear));
    forall j | 0 <= j < |a| ensures a[j] == b[j] {
      SplicePlace(list, k, t, j);
      SplicePlace(Waits(info, list), k, Wait(t, i.eventSet, i.all, i.clear), j);
    }
  }

  lemma {:induction false} ResumeStep(start: Flags, before: seq<Wait>, flags: Flags, kept: seq<Wait>, rest: seq<Wait>, got: seq<Delivery>)
    requires ResumeOk(start, before, flags, kept, rest, got) && rest != []
    ensures var w := rest[0];
            if Satisfied(flags, w) then ResumeOk(start, before, Left(flags, w), kept, rest[1..], got + [Delivery(w.tid, Received(flags, w))])
            else ResumeOk(start, before, flags, kept + [w], rest[1..], got)
  {
    hide Satisfied, Left;
    var w := rest[0];
    if Satisfied(flags, w) {
      var (f, r, g) := Deliver(Left(flags, w), rest[1..]);
      assert got + ([Delivery(w.tid, Received(flags, w))] + g) == got + [Delivery(w.tid, Received(flags, w))] + g;
    } else {
      var (f, r, g) := Deliver(flags, rest[1..]);
      assert kept + ([w] + r) == kept + [w] + r;
    }
  }

  lemma {:induction false} ResumeDone(start: Flags, before: seq<Wait>, flags: Flags, kept: seq<Wait>, got: seq<Delivery>)
    requires ResumeOk(start, before, flags, kept, [], got)
    ensures Deliver(start, before) == (flags, kept, got)
  {
    assert kept + [] == kept && got + [] == got;
  }
}
