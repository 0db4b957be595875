/** The event object of src/ipc.c on values: a word of flags and the threads that wait for
    some or all of theirs. */
module EventModel {
  import opened Sequences
  import opened IpcQueue

  /** A word of event flags, as the set of the flags that are up. */
  type Flags = set<nat>

  /** What a thread waits for: all of `interest` or any of it; `clear` takes the flags away. */
  datatype Wait = Wait(tid: Tid, interest: Flags, all: bool, clear: bool)

  datatype State = State(flags: Flags, waiters: seq<Wait>)

  /** The immediate test of rt_event_recv. */
  predicate Satisfied(flags: Flags, w: Wait) {
    if w.all then w.interest <= flags else flags * w.interest != {}
  }

  /** What an immediate receive gets, and the flags it leaves. */
  function Received(flags: Flags, w: Wait): Flags {
    flags * w.interest
  }

  function Left(flags: Flags, w: Wait): Flags {
    if w.clear then flags - w.interest else flags
  }

  /** rt_event_recv by a thread with `timeout` ticks to wait, which is queued at place `k` if it
      has to. */
  function Receive(s: State, w: Wait, timeout: int, k: nat): State
    requires k <= |s.waiters|
  {
    if Satisfied(s.flags, w) then s.(flags := Left(s.flags, w))
    else if timeout == 0 then s
    else s.(waiters := Splice(s.waiters, k, w))
  }

  datatype Delivery = Delivery(tid: Tid, flags: Flags)

  /** The immediate receive performed for each waiter in turn: the flags left, who still
      waits, and what the others got. */
  function Deliver(flags: Flags, waiters: seq<Wait>): (Flags, seq<Wait>, seq<Delivery>)
    decreases |waiters|
  {
    if waiters == [] then (flags, [], [])
    else
      var w := waiters[0];
      if Satisfied(flags, w) then
        var (f, rest, got) := Deliver(Left(flags, w), waiters[1..]);
        (f, rest, [Delivery(w.tid, Received(flags, w))] + got)
      else
        var (f, rest, got) := Deliver(flags, waiters[1..]);
        (f, [w] + rest, got)
  }

  /** rt_event_send */
  function Send(s: State, flags: Flags): State {
    if flags == {} then s
    else
      var (f, rest, _) := Deliver(s.flags + flags, s.waiters);
      State(f, rest)
  }

  // ----- flag by flag -----

  /** An all-wait asks for every flag of its interest, an any-wait for some flag of it. */
  lemma SatisfiedIff(flags: Flags, w: Wait)
    ensures w.all ==> (Satisfied(flags, w) <==> forall x :: x in w.interest ==> x in flags)
    ensures !w.all ==> (Satisfied(flags, w) <==> exists x :: x in w.interest && x in flags)
  {
    if !w.all && flags * w.interest != {} {
      var x :| x in flags * w.interest;
    }
    if !w.all {
      forall x | x in w.interest && x in flags ensures x in flags * w.interest {
      }
    }
  }

  /** It gets the flags of its interest that are up, and takes away exactly its interest if it
      clears. */
  lemma FlagIff(flags: Flags, w: Wait, x: nat)
    ensures x in Received(flags, w) <==> x in flags && x in w.interest
    ensures x in Left(flags, w) <==> x in flags && !(w.clear && x in w.interest)
  {
  }

  ghost predicate OnceEach(waiters: seq<Wait>) {
    forall i, j :: 0 <= i < j < |waiters| ==> waiters[i].tid != waiters[j].tid
  }

  /** A delivery to `w` out of `flags`: what it got is of its interest, was up, and is enough. */
  ghost predicate Fair(d: Delivery, w: Wait, flags: Flags) {
    d.tid == w.tid && d.flags <= w.interest && d.flags <= flags && Satisfied(d.flags, w)
  }

  ghost predicate Woken(got: seq<Delivery>, w: Wait) {
    exists d :: d in got && d.tid == w.tid
  }

  /** A thread that was resumed clears flag `x`. */
  ghost predicate Cleared(waiters: seq<Wait>, got: seq<Delivery>, x: nat) {
    exists w :: w in waiters && Woken(got, w) && w.clear && x in w.interest
  }

  /** Everyone who was resumed got enough of what it asked for. */
  ghost predicate AllFair(flags: Flags, waiters: seq<Wait>, got: seq<Delivery>) {
    forall d :: d in got ==> exists w :: w in waiters && Fair(d, w, flags)
  }

  /** The others wait on. */
  ghost predicate Parted(waiters: seq<Wait>, rest: seq<Wait>, got: seq<Delivery>) {
    (forall w :: w in waiters ==> (w in rest <==> !Woken(got, w))) && forall w :: w in rest ==> w in waiters
  }

  /** A flag goes down exactly if a thread that was resumed clears it. */
  ghost predicate LeftExactly(flags: Flags, waiters: seq<Wait>, left: Flags, got: seq<Delivery>) {
    forall x :: x in left <==> x in flags && !Cleared(waiters, got, x)
  }

  ghost predicate InOrder(waiters: seq<Wait>, rest: seq<Wait>) {
    forall i, j :: 0 <= i < j < |rest| ==> Earlier(waiters, rest[i], rest[j])
  }

  /** What a send does: it resumes only threads that got enough of what they asked for, the others
      wait on in their order, and a flag goes down exactly if a thread that was resumed clears it. */
  ghost predicate FairSend(flags: Flags, waiters: seq<Wait>, left: Flags, rest: seq<Wait>, got: seq<Delivery>) {
    AllFair(flags, waiters, got) && Parted(waiters, rest, got) && LeftExactly(flags, waiters, left, got) && InOrder(waiters, rest)
  }

  ghost predicate Earlier(waiters: seq<Wait>, a: Wait, b: Wait) {
    exists i, j :: 0 <= i < j < |waiters| && waiters[i] == a && waiters[j] == b
  }

  lemma {:induction false} DeliverIsFair(flags: Flags, waiters: seq<Wait>)
    requires OnceEach(waiters) && forall w :: w in waiters ==> w.interest != {}
    ensures var (f, rest, got) := Deliver(flags, waiters); FairSend(flags, waiters, f, rest, got)
    decreases |waiters|
  {
    hide Satisfied, FairSend;
    if waiters == [] {
      NobodyToServe(flags);
    } else {
      var w, later := waiters[0], waiters[1..];
      assert waiters == [w] + later;
      FirstApart(waiters);
      if Satisfied(flags, w) {
        DeliverIsFair(Left(flags, w), later);
        var (f, rest, got) := Deliver(Left(flags, w), later);
        ServedFirst(flags, w, later, f, rest, got);
      } else {
        DeliverIsFair(flags, later);
        var (f, rest, got) := Deliver(flags, later);
        KeptFirst(flags, w, later, f, rest, got);
      }
    }
  }

  lemma NobodyToServe(flags: Flags)
    ensures FairSend(flags, [], flags, [], [])
  {
  }

  lemma FirstApart(waiters: seq<Wait>)
    requires OnceEach(waiters) && waiters != []
    ensures OnceEach(waiters[1..]) && forall x :: x in waiters[1..] ==> x.tid != waiters[0].tid
  {
  }

  lemma {:induction false} EarlierLater(w: Wait, later: seq<Wait>, a: Wait, b: Wait)
    ensures Earlier(later, a, b) ==> Earlier([w] + later, a, b)
    ensures b in later ==> Earlier([w] + later, w, b)
  {
    var all := [w] + later;
    if Earlier(later, a, b) {
      var i, j :| 0 <= i < j < |later| && later[i] == a && later[j] == b;
      assert all[i + 1] == a && all[j + 1] == b;
    }
    if b in later {
      var j :| 0 <= j < |later| && later[j] == b;
      assert all[0] == w && all[j + 1] == b;
    }
  }

  lemma {:induction false} ServedFirst(flags: Flags, w: Wait, later: seq<Wait>, f: Flags, rest: seq<Wait>, got: seq<Delivery>)
    requires Satisfied(flags, w) && FairSend(Left(flags, w), later, f, rest, got) && forall x :: x in later ==> x.tid != w.tid
    ensures FairSend(flags, [w] + later, f, rest, [Delivery(w.tid, Received(flags, w))] + got)
  {
    hide Satisfied, AllFair, Parted, LeftExactly, InOrder, Received;
    var d := Delivery(w.tid, Received(flags, w));
    SatisfiedByReceived(flags, w);
    ServedFair(flags, w, later, got, d);
    ServedParted(w, later, rest, got, d);
    WokenClears(flags, w, later, f, got, [d] + got);
    InOrderLater(w, later, rest);
  }

  lemma {:induction false} ServedFair(flags: Flags, w: Wait, later: seq<Wait>, got: seq<Delivery>, d: Delivery)
    requires AllFair(Left(flags, w), later, got) && Fair(d, w, flags)
    ensures AllFair(flags, [w] + later, [d] + got)
  {
    hide Satisfied;
    forall e | e in [d] + got ensures exists x :: x in [w] + later && Fair(e, x, flags) {
      if e in got {
        var x :| x in later && Fair(e, x, Left(flags, w));
        assert x in [w] + later && Fair(e, x, flags);
      } else {
        assert w in [w] + later;
      }
    }
  }

  lemma {:induction false} ServedParted(w: Wait, later: seq<Wait>, rest: seq<Wait>, got: seq<Delivery>, d: Delivery)
    requires Parted(later, rest, got) && d.tid == w.tid && forall x :: x in later ==> x.tid != w.tid
    ensures Parted([w] + later, rest, [d] + got)
    ensures Woken([d] + got, w) && forall x :: x in later ==> (Woken([d] + got, x) <==> Woken(got, x))
  {
    assert d in [d] + got;
    forall x | x in later ensures Woken([d] + got, x) <==> Woken(got, x) {
    }
  }

  lemma {:induction false} WokenClears(flags: Flags, w: Wait, later: seq<Wait>, f: Flags, got: seq<Delivery>, got': seq<Delivery>)
    requires LeftExactly(Left(flags, w), later, f, got)
    requires Woken(got', w) && forall u :: u in later ==> (Woken(got', u) <==> Woken(got, u))
    ensures LeftExactly(flags, [w] + later, f, got')
  {
    hide Woken;
    forall x ensures x in f <==> x in flags && !Cleared([w] + later, got', x) {
      if w.clear && x in w.interest {
        assert w in [w] + later;
      }
      if u :| u in later && Woken(got, u) && u.clear && x in u.interest {
        assert u in [w] + later;
      }
    }
  }

  lemma {:induction false} InOrderLater(w: Wait, later: seq<Wait>, rest: seq<Wait>)
    requires InOrder(later, rest)
    ensures InOrder([w] + later, rest)
  {
    hide Earlier;
    forall i, j | 0 <= i < j < |rest| ensures Earlier([w] + later, rest[i], rest[j]) {
      EarlierLater(w, later, rest[i], rest[j]);
    }
  }

  lemma SatisfiedByReceived(flags: Flags, w: Wait)
    requires Satisfied(flags, w)
    ensures Fair(Delivery(w.tid, Received(flags, w)), w, flags)
  {
    assert flags * w.interest * w.interest == flags * w.interest;
  }

  lemma {:induction false} KeptFirst(flags: Flags, w: Wait, later: seq<Wait>, f: Flags, rest: seq<Wait>, got: seq<Delivery>)
    requires FairSend(flags, later, f, rest, got) && forall x :: x in later ==> x.tid != w.tid
    ensures FairSend(flags, [w] + later, f, [w] + rest, got)
  {
    hide LeftExactly, InOrder, Satisfied;
    KeptParted(flags, w, later, rest, got);
    KeptClears(flags, w, later, f, got);
    InOrderKept(w, later, rest);
  }

  lemma {:induction false} KeptParted(flags: Flags, w: Wait, later: seq<Wait>, rest: seq<Wait>, got: seq<Delivery>)
    requires AllFair(flags, later, got) && Parted(later, rest, got) && forall x :: x in later ==> x.tid != w.tid
    ensures AllFair(flags, [w] + later, got) && Parted([w] + later, [w] + rest, got) && !Woken(got, w)
  {
    hide Satisfied;
    forall e | e in got ensures exists x :: x in [w] + later && Fair(e, x, flags) {
      var x :| x in later && Fair(e, x, flags);
      assert x in [w] + later;
    }
    assert w in [w] + rest;
  }

  lemma {:induction false} KeptClears(flags: Flags, w: Wait, later: seq<Wait>, f: Flags, got: seq<Delivery>)
    requires LeftExactly(flags, later, f, got) && !Woken(got, w)
    ensures LeftExactly(flags, [w] + later, f, got)
  {
    hide Woken;
    forall x ensures Cleared([w] + later, got, x) <==> Cleared(later, got, x) {
      if u :| u in later && Woken(got, u) && u.clear && x in u.interest {
        assert u in [w] + later;
      }
    }
  }

  lemma {:induction false} InOrderKept(w: Wait, later: seq<Wait>, rest: seq<Wait>)
    requires InOrder(later, rest) && forall x :: x in rest ==> x in later
    ensures InOrder([w] + later, [w] + rest)
  {
    hide Earlier;
    var r := [w] + rest;
    forall i, j | 0 <= i < j < |r| ensures Earlier([w] + later, r[i], r[j]) {
      assert r[j] == rest[j - 1] && rest[j - 1] in rest;
      if i > 0 {
        EarlierLater(w, later, rest[i - 1], rest[j - 1]);
      } else {
        EarlierLater(w, later, w, rest[j - 1]);
      }
    }
  }

  // ----- no waiter is satisfied -----

  ghost predicate NoneSatisfied(flags: Flags, waiters: seq<Wait>) {
    forall i :: 0 <= i < |waiters| ==> waiters[i].interest != {} && !Satisfied(flags, waiters[i])
  }

  ghost predicate Inv(s: State) {
    NoneSatisfied(s.flags, s.waiters)
  }

  /** Fewer flags satisfy no more. */
  lemma FewerSatisfyLess(a: Flags, b: Flags, w: Wait)
    requires a <= b && Satisfied(a, w)
    ensures Satisfied(b, w)
  {
  }

  lemma {:induction false} NoneSatisfiedBelow(a: Flags, b: Flags, waiters: seq<Wait>)
    requires a <= b && NoneSatisfied(b, waiters)
    ensures NoneSatisfied(a, waiters)
  {
    hide Satisfied;
    forall i | 0 <= i < |waiters| ensures waiters[i].interest != {} && !Satisfied(a, waiters[i]) {
      if Satisfied(a, waiters[i]) {
        FewerSatisfyLess(a, b, waiters[i]);
        assert false;
      }
    }
  }

  /** After the deliveries only unsatisfied threads wait, and flags have only been taken. */
  lemma {:induction false} DeliverLeavesNone(flags: Flags, waiters: seq<Wait>)
    requires forall i :: 0 <= i < |waiters| ==> waiters[i].interest != {}
    ensures var (f, rest, got) := Deliver(flags, waiters);
            f <= flags && NoneSatisfied(f, rest) && |rest| + |got| == |waiters|
    decreases |waiters|
  {
    hide Satisfied;
    if waiters != [] {
      var w := waiters[0];
      if Satisfied(flags, w) {
        DeliverLeavesNone(Left(flags, w), waiters[1..]);
        assert Left(flags, w) <= flags;
      } else {
        DeliverLeavesNone(flags, waiters[1..]);
        var f := Deliver(flags, waiters[1..]).0;
        NoneSatisfiedBelow(f, flags, [w]);
        assert [w][0] == w && !Satisfied(f, w);
      }
    }
  }

  /** rt_event_send delivers fairly, and does nothing without flags. */
  lemma {:induction false} SendIsFair(s: State, flags: Flags)
    requires Inv(s) && OnceEach(s.waiters)
    ensures var s', got := Send(s, flags), Deliver(s.flags + flags, s.waiters).2;
            if flags == {} then s' == s else FairSend(s.flags + flags, s.waiters, s'.flags, s'.waiters, got)
  {
    hide Satisfied, FairSend, Deliver;
    DeliverIsFair(s.flags + flags, s.waiters);
  }

  /** rt_event_recv: a thread that is satisfied takes away exactly what it clears and does not wait;
      another waits, at its place, if it has time. */
  lemma {:induction false} ReceiveEffect(s: State, w: Wait, timeout: int, k: nat)
    requires k <= |s.waiters|
    ensures var s', done := Receive(s, w, timeout, k), Satisfied(s.flags, w);
            && (forall x :: x in s'.flags <==> x in s.flags && !(done && w.clear && x in w.interest))
            && (s'.waiters == if !done && timeout != 0 then s.waiters[..k] + [w] + s.waiters[k..] else s.waiters)
  {
  }

  /** A thread whose time is up is off the list, and the others are as they were. */
  lemma {:induction false} TimeoutTakesOff(s: State, i: nat)
    requires i < |s.waiters| && OnceEach(s.waiters)
    ensures var s' := Step(s, TimeoutOp(i));
            && s'.flags == s.flags && (forall w :: w in s'.waiters <==> w in s.waiters && w != s.waiters[i])
            && forall a, b :: 0 <= a < b < |s'.waiters| ==> Earlier(s.waiters, s'.waiters[a], s'.waiters[b])
  {
    assert Distinct(s.waiters);
    RemoveAtMembers(s.waiters, i);
    var s' := Step(s, TimeoutOp(i));
    forall a, b | 0 <= a < b < |s'.waiters| ensures Earlier(s.waiters, s'.waiters[a], s'.waiters[b]) {
      RemovePlace(s.waiters, i, a);
      RemovePlace(s.waiters, i, b);
    }
  }

  // ----- runs -----

  datatype Op = SendOp(flags: Flags) | ReceiveOp(w: Wait, timeout: int, k: nat) | TimeoutOp(i: nat) | ResetOp

  /** A receive asks for some flag, as the source checks. */
  predicate Legal(s: State, op: Op) {
    match op
    case SendOp(_) => true
    case ReceiveOp(w, _, k) => w.interest != {} && k <= |s.waiters|
    case TimeoutOp(i) => i < |s.waiters|
    case ResetOp => true
  }

  function Step(s: State, op: Op): State
    requires Legal(s, op)
  {
    match op
    case SendOp(flags) => Send(s, flags)
    case ReceiveOp(w, timeout, k) => Receive(s, w, timeout, k)
    case TimeoutOp(i) => s.(waiters := RemoveAt(s.waiters, i))
    case ResetOp => State({}, [])
  }

  lemma {:induction false} StepKeepsInv(s: State, op: Op)
    requires Inv(s) && Legal(s, op)
    ensures Inv(Step(s, op))
  {
    hide Satisfied, Deliver;
    match op
    case SendOp(flags) => DeliverLeavesNone(s.flags + flags, s.waiters);
    case ReceiveOp(w, timeout, k) =>
      if Satisfied(s.flags, w) {
        NoneSatisfiedBelow(Left(s.flags, w), s.flags, s.waiters);
      } else {
        var r := Splice(s.waiters, k, w);
        forall i | 0 <= i < |r| ensures r[i].interest != {} && !Satisfied(s.flags, r[i]) {
          SplicePlace(s.waiters, k, w, i);
        }
      }
    case TimeoutOp(i) =>
    case ResetOp =>
  }

  ghost predicate IsRun(states: seq<State>, ops: seq<Op>) {
    && |states| == |ops| + 1 && states[0] == State({}, [])
    && forall i :: 0 <= i < |ops| ==> Legal(states[i], ops[i]) && states[i + 1] == Step(states[i], ops[i])
  }

  /** In no state of any run does a thread wait for flags that are there. */
  lemma {:induction false} RunKeepsInv(states: seq<State>, ops: seq<Op>, n: nat)
    requires IsRun(states, ops) && n <= |ops|
    ensures Inv(states[n])
    decreases n
  {
    hide Step, Legal, Satisfied;
    if n > 0 {
      RunKeepsInv(states, ops, n - 1);
      StepKeepsInv(states[n - 1], ops[n - 1]);
    }
  }
}
