/** The recursive, priority-inheriting mutex of src/ipc.c as a state machine over the
    threads that use it. A smaller number is a more urgent priority. */
module MutexModel {
  import opened Sequences
  import opened IpcQueue

  datatype Owner = Nobody | Thread(tid: Tid)

  /** `waiters` is the suspend list; `since` numbers the suspensions. */
  datatype State = State(value: int, owner: Owner, original: int, hold: int, waiters: seq<Tid>,
                         current: map<Tid, int>, clock: int, since: map<Tid, int>)

  /** `hold` is an unsigned byte. */
  const HOLD_RANGE := 256
  const NO_PRIORITY := 0xFF

  function Initial(base: map<Tid, int>): State {
    State(1, Nobody, NO_PRIORITY, 0, [], base, 0, map t | t in base :: 0)
  }

  // ----- operations -----

  predicate Known(s: State) {
    && (forall w :: w in s.waiters ==> w in s.current)
    && (s.owner.Thread? ==> s.owner.tid in s.current)
  }

  /** The suspension of `t`: the owner inherits its priority if that is more urgent. */
  function Suspend(s: State, t: Tid, prio: bool): State
    requires Known(s) && t in s.current && s.owner.Thread?
  {
    var o := s.owner.tid;
    var current := if s.current[t] < s.current[o] then s.current[o := s.current[t]] else s.current;
    s.(current := current, waiters := Queued(s.waiters, current, t, prio), clock := s.clock + 1, since := s.since[t := s.clock])
  }

  /** rt_mutex_take with a timeout of `time` ticks; negative waits for ever. */
  function Take(s: State, t: Tid, time: int, prio: bool): State
    requires Known(s) && t in s.current && (s.owner.Nobody? ==> s.value > 0)
  {
    if s.owner == Thread(t) then
      s.(hold := (s.hold + 1) % HOLD_RANGE)
    else if s.value > 0 then
      s.(value := s.value - 1, owner := Thread(t), original := s.current[t], hold := (s.hold + 1) % HOLD_RANGE)
    else if time == 0 then s
    else Suspend(s, t, prio)
  }

  /** The last release: the priority goes back, and the mutex to the first waiter. */
  function HandOff(s: State): State
    requires Known(s) && s.owner.Thread?
  {
    var current := s.current[s.owner.tid := s.original];
    if s.waiters == [] then
      s.(value := s.value + 1, owner := Nobody, original := NO_PRIORITY, current := current)
    else
      var w := s.waiters[0];
      s.(owner := Thread(w), original := current[w], hold := (s.hold + 1) % HOLD_RANGE, waiters := s.waiters[1..],
         current := current)
  }

  /** rt_mutex_release */
  function Release(s: State, t: Tid): State
    requires Known(s) && t in s.current
  {
    if s.owner != Thread(t) then s
    else
      var s1 := s.(hold := (s.hold - 1) % HOLD_RANGE);
      if s1.hold == 0 then HandOff(s1) else s1
  }

  /** rt_thread_timeout of a waiting thread */
  function Timeout(s: State, t: Tid): State
    requires t in s.waiters
  {
    s.(waiters := Without(s.waiters, t))
  }

  // ----- invariant -----

  ghost predicate OwnerAgrees(s: State, base: map<Tid, int>) {
    match s.owner
    case Nobody => s.value == 1 && s.hold == 0 && s.original == NO_PRIORITY && s.waiters == []
    case Thread(o) => s.value == 0 && 1 <= s.hold < HOLD_RANGE && o in base && s.original == base[o] && o !in s.waiters
  }

  /** Only the owner may be away from its base priority, and only to be more urgent. */
  ghost predicate Inherits(s: State, base: map<Tid, int>) {
    forall t :: t in base ==> t in s.current && s.current[t] <= base[t] && (s.owner != Thread(t) ==> s.current[t] == base[t])
  }

  ghost predicate OwnerUrgent(s: State) {
    s.owner.Thread? && s.owner.tid in s.current ==>
      forall w :: w in s.waiters && w in s.current ==> s.current[s.owner.tid] <= s.current[w]
  }

  /** `a` is to be served before `b`: more urgent, or as urgent and suspended earlier. */
  ghost predicate Before(s: State, a: Tid, b: Tid) {
    && a in s.current && b in s.current && a in s.since && b in s.since
    && (s.current[a] < s.current[b] || (s.current[a] == s.current[b] && s.since[a] < s.since[b]))
  }

  ghost predicate Ordered(s: State) {
    forall i, j :: 0 <= i < j < |s.waiters| ==> Before(s, s.waiters[i], s.waiters[j])
  }

  ghost predicate Stamped(s: State) {
    forall w :: w in s.waiters ==> w in s.since && s.since[w] < s.clock
  }

  /** What holds whatever the queueing discipline. */
  ghost predicate Agreed(s: State, base: map<Tid, int>) {
    && s.current.Keys == base.Keys && Known(s) && Distinct(s.waiters) && Stamped(s)
    && OwnerAgrees(s, base) && Inherits(s, base)
  }

  ghost predicate Inv(s: State, base: map<Tid, int>) {
    Agreed(s, base) && OwnerUrgent(s) && Ordered(s)
  }

  lemma InitialInv(base: map<Tid, int>)
    ensures Inv(Initial(base), base)
  {
  }

  // ----- taking -----

  lemma {:induction false} GrantKeepsInv(s: State, base: map<Tid, int>, t: Tid, time: int, prio: bool)
    requires Inv(s, base) && t in base && t !in s.waiters && (s.owner == Thread(t) || s.value > 0)
    requires s.owner == Thread(t) ==> s.hold < HOLD_RANGE - 1
    ensures Inv(Take(s, t, time, prio), base)
  {
    hide Place, Before;
    var s' := Take(s, t, time, prio);
    assert s'.waiters == s.waiters && s'.current == s.current;
    assert Ordered(s') by {
      SameOrder(s, s');
    }
  }

  lemma {:induction false} SameOrder(s: State, s': State)
    requires Ordered(s) && s'.waiters == s.waiters && s'.since == s.since
    requires forall w :: w in s.waiters && w in s.current ==> w in s'.current && s'.current[w] == s.current[w]
    ensures Ordered(s')
  {
    forall i, j | 0 <= i < j < |s'.waiters| ensures Before(s', s'.waiters[i], s'.waiters[j]) {
      assert Before(s, s.waiters[i], s.waiters[j]);
    }
  }

  /** Inheritance leaves the waiters' priorities alone. */
  lemma {:induction false} SuspendKeepsAgreed(s: State, base: map<Tid, int>, t: Tid, prio: bool)
    requires Agreed(s, base) && t in base && t !in s.waiters && s.owner.Thread? && s.owner.tid != t
    ensures Agreed(Suspend(s, t, prio), base) && (OwnerUrgent(s) ==> OwnerUrgent(Suspend(s, t, prio)))
  {
    hide Queued;
    var s' := Suspend(s, t, prio);
    QueuedMembers(s.waiters, s'.current, t, prio);
  }

  /** The new waiter goes behind everyone at least as urgent and before the rest. */
  lemma {:induction false} SuspendKeepsOrder(s: State, base: map<Tid, int>, t: Tid)
    requires Inv(s, base) && t in base && t !in s.waiters && s.owner.Thread? && s.owner.tid != t
    ensures Ordered(Suspend(s, t, true))
  {
    hide Place;
    var s' := Suspend(s, t, true);
    var p := s'.current[t];
    var k := Place(s.waiters, s'.current, p);
    forall i, j | 0 <= i < j < |s'.waiters| ensures Before(s', s'.waiters[i], s'.waiters[j]) {
      SplicePlace(s.waiters, k, t, i);
      SplicePlace(s.waiters, k, t, j);
      if i == k {
        PlaceSplits(s, base, s'.current, p, j - 1);
      } else if j == k {
        PlaceSplits(s, base, s'.current, p, i);
      } else {
        var i', j' := if i < k then i else i - 1, if j < k then j else j - 1;
        assert Before(s, s.waiters[i'], s.waiters[j']);
      }
    }
  }

  lemma {:induction false} PlaceSplits(s: State, base: map<Tid, int>, current: map<Tid, int>, p: int, i: nat)
    requires Inv(s, base) && i < |s.waiters|
    requires forall w :: w in s.waiters ==> w in current && current[w] == s.current[w]
    ensures var k := Place(s.waiters, current, p);
            if i < k then current[s.waiters[i]] <= p else p < current[s.waiters[i]]
  {
    hide Place;
    var k := Place(s.waiters, current, p);
    if k < i {
      assert Before(s, s.waiters[k], s.waiters[i]);
    }
  }

  /** A take keeps the invariant unless it is the owner's take that wraps the hold count. */
  lemma {:induction false} TakeKeepsInvIff(s: State, base: map<Tid, int>, t: Tid, time: int)
    requires Inv(s, base) && t in base && t !in s.waiters
    ensures Inv(Take(s, t, time, true), base) <==> !(s.owner == Thread(t) && s.hold == HOLD_RANGE - 1)
  {
    hide Place, Suspend, Ordered, Inherits, OwnerUrgent, Stamped;
    if s.owner == Thread(t) && s.hold == HOLD_RANGE - 1 {
      assert Take(s, t, time, true).hold == 0;
    } else if s.owner == Thread(t) || s.value > 0 {
      GrantKeepsInv(s, base, t, time, true);
    } else if time != 0 {
      SuspendKeepsAgreed(s, base, t, true);
      SuspendKeepsOrder(s, base, t);
    }
  }

  // ----- releasing -----

  lemma {:induction false} UnholdKeeps(s: State, base: map<Tid, int>, t: Tid)
    requires Inv(s, base) && s.owner == Thread(t) && s.hold > 1
    ensures Inv(Release(s, t), base)
  {
    hide Before;
    SameOrder(s, Release(s, t));
  }

  lemma {:induction false} LastReleaseAgrees(s: State, base: map<Tid, int>, t: Tid)
    requires Agreed(s, base) && s.owner == Thread(t) && s.hold == 1
    ensures Agreed(Release(s, t), base)
    ensures Release(s, t).waiters == (if s.waiters == [] then [] else s.waiters[1..])
    ensures Release(s, t).owner == if s.waiters == [] then Nobody else Thread(s.waiters[0])
    ensures forall w :: w in base && w != t ==> w in Release(s, t).current && Release(s, t).current[w] == s.current[w]
    ensures Release(s, t).since == s.since
  {
    hide Distinct;
    if s.waiters != [] {
      TailMembers(s.waiters);
    }
  }

  /** The mutex goes to the waiter that is served before all others, so the new owner needs
      no boost. */
  lemma {:induction false} LastReleaseKeepsInv(s: State, base: map<Tid, int>, t: Tid)
    requires Inv(s, base) && s.owner == Thread(t) && s.hold == 1
    ensures Inv(Release(s, t), base)
  {
    hide Release, Inherits;
    LastReleaseAgrees(s, base, t);
    var s' := Release(s, t);
    if s.waiters != [] {
      assert s.waiters[0] in s.waiters;
      forall i, j | 0 <= i < j < |s'.waiters| ensures Before(s', s'.waiters[i], s'.waiters[j]) {
        assert Before(s, s.waiters[i + 1], s.waiters[j + 1]);
        assert s.waiters[i + 1] in s.waiters && s.waiters[j + 1] in s.waiters;
      }
      forall w | w in s'.waiters ensures s'.current[s.waiters[0]] <= s'.current[w] {
        var i :| 0 <= i < |s'.waiters| && s'.waiters[i] == w;
        assert Before(s, s.waiters[0], s.waiters[i + 1]);
        assert s.waiters[i + 1] in s.waiters;
      }
    }
  }

  lemma {:induction false} ReleaseKeepsInv(s: State, base: map<Tid, int>, t: Tid)
    requires Inv(s, base) && t in base
    ensures Inv(Release(s, t), base)
  {
    hide Agreed, OwnerUrgent, Ordered, HandOff;
    if s.owner == Thread(t) {
      OwnerHolds(s, base, t);
      if s.hold > 1 {
        UnholdKeeps(s, base, t);
      } else {
        LastReleaseKeepsInv(s, base, t);
      }
    }
  }

  lemma OwnerHolds(s: State, base: map<Tid, int>, t: Tid)
    requires Agreed(s, base) && s.owner == Thread(t)
    ensures 1 <= s.hold < HOLD_RANGE
  {
  }

  lemma {:induction false} TimeoutKeepsInv(s: State, base: map<Tid, int>, t: Tid)
    requires Inv(s, base) && t in s.waiters
    ensures Inv(Timeout(s, t), base)
  {
    var s', k := Timeout(s, t), IndexOf(s.waiters, t);
    RemoveAtMembers(s.waiters, k);
    forall i, j | 0 <= i < j < |s'.waiters| ensures Before(s', s'.waiters[i], s'.waiters[j]) {
      RemovePlace(s.waiters, k, i);
      RemovePlace(s.waiters, k, j);
      assert Before(s, s'.waiters[i], s'.waiters[j]);
    }
  }

  // ----- hand-off by queueing discipline -----

  /** A last release with waiters leaves the new owner at least as urgent as every waiter
      exactly when the first waiter is; nothing raises the new owner. */
  lemma {:induction false} HandOffUrgentIff(s: State, base: map<Tid, int>, t: Tid)
    requires Agreed(s, base) && s.owner == Thread(t) && s.hold == 1 && s.waiters != []
    ensures OwnerUrgent(Release(s, t)) <==> forall w :: w in s.waiters ==> s.current[s.waiters[0]] <= s.current[w]
  {
    hide Release;
    LastReleaseAgrees(s, base, t);
    var s' := Release(s, t);
    assert s.waiters[0] in s.waiters && s'.current[s.waiters[0]] == s.current[s.waiters[0]];
    assert s.waiters == [s.waiters[0]] + s.waiters[1..];
    forall w | w in s.waiters ensures s'.current[w] == s.current[w] {
    }
  }

  // ----- runs -----

  datatype Op = TakeOp(t: Tid, time: int) | ReleaseOp(t: Tid) | TimeoutOp(t: Tid)

  /** Calls are made by threads that run, and timeouts hit threads that wait. */
  ghost predicate Legal(s: State, base: map<Tid, int>, op: Op) {
    && s.current.Keys == base.Keys && Known(s) && (s.owner.Nobody? ==> s.value > 0)
    && match op
       case TakeOp(t, _) => t in base && t !in s.waiters
       case ReleaseOp(t) => t in base && t !in s.waiters
       case TimeoutOp(t) => t in s.waiters
  }

  /** A take by the owner that drives the hold count past a byte. */
  predicate Wraps(s: State, op: Op) {
    op.TakeOp? && s.owner == Thread(op.t) && s.hold == HOLD_RANGE - 1
  }

  ghost function Step(s: State, base: map<Tid, int>, op: Op, prio: bool): State
    requires Legal(s, base, op)
  {
    match op
    case TakeOp(t, time) => Take(s, t, time, prio)
    case ReleaseOp(t) => Release(s, t)
    case TimeoutOp(t) => Timeout(s, t)
  }

  lemma {:induction false} StepKeepsInvIff(s: State, base: map<Tid, int>, op: Op)
    requires Inv(s, base) && Legal(s, base, op)
    ensures Inv(Step(s, base, op, true), base) <==> !Wraps(s, op)
  {
    hide Inv, Take, Release, Timeout;
    match op
    case TakeOp(t, time) => TakeKeepsInvIff(s, base, t, time);
    case ReleaseOp(t) => ReleaseKeepsInv(s, base, t);
    case TimeoutOp(t) => TimeoutKeepsInv(s, base, t);
  }

  /** The states a run of legal calls goes through, on a mutex that queues by priority or first
      come. */
  ghost predicate IsRun(states: seq<State>, ops: seq<Op>, base: map<Tid, int>, prio: bool) {
    && |states| == |ops| + 1 && states[0] == Initial(base)
    && forall i :: 0 <= i < |ops| ==> Legal(states[i], base, ops[i]) && states[i + 1] == Step(states[i], base, ops[i], prio)
  }

  /** In every state of every run of takes, recursive takes, timeouts and releases, before the hold
      count wraps, the owner is at least as urgent as every waiter, everyone else is at base
      priority, and value, owner and hold agree. */
  lemma {:induction false} RunKeepsInv(states: seq<State>, ops: seq<Op>, base: map<Tid, int>, n: nat)
    requires IsRun(states, ops, base, true) && n <= |ops| && forall i :: 0 <= i < n ==> !Wraps(states[i], ops[i])
    ensures Inv(states[n], base)
    decreases n
  {
    hide Inv, Step, Legal, Wraps;
    if n == 0 {
      InitialInv(base);
    } else {
      RunKeepsInv(states, ops, base, n - 1);
      StepKeepsInvIff(states[n - 1], base, ops[n - 1]);
    }
  }

  /** A run keeps the invariant throughout if and only if the hold count never wraps. */
  lemma {:induction false} RunKeepsInvIff(states: seq<State>, ops: seq<Op>, base: map<Tid, int>)
    requires IsRun(states, ops, base, true)
    ensures (forall n :: 0 <= n < |states| ==> Inv(states[n], base)) <==> forall i :: 0 <= i < |ops| ==> !Wraps(states[i], ops[i])
  {
    hide Inv, Step, Legal, Wraps;
    if forall i :: 0 <= i < |ops| ==> !Wraps(states[i], ops[i]) {
      forall n | 0 <= n < |states| ensures Inv(states[n], base) {
        RunKeepsInv(states, ops, base, n);
      }
    } else {
      var i :| 0 <= i < |ops| && Wraps(states[i], ops[i]);
      assert Inv(states[i], base) ==> !Inv(states[i + 1], base) by {
        if Inv(states[i], base) {
          StepKeepsInvIff(states[i], base, ops[i]);
        }
      }
    }
  }

  /** `n` takes in a row by one thread. */
  ghost function Takes(base: map<Tid, int>, t: Tid, n: nat): State
    requires t in base
  {
    if n == 0 then Initial(base)
    else
      var s := Takes(base, t, n - 1);
      if Known(s) && t in s.current && (s.owner.Nobody? ==> s.value > 0) then Take(s, t, -1, true) else s
  }

  ghost predicate HeldAlone(s: State, base: map<Tid, int>, t: Tid, hold: nat) {
    && s.owner == Thread(t) && s.waiters == [] && s.current.Keys == base.Keys && Known(s) && s.hold == hold
    && (Inv(s, base) <==> 1 <= hold)
  }

  /** With 256 nested takes by one thread the hold count is 0 although the thread owns the mutex;
      up to 255 all is well. */
  lemma {:induction false} HoldWraps(base: map<Tid, int>, t: Tid, n: nat)
    requires t in base && 1 <= n <= HOLD_RANGE
    ensures HeldAlone(Takes(base, t, n), base, t, n % HOLD_RANGE)
  {
    hide Inv, Known, Take;
    if n == 1 {
      assert Takes(base, t, 0) == Initial(base);
      FirstTake(base, t);
    } else {
      HoldWraps(base, t, n - 1);
      NextTake(Takes(base, t, n - 1), base, t);
    }
  }

  lemma {:induction false} FirstTake(base: map<Tid, int>, t: Tid)
    requires t in base
    ensures Known(Initial(base)) && HeldAlone(Take(Initial(base), t, -1, true), base, t, 1)
  {
    hide Inv;
    InitialInv(base);
    TakeKeepsInvIff(Initial(base), base, t, -1);
  }

  lemma {:induction false} NextTake(s: State, base: map<Tid, int>, t: Tid)
    requires 1 <= s.hold < HOLD_RANGE && HeldAlone(s, base, t, s.hold) && t in base
    ensures Known(s) && t in s.current && s.owner.Thread?
    ensures HeldAlone(Take(s, t, -1, true), base, t, (s.hold + 1) % HOLD_RANGE)
  {
    hide Inv;
    TakeKeepsInvIff(s, base, t, -1);
  }

  // ----- first-come mutexes -----

  ghost predicate FirstComeInv(s: State, base: map<Tid, int>) {
    Agreed(s, base) && OwnerUrgent(s)
  }

  ghost predicate AllEqual(base: map<Tid, int>) {
    forall t, u :: t in base && u in base ==> base[t] == base[u]
  }

  /** On every run of a first-come mutex without a wrapped hold count the owner is at least as
      urgent as every waiter. */
  ghost predicate FirstComeUrgent(base: map<Tid, int>) {
    forall states: seq<State>, ops: seq<Op> :: IsRun(states, ops, base, false) && NeverWraps(states, ops) ==> AllUrgent(states)
  }

  ghost predicate NeverWraps(states: seq<State>, ops: seq<Op>) {
    |ops| <= |states| && forall i :: 0 <= i < |ops| ==> !Wraps(states[i], ops[i])
  }

  ghost predicate AllUrgent(states: seq<State>) {
    forall n :: 0 <= n < |states| ==> OwnerUrgent(states[n])
  }

  /** Inheritance keeps a first-come mutex free of inversion, on every run, if and only if at most
      two threads use it or all have the same priority. */
  lemma {:induction false} FirstComeUrgentIff(base: map<Tid, int>)
    ensures FirstComeUrgent(base) <==> |base.Keys| <= 2 || AllEqual(base)
  {
    hide AllUrgent, NeverWraps, IsRun, AllEqual;
    if |base.Keys| <= 2 || AllEqual(base) {
      forall states: seq<State>, ops: seq<Op> | IsRun(states, ops, base, false) && NeverWraps(states, ops) ensures AllUrgent(states) {
        FirstComeRun(states, ops, base);
      }
    } else {
      var b, c := Unequal(base);
      var a := ThirdOf(base.Keys, b, c);
      var states, ops := FirstComeInversion(base, a, b, c);
    }
  }

  lemma Unequal(base: map<Tid, int>) returns (b: Tid, c: Tid)
    requires !AllEqual(base)
    ensures b in base && c in base && base[c] < base[b]
  {
    b, c :| b in base && c in base && base[b] != base[c];
    if base[b] < base[c] {
      b, c := c, b;
    }
  }

  lemma ThirdOf(s: set<Tid>, b: Tid, c: Tid) returns (a: Tid)
    requires |s| > 2
    ensures a in s && a != b && a != c
  {
    var rest := s - {b, c};
    assert |rest| > 0 by {
      assert s <= rest + {b, c};
      SubsetSize(s, rest + {b, c});
    }
    a :| a in rest;
  }

  lemma {:induction false} SubsetSize(a: set<Tid>, b: set<Tid>)
    requires a <= b
    ensures |a| <= |b|
  {
    if a != {} {
      var x :| x in a;
      SubsetSize(a - {x}, b - {x});
    }
  }

  lemma {:induction false} FirstComeRun(states: seq<State>, ops: seq<Op>, base: map<Tid, int>)
    requires IsRun(states, ops, base, false) && NeverWraps(states, ops) && (|base.Keys| <= 2 || AllEqual(base))
    ensures AllUrgent(states)
  {
    hide FirstComeInv, Step, Legal, Wraps, AllEqual;
    forall n | 0 <= n < |states| ensures OwnerUrgent(states[n]) {
      FirstComeState(states, ops, base, n);
      assert FirstComeInv(states[n], base) ==> OwnerUrgent(states[n]) by {
        UrgentOf(states[n], base);
      }
    }
  }

  lemma UrgentOf(s: State, base: map<Tid, int>)
    ensures FirstComeInv(s, base) ==> OwnerUrgent(s)
  {
  }

  lemma {:induction false} FirstComeState(states: seq<State>, ops: seq<Op>, base: map<Tid, int>, n: nat)
    requires IsRun(states, ops, base, false) && NeverWraps(states, ops) && (|base.Keys| <= 2 || AllEqual(base)) && n < |states|
    ensures FirstComeInv(states[n], base)
    decreases n
  {
    hide FirstComeInv, Step, Legal, Wraps, AllEqual;
    if n == 0 {
      FirstComeInitial(base);
    } else {
      FirstComeState(states, ops, base, n - 1);
      FirstComeStep(states[n - 1], base, ops[n - 1]);
    }
  }

  lemma FirstComeInitial(base: map<Tid, int>)
    ensures FirstComeInv(Initial(base), base)
  {
  }

  lemma {:induction false} FirstComeStep(s: State, base: map<Tid, int>, op: Op)
    requires FirstComeInv(s, base) && Legal(s, base, op) && !Wraps(s, op) && (|base.Keys| <= 2 || AllEqual(base))
    ensures FirstComeInv(Step(s, base, op, false), base)
  {
    hide Suspend, HandOff, AllEqual, Queued, Without;
    match op
    case TakeOp(t, time) =>
      if s.owner.Thread? && s.owner != Thread(t) && s.value == 0 && time != 0 {
        SuspendKeepsAgreed(s, base, t, false);
      }
    case ReleaseOp(t) => FirstComeRelease(s, base, t);
    case TimeoutOp(t) =>
      RemoveAtMembers(s.waiters, IndexOf(s.waiters, t));
      WithoutMembers(s.waiters, t);
  }

  lemma {:induction false} FirstComeRelease(s: State, base: map<Tid, int>, t: Tid)
    requires FirstComeInv(s, base) && t in base && (|base.Keys| <= 2 || AllEqual(base))
    ensures FirstComeInv(Release(s, t), base)
  {
    hide HandOff;
    if s.owner == Thread(t) && s.hold == 1 {
      LastReleaseAgrees(s, base, t);
      if s.waiters != [] {
        AnyFirst(s, base, t);
        HandOffUrgentIff(s, base, t);
      }
    }
  }

  /** The only waiter, or one of waiters that are all as urgent. */
  lemma {:induction false} AnyFirst(s: State, base: map<Tid, int>, t: Tid)
    requires Agreed(s, base) && s.owner == Thread(t) && s.waiters != [] && (|base.Keys| <= 2 || AllEqual(base))
    ensures forall w :: w in s.waiters ==> s.current[s.waiters[0]] <= s.current[w]
  {
    var f := s.waiters[0];
    assert f in s.waiters;
    forall w | w in s.waiters ensures s.current[f] <= s.current[w] {
      if !AllEqual(base) && w != f {
        SubsetSize({t, f, w}, base.Keys);
      }
    }
  }

  /** Thread `a` owns a first-come mutex, `b` waits and then the more urgent `c`: after the release
      `b` owns it while `c` waits. */
  lemma {:induction false} FirstComeInversion(base: map<Tid, int>, a: Tid, b: Tid, c: Tid) returns (states: seq<State>, ops: seq<Op>)
    requires a in base && b in base && c in base && a != b && a != c && base[c] < base[b]
    ensures IsRun(states, ops, base, false) && NeverWraps(states, ops) && !AllUrgent(states)
    ensures |states| == 5 && states[4].owner == Thread(b) && states[4].waiters == [c]
  {
    hide Take, Release, OwnerUrgent, Known;
    var s0 := Initial(base);
    GrantedFirst(base, a);
    var s1 := Take(s0, a, -1, false);
    WaitsNext(s1, b);
    var s2 := Take(s1, b, -1, false);
    WaitsNext(s2, c);
    var s3 := Take(s2, c, -1, false);
    HandedOn(s3, base, a, b, c);
    var s4 := Release(s3, a);
    states, ops := [s0, s1, s2, s3, s4], [TakeOp(a, -1), TakeOp(b, -1), TakeOp(c, -1), ReleaseOp(a)];
    assert !OwnerUrgent(states[4]);
  }

  lemma {:induction false} GrantedFirst(base: map<Tid, int>, t: Tid)
    requires t in base
    ensures Known(Initial(base))
    ensures var s := Take(Initial(base), t, -1, false);
            Known(s) && s.value == 0 && s.owner == Thread(t) && s.hold == 1 && s.waiters == [] && s.current == base
  {
  }

  /** A thread that finds a first-come mutex taken goes last; only the owner's priority changes. */
  lemma {:induction false} WaitsNext(s: State, t: Tid)
    requires Known(s) && t in s.current && s.value == 0 && s.owner.Thread? && s.owner.tid != t
    ensures var s' := Take(s, t, -1, false);
            && Known(s') && s'.value == 0 && s'.owner == s.owner && s'.hold == s.hold && s'.waiters == s.waiters + [t]
            && s'.current.Keys == s.current.Keys && forall w :: w in s.current && w != s.owner.tid ==> s'.current[w] == s.current[w]
  {
  }

  lemma {:induction false} HandedOn(s: State, base: map<Tid, int>, a: Tid, b: Tid, c: Tid)
    requires Known(s) && s.owner == Thread(a) && s.hold == 1 && s.waiters == [b, c] && a in s.current && b in s.current && c in s.current
    requires a != b && a != c && s.current[c] < s.current[b]
    ensures var s' := Release(s, a); s'.owner == Thread(b) && s'.waiters == [c] && !OwnerUrgent(s')
  {
    var s' := Release(s, a);
    assert s'.waiters == [c] && c in s'.waiters;
  }
}
