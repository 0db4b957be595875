/** What a mutex's fields are, told from the calls made so far: who holds it and how often, who
    waits, and at which priority the owner runs. */
module MutexHistory {
  import opened Sequences
  import opened IpcQueue
  import opened MutexModel

  /** The states and calls of a run, the first `n` of which do not wrap the hold count. */
  ghost predicate Unwrapped(states: seq<State>, ops: seq<Op>, base: map<Tid, int>, prio: bool, n: nat) {
    IsRun(states, ops, base, prio) && n <= |ops| && forall i :: 0 <= i < n ==> !Wraps(states[i], ops[i])
  }

  // ----- under either queueing discipline -----

  lemma {:induction false} StepAgrees(s: State, base: map<Tid, int>, op: Op, prio: bool)
    requires Agreed(s, base) && Legal(s, base, op) && !Wraps(s, op)
    ensures Agreed(Step(s, base, op, prio), base)
  {
    hide Suspend, HandOff, Queued, Without, Distinct;
    match op
    case TakeOp(t, time) =>
      if s.owner.Thread? && s.owner != Thread(t) && s.value == 0 && time != 0 {
        SuspendKeepsAgreed(s, base, t, prio);
      }
    case ReleaseOp(t) =>
      if s.owner == Thread(t) && s.hold == 1 {
        LastReleaseAgrees(s, base, t);
      }
    case TimeoutOp(t) => WithoutMembers(s.waiters, t);
  }

  lemma {:induction false} RunAgrees(states: seq<State>, ops: seq<Op>, base: map<Tid, int>, prio: bool, n: nat)
    requires Unwrapped(states, ops, base, prio, n)
    ensures Agreed(states[n], base)
    decreases n
  {
    hide Agreed, Step, Legal, Wraps;
    if n == 0 {
      InitialAgrees(base);
    } else {
      RunAgrees(states, ops, base, prio, n - 1);
      StepAgrees(states[n - 1], base, ops[n - 1], prio);
    }
  }

  lemma InitialAgrees(base: map<Tid, int>)
    ensures Agreed(Initial(base), base)
  {
  }

  // ----- who holds the mutex, and how often -----

  /** A release passed the mutex on to `t`. */
  predicate HandedTo(s: State, op: Op, s': State, t: Tid) {
    op.ReleaseOp? && s'.owner != s.owner && s'.owner == Thread(t)
  }

  /** One more for a take that finds the mutex free or its own and for a hand-off, one less for a
      release by the owner. */
  function Gain(s: State, op: Op, s': State, t: Tid): int {
    (if op.TakeOp? && op.t == t && (s.owner == Nobody || s.owner == Thread(t)) then 1 else 0)
    + (if HandedTo(s, op, s', t) then 1 else 0)
    - (if op == ReleaseOp(t) && s.owner == Thread(t) then 1 else 0)
  }

  ghost function Balance(states: seq<State>, ops: seq<Op>, t: Tid, n: nat): int
    requires |states| == |ops| + 1 && n <= |ops|
  {
    if n == 0 then 0 else Balance(states, ops, t, n - 1) + Gain(states[n - 1], ops[n - 1], states[n], t)
  }

  /** What a thread has taken and been handed, less what it has released, is the hold count for the
      owner and nothing for the others. */
  lemma {:induction false} BalanceIsHold(states: seq<State>, ops: seq<Op>, base: map<Tid, int>, prio: bool, t: Tid, n: nat)
    requires Unwrapped(states, ops, base, prio, n) && t in base
    ensures Balance(states, ops, t, n) == if states[n].owner == Thread(t) then states[n].hold else 0
    decreases n
  {
    hide Agreed, Step, Legal, Wraps, Gain;
    if n == 0 {
      assert states[0] == Initial(base);
    } else {
      BalanceIsHold(states, ops, base, prio, t, n - 1);
      RunAgrees(states, ops, base, prio, n - 1);
      StepGain(states[n - 1], base, ops[n - 1], prio, t);
    }
  }

  function Held(s: State, t: Tid): int {
    if s.owner == Thread(t) then s.hold else 0
  }

  lemma {:induction false} StepGain(s: State, base: map<Tid, int>, op: Op, prio: bool, t: Tid)
    requires Agreed(s, base) && Legal(s, base, op) && !Wraps(s, op)
    ensures var s' := Step(s, base, op, prio); Held(s', t) == Held(s, t) + Gain(s, op, s', t)
  {
    hide Queued, Without, Distinct, Inherits;
    if op.ReleaseOp? && s.owner == Thread(op.t) && s.hold == 1 {
      LastReleaseAgrees(s, base, op.t);
      assert s.waiters != [] ==> s.waiters[0] in s.waiters;
    }
  }

  /** As many releases as nested takes by one thread, up to 255, leave the mutex free; in between it
      is the owner. */
  lemma {:induction false} NestedReleasesFree(states: seq<State>, ops: seq<Op>, base: map<Tid, int>, prio: bool, t: Tid, n: nat)
    requires IsRun(states, ops, base, prio) && t in base && |ops| == 2 * n && n < HOLD_RANGE
    requires forall i :: 0 <= i < n ==> ops[i].TakeOp? && ops[i].t == t
    requires forall i :: n <= i < 2 * n ==> ops[i] == ReleaseOp(t)
    ensures states[2 * n].owner == Nobody && states[2 * n].value == 1
    ensures forall i :: 1 <= i < 2 * n ==> states[i].owner == Thread(t)
  {
    hide Step, Legal, Initial;
    forall i | 0 <= i <= 2 * n ensures Alone(states[i], t, if i <= n then i else 2 * n - i) {
      AloneAt(states, ops, base, prio, t, n, i);
    }
  }

  /** Thread `t` holds the mutex `hold` times and nobody waits. */
  predicate Alone(s: State, t: Tid, hold: int) {
    && s.waiters == [] && s.hold == hold
    && if hold == 0 then s.owner == Nobody && s.value == 1 else s.owner == Thread(t) && s.value == 0
  }

  lemma {:induction false} AloneAt(states: seq<State>, ops: seq<Op>, base: map<Tid, int>, prio: bool, t: Tid, n: nat, i: nat)
    requires IsRun(states, ops, base, prio) && t in base && |ops| == 2 * n && n < HOLD_RANGE && i <= 2 * n
    requires forall i :: 0 <= i < n ==> ops[i].TakeOp? && ops[i].t == t
    requires forall i :: n <= i < 2 * n ==> ops[i] == ReleaseOp(t)
    ensures Alone(states[i], t, if i <= n then i else 2 * n - i)
    decreases i
  {
    hide Step, Legal, Alone;
    if i == 0 {
      AloneInitial(base, t);
    } else {
      AloneAt(states, ops, base, prio, t, n, i - 1);
      assert states[i - 1 + 1] == Step(states[i - 1], base, ops[i - 1], prio);
      AloneStep(states[i - 1], base, ops[i - 1], prio, t, if i - 1 <= n then i - 1 else 2 * n - i + 1);
    }
  }

  lemma AloneInitial(base: map<Tid, int>, t: Tid)
    ensures Alone(Initial(base), t, 0)
  {
  }

  lemma {:induction false} AloneStep(s: State, base: map<Tid, int>, op: Op, prio: bool, t: Tid, hold: int)
    requires Alone(s, t, hold) && Legal(s, base, op) && op.t == t
    ensures op.TakeOp? && 0 <= hold < HOLD_RANGE - 1 ==> Alone(Step(s, base, op, prio), t, hold + 1)
    ensures op.ReleaseOp? && 1 <= hold < HOLD_RANGE ==> Alone(Step(s, base, op, prio), t, hold - 1)
  {
    hide Queued;
  }

  // ----- who waits -----

  /** The last that happened to `t`: a take that found the mutex taken and was willing to wait, and
      neither its timeout nor a hand-off since. */
  ghost predicate Waiting(states: seq<State>, ops: seq<Op>, t: Tid, n: nat)
    requires |states| == |ops| + 1 && n <= |ops|
  {
    n > 0 &&
    var s, op := states[n - 1], ops[n - 1];
    if op.TakeOp? && op.t == t then s.owner != Nobody && s.owner != Thread(t) && op.time != 0
    else op != TimeoutOp(t) && !HandedTo(s, op, states[n], t) && Waiting(states, ops, t, n - 1)
  }

  lemma {:induction false} SuspendedIffWaiting(states: seq<State>, ops: seq<Op>, base: map<Tid, int>, prio: bool, t: Tid, n: nat)
    requires Unwrapped(states, ops, base, prio, n) && t in base
    ensures t in states[n].waiters <==> Waiting(states, ops, t, n)
    decreases n
  {
    hide Agreed, Step, Legal, Wraps, HandedTo;
    if n == 0 {
      assert states[0] == Initial(base);
    } else {
      SuspendedIffWaiting(states, ops, base, prio, t, n - 1);
      RunAgrees(states, ops, base, prio, n - 1);
      StepWaits(states[n - 1], base, ops[n - 1], prio, t);
    }
  }

  lemma {:induction false} StepWaits(s: State, base: map<Tid, int>, op: Op, prio: bool, t: Tid)
    requires Agreed(s, base) && Legal(s, base, op) && !Wraps(s, op)
    ensures var s' := Step(s, base, op, prio);
            t in s'.waiters <==> if op.TakeOp? && op.t == t then s.owner != Nobody && s.owner != Thread(t) && op.time != 0
                                 else op != TimeoutOp(t) && !HandedTo(s, op, s', t) && t in s.waiters
  {
    hide Queued, Without, Distinct, Inherits;
    match op
    case TakeOp(u, time) =>
      if s.owner.Thread? && s.owner != Thread(u) && time != 0 {
        QueuedMembers(s.waiters, Suspend(s, u, prio).current, u, prio);
      }
    case ReleaseOp(u) =>
      if s.owner == Thread(u) && s.hold == 1 {
        LastReleaseAgrees(s, base, u);
        if s.waiters != [] {
          TailMembers(s.waiters);
          assert s.waiters[0] in s.waiters;
        }
      }
    case TimeoutOp(u) => WithoutMembers(s.waiters, u);
  }

  // ----- at which priority the owner runs -----

  function Min(a: int, b: int): int {
    if a < b then a else b
  }

  /** The most urgent base priority of the owner and of those who have come to wait since it became
      the owner. */
  ghost function Inherited(states: seq<State>, ops: seq<Op>, base: map<Tid, int>, n: nat): int
    requires |states| == |ops| + 1 && n <= |ops|
  {
    if n == 0 then NO_PRIORITY else NextInherited(states[n - 1], ops[n - 1], states[n], base, Inherited(states, ops, base, n - 1))
  }

  function NextInherited(s: State, op: Op, s': State, base: map<Tid, int>, p: int): int {
    if s'.owner.Thread? && s'.owner != s.owner then if s'.owner.tid in base then base[s'.owner.tid] else p
    else if op.TakeOp? && s.owner.Thread? && s.owner.tid != op.t && op.time != 0 && op.t in base then Min(p, base[op.t])
    else p
  }

  /** The owner runs at exactly the priority it has inherited, everyone else at its own. */
  lemma {:induction false} RunsAtInherited(states: seq<State>, ops: seq<Op>, base: map<Tid, int>, prio: bool, t: Tid, n: nat)
    requires Unwrapped(states, ops, base, prio, n) && t in base
    ensures t in states[n].current
    ensures states[n].current[t] == if states[n].owner == Thread(t) then Inherited(states, ops, base, n) else base[t]
    decreases n
  {
    hide Agreed, Step, Legal, Wraps, NextInherited;
    if n == 0 {
      assert states[0] == Initial(base);
    } else {
      RunsAtInherited(states, ops, base, prio, t, n - 1);
      RunAgrees(states, ops, base, prio, n - 1);
      RunAgrees(states, ops, base, prio, n);
      StepInherits(states[n - 1], base, ops[n - 1], prio, t, Inherited(states, ops, base, n - 1));
    }
  }

  lemma {:induction false} StepInherits(s: State, base: map<Tid, int>, op: Op, prio: bool, t: Tid, p: int)
    requires Agreed(s, base) && Legal(s, base, op) && !Wraps(s, op) && t in base && Agreed(Step(s, base, op, prio), base)
    requires s.owner == Thread(t) ==> s.current[t] == p
    ensures var s' := Step(s, base, op, prio);
            t in s'.current && s'.current[t] == if s'.owner == Thread(t) then NextInherited(s, op, s', base, p) else base[t]
  {
    hide Queued, Without, Distinct;
    if op.ReleaseOp? && s.owner == Thread(op.t) && s.hold == 1 {
      LastReleaseAgrees(s, base, op.t);
      assert s.waiters != [] ==> s.waiters[0] in s.waiters;
    }
  }
}
