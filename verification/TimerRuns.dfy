/** Whole runs of the hard timers: any mix of calls, of starts interrupted between reading the clock
    and linking, and of clock ticks whose timeout functions make calls of their own. */
module TimerRuns {
  import opened Ticks
  import opened TimerModel
  import opened TimerCheck

  /** rt_timer_start is one call, or in its parts the first section, the reading and the second
      section. A tick is given the calls of its timeout functions, round by round. */
  datatype Op =
    | CallOp(call: Call)
    | BeginOp(id: TimerId)
    | ArmOp(id: TimerId)
    | LinkOp(id: TimerId)
    | TickOp(script: seq<seq<Call>>)

  /** Timer `entry` called its timeout function at instant `time`. */
  datatype Firing = Firing(entry: Entry, time: int)

  /** Between ticks. */
  ghost predicate Ready(m: Model) {
    Inv(m) && !m.checking
  }

  /** The clock advanced, with the check about to run. */
  function Ticked(m: Model): Model {
    m.(now := m.now + 1, checking := true)
  }

  lemma {:induction false} TickedInv(m: Model)
    requires Ready(m)
    ensures Inv(Ticked(m)) && Startable(Ticked(m))
  {
    var m' := Ticked(m);
    forall e | e in m'.active ensures Kept(m', e) {
      assert Kept(m, e);
    }
  }

  /** Calls and links as the timers allow them; nobody else starts a timer between its reading and
      its link. */
  ghost predicate Legal(m: Model, op: Op)
    requires Ready(m)
  {
    match op
    case CallOp(c) => MayCall(m, c, 0)
    case BeginOp(id) => true
    case ArmOp(id) => id in m.timers && !IsActive(m, id)
    case LinkOp(id) => MayLink(m, id) && m.timers[id].Sane(m.late)
    case TickOp(script) => TickedInv(m); MayCheck(Ticked(m), script, 0)
  }

  function Stamp(fired: seq<Entry>, now: int): (r: seq<Firing>)
    ensures |r| == |fired| && forall i :: 0 <= i < |r| ==> r[i] == Firing(fired[i], now)
  {
    seq(|fired|, i requires 0 <= i < |fired| => Firing(fired[i], now))
  }

  /** rt_tick_increase, timer part */
  ghost function Tick(m: Model, script: seq<seq<Call>>): (Model, seq<Entry>)
    requires Ready(m) && Legal(m, TickOp(script))
  {
    TickedInv(m);
    var r := Check(Ticked(m), script);
    (r.0.(checking := false), r.1)
  }

  ghost function Step(m: Model, op: Op): (Model, seq<Firing>)
    requires Ready(m) && Legal(m, op)
  {
    match op
    case CallOp(c) => (Apply(m, c), [])
    case BeginOp(id) => (Begin(m, id), [])
    case ArmOp(id) => (Arm(m, id), [])
    case LinkOp(id) => (Link(m, id), [])
    case TickOp(script) => var r := Tick(m, script); (r.0, Stamp(r.1, m.now + 1))
  }

  /** A check that has left nothing due is over. */
  lemma {:induction false} CheckOver(m: Model)
    requires Inv(m) && m.checking && !FirstIsDue(m)
    ensures Ready(m.(checking := false))
  {
    hide Sorted, DistinctIds;
    var m' := m.(checking := false);
    InvStartable(m);
    forall e | e in m'.active ensures Kept(m', e) && m'.NextCheck() <= e.FireTime() {
      assert Kept(m, e);
      DueFirst(m, e);
    }
  }

  lemma {:induction false} TickKeeps(m: Model, script: seq<seq<Call>>)
    requires Ready(m) && Legal(m, TickOp(script))
    ensures Ready(Tick(m, script).0) && Tick(m, script).0.now == m.now + 1
  {
    hide Check, Inv, MayCheck, FirstIsDue, Startable;
    TickedInv(m);
    CheckFires(Ticked(m), script);
    CheckOver(Check(Ticked(m), script).0);
  }

  /** Every step keeps the invariant. */
  lemma {:induction false} StepKeepsInv(m: Model, op: Op)
    requires Ready(m) && Legal(m, op)
    ensures Ready(Step(m, op).0)
    ensures Step(m, op).0.now == if op.TickOp? then m.now + 1 else m.now
  {
    hide Inv, Apply, Tick, MayLink, MayCheck;
    match op
    case CallOp(c) =>
      ApplyKeepsInv(m, c);
      InvShape(m);
      ApplyKeeps(m, c, 0);
    case BeginOp(id) => BeginKeepsInv(m, id);
    case ArmOp(id) => ArmKeepsInv(m, id);
    case LinkOp(id) => LinkKeepsInv(m, id);
    case TickOp(script) => TickKeeps(m, script);
  }

  lemma {:induction false} BeginKeepsInv(m: Model, id: TimerId)
    requires Inv(m)
    ensures Inv(Begin(m, id))
  {
    hide Shape, Drop;
    UnlinkKeepsInv(m, id);
    FlagsShape(Unlink(m, id), m.flags - {id});
  }

  lemma InvShape(m: Model)
    requires Inv(m)
    ensures Shape(m)
  {
  }

  ghost predicate LegalRun(m: Model, ops: seq<Op>)
    requires Ready(m)
    decreases |ops|
  {
    ops == [] ||
    (Legal(m, ops[0]) && (StepKeepsInv(m, ops[0]); LegalRun(Step(m, ops[0]).0, ops[1..])))
  }

  ghost function Run(m: Model, ops: seq<Op>): (Model, seq<Firing>)
    requires Ready(m) && LegalRun(m, ops)
    decreases |ops|
  {
    if ops == [] then (m, [])
    else
      StepKeepsInv(m, ops[0]);
      var a := Step(m, ops[0]);
      var b := Run(a.0, ops[1..]);
      (b.0, a.1 + b.1)
  }

  // ----- on time and in order -----

  lemma {:induction false} TickFirings(m: Model, script: seq<seq<Call>>)
    requires Ready(m) && Legal(m, TickOp(script))
    ensures var r := Step(m, TickOp(script)).1;
            && (forall i :: 0 <= i < |r| ==> r[i].time == m.now + 1 == r[i].entry.FireTime())
            && (forall i, j :: 0 <= i < j < |r| ==> Before(r[i].entry, r[j].entry))
  {
    hide Check, Inv, MayCheck, FirstIsDue, Startable;
    TickedInv(m);
    CheckFires(Ticked(m), script);
    var fired := Check(Ticked(m), script).1;
    assert forall i :: 0 <= i < |fired| ==> fired[i] in fired;
  }

  /** Order in which firings happen: by instant, and within one instant by deadline and
      then by start order. */
  predicate Precedes(a: Firing, b: Firing) {
    a.time < b.time || (a.time == b.time && Before(a.entry, b.entry))
  }

  /** Every firing is at its timer's own time, after `from`, and in that order. */
  ghost predicate OnTimeInOrder(log: seq<Firing>, from: int) {
    && (forall i :: 0 <= i < |log| ==> from < log[i].time == log[i].entry.FireTime())
    && (forall i, j :: 0 <= i < j < |log| ==> Precedes(log[i], log[j]))
  }

  lemma LogAppend(a: seq<Firing>, b: seq<Firing>, from: int, mid: int)
    requires OnTimeInOrder(a, from) && OnTimeInOrder(b, mid) && from <= mid
    requires forall i :: 0 <= i < |a| ==> a[i].time <= mid
    ensures OnTimeInOrder(a + b, from)
  {
    var log := a + b;
    forall i, j | 0 <= i < j < |log| ensures Precedes(log[i], log[j]) {
      if i < |a| <= j {
        assert log[j] == b[j - |a|];
      } else if |a| <= i {
        assert log[i] == b[i - |a|] && log[j] == b[j - |a|];
      }
    }
  }

  /** In every run, whatever timers the timeout functions start, stop and set, every timer fires at
      exactly its own time, and in that order. */
  lemma {:induction false} RunFiresOnTimeInOrder(m: Model, ops: seq<Op>)
    requires Ready(m) && LegalRun(m, ops)
    ensures Ready(Run(m, ops).0)
    ensures OnTimeInOrder(Run(m, ops).1, m.now)
    decreases |ops|
  {
    hide Inv, Legal, Tick;
    if ops != [] {
      StepKeepsInv(m, ops[0]);
      var a := Step(m, ops[0]);
      RunFiresOnTimeInOrder(a.0, ops[1..]);
      if ops[0].TickOp? {
        TickFirings(m, ops[0].script);
      }
      LogAppend(a.1, Run(a.0, ops[1..]).1, m.now, a.0.now);
    }
  }

  // ----- none is missed -----

  function TickCount(ops: seq<Op>): nat {
    if ops == [] then 0 else (if ops[0].TickOp? then 1 else 0) + TickCount(ops[1..])
  }

  /** Some call, or some timeout function of the tick, starts or stops timer `id`. */
  ghost predicate StepTouches(op: Op, id: TimerId) {
    match op
    case CallOp(c) => Touches(c, id)
    case BeginOp(x) => x == id
    case ArmOp(x) => x == id
    case LinkOp(x) => x == id
    case TickOp(script) => exists k :: 0 <= k < |script| && TouchedIn(script[k], id)
  }

  lemma {:induction false} TickKeepsUntouched(m: Model, script: seq<seq<Call>>, e: Entry)
    requires Ready(m) && Legal(m, TickOp(script)) && e in m.active && !StepTouches(TickOp(script), e.id)
    ensures e.FireTime() == m.now + 1 ==> Firing(e, e.FireTime()) in Step(m, TickOp(script)).1
    ensures e.FireTime() != m.now + 1 ==> e in Step(m, TickOp(script)).0.active
  {
    hide Check, MayCheck, Startable, TouchedIn, Sorted, DistinctIds;
    TickedInv(m);
    assert Kept(m, e);
    CheckFiresUntouched(Ticked(m), script, e);
    var fired := Check(Ticked(m), script).1;
    if e in fired {
      var i :| 0 <= i < |fired| && fired[i] == e;
      assert Stamp(fired, m.now + 1)[i] == Firing(e, m.now + 1);
    }
  }

  lemma {:induction false} StepKeepsUntouched(m: Model, op: Op, e: Entry)
    requires Ready(m) && Legal(m, op) && e in m.active && !StepTouches(op, e.id)
    ensures op.TickOp? && e.FireTime() == m.now + 1 ==> Firing(e, e.FireTime()) in Step(m, op).1
    ensures !(op.TickOp? && e.FireTime() == m.now + 1) ==> e in Step(m, op).0.active
  {
    hide Inv, Tick, MayCheck, Start, Stop;
    match op
    case CallOp(c) =>
      InvShape(m);
      ApplyKeeps(m, c, 0);
    case BeginOp(id) =>
      InvShape(m);
      UnlinkShape(m, id);
    case ArmOp(id) =>
    case LinkOp(id) =>
      InvShape(m);
      LinkShape(m, id);
    case TickOp(script) => TickKeepsUntouched(m, script, e);
  }

  /** No timer is missed: touched by no call and no timeout function, an active timer is still active
      while fewer ticks than its remaining time have passed, and has fired at its own time after
      that. */
  lemma {:induction false} UntouchedTimerFires(m: Model, ops: seq<Op>, e: Entry)
    requires Ready(m) && LegalRun(m, ops) && e in m.active
    requires forall i :: 0 <= i < |ops| ==> !StepTouches(ops[i], e.id)
    ensures m.now + TickCount(ops) < e.FireTime() ==> e in Run(m, ops).0.active
    ensures m.now + TickCount(ops) >= e.FireTime() ==> Firing(e, e.FireTime()) in Run(m, ops).1
    decreases |ops|
  {
    hide Legal, Tick, StepTouches;
    assert m.now < e.FireTime();
    if ops != [] {
      StepKeepsInv(m, ops[0]);
      StepKeepsUntouched(m, ops[0], e);
      var a := Step(m, ops[0]);
      if e in a.0.active {
        UntouchedTimerFires(a.0, ops[1..], e);
      } else {
        assert Firing(e, e.FireTime()) in a.1;
      }
    }
  }

  // ----- a start with ticks between the reading and the link -----

  /** Timer `id` has been read as `r` and waits to be linked. */
  ghost predicate Pending(m: Model, id: TimerId, r: Reading) {
    id in m.armed && m.armed[id] == r && !IsActive(m, id)
  }

  /** Some call, or some timeout function of the tick, starts timer `id`. */
  ghost predicate Disturbs(op: Op, id: TimerId) {
    match op
    case CallOp(c) => c == StartCall(id)
    case BeginOp(x) => false
    case ArmOp(x) => x == id
    case LinkOp(x) => x == id
    case TickOp(script) => exists k :: 0 <= k < |script| && StartCall(id) in script[k]
  }

  lemma {:induction false} PendingApply(m: Model, c: Call, id: TimerId, r: Reading)
    requires Shape(m) && MayCall(m, c, 0) && Pending(m, id, r) && c != StartCall(id)
    ensures Pending(Apply(m, c), id, r)
  {
    hide Shape, Insert, Drop;
    match c
    case ControlCall(_, _) =>
    case StopCall(x) => UnlinkShape(m, x);
    case StartCall(x) => StartShape(m, x);
  }

  lemma {:induction false} PendingCalls(m: Model, fired: TimerId, calls: seq<Call>, id: TimerId, r: Reading)
    requires Shape(m) && MayCallAll(m, fired, calls, 0) && Pending(m, id, r) && StartCall(id) !in calls
    ensures Pending(Calls(m, calls), id, r)
    decreases |calls|
  {
    hide Shape, Apply, Follows, Pending;
    if calls != [] {
      ApplyKeeps(m, calls[0], 0);
      PendingApply(m, calls[0], id, r);
      PendingCalls(Apply(m, calls[0]), fired, calls[1..], id, r);
    }
  }

  lemma {:induction false} PendingFire(m: Model, calls: seq<Call>, id: TimerId, r: Reading)
    requires Startable(m) && MayFire(m, calls, 0) && Pending(m, id, r) && StartCall(id) !in calls
    ensures Pending(Fire(m, calls), id, r)
  {
    hide Shape, Calls, Follows, Insert, Drop;
    var fired := m.active[0].id;
    assert m.active[0] in m.active;
    UnlinkShape(m, fired);
    PendingCalls(Unlink(m, fired), fired, calls, id, r);
    CallsOfRound(m, calls, 0);
    var m1 := Calls(Unlink(m, fired), calls);
    FollowsClock(m, m1, 0);
    StartShape(m1, fired);
  }

  lemma {:induction false} PendingCheck(m: Model, script: seq<seq<Call>>, id: TimerId, r: Reading)
    requires Inv(m) && m.checking && Startable(m) && MayCheck(m, script, 0) && Pending(m, id, r)
    requires forall k :: 0 <= k < |script| ==> StartCall(id) !in script[k]
    ensures Pending(Check(m, script).0, id, r)
    decreases |script|, Rank(m.active, m.now)
  {
    hide Inv, Fire, Startable, MayCheck, Rank, MayFire, Stuck, Pending;
    if FirstIsDue(m) {
      NextRound(m, script, 0);
      NoneStuck(m);
      FireRankQuiet(m, script);
      FireKeeps(m, Here(script), 0);
      PendingFire(m, Here(script), id, r);
      PendingCheck(Fire(m, Here(script)), Later(script), id, r);
    }
  }

  lemma {:induction false} PendingStep(m: Model, op: Op, id: TimerId, r: Reading)
    requires Ready(m) && Legal(m, op) && Pending(m, id, r) && !Disturbs(op, id)
    ensures Pending(Step(m, op).0, id, r)
  {
    hide Inv, Check, MayCheck, Apply, Insert;
    match op
    case CallOp(c) =>
      InvShape(m);
      PendingApply(m, c, id, r);
    case BeginOp(x) =>
      InvShape(m);
      UnlinkShape(m, x);
    case ArmOp(_) =>
    case LinkOp(x) =>
      InvShape(m);
      LinkShape(m, x);
    case TickOp(script) =>
      TickedInv(m);
      PendingCheck(Ticked(m), script, id, r);
  }

  lemma {:induction false} PendingRun(m: Model, ops: seq<Op>, id: TimerId, r: Reading)
    requires Ready(m) && LegalRun(m, ops) && Pending(m, id, r)
    requires forall i :: 0 <= i < |ops| ==> !Disturbs(ops[i], id)
    ensures Pending(Run(m, ops).0, id, r) && Run(m, ops).0.now == m.now + TickCount(ops)
    decreases |ops|
  {
    hide Inv, Legal, Pending, Disturbs, Step;
    if ops != [] {
      StepKeepsInv(m, ops[0]);
      PendingStep(m, ops[0], id, r);
      PendingRun(Step(m, ops[0]).0, ops[1..], id, r);
    }
  }

  lemma {:induction false} RunAppend(m: Model, a: seq<Op>, b: seq<Op>)
    requires Ready(m) && LegalRun(m, a + b)
    ensures LegalRun(m, a) && Ready(Run(m, a).0) && LegalRun(Run(m, a).0, b)
    ensures Run(m, a + b) == (Run(Run(m, a).0, b).0, Run(m, a).1 + Run(Run(m, a).0, b).1)
    decreases |a|
  {
    hide Ready, Legal, Step;
    if a == [] {
      assert a + b == b && [] + Run(m, b).1 == Run(m, b).1;
    } else {
      assert (a + b)[1..] == a[1..] + b;
      StepKeepsInv(m, a[0]);
      var s := Step(m, a[0]);
      RunAppend(s.0, a[1..], b);
      var ra := Run(s.0, a[1..]);
      assert s.1 + (ra.1 + Run(ra.0, b).1) == (s.1 + ra.1) + Run(ra.0, b).1;
    }
  }

  /** The activation made by a link `n` ticks after the reading fires on the deadline if and only if
      fewer ticks than the delay have passed, and otherwise at the first check after the link. */
  lemma {:induction false} LinkFiresIff(m: Model, id: TimerId)
    requires Ready(m) && MayLink(m, id)
    ensures var e, n := Activation(m, id), m.now - m.armed[id].at;
            && e in Link(m, id).active
            && (e.FireTime() == m.armed[id].Deadline() <==> n < m.armed[id].init)
            && (n >= m.armed[id].init ==> e.FireTime() == m.now + 1)
  {
    LinkShape(m, id);
  }

  /** Timer `id` is read at `m.now` and linked after the steps of `mid`: it fires on its deadline if
      and only if fewer ticks than its delay come in between, and otherwise at the first check after
      the link. */
  lemma {:induction false} InterruptedStartFires(m: Model, id: TimerId, mid: seq<Op>, rest: seq<Op>)
    requires Ready(m) && id in m.timers && LegalRun(m, ([ArmOp(id)] + mid) + ([LinkOp(id)] + rest))
    requires forall i :: 0 <= i < |mid| ==> !Disturbs(mid[i], id)
    requires forall i :: 0 <= i < |rest| ==> !StepTouches(rest[i], id)
    ensures var n, init := TickCount(mid), m.timers[id].init;
            var time := if n < init then m.now + init else m.now + n + 1;
            m.now + n + TickCount(rest) >= time ==>
              exists e: Entry :: e.id == id && Firing(e, time) in Run(m, ([ArmOp(id)] + mid) + ([LinkOp(id)] + rest)).1
  {
    hide Ready, Legal, LegalRun, Run, Disturbs, StepTouches, IsActive;
    var a, b := [ArmOp(id)] + mid, [LinkOp(id)] + rest;
    RunAppend(m, a, b);
    ArmedThenPending(m, id, mid);
    var m1 := Run(m, a).0;
    RunAppend(m1, [LinkOp(id)], rest);
    var e := LinkedEntry(m1, id);
    UntouchedTimerFires(Run(m1, [LinkOp(id)]).0, rest, e);
    assert e.FireTime() <= m1.now + TickCount(rest) ==> Firing(e, e.FireTime()) in Run(m, a + b).1;
  }

  lemma {:induction false} ArmedThenPending(m: Model, id: TimerId, mid: seq<Op>)
    requires Ready(m) && id in m.timers && LegalRun(m, [ArmOp(id)] + mid)
    requires forall i :: 0 <= i < |mid| ==> !Disturbs(mid[i], id)
    ensures var m1 := Run(m, [ArmOp(id)] + mid).0;
            Pending(m1, id, Reading(m.now, m.timers[id].init)) && m1.now == m.now + TickCount(mid)
  {
    hide Inv, Disturbs, Run;
    var a := [ArmOp(id)] + mid;
    assert a[0] == ArmOp(id) && a[1..] == mid;
    StepKeepsInv(m, a[0]);
    var m0 := Step(m, a[0]).0;
    PendingRun(m0, mid, id, Reading(m.now, m.timers[id].init));
    RunUnfolds(m, a);
  }

  lemma RunUnfolds(m: Model, ops: seq<Op>)
    requires Ready(m) && LegalRun(m, ops) && ops != []
    ensures Legal(m, ops[0]) && Ready(Step(m, ops[0]).0) && LegalRun(Step(m, ops[0]).0, ops[1..])
    ensures Run(m, ops).0 == Run(Step(m, ops[0]).0, ops[1..]).0
  {
    StepKeepsInv(m, ops[0]);
  }

  lemma {:induction false} LinkedEntry(m: Model, id: TimerId) returns (e: Entry)
    requires Ready(m) && LegalRun(m, [LinkOp(id)])
    ensures id in m.armed && e.id == id && e in Run(m, [LinkOp(id)]).0.active && Run(m, [LinkOp(id)]).0.now == m.now
    ensures var n, r := m.now - m.armed[id].at, m.armed[id];
            e.FireTime() == if n < r.init then r.Deadline() else m.now + 1
  {
    hide Inv, LegalRun;
    RunUnfolds(m, [LinkOp(id)]);
    e := Activation(m, id);
    LinkFiresIff(m, id);
  }

  lemma {:induction false} LegalCons(m: Model, ops: seq<Op>, m': Model)
    requires Ready(m) && ops != [] && Legal(m, ops[0]) && m' == Step(m, ops[0]).0
    ensures Ready(m') && (LegalRun(m', ops[1..]) ==> LegalRun(m, ops))
  {
    hide Inv, Legal, Step;
    StepKeepsInv(m, ops[0]);
  }

  lemma {:induction false} QuietTick(m: Model)
    requires Ready(m) && m.active == []
    ensures Legal(m, TickOp([])) && Step(m, TickOp([])).0 == m.(now := m.now + 1)
  {
    hide Inv;
    TickedInv(m);
  }

  /** A timer of one tick, read at `now` and linked one tick later, fires at `now + 2`. */
  lemma {:induction false} LateLink(rows: nat, now: int)
    requires rows >= 1
    ensures var m := Model([], now, 0, map[0 := Config(1, false)], rows, map[], false, 0, {});
            var ops := ([ArmOp(0)] + [TickOp([])]) + ([LinkOp(0)] + [TickOp([])]);
            Ready(m) && LegalRun(m, ops) && exists e: Entry :: e.id == 0 && Firing(e, now + 2) in Run(m, ops).1
  {
    hide LegalRun, Run, Check, Height;
    var m := Model([], now, 0, map[0 := Config(1, false)], rows, map[], false, 0, {});
    var a, b, tick := [ArmOp(0)] + [TickOp([])], [LinkOp(0)] + [TickOp([])], [TickOp([])];
    assert (a + b)[1..] == tick + b && (tick + b)[1..] == b && b[1..] == tick && tick[1..] == [];
    var m1 := Arm(m, 0);
    LegalCons(m, a + b, m1);
    QuietTick(m1);
    var m2 := m1.(now := now + 1);
    LegalCons(m1, tick + b, m2);
    var m3 := Link(m2, 0);
    LegalCons(m2, b, m3);
    LegalTick(m3);
    InterruptedStartFires(m, 0, tick, tick);
  }

  lemma {:induction false} LegalTick(m: Model)
    requires Ready(m)
    ensures LegalRun(m, [TickOp([])])
  {
    hide Inv;
    TickedInv(m);
    StepKeepsInv(m, TickOp([]));
  }

  // ----- which timers can be stopped -----

  /** In some round of the check the timeout function restarts its own timer as a one-shot timer. */
  ghost predicate SelfRestart(m: Model, script: seq<seq<Call>>)
    requires Startable(m) && MayCheck(m, script, 0)
    decreases |script|
  {
    script != [] && FirstIsDue(m) &&
    (RestartsOneShot(m, script[0]) || (FireKeeps(m, script[0], 0); SelfRestart(Fire(m, script[0]), script[1..])))
  }

  lemma {:induction false} CheckKeepsFlags(m: Model, script: seq<seq<Call>>)
    requires Inv(m) && m.checking && Startable(m) && MayCheck(m, script, 0)
    requires FlagsAgree(m) && !SelfRestart(m, script)
    ensures FlagsAgree(Check(m, script).0)
    decreases |script|, Rank(m.active, m.now)
  {
    hide Inv, Fire, Startable, Rank, MayFire, Stuck, FlagsAgree, RestartsOneShot;
    if FirstIsDue(m) {
      NextRound(m, script, 0);
      NoneStuck(m);
      FireRankQuiet(m, script);
      FireKeeps(m, Here(script), 0);
      NoSelfRestart(m);
      RoundKeepsFlagsIff(m, Here(script));
      CheckKeepsFlags(Fire(m, Here(script)), Later(script));
    }
  }

  lemma NoSelfRestart(m: Model)
    ensures !RestartsOneShot(m, [])
  {
  }

  ghost predicate StepSelfRestart(m: Model, op: Op)
    requires Ready(m) && Legal(m, op)
  {
    op.TickOp? && (TickedInv(m); SelfRestart(Ticked(m), op.script))
  }

  /** Every other step leaves exactly the active timers marked. */
  lemma {:induction false} StepKeepsFlags(m: Model, op: Op)
    requires Ready(m) && Legal(m, op) && FlagsAgree(m) && !StepSelfRestart(m, op)
    ensures FlagsAgree(Step(m, op).0)
  {
    hide Inv, Check, MayCheck, Apply, SelfRestart, Startable, Insert, Height;
    match op
    case CallOp(c) =>
      InvShape(m);
      ApplyFlags(m, c, c.id, 0);
      ApplyFlags(m, c, c.id + 1, 0);
    case BeginOp(id) =>
      InvShape(m);
      UnlinkActive(m, id);
    case ArmOp(id) => SameActive(m, Arm(m, id));
    case LinkOp(id) =>
      InvShape(m);
      LinkActive(m, id);
    case TickOp(script) =>
      TickedInv(m);
      SameActive(m, Ticked(m));
      CheckKeepsFlags(Ticked(m), script);
      SameActive(Check(Ticked(m), script).0, Tick(m, script).0);
  }

  lemma {:induction false} LinkActive(m: Model, id: TimerId)
    requires Shape(m) && MayLink(m, id)
    ensures forall x :: IsActive(Link(m, id), x) <==> IsActive(m, x) || x == id
  {
    hide Shape, Insert, Height;
    LinkShape(m, id);
    assert Activation(m, id) in Link(m, id).active;
    forall x ensures IsActive(Link(m, id), x) <==> IsActive(m, x) || x == id {
    }
  }

  ghost predicate RunSelfRestart(m: Model, ops: seq<Op>)
    requires Ready(m) && LegalRun(m, ops)
    decreases |ops|
  {
    ops != [] &&
    (StepSelfRestart(m, ops[0]) || (StepKeepsInv(m, ops[0]); RunSelfRestart(Step(m, ops[0]).0, ops[1..])))
  }

  /** As long as no timeout function restarts its own timer as a one-shot timer, rt_timer_stop stops
      every active timer. */
  lemma {:induction false} RunCanStop(m: Model, ops: seq<Op>, id: TimerId)
    requires Ready(m) && LegalRun(m, ops) && FlagsAgree(m) && !RunSelfRestart(m, ops)
    ensures FlagsAgree(Run(m, ops).0)
    ensures !IsActive(TimerModel.Stop(Run(m, ops).0, id), id)
    decreases |ops|
  {
    hide Inv, Legal, Step, StepSelfRestart;
    if ops == [] {
      InvShape(m);
      if IsActive(m, id) {
        StopWorksIff(m, id);
      }
    } else {
      StepKeepsInv(m, ops[0]);
      StepKeepsFlags(m, ops[0]);
      RunCanStop(Step(m, ops[0]).0, ops[1..], id);
    }
  }
}
