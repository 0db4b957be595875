/** When a timer fires, told from the calls alone: every firing of a timer that nobody names in the
    meantime, once for a one-shot timer and once a period for a periodic one. */
module TimerPeriods {
  import opened Ticks
  import opened TimerModel
  import opened TimerCheck
  import opened TimerRuns

  // ----- calls that do not name a timer -----

  ghost predicate NamedIn(calls: seq<Call>, id: TimerId) {
    exists c :: c in calls && c.id == id
  }

  /** Some call or some timeout function of the step starts, stops or sets timer `id`. */
  ghost predicate Names(op: Op, id: TimerId) {
    match op
    case CallOp(c) => c.id == id
    case BeginOp(x) => x == id
    case ArmOp(x) => x == id
    case LinkOp(x) => x == id
    case TickOp(script) => exists k :: 0 <= k < |script| && NamedIn(script[k], id)
  }

  /** Timer `id` is the same in both states: its configuration, its mark, its activation. */
  ghost predicate SameTimer(m: Model, m': Model, id: TimerId) {
    && (id in m'.timers <==> id in m.timers) && (id in m.timers ==> m'.timers[id] == m.timers[id])
    && (id in m'.flags <==> id in m.flags) && forall e: Entry :: e.id == id ==> (e in m'.active <==> e in m.active)
  }

  lemma {:induction false} ApplySame(m: Model, c: Call, least: nat, id: TimerId)
    requires Shape(m) && MayCall(m, c, least) && c.id != id
    ensures SameTimer(m, Apply(m, c), id)
  {
    hide Shape, Drop, Insert, Height;
    match c
    case ControlCall(_, _) =>
    case StopCall(x) => UnlinkShape(m, x);
    case StartCall(x) => StartShape(m, x);
  }

  lemma {:induction false} CallsSame(m: Model, fired: TimerId, calls: seq<Call>, least: nat, id: TimerId)
    requires Shape(m) && MayCallAll(m, fired, calls, least) && !NamedIn(calls, id)
    ensures SameTimer(m, Calls(m, calls), id)
    decreases |calls|
  {
    hide Shape, Apply, Follows, MayCall;
    if calls != [] {
      assert calls[0] in calls && forall c :: c in calls[1..] ==> c in calls;
      ApplyKeeps(m, calls[0], least);
      ApplySame(m, calls[0], least, id);
      CallsSame(Apply(m, calls[0]), fired, calls[1..], least, id);
    }
  }

  // ----- one round -----

  /** A round of another timer leaves timer `id` alone. */
  lemma {:induction false} RoundSame(m: Model, calls: seq<Call>, id: TimerId)
    requires Startable(m) && MayFire(m, calls, 0) && !NamedIn(calls, id) && m.active[0].id != id
    ensures SameTimer(m, Fire(m, calls), id)
  {
    hide Shape, Calls, Follows, Drop, Start, NamedIn;
    var fired := m.active[0].id;
    UnlinkShape(m, fired);
    CallsOfRound(m, calls, 0);
    CallsSame(Unlink(m, fired), fired, calls, 0, id);
    var m1 := Calls(Unlink(m, fired), calls);
    FollowsClock(m, m1, 0);
    StartShape(m1, fired);
    StartClock(m1, fired);
  }

  /** The next activation of a periodic timer that fires now. */
  ghost predicate Again(m: Model, id: TimerId, next: Entry) {
    next in m.active && next.id == id && id in m.timers && next.Deadline() == next.FireTime() == m.now + m.timers[id].init
  }

  /** A timer's own round: a periodic and marked timer is active again, due after its period;
      any other is inactive and not marked. */
  lemma {:induction false} RoundOwn(m: Model, calls: seq<Call>)
    requires Startable(m) && MayFire(m, calls, 0) && !NamedIn(calls, m.active[0].id)
    ensures var id := m.active[0].id; var m' := Fire(m, calls);
            && id in m.timers && id in m'.timers && m'.timers[id] == m.timers[id]
            && if m.timers[id].periodic && id in m.flags then id in m'.flags && exists next :: Again(m', id, next)
               else id !in m'.flags && !IsActive(m', id)
  {
    hide Shape, Calls, Follows, Drop, Start, NamedIn;
    var id := m.active[0].id;
    assert m.active[0] in m.active;
    UnlinkShape(m, id);
    CallsOfRound(m, calls, 0);
    CallsSame(Unlink(m, id), id, calls, 0, id);
    var m1 := Calls(Unlink(m, id), calls);
    FollowsClock(m, m1, 0);
    StartShape(m1, id);
    StartClock(m1, id);
    if m.timers[id].periodic && id in m.flags {
      assert Again(Fire(m, calls), id, Started(m1, id));
    }
  }

  // ----- one check -----

  /** The firings of timer `id`. */
  function Of(fired: seq<Entry>, id: TimerId): seq<Entry> {
    if fired == [] then [] else (if fired[0].id == id then [fired[0]] else []) + Of(fired[1..], id)
  }

  lemma OfCons(e: Entry, rest: seq<Entry>, id: TimerId)
    ensures Of([e] + rest, id) == (if e.id == id then [e] else []) + Of(rest, id)
  {
    assert ([e] + rest)[1..] == rest;
  }

  /** What nobody names and is not due, or not active, does not fire and stays as it is. */
  lemma {:induction false} CheckQuiet(m: Model, script: seq<seq<Call>>, id: TimerId)
    requires Inv(m) && m.checking && Startable(m) && MayCheck(m, script, 0)
    requires forall k :: 0 <= k < |script| ==> !NamedIn(script[k], id)
    requires forall e :: e in m.active && e.id == id ==> e.Deadline() > m.now
    ensures Of(Check(m, script).1, id) == [] && SameTimer(m, Check(m, script).0, id)
    decreases |script|, Rank(m.active, m.now)
  {
    hide Inv, Fire, Startable, MayCheck, Rank, MayFire, Stuck, NamedIn;
    if FirstIsDue(m) {
      NextRound(m, script, 0);
      NoneStuck(m);
      FireRankQuiet(m, script);
      FireKeeps(m, Here(script), 0);
      assert m.active[0] in m.active;
      NobodyNamed(id);
      RoundSame(m, Here(script), id);
      CheckQuiet(Fire(m, Here(script)), Later(script), id);
      OfCons(m.active[0], Check(Fire(m, Here(script)), Later(script)).1, id);
    }
  }

  lemma NobodyNamed(id: TimerId)
    ensures !NamedIn([], id)
  {
  }

  /** After the check: active again a period later, or inactive and not marked. */
  ghost predicate Gone(m: Model, id: TimerId) {
    id !in m.flags && !IsActive(m, id)
  }

  /** A due timer that nobody names fires once in the check. */
  lemma {:induction false} CheckOnce(m: Model, script: seq<seq<Call>>, e: Entry)
    requires Inv(m) && m.checking && Startable(m) && MayCheck(m, script, 0)
    requires forall k :: 0 <= k < |script| ==> !NamedIn(script[k], e.id)
    requires e in m.active && e.Deadline() <= m.now
    ensures var r := Check(m, script);
            && Of(r.1, e.id) == [e]
            && e.id in m.timers && e.id in r.0.timers && r.0.timers[e.id] == m.timers[e.id]
            && if m.timers[e.id].periodic && e.id in m.flags then e.id in r.0.flags && exists next :: Again(r.0, e.id, next)
               else Gone(r.0, e.id)
    decreases |script|, Rank(m.active, m.now)
  {
    hide Inv, Fire, Startable, MayCheck, Rank, MayFire, Stuck, NamedIn, Sorted, IsActive, Of;
    DueFirst(m, e);
    NextRound(m, script, 0);
    NoneStuck(m);
    FireRankQuiet(m, script);
    FireKeeps(m, Here(script), 0);
    NobodyNamed(e.id);
    var m1 := Fire(m, Here(script));
    OfCons(m.active[0], Check(m1, Later(script)).1, e.id);
    CheckFires(m1, Later(script));
    if e == m.active[0] {
      RoundOwn(m, Here(script));
      AfterOwn(m, e.id, m1);
      CheckQuiet(m1, Later(script), e.id);
      AgainSame(m1, Check(m1, Later(script)).0, e.id);
    } else {
      StartableDiffer(m, e);
      RoundSame(m, Here(script), e.id);
      CheckOnce(m1, Later(script), e);
    }
  }

  lemma {:induction false} AfterOwn(m: Model, id: TimerId, m': Model)
    requires Inv(m) && Inv(m') && IsActive(m, id) && id in m'.timers && id in m.timers && m'.timers[id] == m.timers[id] && m'.now == m.now
    requires (m.timers[id].periodic && exists next :: Again(m', id, next)) || !IsActive(m', id)
    ensures forall e :: e in m'.active && e.id == id ==> e.Deadline() > m'.now
  {
    var x :| x in m.active && x.id == id;
    if next :| Again(m', id, next) {
      forall e | e in m'.active && e.id == id ensures e == next {
        OneEach(m', e, next);
      }
    }
  }

  lemma OneEach(m: Model, a: Entry, b: Entry)
    requires Shape(m) && a in m.active && b in m.active && a.id == b.id
    ensures a == b
  {
    var i :| 0 <= i < |m.active| && m.active[i] == a;
    var j :| 0 <= j < |m.active| && m.active[j] == b;
  }

  lemma {:induction false} AgainSame(m: Model, m': Model, id: TimerId)
    requires SameTimer(m, m', id) && m'.now == m.now && id in m.timers
    ensures (exists next :: Again(m, id, next)) ==> exists next :: Again(m', id, next)
    ensures !IsActive(m, id) ==> !IsActive(m', id)
  {
    if next :| Again(m, id, next) {
      assert Again(m', id, next);
    }
  }

  // ----- one step -----

  /** The instants at which timer `id` fired. */
  function FiringTimes(log: seq<Firing>, id: TimerId): seq<int> {
    if log == [] then [] else TimeOf(log[0], id) + FiringTimes(log[1..], id)
  }

  function TimeOf(f: Firing, id: TimerId): seq<int> {
    if f.entry.id == id then [f.time] else []
  }

  lemma {:induction false} FiringTimesAppend(a: seq<Firing>, b: seq<Firing>, id: TimerId)
    ensures FiringTimes(a + b, id) == FiringTimes(a, id) + FiringTimes(b, id)
  {
    hide TimeOf;
    if a == [] {
      assert a + b == b;
    } else {
      ConsAppend(a, b);
      FiringTimesAppend(a[1..], b, id);
      Associates(TimeOf(a[0], id), FiringTimes(a[1..], id), FiringTimes(b, id));
    }
  }

  lemma ConsAppend(a: seq<Firing>, b: seq<Firing>)
    requires a != []
    ensures (a + b)[0] == a[0] && (a + b)[1..] == a[1..] + b
  {
  }

  lemma Associates(x: seq<int>, y: seq<int>, z: seq<int>)
    ensures x + (y + z) == (x + y) + z
  {
  }

  lemma {:induction false} StampTimes(fired: seq<Entry>, now: int, id: TimerId)
    ensures |FiringTimes(Stamp(fired, now), id)| == |Of(fired, id)|
    ensures forall i :: 0 <= i < |Of(fired, id)| ==> FiringTimes(Stamp(fired, now), id)[i] == now
  {
    if fired != [] {
      assert Stamp(fired, now)[1..] == Stamp(fired[1..], now);
      StampTimes(fired[1..], now, id);
    }
  }

  /** A step that does not name timer `id` and is not the tick of its firing leaves it alone. */
  lemma {:induction false} StepQuiet(m: Model, op: Op, id: TimerId)
    requires Ready(m) && Legal(m, op) && !Names(op, id)
    requires op.TickOp? ==> forall e :: e in m.active && e.id == id ==> e.FireTime() != m.now + 1
    ensures FiringTimes(Step(m, op).1, id) == [] && SameTimer(m, Step(m, op).0, id)
  {
    hide Inv, Check, MayCheck, Apply, Insert, Drop, Height, NamedIn, Startable;
    match op
    case CallOp(c) =>
      InvShape(m);
      ApplySame(m, c, 0, id);
    case BeginOp(x) =>
      InvShape(m);
      UnlinkShape(m, x);
    case ArmOp(_) =>
    case LinkOp(x) =>
      InvShape(m);
      LinkShape(m, x);
    case TickOp(script) =>
      TickedInv(m);
      NotDue(m, id);
      CheckQuiet(Ticked(m), script, id);
      StampTimes(Check(Ticked(m), script).1, m.now + 1, id);
  }

  lemma {:induction false} NotDue(m: Model, id: TimerId)
    requires Ready(m) && forall e :: e in m.active && e.id == id ==> e.FireTime() != m.now + 1
    ensures forall e :: e in m.active && e.id == id ==> e.Deadline() > m.now + 1
  {
    forall e | e in m.active && e.id == id ensures e.Deadline() > m.now + 1 {
      assert Kept(m, e);
    }
  }

  /** The tick of its firing: the timer fires once and is active again or gone. */
  lemma {:induction false} TickOnce(m: Model, script: seq<seq<Call>>, e: Entry)
    requires Ready(m) && Legal(m, TickOp(script)) && !Names(TickOp(script), e.id) && e in m.active && e.FireTime() == m.now + 1
    ensures var r := Step(m, TickOp(script));
            && FiringTimes(r.1, e.id) == [m.now + 1] && r.0.now == m.now + 1
            && e.id in m.timers && e.id in r.0.timers && r.0.timers[e.id] == m.timers[e.id]
            && if m.timers[e.id].periodic && e.id in m.flags then e.id in r.0.flags && exists next :: Again(r.0, e.id, next)
               else Gone(r.0, e.id)
  {
    hide Check, MayCheck, NamedIn, Startable, Sorted, DistinctIds, IsActive;
    TickedInv(m);
    assert Kept(m, e);
    CheckOnce(Ticked(m), script, e);
    CheckFires(Ticked(m), script);
    StampTimes(Check(Ticked(m), script).1, m.now + 1, e.id);
    var m1 := Check(Ticked(m), script).0;
    OverSame(m1, e.id);
  }

  lemma {:induction false} OverSame(m: Model, id: TimerId)
    ensures Gone(m, id) ==> Gone(m.(checking := false), id)
    ensures (exists next :: Again(m, id, next)) ==> exists next :: Again(m.(checking := false), id, next)
  {
    if next :| Again(m, id, next) {
      assert Again(m.(checking := false), id, next);
    }
  }

  // ----- whole runs -----

  /** From `first` on, every `period` up to `end`. */
  function Times(first: int, period: int, end: int): seq<int>
    requires period >= 1
    decreases end - first
  {
    if first > end then [] else [first] + Times(first + period, period, end)
  }

  lemma {:induction false} TimesAt(first: int, period: int, end: int, k: nat)
    requires period >= 1
    ensures first + k * period <= end <==> k < |Times(first, period, end)|
    ensures k < |Times(first, period, end)| ==> Times(first, period, end)[k] == first + k * period
    decreases k
  {
    if first <= end {
      if k > 0 {
        TimesAt(first + period, period, end, k - 1);
        assert first + k * period == first + period + (k - 1) * period;
      }
    } else {
      assert k * period >= 0;
    }
  }

  /** The firings of a run, taken one step apart. */
  lemma {:induction false} RunTimes(m: Model, ops: seq<Op>, id: TimerId)
    requires Ready(m) && LegalRun(m, ops) && ops != []
    ensures Legal(m, ops[0]) && Ready(Step(m, ops[0]).0) && LegalRun(Step(m, ops[0]).0, ops[1..])
    ensures Step(m, ops[0]).0.now == if ops[0].TickOp? then m.now + 1 else m.now
    ensures Run(m, ops).0 == Run(Step(m, ops[0]).0, ops[1..]).0
    ensures FiringTimes(Run(m, ops).1, id) == FiringTimes(Step(m, ops[0]).1, id) + FiringTimes(Run(Step(m, ops[0]).0, ops[1..]).1, id)
  {
    hide Inv, Legal, Step, FiringTimes;
    StepKeepsInv(m, ops[0]);
    FiringTimesAppend(Step(m, ops[0]).1, Run(Step(m, ops[0]).0, ops[1..]).1, id);
  }

  /** An inactive timer that nobody names does not fire. */
  lemma {:induction false} InactiveNeverFires(m: Model, ops: seq<Op>, id: TimerId)
    requires Ready(m) && LegalRun(m, ops) && !IsActive(m, id)
    requires forall i :: 0 <= i < |ops| ==> !Names(ops[i], id)
    ensures FiringTimes(Run(m, ops).1, id) == [] && !IsActive(Run(m, ops).0, id)
    decreases |ops|
  {
    hide Ready, Legal, Step, Names, LegalRun, Run;
    if ops == [] {
      EmptyRun(m, id);
    } else {
      RunTimes(m, ops, id);
      StepQuiet(m, ops[0], id);
      InactiveNeverFires(Step(m, ops[0]).0, ops[1..], id);
    }
  }

  lemma EmptyRun(m: Model, id: TimerId)
    requires Ready(m) && LegalRun(m, [])
    ensures Run(m, []) == (m, []) && FiringTimes([], id) == []
  {
  }

  /** A timer that nobody names and is one-shot, or not marked, fires once, at its own time, and is
      gone. */
  lemma {:induction false} OneShotFiresOnce(m: Model, ops: seq<Op>, e: Entry)
    requires Ready(m) && LegalRun(m, ops) && e in m.active && e.id in m.timers
    requires !m.timers[e.id].periodic || e.id !in m.flags
    requires forall i :: 0 <= i < |ops| ==> !Names(ops[i], e.id)
    ensures var end := m.now + TickCount(ops);
            && FiringTimes(Run(m, ops).1, e.id) == (if e.FireTime() <= end then [e.FireTime()] else [])
            && (e.FireTime() <= end ==> !IsActive(Run(m, ops).0, e.id))
    decreases |ops|
  {
    hide Inv, Legal, Step, Names, LegalRun, Run, FiringTimes, Entry.FireTime, Entry.Deadline;
    FiresLater(m, e);
    if ops == [] {
      EmptyRun(m, e.id);
    } else {
      RunTimes(m, ops, e.id);
      var m1 := Step(m, ops[0]).0;
      if ops[0].TickOp? && e.FireTime() == m.now + 1 {
        TickOnce(m, ops[0].script, e);
        InactiveNeverFires(m1, ops[1..], e.id);
      } else {
        OnlyOne(m, e);
        StepQuiet(m, ops[0], e.id);
        OneShotFiresOnce(m1, ops[1..], e);
      }
    }
  }

  lemma FiresLater(m: Model, e: Entry)
    requires Ready(m) && e in m.active
    ensures e.FireTime() > m.now
  {
  }

  lemma {:induction false} OnlyOne(m: Model, e: Entry)
    requires Ready(m) && e in m.active
    ensures forall x :: x in m.active && x.id == e.id ==> x == e
  {
    forall x | x in m.active && x.id == e.id ensures x == e {
      OneEach(m, x, e);
    }
  }

  /** A marked periodic timer that nobody names fires at its own time and then exactly once every
      period. */
  lemma {:induction false} PeriodicFires(m: Model, ops: seq<Op>, e: Entry)
    requires Ready(m) && LegalRun(m, ops) && e in m.active && e.id in m.flags
    requires e.id in m.timers && m.timers[e.id].periodic && m.timers[e.id].init >= 1
    requires forall i :: 0 <= i < |ops| ==> !Names(ops[i], e.id)
    ensures FiringTimes(Run(m, ops).1, e.id) == Times(e.FireTime(), m.timers[e.id].init, m.now + TickCount(ops))
    decreases |ops|
  {
    hide Inv, Legal, Step, Names, LegalRun, Run, FiringTimes, Entry.FireTime, Entry.Deadline;
    FiresLater(m, e);
    if ops == [] {
      EmptyRun(m, e.id);
    } else {
      RunTimes(m, ops, e.id);
      var m1 := Step(m, ops[0]).0;
      if ops[0].TickOp? && e.FireTime() == m.now + 1 {
        TickOnce(m, ops[0].script, e);
        var next :| Again(m1, e.id, next);
        PeriodicFires(m1, ops[1..], next);
      } else {
        OnlyOne(m, e);
        StepQuiet(m, ops[0], e.id);
        PeriodicFires(m1, ops[1..], e);
      }
    }
  }

  /** In particular at each multiple of the period after its first time. */
  lemma {:induction false} PeriodicFiresAgain(m: Model, ops: seq<Op>, e: Entry, k: nat)
    requires Ready(m) && LegalRun(m, ops) && e in m.active && e.id in m.flags
    requires e.id in m.timers && m.timers[e.id].periodic && m.timers[e.id].init >= 1
    requires forall i :: 0 <= i < |ops| ==> !Names(ops[i], e.id)
    ensures e.FireTime() + k * m.timers[e.id].init <= m.now + TickCount(ops)
            <==> k < |FiringTimes(Run(m, ops).1, e.id)|
    ensures k < |FiringTimes(Run(m, ops).1, e.id)| ==>
              FiringTimes(Run(m, ops).1, e.id)[k] == e.FireTime() + k * m.timers[e.id].init
  {
    hide Inv, LegalRun, Run, FiringTimes, Times, Names;
    PeriodicFires(m, ops, e);
    TimesAt(e.FireTime(), m.timers[e.id].init, m.now + TickCount(ops), k);
  }

  /** When timer `id` fires up to `end`, if it is configured as `c` and started at `now`. */
  function Promised(c: Config, now: int, end: int): seq<int>
    requires c.periodic ==> c.init >= 1
  {
    var first := now + if c.init >= 1 then c.init else 1;
    if c.periodic then Times(first, c.init, end) else if first <= end then [first] else []
  }

  /** The state after the two calls. */
  lemma {:induction false} AfterStart(m: Model, id: TimerId, c: Config) returns (e: Entry)
    requires Shape(m) && !m.checking && c.Sane(m.late)
    ensures var m2 := Apply(Apply(m, ControlCall(id, c)), StartCall(id));
            && m2.now == m.now && e in m2.active && e.id == id && id in m2.flags && id in m2.timers && m2.timers[id] == c
            && e.FireTime() == m.now + if c.init >= 1 then c.init else 1
  {
    hide Sorted, DistinctIds, Insert, Drop, Height, Start;
    var m1 := Apply(m, ControlCall(id, c));
    forall x | x in m1.active ensures Kept(m1, x) {
      assert Kept(m, x);
    }
    StartShape(m1, id);
    StartClock(m1, id);
    e := Started(m1, id);
  }

  /** The firings of a run of two calls and a rest. */
  lemma {:induction false} TwoCalls(m: Model, a: Call, b: Call, rest: seq<Op>, id: TimerId)
    requires Ready(m) && LegalRun(m, [CallOp(a), CallOp(b)] + rest)
    ensures var m2 := Apply(Apply(m, a), b);
            && Ready(m2) && LegalRun(m2, rest)
            && FiringTimes(Run(m, [CallOp(a), CallOp(b)] + rest).1, id) == FiringTimes(Run(m2, rest).1, id)
  {
    hide Inv, LegalRun, Run, Legal, Apply;
    var ops := [CallOp(a), CallOp(b)] + rest;
    RunTimes(m, ops, id);
    assert ops[1..] == [CallOp(b)] + rest && ops[1..][1..] == rest;
    RunTimes(Apply(m, a), ops[1..], id);
  }

  /** A timer set by rt_timer_control, then started, and named by nobody after that, fires when it
      was set to: whatever it was before, and whatever else goes on. */
  lemma {:induction false} SetAndStarted(m: Model, id: TimerId, c: Config, rest: seq<Op>)
    requires Ready(m) && c.Sane(m.late) && LegalRun(m, [CallOp(ControlCall(id, c)), CallOp(StartCall(id))] + rest)
    requires forall i :: 0 <= i < |rest| ==> !Names(rest[i], id)
    ensures FiringTimes(Run(m, [CallOp(ControlCall(id, c)), CallOp(StartCall(id))] + rest).1, id)
            == Promised(c, m.now, m.now + TickCount(rest))
  {
    hide Inv, LegalRun, Run, Names, Apply, Times, TickCount, FiringTimes, Entry.FireTime;
    TwoCalls(m, ControlCall(id, c), StartCall(id), rest, id);
    InvShape(m);
    var e := AfterStart(m, id, c);
    var m2 := Apply(Apply(m, ControlCall(id, c)), StartCall(id));
    if c.periodic {
      PeriodicFires(m2, rest, e);
    } else {
      OneShotFiresOnce(m2, rest, e);
    }
  }

  /** A timer that rt_timer_stop stops, and nobody names after that, does not fire. */
  lemma {:induction false} StoppedNeverFires(m: Model, id: TimerId, rest: seq<Op>)
    requires Ready(m) && LegalRun(m, [CallOp(StopCall(id))] + rest) && (IsActive(m, id) ==> id in m.flags)
    requires forall i :: 0 <= i < |rest| ==> !Names(rest[i], id)
    ensures FiringTimes(Run(m, [CallOp(StopCall(id))] + rest).1, id) == []
  {
    hide Inv, LegalRun, Run, Legal, Names, Drop, IsActive;
    var ops := [CallOp(StopCall(id))] + rest;
    RunTimes(m, ops, id);
    assert ops[1..] == rest;
    InvShape(m);
    if IsActive(m, id) {
      StopWorksIff(m, id);
    } else {
      StopInactive(m, id);
    }
    InactiveNeverFires(TimerModel.Stop(m, id), rest, id);
  }

  lemma {:induction false} StopInactive(m: Model, id: TimerId)
    requires Shape(m) && !IsActive(m, id)
    ensures !IsActive(TimerModel.Stop(m, id), id)
  {
    hide Shape, Drop;
    UnlinkShape(m, id);
  }
}
