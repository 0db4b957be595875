/** rt_timer_check with timeout functions that start, stop and set timers, their own included. What a
    timeout function does is the list of calls it makes; a check is given one list for each round. */
module TimerCheck {
  import opened Sequences
  import opened Ticks
  import opened TimerModel

  predicate FirstIsDue(m: Model) {
    m.active != [] && m.active[0].Deadline() <= m.now
  }

  // ----- one timeout function -----

  function Calls(m: Model, calls: seq<Call>): Model
    decreases |calls|
  {
    if calls == [] then m else Calls(Apply(m, calls[0]), calls[1..])
  }

  /** The calls of the timeout function of timer `fired`, which start timers with at least `least`
      ticks. */
  ghost predicate MayCallAll(m: Model, fired: TimerId, calls: seq<Call>, least: nat)
    decreases |calls|
  {
    calls == [] ||
    (MayCallIn(m, fired, calls[0], least) && MayCallAll(Apply(m, calls[0]), fired, calls[1..], least))
  }

  /** A timer counts as active while its timeout function runs. */
  ghost predicate MayCallIn(m: Model, fired: TimerId, c: Call, least: nat) {
    MayCall(m, c, least) && (c.ControlCall? && c.id == fired ==> c.config.Sane(m.late))
  }

  predicate Touches(c: Call, id: TimerId) {
    !c.ControlCall? && c.id == id
  }

  ghost predicate TouchedIn(calls: seq<Call>, id: TimerId) {
    exists c :: c in calls && Touches(c, id)
  }

  lemma {:induction false} CallsKeep(m: Model, fired: TimerId, calls: seq<Call>, least: nat)
    requires Shape(m) && MayCallAll(m, fired, calls, least) && fired in m.timers
    ensures var m' := Calls(m, calls);
            Shape(m') && Follows(m, m', least) && fired in m'.timers && ConfigKept(m, m', fired)
    decreases |calls|
  {
    hide Shape, Apply, MayCall, Follows;
    if calls == [] {
      FollowsSelf(m, least);
    } else {
      var m1 := Apply(m, calls[0]);
      ApplyKeeps(m, calls[0], least);
      FollowsClock(m, m1, least);
      ApplyConfig(m, fired, calls[0], least);
      CallsKeep(m1, fired, calls[1..], least);
      FollowsTrans(m, m1, Calls(m, calls), least);
    }
  }

  lemma {:induction false} ApplyConfig(m: Model, fired: TimerId, c: Call, least: nat)
    requires fired in m.timers && MayCallIn(m, fired, c, least)
    ensures fired in Apply(m, c).timers && ConfigKept(m, Apply(m, c), fired)
  {
    hide Insert, Drop, IsActive;
  }

  lemma {:induction false} CallsKeepInv(m: Model, fired: TimerId, calls: seq<Call>, least: nat)
    requires Inv(m) && MayCallAll(m, fired, calls, least)
    ensures Inv(Calls(m, calls))
    decreases |calls|
  {
    hide Inv, Apply, IsActive;
    if calls != [] {
      ApplyKeepsInv(m, calls[0]);
      CallsKeepInv(Apply(m, calls[0]), fired, calls[1..], least);
    }
  }

  /** What no call touches stays active. */
  lemma {:induction false} CallsKeepUntouched(m: Model, fired: TimerId, calls: seq<Call>, least: nat, e: Entry)
    requires Shape(m) && MayCallAll(m, fired, calls, least) && e in m.active && !TouchedIn(calls, e.id)
    ensures e in Calls(m, calls).active
    decreases |calls|
  {
    hide Shape, Follows, Start, Stop;
    if calls != [] {
      assert calls[0] in calls && forall c :: c in calls[1..] ==> c in calls;
      ApplyKeeps(m, calls[0], least);
      CallsKeepUntouched(Apply(m, calls[0]), fired, calls[1..], least, e);
    }
  }

  /** Calls that start nothing for at once make nothing due. */
  lemma {:induction false} CallsKeepRank(m: Model, fired: TimerId, calls: seq<Call>)
    requires Shape(m) && MayCallAll(m, fired, calls, 1)
    ensures Rank(Calls(m, calls).active, m.now) <= Rank(m.active, m.now)
    decreases |calls|
  {
    hide Shape, Apply, Follows, Rank;
    if calls != [] {
      ApplyKeeps(m, calls[0], 1);
      ApplyRank(m, calls[0]);
      FollowsClock(m, Apply(m, calls[0]), 1);
      CallsKeepRank(Apply(m, calls[0]), fired, calls[1..]);
    }
  }

  lemma FollowsClock(m: Model, m': Model, least: nat)
    requires Follows(m, m', least)
    ensures m'.now == m.now && m'.checking == m.checking && m'.late == m.late && m.starts <= m'.starts
  {
  }

  lemma {:induction false} ApplyRank(m: Model, c: Call)
    requires Shape(m) && MayCall(m, c, 1)
    ensures Rank(Apply(m, c).active, m.now) <= Rank(m.active, m.now)
  {
    hide Shape, Rank, Drop, Start;
    match c
    case ControlCall(id, config) =>
    case StopCall(id) => ShapeRankDrop(m, id);
    case StartCall(id) => StartRank(m, id);
  }

  lemma ShapeRankDrop(m: Model, id: TimerId)
    requires Shape(m)
    ensures Rank(Drop(m.active, id), m.now) <= Rank(m.active, m.now)
  {
    RankDrop(m.active, id, m.now);
  }

  // ----- one round -----

  /** The first timer is removed, its timeout function makes its calls, and it is restarted if it is
      periodic and still marked. */
  function Fire(m: Model, calls: seq<Call>): Model
    requires m.active != []
  {
    var id := m.active[0].id;
    var m1 := Calls(Unlink(m, id), calls);
    if id in m1.timers && m1.timers[id].periodic && id in m1.flags then Start(m1, id) else Unflag(m1, id)
  }

  /** What is active can be restarted; its period may be zero. */
  ghost predicate Startable(m: Model) {
    Shape(m) && m.checking && forall e :: e in m.active ==> e.id in m.timers && m.timers[e.id].init + m.late < HALF
  }

  ghost predicate MayFire(m: Model, calls: seq<Call>, least: nat) {
    m.active != [] && MayCallAll(Unlink(m, m.active[0].id), m.active[0].id, calls, least)
  }

  /** A due timer that is marked, and periodic with a zero period. */
  ghost predicate Stuck(m: Model, e: Entry) {
    && e in m.active && e.Deadline() <= m.now && e.id in m.flags
    && e.id in m.timers && m.timers[e.id] == Config(0, true)
  }

  /** The state after the calls of a round, before the restart. */
  lemma {:induction false} CallsOfRound(m: Model, calls: seq<Call>, least: nat)
    requires Startable(m) && MayFire(m, calls, least)
    ensures var id := m.active[0].id; var m0 := Unlink(m, id); var m1 := Calls(m0, calls);
            && Shape(m0) && Shape(m1) && Follows(m0, m1, least) && Follows(m, m1, least)
            && id in m.timers && id in m1.timers && ConfigKept(m, m1, id)
            && m.timers[id].init + m.late < HALF && m1.timers[id].init + m.late < HALF
  {
    hide Shape, Follows, Calls;
    var id := m.active[0].id;
    assert m.active[0] in m.active;
    UnlinkKeeps(m, id, least);
    CallsKeep(Unlink(m, id), id, calls, least);
    FollowsTrans(m, Unlink(m, id), Calls(Unlink(m, id), calls), least);
  }

  lemma {:induction false} FireKeeps(m: Model, calls: seq<Call>, least: nat)
    requires Startable(m) && MayFire(m, calls, least)
    ensures Startable(Fire(m, calls)) && Fire(m, calls).now == m.now && m.starts <= Fire(m, calls).starts
    ensures Fire(m, calls).late == m.late && Fire(m, calls).rows == m.rows
    ensures forall x :: x in Fire(m, calls).active && x !in m.active ==> x.Deadline() >= m.now && x.serial >= m.starts
  {
    hide Shape, Start, Unlink, Calls;
    CallsOfRound(m, calls, least);
    var id := m.active[0].id;
    var m1 := Calls(Unlink(m, id), calls);
    forall x | x in m1.active ensures m1.timers[x.id].init + m.late < HALF {
      assert SaneOrSame(m, m1, x);
    }
    FlagsShape(m1, m1.flags - {id});
    StartShape(m1, id);
    StartClock(m1, id);
  }

  lemma StartClock(m: Model, id: TimerId)
    requires id in m.timers
    ensures var m' := Start(m, id); m'.now == m.now && m'.checking == m.checking && m'.late == m.late && m'.rows == m.rows
                                    && m'.timers == m.timers && m'.starts == m.starts + 1 && m'.flags == m.flags + {id}
  {
  }

  lemma {:induction false} FireKeepsInv(m: Model, calls: seq<Call>, least: nat)
    requires Inv(m) && m.checking && MayFire(m, calls, least)
    ensures Startable(m) && Inv(Fire(m, calls))
  {
    hide Shape, Start, Unlink, Calls;
    var id := m.active[0].id;
    assert m.active[0] in m.active;
    UnlinkKeepsInv(m, id);
    CallsOfRound(m, calls, least);
    CallsKeepInv(Unlink(m, id), id, calls, least);
    var m1 := Calls(Unlink(m, id), calls);
    FollowsClock(m, m1, least);
    StartKeepsInv(m1, id);
    FlagsShape(m1, m1.flags - {id});
  }

  lemma {:induction false} UnlinkKeepsInv(m: Model, id: TimerId)
    requires Inv(m)
    ensures Inv(Unlink(m, id))
  {
    hide Shape, Drop;
    UnlinkShape(m, id);
  }

  /** The timer that fires comes before everything the round leaves. */
  lemma {:induction false} FiresFirst(m: Model, calls: seq<Call>, least: nat)
    requires Startable(m) && FirstIsDue(m) && MayFire(m, calls, least)
    ensures forall x :: x in Fire(m, calls).active ==> Before(m.active[0], x)
  {
    hide Fire;
    FireKeeps(m, calls, least);
    var e := m.active[0];
    assert e in m.active && Kept(m, e);
    FireDrops(m, calls, least);
    forall x | x in Fire(m, calls).active ensures Before(e, x) {
      if x in m.active {
        var i :| 0 <= i < |m.active| && m.active[i] == x;
      }
    }
  }

  lemma {:induction false} FireDrops(m: Model, calls: seq<Call>, least: nat)
    requires Startable(m) && MayFire(m, calls, least)
    ensures m.active[0] !in Fire(m, calls).active
  {
    hide Shape, Start, Calls, Drop;
    CallsOfRound(m, calls, least);
    var e := m.active[0];
    var m1 := Calls(Unlink(m, e.id), calls);
    SerialBelow(m, e);
    UnlinkShape(m, e.id);
    StartShape(m1, e.id);
  }

  lemma SerialBelow(m: Model, e: Entry)
    requires Shape(m) && e in m.active
    ensures e.serial < m.starts
  {
    assert Kept(m, e);
  }

  /** What is not touched stays, unless it fires. */
  lemma {:induction false} FireKeepsUntouched(m: Model, calls: seq<Call>, least: nat, e: Entry)
    requires Startable(m) && MayFire(m, calls, least) && e in m.active && e != m.active[0] && !TouchedIn(calls, e.id)
    ensures e in Fire(m, calls).active
  {
    hide Shape, Start, Unlink, Calls, Follows;
    var id := m.active[0].id;
    OthersDiffer(m, e);
    UnlinkShape(m, id);
    CallsOfRound(m, calls, least);
    CallsKeepUntouched(Unlink(m, id), id, calls, least, e);
    var m1 := Calls(Unlink(m, id), calls);
    FollowsClock(m, m1, least);
    StartShape(m1, id);
  }

  lemma OthersDiffer(m: Model, e: Entry)
    requires Shape(m) && e in m.active && e != m.active[0]
    ensures e.id != m.active[0].id
  {
    var i :| 0 <= i < |m.active| && m.active[i] == e;
  }

  /** A round leaves fewer due timers, whatever the timeout function does, if it starts nothing for
      at once and the timer is not restarted for at once. */
  lemma {:induction false} FireRank(m: Model, calls: seq<Call>)
    requires Startable(m) && FirstIsDue(m) && MayFire(m, calls, 1) && !Stuck(m, m.active[0])
    ensures Rank(Fire(m, calls).active, m.now) < Rank(m.active, m.now)
  {
    hide Shape, Start, Calls, Follows, Rank, Drop;
    var id := m.active[0].id;
    assert m.active[0] in m.active;
    UnlinkRank(m);
    CallsOfRound(m, calls, 1);
    CallsKeepRank(Unlink(m, id), id, calls);
    var m1 := Calls(Unlink(m, id), calls);
    FollowsClock(m, m1, 1);
    if m1.timers[id].periodic && id in m1.flags {
      StartRank(m1, id);
    }
  }

  lemma {:induction false} StartRank(m: Model, id: TimerId)
    requires Shape(m) && id in m.timers && 1 <= m.timers[id].init && m.timers[id].init + m.late < HALF
    ensures Rank(Start(m, id).active, m.now) <= Rank(m.active, m.now)
  {
    hide Rank, Drop, Insert, Height, Start;
    StartShape(m, id);
    RankDrop(m.active, id, m.now);
    InsertLate(Drop(m.active, id), Started(m, id), m.now);
  }

  lemma UnlinkRank(m: Model)
    requires Shape(m) && FirstIsDue(m)
    ensures Rank(Unlink(m, m.active[0].id).active, m.now) + 1 == Rank(m.active, m.now)
  {
    DropFirst(m.active);
  }

  // ----- the whole check -----

  /** The calls of this round, and of the later ones; after the last list no more calls are made. */
  function Here(script: seq<seq<Call>>): seq<Call> {
    if script == [] then [] else script[0]
  }

  function Later(script: seq<seq<Call>>): seq<seq<Call>> {
    if script == [] then [] else script[1..]
  }

  ghost predicate MayCheck(m: Model, script: seq<seq<Call>>, least: nat)
    requires Startable(m)
    decreases |script|
  {
    script == [] || !FirstIsDue(m) ||
    (MayFire(m, script[0], least) && (FireKeeps(m, script[0], least); MayCheck(Fire(m, script[0]), script[1..], least)))
  }

  lemma InvStartable(m: Model)
    requires Inv(m) && m.checking
    ensures Startable(m)
  {
  }

  lemma {:induction false} NextRound(m: Model, script: seq<seq<Call>>, least: nat)
    requires Inv(m) && m.checking && Startable(m) && FirstIsDue(m) && MayCheck(m, script, least)
    ensures MayFire(m, Here(script), least) && Inv(Fire(m, Here(script))) && Fire(m, Here(script)).checking
    ensures Startable(Fire(m, Here(script))) && MayCheck(Fire(m, Here(script)), Later(script), least)
  {
    hide Inv, Fire, Startable;
    FireKeepsInv(m, Here(script), least);
    FireKeeps(m, Here(script), least);
    assert Fire(m, Here(script)).checking by {
      StartableChecks(Fire(m, Here(script)));
    }
  }

  lemma StartableChecks(m: Model)
    requires Startable(m)
    ensures m.checking
  {
  }

  lemma {:induction false} NoneStuck(m: Model)
    requires Inv(m) && m.active != []
    ensures !Stuck(m, m.active[0])
  {
    assert m.active[0] in m.active;
  }

  /** rt_timer_check: the state it leaves and the timers it fired, in order. */
  ghost function Check(m: Model, script: seq<seq<Call>>): (r: (Model, seq<Entry>))
    requires Inv(m) && m.checking && Startable(m) && MayCheck(m, script, 0)
    decreases |script|, Rank(m.active, m.now)
  {
    if FirstIsDue(m) then
      NextRound(m, script, 0);
      NoneStuck(m);
      FireRankQuiet(m, script);
      FireKeeps(m, Here(script), 0);
      var rest := Check(Fire(m, Here(script)), Later(script));
      (rest.0, [m.active[0]] + rest.1)
    else
      (m, [])
  }

  lemma {:induction false} FireRankQuiet(m: Model, script: seq<seq<Call>>)
    requires Startable(m) && FirstIsDue(m) && !Stuck(m, m.active[0])
    ensures script == [] ==> Rank(Fire(m, Here(script)).active, m.now) < Rank(m.active, m.now)
  {
    hide Startable, Rank, Fire, Stuck;
    if script == [] {
      FireRank(m, []);
    }
  }

  /** Whatever the timeout functions do: every firing is at its own time, in the order of deadlines
      and then of starts, and nothing due is left. */
  lemma {:induction false} CheckFires(m: Model, script: seq<seq<Call>>)
    requires Inv(m) && m.checking && Startable(m) && MayCheck(m, script, 0)
    ensures var r := Check(m, script);
            && Inv(r.0) && r.0.checking && !FirstIsDue(r.0)
            && r.0.now == m.now && r.0.late == m.late && r.0.rows == m.rows
            && (forall x :: x in r.1 ==> x.FireTime() == m.now)
            && (forall x :: x in r.1 && x !in m.active ==> x.Deadline() >= m.now && x.serial >= m.starts)
            && (forall i, j :: 0 <= i < j < |r.1| ==> Before(r.1[i], r.1[j]))
    decreases |script|, Rank(m.active, m.now)
  {
    hide Inv, Fire, Startable, MayCheck, Rank, MayFire, Stuck;
    if FirstIsDue(m) {
      NextRound(m, script, 0);
      NoneStuck(m);
      FireRankQuiet(m, script);
      var e, m1 := m.active[0], Fire(m, Here(script));
      FireKeeps(m, Here(script), 0);
      CheckFires(m1, Later(script));
      FiresFirst(m, Here(script), 0);
      DueNow(m);
      var rest := Check(m1, Later(script)).1;
      forall x | x in rest ensures Before(e, x) {
      }
      assert forall i :: 0 <= i < |rest| ==> rest[i] in rest;
      assert Check(m, script).1 == [e] + rest;
    }
  }

  lemma {:induction false} DueNow(m: Model)
    requires Inv(m) && m.checking && FirstIsDue(m)
    ensures m.active[0] in m.active && m.active[0].FireTime() == m.now
    ensures m.active[0].serial < m.starts && m.active[0].Deadline() <= m.now
  {
    assert m.active[0] in m.active && Kept(m, m.active[0]);
  }

  /** A timer that no timeout function of the check touches fires if it is due, and stays if it is
      not. */
  lemma {:induction false} CheckFiresUntouched(m: Model, script: seq<seq<Call>>, e: Entry)
    requires Inv(m) && m.checking && Startable(m) && MayCheck(m, script, 0) && e in m.active
    requires forall k :: 0 <= k < |script| ==> !TouchedIn(script[k], e.id)
    ensures e.Deadline() <= m.now ==> e in Check(m, script).1
    ensures e.Deadline() > m.now ==> e in Check(m, script).0.active
    decreases |script|, Rank(m.active, m.now)
  {
    hide Inv, Fire, Startable, MayCheck, Rank, MayFire, Stuck, TouchedIn, Sorted;
    DueFirst(m, e);
    if FirstIsDue(m) {
      NextRound(m, script, 0);
      NoneStuck(m);
      FireRankQuiet(m, script);
      FireKeeps(m, Here(script), 0);
      if e != m.active[0] {
        NoCalls(e.id);
        FireKeepsUntouched(m, Here(script), 0, e);
        CheckFiresUntouched(Fire(m, Here(script)), Later(script), e);
      }
    }
  }

  lemma NoCalls(id: TimerId)
    ensures !TouchedIn([], id)
  {
  }

  lemma DueFirst(m: Model, e: Entry)
    requires Startable(m) && e in m.active
    ensures e.Deadline() <= m.now ==> FirstIsDue(m)
  {
    var i :| 0 <= i < |m.active| && m.active[i] == e;
    assert i == 0 || Before(m.active[0], e);
  }

  /** With timeout functions that touch no timer exactly the due prefix fires. */
  lemma {:induction false} CheckFiresDuePrefix(m: Model)
    requires Inv(m) && m.checking && Startable(m)
    ensures Check(m, []).1 == m.active[..Rank(m.active, m.now)]
    decreases Rank(m.active, m.now)
  {
    hide Inv, Startable, MayFire, Stuck, Rank, Sorted, Insert;
    RankStarts(m);
    if FirstIsDue(m) {
      NextRound(m, [], 0);
      NoneStuck(m);
      FireRankQuiet(m, []);
      FireKeeps(m, [], 0);
      CheckFiresDuePrefix(Fire(m, []));
      QuietPrefix(m);
    }
  }

  lemma RankStarts(m: Model)
    ensures Rank(m.active, m.now) == 0 <==> !FirstIsDue(m)
  {
  }

  lemma {:induction false} QuietPrefix(m: Model)
    requires Startable(m) && FirstIsDue(m) && !Stuck(m, m.active[0])
    ensures var k := Rank(m.active, m.now); var m' := Fire(m, []);
            && k >= 1 && Rank(m'.active, m.now) == k - 1 && m.active[..k] == [m.active[0]] + m'.active[..k - 1]
  {
    hide Rank, Drop, Insert, Height, Start, Shape;
    var id, rest := m.active[0].id, m.active[1..];
    assert m.active[0] in m.active;
    UnlinkRest(m);
    UnlinkShape(m, id);
    var m1 := Unlink(m, id);
    RankTail(m.active, m.now);
    if m1.timers[id].periodic && id in m.flags {
      StartShape(m1, id);
      DropAbsent(m1.active, id);
      InsertLate(rest, Started(m1, id), m.now);
    }
  }

  lemma UnlinkRest(m: Model)
    requires Shape(m) && m.active != []
    ensures Unlink(m, m.active[0].id) == m.(active := m.active[1..])
  {
    DropFirst(m.active);
  }

  lemma RankTail(s: seq<Entry>, d: int)
    requires s != [] && s[0].Deadline() <= d
    ensures var k := Rank(s, d); k == Rank(s[1..], d) + 1 && s[..k] == [s[0]] + s[1..][..k - 1]
  {
  }

  // ----- when the loop ends -----

  /** The rounds of the loop under the calls of `script`, as long as something is due. */
  function Rounds(m: Model, script: seq<seq<Call>>): Model
    decreases |script|
  {
    if script == [] || !FirstIsDue(m) then m else Rounds(Fire(m, script[0]), script[1..])
  }

  /** After `n` rounds nothing is due, whatever the timeout functions do. */
  ghost predicate EndsWithin(m: Model, n: nat, least: nat)
    requires Startable(m)
  {
    forall script :: |script| == n && MayCheck(m, script, least) ==> !FirstIsDue(Rounds(m, script))
  }

  /** The loop ends within a number of rounds fixed beforehand, for all timeout functions that do not
      touch their own timer and start others with at least `least` ticks. */
  ghost predicate LoopEnds(m: Model, least: nat)
    requires Startable(m)
  {
    exists n: nat :: EndsWithin(m, n, least)
  }

  /** With timeout functions that start nothing for at once, the check loop ends if and only if no
      due timer is periodic with a zero period. */
  lemma {:induction false} CheckLoopEndsIff(m: Model)
    requires Startable(m)
    ensures LoopEnds(m, 1) <==> !exists e :: Stuck(m, e)
  {
    hide Startable, Stuck, Rank;
    if e :| Stuck(m, e) {
      forall n: nat ensures !EndsWithin(m, n, 1) {
        var script := Quiet(n);
        StuckForever(m, e, n);
        assert |script| == n && MayCheck(m, script, 1) && FirstIsDue(Rounds(m, script));
      }
    } else {
      var n := Rank(m.active, m.now);
      forall script | |script| == n && MayCheck(m, script, 1) ensures !FirstIsDue(Rounds(m, script)) {
        EndsWithoutStuck(m, script);
      }
      assert EndsWithin(m, n, 1);
    }
  }

  /** `n` timeout functions that do nothing. */
  function Quiet(n: nat): (script: seq<seq<Call>>)
    ensures |script| == n
  {
    if n == 0 then [] else [[]] + Quiet(n - 1)
  }

  lemma {:induction false} StuckForever(m: Model, e: Entry, n: nat)
    requires Startable(m) && Stuck(m, e)
    ensures MayCheck(m, Quiet(n), 1) && FirstIsDue(Rounds(m, Quiet(n)))
    decreases n
  {
    hide Startable, Stuck, Fire;
    StuckDue(m, e);
    if n > 0 {
      assert Quiet(n)[0] == [] && Quiet(n)[1..] == Quiet(n - 1);
      FireKeeps(m, [], 1);
      var e' := StuckStays(m, e);
      StuckForever(Fire(m, []), e', n - 1);
    }
  }

  lemma StuckDue(m: Model, e: Entry)
    requires Startable(m) && Stuck(m, e)
    ensures FirstIsDue(m)
  {
    DueFirst(m, e);
  }

  lemma {:induction false} StuckStays(m: Model, e: Entry) returns (e': Entry)
    requires Startable(m) && Stuck(m, e) && m.active != []
    ensures Stuck(Fire(m, []), e')
  {
    hide Startable, Drop, Insert, Height;
    var id := m.active[0].id;
    CallsOfRound(m, [], 1);
    var m1 := Unlink(m, id);
    if e == m.active[0] {
      StartShape(m1, id);
      e' := Started(m1, id);
    } else {
      NoCalls(e.id);
      FireKeepsUntouched(m, [], 1, e);
      StartableDiffer(m, e);
      e' := e;
    }
  }

  lemma StartableDiffer(m: Model, e: Entry)
    requires Startable(m) && e in m.active && e != m.active[0]
    ensures e.id != m.active[0].id
  {
    OthersDiffer(m, e);
  }

  lemma {:induction false} EndsWithoutStuck(m: Model, script: seq<seq<Call>>)
    requires Startable(m) && MayCheck(m, script, 1) && |script| >= Rank(m.active, m.now)
    requires forall e :: !Stuck(m, e)
    ensures !FirstIsDue(Rounds(m, script))
    decreases |script|
  {
    hide Startable, Stuck, Fire, Rank, MayFire;
    RankStarts(m);
    if FirstIsDue(m) {
      FireRank(m, script[0]);
      FireKeeps(m, script[0], 1);
      NoneBecomesStuck(m, script[0]);
      EndsWithoutStuck(Fire(m, script[0]), script[1..]);
    }
  }

  lemma {:induction false} NoneBecomesStuck(m: Model, calls: seq<Call>)
    requires Startable(m) && FirstIsDue(m) && MayFire(m, calls, 1) && forall e :: !Stuck(m, e)
    ensures forall e :: !Stuck(Fire(m, calls), e)
  {
    hide Shape, Start, Unlink, Calls;
    CallsOfRound(m, calls, 1);
    var id := m.active[0].id;
    assert m.active[0] in m.active;
    assert !Stuck(m, m.active[0]);
    var m1 := Calls(Unlink(m, id), calls);
    StartShape(m1, id);
    StartClock(m1, id);
    forall e ensures !Stuck(Fire(m, calls), e) {
      if e in m1.active {
        assert SaneOrSame(m, m1, e);
        assert !Stuck(m, e);
      }
    }
  }

  // ----- starts for at once -----

  lemma {:induction false} CallsAppend(m: Model, fired: TimerId, a: seq<Call>, b: seq<Call>, least: nat)
    requires MayCallAll(m, fired, a + b, least)
    ensures MayCallAll(m, fired, a, least) && MayCallAll(Calls(m, a), fired, b, least)
    ensures Calls(m, a + b) == Calls(Calls(m, a), b)
    decreases |a|
  {
    hide MayCallIn, Apply;
    if a == [] {
      assert a + b == b;
    } else {
      assert (a + b)[0] == a[0] && (a + b)[1..] == a[1..] + b;
      CallsAppend(Apply(m, a[0]), fired, a[1..], b, least);
    }
  }

  /** What a timeout function starts and does not touch again is active after the round. */
  lemma {:induction false} StartedInRound(m: Model, before: seq<Call>, id: TimerId, after: seq<Call>) returns (e: Entry)
    requires Startable(m) && MayFire(m, before + ([StartCall(id)] + after), 0)
    requires id != m.active[0].id && !TouchedIn(after, id)
    ensures var m0 := Calls(Unlink(m, m.active[0].id), before);
            id in m0.timers && m0.now == m.now && m0.checking && m.starts <= m0.starts && e == Started(m0, id)
    ensures e in Fire(m, before + ([StartCall(id)] + after)).active
  {
    hide Shape, Unlink, Start, Follows, TouchedIn;
    var fired, calls := m.active[0].id, before + ([StartCall(id)] + after);
    assert m.active[0] in m.active;
    UnlinkKeeps(m, fired, 0);
    FollowsClock(m, Unlink(m, fired), 0);
    CallsOfRound(m, calls, 0);
    CallsAppend(Unlink(m, fired), fired, before, [StartCall(id)] + after, 0);
    FiredStays(m);
    CallsKeep(Unlink(m, fired), fired, before, 0);
    var m0 := Calls(Unlink(m, fired), before);
    FollowsClock(Unlink(m, fired), m0, 0);
    assert ([StartCall(id)] + after)[1..] == after;
    e := Started(m0, id);
    StartShape(m0, id);
    CallsKeepUntouched(Start(m0, id), fired, after, 0, e);
    var m1 := Calls(Unlink(m, fired), calls);
    FollowsClock(m, m1, 0);
    StartShape(m1, fired);
  }

  lemma FiredStays(m: Model)
    requires m.active != []
    ensures Unlink(m, m.active[0].id).timers == m.timers && Unlink(m, m.active[0].id).flags == m.flags
  {
  }

  /** Another timer that a timeout function starts with a delay of 0 fires in the same check, unless
      that or a later timeout function stops or restarts it. */
  lemma {:induction false} ZeroStartFires(m: Model, before: seq<Call>, id: TimerId, after: seq<Call>,
                                          script: seq<seq<Call>>)
    requires Inv(m) && m.checking && Startable(m) && FirstIsDue(m) && id != m.active[0].id
    requires MayCheck(m, [before + ([StartCall(id)] + after)] + script, 0)
    requires var m0 := Calls(Unlink(m, m.active[0].id), before); id in m0.timers && m0.timers[id].init == 0
    requires !TouchedIn(after, id) && forall k :: 0 <= k < |script| ==> !TouchedIn(script[k], id)
    ensures exists e: Entry ::
              && e.id == id && e.Deadline() == e.FireTime() == m.now && e.serial >= m.starts
              && e in Check(m, [before + ([StartCall(id)] + after)] + script).1
  {
    hide Inv, Fire, Startable, MayFire, Stuck, TouchedIn, Calls, Rank;
    var calls := before + ([StartCall(id)] + after);
    var all := [calls] + script;
    assert all[0] == calls && all[1..] == script;
    NextRound(m, all, 0);
    NoneStuck(m);
    FireKeeps(m, calls, 0);
    var e := StartedInRound(m, before, id, after);
    CheckFiresUntouched(Fire(m, calls), script, e);
    assert e in Check(m, all).1;
  }

  /** Only timer `x` of two one-shot timers 0 and 1 with delay 0 is active, and due. */
  ghost predicate Alternating(m: Model, x: TimerId) {
    && Startable(m) && x < 2 && |m.active| == 1 && m.active[0].id == x && FirstIsDue(m)
    && 0 in m.timers && 1 in m.timers && m.timers[0] == Config(0, false) && m.timers[1] == Config(0, false)
  }

  lemma {:induction false} AlternatesOnce(m: Model, x: TimerId)
    requires Alternating(m, x)
    ensures MayFire(m, [StartCall(1 - x)], 0) && Alternating(Fire(m, [StartCall(1 - x)]), 1 - x)
  {
    hide Shape, Insert, Height;
    var calls := [StartCall(1 - x)];
    assert m.active[0] in m.active;
    var m1 := Unlink(m, x);
    UnlinkShape(m, x);
    assert m1.active == [] by {
      DropAll(m.active, x);
    }
    assert calls[1..] == [];
    assert MayCallAll(Apply(m1, calls[0]), x, [], 0);
    FireKeeps(m, calls, 0);
    assert Calls(m1, calls) == Start(m1, 1 - x) by {
      assert Calls(Start(m1, 1 - x), []) == Start(m1, 1 - x);
    }
    StartShape(m1, 1 - x);
    InsertOne(Drop(m1.active, 1 - x), Started(m1, 1 - x));
  }

  lemma DropAll(s: seq<Entry>, id: TimerId)
    requires |s| == 1 && s[0].id == id
    ensures Drop(s, id) == []
  {
  }

  lemma InsertOne(s: seq<Entry>, e: Entry)
    requires s == []
    ensures Insert(s, e) == [e]
  {
  }

  lemma {:induction false} AlternatesForever(m: Model, x: TimerId, n: nat) returns (script: seq<seq<Call>>)
    requires Alternating(m, x)
    ensures |script| == n && MayCheck(m, script, 0) && FirstIsDue(Rounds(m, script))
    decreases n
  {
    hide Fire, MayFire, Startable;
    if n == 0 {
      script := [];
    } else {
      AlternatesOnce(m, x);
      var m' := Fire(m, [StartCall(1 - x)]);
      var rest := AlternatesForever(m', 1 - x, n - 1);
      FireKeeps(m, [StartCall(1 - x)], 0);
      script := [[StartCall(1 - x)]] + rest;
      assert script[0] == [StartCall(1 - x)] && script[1..] == rest;
    }
  }

  /** Two timers of delay 0 whose timeout functions start each other keep the check from ending. */
  lemma {:induction false} ZeroStartsLoop(m: Model, x: TimerId)
    requires Alternating(m, x)
    ensures Startable(m) && !LoopEnds(m, 0) && forall e :: !Stuck(m, e)
  {
    hide Fire, MayFire;
    forall n: nat ensures !EndsWithin(m, n, 0) {
      var script := AlternatesForever(m, x, n);
      assert |script| == n && MayCheck(m, script, 0) && FirstIsDue(Rounds(m, script));
    }
    forall e | e in m.active ensures e == m.active[0] {
    }
  }

  /** A periodic timer with period 0, started on an empty list: the check of the next tick does not
      end. */
  lemma {:induction false} ZeroPeriodLoops(rows: nat, now: int)
    requires rows >= 1
    ensures var m := Model([], now, 0, map[0 := Config(0, true)], rows, map[], false, 0, {});
            && Inv(m) && var m1 := Start(m, 0).(now := now + 1, checking := true);
            Startable(m1) && !LoopEnds(m1, 1)
  {
    hide LoopEnds, Height;
    var m := Model([], now, 0, map[0 := Config(0, true)], rows, map[], false, 0, {});
    StartShape(m, 0);
    var m1 := Start(m, 0).(now := now + 1, checking := true);
    assert m1.active == [Started(m, 0)];
    assert Kept(Start(m, 0), Started(m, 0));
    assert Stuck(m1, Started(m, 0));
    CheckLoopEndsIff(m1);
  }

  // ----- which timers can be stopped -----

  /** Exactly the active timers are marked. */
  ghost predicate FlagsAgree(m: Model) {
    forall id :: id in m.flags <==> IsActive(m, id)
  }

  /** rt_timer_stop stops an active timer if and only if it is marked. */
  lemma {:induction false} StopWorksIff(m: Model, id: TimerId)
    requires Shape(m) && IsActive(m, id)
    ensures !IsActive(Stop(m, id), id) <==> id in m.flags
  {
    hide Shape, Drop;
    UnlinkShape(m, id);
  }

  /** Whether timer `id` runs after the calls, if it runs before them or not. */
  function RunsAfter(on: bool, calls: seq<Call>, id: TimerId): bool
    decreases |calls|
  {
    if calls == [] then on
    else RunsAfter(if Touches(calls[0], id) then calls[0].StartCall? else on, calls[1..], id)
  }

  /** Whether timer `id` is periodic after the calls. */
  function PeriodicAfter(on: bool, calls: seq<Call>, id: TimerId): bool
    decreases |calls|
  {
    if calls == [] then on
    else
      var here := if calls[0].ControlCall? && calls[0].id == id then calls[0].config.periodic else on;
      PeriodicAfter(here, calls[1..], id)
  }

  /** The timeout function starts its own timer, and leaves it one-shot. */
  ghost predicate RestartsOneShot(m: Model, calls: seq<Call>) {
    && m.active != [] && m.active[0].id in m.timers
    && RunsAfter(false, calls, m.active[0].id)
    && !PeriodicAfter(m.timers[m.active[0].id].periodic, calls, m.active[0].id)
  }

  /** The marks while the timeout function of `fired` runs. */
  ghost predicate FlagsDuring(m: Model, fired: TimerId) {
    && (forall id :: id != fired ==> (id in m.flags <==> IsActive(m, id)))
    && (IsActive(m, fired) ==> fired in m.flags)
  }

  lemma SameActive(m: Model, m': Model)
    requires m'.active == m.active
    ensures forall id :: IsActive(m', id) <==> IsActive(m, id)
  {
  }

  lemma {:induction false} ApplyFlags(m: Model, c: Call, fired: TimerId, least: nat)
    requires Shape(m) && MayCall(m, c, least) && FlagsDuring(m, fired)
    ensures FlagsDuring(Apply(m, c), fired)
    ensures IsActive(Apply(m, c), fired) <==> if Touches(c, fired) then c.StartCall? else IsActive(m, fired)
  {
    hide Shape, Start, Begin, IsActive;
    match c {
      case ControlCall(id, config) => SameActive(m, Apply(m, c));
      case StopCall(id) =>
        UnlinkActive(m, id);
        StopIsBegin(m, id);
        BeginFlags(m, id);
      case StartCall(id) => StartActive(m, id);
    }
  }

  lemma StopIsBegin(m: Model, id: TimerId)
    ensures Stop(m, id) == if id in m.flags then Begin(m, id) else m
  {
  }

  lemma BeginFlags(m: Model, id: TimerId)
    ensures Begin(m, id).flags == m.flags - {id}
  {
  }

  lemma {:induction false} UnlinkActive(m: Model, id: TimerId)
    requires Shape(m)
    ensures forall x :: IsActive(Begin(m, id), x) <==> IsActive(m, x) && x != id
  {
    hide Shape, Drop;
    UnlinkShape(m, id);
    forall x ensures IsActive(Begin(m, id), x) <==> IsActive(m, x) && x != id {
    }
  }

  lemma {:induction false} StartActive(m: Model, id: TimerId)
    requires Shape(m) && id in m.timers && m.timers[id].init + m.late < HALF
    ensures forall x :: IsActive(Start(m, id), x) <==> IsActive(m, x) || x == id
    ensures Start(m, id).flags == m.flags + {id}
  {
    hide Shape, Drop, Insert, Height;
    StartShape(m, id);
    assert Started(m, id) in Start(m, id).active;
    forall x ensures IsActive(Start(m, id), x) <==> IsActive(m, x) || x == id {
    }
  }

  lemma {:induction false} CallsFlags(m: Model, fired: TimerId, calls: seq<Call>, least: nat)
    requires Shape(m) && MayCallAll(m, fired, calls, least) && fired in m.timers && FlagsDuring(m, fired)
    ensures var m' := Calls(m, calls);
            && FlagsDuring(m', fired) && (IsActive(m', fired) <==> RunsAfter(IsActive(m, fired), calls, fired))
            && fired in m'.timers && m'.timers[fired].periodic == PeriodicAfter(m.timers[fired].periodic, calls, fired)
    decreases |calls|
  {
    hide Shape, Follows, FlagsDuring, IsActive, Start, Stop;
    if calls != [] {
      ApplyKeeps(m, calls[0], least);
      ApplyFlags(m, calls[0], fired, least);
      ApplyPeriodic(m, calls[0], fired);
      CallsFlags(Apply(m, calls[0]), fired, calls[1..], least);
    }
  }

  lemma ApplyPeriodic(m: Model, c: Call, id: TimerId)
    requires id in m.timers
    ensures id in Apply(m, c).timers
    ensures Apply(m, c).timers[id] == if c.ControlCall? && c.id == id then c.config else m.timers[id]
  {
  }

  /** A round leaves exactly the active timers marked if and only if its timeout function does not
      restart its own timer as a one-shot timer. */
  lemma {:induction false} RoundKeepsFlagsIff(m: Model, calls: seq<Call>)
    requires Startable(m) && MayFire(m, calls, 0) && FlagsAgree(m)
    ensures FlagsAgree(Fire(m, calls)) <==> !RestartsOneShot(m, calls)
  {
    hide Shape, Drop, Start, Calls, RunsAfter, PeriodicAfter, IsActive;
    var id := m.active[0].id;
    assert m.active[0] in m.active;
    CallsOfRound(m, calls, 0);
    UnlinkShape(m, id);
    UnlinkFlags(m, id);
    CallsFlags(Unlink(m, id), id, calls, 0);
    var m1 := Calls(Unlink(m, id), calls);
    FollowsClock(m, m1, 0);
    StartActive(m1, id);
    SameActive(m1, Unflag(m1, id));
    assert IsActive(m1, id) <==> RunsAfter(false, calls, id);
  }

  lemma {:induction false} UnlinkFlags(m: Model, id: TimerId)
    requires Shape(m) && FlagsAgree(m)
    ensures FlagsDuring(Unlink(m, id), id)
  {
    hide Shape, Drop;
    UnlinkShape(m, id);
    forall x | x != id ensures IsActive(Unlink(m, id), x) <==> IsActive(m, x) {
    }
  }

  /** A one-shot timer that restarts itself from its timeout function runs on, and rt_timer_stop does
      nothing to it. */
  lemma {:induction false} SelfRestartCannotStop(rows: nat, now: int)
    requires rows >= 1
    ensures var m := Model([], now, 0, map[0 := Config(1, false)], rows, map[], false, 0, {});
            var m1 := Start(m, 0).(now := now + 1, checking := true);
            && Inv(m) && Startable(m1) && FirstIsDue(m1) && FlagsAgree(m1) && MayFire(m1, [StartCall(0)], 1)
            && var m2 := Fire(m1, [StartCall(0)]);
            IsActive(m2, 0) && Stop(m2, 0) == m2
  {
    hide Height;
    var m := Model([], now, 0, map[0 := Config(1, false)], rows, map[], false, 0, {});
    StartShape(m, 0);
    var m1 := Start(m, 0).(now := now + 1, checking := true);
    assert m1.active == [Started(m, 0)];
    assert Kept(Start(m, 0), Started(m, 0));
    var m0 := Unlink(m1, 0);
    assert [StartCall(0)][1..] == [];
    assert Calls(m0, [StartCall(0)]) == Calls(Start(m0, 0), []);
    assert Started(m0, 0) in Start(m0, 0).active;
  }
}
