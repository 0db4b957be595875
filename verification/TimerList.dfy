/** The hard-timer skip list of src/timer.c: rows of linked timers, 32-bit timeout
    ticks and the insertion search, proved against TimerModel, TimerCheck and TimerRuns. */
module TimerList {
  import opened Sequences
  import opened Ticks
  import opened TimerModel
  import opened TimerCheck
  import opened TimerRuns

  datatype Timer = Timer(timeoutTick: int, init: nat, periodic: bool, activated: bool)

  /** The commands of rt_timer_control. */
  datatype Command = GetTime | SetTime(init: nat) | SetOneShot | SetPeriodic

  function Configured(c: Config, cmd: Command): Config {
    match cmd
    case GetTime => c
    case SetTime(init) => c.(init := init)
    case SetOneShot => c.(periodic := false)
    case SetPeriodic => c.(periodic := true)
  }

  function Ids(s: seq<Entry>): (r: seq<TimerId>)
    ensures |r| == |s| && forall i :: 0 <= i < |s| ==> r[i] == s[i].id
  {
    seq(|s|, i requires 0 <= i < |s| => s[i].id)
  }

  /** rt_list_remove; an unlinked node is its own ring, so nothing happens. */
  function Unlinked(row: seq<TimerId>, x: TimerId): (r: seq<TimerId>) {
    if row == [] then [] else if row[0] == x then Unlinked(row[1..], x) else [row[0]] + Unlinked(row[1..], x)
  }

  lemma IdsCons(e: Entry, s: seq<Entry>)
    ensures Ids([e] + s) == [e.id] + Ids(s)
  {
  }

  lemma {:induction false} IdsDrop(s: seq<Entry>, id: TimerId)
    ensures Ids(Drop(s, id)) == Unlinked(Ids(s), id)
  {
    hide Ids;
    if s != [] {
      IdsDrop(s[1..], id);
      assert s == [s[0]] + s[1..];
      IdsCons(s[0], s[1..]);
      assert Ids(s)[1..] == Ids(s[1..]);
      IdsCons(s[0], Drop(s[1..], id));
    }
  }

  lemma {:induction false} IdsInsert(s: seq<Entry>, e: Entry)
    ensures Ids(Insert(s, e)) == Splice(Ids(s), Rank(s, e.Deadline()), e.id)
  {
    InsertIsSplice(s, e);
  }

  /** Row `l` of a list of active timers in a skip list of `levels` rows. */
  ghost function RowOf(active: seq<Entry>, levels: nat, l: nat): seq<TimerId> {
    Ids(Tall(active, levels - l))
  }

  /** Linking the new timer at the ranks found, in as many rows as its height, is the
      stable insertion seen by every row. */
  lemma {:induction false} RowAfterInsert(s: seq<Entry>, e: Entry, levels: nat, l: nat, head: nat)
    requires Sorted(s) && l < levels && head == Rank(Tall(s, levels - l), e.Deadline())
    ensures RowOf(Insert(s, e), levels, l) ==
            if levels - l <= e.height then Splice(RowOf(s, levels, l), head, e.id) else RowOf(s, levels, l)
  {
    TallInsert(s, e, levels - l);
    IdsInsert(Tall(s, levels - l), e);
  }

  lemma {:induction false} RowAfterDrop(s: seq<Entry>, id: TimerId, levels: nat, l: nat)
    ensures RowOf(Drop(s, id), levels, l) == Unlinked(RowOf(s, levels, l), id)
  {
    TallDrop(s, id, levels - l);
    IdsDrop(Tall(s, levels - l), id);
  }

  /** A timer of one row is linked in the row below, no further than the place to be
      found there. */
  lemma {:induction false} SameTimerBelow(s: seq<Entry>, levels: nat, l: nat, pos: nat, deadline: int)
    requires Sorted(s) && DistinctIds(s) && l + 1 < levels
    requires 0 < pos <= Rank(Tall(s, levels - l), deadline)
    ensures RowOf(s, levels, l)[pos - 1] in RowOf(s, levels, l + 1)
    ensures IndexOf(RowOf(s, levels, l + 1), RowOf(s, levels, l)[pos - 1])
            < Rank(Tall(s, levels - l - 1), deadline)
  {
    hide Tall, Rank, Sorted, Insert;
    var upper, lower := Tall(s, levels - l), Tall(s, levels - l - 1);
    var x := upper[pos - 1];
    RankSplits(upper, deadline);
    TallMembers(s, levels - l);
    TallMembers(s, levels - l - 1);
    assert x in upper && x in lower;
    TallDistinct(s, levels - l - 1);
    TallSorted(s, levels - l - 1);
    var j := IndexOfId(lower, x);
    RankCovers(lower, j, deadline);
  }

  lemma {:induction false} IndexOfId(s: seq<Entry>, x: Entry) returns (j: nat)
    requires DistinctIds(s) && x in s
    ensures x.id in Ids(s) && j == IndexOf(Ids(s), x.id) && j < |s| && s[j] == x
  {
    hide IndexOf;
    var i :| 0 <= i < |s| && s[i] == x;
    assert Ids(s)[i] == x.id;
    j := IndexOf(Ids(s), x.id);
    assert s[j].id == s[i].id;
  }

  /** In every row, the number of timers that stay before deadline `d`. */
  ghost predicate PlacesOf(heads: seq<nat>, s: seq<Entry>, levels: nat, d: int) {
    |heads| == levels && forall l :: 0 <= l < levels ==> heads[l] == Rank(Tall(s, levels - l), d)
  }

  /** Timer `id` linked into the lowest `height` rows, behind `heads`. */
  ghost predicate LinkedInto(before: seq<seq<TimerId>>, after: seq<seq<TimerId>>, heads: seq<nat>,
                             id: TimerId, height: nat) {
    && |before| == |after| == |heads|
    && (forall l :: 0 <= l < |heads| ==> heads[l] <= |before[l]|)
    && (forall l :: 0 <= l < |heads| ==>
                      after[l] == if |heads| - l <= height then Splice(before[l], heads[l], id) else before[l])
  }

  lemma {:induction false} RowsAfterInsert(s: seq<Entry>, e: Entry, before: seq<seq<TimerId>>, heads: seq<nat>,
                                           after: seq<seq<TimerId>>)
    requires Sorted(s) && RowsOk(before, s, |heads|)
    requires PlacesOf(heads, s, |heads|, e.Deadline()) && LinkedInto(before, after, heads, e.id, e.height)
    ensures RowsOk(after, Insert(s, e), |heads|)
  {
    forall l | 0 <= l < |heads| ensures after[l] == RowOf(Insert(s, e), |heads|, l) {
      RowAfterInsert(s, e, |heads|, l, heads[l]);
    }
  }

  ghost function AllPlaces(s: seq<Entry>, levels: nat, d: int): seq<nat> {
    seq(levels, l requires 0 <= l < levels => Rank(Tall(s, levels - l), d))
  }

  lemma {:induction false} AllPlacesAre(s: seq<Entry>, levels: nat, d: int)
    ensures PlacesOf(AllPlaces(s, levels, d), s, levels, d)
  {
    hide Rank, Tall;
  }

  lemma PlacesFit(s: seq<Entry>, rows: seq<seq<TimerId>>, heads: seq<nat>, d: int)
    requires RowsOk(rows, s, |heads|) && PlacesOf(heads, s, |heads|, d)
    ensures forall l :: 0 <= l < |heads| ==> heads[l] <= |rows[l]|
  {
  }

  /** The rows are the active timers filtered by height. */
  ghost predicate RowsOk(rows: seq<seq<TimerId>>, active: seq<Entry>, levels: nat) {
    |rows| == levels && forall l :: 0 <= l < levels ==> rows[l] == RowOf(active, levels, l)
  }

  /** The timers' own fields are the configured ones, with the wrapped deadlines and the marks. */
  ghost predicate FieldsOk(timers: map<TimerId, Timer>, m: Model) {
    && timers.Keys == m.timers.Keys && m.flags <= timers.Keys
    && (forall id :: id in timers ==> FieldOk(timers[id], m, id))
    && (forall id :: id in m.armed ==> id in timers && timers[id].timeoutTick == Wrap(m.armed[id].Deadline()))
  }

  ghost predicate FieldOk(t: Timer, m: Model, id: TimerId) {
    id in m.timers && m.timers[id] == Config(t.init, t.periodic) && (t.activated <==> id in m.flags)
  }

  /** Setting a timer, even an active one, keeps the shape. */
  lemma {:induction false} SetShape(m: Model, id: TimerId, config: Config)
    requires Shape(m)
    ensures Shape(m.(timers := m.timers[id := config]))
  {
    hide Sorted, DistinctIds;
    var m' := m.(timers := m.timers[id := config]);
    forall e | e in m'.active ensures Kept(m', e) {
      assert Kept(m, e);
    }
  }

  lemma {:induction false} FieldsAfterSet(timers: map<TimerId, Timer>, m: Model, id: TimerId, t: Timer)
    requires FieldsOk(timers, m) && (t.activated <==> id in m.flags)
    requires id in timers ==> t.timeoutTick == timers[id].timeoutTick
    ensures FieldsOk(timers[id := t], m.(timers := m.timers[id := Config(t.init, t.periodic)]))
  {
    var timers', m' := timers[id := t], m.(timers := m.timers[id := Config(t.init, t.periodic)]);
    forall x | x in timers' ensures FieldOk(timers'[x], m', x) {
      assert x != id ==> FieldOk(timers[x], m, x);
    }
  }

  lemma {:induction false} FieldsAfterFlag(timers: map<TimerId, Timer>, m: Model, id: TimerId, on: bool)
    requires FieldsOk(timers, m) && id in timers
    ensures FieldsOk(timers[id := timers[id].(activated := on)],
                     m.(flags := if on then m.flags + {id} else m.flags - {id}))
  {
    var timers' := timers[id := timers[id].(activated := on)];
    var m' := m.(flags := if on then m.flags + {id} else m.flags - {id});
    forall x | x in timers' ensures FieldOk(timers'[x], m', x) {
      assert FieldOk(timers[x], m, x);
    }
  }

  lemma {:induction false} FieldsAfterArm(timers: map<TimerId, Timer>, m: Model, id: TimerId, t: Timer)
    requires FieldsOk(timers, m) && id in timers && id in m.timers
    requires t == timers[id].(timeoutTick := Wrap(m.now + timers[id].init))
    ensures FieldsOk(timers[id := t], TimerModel.Arm(m, id))
  {
    forall x | x in timers ensures FieldOk(timers[id := t][x], TimerModel.Arm(m, id), x) {
      assert FieldOk(timers[x], m, x);
    }
  }

  /** The fields do not depend on the active list, the clock and the counters. */
  lemma {:induction false} FieldsSame(timers: map<TimerId, Timer>, m: Model, m': Model)
    requires FieldsOk(timers, m) && m'.timers == m.timers && m'.armed == m.armed && m'.flags == m.flags
    ensures FieldsOk(timers, m')
  {
    forall x | x in timers ensures FieldOk(timers[x], m', x) {
      assert FieldOk(timers[x], m, x);
    }
  }

  lemma StartUnflagged(m: Model, id: TimerId)
    requires id in m.timers
    ensures TimerModel.Start(Unflag(m, id), id) == TimerModel.Start(m, id)
  {
    assert m.flags - {id} - {id} == m.flags - {id};
  }

  /** One round less to go. */
  lemma {:induction false} CheckUnfolds(m: Model, script: seq<seq<Call>>)
    requires Inv(m) && m.checking && Startable(m) && MayCheck(m, script, 0)
    ensures !FirstIsDue(m) ==> TimerCheck.Check(m, script).0 == m && Ids(TimerCheck.Check(m, script).1) == []
    ensures FirstIsDue(m) ==>
              var m1, rest := Fire(m, Here(script)), Later(script);
              && MayFire(m, Here(script), 0) && Inv(m1) && m1.checking && Startable(m1) && MayCheck(m1, rest, 0)
              && (|rest| < |script| || (|rest| == |script| && Rank(m1.active, m1.now) < Rank(m.active, m.now)))
              && TimerCheck.Check(m, script).0 == TimerCheck.Check(m1, rest).0
              && Ids(TimerCheck.Check(m, script).1) == [m.active[0].id] + Ids(TimerCheck.Check(m1, rest).1)
  {
    hide Inv, Fire, Startable, MayCheck, MayFire, Stuck, Rank;
    if FirstIsDue(m) {
      NextRound(m, script, 0);
      NoneStuck(m);
      FireRankQuiet(m, script);
      FireKeeps(m, Here(script), 0);
      IdsCons(m.active[0], TimerCheck.Check(Fire(m, Here(script)), Later(script)).1);
    }
  }

  class HardTimers {
    const levels: nat
    ghost const late: nat
    var rows: seq<seq<TimerId>>
    var timers: map<TimerId, Timer>
    var randomNr: int
    var tick: int
    ghost var model: Model

    ghost predicate Valid()
      reads this
    {
      && levels >= 1 && model.rows == levels && model.late == late
      && Shape(model)
      && tick == Wrap(model.now) && randomNr == Wrap(model.starts)
      && FieldsOk(timers, model)
      && RowsOk(rows, model.active, levels)
    }

    constructor (levels: nat, ghost late: nat)
      requires levels >= 1 && late + 1 < HALF
      ensures Valid()
      ensures model == Model([], 0, 0, map[], levels, map[], false, late, {})
    {
      this.levels := levels;
      this.late := late;
      rows := seq(levels, _ => []);
      timers := map[];
      randomNr, tick := 0, 0;
      model := Model([], 0, 0, map[], levels, map[], false, late, {});
    }

    lemma ValidFields(id: TimerId)
      requires Valid()
      ensures model.late == late && Shape(model)
      ensures (id in timers <==> id in model.timers) && (id in model.flags ==> id in timers)
      ensures id in timers ==> FieldOk(timers[id], model, id)
    {
      hide RowsOk, Shape;
    }

    /** New fields for a timer, and the same timeout and mark. */
    method Set(id: TimerId, t: Timer)
      requires Valid() && (t.activated <==> id in model.flags)
      requires id in timers ==> t.timeoutTick == timers[id].timeoutTick
      modifies this`timers, this`model
      ensures Valid() && timers == old(timers)[id := t]
      ensures model == Apply(old(model), ControlCall(id, Config(t.init, t.periodic)))
    {
      hide RowsOk, Shape, FieldsOk;
      SetShape(model, id, Config(t.init, t.periodic));
      FieldsAfterSet(timers, model, id, t);
      timers := timers[id := t];
      model := model.(timers := model.timers[id := Config(t.init, t.periodic)]);
    }

    /** _rt_timer_init */
    method Init(id: TimerId, time: nat, periodic: bool)
      requires Valid() && id !in timers
      modifies this`timers, this`model
      ensures Valid()
      ensures model == Apply(old(model), ControlCall(id, Config(time, periodic)))
    {
      hide Valid;
      ValidFields(id);
      Set(id, Timer(0, time, periodic, false));
    }

    /** rt_timer_control */
    method Control(id: TimerId, cmd: Command) returns (time: nat)
      requires Valid() && id in timers
      modifies this`timers, this`model
      ensures Valid() && timers.Keys == old(timers).Keys && time == old(timers)[id].init
      ensures model == Apply(old(model), ControlCall(id, Configured(Config(time, old(timers)[id].periodic), cmd)))
    {
      hide Valid;
      ValidFields(id);
      time := timers[id].init;
      var t := timers[id];
      match cmd {
        case GetTime =>
        case SetTime(init) => t := t.(init := init);
        case SetOneShot => t := t.(periodic := false);
        case SetPeriodic => t := t.(periodic := true);
      }
      Set(id, t);
    }

    /** The mark of a timer. */
    method Mark(id: TimerId, on: bool)
      requires Valid() && id in timers
      modifies this`timers, this`model
      ensures Valid() && timers == old(timers)[id := old(timers)[id].(activated := on)]
      ensures model == old(model).(flags := if on then old(model).flags + {id} else old(model).flags - {id})
    {
      hide RowsOk, Shape, FieldsOk;
      FieldsAfterFlag(timers, model, id, on);
      timers := timers[id := timers[id].(activated := on)];
      model := model.(flags := if on then model.flags + {id} else model.flags - {id});
      FlagsShape(old(model), model.flags);
    }

    /** _rt_timer_remove */
    method Unlink(id: TimerId)
      requires Valid()
      modifies this`rows, this`model
      ensures Valid()
      ensures model == TimerModel.Unlink(old(model), id)
    {
      hide Shape, FieldsOk, Drop, Unlinked;
      var i := 0;
      while i < levels
        invariant 0 <= i <= levels == |rows|
        invariant forall l :: 0 <= l < i ==> rows[l] == Unlinked(old(rows)[l], id)
        invariant forall l :: i <= l < levels ==> rows[l] == old(rows)[l]
        invariant model == old(model)
      {
        rows := rows[i := Unlinked(rows[i], id)];
        i := i + 1;
      }
      model := TimerModel.Unlink(model, id);
      UnlinkShape(old(model), id);
      FieldsSame(timers, old(model), model);
      forall l | 0 <= l < levels ensures rows[l] == RowOf(model.active, levels, l) {
        RowAfterDrop(old(model).active, id, levels, l);
      }
    }

    /** What the comparison of two wrapped timeouts says about a linked timer. */
    lemma {:induction false} TestsAgree(l: nat, pos: nat, deadline: int)
      requires Valid() && l < levels && pos < |rows[l]|
      requires model.now <= deadline + late < model.now + HALF
      ensures pos < |Tall(model.active, levels - l)| && rows[l][pos] in timers
      ensures TestLater(timers[rows[l][pos]].timeoutTick, Wrap(deadline))
              <==> Tall(model.active, levels - l)[pos].Deadline() > deadline
    {
      hide Tall, Sorted, DistinctIds;
      var e := Tall(model.active, levels - l)[pos];
      TallMembers(model.active, levels - l);
      assert e in Tall(model.active, levels - l) && e in model.active && Kept(model, e);
      assert rows[l][pos] == e.id;
      LaterTestExact(e.Deadline(), deadline);
    }

    /** One row of the search of rt_timer_start, from the node reached in the row above. */
    method ScanRow(l: nat, from: nat, timeout: int, ghost deadline: int) returns (pos: nat)
      requires Valid() && l < levels
      requires timeout == Wrap(deadline) && model.now <= deadline + late < model.now + HALF
      requires from <= Rank(Tall(model.active, levels - l), deadline)
      ensures pos == Rank(Tall(model.active, levels - l), deadline)
    {
      pos := from;
      RankSplits(Tall(model.active, levels - l), deadline);
      while pos != |rows[l]|
        invariant pos <= Rank(Tall(model.active, levels - l), deadline) <= |rows[l]|
        decreases |rows[l]| - pos
      {
        TestsAgree(l, pos, deadline);
        var t := timers[rows[l][pos]];
        if Sub(t.timeoutTick, timeout) == 0 {
          pos := pos + 1;
        } else if Sub(t.timeoutTick, timeout) < HALF {
          break;
        } else {
          pos := pos + 1;
        }
      }
    }

    /** The skip search of rt_timer_start finds, in every row, the place where a linear
        stable insertion would go. */
    method Search(timeout: int, ghost deadline: int) returns (heads: seq<nat>)
      requires Valid()
      requires timeout == Wrap(deadline) && model.now <= deadline + late < model.now + HALF
      ensures PlacesOf(heads, model.active, levels, deadline)
    {
      hide Rank, Tall, FieldsOk, AllPlaces;
      heads := [];
      var start: nat := 0;
      ghost var places := AllPlaces(model.active, levels, deadline);
      AllPlacesAre(model.active, levels, deadline);
      while |heads| < levels
        invariant heads <= places
        invariant |heads| < levels ==> start <= places[|heads|]
        decreases levels - |heads|
      {
        var l := |heads|;
        var pos := ScanRow(l, start, timeout, deadline);
        start := 0;
        if l != levels - 1 && pos > 0 {
          SameTimerBelow(model.active, levels, l, pos, deadline);
          start := IndexOf(rows[l + 1], rows[l][pos - 1]) + 1;
        }
        heads := heads + [pos];
      }
    }

    /** The linking part of rt_timer_start: the bottom row always, and one more row for
        each pair of zero bits of the incremented counter. */
    method LinkRows(id: TimerId, heads: seq<nat>)
      requires levels >= 1 && |rows| == |heads| == levels
      requires forall l :: 0 <= l < levels ==> heads[l] <= |rows[l]|
      requires 0 <= randomNr < TICK_RANGE
      modifies this`rows, this`randomNr
      ensures randomNr == (old(randomNr) + 1) % TICK_RANGE
      ensures LinkedInto(old(rows), rows, heads, id, Height(randomNr, levels))
    {
      hide Splice;
      randomNr := (randomNr + 1) % TICK_RANGE;
      var tst: nat := randomNr;
      rows := rows[levels - 1 := Splice(rows[levels - 1], heads[levels - 1], id)];
      var lvl := 2;
      while lvl <= levels
        invariant 2 <= lvl <= levels + 1 && |rows| == levels
        invariant randomNr == (old(randomNr) + 1) % TICK_RANGE
        invariant Height(randomNr, levels) == lvl - 2 + Height(tst, levels - lvl + 2)
        invariant forall l :: 0 <= l < levels ==>
                    rows[l] == if levels - l < lvl then Splice(old(rows)[l], heads[l], id) else old(rows)[l]
      {
        if tst % 4 != 0 {
          break;
        }
        rows := rows[levels - lvl := Splice(rows[levels - lvl], heads[levels - lvl], id)];
        tst := tst / 4;
        lvl := lvl + 1;
      }
    }

    /** The first critical section of rt_timer_start */
    method Begin(id: TimerId)
      requires Valid() && id in timers
      modifies this`rows, this`timers, this`model
      ensures Valid() && timers == old(timers)[id := old(timers)[id].(activated := false)]
      ensures model == TimerModel.Begin(old(model), id)
    {
      hide Valid, Drop;
      Unlink(id);
      Mark(id, false);
    }

    /** rt_timer_start between its critical sections: the timeout is computed from the clock. */
    method Arm(id: TimerId)
      requires Valid() && id in timers && !IsActive(model, id)
      requires timers[id].init < HALF
      modifies this`timers, this`model
      ensures Valid() && timers.Keys == old(timers).Keys
      ensures model == TimerModel.Arm(old(model), id)
    {
      hide RowsOk, Shape, FieldsOk, IsActive;
      ValidFields(id);
      var t := timers[id].(timeoutTick := (tick + timers[id].init) % TICK_RANGE);
      WrapPlus(model.now, timers[id].init);
      ArmShape(model, id);
      FieldsAfterArm(timers, model, id, t);
      timers := timers[id := t];
      model := TimerModel.Arm(model, id);
    }

    /** Linking a timer behind the places found for its deadline. */
    method Relink(id: TimerId, heads: seq<nat>)
      requires Valid() && MayLink(model, id)
      requires PlacesOf(heads, model.active, levels, model.armed[id].Deadline())
      modifies this`rows, this`randomNr, this`model
      ensures Valid()
      ensures model == TimerModel.Link(old(model), id).(flags := old(model).flags)
    {
      hide Insert, Tall, Rank, Height, Splice, FieldsOk, Sorted, DistinctIds, Kept, LinkedInto;
      ghost var s, e := model.active, Activation(model, id);
      PlacesFit(s, rows, heads, e.Deadline());
      LinkRows(id, heads);
      WrapNext(model.starts);
      LinkShape(model, id);
      FlagsShape(TimerModel.Link(model, id), model.flags);
      model := TimerModel.Link(model, id).(flags := model.flags);
      FieldsSame(timers, old(model), model);
      RowsAfterInsert(s, e, old(rows), heads, rows);
    }

    /** The second critical section of rt_timer_start, which may come some ticks later. */
    method Finish(id: TimerId)
      requires Valid() && MayLink(model, id)
      modifies this`rows, this`timers, this`randomNr, this`model
      ensures Valid() && timers.Keys == old(timers).Keys
      ensures model == TimerModel.Link(old(model), id)
    {
      hide Insert, Tall, Rank, Height, Splice, RowsOk, Sorted, DistinctIds;
      var heads := Search(timers[id].timeoutTick, model.armed[id].Deadline());
      Relink(id, heads);
      Mark(id, true);
    }

    /** rt_timer_start when no tick comes between its critical sections */
    method Start(id: TimerId)
      requires Valid() && id in timers
      requires timers[id].init + late < HALF
      modifies this`rows, this`timers, this`randomNr, this`model
      ensures Valid()
      ensures model == TimerModel.Start(old(model), id)
    {
      hide Valid, Drop, Insert, Height, Shape;
      ValidFields(id);
      UnlinkShape(model, id);
      Begin(id);
      Arm(id);
      Finish(id);
    }

    /** rt_timer_stop */
    method Stop(id: TimerId) returns (ok: bool)
      requires Valid() && id in timers
      modifies this`rows, this`timers, this`model
      ensures Valid()
      ensures ok == old(timers)[id].activated
      ensures model == TimerModel.Stop(old(model), id)
    {
      hide Valid, Drop;
      ValidFields(id);
      if !timers[id].activated {
        return false;
      }
      Begin(id);
      return true;
    }

    /** rt_timer_list_next_timeout */
    method NextTimeout() returns (t: int)
      requires Valid()
      ensures model.active == [] ==> t == TICK_MAX
      ensures forall i :: 0 <= i < |model.active| ==>
                            (model.active[i].Deadline() >= model.active[0].Deadline() && t == Wrap(model.active[0].Deadline()))
    {
      FirstOfBottomRow();
      if rows[levels - 1] == [] {
        return TICK_MAX;
      }
      t := timers[rows[levels - 1][0]].timeoutTick;
    }

    lemma FirstOfBottomRow()
      requires Valid()
      ensures rows[levels - 1] == Ids(model.active)
      ensures rows[levels - 1] != [] ==>
                && rows[levels - 1][0] in timers
                && timers[rows[levels - 1][0]].timeoutTick == Wrap(model.active[0].Deadline())
                && (TestDue(tick, timers[rows[levels - 1][0]].timeoutTick) <==> FirstIsDue(model))
    {
      assert forall e :: e in model.active ==> Kept(model, e);
      TallAll(model.active, 1);
      if rows[levels - 1] != [] {
        var e := model.active[0];
        assert e in model.active && Kept(model, e);
        DueTestExact(model.now, e.Deadline());
      }
    }

    /** Any configuration, in two commands of rt_timer_control or as a new timer. */
    method Configure(id: TimerId, config: Config)
      requires Valid()
      modifies this`timers, this`model
      ensures Valid() && model == Apply(old(model), ControlCall(id, config))
    {
      hide Valid;
      if id in timers {
        ValidFields(id);
        var _ := Control(id, SetTime(config.init));
        ValidFields(id);
        var _ := Control(id, if config.periodic then SetPeriodic else SetOneShot);
      } else {
        Init(id, config.init, config.periodic);
      }
    }

    /** A call made by a thread or by a timeout function. */
    method Perform(c: Call)
      requires Valid() && MayCall(model, c, 0)
      modifies this`rows, this`timers, this`randomNr, this`model
      ensures Valid()
      ensures model == Apply(old(model), c)
    {
      hide Valid, Shape, TimerModel.Start, IsActive, Drop;
      ValidFields(c.id);
      match c {
        case ControlCall(id, config) => Configure(id, config);
        case StopCall(id) =>
          if id in timers {
            var _ := Stop(id);
          }
        case StartCall(id) => Start(id);
      }
    }

    /** The timeout function of timer `t`. */
    method RunTimeout(t: TimerId, calls: seq<Call>)
      requires Valid() && MayCallAll(model, t, calls, 0)
      modifies this`rows, this`timers, this`randomNr, this`model
      ensures Valid() && model == Calls(old(model), calls)
    {
      hide Valid, Apply, MayCall;
      var i := 0;
      while i < |calls|
        invariant 0 <= i <= |calls| && Valid()
        invariant MayCallAll(model, t, calls[i..], 0) && Calls(model, calls[i..]) == Calls(old(model), calls)
      {
        assert calls[i..][0] == calls[i] && calls[i..][1..] == calls[i + 1..];
        Perform(calls[i]);
        i := i + 1;
      }
    }

    /** One round of the loop of rt_timer_check: the timer is removed, its timeout function runs, and
        it is restarted if it is periodic and still marked. */
    method FireFirst(t: TimerId, calls: seq<Call>)
      requires Valid() && Startable(model) && MayFire(model, calls, 0) && t == model.active[0].id
      modifies this`rows, this`timers, this`randomNr, this`model
      ensures Valid()
      ensures model == Fire(old(model), calls)
    {
      hide Valid, Shape, Calls, Drop, TimerModel.Start, Follows;
      ValidFields(t);
      CallsOfRound(model, calls, 0);
      Unlink(t);
      RunTimeout(t, calls);
      ValidFields(t);
      StartUnflagged(model, t);
      if timers[t].periodic && timers[t].activated {
        Mark(t, false);
        Start(t);
      } else {
        Mark(t, false);
      }
    }

    /** The test and the body of the loop of rt_timer_check. */
    method Round(current: int, calls: seq<Call>) returns (more: bool, fired: seq<TimerId>)
      requires Valid() && Startable(model) && current == tick
      requires FirstIsDue(model) ==> MayFire(model, calls, 0)
      modifies this`rows, this`timers, this`randomNr, this`model
      ensures Valid() && more == FirstIsDue(old(model))
      ensures !more ==> fired == [] && model == old(model)
      ensures more ==> fired == [old(model).active[0].id] && model == Fire(old(model), calls)
    {
      hide Shape, FieldsOk, Fire, MayFire;
      FirstOfBottomRow();
      if rows[levels - 1] == [] {
        return false, [];
      }
      var t := rows[levels - 1][0];
      if !TestDue(current, timers[t].timeoutTick) {
        return false, [];
      }
      FireFirst(t, calls);
      return true, [t];
    }

    /** rt_timer_check, with timeout functions that make the calls of `script` */
    method Check(script: seq<seq<Call>>) returns (fired: seq<TimerId>)
      requires Valid() && Inv(model) && model.checking && Startable(model) && MayCheck(model, script, 0)
      modifies this`rows, this`timers, this`randomNr, this`model
      ensures Valid()
      ensures model == TimerCheck.Check(old(model), script).0
      ensures fired == Ids(TimerCheck.Check(old(model), script).1)
    {
      hide Rank, Inv, Valid, Startable, Fire, MayCheck, MayFire, TimerCheck.Check, Ids, FirstIsDue, Here, Later;
      fired := [];
      var rest, more := script, true;
      ghost var goal := TimerCheck.Check(model, script);
      while more
        invariant Valid() && Inv(model) && model.checking && Startable(model) && MayCheck(model, rest, 0)
        invariant goal.0 == TimerCheck.Check(model, rest).0
        invariant Ids(goal.1) == fired + Ids(TimerCheck.Check(model, rest).1)
        invariant !more ==> !FirstIsDue(model)
        decreases more, |rest|, Rank(model.active, model.now)
      {
        CheckUnfolds(model, rest);
        var f;
        more, f := Round(tick, Here(rest));
        if more {
          fired := fired + f;
          rest := Later(rest);
        }
      }
      CheckUnfolds(model, rest);
    }

    /** rt_tick_increase, the clock and the timers */
    method TickIncrease(script: seq<seq<Call>>) returns (fired: seq<TimerId>)
      requires Valid() && Ready(model) && Legal(model, TickOp(script))
      modifies this
      ensures Valid() && Ready(model)
      ensures model == Tick(old(model), script).0 && fired == Ids(Tick(old(model), script).1)
    {
      hide Inv, RowsOk, TimerCheck.Check, MayCheck, Startable;
      TickedInv(model);
      TickKeeps(model, script);
      WrapNext(model.now);
      tick := (tick + 1) % TICK_RANGE;
      model := Ticked(model);
      InvShape(model);
      FieldsSame(timers, old(model), model);
      fired := Check(script);
      model := model.(checking := false);
      InvShape(model);
      FieldsSame(timers, TimerCheck.Check(Ticked(old(model)), script).0, model);
    }
  }
}
