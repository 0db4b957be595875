/** The scheduler of src/scheduler.c and the thread calls of src/thread.c on values: a ready
    list for each priority, 0 the most urgent. */
module SchedulerModel {
  import opened Sequences

  type Tid = nat

  datatype Stat = Init | Ready | Running | Suspended

  datatype State = State(ready: seq<seq<Tid>>, stat: map<Tid, Stat>, priority: map<Tid, nat>, current: Tid)

  // ----- invariant -----

  ghost predicate Known(s: State) {
    && s.stat.Keys == s.priority.Keys && s.current in s.stat
    && (forall t :: t in s.priority ==> s.priority[t] < |s.ready|)
  }

  /** The list of priority `p` holds ready threads of that priority, once each. */
  ghost predicate RowOk(row: seq<Tid>, p: nat, stat: map<Tid, Stat>, priority: map<Tid, nat>) {
    Distinct(row) && forall t :: t in row ==> t in stat && stat[t] == Ready && t in priority && priority[t] == p
  }

  ghost predicate RowsOk(ready: seq<seq<Tid>>, stat: map<Tid, Stat>, priority: map<Tid, nat>) {
    forall p :: 0 <= p < |ready| ==> RowOk(ready[p], p, stat, priority)
  }

  ghost predicate IsLinked(ready: seq<seq<Tid>>, priority: map<Tid, nat>, t: Tid) {
    t in priority && priority[t] < |ready| && t in ready[priority[t]]
  }

  ghost predicate Unlinked(ready: seq<seq<Tid>>, t: Tid) {
    forall p :: 0 <= p < |ready| ==> t !in ready[p]
  }

  /** A thread is ready exactly if it is linked, once, in the list of its priority. */
  ghost predicate Listed(ready: seq<seq<Tid>>, stat: map<Tid, Stat>, priority: map<Tid, nat>) {
    RowsOk(ready, stat, priority) && forall t :: t in stat && stat[t] == Ready ==> IsLinked(ready, priority, t)
  }

  /** The same of all threads but `t`, which is in no list. */
  ghost predicate ListedBut(ready: seq<seq<Tid>>, stat: map<Tid, Stat>, priority: map<Tid, nat>, t: Tid) {
    && RowsOk(ready, stat, priority) && Unlinked(ready, t)
    && forall x :: x in stat && stat[x] == Ready && x != t ==> IsLinked(ready, priority, x)
  }

  /** Only the current thread may be running. */
  ghost predicate CurrentOk(stat: map<Tid, Stat>, current: Tid) {
    && current in stat && (stat[current] == Running || stat[current] == Suspended)
    && forall t :: t in stat && stat[t] == Running ==> t == current
  }

  ghost predicate Inv(s: State) {
    Known(s) && Listed(s.ready, s.stat, s.priority) && CurrentOk(s.stat, s.current)
  }

  // ----- ready lists -----

  /** rt_schedule_insert_thread */
  ghost function Insert(s: State, t: Tid): State
    requires Known(s) && t in s.stat
  {
    if t == s.current then s.(stat := s.stat[t := Running])
    else
      var p := s.priority[t];
      s.(stat := s.stat[t := Ready], ready := s.ready[p := s.ready[p] + [t]])
  }

  function Unlink(ready: seq<seq<Tid>>, p: nat, t: Tid): seq<seq<Tid>>
    requires p < |ready|
  {
    if t in ready[p] then ready[p := Without(ready[p], t)] else ready
  }

  /** rt_schedule_remove_thread; a thread that is in no list stays so. */
  ghost function Remove(s: State, t: Tid): State
    requires Known(s) && t in s.stat
  {
    s.(ready := Unlink(s.ready, s.priority[t], t))
  }

  /** The most urgent priority with a ready thread, by a linear scan; the number of
      priorities if none. */
  function MostUrgent(ready: seq<seq<Tid>>): (p: nat)
    ensures p <= |ready| && (p < |ready| ==> ready[p] != []) && forall q :: 0 <= q < p ==> ready[q] == []
  {
    if ready == [] || ready[0] != [] then 0 else 1 + MostUrgent(ready[1..])
  }

  // ----- calls -----

  /** rt_schedule with the scheduler unlocked */
  ghost function Schedule(s: State): State
    requires Inv(s)
  {
    var p := MostUrgent(s.ready);
    if p == |s.ready| then s
    else if s.stat[s.current] == Running && s.priority[s.current] < p then s
    else
      FirstIsReady(s, p);
      Switched(s, s.ready[p][0])
  }

  /** The current thread, if it still runs, goes to the end of its list; `to` leaves its list
      and runs. */
  ghost function Switched(s: State, to: Tid): State
    requires Known(s) && to in s.stat
  {
    var s1 := s.(current := to);
    var s2 := if s.stat[s.current] == Running then Insert(s1, s.current) else s1;
    var s3 := Remove(s2, to);
    s3.(stat := s3.stat[to := Running])
  }

  /** rt_thread_suspend of a ready or the current thread; others get an error. */
  ghost function Suspend(s: State, t: Tid): State
    requires Known(s) && t in s.stat
  {
    if s.stat[t] != Ready && s.stat[t] != Running then s
    else
      var s1 := Remove(s, t);
      s1.(stat := s1.stat[t := Suspended])
  }

  /** rt_thread_resume; of a thread that is not suspended it is an error. */
  ghost function Resume(s: State, t: Tid): State
    requires Known(s) && t in s.stat
  {
    if s.stat[t] != Suspended then s else Insert(s, t)
  }

  /** RT_THREAD_CTRL_CHANGE_PRIORITY of rt_thread_control */
  ghost function ChangePriority(s: State, t: Tid, p: nat): State
    requires Known(s) && t in s.stat && p < |s.ready|
  {
    if s.stat[t] == Ready then Insert(Remove(s, t).(priority := s.priority[t := p]), t)
    else s.(priority := s.priority[t := p])
  }

  /** rt_thread_startup, before it schedules */
  ghost function Startup(s: State, t: Tid, p: nat): State
    requires Known(s) && t in s.stat && p < |s.ready|
  {
    Resume(s.(priority := s.priority[t := p], stat := s.stat[t := Suspended]), t)
  }

  // ----- each call keeps the invariant -----

  lemma {:induction false} AppendMembers(s: seq<Tid>, t: Tid)
    ensures forall x :: x in s + [t] <==> x == t || x in s
    ensures Distinct(s) && t !in s ==> Distinct(s + [t])
  {
    SpliceMembers(s, |s|, t);
    assert s + [t] == Splice(s, |s|, t);
  }

  lemma {:induction false} TakeOut(ready: seq<seq<Tid>>, stat: map<Tid, Stat>, priority: map<Tid, nat>, t: Tid)
    requires Listed(ready, stat, priority) && t in priority && priority[t] < |ready|
    ensures ListedBut(Unlink(ready, priority[t], t), stat, priority, t)
  {
    var p := priority[t];
    var ready' := Unlink(ready, p, t);
    assert RowOk(ready[p], p, stat, priority);
    if t in ready[p] {
      WithoutMembers(ready[p], t);
    }
    forall q | 0 <= q < |ready'| ensures RowOk(ready'[q], q, stat, priority) && t !in ready'[q] {
      assert RowOk(ready[q], q, stat, priority);
    }
    forall x | x in stat && stat[x] == Ready && x != t ensures IsLinked(ready', priority, x) {
      assert IsLinked(ready, priority, x);
    }
  }

  lemma {:induction false} AlreadyOut(ready: seq<seq<Tid>>, stat: map<Tid, Stat>, priority: map<Tid, nat>, t: Tid)
    requires Listed(ready, stat, priority) && t in stat && stat[t] != Ready
    ensures ListedBut(ready, stat, priority, t)
  {
    forall q | 0 <= q < |ready| ensures t !in ready[q] {
      assert RowOk(ready[q], q, stat, priority);
    }
  }

  /** The fields of a thread that is in no list do not matter to the lists. */
  lemma {:induction false} OutFrame(ready: seq<seq<Tid>>, stat: map<Tid, Stat>, priority: map<Tid, nat>, t: Tid, x: Stat, p: nat)
    requires ListedBut(ready, stat, priority, t)
    ensures ListedBut(ready, stat[t := x], priority[t := p], t)
  {
    forall q | 0 <= q < |ready| ensures RowOk(ready[q], q, stat[t := x], priority[t := p]) {
      assert RowOk(ready[q], q, stat, priority);
    }
    forall y | y in stat && stat[y] == Ready && y != t ensures IsLinked(ready, priority[t := p], y) {
      assert IsLinked(ready, priority, y);
    }
  }

  lemma {:induction false} PutIn(ready: seq<seq<Tid>>, stat: map<Tid, Stat>, priority: map<Tid, nat>, t: Tid)
    requires ListedBut(ready, stat, priority, t) && t in priority && priority[t] < |ready|
    ensures var p := priority[t]; Listed(ready[p := ready[p] + [t]], stat[t := Ready], priority)
  {
    var p := priority[t];
    var ready', stat' := ready[p := ready[p] + [t]], stat[t := Ready];
    AppendMembers(ready[p], t);
    forall q | 0 <= q < |ready'| ensures RowOk(ready'[q], q, stat', priority) {
      assert RowOk(ready[q], q, stat, priority);
    }
    forall x | x in stat' && stat'[x] == Ready ensures IsLinked(ready', priority, x) {
      assert x != t ==> IsLinked(ready, priority, x);
    }
  }

  lemma {:induction false} StayOut(ready: seq<seq<Tid>>, stat: map<Tid, Stat>, priority: map<Tid, nat>, t: Tid)
    requires ListedBut(ready, stat, priority, t) && (t in stat ==> stat[t] != Ready)
    ensures Listed(ready, stat, priority)
  {
  }

  lemma {:induction false} SuspendKeepsInv(s: State, t: Tid)
    requires Inv(s) && t in s.stat
    ensures Inv(Suspend(s, t))
  {
    hide Listed, ListedBut, Unlink;
    if s.stat[t] == Ready || s.stat[t] == Running {
      var ready := Unlink(s.ready, s.priority[t], t);
      TakeOut(s.ready, s.stat, s.priority, t);
      UnlinkLength(s.ready, s.priority[t], t);
      OutFrame(ready, s.stat, s.priority, t, Suspended, s.priority[t]);
      assert s.priority[t := s.priority[t]] == s.priority;
      StayOut(ready, s.stat[t := Suspended], s.priority, t);
    }
  }

  lemma UnlinkLength(ready: seq<seq<Tid>>, p: nat, t: Tid)
    requires p < |ready|
    ensures |Unlink(ready, p, t)| == |ready|
  {
  }

  lemma {:induction false} ResumeKeepsInv(s: State, t: Tid)
    requires Inv(s) && t in s.stat
    ensures Inv(Resume(s, t))
  {
    hide Listed, ListedBut;
    if s.stat[t] == Suspended {
      AlreadyOut(s.ready, s.stat, s.priority, t);
      if t == s.current {
        OutFrame(s.ready, s.stat, s.priority, t, Running, s.priority[t]);
        assert s.priority[t := s.priority[t]] == s.priority;
        StayOut(s.ready, s.stat[t := Running], s.priority, t);
      } else {
        PutIn(s.ready, s.stat, s.priority, t);
      }
    }
  }

  lemma {:induction false} StartupKeepsInv(s: State, t: Tid, p: nat)
    requires Inv(s) && t in s.stat && s.stat[t] == Init && p < |s.ready|
    ensures Inv(Startup(s, t, p))
  {
    hide Listed, ListedBut;
    AlreadyOut(s.ready, s.stat, s.priority, t);
    OutFrame(s.ready, s.stat, s.priority, t, Suspended, p);
    StayOut(s.ready, s.stat[t := Suspended], s.priority[t := p], t);
    ResumeKeepsInv(s.(priority := s.priority[t := p], stat := s.stat[t := Suspended]), t);
  }

  lemma {:induction false} ChangePriorityKeepsInv(s: State, t: Tid, p: nat)
    requires Inv(s) && t in s.stat && p < |s.ready|
    ensures Inv(ChangePriority(s, t, p))
  {
    hide Listed, ListedBut, Unlink;
    if s.stat[t] == Ready {
      var ready := Unlink(s.ready, s.priority[t], t);
      TakeOut(s.ready, s.stat, s.priority, t);
      UnlinkLength(s.ready, s.priority[t], t);
      OutFrame(ready, s.stat, s.priority, t, Ready, p);
      assert s.stat[t := Ready] == s.stat;
      PutIn(ready, s.stat, s.priority[t := p], t);
    } else {
      AlreadyOut(s.ready, s.stat, s.priority, t);
      OutFrame(s.ready, s.stat, s.priority, t, s.stat[t], p);
      assert s.stat[t := s.stat[t]] == s.stat;
      StayOut(s.ready, s.stat, s.priority[t := p], t);
    }
  }

  /** The switch to the first thread of list `p`. */
  lemma {:induction false} SwitchKeepsInv(s: State, p: nat)
    requires Inv(s) && p < |s.ready| && s.ready[p] != []
    ensures var to := s.ready[p][0];
            && to in s.stat && s.stat[to] == Ready && s.priority[to] == p && to != s.current
            && Inv(Switched(s, to))
  {
    hide Listed, ListedBut, Unlink;
    var to, from := s.ready[p][0], s.current;
    FirstIsReady(s, p);
    AlreadyOut(s.ready, s.stat, s.priority, from);
    var s1 := if s.stat[from] == Running then Insert(s.(current := to), from) else s.(current := to);
    if s.stat[from] == Running {
      PutIn(s.ready, s.stat, s.priority, from);
    }
    TakeOut(s1.ready, s1.stat, s1.priority, to);
    UnlinkLength(s1.ready, p, to);
    var ready := Unlink(s1.ready, p, to);
    OutFrame(ready, s1.stat, s1.priority, to, Running, p);
    assert s1.priority[to := p] == s1.priority;
    StayOut(ready, s1.stat[to := Running], s1.priority, to);
  }

  lemma {:induction false} FirstIsReady(s: State, p: nat)
    requires Inv(s) && p < |s.ready| && s.ready[p] != []
    ensures var to := s.ready[p][0]; to in s.stat && s.stat[to] == Ready && s.priority[to] == p && to != s.current
  {
    assert RowOk(s.ready[p], p, s.stat, s.priority);
    assert s.ready[p][0] in s.ready[p];
  }

  lemma {:induction false} ScheduleKeepsInv(s: State)
    requires Inv(s)
    ensures Inv(Schedule(s))
  {
    hide Inv, MostUrgent, Switched;
    var p := MostUrgent(s.ready);
    if p < |s.ready| {
      SwitchKeepsInv(s, p);
    }
  }

  // ----- what rt_schedule achieves -----

  /** With some thread ready, the current thread runs afterwards, is the only one to run, is in
      no ready list, and no ready thread is strictly more urgent. */
  lemma {:induction false} ScheduleRunsMostUrgent(s: State)
    requires Inv(s) && exists p :: 0 <= p < |s.ready| && s.ready[p] != []
    ensures var s' := Schedule(s);
            && Inv(s') && s'.stat[s'.current] == Running
            && (forall t :: t in s'.stat && s'.stat[t] == Running ==> t == s'.current)
            && Unlinked(s'.ready, s'.current)
            && (forall q :: 0 <= q < s'.priority[s'.current] ==> s'.ready[q] == [])
  {
    hide Listed, ListedBut, MostUrgent;
    ScheduleKeepsInv(s);
    var p, s' := MostUrgent(s.ready), Schedule(s);
    if !(s.stat[s.current] == Running && s.priority[s.current] < p) {
      FirstIsReady(s, p);
      NoneMoreUrgent(s, p);
    }
    OnlyOneOut(s');
  }

  lemma OnlyOneOut(s: State)
    requires Inv(s) && s.stat[s.current] == Running
    ensures Unlinked(s.ready, s.current)
  {
    AlreadyOut(s.ready, s.stat, s.priority, s.current);
  }

  lemma {:induction false} NoneMoreUrgent(s: State, p: nat)
    requires Known(s) && p < |s.ready| && s.ready[p] != [] && s.ready[p][0] in s.stat && s.priority[s.ready[p][0]] == p
    requires forall q :: 0 <= q < p ==> s.ready[q] == []
    requires s.stat[s.current] == Running ==> s.priority[s.current] >= p
    ensures var s' := Switched(s, s.ready[p][0]);
            |s'.ready| == |s.ready| && s'.priority == s.priority && forall q :: 0 <= q < p ==> s'.ready[q] == []
  {
  }

  /** The list `row` without `t`. */
  function Off(row: seq<Tid>, t: Tid): seq<Tid> {
    if t in row then Without(row, t) else row
  }

  /** Unless the current thread runs and is more urgent than every ready thread, the first thread of
      the most urgent list runs; a current thread that still ran goes last in its own list. */
  lemma {:induction false} ScheduleTakesFirst(s: State, p: nat)
    requires Inv(s) && p < |s.ready| && s.ready[p] != [] && forall q :: 0 <= q < p ==> s.ready[q] == []
    ensures var s', c, run := Schedule(s), s.current, s.stat[s.current] == Running;
            if run && s.priority[c] < p then s' == s
            else
              && s'.current == s.ready[p][0] && s'.priority == s.priority && |s'.ready| == |s.ready|
              && s'.stat == (if run then s.stat[c := Ready] else s.stat)[s'.current := Running]
              && forall q :: 0 <= q < |s.ready| ==>
                   s'.ready[q] == (if q == p then s.ready[q][1..] else s.ready[q]) + (if run && q == s.priority[c] then [c] else [])
  {
    hide Listed, MostUrgent;
    FirstIsReady(s, p);
    FirstTaken(s, p);
  }

  lemma {:induction false} FirstTaken(s: State, p: nat)
    requires Known(s) && p < |s.ready| && s.ready[p] != []
    requires s.ready[p][0] in s.stat && s.priority[s.ready[p][0]] == p && s.ready[p][0] != s.current
    ensures var to, c, run := s.ready[p][0], s.current, s.stat[s.current] == Running; var s' := Switched(s, to);
            && s'.current == to && s'.priority == s.priority && |s'.ready| == |s.ready|
            && s'.stat == (if run then s.stat[c := Ready] else s.stat)[to := Running]
            && forall q :: 0 <= q < |s.ready| ==>
                 s'.ready[q] == (if q == p then s.ready[q][1..] else s.ready[q]) + (if run && q == s.priority[c] then [c] else [])
  {
    var to, c := s.ready[p][0], s.current;
    var row := if s.stat[c] == Running && s.priority[c] == p then s.ready[p] + [c] else s.ready[p];
    assert row[0] == to && IndexOf(row, to) == 0;
    assert Without(row, to) == row[1..];
  }

  // ----- round robin -----

  /** The current thread runs with ready threads of its own priority and none more urgent. */
  ghost predicate Sharing(s: State) {
    && Inv(s) && s.stat[s.current] == Running && MostUrgent(s.ready) == s.priority[s.current]
  }

  /** The threads that share the processor, in the order of their turns. */
  ghost function Sharers(s: State): (r: seq<Tid>)
    requires Inv(s)
    ensures |r| >= 1 && r[0] == s.current
  {
    [s.current] + s.ready[s.priority[s.current]]
  }

  function Rotated<T>(r: seq<T>, k: nat): seq<T>
    requires k <= |r|
  {
    r[k..] + r[..k]
  }

  /** `s'` is `s` with the turns moved on by `k`; nothing else differs. */
  ghost predicate TurnsOn(s: State, k: nat, s': State) {
    && Sharing(s) && Sharing(s') && k <= |Sharers(s)|
    && Sharers(s') == Rotated(Sharers(s), k) && s'.priority == s.priority
    && s'.priority[s'.current] == s.priority[s.current] && |s'.ready| == |s.ready|
    && (forall q :: 0 <= q < |s.ready| && q != s.priority[s.current] ==> s'.ready[q] == s.ready[q])
    && s'.stat == s.stat[s.current := Ready][s'.current := Running]
  }

  /** One call gives the next sharer its turn and puts the current one last. */
  lemma {:induction false} ScheduleRotates(s: State)
    requires Sharing(s)
    ensures TurnsOn(s, 1, Schedule(s)) && s.stat[Schedule(s).current] == Ready
  {
    hide Listed, MostUrgent, Switched, CurrentOk;
    var p := s.priority[s.current];
    FirstIsReady(s, p);
    ScheduleKeepsInv(s);
    SwitchedRow(s, p);
    MostUrgentSame(s.ready, Schedule(s).ready, p);
  }

  lemma {:induction false} SwitchedRow(s: State, p: nat)
    requires Known(s) && s.stat[s.current] == Running && s.priority[s.current] == p && s.ready[p] != []
    requires s.ready[p][0] in s.stat && s.priority[s.ready[p][0]] == p && s.ready[p][0] != s.current
    ensures var to := s.ready[p][0]; var s' := Switched(s, to);
            && s'.ready == s.ready[p := s.ready[p][1..] + [s.current]] && s'.priority == s.priority
            && s'.current == to && s'.stat == s.stat[s.current := Ready][to := Running]
  {
    var to, l := s.ready[p][0], s.ready[p] + [s.current];
    assert l[0] == to && IndexOf(l, to) == 0;
    assert Without(l, to) == s.ready[p][1..] + [s.current];
  }

  lemma {:induction false} MostUrgentSame(ready: seq<seq<Tid>>, ready': seq<seq<Tid>>, p: nat)
    requires p < |ready| == |ready'| && MostUrgent(ready) == p && ready'[p] != []
    requires forall q :: 0 <= q < p ==> ready'[q] == ready[q]
    ensures MostUrgent(ready') == p
  {
    hide MostUrgent;
    var m, m' := MostUrgent(ready), MostUrgent(ready');
    assert forall q :: 0 <= q < p ==> ready'[q] == [];
  }

  ghost function ScheduleTimes(s: State, k: nat): State
    requires Inv(s)
    decreases k
  {
    if k == 0 then s
    else
      ScheduleKeepsInv(s);
      ScheduleTimes(Schedule(s), k - 1)
  }

  /** After `k` calls, up to the number of sharers, the turns have moved on by `k`. */
  lemma {:induction false} RoundRobin(s: State, k: nat)
    requires Sharing(s) && k <= |Sharers(s)|
    ensures TurnsOn(s, k, ScheduleTimes(s, k))
    decreases k
  {
    hide MostUrgent, Listed, Schedule;
    if k > 0 {
      ScheduleRotates(s);
      ScheduleKeepsInv(s);
      var s1 := Schedule(s);
      assert |Sharers(s1)| == |Sharers(s)|;
      RoundRobin(s1, k - 1);
      TurnsAdd(s, s1, ScheduleTimes(s1, k - 1), k);
    } else {
      assert Rotated(Sharers(s), 0) == Sharers(s);
    }
  }

  lemma {:induction false} TurnsAdd(s: State, s1: State, s2: State, k: nat)
    requires TurnsOn(s, 1, s1) && s.stat[s1.current] == Ready && 0 < k <= |Sharers(s)| && TurnsOn(s1, k - 1, s2)
    ensures TurnsOn(s, k, s2)
  {
    hide MostUrgent, Listed;
    RotatedOnce(Sharers(s), k);
    assert s1.stat[s1.current := Ready] == s.stat[s.current := Ready];
  }

  lemma {:induction false} RotatedOnce<T>(r: seq<T>, k: nat)
    requires 0 < k <= |r|
    ensures k - 1 <= |Rotated(r, 1)| && Rotated(Rotated(r, 1), k - 1) == Rotated(r, k)
  {
  }

  /** As many calls as there are sharers give each one turn and restore the state. */
  lemma {:induction false} RoundRobinRestores(s: State)
    requires Sharing(s)
    ensures ScheduleTimes(s, |Sharers(s)|) == s
    ensures forall k :: 0 <= k < |Sharers(s)| ==> ScheduleTimes(s, k).current == Sharers(s)[k]
  {
    hide MostUrgent, Listed, ScheduleTimes;
    var n, p := |Sharers(s)|, s.priority[s.current];
    RoundRobin(s, n);
    var s' := ScheduleTimes(s, n);
    assert Rotated(Sharers(s), n) == Sharers(s);
    assert s'.ready[p] == Sharers(s')[1..] && s.ready[p] == Sharers(s)[1..];
    assert s'.ready == s.ready;
    forall k | 0 <= k < n ensures ScheduleTimes(s, k).current == Sharers(s)[k] {
      RoundRobin(s, k);
      assert Rotated(Sharers(s), k)[0] == Sharers(s)[k];
    }
  }

  // ----- runs -----

  datatype Op =
    | SuspendOp(t: Tid)
    | ResumeOp(t: Tid)
    | StartupOp(t: Tid, p: nat)
    | ChangeOp(t: Tid, p: nat)
    | ScheduleOp

  /** Known threads, priorities in range, and only initialised threads started. */
  ghost predicate Legal(s: State, op: Op) {
    match op
    case SuspendOp(t) => t in s.stat
    case ResumeOp(t) => t in s.stat
    case StartupOp(t, p) => t in s.stat && s.stat[t] == Init && p < |s.ready|
    case ChangeOp(t, p) => t in s.stat && p < |s.ready|
    case ScheduleOp => true
  }

  ghost function Step(s: State, op: Op): State
    requires Inv(s) && Legal(s, op)
  {
    match op
    case SuspendOp(t) => Suspend(s, t)
    case ResumeOp(t) => Resume(s, t)
    case StartupOp(t, p) => Startup(s, t, p)
    case ChangeOp(t, p) => ChangePriority(s, t, p)
    case ScheduleOp => Schedule(s)
  }

  lemma {:induction false} StepKeepsInv(s: State, op: Op)
    requires Inv(s) && Legal(s, op)
    ensures Inv(Step(s, op))
  {
    hide Suspend, Resume, Startup, ChangePriority, Schedule;
    match op
    case SuspendOp(t) => SuspendKeepsInv(s, t);
    case ResumeOp(t) => ResumeKeepsInv(s, t);
    case StartupOp(t, p) => StartupKeepsInv(s, t, p);
    case ChangeOp(t, p) => ChangePriorityKeepsInv(s, t, p);
    case ScheduleOp => ScheduleKeepsInv(s);
  }

  ghost predicate Follows(s: State, op: Op, s': State) {
    Inv(s) ==> Legal(s, op) && s' == Step(s, op)
  }

  ghost predicate IsRun(states: seq<State>, ops: seq<Op>) {
    |states| == |ops| + 1 && forall i :: 0 <= i < |ops| ==> Follows(states[i], ops[i], states[i + 1])
  }

  ghost predicate SomeReady(s: State) {
    exists p :: 0 <= p < |s.ready| && s.ready[p] != []
  }

  ghost predicate MostUrgentRuns(s: State) {
    && s.current in s.stat && s.current in s.priority && s.stat[s.current] == Running
    && forall q :: 0 <= q < |s.ready| && s.ready[q] != [] ==> s.priority[s.current] <= q
  }

  /** In every state of every run a thread is ready exactly if it is linked, once, in the list of
      its current priority; and after every scheduling call of the run with a thread ready the
      most urgent thread runs. */
  lemma {:induction false} RunKeepsInv(states: seq<State>, ops: seq<Op>, n: nat)
    requires IsRun(states, ops) && Inv(states[0]) && n <= |ops|
    ensures Inv(states[n])
    ensures n > 0 && ops[n - 1] == ScheduleOp && SomeReady(states[n - 1]) ==> MostUrgentRuns(states[n])
    decreases n
  {
    hide Inv, Legal, Schedule, MostUrgent, Suspend, Resume, Startup, ChangePriority, MostUrgentRuns, SomeReady;
    if n > 0 {
      RunKeepsInv(states, ops, n - 1);
      var s, op := states[n - 1], ops[n - 1];
      assert Follows(s, op, states[n - 1 + 1]);
      StepKeepsInv(s, op);
      if op == ScheduleOp && SomeReady(s) {
        UrgentAfterSchedule(s);
      }
    }
  }

  lemma {:induction false} UrgentAfterSchedule(s: State)
    requires Inv(s) && SomeReady(s)
    ensures MostUrgentRuns(Schedule(s))
  {
    hide Schedule, MostUrgent, Listed;
    ScheduleRunsMostUrgent(s);
  }

  // ----- threads told from the calls -----

  /** A thread not started yet, one that may run, and one suspended. */
  datatype Life = Unborn | Awake | Asleep

  function LifeOf(stat: Stat): Life {
    match stat
    case Init => Unborn
    case Ready => Awake
    case Running => Awake
    case Suspended => Asleep
  }

  /** What a call does to the life of `t`. */
  function NextLife(life: Life, op: Op, t: Tid): Life {
    match op
    case StartupOp(x, _) => if x == t then Awake else life
    case SuspendOp(x) => if x == t && life == Awake then Asleep else life
    case ResumeOp(x) => if x == t && life == Asleep then Awake else life
    case _ => life
  }

  ghost function LifeAfter(life: Life, ops: seq<Op>, t: Tid, n: nat): Life
    requires n <= |ops|
  {
    if n == 0 then life else NextLife(LifeAfter(life, ops, t, n - 1), ops[n - 1], t)
  }

  /** The priority that `t` was last given. */
  ghost function PriorityAfter(p: nat, ops: seq<Op>, t: Tid, n: nat): nat
    requires n <= |ops|
  {
    if n == 0 then p
    else
      match ops[n - 1]
      case StartupOp(x, q) => if x == t then q else PriorityAfter(p, ops, t, n - 1)
      case ChangeOp(x, q) => if x == t then q else PriorityAfter(p, ops, t, n - 1)
      case _ => PriorityAfter(p, ops, t, n - 1)
  }

  lemma {:induction false} StepOnThread(s: State, op: Op, t: Tid)
    requires Inv(s) && Legal(s, op) && t in s.stat
    ensures var s' := Step(s, op);
            && t in s'.stat && t in s'.priority && LifeOf(s'.stat[t]) == NextLife(LifeOf(s.stat[t]), op, t)
            && s'.priority[t] == match op
                                 case StartupOp(x, q) => if x == t then q else s.priority[t]
                                 case ChangeOp(x, q) => if x == t then q else s.priority[t]
                                 case _ => s.priority[t]
  {
    hide Listed, Unlink, MostUrgent;
    if op == ScheduleOp {
      var p := MostUrgent(s.ready);
      if p < |s.ready| {
        FirstIsReady(s, p);
        ScheduleTakesFirst(s, p);
      }
    }
  }

  /** In every state of every run the calls made so far tell of each thread whether it is started,
      suspended, or ready or running, and its priority. */
  lemma {:induction false} RunOnThread(states: seq<State>, ops: seq<Op>, t: Tid, n: nat)
    requires IsRun(states, ops) && Inv(states[0]) && n <= |ops| && t in states[0].stat && t in states[0].priority
    ensures t in states[n].stat && LifeOf(states[n].stat[t]) == LifeAfter(LifeOf(states[0].stat[t]), ops, t, n)
    ensures t in states[n].priority && states[n].priority[t] == PriorityAfter(states[0].priority[t], ops, t, n)
    decreases n
  {
    hide Inv, Legal, Step, LifeOf, NextLife;
    if n > 0 {
      RunOnThread(states, ops, t, n - 1);
      RunKeepsInv(states, ops, n - 1);
      assert Follows(states[n - 1], ops[n - 1], states[n - 1 + 1]);
      StepOnThread(states[n - 1], ops[n - 1], t);
    }
  }
}
