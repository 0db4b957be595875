/** The scheduler as it is kept: ready lists with a bitmap over them, of one level up to 32
    priorities and of two levels above, found first by __rt_ffs. */
module Scheduler {
  import opened Sequences
  import opened ReadyBits
  import opened SchedulerModel

  /** With at most 32 priorities a bit of the group stands for a ready list. */
  ghost predicate GroupAgrees(group: Bits, ready: seq<seq<Tid>>) {
    |group| == 32 && |ready| <= 32 && forall p :: 0 <= p < 32 ==> (group[p] <==> p < |ready| && ready[p] != [])
  }

  /** With more, a bit of a table byte stands for a list and a bit of the group for a byte
      that is not zero. */
  ghost predicate TableAgrees(group: Bits, table: seq<Bits>, ready: seq<seq<Tid>>) {
    && |group| == 32 && |table| == 32 && |ready| <= 256
    && (forall k :: 0 <= k < 32 ==> |table[k]| == 8 && (group[k] <==> !IsZero(table[k])))
    && (forall p :: 0 <= p < 256 ==> (Bit(table, p) <==> p < |ready| && ready[p] != []))
  }

  /** The table's bit for priority `p`: byte `p >> 3`, bit `p & 7`. */
  predicate Bit(table: seq<Bits>, p: nat) {
    p / 8 < |table| && p % 8 < |table[p / 8]| && table[p / 8][p % 8]
  }

  ghost predicate BitsAgree(group: Bits, table: seq<Bits>, ready: seq<seq<Tid>>) {
    if |ready| <= 32 then GroupAgrees(group, ready) else TableAgrees(group, table, ready)
  }

  // ----- the first set bit is the most urgent list -----

  lemma {:induction false} GroupFirst(group: Bits, ready: seq<seq<Tid>>)
    requires GroupAgrees(group, ready)
    ensures IsZero(group) <==> MostUrgent(ready) == |ready|
    ensures !IsZero(group) ==> FirstSet(group) == MostUrgent(ready)
  {
    hide MostUrgent, FirstSet;
    var m, f := MostUrgent(ready), FirstSet(group);
    if m < |ready| {
      assert group[m];
    }
    if f < 32 {
      assert ready[f] != [];
    }
  }

  lemma {:induction false} TableFirst(group: Bits, table: seq<Bits>, ready: seq<seq<Tid>>)
    requires TableAgrees(group, table, ready)
    ensures IsZero(group) <==> MostUrgent(ready) == |ready|
    ensures !IsZero(group) ==>
              var k := FirstSet(group);
              && k < 32 && !IsZero(table[k]) && 8 * k + FirstSet(table[k]) == MostUrgent(ready)
  {
    hide MostUrgent, FirstSet;
    var m := MostUrgent(ready);
    if m < |ready| {
      assert Bit(table, m);
      assert !IsZero(table[m / 8]);
    }
    if !IsZero(group) {
      var k := FirstSet(group);
      FirstOfByte(group, table, ready, k);
    }
  }

  lemma {:induction false} FirstOfByte(group: Bits, table: seq<Bits>, ready: seq<seq<Tid>>, k: nat)
    requires TableAgrees(group, table, ready) && k < 32 && group[k] && forall i :: 0 <= i < k ==> !group[i]
    ensures FirstSet(table[k]) < 8 && 8 * k + FirstSet(table[k]) == MostUrgent(ready) < |ready|
  {
    hide MostUrgent, FirstSet;
    var j := FirstSet(table[k]);
    var p, m := 8 * k + j, MostUrgent(ready);
    assert p / 8 == k && p % 8 == j && Bit(table, p);
    forall q | 0 <= q < p ensures !Bit(table, q) {
      if q / 8 < k {
        assert IsZero(table[q / 8]);
      }
    }
    assert p < |ready| && ready[p] != [] && m < |ready|;
    assert Bit(table, m);
  }

  // ----- setting and clearing a bit -----

  lemma {:induction false} SetGroup(group: Bits, ready: seq<seq<Tid>>, p: nat, row: seq<Tid>)
    requires GroupAgrees(group, ready) && p < |ready|
    ensures GroupAgrees(group[p := row != []], ready[p := row])
  {
  }

  lemma {:induction false} SetTable(group: Bits, table: seq<Bits>, ready: seq<seq<Tid>>, p: nat, row: seq<Tid>)
    requires TableAgrees(group, table, ready) && p < |ready|
    ensures var k := p / 8; var byte := table[k][p % 8 := row != []];
            TableAgrees(group[k := !IsZero(byte)], table[k := byte], ready[p := row])
  {
    var k := p / 8;
    var byte := table[k][p % 8 := row != []];
    var table', ready' := table[k := byte], ready[p := row];
    forall q | 0 <= q < 256 ensures Bit(table', q) <==> q < |ready'| && ready'[q] != [] {
      if q / 8 == k && q % 8 == p % 8 {
        assert q == p;
      } else {
        assert Bit(table', q) == Bit(table, q);
      }
    }
  }

  class SchedulerObject {
    /** RT_THREAD_PRIORITY_MAX */
    const priorities: nat
    var group: Bits
    var table: seq<Bits>
    var ready: seq<seq<Tid>>
    var stat: map<Tid, Stat>
    var priority: map<Tid, nat>
    var current: Tid
    var lockNest: int

    ghost function Abs(): State
      reads this
    {
      State(ready, stat, priority, current)
    }

    ghost predicate Valid()
      reads this
    {
      |ready| == priorities <= 256 && Known(Abs()) && BitsAgree(group, table, ready)
    }

    /** rt_system_scheduler_init, with one thread running and the others initialised */
    constructor (priorities: nat, priority: map<Tid, nat>, current: Tid)
      requires priorities <= 256 && current in priority && forall t :: t in priority ==> priority[t] < priorities
      ensures Valid() && Inv(Abs()) && this.priorities == priorities && lockNest == 0
      ensures Abs().current == current && stat[current] == Running && forall t :: t in stat && t != current ==> stat[t] == Init
    {
      this.priorities := priorities;
      this.priority, this.current, lockNest := priority, current, 0;
      ready := seq(priorities, _ => []);
      stat := map t | t in priority :: if t == current then Running else Init;
      group := Empty(32);
      table := seq(32, _ => Empty(8));
      new;
      assert forall p :: 0 <= p < priorities ==> RowOk(ready[p], p, stat, this.priority);
    }

    /** rt_schedule_insert_thread */
    method InsertThread(t: Tid)
      requires Valid() && t in stat
      modifies this`stat, this`ready, this`group, this`table
      ensures Valid() && Abs() == Insert(old(Abs()), t)
    {
      hide GroupAgrees, TableAgrees, IsZero;
      if t == current {
        stat := stat[t := Running];
        return;
      }
      stat := stat[t := Ready];
      var p := priority[t];
      if priorities > 32 {
        SetTable(group, table, ready, p, ready[p] + [t]);
        TableShape(group, table, ready);
        NotZero(table[p / 8], p % 8);
        table := table[p / 8 := table[p / 8][p % 8 := true]];
        group := group[p / 8 := true];
      } else {
        SetGroup(group, ready, p, ready[p] + [t]);
        GroupShape(group, ready);
        group := group[p := true];
      }
      ready := ready[p := ready[p] + [t]];
    }

    /** rt_schedule_remove_thread of a thread that is in the list of its priority or in none */
    method RemoveThread(t: Tid)
      requires Valid() && t in stat && Distinct(ready[priority[t]])
      modifies this`ready, this`group, this`table
      ensures Valid() && Abs() == Remove(old(Abs()), t)
    {
      hide GroupAgrees, TableAgrees, IsZero;
      var p := priority[t];
      var row := if t in ready[p] then Without(ready[p], t) else ready[p];
      SetBoth(group, table, ready, p, row);
      assert ready[p := ready[p]] == ready;
      ready := ready[p := row];
      if ready[p] == [] {
        if priorities > 32 {
          TableShape(group, table, old(ready));
          table := table[p / 8 := table[p / 8][p % 8 := false]];
          if IsZero(table[p / 8]) {
            group := group[p / 8 := false];
          }
        } else {
          GroupShape(group, old(ready));
          group := group[p := false];
        }
      }
    }

    /** _get_highest_priority_thread, when some thread is ready */
    method HighestPriorityThread() returns (t: Tid, p: nat)
      requires Valid() && !IsZero(group) && |group| == 32
      ensures p == MostUrgent(ready) && p < |ready| && t == ready[p][0]
    {
      hide MostUrgent, FirstSet;
      var f := Ffs(group);
      if priorities > 32 {
        TableFirst(group, table, ready);
        var number := f - 1;
        var g := Ffs(table[number] + Empty(24));
        FirstOfPadded(table[number]);
        p := 8 * number + g - 1;
      } else {
        GroupFirst(group, ready);
        p := f - 1;
      }
      t := ready[p][0];
    }

    /** rt_schedule */
    method Schedule()
      requires Valid() && Inv(Abs())
      modifies this`stat, this`ready, this`group, this`table, this`current
      ensures Valid() && Inv(Abs())
      ensures Abs() == if lockNest == 0 then SchedulerModel.Schedule(old(Abs())) else old(Abs())
    {
      hide MostUrgent, GroupAgrees, TableAgrees, IsZero, Listed, CurrentOk, FirstSet;
      ScheduleKeepsInv(Abs());
      if lockNest == 0 {
        GroupIsZero(group, table, ready);
        if !IsZero(group) {
          var toThread, highest := HighestPriorityThread();
          var needInsertFromThread := false;
          FirstIsReady(Abs(), highest);
          if stat[current] == Running {
            if priority[current] < highest {
              toThread := current;
            } else {
              needInsertFromThread := true;
            }
          }
          if toThread != current {
            Switch(toThread, needInsertFromThread);
          } else {
            KeepRunning(Abs());
            RemoveThread(current);
            stat := stat[current := Running];
          }
        }
      }
    }

    method Switch(to: Tid, needInsertFromThread: bool)
      requires Valid() && Inv(Abs()) && to in stat && stat[to] == Ready && to != current
      requires needInsertFromThread <==> stat[current] == Running
      modifies this`stat, this`ready, this`group, this`table, this`current
      ensures Valid() && Abs() == Switched(old(Abs()), to)
    {
      hide BitsAgree, MostUrgent;
      SwitchDistinct(Abs(), to);
      var fromThread := current;
      current := to;
      if needInsertFromThread {
        InsertThread(fromThread);
      }
      RemoveThread(to);
      stat := stat[to := Running];
    }

    /** rt_thread_suspend */
    method SuspendThread(t: Tid) returns (ok: bool)
      requires Valid() && Inv(Abs()) && t in stat
      modifies this`stat, this`ready, this`group, this`table
      ensures Valid() && Abs() == Suspend(old(Abs()), t) && Inv(Abs())
      ensures ok <==> old(stat)[t] == Ready || old(stat)[t] == Running
      ensures stat == if ok then old(stat)[t := Suspended] else old(stat)
      ensures |ready| == |old(ready)| && forall q :: 0 <= q < |ready| ==> ready[q] == if ok then Off(old(ready)[q], t) else old(ready)[q]
    {
      hide BitsAgree, Listed, CurrentOk;
      SuspendKeepsInv(Abs(), t);
      OnlyInOwnRow(Abs(), t);
      if stat[t] != Ready && stat[t] != Running {
        return false;
      }
      RowDistinct(Abs(), priority[t]);
      RemoveThread(t);
      stat := stat[t := Suspended];
      return true;
    }

    /** rt_thread_resume */
    method ResumeThread(t: Tid) returns (ok: bool)
      requires Valid() && Inv(Abs()) && t in stat
      modifies this`stat, this`ready, this`group, this`table
      ensures Valid() && Abs() == Resume(old(Abs()), t) && Inv(Abs())
      ensures ok <==> old(stat)[t] == Suspended
      ensures !ok ==> stat == old(stat) && ready == old(ready)
      ensures ok && t == current ==> stat == old(stat)[t := Running] && ready == old(ready)
      ensures ok && t != current ==>
                && stat == old(stat)[t := Ready]
                && ready == old(ready)[priority[t] := old(ready)[priority[t]] + [t]]
    {
      hide BitsAgree, Listed, CurrentOk;
      ResumeKeepsInv(Abs(), t);
      if stat[t] != Suspended {
        return false;
      }
      InsertThread(t);
      return true;
    }

    /** rt_thread_startup of an initialised thread, before it schedules */
    method MakeReady(t: Tid, initPriority: nat)
      requires Valid() && Inv(Abs()) && t in stat && stat[t] == Init && initPriority < priorities
      modifies this`stat, this`ready, this`group, this`table, this`priority
      ensures Valid() && Inv(Abs()) && Abs() == Startup(old(Abs()), t, initPriority)
      ensures stat == old(stat)[t := Ready] && priority == old(priority)[t := initPriority]
      ensures ready == old(ready)[initPriority := old(ready)[initPriority] + [t]]
    {
      hide BitsAgree, Listed;
      StartupKeepsInv(Abs(), t, initPriority);
      priority := priority[t := initPriority];
      stat := stat[t := Suspended];
      InsertThread(t);
    }

    /** rt_thread_startup, by a running thread */
    method StartupThread(t: Tid, initPriority: nat)
      requires Valid() && Inv(Abs()) && t in stat && stat[t] == Init && initPriority < priorities
      modifies this`stat, this`ready, this`group, this`table, this`priority, this`current
      ensures Valid() && Inv(Abs())
      ensures var s := State(old(ready)[initPriority := old(ready)[initPriority] + [t]], old(stat)[t := Ready],
                             old(priority)[t := initPriority], old(current));
              Inv(s) && Abs() == if lockNest == 0 then SchedulerModel.Schedule(s) else s
    {
      hide BitsAgree, Listed, CurrentOk, SchedulerModel.Schedule;
      MakeReady(t, initPriority);
      Schedule();
    }

    /** rt_thread_control with RT_THREAD_CTRL_CHANGE_PRIORITY */
    method ChangeThreadPriority(t: Tid, p: nat)
      requires Valid() && Inv(Abs()) && t in stat && p < priorities
      modifies this`stat, this`ready, this`group, this`table, this`priority
      ensures Valid() && Abs() == ChangePriority(old(Abs()), t, p) && Inv(Abs())
      ensures priority == old(priority)[t := p] && stat == old(stat) && |ready| == |old(ready)|
      ensures forall q :: 0 <= q < |ready| ==>
                ready[q] == if stat[t] == Ready then Off(old(ready)[q], t) + (if q == p then [t] else []) else old(ready)[q]
    {
      hide BitsAgree, Listed, CurrentOk;
      ChangePriorityKeepsInv(Abs(), t, p);
      OnlyInOwnRow(Abs(), t);
      ReadyNotCurrent(Abs(), t);
      RowDistinct(Abs(), priority[t]);
      if stat[t] == Ready {
        RemoveThread(t);
        priority := priority[t := p];
        InsertThread(t);
      } else {
        priority := priority[t := p];
      }
    }

    /** rt_enter_critical */
    method EnterCritical()
      modifies this`lockNest
      ensures lockNest == old(lockNest) + 1
    {
      lockNest := lockNest + 1;
    }

    /** rt_exit_critical; the outermost exit schedules. */
    method ExitCritical()
      requires Valid() && Inv(Abs())
      modifies this
      ensures Valid() && Inv(Abs()) && lockNest == if old(lockNest) > 0 then old(lockNest) - 1 else 0
      ensures Abs() == if old(lockNest) <= 1 then SchedulerModel.Schedule(old(Abs())) else old(Abs())
    {
      hide BitsAgree, Listed, CurrentOk, MostUrgent;
      lockNest := lockNest - 1;
      if lockNest <= 0 {
        lockNest := 0;
        Schedule();
      }
    }
  }

  // ----- helpers -----

  lemma TableShape(group: Bits, table: seq<Bits>, ready: seq<seq<Tid>>)
    requires TableAgrees(group, table, ready)
    ensures |group| == 32 && |table| == 32 && forall k :: 0 <= k < 32 ==> |table[k]| == 8 && (group[k] <==> !IsZero(table[k]))
  {
  }

  lemma GroupShape(group: Bits, ready: seq<seq<Tid>>)
    requires GroupAgrees(group, ready)
    ensures |group| == 32 && |ready| <= 32
  {
  }

  lemma NotZero(byte: Bits, i: nat)
    requires i < |byte|
    ensures !IsZero(byte[i := true])
  {
    assert byte[i := true][i];
  }

  /** What one list's change asks of the bitmap of either shape. */
  lemma {:induction false} SetBoth(group: Bits, table: seq<Bits>, ready: seq<seq<Tid>>, p: nat, row: seq<Tid>)
    requires BitsAgree(group, table, ready) && p < |ready|
    ensures |ready| <= 32 ==> |group| == 32 && GroupAgrees(group[p := row != []], ready[p := row])
                              && (row != [] && ready[p] != [] ==> group[p := true] == group)
    ensures |ready| > 32 ==>
              && |group| == 32 && |table| == 32 && |table[p / 8]| == 8
              && var byte := table[p / 8][p % 8 := row != []];
              && TableAgrees(group[p / 8 := !IsZero(byte)], table[p / 8 := byte], ready[p := row])
              && (row != [] && ready[p] != [] ==> table[p / 8 := byte] == table && group[p / 8 := !IsZero(byte)] == group)
              && (row == [] && !IsZero(byte) ==> group[p / 8 := true] == group)
  {
    if |ready| <= 32 {
      SetGroup(group, ready, p, row);
    } else {
      SetTable(group, table, ready, p, row);
      assert Bit(table, p) <==> ready[p] != [];
      var byte := table[p / 8][p % 8 := row != []];
      if row != [] && ready[p] != [] {
        assert byte == table[p / 8];
      }
      if row == [] && !IsZero(byte) {
        var i :| 0 <= i < 8 && byte[i];
        assert table[p / 8][i];
      }
    }
  }

  lemma {:induction false} FirstOfPadded(byte: Bits)
    requires |byte| == 8 && !IsZero(byte)
    ensures !IsZero(byte + Empty(24)) && FirstSet(byte + Empty(24)) == FirstSet(byte)
  {
    hide FirstSet;
    var w := byte + Empty(24);
    var f, g := FirstSet(byte), FirstSet(w);
    assert f < 8 && w[f];
    assert g <= f;
    assert g < 8 ==> w[g] == byte[g];
  }

  lemma {:induction false} GroupIsZero(group: Bits, table: seq<Bits>, ready: seq<seq<Tid>>)
    requires BitsAgree(group, table, ready)
    ensures |group| == 32 && (IsZero(group) <==> MostUrgent(ready) == |ready|)
  {
    hide MostUrgent, FirstSet;
    if |ready| <= 32 {
      GroupFirst(group, ready);
    } else {
      TableFirst(group, table, ready);
    }
  }

  lemma {:induction false} OnlyInOwnRow(s: State, t: Tid)
    requires Inv(s) && t in s.stat
    ensures forall q :: 0 <= q < |s.ready| && q != s.priority[t] ==> t !in s.ready[q]
  {
    forall q | 0 <= q < |s.ready| && q != s.priority[t] ensures t !in s.ready[q] {
      assert RowOk(s.ready[q], q, s.stat, s.priority);
    }
  }

  lemma ReadyNotCurrent(s: State, t: Tid)
    requires Inv(s) && t in s.stat
    ensures s.stat[t] == Ready ==> t != s.current
  {
  }

  lemma {:induction false} RowDistinct(s: State, p: nat)
    requires Inv(s) && p < |s.ready|
    ensures Distinct(s.ready[p])
  {
    assert RowOk(s.ready[p], p, s.stat, s.priority);
  }

  /** Removing the running thread, which is in no list, does nothing. */
  lemma {:induction false} KeepRunning(s: State)
    requires Inv(s) && s.stat[s.current] == Running
    ensures Distinct(s.ready[s.priority[s.current]]) && Remove(s, s.current) == s && s.stat[s.current := Running] == s.stat
  {
    RowDistinct(s, s.priority[s.current]);
    OnlyOneOut(s);
  }

  lemma {:induction false} SwitchDistinct(s: State, to: Tid)
    requires Inv(s) && to in s.stat && to != s.current
    ensures var s1 := s.(current := to);
            && Known(s1) && Distinct(s1.ready[s1.priority[to]])
            && (s.stat[s.current] == Running ==> Distinct(Insert(s1, s.current).ready[s1.priority[to]]))
  {
    RowDistinct(s, s.priority[to]);
    if s.stat[s.current] == Running {
      OnlyOneOut(s);
      AppendMembers(s.ready[s.priority[s.current]], s.current);
    }
  }
}
