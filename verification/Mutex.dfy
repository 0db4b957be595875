/** rt_mutex_take and rt_mutex_release as they update the mutex, its suspend list and the
    threads' priorities; each interrupt-disabled section is one call. */
module Mutex {
  import opened Sequences
  import opened IpcQueue
  import opened MutexModel

  datatype Outcome = Taken | TimedOut | Waiting

  class MutexObject {
    /** RT_IPC_FLAG_PRIO rather than RT_IPC_FLAG_FIFO */
    const prio: bool
    var value: int
    var owner: Owner
    var originalPriority: int
    var hold: int
    var suspended: seq<Tid>
    /** The threads' current_priority fields. */
    var priority: map<Tid, int>
    ghost var clock: int
    ghost var since: map<Tid, int>

    ghost function Abs(): State
      reads this
    {
      State(value, owner, originalPriority, hold, suspended, priority, clock, since)
    }

    /** rt_mutex_init */
    constructor (prio: bool, base: map<Tid, int>)
      ensures Abs() == Initial(base) && this.prio == prio
    {
      this.prio := prio;
      value, owner, originalPriority, hold, suspended := 1, Nobody, NO_PRIORITY, 0, [];
      priority := base;
      clock, since := 0, map t | t in base :: 0;
    }

    /** rt_thread_control with RT_THREAD_CTRL_CHANGE_PRIORITY */
    method ChangePriority(thread: Tid, p: int)
      modifies this`priority
      ensures priority == old(priority)[thread := p]
    {
      priority := priority[thread := p];
    }

    /** rt_mutex_take up to the point where the caller returns or sleeps */
    method Take(thread: Tid, time: int) returns (r: Outcome)
      requires Known(Abs()) && thread in priority && (owner.Nobody? ==> value > 0)
      modifies this
      ensures Abs() == MutexModel.Take(old(Abs()), thread, time, prio)
      ensures r.Taken? <==> old(owner) == Thread(thread) || old(value) > 0
      ensures r.TimedOut? <==> !r.Taken? && time == 0
    {
      if owner == Thread(thread) {
        hold := (hold + 1) % HOLD_RANGE;
        return Taken;
      }
      if value > 0 {
        value := value - 1;
        owner, originalPriority := Thread(thread), priority[thread];
        hold := (hold + 1) % HOLD_RANGE;
        return Taken;
      }
      if time == 0 {
        return TimedOut;
      }
      if priority[thread] < priority[owner.tid] {
        ChangePriority(owner.tid, priority[thread]);
      }
      suspended := ListSuspend(suspended, priority, thread, prio);
      since, clock := since[thread := clock], clock + 1;
      return Waiting;
    }

    /** The last release of the owner */
    method PassOn()
      requires Known(Abs()) && owner.Thread?
      modifies this
      ensures Abs() == HandOff(old(Abs()))
    {
      if originalPriority != priority[owner.tid] {
        ChangePriority(owner.tid, originalPriority);
      }
      assert priority == old(priority)[old(owner).tid := originalPriority];
      if suspended != [] {
        var first := suspended[0];
        owner, originalPriority := Thread(first), priority[first];
        hold := (hold + 1) % HOLD_RANGE;
        suspended := suspended[1..];
      } else {
        value := value + 1;
        owner, originalPriority := Nobody, NO_PRIORITY;
      }
    }

    /** rt_mutex_release; a caller that is not the owner gets an error. */
    method Release(thread: Tid) returns (ok: bool)
      requires Known(Abs()) && thread in priority
      modifies this
      ensures ok <==> old(owner) == Thread(thread)
      ensures Abs() == MutexModel.Release(old(Abs()), thread)
    {
      if Thread(thread) != owner {
        return false;
      }
      hold := (hold - 1) % HOLD_RANGE;
      if hold == 0 {
        PassOn();
      }
      return true;
    }

    /** rt_thread_timeout of a suspended thread: it leaves the suspend list. */
    method Timeout(thread: Tid)
      requires thread in suspended
      modifies this`suspended
      ensures Abs() == MutexModel.Timeout(old(Abs()), thread)
    {
      suspended := Without(suspended, thread);
    }
  }
}
