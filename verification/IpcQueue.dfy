/** The suspend lists of src/ipc.c: first come first served, or by priority. A smaller
    number is a more urgent priority. */
module IpcQueue {
  import opened Sequences

  type Tid = nat

  /** How threads queue: their priorities and whether the object heeds them. */
  datatype Discipline = Discipline(priority: map<Tid, int>, prio: bool)

  /** Where rt_ipc_list_suspend puts a thread of priority `p`: before the first waiter that
      is strictly less urgent. */
  function Place(waiters: seq<Tid>, priority: map<Tid, int>, p: int): (k: nat)
    requires forall w :: w in waiters ==> w in priority
    ensures k <= |waiters|
    ensures forall i :: 0 <= i < k ==> priority[waiters[i]] <= p
    ensures k < |waiters| ==> p < priority[waiters[k]]
  {
    if waiters == [] || p < priority[waiters[0]] then 0 else 1 + Place(waiters[1..], priority, p)
  }

  /** The suspend list with `t` on it; `prio` is RT_IPC_FLAG_PRIO. */
  function Queued(waiters: seq<Tid>, priority: map<Tid, int>, t: Tid, prio: bool): seq<Tid>
    requires t in priority && forall w :: w in waiters ==> w in priority
  {
    Splice(waiters, if prio then Place(waiters, priority, priority[t]) else |waiters|, t)
  }

  lemma {:induction false} QueuedMembers(waiters: seq<Tid>, priority: map<Tid, int>, t: Tid, prio: bool)
    requires t in priority && forall w :: w in waiters ==> w in priority
    ensures forall w :: w in Queued(waiters, priority, t, prio) <==> w == t || w in waiters
    ensures Distinct(waiters) && t !in waiters ==> Distinct(Queued(waiters, priority, t, prio))
  {
    hide Place;
    SpliceMembers(waiters, if prio then Place(waiters, priority, priority[t]) else |waiters|, t);
  }

  ghost predicate ByPriority(waiters: seq<Tid>, priority: map<Tid, int>) {
    && (forall w :: w in waiters ==> w in priority)
    && (forall i, j :: 0 <= i < j < |waiters| ==> priority[waiters[i]] <= priority[waiters[j]])
  }

  /** Queued by priority, a thread stands behind everyone at least as urgent and before
      everyone less urgent, and the list stays sorted. */
  lemma {:induction false} QueuedSorted(waiters: seq<Tid>, priority: map<Tid, int>, t: Tid)
    requires t in priority && ByPriority(waiters, priority)
    ensures ByPriority(Queued(waiters, priority, t, true), priority)
    ensures var k := Place(waiters, priority, priority[t]);
            && (forall i :: 0 <= i < k ==> priority[waiters[i]] <= priority[t])
            && (forall i :: k <= i < |waiters| ==> priority[t] < priority[waiters[i]])
  {
    hide Place;
    var k, q := Place(waiters, priority, priority[t]), Queued(waiters, priority, t, true);
    forall i | k <= i < |waiters| ensures priority[t] < priority[waiters[i]] {
      assert i > k ==> priority[waiters[k]] <= priority[waiters[i]];
    }
    SpliceMembers(waiters, k, t);
    forall i, j | 0 <= i < j < |q| ensures priority[q[i]] <= priority[q[j]] {
      SplicePlace(waiters, k, t, i);
      SplicePlace(waiters, k, t, j);
    }
  }

  /** rt_ipc_list_suspend, without the thread's own state */
  method ListSuspend(list: seq<Tid>, priority: map<Tid, int>, thread: Tid, prio: bool) returns (r: seq<Tid>)
    requires thread in priority && forall w :: w in list ==> w in priority
    ensures r == Queued(list, priority, thread, prio)
  {
    if !prio {
      return list + [thread];
    }
    var n := 0;
    while n != |list|
      invariant n <= |list|
      invariant Place(list, priority, priority[thread]) == n + Place(list[n..], priority, priority[thread])
      decreases |list| - n
    {
      if priority[thread] < priority[list[n]] {
        break;
      }
      assert list[n..][1..] == list[n + 1..];
      n := n + 1;
    }
    return list[..n] + [thread] + list[n..];
  }
}
