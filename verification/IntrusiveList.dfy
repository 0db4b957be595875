/** The doubly linked lists of include/rtservice.h: the links of all nodes, by address,
    rewritten in place. By convention the first node of a ring is the list head. */
module IntrusiveList {
  import opened Sequences
  import opened Rings

  class ListMemory {
    var next: Links
    var prev: Links

    ghost predicate Ring(s: seq<int>)
      reads this
    {
      IsRing(next, prev, s)
    }

    /** rt_list_init */
    method Init(l: int)
      modifies this
      ensures Ring([l])
      ensures forall s :: old(Ring(s)) && l !in s ==> Ring(s)
    {
      next, prev := next[l := l], prev[l := l];
    }

    /** rt_list_insert_after; every other list stays as it is. */
    method InsertAfter(l: int, n: int, ghost s: seq<int>, ghost i: nat)
      requires Ring(s) && i < |s| && s[i] == l && n !in s
      modifies this
      ensures Ring(Splice(s, i + 1, n))
      ensures forall t :: old(Ring(t)) && Apart(s + [n], t) ==> Ring(t)
    {
      hide IsRing, Splice;
      RingHas(next, prev, s, l);
      RingSplice(next, prev, s, i, n);
      forall t | IsRing(next, prev, t) && Apart(s + [n], t)
        ensures IsRing(next[n := next[l]][l := n], prev[n := l][next[l] := n], t)
      {
        RingsApart(next, prev, s + [n], t, n, next[l], l, n, n, l, next[l], n);
      }
      prev := prev[next[l] := n];
      next := next[n := next[l]];
      next := next[l := n];
      prev := prev[n := l];
      assert n != l && next == old(next[n := next[l]][l := n]);
      assert prev == old(prev[n := l][next[l] := n]);
    }

    /** rt_list_insert_before; before the head is at the end. */
    method InsertBefore(l: int, n: int, ghost s: seq<int>, ghost i: nat)
      requires Ring(s) && i < |s| && s[i] == l && n !in s
      modifies this
      ensures Ring(if i == 0 then s + [n] else Splice(s, i, n))
      ensures forall t :: old(Ring(t)) && Apart(s + [n], t) ==> Ring(t)
    {
      ghost var k := if i == 0 then |s| else i;
      hide IsRing, Splice;
      SpliceEnd(s, n);
      RingHas(next, prev, s, l);
      RingPrev(next, prev, s, i);
      RingHas(next, prev, s, s[k - 1]);
      NextBack(next, prev, s, i);
      RingSplice(next, prev, s, k - 1, n);
      ghost var before := prev[l];
      forall t | IsRing(next, prev, t) && Apart(s + [n], t)
        ensures IsRing(next[n := l][before := n], prev[n := before][l := n], t)
      {
        RingsApart(next, prev, s + [n], t, n, l, before, n, n, before, l, n);
      }
      next := next[prev[l] := n];
      prev := prev[n := prev[l]];
      prev := prev[l := n];
      next := next[n := l];
      assert next == old(next)[n := l][before := n];
      assert prev == old(prev)[n := before][l := n];
    }

    /** rt_list_remove: the node leaves its list and is a list of its own; a node that is in
        no list stays so. */
    method Remove(n: int, ghost s: seq<int>, ghost k: nat)
      requires Ring(s) && k < |s| && s[k] == n
      modifies this
      ensures Ring([n]) && (|s| >= 2 ==> Ring(RemoveAt(s, k)))
      ensures forall t :: old(Ring(t)) && Apart(s, t) ==> Ring(t)
    {
      hide IsRing, RemoveAt;
      RingHas(next, prev, s, n);
      ghost var after, before := next[n], prev[n];
      if |s| >= 2 {
        RingRemove(next, prev, s, k);
        RemoveAtGone(next, prev, s, k);
        RingOff(next[before := after], prev[after := before], RemoveAt(s, k), n);
      }
      forall t | IsRing(next, prev, t) && Apart(s, t)
        ensures IsRing(next[before := after][n := n], prev[after := before][n := n], t)
      {
        RingsApart(next, prev, s, t, before, after, n, n, after, before, n, n);
      }
      prev := prev[next[n] := prev[n]];
      next := next[prev[n] := next[n]];
      next, prev := next[n := n], prev[n := n];
      SelfPrev(old(next), old(prev), s, k);
      SelfRing(next, prev, n);
    }

    /** rt_list_isempty */
    method IsEmpty(l: int, ghost s: seq<int>) returns (empty: bool)
      requires Ring(s) && s[0] == l
      ensures empty <==> |s| == 1
    {
      empty := next[l] == l;
      assert next[l] == Next(s, 0);
    }

    /** rt_list_len */
    method Length(l: int, ghost s: seq<int>) returns (len: nat)
      requires Ring(s) && s[0] == l
      ensures len == |s| - 1
    {
      len := 0;
      var p := l;
      assert next[l] == Next(s, 0);
      while next[p] != l
        invariant len < |s| && p == s[len] && next[p] == Next(s, len)
        decreases |s| - len
      {
        p := next[p];
        len := len + 1;
      }
    }
  }

  ghost predicate Apart(s: seq<int>, t: seq<int>) {
    forall x :: x in s ==> x !in t
  }

  lemma RingHas(next: Links, prev: Links, s: seq<int>, x: int)
    requires IsRing(next, prev, s) && x in s
    ensures x in next && x in prev && next[x] in s && prev[x] in s
  {
    var k :| 0 <= k < |s| && s[k] == x;
    RingPrev(next, prev, s, k);
  }

  lemma SpliceEnd(s: seq<int>, n: int)
    ensures Splice(s, |s|, n) == s + [n]
  {
  }

  lemma NextBack(next: Links, prev: Links, s: seq<int>, i: nat)
    requires IsRing(next, prev, s) && i < |s|
    ensures var k := if i == 0 then |s| else i; s[k - 1] in next && next[s[k - 1]] == s[i]
  {
    var k := if i == 0 then |s| else i;
    assert Next(s, k - 1) == s[i];
  }

  /** Writing links of nodes of one list changes no other list. */
  lemma RingsApart(next: Links, prev: Links, s: seq<int>, t: seq<int>, a: int, va: int, b: int, vb: int, c: int, vc: int, d: int, vd: int)
    requires IsRing(next, prev, t) && Apart(s, t) && a in s && b in s && c in s && d in s
    ensures IsRing(next[a := va][b := vb], prev[c := vc][d := vd], t)
  {
    assert a !in t && b !in t && c !in t && d !in t;
  }

  lemma {:induction false} RemoveAtGone(next: Links, prev: Links, s: seq<int>, k: nat)
    requires IsRing(next, prev, s) && k < |s|
    ensures s[k] !in RemoveAt(s, k)
  {
    RemoveAtMembers(s, k);
  }

  lemma {:induction false} RingOff(next: Links, prev: Links, s: seq<int>, n: int)
    requires IsRing(next, prev, s) && n !in s
    ensures IsRing(next[n := n], prev[n := n], s)
  {
  }

  lemma SelfRing(next: Links, prev: Links, n: int)
    requires n in next && n in prev && next[n] == n && prev[n] == n
    ensures IsRing(next, prev, [n])
  {
  }

  /** The two unlinking writes do not disturb each other. */
  lemma SelfPrev(next: Links, prev: Links, s: seq<int>, k: nat)
    requires IsRing(next, prev, s) && k < |s|
    ensures s[k] in next && s[k] in prev && (next[s[k]] == s[k] <==> prev[s[k]] == s[k])
  {
    RingPrev(next, prev, s, k);
    assert next[s[k]] == Next(s, k);
  }
}
