/** Linked lists seen as sequences: splicing an element in and taking one out. */
module Sequences {

  function Splice<T>(s: seq<T>, k: nat, x: T): (r: seq<T>)
    requires k <= |s|
  {
    s[..k] + [x] + s[k..]
  }

  function RemoveAt<T>(s: seq<T>, k: nat): (r: seq<T>)
    requires k < |s|
  {
    s[..k] + s[k + 1..]
  }

  function IndexOf<T(==)>(s: seq<T>, x: T): (i: nat)
    requires x in s
    ensures i < |s| && s[i] == x
  {
    if s[0] == x then 0 else 1 + IndexOf(s[1..], x)
  }

  ghost predicate Distinct<T>(s: seq<T>) {
    forall i, j :: 0 <= i < j < |s| ==> s[i] != s[j]
  }

  /** Take out the one occurrence of `x`. */
  function Without<T(==)>(s: seq<T>, x: T): (r: seq<T>)
    requires x in s
  {
    RemoveAt(s, IndexOf(s, x))
  }

  lemma {:induction false} WithoutMembers<T>(s: seq<T>, x: T)
    requires x in s && Distinct(s)
    ensures Distinct(Without(s, x)) && forall y :: y in Without(s, x) <==> y in s && y != x
  {
    RemoveAtMembers(s, IndexOf(s, x));
  }

  lemma {:induction false} SplicePlace<T>(s: seq<T>, k: nat, x: T, j: nat)
    requires k <= |s| && j <= |s|
    ensures |Splice(s, k, x)| == |s| + 1
    ensures Splice(s, k, x)[j] == if j < k then s[j] else if j == k then x else s[j - 1]
  {
  }

  lemma {:induction false} RemovePlace<T>(s: seq<T>, k: nat, j: nat)
    requires k < |s| && j + 1 < |s|
    ensures |RemoveAt(s, k)| == |s| - 1 && RemoveAt(s, k)[j] == s[if j < k then j else j + 1]
  {
  }

  lemma {:induction false} SpliceMembers<T>(s: seq<T>, k: nat, x: T)
    requires k <= |s|
    ensures forall y :: y in Splice(s, k, x) <==> y == x || y in s
    ensures Distinct(s) && x !in s ==> Distinct(Splice(s, k, x))
  {
    var r := Splice(s, k, x);
    assert s == s[..k] + s[k..];
    assert r[k] == x;
    forall y | y in s ensures y in r {
      var i :| 0 <= i < |s| && s[i] == y;
      assert r[if i < k then i else i + 1] == y;
    }
  }

  lemma {:induction false} RemoveAtMembers<T>(s: seq<T>, k: nat)
    requires k < |s| && Distinct(s)
    ensures forall y :: y in RemoveAt(s, k) <==> y in s && y != s[k]
    ensures Distinct(RemoveAt(s, k))
  {
    var r := RemoveAt(s, k);
    forall y | y in s && y != s[k] ensures y in r {
      var i :| 0 <= i < |s| && s[i] == y;
      assert r[if i < k then i else i - 1] == y;
    }
    forall y | y in r ensures y in s && y != s[k] {
      var i :| 0 <= i < |r| && r[i] == y;
      assert y == s[if i < k then i else i + 1];
    }
  }

  lemma {:induction false} TailMembers<T>(s: seq<T>)
    requires s != [] && Distinct(s)
    ensures Distinct(s[1..]) && s[0] in s && forall x :: x in s[1..] <==> x in s && x != s[0]
  {
    assert s[1..] == RemoveAt(s, 0);
    RemoveAtMembers(s, 0);
  }

  lemma {:induction false} PushMembers<T>(s: seq<T>, x: T)
    ensures forall y :: y in [x] + s <==> y == x || y in s
    ensures forall y :: y in s + [x] <==> y == x || y in s
    ensures Distinct(s) && x !in s ==> Distinct([x] + s) && Distinct(s + [x])
  {
    SpliceMembers(s, 0, x);
    SpliceMembers(s, |s|, x);
    assert [x] + s == Splice(s, 0, x) && s + [x] == Splice(s, |s|, x);
  }

  lemma SplicePlaces<T>(s: seq<T>, i: nat, x: T)
    requires i < |s|
    ensures var r := Splice(s, i + 1, x); |r| == |s| + 1 && r[i] == s[i] && r[i + 1] == x
  {
  }

  lemma DistinctAt<T>(s: seq<T>, i: nat, j: nat)
    requires Distinct(s) && i < |s| && j < |s|
    ensures s[i] == s[j] <==> i == j
  {
    assert i < j ==> s[i] != s[j];
    assert j < i ==> s[j] != s[i];
  }

  lemma {:induction false} IndexIs<T>(s: seq<T>, i: nat)
    requires i < |s| && Distinct(s)
    ensures IndexOf(s, s[i]) == i
  {
  }

  lemma {:induction false} RemoveSpliced<T>(s: seq<T>, k: nat, x: T)
    requires k <= |s|
    ensures RemoveAt(Splice(s, k, x), k) == s
  {
    assert s == s[..k] + s[k..];
  }
}

/** Rings of doubly linked nodes, with the links of all nodes held by address: the list
    operations of include/rtservice.h and the block lists of src/memheap.c. */
module Rings {
  import opened Sequences

  type Links = map<int, int>

  function Next(s: seq<int>, i: nat): int
    requires i < |s|
  {
    if i + 1 == |s| then s[0] else s[i + 1]
  }

  /** Starting at `s[0]` and following `next` visits exactly `s` and comes back; `prev`
      is the inverse. */
  ghost predicate IsRing(next: Links, prev: Links, s: seq<int>) {
    && s != [] && Distinct(s)
    && (forall i :: 0 <= i < |s| ==> s[i] in next && s[i] in prev)
    && (forall i :: 0 <= i < |s| ==> next[s[i]] == Next(s, i))
    && (forall i :: 0 <= i < |s| ==> prev[Next(s, i)] == s[i])
  }

  lemma RingSplice(next: Links, prev: Links, s: seq<int>, i: nat, x: int)
    requires IsRing(next, prev, s) && i < |s| && x !in s
    ensures IsRing(next[x := next[s[i]]][s[i] := x], prev[x := s[i]][next[s[i]] := x], Splice(s, i + 1, x))
  {
    var r := Splice(s, i + 1, x);
    SpliceMembers(s, i + 1, x);
    var n, p := next[x := next[s[i]]][s[i] := x], prev[x := s[i]][next[s[i]] := x];
    forall j | 0 <= j < |r| ensures r[j] in n && r[j] in p && n[r[j]] == Next(r, j) && p[Next(r, j)] == r[j] {
      if j <= i {
        assert r[j] == s[j];
      } else if j > i + 1 {
        assert r[j] == s[j - 1];
      }
    }
  }

  lemma RingRemove(next: Links, prev: Links, s: seq<int>, k: nat)
    requires IsRing(next, prev, s) && k < |s| && |s| >= 2
    ensures IsRing(next[prev[s[k]] := next[s[k]]], prev[next[s[k]] := prev[s[k]]], RemoveAt(s, k))
  {
    var r := RemoveAt(s, k);
    RemoveAtMembers(s, k);
    var before := if k == 0 then |s| - 1 else k - 1;
    assert Next(s, before) == s[k] && prev[s[k]] == s[before];
    var n, p := next[s[before] := next[s[k]]], prev[next[s[k]] := s[before]];
    forall j | 0 <= j < |r| ensures r[j] in n && r[j] in p && n[r[j]] == Next(r, j) && p[Next(r, j)] == r[j] {
      if j < k {
        assert r[j] == s[j];
      } else {
        assert r[j] == s[j + 1];
      }
    }
  }

  /** The node before `s[k]`. */
  lemma RingPrev(next: Links, prev: Links, s: seq<int>, k: nat)
    requires IsRing(next, prev, s) && k < |s|
    ensures prev[s[k]] == s[if k == 0 then |s| - 1 else k - 1]
  {
    assert Next(s, if k == 0 then |s| - 1 else k - 1) == s[k];
  }
}

/** Singly linked lists that end in a null pointer, with the links of all nodes by address. */
module Chains {
  import opened Sequences

  const NULL := 0

  /** The node after the `i`th, or null. */
  function Link(s: seq<int>, i: nat): int
    requires i < |s|
  {
    if i + 1 == |s| then NULL else s[i + 1]
  }

  /** The nodes reached from `first` along `next`, up to the null pointer. */
  ghost predicate Chain(next: map<int, int>, first: int, s: seq<int>) {
    && first == (if s == [] then NULL else s[0])
    && (forall i :: 0 <= i < |s| ==> s[i] in next && s[i] != NULL)
    && (forall i :: 0 <= i < |s| ==> next[s[i]] == Link(s, i))
  }

  lemma {:induction false} ChainTail(next: map<int, int>, first: int, s: seq<int>)
    requires Chain(next, first, s) && s != []
    ensures first in next && Chain(next, next[first], s[1..])
  {
    var r := s[1..];
    assert next[s[0]] == Link(s, 0);
    forall i | 0 <= i < |r| ensures r[i] in next && r[i] != NULL && next[r[i]] == Link(r, i) {
      assert r[i] == s[i + 1];
    }
  }

  lemma {:induction false} ChainPush(next: map<int, int>, first: int, s: seq<int>, n: int)
    requires Chain(next, first, s) && n !in s && n != NULL
    ensures Chain(next[n := first], n, [n] + s)
  {
    var r, next' := [n] + s, next[n := first];
    forall i | 0 <= i < |r| ensures r[i] in next' && r[i] != NULL && next'[r[i]] == Link(r, i) {
      if i > 0 {
        assert r[i] == s[i - 1] && s[i - 1] in s;
      }
    }
  }

  lemma {:induction false} ChainAppend(next: map<int, int>, first: int, s: seq<int>, n: int)
    requires Chain(next, first, s) && n !in s && n != NULL && n in next && next[n] == NULL && Distinct(s) && s != []
    ensures Chain(next[s[|s| - 1] := n], first, s + [n])
  {
    var next', r := next[s[|s| - 1] := n], s + [n];
    forall i | 0 <= i < |r| ensures r[i] in next' && r[i] != NULL && next'[r[i]] == Link(r, i) {
      if i < |s| - 1 {
        assert s[i] != s[|s| - 1];
      }
    }
  }

  /** Links of other nodes do not matter. */
  lemma {:induction false} ChainFrame(next: map<int, int>, first: int, s: seq<int>, n: int, v: int)
    requires Chain(next, first, s) && n !in s
    ensures Chain(next[n := v], first, s)
  {
    forall i | 0 <= i < |s| ensures s[i] != n {
      assert s[i] in s;
    }
  }

  lemma ChainEnds(next: map<int, int>, first: int, s: seq<int>)
    requires Chain(next, first, s)
    ensures first == NULL <==> s == []
    ensures s != [] ==> s[|s| - 1] in s && s[|s| - 1] != NULL && s[|s| - 1] in next
  {
  }

  lemma ChainOne(next: map<int, int>, n: int)
    requires n in next && next[n] == NULL && n != NULL
    ensures Chain(next, n, [] + [n])
  {
  }

  lemma ChainFirst(next: map<int, int>, first: int, s: seq<int>)
    requires Chain(next, first, s) && s != []
    ensures first == s[0] && first in s && first != NULL
  {
  }

  /** Linking `x` behind the first `k` nodes. */
  lemma {:induction false} ChainSplice(next: map<int, int>, first: int, s: seq<int>, k: nat, x: int)
    requires Chain(next, first, s) && Distinct(s) && 0 < k <= |s| && x !in s && x != NULL
    ensures Chain(next[x := Link(s, k - 1)][s[k - 1] := x], first, Splice(s, k, x))
  {
    var r, n := Splice(s, k, x), next[x := Link(s, k - 1)][s[k - 1] := x];
    SplicePlace(s, k, x, 0);
    forall i | 0 <= i < |r| ensures r[i] in n && r[i] != NULL && n[r[i]] == Link(r, i) {
      SplicePlace(s, k, x, i);
      if i < |s| {
        SplicePlace(s, k, x, i + 1);
      }
      var j := if i < k then i else i - 1;
      if i != k {
        assert s[j] in s;
        assert j < k - 1 ==> s[j] != s[k - 1];
        assert j > k - 1 ==> s[k - 1] != s[j];
      }
    }
  }

  /** Unlinking node `k`. */
  lemma {:induction false} ChainRemove(next: map<int, int>, first: int, s: seq<int>, k: nat)
    requires Chain(next, first, s) && Distinct(s) && 0 < k < |s|
    ensures Chain(next[s[k - 1] := Link(s, k)], first, RemoveAt(s, k))
  {
    hide Link, RemoveAt, Distinct;
    var r, n := RemoveAt(s, k), next[s[k - 1] := Link(s, k)];
    RemovedLink(s, k, 0);
    forall i | 0 <= i < |r| ensures r[i] in n && r[i] != NULL && n[r[i]] == Link(r, i) {
      RemovedLink(s, k, i);
      DistinctAt(s, if i < k then i else i + 1, k - 1);
    }
  }

  lemma {:induction false} RemovedLink(s: seq<int>, k: nat, i: nat)
    requires 0 < k < |s| && i + 1 < |s|
    ensures |RemoveAt(s, k)| == |s| - 1
    ensures var r, j := RemoveAt(s, k), if i < k then i else i + 1;
            r[i] == s[j] && Link(r, i) == if j == k - 1 then Link(s, k) else Link(s, j)
  {
    hide RemoveAt;
    RemovePlace(s, k, i);
    if i + 2 < |s| {
      RemovePlace(s, k, i + 1);
    }
  }

  lemma ChainAt(next: map<int, int>, first: int, s: seq<int>, k: nat)
    requires Chain(next, first, s) && k < |s|
    ensures s[k] in next && s[k] != NULL && next[s[k]] == Link(s, k)
  {
  }
}
