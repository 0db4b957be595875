/** The page free list of src/slab.c on values: runs of free pages in address order. Addresses
    are page numbers. */
module PageModel {
  import opened Sequences

  datatype Run = Run(start: int, count: int) {
    function End(): int { start + count }
  }

  /** Sorted, and with a page between any two runs: nothing is left to merge. */
  ghost predicate Canonical(runs: seq<Run>) {
    && (forall i :: 0 <= i < |runs| ==> runs[i].count > 0)
    && (forall i, j :: 0 <= i < j < |runs| ==> runs[i].End() < runs[j].start)
  }

  ghost predicate Holds(r: Run, p: int) {
    r.start <= p < r.End()
  }

  /** Page `p` is free. */
  ghost predicate IsFree(runs: seq<Run>, p: int) {
    exists i :: 0 <= i < |runs| && Holds(runs[i], p)
  }

  function Count(runs: seq<Run>): int {
    if runs == [] then 0 else runs[0].count + Count(runs[1..])
  }

  // ----- the canonical form is unique -----

  lemma {:induction false} FirstIsLowest(runs: seq<Run>, p: int)
    requires Canonical(runs) && IsFree(runs, p)
    ensures runs != [] && runs[0].start <= p && (p < runs[0].End() || IsFree(runs[1..], p))
    ensures p != runs[0].End()
  {
    var i :| 0 <= i < |runs| && Holds(runs[i], p);
    if i > 0 {
      assert runs[0].End() < runs[i].start;
      assert runs[1..][i - 1] == runs[i];
    }
  }

  lemma {:induction false} TailFree(runs: seq<Run>, p: int)
    requires Canonical(runs) && runs != []
    ensures IsFree(runs[1..], p) <==> IsFree(runs, p) && p >= runs[0].End()
  {
    if IsFree(runs[1..], p) {
      var i :| 0 <= i < |runs[1..]| && Holds(runs[1..][i], p);
      assert Holds(runs[i + 1], p) && runs[0].End() < runs[i + 1].start;
    }
    if IsFree(runs, p) && p >= runs[0].End() {
      FirstIsLowest(runs, p);
    }
  }

  lemma {:induction false} TailCanonical(runs: seq<Run>)
    requires Canonical(runs) && runs != []
    ensures Canonical(runs[1..])
  {
  }

  /** Two canonical lists of the same free pages are the same list. */
  lemma {:induction false} CanonicalIsUnique(a: seq<Run>, b: seq<Run>)
    requires Canonical(a) && Canonical(b) && forall p :: IsFree(a, p) <==> IsFree(b, p)
    ensures a == b
    decreases |a|
  {
    FirstFree(a);
    FirstFree(b);
    if a != [] && b != [] {
      SameFirst(a, b);
      forall p ensures IsFree(a[1..], p) <==> IsFree(b[1..], p) {
        TailFree(a, p);
        TailFree(b, p);
      }
      TailCanonical(a);
      TailCanonical(b);
      CanonicalIsUnique(a[1..], b[1..]);
      assert a == [a[0]] + a[1..] && b == [b[0]] + b[1..];
    }
  }

  lemma {:induction false} SameFirst(a: seq<Run>, b: seq<Run>)
    requires Canonical(a) && Canonical(b) && a != [] && b != [] && forall p :: IsFree(a, p) <==> IsFree(b, p)
    ensures a[0] == b[0]
  {
    FirstFree(a);
    FirstFree(b);
    FirstIsLowest(b, a[0].start);
    FirstIsLowest(a, b[0].start);
    GapAfterFirst(a, b);
    GapAfterFirst(b, a);
  }

  lemma {:induction false} FirstFree(runs: seq<Run>)
    requires Canonical(runs)
    ensures runs == [] || IsFree(runs, runs[0].start)
  {
    if runs != [] {
      assert Holds(runs[0], runs[0].start);
    }
  }

  /** The page after a run is not free. */
  lemma {:induction false} GapAfter(runs: seq<Run>, k: nat)
    requires Canonical(runs) && k < |runs|
    ensures !IsFree(runs, runs[k].End())
  {
    forall j | 0 <= j < |runs| ensures !Holds(runs[j], runs[k].End()) {
      assert j < k ==> runs[j].End() < runs[k].start;
      assert j > k ==> runs[k].End() < runs[j].start;
    }
  }

  lemma {:induction false} GapAfterFirst(a: seq<Run>, b: seq<Run>)
    requires Canonical(a) && Canonical(b) && a != [] && b != [] && a[0].start == b[0].start
    requires forall p :: IsFree(a, p) <==> IsFree(b, p)
    ensures b[0].End() <= a[0].End()
  {
    GapAfter(a, 0);
    assert !IsFree(b, a[0].End());
    assert !Holds(b[0], a[0].End());
  }

  // ----- allocation -----

  /** The first run with enough pages. */
  function FirstFit(runs: seq<Run>, n: int): (k: nat)
    ensures k <= |runs| && (k < |runs| ==> runs[k].count >= n) && forall i :: 0 <= i < k ==> runs[i].count < n
  {
    if runs == [] || runs[0].count >= n then 0 else 1 + FirstFit(runs[1..], n)
  }

  /** What rt_page_alloc leaves of the list when it finds run `k` */
  function Taken(runs: seq<Run>, k: nat, n: int): seq<Run>
    requires k < |runs|
  {
    if runs[k].count > n then runs[k := Run(runs[k].start + n, runs[k].count - n)] else RemoveAt(runs, k)
  }

  lemma {:induction false} TakenPages(runs: seq<Run>, k: nat, n: int)
    requires Canonical(runs) && k < |runs| && 0 < n <= runs[k].count
    ensures Canonical(Taken(runs, k, n))
    ensures forall p :: IsFree(Taken(runs, k, n), p) <==> IsFree(runs, p) && !(runs[k].start <= p < runs[k].start + n)
    ensures Count(Taken(runs, k, n)) == Count(runs) - n
  {
    var r := Taken(runs, k, n);
    if runs[k].count > n {
      CountReplace(runs, k, r[k]);
    } else {
      CountRemove(runs, k);
      forall i | 0 <= i < |r| ensures r[i] == runs[if i < k then i else i + 1] {
      }
    }
    forall p ensures IsFree(r, p) <==> IsFree(runs, p) && !(runs[k].start <= p < runs[k].start + n) {
      TakenPage(runs, k, n, p);
    }
  }

  lemma {:induction false} TakenPage(runs: seq<Run>, k: nat, n: int, p: int)
    requires Canonical(runs) && k < |runs| && 0 < n <= runs[k].count
    ensures IsFree(Taken(runs, k, n), p) <==> IsFree(runs, p) && !(runs[k].start <= p < runs[k].start + n)
  {
    var r := Taken(runs, k, n);
    if runs[k].count > n {
      forall i | 0 <= i < |runs| ensures Holds(r[i], p) <==> Holds(runs[i], p) && !(runs[k].start <= p < runs[k].start + n) {
        if i != k && Holds(runs[k], p) {
          OneRunHolds(runs, i, k, p);
        }
      }
    } else {
      forall i | 0 <= i < |r| ensures Holds(r[i], p) <==> Holds(runs[Skip(i, k)], p) && !(runs[k].start <= p < runs[k].start + n) {
        RemovePlace(runs, k, i);
        if Holds(runs[k], p) {
          OneRunHolds(runs, Skip(i, k), k, p);
        }
      }
      if IsFree(runs, p) && !(runs[k].start <= p < runs[k].start + n) {
        var j :| 0 <= j < |runs| && Holds(runs[j], p);
        assert Skip(if j < k then j else j - 1, k) == j;
      }
    }
  }

  /** The index a run had before run `k` was taken out. */
  function Skip(i: nat, k: nat): nat {
    if i < k then i else i + 1
  }

  lemma {:induction false} OneRunHolds(runs: seq<Run>, i: nat, k: nat, p: int)
    requires Canonical(runs) && i < |runs| && k < |runs| && i != k && Holds(runs[k], p)
    ensures !Holds(runs[i], p)
  {
    assert i < k ==> runs[i].End() < runs[k].start;
    assert i > k ==> runs[k].End() < runs[i].start;
  }

  lemma {:induction false} CountReplace(runs: seq<Run>, k: nat, r: Run)
    requires k < |runs|
    ensures Count(runs[k := r]) == Count(runs) - runs[k].count + r.count
  {
    if k > 0 {
      CountReplace(runs[1..], k - 1, r);
      assert runs[k := r][1..] == runs[1..][k - 1 := r];
    }
  }

  lemma {:induction false} CountRemove(runs: seq<Run>, k: nat)
    requires k < |runs|
    ensures Count(RemoveAt(runs, k)) == Count(runs) - runs[k].count
  {
    if k == 0 {
      assert RemoveAt(runs, 0) == runs[1..];
    } else {
      CountRemove(runs[1..], k - 1);
      assert RemoveAt(runs, k)[1..] == RemoveAt(runs[1..], k - 1);
    }
  }

  lemma {:induction false} CountSplice(runs: seq<Run>, k: nat, r: Run)
    requires k <= |runs|
    ensures Count(Splice(runs, k, r)) == Count(runs) + r.count
  {
    if k == 0 {
      assert Splice(runs, 0, r)[1..] == runs;
    } else {
      CountSplice(runs[1..], k - 1, r);
      assert Splice(runs, k, r)[1..] == Splice(runs[1..], k - 1, r);
    }
  }

  /** No run is found exactly if there are no `n` free pages in a row. */
  lemma {:induction false} NoFitIff(runs: seq<Run>, n: int)
    requires Canonical(runs) && n > 0
    ensures FirstFit(runs, n) == |runs| <==> forall a :: !AllFree(runs, a, n)
  {
    hide FirstFit;
    var k := FirstFit(runs, n);
    if k < |runs| {
      forall p | runs[k].start <= p < runs[k].start + n ensures IsFree(runs, p) {
        assert Holds(runs[k], p);
      }
      assert AllFree(runs, runs[k].start, n);
    } else {
      forall a ensures !AllFree(runs, a, n) {
        if AllFree(runs, a, n) {
          StretchFits(runs, a, n);
        }
      }
    }
  }

  ghost predicate AllFree(runs: seq<Run>, a: int, n: int) {
    forall p :: a <= p < a + n ==> IsFree(runs, p)
  }

  /** A stretch of free pages lies within one run. */
  lemma {:induction false} StretchFits(runs: seq<Run>, a: int, n: int)
    requires Canonical(runs) && n > 0 && AllFree(runs, a, n)
    ensures exists k :: 0 <= k < |runs| && runs[k].start <= a && a + n <= runs[k].End()
    ensures exists k :: 0 <= k < |runs| && runs[k].count >= n
  {
    assert IsFree(runs, a);
    var k :| 0 <= k < |runs| && Holds(runs[k], a);
    GapAfter(runs, k);
    var e := runs[k].End();
    assert a <= e < a + n ==> IsFree(runs, e);
    assert runs[k].count >= n;
  }

  // ----- freeing -----

  /** Where the loop of rt_page_free stops: at a run the pages touch, or beyond them. */
  predicate Stops(r: Run, a: int, n: int) {
    r.End() == a || r.start == a + n || r.start > a + n
  }

  function StopAt(runs: seq<Run>, a: int, n: int): (k: nat)
    ensures k <= |runs| && (k < |runs| ==> Stops(runs[k], a, n)) && forall i :: 0 <= i < k ==> !Stops(runs[i], a, n)
  {
    if runs == [] || Stops(runs[0], a, n) then 0 else 1 + StopAt(runs[1..], a, n)
  }

  /** rt_page_free once the loop has stopped at `k` */
  function FreedAt(runs: seq<Run>, k: nat, a: int, n: int): seq<Run>
    requires k <= |runs|
  {
    if k < |runs| && runs[k].End() == a then
      if k + 1 < |runs| && a + n == runs[k + 1].start then
        RemoveAt(runs[k := Run(runs[k].start, runs[k].count + n + runs[k + 1].count)], k + 1)
      else runs[k := Run(runs[k].start, runs[k].count + n)]
    else if k < |runs| && runs[k].start == a + n then runs[k := Run(a, runs[k].count + n)]
    else Splice(runs, k, Run(a, n))
  }

  /** rt_page_free */
  function Freed(runs: seq<Run>, a: int, n: int): seq<Run> {
    FreedAt(runs, StopAt(runs, a, n), a, n)
  }

  /** The pages being freed are not free. */
  ghost predicate Outside(runs: seq<Run>, a: int, n: int) {
    forall i :: 0 <= i < |runs| ==> runs[i].End() <= a || a + n <= runs[i].start
  }

  /** Runs before the stop end below the pages, and runs from it on start above them or touch. */
  lemma {:induction false} StopSplits(runs: seq<Run>, a: int, n: int)
    requires Canonical(runs) && n > 0 && Outside(runs, a, n)
    ensures var k := StopAt(runs, a, n);
            && (forall i :: 0 <= i < k ==> runs[i].End() < a)
            && (forall i :: k < i < |runs| ==> a + n <= runs[i].start)
            && (k < |runs| ==> runs[k].End() == a || a + n <= runs[k].start)
  {
    hide StopAt;
    var k := StopAt(runs, a, n);
    forall i | k < i < |runs| ensures a + n <= runs[i].start {
      assert runs[k].End() < runs[i].start;
    }
  }

  lemma {:induction false} FreedCount(runs: seq<Run>, a: int, n: int)
    ensures Count(Freed(runs, a, n)) == Count(runs) + n
  {
    hide StopAt, Count;
    var k := StopAt(runs, a, n);
    if k < |runs| && runs[k].End() == a {
      if k + 1 < |runs| && a + n == runs[k + 1].start {
        var x := Run(runs[k].start, runs[k].count + n + runs[k + 1].count);
        CountReplace(runs, k, x);
        CountRemove(runs[k := x], k + 1);
      } else {
        CountReplace(runs, k, Run(runs[k].start, runs[k].count + n));
      }
    } else if k < |runs| && runs[k].start == a + n {
      CountReplace(runs, k, Run(a, runs[k].count + n));
    } else {
      CountSplice(runs, k, Run(a, n));
    }
  }

  lemma {:induction false} FreedCanonical(runs: seq<Run>, a: int, n: int)
    requires Canonical(runs) && n > 0 && Outside(runs, a, n)
    ensures Canonical(Freed(runs, a, n))
  {
    hide StopAt, Canonical, Splice, RemoveAt;
    var k := StopAt(runs, a, n);
    StopSplits(runs, a, n);
    if k < |runs| && runs[k].End() == a {
      NextBeyond(runs, k);
      if k + 1 < |runs| && a + n == runs[k + 1].start {
        JoinedCanonical(runs, k, Run(runs[k].start, runs[k].count + n + runs[k + 1].count));
      } else {
        forall i | k < i < |runs| ensures a + n < runs[i].start {
          assert i > k + 1 ==> runs[k + 1].start < runs[i].start;
        }
        GrownCanonical(runs, k, Run(runs[k].start, runs[k].count + n));
      }
    } else if k < |runs| && runs[k].start == a + n {
      NextBeyond(runs, k);
      GrownCanonical(runs, k, Run(a, runs[k].count + n));
    } else {
      AllBeyond(runs, k, a + n);
      SplicedCanonical(runs, k, Run(a, n));
    }
  }

  lemma {:induction false} NextBeyond(runs: seq<Run>, k: nat)
    requires Canonical(runs) && k < |runs|
    ensures runs[k].count > 0 && forall i :: k < i < |runs| ==> runs[k].End() < runs[i].start
    ensures forall i :: 0 <= i < k ==> runs[i].End() < runs[k].start
    ensures forall i, j :: k < i < j < |runs| ==> runs[i].start < runs[j].start
  {
  }

  lemma {:induction false} AllBeyond(runs: seq<Run>, k: nat, e: int)
    requires Canonical(runs) && k <= |runs| && (k < |runs| ==> e < runs[k].start)
    ensures forall i :: k <= i < |runs| ==> e < runs[i].start
  {
  }

  lemma {:induction false} GrownCanonical(runs: seq<Run>, k: nat, x: Run)
    requires Canonical(runs) && k < |runs| && x.count > 0
    requires (forall i :: 0 <= i < k ==> runs[i].End() < x.start) && (forall i :: k < i < |runs| ==> x.End() < runs[i].start)
    ensures Canonical(runs[k := x])
  {
  }

  lemma {:induction false} JoinedCanonical(runs: seq<Run>, k: nat, x: Run)
    requires Canonical(runs) && k + 1 < |runs| && x.start == runs[k].start && x.End() == runs[k + 1].End()
    ensures Canonical(RemoveAt(runs[k := x], k + 1))
  {
    var r := RemoveAt(runs[k := x], k + 1);
    forall i, j | 0 <= i < j < |r| ensures r[i].End() < r[j].start {
      RemovePlace(runs[k := x], k + 1, i);
      RemovePlace(runs[k := x], k + 1, j);
    }
    forall i | 0 <= i < |r| ensures r[i].count > 0 {
      RemovePlace(runs[k := x], k + 1, i);
      assert runs[k].End() < runs[k + 1].start;
    }
  }

  lemma {:induction false} SplicedCanonical(runs: seq<Run>, k: nat, x: Run)
    requires Canonical(runs) && k <= |runs| && x.count > 0
    requires (forall i :: 0 <= i < k ==> runs[i].End() < x.start) && (forall i :: k <= i < |runs| ==> x.End() < runs[i].start)
    ensures Canonical(Splice(runs, k, x))
  {
    var r := Splice(runs, k, x);
    forall i, j | 0 <= i < j < |r| ensures r[i].End() < r[j].start {
      SplicePlace(runs, k, x, i);
      SplicePlace(runs, k, x, j);
    }
    forall i | 0 <= i < |r| ensures r[i].count > 0 {
      SplicePlace(runs, k, x, i);
    }
  }

  /** Freeing adds exactly the freed pages. */
  lemma {:induction false} FreedPage(runs: seq<Run>, a: int, n: int, p: int)
    requires Canonical(runs) && n > 0 && Outside(runs, a, n)
    ensures IsFree(Freed(runs, a, n), p) <==> IsFree(runs, p) || a <= p < a + n
  {
    hide StopAt;
    var k, r := StopAt(runs, a, n), Freed(runs, a, n);
    if k < |runs| && runs[k].End() == a && k + 1 < |runs| && a + n == runs[k + 1].start {
      JoinedPage(runs, k, a, n, p);
    } else if k < |runs| && (runs[k].End() == a || runs[k].start == a + n) {
      assert r == runs[k := r[k]];
      GrownPage(runs, k, r[k], p);
    } else {
      SplicedPage(runs, k, Run(a, n), p);
    }
  }

  lemma {:induction false} JoinedPage(runs: seq<Run>, k: nat, a: int, n: int, p: int)
    requires k + 1 < |runs| && runs[k].End() == a && a + n == runs[k + 1].start && n > 0
    requires Canonical(runs)
    ensures var x := Run(runs[k].start, runs[k].count + n + runs[k + 1].count);
            IsFree(RemoveAt(runs[k := x], k + 1), p) <==> IsFree(runs, p) || a <= p < a + n
  {
    hide RemoveAt, Canonical;
    var x := Run(runs[k].start, runs[k].count + n + runs[k + 1].count);
    var r := RemoveAt(runs[k := x], k + 1);
    NextBeyond(runs, k);
    NextBeyond(runs, k + 1);
    assert Holds(x, p) <==> Holds(runs[k], p) || a <= p < a + n || Holds(runs[k + 1], p);
    RemovePlace(runs[k := x], k + 1, k);
    forall i | 0 <= i < |r| ensures r[i] == if i == k then x else runs[Skip(i, k + 1)] {
      RemovePlace(runs[k := x], k + 1, i);
    }
    if IsFree(runs, p) {
      var i :| 0 <= i < |runs| && Holds(runs[i], p);
      var j := if i <= k then i else i - 1;
      assert i == k + 1 || j == k || Skip(j, k + 1) == i;
      assert Holds(r[j], p);
    } else if a <= p < a + n {
      assert Holds(r[k], p);
    }
    if IsFree(r, p) {
      var i :| 0 <= i < |r| && Holds(r[i], p);
      assert i != k ==> Holds(runs[Skip(i, k + 1)], p);
    }
  }

  /** One run grown at either end. */
  lemma {:induction false} GrownPage(runs: seq<Run>, k: nat, x: Run, p: int)
    requires k < |runs| && x.start <= runs[k].start && runs[k].End() <= x.End()
    ensures IsFree(runs[k := x], p) <==> IsFree(runs, p) || Holds(x, p)
    ensures Holds(x, p) ==> Holds(runs[k], p) || x.start <= p < runs[k].start || runs[k].End() <= p < x.End()
  {
    var r := runs[k := x];
    if IsFree(runs, p) {
      var i :| 0 <= i < |runs| && Holds(runs[i], p);
      assert Holds(r[i], p);
    }
    if Holds(x, p) {
      assert Holds(r[k], p);
    }
    if IsFree(r, p) {
      var i :| 0 <= i < |r| && Holds(r[i], p);
      assert i != k ==> Holds(runs[i], p);
    }
  }

  lemma {:induction false} SplicedPage(runs: seq<Run>, k: nat, x: Run, p: int)
    requires k <= |runs|
    ensures IsFree(Splice(runs, k, x), p) <==> IsFree(runs, p) || Holds(x, p)
  {
    var r := Splice(runs, k, x);
    if IsFree(runs, p) {
      var i :| 0 <= i < |runs| && Holds(runs[i], p);
      SplicePlace(runs, k, x, if i < k then i else i + 1);
      assert Holds(r[if i < k then i else i + 1], p);
    }
    if Holds(x, p) {
      SplicePlace(runs, k, x, k);
      assert Holds(r[k], p);
    }
    if IsFree(r, p) {
      var i :| 0 <= i < |r| && Holds(r[i], p);
      SplicePlace(runs, k, x, i);
      assert i != k ==> Holds(runs[if i < k then i else i - 1], p);
    }
  }

  // ----- round trip -----

  /** Freeing an allocation restores the list exactly. */
  lemma {:induction false} FreeUndoesAlloc(runs: seq<Run>, n: int)
    requires Canonical(runs) && n > 0 && FirstFit(runs, n) < |runs|
    ensures var k := FirstFit(runs, n);
            Outside(Taken(runs, k, n), runs[k].start, n) && Freed(Taken(runs, k, n), runs[k].start, n) == runs
  {
    hide FirstFit, Canonical, Freed, Taken;
    var k := FirstFit(runs, n);
    var r, a := Taken(runs, k, n), runs[k].start;
    TakenPages(runs, k, n);
    TakenOutside(runs, k, n);
    FreedCanonical(r, a, n);
    forall p ensures IsFree(Freed(r, a, n), p) <==> IsFree(runs, p) {
      FreedPage(r, a, n, p);
      if a <= p < a + n {
        assert Holds(runs[k], p);
        assert IsFree(runs, p);
      }
    }
    CanonicalIsUnique(Freed(r, a, n), runs);
  }

  lemma {:induction false} TakenOutside(runs: seq<Run>, k: nat, n: int)
    requires Canonical(runs) && k < |runs| && 0 < n <= runs[k].count
    ensures Outside(Taken(runs, k, n), runs[k].start, n)
  {
    var r := Taken(runs, k, n);
    forall i | 0 <= i < |r| ensures r[i].End() <= runs[k].start || runs[k].start + n <= r[i].start {
      if runs[k].count > n {
        assert i < k ==> runs[i].End() < runs[k].start;
        assert i > k ==> runs[k].End() < runs[i].start;
      } else {
        var j := if i < k then i else i + 1;
        assert r[i] == runs[j];
        assert j < k ==> runs[j].End() < runs[k].start;
        assert j > k ==> runs[k].End() < runs[j].start;
      }
    }
  }
}
