/** rt_page_alloc and rt_page_free as they relink page headers, and runs of both. */
module PageRuns {
  import opened Sequences
  import opened PageModel

  ghost predicate Apart(a: Run, b: Run) {
    a.End() <= b.start || b.End() <= a.start
  }

  /** The free list and the outstanding allocations share out the pages. */
  ghost predicate Shared(runs: seq<Run>, out: seq<Run>, start: int, total: int) {
    && Canonical(runs) && (forall i :: 0 <= i < |out| ==> out[i].count > 0 && Outside(runs, out[i].start, out[i].count))
    && (forall i, j :: 0 <= i < j < |out| ==> Apart(out[i], out[j]))
    && (forall p :: start <= p < start + total <==> IsFree(runs, p) || IsFree(out, p))
    && Count(runs) + Count(out) == total
  }

  /** rt_page_init: all pages are free. */
  lemma {:induction false} InitShared(start: int, total: int)
    requires total > 0
    ensures Shared([Run(start, total)], [], start, total)
  {
    var runs := [Run(start, total)];
    assert Count(runs) == total;
    forall p ensures start <= p < start + total <==> IsFree(runs, p) {
      assert IsFree(runs, p) <==> Holds(runs[0], p);
    }
  }

  /** A run that avoids the whole list avoids what is left of it. */
  lemma {:induction false} OutsideTaken(runs: seq<Run>, k: nat, n: int, r: Run)
    requires k < |runs| && 0 < n <= runs[k].count && Outside(runs, r.start, r.count)
    ensures Outside(Taken(runs, k, n), r.start, r.count)
    ensures Apart(r, Run(runs[k].start, n))
  {
    var s := Taken(runs, k, n);
    forall i | 0 <= i < |s| ensures s[i].End() <= r.start || r.start + r.count <= s[i].start {
      assert runs[if runs[k].count > n || i < k then i else i + 1].End() <= r.start
          || r.start + r.count <= runs[if runs[k].count > n || i < k then i else i + 1].start;
    }
    assert runs[k].End() <= r.start || r.start + r.count <= runs[k].start;
  }

  lemma {:induction false} AllocKeepsShared(runs: seq<Run>, out: seq<Run>, start: int, total: int, n: int)
    requires Shared(runs, out, start, total) && n > 0 && FirstFit(runs, n) < |runs|
    ensures var k := FirstFit(runs, n); Shared(Taken(runs, k, n), out + [Run(runs[k].start, n)], start, total)
  {
    hide FirstFit, Canonical, Taken, Outside, Count, IsFree;
    var k := FirstFit(runs, n);
    var x := Run(runs[k].start, n);
    var runs', out' := Taken(runs, k, n), out + [x];
    TakenPages(runs, k, n);
    TakenOutside(runs, k, n);
    forall i | 0 <= i < |out| ensures Outside(runs', out[i].start, out[i].count) && Apart(out[i], x) {
      OutsideTaken(runs, k, n, out[i]);
    }
    CountSplice(out, |out|, x);
    assert Splice(out, |out|, x) == out';
    forall p ensures start <= p < start + total <==> IsFree(runs', p) || IsFree(out', p) {
      SplicedPage(out, |out|, x, p);
      if Holds(runs[k], p) {
        HeldFree(runs, k, p);
      }
    }
  }

  lemma HeldFree(runs: seq<Run>, k: nat, p: int)
    requires k < |runs| && Holds(runs[k], p)
    ensures IsFree(runs, p)
  {
  }

  lemma {:induction false} FreeKeepsShared(runs: seq<Run>, out: seq<Run>, start: int, total: int, j: nat)
    requires Shared(runs, out, start, total) && j < |out|
    ensures Shared(Freed(runs, out[j].start, out[j].count), RemoveAt(out, j), start, total)
  {
    hide Canonical, Freed, Outside, Count, IsFree, Apart, RemoveAt;
    var x := out[j];
    var runs', out' := Freed(runs, x.start, x.count), RemoveAt(out, j);
    FreedCanonical(runs, x.start, x.count);
    FreedCount(runs, x.start, x.count);
    CountRemove(out, j);
    RemovedLength(out, j);
    forall i | 0 <= i < |out'| ensures out'[i].count > 0 && Outside(runs', out'[i].start, out'[i].count) {
      RemovePlace(out, j, i);
      var y := out[Skip(i, j)];
      assert Apart(out[if i < j then i else j], out[if i < j then j else i + 1]);
      OutsideFreed(runs, x, y);
    }
    forall i, m | 0 <= i < m < |out'| ensures Apart(out'[i], out'[m]) {
      RemovePlace(out, j, i);
      RemovePlace(out, j, m);
    }
    forall p ensures start <= p < start + total <==> IsFree(runs', p) || IsFree(out', p) {
      FreedPage(runs, x.start, x.count, p);
      RemovedPage(out, j, p);
    }
  }

  lemma RemovedLength(out: seq<Run>, j: nat)
    requires j < |out|
    ensures |RemoveAt(out, j)| == |out| - 1
  {
  }

  lemma {:induction false} RemovedPage(out: seq<Run>, j: nat, p: int)
    requires j < |out|
    ensures IsFree(out, p) <==> IsFree(RemoveAt(out, j), p) || Holds(out[j], p)
  {
    SplicedPage(RemoveAt(out, j), j, out[j], p);
    assert Splice(RemoveAt(out, j), j, out[j]) == out;
  }

  lemma {:induction false} OutsideFreed(runs: seq<Run>, x: Run, y: Run)
    requires Canonical(runs) && x.count > 0 && y.count > 0 && Outside(runs, x.start, x.count) && Outside(runs, y.start, y.count)
    requires Apart(x, y) || Apart(y, x)
    ensures Outside(Freed(runs, x.start, x.count), y.start, y.count)
  {
    hide Freed;
    var r := Freed(runs, x.start, x.count);
    FreedCanonical(runs, x.start, x.count);
    forall i | 0 <= i < |r| ensures r[i].End() <= y.start || y.start + y.count <= r[i].start {
      if r[i].start < y.End() && y.start < r[i].End() {
        var p := if r[i].start < y.start then y.start else r[i].start;
        assert Holds(r[i], p) && Holds(y, p);
        HeldFree(r, i, p);
        FreedPage(runs, x.start, x.count, p);
        NotBoth(runs, x, y, p);
        assert false;
      }
    }
  }

  lemma {:induction false} NotBoth(runs: seq<Run>, x: Run, y: Run, p: int)
    requires Outside(runs, y.start, y.count) && Apart(x, y) && Holds(y, p)
    ensures !IsFree(runs, p) && !Holds(x, p)
  {
    forall i | 0 <= i < |runs| ensures !Holds(runs[i], p) {
      assert runs[i].End() <= y.start || y.start + y.count <= runs[i].start;
    }
  }

  /** With nothing outstanding the list is the initial one. */
  lemma {:induction false} AllFreeIsInitial(runs: seq<Run>, start: int, total: int)
    requires Shared(runs, [], start, total) && total > 0
    ensures runs == [Run(start, total)]
  {
    InitShared(start, total);
    CanonicalIsUnique(runs, [Run(start, total)]);
  }

  // ----- runs -----

  /** The free list and the outstanding allocations. */
  datatype Pool = Pool(runs: seq<Run>, out: seq<Run>)

  /** Allocate `n` pages, or free the `j`th outstanding allocation. */
  datatype Op = AllocOp(n: nat) | FreeOp(j: nat)

  ghost function Step(s: Pool, op: Op): Pool {
    match op
    case AllocOp(n) =>
      var k := FirstFit(s.runs, n);
      if n == 0 || k == |s.runs| then s else Pool(Taken(s.runs, k, n), s.out + [Run(s.runs[k].start, n)])
    case FreeOp(j) =>
      if j < |s.out| then Pool(Freed(s.runs, s.out[j].start, s.out[j].count), RemoveAt(s.out, j)) else s
  }

  ghost function RunOps(s: Pool, ops: seq<Op>): Pool
    decreases |ops|
  {
    if ops == [] then s else RunOps(Step(s, ops[0]), ops[1..])
  }

  /** Through any run the list is the canonical one of the free pages, and free and outstanding
      pages add up to the pool; freeing everything restores the initial list. */
  lemma {:induction false} RunKeepsShared(s: Pool, ops: seq<Op>, start: int, total: int)
    requires Shared(s.runs, s.out, start, total) && total > 0
    ensures var s' := RunOps(s, ops);
            Shared(s'.runs, s'.out, start, total) && (s'.out == [] ==> s'.runs == [Run(start, total)])
    decreases |ops|
  {
    hide Shared, FirstFit, Taken, Freed;
    if ops == [] {
      if s.out == [] {
        AllFreeIsInitial(s.runs, start, total);
      }
    } else {
      StepKeepsShared(s, ops[0], start, total);
      RunKeepsShared(Step(s, ops[0]), ops[1..], start, total);
    }
  }

  lemma {:induction false} StepKeepsShared(s: Pool, op: Op, start: int, total: int)
    requires Shared(s.runs, s.out, start, total)
    ensures Shared(Step(s, op).runs, Step(s, op).out, start, total)
  {
    hide Shared, Taken, Freed;
    match op
    case AllocOp(n) =>
      if n > 0 && FirstFit(s.runs, n) < |s.runs| {
        AllocKeepsShared(s.runs, s.out, start, total, n);
      }
    case FreeOp(j) =>
      if j < |s.out| {
        FreeKeepsShared(s.runs, s.out, start, total, j);
      }
  }
}

module PageList {
  import opened Sequences
  import opened PageModel

  const NULL := 0

  /** The header address of run `k`, or null after the last. */
  function StartAt(runs: seq<Run>, k: nat): int
    requires k <= |runs|
  {
    if k == |runs| then NULL else runs[k].start
  }

  ghost predicate Chain(next: map<int, int>, page: map<int, int>, head: int, runs: seq<Run>) {
    && head == StartAt(runs, 0)
    && (forall i :: 0 <= i < |runs| ==> runs[i].start in next && runs[i].start in page && runs[i].start != NULL)
    && (forall i :: 0 <= i < |runs| ==> page[runs[i].start] == runs[i].count)
    && (forall i :: 0 <= i < |runs| ==> next[runs[i].start] == StartAt(runs, i + 1))
  }

  ghost predicate DistinctStarts(runs: seq<Run>) {
    forall i, j :: 0 <= i < j < |runs| ==> runs[i].start != runs[j].start
  }

  lemma {:induction false} CanonicalDistinct(runs: seq<Run>)
    requires Canonical(runs)
    ensures DistinctStarts(runs)
  {
    forall i, j | 0 <= i < j < |runs| ensures runs[i].start != runs[j].start {
      assert runs[i].End() < runs[j].start;
    }
  }

  lemma StartsDiffer(runs: seq<Run>, i: nat, j: nat)
    requires DistinctStarts(runs) && i < |runs| && j < |runs|
    ensures runs[i].start == runs[j].start <==> i == j
  {
    assert i < j ==> runs[i].start != runs[j].start;
    assert j < i ==> runs[j].start != runs[i].start;
  }

  /** The link that leads to run `k` set to `v`: the list head or the run before. */
  function Redirect(next: map<int, int>, runs: seq<Run>, k: nat, v: int): map<int, int>
    requires k <= |runs|
  {
    if k == 0 then next else next[runs[k - 1].start := v]
  }

  lemma {:induction false} ChainReplace(next: map<int, int>, page: map<int, int>, head: int, runs: seq<Run>, k: nat, x: Run)
    requires Chain(next, page, head, runs) && k < |runs| && DistinctStarts(runs) && DistinctStarts(runs[k := x]) && x.start != NULL
    ensures Chain(Redirect(next[x.start := StartAt(runs, k + 1)], runs, k, x.start), page[x.start := x.count],
                  if k == 0 then x.start else head, runs[k := x])
  {
    hide DistinctStarts;
    var r, n, p := runs[k := x], Redirect(next[x.start := StartAt(runs, k + 1)], runs, k, x.start), page[x.start := x.count];
    forall i | 0 <= i < |r| ensures r[i].start in n && r[i].start in p && r[i].start != NULL && p[r[i].start] == r[i].count && n[r[i].start] == StartAt(r, i + 1) {
      StartsDiffer(r, i, k);
      if k > 0 {
        StartsDiffer(r, i, k - 1);
      }
    }
  }

  lemma {:induction false} ChainRemove(next: map<int, int>, page: map<int, int>, head: int, runs: seq<Run>, k: nat)
    requires Chain(next, page, head, runs) && k < |runs| && DistinctStarts(runs)
    ensures Chain(Redirect(next, runs, k, StartAt(runs, k + 1)), page, if k == 0 then StartAt(runs, 1) else head, RemoveAt(runs, k))
  {
    hide DistinctStarts, StartAt, RemoveAt;
    var r, n := RemoveAt(runs, k), Redirect(next, runs, k, StartAt(runs, k + 1));
    RemovedStart(runs, k, 0);
    forall i | 0 <= i < |r| ensures r[i].start in n && r[i].start in page && r[i].start != NULL && page[r[i].start] == r[i].count && n[r[i].start] == StartAt(r, i + 1) {
      RemovePlace(runs, k, i);
      RemovedStart(runs, k, i + 1);
      if k > 0 {
        StartsDiffer(runs, if i < k then i else i + 1, k - 1);
      }
    }
  }

  lemma {:induction false} RemovedStart(runs: seq<Run>, k: nat, i: nat)
    requires k < |runs| && i < |runs|
    ensures |RemoveAt(runs, k)| == |runs| - 1 && StartAt(RemoveAt(runs, k), i) == StartAt(runs, if i < k then i else i + 1)
  {
    hide RemoveAt;
    if i + 1 < |runs| {
      RemovePlace(runs, k, i);
    } else if i > 0 {
      RemovePlace(runs, k, 0);
    } else {
      assert RemoveAt(runs, k) == [] by { RemovedAll(runs); }
    }
  }

  lemma RemovedAll(runs: seq<Run>)
    requires |runs| == 1
    ensures RemoveAt(runs, 0) == []
  {
  }

  lemma {:induction false} ChainSplice(next: map<int, int>, page: map<int, int>, head: int, runs: seq<Run>, k: nat, x: Run)
    requires Chain(next, page, head, runs) && k <= |runs| && DistinctStarts(runs) && x.start != NULL
    requires forall i :: 0 <= i < |runs| ==> runs[i].start != x.start
    ensures Chain(Redirect(next[x.start := StartAt(runs, k)], runs, k, x.start), page[x.start := x.count],
                  if k == 0 then x.start else head, Splice(runs, k, x))
  {
    var r, n, p := Splice(runs, k, x), Redirect(next[x.start := StartAt(runs, k)], runs, k, x.start), page[x.start := x.count];
    SplicePlace(runs, k, x, 0);
    forall i | 0 <= i < |r| ensures r[i].start in n && r[i].start in p && r[i].start != NULL && p[r[i].start] == r[i].count && n[r[i].start] == StartAt(r, i + 1) {
      SplicePlace(runs, k, x, i);
      if i < |runs| {
        SplicePlace(runs, k, x, i + 1);
      }
      var j := if i < k then i else i - 1;
      if k > 0 && i != k && j != k - 1 {
        assert runs[if j < k - 1 then j else k - 1].start != runs[if j < k - 1 then k - 1 else j].start;
      }
    }
  }

  class PageAllocator {
    var next: map<int, int>
    var page: map<int, int>
    var pageList: int
    ghost var runs: seq<Run>

    ghost predicate Valid()
      reads this
    {
      Chain(next, page, pageList, runs) && Canonical(runs) && forall i :: 0 <= i < |runs| ==> runs[i].start > NULL
    }

    /** rt_page_init */
    constructor (addr: int, npages: nat)
      requires addr > NULL && npages > 0
      ensures Valid() && runs == [Run(addr, npages)]
    {
      next, page, pageList, runs := map[], map[], NULL, [];
      new;
      Free(addr, npages);
    }

    /** `*prev = v` for the link that leads to run `k` */
    method Relink(prev: int, v: int, ghost k: nat)
      requires k <= |runs| && (prev == NULL <==> k == 0) && (k > 0 ==> prev == runs[k - 1].start)
      modifies this`next, this`pageList
      ensures next == Redirect(old(next), runs, k, v) && pageList == if k == 0 then v else old(pageList)
    {
      if prev == NULL {
        pageList := v;
      } else {
        next := next[prev := v];
      }
    }

    /** rt_page_alloc */
    method Alloc(npages: nat) returns (b: int)
      requires Valid()
      modifies this
      ensures Valid()
      ensures npages == 0 ==> b == NULL && runs == old(runs)
      ensures npages > 0 ==>
                var k := FirstFit(old(runs), npages);
                if k == |old(runs)| then b == NULL && runs == old(runs)
                else b == old(runs)[k].start && runs == Taken(old(runs), k, npages)
    {
      hide Canonical, FirstFit, Chain, Taken;
      if npages == 0 {
        return NULL;
      }
      var prev := NULL;
      ghost var k: nat := 0;
      ChainAt(next, page, pageList, runs, 0);
      b := pageList;
      while b != NULL
        invariant Valid() && k <= |runs| && b == StartAt(runs, k) && runs == old(runs)
        invariant (prev == NULL <==> k == 0) && (k > 0 ==> prev == runs[k - 1].start)
        invariant forall i :: 0 <= i < k ==> runs[i].count < npages
        decreases |runs| - k
      {
        ChainAt(next, page, pageList, runs, k);
        if page[b] >= npages {
          FitIs(runs, npages, k);
          Cut(b, npages, prev, k);
          return;
        }
        prev := b;
        b := next[b];
        k := k + 1;
      }
      NoFit(runs, npages);
    }

    /** The two branches that take pages from run `k`. */
    method Cut(b: int, npages: nat, prev: int, ghost k: nat)
      requires Valid() && k < |runs| && b == runs[k].start && 0 < npages <= runs[k].count
      requires (prev == NULL <==> k == 0) && (k > 0 ==> prev == runs[k - 1].start)
      modifies this
      ensures Valid() && runs == Taken(old(runs), k, npages)
    {
      hide Canonical, Chain, RemoveAt, IsFree, Count;
      TakenPages(runs, k, npages);
      TakenStarts(runs, k, npages);
      CanonicalDistinct(runs);
      CanonicalDistinct(Taken(runs, k, npages));
      ChainAt(next, page, pageList, runs, k);
      if page[b] > npages {
        var n := b + npages;
        ChainReplace(next, page, pageList, runs, k, Run(n, page[b] - npages));
        next := next[n := next[b]];
        page := page[n := page[b] - npages];
        Relink(prev, n, k);
      } else {
        ChainRemove(next, page, pageList, runs, k);
        Relink(prev, next[b], k);
      }
      runs := Taken(runs, k, npages);
    }

    /** rt_page_free of pages that are not free */
    method Free(addr: int, npages: nat)
      requires Valid() && addr > NULL && npages > 0 && Outside(runs, addr, npages)
      modifies this
      ensures Valid() && runs == Freed(old(runs), addr, npages)
    {
      hide Canonical, StopAt, Chain, FreedAt, Outside;
      var prev := NULL;
      ghost var k: nat := 0;
      ChainAt(next, page, pageList, runs, 0);
      var b := pageList;
      while b != NULL
        invariant Valid() && k <= |runs| && b == StartAt(runs, k) && runs == old(runs)
        invariant (prev == NULL <==> k == 0) && (k > 0 ==> prev == runs[k - 1].start)
        invariant forall i :: 0 <= i < k ==> !Stops(runs[i], addr, npages)
        decreases |runs| - k
      {
        ChainAt(next, page, pageList, runs, k);
        if b + page[b] == addr || b == addr + npages || b > addr + npages {
          break;
        }
        prev := b;
        b := next[b];
        k := k + 1;
      }
      StopIs(runs, addr, npages, k);
      Put(addr, npages, prev, b, k);
    }

    /** The four ways pages go back. */
    method Put(n: int, npages: nat, prev: int, b: int, ghost k: nat)
      requires Valid() && n > NULL && npages > 0 && Outside(runs, n, npages) && k == StopAt(runs, n, npages) && b == StartAt(runs, k)
      requires (prev == NULL <==> k == 0) && (k > 0 ==> prev == runs[k - 1].start)
      modifies this
      ensures Valid() && runs == FreedAt(old(runs), k, n, npages)
    {
      hide Canonical, StopAt, Chain, Outside, Splice, RemoveAt;
      ghost var r := FreedAt(runs, k, n, npages);
      FreedCanonical(runs, n, npages);
      FreedStarts(runs, n, npages);
      CanonicalDistinct(runs);
      CanonicalDistinct(r);
      ChainAt(next, page, pageList, runs, k);
      if b != NULL && b + page[b] == n {
        Grow(b, n, npages, k);
      } else if b != NULL && b == n + npages {
        ChainReplace(next, page, pageList, runs, k, Run(n, page[b] + npages));
        page := page[n := page[b] + npages];
        next := next[n := next[b]];
        Relink(prev, n, k);
      } else {
        SplicedStarts(runs, k, Run(n, npages));
        ChainSplice(next, page, pageList, runs, k, Run(n, npages));
        page := page[n := npages];
        next := next[n := b];
        Relink(prev, n, k);
      }
      runs := r;
    }

    /** The pages join the end of run `k`, and the next run if that follows on. */
    method Grow(b: int, n: int, npages: nat, ghost k: nat)
      requires Chain(next, page, pageList, runs) && DistinctStarts(runs) && k < |runs| && b == runs[k].start && runs[k].End() == n && n > NULL
      modifies this`page, this`next
      ensures Chain(next, page, pageList, FreedAt(runs, k, n, npages))
    {
      hide Chain, RemoveAt;
      ChainAt(next, page, pageList, runs, k);
      ghost var x := Run(b, runs[k].count + npages);
      ChainGrow(next, page, pageList, runs, k, x.count);
      page := page[b := page[b] + npages];
      if b + page[b] == next[b] {
        ghost var s := runs[k := x];
        ChainAt(next, page, pageList, s, k);
        ChainAt(next, page, pageList, s, k + 1);
        ghost var y := Run(b, x.count + runs[k + 1].count);
        ChainGrow(next, page, pageList, s, k, y.count);
        page := page[b := page[b] + page[next[b]]];
        ChainRemove(next, page, pageList, s[k := y], k + 1);
        next := next[b := next[next[b]]];
        assert s[k := y] == runs[k := y];
      }
    }
  }

  // ----- facts for the loops -----

  lemma ChainAt(next: map<int, int>, page: map<int, int>, head: int, runs: seq<Run>, k: nat)
    requires Chain(next, page, head, runs) && k <= |runs|
    ensures head == StartAt(runs, 0) && (StartAt(runs, k) == NULL <==> k == |runs|)
    ensures k < |runs| ==>
              var b := runs[k].start;
              b in next && b in page && page[b] == runs[k].count && next[b] == StartAt(runs, k + 1)
  {
  }

  lemma {:induction false} ChainGrow(next: map<int, int>, page: map<int, int>, head: int, runs: seq<Run>, k: nat, count: int)
    requires Chain(next, page, head, runs) && k < |runs| && DistinctStarts(runs)
    ensures Chain(next, page[runs[k].start := count], head, runs[k := Run(runs[k].start, count)])
    ensures DistinctStarts(runs[k := Run(runs[k].start, count)])
  {
  }

  lemma FitIs(runs: seq<Run>, n: int, k: nat)
    requires k < |runs| && runs[k].count >= n && forall i :: 0 <= i < k ==> runs[i].count < n
    ensures FirstFit(runs, n) == k
  {
    hide FirstFit;
    var f := FirstFit(runs, n);
  }

  lemma NoFit(runs: seq<Run>, n: int)
    requires forall i :: 0 <= i < |runs| ==> runs[i].count < n
    ensures FirstFit(runs, n) == |runs|
  {
    hide FirstFit;
    var f := FirstFit(runs, n);
  }

  lemma StopIs(runs: seq<Run>, a: int, n: int, k: nat)
    requires k <= |runs| && (k < |runs| ==> Stops(runs[k], a, n)) && forall i :: 0 <= i < k ==> !Stops(runs[i], a, n)
    ensures StopAt(runs, a, n) == k
  {
    hide StopAt;
    var s := StopAt(runs, a, n);
  }

  lemma {:induction false} TakenStarts(runs: seq<Run>, k: nat, n: int)
    requires k < |runs| && n > 0 && forall i :: 0 <= i < |runs| ==> runs[i].start > NULL
    ensures forall i :: 0 <= i < |Taken(runs, k, n)| ==> Taken(runs, k, n)[i].start > NULL
  {
    if runs[k].count <= n {
      forall i | 0 <= i < |runs| - 1 ensures RemoveAt(runs, k)[i].start > NULL {
        RemovePlace(runs, k, i);
      }
    }
  }

  lemma {:induction false} FreedStarts(runs: seq<Run>, a: int, n: int)
    requires a > NULL && forall i :: 0 <= i < |runs| ==> runs[i].start > NULL
    ensures forall i :: 0 <= i < |Freed(runs, a, n)| ==> Freed(runs, a, n)[i].start > NULL
  {
    hide StopAt, Splice, RemoveAt;
    var k, r := StopAt(runs, a, n), Freed(runs, a, n);
    if k < |runs| && runs[k].End() == a {
      if k + 1 < |runs| && a + n == runs[k + 1].start {
        var s := runs[k := Run(runs[k].start, runs[k].count + n + runs[k + 1].count)];
        RemovePlace(s, k + 1, 0);
        forall i | 0 <= i < |r| ensures r[i].start > NULL {
          RemovePlace(s, k + 1, i);
        }
      }
    } else if !(k < |runs| && runs[k].start == a + n) {
      SplicePlace(runs, k, Run(a, n), 0);
      forall i | 0 <= i < |r| ensures r[i].start > NULL {
        SplicePlace(runs, k, Run(a, n), i);
      }
    }
  }

  lemma {:induction false} SplicedStarts(runs: seq<Run>, k: nat, x: Run)
    requires k <= |runs| && DistinctStarts(Splice(runs, k, x))
    ensures forall i :: 0 <= i < |runs| ==> runs[i].start != x.start
  {
    SplicePlace(runs, k, x, k);
    forall i | 0 <= i < |runs| ensures runs[i].start != x.start {
      SplicePlace(runs, k, x, if i < k then i else i + 1);
    }
  }
}
