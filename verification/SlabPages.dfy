/** The slab allocator over the page allocator: zones, large allocations and the page table are
    runs of pages that the page allocator has handed out. */
module SlabPages {
  import opened Sequences
  import opened PageModel
  import PageRuns
  import opened SlabModel
  import opened SlabZones

  const WORD_RANGE := 0x1_0000_0000

  datatype Heap = Heap(pool: PageRuns.Pool, zones: State)

  /** The pages of the heap, those of the page table, and the smallest request that is not for a
      zone. */
  datatype Area = Area(start: int, total: int, table: Run, limit: nat)

  /** The outstanding run of a zone. */
  ghost predicate IsZone(s: State, r: Run) {
    Owned(s, r.start) && r.count == s.pages
  }

  /** The outstanding run of a large allocation. */
  ghost predicate IsLarge(s: State, r: Run) {
    r.start in s.usage && s.usage[r.start] == Large(r.count)
  }

  ghost predicate Kinds(h: Heap, a: Area) {
    && (forall z :: Owned(h.zones, z) ==> Run(z, h.zones.pages) in h.pool.out)
    && (forall r :: r in h.pool.out ==> r == a.table || IsZone(h.zones, r) || IsLarge(h.zones, r))
  }

  ghost predicate Fixed(h: Heap, a: Area) {
    a.start > 0 && a.total > 0 && a.limit in {8192, 16384} && 4 * a.limit <= h.zones.pages * PAGE
  }

  /** Free pages, zones, large allocations and the page table share out the heap. */
  ghost predicate Inv(h: Heap, a: Area) {
    && PageRuns.Shared(h.pool.runs, h.pool.out, a.start, a.total) && SlabZones.Inv(h.zones) && Fixed(h, a)
    && a.table in h.pool.out && !Owned(h.zones, a.table.start) && Kinds(h, a)
  }

  // ----- outstanding runs -----

  lemma {:induction false} OutApart(h: Heap, a: Area, r: Run, q: Run)
    requires Inv(h, a) && r in h.pool.out && q in h.pool.out && r != q
    ensures r.count > 0 && q.count > 0 && (r.End() <= q.start || q.End() <= r.start)
  {
    hide SlabZones.Inv, Kinds, Canonical, IsFree, Count;
    var i :| 0 <= i < |h.pool.out| && h.pool.out[i] == r;
    var j :| 0 <= j < |h.pool.out| && h.pool.out[j] == q;
    assert PageRuns.Apart(h.pool.out[if i < j then i else j], h.pool.out[if i < j then j else i]);
  }

  lemma {:induction false} OutDistinct(h: Heap, a: Area)
    requires Inv(h, a)
    ensures Distinct(h.pool.out)
  {
    hide SlabZones.Inv, Kinds, Canonical, IsFree, Count;
    var out := h.pool.out;
    forall i, j | 0 <= i < j < |out| ensures out[i] != out[j] {
      assert PageRuns.Apart(out[i], out[j]) && out[i].count > 0;
    }
  }

  /** An outstanding run that is no zone's lies outside all zones. */
  lemma {:induction false} OutsideZones(h: Heap, a: Area, r: Run, z: int)
    requires Inv(h, a) && r in h.pool.out && Owned(h.zones, z) && !IsZone(h.zones, r)
    ensures r.count > 0 && (r.End() <= z || z + h.zones.pages <= r.start)
  {
    hide SlabZones.Inv, PageRuns.Shared;
    OutApart(h, a, r, Run(z, h.zones.pages));
  }

  lemma {:induction false} ZoneIsNotLarge(s: State, r: Run)
    requires SlabZones.Inv(s) && IsZone(s, r)
    ensures !IsLarge(s, r)
  {
    hide ZonesOk, Listed;
    assert LeadsTo(s.usage, r.start, 0);
  }

  // ----- page allocation -----

  /** The page a request for a zone's pages would get, or -1. */
  ghost function SparePage(h: Heap): int {
    var k := FirstFit(h.pool.runs, h.zones.pages);
    if k == |h.pool.runs| then -1 else h.pool.runs[k].start
  }

  /** Pages just allocated lie in the heap and outside every outstanding run. */
  lemma {:induction false} NewRun(h: Heap, a: Area, n: nat)
    requires Inv(h, a) && n > 0 && FirstFit(h.pool.runs, n) < |h.pool.runs|
    ensures var x := Run(h.pool.runs[FirstFit(h.pool.runs, n)].start, n); var pool := PageRuns.Step(h.pool, PageRuns.AllocOp(n));
            && a.start <= x.start && pool.out == h.pool.out + [x] && PageRuns.Shared(pool.runs, pool.out, a.start, a.total)
            && forall r :: r in h.pool.out ==> r.count > 0 && (r.End() <= x.start || x.End() <= r.start)
  {
    hide SlabZones.Inv, Kinds, Canonical, Count, Taken, FirstFit;
    var k := FirstFit(h.pool.runs, n);
    var x := Run(h.pool.runs[k].start, n);
    PageRuns.AllocKeepsShared(h.pool.runs, h.pool.out, a.start, a.total, n);
    RunPositive(h.pool.runs, k);
    PageRuns.HeldFree(h.pool.runs, k, x.start);
    var out := h.pool.out + [x];
    forall r | r in h.pool.out ensures r.count > 0 && (r.End() <= x.start || x.End() <= r.start) {
      var i :| 0 <= i < |h.pool.out| && h.pool.out[i] == r;
      assert out[i] == r && out[|h.pool.out|] == x && PageRuns.Apart(out[i], out[|h.pool.out|]);
    }
  }

  lemma RunPositive(runs: seq<Run>, k: nat)
    requires Canonical(runs) && k < |runs|
    ensures runs[k].count > 0
  {
  }

  /** What the page allocator owes the zones, from the sharing out of the pages. */
  lemma {:induction false} SpareIsApart(h: Heap, a: Area)
    requires Inv(h, a)
    ensures SparePage(h) >= 0 ==> Spare(h.zones, SparePage(h)) && FirstFit(h.pool.runs, h.zones.pages) < |h.pool.runs|
    ensures SparePage(h) < 0 ==> FirstFit(h.pool.runs, h.zones.pages) == |h.pool.runs|
    ensures SparePage(h) < 0 <==> forall p :: !AllFree(h.pool.runs, p, h.zones.pages)
  {
    hide Listed, ZonesOk, Mapped, Canonical, IsFree, Count, FirstFit, AllFree;
    NoFitIff(h.pool.runs, h.zones.pages);
    if FirstFit(h.pool.runs, h.zones.pages) < |h.pool.runs| {
      NewRun(h, a, h.zones.pages);
      forall p | Owned(h.zones, p) ensures p + h.zones.pages <= SparePage(h) || SparePage(h) + h.zones.pages <= p {
        assert Run(p, h.zones.pages) in h.pool.out;
      }
    }
  }

  // ----- requests for a zone's chunk -----

  /** rt_malloc for class `i`: pages are taken exactly if no zone will do. */
  ghost function MallocSmall(h: Heap, i: nat): Heap
    requires SlabZones.Inv(h.zones) && CanHold(h.zones, i)
  {
    Heap(if h.zones.lists[i] == [] && h.zones.freeZones == [] then PageRuns.Step(h.pool, PageRuns.AllocOp(h.zones.pages)) else h.pool,
         Malloc(h.zones, i, SparePage(h)))
  }

  lemma {:induction false} MallocSmallKeepsInv(h: Heap, a: Area, i: nat)
    requires Inv(h, a) && CanHold(h.zones, i)
    ensures Inv(MallocSmall(h, i), a)
  {
    hide SlabZones.Inv, PageRuns.Shared, FirstFit, PageRuns.Step, Malloc, Entered, SparePage, Spare, ChunkSize;
    SpareIsApart(h, a);
    MallocKeepsInv(h.zones, i, SparePage(h));
    MallocOwned(h.zones, i, SparePage(h));
    ListsLong(h.zones);
    if h.zones.lists[i] == [] && h.zones.freeZones == [] {
      if SparePage(h) >= 0 {
        AddsZoneRun(h, a, MallocSmall(h, i));
      } else {
        assert MallocSmall(h, i).pool == h.pool by { NoPages(h); }
        SamePool(h, a, Malloc(h.zones, i, SparePage(h)));
      }
    } else {
      SamePool(h, a, Malloc(h.zones, i, SparePage(h)));
    }
  }

  lemma ListsLong(s: State)
    requires SlabZones.Inv(s)
    ensures |s.lists| == NZONES && s.pages >= MIN_PAGES
  {
  }

  lemma NoPages(h: Heap)
    requires FirstFit(h.pool.runs, h.zones.pages) == |h.pool.runs|
    ensures PageRuns.Step(h.pool, PageRuns.AllocOp(h.zones.pages)) == h.pool
  {
  }

  lemma {:induction false} SamePool(h: Heap, a: Area, s: State)
    requires Inv(h, a) && SlabZones.Inv(s) && s.pages == h.zones.pages && s.usage == h.zones.usage
    requires forall p :: Owned(s, p) <==> Owned(h.zones, p)
    ensures Inv(Heap(h.pool, s), a)
  {
    hide SlabZones.Inv, PageRuns.Shared, Owned;
  }

  lemma {:induction false} AddsZoneRun(h: Heap, a: Area, h': Heap)
    requires Inv(h, a) && FirstFit(h.pool.runs, h.zones.pages) < |h.pool.runs| && h.zones.pages > 0
    requires h'.pool == PageRuns.Step(h.pool, PageRuns.AllocOp(h.zones.pages)) && SlabZones.Inv(h'.zones) && h'.zones.pages == h.zones.pages
    requires h'.zones.usage == Entered(h.zones.usage, SparePage(h), h.zones.pages)
    requires forall p :: Owned(h'.zones, p) <==> Owned(h.zones, p) || p == SparePage(h)
    ensures Inv(h', a)
  {
    hide SlabZones.Inv, PageRuns.Shared, Owned, FirstFit, Entered, PageRuns.Step;
    NewRun(h, a, h.zones.pages);
    var x := Run(SparePage(h), h.zones.pages);
    EnteredAt(h.zones.usage, x.start, x.count);
    forall r | r in h'.pool.out ensures r == a.table || IsZone(h'.zones, r) || IsLarge(h'.zones, r) {
      assert r == x || r in h.pool.out;
    }
    assert a.table in h.pool.out && a.table.start != x.start;
  }

  /** A chunk is refused if and only if no zone of the class has room, no zone is wholly free and
      there are not enough free pages in a row for a new one. */
  lemma {:induction false} SmallRefusedIff(h: Heap, a: Area, i: nat)
    requires Inv(h, a) && CanHold(h.zones, i)
    ensures Choice(h.zones, i, SparePage(h)).NoMemory? <==>
              NoRoom(h.zones, i) && h.zones.freeZones == [] && forall p :: !AllFree(h.pool.runs, p, h.zones.pages)
  {
    hide SlabZones.Inv, PageRuns.Shared, FirstFit, SparePage, Spare, NoRoom, AllFree, ChunkSize;
    SpareIsApart(h, a);
    ListsLong(h.zones);
    if h.zones.lists[i] == [] {
      EmptyRow(h.zones, i);
    } else {
      FirstHasChunk(h.zones, i);
      HasRoom(h.zones, i, h.zones.lists[i][0]);
    }
  }

  lemma HasRoom(s: State, i: nat, z: int)
    requires z in s.zones && s.zones[z].index == i && s.zones[z].nfree > 0
    ensures !NoRoom(s, i)
  {
  }

  // ----- requests for whole pages -----

  /** The pages of a large request, rounded up on 32-bit words. */
  function PagesFor(n: nat): nat
    requires n < WORD_RANGE
  {
    (n + PAGE - 1) % WORD_RANGE / PAGE
  }

  ghost function MallocLarge(h: Heap, count: nat): Heap {
    var k := FirstFit(h.pool.runs, count);
    if count == 0 || k == |h.pool.runs| then h
    else Heap(PageRuns.Step(h.pool, PageRuns.AllocOp(count)),
              h.zones.(usage := h.zones.usage[h.pool.runs[k].start := Large(count)]))
  }

  /** Taking pages for a large request keeps the sharing out; it is refused if and only if there are
      not that many free pages in a row. */
  lemma {:induction false} MallocLargeKeepsInv(h: Heap, a: Area, count: nat)
    requires Inv(h, a) && count > 0
    ensures Inv(MallocLarge(h, count), a)
    ensures FirstFit(h.pool.runs, count) == |h.pool.runs| <==> forall p :: !AllFree(h.pool.runs, p, count)
  {
    hide SlabZones.Inv, Canonical, IsFree, Count, FirstFit, PageRuns.Step, Owned, AllFree;
    NoFitIff(h.pool.runs, count);
    if FirstFit(h.pool.runs, count) < |h.pool.runs| {
      AddsLargeRun(h, a, count);
    }
  }

  lemma {:induction false} AddsLargeRun(h: Heap, a: Area, count: nat)
    requires Inv(h, a) && count > 0 && FirstFit(h.pool.runs, count) < |h.pool.runs|
    ensures Inv(MallocLarge(h, count), a)
  {
    hide SlabZones.Inv, PageRuns.Shared, FirstFit, PageRuns.Step, Owned;
    NewRun(h, a, count);
    var x := Run(h.pool.runs[FirstFit(h.pool.runs, count)].start, count);
    forall z | Owned(h.zones, z) ensures x.start < z || z + h.zones.pages <= x.start {
      assert Run(z, h.zones.pages) in h.pool.out;
    }
    SetUsage(h.zones, x.start, Large(count));
    var h' := MallocLarge(h, count);
    forall r | r in h'.pool.out ensures r == a.table || IsZone(h'.zones, r) || IsLarge(h'.zones, r) {
      assert r == x || r in h.pool.out;
    }
  }

  // ----- free -----

  /** rt_free of chunk `c` of zone `z`; the pages of a zone that is given up go back. */
  ghost function FreeSmall(h: Heap, z: int, c: int): Heap
    requires SlabZones.Inv(h.zones) && IsLive(h.zones, z, c) && Run(z, h.zones.pages) in h.pool.out
  {
    Heap(if Releases(h.zones, z, c) then PageRuns.Step(h.pool, PageRuns.FreeOp(IndexOf(h.pool.out, Run(z, h.zones.pages)))) else h.pool,
         Free(h.zones, z, c))
  }

  lemma {:induction false} ZoneRun(h: Heap, a: Area, z: int, c: int)
    requires Inv(h, a) && IsLive(h.zones, z, c)
    ensures Run(z, h.zones.pages) in h.pool.out && Owned(h.zones, z)
  {
    hide SlabZones.Inv, PageRuns.Shared;
    KeysAgree(h.zones);
  }

  lemma {:induction false} FreeSmallKeepsInv(h: Heap, a: Area, z: int, c: int)
    requires Inv(h, a) && IsLive(h.zones, z, c)
    ensures Run(z, h.zones.pages) in h.pool.out && Inv(FreeSmall(h, z, c), a)
  {
    hide SlabZones.Inv, PageRuns.Shared, PageRuns.Step, Free, Released, Releases, Owned;
    ZoneRun(h, a, z, c);
    FreeKeepsInv(h.zones, z, c);
    FreeOwned(h.zones, z, c);
    ReleasedElsewhere(h.zones.usage, z, h.zones.pages);
    if Releases(h.zones, z, c) {
      DropsRun(h, a, Run(z, h.zones.pages), FreeSmall(h, z, c));
    } else {
      SamePool(h, a, Free(h.zones, z, c));
    }
  }

  /** An outstanding run given back, with the entries of its pages changed. */
  lemma {:induction false} DropsRun(h: Heap, a: Area, x: Run, h': Heap)
    requires Inv(h, a) && x in h.pool.out && x != a.table && h'.pool == PageRuns.Step(h.pool, PageRuns.FreeOp(IndexOf(h.pool.out, x)))
    requires SlabZones.Inv(h'.zones) && h'.zones.pages == h.zones.pages
    requires forall p :: p in h.zones.usage && !(x.start <= p < x.End()) ==> p in h'.zones.usage && h'.zones.usage[p] == h.zones.usage[p]
    requires forall p :: Owned(h'.zones, p) <==> Owned(h.zones, p) && !(IsZone(h.zones, x) && p == x.start)
    ensures Inv(h', a)
  {
    hide SlabZones.Inv, PageRuns.Shared, Owned, RemoveAt, Freed;
    var j := IndexOf(h.pool.out, x);
    PageRuns.FreeKeepsShared(h.pool.runs, h.pool.out, a.start, a.total, j);
    OutDistinct(h, a);
    RemoveAtMembers(h.pool.out, j);
    forall r | r in h'.pool.out ensures r == a.table || IsZone(h'.zones, r) || IsLarge(h'.zones, r) {
      OutApart(h, a, r, x);
    }
    forall z | Owned(h'.zones, z) ensures Run(z, h.zones.pages) in h'.pool.out {
      assert Owned(h.zones, z) && Run(z, h.zones.pages) in h.pool.out;
    }
  }

  /** A large allocation at page `p`. */
  ghost predicate LargeLive(h: Heap, a: Area, p: int) {
    && p in h.zones.usage && h.zones.usage[p].Large?
    && Run(p, h.zones.usage[p].count) in h.pool.out && Run(p, h.zones.usage[p].count) != a.table
  }

  ghost function FreeLarge(h: Heap, p: int): Heap
    requires p in h.zones.usage && h.zones.usage[p].Large? && Run(p, h.zones.usage[p].count) in h.pool.out
  {
    Heap(PageRuns.Step(h.pool, PageRuns.FreeOp(IndexOf(h.pool.out, Run(p, h.zones.usage[p].count)))),
         h.zones.(usage := h.zones.usage[p := Large(0)]))
  }

  lemma {:induction false} FreeLargeKeepsInv(h: Heap, a: Area, p: int)
    requires Inv(h, a) && LargeLive(h, a, p)
    ensures Inv(FreeLarge(h, p), a)
  {
    hide SlabZones.Inv, PageRuns.Shared, PageRuns.Step, Owned;
    var x := Run(p, h.zones.usage[p].count);
    assert !IsZone(h.zones, x) by {
      if IsZone(h.zones, x) {
        ZoneIsNotLarge(h.zones, x);
      }
    }
    forall z | Owned(h.zones, z) ensures p < z || z + h.zones.pages <= p {
      OutsideZones(h, a, x, z);
    }
    SetUsage(h.zones, p, Large(0));
    OutPositive(h, a, x);
    DropsRun(h, a, x, FreeLarge(h, p));
  }

  lemma {:induction false} OutPositive(h: Heap, a: Area, r: Run)
    requires Inv(h, a) && r in h.pool.out
    ensures r.count > 0 && a.start <= r.start && r.End() <= a.start + a.total
  {
    hide SlabZones.Inv, Kinds, Canonical, Count;
    var i :| 0 <= i < |h.pool.out| && h.pool.out[i] == r;
    PageRuns.HeldFree(h.pool.out, i, r.start);
    PageRuns.HeldFree(h.pool.out, i, r.End() - 1);
  }

  // ----- allocations do not share bytes -----

  /** A byte of a live chunk lies in no large allocation. */
  lemma {:induction false} ChunkOutsideLarge(h: Heap, a: Area, z: int, c: int, d: nat, p: int)
    requires Inv(h, a) && IsLive(h.zones, z, c) && z in h.zones.zones && LargeLive(h, a, p) && d < ChunkSize(h.zones.zones[z].index)
    ensures c >= 0
    ensures var b := z * PAGE + ByteAt(ChunkSize(h.zones.zones[z].index), c, d);
            b < p * PAGE || (p + h.zones.usage[p].count) * PAGE <= b
  {
    hide SlabZones.Inv, PageRuns.Shared, ByteAt, ChunkSize, Owned;
    var x := Run(p, h.zones.usage[p].count);
    ZoneRun(h, a, z, c);
    assert !IsZone(h.zones, x) by {
      if IsZone(h.zones, x) {
        ZoneIsNotLarge(h.zones, x);
      }
    }
    OutsideZones(h, a, x, z);
    LookupFindsZone(h.zones, z, c, d);
    ByteInZone(h.zones, z, c, d);
  }

  lemma {:induction false} ByteInZone(s: State, z: int, c: int, d: nat)
    requires SlabZones.Inv(s) && IsLive(s, z, c) && z in s.zones && d < ChunkSize(s.zones[z].index) && c >= 0
    ensures 0 <= ByteAt(ChunkSize(s.zones[z].index), c, d) < s.pages * PAGE
  {
    hide Listed, Mapped, ByteAt, ChunkSize, Offset, ZoneChunks;
    ZoneOkOf(s, z);
    ChunkInside(s.pages * PAGE, ChunkSize(s.zones[z].index), c, d);
  }

  /** Different large allocations do not overlap. */
  lemma {:induction false} LargesApart(h: Heap, a: Area, p: int, q: int)
    requires Inv(h, a) && LargeLive(h, a, p) && LargeLive(h, a, q) && p != q
    ensures p + h.zones.usage[p].count <= q || q + h.zones.usage[q].count <= p
  {
    hide Inv;
    OutApart(h, a, Run(p, h.zones.usage[p].count), Run(q, h.zones.usage[q].count));
  }

  // ----- runs -----

  datatype Op = MallocOp(n: nat) | FreeChunkOp(z: int, c: int) | FreeLargeOp(p: int)

  /** Sizes are 32-bit words and what is freed is allocated. */
  ghost predicate Legal(h: Heap, a: Area, op: Op) {
    match op
    case MallocOp(n) => n < WORD_RANGE
    case FreeChunkOp(z, c) => IsLive(h.zones, z, c)
    case FreeLargeOp(p) => LargeLive(h, a, p)
  }

  /** The class of a request below the limit can be held by a zone. */
  lemma {:induction false} ClassFits(h: Heap, a: Area, n: nat)
    requires Inv(h, a) && 0 < n < a.limit
    ensures n < 16384 && CanHold(h.zones, ZoneIndex(n).0)
  {
    hide SlabZones.Inv, PageRuns.Shared, Kinds, ChunkSize, ZoneIndex;
    ClassBelowLimit(n, a.limit);
    ListsLong(h.zones);
  }

  ghost function Step(h: Heap, a: Area, op: Op): Heap
    requires Inv(h, a) && Legal(h, a, op)
  {
    match op
    case MallocOp(n) =>
      if n == 0 then h
      else if n < a.limit then ClassFits(h, a, n); MallocSmall(h, ZoneIndex(n).0)
      else MallocLarge(h, PagesFor(n))
    case FreeChunkOp(z, c) => ZoneRun(h, a, z, c); FreeSmall(h, z, c)
    case FreeLargeOp(p) => FreeLarge(h, p)
  }

  /** The address rt_malloc returns, 0 if none. */
  ghost function Address(h: Heap, a: Area, n: nat): int
    requires Inv(h, a) && n < WORD_RANGE
  {
    if n == 0 then 0
    else if n < a.limit then
      ClassFits(h, a, n);
      var i := ZoneIndex(n).0;
      match Choice(h.zones, i, SparePage(h))
      case NoMemory => 0
      case At(z, c) => ChosenInside(h.zones, i, SparePage(h)); z * PAGE + ByteAt(ChunkSize(i), c, 0)
    else
      var k := FirstFit(h.pool.runs, PagesFor(n));
      if PagesFor(n) == 0 || k == |h.pool.runs| then 0 else h.pool.runs[k].start * PAGE
  }

  /** The address of what a call frees. */
  ghost predicate Frees(h: Heap, a: Area, op: Op, address: int) {
    match op
    case MallocOp(_) => false
    case FreeChunkOp(z, c) =>
      IsLive(h.zones, z, c) && z in h.zones.zones && c >= 0 && address == z * PAGE + ByteAt(ChunkSize(h.zones.zones[z].index), c, 0)
    case FreeLargeOp(p) => LargeLive(h, a, p) && address == p * PAGE
  }

  lemma {:induction false} StepKeepsInv(h: Heap, a: Area, op: Op)
    requires Inv(h, a) && Legal(h, a, op)
    ensures Inv(Step(h, a, op), a)
  {
    hide Inv, MallocSmall, MallocLarge, FreeSmall, FreeLarge, ZoneIndex, PagesFor, CanHold, IsLive, LargeLive;
    match op
    case MallocOp(n) =>
      if 0 < n < a.limit {
        ClassFits(h, a, n);
        MallocSmallKeepsInv(h, a, ZoneIndex(n).0);
      } else if n > 0 {
        if PagesFor(n) > 0 {
          MallocLargeKeepsInv(h, a, PagesFor(n));
        } else {
          NoLargePages(h);
        }
      }
    case FreeChunkOp(z, c) => FreeSmallKeepsInv(h, a, z, c);
    case FreeLargeOp(p) => FreeLargeKeepsInv(h, a, p);
  }

  lemma NoLargePages(h: Heap)
    ensures MallocLarge(h, 0) == h
  {
  }

  /** rt_malloc returns null if and only if nothing is asked for, rounding up to pages wraps, or
      there is no room: for a chunk, in no zone of its class, no free zone and no pages for a new
      one; for pages, not enough in a row. */
  lemma {:induction false} RefusedIff(h: Heap, a: Area, n: nat)
    requires Inv(h, a) && n < WORD_RANGE
    ensures 0 < n < a.limit ==> n < 16384
    ensures Address(h, a, n) == 0 <==>
              || n == 0
              || (0 < n < a.limit && NoRoom(h.zones, ZoneIndex(n).0) && h.zones.freeZones == [] && forall p :: !AllFree(h.pool.runs, p, h.zones.pages))
              || (n >= a.limit && (PagesFor(n) == 0 || forall p :: !AllFree(h.pool.runs, p, PagesFor(n))))
  {
    hide SlabZones.Inv, PageRuns.Shared, Kinds, FirstFit, AllFree, NoRoom, ZoneIndex, ByteAt, ChunkSize, SparePage, CanHold, PagesFor, Choice;
    LimitPositive(h, a);
    if 0 < n < a.limit {
      ClassFits(h, a, n);
      var i := ZoneIndex(n).0;
      SmallRefusedIff(h, a, i);
      if Choice(h.zones, i, SparePage(h)).At? {
        ChosenInHeap(h, a, i);
      }
    } else if n > 0 && PagesFor(n) > 0 {
      MallocLargeKeepsInv(h, a, PagesFor(n));
      if FirstFit(h.pool.runs, PagesFor(n)) < |h.pool.runs| {
        NewRun(h, a, PagesFor(n));
      }
    }
  }

  lemma {:induction false} ChosenInHeap(h: Heap, a: Area, i: nat)
    requires Inv(h, a) && CanHold(h.zones, i) && Choice(h.zones, i, SparePage(h)).At?
    ensures Choice(h.zones, i, SparePage(h)).zone > 0
  {
    hide ZonesOk, Listed, FreeOk, Mapped, PageRuns.Shared, FirstFit, ChunkSize;
    var z := Choice(h.zones, i, SparePage(h)).zone;
    if h.zones.lists[i] != [] || h.zones.freeZones != [] {
      if h.zones.lists[i] != [] {
        FirstHasChunk(h.zones, i);
      } else {
        assert z in h.zones.freeZones;
      }
      assert Owned(h.zones, z);
      OutPositive(h, a, Run(z, h.zones.pages));
    } else {
      NewRun(h, a, h.zones.pages);
    }
  }

  lemma LimitPositive(h: Heap, a: Area)
    requires Inv(h, a)
    ensures 0 < a.limit <= 16384
  {
  }

  lemma {:induction false} Spares(h: Heap, a: Area)
    requires Inv(h, a)
    ensures SlabZones.Inv(h.zones) && |h.zones.lists| == NZONES && h.zones.pages > 0
    ensures SparePage(h) >= 0 <==> FirstFit(h.pool.runs, h.zones.pages) < |h.pool.runs|
  {
    hide FirstFit, PageRuns.Shared, Kinds;
    SpareIsApart(h, a);
    if FirstFit(h.pool.runs, h.zones.pages) < |h.pool.runs| {
      NewRun(h, a, h.zones.pages);
    }
  }

  /** The entry of the page of an address tells a large allocation from a chunk, and leads to the
      chunk's zone. */
  lemma {:induction false} EntryTells(h: Heap, a: Area, op: Op, address: int)
    requires Inv(h, a) && Frees(h, a, op, address)
    ensures Legal(h, a, op) && address / PAGE in h.zones.usage
    ensures op.FreeLargeOp? ==> h.zones.usage[address / PAGE].Large? && address / PAGE == op.p
    ensures op.FreeChunkOp? ==> h.zones.usage[address / PAGE].Small? && ZoneOf(h.zones.usage, address) == op.z
  {
    hide SlabZones.Inv, PageRuns.Shared, Kinds, ByteAt, ChunkSize;
    match op
    case FreeChunkOp(z, c) => LookupFindsZone(h.zones, z, c, 0);
    case FreeLargeOp(p) => assert p * PAGE / PAGE == p;
  }

  // ----- initialisation -----

  /** The pages of the page table: four bytes a page. */
  function TablePages(total: nat): nat {
    (4 * total + PAGE - 1) / PAGE
  }

  /** rt_system_heap_init over `total` pages, with zones of `pages` pages. */
  ghost function Initial(start: int, total: nat, pages: nat): Heap {
    Heap(PageRuns.Step(PageRuns.Pool([Run(start, total)], []), PageRuns.AllocOp(TablePages(total))), Empty(pages))
  }

  lemma TableFits(start: int, total: nat)
    requires total > 0
    ensures 0 < TablePages(total) <= total && FirstFit([Run(start, total)], TablePages(total)) == 0
  {
  }

  lemma {:induction false} InitialInv(start: int, total: nat, pages: nat, limit: nat)
    requires start > 0 && total > 0 && limit in {8192, 16384} && 4 * limit <= pages * PAGE
    ensures Inv(Initial(start, total, pages), Area(start, total, Run(start, TablePages(total)), limit))
  {
    hide SlabZones.Inv, Taken;
    var runs, n := [Run(start, total)], TablePages(total);
    assert 0 < n <= total;
    assert FirstFit(runs, n) == 0;
    PageRuns.InitShared(start, total);
    PageRuns.AllocKeepsShared(runs, [], start, total, n);
    EmptyInv(pages);
    var h := Initial(start, total, pages);
    assert h.pool.out == [Run(start, n)];
  }

  ghost predicate Follows(h: Heap, a: Area, op: Op, h': Heap) {
    Inv(h, a) ==> Legal(h, a, op) && h' == Step(h, a, op)
  }

  ghost predicate IsRun(states: seq<Heap>, ops: seq<Op>, a: Area) {
    |states| == |ops| + 1 && forall k :: 0 <= k < |ops| ==> Follows(states[k], a, ops[k], states[k + 1])
  }

  /** In every state of every run, pages are shared out among the free list, the zones, the large
      allocations and the table; zones and their lists are right; pages lead to their zones. */
  lemma {:induction false} RunKeepsInv(states: seq<Heap>, ops: seq<Op>, a: Area, k: nat)
    requires IsRun(states, ops, a) && Inv(states[0], a) && k < |states|
    ensures Inv(states[k], a)
  {
    hide Inv, Step, Legal;
    if k > 0 {
      RunKeepsInv(states, ops, a, k - 1);
      assert Follows(states[k - 1], a, ops[k - 1], states[k - 1 + 1]);
      StepKeepsInv(states[k - 1], a, ops[k - 1]);
    }
  }

  /** The first request for 8192 bytes on a heap of 64 pages that starts at page 2 gets page 3. */
  lemma {:induction false} MisalignedPages()
    ensures var a := Area(2, 64, Run(2, 1), 8192); var h := Initial(2, 64, 8);
            && Inv(h, a) && LargeLive(Step(h, a, MallocOp(8192)), a, 3) && 3 * PAGE % 8192 != 0
  {
    hide SlabZones.Inv, PageRuns.Shared;
    InitialInv(2, 64, 8, 8192);
    var a, h := Area(2, 64, Run(2, 1), 8192), Initial(2, 64, 8);
    assert FirstFit([Run(2, 64)], 1) == 0;
    assert h.pool == PageRuns.Pool([Run(3, 63)], [Run(2, 1)]);
    assert FirstFit([Run(3, 63)], 2) == 0;
    assert Step(h, a, MallocOp(8192)).pool.out == [Run(2, 1), Run(3, 2)];
    assert Run(3, 2) in Step(h, a, MallocOp(8192)).pool.out;
  }
}
