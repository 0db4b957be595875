/** What rt_malloc and rt_free of src/slab.c give their callers: which blocks are allocated, where
    they are and how large. */
module SlabCalls {
  import opened Sequences
  import opened PageModel
  import PageRuns
  import opened SlabModel
  import opened SlabZones
  import P = SlabPages

  /** Chunk `c` of the zone at page `z`, or the pages from page `p` on. */
  datatype Block = Chunk(z: int, c: int) | Pages(p: int)

  ghost predicate Allocated(h: P.Heap, a: P.Area, b: Block) {
    match b
    case Chunk(z, c) => IsLive(h.zones, z, c) && z in h.zones.zones && c >= 0
    case Pages(p) => P.LargeLive(h, a, p)
  }

  ghost function Start(h: P.Heap, a: P.Area, b: Block): int
    requires Allocated(h, a, b)
  {
    match b
    case Chunk(z, c) => z * PAGE + ByteAt(ChunkSize(h.zones.zones[z].index), c, 0)
    case Pages(p) => p * PAGE
  }

  ghost function Size(h: P.Heap, a: P.Area, b: Block): int
    requires Allocated(h, a, b)
  {
    match b
    case Chunk(z, c) => ChunkSize(h.zones.zones[z].index)
    case Pages(p) => h.zones.usage[p].count * PAGE
  }

  /** `b` is allocated in both states, at the same place and with the same size. */
  ghost predicate Stays(h: P.Heap, h': P.Heap, a: P.Area, b: Block) {
    && Allocated(h, a, b) && Allocated(h', a, b)
    && Start(h', a, b) == Start(h, a, b) && Size(h', a, b) == Size(h, a, b)
  }

  /** Everything allocated stays, but for `x`, and nothing else is allocated, but for `y`. */
  ghost predicate Only(h: P.Heap, h': P.Heap, a: P.Area, x: set<Block>, y: set<Block>) {
    && (forall b :: Allocated(h, a, b) && b !in x ==> Stays(h, h', a, b))
    && (forall b :: Allocated(h', a, b) ==> b in y || (Allocated(h, a, b) && b !in x))
  }

  // ----- large allocations -----

  /** The large allocation at page `p`, if there is one, is the same in both states. */
  ghost predicate KeepsPages(h: P.Heap, h': P.Heap, a: P.Area, p: int) {
    (P.LargeLive(h', a, p) <==> P.LargeLive(h, a, p)) && (P.LargeLive(h, a, p) ==> h'.zones.usage[p] == h.zones.usage[p])
  }

  /** A run `x` is taken from the free pages and the entries of its pages change: no large allocation
      is touched, and a new one is at `x` exactly if its entry says so. */
  lemma {:induction false} LargeWithRun(h: P.Heap, a: P.Area, h': P.Heap, x: Run, p: int)
    requires P.Inv(h, a) && x.count > 0 && h'.pool.out == h.pool.out + [x]
    requires forall r :: r in h.pool.out ==> r.count > 0 && (r.End() <= x.start || x.End() <= r.start)
    requires forall q :: !(x.start <= q < x.End()) ==> (q in h'.zones.usage <==> q in h.zones.usage)
    requires forall q :: q in h.zones.usage && !(x.start <= q < x.End()) ==> h'.zones.usage[q] == h.zones.usage[q]
    ensures p != x.start ==> KeepsPages(h, h', a, p)
    ensures !P.LargeLive(h, a, x.start)
    ensures P.LargeLive(h', a, x.start) <==> x.start in h'.zones.usage && h'.zones.usage[x.start] == Large(x.count)
  {
    hide P.Inv;
    TableOut(h, a);
    assert forall r :: r in h'.pool.out <==> r in h.pool.out || r == x;
  }

  lemma TableOut(h: P.Heap, a: P.Area)
    requires P.Inv(h, a)
    ensures a.table in h.pool.out
  {
  }

  /** A run `x` goes back and the entries of its pages change. */
  lemma {:induction false} LargeWithoutRun(h: P.Heap, a: P.Area, h': P.Heap, x: Run, p: int)
    requires P.Inv(h, a) && x in h.pool.out && forall r :: r in h'.pool.out <==> r in h.pool.out && r != x
    requires forall q :: !(x.start <= q < x.End()) ==> (q in h'.zones.usage <==> q in h.zones.usage)
    requires forall q :: q in h.zones.usage && !(x.start <= q < x.End()) ==> h'.zones.usage[q] == h.zones.usage[q]
    ensures p != x.start ==> KeepsPages(h, h', a, p)
    ensures !P.LargeLive(h', a, x.start)
  {
    hide P.Inv;
    forall r | r in h.pool.out && r != x ensures r.count > 0 && x.count > 0 && (r.End() <= x.start || x.End() <= r.start) {
      P.OutApart(h, a, r, x);
    }
  }

  // ----- chunks -----

  lemma {:induction false} ChunkAllocated(h: P.Heap, a: P.Area, z: int, c: int)
    requires P.Inv(h, a)
    ensures IsLive(h.zones, z, c) <==> Allocated(h, a, Chunk(z, c))
  {
    hide PageRuns.Shared, P.Kinds, Listed, Mapped, FreeOk;
    if IsLive(h.zones, z, c) {
      KeysAgree(h.zones);
      ZoneOkOf(h.zones, z);
    }
  }

  /** The zones take a chunk or give one up, and the large allocations are the same. */
  lemma {:induction false} ChunksOnly(h: P.Heap, a: P.Area, h': P.Heap, x: set<Block>, y: set<Block>)
    requires P.Inv(h, a) && P.Inv(h', a)
    requires forall z, c :: IsLive(h.zones, z, c) && Chunk(z, c) !in x ==>
               IsLive(h'.zones, z, c) && (z in h.zones.zones && z in h'.zones.zones ==> h'.zones.zones[z].index == h.zones.zones[z].index)
    requires forall z, c :: IsLive(h'.zones, z, c) ==> Chunk(z, c) in y || (IsLive(h.zones, z, c) && Chunk(z, c) !in x)
    requires forall p :: Pages(p) !in x && Pages(p) !in y ==> KeepsPages(h, h', a, p)
    requires forall p :: Pages(p) in x ==> !P.LargeLive(h', a, p)
    requires forall p :: Pages(p) in y ==> !P.LargeLive(h, a, p)
    ensures Only(h, h', a, x, y)
  {
    hide P.Inv, IsLive, ChunkSize, ByteAt;
    forall b | Allocated(h, a, b) && b !in x ensures Stays(h, h', a, b) {
      if b.Chunk? {
        ChunkAllocated(h', a, b.z, b.c);
      }
    }
    forall b | Allocated(h', a, b) ensures b in y || (Allocated(h, a, b) && b !in x) {
      if b.Chunk? {
        ChunkAllocated(h, a, b.z, b.c);
      }
    }
  }

  // ----- requests -----

  /** The block a request of `n` bytes gets. */
  ghost predicate Given(h: P.Heap, a: P.Area, h': P.Heap, n: nat, address: int, b: Block) {
    && !Allocated(h, a, b) && Allocated(h', a, b) && Start(h', a, b) == address && n <= Size(h', a, b)
    && Only(h, h', a, {}, {b})
  }

  lemma {:induction false} SmallRuns(h: P.Heap, a: P.Area, i: nat, p: int)
    requires P.Inv(h, a) && CanHold(h.zones, i)
    ensures var h' := P.MallocSmall(h, i);
            KeepsPages(h, h', a, p)
  {
    hide SlabZones.Inv, PageRuns.Shared, P.Kinds, FirstFit, PageRuns.Step, Malloc, Entered, Spare, ChunkSize;
    P.SpareIsApart(h, a);
    P.ListsLong(h.zones);
    MallocOwned(h.zones, i, P.SparePage(h));
    var h' := P.MallocSmall(h, i);
    if h.zones.lists[i] == [] && h.zones.freeZones == [] {
      if P.SparePage(h) >= 0 {
        P.NewRun(h, a, h.zones.pages);
        EnteredAt(h.zones.usage, P.SparePage(h), h.zones.pages);
        EnteredElsewhere(h.zones.usage, P.SparePage(h), h.zones.pages);
        LargeWithRun(h, a, h', Run(P.SparePage(h), h.zones.pages), p);
        assert LeadsTo(h'.zones.usage, P.SparePage(h), 0);
      } else {
        P.NoPages(h);
      }
    }
  }

  lemma EnteredElsewhere(usage: map<int, Usage>, z: int, n: nat)
    ensures forall p :: p in Entered(usage, z, n) ==> p in usage || z <= p < z + n
  {
  }

  lemma {:induction false} GivesChunk(h: P.Heap, a: P.Area, i: nat)
    requires P.Inv(h, a) && CanHold(h.zones, i)
    ensures var h', chosen := P.MallocSmall(h, i), Choice(h.zones, i, P.SparePage(h));
            match chosen {
              case NoMemory => h' == h
              case At(z, c) =>
                && P.Inv(h', a) && !Allocated(h, a, Chunk(z, c)) && Allocated(h', a, Chunk(z, c)) && h'.zones.zones[z].index == i
                && Only(h, h', a, {}, {Chunk(z, c)})
            }
  {
    hide SlabZones.Inv, PageRuns.Shared, P.Kinds, FirstFit, PageRuns.Step, Malloc, Choice, P.SparePage, Spare, ChunkSize, Allocated, Only, IsLive;
    P.SpareIsApart(h, a);
    P.ListsLong(h.zones);
    P.MallocSmallKeepsInv(h, a, i);
    var spare, h' := P.SparePage(h), P.MallocSmall(h, i);
    MallocKeepsInv(h.zones, i, spare);
    MallocClasses(h.zones, i, spare);
    match Choice(h.zones, i, spare)
    case NoMemory => Refused(h, a, i);
    case At(z, c) =>
      forall p ensures KeepsPages(h, h', a, p) {
        SmallRuns(h, a, i, p);
      }
      ChunkAllocated(h, a, z, c);
      ChunkAllocated(h', a, z, c);
      ChunksOnly(h, a, h', {}, {Chunk(z, c)});
  }

  lemma {:induction false} Refused(h: P.Heap, a: P.Area, i: nat)
    requires P.Inv(h, a) && CanHold(h.zones, i) && Choice(h.zones, i, P.SparePage(h)).NoMemory?
    ensures P.MallocSmall(h, i) == h
  {
    hide SlabZones.Inv, PageRuns.Shared, P.Kinds, FirstFit, PageRuns.Step, ChunkSize, Spare;
    P.ListsLong(h.zones);
    P.SpareIsApart(h, a);
    P.NoPages(h);
  }

  lemma {:induction false} GivesPages(h: P.Heap, a: P.Area, count: nat)
    requires P.Inv(h, a) && count > 0
    ensures var h', k := P.MallocLarge(h, count), FirstFit(h.pool.runs, count);
            if k == |h.pool.runs| then h' == h
            else
              var p := h.pool.runs[k].start;
              && P.Inv(h', a) && !Allocated(h, a, Pages(p)) && Allocated(h', a, Pages(p)) && h'.zones.usage[p].count == count
              && Only(h, h', a, {}, {Pages(p)})
  {
    hide SlabZones.Inv, PageRuns.Shared, P.Kinds, FirstFit, PageRuns.Step, Only, IsLive, ChunkSize;
    P.MallocLargeKeepsInv(h, a, count);
    var h', k := P.MallocLarge(h, count), FirstFit(h.pool.runs, count);
    if k < |h.pool.runs| {
      P.NewRun(h, a, count);
      var x := Run(h.pool.runs[k].start, count);
      forall p ensures p != x.start ==> KeepsPages(h, h', a, p) {
        LargeWithRun(h, a, h', x, p);
      }
      LargeWithRun(h, a, h', x, x.start);
      SameLive(h.zones, h'.zones);
      ChunksOnly(h, a, h', {}, {Pages(x.start)});
    }
  }

  lemma SameLive(s: State, s': State)
    requires s'.live == s.live
    ensures forall z, c :: IsLive(s', z, c) <==> IsLive(s, z, c)
  {
  }

  /** A page count that does not wrap to 0 covers the request. */
  lemma PagesCover(n: nat)
    requires n < P.WORD_RANGE && P.PagesFor(n) > 0
    ensures n <= P.PagesFor(n) * PAGE
  {
  }

  /** rt_malloc returns null and changes nothing, or the address of a block that was not allocated
      and has at least the size asked for; every other block stays as it is. */
  lemma {:induction false} MallocGives(h: P.Heap, a: P.Area, n: nat)
    requires P.Inv(h, a) && n < P.WORD_RANGE
    ensures var h', address := P.Step(h, a, P.MallocOp(n)), P.Address(h, a, n);
            if address == 0 then h' == h else exists b :: Given(h, a, h', n, address, b)
  {
    hide P.Inv, FirstFit, Choice, ChunkSize, P.MallocSmall, P.MallocLarge, P.PagesFor, Only, P.SparePage;
    var h', address := P.Step(h, a, P.MallocOp(n)), P.Address(h, a, n);
    P.LimitPositive(h, a);
    P.Spares(h, a);
    if 0 < n < a.limit {
      P.ClassFits(h, a, n);
      var i := ZoneIndex(n).0;
      ZoneIndexFits(n);
      GivesChunk(h, a, i);
      if Choice(h.zones, i, P.SparePage(h)).At? {
        P.ChosenInHeap(h, a, i);
        var chosen := Choice(h.zones, i, P.SparePage(h));
        assert Given(h, a, h', n, address, Chunk(chosen.zone, chosen.chunk));
      }
    } else if n > 0 && P.PagesFor(n) > 0 {
      GivesPages(h, a, P.PagesFor(n));
      PagesCover(n);
      PagePositive(h, a, n);
      var k := FirstFit(h.pool.runs, P.PagesFor(n));
      if k < |h.pool.runs| {
        assert Given(h, a, h', n, address, Pages(h.pool.runs[k].start));
      }
    } else if n > 0 {
      P.NoLargePages(h);
    }
  }

  lemma {:induction false} PagePositive(h: P.Heap, a: P.Area, n: nat)
    requires P.Inv(h, a) && n < P.WORD_RANGE && P.PagesFor(n) > 0
    ensures var k := FirstFit(h.pool.runs, P.PagesFor(n)); k < |h.pool.runs| ==> h.pool.runs[k].start > 0
  {
    hide SlabZones.Inv, PageRuns.Shared, P.Kinds, FirstFit, PageRuns.Step, P.PagesFor;
    if FirstFit(h.pool.runs, P.PagesFor(n)) < |h.pool.runs| {
      P.NewRun(h, a, P.PagesFor(n));
    }
  }

  // ----- frees -----

  /** The block a call frees. */
  function Freed(op: P.Op): Block
    requires !op.MallocOp?
  {
    if op.FreeChunkOp? then Chunk(op.z, op.c) else Pages(op.p)
  }

  lemma {:induction false} SmallFrees(h: P.Heap, a: P.Area, z: int, c: int, p: int)
    requires P.Inv(h, a) && IsLive(h.zones, z, c)
    ensures Run(z, h.zones.pages) in h.pool.out
    ensures var h' := P.FreeSmall(h, z, c);
            KeepsPages(h, h', a, p)
  {
    hide SlabZones.Inv, PageRuns.Shared, P.Kinds, Free, Released, Releases, Owned, RemoveAt, PageModel.Freed, P.LargeLive;
    P.ZoneRun(h, a, z, c);
    FreeOwned(h.zones, z, c);
    ReleasedElsewhere(h.zones.usage, z, h.zones.pages);
    ReleasedKeys(h.zones.usage, z, h.zones.pages);
    var h', x := P.FreeSmall(h, z, c), Run(z, h.zones.pages);
    if Releases(h.zones, z, c) {
      P.OutDistinct(h, a);
      RemoveAtMembers(h.pool.out, IndexOf(h.pool.out, x));
      LargeWithoutRun(h, a, h', x, p);
      ZoneStart(h, a, z);
    } else {
      assert KeepsPages(h, h', a, p) by { SameLarge(h, h', a, p); }
    }
  }

  lemma SameLarge(h: P.Heap, h': P.Heap, a: P.Area, p: int)
    requires h'.pool == h.pool && h'.zones.usage == h.zones.usage
    ensures P.LargeLive(h', a, p) <==> P.LargeLive(h, a, p)
    ensures P.LargeLive(h, a, p) ==> p in h.zones.usage
  {
  }

  lemma ReleasedKeys(usage: map<int, Usage>, z: int, n: nat)
    ensures forall p :: p in Released(usage, z, n) ==> p in usage || z <= p < z + n
  {
  }

  /** No large allocation is at a zone. */
  lemma {:induction false} ZoneStart(h: P.Heap, a: P.Area, z: int)
    requires P.Inv(h, a) && Owned(h.zones, z)
    ensures !P.LargeLive(h, a, z)
  {
    hide PageRuns.Shared, P.Kinds, ZonesOk, Listed, FreeOk;
    assert LeadsTo(h.zones.usage, z, 0);
  }

  /** rt_free of a block makes exactly that block free; every other block stays as it is. */
  lemma {:induction false} FreeTakes(h: P.Heap, a: P.Area, op: P.Op)
    requires P.Inv(h, a) && P.Legal(h, a, op) && !op.MallocOp?
    ensures Allocated(h, a, Freed(op)) && Only(h, P.Step(h, a, op), a, {Freed(op)}, {})
    ensures !Allocated(P.Step(h, a, op), a, Freed(op))
  {
    hide P.Inv, Only, Free, IsLive, P.LargeLive;
    P.StepKeepsInv(h, a, op);
    match op
    case FreeChunkOp(z, c) => ChunkFreed(h, a, z, c);
    case FreeLargeOp(p) => PagesFreed(h, a, p);
  }

  lemma {:induction false} ChunkFreed(h: P.Heap, a: P.Area, z: int, c: int)
    requires P.Inv(h, a) && IsLive(h.zones, z, c)
    ensures Run(z, h.zones.pages) in h.pool.out && Allocated(h, a, Chunk(z, c)) && P.Inv(P.FreeSmall(h, z, c), a)
    ensures Only(h, P.FreeSmall(h, z, c), a, {Chunk(z, c)}, {}) && !Allocated(P.FreeSmall(h, z, c), a, Chunk(z, c))
  {
    hide SlabZones.Inv, PageRuns.Shared, P.Kinds, KeepsPages, PageRuns.Step, Free, Released, Releases, Owned, Only, Allocated, IsLive;
    P.FreeSmallKeepsInv(h, a, z, c);
    var h' := P.FreeSmall(h, z, c);
    FreeKeepsInv(h.zones, z, c);
    FreeRetiresIff(h.zones, z, c);
    forall p ensures KeepsPages(h, h', a, p) {
      SmallFrees(h, a, z, c, p);
    }
    ChunkAllocated(h, a, z, c);
    ChunkAllocated(h', a, z, c);
    ChunksOnly(h, a, h', {Chunk(z, c)}, {});
  }

  lemma {:induction false} PagesFreed(h: P.Heap, a: P.Area, p: int)
    requires P.Inv(h, a) && P.LargeLive(h, a, p)
    ensures P.Inv(P.FreeLarge(h, p), a) && p in P.FreeLarge(h, p).zones.usage && P.FreeLarge(h, p).zones.usage[p] == Large(0)
    ensures Only(h, P.FreeLarge(h, p), a, {Pages(p)}, {}) && !Allocated(P.FreeLarge(h, p), a, Pages(p))
  {
    hide SlabZones.Inv, PageRuns.Shared, P.Kinds, Only, IsLive, RemoveAt, PageModel.Freed;
    P.FreeLargeKeepsInv(h, a, p);
    var h', x := P.FreeLarge(h, p), Run(p, h.zones.usage[p].count);
    P.OutDistinct(h, a);
    P.OutPositive(h, a, x);
    RemoveAtMembers(h.pool.out, IndexOf(h.pool.out, x));
    forall q ensures q != p ==> KeepsPages(h, h', a, q) {
      LargeWithoutRun(h, a, h', x, q);
    }
    LargeWithoutRun(h, a, h', x, p);
    SameLive(h.zones, h'.zones);
    ChunksOnly(h, a, h', {Pages(p)}, {});
  }

  // ----- runs -----

  /** What a run has been given and has not freed since. */
  ghost function Held(states: seq<P.Heap>, ops: seq<P.Op>, a: P.Area, n: nat): iset<Block>
    requires P.IsRun(states, ops, a) && P.Inv(states[0], a) && n <= |ops|
  {
    if n == 0 then iset b | Allocated(states[0], a, b)
    else
      var before := Held(states, ops, a, n - 1);
      if ops[n - 1].MallocOp? then before + GivenBy(states[n - 1], a, states[n], ops[n - 1].n)
      else before - iset{Freed(ops[n - 1])}
  }

  /** The block of the address that a request gets, if it gets one. */
  ghost function GivenBy(h: P.Heap, a: P.Area, h': P.Heap, n: nat): iset<Block> {
    if P.Inv(h, a) && n < P.WORD_RANGE && P.Address(h, a, n) != 0 then
      iset b | Given(h, a, h', n, P.Address(h, a, n), b)
    else iset{}
  }

  /** In every state of every run exactly those blocks are allocated that have been given and not
      freed since. */
  lemma {:induction false} RunHolds(states: seq<P.Heap>, ops: seq<P.Op>, a: P.Area, n: nat)
    requires P.IsRun(states, ops, a) && P.Inv(states[0], a) && n <= |ops|
    ensures forall b :: b in Held(states, ops, a, n) <==> Allocated(states[n], a, b)
    decreases n
  {
    hide P.Inv, P.Step, P.Legal, Allocated, Given, GivenBy;
    if n > 0 {
      RunHolds(states, ops, a, n - 1);
      P.RunKeepsInv(states, ops, a, n - 1);
      assert P.Follows(states[n - 1], a, ops[n - 1], states[n - 1 + 1]);
      StepHolds(states[n - 1], a, ops[n - 1]);
    }
  }

  lemma {:induction false} StepHolds(h: P.Heap, a: P.Area, op: P.Op)
    requires P.Inv(h, a) && P.Legal(h, a, op)
    ensures var h' := P.Step(h, a, op);
            forall b :: Allocated(h', a, b) <==>
                        if op.MallocOp? then Allocated(h, a, b) || b in GivenBy(h, a, h', op.n) else Allocated(h, a, b) && b != Freed(op)
  {
    hide P.Inv, P.Step, P.Address, Allocated;
    if op.MallocOp? {
      MallocGives(h, a, op.n);
    } else {
      FreeTakes(h, a, op);
    }
  }
}
