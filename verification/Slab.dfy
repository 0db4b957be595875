/** rt_malloc and rt_free of src/slab.c over the page allocator. Zones are named by page numbers
    and their chunks by number; addresses are bytes. */
module Slab {
  import opened Sequences
  import opened PageModel
  import PageRuns
  import opened PageList
  import opened SlabModel
  import opened SlabZones
  import SlabPages

  /** The zone size for a heap of `bytes` bytes: doubled while a zone is less than a thousandth. */
  method ZoneSize(bytes: nat) returns (zoneSize: nat)
    ensures zoneSize in {32768, 65536, 131072}
    ensures zoneSize > 32768 ==> zoneSize < bytes / 1024
    ensures zoneSize < 131072 ==> bytes / 1024 <= 2 * zoneSize
  {
    zoneSize := 32768;
    while zoneSize < 131072 && zoneSize * 2 < bytes / 1024
      invariant zoneSize in {32768, 65536, 131072} && (zoneSize > 32768 ==> zoneSize < bytes / 1024)
      decreases 131072 - zoneSize
    {
      zoneSize := zoneSize * 2;
    }
  }

  class SlabAllocator {
    const pages: nat
    /** The smallest request that does not go to a zone. */
    const limit: nat
    const heap: PageAllocator
    var zones: map<int, Zone>
    var lists: seq<seq<int>>
    var freeZones: seq<int>
    var usage: map<int, Usage>
    ghost var live: map<int, set<int>>
    /** The runs of pages handed out. */
    ghost var out: seq<Run>
    ghost const area: SlabPages.Area

    ghost function Now(): State
      reads this
    {
      State(pages, zones, lists, freeZones, usage, live)
    }

    ghost function All(): SlabPages.Heap
      reads this, heap
    {
      SlabPages.Heap(PageRuns.Pool(heap.runs, out), Now())
    }

    ghost predicate Valid()
      reads this, heap
    {
      heap.Valid() && SlabPages.Inv(All(), area) && area.limit == limit
    }

    /** rt_system_heap_init over `total` pages from page `start` on */
    constructor (start: int, total: nat)
      requires start > 0 && total > 0
      ensures Valid() && fresh(heap) && pages in {8, 16, 32} && limit == if pages == 8 then 8192 else 16384
      ensures area == SlabPages.Area(start, total, Run(start, SlabPages.TablePages(total)), limit)
      ensures All() == SlabPages.Initial(start, total, pages)
    {
      var zoneSize := ZoneSize(total * PAGE);
      var zoneLimit := if zoneSize / 4 > 16384 then 16384 else zoneSize / 4;
      pages := zoneSize / PAGE;
      limit := zoneLimit;
      zones, lists, freeZones, usage, live := map[], EmptyLists(), [], map[], map[];
      var table := SlabPages.TablePages(total);
      area := SlabPages.Area(start, total, Run(start, table), zoneLimit);
      var allocator := new PageAllocator(start, total);
      heap := allocator;
      out := [Run(start, table)];
      new;
      hide SlabPages.Inv, Taken, FirstFit, SlabPages.TablePages, Canonical, Chain, EmptyLists;
      SlabPages.InitialInv(start, total, pages, limit);
      SlabPages.TableFits(start, total);
      var b := heap.Alloc(table);
      assert All() == SlabPages.Initial(start, total, pages);
    }

    // ----- malloc -----

    /** A chunk of the first zone of class `i` */
    method FromZone(i: nat) returns (z: int, c: int)
      requires Inv(Now()) && i < NZONES && lists[i] != []
      modifies this`zones, this`lists, this`freeZones, this`usage, this`live
      ensures Inv(Now()) && Now() == Take(old(Now()), i)
      ensures z == old(lists[i][0]) && z in old(zones)
      ensures old(zones[z].uindex + 1 != zones[z].nmax || zones[z].free != []) && c == old(Chunk(zones[z]))
    {
      hide ZonesOk, Listed, FreeOk, Mapped;
      FirstHasChunk(Now(), i);
      TakeKeepsInv(Now(), i);
      z := lists[i][0];
      var x := zones[z].(nfree := zones[z].nfree - 1);
      if x.nfree == 0 {
        lists := lists[i := lists[i][1..]];
      }
      if x.uindex + 1 != x.nmax {
        x := x.(uindex := x.uindex + 1);
        c := x.uindex;
      } else {
        c := x.free[0];
        x := x.(free := x.free[1..]);
      }
      zones := zones[z := x];
      live := live[z := live[z] + {c}];
    }

    /** A zone of class `i` at page `z`, its first chunk taken */
    method SetUp(i: nat, z: int)
      requires CanHold(Now(), i)
      modifies this`zones, this`lists, this`freeZones, this`usage, this`live
      ensures Now() == AddZone(old(Now()), i, z)
    {
      var size := ChunkSize(i);
      ThreeChunks(pages * PAGE, size);
      var nmax := (pages * PAGE - Offset(size)) / size;
      zones := zones[z := Zone(i, nmax, nmax - 1, 0, [])];
      lists := lists[i := [z] + lists[i]];
      live := live[z := {0}];
    }

    method Enter(z: int)
      modifies this`usage
      ensures usage == Entered(old(usage), z, pages)
    {
      var k := 0;
      while k < pages
        invariant 0 <= k <= pages && usage == Entered(old(usage), z, k)
      {
        usage := usage[z + k := Small(k)];
        k := k + 1;
      }
    }

    /** Pages from the page allocator, or 0 */
    method TakePages(n: nat) returns (b: int)
      requires Valid()
      modifies heap, this`out
      ensures heap.Valid()
      ensures n == 0 ==> b == NULL && heap.runs == old(heap.runs) && out == old(out)
      ensures n > 0 ==>
                var k := FirstFit(old(heap.runs), n);
                if k == |old(heap.runs)| then b == NULL && heap.runs == old(heap.runs) && out == old(out)
                else b == old(heap.runs)[k].start && b > NULL && PageRuns.Pool(heap.runs, out) == PageRuns.Step(old(All()).pool, PageRuns.AllocOp(n))
    {
      hide SlabPages.Inv, FirstFit, Taken, Chain, Canonical;
      b := heap.Alloc(n);
      if b != NULL {
        out := out + [Run(b, n)];
      }
    }

    /** rt_malloc at or above the zone limit */
    method MallocLarge(n: nat) returns (address: int)
      requires Valid() && limit <= n < SlabPages.WORD_RANGE
      modifies heap, this`usage, this`out
      ensures Valid() && SlabPages.Legal(old(All()), area, SlabPages.MallocOp(n))
      ensures All() == SlabPages.Step(old(All()), area, SlabPages.MallocOp(n)) && address == SlabPages.Address(old(All()), area, n)
    {
      hide SlabPages.Inv, FirstFit, PageRuns.Step, SlabPages.PagesFor, Canonical;
      SlabPages.LimitPositive(All(), area);
      SlabPages.StepKeepsInv(All(), area, SlabPages.MallocOp(n));
      var count := SlabPages.PagesFor(n);
      var b := TakePages(count);
      if b == NULL {
        return NULL;
      }
      usage := usage[b := Large(count)];
      address := b * PAGE;
    }

    /** rt_malloc below the zone limit */
    method MallocSmall(n: nat) returns (address: int)
      requires Valid() && 0 < n < limit
      modifies heap, this`zones, this`lists, this`freeZones, this`usage, this`live, this`out
      ensures Valid() && SlabPages.Legal(old(All()), area, SlabPages.MallocOp(n))
      ensures All() == SlabPages.Step(old(All()), area, SlabPages.MallocOp(n)) && address == SlabPages.Address(old(All()), area, n)
    {
      hide SlabPages.Inv, Inv, FirstFit, PageRuns.Step, Spare, Offset, ChunkSize, AddZone, Take, Canonical, Entered;
      SlabPages.ClassFits(All(), area, n);
      SlabPages.LimitPositive(All(), area);
      SlabPages.StepKeepsInv(All(), area, SlabPages.MallocOp(n));
      var (i, size) := ZoneIndex(n);
      ZoneIndexFits(n);
      ghost var was := All();
      SlabPages.Spares(was, area);
      if Choice(was.zones, i, SlabPages.SparePage(was)).At? {
        ChosenInside(was.zones, i, SlabPages.SparePage(was));
      }
      var z, c := NULL, 0;
      if lists[i] != [] {
        z, c := FromZone(i);
      } else if freeZones != [] {
        z := freeZones[0];
        freeZones := freeZones[1..];
        SetUp(i, z);
      } else {
        z := TakePages(pages);
        if z == NULL {
          SlabPages.NoPages(was);
          return NULL;
        }
        Enter(z);
        SetUp(i, z);
      }
      address := z * PAGE + Offset(size) + c * size;
    }

    /** rt_malloc */
    method Malloc(n: nat) returns (address: int)
      requires Valid() && n < SlabPages.WORD_RANGE
      modifies heap, this`zones, this`lists, this`freeZones, this`usage, this`live, this`out
      ensures Valid() && SlabPages.Legal(old(All()), area, SlabPages.MallocOp(n))
      ensures All() == SlabPages.Step(old(All()), area, SlabPages.MallocOp(n)) && address == SlabPages.Address(old(All()), area, n)
    {
      hide SlabPages.Inv, SlabPages.MallocSmall, SlabPages.MallocLarge, SlabPages.PagesFor, FirstFit;
      if n == 0 {
        return NULL;
      }
      if n >= limit {
        address := MallocLarge(n);
      } else {
        address := MallocSmall(n);
      }
    }

    // ----- free -----

    /** Where the zone is in the list of its class */
    method Place(i: nat, z: int) returns (k: nat)
      requires i < |lists| && z in lists[i] && Distinct(lists[i])
      ensures k < |lists[i]| && k == IndexOf(lists[i], z)
    {
      k := 0;
      while lists[i][k] != z
        invariant k < |lists[i]| && z !in lists[i][..k]
        decreases |lists[i]| - k
      {
        k := k + 1;
      }
      IndexIs(lists[i], k);
    }

    method Release(z: int)
      modifies this`usage
      ensures usage == Released(old(usage), z, pages)
    {
      var k := 0;
      while k < pages
        invariant 0 <= k <= pages && usage == Released(old(usage), z, k)
      {
        usage := usage[z + k := Other];
        k := k + 1;
      }
    }

    /** The wholly free zone at place `k` of its list moves to the free zones, or its pages
        are to go back to the page allocator. */
    method Retire(z: int, k: nat) returns (released: bool)
      requires Inv(Now()) && z in zones && zones[z].nfree == zones[z].nmax
      requires k < |lists[zones[z].index]| && lists[zones[z].index][k] == z
      modifies this`zones, this`lists, this`freeZones, this`usage, this`live
      ensures Inv(Now()) && Now() == Retired(old(Now()), z, k) && released == (|old(freeZones)| + 1 > RELEASE_THRESHOLD)
    {
      hide ZonesOk, Listed, FreeOk, Mapped, ZoneOk, Offset, ZoneChunks, ChunkSize;
      ZoneOkOf(Now(), z);
      RetiredKeepsInv(Now(), z, k);
      var i := zones[z].index;
      lists := lists[i := RemoveAt(lists[i], k)];
      zones := zones - {z};
      live := live - {z};
      freeZones := [z] + freeZones;
      released := |freeZones| > RELEASE_THRESHOLD;
      if released {
        freeZones := freeZones[1..];
        Release(z);
      }
    }

    method PutBackChunk(z: int, c: int)
      requires Inv(Now()) && IsLive(Now(), z, c)
      modifies this`zones, this`lists, this`freeZones, this`usage, this`live
      ensures z in old(zones) && Inv(Now()) && Now() == PutBack(old(Now()), z, c)
    {
      hide ZonesOk, Listed, FreeOk, Mapped, ZoneOk, Offset, ZoneChunks, ChunkSize;
      KeysAgree(Now());
      ZoneOkOf(Now(), z);
      PutBackKeepsInv(Now(), z, c);
      var i := zones[z].index;
      if zones[z].nfree == 0 {
        lists := lists[i := [z] + lists[i]];
      }
      zones := zones[z := zones[z].(nfree := zones[z].nfree + 1, free := [c] + zones[z].free)];
      live := live[z := live[z] - {c}];
    }

    /** The pages of outstanding run `r` go back. */
    method GiveBack(b: int, n: nat, ghost was: SlabPages.Heap)
      requires heap.Valid() && SlabPages.Inv(was, area) && was.pool == PageRuns.Pool(heap.runs, out) && Run(b, n) in out
      modifies heap, this`out
      ensures heap.Valid() && PageRuns.Pool(heap.runs, out) == PageRuns.Step(was.pool, PageRuns.FreeOp(IndexOf(was.pool.out, Run(b, n))))
    {
      hide Inv, Canonical, Freed, Chain, IsFree, Count;
      SlabPages.OutPositive(was, area, Run(b, n));
      ghost var j := IndexOf(out, Run(b, n));
      assert Outside(heap.runs, out[j].start, out[j].count);
      heap.Free(b, n);
      out := RemoveAt(out, j);
    }

    /** rt_free of a chunk, number `d` of zone `y`; the zone is found through the page's entry. */
    method FreeChunk(address: int, ghost y: int, ghost d: int)
      requires Valid() && SlabPages.Frees(All(), area, SlabPages.FreeChunkOp(y, d), address)
      requires address / PAGE in usage && usage[address / PAGE].Small? && ZoneOf(usage, address) == y
      modifies heap, this`zones, this`lists, this`freeZones, this`usage, this`live, this`out
      ensures Valid() && All() == SlabPages.Step(old(All()), area, SlabPages.FreeChunkOp(y, d))
    {
      hide SlabPages.Inv, Inv, PutBack, Retired, ByteAt, ChunkSize, PageRuns.Step, Chain, Canonical;
      ghost var was := All();
      SlabPages.StepKeepsInv(was, area, SlabPages.FreeChunkOp(y, d));
      SlabPages.ZoneRun(was, area, y, d);
      SlabPages.Spares(was, area);
      var z := ZoneOf(usage, address);
      ZoneOkOf(was.zones, z);
      ChunkNumber(ChunkSize(zones[z].index), d);
      var c := (address - z * PAGE - Offset(ChunkSize(zones[z].index))) / ChunkSize(zones[z].index);
      FreeKeepsInv(was.zones, z, c);
      PutBackLinked(was.zones, z, c);
      PutBackParts(was.zones, z, c);
      PutBackChunk(z, c);
      var i := zones[z].index;
      if zones[z].nfree == zones[z].nmax && |lists[i]| > 1 {
        ZoneOkOf(Now(), z);
        DistinctRow(Now(), i);
        var k := Place(i, z);
        var released := Retire(z, k);
        if released {
          GiveBack(z, pages, was);
        }
      }
    }

    /** rt_free of a large allocation */
    method FreeLarge(address: int, ghost p: int)
      requires Valid() && SlabPages.Frees(All(), area, SlabPages.FreeLargeOp(p), address) && address / PAGE == p
      modifies heap, this`usage, this`out
      ensures Valid() && All() == SlabPages.Step(old(All()), area, SlabPages.FreeLargeOp(p))
    {
      hide SlabPages.Inv, PageRuns.Step, Chain, Canonical;
      ghost var was := All();
      SlabPages.StepKeepsInv(was, area, SlabPages.FreeLargeOp(p));
      SlabPages.OutPositive(was, area, Run(p, usage[p].count));
      var b := address / PAGE;
      var count := usage[b].count;
      usage := usage[b := Large(0)];
      GiveBack(b, count, was);
    }

    /** rt_free: the kind of allocation is told by the entry of the address's page. */
    method Free(address: int, ghost op: SlabPages.Op)
      requires Valid() && (address != NULL ==> SlabPages.Frees(All(), area, op, address))
      modifies heap, this`zones, this`lists, this`freeZones, this`usage, this`live, this`out
      ensures address == NULL ==> All() == old(All())
      ensures Valid()
      ensures address != NULL ==> All() == SlabPages.Step(old(All()), area, op)
    {
      hide SlabPages.Inv, SlabPages.Step, ByteAt, ChunkSize;
      if address == NULL {
        return;
      }
      SlabPages.EntryTells(All(), area, op, address);
      if usage[address / PAGE].Large? {
        FreeLarge(address, op.p);
      } else {
        FreeChunk(address, op.z, op.c);
      }
    }
  }
}
