/** src/mem.c as it updates memory: headers with next, prev and used fields at offsets into
    the heap, the lowest-free pointer, the used-byte count, and the bytes of the heap. */
module SmallMem {
  import opened Sequences
  import opened HeapBlocks
  import opened HeapBytes
  import opened SmallMemModel
  import opened SmallMemAlloc
  import opened SmallMemRuns

  const NULL := -1

  /** The chain of headers: `next` leads from each block to the following one and `prev` back,
      except that nothing is said of the heap end's `prev`. */
  ghost predicate Chained(next: map<int, int>, prev: map<int, int>, blocks: seq<int>) {
    && (forall i :: 0 <= i < |blocks| ==> blocks[i] in next && blocks[i] in prev)
    && (forall i :: 0 <= i < |blocks| - 1 ==> next[blocks[i]] == blocks[i + 1])
    && (forall i :: 0 <= i < |blocks| - 1 ==> prev[blocks[i]] == Previous(blocks, i))
  }

  /** The first header's `prev` is its own offset. */
  function Previous(blocks: seq<int>, i: nat): int
    requires i < |blocks|
  {
    if i == 0 then blocks[0] else blocks[i - 1]
  }

  /** Inserting header `x` after block `i`; the following header is told unless it is the end. */
  lemma {:induction false} ChainedSplice(next: map<int, int>, prev: map<int, int>, blocks: seq<int>, i: nat, x: int)
    requires Chained(next, prev, blocks) && Distinct(blocks) && i + 1 < |blocks| && x !in blocks
    ensures var p := prev[x := blocks[i]];
            Chained(next[x := blocks[i + 1]][blocks[i] := x],
                    if i + 2 == |blocks| then p else p[blocks[i + 1] := x], Splice(blocks, i + 1, x))
  {
    var r := Splice(blocks, i + 1, x);
    var n, p := next[x := blocks[i + 1]][blocks[i] := x], prev[x := blocks[i]];
    var p' := if i + 2 == |blocks| then p else p[blocks[i + 1] := x];
    forall j | 0 <= j < |r| ensures r[j] in n && r[j] in p' {
      SplicePlace(blocks, i + 1, x, j);
    }
    forall j | 0 <= j < |r| - 1 ensures n[r[j]] == r[j + 1] && p'[r[j]] == Previous(r, j) {
      SplicePlace(blocks, i + 1, x, j);
      SplicePlace(blocks, i + 1, x, j + 1);
      if j > 0 {
        SplicePlace(blocks, i + 1, x, j - 1);
      }
    }
  }

  /** Taking out block `k`: the one before and the one after are joined. */
  lemma {:induction false} ChainedRemove(next: map<int, int>, prev: map<int, int>, blocks: seq<int>, k: nat)
    requires Chained(next, prev, blocks) && Distinct(blocks) && 0 < k < |blocks| - 1
    ensures Chained(next[blocks[k - 1] := blocks[k + 1]], prev[blocks[k + 1] := blocks[k - 1]], RemoveAt(blocks, k))
  {
    var r := RemoveAt(blocks, k);
    var n, p := next[blocks[k - 1] := blocks[k + 1]], prev[blocks[k + 1] := blocks[k - 1]];
    forall j | 0 <= j < |r| ensures r[j] in n && r[j] in p {
      RemovePlace(blocks, k, j);
    }
    forall j | 0 <= j < |r| - 1 ensures n[r[j]] == r[j + 1] && p[r[j]] == Previous(r, j) {
      RemovePlace(blocks, k, j);
      RemovePlace(blocks, k, j + 1);
      if j > 0 {
        RemovePlace(blocks, k, j - 1);
      }
    }
  }

  lemma ChainedAt(next: map<int, int>, prev: map<int, int>, blocks: seq<int>, i: nat)
    requires Chained(next, prev, blocks) && i + 1 < |blocks|
    ensures blocks[i] in next && blocks[i] in prev && next[blocks[i]] == blocks[i + 1] && prev[blocks[i]] == Previous(blocks, i)
  {
  }

  class Heap {
    /** mem_size_aligned */
    const memSize: int
    var next: map<int, int>
    var prev: map<int, int>
    /** Headers whose used field is set. */
    var used: set<int>
    var lfree: int
    var usedMem: int
    var maxMem: int
    var bytes: Bytes
    ghost var l: Layout

    ghost predicate Linked()
      reads this
    {
      && Chained(next, prev, l.blocks) && used == l.used && lfree == l.lfree && usedMem == l.usedMem
      && l.blocks != [] && End(l.blocks) == memSize + HDR
    }

    ghost predicate Valid()
      reads this
    {
      Linked() && Inv(l) && MIN <= memSize && memSize + 2 * HDR < WORD_RANGE && usedMem <= maxMem
    }

    /** rt_system_heap_init over an area of `size` aligned bytes */
    constructor (size: int)
      requires 2 * HDR + MIN <= size < WORD_RANGE && size % 4 == 0
      ensures Valid() && l == Fresh(size - 2 * HDR) && memSize == size - 2 * HDR
    {
      memSize := size - 2 * HDR;
      var end := size - HDR;
      next, prev := map[0 := end, end := end], map[0 := 0, end := end];
      used, lfree, usedMem, maxMem := {end}, 0, 0, 0;
      bytes := map[];
      l := Fresh(size - 2 * HDR);
      new;
      FreshInv(size - 2 * HDR);
    }

    /** Headers are written. */
    method Touch(items: set<int>, ghost heads: set<int>)
      requires items <= heads
      modifies this`bytes
      ensures KeepsBut(old(bytes), bytes, heads, HDR)
    {
      bytes := Scrub(bytes, items, HDR);
    }

    /** Create an unused header at `x` between block `i` and the next. */
    method Insert(ptr: int, x: int, ghost i: nat, ghost heads: set<int>)
      requires Linked() && Distinct(l.blocks) && i + 1 < |l.blocks| && l.blocks[i] == ptr && x !in l.blocks
      requires x in heads && forall b :: b in l.blocks ==> b in heads
      modifies this`next, this`prev, this`used, this`bytes, this`l
      ensures Linked() && KeepsBut(old(bytes), bytes, heads, HDR)
      ensures l == old(l).(blocks := Splice(old(l).blocks, i + 1, x), used := old(l).used - {x})
    {
      hide Chained, Splice, KeepsBut;
      ChainedAt(next, prev, l.blocks, i);
      ChainedSplice(next, prev, l.blocks, i, x);
      EndsSame(l.blocks, i, x);
      IsEnd(l.blocks, i + 1);
      used := used - {x};
      var after := next[ptr];
      next := next[x := after];
      prev := prev[x := ptr];
      next := next[ptr := x];
      if next[x] != memSize + HDR {
        prev := prev[next[x] := x];
      }
      l := l.(blocks := Splice(l.blocks, i + 1, x), used := used);
      Touch({x, ptr, after}, heads);
    }

    // ----- free -----

    method Forward(mem: int, ghost i: nat, ghost heads: set<int>)
      requires Linked() && Distinct(l.blocks) && i + 1 < |l.blocks| && l.blocks[i] == mem && End(l.blocks) in l.used
      requires forall b :: b in l.blocks ==> b in heads
      modifies this`next, this`prev, this`lfree, this`bytes, this`l
      ensures Linked() && l == PlugForward(old(l), i) && KeepsBut(old(bytes), bytes, heads, HDR)
    {
      hide Chained, RemoveAt, KeepsBut;
      KeepsSame(bytes, heads, HDR);
      ChainedAt(next, prev, l.blocks, i);
      var nmem := next[mem];
      if mem != nmem && nmem !in used && nmem != memSize + HDR {
        ChainedAt(next, prev, l.blocks, i + 1);
        ChainedRemove(next, prev, l.blocks, i + 1);
        EndsSameRemove(l.blocks, i + 1);
        if lfree == nmem {
          lfree := mem;
        }
        var after := next[nmem];
        next := next[mem := after];
        prev := prev[after := mem];
        l := PlugForward(l, i);
        Touch({mem, after}, heads);
      }
    }

    method Backward(mem: int, ghost i: nat, ghost heads: set<int>)
      requires Linked() && Distinct(l.blocks) && i + 1 < |l.blocks| && l.blocks[i] == mem
      requires forall b :: b in l.blocks ==> b in heads
      modifies this`next, this`prev, this`lfree, this`bytes, this`l
      ensures Linked() && l == PlugBackward(old(l), i) && KeepsBut(old(bytes), bytes, heads, HDR)
    {
      hide Chained, RemoveAt, KeepsBut;
      KeepsSame(bytes, heads, HDR);
      ChainedAt(next, prev, l.blocks, i);
      var pmem := prev[mem];
      if pmem != mem && pmem !in used {
        ChainedRemove(next, prev, l.blocks, i);
        EndsSameRemove(l.blocks, i);
        if lfree == mem {
          lfree := pmem;
        }
        var after := next[mem];
        next := next[pmem := after];
        prev := prev[after := pmem];
        l := PlugBackward(l, i);
        Touch({pmem, after}, heads);
      }
    }

    /** plug_holes */
    method PlugHoles(mem: int, ghost i: nat, ghost heads: set<int>)
      requires Linked() && Core(l) && i + 1 < |l.blocks| && l.blocks[i] == mem && mem !in l.used && MergedBut(l.blocks, l.used, i)
      requires forall b :: b in l.blocks ==> b in heads
      modifies this`next, this`prev, this`lfree, this`bytes, this`l
      ensures Linked() && l == Plug(old(l), i) && KeepsBut(old(bytes), bytes, heads, HDR)
    {
      hide Chained, UsedBytes, Tiles, MergedBut, PlugForward, PlugBackward;
      TilesDistinct(l.blocks);
      PlugForwardCore(l, i);
      TilesDistinct(PlugForward(l, i).blocks);
      Forward(mem, i, heads);
      Backward(mem, i, heads);
    }

    /** rt_free */
    method Free(rmem: int)
      requires Valid() && (rmem == NULL || Live(l, rmem - HDR))
      modifies this
      ensures Valid() && maxMem == old(maxMem)
      ensures rmem == NULL ==> l == old(l) && bytes == old(bytes)
      ensures rmem != NULL ==>
                && l == FreedBlock(old(l), rmem - HDR)
                && PayloadsKept(old(l).blocks, old(l).used, rmem - HDR, old(bytes), bytes, HDR)
    {
      hide UsedBytes, Tiles, Merged, Chained, OthersKept, PayloadsKept, KeepsBut, Freed;
      if rmem == NULL {
        return;
      }
      var mem := rmem - HDR;
      LiveIndex(l, mem);
      ghost var i := IndexOf(l.blocks, mem);
      ghost var heads := set b | b in l.blocks;
      FreedKeepsInv(l, i);
      FreedKeepsOthers(l, i);
      FreeBlock(mem, i, heads);
      FreedLess(old(l), i);
      SpacedOf(old(l));
      SpacedOf(l);
      PayloadsSafe(old(l).blocks, old(l).used, l.blocks, l.used, mem, old(bytes), bytes, heads, HDR);
    }

    method FreeBlock(mem: int, ghost i: nat, ghost heads: set<int>)
      requires Linked() && Inv(l) && i + 1 < |l.blocks| && l.blocks[i] == mem && mem in l.used
      requires heads == set b | b in l.blocks
      modifies this`next, this`prev, this`used, this`lfree, this`usedMem, this`bytes, this`l
      ensures Linked() && l == Freed(old(l), i) && KeepsBut(old(bytes), bytes, heads, HDR)
    {
      hide UsedBytes, Tiles, Merged, MergedBut, Chained, Plug;
      UnusedCore(l, i);
      ChainedAt(next, prev, l.blocks, i);
      used := used - {mem};
      if mem < lfree {
        lfree := mem;
      }
      usedMem := usedMem - (next[mem] - mem);
      l := Unused(l, i);
      Touch({mem}, heads);
      PlugHoles(mem, i, heads);
    }

    // ----- malloc -----

    /** The first-fit scan from the lowest-free pointer. */
    method Search(size: int) returns (ptr: int, found: bool, ghost k: nat)
      requires Valid() && MIN <= size <= memSize
      ensures k == Scan(l, IndexOf(l.blocks, l.lfree), memSize - size, size)
      ensures found <==> k < |l.blocks|
      ensures found ==> k + 1 < |l.blocks| && ptr == l.blocks[k] && Fits(l, k, size)
    {
      hide UsedBytes, Merged, Chained, Aligned, Scan;
      ptr := lfree;
      ghost var i := IndexOf(l.blocks, l.lfree);
      ghost var from := i;
      while ptr < memSize - size
        invariant i < |l.blocks| && ptr == l.blocks[i]
        invariant Scan(l, from, memSize - size, size) == Scan(l, i, memSize - size, size)
        decreases |l.blocks| - i
      {
        BelowEnd(l, i);
        ChainedAt(next, prev, l.blocks, i);
        ScanStep(l, i, memSize - size, size);
        if ptr !in used && next[ptr] - (ptr + HDR) >= size {
          return ptr, true, i;
        }
        ptr := next[ptr];
        i := i + 1;
      }
      ScanStep(l, i, memSize - size, size);
      return ptr, false, Scan(l, i, memSize - size, size);
    }

    /** Mark the found block used, splitting it if the rest can hold a block. */
    method Take(ptr: int, size: int, ghost k: nat, ghost heads: set<int>)
      requires Linked() && Inv(l) && Fits(l, k, size) && ptr == l.blocks[k] && size >= MIN && size % 4 == 0
      requires heads == set b | b in Marked(l, k, size).blocks
      requires forall b :: b in l.blocks ==> b in heads
      modifies this`next, this`prev, this`used, this`usedMem, this`maxMem, this`bytes, this`l
      ensures Linked() && l == Marked(old(l), k, size) && KeepsBut(old(bytes), bytes, heads, HDR)
      ensures maxMem == if old(maxMem) < usedMem then usedMem else old(maxMem)
    {
      hide UsedBytes, Tiles, Merged, Chained, Splice;
      TilesDistinct(l.blocks);
      ChainedAt(next, prev, l.blocks, k);
      if next[ptr] - (ptr + HDR) >= size + HDR + MIN {
        var ptr2 := ptr + HDR + size;
        CutCore(l, k, size);
        Insert(ptr, ptr2, k, heads);
        used := used + {ptr};
        usedMem := usedMem + size + HDR;
        assert old(l).used - {ptr2} + {ptr} == old(l).used + {ptr} - {ptr2};
      } else {
        used := used + {ptr};
        usedMem := usedMem + (next[ptr] - ptr);
      }
      l := l.(used := used, usedMem := usedMem);
      if maxMem < usedMem {
        maxMem := usedMem;
      }
      Touch({ptr}, heads);
    }

    /** The walk of the lowest-free pointer. */
    method Raise(mem: int, ghost i: nat)
      requires Linked() && Counted(l) && i + 1 < |l.blocks| && mem == l.blocks[i]
      modifies this`lfree, this`l
      ensures Linked() && l == Raised(old(l), i)
    {
      hide UsedBytes, Merged, Chained, Tiles;
      if mem == lfree {
        TilesDistinct(l.blocks);
        ghost var k := i;
        while lfree in used && lfree != memSize + HDR
          invariant i <= k < |l.blocks| && lfree == l.blocks[k] && l == old(l).(lfree := lfree) && Linked()
          invariant NextUnused(l.blocks, l.used, i) == NextUnused(l.blocks, l.used, k)
          decreases |l.blocks| - k
        {
          ChainedAt(next, prev, l.blocks, k);
          lfree := next[lfree];
          k := k + 1;
          l := l.(lfree := lfree);
        }
        IsEnd(l.blocks, k);
      }
    }

    /** The locked part of rt_malloc, for an aligned size of at least the minimum. */
    method MallocAligned(size: int) returns (p: int)
      requires Valid() && MIN <= size <= memSize && size % 4 == 0
      modifies this
      ensures Valid()
      ensures match SmallMemAlloc.Malloc(old(l), size)
              case Refused => p == NULL && l == old(l) && bytes == old(bytes)
              case Granted(h, l') => p == h + HDR && l == l' && PayloadsKept(old(l).blocks, old(l).used, h, old(bytes), bytes, HDR)
      ensures maxMem == if old(maxMem) < usedMem then usedMem else old(maxMem)
    {
      hide UsedBytes, Core, Merged, Chained, OthersKept, PayloadsKept, KeepsBut, Marked, Raised, Scan, Counted, Extent, BlockEnd;
      var ptr, found, k := Search(size);
      MallocKeepsInv(l, size);
      if !found {
        return NULL;
      }
      MarkedCounted(l, k, size);
      ghost var heads := set b | b in Marked(l, k, size).blocks;
      Take(ptr, size, k, heads);
      RaisedParts(l, k);
      Raise(ptr, k);
      SpacedOf(old(l));
      SpacedOf(l);
      PayloadsSafe(old(l).blocks, old(l).used, l.blocks, l.used, ptr, old(bytes), bytes, heads, HDR);
      return ptr + HDR;
    }

    /** rt_malloc */
    method Malloc(size: int) returns (p: int)
      requires Valid() && 0 <= size < WORD_RANGE
      modifies this
      ensures Valid()
      ensures size == 0 || Align(size) > memSize ==> p == NULL && l == old(l) && bytes == old(bytes)
      ensures size > 0 && Align(size) <= memSize ==>
                match SmallMemAlloc.Malloc(old(l), AtLeastMin(Align(size)))
                case Refused => p == NULL && l == old(l) && bytes == old(bytes)
                case Granted(h, l') => p == h + HDR && l == l' && PayloadsKept(old(l).blocks, old(l).used, h, old(bytes), bytes, HDR)
      ensures maxMem == if old(maxMem) < usedMem then usedMem else old(maxMem)
    {
      hide Core, Merged, Chained, PayloadsKept, SmallMemAlloc.Malloc, Align;
      if size == 0 {
        return NULL;
      }
      var n := Align(size);
      if n > memSize {
        return NULL;
      }
      if n < MIN {
        n := MIN;
      }
      p := MallocAligned(n);
    }

    // ----- realloc -----

    /** The splitting branch of rt_realloc. */
    method Shrink(ptr: int, n: int, ghost i: nat)
      requires Valid() && i + 1 < |l.blocks| && l.blocks[i] == ptr && ptr in l.used
      requires n >= 4 && n % 4 == 0 && n + HDR + MIN < SizeAt(l.blocks, i)
      modifies this
      ensures Valid() && maxMem == old(maxMem) && l == Shrunk(old(l), i, n)
      ensures PayloadsKept(old(l).blocks, old(l).used, ptr, old(bytes), bytes, HDR)
      ensures Carried(old(bytes), bytes, ptr + HDR, ptr + HDR, n)
    {
      hide UsedBytes, Core, Merged, Chained, OthersKept, PayloadsKept, KeepsBut, Shrunk, Carried, Extent;
      ghost var heads := (set b | b in l.blocks) + {ptr + HDR + n};
      ShrunkKeepsInv(l, i, n);
      ShrunkLess(l, i, n);
      CutBlock(ptr, n, i, heads);
      ShrunkBytes(old(l), l, i, n, old(bytes), bytes, heads);
    }

    method CutBlock(ptr: int, n: int, ghost i: nat, ghost heads: set<int>)
      requires Linked() && Inv(l) && i + 1 < |l.blocks| && l.blocks[i] == ptr && ptr in l.used
      requires n >= 4 && n % 4 == 0 && n + HDR + MIN < SizeAt(l.blocks, i)
      requires heads == (set b | b in l.blocks) + {ptr + HDR + n}
      modifies this`next, this`prev, this`used, this`lfree, this`usedMem, this`bytes, this`l
      ensures Linked() && l == Shrunk(old(l), i, n) && KeepsBut(old(bytes), bytes, heads, HDR)
    {
      hide UsedBytes, Tiles, Merged, MergedBut, Chained, Plug, Splice;
      CutInv(l, i, n);
      TilesDistinct(l.blocks);
      ChainedAt(next, prev, l.blocks, i);
      usedMem := usedMem - (next[ptr] - ptr - HDR - n);
      l := l.(usedMem := usedMem);
      Insert(ptr, ptr + HDR + n, i, heads);
      PlugHoles(ptr + HDR + n, i + 1, heads);
    }

    /** The last branch of rt_realloc: allocate, copy, free. */
    method Move(rmem: int, n: int, size: int) returns (p: int)
      requires Valid() && Live(l, rmem - HDR) && 4 <= n <= memSize && n % 4 == 0
      requires rmem + size == BlockEnd(l.blocks, rmem - HDR)
      modifies this
      ensures Valid()
      ensures MovedTo(old(l), old(bytes), rmem, n, p, l, bytes)
    {
      hide UsedBytes, Core, Merged, Chained, OthersKept, PayloadsKept, Carried, Copied, SmallMemAlloc.Malloc, Freed, Align, Extent, BlockEnd;
      ghost var h, l0, b0 := rmem - HDR, l, bytes;
      AlignFixed(n);
      MallocKeepsInv(l, AtLeastMin(n));
      GrantedAbove(l, AtLeastMin(n));
      LiveExtent(l, h);
      p := Malloc(n);
      if p != NULL {
        ghost var l1, b1 := l, bytes;
        MallocKeepsLive(l0, AtLeastMin(n), h);
        ghost var count := if size < n then size else n;
        bytes := Copied(bytes, p, rmem, if size < n then size else n);
        ghost var b2 := bytes;
        LiveAbove(l1, h);
        Free(rmem);
        SpacedOf(l1);
        MoveKeeps(l0.blocks, l0.used, l1.blocks, l1.used, HDR, h, rmem + size, p - HDR, BlockEnd(l1.blocks, p - HDR), count, b0, b1, b2, bytes);
      }
    }

    /** The locked part of rt_realloc and the move, for an aligned size within the heap */
    method ResizeAligned(rmem: int, n: int) returns (p: int)
      requires Valid() && Live(l, rmem - HDR) && 4 <= n <= memSize && n % 4 == 0
      modifies this
      ensures Valid()
      ensures ResizedTo(old(l), old(bytes), rmem, n, p, l, bytes)
    {
      hide UsedBytes, Core, Merged, Chained, PayloadsKept, Carried, Copied, SmallMemAlloc.Malloc, FreedBlock, Align, Extent, Shrunk, MovedTo;
      var mem := rmem - HDR;
      LiveIndex(l, mem);
      ghost var i := IndexOf(l.blocks, mem);
      LiveUsed(l, mem);
      ChainedAt(next, prev, l.blocks, i);
      var size := next[mem] - mem - HDR;
      if size == n {
        Untouched(l, mem, bytes, n);
        return rmem;
      }
      if n + HDR + MIN < size {
        Shrink(mem, n, i);
        return rmem;
      }
      p := Move(rmem, n, size);
      MovedIsResized(old(l), old(bytes), rmem, n, p, l, bytes);
    }

    /** rt_realloc */
    method Realloc(rmem: int, newsize: int) returns (p: int)
      requires Valid() && 0 <= newsize < WORD_RANGE && (rmem == NULL || Live(l, rmem - HDR))
      modifies this
      ensures Valid()
      ensures rmem != NULL ==> ReallocatedTo(old(l), old(bytes), rmem, newsize, p, l, bytes)
      ensures rmem != NULL ==>
                var n, was := Align(newsize), BlockEnd(old(l).blocks, rmem - HDR) - rmem;
                p == NULL <==> n == 0 || n > memSize || (n != was <= n + HDR + MIN && NoFit(old(l), AtLeastMin(n)))
      ensures rmem != NULL && newsize > 0 && p == NULL ==> ((l == old(l) && bytes == old(bytes)) <==> newsize <= WORD_RANGE - 4)
      ensures rmem == NULL && (Align(newsize) == 0 || Align(newsize) > memSize) ==> p == NULL && l == old(l) && bytes == old(bytes)
      ensures rmem == NULL && 0 < Align(newsize) <= memSize ==>
                match SmallMemAlloc.Malloc(old(l), AtLeastMin(Align(newsize)))
                case Refused => p == NULL && l == old(l) && bytes == old(bytes)
                case Granted(h, l') => p == h + HDR && l == l' && PayloadsKept(old(l).blocks, old(l).used, h, old(bytes), bytes, HDR)
    {
      hide UsedBytes, Core, Merged, Chained, PayloadsKept, Carried, Copied, SmallMemAlloc.Malloc, FreedBlock, Align, ResizedTo, SmallMemRuns.Realloc, NoFit, BlockEnd;
      if rmem != NULL {
        ResizeOutcomeIs(l, rmem - HDR, newsize);
        if newsize > 0 {
          FailsCleanlyIff(l, rmem - HDR, newsize);
        }
      }
      AlignCovers(newsize);
      var n := Align(newsize);
      if n > memSize {
        Untouched(l, rmem - HDR, bytes, 0);
        return NULL;
      } else if n == 0 {
        Free(rmem);
        return NULL;
      }
      AlignFixed(n);
      if rmem == NULL {
        p := Malloc(n);
        return;
      }
      p := ResizeAligned(rmem, n);
      ResizedIsReallocated(old(l), old(bytes), rmem, newsize, p, l, bytes);
    }
  }

  // ----- outcomes -----

  ghost predicate MovedTo(l0: Layout, b0: Bytes, rmem: int, n: int, p: int, l: Layout, bytes: Bytes)
    requires Inv(l0)
  {
    var size := BlockEnd(l0.blocks, rmem - HDR) - rmem;
    match SmallMemAlloc.Malloc(l0, AtLeastMin(n))
    case Refused => p == NULL && l == l0 && bytes == b0
    case Granted(b, l') =>
      && p == b + HDR && Live(l', rmem - HDR) && l == FreedBlock(l', rmem - HDR)
      && PayloadsKept(l0.blocks, l0.used, rmem - HDR, b0, bytes, HDR)
      && Carried(b0, bytes, rmem, p, if size < n then size else n)
  }

  /** The outcome of a resize: refused, everything is as before; granted, the layout is the
      model's, the first bytes up to the old and the new size are carried over, and no other
      live payload changed. */
  ghost predicate ResizedTo(l0: Layout, b0: Bytes, rmem: int, n: int, p: int, l: Layout, bytes: Bytes)
    requires Inv(l0) && Live(l0, rmem - HDR) && n >= 4 && n % 4 == 0
  {
    var size := BlockEnd(l0.blocks, rmem - HDR) - rmem;
    match SmallMemRuns.Realloc(l0, rmem - HDR, n)
    case Refused => p == NULL && l == l0 && bytes == b0
    case Granted(b, l') =>
      && p == b + HDR && l == l'
      && PayloadsKept(l0.blocks, l0.used, rmem - HDR, b0, bytes, HDR)
      && Carried(b0, bytes, rmem, p, if size < n then size else n)
  }

  /** The outcome of rt_realloc of a block in terms of the size asked for: a null pointer and the
      layout of the model, with nothing changed unless the block was freed; or a block to which the
      first bytes up to the old size and the size asked for are carried over. No other live payload
      changes. */
  ghost predicate ReallocatedTo(l0: Layout, b0: Bytes, rmem: int, size: int, p: int, l: Layout, bytes: Bytes)
    requires Inv(l0) && Live(l0, rmem - HDR) && 0 <= size < WORD_RANGE
  {
    var was := BlockEnd(l0.blocks, rmem - HDR) - rmem;
    && PayloadsKept(l0.blocks, l0.used, rmem - HDR, b0, bytes, HDR)
    && match Resize(l0, rmem - HDR, size)
       case Null(l') => p == NULL && l == l' && (0 < size <= WORD_RANGE - 4 ==> bytes == b0)
       case At(b, l') => p == b + HDR && l == l' && Carried(b0, bytes, rmem, p, if was < size then was else size)
  }

  lemma {:induction false} ResizedIsReallocated(l0: Layout, b0: Bytes, rmem: int, size: int, p: int, l: Layout, bytes: Bytes)
    requires Inv(l0) && Live(l0, rmem - HDR) && 0 < size <= WORD_RANGE - 4 && 4 <= Align(size) <= MemSize(l0.blocks)
    requires ResizedTo(l0, b0, rmem, Align(size), p, l, bytes)
    ensures ReallocatedTo(l0, b0, rmem, size, p, l, bytes) && (p == NULL <==> Resize(l0, rmem - HDR, size).Null?)
  {
    hide UsedBytes, Core, SmallMemRuns.Realloc, Align, BlockEnd;
    AlignCovers(size);
    Untouched(l0, rmem - HDR, b0, 0);
    if Resize(l0, rmem - HDR, size).At? {
      ResizeCovers(l0, rmem - HDR, size);
      LiveAbove(l, p - HDR);
    }
  }

  lemma {:induction false} MovedIsResized(l0: Layout, b0: Bytes, rmem: int, n: int, p: int, l: Layout, bytes: Bytes)
    requires Inv(l0) && Live(l0, rmem - HDR) && n >= 4 && n % 4 == 0 && MovedTo(l0, b0, rmem, n, p, l, bytes)
    requires BlockEnd(l0.blocks, rmem - HDR) != rmem + n && n + HDR + MIN >= BlockEnd(l0.blocks, rmem - HDR) - rmem
    ensures ResizedTo(l0, b0, rmem, n, p, l, bytes)
  {
    hide UsedBytes, Core, Merged, PayloadsKept, Carried, SmallMemAlloc.Malloc, Freed, Shrunk;
    LiveIndex(l0, rmem - HDR);
  }

  lemma AlignFixed(n: int)
    requires 0 <= n <= WORD_RANGE - 4 && n % 4 == 0
    ensures Align(n) == n
  {
  }

  lemma {:induction false} LiveAbove(l: Layout, h: int)
    requires Inv(l) && Live(l, h)
    ensures h >= 0
  {
    hide UsedBytes, Merged, Aligned;
    AscendingOrder(l.blocks, GAP, IndexOf(l.blocks, h), 0);
  }

  lemma {:induction false} GrantedAbove(l: Layout, size: int)
    requires Inv(l) && size >= MIN && size % 4 == 0
    ensures SmallMemAlloc.Malloc(l, size).Granted? ==> SmallMemAlloc.Malloc(l, size).block >= 0
  {
    hide UsedBytes, Merged, Aligned, Scan;
    var k := Scan(l, IndexOf(l.blocks, l.lfree), MemSize(l.blocks) - size, size);
    if k < |l.blocks| {
      AscendingOrder(l.blocks, GAP, k, 0);
    }
  }

  lemma {:induction false} ShrunkLess(l: Layout, i: nat, n: int)
    requires i + 1 < |l.blocks| && n < SizeAt(l.blocks, i)
    ensures Shrunk(l, i, n).usedMem <= l.usedMem
  {
    hide RemoveAt;
    SplicePlace(l.blocks, i + 1, l.blocks[i] + HDR + n, 0);
  }

  lemma {:induction false} Untouched(l: Layout, h: int, bytes: Bytes, n: int)
    ensures PayloadsKept(l.blocks, l.used, h, bytes, bytes, HDR) && Carried(bytes, bytes, h + HDR, h + HDR, n)
  {
  }

  lemma {:induction false} ShrunkBytes(l: Layout, l': Layout, i: nat, n: int, b0: Bytes, b1: Bytes, heads: set<int>)
    requires Inv(l) && Inv(l') && i + 1 < |l.blocks| && n < SizeAt(l.blocks, i)
    requires OthersKept(l.blocks, l.used, l'.blocks, l'.used, l.blocks[i]) && Extent(l'.blocks, l.blocks[i], l.blocks[i] + HDR + n)
    requires heads == (set b | b in l.blocks) + {l.blocks[i] + HDR + n} && KeepsBut(b0, b1, heads, HDR)
    ensures PayloadsKept(l.blocks, l.used, l.blocks[i], b0, b1, HDR)
    ensures Carried(b0, b1, l.blocks[i] + HDR, l.blocks[i] + HDR, n)
  {
    hide Core, Merged, OthersKept, KeepsBut, PayloadsKept, Keeps, Carried;
    SpacedOf(l);
    SpacedOf(l');
    PayloadsSafe(l.blocks, l.used, l'.blocks, l'.used, l.blocks[i], b0, b1, heads, HDR);
    HeadSafe(l.blocks, i, l.blocks[i] + HDR + n, b0, b1, heads, HDR);
    KeptStaysPut(b0, b1, l.blocks[i] + HDR, n);
  }

  lemma {:induction false} BelowEnd(l: Layout, i: nat)
    requires Inv(l) && i < |l.blocks| && l.blocks[i] < MemSize(l.blocks)
    ensures i + 1 < |l.blocks|
  {
  }

  lemma ScanStep(l: Layout, i: nat, limit: int, size: int)
    requires i < |l.blocks|
    ensures Scan(l, i, limit, size) ==
            if i + 1 >= |l.blocks| || l.blocks[i] >= limit then |l.blocks|
            else if Fits(l, i, size) then i else Scan(l, i + 1, limit, size)
  {
  }

  lemma {:induction false} SpacedOf(l: Layout)
    requires Inv(l)
    ensures Ascending(l.blocks, HDR)
  {
    hide UsedBytes, Merged, Aligned;
    forall i, j | 0 <= i < j < |l.blocks| ensures l.blocks[i] + HDR <= l.blocks[j] {
      assert l.blocks[i] + GAP <= l.blocks[j];
    }
  }

  lemma {:induction false} FreedLess(l: Layout, i: nat)
    requires Inv(l) && i + 1 < |l.blocks|
    ensures Freed(l, i).usedMem <= l.usedMem
  {
    hide UsedBytes, Merged, RemoveAt;
    BlockBelow(l.blocks, i);
  }

  lemma {:induction false} EndsSame(blocks: seq<int>, i: nat, x: int)
    requires i + 1 < |blocks|
    ensures Splice(blocks, i + 1, x) != [] && End(Splice(blocks, i + 1, x)) == End(blocks)
  {
    SplicePlace(blocks, i + 1, x, |blocks|);
  }

  lemma {:induction false} EndsSameRemove(blocks: seq<int>, k: nat)
    requires k + 1 < |blocks|
    ensures RemoveAt(blocks, k) != [] && End(RemoveAt(blocks, k)) == End(blocks)
  {
    RemovePlace(blocks, k, |blocks| - 2);
  }

  lemma {:induction false} IsEnd(blocks: seq<int>, i: nat)
    requires i < |blocks| && Distinct(blocks)
    ensures blocks[i] == End(blocks) <==> i + 1 == |blocks|
  {
  }
}
