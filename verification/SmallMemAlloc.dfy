/** rt_malloc of src/mem.c on values: the first-fit scan, and exactly when it refuses. */
module SmallMemAlloc {
  import opened Sequences
  import opened HeapBlocks
  import opened SmallMemModel

  const WORD_RANGE := 0x1_0000_0000

  /** RT_ALIGN on a 32-bit size */
  function Align(size: int): (r: int)
    requires 0 <= size < WORD_RANGE
    ensures 0 <= r <= WORD_RANGE - 4 && r % 4 == 0
  {
    (size + 3) % WORD_RANGE / 4 * 4
  }

  lemma AlignCovers(size: int)
    requires 0 <= size < WORD_RANGE
    ensures size <= Align(size) < size + 4 <==> size <= WORD_RANGE - 4
    ensures size > WORD_RANGE - 4 ==> Align(size) == 0
  {
  }

  function AtLeastMin(size: int): int {
    if size < MIN then MIN else size
  }

  /** mem_size_aligned */
  function MemSize(blocks: seq<int>): int
    requires blocks != []
  {
    End(blocks) - HDR
  }

  ghost predicate Fits(l: Layout, i: nat, size: int) {
    i + 1 < |l.blocks| && l.blocks[i] !in l.used && SizeAt(l.blocks, i) >= size
  }

  /** The first-fit scan from block `i` over the blocks below `limit`. */
  ghost function Scan(l: Layout, i: nat, limit: int, size: int): (k: nat)
    ensures k < |l.blocks| ==> i <= k && Fits(l, k, size) && l.blocks[k] < limit
    decreases |l.blocks| - i
  {
    if i + 1 >= |l.blocks| || l.blocks[i] >= limit then |l.blocks|
    else if Fits(l, i, size) then i
    else Scan(l, i + 1, limit, size)
  }

  /** The scan finds a block exactly if there is one. */
  lemma {:induction false} ScanExact(l: Layout, i: nat, limit: int, size: int)
    requires Ascending(l.blocks, GAP)
    ensures var k := Scan(l, i, limit, size);
            && (k < |l.blocks| ==> forall j :: i <= j < k ==> !Fits(l, j, size))
            && (k >= |l.blocks| ==> forall j :: i <= j < |l.blocks| && l.blocks[j] < limit ==> !Fits(l, j, size))
    decreases |l.blocks| - i
  {
    if i + 1 < |l.blocks| && l.blocks[i] < limit && !Fits(l, i, size) {
      ScanExact(l, i + 1, limit, size);
    } else if i + 1 < |l.blocks| && l.blocks[i] >= limit {
      forall j | i <= j < |l.blocks| ensures l.blocks[j] >= limit {
        assert j > i ==> l.blocks[i] + GAP <= l.blocks[j];
      }
    }
  }

  /** The walk of the lowest-free pointer to the next unused block or the heap end. */
  ghost function NextUnused(blocks: seq<int>, used: set<int>, i: nat): (k: nat)
    requires i < |blocks|
    ensures i <= k < |blocks| && (blocks[k] !in used || k + 1 == |blocks|)
    ensures forall j :: i <= j < k ==> blocks[j] in used
    decreases |blocks| - i
  {
    if i + 1 == |blocks| || blocks[i] !in used then i else NextUnused(blocks, used, i + 1)
  }

  datatype Grant = Refused | Granted(block: int, layout: Layout)

  /** Unused block `i` marked used, split when the rest can hold a block. */
  ghost function Marked(l: Layout, i: nat, size: int): Layout
    requires i + 1 < |l.blocks|
  {
    var h := l.blocks[i];
    if SizeAt(l.blocks, i) >= size + HDR + MIN then
      var x := h + HDR + size;
      l.(blocks := Splice(l.blocks, i + 1, x), used := l.used + {h} - {x}, usedMem := l.usedMem + size + HDR)
    else
      l.(used := l.used + {h}, usedMem := l.usedMem + (l.blocks[i + 1] - h))
  }

  /** The lowest-free pointer moved off a block that is no longer unused. */
  ghost function Raised(l: Layout, i: nat): Layout
    requires i < |l.blocks|
  {
    if l.lfree == l.blocks[i] then l.(lfree := l.blocks[NextUnused(l.blocks, l.used, i)]) else l
  }

  /** rt_malloc of an aligned size of at least the minimum */
  ghost function Malloc(l: Layout, size: int): Grant
    requires Inv(l) && size >= MIN
  {
    var k := Scan(l, IndexOf(l.blocks, l.lfree), MemSize(l.blocks) - size, size);
    if k >= |l.blocks| then Refused
    else
      MarkedLength(l, k, size);
      Granted(l.blocks[k], Raised(Marked(l, k, size), k))
  }

  lemma MarkedLength(l: Layout, i: nat, size: int)
    requires i + 1 < |l.blocks|
    ensures i + 1 < |Marked(l, i, size).blocks| && Marked(l, i, size).blocks[i] == l.blocks[i]
  {
  }

  // ----- malloc keeps the invariant -----

  lemma {:induction false} TilesSplice(blocks: seq<int>, i: nat, x: int)
    requires Tiles(blocks) && i + 1 < |blocks| && (x - blocks[i]) % 4 == 0
    requires blocks[i] + GAP <= x && x + GAP <= blocks[i + 1]
    ensures Tiles(Splice(blocks, i + 1, x)) && SameSpan(blocks, Splice(blocks, i + 1, x)) && x !in blocks
  {
    hide Ascending, Aligned;
    AscendingSplice(blocks, GAP, i, x);
    AlignedSplice(blocks, i, x);
  }

  /** Cutting block `i` at `x`: the used bytes drop by the part cut off a used block. */
  lemma {:induction false} CutCore(l: Layout, i: nat, n: int)
    requires Inv(l) && i + 1 < |l.blocks| && n >= 4 && n % 4 == 0 && SizeAt(l.blocks, i) >= n + GAP
    ensures var x := l.blocks[i] + HDR + n; var r := Splice(l.blocks, i + 1, x);
            && Tiles(r) && SameSpan(l.blocks, r) && UsedOk(r, l.used) && x !in l.blocks && x !in l.used
            && (forall b :: b in r <==> b == x || b in l.blocks)
            && UsedBytes(r, l.used) == l.usedMem - if l.blocks[i] in l.used then l.blocks[i + 1] - x else 0
  {
    hide UsedBytes, Merged, Ascending, Aligned, Splice, RemoveAt;
    var x := l.blocks[i] + HDR + n;
    var r := Splice(l.blocks, i + 1, x);
    TilesSplice(l.blocks, i, x);
    SpliceMembers(l.blocks, i + 1, x);
    RemoveSpliced(l.blocks, i + 1, x);
    SplicePlace(l.blocks, i + 1, x, i);
    SplicePlace(l.blocks, i + 1, x, i + 1);
    SplicePlace(l.blocks, i + 1, x, i + 2);
    UsedJoin(r, l.used, i + 1);
  }

  lemma {:induction false} UnmarkedBytes(blocks: seq<int>, used: set<int>, i: nat)
    requires Tiles(blocks) && i + 1 < |blocks| && blocks[i] !in used
    ensures UsedBytes(blocks, used + {blocks[i]}) == UsedBytes(blocks, used) + (blocks[i + 1] - blocks[i])
  {
    hide UsedBytes;
    TilesDistinct(blocks);
    assert used + {blocks[i]} - {blocks[i]} == used;
    UsedMark(blocks, used + {blocks[i]}, i);
  }

  /** Everything but the lowest-free pointer. */
  ghost predicate Counted(l: Layout) {
    && Tiles(l.blocks) && UsedOk(l.blocks, l.used) && Merged(l.blocks, l.used)
    && l.usedMem == UsedBytes(l.blocks, l.used) && l.lfree in l.blocks
  }

  lemma {:induction false} MarkedCounted(l: Layout, i: nat, size: int)
    requires Inv(l) && Fits(l, i, size) && size >= MIN && size % 4 == 0
    ensures var l' := Marked(l, i, size);
            && Counted(l') && SameSpan(l.blocks, l'.blocks) && l'.used == l.used + {l.blocks[i]} && i + 1 < |l'.blocks|
            && l'.blocks[i] == l.blocks[i] && size <= SizeAt(l'.blocks, i) < size + HDR + MIN
            && OthersKept(l.blocks, l.used, l'.blocks, l'.used, l.blocks[i])
            && (forall b :: b in l'.blocks ==> b in l.blocks || (b > l.blocks[i] && b !in l'.used))
            && (forall b :: b in l.blocks ==> b in l'.blocks)
  {
    hide UsedBytes, Ascending, Aligned, Merged, OthersKept;
    var h := l.blocks[i];
    NextIsUsed(l, i);
    if SizeAt(l.blocks, i) >= size + HDR + MIN {
      var x := h + HDR + size;
      CutCore(l, i, size);
      assert l.used + {h} - {x} == l.used + {h};
      SplicePlace(l.blocks, i + 1, x, i);
      SplicePlace(l.blocks, i + 1, x, i + 1);
      UnmarkedBytes(Splice(l.blocks, i + 1, x), l.used, i);
      MergedAfterSplit(l.blocks, l.used, i, x);
      SplitKeepsOthers(l.blocks, l.used, i, x);
    } else {
      UnmarkedBytes(l.blocks, l.used, i);
      MarkKeeps(l.blocks, l.used, h);
    }
  }

  lemma {:induction false} NextIsUsed(l: Layout, i: nat)
    requires Inv(l) && i + 1 < |l.blocks| && l.blocks[i] !in l.used
    ensures l.blocks[i + 1] in l.used
  {
  }

  lemma {:induction false} SplitKeepsOthers(blocks: seq<int>, used: set<int>, i: nat, x: int)
    requires i + 1 < |blocks|
    ensures OthersKept(blocks, used, Splice(blocks, i + 1, x), used + {blocks[i]}, blocks[i])
    ensures OthersKept(blocks, used, Splice(blocks, i + 1, x), used, blocks[i])
  {
    hide Extent;
    SpliceKeepsExtents(blocks, i, x);
  }

  lemma {:induction false} MarkKeeps(blocks: seq<int>, used: set<int>, h: int)
    requires Merged(blocks, used)
    ensures Merged(blocks, used + {h}) && OthersKept(blocks, used, blocks, used + {h}, h)
  {
  }

  lemma {:induction false} RaisedInv(l: Layout, i: nat)
    requires Counted(l) && i + 1 < |l.blocks| && (l.lfree == l.blocks[i] || l.lfree !in l.used || l.lfree == End(l.blocks))
    ensures Inv(Raised(l, i)) && (Lowest(l) ==> Lowest(Raised(l, i)))
  {
    hide UsedBytes, Merged, Aligned;
    if l.lfree == l.blocks[i] {
      var k := NextUnused(l.blocks, l.used, i);
      if Lowest(l) {
        forall b | b in l.blocks && b !in l.used ensures l.blocks[k] <= b {
          var j :| 0 <= j < |l.blocks| && l.blocks[j] == b;
          AscendingOrder(l.blocks, GAP, j, i);
          AscendingOrder(l.blocks, GAP, j, k);
        }
      }
    }
  }

  /** A granted request gets an unused block of its size, less than one smallest block more;
      no other live block moves, and the lowest-free pointer stays lowest. */
  lemma {:induction false} MallocKeepsInv(l: Layout, size: int)
    requires Inv(l) && size >= MIN && size % 4 == 0
    ensures match Malloc(l, size)
            case Refused => true
            case Granted(h, l') =>
              && Inv(l') && SameSpan(l.blocks, l'.blocks) && l'.used == l.used + {h} && h !in l.used && (Lowest(l) ==> Lowest(l'))
              && OthersKept(l.blocks, l.used, l'.blocks, l'.used, h) && Extent(l'.blocks, h, BlockEnd(l'.blocks, h))
              && h + HDR + size <= BlockEnd(l'.blocks, h) < h + size + 2 * HDR + MIN
              && (forall b :: b in l.blocks ==> b in l'.blocks)
  {
    hide UsedBytes, Counted, Merged, Tiles, OthersKept, Marked, Raised;
    var k := Scan(l, IndexOf(l.blocks, l.lfree), MemSize(l.blocks) - size, size);
    if k < |l.blocks| {
      var l1 := Marked(l, k, size);
      MarkedCounted(l, k, size);
      MarkedLfree(l, k, size);
      RaisedInv(l1, k);
      RaisedParts(l1, k);
      BlockEndAt(l1, k);
    }
  }

  lemma RaisedParts(l: Layout, i: nat)
    requires i < |l.blocks|
    ensures var l' := Raised(l, i); l'.blocks == l.blocks && l'.used == l.used && l'.usedMem == l.usedMem
  {
  }

  /** Where the block at `h` ends. */
  ghost function BlockEnd(blocks: seq<int>, h: int): int {
    if h in blocks && IndexOf(blocks, h) + 1 < |blocks| then blocks[IndexOf(blocks, h) + 1] else h
  }

  lemma {:induction false} BlockEndAt(l: Layout, i: nat)
    requires Counted(l) && i + 1 < |l.blocks|
    ensures BlockEnd(l.blocks, l.blocks[i]) == l.blocks[i + 1] && Extent(l.blocks, l.blocks[i], l.blocks[i + 1])
    ensures IndexOf(l.blocks, l.blocks[i]) == i
  {
    hide UsedBytes, Merged;
    TilesDistinct(l.blocks);
    IndexIs(l.blocks, i);
  }

  lemma {:induction false} MarkedLfree(l: Layout, i: nat, size: int)
    requires Inv(l) && Fits(l, i, size) && size >= MIN && size % 4 == 0 && Counted(Marked(l, i, size))
    requires Marked(l, i, size).used == l.used + {l.blocks[i]} && SameSpan(l.blocks, Marked(l, i, size).blocks)
    requires forall b :: b in Marked(l, i, size).blocks ==> b in l.blocks || (b > l.blocks[i] && b !in Marked(l, i, size).used)
    ensures var l' := Marked(l, i, size);
            l'.lfree == l.lfree && (l'.lfree == l'.blocks[i] || l'.lfree !in l'.used || l'.lfree == End(l'.blocks))
    ensures Lowest(l) ==> Lowest(Marked(l, i, size))
  {
    hide UsedBytes, Merged, Tiles;
    MarkedLength(l, i, size);
    if Lowest(l) {
      forall b | b in Marked(l, i, size).blocks && b !in Marked(l, i, size).used ensures l.lfree <= b {
        assert l.lfree <= l.blocks[i];
      }
    }
  }

  // ----- when malloc fails -----

  /** A request is refused exactly when every unused block from the lowest-free pointer on is
      too small, but for one of exactly its size at the very end of the heap. */
  lemma {:induction false} RefusedIff(l: Layout, size: int)
    requires Inv(l) && size >= MIN
    ensures Malloc(l, size).Refused? <==>
            forall i :: 0 <= i < |l.blocks| && l.blocks[i] >= l.lfree && Fits(l, i, size) ==> l.blocks[i] == MemSize(l.blocks) - size
  {
    hide UsedBytes, Merged, Aligned, Scan;
    var limit, from := MemSize(l.blocks) - size, IndexOf(l.blocks, l.lfree);
    var k := Scan(l, from, limit, size);
    ScanExact(l, from, limit, size);
    forall i | 0 <= i < |l.blocks| ensures (l.blocks[i] >= l.lfree <==> i >= from) && (Fits(l, i, size) ==> l.blocks[i] <= limit) {
      AscendingOrder(l.blocks, GAP, i, from);
      if i + 2 < |l.blocks| {
        assert l.blocks[i + 1] + GAP <= End(l.blocks);
      }
    }
  }

  /** With the lowest-free pointer lowest, the refusal is about every unused block. */
  lemma {:induction false} RefusedIffNoFit(l: Layout, size: int)
    requires Inv(l) && Lowest(l) && size >= MIN
    ensures Malloc(l, size).Refused? <==>
            forall i :: 0 <= i < |l.blocks| && Fits(l, i, size) ==> l.blocks[i] == MemSize(l.blocks) - size
  {
    hide Inv, Malloc;
    RefusedIff(l, size);
    forall i | 0 <= i < |l.blocks| && Fits(l, i, size) ensures l.lfree <= l.blocks[i] {
    }
  }
}
