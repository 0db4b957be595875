/** Allocation and resizing in the memory-heap model, and what allocation and the steps of resizing
    keep. */
module MemHeapAlloc {
  import opened Sequences
  import opened HeapBlocks
  import opened MemHeapModel

  /** Payload bytes of a block; the tail has none. */
  ghost function SizeOf(blocks: seq<int>, b: int): int {
    if b in blocks && IndexOf(blocks, b) + 1 < |blocks| then SizeAt(blocks, IndexOf(blocks, b)) else 0
  }

  lemma {:induction false} SizeOfAt(blocks: seq<int>, i: nat)
    requires Tiles(blocks) && i + 1 < |blocks|
    ensures IndexOf(blocks, blocks[i]) == i && SizeOf(blocks, blocks[i]) == SizeAt(blocks, i)
  {
    TilesDistinct(blocks);
    IndexIs(blocks, i);
  }

  /** The first block of the free list that is large enough. */
  ghost function FirstFit(blocks: seq<int>, free: seq<int>, size: int): (k: nat)
    ensures k <= |free| && (k < |free| ==> SizeOf(blocks, free[k]) >= size)
    ensures forall j :: 0 <= j < k ==> SizeOf(blocks, free[j]) < size
  {
    if free == [] || SizeOf(blocks, free[0]) >= size then 0 else 1 + FirstFit(blocks, free[1..], size)
  }

  datatype Grant = Refused | Granted(block: int, layout: Layout)

  /** The unused block `h` handed out, split when the rest can hold a block. */
  ghost function Taken(l: Layout, h: int, size: int): Layout
    requires Inv(l) && h in l.free
  {
    if SizeOf(l.blocks, h) >= size + HDR + MIN then
      var x := h + HDR + size;
      Layout(Splice(l.blocks, IndexOf(l.blocks, h) + 1, x), l.used + {h} - {x}, [x] + Without(l.free, h), l.available - size - HDR)
    else
      Layout(l.blocks, l.used + {h}, Without(l.free, h), l.available - SizeOf(l.blocks, h))
  }

  /** rt_memheap_alloc of a rounded size */
  ghost function Allocate(l: Layout, size: int): Grant
    requires Inv(l)
  {
    var k := FirstFit(l.blocks, l.free, size);
    if size >= l.available || k == |l.free| then Refused else Granted(l.free[k], Taken(l, l.free[k], size))
  }

  /** The boundary between block `i` and the unused block after it moved to make block
      `i` hold `n` bytes. */
  ghost function Moved(l: Layout, i: nat, n: int): Layout
    requires i + 1 < |l.blocks| && l.blocks[i + 1] in l.free
  {
    var x := l.blocks[i] + HDR + n;
    Layout(l.blocks[i + 1 := x], l.used - {x}, [x] + Without(l.free, l.blocks[i + 1]), l.available - (n - SizeAt(l.blocks, i)))
  }

  /** Block `i` cut to `n` bytes and the rest made an unused block. */
  ghost function Cut(l: Layout, i: nat, n: int): Layout
    requires i + 1 < |l.blocks|
  {
    var x := l.blocks[i] + HDR + n;
    Layout(Splice(l.blocks, i + 1, x), l.used - {x}, [x] + l.free, l.available + (SizeAt(l.blocks, i) - n - HDR))
  }

  ghost predicate Live(l: Layout, h: int) {
    h in l.used && h in l.blocks && h != l.blocks[|l.blocks| - 1]
  }

  lemma LiveIndex(l: Layout, h: int)
    requires Inv(l) && Live(l, h)
    ensures IndexOf(l.blocks, h) + 1 < |l.blocks|
  {
  }

  /** rt_memheap_free of a live block */
  ghost function FreedBlock(l: Layout, h: int): Layout
    requires Inv(l) && Live(l, h)
  {
    LiveIndex(l, h);
    Freed(l, IndexOf(l.blocks, h))
  }

  /** The test for growth in place, on 32-bit words. */
  predicate GrowTest(size: int, nextSize: int, n: int) {
    (nextSize + size) % WORD_RANGE > (n + MIN) % WORD_RANGE
  }

  /** The growth in place itself: the unused block after `i` is rebuilt behind `n` bytes. The
      new header's address and the available bytes are 32-bit words. */
  ghost function Grown(l: Layout, i: nat, n: int): Layout
    requires i + 1 < |l.blocks| && l.blocks[i + 1] in l.free
  {
    var x := (l.blocks[i] + HDR + n) % WORD_RANGE;
    Layout(l.blocks[i + 1 := x], l.used - {x}, [x] + Without(l.free, l.blocks[i + 1]),
           (l.available - (n - SizeAt(l.blocks, i))) % WORD_RANGE)
  }

  /** rt_memheap_realloc of a live block to a rounded size */
  ghost function Reallocate(l: Layout, h: int, n: int): Grant
    requires Inv(l) && Live(l, h) && n >= MIN && n % 4 == 0
  {
    LiveIndex(l, h);
    var i := IndexOf(l.blocks, h);
    var size := SizeAt(l.blocks, i);
    if n > size && l.blocks[i + 1] !in l.used && GrowTest(size, SizeAt(l.blocks, i + 1), n) then Granted(h, Grown(l, i, n))
    else if n > size then
      match Allocate(l, n)
      case Refused => Refused
      case Granted(b, l') =>
        AllocateKeepsInv(l, n);
        Granted(b, FreedBlock(l', h))
    else if n + HDR + MIN >= size then Granted(h, l)
    else if l.blocks[i + 1] in l.used then Granted(h, Cut(l, i, n))
    else Granted(h, Moved(l, i, n))
  }

  // ----- allocation -----

  lemma {:induction false} TilesSplice(blocks: seq<int>, i: nat, x: int)
    requires Tiles(blocks) && i + 1 < |blocks| && (x - blocks[i]) % 4 == 0
    requires blocks[i] + HDR + MIN <= x && x + HDR + MIN <= blocks[i + 1]
    ensures Tiles(Splice(blocks, i + 1, x)) && SameSpan(blocks, Splice(blocks, i + 1, x)) && x !in blocks
  {
    hide Ascending, Aligned;
    AscendingSplice(blocks, HDR + MIN, i, x);
    AlignedSplice(blocks, i, x);
  }

  lemma {:induction false} FreeIsIndex(l: Layout, h: int)
    requires Inv(l) && h in l.free
    ensures h in l.blocks && h !in l.used && IndexOf(l.blocks, h) + 1 < |l.blocks|
    ensures SizeOf(l.blocks, h) == SizeAt(l.blocks, IndexOf(l.blocks, h))
    ensures l.blocks[IndexOf(l.blocks, h) + 1] in l.used
  {
    hide FreeBytes;
  }

  /** The split of an unused block, before one half is marked used. */
  lemma {:induction false} SplitCore(l: Layout, i: nat, size: int)
    requires Inv(l) && i + 1 < |l.blocks| && size >= MIN && size % 4 == 0 && SizeAt(l.blocks, i) >= size + HDR + MIN
    ensures var x := l.blocks[i] + HDR + size; var r := Splice(l.blocks, i + 1, x);
            && Tiles(r) && SameSpan(l.blocks, r) && UsedOk(r, l.used) && x !in l.blocks && x !in l.used
            && FreeBytes(r, l.used) == l.available + if l.blocks[i] in l.used then SizeAt(l.blocks, i) - size - HDR else -HDR
  {
    hide FreeBytes;
    var x := l.blocks[i] + HDR + size;
    var r := Splice(l.blocks, i + 1, x);
    TilesSplice(l.blocks, i, x);
    SpliceMembers(l.blocks, i + 1, x);
    RemoveSpliced(l.blocks, i + 1, x);
    FreeBytesJoin(r, l.used, i + 1);
  }

  lemma {:induction false} UnmarkedBytes(blocks: seq<int>, used: set<int>, i: nat)
    requires Tiles(blocks) && i + 1 < |blocks| && blocks[i] !in used
    ensures FreeBytes(blocks, used + {blocks[i]}) == FreeBytes(blocks, used) - SizeAt(blocks, i)
  {
    hide FreeBytes;
    TilesDistinct(blocks);
    assert used + {blocks[i]} - {blocks[i]} == used;
    FreeBytesMark(blocks, used + {blocks[i]}, used, i);
  }

  lemma {:induction false} TakenKeepsInv(l: Layout, h: int, size: int)
    requires Inv(l) && h in l.free && size >= MIN && size % 4 == 0 && SizeOf(l.blocks, h) >= size
    ensures var l' := Taken(l, h, size);
            && Inv(l') && SameSpan(l.blocks, l'.blocks) && Live(l', h) && OthersKept(l.blocks, l.used, l'.blocks, l'.used, h)
            && l'.used == l.used + {h}
            && size <= SizeOf(l'.blocks, h) < size + HDR + MIN
  {
    hide FreeBytes, Inv, SizeOf, SameSpan, OthersKept, Live;
    FreeIsIndex(l, h);
    var i := IndexOf(l.blocks, h);
    if SizeOf(l.blocks, h) >= size + HDR + MIN {
      TakenSplit(l, i, size);
    } else {
      TakenWhole(l, i);
    }
  }

  lemma {:induction false} TakenWhole(l: Layout, i: nat)
    requires Inv(l) && i + 1 < |l.blocks| && l.blocks[i] in l.free
    ensures var h := l.blocks[i]; var l' := Layout(l.blocks, l.used + {h}, Without(l.free, h), l.available - SizeAt(l.blocks, i));
            Inv(l') && SameSpan(l.blocks, l'.blocks) && Live(l', h) && OthersKept(l.blocks, l.used, l'.blocks, l'.used, h) && SizeOf(l'.blocks, h) == SizeAt(l.blocks, i)
  {
    hide FreeBytes, SizeOf;
    UnmarkedBytes(l.blocks, l.used, i);
    WithoutMembers(l.free, l.blocks[i]);
    SizeOfAt(l.blocks, i);
  }

  lemma {:induction false} TakenSplit(l: Layout, i: nat, size: int)
    requires Inv(l) && i + 1 < |l.blocks| && l.blocks[i] in l.free && l.blocks[i] !in l.used && l.blocks[i + 1] in l.used
    requires size >= MIN && size % 4 == 0 && SizeAt(l.blocks, i) >= size + HDR + MIN
    ensures var h := l.blocks[i]; var x := h + HDR + size;
            var l' := Layout(Splice(l.blocks, i + 1, x), l.used + {h} - {x}, [x] + Without(l.free, h), l.available - size - HDR);
            && Inv(l') && SameSpan(l.blocks, l'.blocks) && Live(l', h) && OthersKept(l.blocks, l.used, l'.blocks, l'.used, h)
            && SizeOf(l'.blocks, h) == size && l'.used == l.used + {h}
  {
    hide FreeBytes, SizeOf, Tiles, Merged, ListsUnused, OthersKept;
    var h := l.blocks[i];
    var x := h + HDR + size;
    var r := Splice(l.blocks, i + 1, x);
    SplitCore(l, i, size);
    assert l.used + {h} - {x} == l.used + {h};
    UnmarkedBytes(r, l.used, i);
    MergedAfterSplit(l.blocks, l.used, i, x);
    SizeOfAt(r, i);
    ListsAfterSplit(l, i, x);
    OthersAfterSplit(l, i, x);
  }

  lemma {:induction false} ListsAfterSplit(l: Layout, i: nat, x: int)
    requires Inv(l) && i + 1 < |l.blocks| && l.blocks[i] in l.free && x !in l.blocks
    ensures ListsUnused([x] + Without(l.free, l.blocks[i]), Splice(l.blocks, i + 1, x), l.used + {l.blocks[i]})
  {
    hide FreeBytes, Merged, Tiles;
    SpliceMembers(l.blocks, i + 1, x);
    WithoutMembers(l.free, l.blocks[i]);
    PushMembers(Without(l.free, l.blocks[i]), x);
  }

  lemma {:induction false} OthersAfterSplit(l: Layout, i: nat, x: int)
    requires i + 1 < |l.blocks|
    ensures OthersKept(l.blocks, l.used, Splice(l.blocks, i + 1, x), l.used + {l.blocks[i]}, l.blocks[i])
  {
    SpliceKeepsExtents(l.blocks, i, x);
  }

  /** A granted request gets a live block of at least its size and less than one smallest
      block more; no other live block moves. */
  lemma {:induction false} AllocateKeepsInv(l: Layout, size: int)
    requires Inv(l) && size >= MIN && size % 4 == 0
    ensures match Allocate(l, size)
            case Refused => true
            case Granted(h, l') =>
              && Inv(l') && SameSpan(l.blocks, l'.blocks) && h !in l.used && Live(l', h) && OthersKept(l.blocks, l.used, l'.blocks, l'.used, h)
              && l'.used == l.used + {h} && size <= SizeOf(l'.blocks, h) < size + HDR + MIN
  {
    hide FreeBytes, Tiles, SizeOf, Merged;
    var k := FirstFit(l.blocks, l.free, size);
    if k < |l.free| {
      TakenKeepsInv(l, l.free[k], size);
    }
  }

  // ----- moving a boundary -----

  lemma {:induction false} TilesMove(blocks: seq<int>, i: nat, x: int)
    requires Tiles(blocks) && i + 2 < |blocks| && (x - blocks[i]) % 4 == 0
    requires blocks[i] + HDR + MIN <= x && x + HDR + MIN <= blocks[i + 2]
    ensures var r := blocks[i + 1 := x];
            && Tiles(r) && SameSpan(blocks, r) && (x == blocks[i + 1] || x !in blocks)
            && r == Splice(RemoveAt(blocks, i + 1), i + 1, x)
  {
    hide Ascending, Aligned;
    TilesRemove(blocks, i + 1);
    var s := RemoveAt(blocks, i + 1);
    TilesSplice(s, i, x);
    assert blocks[i + 1 := x] == Splice(s, i + 1, x);
    RemoveAtMembers(blocks, i + 1) by { TilesDistinct(blocks); }
  }

  lemma {:induction false} MoveBytes(blocks: seq<int>, used: set<int>, i: nat, x: int)
    requires i + 2 < |blocks| && blocks[i] in used && blocks[i + 1] !in used && x !in used
    ensures FreeBytes(blocks[i + 1 := x], used) == FreeBytes(blocks, used) - (x - blocks[i + 1])
  {
    hide FreeBytes;
    var r := blocks[i + 1 := x];
    FreeBytesReplace(blocks, r, used, i, i + 2, i + 2);
    assert blocks[i..i + 3] == [blocks[i], blocks[i + 1], blocks[i + 2]];
    assert r[i..i + 3] == [blocks[i], x, blocks[i + 2]];
    FreeBytesTwo(blocks[i], blocks[i + 1], blocks[i + 2], used);
    FreeBytesTwo(blocks[i], x, blocks[i + 2], used);
  }

  lemma {:induction false} MovedMembers(blocks: seq<int>, i: nat, x: int)
    requires Tiles(blocks) && i + 2 < |blocks|
    requires blocks[i + 1 := x] == Splice(RemoveAt(blocks, i + 1), i + 1, x)
    ensures forall b :: b in blocks[i + 1 := x] <==> b == x || (b in blocks && b != blocks[i + 1])
  {
    hide Tiles, Splice, Distinct;
    TilesDistinct(blocks);
    RemoveAtMembers(blocks, i + 1);
    SpliceMembers(RemoveAt(blocks, i + 1), i + 1, x);
  }

  lemma {:induction false} RelistedMembers(free: seq<int>, b: int, x: int)
    requires Distinct(free) && b in free && (x == b || x !in free)
    ensures Distinct([x] + Without(free, b))
    ensures forall y :: y in [x] + Without(free, b) <==> y == x || (y in free && y != b)
  {
    hide Without, Distinct;
    WithoutMembers(free, b);
    PushMembers(Without(free, b), x);
  }

  lemma {:induction false} MovedLists(l: Layout, i: nat, x: int)
    requires Inv(l) && i + 2 < |l.blocks| && l.blocks[i + 1] in l.free && (x == l.blocks[i + 1] || x !in l.blocks)
    requires l.blocks[i + 1 := x] == Splice(RemoveAt(l.blocks, i + 1), i + 1, x)
    ensures var r := l.blocks[i + 1 := x];
            && ListsUnused([x] + Without(l.free, l.blocks[i + 1]), r, l.used) && UsedOk(r, l.used)
  {
    hide FreeBytes, Tiles, Merged, Splice, RemoveAt, Without, Distinct;
    MovedMembers(l.blocks, i, x);
    RelistedMembers(l.free, l.blocks[i + 1], x);
  }

  lemma {:induction false} MovedTiles(l: Layout, i: nat, n: int)
    requires Inv(l) && i + 2 < |l.blocks|
    requires n >= MIN && n % 4 == 0 && l.blocks[i] + HDR + n + HDR + MIN <= l.blocks[i + 2]
    ensures var x := l.blocks[i] + HDR + n; var r := l.blocks[i + 1 := x];
            && Tiles(r) && SameSpan(l.blocks, r) && (x == l.blocks[i + 1] || x !in l.blocks)
            && r == Splice(RemoveAt(l.blocks, i + 1), i + 1, x)
  {
    hide FreeBytes, Tiles, Merged, ListsUnused, UsedOk, SameSpan, Splice, RemoveAt;
    TilesMove(l.blocks, i, l.blocks[i] + HDR + n);
  }

  lemma {:induction false} MovedKeepsInv(l: Layout, i: nat, n: int)
    requires Inv(l) && i + 2 < |l.blocks| && l.blocks[i] in l.used && l.blocks[i + 1] in l.free
    requires n >= MIN && n % 4 == 0 && l.blocks[i] + HDR + n + HDR + MIN <= l.blocks[i + 2]
    ensures var l' := Moved(l, i, n);
            && Inv(l') && SameSpan(l.blocks, l'.blocks) && l'.used == l.used && Live(l', l.blocks[i])
            && OthersKept(l.blocks, l.used, l'.blocks, l'.used, l.blocks[i]) && SizeOf(l'.blocks, l.blocks[i]) == n
  {
    hide FreeBytes, Tiles, Merged, SizeOf, ListsUnused, UsedOk, OthersKept, SameSpan, Splice, RemoveAt, Without;
    var x := l.blocks[i] + HDR + n;
    MovedTiles(l, i, n);
    ListedIsUnused(l, l.blocks[i + 1]);
    MovedUnused(l, i, x);
    assert l.used - {x} == l.used;
    MovedLists(l, i, x);
    MoveBytes(l.blocks, l.used, i, x);
    SizeOfAt(l.blocks[i + 1 := x], i);
    MovedOthers(l.blocks, l.used, i, x);
    LiveAt(l.blocks[i + 1 := x], l.used, i);
  }

  lemma {:induction false} MovedUnused(l: Layout, i: nat, x: int)
    requires Inv(l) && i + 2 < |l.blocks| && l.blocks[i + 1] !in l.used && (x == l.blocks[i + 1] || x !in l.blocks)
    ensures x !in l.used && Merged(l.blocks[i + 1 := x], l.used)
  {
  }

  lemma {:induction false} ListedIsUnused(l: Layout, b: int)
    requires Inv(l) && b in l.free
    ensures b !in l.used && b in l.blocks
  {
  }

  lemma {:induction false} LiveAt(blocks: seq<int>, used: set<int>, i: nat)
    requires Tiles(blocks) && i + 1 < |blocks|
    ensures blocks[i] in blocks && blocks[i] != blocks[|blocks| - 1]
  {
  }

  lemma {:induction false} MovedOthers(blocks: seq<int>, used: set<int>, i: nat, x: int)
    requires i + 2 < |blocks| && blocks[i + 1] !in used
    ensures OthersKept(blocks, used, blocks[i + 1 := x], used, blocks[i])
  {
    var r := blocks[i + 1 := x];
    forall k | 0 <= k < |blocks| - 1 && k != i && k != i + 1 ensures Extent(r, blocks[k], blocks[k + 1]) {
      assert r[k] == blocks[k] && r[k + 1] == blocks[k + 1];
    }
  }

  lemma {:induction false} CutKeepsInv(l: Layout, i: nat, n: int)
    requires Inv(l) && i + 1 < |l.blocks| && l.blocks[i] in l.used && l.blocks[i + 1] in l.used
    requires n >= MIN && n % 4 == 0 && SizeAt(l.blocks, i) >= n + HDR + MIN
    ensures var l' := Cut(l, i, n);
            && Inv(l') && SameSpan(l.blocks, l'.blocks) && l'.used == l.used && Live(l', l.blocks[i])
            && OthersKept(l.blocks, l.used, l'.blocks, l'.used, l.blocks[i]) && SizeOf(l'.blocks, l.blocks[i]) == n
  {
    hide FreeBytes, Tiles, Merged, SizeOf, ListsUnused, UsedOk, OthersKept, SameSpan, Splice;
    var x := l.blocks[i] + HDR + n;
    var r := Splice(l.blocks, i + 1, x);
    SplicePlaces(l.blocks, i, x);
    SplitCore(l, i, n);
    assert l.used - {x} == l.used && l.used + {l.blocks[i]} == l.used;
    MergedAfterSplit(l.blocks, l.used, i, x);
    SizeOfAt(r, i);
    LiveAt(r, l.used, i);
    OthersAfterSplit(l, i, x);
    CutLists(l, i, x);
  }

  lemma {:induction false} CutLists(l: Layout, i: nat, x: int)
    requires Inv(l) && i + 1 < |l.blocks| && x !in l.blocks
    ensures ListsUnused([x] + l.free, Splice(l.blocks, i + 1, x), l.used)
  {
    hide FreeBytes, Merged, Tiles;
    SpliceMembers(l.blocks, i + 1, x);
    PushMembers(l.free, x);
  }

  // ----- resizing -----

  lemma {:induction false} FreedKeepsOthers(l: Layout, i: nat)
    requires Inv(l) && i + 1 < |l.blocks| && l.blocks[i] in l.used
    ensures OthersKept(l.blocks, l.used, Freed(l, i).blocks, Freed(l, i).used, l.blocks[i])
  {
    hide FreeBytes, Inv, JoinRight, JoinAt, Freed, SameSpan;
    FreedKeepsInv(l, i);
    FreedExtents(l, i);
  }

  lemma {:induction false} FreedExtents(l: Layout, i: nat)
    requires Inv(l) && i + 1 < |l.blocks| && l.blocks[i] in l.used
    ensures ExtentsKept(l.blocks, Freed(l, i).blocks, l.used - {l.blocks[i]})
  {
    hide FreeBytes, Tiles, Merged, ExtentsKept, JoinRight, Without, Distinct;
    var l1 := Marked(l, i);
    if i > 0 {
      TilesStep(l, i - 1);
    }
    if i > 0 && l.blocks[i - 1] !in l1.used {
      JoinBothCore(l, i);
      RemoveKeepsOthers(l.blocks, l1.used, i);
      JoinRightExtents(JoinAt(l1, i), i - 1);
      OthersTwice(l.blocks, JoinAt(l1, i).blocks, JoinRight(JoinAt(l1, i), i - 1).blocks, l1.used);
    } else {
      JoinOnlyRightCore(l, i);
      MarkedCore(l, i);
      JoinRightExtents(l1, i);
    }
  }

  lemma {:induction false} JoinRightExtents(l: Layout, j: nat)
    requires j + 1 < |l.blocks| && (l.blocks[j + 1] !in l.used ==> l.blocks[j + 1] in l.free)
    requires l.blocks[|l.blocks| - 1] in l.used && l.blocks[j] !in l.used
    ensures ExtentsKept(l.blocks, JoinRight(l, j).blocks, l.used)
  {
    if l.blocks[j + 1] !in l.used {
      RemoveKeepsOthers(l.blocks, l.used, j + 1);
    }
  }
}
