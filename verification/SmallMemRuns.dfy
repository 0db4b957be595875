/** Resizing in the small-memory allocator, and what any run of calls keeps. */
module SmallMemRuns {
  import opened Sequences
  import opened HeapBlocks
  import opened SmallMemModel
  import opened SmallMemAlloc

  ghost predicate Live(l: Layout, h: int) {
    h in l.used && h in l.blocks && l.blocks != [] && h != End(l.blocks)
  }

  lemma LiveIndex(l: Layout, h: int)
    requires Live(l, h)
    ensures IndexOf(l.blocks, h) + 1 < |l.blocks|
  {
  }

  /** rt_free of a live block */
  ghost function FreedBlock(l: Layout, h: int): Layout
    requires Live(l, h)
  {
    LiveIndex(l, h);
    Freed(l, IndexOf(l.blocks, h))
  }

  /** Used block `i` cut to `n` bytes and the rest made unused, before holes are plugged. */
  ghost function Cut(l: Layout, i: nat, n: int): Layout
    requires i + 1 < |l.blocks|
  {
    var x := l.blocks[i] + HDR + n;
    Layout(Splice(l.blocks, i + 1, x), l.used - {x}, l.lfree, l.usedMem - (SizeAt(l.blocks, i) - n))
  }

  /** The splitting branch of rt_realloc */
  ghost function Shrunk(l: Layout, i: nat, n: int): Layout
    requires i + 1 < |l.blocks|
  {
    Plug(Cut(l, i, n), i + 1)
  }

  /** rt_realloc of a live block to an aligned size within the heap */
  ghost function Realloc(l: Layout, h: int, n: int): Grant
    requires Inv(l) && Live(l, h) && n >= 4 && n % 4 == 0
  {
    LiveIndex(l, h);
    var i := IndexOf(l.blocks, h);
    var size := SizeAt(l.blocks, i);
    if size == n then Granted(h, l)
    else if n + HDR + MIN < size then Granted(h, Shrunk(l, i, n))
    else
      match Malloc(l, AtLeastMin(n))
      case Refused => Refused
      case Granted(b, l') =>
        MallocKeepsLive(l, AtLeastMin(n), h);
        Granted(b, FreedBlock(l', h))
  }

  lemma {:induction false} MallocKeepsLive(l: Layout, size: int, h: int)
    requires Inv(l) && Live(l, h) && size >= MIN && size % 4 == 0 && Malloc(l, size).Granted?
    ensures Live(Malloc(l, size).layout, h)
  {
    hide UsedBytes, Malloc, OthersKept, Tiles, Merged;
    MallocKeepsInv(l, size);
  }

  // ----- shrinking -----

  lemma {:induction false} MergedButCut(blocks: seq<int>, used: set<int>, i: nat, x: int)
    requires Merged(blocks, used) && i + 1 < |blocks|
    ensures MergedBut(Splice(blocks, i + 1, x), used, i + 1)
  {
    var r := Splice(blocks, i + 1, x);
    forall k | 0 <= k < |r| - 1 && k != i + 1 && k + 1 != i + 1 ensures r[k] in used || r[k + 1] in used {
      SplicePlace(blocks, i + 1, x, k);
      SplicePlace(blocks, i + 1, x, k + 1);
    }
  }

  lemma {:induction false} CutInv(l: Layout, i: nat, n: int)
    requires Inv(l) && i + 1 < |l.blocks| && l.blocks[i] in l.used && n >= 4 && n % 4 == 0 && n + HDR + MIN < SizeAt(l.blocks, i)
    ensures var l' := Cut(l, i, n); var x := l.blocks[i] + HDR + n;
            && Core(l') && SameSpan(l.blocks, l'.blocks) && l'.used == l.used && x !in l.used && x !in l.blocks
            && i + 2 < |l'.blocks| && l'.blocks[i] == l.blocks[i] && l'.blocks[i + 1] == x && l'.blocks[i + 2] == l.blocks[i + 1]
            && MergedBut(l'.blocks, l'.used, i + 1) && (forall b :: b in l'.blocks <==> b == x || b in l.blocks)
  {
    hide UsedBytes, Merged, MergedBut, Tiles, Splice;
    var x := l.blocks[i] + HDR + n;
    CutCore(l, i, n);
    assert l.used - {x} == l.used;
    SplicePlace(l.blocks, i + 1, x, i);
    SplicePlace(l.blocks, i + 1, x, i + 1);
    SplicePlace(l.blocks, i + 1, x, i + 2);
    MergedButCut(l.blocks, l.used, i, x);
  }

  /** Nothing is merged backwards into a used block. */
  lemma {:induction false} ShrunkIs(l: Layout, i: nat, n: int)
    requires Inv(l) && i + 1 < |l.blocks| && l.blocks[i] in l.used && n >= 4 && n % 4 == 0 && n + HDR + MIN < SizeAt(l.blocks, i)
    ensures i + 2 < |Cut(l, i, n).blocks| && Shrunk(l, i, n) == PlugForward(Cut(l, i, n), i + 1)
  {
    hide UsedBytes, Core, Cut, MergedBut, RemoveAt;
    CutInv(l, i, n);
    PlugForwardFirst(Cut(l, i, n), i + 1);
  }

  lemma {:induction false} PlugForwardFirst(l: Layout, i: nat)
    requires 0 < i && i + 1 < |l.blocks|
    ensures i < |PlugForward(l, i).blocks| && PlugForward(l, i).blocks[i - 1] == l.blocks[i - 1] && PlugForward(l, i).used == l.used
  {
  }

  /** The shrunk block has the new size, and no other live block changes. */
  lemma {:induction false} ShrunkKeepsInv(l: Layout, i: nat, n: int)
    requires Inv(l) && i + 1 < |l.blocks| && l.blocks[i] in l.used && n >= 4 && n % 4 == 0 && n + HDR + MIN < SizeAt(l.blocks, i)
    ensures var l' := Shrunk(l, i, n); var x := l.blocks[i] + HDR + n;
            && Inv(l') && SameSpan(l.blocks, l'.blocks) && l'.used == l.used && Extent(l'.blocks, l.blocks[i], x)
            && OthersKept(l.blocks, l.used, l'.blocks, l'.used, l.blocks[i])
            && (forall b :: b in l'.blocks ==> b == x || b in l.blocks)
  {
    hide UsedBytes, Core, Cut, MergedBut, Plug, PlugForward, OthersKept, SameSpan;
    CutInv(l, i, n);
    PlugInv(Cut(l, i, n), i + 1);
    ShrunkIs(l, i, n);
    ShrunkExtents(l, i, n);
    SpanTrans(l.blocks, Cut(l, i, n).blocks, Shrunk(l, i, n).blocks);
  }

  lemma {:induction false} ShrunkExtents(l: Layout, i: nat, n: int)
    requires Inv(l) && i + 1 < |l.blocks| && l.blocks[i] in l.used && n >= 4 && n % 4 == 0 && n + HDR + MIN < SizeAt(l.blocks, i)
    ensures Extent(Shrunk(l, i, n).blocks, l.blocks[i], l.blocks[i] + HDR + n)
    ensures OthersKept(l.blocks, l.used, Shrunk(l, i, n).blocks, l.used, l.blocks[i])
  {
    hide UsedBytes, Merged, MergedBut, Tiles, Shrunk, OthersKept, Extent, Splice;
    var x := l.blocks[i] + HDR + n;
    ShrunkIs(l, i, n);
    CutInv(l, i, n);
    var r := Splice(l.blocks, i + 1, x);
    SplitKeepsOthers(l.blocks, l.used, i, x);
    PlugForwardExtents(Cut(l, i, n), i + 1);
    ExtentOf(r, i);
    OthersThenExtents(l.blocks, r, Shrunk(l, i, n).blocks, l.used, l.blocks[i]);
    ExtentThen(r, Shrunk(l, i, n).blocks, l.used, i);
  }

  lemma {:induction false} ExtentOf(blocks: seq<int>, i: nat)
    requires i + 1 < |blocks|
    ensures Extent(blocks, blocks[i], blocks[i + 1])
  {
  }

  lemma {:induction false} ExtentThen(blocks: seq<int>, blocks': seq<int>, used: set<int>, i: nat)
    requires ExtentsKept(blocks, blocks', used) && i + 1 < |blocks| && blocks[i] in used
    ensures Extent(blocks', blocks[i], blocks[i + 1])
  {
  }

  lemma {:induction false} OthersThenExtents(a: seq<int>, b: seq<int>, c: seq<int>, used: set<int>, h: int)
    requires OthersKept(a, used, b, used, h) && ExtentsKept(b, c, used)
    ensures OthersKept(a, used, c, used, h)
  {
    forall i | 0 <= i < |a| - 1 && a[i] in used && a[i] != h ensures Extent(c, a[i], a[i + 1]) {
      assert Extent(b, a[i], a[i + 1]);
      var k :| 0 <= k < |b| - 1 && b[k] == a[i] && b[k + 1] == a[i + 1];
      assert Extent(c, b[k], b[k + 1]);
    }
  }

  lemma {:induction false} PlugForwardExtents(l: Layout, i: nat)
    requires i + 1 < |l.blocks| && l.blocks[i] !in l.used && End(l.blocks) in l.used
    ensures ExtentsKept(l.blocks, PlugForward(l, i).blocks, l.used)
  {
    if l.blocks[i + 1] !in l.used {
      RemoveKeepsOthers(l.blocks, l.used, i + 1);
    }
  }

  /** A shrink leaves the lowest-free pointer lowest exactly when it was below the shrunk block,
      or at the unused block after it, which is merged. */
  lemma {:induction false} ShrunkLowestIff(l: Layout, i: nat, n: int)
    requires Inv(l) && Lowest(l) && i + 1 < |l.blocks| && l.blocks[i] in l.used
    requires n >= 4 && n % 4 == 0 && n + HDR + MIN < SizeAt(l.blocks, i)
    ensures Lowest(Shrunk(l, i, n)) <==> l.lfree < l.blocks[i] || (l.lfree == l.blocks[i + 1] && l.blocks[i + 1] !in l.used)
  {
    hide UsedBytes, Merged, MergedBut, Splice, Shrunk, Aligned, Ascending, PlugForward;
    var x := l.blocks[i] + HDR + n;
    var l1, l2 := Cut(l, i, n), Shrunk(l, i, n);
    ShrunkIs(l, i, n);
    CutInv(l, i, n);
    ShrunkMembers(l1, i + 1);
    PointerPlace(l, i);
    assert x in l2.blocks && x !in l2.used && l.blocks[i] < x < l.blocks[i + 1];
  }

  /** Where the lowest-free pointer is, seen from used block `i`. */
  lemma {:induction false} PointerPlace(l: Layout, i: nat)
    requires Inv(l) && i + 1 < |l.blocks| && l.blocks[i] in l.used
    ensures l.lfree < l.blocks[i] || l.blocks[i + 1] <= l.lfree
    ensures l.lfree < l.blocks[i + 1] && l.blocks[i + 1] !in l.used ==> l.lfree < l.blocks[i]
  {
    hide UsedBytes, Merged, Aligned, Ascending;
    var k := IndexOf(l.blocks, l.lfree);
    AscendingOrder(l.blocks, GAP, k, i);
    AscendingOrder(l.blocks, GAP, k, i + 1);
    AscendingOrder(l.blocks, GAP, i, |l.blocks| - 1);
  }

  lemma {:induction false} ShrunkMembers(l: Layout, i: nat)
    requires Core(l) && i + 1 < |l.blocks|
    ensures var l' := PlugForward(l, i);
            && l'.used == l.used && l'.lfree == (if l.blocks[i + 1] !in l.used && l.lfree == l.blocks[i + 1] then l.blocks[i] else l.lfree)
            && forall b :: b in l'.blocks <==> b in l.blocks && (b == l.blocks[i + 1] ==> b in l.used)
  {
    hide UsedBytes;
    TilesDistinct(l.blocks);
    if l.blocks[i + 1] !in l.used {
      RemoveAtMembers(l.blocks, i + 1);
    }
  }

  // ----- freeing -----

  lemma {:induction false} PlugExtents(l: Layout, i: nat)
    requires i + 1 < |l.blocks| && l.blocks[i] !in l.used && End(l.blocks) in l.used
    ensures ExtentsKept(l.blocks, Plug(l, i).blocks, l.used)
  {
    hide ExtentsKept, RemoveAt;
    var l1 := PlugForward(l, i);
    PlugForwardExtents(l, i);
    PlugForwardPlaces(l, i);
    if i > 0 && l1.blocks[i - 1] !in l1.used {
      RemoveKeepsOthers(l1.blocks, l1.used, i);
      OthersTwice(l.blocks, l1.blocks, RemoveAt(l1.blocks, i), l.used);
    }
  }

  lemma {:induction false} PlugForwardPlaces(l: Layout, i: nat)
    requires i + 1 < |l.blocks| && l.blocks[i] !in l.used && End(l.blocks) in l.used
    ensures var l1 := PlugForward(l, i); i + 1 < |l1.blocks| && l1.blocks[i] == l.blocks[i] && l1.used == l.used
  {
  }

  lemma {:induction false} FreedKeepsOthers(l: Layout, i: nat)
    requires Inv(l) && i + 1 < |l.blocks| && l.blocks[i] in l.used
    ensures OthersKept(l.blocks, l.used, Freed(l, i).blocks, Freed(l, i).used, l.blocks[i])
  {
    hide UsedBytes, Merged, Extent, Plug, Aligned;
    FreedKeepsInv(l, i);
    AscendingOrder(l.blocks, GAP, i, |l.blocks| - 1);
    PlugExtents(Unused(l, i), i);
  }

  // ----- resizing -----

  /** A resized block is live with at least the new size; no other live block changed. */
  ghost predicate Resized(l: Layout, h: int, n: int, b: int, l': Layout) {
    && Inv(l') && SameSpan(l.blocks, l'.blocks) && l'.used == l.used - {h} + {b} && (b == h || b !in l.used)
    && Extent(l'.blocks, b, BlockEnd(l'.blocks, b)) && b + HDR + n <= BlockEnd(l'.blocks, b)
    && OthersKept(l.blocks, l.used, l'.blocks, l'.used, h)
  }

  lemma {:induction false} ExtentEnd(l: Layout, b: int, e: int)
    requires Inv(l) && Extent(l.blocks, b, e)
    ensures BlockEnd(l.blocks, b) == e
  {
    hide UsedBytes, Merged;
    TilesDistinct(l.blocks);
    var k :| 0 <= k < |l.blocks| - 1 && l.blocks[k] == b && l.blocks[k + 1] == e;
    IndexIs(l.blocks, k);
  }

  lemma {:induction false} LiveExtent(l: Layout, h: int)
    requires Live(l, h)
    ensures Extent(l.blocks, h, BlockEnd(l.blocks, h))
  {
    LiveIndex(l, h);
    ExtentOf(l.blocks, IndexOf(l.blocks, h));
  }

  lemma {:induction false} MoveResizes(l: Layout, h: int, size: int)
    requires Inv(l) && Live(l, h) && size >= MIN && size % 4 == 0 && Malloc(l, size).Granted?
    ensures var b, l1 := Malloc(l, size).block, Malloc(l, size).layout;
            Live(l1, h) && Resized(l, h, size, b, FreedBlock(l1, h))
  {
    hide UsedBytes, Inv, OthersKept, SameSpan, Malloc, Freed, Extent, Live;
    var b, l1 := Malloc(l, size).block, Malloc(l, size).layout;
    MallocKeepsInv(l, size);
    MallocKeepsLive(l, size, h);
    LiveIndex(l1, h);
    LiveUsed(l, h);
    LiveUsed(l1, h);
    var i := IndexOf(l1.blocks, h);
    FreedKeepsInv(l1, i);
    FreedKeepsOthers(l1, i);
    var l2 := Freed(l1, i);
    OthersAt(l1, l2, h, b, BlockEnd(l1.blocks, b));
    ExtentEnd(l2, b, BlockEnd(l1.blocks, b));
    OthersChain(l, l1, l2, h, b);
    SpanTrans(l.blocks, l1.blocks, l2.blocks);
    assert l.used + {b} - {h} == l.used - {h} + {b};
  }

  lemma LiveUsed(l: Layout, h: int)
    requires Live(l, h)
    ensures h in l.used
  {
  }

  lemma {:induction false} OthersAt(l: Layout, l': Layout, h: int, b: int, e: int)
    requires OthersKept(l.blocks, l.used, l'.blocks, l'.used, h) && Extent(l.blocks, b, e) && b in l.used && b != h
    ensures Extent(l'.blocks, b, e) && b in l'.used
  {
    var k :| 0 <= k < |l.blocks| - 1 && l.blocks[k] == b && l.blocks[k + 1] == e;
  }

  lemma {:induction false} OthersChain(l: Layout, l1: Layout, l2: Layout, h: int, b: int)
    requires OthersKept(l.blocks, l.used, l1.blocks, l1.used, b) && OthersKept(l1.blocks, l1.used, l2.blocks, l2.used, h)
    requires b !in l.used
    ensures OthersKept(l.blocks, l.used, l2.blocks, l2.used, h)
  {
    hide Extent;
    forall i | 0 <= i < |l.blocks| - 1 && l.blocks[i] in l.used && l.blocks[i] != h
      ensures l.blocks[i] in l2.used && Extent(l2.blocks, l.blocks[i], l.blocks[i + 1])
    {
      OthersAt(l1, l2, h, l.blocks[i], l.blocks[i + 1]);
    }
  }

  lemma {:induction false} ReallocKeepsInv(l: Layout, h: int, n: int)
    requires Inv(l) && Live(l, h) && n >= 4 && n % 4 == 0
    ensures match Realloc(l, h, n)
            case Refused => true
            case Granted(b, l') => Resized(l, h, n, b, l')
  {
    hide UsedBytes, Core, OthersKept, Malloc, Shrunk, FreedBlock, Extent;
    LiveIndex(l, h);
    var i := IndexOf(l.blocks, h);
    assert l.used - {h} + {h} == l.used;
    if SizeAt(l.blocks, i) == n {
      LiveExtent(l, h);
      SameKept(l.blocks, l.used, h);
    } else if n + HDR + MIN < SizeAt(l.blocks, i) {
      ShrunkKeepsInv(l, i, n);
      ExtentEnd(Shrunk(l, i, n), h, h + HDR + n);
    } else if Malloc(l, AtLeastMin(n)).Granted? {
      MoveResizes(l, h, AtLeastMin(n));
    }
  }

  lemma {:induction false} SameKept(blocks: seq<int>, used: set<int>, h: int)
    ensures OthersKept(blocks, used, blocks, used, h)
  {
  }

  // ----- what a resize promises -----

  /** What rt_realloc of a block returns: a null pointer or a block, and the layout it leaves. */
  datatype Outcome = Null(layout: Layout) | At(block: int, layout: Layout)

  /** rt_realloc of a live block to any 32-bit size: it is aligned before it is tested for 0. */
  ghost function Resize(l: Layout, h: int, size: int): Outcome
    requires Inv(l) && Live(l, h) && 0 <= size < WORD_RANGE
  {
    var n := Align(size);
    if n > MemSize(l.blocks) then Null(l)
    else if n == 0 then Null(FreedBlock(l, h))
    else
      match Realloc(l, h, n)
      case Refused => Null(l)
      case Granted(b, l') => At(b, l')
  }

  /** A failed resize to a non-zero size leaves everything as it was if and only if aligning the size
      does not wrap: otherwise the block is freed. */
  lemma {:induction false} FailsCleanlyIff(l: Layout, h: int, size: int)
    requires Inv(l) && Live(l, h) && 0 < size < WORD_RANGE
    ensures (Resize(l, h, size).Null? ==> Resize(l, h, size).layout == l) <==> size <= WORD_RANGE - 4
    ensures size > WORD_RANGE - 4 ==> Resize(l, h, size) == Null(FreedBlock(l, h)) && h !in FreedBlock(l, h).used
  {
    hide UsedBytes, Core, Freed, Realloc, Align;
    AlignCovers(size);
    LiveIndex(l, h);
    LiveUsed(l, h);
    FreedKeepsInv(l, IndexOf(l.blocks, h));
    MemSizePositive(l);
  }

  lemma {:induction false} MemSizePositive(l: Layout)
    requires Inv(l)
    ensures MemSize(l.blocks) >= 0
  {
    hide UsedBytes, Merged, Aligned;
    AscendingOrder(l.blocks, GAP, 0, |l.blocks| - 1);
  }

  /** A block that is returned has at least the size asked for. */
  lemma {:induction false} ResizeCovers(l: Layout, h: int, size: int)
    requires Inv(l) && Live(l, h) && 0 < size < WORD_RANGE && Resize(l, h, size).At?
    ensures var b, l' := Resize(l, h, size).block, Resize(l, h, size).layout;
            Inv(l') && Live(l', b) && size <= BlockEnd(l'.blocks, b) - b - HDR
  {
    hide UsedBytes, Core, FreedBlock, Realloc, Align, OthersKept;
    AlignCovers(size);
    ReallocKeepsInv(l, h, Align(size));
    var b, l' := Resize(l, h, size).block, Resize(l, h, size).layout;
    ExtentBelowEnd(l', b, BlockEnd(l'.blocks, b));
  }

  lemma {:induction false} ExtentBelowEnd(l: Layout, b: int, e: int)
    requires Inv(l) && Extent(l.blocks, b, e)
    ensures b in l.blocks && b != End(l.blocks)
  {
    hide UsedBytes, Merged, Aligned, Ascending;
    var k :| 0 <= k < |l.blocks| - 1 && l.blocks[k] == b && l.blocks[k + 1] == e;
    AscendingOrder(l.blocks, GAP, k, |l.blocks| - 1);
  }

  /** No unused block from the lowest-free pointer on is large enough, but for one of exactly the size
      at the very end of the heap. */
  ghost predicate NoFit(l: Layout, size: int)
    requires l.blocks != []
  {
    forall i :: 0 <= i < |l.blocks| && l.blocks[i] >= l.lfree && Fits(l, i, size) ==> l.blocks[i] == MemSize(l.blocks) - size
  }

  /** rt_realloc returns null if and only if the aligned size is 0, more than the heap, or one for
      which the block has to move and nothing fits. Otherwise the block stays if and only if it has
      exactly the size or is cut to it; a block that moves is a fit. */
  ghost predicate ResizeOutcome(l: Layout, h: int, n: int, r: Outcome)
    requires l.blocks != []
  {
    var was := BlockEnd(l.blocks, h) - h - HDR;
    match r
    case Null(_) => n == 0 || n > MemSize(l.blocks) || (n != was <= n + HDR + MIN && NoFit(l, AtLeastMin(n)))
    case At(b, l') =>
      && 0 < n <= MemSize(l.blocks) && (b == h <==> n == was || n + HDR + MIN < was)
      && (if b == h then BlockEnd(l'.blocks, b) == b + HDR + n
          else !NoFit(l, AtLeastMin(n)) && AtLeastMin(n) <= BlockEnd(l'.blocks, b) - b - HDR < AtLeastMin(n) + HDR + MIN)
  }

  lemma {:induction false} ResizeOutcomeIs(l: Layout, h: int, size: int)
    requires Inv(l) && Live(l, h) && 0 <= size < WORD_RANGE
    ensures ResizeOutcome(l, h, Align(size), Resize(l, h, size))
  {
    hide UsedBytes, Inv, Malloc, Shrunk, Freed, Extent, OthersKept, SameSpan, Align, NoFit, FreedBlock;
    var n := Align(size);
    LiveIndex(l, h);
    if 0 < n <= MemSize(l.blocks) {
      var i := IndexOf(l.blocks, h);
      LiveUsed(l, h);
      if n + HDR + MIN < SizeAt(l.blocks, i) {
        ShrunkKeepsInv(l, i, n);
        ExtentEnd(Shrunk(l, i, n), h, h + HDR + n);
      } else if SizeAt(l.blocks, i) != n {
        NoFitIff(l, AtLeastMin(n));
        MoveOutcome(l, h, AtLeastMin(n));
      }
    }
  }

  lemma {:induction false} NoFitIff(l: Layout, size: int)
    requires Inv(l) && size >= MIN
    ensures Malloc(l, size).Refused? <==> NoFit(l, size)
  {
    hide Malloc, Fits, MemSize;
    RefusedIff(l, size);
  }

  lemma {:induction false} MoveOutcome(l: Layout, h: int, size: int)
    requires Inv(l) && Live(l, h) && size >= MIN && size % 4 == 0
    ensures Malloc(l, size).Granted? ==>
              var b, l1 := Malloc(l, size).block, Malloc(l, size).layout;
              && Live(l1, h) && b != h && size <= BlockEnd(FreedBlock(l1, h).blocks, b) - b - HDR < size + HDR + MIN
  {
    hide UsedBytes, Inv, OthersKept, SameSpan, Malloc, Freed, Extent, Live, BlockEnd;
    if Malloc(l, size).Granted? {
      var b, l1 := Malloc(l, size).block, Malloc(l, size).layout;
      MallocKeepsInv(l, size);
      MallocKeepsLive(l, size, h);
      LiveIndex(l1, h);
      LiveUsed(l, h);
      LiveUsed(l1, h);
      var i := IndexOf(l1.blocks, h);
      FreedKeepsInv(l1, i);
      FreedKeepsOthers(l1, i);
      OthersAt(l1, Freed(l1, i), h, b, BlockEnd(l1.blocks, b));
      ExtentEnd(Freed(l1, i), b, BlockEnd(l1.blocks, b));
    }
  }

  // ----- runs -----

  /** Calls with 32-bit sizes; a free or resize of anything but a live block stops in an
      assertion of the source and changes nothing here. */
  datatype Op = MallocOp(size: int) | FreeOp(block: int) | ReallocOp(block: int, size: int)

  predicate Sized(op: Op) {
    op.FreeOp? || 0 <= op.size < WORD_RANGE
  }

  /** The layout a call leaves. */
  ghost function After(l: Layout, g: Grant): Layout {
    match g case Refused => l case Granted(_, l') => l'
  }

  ghost function Apply(l: Layout, op: Op): Layout
    requires Inv(l) && Sized(op)
  {
    match op
    case MallocOp(size) =>
      if size == 0 || Align(size) > MemSize(l.blocks) then l
      else After(l, Malloc(l, AtLeastMin(Align(size))))
    case FreeOp(h) =>
      if Live(l, h) then FreedBlock(l, h) else l
    case ReallocOp(h, size) => if Live(l, h) then Resize(l, h, size).layout else l
  }

  lemma {:induction false} ApplyKeepsInv(l: Layout, op: Op)
    requires Inv(l) && Sized(op)
    ensures Inv(Apply(l, op)) && SameSpan(l.blocks, Apply(l, op).blocks)
  {
    hide UsedBytes, Freed, Realloc, Malloc, Align, OthersKept, Merged, Lowest, Extent, Tiles, UsedOk;
    match op
    case MallocOp(size) =>
      MallocKeepsInv(l, AtLeastMin(Align(size)));
    case FreeOp(h) =>
      if Live(l, h) {
        LiveIndex(l, h);
        FreedKeepsInv(l, IndexOf(l.blocks, h));
      }
    case ReallocOp(h, size) =>
      if Live(l, h) {
        LiveIndex(l, h);
        FreedKeepsInv(l, IndexOf(l.blocks, h));
        if Align(size) > 0 {
          ReallocKeepsInv(l, h, Align(size));
        }
      }
  }

  /** A resize to `n` bytes that cuts off a part below every unused block. */
  ghost predicate CutsLower(l: Layout, h: int, n: int)
    requires Live(l, h)
  {
    LiveIndex(l, h);
    var i := IndexOf(l.blocks, h);
    n + HDR + MIN < SizeAt(l.blocks, i) && !(l.lfree < h || (l.lfree == l.blocks[i + 1] && l.blocks[i + 1] !in l.used))
  }

  lemma {:induction false} ReallocLowestIff(l: Layout, h: int, n: int)
    requires Inv(l) && Lowest(l) && Live(l, h) && n >= 4 && n % 4 == 0
    ensures Lowest(After(l, Realloc(l, h, n))) <==> !CutsLower(l, h, n)
  {
    hide UsedBytes, Inv, Lowest, Malloc, Shrunk, Freed, Extent, OthersKept, SameSpan;
    LiveIndex(l, h);
    var i := IndexOf(l.blocks, h);
    if n + HDR + MIN < SizeAt(l.blocks, i) {
      ShrunkLowestIff(l, i, n);
    } else if SizeAt(l.blocks, i) != n && Malloc(l, AtLeastMin(n)).Granted? {
      MallocKeepsInv(l, AtLeastMin(n));
      var l1 := Malloc(l, AtLeastMin(n)).layout;
      MallocKeepsLive(l, AtLeastMin(n), h);
      LiveIndex(l1, h);
      FreedKeepsInv(l1, IndexOf(l1.blocks, h));
    }
  }

  /** The resizing calls after which the lowest-free pointer is not lowest any more. */
  ghost predicate LosesLowest(l: Layout, op: Op)
    requires Inv(l) && Sized(op)
  {
    && op.ReallocOp? && Live(l, op.block) && 0 < Align(op.size) <= MemSize(l.blocks)
    && CutsLower(l, op.block, Align(op.size))
  }

  /** Every call but those keeps the lowest-free pointer lowest, and those do not. */
  lemma {:induction false} ApplyLowestIff(l: Layout, op: Op)
    requires Inv(l) && Lowest(l) && Sized(op)
    ensures Lowest(Apply(l, op)) <==> !LosesLowest(l, op)
  {
    hide UsedBytes, Freed, Realloc, Malloc, Align, OthersKept, Merged, Lowest, Extent, CutsLower, Tiles;
    match op
    case MallocOp(size) =>
      MallocKeepsInv(l, AtLeastMin(Align(size)));
    case FreeOp(h) =>
      if Live(l, h) {
        LiveIndex(l, h);
        FreedKeepsInv(l, IndexOf(l.blocks, h));
      }
    case ReallocOp(h, size) =>
      if Live(l, h) {
        LiveIndex(l, h);
        FreedKeepsInv(l, IndexOf(l.blocks, h));
        if Align(size) > 0 {
          ReallocLowestIff(l, h, Align(size));
        }
      }
  }

  ghost function Run(l: Layout, ops: seq<Op>): Layout
    requires Inv(l) && forall op :: op in ops ==> Sized(op)
    decreases |ops|
  {
    if ops == [] then l
    else
      ApplyKeepsInv(l, ops[0]);
      Run(Apply(l, ops[0]), ops[1..])
  }

  /** Through any run the blocks tile the heap, no two neighbours are unused, the used bytes
      are exactly those of the used blocks and the lowest-free pointer is at an unused block or
      the end. */
  lemma {:induction false} RunKeepsInv(l: Layout, ops: seq<Op>)
    requires Inv(l) && forall op :: op in ops ==> Sized(op)
    ensures Inv(Run(l, ops)) && SameSpan(l.blocks, Run(l, ops).blocks)
    decreases |ops|
  {
    hide UsedBytes, Tiles, Merged, Lowest, Apply;
    if ops != [] {
      ApplyKeepsInv(l, ops[0]);
      RunKeepsInv(Apply(l, ops[0]), ops[1..]);
    }
  }

  /** The lowest-free pointer is lowest throughout a run. */
  ghost predicate AlwaysLowest(l: Layout, ops: seq<Op>)
    requires Inv(l) && forall op :: op in ops ==> Sized(op)
    decreases |ops|
  {
    Lowest(l) && (ops != [] ==> (ApplyKeepsInv(l, ops[0]); AlwaysLowest(Apply(l, ops[0]), ops[1..])))
  }

  /** No call of the run is one of those that lose it. */
  ghost predicate NoneLoses(l: Layout, ops: seq<Op>)
    requires Inv(l) && forall op :: op in ops ==> Sized(op)
    decreases |ops|
  {
    ops != [] ==> !LosesLowest(l, ops[0]) && (ApplyKeepsInv(l, ops[0]); NoneLoses(Apply(l, ops[0]), ops[1..]))
  }

  lemma {:induction false} RunLowestIff(l: Layout, ops: seq<Op>)
    requires Inv(l) && Lowest(l) && forall op :: op in ops ==> Sized(op)
    ensures AlwaysLowest(l, ops) <==> NoneLoses(l, ops)
    decreases |ops|
  {
    hide UsedBytes, Tiles, Merged, Lowest, Apply, LosesLowest;
    if ops != [] {
      ApplyKeepsInv(l, ops[0]);
      ApplyLowestIff(l, ops[0]);
      if Lowest(Apply(l, ops[0])) {
        RunLowestIff(Apply(l, ops[0]), ops[1..]);
      } else {
        NotAlways(Apply(l, ops[0]), ops[1..]);
      }
    }
  }

  lemma NotAlways(l: Layout, ops: seq<Op>)
    requires Inv(l) && !Lowest(l) && forall op :: op in ops ==> Sized(op)
    ensures !AlwaysLowest(l, ops)
  {
  }

  /** rt_system_heap_init */
  function Fresh(memSize: int): Layout {
    Layout([0, memSize + HDR], {memSize + HDR}, 0, 0)
  }

  lemma {:induction false} FreshInv(memSize: int)
    requires memSize >= MIN && memSize % 4 == 0
    ensures Inv(Fresh(memSize)) && Lowest(Fresh(memSize))
  {
    UsedTwo(0, memSize + HDR, 0, {memSize + HDR});
  }

  /** With everything freed in a run that keeps the pointer lowest, the heap is as it was initialised. */
  lemma {:induction false} AllFreeIsFresh(l: Layout)
    requires Inv(l) && Lowest(l) && l.used == {End(l.blocks)}
    ensures l == Fresh(MemSize(l.blocks))
  {
    hide UsedBytes;
    TilesDistinct(l.blocks);
    assert l.blocks[0] in l.used || l.blocks[1] in l.used;
    assert l.blocks == [0, End(l.blocks)];
    UsedTwo(0, End(l.blocks), 0, l.used);
  }

  // ----- a free undoes a malloc -----

  lemma {:induction false} SameLfree(l: Layout, l': Layout)
    requires Inv(l) && Inv(l') && Lowest(l) && Lowest(l') && l.blocks == l'.blocks && l.used == l'.used
    ensures l == l'
  {
    hide UsedBytes, Merged, Aligned;
    var i, j := IndexOf(l.blocks, l.lfree), IndexOf(l.blocks, l'.lfree);
    AscendingOrder(l.blocks, GAP, i, |l.blocks| - 1);
    AscendingOrder(l.blocks, GAP, j, |l.blocks| - 1);
  }

  /** A free with a used left neighbour takes away at most the right neighbour. */
  lemma {:induction false} FreedAlone(l: Layout, i: nat)
    requires i + 1 < |l.blocks| && UsedBefore(l.blocks, l.used - {l.blocks[i]}, i) && l.blocks[i] != l.blocks[i + 1]
    ensures Freed(l, i).blocks == if l.blocks[i + 1] in l.used then l.blocks else RemoveAt(l.blocks, i + 1)
  {
    var l1 := PlugForward(Unused(l, i), i);
    assert i > 0 ==> l1.blocks[i - 1] == l.blocks[i - 1];
  }

  lemma {:induction false} FreedMarked(l: Layout, i: nat, size: int)
    requires Inv(l) && Fits(l, i, size) && size >= MIN && size % 4 == 0
    ensures var l1 := Raised(Marked(l, i, size), i);
            i + 1 < |l1.blocks| && Freed(l1, i).blocks == l.blocks
  {
    hide UsedBytes, Core, Merged, OthersKept, Raised, Freed, Splice, RemoveAt;
    MarkedCounted(l, i, size);
    var h, l1 := l.blocks[i], Raised(Marked(l, i, size), i);
    NextIsUsed(l, i);
    UsedAround(l, i);
    RaisedParts(Marked(l, i, size), i);
    if SizeAt(l.blocks, i) >= size + HDR + MIN {
      var x := h + HDR + size;
      CutCore(l, i, size);
      SplicePlace(l.blocks, i + 1, x, i + 1);
      SplicePlace(l.blocks, i + 1, x, if i > 0 then i - 1 else 0);
      RemoveSpliced(l.blocks, i + 1, x);
    }
    FreedAlone(l1, i);
  }

  lemma {:induction false} UsedAround(l: Layout, i: nat)
    requires Inv(l) && i + 1 < |l.blocks| && l.blocks[i] !in l.used
    ensures UsedBefore(l.blocks, l.used, i) && l.blocks[i] != l.blocks[i + 1] && (i > 0 ==> l.blocks[i - 1] != l.blocks[i])
  {
    hide UsedBytes, Aligned;
  }

  /** With the lowest-free pointer lowest, freeing what was just allocated restores the heap
      exactly. */
  lemma {:induction false} FreeUndoesMalloc(l: Layout, size: int)
    requires Inv(l) && Lowest(l) && size >= MIN && size % 4 == 0 && Malloc(l, size).Granted?
    ensures Live(Malloc(l, size).layout, Malloc(l, size).block)
    ensures FreedBlock(Malloc(l, size).layout, Malloc(l, size).block) == l
  {
    hide UsedBytes, Merged, Aligned, Ascending, OthersKept, Freed, Marked, Raised, Lowest;
    var h, l1 := Malloc(l, size).block, Malloc(l, size).layout;
    var k := Scan(l, IndexOf(l.blocks, l.lfree), MemSize(l.blocks) - size, size);
    MallocKeepsInv(l, size);
    FreedMarked(l, k, size);
    MarkedCounted(l, k, size);
    RaisedParts(Marked(l, k, size), k);
    BlockEndAt(Marked(l, k, size), k);
    BlockBelowEnd(l1, k);
    FreedKeepsInv(l1, k);
    assert l.used + {h} - {h} == l.used;
    SameLfree(Freed(l1, k), l);
  }

  lemma {:induction false} BlockBelowEnd(l: Layout, i: nat)
    requires Inv(l) && i + 1 < |l.blocks|
    ensures l.blocks[i] != End(l.blocks)
  {
    hide UsedBytes, Merged, Aligned;
    AscendingOrder(l.blocks, GAP, i, |l.blocks| - 1);
  }

  // ----- failing calls -----

  /** A request for the whole of a fresh heap is refused although it fits. */
  lemma {:induction false} WholeHeapRefused(memSize: int)
    requires memSize >= MIN && memSize % 4 == 0
    ensures Inv(Fresh(memSize)) && Fits(Fresh(memSize), 0, memSize) && Malloc(Fresh(memSize), memSize).Refused?
  {
    hide UsedBytes;
    FreshInv(memSize);
    RefusedIffNoFit(Fresh(memSize), memSize);
  }

  /** A request for 0xFFFF_FFFF bytes wraps when it is aligned and is granted a smallest block. */
  lemma {:induction false} HugeRequestGranted(memSize: int)
    requires memSize > MIN && memSize % 4 == 0
    ensures var l := Fresh(memSize);
            Inv(l) && AtLeastMin(Align(0xFFFF_FFFF)) == MIN && Malloc(l, AtLeastMin(Align(0xFFFF_FFFF))).Granted?
  {
    hide UsedBytes, Malloc;
    FreshInv(memSize);
    var l := Fresh(memSize);
    RefusedIffNoFit(l, MIN);
    assert Fits(l, 0, MIN);
  }

  /** On a fresh heap of 1000 bytes, a block of 100 and its resize to 0xFFFF_FFFF: a null pointer, with
      the block freed. */
  lemma {:induction false} HugeResizeFrees()
    ensures Inv(Fresh(1000))
    ensures var l := Apply(Fresh(1000), MallocOp(100));
            Inv(l) && Live(l, 0) && Resize(l, 0, 0xFFFF_FFFF).Null? && 0 !in Resize(l, 0, 0xFFFF_FFFF).layout.used
  {
    hide UsedBytes, Apply, Inv, FreedBlock, Realloc;
    FreshInv(1000);
    ApplyKeepsInv(Fresh(1000), MallocOp(100));
    FirstMalloc();
    FailsCleanlyIff(Apply(Fresh(1000), MallocOp(100)), 0, 0xFFFF_FFFF);
  }

  /** On a fresh heap of 1000 bytes, two blocks of 100 bytes and the first shrunk to 12: the pointer
      stays at the rest of the heap, above the part cut off. */
  lemma {:induction false} ShrinkLosesLowest()
    ensures var l0 := Fresh(1000);
            && Inv(l0) && Lowest(l0)
            && var l1 := Apply(l0, MallocOp(100));
            && Inv(l1) && Lowest(l1)
            && var l2 := Apply(l1, MallocOp(100));
            && Inv(l2) && Lowest(l2)
            && !Lowest(Apply(l2, ReallocOp(0, 12)))
  {
    hide UsedBytes, Apply, Inv, Lowest;
    FreshInv(1000);
    var l0 := Fresh(1000);
    var l1 := Layout([0, 112, 1012], {0, 1012}, 112, 112);
    var l2 := Layout([0, 112, 224, 1012], {0, 112, 1012}, 224, 224);
    ApplyKeepsInv(l0, MallocOp(100));
    ApplyLowestIff(l0, MallocOp(100));
    FirstMalloc();
    ApplyKeepsInv(l1, MallocOp(100));
    ApplyLowestIff(l1, MallocOp(100));
    SecondMalloc();
    ApplyLowestIff(l2, ReallocOp(0, 12));
    CutsBlock(l2);
  }

  /** A request that fits the block at the lowest-free pointer, with room to split it. */
  lemma {:induction false} MallocSplits(l: Layout, i: nat, size: int)
    requires Inv(l) && i + 1 < |l.blocks| && l.blocks[i] == l.lfree && l.lfree !in l.used && size % 4 == 0
    requires MIN <= size < WORD_RANGE && SizeAt(l.blocks, i) >= size + HDR + MIN && l.lfree < MemSize(l.blocks) - size && Align(size) == size
    requires l.lfree + HDR + size !in l.used && size <= MemSize(l.blocks)
    ensures var x := l.lfree + HDR + size;
            Apply(l, MallocOp(size)) == Layout(Splice(l.blocks, i + 1, x), l.used + {l.lfree}, x, l.usedMem + size + HDR)
  {
    hide UsedBytes, Tiles, Merged, Align, Splice;
    TilesDistinct(l.blocks);
    IndexIs(l.blocks, i);
    assert Scan(l, i, MemSize(l.blocks) - size, size) == i;
    var x, m := l.lfree + HDR + size, Marked(l, i, size);
    assert m.used == l.used + {l.lfree} - {x} == l.used + {l.lfree};
    SplicePlaces(l.blocks, i, x);
    assert NextUnused(m.blocks, m.used, i) == i + 1;
  }

  lemma {:induction false} FirstMalloc()
    requires Inv(Fresh(1000))
    ensures Apply(Fresh(1000), MallocOp(100)) == Layout([0, 112, 1012], {0, 1012}, 112, 112)
  {
    hide Inv, Apply;
    MallocSplits(Fresh(1000), 0, 100);
  }

  lemma {:induction false} SecondMalloc()
    requires Inv(Layout([0, 112, 1012], {0, 1012}, 112, 112))
    ensures Apply(Layout([0, 112, 1012], {0, 1012}, 112, 112), MallocOp(100)) == Layout([0, 112, 224, 1012], {0, 112, 1012}, 224, 224)
  {
    hide Inv, Apply;
    MallocSplits(Layout([0, 112, 1012], {0, 1012}, 112, 112), 1, 100);
  }

  lemma CutsBlock(l: Layout)
    requires l == Layout([0, 112, 224, 1012], {0, 112, 1012}, 224, 224) && Inv(l)
    ensures LosesLowest(l, ReallocOp(0, 12))
  {
  }
}
