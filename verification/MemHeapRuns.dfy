/** What every run of allocations, resizings and frees of a memory heap keeps. */
module MemHeapRuns {
  import opened Sequences
  import opened HeapBlocks
  import opened MemHeapModel
  import opened MemHeapAlloc

  // ----- resizing -----

  /** The pool lies in the 32-bit address space. */
  ghost predicate InWord(blocks: seq<int>) {
    blocks != [] && 0 <= blocks[0] && blocks[|blocks| - 1] + HDR <= WORD_RANGE
  }

  /** The test means what it says exactly for requests that leave room for the added
      smallest block below 2^32. */
  lemma GrowTestExact(size: int, nextSize: int, n: int)
    requires size >= MIN && nextSize >= MIN && size + nextSize + 2 * HDR <= WORD_RANGE
    requires size < n <= WORD_RANGE - 4 && n % 4 == 0
    ensures (GrowTest(size, nextSize, n) <==> nextSize + size > n + MIN) <==> n + MIN < WORD_RANGE
  {
    if n + MIN >= WORD_RANGE {
      assert (n + MIN) % WORD_RANGE == n + MIN - WORD_RANGE;
    }
  }

  lemma {:induction false} ExtentSize(blocks: seq<int>, b: int, e: int)
    requires Tiles(blocks) && Extent(blocks, b, e)
    ensures b in blocks && b != blocks[|blocks| - 1] && SizeOf(blocks, b) == e - b - HDR
  {
    var k :| 0 <= k < |blocks| - 1 && blocks[k] == b && blocks[k + 1] == e;
    SizeOfAt(blocks, k);
  }

  lemma {:induction false} LiveExtent(l: Layout, h: int)
    requires Inv(l) && Live(l, h)
    ensures Extent(l.blocks, h, h + HDR + SizeOf(l.blocks, h))
  {
    hide FreeBytes;
    var k :| 0 <= k < |l.blocks| && l.blocks[k] == h;
    SizeOfAt(l.blocks, k);
  }

  /** A live block that is not `h` stays live with its size. */
  lemma {:induction false} LiveKept(l: Layout, l': Layout, h: int, b: int)
    requires Inv(l) && Inv(l') && Live(l, b) && b != h
    requires OthersKept(l.blocks, l.used, l'.blocks, l'.used, h)
    ensures Live(l', b) && SizeOf(l'.blocks, b) == SizeOf(l.blocks, b)
  {
    hide FreeBytes, SizeOf, Merged, ListsUnused, Aligned, Ascending, OthersKept, Extent;
    LiveExtent(l, b);
    KeptAt(l, l', h, b, b + HDR + SizeOf(l.blocks, b));
    ExtentSize(l'.blocks, b, b + HDR + SizeOf(l.blocks, b));
  }

  lemma {:induction false} KeptAt(l: Layout, l': Layout, h: int, b: int, e: int)
    requires OthersKept(l.blocks, l.used, l'.blocks, l'.used, h) && Extent(l.blocks, b, e) && b in l.used && b != h
    ensures Extent(l'.blocks, b, e) && b in l'.used
  {
    var k :| 0 <= k < |l.blocks| - 1 && l.blocks[k] == b && l.blocks[k + 1] == e;
  }

  lemma {:induction false} OthersTrans(l: Layout, l1: Layout, l2: Layout, h: int, b: int)
    requires OthersKept(l.blocks, l.used, l1.blocks, l1.used, b) && OthersKept(l1.blocks, l1.used, l2.blocks, l2.used, h)
    requires b !in l.used
    ensures OthersKept(l.blocks, l.used, l2.blocks, l2.used, h)
  {
    forall i | 0 <= i < |l.blocks| - 1 && l.blocks[i] in l.used && l.blocks[i] != h
      ensures l.blocks[i] in l2.used && Extent(l2.blocks, l.blocks[i], l.blocks[i + 1])
    {
      assert Extent(l1.blocks, l.blocks[i], l.blocks[i + 1]);
      var k :| 0 <= k < |l1.blocks| - 1 && l1.blocks[k] == l.blocks[i] && l1.blocks[k + 1] == l.blocks[i + 1];
    }
  }

  /** A resized block is live with at least the new size; it is the only one that moved,
      and a refusal changes nothing. */
  ghost predicate Resized(l: Layout, h: int, n: int, b: int, l': Layout) {
    && Inv(l') && SameSpan(l.blocks, l'.blocks) && l'.used == l.used - {h} + {b}
    && Live(l', b) && n <= SizeOf(l'.blocks, b) && (b == h || b !in l.used)
    && OthersKept(l.blocks, l.used, l'.blocks, l'.used, h)
  }

  /** A resize to `n` rounded bytes meets no wrap-around in the growth test. */
  ghost predicate NoWrap(l: Layout, h: int, n: int)
    requires Inv(l) && Live(l, h)
  {
    LiveIndex(l, h);
    l.blocks[IndexOf(l.blocks, h) + 1] in l.used || n + MIN < WORD_RANGE
  }

  /** The layout a resize leaves. */
  ghost function After(l: Layout, g: Grant): Layout {
    match g case Refused => l case Granted(_, l') => l'
  }

  lemma {:induction false} ReallocateKeepsInv(l: Layout, h: int, n: int)
    requires Inv(l) && InWord(l.blocks) && Live(l, h) && MIN <= n < WORD_RANGE && n % 4 == 0 && NoWrap(l, h, n)
    ensures match Reallocate(l, h, n)
            case Refused => true
            case Granted(b, l') => Resized(l, h, n, b, l')
  {
    hide FreeBytes, Inv, Moved, Grown, Allocate, Resized, InWord, SizeOf;
    LiveIndex(l, h);
    var i := IndexOf(l.blocks, h);
    var size := SizeAt(l.blocks, i);
    if l.blocks[i + 1] !in l.used {
      NextUnused(l, i);
    }
    if n > size && l.blocks[i + 1] !in l.used && GrowTestAt(l, i, n) {
      GrownIsMoved(l, i, n);
      MovedResizes(l, i, n);
    } else if n > size {
      if Allocate(l, n).Granted? {
        MoveResizes(l, h, n);
      }
    } else if n + HDR + MIN >= size {
      SameResizes(l, i, n);
    } else if l.blocks[i + 1] in l.used {
      CutResizes(l, i, n);
    } else {
      MovedResizes(l, i, n);
    }
  }

  /** A resize keeps the heap's invariant if and only if the block after is used or the added
      smallest block does not wrap: otherwise the block "grows" over its own header. */
  lemma {:induction false} ReallocateKeepsInvIff(l: Layout, h: int, n: int)
    requires Inv(l) && InWord(l.blocks) && Live(l, h) && MIN <= n < WORD_RANGE && n % 4 == 0
    ensures Inv(After(l, Reallocate(l, h, n))) <==> NoWrap(l, h, n)
  {
    hide FreeBytes, Inv, Moved, Grown, Allocate, SizeOf, InWord;
    if NoWrap(l, h, n) {
      ReallocateKeepsInv(l, h, n);
    } else {
      LiveIndex(l, h);
      WrapGrows(l, IndexOf(l.blocks, h), n);
    }
  }

  ghost predicate GrowTestAt(l: Layout, i: nat, n: int) {
    i + 2 < |l.blocks| && GrowTest(SizeAt(l.blocks, i), SizeAt(l.blocks, i + 1), n)
  }

  lemma {:induction false} SizesFit(l: Layout, i: nat)
    requires Inv(l) && InWord(l.blocks) && i + 2 < |l.blocks|
    ensures SizeAt(l.blocks, i) >= MIN && SizeAt(l.blocks, i + 1) >= MIN && l.blocks[i] >= 0
    ensures l.blocks[i] + SizeAt(l.blocks, i) + SizeAt(l.blocks, i + 1) + 3 * HDR <= WORD_RANGE
  {
    TilesStep(l, i);
    TilesStep(l, i + 1);
    InPool(l, l.blocks[i]);
    InPool(l, l.blocks[i + 2]);
  }

  lemma {:induction false} InPool(l: Layout, b: int)
    requires Inv(l) && b in l.blocks
    ensures l.blocks[0] <= b <= l.blocks[|l.blocks| - 1]
  {
    hide FreeBytes, Merged, ListsUnused, Aligned;
    var k :| 0 <= k < |l.blocks| && l.blocks[k] == b;
    assert k > 0 ==> l.blocks[0] < l.blocks[k];
    assert k < |l.blocks| - 1 ==> l.blocks[k] < l.blocks[|l.blocks| - 1];
  }

  /** Without wrap-around growth moves the boundary. */
  lemma {:induction false} GrownIsMoved(l: Layout, i: nat, n: int)
    requires Inv(l) && InWord(l.blocks) && i + 1 < |l.blocks| && l.blocks[i] in l.used && l.blocks[i + 1] !in l.used
    requires SizeAt(l.blocks, i) < n && n % 4 == 0 && n + MIN < WORD_RANGE && GrowTestAt(l, i, n)
    ensures SizeAt(l.blocks, i + 1) + SizeAt(l.blocks, i) > n + MIN
    ensures l.blocks[i + 1] in l.free && Grown(l, i, n) == Moved(l, i, n)
  {
    hide FreeBytes, Tiles, Merged, Aligned, Without;
    NextUnused(l, i);
    SizesFit(l, i);
    GrowTestExact(SizeAt(l.blocks, i), SizeAt(l.blocks, i + 1), n);
    FreeBytesBound(l.blocks, l.used, i + 1);
    AvailableFits(l);
  }

  lemma {:induction false} AvailableFits(l: Layout)
    requires Inv(l) && InWord(l.blocks)
    ensures l.available < WORD_RANGE
  {
    hide FreeBytes, Merged, ListsUnused, Aligned;
    FreeBytesSpan(l.blocks, l.used);
  }

  /** The unused blocks do not have more bytes than the pool. */
  lemma {:induction false} FreeBytesSpan(blocks: seq<int>, used: set<int>)
    requires Ascending(blocks, HDR + MIN) && blocks != []
    ensures FreeBytes(blocks, used) <= blocks[|blocks| - 1] - blocks[0]
    decreases |blocks|
  {
    if |blocks| >= 2 {
      FreeBytesSpan(blocks[1..], used);
    }
  }

  /** With wrap-around the test always passes and the new block starts inside the header of the
      one that grows. */
  lemma {:induction false} WrapGrows(l: Layout, i: nat, n: int)
    requires Inv(l) && InWord(l.blocks) && i + 1 < |l.blocks| && Live(l, l.blocks[i]) && l.blocks[i + 1] !in l.used
    requires WORD_RANGE - MIN <= n < WORD_RANGE && n % 4 == 0 && IndexOf(l.blocks, l.blocks[i]) == i
    ensures !Inv(After(l, Reallocate(l, l.blocks[i], n)))
  {
    hide Inv, Without, Allocate, Moved, Cut, Grown;
    NextUnused(l, i);
    SizesFit(l, i);
    GrownOverHeader(l, i, n);
  }

  lemma {:induction false} GrownOverHeader(l: Layout, i: nat, n: int)
    requires i + 1 < |l.blocks| && l.blocks[i + 1] in l.free && WORD_RANGE - MIN <= n < WORD_RANGE && 0 <= l.blocks[i] < WORD_RANGE - HDR
    ensures !Inv(Grown(l, i, n))
  {
    hide FreeBytes, Merged, ListsUnused, Aligned, Without;
    var r := Grown(l, i, n).blocks;
    assert (l.blocks[i] + HDR + n) % WORD_RANGE == l.blocks[i] + HDR + n - WORD_RANGE;
    assert r[i] == l.blocks[i] && r[i + 1] == l.blocks[i] + HDR + n - WORD_RANGE;
  }

  /** A granted resize has room for what it is to keep if and only if rounding the size does not wrap
      or the block was too small to cut; it has the size asked for if and only if rounding does not
      wrap. */
  lemma {:induction false} KeepsFirstIff(l: Layout, h: int, size: int)
    requires Inv(l) && InWord(l.blocks) && Live(l, h) && 0 < size < WORD_RANGE && NoWrap(l, h, Rounded(size))
    requires Reallocate(l, h, Rounded(size)).Granted?
    ensures var b, l' := Reallocate(l, h, Rounded(size)).block, Reallocate(l, h, Rounded(size)).layout;
            var was := SizeOf(l.blocks, h);
            && ((if was < size then was else size) <= SizeOf(l'.blocks, b) <==> size <= WORD_RANGE - 4 || was <= HDR + 2 * MIN)
            && (size <= SizeOf(l'.blocks, b) <==> size <= WORD_RANGE - 4)
  {
    hide FreeBytes, Inv, Reallocate, Rounded, SizeOf, OthersKept, SameSpan;
    RoundedCovers(size);
    ReallocateKeepsInv(l, h, Rounded(size));
    SizeInWord(l, h);
    if size > WORD_RANGE - 4 {
      RoundedWraps(size);
      ToSmallest(l, h);
    }
  }

  lemma RoundedWraps(size: int)
    requires WORD_RANGE - 4 < size < WORD_RANGE
    ensures Rounded(size) == MIN
  {
  }

  lemma {:induction false} SizeInWord(l: Layout, h: int)
    requires Inv(l) && InWord(l.blocks) && Live(l, h)
    ensures MIN <= SizeOf(l.blocks, h) < WORD_RANGE - 4
  {
    hide FreeBytes, Merged, ListsUnused, Aligned, Ascending;
    LiveIndex(l, h);
    var i := IndexOf(l.blocks, h);
    TilesStep(l, i);
    InPool(l, l.blocks[i]);
    InPool(l, l.blocks[i + 1]);
  }

  /** A resize to the smallest size keeps the block if there is too little to cut off, and cuts it to
      that size otherwise. */
  lemma {:induction false} ToSmallest(l: Layout, h: int)
    requires Inv(l) && Live(l, h) && SizeOf(l.blocks, h) >= MIN
    ensures Reallocate(l, h, MIN).Granted? && Reallocate(l, h, MIN).block == h
    ensures SizeOf(Reallocate(l, h, MIN).layout.blocks, h) == if SizeOf(l.blocks, h) <= HDR + 2 * MIN then SizeOf(l.blocks, h) else MIN
  {
    hide FreeBytes, Inv, Moved, Cut, Grown, Allocate, OthersKept, SameSpan;
    LiveIndex(l, h);
    var i := IndexOf(l.blocks, h);
    if SizeOf(l.blocks, h) > HDR + 2 * MIN {
      if l.blocks[i + 1] in l.used {
        CutKeepsInv(l, i, MIN);
      } else {
        NextUnused(l, i);
        RoomToMove(l, i);
        MovedKeepsInv(l, i, MIN);
      }
    }
  }

  lemma {:induction false} RoomToMove(l: Layout, i: nat)
    requires Inv(l) && i + 2 < |l.blocks| && SizeAt(l.blocks, i) > HDR + 2 * MIN
    ensures l.blocks[i] + HDR + MIN + HDR + MIN <= l.blocks[i + 2]
  {
    TilesStep(l, i + 1);
  }

  /** A fresh heap of 4096 bytes, a block of 100 bytes and its resize to 0xFFFF_FFFF: granted, with 12
      bytes. */
  lemma {:induction false} HugeResizeCuts()
    ensures var l := Fresh(0x1000, 0x2000);
            && Inv(l) && Allocate(l, 100).Granted?
            && var l1 := Allocate(l, 100).layout;
            && Inv(l1) && Live(l1, 0x1000) && SizeOf(l1.blocks, 0x1000) == 100
            && Reallocate(l1, 0x1000, Rounded(0xFFFF_FFFF)).Granted?
            && SizeOf(Reallocate(l1, 0x1000, Rounded(0xFFFF_FFFF)).layout.blocks, 0x1000) == 12
  {
    hide FreeBytes, Inv, Reallocate;
    var l := Fresh(0x1000, 0x2000);
    FreshInv(0x1000, 0x2000);
    FreshSize(0x1000, 0x2000);
    assert FirstFit(l.blocks, l.free, 100) == 0;
    AllocateKeepsInv(l, 100);
    var l1 := Allocate(l, 100).layout;
    assert l1.blocks == [0x1000, 0x107C, 0x2000];
    assert IndexOf(l1.blocks, 0x1000) == 0;
    RoundedWraps(0xFFFF_FFFF);
    ToSmallest(l1, 0x1000);
  }

  /** A fresh heap of 4096 bytes, a block of 12 bytes, and its resize to 0xFFFF_FFF4 bytes: granted,
      with the invariant gone. */
  lemma {:induction false} GrowWraps()
    ensures var l := Fresh(0x1000, 0x2000);
            && Inv(l) && Allocate(l, MIN).Granted?
            && var l1 := Allocate(l, MIN).layout;
            && Inv(l1) && Live(l1, 0x1000) && Reallocate(l1, 0x1000, 0xFFFF_FFF4).Granted?
            && !Inv(Reallocate(l1, 0x1000, 0xFFFF_FFF4).layout)
  {
    hide FreeBytes, Grown;
    var l := Fresh(0x1000, 0x2000);
    FreshInv(0x1000, 0x2000);
    assert SizeOf(l.blocks, 0x1000) == 0xFE8;
    AllocateKeepsInv(l, MIN);
    var l1 := Allocate(l, MIN).layout;
    assert l1.blocks == [0x1000, 0x1024, 0x2000];
    WrapGrows(l1, 0, 0xFFFF_FFF4);
  }

  lemma {:induction false} NextUnused(l: Layout, i: nat)
    requires Inv(l) && i + 1 < |l.blocks| && l.blocks[i + 1] !in l.used
    ensures i + 2 < |l.blocks| && l.blocks[i + 1] in l.free
  {
  }

  lemma {:induction false} MovedResizes(l: Layout, i: nat, n: int)
    requires Inv(l) && i + 1 < |l.blocks| && l.blocks[i] in l.used && l.blocks[i + 1] !in l.used
    requires n >= MIN && n % 4 == 0
    requires n <= SizeAt(l.blocks, i) || (i + 2 < |l.blocks| && SizeAt(l.blocks, i + 1) + SizeAt(l.blocks, i) > n + MIN)
    ensures l.blocks[i + 1] in l.free && Resized(l, l.blocks[i], n, l.blocks[i], Moved(l, i, n))
  {
    hide FreeBytes, Merged, ListsUnused, Aligned, OthersKept, Moved, SizeOf;
    NextUnused(l, i);
    MovedKeepsInv(l, i, n);
    assert l.used - {l.blocks[i]} + {l.blocks[i]} == l.used;
  }

  lemma {:induction false} CutResizes(l: Layout, i: nat, n: int)
    requires Inv(l) && i + 1 < |l.blocks| && l.blocks[i] in l.used && l.blocks[i + 1] in l.used
    requires n >= MIN && n % 4 == 0 && SizeAt(l.blocks, i) > n + HDR + MIN
    ensures Resized(l, l.blocks[i], n, l.blocks[i], Cut(l, i, n))
  {
    hide FreeBytes, Inv, OthersKept, Cut, SizeOf, SameSpan, Live;
    CutKeepsInv(l, i, n);
    assert l.used - {l.blocks[i]} + {l.blocks[i]} == l.used;
  }

  lemma {:induction false} SameResizes(l: Layout, i: nat, n: int)
    requires Inv(l) && i + 1 < |l.blocks| && l.blocks[i] in l.used && n <= SizeAt(l.blocks, i)
    ensures Resized(l, l.blocks[i], n, l.blocks[i], l)
  {
    hide FreeBytes, Merged, ListsUnused, Aligned, SizeOf;
    SizeOfAt(l.blocks, i);
    assert l.used - {l.blocks[i]} + {l.blocks[i]} == l.used;
    forall k | 0 <= k < |l.blocks| - 1 ensures Extent(l.blocks, l.blocks[k], l.blocks[k + 1]) {
    }
  }

  /** Allocate, then free the old block. */
  lemma {:induction false} MoveResizes(l: Layout, h: int, n: int)
    requires Inv(l) && Live(l, h) && n >= MIN && n % 4 == 0 && Allocate(l, n).Granted?
    ensures var l1 := Allocate(l, n).layout;
            && Inv(l1) && Live(l1, h) && Resized(l, h, n, Allocate(l, n).block, FreedBlock(l1, h))
  {
    hide FreeBytes, Inv, OthersKept, SizeOf, SameSpan, Allocate, Freed;
    var b, l1 := Allocate(l, n).block, Allocate(l, n).layout;
    AllocateKeepsInv(l, n);
    LiveKept(l, l1, b, h);
    LiveIndex(l1, h);
    var i := IndexOf(l1.blocks, h);
    FreedKeepsInv(l1, i);
    FreedKeepsOthers(l1, i);
    var l2 := Freed(l1, i);
    LiveKept(l1, l2, h, b);
    OthersTrans(l, l1, l2, h, b);
    assert l.used + {b} - {h} == l.used - {h} + {b};
    SpanTrans(l.blocks, l1.blocks, l2.blocks);
  }

  // ----- when a request is refused -----

  /** A request is refused exactly when no free block is large enough or it asks for all
      the available bytes. */
  lemma {:induction false} RefusedIff(l: Layout, size: int)
    requires Inv(l)
    ensures Allocate(l, size).Refused? <==> size >= l.available || forall b :: b in l.free ==> SizeOf(l.blocks, b) < size
  {
    hide FreeBytes, SizeOf, Tiles, Merged;
    var k := FirstFit(l.blocks, l.free, size);
    if k < |l.free| {
      assert l.free[k] in l.free;
    }
  }

  /** A granted request gets the first block of the free list that is large enough. */
  lemma {:induction false} GrantsFirstFit(l: Layout, size: int, k: nat)
    requires Inv(l) && k < |l.free| && SizeOf(l.blocks, l.free[k]) >= size && size < l.available
    requires forall j :: 0 <= j < k ==> SizeOf(l.blocks, l.free[j]) < size
    ensures Allocate(l, size).Granted? && Allocate(l, size).block == l.free[k]
  {
    hide FreeBytes, SizeOf, Tiles, Merged, FirstFit;
    var m := FirstFit(l.blocks, l.free, size);
  }

  /** The unused block after `h` and `h` together have more than the new size and a smallest
      allocation. */
  ghost predicate CanGrow(l: Layout, h: int, n: int)
    requires Inv(l) && Live(l, h)
  {
    LiveIndex(l, h);
    var next := l.blocks[IndexOf(l.blocks, h) + 1];
    next !in l.used && SizeOf(l.blocks, h) + SizeOf(l.blocks, next) > n + MIN
  }

  /** A larger size that the block can neither grow to nor find elsewhere. */
  ghost predicate NoRoom(l: Layout, h: int, n: int)
    requires Inv(l) && Live(l, h)
  {
    && n > SizeOf(l.blocks, h) && !CanGrow(l, h, n)
    && (n >= l.available || forall b :: b in l.free ==> SizeOf(l.blocks, b) < n)
  }

  /** A resize is refused if and only if there is no room. Otherwise the block stays where it is if
      and only if the size is no larger or it can grow, and has the new size unless there was too
      little to cut off; a block that moves is a fit. */
  ghost predicate ResizeOutcome(l: Layout, h: int, n: int, g: Grant)
    requires Inv(l) && Live(l, h)
  {
    var was := SizeOf(l.blocks, h);
    match g
    case Refused => NoRoom(l, h, n)
    case Granted(b, l') =>
      && !NoRoom(l, h, n) && (b == h <==> n <= was || CanGrow(l, h, n))
      && if b != h then n <= SizeOf(l'.blocks, b) < n + HDR + MIN
         else SizeOf(l'.blocks, b) == if n <= was <= n + HDR + MIN then was else n
  }

  lemma {:induction false} ReallocateOutcome(l: Layout, h: int, n: int)
    requires Inv(l) && InWord(l.blocks) && Live(l, h) && MIN <= n < WORD_RANGE && n % 4 == 0 && NoWrap(l, h, n)
    ensures ResizeOutcome(l, h, n, Reallocate(l, h, n))
  {
    hide FreeBytes, Inv, Moved, Grown, Cut, Allocate, InWord, SizeOf, OthersKept, SameSpan, GrowTest;
    LiveIndex(l, h);
    var i := IndexOf(l.blocks, h);
    LiveSize(l, i);
    if l.blocks[i + 1] !in l.used {
      NextUnused(l, i);
      LiveSize(l, i + 1);
      if SizeAt(l.blocks, i) < n {
        GrowTestMeans(l, i, n);
      }
    }
    if n > SizeAt(l.blocks, i) && l.blocks[i + 1] !in l.used && GrowTest(SizeAt(l.blocks, i), SizeAt(l.blocks, i + 1), n) {
      GrownIsMoved(l, i, n);
      MovedKeepsInv(l, i, n);
    } else if n > SizeAt(l.blocks, i) {
      RefusedIff(l, n);
      MoveOutcome(l, h, n);
    } else if n + HDR + MIN < SizeAt(l.blocks, i) {
      if l.blocks[i + 1] in l.used {
        CutKeepsInv(l, i, n);
      } else {
        TilesStep(l, i + 1);
        MovedKeepsInv(l, i, n);
      }
    }
  }

  lemma {:induction false} LiveSize(l: Layout, i: nat)
    requires Inv(l) && i + 1 < |l.blocks|
    ensures SizeOf(l.blocks, l.blocks[i]) == SizeAt(l.blocks, i)
  {
    SizeOfAt(l.blocks, i);
  }

  lemma {:induction false} GrowTestMeans(l: Layout, i: nat, n: int)
    requires Inv(l) && InWord(l.blocks) && i + 2 < |l.blocks| && n % 4 == 0 && n + MIN < WORD_RANGE && SizeAt(l.blocks, i) < n
    ensures GrowTest(SizeAt(l.blocks, i), SizeAt(l.blocks, i + 1), n) <==> SizeAt(l.blocks, i) + SizeAt(l.blocks, i + 1) > n + MIN
  {
    SizesFit(l, i);
    GrowTestExact(SizeAt(l.blocks, i), SizeAt(l.blocks, i + 1), n);
  }

  lemma {:induction false} MoveOutcome(l: Layout, h: int, n: int)
    requires Inv(l) && Live(l, h) && n >= MIN && n % 4 == 0
    ensures Allocate(l, n).Granted? ==>
              var b, l1 := Allocate(l, n).block, Allocate(l, n).layout;
              && Inv(l1) && Live(l1, h) && b != h && n <= SizeOf(FreedBlock(l1, h).blocks, b) < n + HDR + MIN
  {
    hide FreeBytes, Inv, OthersKept, SizeOf, SameSpan, Allocate, Freed;
    if Allocate(l, n).Granted? {
      var b, l1 := Allocate(l, n).block, Allocate(l, n).layout;
      AllocateKeepsInv(l, n);
      LiveKept(l, l1, b, h);
      LiveIndex(l1, h);
      var i := IndexOf(l1.blocks, h);
      FreedKeepsInv(l1, i);
      FreedKeepsOthers(l1, i);
      LiveKept(l1, Freed(l1, i), h, b);
    }
  }

  /** With a free block large enough, the only refusal is of a request that would take
      every available byte. */
  lemma {:induction false} RefusesFitIff(l: Layout, size: int, b: int)
    requires Inv(l) && b in l.free && size <= SizeOf(l.blocks, b)
    ensures Allocate(l, size).Refused? <==> size == l.available
  {
    hide FreeBytes, SizeOf;
    RefusedIff(l, size);
    FreeIsIndex(l, b);
    FreeBytesBound(l.blocks, l.used, IndexOf(l.blocks, b));
  }

  /** A request for all the bytes of a fresh heap is refused although they are in one block. */
  lemma {:induction false} WholeHeapRefused(start: int, end: int)
    requires start + HDR + MIN <= end && (end - start) % 4 == 0
    ensures var l := Fresh(start, end);
            Inv(l) && start in l.free && SizeOf(l.blocks, start) == end - start - HDR && Allocate(l, end - start - HDR).Refused?
  {
    hide FreeBytes;
    FreshInv(start, end);
    SizeOfAt(Fresh(start, end).blocks, 0);
    RefusesFitIff(Fresh(start, end), end - start - HDR, start);
  }

  /** A request for 0xFFFF_FFFF bytes wraps when it is rounded and is granted a block of 12. */
  lemma {:induction false} HugeRequestGranted(start: int, end: int)
    requires start + 2 * HDR + 2 * MIN <= end && (end - start) % 4 == 0
    ensures var l := Fresh(start, end);
            && Inv(l) && Allocate(l, Rounded(0xFFFF_FFFF)).Granted?
            && SizeOf(Allocate(l, Rounded(0xFFFF_FFFF)).layout.blocks, Allocate(l, Rounded(0xFFFF_FFFF)).block) == MIN
  {
    hide FreeBytes, Inv;
    FreshInv(start, end);
    var l := Fresh(start, end);
    assert Rounded(0xFFFF_FFFF) == MIN;
    FreshSize(start, end);
    assert FirstFit(l.blocks, l.free, MIN) == 0;
    var l1 := Taken(l, start, MIN);
    assert l1.blocks == [start, start + HDR + MIN, end];
    assert IndexOf(l1.blocks, start) == 0;
  }

  lemma FreshSize(start: int, end: int)
    requires start < end
    ensures SizeOf(Fresh(start, end).blocks, start) == end - start - HDR
  {
    assert IndexOf([start, end], start) == 0;
  }

  // ----- runs -----

  /** Calls with 32-bit sizes; a free or a resize of anything but a live block stops in an
      assertion of the source and changes nothing here. */
  datatype Op = AllocOp(size: int) | FreeOp(block: int) | ReallocOp(block: int, size: int)

  predicate Sized(op: Op) {
    match op
    case AllocOp(size) => 0 <= size < WORD_RANGE
    case FreeOp(_) => true
    case ReallocOp(_, size) => 0 <= size < WORD_RANGE
  }

  ghost function Apply(l: Layout, op: Op): Layout
    requires Inv(l) && Sized(op)
  {
    match op
    case AllocOp(size) => After(l, Allocate(l, Rounded(size)))
    case FreeOp(h) => if Live(l, h) then FreedBlock(l, h) else l
    case ReallocOp(h, size) =>
      if !Live(l, h) then l
      else if size == 0 then FreedBlock(l, h)
      else After(l, Reallocate(l, h, Rounded(size)))
  }

  /** Every call but a resize that wraps. */
  ghost predicate Legal(l: Layout, op: Op)
    requires Inv(l)
  {
    Sized(op) && (op.ReallocOp? && Live(l, op.block) && op.size > 0 ==> NoWrap(l, op.block, Rounded(op.size)))
  }

  /** A call keeps the invariant if and only if it is not a resize that wraps. */
  lemma {:induction false} ApplyKeepsInvIff(l: Layout, op: Op)
    requires Inv(l) && InWord(l.blocks) && Sized(op)
    ensures Inv(Apply(l, op)) <==> Legal(l, op)
    ensures Legal(l, op) ==> SameSpan(l.blocks, Apply(l, op).blocks)
  {
    hide FreeBytes, Tiles, Merged, ListsUnused, Freed, Reallocate, Allocate, Rounded, OthersKept, InWord, SizeOf;
    match op
    case AllocOp(size) => AllocateKeepsInv(l, Rounded(size));
    case FreeOp(h) =>
      if Live(l, h) {
        LiveIndex(l, h);
        FreedKeepsInv(l, IndexOf(l.blocks, h));
      }
    case ReallocOp(h, size) =>
      if Live(l, h) {
        LiveIndex(l, h);
        FreedKeepsInv(l, IndexOf(l.blocks, h));
        ReallocateKeepsInvIff(l, h, Rounded(size));
        if NoWrap(l, h, Rounded(size)) {
          ReallocateKeepsInv(l, h, Rounded(size));
        }
      }
  }

  ghost predicate LegalRun(l: Layout, ops: seq<Op>)
    requires Inv(l) && InWord(l.blocks)
    decreases |ops|
  {
    ops == [] || (Legal(l, ops[0]) && (ApplyKeepsInvIff(l, ops[0]); LegalRun(Apply(l, ops[0]), ops[1..])))
  }

  ghost function Run(l: Layout, ops: seq<Op>): (l': Layout)
    requires Inv(l) && InWord(l.blocks) && LegalRun(l, ops)
    decreases |ops|
  {
    if ops == [] then l
    else
      ApplyKeepsInvIff(l, ops[0]);
      Run(Apply(l, ops[0]), ops[1..])
  }

  /** rt_memheap_init: one unused block before the tail. */
  function Fresh(start: int, end: int): Layout {
    Layout([start, end], {end}, [start], end - start - HDR)
  }

  lemma {:induction false} FreshInv(start: int, end: int)
    requires start + HDR + MIN <= end && (end - start) % 4 == 0
    ensures Inv(Fresh(start, end))
  {
    FreeBytesOne(start, end, {end});
  }

  /** When only the tail is used, the heap is as it was initialised. */
  lemma {:induction false} AllFreeIsFresh(l: Layout)
    requires Inv(l) && l.used == {l.blocks[|l.blocks| - 1]}
    ensures l == Fresh(l.blocks[0], l.blocks[|l.blocks| - 1])
  {
    hide FreeBytes;
    var start, end := l.blocks[0], l.blocks[|l.blocks| - 1];
    TilesDistinct(l.blocks);
    assert l.blocks[0] in l.used || l.blocks[1] in l.used;
    assert l.blocks == [start, end];
    FreeBytesOne(start, end, l.used);
    OnlyMember(l.free, start);
  }

  lemma {:induction false} OnlyMember(s: seq<int>, x: int)
    requires Distinct(s) && forall y :: y in s <==> y == x
    ensures s == [x]
  {
    assert x in s;
    assert s[0] in s && s[|s| - 1] in s;
  }

  /** Through any run the blocks tile the pool, the free list holds exactly the unused
      blocks, no two neighbours are unused and the available bytes are exactly those of
      the unused blocks; with everything freed the initial heap is back. */
  lemma {:induction false} RunKeepsInv(l: Layout, ops: seq<Op>)
    requires Inv(l) && InWord(l.blocks) && LegalRun(l, ops)
    ensures Inv(Run(l, ops)) && SameSpan(l.blocks, Run(l, ops).blocks)
    decreases |ops|
  {
    hide FreeBytes, Tiles, Merged, ListsUnused, Apply, NoWrap;
    if ops != [] {
      ApplyKeepsInvIff(l, ops[0]);
      RunKeepsInv(Apply(l, ops[0]), ops[1..]);
    }
  }

  lemma {:induction false} RunThenAllFree(start: int, end: int, ops: seq<Op>)
    requires 0 <= start && start + HDR + MIN <= end && end + HDR <= WORD_RANGE && (end - start) % 4 == 0
    ensures Inv(Fresh(start, end)) && InWord(Fresh(start, end).blocks)
    ensures LegalRun(Fresh(start, end), ops) && Run(Fresh(start, end), ops).used == {end} ==> Run(Fresh(start, end), ops) == Fresh(start, end)
  {
    hide Inv, Run;
    FreshInv(start, end);
    if LegalRun(Fresh(start, end), ops) {
      RunKeepsInv(Fresh(start, end), ops);
      if Run(Fresh(start, end), ops).used == {end} {
        AllFreeIsFresh(Run(Fresh(start, end), ops));
      }
    }
  }

  /** Freeing what was just allocated restores blocks, marks and available bytes, and the
      free list up to its order. */
  lemma {:induction false} FreeUndoesAllocate(l: Layout, size: int)
    requires Inv(l) && size >= MIN && size % 4 == 0 && Allocate(l, size).Granted?
    ensures var h, l1 := Allocate(l, size).block, Allocate(l, size).layout;
            && Inv(l1) && Live(l1, h)
            && var l2 := FreedBlock(l1, h);
            && l2.blocks == l.blocks && l2.used == l.used && l2.available == l.available
            && Distinct(l2.free) && forall b :: b in l2.free <==> b in l.free
  {
    hide FreeBytes, Tiles, Merged, OthersKept, Freed, Taken, SizeOf;
    var h, l1 := Allocate(l, size).block, Allocate(l, size).layout;
    AllocateKeepsInv(l, size);
    LiveIndex(l1, h);
    var i := IndexOf(l1.blocks, h);
    FreedKeepsInv(l1, i);
    FreeIsIndex(l, h);
    assert l.used + {h} - {h} == l.used;
    FreedBlocksBack(l, h, size);
  }

  /** A free with a used left neighbour takes away at most the right neighbour. */
  lemma {:induction false} FreedAlone(l: Layout, i: nat)
    requires Inv(l) && i + 1 < |l.blocks| && l.blocks[i] in l.used && UsedBefore(l.blocks, l.used - {l.blocks[i]}, i)
    ensures Freed(l, i).blocks == if l.blocks[i + 1] in l.used then l.blocks else RemoveAt(l.blocks, i + 1)
  {
    hide FreeBytes, Merged, Aligned, RemoveAt, Without;
    TilesStep(l, i);
  }

  lemma {:induction false} FreedBlocksBack(l: Layout, h: int, size: int)
    requires Inv(l) && h in l.free && Inv(Taken(l, h, size)) && Live(Taken(l, h, size), h)
    requires Taken(l, h, size).used == l.used + {h}
    requires size >= MIN && IndexOf(Taken(l, h, size).blocks, h) + 1 < |Taken(l, h, size).blocks|
    ensures Freed(Taken(l, h, size), IndexOf(Taken(l, h, size).blocks, h)).blocks == l.blocks
  {
    hide FreeBytes, Freed, SizeOf, Inv, Without, Live, Splice;
    FreeIsIndex(l, h);
    var l1, i := Taken(l, h, size), IndexOf(l.blocks, h);
    SameIndex(l, h, size);
    FreedAlone(l1, i);
    if SizeOf(l.blocks, h) >= size + HDR + MIN {
      RemoveSpliced(l.blocks, i + 1, h + HDR + size);
    }
  }

  lemma {:induction false} SameIndex(l: Layout, h: int, size: int)
    requires Inv(l) && h in l.free && Inv(Taken(l, h, size)) && size >= MIN
    ensures var l1 := Taken(l, h, size); var i := IndexOf(l.blocks, h);
            && h in l1.blocks && IndexOf(l1.blocks, h) == i && UsedBefore(l1.blocks, l.used, i) && (i > 0 ==> l1.blocks[i - 1] != h)
            && (SizeOf(l.blocks, h) >= size + HDR + MIN ==> l1.blocks[i + 1] !in l1.used)
            && (SizeOf(l.blocks, h) < size + HDR + MIN ==> l1.blocks[i + 1] in l1.used)
  {
    hide FreeBytes, ListsUnused, Aligned;
    FreeIsIndex(l, h);
    var r, i := Taken(l, h, size).blocks, IndexOf(l.blocks, h);
    assert r[i] == h;
    TilesDistinct(r);
    IndexIs(r, i);
  }
}
