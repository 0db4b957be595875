/** src/memheap.c as it updates memory: block and free lists relinked through the items'
    four pointers, the used bit, the byte counts, and the bytes of the pool. */
module MemHeap {
  import opened Sequences
  import opened HeapBlocks
  import opened HeapBytes
  import opened Rings
  import opened MemHeapModel
  import opened MemHeapAlloc
  import opened MemHeapRuns

  const NULL := 0
  /** The address of the free list header, which lies outside every pool. */
  const HEADER := -1

  // ----- rings -----

  lemma {:induction false} RingPush(next: Links, prev: Links, free: seq<int>, x: int)
    requires IsRing(next, prev, [HEADER] + free) && x != HEADER && x !in free
    ensures HEADER in next
    ensures IsRing(next[x := next[HEADER]][HEADER := x], prev[x := HEADER][next[HEADER] := x], [HEADER] + ([x] + free))
  {
    var s := [HEADER] + free;
    assert s[0] == HEADER;
    RingSplice(next, prev, s, 0, x);
    assert Splice(s, 1, x) == [HEADER] + ([x] + free);
  }

  lemma {:induction false} RingWithout(next: Links, prev: Links, free: seq<int>, x: int)
    requires IsRing(next, prev, [HEADER] + free) && x in free
    ensures x in next && x in prev
    ensures IsRing(next[prev[x] := next[x]], prev[next[x] := prev[x]], [HEADER] + Without(free, x))
  {
    var s, k := [HEADER] + free, IndexOf(free, x);
    assert s[k + 1] == x;
    RingRemove(next, prev, s, k + 1);
    assert RemoveAt(s, k + 1) == [HEADER] + Without(free, x);
  }

  lemma {:induction false} RingFrame(next: Links, prev: Links, s: seq<int>, x: int, v: int)
    requires IsRing(next, prev, s) && x !in s
    ensures IsRing(next[x := v], prev[x := v], s)
  {
  }

  class Heap {
    const start: int
    const poolSize: int
    var next: Links
    var prev: Links
    var nextFree: Links
    var prevFree: Links
    /** Items whose magic has the used bit. */
    var used: set<int>
    var available: int
    var maxUsed: int
    var bytes: Bytes
    ghost var l: Layout

    /** The pointers and counts are those of the layout. */
    ghost predicate Linked()
      reads this
    {
      && IsRing(next, prev, l.blocks) && IsRing(nextFree, prevFree, [HEADER] + l.free)
      && used == l.used && available == l.available
    }

    ghost predicate Valid()
      reads this
    {
      && Linked() && Inv(l)
      && start >= 0 && start + poolSize <= WORD_RANGE
      && l.blocks[0] == start && l.blocks[|l.blocks| - 1] == start + poolSize - HDR
      && poolSize - available <= maxUsed
    }

    lemma PoolInWord()
      requires Valid()
      ensures InWord(l.blocks)
    {
      hide FreeBytes;
    }

    /** rt_memheap_init */
    constructor (start: int, size: int)
      requires 0 <= start && start + size <= WORD_RANGE && size / 4 * 4 >= 2 * HDR + MIN
      ensures Valid() && this.start == start && poolSize == size / 4 * 4
      ensures l == Fresh(start, start + poolSize - HDR) && maxUsed == 2 * HDR
    {
      this.start := start;
      poolSize := size / 4 * 4;
      available := size / 4 * 4 - 2 * HDR;
      maxUsed := 2 * HDR;
      var item := start;
      var tail := start + (size / 4 * 4 - 2 * HDR) + HDR;
      next, prev := map[item := tail, tail := item], map[item := tail, tail := item];
      nextFree, prevFree := map[HEADER := item, item := HEADER], map[HEADER := item, item := HEADER];
      used := {tail};
      bytes := map[];
      l := Fresh(start, tail);
      new;
      FreshInv(start, tail);
      assert [HEADER] + l.free == [HEADER, start];
    }

    // ----- one list or count -----

    /** Items are written; the free list header is not in the pool. */
    method Touch(items: set<int>, ghost heads: set<int>)
      requires items <= heads + {HEADER}
      modifies this`bytes
      ensures KeepsBut(old(bytes), bytes, heads, HDR)
    {
      bytes := Scrub(bytes, items - {HEADER}, HDR);
    }

    /** Insert `x` at the head of the free list. */
    method PushFree(x: int, ghost heads: set<int>)
      requires Linked() && x != HEADER && x !in l.free && x in heads && forall b :: b in l.free ==> b in heads
      modifies this`nextFree, this`prevFree, this`bytes, this`l
      ensures Linked() && l == old(l).(free := [x] + old(l).free)
      ensures KeepsBut(old(bytes), bytes, heads, HDR)
    {
      hide IsRing, KeepsBut;
      RingPush(nextFree, prevFree, l.free, x);
      NeighboursIn([HEADER] + l.free, nextFree, prevFree, HEADER);
      var first := nextFree[HEADER];
      nextFree := nextFree[x := first];
      prevFree := prevFree[x := HEADER];
      prevFree := prevFree[nextFree[HEADER] := x];
      nextFree := nextFree[HEADER := x];
      l := l.(free := [x] + l.free);
      Touch({x, first}, heads);
    }

    /** Take `x` out of the free list. */
    method DropFree(x: int, ghost heads: set<int>)
      requires Linked() && x in l.free && forall b :: b in l.free ==> b in heads
      modifies this`nextFree, this`prevFree, this`bytes, this`l
      ensures Linked() && l == old(l).(free := Without(old(l).free, x))
      ensures KeepsBut(old(bytes), bytes, heads, HDR)
    {
      hide IsRing, Without, KeepsBut;
      RingWithout(nextFree, prevFree, l.free, x);
      NeighboursIn([HEADER] + l.free, nextFree, prevFree, x);
      var after, before := nextFree[x], prevFree[x];
      prevFree := prevFree[after := before];
      nextFree := nextFree[before := after];
      l := l.(free := Without(l.free, x));
      Touch({after, before}, heads);
    }

    /** Insert the item at `x` after block `i` in the block list. */
    method LinkBlock(h: int, x: int, ghost i: nat, ghost heads: set<int>)
      requires Linked() && i < |l.blocks| && l.blocks[i] == h && x !in l.blocks
      requires x in heads && forall b :: b in l.blocks ==> b in heads
      modifies this`next, this`prev, this`bytes, this`l
      ensures Linked() && l == old(l).(blocks := Splice(old(l).blocks, i + 1, x))
      ensures KeepsBut(old(bytes), bytes, heads, HDR)
    {
      hide IsRing, Splice, KeepsBut;
      NeighboursIn(l.blocks, next, prev, h);
      RingSplice(next, prev, l.blocks, i, x);
      var after := next[h];
      prev := prev[x := h];
      next := next[x := after];
      prev := prev[next[h] := x];
      next := next[h := x];
      l := l.(blocks := Splice(l.blocks, i + 1, x));
      Touch({x, after, h}, heads);
    }

    /** Take block `k` out of the block list. */
    method UnlinkBlock(b: int, ghost k: nat, ghost heads: set<int>)
      requires Linked() && k < |l.blocks| && |l.blocks| >= 2 && l.blocks[k] == b
      requires forall b :: b in l.blocks ==> b in heads
      modifies this`next, this`prev, this`bytes, this`l
      ensures Linked() && l == old(l).(blocks := RemoveAt(old(l).blocks, k))
      ensures KeepsBut(old(bytes), bytes, heads, HDR)
    {
      hide IsRing, RemoveAt, KeepsBut;
      NeighboursIn(l.blocks, next, prev, b);
      RingRemove(next, prev, l.blocks, k);
      var after, before := next[b], prev[b];
      next := next[before := after];
      prev := prev[after := before];
      l := l.(blocks := RemoveAt(l.blocks, k));
      Touch({before, after}, heads);
    }

    // ----- free -----

    method MarkUnused(h: int, ghost i: nat, ghost heads: set<int>)
      requires Linked() && i + 1 < |l.blocks| && l.blocks[i] == h && h in heads
      modifies this`used, this`available, this`bytes, this`l
      ensures Linked() && l == Marked(old(l), i) && KeepsBut(old(bytes), bytes, heads, HDR)
    {
      used := used - {h};
      available := available + (next[h] - h - HDR);
      assert next[h] == Next(l.blocks, i);
      l := Marked(l, i);
      Touch({h}, heads);
    }

    /** Merge with the right neighbour if that is unused. */
    method MergeRight(h: int, ghost j: nat, ghost heads: set<int>)
      requires Linked() && j + 1 < |l.blocks| && l.blocks[j] == h
      requires (forall b :: b in l.blocks ==> b in heads) && (forall b :: b in l.free ==> b in heads)
      requires l.blocks[j + 1] !in l.used ==> l.blocks[j + 1] in l.free
      modifies this`next, this`prev, this`nextFree, this`prevFree, this`available, this`bytes, this`l
      ensures Linked() && l == JoinRight(old(l), j) && KeepsBut(old(bytes), bytes, heads, HDR)
    {
      assert next[h] == Next(l.blocks, j);
      if next[h] !in used {
        var n := next[h];
        UnlinkBlock(n, j + 1, heads);
        DropFree(n, heads);
        available := available + HDR;
        l := l.(available := l.available + HDR);
      }
    }

    /** Merge a block just marked unused with an unused left neighbour. */
    method MergeLeft(h: int, ghost l0: Layout, ghost i: nat, ghost heads: set<int>)
      returns (header: int, insert: bool, ghost j: nat)
      requires Inv(l0) && i + 1 < |l0.blocks| && l0.blocks[i] == h && h in l0.used
      requires Linked() && l == Marked(l0, i) && forall b :: b in l0.blocks ==> b in heads
      modifies this`next, this`prev, this`available, this`bytes, this`l
      ensures Linked() && KeepsBut(old(bytes), bytes, heads, HDR)
      ensures insert <==> UsedBefore(l0.blocks, l0.used - {h}, i)
      ensures l == if insert then Marked(l0, i) else JoinAt(Marked(l0, i), i)
      ensures (insert ==> j == i) && (!insert ==> j == i - 1) && header == l0.blocks[j]
    {
      hide Inv, FreeBytes, Marked, RemoveAt;
      MarkedParts(l0, i);
      RingPrev(next, prev, l.blocks, i);
      header, insert, j := h, true, i;
      if prev[h] !in used {
        header, insert, j := prev[h], false, i - 1;
        UnlinkBlock(h, i, heads);
        available := available + HDR;
        l := l.(available := l.available + HDR);
      }
    }

    /** rt_memheap_free */
    method Free(ptr: int)
      requires Valid() && (ptr == NULL || Live(l, ptr - HDR))
      modifies this
      ensures Valid() && maxUsed == old(maxUsed)
      ensures ptr == NULL ==> l == old(l) && bytes == old(bytes)
      ensures ptr != NULL ==>
                && l == FreedBlock(old(l), ptr - HDR)
                && PayloadsKept(old(l).blocks, old(l).used, ptr - HDR, old(bytes), bytes, HDR)
    {
      hide FreeBytes, Tiles, Merged, ListsUnused, IsRing, OthersKept, PayloadsKept, KeepsBut, Freed;
      if ptr == NULL {
        return;
      }
      var h := ptr - HDR;
      InPool(l, h);
      ghost var heads := set b | b in l.blocks;
      LiveIndex(l, h);
      ghost var i := IndexOf(l.blocks, h);
      FreedKeepsInv(l, i);
      FreedKeepsOthers(l, i);
      FreeBlock(h, i, heads);
      FreedMore(old(l), i);
      TilesSpaced(old(l).blocks);
      TilesSpaced(l.blocks);
      PayloadsSafe(old(l).blocks, old(l).used, l.blocks, l.used, h, old(bytes), bytes, heads, HDR);
    }

    method FreeBlock(h: int, ghost i: nat, ghost heads: set<int>)
      requires Linked() && Inv(l) && i + 1 < |l.blocks| && l.blocks[i] == h && h in l.used && h != HEADER
      requires heads == set b | b in l.blocks
      modifies this`used, this`next, this`prev, this`nextFree, this`prevFree, this`available, this`bytes, this`l
      ensures Linked() && l == Freed(old(l), i) && KeepsBut(old(bytes), bytes, heads, HDR)
    {
      hide FreeBytes, Tiles, Merged, JoinRight, IsRing, RemoveAt;
      FreeSteps(l, i);
      MarkUnused(h, i, heads);
      var header, insert, j := MergeLeft(h, old(l), i, heads);
      MergeRight(header, j, heads);
      if insert {
        PushFree(h, heads);
      }
    }

    // ----- alloc -----

    /** The walk along the free list for the first block that is large enough. */
    method Search(size: int) returns (header: int, freeSize: int)
      requires Valid() && size > 0
      ensures var k := FirstFit(l.blocks, l.free, size);
              if k == |l.free| then freeSize < size
              else header == l.free[k] && freeSize == SizeOf(l.blocks, header) && freeSize >= size
    {
      hide FreeBytes, Tiles, Merged, SizeOf, FirstFit;
      freeSize := 0;
      RingAt(nextFree, prevFree, l.free, 0);
      header := nextFree[HEADER];
      ghost var k := 0;
      while header != HEADER && freeSize < size
        invariant k <= |l.free| && header == FreeAt(l.free, k)
        invariant forall j :: 0 <= j < k ==> SizeOf(l.blocks, l.free[j]) < size
        invariant freeSize >= size ==> k < |l.free| && freeSize == SizeOf(l.blocks, l.free[k])
        decreases |l.free| - k, freeSize < size
      {
        HeaderNotListed(nextFree, prevFree, l.free);
        ItemSize(l, next, prev, header);
        freeSize := next[header] - header - HDR;
        if freeSize < size {
          RingAt(nextFree, prevFree, l.free, k + 1);
          header := nextFree[header];
          k := k + 1;
        }
      }
      HeaderNotListed(nextFree, prevFree, l.free);
      FirstFitIs(l.blocks, l.free, size, k);
    }

    /** The high-water mark. */
    method NoteUse()
      modifies this`maxUsed
      ensures maxUsed == if poolSize - available > old(maxUsed) then poolSize - available else old(maxUsed)
    {
      if poolSize - available > maxUsed {
        maxUsed := poolSize - available;
      }
    }

    /** Take `x` out of the free list and clear its links. */
    method Detach(x: int, ghost heads: set<int>)
      requires Linked() && x in l.free && x in heads && forall b :: b in l.free ==> b in heads
      modifies this`nextFree, this`prevFree, this`bytes, this`l
      ensures Linked() && l == old(l).(free := Without(old(l).free, x))
      ensures KeepsBut(old(bytes), bytes, heads, HDR)
    {
      FreeDistinct(nextFree, prevFree, l.free, x);
      DropFree(x, heads);
      RingFrame(nextFree, prevFree, [HEADER] + l.free, x, NULL);
      nextFree := nextFree[x := NULL];
      prevFree := prevFree[x := NULL];
      Touch({x}, heads);
    }

    method TakeSplit(h: int, size: int, ghost i: nat, ghost heads: set<int>)
      requires Linked() && i + 1 < |l.blocks| && l.blocks[i] == h && h in l.free && h + HDR + size != HEADER
      requires h + HDR + size !in l.blocks && (forall b :: b in l.free ==> b in l.blocks) && size >= 0
      requires (forall b :: b in l.blocks ==> b in heads) && h + HDR + size in heads
      requires Distinct(l.free)
      modifies this`used, this`next, this`prev, this`nextFree, this`prevFree, this`available, this`maxUsed, this`bytes, this`l
      ensures Linked() && KeepsBut(old(bytes), bytes, heads, HDR)
      ensures var x := h + HDR + size;
              l == Layout(Splice(old(l).blocks, i + 1, x), old(l).used + {h} - {x}, [x] + Without(old(l).free, h), old(l).available - size - HDR)
      ensures maxUsed == if poolSize - available > old(maxUsed) then poolSize - available else old(maxUsed)
    {
      hide IsRing, Splice, Without, Distinct;
      WithoutMembers(l.free, h);
      var x := h + size + HDR;
      used := used - {x};
      l := l.(used := l.used - {x});
      LinkBlock(h, x, i, heads);
      Detach(h, heads);
      PushFree(x, heads);
      available := available - size - HDR;
      NoteUse();
      used := used + {h};
      l := l.(used := l.used + {h}, available := available);
      assert old(l).used - {x} + {h} == old(l).used + {h} - {x};
      Touch({h}, heads);
    }

    method TakeWhole(h: int, freeSize: int, ghost heads: set<int>)
      requires Linked() && h in l.free && h in heads && forall b :: b in l.free ==> b in heads
      modifies this`used, this`nextFree, this`prevFree, this`available, this`maxUsed, this`bytes, this`l
      ensures Linked() && KeepsBut(old(bytes), bytes, heads, HDR)
      ensures l == Layout(old(l).blocks, old(l).used + {h}, Without(old(l).free, h), old(l).available - freeSize)
      ensures maxUsed == if poolSize - available > old(maxUsed) then poolSize - available else old(maxUsed)
    {
      hide IsRing, Without;
      available := available - freeSize;
      l := l.(available := available);
      NoteUse();
      Detach(h, heads);
      used := used + {h};
      l := l.(used := used);
      Touch({h}, heads);
    }

    /** Hand out the listed block `h`. */
    method Take(h: int, size: int, freeSize: int)
      requires Valid() && h in l.free && size >= MIN && size % 4 == 0 && freeSize == SizeOf(l.blocks, h) && freeSize >= size
      modifies this
      ensures Valid() && l == Taken(old(l), h, size)
      ensures PayloadsKept(old(l).blocks, old(l).used, h, old(bytes), bytes, HDR)
      ensures maxUsed == if poolSize - available > old(maxUsed) then poolSize - available else old(maxUsed)
    {
      hide FreeBytes, Tiles, Merged, ListsUnused, SizeOf, OthersKept, KeepsBut, PayloadsKept, IsRing, Taken;
      TakenKeepsInv(l, h, size);
      ghost var heads := set b | b in Taken(l, h, size).blocks;
      TakenFits(l, h, size);
      TakeBlock(h, size, freeSize, heads);
      TilesSpaced(old(l).blocks);
      TilesSpaced(l.blocks);
      PayloadsSafe(old(l).blocks, old(l).used, l.blocks, l.used, h, old(bytes), bytes, heads, HDR);
    }

    method TakeBlock(h: int, size: int, freeSize: int, ghost heads: set<int>)
      requires Linked() && Inv(l) && h in l.free && freeSize == SizeOf(l.blocks, h) && h + HDR + size != HEADER && size >= 0
      requires heads == set b | b in Taken(l, h, size).blocks
      requires forall b :: b in l.blocks ==> b in heads
      requires freeSize >= size + HDR + MIN ==> h + HDR + size !in l.blocks && h + HDR + size in heads
      modifies this`used, this`next, this`prev, this`nextFree, this`prevFree, this`available, this`maxUsed, this`bytes, this`l
      ensures Linked() && l == Taken(old(l), h, size) && KeepsBut(old(bytes), bytes, heads, HDR)
      ensures maxUsed == if poolSize - available > old(maxUsed) then poolSize - available else old(maxUsed)
    {
      hide FreeBytes, Tiles, Merged, SizeOf, KeepsBut, IsRing, Splice, Without;
      FreeIsIndex(l, h);
      if freeSize >= size + HDR + MIN {
        TakeSplit(h, size, IndexOf(l.blocks, h), heads);
      } else {
        TakeWhole(h, freeSize, heads);
      }
    }

    /** rt_memheap_alloc */
    method Alloc(size: int) returns (p: int)
      requires Valid() && 0 <= size < WORD_RANGE
      modifies this
      ensures Valid()
      ensures match Allocate(old(l), Rounded(size))
              case Refused => p == NULL && l == old(l) && bytes == old(bytes) && maxUsed == old(maxUsed)
              case Granted(h, l') =>
                && p == h + HDR && l == l' && PayloadsKept(old(l).blocks, old(l).used, h, old(bytes), bytes, HDR)
                && maxUsed == if poolSize - available > old(maxUsed) then poolSize - available else old(maxUsed)
    {
      hide FreeBytes, Tiles, Merged, ListsUnused, SizeOf, PayloadsKept, IsRing, Taken, Rounded;
      var n := Rounded(size);
      if n < available {
        var header, freeSize := Search(n);
        if freeSize >= n {
          Take(header, n, freeSize);
          return header + HDR;
        }
      }
      return NULL;
    }

    // ----- realloc -----

    /** Move the boundary between block `h` and its unused right neighbour. */
    method MoveBoundary(h: int, n: int, ghost i: nat, ghost heads: set<int>)
      requires Linked() && i + 2 < |l.blocks| && l.blocks[i] == h && l.blocks[i + 1] in l.free
      requires Distinct(l.blocks) && Distinct(l.free) && forall b :: b in l.free ==> b in l.blocks
      requires h + HDR + n != HEADER && h + HDR + n !in RemoveAt(l.blocks, i + 1) && h + HDR + n !in Without(l.free, l.blocks[i + 1])
      requires heads == (set b | b in l.blocks) + {h + HDR + n}
      modifies this`used, this`next, this`prev, this`nextFree, this`prevFree, this`bytes, this`l
      ensures Linked() && KeepsBut(old(bytes), bytes, heads, HDR)
      ensures l == Moved(old(l), i, n).(available := old(l).available)
    {
      hide FreeBytes, Tiles, Merged, IsRing, Without, RemoveAt, Splice;
      RemoveAtMembers(l.blocks, i + 1);
      RemovePlaces(l.blocks, i + 1);
      WithoutMembers(l.free, l.blocks[i + 1]);
      NextIs(next, prev, l.blocks, i);
      var nextPtr := next[h];
      DropFree(nextPtr, heads);
      UnlinkBlock(nextPtr, i + 1, heads);
      var x := h + HDR + n;
      used := used - {x};
      l := l.(used := l.used - {x});
      LinkBlock(h, x, i, heads);
      PushFree(x, heads);
      ReplaceIs(old(l).blocks, i + 1, x);
    }

    /** Merge the new block `x` with the listed block after it, before `x` itself is
        listed. */
    method EatNext(x: int, ghost k: nat, ghost heads: set<int>)
      requires Linked() && k + 2 < |l.blocks| && l.blocks[k] == x && l.blocks[k + 1] in l.free
      requires (forall b :: b in l.blocks ==> b in heads) && (forall b :: b in l.free ==> b in heads)
      modifies this`next, this`prev, this`nextFree, this`prevFree, this`available, this`bytes, this`l
      ensures Linked() && KeepsBut(old(bytes), bytes, heads, HDR)
      ensures l == old(l).(blocks := RemoveAt(old(l).blocks, k + 1), free := Without(old(l).free, old(l).blocks[k + 1]),
                           available := old(l).available - SizeAt(old(l).blocks, k + 1))
    {
      hide IsRing, RemoveAt, Without;
      NextIs(next, prev, l.blocks, k);
      NextIs(next, prev, l.blocks, k + 1);
      var f := next[x];
      available := available - (next[f] - f - HDR);
      l := l.(available := available);
      UnlinkBlock(f, k + 1, heads);
      DropFree(f, heads);
    }

    /** The shrinking half of rt_memheap_realloc. */
    method Shrink(h: int, n: int, ghost i: nat, ghost heads: set<int>)
      requires Linked() && Inv(l) && i + 1 < |l.blocks| && l.blocks[i] == h && h >= 0
      requires n >= MIN && n % 4 == 0 && SizeAt(l.blocks, i) > n + HDR + MIN
      requires heads == (set b | b in l.blocks) + {h + HDR + n}
      modifies this`used, this`next, this`prev, this`nextFree, this`prevFree, this`available, this`bytes, this`l
      ensures Linked() && KeepsBut(old(bytes), bytes, heads, HDR)
      ensures old(l).blocks[i + 1] !in old(l).used ==> old(l).blocks[i + 1] in old(l).free
      ensures l == if old(l).blocks[i + 1] in old(l).used then Cut(old(l), i, n) else Moved(old(l), i, n)
    {
      hide FreeBytes, Tiles, Merged, IsRing, Splice, RemoveAt, Without, Distinct;
      var x := h + n + HDR;
      SplitCore(l, i, n);
      CutFacts(l, i, x);
      used := used - {x};
      l := l.(used := l.used - {x});
      LinkBlock(h, x, i, heads);
      NextIs(next, prev, l.blocks, i + 1);
      if next[x] !in used {
        EatNext(x, i + 1, heads);
      }
      PushFree(x, heads);
      CutFacts(old(l), i, x);
      NextIs(next, prev, l.blocks, i + 1);
      available := available + (next[x] - x - HDR);
      l := l.(available := available);
    }

    /** The growth in place of rt_memheap_realloc. */
    method Grow(h: int, n: int, ghost i: nat)
      requires Valid() && i + 2 < |l.blocks| && l.blocks[i] == h && h in l.used && l.blocks[i + 1] in l.free
      requires n % 4 == 0 && SizeAt(l.blocks, i) < n && SizeAt(l.blocks, i + 1) + SizeAt(l.blocks, i) > n + MIN
      modifies this
      ensures Valid() && l == Moved(old(l), i, n) && KeptHead(old(l), i, n, old(bytes), bytes)
      ensures maxUsed == if poolSize - available > old(maxUsed) then poolSize - available else old(maxUsed)
    {
      hide FreeBytes, Tiles, Merged, ListsUnused, Distinct, IsRing, KeepsBut, KeptHead, Moved, Without, RemoveAt, SizeOf, OthersKept;
      GrowFacts(l, i, n);
      NextIs(next, prev, l.blocks, i);
      ghost var heads := (set b | b in l.blocks) + {h + HDR + n};
      available := available - (n - (next[h] - h - HDR));
      l := l.(available := available);
      NoteUse();
      MoveBoundary(h, n, i, heads);
      MovedCount(old(l), i, n, available);
      KeptHeadIs(old(l), l, i, n, old(bytes), bytes, heads);
    }

    /** Shrink a live block in place, keeping the head of its payload. */
    method ShrinkBlock(h: int, n: int, ghost i: nat)
      requires Valid() && i + 1 < |l.blocks| && l.blocks[i] == h && h in l.used
      requires n >= MIN && n % 4 == 0 && SizeAt(l.blocks, i) > n + HDR + MIN
      modifies this
      ensures Valid() && maxUsed == old(maxUsed) && KeptHead(old(l), i, n, old(bytes), bytes)
      ensures old(l).blocks[i + 1] !in old(l).used ==> old(l).blocks[i + 1] in old(l).free
      ensures l == if old(l).blocks[i + 1] in old(l).used then Cut(old(l), i, n) else Moved(old(l), i, n)
    {
      hide FreeBytes, Tiles, Merged, ListsUnused, IsRing, KeepsBut, KeptHead, Moved, Cut, SizeOf, OthersKept;
      InPool(l, h);
      ShrinkFacts(l, i, n);
      ghost var heads := (set b | b in l.blocks) + {h + HDR + n};
      Shrink(h, n, i, heads);
      KeptHeadIs(old(l), l, i, n, old(bytes), bytes, heads);
    }

    /** The move of rt_memheap_realloc: allocate, copy, free. */
    method Move(ptr: int, n: int) returns (p: int)
      requires Valid() && Live(l, ptr - HDR) && SizeOf(l.blocks, ptr - HDR) < n < WORD_RANGE && Rounded(n) == n
      modifies this
      ensures Valid()
      ensures MovedTo(old(l), old(bytes), ptr, n, p, l, bytes)
    {
      hide FreeBytes, Inv, SizeOf, OthersKept, PayloadsKept, Carried, IsRing, Allocate, Freed, Rounded, Copied;
      ghost var h, l0, b0 := ptr - HDR, l, bytes;
      ItemOf(l, next, prev, h);
      InPool(l, h);
      var size := next[ptr - HDR] - (ptr - HDR) - HDR;
      AllocateKeepsInv(l, n);
      GrantedIsNotNull(l, n);
      p := Alloc(n);
      if p != NULL {
        ghost var l1, b1 := l, bytes;
        LiveKept(l0, l1, p - HDR, h);
        bytes := Copied(bytes, p, ptr, size);
        ghost var b2 := bytes;
        Free(ptr);
        LiveExtent(l0, h);
        LiveExtent(l1, p - HDR);
        TilesOf(l1);
        MoveKeeps(l0.blocks, l0.used, l1.blocks, l1.used, HDR, h, h + HDR + size, p - HDR, p + SizeOf(l1.blocks, p - HDR), size, b0, b1, b2, bytes);
      }
    }

    /** Resize a live block to a rounded size. */
    method Resize(ptr: int, n: int) returns (p: int)
      requires Valid() && Live(l, ptr - HDR) && MIN <= n < WORD_RANGE && n % 4 == 0 && NoWrap(l, ptr - HDR, n)
      modifies this
      ensures Valid()
      ensures ResizedTo(old(l), old(bytes), ptr, n, p, l, bytes)
    {
      hide FreeBytes, Inv, SizeOf, PayloadsKept, Carried, IsRing, Allocate, Moved, Cut, Rounded, Live, KeptHead, OthersKept, Extent;
      ghost var h := ptr - HDR;
      ItemOf(l, next, prev, h);
      ghost var i := IndexOf(l.blocks, h);
      ResizeFacts(l, i);
      var size := next[ptr - HDR] - (ptr - HDR) - HDR;
      if n > size {
        var nextPtr := next[ptr - HDR];
        if nextPtr !in used {
          NextUnused(l, i);
          NextIs(next, prev, l.blocks, i + 1);
          SizesFit(l, i);
          if GrowTest(size, next[nextPtr] - nextPtr - HDR, n) {
            GrownIsMoved(l, i, n);
            Grow(ptr - HDR, n, i);
            InPlace(old(l), i, n, old(bytes), bytes);
            return ptr;
          }
        }
        RoundedFixed(n);
        p := Move(ptr, n);
      } else if n + HDR + MIN >= size {
        Untouched(l, h, bytes, n);
        return ptr;
      } else {
        ShrinkBlock(ptr - HDR, n, i);
        InPlace(old(l), i, n, old(bytes), bytes);
        return ptr;
      }
    }

    /** rt_memheap_realloc */
    method Realloc(ptr: int, newsize: int) returns (p: int)
      requires Valid() && 0 <= newsize < WORD_RANGE && (ptr == NULL || Live(l, ptr - HDR))
      requires ptr != NULL && newsize > 0 ==> NoWrap(l, ptr - HDR, Rounded(newsize))
      modifies this
      ensures Valid()
      ensures newsize == 0 ==> p == NULL
      ensures newsize == 0 && ptr == NULL ==> l == old(l) && bytes == old(bytes)
      ensures newsize == 0 && ptr != NULL ==>
                l == FreedBlock(old(l), ptr - HDR) && PayloadsKept(old(l).blocks, old(l).used, ptr - HDR, old(bytes), bytes, HDR)
      ensures newsize > 0 && ptr == NULL ==>
                match Allocate(old(l), Rounded(newsize))
                case Refused => p == NULL && l == old(l) && bytes == old(bytes)
                case Granted(h, l') => p == h + HDR && l == l' && PayloadsKept(old(l).blocks, old(l).used, h, old(bytes), bytes, HDR)
      ensures newsize > 0 && ptr != NULL ==> ResizedTo(old(l), old(bytes), ptr, Rounded(newsize), p, l, bytes)
      ensures newsize > 0 && ptr != NULL ==> (p == NULL <==> NoRoom(old(l), ptr - HDR, Rounded(newsize)))
      ensures newsize > 0 && ptr != NULL && p == NULL ==> l == old(l) && bytes == old(bytes)
      ensures newsize > 0 && ptr != NULL && p != NULL ==>
                && (KeepsFirst(old(l), old(bytes), ptr, newsize, p, l, bytes) <==>
                    newsize <= WORD_RANGE - 4 || SizeOf(old(l).blocks, ptr - HDR) <= HDR + 2 * MIN)
                && (newsize <= SizeOf(l.blocks, p - HDR) <==> newsize <= WORD_RANGE - 4)
    {
      hide FreeBytes, Inv, SizeOf, PayloadsKept, IsRing, Allocate, Rounded, Live, FreedBlock, ResizedTo, KeepsFirst, NoRoom;
      PoolInWord();
      if newsize == 0 {
        Free(ptr);
        return NULL;
      }
      var n := Rounded(newsize);
      RoundedFixed(n);
      if ptr == NULL {
        p := Alloc(n);
      } else {
        p := Resize(ptr, n);
        FirstKeptIff(old(l), old(bytes), ptr, newsize, p, l, bytes);
      }
    }
  }

  /** The block at `p` is large enough for the first bytes up to the old size and the size asked for,
      and has them. */
  ghost predicate KeepsFirst(l0: Layout, b0: Bytes, ptr: int, size: int, p: int, l: Layout, bytes: Bytes) {
    var was := SizeOf(l0.blocks, ptr - HDR);
    var n := if was < size then was else size;
    n <= SizeOf(l.blocks, p - HDR) && Carried(b0, bytes, ptr, p, n)
  }

  lemma {:induction false} FirstKeptIff(l0: Layout, b0: Bytes, ptr: int, size: int, p: int, l: Layout, bytes: Bytes)
    requires Inv(l0) && InWord(l0.blocks) && Live(l0, ptr - HDR) && 0 < size < WORD_RANGE && NoWrap(l0, ptr - HDR, Rounded(size))
    requires ResizedTo(l0, b0, ptr, Rounded(size), p, l, bytes)
    ensures p == NULL ==> l == l0 && bytes == b0
    ensures p == NULL <==> NoRoom(l0, ptr - HDR, Rounded(size))
    ensures p != NULL ==>
              && (KeepsFirst(l0, b0, ptr, size, p, l, bytes) <==>
                  size <= WORD_RANGE - 4 || SizeOf(l0.blocks, ptr - HDR) <= HDR + 2 * MIN)
              && (size <= SizeOf(l.blocks, p - HDR) <==> size <= WORD_RANGE - 4)
  {
    hide FreeBytes, Inv, SizeOf, PayloadsKept, Reallocate, Rounded, OthersKept, NoRoom;
    ReallocateOutcome(l0, ptr - HDR, Rounded(size));
    if Reallocate(l0, ptr - HDR, Rounded(size)).Granted? {
      ReallocateKeepsInv(l0, ptr - HDR, Rounded(size));
      InPool(l, p - HDR);
      KeepsFirstIff(l0, ptr - HDR, size);
      RoundedCovers(size);
      SizeInWord(l0, ptr - HDR);
      if size > WORD_RANGE - 4 {
        RoundedWraps(size);
        Untouched(l0, ptr - HDR, b0, SizeOf(l0.blocks, ptr - HDR));
        ToSmallest(l0, ptr - HDR);
      }
    }
  }

  /** The outcome of a resize: refused, everything is as before; granted, the layout is
      the model's, the first bytes up to the old and the new size are carried over, and
      no other live payload changed. A block with too little to cut off is left alone. */
  ghost predicate ResizedTo(l0: Layout, b0: Bytes, ptr: int, n: int, p: int, l: Layout, bytes: Bytes)
    requires Inv(l0) && Live(l0, ptr - HDR) && n >= MIN && n % 4 == 0
  {
    var size := SizeOf(l0.blocks, ptr - HDR);
    match Reallocate(l0, ptr - HDR, n)
    case Refused => p == NULL && l == l0 && bytes == b0
    case Granted(b, l') =>
      && p == b + HDR && l == l'
      && PayloadsKept(l0.blocks, l0.used, ptr - HDR, b0, bytes, HDR)
      && Carried(b0, bytes, ptr, p, if size < n then size else n)
      && (n <= size <= n + HDR + MIN ==> bytes == b0)
  }

  lemma RoundedFixed(n: int)
    requires MIN <= n <= WORD_RANGE - 4 && n % 4 == 0
    ensures Rounded(n) == n
  {
  }

  lemma {:induction false} ResizeFacts(l: Layout, i: nat)
    requires Inv(l) && i + 1 < |l.blocks| && Live(l, l.blocks[i])
    ensures IndexOf(l.blocks, l.blocks[i]) == i && SizeOf(l.blocks, l.blocks[i]) == SizeAt(l.blocks, i) && l.blocks[i] in l.used
  {
    hide FreeBytes, Merged, ListsUnused, Aligned;
    SizeOfAt(l.blocks, i);
  }

  lemma {:induction false} Untouched(l: Layout, h: int, bytes: Bytes, n: int)
    ensures PayloadsKept(l.blocks, l.used, h, bytes, bytes, HDR) && Carried(bytes, bytes, h + HDR, h + HDR, n)
  {
  }

  lemma {:induction false} InPlace(l: Layout, i: nat, n: int, b0: Bytes, b1: Bytes)
    requires i + 1 < |l.blocks| && KeptHead(l, i, n, b0, b1)
    ensures PayloadsKept(l.blocks, l.used, l.blocks[i], b0, b1, HDR)
    ensures var size := SizeAt(l.blocks, i);
            Carried(b0, b1, l.blocks[i] + HDR, l.blocks[i] + HDR, if size < n then size else n)
  {
    hide PayloadsKept;
  }

  // ----- moving bytes -----

  ghost predicate MovedTo(l0: Layout, b0: Bytes, ptr: int, n: int, p: int, l: Layout, bytes: Bytes)
    requires Inv(l0)
  {
    match Allocate(l0, n)
    case Refused => p == NULL && l == l0 && bytes == b0
    case Granted(b, l') =>
      && p == b + HDR && Inv(l') && Live(l', ptr - HDR) && l == FreedBlock(l', ptr - HDR)
      && PayloadsKept(l0.blocks, l0.used, ptr - HDR, b0, bytes, HDR)
      && Carried(b0, bytes, ptr, p, SizeOf(l0.blocks, ptr - HDR))
  }

  lemma {:induction false} ItemOf(l: Layout, next: Links, prev: Links, h: int)
    requires Inv(l) && IsRing(next, prev, l.blocks) && Live(l, h)
    ensures h in next && next[h] - h - HDR == SizeOf(l.blocks, h)
    ensures IndexOf(l.blocks, h) + 1 < |l.blocks| && next[h] == l.blocks[IndexOf(l.blocks, h) + 1]
  {
    hide Inv, IsRing;
    LiveIndex(l, h);
    NextIs(next, prev, l.blocks, IndexOf(l.blocks, h));
  }

  /** Where a live block lies. */
  lemma {:induction false} LiveSpan(l: Layout, c: int)
    requires Inv(l) && Live(l, c)
    ensures var i := IndexOf(l.blocks, c); i + 1 < |l.blocks| && l.blocks[i + 1] == c + HDR + SizeOf(l.blocks, c)
  {
    hide FreeBytes, Merged, ListsUnused, Aligned;
    LiveIndex(l, c);
  }

  /** Two live blocks do not overlap. */
  lemma {:induction false} LiveApart(l: Layout, c: int, d: int)
    requires Inv(l) && Live(l, c) && Live(l, d) && c != d
    ensures c + HDR + SizeOf(l.blocks, c) <= d || d + HDR + SizeOf(l.blocks, d) <= c
  {
    hide FreeBytes, SizeOf, Merged, ListsUnused, Aligned;
    LiveSpan(l, c);
    LiveSpan(l, d);
    var i, j := IndexOf(l.blocks, c), IndexOf(l.blocks, d);
    assert l.blocks[i] == c && l.blocks[j] == d;
    if i + 1 < j {
      assert l.blocks[i + 1] < l.blocks[j];
    } else if j + 1 < i {
      assert l.blocks[j + 1] < l.blocks[i];
    }
  }

  lemma TilesOf(l: Layout)
    requires Inv(l)
    ensures Ascending(l.blocks, HDR)
  {
    TilesSpaced(l.blocks);
  }

  lemma {:induction false} GrantedIsNotNull(l: Layout, n: int)
    requires Inv(l) && l.blocks[0] >= 0 && n >= MIN && n % 4 == 0
    ensures Allocate(l, n).Granted? ==> Allocate(l, n).block + HDR > NULL
  {
    hide FreeBytes, Tiles, Merged, SizeOf;
    if Allocate(l, n).Granted? {
      FreeIsIndex(l, Allocate(l, n).block);
      InPool(l, Allocate(l, n).block);
    }
  }

  lemma {:induction false} ShrinkFacts(l: Layout, i: nat, n: int)
    requires Inv(l) && i + 1 < |l.blocks| && l.blocks[i] in l.used
    requires n >= MIN && n % 4 == 0 && SizeAt(l.blocks, i) > n + HDR + MIN
    ensures l.blocks[i + 1] !in l.used ==> l.blocks[i + 1] in l.free
    ensures var l' := if l.blocks[i + 1] in l.used then Cut(l, i, n) else Moved(l, i, n);
            && Inv(l') && SameSpan(l.blocks, l'.blocks) && l.blocks[i] + HDR + n in l'.blocks && l'.available >= l.available
            && OthersKept(l.blocks, l.used, l'.blocks, l'.used, l.blocks[i])
  {
    hide FreeBytes, Inv, SizeOf, OthersKept, Splice, SameSpan, Without;
    if l.blocks[i + 1] in l.used {
      CutKeepsInv(l, i, n);
      SplicePlaces(l.blocks, i, l.blocks[i] + HDR + n);
    } else {
      NextUnused(l, i);
      TilesStep(l, i + 1);
      MovedKeepsInv(l, i, n);
      assert l.blocks[i + 1 := l.blocks[i] + HDR + n][i + 1] == l.blocks[i] + HDR + n;
    }
  }

  lemma MovedCount(l: Layout, i: nat, n: int, available: int)
    requires i + 1 < |l.blocks| && l.blocks[i + 1] in l.free && available == l.available - (n - SizeAt(l.blocks, i))
    ensures Moved(l.(available := available), i, n).(available := available) == Moved(l, i, n)
  {
  }

  lemma {:induction false} GrowFacts(l: Layout, i: nat, n: int)
    requires Inv(l) && i + 2 < |l.blocks| && l.blocks[i] in l.used && l.blocks[i + 1] in l.free && l.blocks[0] >= 0
    requires n % 4 == 0 && SizeAt(l.blocks, i) < n && SizeAt(l.blocks, i + 1) + SizeAt(l.blocks, i) > n + MIN
    ensures var x := l.blocks[i] + HDR + n;
            && x > HEADER && x !in RemoveAt(l.blocks, i + 1) && x !in Without(l.free, l.blocks[i + 1])
            && Distinct(l.blocks) && Distinct(l.free) && (forall b :: b in l.free ==> b in l.blocks)
    ensures var l' := Moved(l, i, n);
            && Inv(l') && SameSpan(l.blocks, l'.blocks) && l.blocks[i] + HDR + n in l'.blocks
            && OthersKept(l.blocks, l.used, l'.blocks, l'.used, l.blocks[i])
  {
    hide Inv, FreeBytes, SizeOf, OthersKept, Without, RemoveAt, Distinct;
    var x := l.blocks[i] + HDR + n;
    TilesStep(l, i);
    MovedKeepsInv(l, i, n);
    assert l.blocks[i + 1 := x][i + 1] == x;
    InPool(l, l.blocks[i]);
    GrowPlace(l, i, x);
  }

  lemma {:induction false} GrowPlace(l: Layout, i: nat, x: int)
    requires Inv(l) && i + 2 < |l.blocks| && l.blocks[i + 1] < x < l.blocks[i + 2] && l.blocks[i + 1] in l.free
    ensures x !in RemoveAt(l.blocks, i + 1) && x !in Without(l.free, l.blocks[i + 1])
    ensures Distinct(l.blocks) && Distinct(l.free) && forall b :: b in l.free ==> b in l.blocks
  {
    hide FreeBytes, Merged, Aligned, Ascending, Without, RemoveAt;
    TilesDistinct(l.blocks);
    RemoveAtMembers(l.blocks, i + 1);
    WithoutMembers(l.free, l.blocks[i + 1]);
    NotAmong(l.blocks, i + 1, x);
  }

  lemma {:induction false} NotAmong(blocks: seq<int>, k: nat, x: int)
    requires Ascending(blocks, HDR + MIN) && k + 1 < |blocks| && blocks[k] < x < blocks[k + 1]
    ensures x !in blocks
  {
    forall j | 0 <= j < |blocks| ensures blocks[j] != x {
      if j > k + 1 {
        assert blocks[k + 1] < blocks[j];
      } else if j < k {
        assert blocks[j] < blocks[k];
      }
    }
  }

  lemma {:induction false} KeptHeadIs(l: Layout, l': Layout, i: nat, n: int, b0: Bytes, b1: Bytes, heads: set<int>)
    requires Tiles(l.blocks) && Tiles(l'.blocks) && i + 1 < |l.blocks|
    requires OthersKept(l.blocks, l.used, l'.blocks, l'.used, l.blocks[i])
    requires heads == (set b | b in l.blocks) + {l.blocks[i] + HDR + n} && l.blocks[i] + HDR + n in l'.blocks
    requires KeepsBut(b0, b1, heads, HDR)
    ensures KeptHead(l, i, n, b0, b1)
  {
    hide Tiles, Ascending, OthersKept, KeepsBut, PayloadsKept, Keeps;
    TilesSpaced(l.blocks);
    TilesSpaced(l'.blocks);
    PayloadsSafe(l.blocks, l.used, l'.blocks, l'.used, l.blocks[i], b0, b1, heads, HDR);
    HeadSafe(l.blocks, i, l.blocks[i] + HDR + n, b0, b1, heads, HDR);
  }

  /** Item writes of a resize in place keep the other payloads and the first bytes of
      block `i`, up to its old and its new size. */
  ghost predicate KeptHead(l: Layout, i: nat, n: int, b0: Bytes, b1: Bytes)
    requires i + 1 < |l.blocks|
  {
    && PayloadsKept(l.blocks, l.used, l.blocks[i], b0, b1, HDR)
    && Keeps(b0, b1, l.blocks[i] + HDR, if l.blocks[i] + HDR + n < l.blocks[i + 1] then l.blocks[i] + HDR + n else l.blocks[i + 1])
  }

  /** The block list around a cut, with and without the block after it. */
  lemma {:induction false} CutFacts(l: Layout, i: nat, x: int)
    requires Inv(l) && i + 1 < |l.blocks| && x !in l.blocks
    ensures var r := Splice(l.blocks, i + 1, x);
            && |r| == |l.blocks| + 1 && r[i] == l.blocks[i] && r[i + 1] == x && r[i + 2] == l.blocks[i + 1]
            && (forall b :: b in r <==> b in l.blocks || b == x) && x !in l.free
            && (forall b :: b in l.free ==> b in l.blocks)
            && (l.blocks[i + 1] !in l.used ==>
                  && i + 3 < |r| && r[i + 3] == l.blocks[i + 2] && l.blocks[i + 1] in l.free
                  && RemoveAt(r, i + 2) == l.blocks[i + 1 := x] && x !in Without(l.free, l.blocks[i + 1])
                  && forall b :: b in Without(l.free, l.blocks[i + 1]) ==> b in l.blocks)
  {
    hide FreeBytes, Tiles, Merged;
    SpliceMembers(l.blocks, i + 1, x);
    if l.blocks[i + 1] !in l.used {
      WithoutMembers(l.free, l.blocks[i + 1]);
    }
  }

  lemma {:induction false} TakenFits(l: Layout, h: int, size: int)
    requires Inv(l) && h in l.free && size >= MIN && size % 4 == 0 && l.blocks[0] >= 0
    ensures h + HDR + size > HEADER && forall b :: b in l.blocks ==> b in Taken(l, h, size).blocks
    ensures SizeOf(l.blocks, h) >= size + HDR + MIN ==>
              h + HDR + size !in l.blocks && h + HDR + size in Taken(l, h, size).blocks
  {
    hide Inv, FreeBytes, SizeOf, Splice, Without, UsedOk, SameSpan;
    FreeIsIndex(l, h);
    InPool(l, h);
    var i := IndexOf(l.blocks, h);
    if SizeOf(l.blocks, h) >= size + HDR + MIN {
      SplitCore(l, i, size);
      SpliceMembers(l.blocks, i + 1, h + HDR + size);
    }
  }

  lemma ReplaceIs(s: seq<int>, k: nat, x: int)
    requires k < |s|
    ensures Splice(RemoveAt(s, k), k, x) == s[k := x]
  {
  }

  lemma RemovePlaces(s: seq<int>, k: nat)
    requires 0 < k < |s|
    ensures |RemoveAt(s, k)| == |s| - 1 && RemoveAt(s, k)[k - 1] == s[k - 1]
  {
  }

  lemma NextIs(next: Links, prev: Links, s: seq<int>, i: nat)
    requires IsRing(next, prev, s) && i + 1 < |s|
    ensures s[i] in next && next[s[i]] == s[i + 1]
  {
    assert next[s[i]] == Next(s, i);
  }

  // ----- facts about the lists -----

  function FreeAt(free: seq<int>, k: nat): int
    requires k <= |free|
  {
    if k == |free| then HEADER else free[k]
  }

  lemma {:induction false} RingAt(next: Links, prev: Links, free: seq<int>, k: nat)
    requires IsRing(next, prev, [HEADER] + free) && k <= |free|
    ensures var b := if k == 0 then HEADER else free[k - 1]; b in next && next[b] == FreeAt(free, k)
  {
    assert ([HEADER] + free)[k] == if k == 0 then HEADER else free[k - 1];
    assert Next([HEADER] + free, k) == FreeAt(free, k);
  }

  lemma {:induction false} HeaderNotListed(next: Links, prev: Links, free: seq<int>)
    requires IsRing(next, prev, [HEADER] + free)
    ensures HEADER !in free
  {
    var s := [HEADER] + free;
    forall k | 0 <= k < |free| ensures free[k] != HEADER {
      assert s[k + 1] == free[k] && s[0] == HEADER;
    }
  }

  lemma {:induction false} FreeDistinct(next: Links, prev: Links, free: seq<int>, x: int)
    requires IsRing(next, prev, [HEADER] + free) && x in free
    ensures x !in [HEADER] + Without(free, x)
  {
    HeaderNotListed(next, prev, free);
    var s := [HEADER] + free;
    forall i, j | 0 <= i < j < |free| ensures free[i] != free[j] {
      assert s[i + 1] == free[i] && s[j + 1] == free[j];
    }
    WithoutMembers(free, x);
  }

  lemma {:induction false} FirstFitIs(blocks: seq<int>, free: seq<int>, size: int, k: nat)
    requires k <= |free| && (k < |free| ==> SizeOf(blocks, free[k]) >= size)
    requires forall j :: 0 <= j < k ==> SizeOf(blocks, free[j]) < size
    ensures FirstFit(blocks, free, size) == k
  {
    hide SizeOf;
    var f := FirstFit(blocks, free, size);
  }

  /** MEMITEM_SIZE of a listed item is its block's size. */
  lemma {:induction false} ItemSize(l: Layout, next: Links, prev: Links, h: int)
    requires Inv(l) && IsRing(next, prev, l.blocks) && h in l.free
    ensures h in next && next[h] - h - HDR == SizeOf(l.blocks, h)
  {
    hide Inv, IsRing, SizeOf;
    FreeIsIndex(l, h);
    NextIs(next, prev, l.blocks, IndexOf(l.blocks, h));
  }

  lemma MarkedParts(l: Layout, i: nat)
    requires Inv(l) && i + 1 < |l.blocks|
    ensures var m := Marked(l, i); m.blocks == l.blocks && m.free == l.free && m.used == l.used - {l.blocks[i]}
    ensures l.blocks[|l.blocks| - 1] in l.used - {l.blocks[i]} && |l.blocks| >= 2
  {
  }

  lemma {:induction false} FreedMore(l: Layout, i: nat)
    requires Inv(l) && i + 1 < |l.blocks| && l.blocks[i] in l.used
    ensures Freed(l, i).available >= l.available
  {
    hide FreeBytes, Merged, ListsUnused, Aligned;
  }

  /** Where the steps of a free stand: the right neighbour, if unused, is listed. */
  lemma {:induction false} FreeSteps(l: Layout, i: nat)
    requires Inv(l) && i + 1 < |l.blocks| && l.blocks[i] in l.used
    ensures var m := Marked(l, i); var h := l.blocks[i];
            && (forall b :: b in m.free ==> b in l.blocks && b != h)
            && if UsedBefore(l.blocks, l.used - {h}, i) then
                 && (l.blocks[i + 1] !in m.used ==> l.blocks[i + 1] in m.free)
                 && Freed(l, i) == (var l2 := JoinRight(m, i); l2.(free := [h] + l2.free))
                 && (forall b :: b in JoinRight(m, i).free ==> b in l.blocks && b != h)
               else
                 var n := JoinAt(m, i);
                 && 0 < i < |n.blocks| && n.blocks[i - 1] == l.blocks[i - 1]
                 && (n.blocks[i] !in n.used ==> n.blocks[i] in n.free)
                 && Freed(l, i) == JoinRight(n, i - 1)
                 && (forall b :: b in n.blocks ==> b in l.blocks)
  {
    hide FreeBytes, Merged, Tiles, JoinRight;
    var h := l.blocks[i];
    TilesDistinct(l.blocks);
    if UsedBefore(l.blocks, l.used - {h}, i) {
      JoinOnlyRightCore(l, i);
      assert JoinRight(Marked(l, i), i).free <= JoinRight(Marked(l, i), i).free;
      RightListed(Marked(l, i), i);
    } else {
      JoinBothCore(l, i);
      RemoveAtMembers(l.blocks, i);
    }
  }

  lemma {:induction false} RightListed(l: Layout, j: nat)
    requires j + 1 < |l.blocks| && (l.blocks[j + 1] !in l.used ==> l.blocks[j + 1] in l.free) && Distinct(l.free)
    ensures forall b :: b in JoinRight(l, j).free ==> b in l.free
  {
    if l.blocks[j + 1] !in l.used {
      WithoutMembers(l.free, l.blocks[j + 1]);
    }
  }

  lemma {:induction false} NeighboursIn(s: seq<int>, next: Links, prev: Links, x: int)
    requires IsRing(next, prev, s) && x in s
    ensures x in next && x in prev && next[x] in s && prev[x] in s
  {
    var k :| 0 <= k < |s| && s[k] == x;
    RingPrev(next, prev, s, k);
  }
}
