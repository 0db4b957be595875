/** components/finsh/finsh_heap.c as it relinks block headers: a free and an allocated list,
    both in address order, through one `next` field. */
module FinshHeap {
  import opened Sequences
  import opened Chains
  import opened HeapBlocks
  import opened FinshHeapModel

  // ----- sorted lists -----

  ghost predicate Sorted(s: seq<int>) {
    forall i, j :: 0 <= i < j < |s| ==> s[i] < s[j]
  }

  /** How many nodes come before address `h`. */
  function Rank(s: seq<int>, h: int): (k: nat)
    ensures k <= |s| && (forall i :: 0 <= i < k ==> s[i] <= h) && (k < |s| ==> s[k] > h)
  {
    if s == [] || s[0] > h then 0 else 1 + Rank(s[1..], h)
  }

  lemma {:induction false} SortedDistinct(s: seq<int>)
    requires Sorted(s)
    ensures Distinct(s)
  {
  }

  lemma SortedOrder(s: seq<int>, i: nat, j: nat)
    requires Sorted(s) && i < |s| && j < |s|
    ensures s[i] < s[j] <==> i < j
    ensures s[i] <= s[j] <==> i <= j
  {
    assert i < j ==> s[i] < s[j];
    assert j < i ==> s[j] < s[i];
  }

  lemma {:induction false} SortedSplice(s: seq<int>, k: nat, x: int)
    requires Sorted(s) && k <= |s| && (forall i :: 0 <= i < k ==> s[i] < x) && (forall i :: k <= i < |s| ==> x < s[i])
    ensures Sorted(Splice(s, k, x)) && x !in s
  {
    var r := Splice(s, k, x);
    forall i, j | 0 <= i < j < |r| ensures r[i] < r[j] {
      SplicePlace(s, k, x, i);
      SplicePlace(s, k, x, j);
    }
  }

  lemma {:induction false} RankSplits(s: seq<int>, h: int)
    requires Sorted(s) && h !in s
    ensures var k := Rank(s, h); (forall i :: 0 <= i < k ==> s[i] < h) && (forall i :: k <= i < |s| ==> h < s[i])
  {
    hide Rank;
    var k := Rank(s, h);
    forall i | 0 <= i < k ensures s[i] < h {
      assert s[i] in s;
    }
    forall i | k <= i < |s| ensures h < s[i] {
      assert k < i ==> s[k] < s[i];
    }
  }

  lemma {:induction false} SortedRemove(s: seq<int>, k: nat)
    requires Sorted(s) && k < |s|
    ensures Sorted(RemoveAt(s, k)) && forall b :: b in RemoveAt(s, k) <==> b in s && b != s[k]
  {
    SortedDistinct(s);
    RemoveAtMembers(s, k);
    var r := RemoveAt(s, k);
    forall i, j | 0 <= i < j < |r| ensures r[i] < r[j] {
      RemovePlace(s, k, i);
      RemovePlace(s, k, j);
    }
  }

  /** Links that lead out of other nodes do not matter. */
  ghost predicate SameOn(next: map<int, int>, next': map<int, int>, s: seq<int>) {
    forall x :: x in s && x in next ==> x in next' && next'[x] == next[x]
  }

  lemma {:induction false} ChainSame(next: map<int, int>, next': map<int, int>, first: int, s: seq<int>)
    requires Chain(next, first, s) && SameOn(next, next', s)
    ensures Chain(next', first, s)
  {
    forall i | 0 <= i < |s| ensures s[i] in next' && next'[s[i]] == next[s[i]] {
      assert s[i] in s;
    }
  }

  /** Only links of `s` and of `h` differ. */
  ghost predicate Beyond(next: map<int, int>, next': map<int, int>, s: seq<int>, h: int) {
    next.Keys <= next'.Keys && forall x :: x in next && x !in s && x != h ==> next'[x] == next[x]
  }

  // ----- agreement with the layout -----

  ghost predicate FreeAgrees(free: seq<int>, l: Layout) {
    Sorted(free) && forall b :: b in free <==> b in l.blocks && b !in l.used
  }

  ghost predicate AllocAgrees(alloc: seq<int>, l: Layout) {
    Sorted(alloc) && forall b :: b in alloc <==> Live(l, b)
  }

  ghost predicate LengthOk(length: map<int, int>, blocks: seq<int>) {
    forall i :: 0 <= i < |blocks| - 1 ==> blocks[i] in length && length[blocks[i]] == LengthAt(blocks, i)
  }

  lemma {:induction false} LengthSplit(length: map<int, int>, blocks: seq<int>, i: nat, x: int)
    requires LengthOk(length, blocks) && Distinct(blocks) && i + 1 < |blocks| && x !in blocks
    ensures LengthOk(length[x := blocks[i + 1] - x - HDR][blocks[i] := x - blocks[i] - HDR], Splice(blocks, i + 1, x))
  {
    var r := Splice(blocks, i + 1, x);
    var m := length[x := blocks[i + 1] - x - HDR][blocks[i] := x - blocks[i] - HDR];
    forall j | 0 <= j < |r| - 1 ensures r[j] in m && m[r[j]] == LengthAt(r, j) {
      SplicePlace(blocks, i + 1, x, j);
      SplicePlace(blocks, i + 1, x, j + 1);
    }
  }

  lemma {:induction false} LengthJoin(length: map<int, int>, blocks: seq<int>, k: nat)
    requires LengthOk(length, blocks) && Distinct(blocks) && 0 < k < |blocks| - 1
    ensures blocks[k - 1] in length && blocks[k] in length
    ensures LengthOk(length[blocks[k - 1] := length[blocks[k - 1]] + length[blocks[k]] + HDR], RemoveAt(blocks, k))
  {
    hide RemoveAt, Distinct, LengthAt;
    var r := RemoveAt(blocks, k);
    var m := length[blocks[k - 1] := length[blocks[k - 1]] + length[blocks[k]] + HDR];
    RemovedLength(blocks, k, 0);
    forall j | 0 <= j < |r| - 1 ensures r[j] in m && m[r[j]] == LengthAt(r, j) {
      RemovedLength(blocks, k, j);
      DistinctAt(blocks, if j < k then j else j + 1, k - 1);
    }
  }

  lemma {:induction false} RemovedLength(blocks: seq<int>, k: nat, j: nat)
    requires 0 < k < |blocks| - 1 && j + 2 < |blocks|
    ensures |RemoveAt(blocks, k)| == |blocks| - 1
    ensures var r, i := RemoveAt(blocks, k), if j < k then j else j + 1;
            r[j] == blocks[i] && LengthAt(r, j) == if i == k - 1 then LengthAt(blocks, k - 1) + LengthAt(blocks, k) + HDR else LengthAt(blocks, i)
  {
    hide RemoveAt;
    RemovePlace(blocks, k, j);
    RemovePlace(blocks, k, j + 1);
  }

  /** A block ends where the next begins. */
  lemma {:induction false} EndsAt(length: map<int, int>, blocks: seq<int>, j: nat, i: nat)
    requires Ascending(blocks, HDR) && LengthOk(length, blocks) && j < i < |blocks|
    ensures blocks[j] in length && (blocks[j] + length[blocks[j]] + HDR == blocks[i] <==> j + 1 == i)
  {
    hide Ascending;
    AscendingOrder(blocks, HDR, j + 1, i);
  }

  /** The free node before block `i` is its neighbour exactly if that is free. */
  lemma {:induction false} PreviousTouches(l: Layout, free: seq<int>, length: map<int, int>, i: nat, k: nat)
    requires Tiles(l.blocks) && FreeAgrees(free, l) && LengthOk(length, l.blocks) && i + 1 < |l.blocks| && k < |free| && free[k] == l.blocks[i]
    requires UsedOk(l.blocks, l.used)
    ensures k > 0 ==> free[k - 1] in length && free[k - 1] in l.blocks
    ensures (k > 0 && free[k - 1] + length[free[k - 1]] + HDR == free[k]) <==> (i > 0 && l.blocks[i - 1] !in l.used)
    ensures i > 0 && l.blocks[i - 1] !in l.used ==> k > 0 && free[k - 1] == l.blocks[i - 1]
  {
    hide Aligned, Ascending, Sorted, LengthOk;
    if i > 0 && l.blocks[i - 1] !in l.used {
      var b := l.blocks[i - 1];
      assert b in l.blocks && b !in l.used;
      assert b in free;
      var m :| 0 <= m < |free| && free[m] == b;
      AscendingOrder(l.blocks, HDR, i - 1, i);
      SortedOrder(free, m, k);
      SortedOrder(free, m, k - 1);
    }
    if k > 0 {
      SortedOrder(free, k - 1, k);
      assert free[k - 1] in free;
      var j :| 0 <= j < |l.blocks| && l.blocks[j] == free[k - 1];
      AscendingOrder(l.blocks, HDR, j, i);
      EndsAt(length, l.blocks, j, i);
      if i > 0 {
        AscendingOrder(l.blocks, HDR, j, i - 1);
      }
    }
  }

  lemma {:induction false} NextTouches(l: Layout, free: seq<int>, length: map<int, int>, i: nat, k: nat)
    requires Tiles(l.blocks) && FreeAgrees(free, l) && LengthOk(length, l.blocks) && i + 1 < |l.blocks| && k < |free| && free[k] == l.blocks[i]
    requires UsedOk(l.blocks, l.used)
    ensures free[k] in length && (k + 1 < |free| ==> free[k + 1] in length && free[k + 1] in l.blocks)
    ensures (k + 1 < |free| && free[k] + length[free[k]] + HDR == free[k + 1]) <==> l.blocks[i + 1] !in l.used
    ensures l.blocks[i + 1] !in l.used ==> i + 2 < |l.blocks| && k + 1 < |free| && free[k + 1] == l.blocks[i + 1]
  {
    hide Aligned, Ascending, Sorted, LengthOk;
    EndsAt(length, l.blocks, i, i + 1);
    if l.blocks[i + 1] !in l.used {
      var b := l.blocks[i + 1];
      assert b in l.blocks && b !in l.used;
      assert b in free;
      var m :| 0 <= m < |free| && free[m] == b;
      AscendingOrder(l.blocks, HDR, i, i + 1);
      SortedOrder(free, k, m);
      SortedOrder(free, k + 1, m);
    }
    if k + 1 < |free| {
      SortedOrder(free, k, k + 1);
      assert free[k + 1] in free;
      var j :| 0 <= j < |l.blocks| && l.blocks[j] == free[k + 1];
      AscendingOrder(l.blocks, HDR, i, j);
      EndsAt(length, l.blocks, i, j);
      AscendingOrder(l.blocks, HDR, i + 1, j);
      AscendingOrder(l.blocks, HDR, j, |l.blocks| - 1);
      if j + 1 < |l.blocks| {
        EndsAt(length, l.blocks, j, j + 1);
      }
    }
  }

  // ----- the heap -----

  class Heap {
    var next: map<int, int>
    var length: map<int, int>
    var freeList: int
    var allocateList: int
    ghost var l: Layout
    ghost var free: seq<int>
    ghost var alloc: seq<int>

    ghost predicate Valid()
      reads this
    {
      && Inv(l) && LengthOk(length, l.blocks) && (forall b :: b in l.blocks && b != l.blocks[|l.blocks| - 1] ==> b in next)
      && Chain(next, freeList, free) && FreeAgrees(free, l)
      && Chain(next, allocateList, alloc) && AllocAgrees(alloc, l)
    }

    /** finsh_heap_init over `size` bytes at `base` */
    constructor (base: int, size: int)
      requires base > 0 && size % 4 == 0 && size >= HDR
      ensures Valid() && l == Layout([base, base + size], {base + size}) && alloc == []
    {
      freeList := base;
      length := map[base := size - HDR];
      next := map[base := NULL];
      allocateList := NULL;
      l := Layout([base, base + size], {base + size});
      free, alloc := [base], [];
    }

    // ----- list operations -----

    /** finsh_block_insert: into an empty list, or at the end of one, the header's own link is
        not written, so it has to be null there already. */
    method BlockInsert(list: int, header: int, ghost s: seq<int>) returns (list': int)
      requires Chain(next, list, s) && Sorted(s) && header !in s && header != NULL && header in next
      requires next[header] == NULL || (s != [] && header < s[|s| - 1])
      modifies this`next
      ensures Chain(next, list', Splice(s, Rank(s, header), header)) && Beyond(old(next), next, s, header)
    {
      hide Rank, Splice;
      ChainEnds(next, list, s);
      RankSplits(s, header);
      ghost var k := Rank(s, header);
      if list == NULL {
        EmptyInsert(next, header);
        return header;
      }
      ChainFirst(next, list, s);
      var node := list;
      if node > header {
        RankZero(s, header);
        ChainPush(next, list, s, header);
        FrontInsert(s, header);
        next := next[header := node];
        return header;
      }
      ghost var i := 0;
      while true
        invariant next == old(next) && 0 <= i < |s| && node == s[i] && node < header
        decreases |s| - i
      {
        ChainAt(next, list, s, i);
        if next[node] > header || next[node] == NULL {
          break;
        }
        node := next[node];
        i := i + 1;
        assert node in s;
      }
      InsertPlace(s, header, i);
      ChainAt(next, list, s, i);
      SortedDistinct(s);
      ChainSplice(next, list, s, i + 1, header);
      if next[node] != NULL {
        next := next[header := next[node]];
      } else {
        assert next[header := NULL] == next;
      }
      next := next[node := header];
      return list;
    }

    /** finsh_block_remove: only the first node's own link is cleared. */
    method BlockRemove(list: int, header: int, ghost s: seq<int>, ghost k: nat) returns (list': int)
      requires Chain(next, list, s) && Sorted(s) && k < |s| && s[k] == header
      modifies this`next
      ensures Chain(next, list', RemoveAt(s, k)) && Beyond(old(next), next, s, header) && header in next
    {
      hide RemoveAt;
      SortedDistinct(s);
      ChainFirst(next, list, s);
      ChainAt(next, list, s, k);
      if list == header {
        SortedOrder(s, 0, k);
        ChainTail(next, list, s);
        FrontRemove(s);
        FirstGone(s);
        ChainFrame(next, next[header], s[1..], header, NULL);
        list' := next[header];
        next := next[header := NULL];
        return;
      }
      var node := list;
      ghost var i := 0;
      while node != NULL
        invariant next == old(next) && 0 <= i < k && node == s[i]
        decreases k - i
      {
        ChainAt(next, list, s, i);
        if next[node] == header {
          break;
        }
        assert i + 1 < k;
        node := next[node];
        i := i + 1;
      }
      ChainAt(next, list, s, i);
      LinkIs(s, i, k);
      ChainRemove(next, list, s, k);
      next := next[node := next[header]];
      return list;
    }

    // ----- free -----

    /** finsh_block_merge: join block `i`, in the free list at `k`, with free neighbours. */
    method BlockMerge(header: int, ghost i: nat, ghost k: nat)
      requires Chain(next, freeList, free) && FreeAgrees(free, l) && LengthOk(length, l.blocks)
      requires Tiles(l.blocks) && UsedOk(l.blocks, l.used)
      requires i + 1 < |l.blocks| && l.blocks[i] == header && k < |free| && free[k] == header
      modifies this`next, this`length, this`l, this`free
      ensures Chain(next, freeList, free) && Beyond(old(next), next, old(free), header)
      ensures l == JoinPrevious(JoinNext(old(l), i), i)
      ensures FreeAgrees(free, l) && LengthOk(length, l.blocks)
    {
      hide Tiles, UsedOk, LengthOk, Sorted, RemoveAt, FreeAgrees, Chain, Beyond;
      SortedOf(free, l);
      PreviousTouches(l, free, length, i, k);
      NextTouches(l, free, length, i, k);
      ChainAt(next, freeList, free, k);
      ChainEndsAt(next, freeList, free, k);
      BeyondSelf(next, free, header);
      var nextNode := next[header];
      var prevNode := FindPrevious(header, k);
      if prevNode != NULL && prevNode + length[prevNode] + HDR == header {
        if nextNode != NULL && header + length[header] + HDR == nextNode {
          MergeBoth(prevNode, header, nextNode, i, k);
        } else {
          MergePrevious(prevNode, header, i, k);
        }
      } else if nextNode != NULL && header + length[header] + HDR == nextNode {
        MergeNext(header, nextNode, i, k);
      }
    }

    method MergeBoth(prevNode: int, header: int, nextNode: int, ghost i: nat, ghost k: nat)
      requires Chain(next, freeList, free) && FreeAgrees(free, l) && LengthOk(length, l.blocks) && Tiles(l.blocks)
      requires 0 < i < |l.blocks| - 2 && 0 < k < |free| - 1 && l.blocks[i + 1] !in l.used && l.blocks[i - 1] !in l.used
      requires prevNode == free[k - 1] == l.blocks[i - 1] && header == free[k] == l.blocks[i] && nextNode == free[k + 1] == l.blocks[i + 1]
      modifies this`next, this`length, this`l, this`free
      ensures Chain(next, freeList, free) && Beyond(old(next), next, old(free), header)
      ensures l == JoinPrevious(JoinNext(old(l), i), i) && FreeAgrees(free, l) && LengthOk(length, l.blocks)
    {
      hide Tiles, LengthOk, RemoveAt, FreeAgrees, Chain;
      JoinBoth(l, free, length, next, freeList, i, k);
      RemovePlace(l.blocks, i + 1, i - 1);
      RemovePlace(free, k + 1, k);
      length := length[prevNode := length[prevNode] + length[header] + length[nextNode] + 2 * HDR];
      next := next[prevNode := next[nextNode]];
      free := RemoveAt(RemoveAt(free, k + 1), k);
      l := JoinPrevious(JoinNext(l, i), i);
    }

    method MergePrevious(prevNode: int, header: int, ghost i: nat, ghost k: nat)
      requires Chain(next, freeList, free) && FreeAgrees(free, l) && LengthOk(length, l.blocks) && Tiles(l.blocks)
      requires 0 < i < |l.blocks| - 1 && 0 < k < |free| && l.blocks[i + 1] in l.used && l.blocks[i - 1] !in l.used
      requires prevNode == free[k - 1] == l.blocks[i - 1] && header == free[k] == l.blocks[i]
      modifies this`next, this`length, this`l, this`free
      ensures Chain(next, freeList, free) && Beyond(old(next), next, old(free), header)
      ensures l == JoinPrevious(JoinNext(old(l), i), i) && FreeAgrees(free, l) && LengthOk(length, l.blocks)
    {
      hide Tiles, LengthOk, RemoveAt, FreeAgrees, Chain;
      JoinOne(l, free, length, next, freeList, i, k);
      length := length[prevNode := length[prevNode] + length[header] + HDR];
      next := next[prevNode := next[header]];
      free := RemoveAt(free, k);
      l := JoinPrevious(JoinNext(l, i), i);
    }

    method MergeNext(header: int, nextNode: int, ghost i: nat, ghost k: nat)
      requires Chain(next, freeList, free) && FreeAgrees(free, l) && LengthOk(length, l.blocks) && Tiles(l.blocks)
      requires i + 2 < |l.blocks| && k + 1 < |free| && l.blocks[i + 1] !in l.used && (i == 0 || l.blocks[i - 1] in l.used)
      requires header == free[k] == l.blocks[i] && nextNode == free[k + 1] == l.blocks[i + 1]
      modifies this`next, this`length, this`l, this`free
      ensures Chain(next, freeList, free) && Beyond(old(next), next, old(free), header)
      ensures l == JoinPrevious(JoinNext(old(l), i), i) && FreeAgrees(free, l) && LengthOk(length, l.blocks)
    {
      hide Tiles, LengthOk, RemoveAt, FreeAgrees, Chain;
      JoinOne(l, free, length, next, freeList, i + 1, k + 1);
      RemovePlace(l.blocks, i + 1, i);
      JoinStays(l, i);
      length := length[header := length[header] + length[nextNode] + HDR];
      next := next[header := next[nextNode]];
      free := RemoveAt(free, k + 1);
      l := JoinPrevious(JoinNext(l, i), i);
    }

    method FindPrevious(header: int, ghost k: nat) returns (prevNode: int)
      requires Chain(next, freeList, free) && Sorted(free) && k < |free| && free[k] == header
      ensures prevNode == if k == 0 then NULL else free[k - 1]
    {
      ChainFirst(next, freeList, free);
      if freeList == header {
        SortedOrder(free, 0, k);
        return NULL;
      }
      prevNode := freeList;
      ghost var i := 0;
      while prevNode != NULL
        invariant 0 <= i < k && prevNode == free[i]
        decreases k - i
      {
        ChainAt(next, freeList, free, i);
        if next[prevNode] == header {
          ChainAt(next, freeList, free, k);
          LinkIs(free, i, k);
          return;
        }
        assert i + 1 < k;
        prevNode := next[prevNode];
        i := i + 1;
      }
    }

    /** finsh_heap_free of an allocated block */
    method Free(ptr: int)
      requires Valid() && Live(l, ptr - HDR)
      modifies this
      ensures Valid() && l == FreedBlock(old(l), ptr - HDR)
      ensures ptr - HDR in old(alloc) && alloc == Without(old(alloc), ptr - HDR)
    {
      hide Inv, LengthOk, Chain, Sorted, RemoveAt, JoinNext, JoinPrevious, Beyond, Splice, Rank, FreeAgrees, AllocAgrees;
      var header := ptr - HDR;
      ghost var i, k := IndexOf(l.blocks, header), Rank(free, header);
      FreeFacts(l, free, alloc, header);
      FreedValid(l, alloc, header);
      MoveToFree(header);
      ghost var next2, free2 := next, free;
      l := l.(used := l.used - {header});
      BlockMerge(header, i, k);
      BeyondSame(next2, next, free2, header, alloc);
      BeyondKeys(next2, next, free2, header);
      ChainSame(next2, next, allocateList, alloc);
    }

    /** The header leaves the allocated list and enters the free list. */
    method MoveToFree(header: int)
      requires Valid() && Live(l, header)
      modifies this`next, this`freeList, this`allocateList, this`free, this`alloc
      ensures header in old(alloc) && alloc == RemoveAt(old(alloc), IndexOf(old(alloc), header))
      ensures free == Splice(old(free), Rank(old(free), header), header)
      ensures Chain(next, freeList, free) && Chain(next, allocateList, alloc) && old(next).Keys <= next.Keys
    {
      hide Inv, LengthOk, Chain, Sorted, RemoveAt, Beyond, Splice, Rank, FreeAgrees, AllocAgrees;
      FreeFacts(l, free, alloc, header);
      ghost var k := IndexOf(alloc, header);
      allocateList := BlockRemove(allocateList, header, alloc, k);
      BeyondSame(old(next), next, alloc, header, free);
      BeyondKeys(old(next), next, alloc, header);
      ChainSame(old(next), next, freeList, free);
      ghost var next1 := next;
      alloc := RemoveAt(alloc, k);
      freeList := BlockInsert(freeList, header, free);
      BeyondSame(next1, next, free, header, alloc);
      BeyondKeys(next1, next, free, header);
      ChainSame(next1, next, allocateList, alloc);
      free := Splice(free, Rank(free, header), header);
    }

    // ----- garbage collection -----

    /** finsh_heap_gc: the blocks no variable points to are freed while the allocated list is
        walked. */
    method CollectGarbage(variables: seq<Variable>)
      requires Valid()
      modifies this
      ensures Valid() && l == Collected(old(l), old(alloc), Roots(variables))
    {
      hide Inv, LengthOk, Chain, Sorted, FreeAgrees, FreedBlock, Freed, Roots;
      ghost var roots := Roots(variables);
      ghost var n := 0;
      FirstOf(next, allocateList, alloc);
      var header := allocateList;
      assert alloc[0..] == alloc;
      while header != NULL
        invariant Valid() && 0 <= n <= |alloc| && header == (if n == |alloc| then NULL else alloc[n])
        invariant Collected(l, alloc[n..], roots) == Collected(old(l), old(alloc), roots)
        decreases |alloc| - n
      {
        VisitFacts(l, alloc, n, next, allocateList);
        var referenced := IsReferenced(variables, header + HDR);
        RootIff(variables, header);
        var temp := header;
        header := next[header];
        if !referenced {
          ghost var list := alloc;
          Free(temp + HDR);
          RestAfterRemove(list, n);
        } else {
          n := n + 1;
        }
      }
      ChainNotNull(next, allocateList, alloc, n);
      assert alloc[n..] == [];
    }

    // ----- allocation -----

    /** The walk along the free list for the first block of at least `min` bytes. */
    method FindFit(min: int) returns (header: int, ghost k: nat)
      requires Valid()
      ensures k <= |free| && header == (if k == |free| then NULL else free[k])
      ensures forall j :: 0 <= j < k ==> free[j] in length && length[free[j]] < min
      ensures k < |free| ==> free[k] in length && length[free[k]] >= min
    {
      hide Inv, Chain, Sorted, FreeAgrees, AllocAgrees;
      FirstOf(next, freeList, free);
      header := freeList;
      k := 0;
      while header != NULL
        invariant k <= |free| && header == (if k == |free| then NULL else free[k])
        invariant forall j :: 0 <= j < k ==> free[j] in length && length[free[j]] < min
        decreases |free| - k
      {
        ChainAt(next, freeList, free, k);
        FreeHasLength(l, free, length, k);
        if length[header] >= min {
          break;
        }
        ChainEndsAt(next, freeList, free, k);
        header := next[header];
        k := k + 1;
      }
      ChainNotNull(next, freeList, free, k);
    }

    /** Split block `i`, at `k` in the free list, and move it to the allocated list. */
    method Take(header: int, size: int, ghost i: nat, ghost k: nat)
      requires Valid() && i + 1 < |l.blocks| && l.blocks[i] == header && k < |free| && free[k] == header
      requires size >= 0 && size % 4 == 0 && LengthAt(l.blocks, i) >= size + HDR
      modifies this
      ensures Valid() && l == Taken(old(l), i, size)
    {
      hide Inv, Chain, Sorted, LengthOk, Splice, RemoveAt, Rank, FreeAgrees, AllocAgrees, Distinct;
      TakeFree(l, free, alloc, i, k, size);
      TakeAlloc(l, free, alloc, i, k, size);
      SplitFree(header, size, i, k);
      MoveToAllocated(header, k, Splice(free, k + 1, header + HDR + size));
      l := Taken(l, i, size);
    }

    /** The split, seen by the lists and the lengths. */
    method SplitFree(header: int, size: int, ghost i: nat, ghost k: nat)
      requires Chain(next, freeList, free) && Chain(next, allocateList, alloc) && LengthOk(length, l.blocks)
      requires i + 1 < |l.blocks| && l.blocks[i] == header && k < |free| && free[k] == header && size >= 0
      requires Distinct(l.blocks) && Distinct(free) && header !in alloc
      requires var x := header + HDR + size; x !in l.blocks && x !in free && x != NULL && x !in alloc
      modifies this`next, this`length
      ensures var x := header + HDR + size;
              && Chain(next, freeList, Splice(free, k + 1, x)) && Chain(next, allocateList, alloc)
              && LengthOk(length, Splice(l.blocks, i + 1, x)) && next.Keys == old(next).Keys + {x, header}
    {
      hide Chain, LengthOk, Splice, Distinct;
      ghost var x := header + HDR + size;
      LengthSplit(length, l.blocks, i, x);
      ChainAt(next, freeList, free, k);
      ChainSplice(next, freeList, free, k + 1, x);
      BeyondTwo(next, x, next[header], header, x, alloc);
      ChainSame(next, next[x := next[header]][header := x], allocateList, alloc);
      SplitBlock(header, size, i);
    }

    /** The header leaves the free list, clears its link and enters the allocated list. */
    method MoveToAllocated(header: int, ghost k: nat, ghost free1: seq<int>)
      requires Chain(next, freeList, free1) && Chain(next, allocateList, alloc) && Sorted(free1) && Sorted(alloc)
      requires k < |free1| && free1[k] == header && header !in alloc && header !in RemoveAt(free1, k)
      requires (forall y :: y in free1 ==> y !in alloc) && (forall y :: y in alloc ==> y !in RemoveAt(free1, k))
      modifies this`next, this`freeList, this`allocateList, this`free, this`alloc
      ensures free == RemoveAt(free1, k) && alloc == Splice(old(alloc), Rank(old(alloc), header), header)
      ensures Chain(next, freeList, free) && Chain(next, allocateList, alloc) && old(next).Keys <= next.Keys
    {
      hide Chain, Sorted, RemoveAt, Splice, Rank, Beyond;
      ChainAt(next, freeList, free1, k);
      freeList := BlockRemove(freeList, header, free1, k);
      BeyondSame(old(next), next, free1, header, alloc);
      BeyondKeys(old(next), next, free1, header);
      ChainSame(old(next), next, allocateList, alloc);
      free := RemoveAt(free1, k);
      ChainFrame(next, freeList, free, header, NULL);
      ChainFrame(next, allocateList, alloc, header, NULL);
      next := next[header := NULL];
      ghost var next2 := next;
      allocateList := BlockInsert(allocateList, header, alloc);
      BeyondSame(next2, next, alloc, header, free);
      BeyondKeys(next2, next, alloc, header);
      ChainSame(next2, next, freeList, free);
      alloc := Splice(alloc, Rank(alloc, header), header);
    }

    /** finsh_block_split */
    method SplitBlock(header: int, size: int, ghost i: nat)
      requires i + 1 < |l.blocks| && l.blocks[i] == header && LengthOk(length, l.blocks) && header in next && size >= 0
      modifies this`next, this`length
      ensures var x := header + HDR + size;
              && next == old(next)[x := old(next)[header]][header := x]
              && length == old(length)[x := l.blocks[i + 1] - x - HDR][header := x - header - HDR]
    {
      var node := header + HDR + size;
      length := length[node := length[header] - HDR - size];
      length := length[header := size];
      next := next[node := next[header]];
      next := next[header := node];
    }

    /** finsh_heap_allocate: the first free block with more than the size and a header to
        spare, or after a collection one with just that; it gets exactly the size. */
    method Allocate(size: nat, variables: seq<Variable>) returns (p: int)
      requires Valid() && size <= 0xFFFF_FFF4
      modifies this
      ensures Valid()
      ensures var n := AlignSize(size); var l1 := Collected(old(l), old(alloc), Roots(variables));
              if HasFit(old(l), n + HDR + 1) then p != NULL && TookFit(old(l), n, n + HDR + 1, p - HDR, l)
              else if HasFit(l1, n + HDR) then p != NULL && TookFit(l1, n, n + HDR, p - HDR, l)
              else p == NULL && l == l1
    {
      hide Inv, LengthOk, Chain, Sorted, FreeAgrees, AllocAgrees, Collected, Taken, HasFit, TookFit, Roots;
      var n := AlignSize(size);
      var header, k := FindFit(n + HDR + 1);
      FitFacts(l, free, length, k, n + HDR + 1);
      if header == NULL {
        CollectGarbage(variables);
        header, k := FindFit(n + HDR);
        FitFacts(l, free, length, k, n + HDR);
        if header == NULL {
          return NULL;
        }
        ghost var i := IndexOf(l.blocks, header);
        ghost var l1 := l;
        Take(header, n, i, k);
        TookIs(l1, n, n + HDR, i, l);
      } else {
        ghost var i := IndexOf(l.blocks, header);
        Take(header, n, i, k);
        TookIs(old(l), n, n + HDR + 1, i, l);
      }
      return header + HDR;
    }
  }

  // ----- variables and fits -----

  /** A shell variable: whether its type is known, and the pointer it holds. */
  datatype Variable = Variable(known: bool, ptr: int)

  /** The headers of the blocks that variables point to. */
  ghost function Roots(variables: seq<Variable>): set<int> {
    set v | v in variables && v.known :: v.ptr - HDR
  }

  /** The inner loop of finsh_heap_gc over the variables */
  method IsReferenced(variables: seq<Variable>, data: int) returns (r: bool)
    ensures r <==> exists v :: v in variables && v.known && v.ptr == data
  {
    var i := 0;
    while i < |variables|
      invariant 0 <= i <= |variables|
      invariant forall j :: 0 <= j < i ==> !(variables[j].known && variables[j].ptr == data)
    {
      if variables[i].known && variables[i].ptr == data {
        assert variables[i] in variables;
        return true;
      }
      i := i + 1;
    }
    forall v | v in variables ensures !(v.known && v.ptr == data) {
      var j :| 0 <= j < |variables| && variables[j] == v;
    }
    return false;
  }

  lemma RootIff(variables: seq<Variable>, header: int)
    ensures header in Roots(variables) <==> exists v :: v in variables && v.known && v.ptr == header + HDR
  {
    if exists v :: v in variables && v.known && v.ptr == header + HDR {
      var v :| v in variables && v.known && v.ptr == header + HDR;
      assert v.ptr - HDR == header;
    }
  }

  /** HEAP_ALIGN_SIZE */
  function AlignSize(size: nat): (n: nat)
    ensures n % 4 == 0 && size <= n < size + 4
  {
    (size + 3) / 4 * 4
  }

  ghost predicate FitsAt(l: Layout, i: nat, min: int) {
    i + 1 < |l.blocks| && l.blocks[i] !in l.used && LengthAt(l.blocks, i) >= min
  }

  ghost predicate HasFit(l: Layout, min: int) {
    exists i :: 0 <= i < |l.blocks| && FitsAt(l, i, min)
  }

  /** The lowest free block of at least `min` bytes was taken for `n` bytes. */
  ghost predicate TookFit(l: Layout, n: int, min: int, h: int, l': Layout) {
    exists i :: 0 <= i < |l.blocks| && FitsAt(l, i, min) && l.blocks[i] == h && l' == Taken(l, i, n)
                && forall j :: 0 <= j < i ==> !FitsAt(l, j, min)
  }

  lemma TookIs(l: Layout, n: int, min: int, i: nat, l': Layout)
    requires FitsAt(l, i, min) && l' == Taken(l, i, n) && forall j :: 0 <= j < i ==> !FitsAt(l, j, min)
    ensures TookFit(l, n, min, l.blocks[i], l')
  {
  }

  lemma {:induction false} FitFacts(l: Layout, free: seq<int>, length: map<int, int>, k: nat, min: int)
    requires Inv(l) && FreeAgrees(free, l) && LengthOk(length, l.blocks) && k <= |free|
    requires forall j :: 0 <= j < k ==> free[j] in length && length[free[j]] < min
    requires k < |free| ==> free[k] in length && length[free[k]] >= min
    ensures HasFit(l, min) <==> k < |free|
    ensures k < |free| ==>
              && free[k] > NULL && free[k] in l.blocks
              && var i := IndexOf(l.blocks, free[k]);
              FitsAt(l, i, min) && forall j :: 0 <= j < i ==> !FitsAt(l, j, min)
  {
    hide Merged, Aligned;
    forall i | 0 <= i < |l.blocks| && FitsAt(l, i, min) ensures k < |free| && free[k] <= l.blocks[i] {
      assert l.blocks[i] in l.blocks && l.blocks[i] in free;
      var m :| 0 <= m < |free| && free[m] == l.blocks[i];
      if k < |free| {
        SortedOrder(free, k, m);
      }
    }
    if k < |free| {
      assert free[k] in free;
      var i := IndexOf(l.blocks, free[k]);
      AscendingOrder(l.blocks, HDR, 0, i);
      forall j | 0 <= j < i ensures !FitsAt(l, j, min) {
        AscendingOrder(l.blocks, HDR, j, i);
      }
      assert FitsAt(l, i, min);
    }
  }

  lemma ChainNotNull(next: map<int, int>, first: int, s: seq<int>, k: nat)
    requires Chain(next, first, s)
    ensures k < |s| ==> s[k] != NULL
  {
  }

  lemma FirstOf(next: map<int, int>, first: int, s: seq<int>)
    requires Chain(next, first, s)
    ensures first == if s == [] then NULL else s[0]
  {
  }

  lemma {:induction false} FreeHasLength(l: Layout, free: seq<int>, length: map<int, int>, k: nat)
    requires Inv(l) && FreeAgrees(free, l) && LengthOk(length, l.blocks) && k < |free|
    ensures free[k] in length
  {
    hide Merged, Aligned;
    assert free[k] in free;
    var i := IndexOf(l.blocks, free[k]);
  }

  lemma {:induction false} VisitFacts(l: Layout, alloc: seq<int>, n: nat, next: map<int, int>, list: int)
    requires Inv(l) && AllocAgrees(alloc, l) && Chain(next, list, alloc) && n < |alloc|
    ensures Live(l, alloc[n]) && alloc[n] in next && next[alloc[n]] == Link(alloc, n) && alloc[n..] != [] && alloc[n..][0] == alloc[n]
    ensures alloc[n..][1..] == alloc[n + 1..]
    ensures IndexOf(alloc, alloc[n]) == n
    ensures n + 1 < |alloc| ==> alloc[n + 1] != NULL
  {
    hide Core, Merged;
    assert alloc[n] in alloc;
    SortedDistinct(alloc);
    IndexIs(alloc, n);
  }

  lemma {:induction false} RestAfterRemove(list: seq<int>, n: nat)
    requires n < |list|
    ensures RemoveAt(list, n)[n..] == list[n + 1..] && |RemoveAt(list, n)| == |list| - 1
    ensures n + 1 < |list| ==> RemoveAt(list, n)[n] == list[n + 1]
  {
  }

  lemma {:induction false} BeyondTwo(next: map<int, int>, a: int, va: int, b: int, vb: int, other: seq<int>)
    requires a !in other && b !in other
    ensures SameOn(next, next[a := va][b := vb], other)
  {
  }

  /** The free list around the split of block `i`, at `k`. */
  lemma {:induction false} TakeFree(l: Layout, free: seq<int>, alloc: seq<int>, i: nat, k: nat, size: int)
    requires Inv(l) && FreeAgrees(free, l) && AllocAgrees(alloc, l) && i + 1 < |l.blocks| && k < |free| && free[k] == l.blocks[i]
    requires size >= 0 && size % 4 == 0 && LengthAt(l.blocks, i) >= size + HDR
    ensures var h := l.blocks[i]; var x := h + HDR + size; var l' := Taken(l, i, size);
            var free1 := Splice(free, k + 1, x); var free2 := RemoveAt(free1, k);
            && Distinct(l.blocks) && Distinct(free) && x !in l.blocks && x !in free && x > NULL && x !in alloc
            && Sorted(free1) && k < |free1| && free1[k] == h && FreeAgrees(free2, l') && h !in free2
            && (forall y :: y in free1 ==> y !in alloc) && (forall y :: y in alloc ==> y !in free2)
  {
    hide Merged, Aligned, RemoveAt, Splice, OthersKept, SameSpan;
    var h := l.blocks[i];
    var x, l' := h + HDR + size, Taken(l, i, size);
    assert free[k] in free;
    TakenKeepsInv(l, i, size);
    AscendingDistinct(l.blocks, HDR);
    SortedDistinct(free);
    AscendingOrder(l.blocks, HDR, 0, i);
    FreeBeyond(l, free, i, k, x);
    SortedSplice(free, k + 1, x);
    SpliceMembers(free, k + 1, x);
    SplicePlace(free, k + 1, x, k);
    SortedRemove(Splice(free, k + 1, x), k);
  }

  lemma {:induction false} TakeAlloc(l: Layout, free: seq<int>, alloc: seq<int>, i: nat, k: nat, size: int)
    requires Inv(l) && FreeAgrees(free, l) && AllocAgrees(alloc, l) && i + 1 < |l.blocks| && k < |free| && free[k] == l.blocks[i]
    requires size >= 0 && size % 4 == 0 && LengthAt(l.blocks, i) >= size + HDR
    ensures var h := l.blocks[i]; var x := h + HDR + size; var l' := Taken(l, i, size);
            && h !in alloc && Sorted(alloc) && AllocAgrees(Splice(alloc, Rank(alloc, h), h), l') && Inv(l')
            && (forall b :: b in l'.blocks && b != l'.blocks[|l'.blocks| - 1] ==> b == x || (b in l.blocks && b != l.blocks[|l.blocks| - 1]))
  {
    hide Merged, Aligned, Ascending, Rank, Splice, OthersKept;
    var h := l.blocks[i];
    assert free[k] in free;
    TakenKeepsInv(l, i, size);
    RankSplits(alloc, h);
    SortedSplice(alloc, Rank(alloc, h), h);
    SpliceMembers(alloc, Rank(alloc, h), h);
    AscendingOrder(l.blocks, HDR, i, |l.blocks| - 1);
  }

  /** The new block `x` lies between block `i` and the next free block. */
  lemma {:induction false} FreeBeyond(l: Layout, free: seq<int>, i: nat, k: nat, x: int)
    requires Inv(l) && FreeAgrees(free, l) && i + 1 < |l.blocks| && k < |free| && free[k] == l.blocks[i] && l.blocks[i] < x <= l.blocks[i + 1] - HDR
    ensures (forall j :: 0 <= j < k + 1 ==> free[j] < x) && (forall j :: k + 1 <= j < |free| ==> x < free[j])
  {
    hide Merged, Aligned;
    forall j | 0 <= j < |free| ensures if j <= k then free[j] < x else x < free[j] {
      assert free[j] in free;
      var m := IndexOf(l.blocks, free[j]);
      SortedOrder(free, j, k);
      AscendingOrder(l.blocks, HDR, i, m);
      AscendingOrder(l.blocks, HDR, m, i + 1);
    }
  }

  /** What holds of the lists when an allocated block is about to be freed: a free block lies
      beyond it, so its own stale link is overwritten. */
  lemma {:induction false} FreeFacts(l: Layout, free: seq<int>, alloc: seq<int>, header: int)
    requires Inv(l) && FreeAgrees(free, l) && AllocAgrees(alloc, l) && Live(l, header)
    ensures header in l.blocks && header in alloc && Sorted(alloc) && Sorted(free) && header !in free && header > NULL
    ensures free != [] && header < free[|free| - 1]
    ensures var i, k := IndexOf(l.blocks, header), Rank(free, header);
            var l1, free1 := l.(used := l.used - {header}), Splice(free, k, header);
            && i + 1 < |l.blocks| && Tiles(l1.blocks) && UsedOk(l1.blocks, l1.used)
            && FreeAgrees(free1, l1) && k < |free1| && free1[k] == header
    ensures forall x :: x in free ==> x !in alloc && x !in RemoveAt(alloc, IndexOf(alloc, header))
    ensures forall x :: x in alloc ==> x !in free
    ensures forall x :: x in Splice(free, Rank(free, header), header) ==> x !in RemoveAt(alloc, IndexOf(alloc, header))
    ensures header !in RemoveAt(alloc, IndexOf(alloc, header))
  {
    hide Merged, Aligned, Rank, RemoveAt, Splice;
    var i, k := IndexOf(l.blocks, header), Rank(free, header);
    var t := l.blocks[|l.blocks| - 2];
    assert t in l.blocks && t in free;
    var m :| 0 <= m < |free| && free[m] == t;
    AscendingOrder(l.blocks, HDR, i, |l.blocks| - 2);
    AscendingOrder(l.blocks, HDR, i, |l.blocks| - 1);
    AscendingOrder(l.blocks, HDR, 0, i);
    SortedOrder(free, m, |free| - 1);
    RankSplits(free, header);
    SortedSplice(free, k, header);
    SpliceMembers(free, k, header);
    SplicePlace(free, k, header, k);
    SortedRemove(alloc, IndexOf(alloc, header));
  }

  lemma {:induction false} BeyondSame(next: map<int, int>, next': map<int, int>, s: seq<int>, h: int, other: seq<int>)
    requires Beyond(next, next', s, h) && h !in other && forall x :: x in s ==> x !in other
    ensures SameOn(next, next', other)
  {
  }

  lemma BeyondKeys(next: map<int, int>, next': map<int, int>, s: seq<int>, h: int)
    requires Beyond(next, next', s, h)
    ensures next.Keys <= next'.Keys
  {
  }

  /** The parts of the heap's invariant that a free leaves to check. */
  lemma {:induction false} FreedValid(l: Layout, alloc: seq<int>, header: int)
    requires Inv(l) && Live(l, header) && AllocAgrees(alloc, l) && header in alloc
    ensures var l' := FreedBlock(l, header);
            && Inv(l') && AllocAgrees(RemoveAt(alloc, IndexOf(alloc, header)), l')
            && forall b :: b in l'.blocks && b != l'.blocks[|l'.blocks| - 1] ==> b in l.blocks && b != l.blocks[|l.blocks| - 1]
  {
    hide Core, Merged, Freed, OthersKept, RemoveAt, Sorted;
    FreedBlockKeeps(l, header);
    LiveIndexOf(l, header);
    FreedKeepsInv(l, IndexOf(l.blocks, header));
    SortedRemove(alloc, IndexOf(alloc, header));
  }

  lemma LiveIndexOf(l: Layout, h: int)
    requires Live(l, h)
    ensures IndexOf(l.blocks, h) + 1 < |l.blocks| && l.blocks[IndexOf(l.blocks, h)] in l.used
  {
  }

  lemma BeyondSelf(next: map<int, int>, s: seq<int>, h: int)
    ensures Beyond(next, next, s, h)
  {
  }

  lemma SortedOf(free: seq<int>, l: Layout)
    requires FreeAgrees(free, l)
    ensures Sorted(free)
  {
  }

  lemma ChainEndsAt(next: map<int, int>, first: int, s: seq<int>, k: nat)
    requires Chain(next, first, s) && k < |s|
    ensures Link(s, k) == NULL <==> k + 1 == |s|
    ensures k + 1 < |s| ==> s[k + 1] in next && s[k + 1] != NULL
    ensures k > 0 ==> s[k - 1] in next && s[k - 1] != NULL
  {
  }

  /** Block `j`, at `k` in the free list, taken into the free block before it. */
  lemma {:induction false} JoinOne(l: Layout, free: seq<int>, length: map<int, int>, next: map<int, int>, list: int, j: nat, k: nat)
    requires Chain(next, list, free) && FreeAgrees(free, l) && LengthOk(length, l.blocks) && Tiles(l.blocks)
    requires 0 < j < |l.blocks| - 1 && 0 < k < |free| && free[k] == l.blocks[j] && free[k - 1] == l.blocks[j - 1]
    ensures free[k] in next && free[k] in length && free[k - 1] in length
    ensures Chain(next[free[k - 1] := next[free[k]]], list, RemoveAt(free, k))
    ensures LengthOk(length[free[k - 1] := length[free[k - 1]] + length[free[k]] + HDR], RemoveAt(l.blocks, j))
    ensures FreeAgrees(RemoveAt(free, k), l.(blocks := RemoveAt(l.blocks, j)))
  {
    hide LengthOk, Chain, RemoveAt, Ascending, Aligned;
    SortedDistinct(free);
    ChainAt(next, list, free, k);
    ChainRemove(next, list, free, k);
    AscendingDistinct(l.blocks, HDR);
    LengthJoin(length, l.blocks, j);
    SortedRemove(free, k);
    RemoveAtMembers(l.blocks, j);
  }

  /** Block `i`, at `k`, and the free block after it taken into the free block before. */
  lemma {:induction false} JoinBoth(l: Layout, free: seq<int>, length: map<int, int>, next: map<int, int>, list: int, i: nat, k: nat)
    requires Chain(next, list, free) && FreeAgrees(free, l) && LengthOk(length, l.blocks) && Tiles(l.blocks)
    requires 0 < i < |l.blocks| - 2 && 0 < k < |free| - 1
    requires free[k] == l.blocks[i] && free[k - 1] == l.blocks[i - 1] && free[k + 1] == l.blocks[i + 1]
    ensures free[k + 1] in next && free[k - 1] in length && free[k] in length && free[k + 1] in length
    ensures var s, blocks := RemoveAt(RemoveAt(free, k + 1), k), RemoveAt(RemoveAt(l.blocks, i + 1), i);
            && Chain(next[free[k - 1] := next[free[k + 1]]], list, s)
            && LengthOk(length[free[k - 1] := length[free[k - 1]] + length[free[k]] + length[free[k + 1]] + 2 * HDR], blocks)
            && FreeAgrees(s, l.(blocks := blocks))
  {
    hide LengthOk, Chain, RemoveAt, Ascending, Aligned, FreeAgrees;
    var h := free[k];
    JoinOne(l, free, length, next, list, i + 1, k + 1);
    var l1, free1 := l.(blocks := RemoveAt(l.blocks, i + 1)), RemoveAt(free, k + 1);
    var next1, length1 := next[h := next[free[k + 1]]], length[h := length[h] + length[free[k + 1]] + HDR];
    TilesRemoved(l.blocks, i + 1);
    RemovePlace(l.blocks, i + 1, i);
    RemovePlace(l.blocks, i + 1, i - 1);
    RemovePlace(free, k + 1, k);
    RemovePlace(free, k + 1, k - 1);
    JoinOne(l1, free1, length1, next1, list, i, k);
    var s, blocks := RemoveAt(free1, k), RemoveAt(l1.blocks, i);
    FreeGone(free1, l1, k, i);
    SortedOf(free, l);
    SortedOrder(free, k - 1, k);
    ChainAt(next, list, free, k);
    ChainFrame(next1[free[k - 1] := next1[h]], list, s, h, next[h]);
    assert next1[free[k - 1] := next1[h]][h := next[h]] == next[free[k - 1] := next[free[k + 1]]];
    LengthFrame(length1[free[k - 1] := length1[free[k - 1]] + length1[h] + HDR], blocks, h, length[h]);
    assert length1[free[k - 1] := length1[free[k - 1]] + length1[h] + HDR][h := length[h]]
        == length[free[k - 1] := length[free[k - 1]] + length[free[k]] + length[free[k + 1]] + 2 * HDR];
  }

  lemma {:induction false} FreeGone(free: seq<int>, l: Layout, k: nat, i: nat)
    requires FreeAgrees(free, l) && Tiles(l.blocks) && k < |free| && i < |l.blocks| && free[k] == l.blocks[i]
    ensures free[k] !in RemoveAt(free, k) && free[k] !in RemoveAt(l.blocks, i)
  {
    hide Aligned;
    SortedDistinct(free);
    AscendingDistinct(l.blocks, HDR);
    RemoveAtMembers(free, k);
    RemoveAtMembers(l.blocks, i);
  }

  lemma {:induction false} TilesRemoved(blocks: seq<int>, k: nat)
    requires Tiles(blocks) && 0 < k < |blocks| - 1
    ensures Tiles(RemoveAt(blocks, k)) && |RemoveAt(blocks, k)| == |blocks| - 1
  {
    hide Ascending, Aligned;
    AscendingRemove(blocks, HDR, k);
    AlignedRemove(blocks, k);
    RemovePlace(blocks, k, 0);
  }

  lemma {:induction false} LengthFrame(length: map<int, int>, blocks: seq<int>, h: int, v: int)
    requires LengthOk(length, blocks) && h !in blocks
    ensures LengthOk(length[h := v], blocks)
  {
    forall i | 0 <= i < |blocks| - 1 ensures blocks[i] != h {
      assert blocks[i] in blocks;
    }
  }

  /** With a used or no block before, nothing more is joined. */
  lemma {:induction false} JoinStays(l: Layout, i: nat)
    requires i + 2 < |l.blocks| && l.blocks[i + 1] !in l.used && (i == 0 || l.blocks[i - 1] in l.used)
    ensures JoinPrevious(JoinNext(l, i), i).blocks == RemoveAt(l.blocks, i + 1)
  {
  }

  // ----- places in sorted lists -----

  lemma EmptyInsert(next: map<int, int>, header: int)
    requires header in next && next[header] == NULL && header != NULL
    ensures Rank([], header) == 0 && Chain(next, header, Splice([], 0, header))
  {
    assert Splice([], 0, header) == [header];
  }

  lemma RankZero(s: seq<int>, h: int)
    requires s != [] && s[0] > h
    ensures Rank(s, h) == 0
  {
  }

  lemma FrontInsert(s: seq<int>, h: int)
    ensures Splice(s, 0, h) == [h] + s
  {
  }

  lemma FrontRemove(s: seq<int>)
    requires s != []
    ensures RemoveAt(s, 0) == s[1..]
  {
  }

  lemma {:induction false} FirstGone(s: seq<int>)
    requires s != [] && Sorted(s)
    ensures s[0] !in s[1..]
  {
  }

  lemma {:induction false} InsertPlace(s: seq<int>, h: int, i: nat)
    requires Sorted(s) && h !in s && i < |s| && s[i] < h && (i + 1 < |s| ==> s[i + 1] >= h)
    ensures Rank(s, h) == i + 1
  {
    hide Rank;
    RankSplits(s, h);
    if i + 1 < |s| {
      assert s[i + 1] in s;
    }
  }

  lemma {:induction false} LinkIs(s: seq<int>, i: nat, k: nat)
    requires Sorted(s) && i < |s| && k < |s| && Link(s, i) == s[k] && s[k] != NULL
    ensures i + 1 == k
  {
    SortedOrder(s, if i + 1 < |s| then i + 1 else i, k);
    SortedOrder(s, k, if i + 1 < |s| then i + 1 else i);
  }
}
