/** The shell's heap of components/finsh/finsh_heap.c on values: header addresses in order, the
    heap end last, and which blocks are allocated. The last block before the end is always
    free. */
module FinshHeapModel {
  import opened Sequences
  import opened HeapBlocks

  /** sizeof(struct finsh_block_header) */
  const HDR := 8

  datatype Layout = Layout(blocks: seq<int>, used: set<int>)

  function LengthAt(blocks: seq<int>, i: nat): int
    requires i + 1 < |blocks|
  {
    blocks[i + 1] - blocks[i] - HDR
  }

  ghost predicate Tiles(blocks: seq<int>) {
    |blocks| >= 2 && blocks[0] > 0 && Ascending(blocks, HDR) && Aligned(blocks)
  }

  /** The block that reaches the heap end is free. */
  ghost predicate TailFree(l: Layout) {
    |l.blocks| >= 2 && l.blocks[|l.blocks| - 2] !in l.used
  }

  ghost predicate Core(l: Layout) {
    Tiles(l.blocks) && UsedOk(l.blocks, l.used) && TailFree(l)
  }

  ghost predicate Inv(l: Layout) {
    Core(l) && Merged(l.blocks, l.used)
  }

  // ----- allocation -----

  /** finsh_block_split and the move to the allocated list: block `i` gets exactly `size`
      bytes. */
  ghost function Taken(l: Layout, i: nat, size: int): Layout
    requires i + 1 < |l.blocks|
  {
    Layout(Splice(l.blocks, i + 1, l.blocks[i] + HDR + size), l.used + {l.blocks[i]})
  }

  lemma {:induction false} TakenKeepsInv(l: Layout, i: nat, size: int)
    requires Inv(l) && i + 1 < |l.blocks| && l.blocks[i] !in l.used && size >= 0 && size % 4 == 0 && LengthAt(l.blocks, i) >= size + HDR
    ensures var l' := Taken(l, i, size); var x := l.blocks[i] + HDR + size;
            && Inv(l') && SameSpan(l.blocks, l'.blocks) && x !in l.blocks
            && l'.blocks[i] == l.blocks[i] && LengthAt(l'.blocks, i) == size
            && OthersKept(l.blocks, l.used, l'.blocks, l'.used, l.blocks[i])
            && (forall b :: b in l'.blocks <==> b == x || b in l.blocks)
  {
    hide Merged, Ascending, Aligned, OthersKept, Splice, Distinct;
    var x := l.blocks[i] + HDR + size;
    NextUsed(l, i);
    AscendingSplice(l.blocks, HDR, i, x);
    AlignedSplice(l.blocks, i, x);
    SpliceMembers(l.blocks, i + 1, x);
    SplicedEnds(l.blocks, i, x);
    MergedAfterSplit(l.blocks, l.used, i, x);
    SplitKeeps(l.blocks, l.used, i, x);
    AscendingDistinct(l.blocks, HDR);
    DistinctAt(l.blocks, i, |l.blocks| - 1);
  }

  lemma SplicedLast(blocks: seq<int>, i: nat, x: int)
    requires i + 1 < |blocks|
    ensures |Splice(blocks, i + 1, x)| == |blocks| + 1 && Splice(blocks, i + 1, x)[|blocks|] == blocks[|blocks| - 1]
  {
  }

  lemma {:induction false} SplicedEnds(blocks: seq<int>, i: nat, x: int)
    requires i + 1 < |blocks|
    ensures var r := Splice(blocks, i + 1, x);
            && |r| == |blocks| + 1 && r[0] == blocks[0] && r[i] == blocks[i] && r[i + 1] == x && r[|r| - 1] == blocks[|blocks| - 1]
            && r[|r| - 2] == if i + 2 == |blocks| then x else blocks[|blocks| - 2]
  {
    hide Splice;
    SplicePlace(blocks, i + 1, x, 0);
    SplicePlace(blocks, i + 1, x, i);
    SplicePlace(blocks, i + 1, x, i + 1);
    SplicePlace(blocks, i + 1, x, |blocks| - 1);
    SplicedLast(blocks, i, x);
  }

  lemma {:induction false} NextUsed(l: Layout, i: nat)
    requires Inv(l) && i + 1 < |l.blocks| && l.blocks[i] !in l.used
    ensures l.blocks[i + 1] in l.used
  {
  }

  lemma {:induction false} SplitKeeps(blocks: seq<int>, used: set<int>, i: nat, x: int)
    requires i + 1 < |blocks|
    ensures OthersKept(blocks, used, Splice(blocks, i + 1, x), used + {blocks[i]}, blocks[i])
  {
    hide Extent;
    SpliceKeepsExtents(blocks, i, x);
  }

  // ----- freeing -----

  /** Block `i`, just made free, joined with a free block after it. */
  ghost function JoinNext(l: Layout, i: nat): Layout
    requires i + 1 < |l.blocks|
  {
    if l.blocks[i + 1] in l.used then l else l.(blocks := RemoveAt(l.blocks, i + 1))
  }

  ghost function JoinPrevious(l: Layout, i: nat): Layout
    requires i < |l.blocks|
  {
    if i == 0 || l.blocks[i - 1] in l.used then l else l.(blocks := RemoveAt(l.blocks, i))
  }

  /** finsh_heap_free of block `i` */
  ghost function Freed(l: Layout, i: nat): Layout
    requires i + 1 < |l.blocks|
  {
    JoinPrevious(JoinNext(l.(used := l.used - {l.blocks[i]}), i), i)
  }

  lemma {:induction false} JoinNextCore(l: Layout, i: nat)
    requires Core(l) && i + 1 < |l.blocks| && l.blocks[i] !in l.used && MergedBut(l.blocks, l.used, i)
    ensures var l' := JoinNext(l, i);
            && Core(l') && SameSpan(l.blocks, l'.blocks) && i + 1 < |l'.blocks| && l'.blocks[i] == l.blocks[i] && l'.used == l.used
            && MergedBut(l'.blocks, l'.used, i) && l'.blocks[i + 1] in l'.used
            && ExtentsKept(l.blocks, l'.blocks, l.used) && forall b :: b in l'.blocks ==> b in l.blocks
  {
    hide Ascending, Aligned, MergedBut, ExtentsKept, RemoveAt, SameSpan, TailFree;
    if l.blocks[i + 1] !in l.used {
      AscendingRemove(l.blocks, HDR, i + 1);
      AlignedRemove(l.blocks, i + 1);
      AscendingDistinct(l.blocks, HDR);
      RemoveAtMembers(l.blocks, i + 1);
      MergedButForward(l.blocks, l.used, i);
      RemoveKeepsOthers(l.blocks, l.used, i + 1);
      RemovePlace(l.blocks, i + 1, i);
      RemoveKeepsEnds(l, i + 1);
    } else {
      SameExtents(l.blocks, l.used);
      SpanSame(l.blocks);
    }
  }

  lemma SpanSame(blocks: seq<int>)
    requires blocks != []
    ensures SameSpan(blocks, blocks)
  {
  }

  /** Taking a free block into the free one before it leaves the ends as they are. */
  lemma {:induction false} RemoveKeepsEnds(l: Layout, k: nat)
    requires 0 < k < |l.blocks| - 1 && l.blocks[k - 1] !in l.used && TailFree(l)
    ensures var r := RemoveAt(l.blocks, k);
            && |r| == |l.blocks| - 1 && r[0] == l.blocks[0] && r[|r| - 1] == l.blocks[|l.blocks| - 1]
            && TailFree(Layout(r, l.used)) && SameSpan(l.blocks, r)
  {
    RemovePlace(l.blocks, k, 0);
    RemovePlace(l.blocks, k, |l.blocks| - 3);
    RemovePlace(l.blocks, k, |l.blocks| - 2);
  }

  lemma {:induction false} SameExtents(blocks: seq<int>, used: set<int>)
    ensures ExtentsKept(blocks, blocks, used)
  {
  }

  lemma {:induction false} AlignedRemove(blocks: seq<int>, k: nat)
    requires Aligned(blocks) && 0 < k < |blocks|
    ensures Aligned(RemoveAt(blocks, k))
  {
    var r := RemoveAt(blocks, k);
    forall i | 0 <= i < |r| ensures (r[i] - r[0]) % 4 == 0 {
      assert r[i] == blocks[if i < k then i else i + 1];
    }
  }

  lemma {:induction false} JoinPreviousInv(l: Layout, i: nat)
    requires Core(l) && i + 1 < |l.blocks| && l.blocks[i] !in l.used && MergedBut(l.blocks, l.used, i) && l.blocks[i + 1] in l.used
    ensures var l' := JoinPrevious(l, i);
            && Inv(l') && SameSpan(l.blocks, l'.blocks) && l'.used == l.used
            && ExtentsKept(l.blocks, l'.blocks, l.used) && forall b :: b in l'.blocks ==> b in l.blocks
  {
    hide Ascending, Aligned, MergedBut, Merged, ExtentsKept, RemoveAt, SameSpan, TailFree;
    if i > 0 && l.blocks[i - 1] !in l.used {
      AscendingRemove(l.blocks, HDR, i);
      AlignedRemove(l.blocks, i);
      AscendingDistinct(l.blocks, HDR);
      RemoveAtMembers(l.blocks, i);
      RemovePlace(l.blocks, i, i);
      RemoveKeepsEnds(l, i);
      MergedButLeft(l.blocks, l.used, i);
      MergedBetween(RemoveAt(l.blocks, i), l.used, i - 1);
      RemoveKeepsOthers(l.blocks, l.used, i);
    } else {
      MergedBetween(l.blocks, l.used, i);
      SameExtents(l.blocks, l.used);
      SpanSame(l.blocks);
    }
  }

  /** Freeing a block keeps the invariant and every other allocated block. */
  lemma {:induction false} FreedKeepsInv(l: Layout, i: nat)
    requires Inv(l) && i + 1 < |l.blocks| && l.blocks[i] in l.used
    ensures var l' := Freed(l, i);
            && Inv(l') && SameSpan(l.blocks, l'.blocks) && l'.used == l.used - {l.blocks[i]}
            && OthersKept(l.blocks, l.used, l'.blocks, l'.used, l.blocks[i]) && forall b :: b in l'.blocks ==> b in l.blocks
  {
    hide MergedBut, JoinNext, JoinPrevious, ExtentsKept;
    var l1 := l.(used := l.used - {l.blocks[i]});
    FreedCore(l, i);
    JoinNextCore(l1, i);
    JoinPreviousInv(JoinNext(l1, i), i);
    OthersTwice(l.blocks, JoinNext(l1, i).blocks, Freed(l, i).blocks, l1.used);
    OthersOf(l.blocks, Freed(l, i).blocks, l.used, l.blocks[i]);
  }

  lemma {:induction false} FreedCore(l: Layout, i: nat)
    requires Inv(l) && i + 1 < |l.blocks| && l.blocks[i] in l.used
    ensures var l1 := l.(used := l.used - {l.blocks[i]}); Core(l1) && MergedBut(l1.blocks, l1.used, i)
  {
    hide Aligned;
    AscendingDistinct(l.blocks, HDR);
  }

  lemma {:induction false} OthersOf(blocks: seq<int>, blocks': seq<int>, used: set<int>, h: int)
    requires ExtentsKept(blocks, blocks', used - {h})
    ensures OthersKept(blocks, used, blocks', used - {h}, h)
  {
  }

  // ----- garbage collection -----

  ghost predicate Live(l: Layout, h: int) {
    h in l.used && h in l.blocks && l.blocks != [] && h != l.blocks[|l.blocks| - 1]
  }

  ghost function FreedBlock(l: Layout, h: int): Layout
    requires Live(l, h)
  {
    Freed(l, IndexOf(l.blocks, h))
  }

  lemma {:induction false} FreedBlockKeeps(l: Layout, h: int)
    requires Inv(l) && Live(l, h)
    ensures var l' := FreedBlock(l, h);
            && Inv(l') && SameSpan(l.blocks, l'.blocks) && l'.used == l.used - {h}
            && OthersKept(l.blocks, l.used, l'.blocks, l'.used, h)
            && (forall c :: Live(l, c) && c != h ==> Live(l', c))
  {
    hide Merged, Freed, Tiles, Extent;
    var i := IndexOf(l.blocks, h);
    FreedKeepsInv(l, i);
    forall c | Live(l, c) && c != h ensures Live(FreedBlock(l, h), c) {
      var k := IndexOf(l.blocks, c);
      assert l.blocks[k] == c && k + 1 < |l.blocks|;
      ExtentMember(Freed(l, i).blocks, c, l.blocks[k + 1]);
    }
  }

  lemma ExtentMember(blocks: seq<int>, b: int, e: int)
    requires Extent(blocks, b, e)
    ensures b in blocks
  {
  }

  /** finsh_heap_gc over the allocated blocks in `list`: those no variable points to are
      freed. */
  ghost function Collected(l: Layout, list: seq<int>, roots: set<int>): Layout
    decreases |list|
  {
    if list == [] then l
    else if list[0] in roots || !Live(l, list[0]) then Collected(l, list[1..], roots)
    else Collected(FreedBlock(l, list[0]), list[1..], roots)
  }

  /** The collector frees exactly the listed blocks that are not roots, and keeps the others
      where they are. */
  lemma {:induction false} CollectedFreesGarbage(l: Layout, list: seq<int>, roots: set<int>)
    requires Inv(l) && Distinct(list) && forall h :: h in list ==> Live(l, h)
    ensures var l' := Collected(l, list, roots);
            && Inv(l') && SameSpan(l.blocks, l'.blocks)
            && (forall b :: b in l'.used <==> b in l.used && (b in list ==> b in roots))
            && (forall c :: Live(l, c) && (c in list ==> c in roots) ==> Live(l', c))
    decreases |list|
  {
    hide Core, Merged, FreedBlock, OthersKept, SameSpan;
    if list == [] {
      SpanSelf(l);
    } else {
      var h := list[0];
      assert h in list && list == [h] + list[1..];
      TailDistinct(list);
      if h in roots {
        CollectedFreesGarbage(l, list[1..], roots);
      } else {
        FreedBlockKeeps(l, h);
        CollectedFreesGarbage(FreedBlock(l, h), list[1..], roots);
        SpanTrans(l.blocks, FreedBlock(l, h).blocks, Collected(l, list, roots).blocks);
      }
    }
  }

  lemma SpanSelf(l: Layout)
    requires Inv(l)
    ensures SameSpan(l.blocks, l.blocks)
  {
  }

  lemma {:induction false} TailDistinct(s: seq<int>)
    requires s != [] && Distinct(s)
    ensures Distinct(s[1..]) && s[0] !in s[1..]
  {
    assert s[1..] == RemoveAt(s, 0);
    RemoveAtMembers(s, 0);
  }
}
