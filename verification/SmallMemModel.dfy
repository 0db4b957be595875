/** The small-memory allocator of src/mem.c on values: the offsets of the block headers in
    order, the heap end last, which blocks are used, and the lowest-free pointer. */
module SmallMemModel {
  import opened Sequences
  import opened HeapBlocks

  /** SIZEOF_STRUCT_MEM */
  const HDR := 12
  /** MIN_SIZE_ALIGNED */
  const MIN := 12
  /** A header and the smallest payload that a shrinking realloc can leave. */
  const GAP := 16

  /** `usedMem` counts the bytes of used blocks with their headers. */
  datatype Layout = Layout(blocks: seq<int>, used: set<int>, lfree: int, usedMem: int)

  function SizeAt(blocks: seq<int>, i: nat): int
    requires i + 1 < |blocks|
  {
    blocks[i + 1] - blocks[i] - HDR
  }

  function End(blocks: seq<int>): int
    requires blocks != []
  {
    blocks[|blocks| - 1]
  }

  ghost predicate Tiles(blocks: seq<int>) {
    |blocks| >= 2 && blocks[0] == 0 && Ascending(blocks, GAP) && Aligned(blocks)
  }

  function UsedBytes(blocks: seq<int>, used: set<int>): int {
    if |blocks| < 2 then 0
    else (if blocks[0] in used then blocks[1] - blocks[0] else 0) + UsedBytes(blocks[1..], used)
  }

  /** The lowest-free pointer is at an unused block or the heap end. */
  ghost predicate LfreeOk(l: Layout) {
    l.blocks != [] && l.lfree in l.blocks && (l.lfree in l.used ==> l.lfree == End(l.blocks))
  }

  ghost predicate Core(l: Layout) {
    && Tiles(l.blocks) && UsedOk(l.blocks, l.used) && LfreeOk(l)
    && l.usedMem == UsedBytes(l.blocks, l.used)
  }

  ghost predicate Inv(l: Layout) {
    Core(l) && Merged(l.blocks, l.used)
  }

  /** No unused block lies below the lowest-free pointer. */
  ghost predicate Lowest(l: Layout) {
    forall b :: b in l.blocks && b !in l.used ==> l.lfree <= b
  }

  // ----- counting used bytes -----

  lemma UsedSplit(blocks: seq<int>, used: set<int>, i: nat)
    requires i < |blocks|
    ensures UsedBytes(blocks, used) == UsedBytes(blocks[..i + 1], used) + UsedBytes(blocks[i..], used)
  {
    if i > 0 {
      UsedSplit(blocks[1..], used, i - 1);
      assert blocks[..i + 1][1..] == blocks[1..][..i];
      assert blocks[1..][i - 1..] == blocks[i..];
    }
  }

  lemma UsedSame(blocks: seq<int>, used: set<int>, used': set<int>)
    requires forall i :: 0 <= i < |blocks| - 1 ==> (blocks[i] in used <==> blocks[i] in used')
    ensures UsedBytes(blocks, used) == UsedBytes(blocks, used')
  {
    if |blocks| >= 2 {
      assert forall i :: 0 <= i < |blocks[1..]| - 1 ==> blocks[1..][i] == blocks[i + 1];
      UsedSame(blocks[1..], used, used');
    }
  }

  lemma {:induction false} UsedTwo(a: int, b: int, c: int, used: set<int>)
    ensures UsedBytes([a, b], used) == if a in used then b - a else 0
    ensures UsedBytes([a, b, c], used) == (if a in used then b - a else 0) + (if b in used then c - b else 0)
  {
    assert [a, b][1..] == [b] && [a, b, c][1..] == [b, c] && [b, c][1..] == [c];
    assert UsedBytes([b, c], used) == if b in used then c - b else 0;
  }

  lemma {:induction false} UsedReplace(blocks: seq<int>, blocks': seq<int>, used: set<int>, i: nat, j: nat, j': nat)
    requires i <= j < |blocks| && i <= j' < |blocks'|
    requires blocks[..i + 1] == blocks'[..i + 1] && blocks[j..] == blocks'[j'..]
    ensures UsedBytes(blocks', used) - UsedBytes(blocks, used)
            == UsedBytes(blocks'[i..j' + 1], used) - UsedBytes(blocks[i..j + 1], used)
  {
    hide UsedBytes;
    UsedSplit(blocks, used, j);
    UsedSplit(blocks', used, j');
    UsedSplit(blocks[..j + 1], used, i);
    UsedSplit(blocks'[..j' + 1], used, i);
    assert blocks[..j + 1][..i + 1] == blocks[..i + 1] && blocks[..j + 1][i..] == blocks[i..j + 1];
    assert blocks'[..j' + 1][..i + 1] == blocks'[..i + 1] && blocks'[..j' + 1][i..] == blocks'[i..j' + 1];
  }

  lemma {:induction false} UsedMark(blocks: seq<int>, used: set<int>, i: nat)
    requires i + 1 < |blocks| && Distinct(blocks) && blocks[i] in used
    ensures UsedBytes(blocks, used - {blocks[i]}) == UsedBytes(blocks, used) - (blocks[i + 1] - blocks[i])
  {
    hide UsedBytes;
    var used' := used - {blocks[i]};
    UsedSplit(blocks, used, i);
    UsedSplit(blocks, used', i);
    UsedSplit(blocks[i..], used, 1);
    UsedSplit(blocks[i..], used', 1);
    assert blocks[i..][..2] == [blocks[i], blocks[i + 1]] && blocks[i..][1..] == blocks[i + 1..];
    UsedTwo(blocks[i], blocks[i + 1], 0, used);
    UsedTwo(blocks[i], blocks[i + 1], 0, used');
    UsedSame(blocks[..i + 1], used, used');
    UsedSame(blocks[i + 1..], used, used');
  }

  /** An unused block taken out adds to the used bytes exactly if the one before is used. */
  lemma {:induction false} UsedJoin(blocks: seq<int>, used: set<int>, k: nat)
    requires 0 < k < |blocks| - 1 && blocks[k] !in used
    ensures UsedBytes(RemoveAt(blocks, k), used)
            == UsedBytes(blocks, used) + if blocks[k - 1] in used then blocks[k + 1] - blocks[k] else 0
  {
    hide UsedBytes;
    var r := RemoveAt(blocks, k);
    assert r[..k] == blocks[..k] && r[k..] == blocks[k + 1..];
    UsedReplace(blocks, r, used, k - 1, k + 1, k);
    assert blocks[k - 1..k + 2] == [blocks[k - 1], blocks[k], blocks[k + 1]];
    assert r[k - 1..k + 1] == [blocks[k - 1], blocks[k + 1]];
    UsedTwo(blocks[k - 1], blocks[k], blocks[k + 1], used);
    UsedTwo(blocks[k - 1], blocks[k + 1], 0, used);
  }

  // ----- plug_holes -----

  /** Combine block `i` with the block after it, if that is unused. */
  ghost function PlugForward(l: Layout, i: nat): Layout
    requires i + 1 < |l.blocks|
  {
    if l.blocks[i + 1] in l.used then l
    else l.(blocks := RemoveAt(l.blocks, i + 1), lfree := if l.lfree == l.blocks[i + 1] then l.blocks[i] else l.lfree)
  }

  /** Combine block `i` with the block before it, if that is unused. */
  ghost function PlugBackward(l: Layout, i: nat): Layout
    requires i < |l.blocks|
  {
    if i == 0 || l.blocks[i - 1] in l.used then l
    else l.(blocks := RemoveAt(l.blocks, i), lfree := if l.lfree == l.blocks[i] then l.blocks[i - 1] else l.lfree)
  }

  ghost function Plug(l: Layout, i: nat): Layout
    requires i + 1 < |l.blocks|
  {
    PlugBackward(PlugForward(l, i), i)
  }

  lemma {:induction false} TilesRemove(blocks: seq<int>, k: nat)
    requires Tiles(blocks) && 0 < k < |blocks| - 1
    ensures Tiles(RemoveAt(blocks, k)) && SameSpan(blocks, RemoveAt(blocks, k))
    ensures Distinct(blocks)
  {
    hide Ascending;
    AscendingRemove(blocks, GAP, k);
    AscendingDistinct(blocks, GAP);
  }

  lemma {:induction false} TilesDistinct(blocks: seq<int>)
    requires Tiles(blocks)
    ensures Distinct(blocks)
  {
  }

  lemma {:induction false} PlugForwardCore(l: Layout, i: nat)
    requires Core(l) && i + 1 < |l.blocks| && l.blocks[i] !in l.used && MergedBut(l.blocks, l.used, i)
    ensures var l' := PlugForward(l, i);
            && Core(l') && SameSpan(l.blocks, l'.blocks) && i + 1 < |l'.blocks| && l'.blocks[i] == l.blocks[i] && l'.used == l.used
            && MergedBut(l'.blocks, l'.used, i) && l'.blocks[i + 1] in l'.used && (Lowest(l) ==> Lowest(l'))
            && forall b :: b in l'.blocks ==> b in l.blocks
  {
    hide UsedBytes, Ascending, Aligned, MergedBut;
    if l.blocks[i + 1] !in l.used {
      TilesRemove(l.blocks, i + 1);
      RemoveAtMembers(l.blocks, i + 1);
      MergedButForward(l.blocks, l.used, i);
      UsedJoin(l.blocks, l.used, i + 1);
      BlockBelow(l.blocks, i);
    }
  }

  lemma BlockBelow(blocks: seq<int>, i: nat)
    requires Tiles(blocks) && i + 1 < |blocks|
    ensures blocks[i] + GAP <= blocks[i + 1]
  {
  }

  lemma {:induction false} PlugBackwardInv(l: Layout, i: nat)
    requires Core(l) && i + 1 < |l.blocks| && l.blocks[i] !in l.used && MergedBut(l.blocks, l.used, i) && l.blocks[i + 1] in l.used
    ensures var l' := PlugBackward(l, i);
            && Inv(l') && SameSpan(l.blocks, l'.blocks) && l'.used == l.used && (Lowest(l) ==> Lowest(l'))
            && forall b :: b in l'.blocks ==> b in l.blocks
  {
    hide UsedBytes, Ascending, Aligned, MergedBut, Merged;
    if i > 0 && l.blocks[i - 1] !in l.used {
      TilesRemove(l.blocks, i);
      RemoveAtMembers(l.blocks, i);
      RemovePlace(l.blocks, i, i);
      MergedButLeft(l.blocks, l.used, i);
      MergedBetween(RemoveAt(l.blocks, i), l.used, i - 1);
      UsedJoin(l.blocks, l.used, i);
      BlockBelow(l.blocks, i - 1);
    } else {
      MergedBetween(l.blocks, l.used, i);
    }
  }

  lemma {:induction false} PlugInv(l: Layout, i: nat)
    requires Core(l) && i + 1 < |l.blocks| && l.blocks[i] !in l.used && MergedBut(l.blocks, l.used, i)
    ensures var l' := Plug(l, i);
            && Inv(l') && SameSpan(l.blocks, l'.blocks) && l'.used == l.used && (Lowest(l) ==> Lowest(l'))
            && forall b :: b in l'.blocks ==> b in l.blocks
  {
    hide Core, Inv, MergedBut, Lowest, PlugForward, PlugBackward;
    PlugForwardCore(l, i);
    PlugBackwardInv(PlugForward(l, i), i);
  }

  // ----- free -----

  ghost function Unused(l: Layout, i: nat): Layout
    requires i + 1 < |l.blocks|
  {
    var h := l.blocks[i];
    Layout(l.blocks, l.used - {h}, if h < l.lfree then h else l.lfree, l.usedMem - (l.blocks[i + 1] - h))
  }

  /** rt_free of block `i` */
  ghost function Freed(l: Layout, i: nat): Layout
    requires i + 1 < |l.blocks|
  {
    Plug(Unused(l, i), i)
  }

  lemma {:induction false} UnusedCore(l: Layout, i: nat)
    requires Inv(l) && i + 1 < |l.blocks| && l.blocks[i] in l.used
    ensures var l' := Unused(l, i);
            Core(l') && MergedBut(l'.blocks, l'.used, i) && (Lowest(l) ==> Lowest(l'))
  {
    hide UsedBytes, Aligned;
    TilesDistinct(l.blocks);
    UsedMark(l.blocks, l.used, i);
  }

  /** Freeing keeps the invariant, and keeps the lowest-free pointer lowest. */
  lemma {:induction false} FreedKeepsInv(l: Layout, i: nat)
    requires Inv(l) && i + 1 < |l.blocks| && l.blocks[i] in l.used
    ensures var l' := Freed(l, i);
            && Inv(l') && SameSpan(l.blocks, l'.blocks) && l'.used == l.used - {l.blocks[i]} && (Lowest(l) ==> Lowest(l'))
            && forall b :: b in l'.blocks ==> b in l.blocks
  {
    hide Core, MergedBut, Lowest, Plug;
    UnusedCore(l, i);
    PlugInv(Unused(l, i), i);
  }
}
