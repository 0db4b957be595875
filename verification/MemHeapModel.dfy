/** The memory-heap allocator of src/memheap.c on values: the blocks of the pool in
    address order, which of them are used, and the order of the free list. */
module MemHeapModel {
  import opened Sequences
  import opened HeapBlocks

  /** RT_MEMHEAP_SIZE: six words of four bytes */
  const HDR := 24
  /** RT_MEMHEAP_MINIALLOC */
  const MIN := 12
  const WORD_RANGE := 0x1_0000_0000

  /** RT_ALIGN on a 32-bit size, raised to the smallest allocation. */
  function Rounded(size: int): (r: int)
    requires 0 <= size < WORD_RANGE
    ensures MIN <= r <= WORD_RANGE - 4 && r % 4 == 0
  {
    var aligned := (size + 3) % WORD_RANGE / 4 * 4;
    if aligned < MIN then MIN else aligned
  }

  /** The rounded size covers the request unless the alignment wraps. */
  lemma RoundedCovers(size: int)
    requires 0 <= size < WORD_RANGE
    ensures Rounded(size) >= size <==> size <= WORD_RANGE - 4
    ensures Rounded(size) < size + 4 || Rounded(size) == MIN
    ensures Rounded(Rounded(size)) == Rounded(size)
  {
  }

  /** `blocks` are the block addresses, the zero-length tail last; `used` those whose
      header has the used bit; `free` the free list from its head on. */
  datatype Layout = Layout(blocks: seq<int>, used: set<int>, free: seq<int>, available: int)

  function SizeAt(blocks: seq<int>, i: nat): int
    requires i + 1 < |blocks|
  {
    blocks[i + 1] - blocks[i] - HDR
  }

  /** The blocks follow each other in address order, with room for a header and the
      smallest allocation in each but the tail. */
  ghost predicate Tiles(blocks: seq<int>) {
    |blocks| >= 2 && Ascending(blocks, HDR + MIN) && Aligned(blocks)
  }

  /** Bytes in unused blocks. */
  function FreeBytes(blocks: seq<int>, used: set<int>): int {
    if |blocks| < 2 then 0
    else (if blocks[0] in used then 0 else SizeAt(blocks, 0)) + FreeBytes(blocks[1..], used)
  }

  /** The free list holds exactly the unused blocks, once each. */
  ghost predicate ListsUnused(free: seq<int>, blocks: seq<int>, used: set<int>) {
    Distinct(free) && forall b :: b in free <==> b in blocks && b !in used
  }

  ghost predicate Inv(l: Layout) {
    && Tiles(l.blocks) && UsedOk(l.blocks, l.used)
    && ListsUnused(l.free, l.blocks, l.used) && Merged(l.blocks, l.used)
    && l.available == FreeBytes(l.blocks, l.used)
  }

  // ----- counting free bytes -----

  lemma FreeBytesSplit(blocks: seq<int>, used: set<int>, i: nat)
    requires i < |blocks|
    ensures FreeBytes(blocks, used) == FreeBytes(blocks[..i + 1], used) + FreeBytes(blocks[i..], used)
  {
    if i > 0 {
      FreeBytesSplit(blocks[1..], used, i - 1);
      assert blocks[..i + 1][1..] == blocks[1..][..i];
      assert blocks[1..][i - 1..] == blocks[i..];
    }
  }

  lemma FreeBytesSame(blocks: seq<int>, used: set<int>, used': set<int>)
    requires forall i :: 0 <= i < |blocks| - 1 ==> (blocks[i] in used <==> blocks[i] in used')
    ensures FreeBytes(blocks, used) == FreeBytes(blocks, used')
  {
    if |blocks| >= 2 {
      assert forall i :: 0 <= i < |blocks[1..]| - 1 ==> blocks[1..][i] == blocks[i + 1];
      FreeBytesSame(blocks[1..], used, used');
    }
  }

  /** Replacing the stretch between two blocks changes the sum by that stretch only. */
  lemma {:induction false} FreeBytesReplace(blocks: seq<int>, blocks': seq<int>, used: set<int>, i: nat, j: nat, j': nat)
    requires i <= j < |blocks| && i <= j' < |blocks'|
    requires blocks[..i + 1] == blocks'[..i + 1] && blocks[j..] == blocks'[j'..]
    ensures FreeBytes(blocks', used) - FreeBytes(blocks, used)
            == FreeBytes(blocks'[i..j' + 1], used) - FreeBytes(blocks[i..j + 1], used)
  {
    FreeBytesSplit(blocks, used, j);
    FreeBytesSplit(blocks', used, j');
    FreeBytesSplit(blocks[..j + 1], used, i);
    FreeBytesSplit(blocks'[..j' + 1], used, i);
    assert blocks[..j + 1][..i + 1] == blocks[..i + 1] && blocks[..j + 1][i..] == blocks[i..j + 1];
    assert blocks'[..j' + 1][..i + 1] == blocks'[..i + 1] && blocks'[..j' + 1][i..] == blocks'[i..j' + 1];
  }

  lemma {:induction false} FreeBytesOne(a: int, b: int, used: set<int>)
    ensures FreeBytes([a, b], used) == if a in used then 0 else b - a - HDR
  {
    assert [a, b][1..] == [b];
  }

  lemma {:induction false} FreeBytesTwo(a: int, b: int, c: int, used: set<int>)
    ensures FreeBytes([a, b, c], used) == (if a in used then 0 else b - a - HDR) + (if b in used then 0 else c - b - HDR)
  {
    assert [a, b, c][1..] == [b, c];
    FreeBytesOne(b, c, used);
  }

  /** Marking one block used or unused. */
  lemma {:induction false} FreeBytesMark(blocks: seq<int>, used: set<int>, used': set<int>, i: nat)
    requires i + 1 < |blocks| && Distinct(blocks)
    requires blocks[i] in used && used' == used - {blocks[i]}
    ensures FreeBytes(blocks, used') == FreeBytes(blocks, used) + SizeAt(blocks, i)
  {
    hide FreeBytes;
    FreeBytesSplit(blocks, used, i);
    FreeBytesSplit(blocks, used', i);
    FreeBytesSplit(blocks[i..], used, 1);
    FreeBytesSplit(blocks[i..], used', 1);
    assert blocks[i..][..2] == [blocks[i], blocks[i + 1]] && blocks[i..][1..] == blocks[i + 1..];
    FreeBytesOne(blocks[i], blocks[i + 1], used);
    FreeBytesOne(blocks[i], blocks[i + 1], used');
    FreeBytesSame(blocks[..i + 1], used, used');
    FreeBytesSame(blocks[i + 1..], used, used');
  }

  /** Taking a block out between two others. */
  lemma {:induction false} FreeBytesJoin(blocks: seq<int>, used: set<int>, k: nat)
    requires 0 < k < |blocks| - 1 && blocks[k] !in used
    ensures FreeBytes(RemoveAt(blocks, k), used)
            == FreeBytes(blocks, used)
               + if blocks[k - 1] in used then -SizeAt(blocks, k) else HDR
  {
    hide FreeBytes;
    var r := RemoveAt(blocks, k);
    assert r[..k] == blocks[..k] && r[k..] == blocks[k + 1..];
    FreeBytesReplace(blocks, r, used, k - 1, k + 1, k);
    assert blocks[k - 1..k + 2] == [blocks[k - 1], blocks[k], blocks[k + 1]];
    assert r[k - 1..k + 1] == [blocks[k - 1], blocks[k + 1]];
    FreeBytesTwo(blocks[k - 1], blocks[k], blocks[k + 1], used);
    FreeBytesOne(blocks[k - 1], blocks[k + 1], used);
  }

  /** No unused block is larger than all unused blocks together. */
  lemma {:induction false} FreeBytesBound(blocks: seq<int>, used: set<int>, i: nat)
    requires Tiles(blocks) && i + 1 < |blocks| && blocks[i] !in used
    ensures SizeAt(blocks, i) <= FreeBytes(blocks, used)
  {
    FreeBytesSplit(blocks, used, i);
    FreeBytesNonnegative(blocks[..i + 1], used);
    FreeBytesNonnegative(blocks[i..][1..], used);
  }

  lemma FreeBytesNonnegative(blocks: seq<int>, used: set<int>)
    requires Ascending(blocks, HDR + MIN)
    ensures FreeBytes(blocks, used) >= 0
  {
    if |blocks| >= 2 {
      FreeBytesNonnegative(blocks[1..], used);
    }
  }

  // ----- free -----

  /** A block marked unused, its bytes counted as available. */
  function Marked(l: Layout, i: nat): Layout
    requires i + 1 < |l.blocks|
  {
    l.(used := l.used - {l.blocks[i]}, available := l.available + SizeAt(l.blocks, i))
  }

  /** Block `k` made part of the block before it. */
  function JoinAt(l: Layout, k: nat): Layout
    requires k < |l.blocks|
  {
    l.(blocks := RemoveAt(l.blocks, k), available := l.available + HDR)
  }

  /** rt_memheap_free of block `i` */
  ghost function Freed(l: Layout, i: nat): Layout
    requires Inv(l) && i + 1 < |l.blocks| && l.blocks[i] in l.used
  {
    var h := l.blocks[i];
    var l1 := Marked(l, i);
    if i > 0 && l.blocks[i - 1] !in l1.used then JoinRight(JoinAt(l1, i), i - 1)
    else
      var l2 := JoinRight(l1, i);
      l2.(free := [h] + l2.free)
  }

  /** Merge unused block `j` with an unused right neighbour. */
  ghost function JoinRight(l: Layout, j: nat): Layout
    requires j + 1 < |l.blocks| && (l.blocks[j + 1] !in l.used ==> l.blocks[j + 1] in l.free)
  {
    if l.blocks[j + 1] in l.used then l
    else JoinAt(l, j + 1).(free := Without(l.free, l.blocks[j + 1]))
  }

  /** What holds between the steps of a free: everything but the free list's agreement
      and the merging around block `j`. */
  ghost predicate Core(l: Layout) {
    Tiles(l.blocks) && UsedOk(l.blocks, l.used) && l.available == FreeBytes(l.blocks, l.used)
  }

  lemma {:induction false} TilesSpaced(blocks: seq<int>)
    requires Tiles(blocks)
    ensures Ascending(blocks, HDR)
  {
    forall i, j | 0 <= i < j < |blocks| ensures blocks[i] + HDR <= blocks[j] {
      assert blocks[i] + (HDR + MIN) <= blocks[j];
    }
  }

  lemma {:induction false} TilesDistinct(blocks: seq<int>)
    requires Tiles(blocks)
    ensures Distinct(blocks)
  {
  }

  lemma {:induction false} MarkedCore(l: Layout, i: nat)
    requires Core(l) && Merged(l.blocks, l.used) && i + 1 < |l.blocks| && l.blocks[i] in l.used
    ensures Core(Marked(l, i)) && MergedBut(l.blocks, l.used - {l.blocks[i]}, i)
  {
    hide FreeBytes;
    FreeBytesMark(l.blocks, l.used, l.used - {l.blocks[i]}, i);
  }

  lemma {:induction false} TilesRemove(blocks: seq<int>, k: nat)
    requires Tiles(blocks) && 0 < k < |blocks| - 1
    ensures Tiles(RemoveAt(blocks, k)) && SameSpan(blocks, RemoveAt(blocks, k))
  {
  }

  lemma {:induction false} JoinCore(l: Layout, k: nat)
    requires Core(l) && 0 < k < |l.blocks| - 1 && l.blocks[k] !in l.used && l.blocks[k - 1] !in l.used
    ensures Core(JoinAt(l, k)) && SameSpan(l.blocks, JoinAt(l, k).blocks)
  {
    hide FreeBytes;
    TilesRemove(l.blocks, k);
    RemoveAtMembers(l.blocks, k);
    FreeBytesJoin(l.blocks, l.used, k);
  }

  ghost predicate ListsBut(free: seq<int>, blocks: seq<int>, used: set<int>, h: int) {
    Distinct(free) && forall b :: b != h ==> (b in free <==> b in blocks && b !in used)
  }

  lemma {:induction false} JoinRightCore(l: Layout, j: nat)
    requires Core(l) && j + 1 < |l.blocks| && l.blocks[j] !in l.used
    requires MergedBut(l.blocks, l.used, j) && UsedBefore(l.blocks, l.used, j)
    requires ListsBut(l.free, l.blocks, l.used, l.blocks[j])
    ensures var l' := JoinRight(l, j);
            && Core(l') && Merged(l'.blocks, l'.used) && SameSpan(l.blocks, l'.blocks)
            && ListsBut(l'.free, l'.blocks, l'.used, l.blocks[j]) && l'.used == l.used
            && l.blocks[j] in l'.blocks && (l.blocks[j] in l'.free <==> l.blocks[j] in l.free)
  {
    hide FreeBytes, Merged, Tiles;
    TilesDistinct(l.blocks);
    var n := l.blocks[j + 1];
    if n !in l.used {
      JoinCore(l, j + 1);
      MergedAfterJoin(l.blocks, l.used, j);
      RemoveAtMembers(l.blocks, j + 1);
      WithoutMembers(l.free, n);
    } else {
      MergedBetween(l.blocks, l.used, j);
    }
  }

  /** The block just freed and the unused block before it become one. */
  lemma {:induction false} JoinLeftCore(l: Layout, i: nat)
    requires Inv(l) && 0 < i && i + 1 < |l.blocks| && l.blocks[i] in l.used && l.blocks[i - 1] !in l.used
    ensures var l' := JoinAt(Marked(l, i), i);
            && Core(l') && SameSpan(l.blocks, l'.blocks) && l'.blocks[i - 1] == l.blocks[i - 1]
            && MergedBut(l'.blocks, l'.used, i - 1) && UsedBefore(l'.blocks, l'.used, i - 1)
            && ListsBut(l'.free, l'.blocks, l'.used, l.blocks[i - 1])
  {
    hide FreeBytes;
    var l1 := Marked(l, i);
    MarkedCore(l, i);
    JoinCore(l1, i);
    RemoveAtMembers(l.blocks, i);
    MergedButLeft(l.blocks, l1.used, i);
  }

  lemma {:induction false} JoinBothCore(l: Layout, i: nat)
    requires Inv(l) && 0 < i && i + 1 < |l.blocks| && l.blocks[i] in l.used && l.blocks[i - 1] !in l.used
    ensures var l' := JoinAt(Marked(l, i), i);
            && (l'.blocks[i] !in l'.used ==> l'.blocks[i] in l'.free)
            && Inv(JoinRight(l', i - 1)) && SameSpan(l.blocks, JoinRight(l', i - 1).blocks)
            && JoinRight(l', i - 1).used == l.used - {l.blocks[i]}
  {
    hide FreeBytes, Merged, Tiles, JoinRight;
    JoinLeftCore(l, i);
    JoinRightCore(JoinAt(Marked(l, i), i), i - 1);
  }

  lemma {:induction false} JoinOnlyRightCore(l: Layout, i: nat)
    requires Inv(l) && i + 1 < |l.blocks| && l.blocks[i] in l.used && UsedBefore(l.blocks, l.used - {l.blocks[i]}, i)
    ensures var l' := Marked(l, i);
            && (l'.blocks[i + 1] !in l'.used ==> l'.blocks[i + 1] in l'.free)
            && var l2 := JoinRight(l', i);
            && Inv(l2.(free := [l.blocks[i]] + l2.free)) && SameSpan(l.blocks, l2.blocks) && l2.used == l'.used
  {
    hide FreeBytes, Merged, Tiles, JoinRight;
    TilesDistinct(l.blocks);
    MarkedCore(l, i);
    JoinRightCore(Marked(l, i), i);
    var free := JoinRight(Marked(l, i), i).free;
    SpliceMembers(free, 0, l.blocks[i]);
    assert [l.blocks[i]] + free == Splice(free, 0, l.blocks[i]);
  }

  /** Freeing a block keeps the invariant and the pool. */
  lemma {:induction false} FreedKeepsInv(l: Layout, i: nat)
    requires Inv(l) && i + 1 < |l.blocks| && l.blocks[i] in l.used
    ensures Inv(Freed(l, i)) && SameSpan(l.blocks, Freed(l, i).blocks)
    ensures Freed(l, i).used == l.used - {l.blocks[i]}
  {
    hide FreeBytes, Inv, JoinRight, JoinAt, SameSpan, Distinct;
    if i > 0 {
      TilesStep(l, i - 1);
    }
    if i > 0 && l.blocks[i - 1] !in Marked(l, i).used {
      JoinBothCore(l, i);
    } else {
      JoinOnlyRightCore(l, i);
    }
  }

  lemma TilesStep(l: Layout, i: nat)
    requires Inv(l) && i + 1 < |l.blocks|
    ensures l.blocks[i] + HDR + MIN <= l.blocks[i + 1]
  {
  }
}
