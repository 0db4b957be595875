/** Blocks of a heap in address order, the last one its end: which are used, that no two
    neighbours are unused, and what a change to one block leaves of the others. */
module HeapBlocks {
  import opened Sequences

  /** Each block begins at least `gap` bytes before the next. */
  ghost predicate Ascending(blocks: seq<int>, gap: nat) {
    forall i, j :: 0 <= i < j < |blocks| ==> blocks[i] + gap <= blocks[j]
  }

  lemma {:induction false} AscendingRemove(blocks: seq<int>, gap: nat, k: nat)
    requires Ascending(blocks, gap) && k < |blocks|
    ensures Ascending(RemoveAt(blocks, k), gap)
  {
    var r := RemoveAt(blocks, k);
    forall i, j | 0 <= i < j < |r| ensures r[i] + gap <= r[j] {
      assert r[i] == blocks[if i < k then i else i + 1] && r[j] == blocks[if j < k then j else j + 1];
    }
  }

  lemma {:induction false} AscendingOrder(blocks: seq<int>, gap: nat, i: nat, j: nat)
    requires Ascending(blocks, gap) && gap > 0 && i < |blocks| && j < |blocks|
    ensures blocks[i] < blocks[j] <==> i < j
  {
    assert i < j ==> blocks[i] + gap <= blocks[j];
    assert j < i ==> blocks[j] + gap <= blocks[i];
  }

  lemma {:induction false} AscendingDistinct(blocks: seq<int>, gap: nat)
    requires Ascending(blocks, gap) && gap > 0
    ensures Distinct(blocks)
  {
  }

  ghost predicate Aligned(blocks: seq<int>) {
    forall i :: 0 <= i < |blocks| ==> (blocks[i] - blocks[0]) % 4 == 0
  }

  /** The same pool, from its first block to its tail. */
  ghost predicate SameSpan(a: seq<int>, b: seq<int>) {
    a != [] && b != [] && a[0] == b[0] && a[|a| - 1] == b[|b| - 1]
  }

  lemma SpanTrans(a: seq<int>, b: seq<int>, c: seq<int>)
    requires SameSpan(a, b) && SameSpan(b, c)
    ensures SameSpan(a, c)
  {
  }

  ghost predicate UsedOk(blocks: seq<int>, used: set<int>) {
    && blocks != [] && blocks[|blocks| - 1] in used
    && forall b :: b in used ==> b in blocks
  }

  /** No two neighbours are both unused. */
  ghost predicate Merged(blocks: seq<int>, used: set<int>) {
    forall i :: 0 <= i < |blocks| - 1 ==> blocks[i] in used || blocks[i + 1] in used
  }

  ghost predicate MergedBut(blocks: seq<int>, used: set<int>, j: nat) {
    forall i :: 0 <= i < |blocks| - 1 && i != j && i + 1 != j ==> blocks[i] in used || blocks[i + 1] in used
  }

  ghost predicate UsedBefore(blocks: seq<int>, used: set<int>, j: nat) {
    0 < j <= |blocks| ==> blocks[j - 1] in used
  }

  lemma {:induction false} MergedAfterJoin(blocks: seq<int>, used: set<int>, j: nat)
    requires j + 2 < |blocks| && MergedBut(blocks, used, j) && UsedBefore(blocks, used, j) && blocks[j + 1] !in used
    ensures Merged(RemoveAt(blocks, j + 1), used)
  {
    var r := RemoveAt(blocks, j + 1);
    forall i | 0 <= i < |r| - 1 ensures r[i] in used || r[i + 1] in used {
      assert r[i] == blocks[if i <= j then i else i + 1] && r[i + 1] == blocks[if i + 1 <= j then i + 1 else i + 2];
    }
  }

  lemma {:induction false} MergedBetween(blocks: seq<int>, used: set<int>, j: nat)
    requires j + 1 < |blocks| && MergedBut(blocks, used, j) && UsedBefore(blocks, used, j) && blocks[j + 1] in used
    ensures Merged(blocks, used)
  {
  }

  lemma {:induction false} MergedButLeft(blocks: seq<int>, used: set<int>, i: nat)
    requires 0 < i && i + 1 < |blocks| && MergedBut(blocks, used, i) && blocks[i - 1] !in used
    ensures MergedBut(RemoveAt(blocks, i), used, i - 1) && UsedBefore(RemoveAt(blocks, i), used, i - 1)
  {
    var r := RemoveAt(blocks, i);
    forall k | 0 <= k < |r| - 1 && k != i - 1 && k + 1 != i - 1 ensures r[k] in used || r[k + 1] in used {
      assert r[k] == blocks[if k < i then k else k + 1] && r[k + 1] == blocks[if k + 1 < i then k + 1 else k + 2];
    }
  }

  /** Merging block `i` with the unused block after it leaves a used one there. */
  lemma {:induction false} MergedButForward(blocks: seq<int>, used: set<int>, i: nat)
    requires MergedBut(blocks, used, i) && i + 2 < |blocks| && blocks[i + 1] !in used
    ensures MergedBut(RemoveAt(blocks, i + 1), used, i) && RemoveAt(blocks, i + 1)[i + 1] in used
  {
    var r := RemoveAt(blocks, i + 1);
    assert r[i + 1] == blocks[i + 2];
    forall k | 0 <= k < |r| - 1 && k != i && k + 1 != i ensures r[k] in used || r[k + 1] in used {
      assert r[k] == blocks[if k <= i then k else k + 1] && r[k + 1] == blocks[if k + 1 <= i then k + 1 else k + 2];
    }
  }

  lemma {:induction false} MergedAfterSplit(blocks: seq<int>, used: set<int>, i: nat, x: int)
    requires Merged(blocks, used) && i + 1 < |blocks| && blocks[i + 1] in used
    ensures Merged(Splice(blocks, i + 1, x), used + {blocks[i]})
  {
    var r, u := Splice(blocks, i + 1, x), used + {blocks[i]};
    forall k | 0 <= k < |r| - 1 ensures r[k] in u || r[k + 1] in u {
      assert r[k] == if k <= i then blocks[k] else if k == i + 1 then x else blocks[k - 1];
      assert r[k + 1] == if k + 1 <= i then blocks[k + 1] else if k == i then x else blocks[k];
    }
  }

  lemma {:induction false} AscendingSplice(blocks: seq<int>, gap: nat, i: nat, x: int)
    requires Ascending(blocks, gap) && gap > 0 && i + 1 < |blocks|
    requires blocks[i] + gap <= x && x + gap <= blocks[i + 1]
    ensures Ascending(Splice(blocks, i + 1, x), gap) && x !in blocks
  {
    var r := Splice(blocks, i + 1, x);
    forall k | 0 <= k < |blocks| ensures if k <= i then blocks[k] + gap <= x else x + gap <= blocks[k] {
    }
    forall j, k | 0 <= j < k < |r| ensures r[j] + gap <= r[k] {
      assert r[j] == if j <= i then blocks[j] else if j == i + 1 then x else blocks[j - 1];
      assert r[k] == if k <= i then blocks[k] else if k == i + 1 then x else blocks[k - 1];
    }
  }

  lemma {:induction false} AlignedSplice(blocks: seq<int>, i: nat, x: int)
    requires Aligned(blocks) && i + 1 < |blocks| && (x - blocks[i]) % 4 == 0
    ensures Aligned(Splice(blocks, i + 1, x))
  {
    var r := Splice(blocks, i + 1, x);
    assert (blocks[i] - blocks[0]) % 4 == 0;
    forall k | 0 <= k < |r| ensures (r[k] - r[0]) % 4 == 0 {
      assert r[k] == if k <= i then blocks[k] else if k == i + 1 then x else blocks[k - 1];
    }
  }

  ghost predicate Extent(blocks: seq<int>, b: int, e: int) {
    exists k :: 0 <= k < |blocks| - 1 && blocks[k] == b && blocks[k + 1] == e
  }

  /** Every live block but `h` is still live, where it was and as large as it was. */
  ghost predicate OthersKept(blocks: seq<int>, used: set<int>, blocks': seq<int>, used': set<int>, h: int) {
    forall i :: 0 <= i < |blocks| - 1 && blocks[i] in used && blocks[i] != h ==>
                  blocks[i] in used' && Extent(blocks', blocks[i], blocks[i + 1])
  }

  lemma {:induction false} SpliceKeepsExtents(blocks: seq<int>, i: nat, x: int)
    requires i + 1 < |blocks|
    ensures forall k :: 0 <= k < |blocks| - 1 && k != i ==> Extent(Splice(blocks, i + 1, x), blocks[k], blocks[k + 1])
  {
    var r := Splice(blocks, i + 1, x);
    forall k | 0 <= k < |blocks| - 1 && k != i ensures Extent(r, blocks[k], blocks[k + 1]) {
      var k' := if k < i then k else k + 1;
      assert r[k'] == blocks[k] && r[k' + 1] == blocks[k + 1];
    }
  }

  /** Live blocks of `blocks` keep their extents in `blocks'`. */
  ghost predicate ExtentsKept(blocks: seq<int>, blocks': seq<int>, used: set<int>) {
    forall i :: 0 <= i < |blocks| - 1 && blocks[i] in used ==> Extent(blocks', blocks[i], blocks[i + 1])
  }

  lemma {:induction false} RemoveKeepsOthers(blocks: seq<int>, used: set<int>, k: nat)
    requires 0 < k < |blocks| - 1 && blocks[k] !in used && blocks[k - 1] !in used
    ensures ExtentsKept(blocks, RemoveAt(blocks, k), used)
  {
    var r := RemoveAt(blocks, k);
    forall i | 0 <= i < |blocks| - 1 && blocks[i] in used ensures Extent(r, blocks[i], blocks[i + 1]) {
      var i' := if i < k then i else i - 1;
      assert r[i'] == blocks[i] && r[i' + 1] == blocks[i + 1];
    }
  }

  lemma {:induction false} OthersTwice(a: seq<int>, b: seq<int>, c: seq<int>, used: set<int>)
    requires ExtentsKept(a, b, used) && ExtentsKept(b, c, used)
    ensures ExtentsKept(a, c, used)
  {
    forall i | 0 <= i < |a| - 1 && a[i] in used ensures Extent(c, a[i], a[i + 1]) {
      assert Extent(b, a[i], a[i + 1]);
      var k :| 0 <= k < |b| - 1 && b[k] == a[i] && b[k + 1] == a[i + 1];
      assert Extent(c, b[k], b[k + 1]);
    }
  }
}

/** The bytes under a heap's blocks, each with a header of `hdr` bytes. */
module HeapBytes {
  import opened Sequences
  import opened HeapBlocks

  /** Known bytes of memory, by address. */
  type Bytes = map<int, int>

  /** Writing headers leaves nothing known about the bytes under them. */
  function Scrub(bytes: Bytes, heads: set<int>, hdr: nat): Bytes {
    map k | k in bytes && Clear(k, heads, hdr) :: bytes[k]
  }

  ghost predicate Keeps(b0: Bytes, b1: Bytes, from: int, to: int) {
    forall a :: from <= a < to && a in b0 ==> a in b1 && b1[a] == b0[a]
  }

  predicate Clear(a: int, heads: set<int>, hdr: nat) {
    forall t :: t in heads ==> !(t <= a < t + hdr)
  }

  /** Only bytes under the headers at `heads` may have changed. */
  ghost predicate KeepsBut(b0: Bytes, b1: Bytes, heads: set<int>, hdr: nat) {
    forall a :: a in b0 && Clear(a, heads, hdr) ==> a in b1 && b1[a] == b0[a]
  }

  lemma KeepsSame(b: Bytes, heads: set<int>, hdr: nat)
    ensures KeepsBut(b, b, heads, hdr)
  {
  }

  /** The payload of every live block but `h` is what it was. */
  ghost predicate PayloadsKept(blocks: seq<int>, used: set<int>, h: int, b0: Bytes, b1: Bytes, hdr: nat) {
    forall i :: 0 <= i < |blocks| - 1 && blocks[i] in used && blocks[i] != h ==>
                  Keeps(b0, b1, blocks[i] + hdr, blocks[i + 1])
  }

  lemma {:induction false} NoHeaderInside(blocks: seq<int>, hdr: nat, i: nat, t: int, a: int)
    requires Ascending(blocks, hdr) && i + 1 < |blocks| && t in blocks && blocks[i] + hdr <= a < blocks[i + 1]
    ensures !(t <= a < t + hdr)
  {
    var k :| 0 <= k < |blocks| && blocks[k] == t;
    if k > i + 1 {
      assert blocks[i + 1] + hdr <= blocks[k];
    } else if k < i {
      assert blocks[k] + hdr <= blocks[i];
    }
  }

  /** Header writes at old and new blocks leave the payloads of the kept blocks alone. */
  lemma {:induction false} PayloadsSafe(blocks: seq<int>, used: set<int>, blocks': seq<int>, used': set<int>, h: int,
                                        b0: Bytes, b1: Bytes, heads: set<int>, hdr: nat)
    requires Ascending(blocks, hdr) && Ascending(blocks', hdr) && OthersKept(blocks, used, blocks', used', h)
    requires KeepsBut(b0, b1, heads, hdr) && forall t :: t in heads ==> t in blocks || t in blocks'
    ensures PayloadsKept(blocks, used, h, b0, b1, hdr)
  {
    hide Ascending;
    forall i | 0 <= i < |blocks| - 1 && blocks[i] in used && blocks[i] != h
      ensures Keeps(b0, b1, blocks[i] + hdr, blocks[i + 1])
    {
      assert Extent(blocks', blocks[i], blocks[i + 1]);
      var k :| 0 <= k < |blocks'| - 1 && blocks'[k] == blocks[i] && blocks'[k + 1] == blocks[i + 1];
      forall a | blocks[i] + hdr <= a < blocks[i + 1] ensures Clear(a, heads, hdr) {
        forall t | t in heads ensures !(t <= a < t + hdr) {
          if t in blocks {
            NoHeaderInside(blocks, hdr, i, t, a);
          } else {
            NoHeaderInside(blocks', hdr, k, t, a);
          }
        }
      }
    }
  }

  /** Header writes at the old blocks and at the new boundary `x` of block `i` keep the head
      of its payload, up to its old end and the boundary. */
  lemma {:induction false} HeadSafe(blocks: seq<int>, i: nat, x: int, b0: Bytes, b1: Bytes, heads: set<int>, hdr: nat)
    requires Ascending(blocks, hdr) && i + 1 < |blocks|
    requires KeepsBut(b0, b1, heads, hdr) && forall t :: t in heads ==> t in blocks || t == x
    ensures Keeps(b0, b1, blocks[i] + hdr, if x < blocks[i + 1] then x else blocks[i + 1])
  {
    forall a | blocks[i] + hdr <= a < blocks[i + 1] && a < x ensures Clear(a, heads, hdr) {
      forall t | t in blocks ensures !(t <= a < t + hdr) {
        NoHeaderInside(blocks, hdr, i, t, a);
      }
    }
  }

  // ----- moving bytes -----

  /** Where the byte for address `a` of one region lies in another. */
  function Shift(a: int, from: int, to: int): int { a - from + to }

  /** rt_memcpy of `n` bytes between disjoint regions */
  function Copied(bytes: Bytes, dst: int, src: int, n: int): Bytes {
    (map k | k in bytes && !(dst <= k < dst + n) :: bytes[k])
    + (map k | dst <= k < dst + n && Shift(k, dst, src) in bytes :: bytes[Shift(k, dst, src)])
  }

  /** The first `n` bytes at `src` before are at `dst` after. */
  ghost predicate Carried(b0: Bytes, b1: Bytes, src: int, dst: int, n: int) {
    forall a :: src <= a < src + n && a in b0 ==> Shift(a, src, dst) in b1 && b1[Shift(a, src, dst)] == b0[a]
  }

  lemma {:induction false} CopiedKeeps(b1: Bytes, dst: int, src: int, n: int, from: int, to: int)
    requires to <= dst || dst + n <= from
    ensures Keeps(b1, Copied(b1, dst, src, n), from, to)
  {
  }

  lemma {:induction false} CopiedCarries(b1: Bytes, dst: int, src: int, n: int)
    ensures Carried(b1, Copied(b1, dst, src, n), src, dst, n)
  {
    var b2 := Copied(b1, dst, src, n);
    forall a | src <= a < src + n && a in b1 ensures Shift(a, src, dst) in b2 && b2[Shift(a, src, dst)] == b1[a] {
      assert Shift(Shift(a, src, dst), dst, src) == a;
    }
  }

  lemma {:induction false} KeptStaysPut(b: Bytes, b': Bytes, src: int, n: int)
    requires Keeps(b, b', src, src + n)
    ensures Carried(b, b', src, src, n)
  {
  }

  lemma {:induction false} PayloadAt(blocks: seq<int>, used: set<int>, x: int, b0: Bytes, b1: Bytes, hdr: nat, c: int, e: int)
    requires PayloadsKept(blocks, used, x, b0, b1, hdr) && Extent(blocks, c, e) && c in used && c != x
    ensures Keeps(b0, b1, c + hdr, e)
  {
    hide Keeps;
    var k :| 0 <= k < |blocks| - 1 && blocks[k] == c && blocks[k + 1] == e;
  }

  lemma {:induction false} ExtentsApart(blocks: seq<int>, hdr: nat, c: int, e: int, d: int, f: int)
    requires Ascending(blocks, hdr) && Extent(blocks, c, e) && Extent(blocks, d, f) && c != d
    ensures e <= d || f <= c
  {
    var i :| 0 <= i < |blocks| - 1 && blocks[i] == c && blocks[i + 1] == e;
    var j :| 0 <= j < |blocks| - 1 && blocks[j] == d && blocks[j + 1] == f;
    if i + 1 < j {
      assert blocks[i + 1] <= blocks[j];
    } else if j + 1 < i {
      assert blocks[j + 1] <= blocks[i];
    }
  }

  /** Block `c` while block `h` is copied to the new block `b` and freed. */
  lemma {:induction false} MoveKeepsOne(blocks0: seq<int>, used0: set<int>, blocks1: seq<int>, used1: set<int>, hdr: nat,
                                        h: int, b: int, f: int, n: int, b0: Bytes, b1: Bytes, b2: Bytes, b3: Bytes, i: nat)
    requires Ascending(blocks1, hdr) && i + 1 < |blocks0| && blocks0[i] in used0 && blocks0[i] != h && blocks0[i] != b
    requires Extent(blocks1, b, f) && OthersKept(blocks0, used0, blocks1, used1, b) && b + hdr + n <= f
    requires PayloadsKept(blocks0, used0, b, b0, b1, hdr) && PayloadsKept(blocks1, used1, h, b2, b3, hdr)
    requires b2 == Copied(b1, b + hdr, h + hdr, n)
    ensures Keeps(b0, b3, blocks0[i] + hdr, blocks0[i + 1])
  {
    hide Ascending, Copied;
    var c, e := blocks0[i], blocks0[i + 1];
    assert c in used1 && Extent(blocks1, c, e);
    assert Keeps(b0, b1, c + hdr, e);
    ExtentsApart(blocks1, hdr, c, e, b, f);
    CopiedKeeps(b1, b + hdr, h + hdr, n, c + hdr, e);
    PayloadAt(blocks1, used1, h, b2, b3, hdr, c, e);
  }

  /** Copying the first `n` bytes of block `h` to the newly allocated block `b` and freeing `h`
      carries those bytes over and keeps every other live payload. */
  lemma {:induction false} MoveKeeps(blocks0: seq<int>, used0: set<int>, blocks1: seq<int>, used1: set<int>, hdr: nat,
                                     h: int, e: int, b: int, f: int, n: int, b0: Bytes, b1: Bytes, b2: Bytes, b3: Bytes)
    requires Ascending(blocks1, hdr) && Extent(blocks0, h, e) && h in used0 && b !in used0
    requires Extent(blocks1, b, f) && b in used1 && OthersKept(blocks0, used0, blocks1, used1, b)
    requires h + hdr + n <= e && b + hdr + n <= f
    requires PayloadsKept(blocks0, used0, b, b0, b1, hdr) && PayloadsKept(blocks1, used1, h, b2, b3, hdr)
    requires b2 == Copied(b1, b + hdr, h + hdr, n)
    ensures PayloadsKept(blocks0, used0, h, b0, b3, hdr)
    ensures Carried(b0, b3, h + hdr, b + hdr, n)
  {
    hide Ascending, Copied, OthersKept, PayloadsKept, Extent;
    MoveKeepsAll(blocks0, used0, blocks1, used1, hdr, h, b, f, n, b0, b1, b2, b3);
    PayloadAt(blocks0, used0, b, b0, b1, hdr, h, e);
    PayloadAt(blocks1, used1, h, b2, b3, hdr, b, f);
    CopiedCarries(b1, b + hdr, h + hdr, n);
    forall a | h + hdr <= a < h + hdr + n && a in b0
      ensures Shift(a, h + hdr, b + hdr) in b3 && b3[Shift(a, h + hdr, b + hdr)] == b0[a]
    {
      assert a in b1;
    }
  }

  lemma {:induction false} MoveKeepsAll(blocks0: seq<int>, used0: set<int>, blocks1: seq<int>, used1: set<int>, hdr: nat,
                                        h: int, b: int, f: int, n: int, b0: Bytes, b1: Bytes, b2: Bytes, b3: Bytes)
    requires Ascending(blocks1, hdr) && b !in used0
    requires Extent(blocks1, b, f) && OthersKept(blocks0, used0, blocks1, used1, b) && b + hdr + n <= f
    requires PayloadsKept(blocks0, used0, b, b0, b1, hdr) && PayloadsKept(blocks1, used1, h, b2, b3, hdr)
    requires b2 == Copied(b1, b + hdr, h + hdr, n)
    ensures PayloadsKept(blocks0, used0, h, b0, b3, hdr)
  {
    hide Ascending, Copied, OthersKept, Keeps, Extent;
    forall i | 0 <= i < |blocks0| - 1 && blocks0[i] in used0 && blocks0[i] != h
      ensures Keeps(b0, b3, blocks0[i] + hdr, blocks0[i + 1])
    {
      MoveKeepsOne(blocks0, used0, blocks1, used1, hdr, h, b, f, n, b0, b1, b2, b3, i);
    }
  }
}
