/** The zones of src/slab.c on values: size classes, the chunks of a zone, and the lists that
    zones are on. Zones are named by their first page. */
module SlabModel {
  import opened Arithmetic
  import opened Sequences

  const NZONES := 72
  /** RT_MM_PAGE_SIZE */
  const PAGE := 4096
  /** sizeof(slab_zone): nine words */
  const ZONE_HEADER := 36
  const RELEASE_THRESHOLD := 2
  /** The pages of the smallest zone, ZALLOC_MIN_ZONE_SIZE */
  const MIN_PAGES := 8

  // ----- size classes -----

  function RoundUp(n: nat, step: nat): nat
    requires step > 0
  {
    (n + step - 1) / step * step
  }

  /** zoneindex: the index and the chunk size for a request of `n` bytes */
  function ZoneIndex(n: nat): (nat, nat)
    requires 0 < n < 16384
  {
    if n < 128 then (var m := RoundUp(n, 8); (m / 8 - 1, m))
    else if n < 256 then (var m := RoundUp(n, 16); (m / 16 + 7, m))
    else if n < 512 then (var m := RoundUp(n, 32); (m / 32 + 15, m))
    else if n < 1024 then (var m := RoundUp(n, 64); (m / 64 + 23, m))
    else if n < 2048 then (var m := RoundUp(n, 128); (m / 128 + 31, m))
    else if n < 4096 then (var m := RoundUp(n, 256); (m / 256 + 39, m))
    else if n < 8192 then (var m := RoundUp(n, 512); (m / 512 + 47, m))
    else (var m := RoundUp(n, 1024); (m / 1024 + 55, m))
  }

  /** The chunk size of a zone index, stated on its own: sixteen classes eight bytes apart,
      then eight for each doubling. */
  function ChunkSize(index: nat): (size: nat)
    ensures size > 0
  {
    if index < 16 then 8 * (index + 1)
    else if index < 24 then 16 * (index - 7)
    else if index < 32 then 32 * (index - 15)
    else if index < 40 then 64 * (index - 23)
    else if index < 48 then 128 * (index - 31)
    else if index < 56 then 256 * (index - 39)
    else if index < 64 then 512 * (index - 47)
    else 1024 * (index - 55)
  }

  /** The class of a request is the least one whose chunks hold it: the size written back is
      that class's, it covers the request, and the class below does not. */
  lemma ZoneIndexFits(n: nat)
    requires 0 < n < 16384
    ensures var (index, size) := ZoneIndex(n);
            && 0 <= index < NZONES && size == ChunkSize(index) && n <= size
            && (index > 0 ==> ChunkSize(index - 1) < n)
  {
    hide RoundUp;
    if n < 128 {
      RoundedTo(n, 8);
    } else if n < 256 {
      RoundedTo(n, 16);
    } else if n < 512 {
      RoundedTo(n, 32);
    } else if n < 1024 {
      RoundedTo(n, 64);
    } else if n < 2048 {
      RoundedTo(n, 128);
    } else if n < 4096 {
      RoundedTo(n, 256);
    } else if n < 8192 {
      RoundedTo(n, 512);
    } else {
      RoundedTo(n, 1024);
    }
  }

  /** A request below the zone limit gets chunks no larger than the limit. */
  lemma {:induction false} ClassBelowLimit(n: nat, limit: nat)
    requires 0 < n < limit && limit in {8192, 16384}
    ensures ZoneIndex(n).0 < NZONES && ChunkSize(ZoneIndex(n).0) <= limit
  {
    hide ZoneIndex;
    ZoneIndexFits(n);
    assert ChunkSize(63) == 8192 && ChunkSize(71) == 16384;
  }

  lemma RoundedTo(n: nat, step: nat)
    requires step > 0
    ensures RoundUp(n, step) == RoundUp(n, step) / step * step && n <= RoundUp(n, step) < n + step
  {
    var q := (n + step - 1) / step;
    DivMod(q, step, 0);
  }

  /** At most an eighth is wasted above the smallest classes. */
  lemma WasteBounded(n: nat)
    requires 128 <= n < 16384
    ensures 8 * (ZoneIndex(n).1 - n) < n
  {
    hide RoundUp;
    if n < 256 {
      RoundedTo(n, 16);
    } else if n < 512 {
      RoundedTo(n, 32);
    } else if n < 1024 {
      RoundedTo(n, 64);
    } else if n < 2048 {
      RoundedTo(n, 128);
    } else if n < 4096 {
      RoundedTo(n, 256);
    } else if n < 8192 {
      RoundedTo(n, 512);
    } else {
      RoundedTo(n, 1024);
    }
  }

  // ----- one zone -----

  /** `free` is the chunk list, newest first; chunks above `uindex` have never been used. */
  datatype Zone = Zone(index: nat, nmax: nat, nfree: int, uindex: int, free: seq<int>)

  /** Every chunk is exactly one of live, free-listed and never used, and `nfree` counts the
      last two. */
  ghost predicate ZoneOk(z: Zone, live: set<int>) {
    && 0 <= z.uindex < z.nmax && Distinct(z.free)
    && (forall c :: c in z.free ==> 0 <= c <= z.uindex && c !in live)
    && (forall c :: c in live ==> 0 <= c <= z.uindex)
    && (forall c :: 0 <= c <= z.uindex ==> c in live || c in z.free)
    && z.nfree == |z.free| + z.nmax - 1 - z.uindex
  }

  function FreshZone(index: nat, nmax: nat): Zone {
    Zone(index, nmax, nmax - 1, 0, [])
  }

  lemma FreshZoneOk(index: nat, nmax: nat)
    requires nmax > 0
    ensures ZoneOk(FreshZone(index, nmax), {0})
  {
  }

  /** The chunk rt_malloc takes from a zone with free chunks: never used ones first. */
  function Chunk(z: Zone): int
    requires z.uindex + 1 != z.nmax || z.free != []
  {
    if z.uindex + 1 != z.nmax then z.uindex + 1 else z.free[0]
  }

  function TakeChunk(z: Zone): Zone
    requires z.uindex + 1 != z.nmax || z.free != []
  {
    if z.uindex + 1 != z.nmax then z.(nfree := z.nfree - 1, uindex := z.uindex + 1)
    else z.(nfree := z.nfree - 1, free := z.free[1..])
  }

  lemma {:induction false} HasChunk(z: Zone, live: set<int>)
    requires ZoneOk(z, live) && z.nfree > 0
    ensures z.uindex + 1 != z.nmax || z.free != []
  {
  }

  /** A chunk that is taken was not live. */
  lemma {:induction false} TakeChunkOk(z: Zone, live: set<int>)
    requires ZoneOk(z, live) && z.nfree > 0
    ensures z.uindex + 1 != z.nmax || z.free != []
    ensures Chunk(z) !in live && 0 <= Chunk(z) < z.nmax && ZoneOk(TakeChunk(z), live + {Chunk(z)})
  {
    if z.uindex + 1 == z.nmax {
      assert z.free[0] in z.free;
      assert z.free[1..] == RemoveAt(z.free, 0);
      RemoveAtMembers(z.free, 0);
    }
  }

  function PutChunk(z: Zone, c: int): Zone {
    z.(nfree := z.nfree + 1, free := [c] + z.free)
  }

  lemma {:induction false} PutChunkOk(z: Zone, live: set<int>, c: int)
    requires ZoneOk(z, live) && c in live
    ensures ZoneOk(PutChunk(z, c), live - {c})
  {
    SpliceMembers(z.free, 0, c);
    assert [c] + z.free == Splice(z.free, 0, c);
  }

  /** A zone is wholly free exactly when no chunk is live. */
  lemma {:induction false} WholeIff(z: Zone, live: set<int>)
    requires ZoneOk(z, live)
    ensures z.nfree == z.nmax <==> live == {}
  {
    hide Distinct, SetOf;
    var used := UpTo(z.uindex);
    UpToSize(z.uindex);
    var listed := SetOf(z.free);
    SetOfMembers(z.free);
    SetOfSize(z.free);
    forall c ensures c in used <==> c in listed + live {
    }
    assert used == listed + live;
    DisjointSizes(listed, live, used);
  }

  lemma DisjointSizes(a: set<int>, b: set<int>, c: set<int>)
    requires a !! b && c == a + b
    ensures |a| + |b| == |c| && (|b| == 0 <==> b == {})
  {
  }

  /** The numbers from 0 to `n`. */
  function UpTo(n: int): (s: set<int>)
    ensures forall c :: c in s <==> 0 <= c <= n
    decreases n + 1
  {
    if n < 0 then {} else UpTo(n - 1) + {n}
  }

  lemma UpToSize(n: int)
    requires n >= -1
    ensures |UpTo(n)| == n + 1
    decreases n + 1
  {
    if n >= 0 {
      UpToSize(n - 1);
    }
  }

  function SetOf(s: seq<int>): set<int> {
    if s == [] then {} else SetOf(s[1..]) + {s[0]}
  }

  lemma {:induction false} SetOfMembers(s: seq<int>)
    ensures forall c :: c in SetOf(s) <==> c in s
    decreases |s|
  {
    if s != [] {
      SetOfMembers(s[1..]);
      assert s == [s[0]] + s[1..];
    }
  }

  lemma {:induction false} SetOfSize(s: seq<int>)
    requires Distinct(s)
    ensures |SetOf(s)| == |s|
    decreases |s|
  {
    if s != [] {
      var t := s[1..];
      SetOfMembers(t);
      assert s[0] !in t;
      SetOfSize(t);
    }
  }

  // ----- where chunks lie -----

  predicate PowerOfTwo(n: nat) {
    exists k :: 0 <= k < 15 && n == Power(k)
  }

  function Power(k: nat): (p: nat)
    ensures p > 0
  {
    if k == 0 then 1 else 2 * Power(k - 1)
  }

  /** The offset of the chunk array: rounded to the chunk size for sizes that are powers of
      two, to eight bytes otherwise. */
  function Offset(size: nat): (off: nat)
    requires size > 0
    ensures off >= ZONE_HEADER
  {
    if PowerOfTwo(size) then RoundUpCovers(ZONE_HEADER, size); RoundUp(ZONE_HEADER, size) else 40
  }

  lemma RoundUpCovers(n: nat, step: nat)
    requires step > 0
    ensures n <= RoundUp(n, step) && RoundUp(n, step) % step == 0
  {
    var q := (n + step - 1) / step;
    assert q * step == RoundUp(n, step) && (n + step - 1) == q * step + (n + step - 1) % step;
    MultipleMod(q, step);
  }

  function ZoneChunks(zoneSize: nat, size: nat): nat
    requires size > 0 && Offset(size) <= zoneSize
  {
    (zoneSize - Offset(size)) / size
  }

  /** The address of a chunk's byte, from the zone's own. */
  function ByteAt(size: nat, c: nat, d: nat): nat
    requires size > 0
  {
    Offset(size) + c * size + d
  }

  /** Every byte of every chunk lies behind the header and inside the zone. */
  lemma ChunkInside(zoneSize: nat, size: nat, c: nat, d: nat)
    requires size > 0 && Offset(size) <= zoneSize && c < ZoneChunks(zoneSize, size) && d < size
    ensures ZONE_HEADER <= ByteAt(size, c, d) < zoneSize
  {
    var n := ZoneChunks(zoneSize, size);
    MulMono(c + 1, n, size);
    assert n * size <= zoneSize - Offset(size);
    assert (c + 1) * size == c * size + size;
    assert c * size >= 0;
  }

  lemma {:induction false} ChunkNumber(size: nat, c: nat)
    requires size > 0
    ensures (ByteAt(size, c, 0) - Offset(size)) / size == c
  {
    DivMod(c, size, 0);
  }

  lemma {:induction false} ChunksApart(size: nat, c: nat, d: nat, e: nat, f: nat)
    requires d < size && f < size && c != e
    ensures ByteAt(size, c, d) != ByteAt(size, e, f)
  {
    hide Offset;
    MulOrder(c, e, size);
    MulOrder(e, c, size);
  }

  /** Chunks whose size is a power of two are aligned to it exactly if the zone is. */
  lemma AlignedWithZone(zone: nat, size: nat, c: nat)
    requires PowerOfTwo(size) && size > 0
    ensures (zone + ByteAt(size, c, 0)) % size == 0 <==> zone % size == 0
  {
    RoundUpCovers(ZONE_HEADER, size);
    var off := Offset(size);
    var q := off / size;
    assert off == q * size;
    assert off + c * size == (q + c) * size;
    AddMultiple(zone, q + c, size);
  }

  /** Page numbers times the page size are multiples of a power of two, all of them, if and only
      if it is at most a page. This is the alignment of the requests that get whole pages. */
  lemma {:induction false} PagesAlignedIff(k: nat)
    ensures (forall z: nat :: z * PAGE % Power(k) == 0) <==> Power(k) <= PAGE
  {
    hide Power;
    PowersDivide(k);
    if Power(k) <= PAGE {
      forall z: nat ensures z * PAGE % Power(k) == 0 {
        var q := PAGE / Power(k);
        assert PAGE == q * Power(k);
        MulAssociates(z, q, Power(k));
        MultipleMod(z * q, Power(k));
      }
    } else {
      assert 1 * PAGE % Power(k) == PAGE;
    }
  }

  /** A page is a power of two, so every smaller one divides it. */
  lemma {:induction false} PowersDivide(k: nat)
    ensures Power(k) <= PAGE ==> PAGE % Power(k) == 0
  {
    hide Power;
    PowersTo13();
    if k >= 13 {
      PowerGrows(13, k);
    } else {
      assert k in {0, 1, 2, 3, 4, 5, 6, 7, 8, 9, 10, 11, 12};
    }
  }

  lemma PowersTo13()
    ensures Power(0) == 1 && Power(1) == 2 && Power(2) == 4 && Power(3) == 8 && Power(4) == 16 && Power(5) == 32
    ensures Power(6) == 64 && Power(7) == 128 && Power(8) == 256 && Power(9) == 512 && Power(10) == 1024
    ensures Power(11) == 2048 && Power(12) == 4096 && Power(13) == 8192
  {
    assert Power(4) == 16;
    assert Power(8) == 256;
    assert Power(12) == 4096;
  }

  lemma {:induction false} PowerGrows(j: nat, k: nat)
    requires j <= k
    ensures Power(j) <= Power(k)
    decreases k
  {
    if j < k {
      PowerGrows(j, k - 1);
    }
  }

  /** The address of chunk `c` of a zone at page `z`. */
  function ChunkAddress(z: nat, size: nat, c: nat): nat
    requires size > 0
  {
    z * PAGE + ByteAt(size, c, 0)
  }

  /** Every chunk of every zone is aligned to its power-of-two size if and only if that is at most
      a page. */
  lemma {:induction false} ChunksAlignedIff(k: nat)
    requires k < 15
    ensures (forall z: nat, c: nat :: ChunkAddress(z, Power(k), c) % Power(k) == 0) <==> Power(k) <= PAGE
  {
    hide Power, ByteAt;
    PagesAlignedIff(k);
    var size := Power(k);
    assert PowerOfTwo(size);
    forall z: nat, c: nat ensures ChunkAddress(z, size, c) % size == 0 <==> z * PAGE % size == 0 {
      AlignedWithZone(z * PAGE, size, c);
    }
    if forall z: nat, c: nat :: ChunkAddress(z, size, c) % size == 0 {
      forall z: nat ensures z * PAGE % size == 0 {
        assert ChunkAddress(z, size, 0) % size == 0;
      }
    }
  }

  /** Where rt_malloc can put a request of `n` bytes: in a chunk of a zone at page `z`, or for a
      large request at page `z` itself. */
  ghost function AddressOf(n: nat, limit: nat, z: nat, c: nat): nat
    requires 0 < n && limit in {8192, 16384}
  {
    if n < limit then ZoneIndexFits(n); ChunkAddress(z, ZoneIndex(n).1, c) else z * PAGE
  }

  /** The promise that power-of-two requests are aligned to their size holds, wherever the zones
      and pages are, if and only if the request is for at most a page. */
  lemma {:induction false} AlignedIff(k: nat, limit: nat)
    requires limit in {8192, 16384}
    ensures (forall z: nat, c: nat :: AddressOf(Power(k), limit, z, c) % Power(k) == 0) <==> Power(k) <= PAGE
  {
    hide Power, ByteAt, ZoneIndex;
    var n := Power(k);
    if n < limit {
      PowerBelow(k);
      PowerClass(k);
      SmallAligned(k, limit);
    } else {
      PagesAlignedIff(k);
      assert n > PAGE;
      var z: nat :| z * PAGE % n != 0;
      assert AddressOf(n, limit, z, 0) == z * PAGE;
    }
  }

  lemma {:induction false} SmallAligned(k: nat, limit: nat)
    requires limit in {8192, 16384} && 0 < Power(k) < limit && k < 14
    requires ZoneIndex(Power(k)).1 == if k < 3 then 8 else Power(k)
    ensures (forall z: nat, c: nat :: AddressOf(Power(k), limit, z, c) % Power(k) == 0) <==> Power(k) <= PAGE
  {
    hide Power, ByteAt, ZoneIndex, ChunkAddress;
    var n := Power(k);
    if k < 3 {
      ChunksAlignedIff(3);
      PowersTo13();
      forall z: nat, c: nat ensures AddressOf(n, limit, z, c) % n == 0 {
        assert ChunkAddress(z, Power(3), c) % Power(3) == 0;
        EightSuffices(ChunkAddress(z, 8, c), k);
      }
      assert n <= PAGE;
    } else {
      ChunksAlignedIff(k);
      forall z: nat, c: nat ensures AddressOf(n, limit, z, c) == ChunkAddress(z, n, c) {
      }
    }
  }

  lemma {:induction false} EightSuffices(x: nat, k: nat)
    requires k < 3 && x % 8 == 0
    ensures x % Power(k) == 0
  {
    hide Power;
    PowersTo13();
    var q := x / 8;
    var m := if k == 0 then 8 else if k == 1 then 4 else 2;
    assert x == (m * q) * Power(k) by {
      assert x == 8 * q;
    }
    MultipleMod(m * q, Power(k));
  }

  lemma {:induction false} PowerBelow(k: nat)
    requires Power(k) < 16384
    ensures k < 14
  {
    if k >= 14 {
      PowersTo13();
      PowerGrows(14, k);
    }
  }

  /** A power of two from 8 on is its own chunk size. */
  lemma {:induction false} PowerClass(k: nat)
    requires k < 14
    ensures 0 < Power(k) < 16384 && ZoneIndex(Power(k)).1 == if k < 3 then 8 else Power(k)
  {
    hide Power;
    PowersTo13();
    assert k in {0, 1, 2, 3, 4, 5, 6, 7, 8, 9, 10, 11, 12, 13};
  }

  /** With zones of 64 KiB, a request for 8192 bytes from a zone at page 1 gets an address that is
      not a multiple of 8192. */
  lemma MisalignedChunk()
    ensures AddressOf(8192, 16384, 1, 0) % 8192 != 0
  {
    assert ZoneIndex(8192).1 == 8192;
    PowersTo13();
    assert PowerOfTwo(8192);
    AlignedWithZone(4096, 8192, 0);
  }

  /** A zone has room for three chunks at least of any size up to a quarter of it, so that it
      still has free chunks when its first one is handed out. */
  lemma ThreeChunks(zoneSize: nat, size: nat)
    requires 0 < size && 4 * size <= zoneSize && MIN_PAGES * PAGE <= zoneSize
    ensures Offset(size) <= zoneSize && ZoneChunks(zoneSize, size) >= 3
  {
    hide Offset, PowerOfTwo;
    OffsetSmall(size);
    AtLeast(zoneSize - Offset(size), size, 3);
  }

  lemma OffsetSmall(size: nat)
    requires size > 0
    ensures Offset(size) <= size || (Offset(size) <= 71 && size < 40)
  {
    hide PowerOfTwo;
    if size < ZONE_HEADER {
      RoundedTo(ZONE_HEADER, size);
    } else {
      DivMod(1, size, ZONE_HEADER - 1);
    }
  }
}
