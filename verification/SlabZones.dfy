/** The lists of slab zones: those with free chunks by size class, the wholly free ones, and the
    table that leads from a page to its zone. */
module SlabZones {
  import opened Sequences
  import opened SlabModel

  /** A page's memusage entry: free, at an offset into a zone, or the first of a large allocation. */
  datatype Usage = Other | Small(offset: int) | Large(count: int)

  /** `pages` is the number of pages of a zone; `live` the chunks in use. */
  datatype State = State(pages: nat, zones: map<int, Zone>, lists: seq<seq<int>>, freeZones: seq<int>,
                         usage: map<int, Usage>, live: map<int, set<int>>)

  // ----- the class lists -----

  ghost predicate RowOk(row: seq<int>, i: nat, zones: map<int, Zone>) {
    Distinct(row) && forall p :: p in row ==> p in zones && zones[p].index == i && zones[p].nfree > 0
  }

  ghost predicate RowsOk(lists: seq<seq<int>>, zones: map<int, Zone>) {
    forall i :: 0 <= i < |lists| ==> RowOk(lists[i], i, zones)
  }

  ghost predicate IsLinked(lists: seq<seq<int>>, zones: map<int, Zone>, p: int) {
    p in zones && zones[p].index < |lists| && p in lists[zones[p].index]
  }

  /** A zone is in the list of its class, once, exactly if it has free chunks. */
  ghost predicate Listed(lists: seq<seq<int>>, zones: map<int, Zone>) {
    RowsOk(lists, zones) && forall p :: p in zones && zones[p].nfree > 0 ==> IsLinked(lists, zones, p)
  }

  ghost predicate ListedBut(lists: seq<seq<int>>, zones: map<int, Zone>, z: int) {
    && RowsOk(lists, zones) && (forall i :: 0 <= i < |lists| ==> z !in lists[i])
    && forall p :: p in zones && zones[p].nfree > 0 && p != z ==> IsLinked(lists, zones, p)
  }

  lemma {:induction false} TakeOut(lists: seq<seq<int>>, zones: map<int, Zone>, i: nat, k: nat)
    requires Listed(lists, zones) && i < |lists| && k < |lists[i]|
    ensures ListedBut(lists[i := RemoveAt(lists[i], k)], zones, lists[i][k])
  {
    var z, lists' := lists[i][k], lists[i := RemoveAt(lists[i], k)];
    assert RowOk(lists[i], i, zones) && z in lists[i];
    RemoveAtMembers(lists[i], k);
    forall j | 0 <= j < |lists'| ensures RowOk(lists'[j], j, zones) && z !in lists'[j] {
      assert RowOk(lists[j], j, zones);
    }
    forall p | p in zones && zones[p].nfree > 0 && p != z ensures IsLinked(lists', zones, p) {
      assert IsLinked(lists, zones, p);
    }
  }

  lemma {:induction false} AlreadyOut(lists: seq<seq<int>>, zones: map<int, Zone>, z: int)
    requires Listed(lists, zones) && (z in zones ==> zones[z].nfree <= 0)
    ensures ListedBut(lists, zones, z)
  {
    forall j | 0 <= j < |lists| ensures z !in lists[j] {
      assert RowOk(lists[j], j, zones);
    }
  }

  /** The fields of an unlisted zone do not matter to the lists, nor does its removal. */
  lemma {:induction false} OutFrame(lists: seq<seq<int>>, zones: map<int, Zone>, z: int, x: Zone)
    requires ListedBut(lists, zones, z)
    ensures ListedBut(lists, zones[z := x], z) && Listed(lists, zones - {z})
  {
    forall j | 0 <= j < |lists| ensures RowOk(lists[j], j, zones[z := x]) && RowOk(lists[j], j, zones - {z}) {
      assert RowOk(lists[j], j, zones);
    }
    forall p | p in zones && zones[p].nfree > 0 && p != z ensures IsLinked(lists, zones[z := x], p) && IsLinked(lists, zones - {z}, p) {
      assert IsLinked(lists, zones, p);
    }
  }

  lemma {:induction false} PutFirst(lists: seq<seq<int>>, zones: map<int, Zone>, z: int)
    requires ListedBut(lists, zones, z) && z in zones && zones[z].index < |lists| && zones[z].nfree > 0
    ensures var i := zones[z].index; Listed(lists[i := [z] + lists[i]], zones)
  {
    var i := zones[z].index;
    var lists' := lists[i := [z] + lists[i]];
    SpliceMembers(lists[i], 0, z);
    assert [z] + lists[i] == Splice(lists[i], 0, z);
    forall j | 0 <= j < |lists'| ensures RowOk(lists'[j], j, zones) {
      assert RowOk(lists[j], j, zones);
    }
    forall p | p in zones && zones[p].nfree > 0 ensures IsLinked(lists', zones, p) {
      assert p != z ==> IsLinked(lists, zones, p);
    }
  }

  lemma {:induction false} StayOut(lists: seq<seq<int>>, zones: map<int, Zone>, z: int)
    requires ListedBut(lists, zones, z) && (z in zones ==> zones[z].nfree <= 0)
    ensures Listed(lists, zones)
  {
  }

  /** A listed zone that keeps its class and some free chunk stays where it is. */
  lemma {:induction false} UpdateListed(lists: seq<seq<int>>, zones: map<int, Zone>, z: int, x: Zone)
    requires Listed(lists, zones) && z in zones && zones[z].nfree > 0 && x.nfree > 0 && x.index == zones[z].index
    ensures Listed(lists, zones[z := x])
  {
    forall j | 0 <= j < |lists| ensures RowOk(lists[j], j, zones[z := x]) {
      assert RowOk(lists[j], j, zones);
    }
    forall p | p in zones && zones[z := x][p].nfree > 0 ensures IsLinked(lists, zones[z := x], p) {
      assert IsLinked(lists, zones, p);
    }
  }

  // ----- invariant -----

  ghost predicate Owned(s: State, p: int) {
    p in s.zones || p in s.freeZones
  }

  /** A zone's class is one of the small ones, and it has the chunks that fit. */
  ghost predicate Shaped(z: Zone, zoneSize: nat) {
    && z.index < NZONES && 4 * ChunkSize(z.index) <= zoneSize
    && Offset(ChunkSize(z.index)) <= zoneSize && z.nmax == ZoneChunks(zoneSize, ChunkSize(z.index))
  }

  ghost predicate ZonesOk(zones: map<int, Zone>, live: map<int, set<int>>, zoneSize: nat) {
    && live.Keys == zones.Keys
    && forall p :: p in zones ==> ZoneOk(zones[p], live[p]) && Shaped(zones[p], zoneSize)
  }

  ghost predicate FreeOk(s: State) {
    Distinct(s.freeZones) && forall p :: p in s.freeZones ==> p !in s.zones
  }

  /** Zones do not overlap, and every page of one leads back to it. */
  ghost predicate Mapped(s: State) {
    && (forall p :: Owned(s, p) ==> p >= 0)
    && (forall p, q :: Owned(s, p) && Owned(s, q) && p != q ==> p + s.pages <= q || q + s.pages <= p)
    && (forall p, k :: Owned(s, p) && 0 <= k < s.pages ==> LeadsTo(s.usage, p, k))
  }

  ghost predicate LeadsTo(usage: map<int, Usage>, p: int, k: int) {
    p + k in usage && usage[p + k] == Small(k)
  }

  ghost predicate Inv(s: State) {
    && s.pages >= MIN_PAGES && |s.lists| == NZONES && ZonesOk(s.zones, s.live, s.pages * PAGE) && Listed(s.lists, s.zones) && FreeOk(s) && Mapped(s)
  }

  // ----- malloc -----

  /** A chunk from the first zone of class `i` */
  ghost function Take(s: State, i: nat): State
    requires Inv(s) && i < NZONES && s.lists[i] != []
  {
    FirstHasChunk(s, i);
    var z := s.lists[i][0];
    var x := TakeChunk(s.zones[z]);
    s.(zones := s.zones[z := x], lists := if x.nfree == 0 then s.lists[i := s.lists[i][1..]] else s.lists,
       live := s.live[z := s.live[z] + {Chunk(s.zones[z])}])
  }

  lemma {:induction false} FirstHasChunk(s: State, i: nat)
    requires Inv(s) && i < NZONES && s.lists[i] != []
    ensures var z := s.lists[i][0];
            && z in s.zones && z in s.live && s.zones[z].nfree > 0 && s.zones[z].index == i
            && (s.zones[z].uindex + 1 != s.zones[z].nmax || s.zones[z].free != [])
  {
    var z := s.lists[i][0];
    assert RowOk(s.lists[i], i, s.zones) && z in s.lists[i];
    HasChunk(s.zones[z], s.live[z]);
  }

  lemma {:induction false} SetZone(zones: map<int, Zone>, live: map<int, set<int>>, zoneSize: nat, z: int, x: Zone, l: set<int>)
    requires ZonesOk(zones, live, zoneSize) && ZoneOk(x, l) && Shaped(x, zoneSize)
    ensures ZonesOk(zones[z := x], live[z := l], zoneSize)
  {
  }

  /** The chunk handed out was not live, and the invariant holds again. */
  lemma {:induction false} TakeKeepsInv(s: State, i: nat)
    requires Inv(s) && i < NZONES && s.lists[i] != []
    ensures Inv(Take(s, i))
    ensures var z := s.lists[i][0];
            z in s.zones && Chunk(s.zones[z]) !in s.live[z] && Take(s, i).live == s.live[z := s.live[z] + {Chunk(s.zones[z])}]
  {
    hide ZoneOk, Shaped, Listed, ListedBut;
    FirstHasChunk(s, i);
    var z := s.lists[i][0];
    var x := TakeChunk(s.zones[z]);
    ZoneOkOf(s, z);
    TakeChunkOk(s.zones[z], s.live[z]);
    SetZone(s.zones, s.live, s.pages * PAGE, z, x, s.live[z] + {Chunk(s.zones[z])});
    if x.nfree == 0 {
      TakeOut(s.lists, s.zones, i, 0);
      assert RemoveAt(s.lists[i], 0) == s.lists[i][1..];
      OutFrame(s.lists[i := s.lists[i][1..]], s.zones, z, x);
      StayOut(s.lists[i := s.lists[i][1..]], s.zones[z := x], z);
    } else {
      UpdateListed(s.lists, s.zones, z, x);
    }
    SameOwned(s, Take(s, i));
  }

  lemma ZoneOkOf(s: State, z: int)
    requires Inv(s) && z in s.zones
    ensures z in s.live && ZoneOk(s.zones[z], s.live[z]) && Shaped(s.zones[z], s.pages * PAGE)
  {
  }

  lemma {:induction false} SameOwned(s: State, s': State)
    requires FreeOk(s) && Mapped(s) && s'.zones.Keys == s.zones.Keys && s'.freeZones == s.freeZones && s'.usage == s.usage && s'.pages == s.pages
    ensures FreeOk(s') && Mapped(s')
  {
    assert forall p :: Owned(s', p) <==> Owned(s, p);
  }

  /** A zone for class `i` at page `z`; its first chunk is handed out. */
  ghost function AddZone(s: State, i: nat, z: int): State
    requires CanHold(s, i)
  {
    var size := ChunkSize(i);
    ThreeChunks(s.pages * PAGE, size);
    s.(zones := s.zones[z := FreshZone(i, ZoneChunks(s.pages * PAGE, size))], lists := s.lists[i := [z] + s.lists[i]],
       live := s.live[z := {0}])
  }

  ghost predicate CanHold(s: State, i: nat) {
    s.pages >= MIN_PAGES && |s.lists| == NZONES && i < NZONES && 4 * ChunkSize(i) <= s.pages * PAGE
  }

  lemma {:induction false} AddZoneKeeps(s: State, i: nat, z: int)
    requires CanHold(s, i) && ZonesOk(s.zones, s.live, s.pages * PAGE) && Listed(s.lists, s.zones) && z !in s.zones
    ensures var s' := AddZone(s, i, z);
            |s'.lists| == NZONES && ZonesOk(s'.zones, s'.live, s'.pages * PAGE) && Listed(s'.lists, s'.zones)
  {
    hide ZoneOk, Listed, ListedBut, Offset, ZoneChunks, ChunkSize;
    ThreeChunks(s.pages * PAGE, ChunkSize(i));
    var x := FreshZone(i, ZoneChunks(s.pages * PAGE, ChunkSize(i)));
    FreshZoneOk(i, x.nmax);
    SetZone(s.zones, s.live, s.pages * PAGE, z, x, {0});
    AlreadyOut(s.lists, s.zones, z);
    OutFrame(s.lists, s.zones, z, x);
    PutFirst(s.lists, s.zones[z := x], z);
  }

  /** rt_malloc when no zone of the class has free chunks, reusing a wholly free zone */
  ghost function Reuse(s: State, i: nat): State
    requires CanHold(s, i) && s.freeZones != []
  {
    AddZone(s.(freeZones := s.freeZones[1..]), i, s.freeZones[0])
  }

  lemma {:induction false} ReuseKeepsInv(s: State, i: nat)
    requires Inv(s) && CanHold(s, i) && s.freeZones != []
    ensures Inv(Reuse(s, i)) && s.freeZones[0] !in s.zones
  {
    hide ZonesOk, Listed, ChunkSize;
    var z, s1 := s.freeZones[0], s.(freeZones := s.freeZones[1..]);
    assert z in s.freeZones;
    AddZoneKeeps(s1, i, z);
    assert s.freeZones[1..] == RemoveAt(s.freeZones, 0);
    RemoveAtMembers(s.freeZones, 0);
    var s' := AddZone(s1, i, z);
    assert forall p :: Owned(s', p) <==> Owned(s, p);
  }

  /** The page table with the pages of zone `z` entered. */
  function Entered(usage: map<int, Usage>, z: int, n: nat): map<int, Usage> {
    if n == 0 then usage else Entered(usage, z, n - 1)[z + n - 1 := Small(n - 1)]
  }

  lemma {:induction false} EnteredAt(usage: map<int, Usage>, z: int, n: nat)
    ensures forall k :: 0 <= k < n ==> LeadsTo(Entered(usage, z, n), z, k)
    ensures forall p :: p in usage && !(z <= p < z + n) ==> p in Entered(usage, z, n) && Entered(usage, z, n)[p] == usage[p]
  {
    if n > 0 {
      EnteredAt(usage, z, n - 1);
      forall k | 0 <= k < n ensures LeadsTo(Entered(usage, z, n), z, k) {
        assert k < n - 1 ==> LeadsTo(Entered(usage, z, n - 1), z, k);
      }
    }
  }

  /** The same with pages just allocated. */
  ghost function Fresh(s: State, i: nat, z: int): State
    requires CanHold(s, i)
  {
    AddZone(s.(usage := Entered(s.usage, z, s.pages)), i, z)
  }

  /** Pages the page allocator may hand out: none of them is in a zone. */
  ghost predicate Spare(s: State, z: int) {
    z >= 0 && forall p :: Owned(s, p) ==> p + s.pages <= z || z + s.pages <= p
  }

  lemma {:induction false} FreshKeepsInv(s: State, i: nat, z: int)
    requires Inv(s) && CanHold(s, i) && Spare(s, z)
    ensures Inv(Fresh(s, i, z)) && z !in s.zones
  {
    hide ZonesOk, Listed, Entered, ChunkSize;
    assert !Owned(s, z);
    var s1 := s.(usage := Entered(s.usage, z, s.pages));
    AddZoneKeeps(s1, i, z);
    EnteredAt(s.usage, z, s.pages);
    var s' := AddZone(s1, i, z);
    forall p | Owned(s', p) ensures p >= 0 {
      assert p != z ==> Owned(s, p);
    }
    forall p, k | Owned(s', p) && 0 <= k < s'.pages ensures LeadsTo(s'.usage, p, k) {
      assert p != z ==> Owned(s, p) && LeadsTo(s.usage, p, k);
    }
    forall p, q | Owned(s', p) && Owned(s', q) && p != q ensures p + s'.pages <= q || q + s'.pages <= p {
      assert p != z ==> Owned(s, p);
      assert q != z ==> Owned(s, q);
    }
  }

  // ----- free -----

  /** Chunk `c` back on its zone's list, and a zone that had none free back on its class's. */
  ghost function PutBack(s: State, z: int, c: int): State
    requires Inv(s) && z in s.zones
  {
    ZoneOkOf(s, z);
    var x := PutChunk(s.zones[z], c);
    var i := x.index;
    s.(zones := s.zones[z := x], lists := if s.zones[z].nfree == 0 then s.lists[i := [z] + s.lists[i]] else s.lists,
       live := s.live[z := s.live[z] - {c}])
  }

  lemma {:induction false} PutBackKeepsInv(s: State, z: int, c: int)
    requires Inv(s) && z in s.zones && c in s.live[z]
    ensures Inv(PutBack(s, z, c))
  {
    hide ZoneOk, Shaped, Listed, ListedBut;
    ZoneOkOf(s, z);
    NotNegative(s.zones[z], s.live[z]);
    var x := PutChunk(s.zones[z], c);
    PutChunkOk(s.zones[z], s.live[z], c);
    SetZone(s.zones, s.live, s.pages * PAGE, z, x, s.live[z] - {c});
    if s.zones[z].nfree == 0 {
      AlreadyOut(s.lists, s.zones, z);
      OutFrame(s.lists, s.zones, z, x);
      PutFirst(s.lists, s.zones[z := x], z);
    } else {
      UpdateListed(s.lists, s.zones, z, x);
    }
    SameOwned(s, PutBack(s, z, c));
  }

  lemma NotNegative(z: Zone, live: set<int>)
    requires ZoneOk(z, live)
    ensures z.nfree >= 0
  {
  }

  /** A wholly free zone with others of its class leaves the class list, at place `k`. */
  ghost function Retired(s: State, z: int, k: nat): State
    requires Inv(s) && z in s.zones && k < |s.lists[s.zones[z].index]|
  {
    var i := s.zones[z].index;
    var s1 := s.(zones := s.zones - {z}, lists := s.lists[i := RemoveAt(s.lists[i], k)], live := s.live - {z});
    if |s.freeZones| + 1 > RELEASE_THRESHOLD then s1.(usage := Released(s.usage, z, s.pages))
    else s1.(freeZones := [z] + s.freeZones)
  }

  function Released(usage: map<int, Usage>, z: int, n: nat): map<int, Usage> {
    if n == 0 then usage else Released(usage, z, n - 1)[z + n - 1 := Other]
  }

  lemma ReleasedElsewhere(usage: map<int, Usage>, z: int, n: nat)
    ensures forall p :: p in usage && !(z <= p < z + n) ==> p in Released(usage, z, n) && Released(usage, z, n)[p] == usage[p]
  {
    if n > 0 {
      ReleasedElsewhere(usage, z, n - 1);
    }
  }

  /** Only zones without live chunks are retired, so no live chunk is lost. */
  lemma {:induction false} RetiredKeepsInv(s: State, z: int, k: nat)
    requires Inv(s) && z in s.zones && s.zones[z].nfree == s.zones[z].nmax
    requires k < |s.lists[s.zones[z].index]| && s.lists[s.zones[z].index][k] == z
    ensures Inv(Retired(s, z, k)) && s.live[z] == {}
    ensures forall p :: p in s.live && p != z ==> p in Retired(s, z, k).live && Retired(s, z, k).live[p] == s.live[p]
  {
    hide ZoneOk, Shaped, Listed, ListedBut, RemoveAt, Released;
    ZoneOkOf(s, z);
    WholeIff(s.zones[z], s.live[z]);
    var i := s.zones[z].index;
    TakeOut(s.lists, s.zones, i, k);
    OutFrame(s.lists[i := RemoveAt(s.lists[i], k)], s.zones, z, s.zones[z]);
    ReleasedElsewhere(s.usage, z, s.pages);
    RetiredMapped(s, z, k);
  }

  lemma {:induction false} RetiredMapped(s: State, z: int, k: nat)
    requires Inv(s) && z in s.zones && k < |s.lists[s.zones[z].index]|
    ensures FreeOk(Retired(s, z, k)) && Mapped(Retired(s, z, k))
  {
    hide ZonesOk, Listed, RemoveAt, Released;
    var s' := Retired(s, z, k);
    ReleasedElsewhere(s.usage, z, s.pages);
    forall p | Owned(s', p) ensures p >= 0 {
      assert Owned(s, p);
    }
    forall p, m | Owned(s', p) && 0 <= m < s'.pages ensures Owned(s, p) && LeadsTo(s'.usage, p, m) {
      assert Owned(s, p) && Owned(s, z) && LeadsTo(s.usage, p, m);
    }
    forall p, q | Owned(s', p) && Owned(s', q) && p != q ensures p + s'.pages <= q || q + s'.pages <= p {
      assert Owned(s, p) && Owned(s, q);
    }
    SpliceMembers(s.freeZones, 0, z);
    assert [z] + s.freeZones == Splice(s.freeZones, 0, z);
  }

  // ----- what is live -----

  ghost predicate IsLive(s: State, z: int, c: int) {
    z in s.live && c in s.live[z]
  }

  /** `s1` has chunk `c` of zone `z` live and otherwise what `s` has. */
  ghost predicate Adds(s: State, s1: State, z: int, c: int) {
    !IsLive(s, z, c) && forall p, d :: IsLive(s1, p, d) <==> IsLive(s, p, d) || (p == z && d == c)
  }

  lemma {:induction false} AddsChunk(s: State, s1: State, z: int, c: int)
    requires z in s.live && c !in s.live[z] && s1.live == s.live[z := s.live[z] + {c}]
    ensures Adds(s, s1, z, c)
  {
    forall p, d ensures IsLive(s1, p, d) <==> IsLive(s, p, d) || (p == z && d == c) {
    }
  }

  lemma {:induction false} AddsZone(s: State, s1: State, z: int)
    requires z !in s.live && s1.live == s.live[z := {0}]
    ensures Adds(s, s1, z, 0)
  {
    forall p, d ensures IsLive(s1, p, d) <==> IsLive(s, p, d) || (p == z && d == 0) {
    }
  }

  lemma {:induction false} Drops(s: State, s1: State, z: int, c: int)
    requires IsLive(s, z, c)
    requires s1.live == s.live[z := s.live[z] - {c}] || (s1.live == s.live - {z} && s.live[z] - {c} == {})
    ensures Adds(s1, s, z, c)
  {
    forall p, d ensures IsLive(s, p, d) <==> IsLive(s1, p, d) || (p == z && d == c) {
      assert s.live[z] - {c} == {} ==> p == z && d in s.live[z] ==> d == c by {
        assert p == z && d in s.live[z] && d != c ==> d in s.live[z] - {c};
      }
    }
  }

  datatype Chosen = NoMemory | At(zone: int, chunk: int)

  /** The chunk rt_malloc hands out for class `i`; `spare` is the page rt_page_alloc would give,
      or negative. */
  ghost function Choice(s: State, i: nat, spare: int): Chosen
    requires Inv(s) && CanHold(s, i)
  {
    if s.lists[i] != [] then FirstHasChunk(s, i); At(s.lists[i][0], Chunk(s.zones[s.lists[i][0]]))
    else if s.freeZones != [] then At(s.freeZones[0], 0)
    else if spare >= 0 then At(spare, 0)
    else NoMemory
  }

  ghost function Malloc(s: State, i: nat, spare: int): State
    requires Inv(s) && CanHold(s, i)
  {
    if s.lists[i] != [] then Take(s, i)
    else if s.freeZones != [] then Reuse(s, i)
    else if spare >= 0 then Fresh(s, i, spare)
    else s
  }

  /** rt_malloc makes one chunk live that was not, and no other chunk changes; it fails only if
      no zone of the class has room, no zone is free and there are no pages. */
  lemma {:induction false} MallocKeepsInv(s: State, i: nat, spare: int)
    requires Inv(s) && CanHold(s, i) && (spare >= 0 ==> Spare(s, spare))
    ensures Inv(Malloc(s, i, spare))
    ensures match Choice(s, i, spare) {
              case NoMemory => Malloc(s, i, spare) == s && s.freeZones == [] && spare < 0 && NoRoom(s, i)
              case At(z, c) => Adds(s, Malloc(s, i, spare), z, c)
            }
  {
    hide ZonesOk, Listed, Mapped, ChunkSize, Entered;
    if s.lists[i] != [] {
      TakeKeepsInv(s, i);
      FirstHasChunk(s, i);
      var z := s.lists[i][0];
      AddsChunk(s, Take(s, i), z, Chunk(s.zones[z]));
    } else if s.freeZones != [] {
      ReuseKeepsInv(s, i);
      KeysAgree(s);
      AddsZone(s, Reuse(s, i), s.freeZones[0]);
    } else if spare >= 0 {
      FreshKeepsInv(s, i, spare);
      KeysAgree(s);
      AddsZone(s, Fresh(s, i, spare), spare);
    } else {
      EmptyRow(s, i);
    }
  }

  lemma {:induction false} ChosenInside(s: State, i: nat, spare: int)
    requires Inv(s) && CanHold(s, i) && Choice(s, i, spare).At?
    ensures Choice(s, i, spare).chunk >= 0
  {
    hide Listed, Mapped, ChunkSize;
    if s.lists[i] != [] {
      FirstHasChunk(s, i);
      ZoneOkOf(s, s.lists[i][0]);
      TakeChunkOk(s.zones[s.lists[i][0]], s.live[s.lists[i][0]]);
    }
  }

  lemma KeysAgree(s: State)
    requires Inv(s)
    ensures s.live.Keys == s.zones.Keys
  {
  }

  /** No zone of class `i` has a free chunk. */
  ghost predicate NoRoom(s: State, i: nat) {
    forall z :: z in s.zones && s.zones[z].index == i ==> s.zones[z].nfree == 0
  }

  lemma {:induction false} EmptyRow(s: State, i: nat)
    requires Inv(s) && i < NZONES && s.lists[i] == []
    ensures NoRoom(s, i)
  {
    hide ZoneOk;
    forall z | z in s.zones && s.zones[z].index == i ensures s.zones[z].nfree == 0 {
      ZoneOkOf(s, z);
      NotNegative(s.zones[z], s.live[z]);
      assert s.zones[z].nfree > 0 ==> IsLinked(s.lists, s.zones, z);
    }
  }

  /** rt_free of chunk `c` of zone `z`. A zone that becomes wholly free is retired unless it is
      the only one listed for its class. */
  ghost function Free(s: State, z: int, c: int): State
    requires Inv(s) && IsLive(s, z, c)
  {
    KeysAgree(s);
    PutBackKeepsInv(s, z, c);
    var s1 := PutBack(s, z, c);
    PutBackLinked(s, z, c);
    var row := s1.lists[s1.zones[z].index];
    if s1.zones[z].nfree == s1.zones[z].nmax && |row| > 1 then Retired(s1, z, IndexOf(row, z)) else s1
  }

  lemma {:induction false} PutBackLinked(s: State, z: int, c: int)
    requires Inv(s) && z in s.zones && c in s.live[z]
    ensures IsLinked(PutBack(s, z, c).lists, PutBack(s, z, c).zones, z)
  {
    hide ZoneOk, Shaped;
    PutBackKeepsInv(s, z, c);
    ZoneOkOf(s, z);
    NotNegative(s.zones[z], s.live[z]);
    assert PutBack(s, z, c).zones[z].nfree > 0;
  }

  lemma {:induction false} PutBackParts(s: State, z: int, c: int)
    requires Inv(s) && z in s.zones
    ensures PutBack(s, z, c).freeZones == s.freeZones && z in PutBack(s, z, c).zones
  {
  }

  /** rt_free makes that chunk free and leaves every other live chunk live. */
  lemma {:induction false} FreeKeepsInv(s: State, z: int, c: int)
    requires Inv(s) && IsLive(s, z, c)
    ensures Inv(Free(s, z, c)) && Adds(Free(s, z, c), s, z, c)
  {
    hide ZonesOk, Listed, Mapped, Retired;
    KeysAgree(s);
    PutBackKeepsInv(s, z, c);
    PutBackLinked(s, z, c);
    var s1 := PutBack(s, z, c);
    var row := s1.lists[s1.zones[z].index];
    if s1.zones[z].nfree == s1.zones[z].nmax && |row| > 1 {
      RetiredKeepsInv(s1, z, IndexOf(row, z));
      RetiredLive(s1, z, IndexOf(row, z));
      assert s1.live - {z} == s.live - {z};
    }
    Drops(s, Free(s, z, c), z, c);
  }

  lemma RetiredLive(s: State, z: int, k: nat)
    requires Inv(s) && z in s.zones && k < |s.lists[s.zones[z].index]|
    ensures Retired(s, z, k).live == s.live - {z}
  {
  }

  // ----- which pages are in zones -----

  lemma {:induction false} MallocOwned(s: State, i: nat, spare: int)
    requires Inv(s) && CanHold(s, i)
    ensures var s' := Malloc(s, i, spare); var added := s.lists[i] == [] && s.freeZones == [] && spare >= 0;
            && s'.pages == s.pages && s'.usage == (if added then Entered(s.usage, spare, s.pages) else s.usage)
            && forall p :: Owned(s', p) <==> Owned(s, p) || (added && p == spare)
  {
    hide ZonesOk, Listed, Mapped, ChunkSize, Entered, TakeChunk, Chunk;
    if s.lists[i] != [] {
      FirstHasChunk(s, i);
    } else if s.freeZones != [] {
      assert s.freeZones == [s.freeZones[0]] + s.freeZones[1..];
    }
  }

  /** Whether rt_free gives the zone's pages back. */
  ghost predicate Releases(s: State, z: int, c: int)
    requires Inv(s) && IsLive(s, z, c)
  {
    KeysAgree(s);
    var s1 := PutBack(s, z, c);
    PutBackLinked(s, z, c);
    && s1.zones[z].nfree == s1.zones[z].nmax && |s1.lists[s1.zones[z].index]| > 1 && |s.freeZones| + 1 > RELEASE_THRESHOLD
  }

  lemma {:induction false} FreeOwned(s: State, z: int, c: int)
    requires Inv(s) && IsLive(s, z, c)
    ensures var s' := Free(s, z, c); var released := Releases(s, z, c);
            && s'.pages == s.pages && s'.usage == (if released then Released(s.usage, z, s.pages) else s.usage)
            && Owned(s, z) && forall p :: Owned(s', p) <==> Owned(s, p) && !(released && p == z)
  {
    hide ZonesOk, Listed, Mapped, Released, RemoveAt;
    KeysAgree(s);
    PutBackKeepsInv(s, z, c);
    PutBackLinked(s, z, c);
    ZoneOkOf(s, z);
    var s1 := PutBack(s, z, c);
    var i := s1.zones[z].index;
    if s1.zones[z].nfree == s1.zones[z].nmax && |s1.lists[i]| > 1 {
      RetiredOwned(s1, z, IndexOf(s1.lists[i], z));
    }
  }

  lemma {:induction false} RetiredOwned(s: State, z: int, k: nat)
    requires Inv(s) && z in s.zones && k < |s.lists[s.zones[z].index]|
    ensures var s' := Retired(s, z, k); var released := |s.freeZones| + 1 > RELEASE_THRESHOLD;
            && s'.pages == s.pages && s'.usage == (if released then Released(s.usage, z, s.pages) else s.usage)
            && forall p :: Owned(s', p) <==> Owned(s, p) && !(released && p == z)
  {
    hide ZonesOk, Listed, Mapped, Released, RemoveAt;
    assert z !in s.freeZones;
  }

  /** A page that is in no zone may get any entry. */
  lemma {:induction false} SetUsage(s: State, p: int, u: Usage)
    requires Inv(s) && forall z :: Owned(s, z) ==> p < z || z + s.pages <= p
    ensures var s' := s.(usage := s.usage[p := u]); Inv(s') && forall z :: Owned(s', z) <==> Owned(s, z)
  {
    hide ZonesOk, Listed;
    var s' := s.(usage := s.usage[p := u]);
    assert forall z :: Owned(s', z) <==> Owned(s, z);
    forall z, k | Owned(s', z) && 0 <= k < s'.pages ensures LeadsTo(s'.usage, z, k) {
      assert Owned(s, z) && LeadsTo(s.usage, z, k);
    }
  }

  /** An empty list for each class. */
  function EmptyLists(): seq<seq<int>> {
    seq(NZONES, _ => [])
  }

  function Empty(pages: nat): State {
    State(pages, map[], EmptyLists(), [], map[], map[])
  }

  lemma EmptyInv(pages: nat)
    requires pages >= MIN_PAGES
    ensures Inv(Empty(pages)) && forall z :: !Owned(Empty(pages), z)
  {
  }

  // ----- from a chunk to its zone -----

  // ----- zones keep their class -----

  /** The zone a chunk is taken from is of the class asked for, and no zone changes its class. */
  lemma {:induction false} MallocClasses(s: State, i: nat, spare: int)
    requires Inv(s) && CanHold(s, i) && (spare >= 0 ==> Spare(s, spare))
    ensures var s', chosen := Malloc(s, i, spare), Choice(s, i, spare);
            && (chosen.At? ==> chosen.zone in s'.zones && s'.zones[chosen.zone].index == i)
            && forall p :: p in s.zones ==> p in s'.zones && s'.zones[p].index == s.zones[p].index
  {
    hide ZonesOk, Listed, FreeOk, Mapped, ChunkSize, ZoneChunks, Entered;
    if s.lists[i] != [] {
      FirstHasChunk(s, i);
    } else if s.freeZones != [] {
      ReuseKeepsInv(s, i);
    } else if spare >= 0 {
      FreshKeepsInv(s, i, spare);
    }
  }

  /** A zone leaves its class if and only if the chunk freed was its last live one and the class has
      another zone with free chunks; it is then kept if fewer than two wholly free zones are, and its
      pages go back otherwise. */
  lemma {:induction false} FreeRetiresIff(s: State, z: int, c: int)
    requires Inv(s) && IsLive(s, z, c)
    ensures z in s.zones
    ensures var s' := Free(s, z, c);
            && (z !in s'.zones <==> s.live[z] == {c} && OtherRoom(s, z))
            && (z !in s'.zones ==> s'.freeZones == if |s.freeZones| < RELEASE_THRESHOLD then [z] + s.freeZones else s.freeZones)
            && (z in s'.zones ==> s'.freeZones == s.freeZones)
            && forall p :: p in s'.zones ==> p in s.zones && s'.zones[p].index == s.zones[p].index
  {
    hide ZonesOk, Listed, FreeOk, Mapped, Released, RemoveAt;
    KeysAgree(s);
    PutBackKeepsInv(s, z, c);
    PutBackParts(s, z, c);
    PutBackLinked(s, z, c);
    ZoneOkOf(PutBack(s, z, c), z);
    WholeIff(PutBack(s, z, c).zones[z], PutBack(s, z, c).live[z]);
    assert s.live[z] - {c} == {} <==> s.live[z] == {c};
    OtherRoomIff(s, z, c);
  }

  /** Another zone of the class of `z` has free chunks. */
  ghost predicate OtherRoom(s: State, z: int)
    requires z in s.zones
  {
    exists y :: y in s.zones && y != z && s.zones[y].index == s.zones[z].index && s.zones[y].nfree > 0
  }

  lemma {:induction false} OtherRoomIff(s: State, z: int, c: int)
    requires Inv(s) && z in s.zones && c in s.live[z] && Inv(PutBack(s, z, c)) && z in PutBack(s, z, c).zones
    ensures var s1 := PutBack(s, z, c); s1.zones[z].index < |s1.lists| && (|s1.lists[s1.zones[z].index]| > 1 <==> OtherRoom(s, z))
  {
    hide Mapped, FreeOk, ZonesOk;
    var s1 := PutBack(s, z, c);
    PutBackLinked(s, z, c);
    var row := s1.lists[s1.zones[z].index];
    assert RowOk(row, s1.zones[z].index, s1.zones);
    SameElsewhere(s, z, c);
    if |row| > 1 {
      var y := if row[0] == z then row[1] else row[0];
      assert row[0] != row[1] && y in row;
      assert y in s.zones && s.zones[y] == s1.zones[y];
    }
    if y :| y in s.zones && y != z && s.zones[y].index == s.zones[z].index && s.zones[y].nfree > 0 {
      assert s1.zones[y] == s.zones[y] && IsLinked(s1.lists, s1.zones, y);
      TwoMembers(row, y, z);
    }
  }

  lemma SameElsewhere(s: State, z: int, c: int)
    requires Inv(s) && z in s.zones
    ensures var s1 := PutBack(s, z, c);
            && s1.zones.Keys == s.zones.Keys && s1.zones[z].index == s.zones[z].index
            && forall y :: y in s.zones && y != z ==> s1.zones[y] == s.zones[y]
  {
  }

  lemma TwoMembers(row: seq<int>, y: int, z: int)
    requires y in row && z in row && y != z
    ensures |row| > 1
  {
    var i :| 0 <= i < |row| && row[i] == y;
    var j :| 0 <= j < |row| && row[j] == z;
  }

  /** The zone rt_free computes from the page of an address. */
  function ZoneOf(usage: map<int, Usage>, address: int): int
    requires address / PAGE in usage && usage[address / PAGE].Small?
  {
    address / PAGE - usage[address / PAGE].offset
  }

  /** Any byte of any live chunk leads to the zone the chunk is in. */
  lemma {:induction false} LookupFindsZone(s: State, z: int, c: int, d: nat)
    requires Inv(s) && IsLive(s, z, c) && d < ChunkSize(s.zones[z].index)
    ensures z >= 0 && c >= 0
    ensures var a := z * PAGE + ByteAt(ChunkSize(s.zones[z].index), c, d);
            && a / PAGE in s.usage && s.usage[a / PAGE].Small? && ZoneOf(s.usage, a) == z
  {
    hide Listed, ByteAt, ChunkSize, Offset, ZoneChunks;
    ZoneOkOf(s, z);
    var size := ChunkSize(s.zones[z].index);
    ChunkInside(s.pages * PAGE, size, c, d);
    var b := ByteAt(size, c, d);
    var a := z * PAGE + b;
    assert a / PAGE == z + b / PAGE && 0 <= b / PAGE < s.pages;
    assert Owned(s, z) && LeadsTo(s.usage, z, b / PAGE);
  }

  lemma {:induction false} DistinctRow(s: State, i: nat)
    requires Inv(s) && i < NZONES
    ensures Distinct(s.lists[i])
  {
    assert RowOk(s.lists[i], i, s.zones);
  }

  /** Bytes of different live chunks are at different addresses. */
  lemma {:induction false} LiveApart(s: State, z: int, c: int, d: nat, y: int, e: int, f: nat)
    requires Inv(s) && IsLive(s, z, c) && IsLive(s, y, e)
    requires d < ChunkSize(s.zones[z].index) && f < ChunkSize(s.zones[y].index) && (z != y || c != e)
    ensures c >= 0 && e >= 0
    ensures z * PAGE + ByteAt(ChunkSize(s.zones[z].index), c, d) != y * PAGE + ByteAt(ChunkSize(s.zones[y].index), e, f)
  {
    hide Inv, ChunkSize, ByteAt;
    KeysAgree(s);
    LookupFindsZone(s, z, c, d);
    LookupFindsZone(s, y, e, f);
    if z == y {
      ChunksApart(ChunkSize(s.zones[z].index), c, d, e, f);
    }
  }
}
