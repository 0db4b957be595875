/** What the hard-timer list means: active timers kept in the order (deadline, start
    order), with unbounded instants in place of 32-bit ticks. */
module TimerModel {
  import opened Arithmetic
  import opened Sequences
  import opened Ticks

  type TimerId = nat

  /** What `rt_timer_control` sets: the period and one-shot/periodic. */
  datatype Config = Config(init: nat, periodic: bool) {
    /** Within the assertion of `rt_timer_start`, with room for links that come up to `late` ticks
        after the deadline, and not a zero-length period. */
    predicate Sane(late: nat) { init + late < HALF && (periodic ==> init >= 1) }
  }

  /** What `rt_timer_start` reads between its critical sections. */
  datatype Reading = Reading(at: int, init: nat) {
    function Deadline(): int { at + init }
  }

  /** One activation of a timer; `seen` is the instant of the first check that can see it and
      `serial` numbers the links. */
  datatype Entry = Entry(id: TimerId, started: int, init: nat, seen: int, serial: nat, height: nat) {
    function Deadline(): int { started + init }

    /** The first check at or after the deadline that can see it. */
    function FireTime(): int { if Deadline() < seen then seen else Deadline() }
  }

  predicate Before(a: Entry, b: Entry) {
    a.Deadline() < b.Deadline() || (a.Deadline() == b.Deadline() && a.serial < b.serial)
  }

  ghost predicate Sorted(s: seq<Entry>) {
    forall i, j :: 0 <= i < j < |s| ==> Before(s[i], s[j])
  }

  ghost predicate DistinctIds(s: seq<Entry>) {
    forall i, j :: 0 <= i < j < |s| ==> s[i].id != s[j].id
  }

  /** Linear stable insertion: after every entry that is not later. */
  function Insert(s: seq<Entry>, e: Entry): (r: seq<Entry>)
    ensures |r| == |s| + 1
  {
    if s == [] || s[0].Deadline() > e.Deadline() then [e] + s else [s[0]] + Insert(s[1..], e)
  }

  /** Length of the longest prefix whose deadlines do not exceed `d`. */
  function Rank(s: seq<Entry>, d: int): (k: nat)
    ensures k <= |s|
  {
    if s == [] || s[0].Deadline() > d then 0 else 1 + Rank(s[1..], d)
  }

  function Drop(s: seq<Entry>, id: TimerId): (r: seq<Entry>)
    ensures |r| <= |s|
  {
    if s == [] then [] else if s[0].id == id then Drop(s[1..], id) else [s[0]] + Drop(s[1..], id)
  }

  /** The entries linked in a row that takes height `k` and above. */
  function Tall(s: seq<Entry>, k: int): (r: seq<Entry>)
    ensures |r| <= |s|
  {
    if s == [] then [] else if s[0].height >= k then [s[0]] + Tall(s[1..], k) else Tall(s[1..], k)
  }

  /** Row count chosen by the bits of the start counter: one more row for each
      pair of zero bits (RT_TIMER_SKIP_LIST_MASK is 3, two bits per test). */
  function Height(bits: nat, rows: nat): (h: nat)
    ensures 1 <= h && (rows >= 1 ==> h <= rows)
    decreases rows
  {
    if rows <= 1 || bits % 4 != 0 then 1 else 1 + Height(bits / 4, rows - 1)
  }

  function Four(k: nat): (p: nat)
    ensures p > 0
  {
    if k == 0 then 1 else 4 * Four(k - 1)
  }

  /** A timer is in row `k` above the bottom exactly if the lowest `k` pairs of bits are zero. */
  lemma {:induction false} HeightIff(bits: nat, rows: nat, k: nat)
    requires k < rows
    ensures Height(bits, rows) > k <==> bits % Four(k) == 0
    decreases k
  {
    if k > 0 {
      HeightIff(bits / 4, rows - 1, k - 1);
      QuarterDivides(bits, Four(k - 1));
    }
  }

  lemma {:induction false} QuarterDivides(bits: nat, p: nat)
    requires p > 0
    ensures bits % (4 * p) == 0 <==> bits % 4 == 0 && bits / 4 % p == 0
  {
    var q, r := bits / 4 / p, bits / 4 % p;
    assert bits / 4 == q * p + r && bits == 4 * (bits / 4) + bits % 4;
    var low := 4 * r + bits % 4;
    assert bits == q * (4 * p) + low && 0 <= low < 4 * p;
    DivMod(q, 4 * p, low);
  }

  // ----- insertion, removal and rows -----

  lemma RankSplits(s: seq<Entry>, d: int)
    ensures var k := Rank(s, d);
            && (forall i :: 0 <= i < k ==> s[i].Deadline() <= d)
            && (k < |s| ==> s[k].Deadline() > d)
  {
    if s != [] && s[0].Deadline() <= d {
      RankSplits(s[1..], d);
    }
  }

  lemma InsertIsSplice(s: seq<Entry>, e: Entry)
    ensures var k := Rank(s, e.Deadline()); Insert(s, e) == s[..k] + [e] + s[k..]
  {
    if s != [] && s[0].Deadline() <= e.Deadline() {
      InsertIsSplice(s[1..], e);
      var k := Rank(s[1..], e.Deadline());
      assert s[..k + 1] == [s[0]] + s[1..][..k];
      assert s[k + 1..] == s[1..][k..];
    }
  }

  lemma RankCovers(s: seq<Entry>, i: nat, d: int)
    requires Sorted(s) && i < |s| && s[i].Deadline() <= d
    ensures i < Rank(s, d)
  {
    var k := Rank(s, d);
    RankSplits(s, d);
    assert k < i ==> Before(s[k], s[i]);
  }

  lemma InsertMembers(s: seq<Entry>, e: Entry)
    ensures forall x :: x in Insert(s, e) <==> x == e || x in s
  {
    InsertIsSplice(s, e);
    var k := Rank(s, e.Deadline());
    assert s == s[..k] + s[k..];
  }

  /** The entry at place `i` after an insertion at place `k`. */
  lemma {:induction false} InsertedAt(s: seq<Entry>, e: Entry, i: nat)
    requires i <= |s|
    ensures var k := Rank(s, e.Deadline()); Insert(s, e)[i] == if i < k then s[i] else if i == k then e else s[i - 1]
  {
    hide Rank, Insert;
    InsertIsSplice(s, e);
    var k := Rank(s, e.Deadline());
    assert Insert(s, e) == Splice(s, k, e);
    SplicePlace(s, k, e, i);
  }

  lemma {:induction false} InsertSorted(s: seq<Entry>, e: Entry)
    requires Sorted(s)
    requires forall x :: x in s ==> x.serial < e.serial
    ensures Sorted(Insert(s, e))
  {
    hide Rank, Insert;
    var k := Rank(s, e.Deadline());
    var r := Insert(s, e);
    forall i, j | 0 <= i < j < |r| ensures Before(r[i], r[j]) {
      InsertedAt(s, e, i);
      InsertedAt(s, e, j);
      if i == k {
        RankOf(s, e.Deadline(), j - 1);
      } else if j == k {
        RankOf(s, e.Deadline(), i);
        assert s[i] in s;
      }
    }
  }

  lemma {:induction false} RankOf(s: seq<Entry>, d: int, i: nat)
    requires Sorted(s) && i < |s|
    ensures s[i].Deadline() <= d <==> i < Rank(s, d)
  {
    hide Rank;
    RankSplits(s, d);
    if s[i].Deadline() <= d {
      RankCovers(s, i, d);
    }
  }

  lemma {:induction false} InsertDistinct(s: seq<Entry>, e: Entry)
    requires DistinctIds(s)
    requires forall x :: x in s ==> x.id != e.id
    ensures DistinctIds(Insert(s, e))
  {
    hide Rank, Insert;
    var k := Rank(s, e.Deadline());
    var r := Insert(s, e);
    forall i, j | 0 <= i < j < |r| ensures r[i].id != r[j].id {
      InsertedAt(s, e, i);
      InsertedAt(s, e, j);
      assert i == k ==> s[j - 1] in s;
      assert j == k ==> s[i] in s;
    }
  }

  lemma DropMembers(s: seq<Entry>, id: TimerId)
    ensures forall e :: e in Drop(s, id) <==> e in s && e.id != id
  {
  }

  lemma TallMembers(s: seq<Entry>, k: int)
    ensures forall e :: e in Tall(s, k) <==> e in s && e.height >= k
  {
  }

  lemma DropSorted(s: seq<Entry>, id: TimerId)
    requires Sorted(s)
    ensures Sorted(Drop(s, id))
  {
    if s != [] {
      DropSorted(s[1..], id);
      DropMembers(s[1..], id);
      var r := Drop(s[1..], id);
      forall x | x in r ensures Before(s[0], x) {
        assert x in s[1..];
      }
      assert forall j :: 0 <= j < |r| ==> r[j] in r;
    }
  }

  lemma DropDistinct(s: seq<Entry>, id: TimerId)
    requires DistinctIds(s)
    ensures DistinctIds(Drop(s, id))
  {
    if s != [] {
      DropDistinct(s[1..], id);
      DropMembers(s[1..], id);
      var r := Drop(s[1..], id);
      forall x | x in r ensures x.id != s[0].id {
        assert x in s[1..];
      }
      assert forall j :: 0 <= j < |r| ==> r[j] in r;
    }
  }

  lemma DropAbsent(s: seq<Entry>, id: TimerId)
    requires forall x :: x in s ==> x.id != id
    ensures Drop(s, id) == s
  {
  }

  lemma DropFirst(s: seq<Entry>)
    requires DistinctIds(s) && s != []
    ensures Drop(s, s[0].id) == s[1..]
  {
    forall x | x in s[1..] ensures x.id != s[0].id {
    }
    DropAbsent(s[1..], s[0].id);
  }

  lemma TallSorted(s: seq<Entry>, k: int)
    requires Sorted(s)
    ensures Sorted(Tall(s, k))
  {
    if s != [] {
      TallSorted(s[1..], k);
      TallMembers(s[1..], k);
      var r := Tall(s[1..], k);
      forall x | x in r ensures Before(s[0], x) {
        assert x in s[1..];
      }
      assert forall j :: 0 <= j < |r| ==> r[j] in r;
    }
  }

  lemma TallDistinct(s: seq<Entry>, k: int)
    requires DistinctIds(s)
    ensures DistinctIds(Tall(s, k))
  {
    if s != [] {
      TallDistinct(s[1..], k);
      TallMembers(s[1..], k);
      var r := Tall(s[1..], k);
      forall x | x in r ensures x.id != s[0].id {
        assert x in s[1..];
      }
      assert forall j :: 0 <= j < |r| ==> r[j] in r;
    }
  }

  lemma TallAll(s: seq<Entry>, k: int)
    requires forall e :: e in s ==> e.height >= k
    ensures Tall(s, k) == s
  {
  }

  /** A higher row is a selection, in order, from any lower one. */
  lemma {:induction false} TallNests(s: seq<Entry>, low: int, high: int)
    requires low <= high
    ensures Tall(Tall(s, low), high) == Tall(s, high)
  {
    if s != [] {
      TallNests(s[1..], low, high);
      if s[0].height >= low {
        assert Tall(s, low)[1..] == Tall(s[1..], low);
      }
    }
  }

  /** A row of the skip list sees a stable insertion into the bottom row as a stable
      insertion of its own, or not at all. */
  lemma {:induction false} TallInsert(s: seq<Entry>, e: Entry, k: int)
    requires Sorted(s)
    ensures Tall(Insert(s, e), k) == if e.height >= k then Insert(Tall(s, k), e) else Tall(s, k)
  {
    if s == [] {
      assert Insert(s, e) == [e];
    } else if s[0].Deadline() > e.Deadline() {
      var r := Tall(s, k);
      TallMembers(s, k);
      if r != [] {
        assert r[0] in s;
      }
      assert Insert(s, e)[1..] == s;
    } else {
      TallInsert(s[1..], e, k);
      assert Insert(s, e)[1..] == Insert(s[1..], e);
      assert s[0].height >= k ==> Tall(s, k)[1..] == Tall(s[1..], k);
    }
  }

  lemma {:induction false} TallDrop(s: seq<Entry>, id: TimerId, k: int)
    ensures Tall(Drop(s, id), k) == Drop(Tall(s, k), id)
  {
    if s != [] {
      TallDrop(s[1..], id, k);
      if s[0].id != id {
        assert Drop(s, id)[1..] == Drop(s[1..], id);
      }
      if s[0].height >= k {
        assert Tall(s, k)[1..] == Tall(s[1..], k);
      }
    }
  }

  lemma {:induction false} RankDrop(s: seq<Entry>, id: TimerId, d: int)
    requires Sorted(s)
    ensures Rank(Drop(s, id), d) <= Rank(s, d)
    decreases |s|
  {
    if s != [] {
      if s[0].Deadline() <= d {
        RankDrop(s[1..], id, d);
        assert s[0].id != id ==> Drop(s, id)[1..] == Drop(s[1..], id);
      } else {
        DropMembers(s, id);
        var r := Drop(s, id);
        if r != [] {
          assert r[0] in s;
        }
      }
    }
  }

  /** Inserting a later deadline does not disturb the prefix up to `d`. */
  lemma InsertLate(s: seq<Entry>, e: Entry, d: int)
    requires e.Deadline() > d
    ensures var k := Rank(s, d); Rank(Insert(s, e), d) == k && Insert(s, e)[..k] == s[..k]
  {
    if s != [] && s[0].Deadline() <= d {
      InsertLate(s[1..], e, d);
      var k := Rank(s[1..], d);
      assert Insert(s, e)[1..] == Insert(s[1..], e);
      assert s[..k + 1] == [s[0]] + s[1..][..k];
      assert Insert(s, e)[..k + 1] == [s[0]] + Insert(s[1..], e)[..k];
    }
  }

  // ----- the state machine -----

  /** `armed` holds the last reading of each timer, `checking` tells whether `rt_timer_check` runs,
      `late` bounds how long after its deadline a timer is linked, and `flags` are the timers marked
      as activated. */
  datatype Model = Model(active: seq<Entry>, now: int, starts: nat, timers: map<TimerId, Config>, rows: nat,
                         armed: map<TimerId, Reading>, checking: bool, late: nat, flags: set<TimerId>) {
    /** The instant of the check that runs or comes next. */
    function NextCheck(): int { if checking then now else now + 1 }
  }

  /** Facts about an active entry that every step keeps. */
  ghost predicate Kept(m: Model, e: Entry) {
    && e.id in m.timers && e.id in m.armed && m.armed[e.id] == Reading(e.started, e.init)
    && e.started <= m.now && e.init + m.late < HALF
    && e.serial < m.starts && 1 <= e.height <= m.rows
    && e.seen <= m.NextCheck() <= e.Deadline() + m.late + 1
  }

  ghost predicate Shape(m: Model) {
    && m.rows >= 1 && m.late + 1 < HALF
    && Sorted(m.active) && DistinctIds(m.active)
    && (forall e :: e in m.active ==> Kept(m, e))
    && (forall id :: id in m.armed ==> id in m.timers && m.armed[id].at <= m.now)
  }

  ghost predicate IsActive(m: Model, id: TimerId) {
    exists e :: e in m.active && e.id == id
  }

  /** The configurations of the active timers; the others may have any. */
  ghost predicate ActiveSane(m: Model) {
    forall e :: e in m.active ==> e.id in m.timers && m.timers[e.id].Sane(m.late)
  }

  /** Nothing active should have fired already. */
  ghost predicate Timely(m: Model) {
    forall e :: e in m.active ==> m.NextCheck() <= e.FireTime()
  }

  ghost predicate Inv(m: Model) {
    Shape(m) && ActiveSane(m) && Timely(m)
  }

  /** _rt_timer_remove */
  function Unlink(m: Model, id: TimerId): Model {
    m.(active := Drop(m.active, id))
  }

  function Unflag(m: Model, id: TimerId): Model {
    m.(flags := m.flags - {id})
  }

  /** The first critical section of rt_timer_start */
  function Begin(m: Model, id: TimerId): Model {
    Unflag(Unlink(m, id), id)
  }

  /** rt_timer_stop, which does nothing to a timer that is not marked */
  function Stop(m: Model, id: TimerId): Model {
    if id in m.flags then Unflag(Unlink(m, id), id) else m
  }

  /** The reading between the sections of rt_timer_start */
  function Arm(m: Model, id: TimerId): Model
    requires id in m.timers
  {
    m.(armed := m.armed[id := Reading(m.now, m.timers[id].init)])
  }

  /** The activation that linking a timer makes. */
  function Activation(m: Model, id: TimerId): Entry
    requires id in m.armed
  {
    Entry(id, m.armed[id].at, m.armed[id].init, m.NextCheck(), m.starts, Height(Wrap(m.starts + 1), m.rows))
  }

  /** The second critical section of rt_timer_start */
  function Link(m: Model, id: TimerId): Model
    requires id in m.armed
  {
    m.(active := Insert(m.active, Activation(m, id)), starts := m.starts + 1, flags := m.flags + {id})
  }

  /** rt_timer_start when no tick comes in between */
  function Start(m: Model, id: TimerId): Model
    requires id in m.timers
  {
    Link(Arm(Begin(m, id), id), id)
  }

  lemma {:induction false} UnlinkShape(m: Model, id: TimerId)
    requires Shape(m)
    ensures Shape(Unlink(m, id)) && !IsActive(Unlink(m, id), id)
    ensures forall e :: e in Unlink(m, id).active <==> e in m.active && e.id != id
  {
    hide Drop, Sorted, DistinctIds;
    var m' := Unlink(m, id);
    DropMembers(m.active, id);
    DropSorted(m.active, id);
    DropDistinct(m.active, id);
    forall x | x in m'.active ensures Kept(m', x) {
      assert Kept(m, x);
    }
  }

  /** Nothing but rt_timer_stop looks at the flags. */
  lemma {:induction false} FlagsShape(m: Model, flags: set<TimerId>)
    requires Shape(m)
    ensures Shape(m.(flags := flags))
  {
    hide Sorted, DistinctIds;
    var m' := m.(flags := flags);
    forall x | x in m'.active ensures Kept(m', x) {
      assert Kept(m, x);
    }
  }

  lemma {:induction false} ArmShape(m: Model, id: TimerId)
    requires Shape(m) && id in m.timers && !IsActive(m, id)
    ensures Shape(Arm(m, id))
  {
    hide Sorted, DistinctIds;
    var m' := Arm(m, id);
    forall x | x in m'.active ensures Kept(m', x) {
      assert Kept(m, x);
    }
  }

  /** A timer may be linked up to `late` ticks after its deadline. */
  ghost predicate MayLink(m: Model, id: TimerId) {
    && id in m.timers && id in m.armed && !IsActive(m, id)
    && m.armed[id].init + m.late < HALF && m.now <= m.armed[id].Deadline() + m.late
  }

  lemma {:induction false} LinkShape(m: Model, id: TimerId)
    requires Shape(m) && MayLink(m, id)
    ensures Shape(Link(m, id))
    ensures forall e :: e in Link(m, id).active <==> e in m.active || e == Activation(m, id)
  {
    hide Insert, Height, Sorted, DistinctIds;
    var e, m' := Activation(m, id), Link(m, id);
    forall x | x in m.active ensures x.serial < e.serial && x.id != e.id {
      assert Kept(m, x);
    }
    InsertSorted(m.active, e);
    InsertDistinct(m.active, e);
    InsertMembers(m.active, e);
    forall x | x in m'.active ensures Kept(m', x) {
      assert x != e ==> Kept(m, x);
    }
  }

  /** The activation that starting a timer makes. */
  function Started(m: Model, id: TimerId): Entry
    requires id in m.timers
  {
    Entry(id, m.now, m.timers[id].init, m.NextCheck(), m.starts, Height(Wrap(m.starts + 1), m.rows))
  }

  lemma {:induction false} StartShape(m: Model, id: TimerId)
    requires Shape(m) && id in m.timers && m.timers[id].init + m.late < HALF
    ensures Shape(Start(m, id)) && Start(m, id).active == Insert(Drop(m.active, id), Started(m, id))
    ensures forall e :: e in Start(m, id).active <==> (e in m.active && e.id != id) || e == Started(m, id)
  {
    hide Insert, Drop, Height, Shape;
    UnlinkShape(m, id);
    FlagsShape(Unlink(m, id), m.flags - {id});
    var m1 := Begin(m, id);
    ArmShape(m1, id);
    LinkShape(Arm(m1, id), id);
  }

  // ----- calls -----

  /** The calls that threads and timeout functions make. */
  datatype Call = ControlCall(id: TimerId, config: Config) | StopCall(id: TimerId) | StartCall(id: TimerId)

  function Apply(m: Model, c: Call): Model {
    match c
    case ControlCall(id, config) => m.(timers := m.timers[id := config])
    case StopCall(id) => Stop(m, id)
    case StartCall(id) => if id in m.timers then Start(m, id) else m
  }

  /** An active timer keeps a sane configuration, and started timers have one, of at least `least`
      ticks. */
  ghost predicate MayCall(m: Model, c: Call, least: nat) {
    match c
    case ControlCall(id, config) => IsActive(m, id) ==> config.Sane(m.late)
    case StopCall(id) => true
    case StartCall(id) => id in m.timers && m.timers[id].Sane(m.late) && m.timers[id].init >= least
  }

  /** What calls leave of a state: its clock, and of its active timers those not stopped. What is
      new is due no earlier than `least` ticks from now, and comes after what was there. What is
      not sane is as it was. */
  ghost predicate Follows(m: Model, m': Model, least: nat) {
    && m'.now == m.now && m'.checking == m.checking && m'.late == m.late && m'.rows == m.rows && m.starts <= m'.starts
    && (forall x :: x in m'.active && x !in m.active ==> x.Deadline() >= m.now + least && x.serial >= m.starts)
    && (forall x :: x in m'.active ==> SaneOrSame(m, m', x))
  }

  ghost predicate SaneOrSame(m: Model, m': Model, x: Entry) {
    ConfigKept(m, m', x.id) && (x in m.active || m'.timers[x.id].Sane(m.late))
  }

  /** The configuration of `id` is as it was and the timer not newly marked, or it is sane. */
  ghost predicate ConfigKept(m: Model, m': Model, id: TimerId) {
    && id in m'.timers
    && (m'.timers[id].Sane(m.late) ||
        (id in m.timers && m'.timers[id] == m.timers[id] && (id in m'.flags ==> id in m.flags)))
  }

  lemma {:induction false} FollowsTrans(a: Model, b: Model, c: Model, least: nat)
    requires Follows(a, b, least) && Follows(b, c, least)
    ensures Follows(a, c, least)
  {
    forall x | x in c.active ensures SaneOrSame(a, c, x) {
      assert SaneOrSame(b, c, x);
      assert x in b.active ==> SaneOrSame(a, b, x);
    }
  }

  lemma {:induction false} ControlKeeps(m: Model, id: TimerId, config: Config)
    requires Shape(m) && MayCall(m, ControlCall(id, config), 0)
    ensures var m' := Apply(m, ControlCall(id, config)); Shape(m') && Follows(m, m', 0) && m'.active == m.active
  {
    hide Sorted, DistinctIds;
    var m' := Apply(m, ControlCall(id, config));
    forall x | x in m'.active ensures Kept(m', x) && SaneOrSame(m, m', x) {
      assert Kept(m, x);
    }
  }

  /** Every call keeps the shape, and leaves the timers it does not name alone. */
  lemma {:induction false} ApplyKeeps(m: Model, c: Call, least: nat)
    requires Shape(m) && MayCall(m, c, least)
    ensures var m' := Apply(m, c);
            && Shape(m') && Follows(m, m', least)
            && (forall x :: x in m.active && x.id != c.id ==> x in m'.active)
            && (forall x :: x in m'.active && x.id != c.id ==> x in m.active)
            && (forall id :: id in m.timers && id != c.id ==> id in m'.timers && m'.timers[id] == m.timers[id])
            && (forall x :: x in m'.active && x !in m.active ==> m.NextCheck() <= x.FireTime())
  {
    hide Start, Stop, Shape;
    match c
    case ControlCall(id, config) => ControlKeeps(m, id, config);
    case StopCall(id) => StopKeeps(m, id, least);
    case StartCall(id) => StartKeeps(m, id, least);
  }

  lemma {:induction false} UnlinkKeeps(m: Model, id: TimerId, least: nat)
    requires Shape(m)
    ensures Shape(Unlink(m, id)) && Follows(m, Unlink(m, id), least)
  {
    hide Drop, Sorted, DistinctIds;
    UnlinkShape(m, id);
    var m' := Unlink(m, id);
    forall x | x in m'.active ensures SaneOrSame(m, m', x) {
      assert Kept(m, x);
    }
  }

  lemma {:induction false} FlagsKeep(m: Model, m': Model, least: nat, flags: set<TimerId>)
    requires Shape(m') && Follows(m, m', least) && flags <= m'.flags
    ensures Shape(m'.(flags := flags)) && Follows(m, m'.(flags := flags), least)
  {
    hide Shape;
    FlagsShape(m', flags);
    forall x | x in m'.active ensures SaneOrSame(m, m'.(flags := flags), x) {
      assert SaneOrSame(m, m', x);
    }
  }

  lemma {:induction false} StopKeeps(m: Model, id: TimerId, least: nat)
    requires Shape(m)
    ensures var m' := Stop(m, id);
            && Shape(m') && Follows(m, m', least) && m'.timers == m.timers
            && (forall x :: x in m'.active ==> x in m.active)
            && (forall x :: x in m.active && x.id != id ==> x in m'.active)
  {
    hide Shape, Drop, Follows;
    UnlinkShape(m, id);
    if id in m.flags {
      UnlinkKeeps(m, id, least);
      FlagsKeep(m, Unlink(m, id), least, m.flags - {id});
    } else {
      FollowsSelf(m, least);
    }
  }

  lemma FollowsSelf(m: Model, least: nat)
    requires Shape(m)
    ensures Follows(m, m, least)
  {
    forall x | x in m.active ensures SaneOrSame(m, m, x) {
      assert Kept(m, x);
    }
  }

  lemma {:induction false} StartKeeps(m: Model, id: TimerId, least: nat)
    requires Shape(m) && MayCall(m, StartCall(id), least)
    ensures var m' := Start(m, id);
            && Shape(m') && Follows(m, m', least) && m'.timers == m.timers
            && (forall x :: x in m'.active <==> (x in m.active && x.id != id) || x == Started(m, id))
            && m.NextCheck() <= Started(m, id).FireTime()
  {
    hide Insert, Drop, Sorted, DistinctIds, Height;
    StartShape(m, id);
    var m' := Start(m, id);
    forall x | x in m'.active ensures SaneOrSame(m, m', x) {
      assert x in m.active ==> Kept(m, x);
    }
  }

  lemma {:induction false} ApplyKeepsInv(m: Model, c: Call)
    requires Inv(m) && MayCall(m, c, 0)
    ensures Inv(Apply(m, c))
  {
    hide Shape, Apply;
    ApplyKeeps(m, c, 0);
    var m' := Apply(m, c);
    forall x | x in m'.active ensures m'.timers[x.id].Sane(m.late) {
      assert SaneOrSame(m, m', x);
    }
  }

  /** Starting a timer keeps the invariant. */
  lemma {:induction false} StartKeepsInv(m: Model, id: TimerId)
    requires Inv(m) && id in m.timers && m.timers[id].Sane(m.late)
    ensures Inv(Start(m, id))
  {
    hide Shape;
    ApplyKeepsInv(m, StartCall(id));
  }

  lemma {:induction false} StopKeepsInv(m: Model, id: TimerId)
    requires Inv(m)
    ensures Inv(Stop(m, id))
  {
    hide Shape;
    ApplyKeepsInv(m, StopCall(id));
  }

  lemma {:induction false} LinkKeepsInv(m: Model, id: TimerId)
    requires Inv(m) && MayLink(m, id) && m.timers[id].Sane(m.late)
    ensures Inv(Link(m, id))
  {
    hide Shape, Insert, Height;
    LinkShape(m, id);
  }

  lemma {:induction false} ArmKeepsInv(m: Model, id: TimerId)
    requires Inv(m) && id in m.timers && !IsActive(m, id)
    ensures Inv(Arm(m, id))
  {
    hide Shape;
    ArmShape(m, id);
  }
}
