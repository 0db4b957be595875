/** Tick arithmetic: `rt_tick_t` is an unsigned 32-bit counter that wraps. */
module Ticks {

  const TICK_RANGE := 0x1_0000_0000
  const TICK_MAX := 0xFFFF_FFFF
  /** RT_TICK_MAX / 2 under C's integer division */
  const HALF := 0x7FFF_FFFF

  /** The tick value that stands for an unbounded instant. */
  function Wrap(instant: int): (t: int)
    ensures 0 <= t < TICK_RANGE
  {
    instant % TICK_RANGE
  }

  /** Unsigned 32-bit subtraction. */
  function Sub(a: int, b: int): (r: int)
    ensures 0 <= r < TICK_RANGE
  {
    (a - b) % TICK_RANGE
  }

  /** The test that ends the insertion search: `t` times out after `n`. */
  predicate TestLater(t: int, n: int) {
    Sub(t, n) != 0 && Sub(t, n) < HALF
  }

  /** The test of the check loop: the timeout `t` has been reached at `current`. */
  predicate TestDue(current: int, t: int) {
    Sub(current, t) < HALF
  }

  lemma SubOfWraps(a: int, b: int)
    ensures Sub(Wrap(a), Wrap(b)) == (a - b) % TICK_RANGE
  {
    var x, y := a / TICK_RANGE, b / TICK_RANGE;
    assert a == x * TICK_RANGE + Wrap(a) && b == y * TICK_RANGE + Wrap(b);
    ModShift(Wrap(a) - Wrap(b), x - y);
  }

  lemma ModShift(r: int, k: int)
    ensures (r + k * TICK_RANGE) % TICK_RANGE == r % TICK_RANGE
  {
  }

  /** For instants less than one wrap apart, the later-test agrees with the unbounded
      order exactly when their distance lies in this window. */
  lemma LaterTestExact(t: int, n: int)
    requires -TICK_RANGE < t - n < TICK_RANGE
    ensures (TestLater(Wrap(t), Wrap(n)) <==> t > n) <==> HALF - TICK_RANGE <= t - n < HALF
  {
    SubOfWraps(t, n);
  }

  /** The same for the due-test. */
  lemma DueTestExact(now: int, t: int)
    requires -TICK_RANGE < now - t < TICK_RANGE
    ensures (TestDue(Wrap(now), Wrap(t)) <==> now >= t) <==> HALF - TICK_RANGE <= now - t < HALF
  {
    SubOfWraps(now, t);
  }

  /** A delay of half the range: the later instant does not test as later. rt_timer_start asserts
      that delays are shorter. */
  lemma HalfRangeDelay(now: int)
    ensures now + HALF > now && !TestLater(Wrap(now + HALF), Wrap(now))
  {
    LaterTestExact(now + HALF, now);
  }

  lemma WrapNext(now: int)
    ensures Wrap(now + 1) == (Wrap(now) + 1) % TICK_RANGE
  {
  }

  lemma WrapPlus(now: int, k: int)
    ensures Wrap(now + k) == (Wrap(now) + k) % TICK_RANGE
  {
    ModShift(Wrap(now) + k, now / TICK_RANGE);
  }
}
