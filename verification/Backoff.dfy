/**
 * How long until a topic is checked again, in 64-bit nanoseconds.
 */
module Backoff {
  import opened Numerals

  const SECOND: int := 1_000_000_000
  const TRANSIENT_RETRY_DELAY: int := 60 * SECOND
  const TRANSIENT_RETRY_MAX: int := 5
  const DEFAULT_MAX_BACKOFF: int := 6 * 3600 * SECOND

  function Pow2(n: nat): (r: nat)
    ensures r > 0
  {
    if n == 0 then 1 else 2 * Pow2(n - 1)
  }

  /** A 64-bit shift of 1: the bit leaves the word at 64 and is the sign at 63. */
  function Shift1(n: nat): (r: int)
    ensures n < 63 ==> r == Pow2(n)
  {
    if n < 63 then Pow2(n) else if n == 63 then MIN_INT64 else 0
  }

  /** A delay that is not positive would make the topic due at once and for ever. */
  function FloorDelay(d: int): int {
    if d <= 0 then TRANSIENT_RETRY_DELAY else d
  }

  /** backoffDelay. `transient` is whether the failure reads as a network blip. */
  function Delay(intervalSec: int, errors: int, maxBackoff: int, failure: bool, transient: bool): (d: int)
    // Whatever the configuration and however often the topic failed.
    ensures 0 < d
    ensures !failure && InInt64(intervalSec * SECOND) && intervalSec > 0 ==> d == intervalSec * SECOND
  {
    var base := Wrap64(intervalSec * SECOND);
    if !failure then FloorDelay(base)
    else if transient && errors < TRANSIENT_RETRY_MAX then TRANSIENT_RETRY_DELAY
    else
      var ceiling := if maxBackoff <= 0 then DEFAULT_MAX_BACKOFF else maxBackoff;
      var attempt := Wrap64(errors + 1);
      if 1 <= attempt < 63 && base <= ceiling / Shift1(attempt)
      then FloorDelay(Wrap64(base * Shift1(attempt)))
      else FloorDelay(ceiling)
  }

  function Min(a: int, b: int): int { if a < b then a else b }

  lemma {:induction false} Pow2Grows(a: nat, b: nat)
    requires a <= b
    ensures Pow2(a) <= Pow2(b)
    decreases b
  {
    if a < b { Pow2Grows(a, b - 1); }
  }

  lemma Pow2Of63()
    ensures Pow2(63) == MAX_INT64 + 1
  {
    assert Pow2(8) == 256;
    assert Pow2(16) == 65536 by { Pow2Sum(8, 8); }
    assert Pow2(32) == 0x1_0000_0000 by { Pow2Sum(16, 16); }
    assert Pow2(48) == 0x1_0000_0000_0000 by { Pow2Sum(32, 16); }
    assert Pow2(56) == 0x100_0000_0000_0000 by { Pow2Sum(48, 8); }
    assert Pow2(7) == 128;
    Pow2Sum(56, 7);
  }

  lemma {:induction false} Pow2Sum(a: nat, b: nat)
    ensures Pow2(a + b) == Pow2(a) * Pow2(b)
    decreases b
  {
    if b > 0 {
      Pow2Sum(a, b - 1);
      assert Pow2(a + b) == 2 * Pow2(a + (b - 1));
      Doubled(Pow2(a), Pow2(b - 1));
    }
  }

  lemma Doubled(x: nat, y: nat)
    ensures 2 * (x * y) == x * (2 * y)
  {}

  /** For positive b and m: b fits c / m times exactly when b * m is at most c. */
  lemma FitsExactly(b: nat, m: nat, c: nat)
    requires m > 0
    ensures b <= c / m <==> b * m <= c
  {
    var q, r := c / m, c % m;
    assert c == q * m + r;
    if b <= q {
      MulUp(b, q, m);
    } else {
      MulUp(q + 1, b, m);
    }
  }

  lemma MulUp(a: nat, b: nat, m: nat)
    requires a <= b
    ensures a * m <= b * m
  {}

  /**
   * With no overflow anywhere, a durable failure waits the interval doubled once for
   * each failure in a row and once more, up to the ceiling, as if over unbounded
   * integers.
   */
  lemma DurableDelayDoubles(intervalSec: int, errors: nat, maxBackoff: int)
    requires 0 < intervalSec && InInt64(intervalSec * SECOND) && 0 < maxBackoff && InInt64(maxBackoff) && InInt64(errors)
    ensures Delay(intervalSec, errors, maxBackoff, true, false)
            == Min(intervalSec * SECOND * Pow2(errors + 1), maxBackoff)
  {
    hide Pow2, Shift1;
    var base := intervalSec * SECOND;
    Pow2Of63();
    if errors + 1 < 63 {
      FitsExactly(base, Pow2(errors + 1), maxBackoff);
      assert Shift1(errors + 1) == Pow2(errors + 1);
      assert base * Pow2(errors + 1) > 0 by { ProductPositive(base, Pow2(errors + 1)); }
    } else {
      Pow2Grows(63, errors + 1);
      MulUp(1, base, Pow2(errors + 1));
    }
  }

  lemma ProductPositive(a: nat, b: nat)
    requires a > 0 && b > 0
    ensures a * b > 0
  {}

  /** One more failure in a row never makes the wait shorter. */
  lemma DurableDelayGrows(intervalSec: int, fewer: nat, more: nat, maxBackoff: int)
    requires 0 < intervalSec && InInt64(intervalSec * SECOND) && 0 < maxBackoff && InInt64(maxBackoff) && InInt64(more)
    requires fewer <= more
    ensures Delay(intervalSec, fewer, maxBackoff, true, false) <= Delay(intervalSec, more, maxBackoff, true, false)
  {
    hide Pow2, Delay;
    DurableDelayDoubles(intervalSec, fewer, maxBackoff);
    DurableDelayDoubles(intervalSec, more, maxBackoff);
    Pow2Grows(fewer + 1, more + 1);
    MulUpRight(intervalSec * SECOND, Pow2(fewer + 1), Pow2(more + 1));
  }

  lemma MulUpRight(m: nat, a: nat, b: nat)
    requires a <= b
    ensures m * a <= m * b
  {}

  /** A network blip is retried after a minute, but only for so many failures in a row. */
  lemma TransientIsBounded(intervalSec: int, errors: nat, maxBackoff: int)
    ensures errors < TRANSIENT_RETRY_MAX ==> Delay(intervalSec, errors, maxBackoff, true, true) == 60 * SECOND
    ensures errors >= TRANSIENT_RETRY_MAX ==>
              Delay(intervalSec, errors, maxBackoff, true, true) == Delay(intervalSec, errors, maxBackoff, true, false)
  {}

  /**
   * The whole schedule of retries: a network blip waits a minute for the first five
   * failures in a row; every other failure the interval doubled, up to the ceiling that
   * is set, or six hours.
   */
  lemma RetrySchedule(intervalSec: int, errors: nat, maxBackoff: int, transient: bool)
    requires 0 < intervalSec && InInt64(intervalSec * SECOND) && InInt64(maxBackoff) && InInt64(errors)
    ensures Delay(intervalSec, errors, maxBackoff, true, transient) ==
              if transient && errors < 5 then 60_000_000_000
              else Min(intervalSec * 1_000_000_000 * Pow2(errors + 1), if maxBackoff > 0 then maxBackoff else 21_600_000_000_000)
  {
    hide Pow2, Delay;
    TransientIsBounded(intervalSec, errors, maxBackoff);
    CeilingOf(intervalSec, errors, maxBackoff);
    DurableDelayDoubles(intervalSec, errors, if maxBackoff > 0 then maxBackoff else DEFAULT_MAX_BACKOFF);
  }

  lemma CeilingOf(intervalSec: int, errors: nat, maxBackoff: int)
    ensures maxBackoff <= 0 ==>
              Delay(intervalSec, errors, maxBackoff, true, false) == Delay(intervalSec, errors, DEFAULT_MAX_BACKOFF, true, false)
  {
    hide Pow2, Shift1;
  }
}
