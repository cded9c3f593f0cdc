/**
 The delay arithmetic of a poll and of a backoff update: the memory store computes it in
 Go, the Postgres store in SQL with a clamped exponent.  Durations are integer nanoseconds,
 powers are exact reals.
 */
module Backoff {
  import opened Powers

  type Time = int
  type Duration = int

  const NANOS_PER_SECOND: real := 1000000000.0
  const MAX_INT32 := 0x7fff_ffff

  function Seconds(d: Duration): real {
    d as real / NANOS_PER_SECOND
  }

  /** Go's conversion of a float to an integer type drops the fraction. */
  function Truncate(x: real): int {
    if x >= 0.0 then x.Floor else -(-x).Floor
  }

  /** min(base^attempts, maxDelay) seconds, as a duration. */
  function BackoffDelay(base: real, attempts: nat, maxDelay: Duration): Duration {
    Truncate(MinReal(Pow(base, attempts), Seconds(maxDelay)) * NANOS_PER_SECOND)
  }

  /** The least integer exponent at which the power reaches delay. */
  function CeilLog(base: real, delay: real): (m: int)
    requires base > 1.0 && delay > 0.0
    ensures PowInt(base, m - 1) < delay <= PowInt(base, m)
  {
    InverseExponent(base, delay);
    -FloorLog(base, 1.0 / delay)
  }

  lemma InverseExponent(base: real, delay: real)
    requires base > 1.0 && delay > 0.0
    ensures 1.0 / delay > 0.0
    ensures var m := -FloorLog(base, 1.0 / delay);
            PowInt(base, m - 1) < delay <= PowInt(base, m)
  {
    var inv := InversePositive(delay);
    var f := FloorLog(base, inv);
    InverseExponents(base, f, inv, delay);
    assert -f - 1 == -(f + 1);
  }

  /** The cap on the exponent sent to SQL, for a maximum delay in seconds. */
  function ClampMaxAttempts(maxDelay: real, base: real): int {
    if base <= 1.0 then MAX_INT32
    else if maxDelay <= 0.0 then 0
    else CeilLog(base, maxDelay)
  }

  function Min(x: int, y: int): int {
    if x <= y then x else y
  }

  /** POWER(base, LEAST(attempts, cap)). */
  function CappedPower(base: real, attempts: nat, cap: int): real
    requires base > 0.0 || cap >= 0
  {
    var k := Min(attempts, cap);
    if k >= 0 then Pow(base, k) else PowInt(base, k)
  }

  /** The same with the cap computed by the caller. */
  function ClampedPower(base: real, maxDelay: real, attempts: nat): real {
    CappedPower(base, attempts, ClampMaxAttempts(maxDelay, base))
  }

  /** Capping the exponent never changes the delay. */
  lemma ClampExact(base: real, maxDelay: real, attempts: nat)
    requires base > 1.0 || attempts <= MAX_INT32
    ensures MinReal(ClampedPower(base, maxDelay, attempts), maxDelay) == MinReal(Pow(base, attempts), maxDelay)
  {
    var m := ClampMaxAttempts(maxDelay, base);
    if base > 1.0 && attempts > m {
      if maxDelay <= 0.0 {
        PowPositive(base, attempts);
      } else {
        PowIntMonotone(base, m, attempts);
      }
    }
  }

  function Abs(x: real): real {
    if x >= 0.0 then x else -x
  }

  ghost predicate PowersWithin(base: real, maxDelay: real, limit: real) {
    forall attempts: nat | base > 1.0 || attempts <= MAX_INT32 :: Abs(ClampedPower(base, maxDelay, attempts)) <= limit
  }

  /**
   What a number format with a given limit holds: from a base of -1 on, every limit that holds 1 and
   base * maxDelay holds every clamped power.  Below -1 the exponent is capped at the largest int32
   only, and the limit must hold the power with that exponent.
   */
  lemma ClampedPowerBoundedIff(base: real, maxDelay: real, limit: real)
    requires limit >= MaxReal(1.0, base * maxDelay)
    ensures PowersWithin(base, maxDelay, limit) <==> base >= -1.0 || Pow(-base, MAX_INT32) <= limit
  {
    if base >= -1.0 {
      forall attempts: nat | base > 1.0 || attempts <= MAX_INT32
        ensures Abs(ClampedPower(base, maxDelay, attempts)) <= limit
      {
        ClampedPowerBounded(base, maxDelay, attempts);
      }
    } else {
      NegativeBaseBounded(base, maxDelay, limit, MAX_INT32);
    }
  }

  /** The powers of a base below -1 grow in size up to the last one. */
  lemma NegativeBaseBounded(base: real, maxDelay: real, limit: real, last: nat)
    requires base < -1.0 && last == MAX_INT32
    ensures PowersWithin(base, maxDelay, limit) <==> Pow(-base, last) <= limit
  {
    forall attempts: nat | attempts <= last
      ensures Abs(ClampedPower(base, maxDelay, attempts)) == Pow(-base, attempts) <= Pow(-base, last)
    {
      PowSize(base, attempts);
      PowMonotone(-base, attempts, last);
    }
    assert Abs(ClampedPower(base, maxDelay, last)) == Pow(-base, last);
  }

  lemma {:induction false} PowSize(base: real, n: nat)
    requires base < 0.0
    ensures Abs(Pow(base, n)) == Pow(-base, n)
  {
    PowPositive(-base, n);
    if n > 0 {
      PowSize(base, n - 1);
      var p, q := Pow(base, n - 1), Pow(-base, n - 1);
      assert base * p == if p >= 0.0 then -(-base * q) else -base * q;
    }
  }

  lemma ClampedPowerBounded(base: real, maxDelay: real, attempts: nat)
    requires base >= -1.0 && (base > 1.0 || attempts <= MAX_INT32)
    ensures Abs(ClampedPower(base, maxDelay, attempts)) <= MaxReal(1.0, base * maxDelay)
  {
    if base <= 1.0 {
      PowWithinOne(base, attempts);
    } else if maxDelay > 0.0 {
      var m := CeilLog(base, maxDelay);
      PowIntBounded(base, m, maxDelay);
      PowIntMonotone(base, Min(attempts, m), m);
    }
  }

  lemma PowIntBounded(base: real, m: int, delay: real)
    requires base > 1.0 && PowInt(base, m - 1) < delay
    ensures PowInt(base, m) < base * delay
  {
    PowIntStep(base, m - 1);
    MulLess(base, PowInt(base, m - 1), delay);
  }

  lemma {:induction false} PowWithinOne(base: real, n: nat)
    requires -1.0 <= base <= 1.0
    ensures -1.0 <= Pow(base, n) <= 1.0
  {
    if n > 0 {
      PowWithinOne(base, n - 1);
      ProductWithinOne(base, Pow(base, n - 1));
    }
  }

  lemma ProductWithinOne(x: real, y: real)
    requires -1.0 <= x <= 1.0 && -1.0 <= y <= 1.0
    ensures -1.0 <= x * y <= 1.0
  {
    ProductAtMostOne(x, y);
    ProductAtMostOne(-x, y);
    assert -x * y == -(x * y);
  }

  lemma ProductAtMostOne(x: real, y: real)
    requires -1.0 <= x <= 1.0 && -1.0 <= y <= 1.0
    ensures x * y <= 1.0
  {
    ProductNonNegative(1.0 - x, 1.0 + y);
    ProductNonNegative(1.0 + x, 1.0 - y);
    assert (1.0 - x) * (1.0 + y) == 1.0 - x + y - x * y;
    assert (1.0 + x) * (1.0 - y) == 1.0 + x - y - x * y;
  }

  lemma ProductNonNegative(x: real, y: real)
    requires x >= 0.0 && y >= 0.0
    ensures x * y >= 0.0
  {
  }

  /** The cap is the least one: any smaller exponent cap shortens the delay of some attempt. */
  lemma ClampIsLeast(base: real, maxDelay: real, smaller: int)
    requires base > 1.0 && maxDelay > 0.0 && smaller < ClampMaxAttempts(maxDelay, base)
    ensures exists attempts: nat ::
              smaller <= attempts && MinReal(PowInt(base, smaller), maxDelay) < MinReal(Pow(base, attempts), maxDelay)
  {
    var m := ClampMaxAttempts(maxDelay, base);
    var attempts: nat := if m >= 0 then m else 0;
    PowIntMonotone(base, smaller, m - 1);
    PowIntMonotone(base, m, attempts);
    assert MinReal(PowInt(base, smaller), maxDelay) < MinReal(Pow(base, attempts), maxDelay);
  }

  /** A delay is the power, in whole nanoseconds, as long as that stays below the maximum. */
  lemma BackoffDelayCapped(base: real, attempts: nat, maxDelay: Duration)
    requires base >= 0.0 && maxDelay >= 0
    ensures var delay, power := BackoffDelay(base, attempts, maxDelay), Pow(base, attempts);
            && 0 <= delay <= maxDelay
            && (power >= Seconds(maxDelay) ==> delay == maxDelay)
            && (power < Seconds(maxDelay) ==>
                 delay as real <= power * 1000000000.0 < delay as real + 1.0)
  {
    BackoffDelayNonNegative(base, attempts, maxDelay);
    PowNonNegative(base, attempts);
    var power := Pow(base, attempts);
    assert Seconds(maxDelay) * NANOS_PER_SECOND == maxDelay as real;
    if power < Seconds(maxDelay) {
      MulMonotone(NANOS_PER_SECOND, 0.0, power);
      MulMonotone(NANOS_PER_SECOND, power, Seconds(maxDelay));
    }
  }

  /** More attempts never shorten the delay. */
  lemma {:induction false} BackoffDelayGrows(base: real, m: nat, n: nat, maxDelay: Duration)
    requires base >= 1.0 && maxDelay >= 0 && m <= n
    ensures BackoffDelay(base, m, maxDelay) <= BackoffDelay(base, n, maxDelay)
    decreases n
  {
    if m < n {
      BackoffDelayGrows(base, m, n - 1, maxDelay);
      PowNextAtLeast(base, n);
      DelayMonotone(Pow(base, n - 1), Pow(base, n), Seconds(maxDelay));
    }
  }

  lemma PowNextAtLeast(base: real, n: nat)
    requires base >= 1.0 && n > 0
    ensures 0.0 <= Pow(base, n - 1) <= Pow(base, n)
  {
    PowNonNegative(base, n - 1);
    AtLeastItself(base, Pow(base, n - 1));
  }

  lemma AtLeastItself(base: real, p: real)
    requires base >= 1.0 && p >= 0.0
    ensures p <= base * p
  {
    assert (base - 1.0) * p >= 0.0;
  }

  lemma DelayMonotone(p: real, q: real, maxDelay: real)
    requires 0.0 <= p <= q && maxDelay >= 0.0
    ensures Truncate(MinReal(p, maxDelay) * NANOS_PER_SECOND) <= Truncate(MinReal(q, maxDelay) * NANOS_PER_SECOND)
  {
    MulMonotone(NANOS_PER_SECOND, 0.0, MinReal(p, maxDelay));
    MulMonotone(NANOS_PER_SECOND, MinReal(p, maxDelay), MinReal(q, maxDelay));
  }

  /** Without a positive maximum, the capped power of a base above one is 1. */
  lemma NoDelayCapsAtOne(base: real, maxDelay: real, attempts: nat)
    requires base > 1.0 && maxDelay <= 0.0
    ensures ClampedPower(base, maxDelay, attempts) == 1.0
  {
  }

  lemma BackoffDelayNonNegative(base: real, attempts: nat, maxDelay: Duration)
    requires base >= 0.0 && maxDelay >= 0
    ensures BackoffDelay(base, attempts, maxDelay) >= 0
  {
    PowNonNegative(base, attempts);
    MulMonotone(NANOS_PER_SECOND, 0.0, MinReal(Pow(base, attempts), Seconds(maxDelay)));
  }

  /** The delay of the poll and backoff queries, in seconds, from an extra delay and a cap in seconds. */
  function SqlDelay(extra: real, base: real, attempts: nat, maxDelay: real): real {
    MaxReal(extra, 0.0) + MinReal(ClampedPower(base, maxDelay, attempts), maxDelay)
  }

  predicate Whole(x: real) {
    x == x.Floor as real
  }

  /**
   The SQL delay and the memory store's delay are the same number of nanoseconds exactly when the
   extra delay (the TTR of a poll, the jitter of an update) is not negative and adding it does not
   carry a negative fraction of a nanosecond across zero, where Go's conversion rounds the other way.
   */
  lemma SqlDelayMatchesMemoryIff(extra: Duration, base: real, attempts: nat, maxDelay: Duration)
    requires base > 1.0 || attempts <= MAX_INT32
    ensures var nanos := MinReal(Pow(base, attempts), Seconds(maxDelay)) * NANOS_PER_SECOND;
            Truncate(SqlDelay(Seconds(extra), base, attempts, Seconds(maxDelay)) * NANOS_PER_SECOND)
            == BackoffDelay(base, attempts, maxDelay) + extra
            <==> extra >= 0 && (nanos >= 0.0 || nanos + extra as real < 0.0 || Whole(nanos))
  {
    ClampExact(base, Seconds(maxDelay), attempts);
    var delay := MinReal(Pow(base, attempts), Seconds(maxDelay));
    var nanos := delay * NANOS_PER_SECOND;
    var shown := if extra >= 0 then extra else 0;
    assert MaxReal(Seconds(extra), 0.0) * NANOS_PER_SECOND == shown as real;
    assert (MaxReal(Seconds(extra), 0.0) + delay) * NANOS_PER_SECOND == nanos + shown as real;
    TruncateShift(nanos, shown);
  }

  /** Adding a whole number before or after dropping the fraction. */
  lemma TruncateShift(x: real, n: nat)
    ensures Truncate(x + n as real) == Truncate(x) + n <==> x >= 0.0 || x + n as real < 0.0 || Whole(x) || n == 0
  {
    assert (x + n as real).Floor == x.Floor + n;
    assert (-x - n as real).Floor == (-x).Floor - n;
  }

  /**
   Postgres sends the TTR and the maximum delay of a poll as whole seconds.  When both are
   whole, its delay is the memory store's.
   */
  lemma SqlPollDelayMatchesMemory(ttr: nat, base: real, attempts: nat, maxDelay: nat)
    requires base >= 0.0 && (base > 1.0 || attempts <= MAX_INT32)
    ensures Truncate(Seconds(ttr * 1000000000)) == ttr
    ensures Truncate(SqlDelay(ttr as real, base, attempts, maxDelay as real) * NANOS_PER_SECOND)
            == BackoffDelay(base, attempts, maxDelay * 1000000000) + ttr * 1000000000
  {
    assert Seconds(ttr * 1000000000) == ttr as real;
    assert Seconds(maxDelay * 1000000000) == maxDelay as real;
    PowNonNegative(base, attempts);
    SqlDelayMatchesMemoryIff(ttr * 1000000000, base, attempts, maxDelay * 1000000000);
  }
}
