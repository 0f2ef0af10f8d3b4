/** How long to wait after a fetch. Durations are int64 nanoseconds. */
module Intervals {
  import opened Rows

  const TWO62: int := 0x4000_0000_0000_0000
  const TWO63: int := 0x8000_0000_0000_0000
  const HOUR: int := 3600 * SECOND

  predicate IsInt64(x: int) { -TWO63 <= x < TWO63 }

  /** int64 arithmetic wraps around. */
  function Wrap(x: int): int { (x + TWO63) % (2 * TWO63) - TWO63 }

  lemma WrapFits(x: int)
    requires IsInt64(x)
    ensures Wrap(x) == x
  {}

  datatype Config = Config(
    minInterval: int, defaultInterval: int, maxInterval: int, quietPollsPerDouble: int,
    maxBackoff: int, goneAfterFailures: int, lockFor: int, keepItems: int, keepFor: int, evictAfter: int)

  /** Go's integer division truncates toward zero. */
  function Quotient(a: int, b: int): int
    requires b > 0
  {
    if a >= 0 then a / b else -((-a) / b)
  }

  function Pow2(n: nat): (r: int)
    ensures r >= 1
  {
    if n == 0 then 1 else 2 * Pow2(n - 1)
  }

  function Min(a: int, b: int): int { if a < b then a else b }

  function Max(a: int, b: int): int { if a > b then a else b }

  function Times(n: int): nat { if n < 0 then 0 else n }

  // ---- doubling up to a cap

  /** Up to `n` doublings in int64, stopping once the cap is reached. */
  function Grow(d: int, n: int, cap: int): int
    decreases Times(n)
  {
    if n > 0 && d < cap then Grow(Wrap(d * 2), n - 1, cap) else d
  }

  /** `n` doublings without a bound, then the cap. */
  function Capped(d: int, n: nat, cap: int): int { Min(cap, d * Pow2(n)) }

  lemma {:induction false} DoubledStaysAbove(d: int, n: nat)
    requires d >= 0
    ensures d <= d * Pow2(n)
  {
    if n > 0 {
      DoubledStaysAbove(d, n - 1);
      assert d * Pow2(n) == 2 * (d * Pow2(n - 1));
    }
  }

  lemma Redouble(d: int, n: nat)
    requires n > 0
    ensures d * Pow2(n) == (d * 2) * Pow2(n - 1)
  {
    var p := Pow2(n - 1);
    assert Pow2(n) == 2 * p;
    assert d * (2 * p) == (d * 2) * p;
  }

  /** The loop agrees with the closed form and never overflows when the cap is at most 2^62. */
  lemma {:induction false} GrowIsCapped(d: int, n: nat, cap: int)
    requires 0 <= d && cap <= TWO62
    ensures Min(cap, Grow(d, n, cap)) == Capped(d, n, cap)
    decreases n
  {
    if n > 0 && d < cap {
      WrapFits(d * 2);
      GrowIsCapped(d * 2, n - 1, cap);
      Redouble(d, n);
    } else {
      DoubledStaysAbove(d, n);
    }
  }

  // ---- NextInterval

  /** The publisher's ttl, or the default without one, floored at the minimum. */
  function Base(ttl: int, c: Config): int {
    Max(if ttl <= 0 then c.defaultInterval else ttl, c.minInterval)
  }

  function Doublings(quiet: int, c: Config): nat {
    if c.quietPollsPerDouble > 0 then Times(Quotient(quiet, c.quietPollsPerDouble)) else 0
  }

  /** What the method below computes, overflow included. */
  function NextIntervalOf(ttl: int, quiet: int, c: Config): int {
    Min(c.maxInterval, Grow(Base(ttl, c), Doublings(quiet, c), c.maxInterval))
  }

  method NextInterval(publisherTTL: int, quietPolls: int, c: Config) returns (base: int)
    ensures base == NextIntervalOf(publisherTTL, quietPolls, c)
  {
    base := publisherTTL;
    if base <= 0 {
      base := c.defaultInterval;
    }
    if base < c.minInterval {
      base := c.minInterval;
    }
    if c.quietPollsPerDouble > 0 {
      var n := Quotient(quietPolls, c.quietPollsPerDouble);
      while n > 0 && base < c.maxInterval
        invariant Grow(base, n, c.maxInterval) == Grow(Base(publisherTTL, c), Doublings(quietPolls, c), c.maxInterval)
        decreases n
      {
        base := Wrap(base * 2);
        n := n - 1;
      }
    }
    if base > c.maxInterval {
      base := c.maxInterval;
    }
  }

  /** The interval the design promises: the base doubled once per run of quiet polls, capped. */
  function Interval(ttl: int, quiet: int, c: Config): int {
    Capped(Base(ttl, c), Doublings(quiet, c), c.maxInterval)
  }

  /** The code delivers that interval for every ttl and every quiet run exactly when the maximum is at
      most 2^62; above that the doubling overflows for some ttl. */
  lemma NextIntervalClosedForm(c: Config)
    requires 0 <= c.minInterval <= TWO62 && c.quietPollsPerDouble > 0
    ensures (forall ttl, quiet | IsInt64(ttl) :: NextIntervalOf(ttl, quiet, c) == Interval(ttl, quiet, c))
       <==> c.maxInterval <= TWO62
  {
    if c.maxInterval <= TWO62 {
      forall ttl, quiet ensures NextIntervalOf(ttl, quiet, c) == Interval(ttl, quiet, c) {
        GrowIsCapped(Base(ttl, c), Doublings(quiet, c), c.maxInterval);
      }
    } else {
      NextIntervalOverflows(c);
    }
  }

  lemma NextIntervalOverflows(c: Config)
    requires 0 <= c.minInterval <= TWO62 < c.maxInterval && c.quietPollsPerDouble > 0
    ensures NextIntervalOf(TWO62, c.quietPollsPerDouble, c) == -TWO63 < Interval(TWO62, c.quietPollsPerDouble, c)
  {
    var q := c.quietPollsPerDouble;
    assert Quotient(q, q) == 1;
    assert Pow2(1) == 2 * Pow2(0);
    assert Grow(TWO62, 1, c.maxInterval) == Grow(Wrap(TWO62 * 2), 0, c.maxInterval);
  }

  lemma {:induction false} Pow2Monotone(m: nat, n: nat)
    requires m <= n
    ensures Pow2(m) <= Pow2(n)
  {
    if m < n {
      Pow2Monotone(m, n - 1);
    }
  }

  lemma ProductMonotone(a: int, b: int, p: int, q: int)
    requires 0 <= a <= b && 0 <= p <= q
    ensures a * p <= b * q
  {
    assert a * p <= b * p <= b * q;
  }

  lemma QuotientMonotone(a: int, b: int, k: int)
    requires a <= b && k > 0
    ensures Times(Quotient(a, k)) <= Times(Quotient(b, k))
  {
    if 0 <= a {
      DivisionMonotone(a, b, k);
    } else {
      QuotientIs(-a, k);
    }
  }

  lemma DivisionMonotone(a: int, b: int, k: int)
    requires 0 <= a <= b && k > 0
    ensures a / k <= b / k
  {
    QuotientIs(a, k);
    QuotientIs(b, k);
    LessProduct(a / k, b / k, k);
  }

  lemma QuotientIs(a: int, k: int)
    requires 0 <= a && 0 < k
    ensures k * (a / k) <= a < k * (a / k) + k && 0 <= a / k
  {}

  lemma LessProduct(p: int, q: int, k: int)
    requires k * p < k * q + k && 0 < k
    ensures p <= q
  {
    assert k * (q + 1) == k * q + k;
    if q < p {
      LeftMonotone(q + 1, p, k);
    }
  }

  lemma LeftMonotone(p: int, q: int, k: int)
    requires p <= q && 0 < k
    ensures k * p <= k * q
  {}

  lemma ClosedMonotone(ttl: int, quiet: int, ttl2: int, quiet2: int, c: Config)
    requires quiet <= quiet2 && (ttl == ttl2 || 0 < ttl <= ttl2) && 0 <= Base(ttl, c)
    ensures Interval(ttl, quiet, c) <= Interval(ttl2, quiet2, c)
  {
    if c.quietPollsPerDouble > 0 {
      QuotientMonotone(quiet, quiet2, c.quietPollsPerDouble);
    }
    Pow2Monotone(Doublings(quiet, c), Doublings(quiet2, c));
    ProductMonotone(Base(ttl, c), Base(ttl2, c), Pow2(Doublings(quiet, c)), Pow2(Doublings(quiet2, c)));
  }

  lemma ClosedInRange(ttl: int, quiet: int, c: Config)
    requires 0 <= c.minInterval <= c.maxInterval
    ensures c.minInterval <= Interval(ttl, quiet, c) <= c.maxInterval
  {
    DoubledStaysAbove(Base(ttl, c), Doublings(quiet, c));
  }

  lemma ClosedOfClosed(ttl: int, quiet: int, c: Config)
    requires 0 <= c.minInterval
    ensures Interval(Interval(ttl, 0, c), quiet, c) == Interval(ttl, quiet, c)
  {
    var stored, n := Interval(ttl, 0, c), Doublings(quiet, c);
    assert c.quietPollsPerDouble > 0 ==> Quotient(0, c.quietPollsPerDouble) == 0;
    assert stored == Min(c.maxInterval, Base(ttl, c));
    DoubledStaysAbove(Base(ttl, c), n);
    DoubledStaysAbove(Base(stored, c), n);
    if 0 < c.maxInterval {
      DoubledStaysAbove(c.maxInterval, n);
    }
  }

  lemma ClosedForm(ttl: int, quiet: int, c: Config)
    requires 0 <= Base(ttl, c) && c.maxInterval <= TWO62
    ensures NextIntervalOf(ttl, quiet, c) == Interval(ttl, quiet, c)
  {
    GrowIsCapped(Base(ttl, c), Doublings(quiet, c), c.maxInterval);
  }

  /** The publisher's ttl, or the default for want of one, at least the minimum; doubled once for every full
      `quietPollsPerDouble` quiet polls; at most the maximum. */
  lemma NextIntervalMeans(ttl: int, quiet: int, k: nat, c: Config)
    requires 0 <= c.minInterval && c.maxInterval <= 0x4000_0000_0000_0000
    requires if c.quietPollsPerDouble > 0 then k * c.quietPollsPerDouble <= quiet < (k + 1) * c.quietPollsPerDouble else k == 0
    ensures var wanted := if ttl > 0 then ttl else c.defaultInterval;
      var base := if wanted < c.minInterval then c.minInterval else wanted;
      NextIntervalOf(ttl, quiet, c) == if base * Pow2(k) < c.maxInterval then base * Pow2(k) else c.maxInterval
  {
    ClosedForm(ttl, quiet, c);
    if c.quietPollsPerDouble > 0 {
      QuotientUnique(quiet, c.quietPollsPerDouble, k);
    }
  }

  lemma QuotientUnique(a: int, q: int, k: nat)
    requires 0 < q && k * q <= a < (k + 1) * q
    ensures 0 <= a && a / q == k
  {
    LeftMonotone(0, k, q);
    QuotientIs(a, q);
    assert q * k <= a < q * k + q;
    LessProduct(a / q, k, q);
    LessProduct(k, a / q, q);
  }

  /** Short of overflow, a longer quiet run, or a longer ttl, never shortens the interval. */
  lemma IntervalMonotone(ttl: int, quiet: int, ttl2: int, quiet2: int, c: Config)
    requires quiet <= quiet2 && (ttl == ttl2 || 0 < ttl <= ttl2) && 0 <= Base(ttl, c) && c.maxInterval <= TWO62
    ensures NextIntervalOf(ttl, quiet, c) <= NextIntervalOf(ttl2, quiet2, c)
  {
    ClosedForm(ttl, quiet, c);
    ClosedForm(ttl2, quiet2, c);
    ClosedMonotone(ttl, quiet, ttl2, quiet2, c);
  }

  /** For ordered bounds, and a minimum that can be doubled: the interval stays between them for every ttl and
      every quiet run, exactly when the maximum is at most 2^62. */
  lemma IntervalInRange(c: Config)
    requires 0 <= c.minInterval <= c.maxInterval && c.minInterval <= TWO62 && c.quietPollsPerDouble > 0
    ensures (forall ttl, quiet | IsInt64(ttl) :: c.minInterval <= NextIntervalOf(ttl, quiet, c) <= c.maxInterval)
       <==> c.maxInterval <= TWO62
  {
    if c.maxInterval <= TWO62 {
      forall ttl, quiet ensures c.minInterval <= NextIntervalOf(ttl, quiet, c) <= c.maxInterval {
        ClosedForm(ttl, quiet, c);
        ClosedInRange(ttl, quiet, c);
      }
    } else {
      NextIntervalOverflows(c);
      assert NextIntervalOf(TWO62, c.quietPollsPerDouble, c) < c.minInterval;
    }
  }

  /** The stored base interval stands in for the ttl: growing it gives what growing the ttl gives. */
  lemma IntervalOfInterval(ttl: int, quiet: int, c: Config)
    requires 0 <= c.minInterval && c.maxInterval <= TWO62
    ensures NextIntervalOf(NextIntervalOf(ttl, 0, c), quiet, c) == NextIntervalOf(ttl, quiet, c)
  {
    ClosedForm(ttl, 0, c);
    ClosedForm(ttl, quiet, c);
    ClosedForm(Interval(ttl, 0, c), quiet, c);
    ClosedOfClosed(ttl, quiet, c);
  }

  /** The interval a feed row keeps and hands back: whole seconds only. */
  function RoundTrip(interval: int): int { WholeSeconds(interval) * SECOND }

  /** Growing an interval that was stored in whole seconds gives what growing the ttl gives, for every quiet
      run, exactly when storing it loses nothing that matters: it is a whole number of seconds, or the
      minimum lifts it back up. */
  lemma RoundTripAgreement(ttl: int, c: Config)
    requires 0 <= c.minInterval && SECOND <= Interval(ttl, 0, c)
    ensures (forall quiet | quiet >= 0 :: Interval(RoundTrip(Interval(ttl, 0, c)), quiet, c) == Interval(ttl, quiet, c))
       <==> Interval(ttl, 0, c) % SECOND == 0 || Interval(ttl, 0, c) <= c.minInterval
  {
    var v := Interval(ttl, 0, c);
    assert c.quietPollsPerDouble > 0 ==> Quotient(0, c.quietPollsPerDouble) == 0;
    assert v == Min(c.maxInterval, Base(ttl, c));
    if v % SECOND == 0 {
      forall quiet ensures Interval(RoundTrip(v), quiet, c) == Interval(ttl, quiet, c) {
        ClosedOfClosed(ttl, quiet, c);
      }
    } else if v <= c.minInterval {
      forall quiet ensures Interval(RoundTrip(v), quiet, c) == Interval(ttl, quiet, c) {
        DoubledStaysAbove(Base(ttl, c), Doublings(quiet, c));
        DoubledStaysAbove(c.minInterval, Doublings(quiet, c));
      }
    } else {
      assert Interval(RoundTrip(v), 0, c) != v;
    }
  }

  /** What a 304 schedules from, once `ok` has been recorded in the feed's row. */
  function StoredAfter(row: Feed, ok: FetchOK): int { FeedOK(row, ok).pollIntervalS * SECOND }

  /** A poll schedules the same after a 304 as after a quiet 200, whatever the quiet run. */
  ghost predicate SchedulesAlike(stored: int, ttl: int, c: Config) {
    forall quiet | quiet >= 0 :: NextIntervalOf(stored, quiet, c) == NextIntervalOf(ttl, quiet, c)
  }

  /** A 304 schedules from the stored interval, a quiet 200 from the document's ttl. Once a document has been
      recorded they agree for every quiet run exactly when its interval is a whole number of seconds or at
      most the minimum -- or, below one second, where the row keeps the interval it had, when it is the
      maximum. */
  lemma ScheduleAgreement(row: Feed, ok: FetchOK, ttl: int, c: Config)
    requires 0 <= c.minInterval && c.maxInterval <= TWO62 && 0 < row.pollIntervalS
    requires ok.pollInterval == NextIntervalOf(ttl, 0, c)
    ensures SchedulesAlike(StoredAfter(row, ok), ttl, c)
       <==> if SECOND <= ok.pollInterval then ok.pollInterval % SECOND == 0 || ok.pollInterval <= c.minInterval
            else ok.pollInterval == c.maxInterval
  {
    var v, stored := ok.pollInterval, StoredAfter(row, ok);
    ClosedForm(ttl, 0, c);
    AlikeOnIntervals(stored, ttl, c);
    if SECOND <= v {
      assert stored == RoundTrip(v);
      RoundTripAgreement(ttl, c);
    } else {
      assert stored == row.pollIntervalS * SECOND;
      ShortAgreement(stored, ttl, c);
    }
  }

  lemma AlikeOnIntervals(stored: int, ttl: int, c: Config)
    requires 0 <= c.minInterval && c.maxInterval <= TWO62
    ensures SchedulesAlike(stored, ttl, c) <==> forall quiet | quiet >= 0 :: Interval(stored, quiet, c) == Interval(ttl, quiet, c)
  {
    forall quiet ensures NextIntervalOf(stored, quiet, c) == Interval(stored, quiet, c)
                 ensures NextIntervalOf(ttl, quiet, c) == Interval(ttl, quiet, c)
    {
      ClosedForm(stored, quiet, c);
      ClosedForm(ttl, quiet, c);
    }
    if SchedulesAlike(stored, ttl, c) {
      forall quiet | quiet >= 0 ensures Interval(stored, quiet, c) == Interval(ttl, quiet, c) {
        assert NextIntervalOf(stored, quiet, c) == NextIntervalOf(ttl, quiet, c);
      }
    }
  }

  lemma ShortAgreement(stored: int, ttl: int, c: Config)
    requires 0 <= c.minInterval && SECOND <= stored && Interval(ttl, 0, c) < SECOND
    ensures (forall quiet | quiet >= 0 :: Interval(stored, quiet, c) == Interval(ttl, quiet, c))
       <==> Interval(ttl, 0, c) == c.maxInterval
  {
    assert c.quietPollsPerDouble > 0 ==> Quotient(0, c.quietPollsPerDouble) == 0;
    assert Interval(ttl, 0, c) == Min(c.maxInterval, Base(ttl, c));
    assert Interval(stored, 0, c) == Min(c.maxInterval, Base(stored, c));
    if Interval(ttl, 0, c) == c.maxInterval {
      forall quiet ensures Interval(stored, quiet, c) == Interval(ttl, quiet, c) {
        DoubledStaysAbove(Base(ttl, c), Doublings(quiet, c));
        DoubledStaysAbove(Base(stored, c), Doublings(quiet, c));
      }
    } else {
      assert Interval(stored, 0, c) != Interval(ttl, 0, c);
    }
  }

  // ---- Backoff

  /** time.Duration(x): a float becomes an integer by truncation toward zero. */
  function Truncate(x: real): int { if x >= 0.0 then x.Floor else -(-x).Floor }

  /** d * (0.9 + 0.2 * rnd), in exact arithmetic. */
  function Jittered(d: int, rnd: real): int { Truncate(d as real * (0.9 + 0.2 * rnd)) }

  predicate Pinned(failCount: int, status: int, c: Config) {
    (status == 404 || status == 410) && failCount >= c.goneAfterFailures
  }

  /** The wait before jitter. */
  function Delay(base: int, failCount: int, retryAfter: int, c: Config): int {
    Max(Min(c.maxBackoff, Grow(if base <= 0 then c.defaultInterval else base, failCount, c.maxBackoff)), retryAfter)
  }

  function BackoffOf(base: int, failCount: int, retryAfter: int, status: int, c: Config, rnd: real): int {
    if Pinned(failCount, status, c) then 24 * HOUR
    else Jittered(Delay(base, failCount, retryAfter, c), rnd)
  }

  method Backoff(base: int, failCount: int, retryAfter: int, status: int, c: Config, rnd: real) returns (wait: int)
    ensures wait == BackoffOf(base, failCount, retryAfter, status, c, rnd)
  {
    if (status == 404 || status == 410) && failCount >= c.goneAfterFailures {
      return 24 * HOUR;
    }
    var d := base;
    if d <= 0 {
      d := c.defaultInterval;
    }
    ghost var first := d;
    var i := 0;
    while i < failCount && d < c.maxBackoff
      invariant 0 <= i
      invariant Grow(d, failCount - i, c.maxBackoff) == Grow(first, failCount, c.maxBackoff)
    {
      d := Wrap(d * 2);
      i := i + 1;
    }
    if d > c.maxBackoff {
      d := c.maxBackoff;
    }
    if retryAfter > d {
      d := retryAfter;
    }
    wait := Jittered(d, rnd);
  }

  /** The base doubled once per failure and capped, or Retry-After if that is longer. */
  function ClosedDelay(base: int, n: nat, retryAfter: int, c: Config): int {
    Max(Capped(if base <= 0 then c.defaultInterval else base, n, c.maxBackoff), retryAfter)
  }

  /** What the wait before jitter is at the n-th failure in a row. */
  lemma DelayClosedForm(base: int, n: nat, retryAfter: int, c: Config)
    requires 0 < c.defaultInterval && c.maxBackoff <= TWO62
    ensures Delay(base, n, retryAfter, c) == ClosedDelay(base, n, retryAfter, c)
  {
    GrowIsCapped(if base <= 0 then c.defaultInterval else base, n, c.maxBackoff);
  }

  /** The loop delivers that for every base, every run of failures and every Retry-After exactly when the cap
      is at most 2^62. */
  lemma DelayClosedFormIff(c: Config)
    requires 0 < c.defaultInterval
    ensures (forall base: int, n: nat, retryAfter: int :: Delay(base, n, retryAfter, c) == ClosedDelay(base, n, retryAfter, c))
       <==> c.maxBackoff <= TWO62
  {
    if c.maxBackoff <= TWO62 {
      forall base: int, n: nat, retryAfter: int ensures Delay(base, n, retryAfter, c) == ClosedDelay(base, n, retryAfter, c) {
        DelayClosedForm(base, n, retryAfter, c);
      }
    } else {
      DelayOverflows(c);
      assert Delay(TWO62, 1, 0, c) != ClosedDelay(TWO62, 1, 0, c);
    }
  }

  /** Above that a base of 2^62 overflows at the first failure, and the retry is due at once. */
  lemma DelayOverflows(c: Config)
    requires TWO62 < c.maxBackoff
    ensures Delay(TWO62, 1, 0, c) == 0 && TWO62 < ClosedDelay(TWO62, 1, 0, c)
  {
    assert Grow(TWO62, 1, c.maxBackoff) == Grow(Wrap(TWO62 * 2), 0, c.maxBackoff);
    assert Pow2(1) == 2 * Pow2(0);
  }

  /** One more failure never shortens the wait before jitter. */
  lemma DelayMonotone(base: int, m: nat, n: nat, retryAfter: int, c: Config)
    requires 0 < c.defaultInterval && c.maxBackoff <= TWO62 && m <= n
    ensures Delay(base, m, retryAfter, c) <= Delay(base, n, retryAfter, c)
  {
    DelayClosedForm(base, m, retryAfter, c);
    DelayClosedForm(base, n, retryAfter, c);
    Pow2Monotone(m, n);
    var b := if base <= 0 then c.defaultInterval else base;
    ProductMonotone(b, b, Pow2(m), Pow2(n));
  }

  /** Jitter comes last: the wait lies in [floor(0.9 D), 1.1 D). */
  lemma JitterRange(base: int, failCount: int, retryAfter: int, status: int, c: Config, rnd: real)
    requires 0.0 <= rnd < 1.0 && !Pinned(failCount, status, c)
    requires 0 < Delay(base, failCount, retryAfter, c)
    ensures var d := Delay(base, failCount, retryAfter, c);
      var wait := BackoffOf(base, failCount, retryAfter, status, c, rnd);
      9 * d / 10 <= wait && 10 * wait < 11 * d
  {
    JitterBounds(Delay(base, failCount, retryAfter, c), rnd);
  }

  lemma JitterBounds(d: int, rnd: real)
    requires 0 < d && 0.0 <= rnd < 1.0
    ensures 9 * d / 10 <= Jittered(d, rnd) && 10 * Jittered(d, rnd) < 11 * d
  {
    var x := d as real * (0.9 + 0.2 * rnd);
    Fraction(d as real, rnd);
    Distribute(d as real, rnd);
    FloorBetween(d, x);
  }

  lemma Fraction(d: real, r: real)
    requires 0.0 < d && 0.0 <= r < 1.0
    ensures 0.0 <= d * r < d
  {
    Positive(d, 1.0 - r);
    assert d * (1.0 - r) == d - d * r;
    if r > 0.0 {
      Positive(d, r);
    }
  }

  lemma Positive(a: real, b: real)
    requires 0.0 < a && 0.0 < b
    ensures 0.0 < a * b
  {}

  lemma Distribute(d: real, r: real)
    ensures d * (0.9 + 0.2 * r) == 0.9 * d + 0.2 * (d * r)
  {}

  lemma FloorBetween(d: int, x: real)
    requires 0 < d && d as real * 0.9 <= x < d as real * 1.1
    ensures 0.0 <= x && 9 * d / 10 <= x.Floor && 10 * x.Floor < 11 * d
  {
    assert (9 * d / 10) as real <= d as real * 0.9;
    assert x.Floor as real <= x;
  }

  lemma LeastJitter(d: int)
    requires 0 <= d
    ensures Jittered(d, 0.0) == 9 * d / 10
  {
    assert d as real * (0.9 + 0.2 * 0.0) == (9 * d) as real / 10.0;
  }

  lemma NoJitter(rnd: real)
    ensures Jittered(0, rnd) == 0
  {
    assert 0 as real * (0.9 + 0.2 * rnd) == 0.0;
  }

  /** The scheduled wait covers a Retry-After for every jitter exactly when: under the daily pin, it is at most
      24 hours; otherwise, nine tenths of the delay cover it. So a Retry-After that wins over the exponential
      delay, being the delay itself, can be cut by a tenth, and one that meets the pin by any share. */
  lemma HonoursRetryAfter(base: int, failCount: int, retryAfter: int, status: int, c: Config)
    requires 0 <= retryAfter
    ensures (forall rnd: real | 0.0 <= rnd < 1.0 :: BackoffOf(base, failCount, retryAfter, status, c, rnd) >= retryAfter)
       <==> if Pinned(failCount, status, c) then retryAfter <= 24 * HOUR
            else 9 * Delay(base, failCount, retryAfter, c) / 10 >= retryAfter
    ensures !Pinned(failCount, status, c) && 0 < retryAfter && Delay(base, failCount, 0, c) <= retryAfter
       ==> BackoffOf(base, failCount, retryAfter, status, c, 0.0) < retryAfter
  {
    var least: real := 0.0;
    var d := Delay(base, failCount, retryAfter, c);
    LeastJitter(d);
    if Pinned(failCount, status, c) {
      assert BackoffOf(base, failCount, retryAfter, status, c, least) == 24 * HOUR;
      return;
    }
    assert BackoffOf(base, failCount, retryAfter, status, c, least) == 9 * d / 10;
    if 9 * d / 10 >= retryAfter {
      forall rnd: real | 0.0 <= rnd < 1.0 ensures BackoffOf(base, failCount, retryAfter, status, c, rnd) >= retryAfter {
        if d == 0 {
          NoJitter(rnd);
        } else {
          JitterBounds(d, rnd);
        }
      }
    }
  }

  /** What the service runs with. */
  function DefaultConfig(): Config {
    Config(300 * SECOND, 900 * SECOND, 2 * HOUR, 6, 6 * HOUR, 5, 60 * SECOND, 300, 14 * 24 * HOUR, 14 * 24 * HOUR)
  }

  /** The service's settings, in what they lead to: 15 minutes for want of a ttl, never less than 5; twice that
      after 6 quiet polls, 4 times after 12, 2 hours at most; 30 minutes after a first failure, 6 hours at most;
      and the pin from the fifth. */
  lemma DefaultsMean()
    ensures var c := DefaultConfig();
      && NextIntervalOf(0, 5, c) == 900_000_000_000 && NextIntervalOf(1, 0, c) == 300_000_000_000
      && NextIntervalOf(0, 6, c) == 1800_000_000_000 && NextIntervalOf(0, 12, c) == 3600_000_000_000
      && NextIntervalOf(0, 18, c) == NextIntervalOf(0, 24, c) == 7200_000_000_000
      && Delay(0, 1, 0, c) == 1800_000_000_000 && Delay(0, 5, 0, c) == 21600_000_000_000
      && c.goneAfterFailures == 5 && c.lockFor == 60_000_000_000 && c.keepItems == 300 && c.keepFor == c.evictAfter == 14 * 86400_000_000_000
  {
    var c := DefaultConfig();
    assert Pow2(0) == 1 && Pow2(1) == 2 && Pow2(2) == 4 && Pow2(3) == 8 && Pow2(4) == 16 && Pow2(5) == 32;
    NextIntervalMeans(0, 5, 0, c);
    NextIntervalMeans(1, 0, 0, c);
    NextIntervalMeans(0, 6, 1, c);
    NextIntervalMeans(0, 12, 2, c);
    NextIntervalMeans(0, 18, 3, c);
    NextIntervalMeans(0, 24, 4, c);
    DelayClosedForm(0, 1, 0, c);
    DelayClosedForm(0, 5, 0, c);
  }

  /** By default the fifth failure, a 410 that asks for two days, is tried again after one. With a cap above two
      days the delay would have covered them, and the wait is still one. */
  lemma PinCutsRetryAfter(base: int, rnd: real)
    ensures BackoffOf(base, 5, 48 * HOUR, 410, DefaultConfig(), rnd) == 24 * HOUR
    ensures var c := DefaultConfig().(maxBackoff := 60 * HOUR);
      9 * Delay(60 * HOUR, 5, 48 * HOUR, c) / 10 >= 48 * HOUR && BackoffOf(60 * HOUR, 5, 48 * HOUR, 410, c, rnd) == 24 * HOUR
  {}

  /** The cap is kept for every jitter exactly when: under the pin, a day is within it; otherwise, eleven tenths
      of the delay stay below the next nanosecond. A delay that reaches a cap of more than 10ns breaks it. */
  lemma WithinCapIff(base: int, failCount: int, retryAfter: int, status: int, c: Config)
    requires 0 <= retryAfter && 0 <= c.maxBackoff
    ensures (forall rnd: real | 0.0 <= rnd < 1.0 :: BackoffOf(base, failCount, retryAfter, status, c, rnd) <= c.maxBackoff)
       <==> if Pinned(failCount, status, c) then 24 * HOUR <= c.maxBackoff
            else 11 * Delay(base, failCount, retryAfter, c) <= 10 * (c.maxBackoff + 1)
  {
    var some: real := 0.0;
    var d := Delay(base, failCount, retryAfter, c);
    if Pinned(failCount, status, c) {
      assert BackoffOf(base, failCount, retryAfter, status, c, some) == 24 * HOUR;
      return;
    }
    if 11 * d <= 10 * (c.maxBackoff + 1) {
      forall rnd: real | 0.0 <= rnd < 1.0 ensures BackoffOf(base, failCount, retryAfter, status, c, rnd) <= c.maxBackoff {
        if d == 0 {
          NoJitter(rnd);
        } else {
          JitterBounds(d, rnd);
        }
      }
    } else {
      var rnd := JitterReaching(d, c.maxBackoff + 1);
      assert BackoffOf(base, failCount, retryAfter, status, c, rnd) > c.maxBackoff;
    }
  }

  /** Every whole number below 1.1 d is reached by some jitter. */
  lemma JitterReaching(d: int, m: int) returns (rnd: real)
    requires 0 < m && 10 * m < 11 * d
    ensures 0.0 <= rnd < 1.0 && m <= Jittered(d, rnd)
  {
    if 10 * m <= 9 * d {
      LeastJitter(d);
      return 0.0;
    }
    var q := Ratio(m as real, d as real);
    rnd := 5.0 * (q - 0.9);
    assert 0.9 + 0.2 * rnd == q;
  }

  lemma Ratio(m: real, d: real) returns (q: real)
    requires 0.0 < d && 0.9 * d < m < 1.1 * d
    ensures q * d == m && d * q == m && 0.9 < q < 1.1
  {
    q := m / d;
    assert q * d == m;
    if q <= 0.9 {
      NotAbove(q, 0.9, d);
    }
    if q >= 1.1 {
      NotAbove(1.1, q, d);
    }
  }

  lemma NotAbove(p: real, q: real, d: real)
    requires p <= q && 0.0 < d
    ensures p * d <= q * d
  {
    assert (q - p) * d >= 0.0;
  }

  /** By default a feed polled every two hours waits longer than the cap after its second failure, for a
      quarter of all jitters. */
  lemma CapExceeded(rnd: real)
    requires 0.75 <= rnd < 1.0
    ensures BackoffOf(2 * HOUR, 2, 0, 500, DefaultConfig(), rnd) > DefaultConfig().maxBackoff
  {
    var c := DefaultConfig();
    assert Grow(2 * HOUR, 2, c.maxBackoff) == Grow(4 * HOUR, 1, c.maxBackoff) == Grow(8 * HOUR, 0, c.maxBackoff) == 8 * HOUR;
    assert Delay(2 * HOUR, 2, 0, c) == 6 * HOUR;
    assert (6 * HOUR) as real * (0.9 + 0.2 * rnd) >= (6 * HOUR) as real * 1.05;
  }

  /** A day for a 404 or 410 that completes the run; otherwise the base, or the default for want of one, doubled
      once per failure and capped, or Retry-After if that is longer, times 0.9 to 1.1 as the jitter has it. */
  lemma BackoffMeans(base: int, n: nat, retryAfter: int, status: int, c: Config, rnd: real, d: int)
    requires 0 < c.defaultInterval && 0 <= retryAfter && c.maxBackoff <= 0x4000_0000_0000_0000 && 0.0 <= rnd < 1.0
    requires var doubled := (if base > 0 then base else c.defaultInterval) * Pow2(n);
      var capped := if doubled < c.maxBackoff then doubled else c.maxBackoff;
      d == if retryAfter > capped then retryAfter else capped
    ensures var wait := BackoffOf(base, n, retryAfter, status, c, rnd);
      if (status == 404 || status == 410) && n >= c.goneAfterFailures then wait == 86_400_000_000_000
      else wait as real <= d as real * (0.9 + 0.2 * rnd) < (wait + 1) as real
  {
    DelayClosedForm(base, n, retryAfter, c);
    assert Delay(base, n, retryAfter, c) == d;
    JitteredMeans(d, rnd);
  }

  lemma JitteredMeans(d: int, rnd: real)
    requires 0 <= d && 0.0 <= rnd < 1.0
    ensures Jittered(d, rnd) as real <= d as real * (0.9 + 0.2 * rnd) < (Jittered(d, rnd) + 1) as real
  {
    if d == 0 {
      assert d as real * (0.9 + 0.2 * rnd) == 0.0;
    } else {
      Fraction(d as real, rnd);
      Distribute(d as real, rnd);
    }
  }

  /** int64: the result differs by a multiple of 2^64, and is in range. */
  lemma WrapMeans(x: int)
    ensures exists k: int :: Wrap(x) == x + k * 0x1_0000_0000_0000_0000
    ensures -0x8000_0000_0000_0000 <= Wrap(x) < 0x8000_0000_0000_0000
  {
    var k := -((x + TWO63) / (2 * TWO63));
    assert Wrap(x) == x + k * 0x1_0000_0000_0000_0000;
  }
}
