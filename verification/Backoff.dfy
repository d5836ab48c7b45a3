/** Worker options and the retry delay of the post-process workers (times are integers, as time.Duration is). */
module Backoff {

  datatype WorkerOptions = WorkerOptions(
    pollInterval: int, batchSize: int, workerCount: int, lease: int,
    maxAttempts: int, retryBase: int, retryMax: int)

  const MILLISECOND := 1_000_000
  const SECOND := 1000 * MILLISECOND
  const DEFAULTS := WorkerOptions(250 * MILLISECOND, 32, 2, 30 * SECOND, 5, 500 * MILLISECOND, 60 * SECOND)

  function OrDefault(value: int, default: int): int {
    if value <= 0 then default else value
  }

  predicate Usable(o: WorkerOptions) {
    && o.pollInterval > 0 && o.batchSize > 0 && o.workerCount > 0 && o.lease > 0 && o.maxAttempts > 0
    && 0 < o.retryBase <= o.retryMax
  }

  /** Every option set is made usable, and one that already is stays as it was. */
  function Normalize(o: WorkerOptions): (r: WorkerOptions)
    ensures Usable(r)
    ensures Usable(o) ==> r == o
    // what is missing is, in nanoseconds, a quarter of a second between polls, half a minute of lease and so on
    ensures r.pollInterval == (if o.pollInterval > 0 then o.pollInterval else 250_000_000)
    ensures r.batchSize == (if o.batchSize > 0 then o.batchSize else 32)
    ensures r.workerCount == (if o.workerCount > 0 then o.workerCount else 2)
    ensures r.lease == (if o.lease > 0 then o.lease else 30_000_000_000)
    ensures r.maxAttempts == (if o.maxAttempts > 0 then o.maxAttempts else 5)
    ensures r.retryMax == (if o.retryMax > 0 then o.retryMax else 60_000_000_000)
    ensures o.retryBase > 0 ==> r.retryBase == if o.retryBase > r.retryMax then r.retryMax else o.retryBase
    ensures o.retryBase <= 0 ==> r.retryBase == if r.retryMax < 500_000_000 then r.retryMax else 500_000_000
  {
    var base := OrDefault(o.retryBase, DEFAULTS.retryBase);
    var most := OrDefault(o.retryMax, DEFAULTS.retryMax);
    WorkerOptions(
      OrDefault(o.pollInterval, DEFAULTS.pollInterval),
      OrDefault(o.batchSize, DEFAULTS.batchSize),
      OrDefault(o.workerCount, DEFAULTS.workerCount),
      OrDefault(o.lease, DEFAULTS.lease),
      OrDefault(o.maxAttempts, DEFAULTS.maxAttempts),
      if base > most then most else base,
      most)
  }

  function Pow2(n: nat): (r: int)
    ensures r >= 1
  {
    if n == 0 then 1 else 2 * Pow2(n - 1)
  }

  /** The capped exponential: min(max, base * 2^(attempt - 1)). */
  function Capped(attempt: int, base: int, most: int): int {
    var delay := base * Pow2(if attempt <= 1 then 0 else attempt - 1);
    if most <= delay then most else delay
  }

  lemma {:induction false} Pow2Monotone(m: nat, n: nat)
    requires m <= n
    ensures Pow2(m) <= Pow2(n)
    decreases n
  {
    if m < n {
      Pow2Monotone(m, n - 1);
    }
  }

  lemma ScaledMonotone(base: int, m: nat, n: nat)
    requires base > 0 && m <= n
    ensures base <= base * Pow2(m) <= base * Pow2(n)
  {
    Pow2Monotone(m, n);
    assert base * Pow2(m) <= base * Pow2(n) by { MulMonotone(base, Pow2(m), Pow2(n)); }
    MulMonotone(base, 1, Pow2(m));
  }

  lemma MulMonotone(b: int, x: int, y: int)
    requires b > 0 && x <= y
    ensures b * x <= b * y
  {
    assert b * (y - x) >= 0;
  }

  /** Delays never decrease and stay within [base, max]. */
  lemma DelaysGrowWithinBounds(m: int, n: int, base: int, most: int)
    requires m <= n && 0 < base <= most
    ensures base <= Capped(m, base, most) <= Capped(n, base, most) <= most
  {
    ScaledMonotone(base, if m <= 1 then 0 else m - 1, if n <= 1 then 0 else n - 1);
  }

  /** The first delay is the base, and each one after it is twice the one before, up to the maximum. */
  lemma DelaysDouble(attempt: int, base: int, most: int)
    requires attempt >= 1 && 0 < base <= most
    ensures Capped(1, base, most) == base
    ensures Capped(attempt + 1, base, most) == if 2 * Capped(attempt, base, most) < most then 2 * Capped(attempt, base, most) else most
  {
    ScaledMonotone(base, attempt - 1, attempt);
    assert base * Pow2(attempt) == 2 * (base * Pow2(attempt - 1));
  }

  /** The doubling loop of retryDelay. */
  method RetryDelay(attempt: int, base: int, most: int) returns (delay: int)
    ensures 0 < base <= most ==> delay == Capped(attempt, base, most)
    ensures 0 < base <= most && attempt <= 1 ==> delay == base
    ensures 0 < base <= most && attempt > 1 ==> delay == if base * Pow2(attempt - 1) < most then base * Pow2(attempt - 1) else most
  {
    if attempt <= 1 {
      return base;
    }
    delay := base;
    var i := 1;
    while i < attempt
      invariant 1 <= i <= attempt
      // in particular no doubling ever went past the maximum, so none could overflow
      invariant 0 < base <= most ==> delay == base * Pow2(i - 1) && delay <= most
    {
      if 0 < base <= most {
        ScaledMonotone(base, i - 1, attempt - 1);
        ScaledMonotone(base, i, attempt - 1);
        assert base * Pow2(i) == 2 * (base * Pow2(i - 1));
      }
      if delay >= most {
        return most;
      }
      if delay > most / 2 {
        return most;
      }
      delay := delay * 2;
      i := i + 1;
    }
    if delay > most {
      return most;
    }
  }
}
