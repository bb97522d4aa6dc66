/** How long the worker waits between failed attempts to reach its queue. Times are in milliseconds. */
module Backoff {
  import opened Basics

  const MAXIMUM_BACKOFF := 60000
  const REPEAT_FAILURE_LOG_AFTER := 300000

  function Pow2(n: nat): (p: nat)
    ensures p >= 1
  {
    if n == 0 then 1 else 2 * Pow2(n - 1)
  }

  function BackoffDelay(poll: int, failures: int): int {
    if failures < 1 then poll
    else Min(poll * Pow2(Min(failures - 1, 31)), MAXIMUM_BACKOFF)
  }

  lemma {:induction false} Pow2Grows(m: nat, n: nat)
    requires m <= n
    ensures Pow2(m) <= Pow2(n)
    decreases n
  {
    if m < n {
      Pow2Grows(m, n - 1);
    }
  }

  lemma SixteenDoublings()
    ensures Pow2(16) == 65536
  {
    assert Pow2(4) == 16;
    assert Pow2(8) == 256;
    assert Pow2(12) == 4096;
  }

  lemma Times(a: int, p: int, q: int)
    requires a >= 0 && p <= q
    ensures a * p <= a * q
  {
  }

  /** Capping the exponent changes nothing: the delay is the doubled interval, cut at a minute. */
  lemma BackoffIsCappedDoubling(poll: int, k: int)
    requires poll >= 1 && k >= 1
    ensures BackoffDelay(poll, k) == Min(poll * Pow2(k - 1), MAXIMUM_BACKOFF)
  {
    if k - 1 > 31 {
      SixteenDoublings();
      Pow2Grows(16, 31);
      Pow2Grows(16, k - 1);
      Times(poll, 65536, Pow2(31));
      Times(poll, 65536, Pow2(k - 1));
    }
  }

  lemma BackoffNeverShortens(poll: int, j: int, k: int)
    requires poll >= 1 && 1 <= j <= k
    ensures BackoffDelay(poll, j) <= BackoffDelay(poll, k) <= MAXIMUM_BACKOFF
  {
    BackoffIsCappedDoubling(poll, j);
    BackoffIsCappedDoubling(poll, k);
    Pow2Grows(j - 1, k - 1);
    Times(poll, Pow2(j - 1), Pow2(k - 1));
  }

  /** Whatever the interval, a sustained outage settles at the ceiling of a minute by its seventeenth failure. */
  lemma BackoffReachesCeiling(poll: int, k: int)
    requires poll >= 1 && k >= 17
    ensures BackoffDelay(poll, k) == 60 * 1000
  {
    BackoffIsCappedDoubling(poll, k);
    SixteenDoublings();
    Pow2Grows(16, k - 1);
    Times(poll, 65536, Pow2(k - 1));
  }

  /** The seventeenth is the first failure of which that is true for a one-millisecond interval. */
  lemma SixteenFailuresAreNotEnough()
    ensures BackoffDelay(1, 16) < MAXIMUM_BACKOFF
  {
    assert Pow2(16) == 2 * Pow2(15);
    SixteenDoublings();
  }

  /** The first failure waits the ordinary interval exactly when that interval is within the ceiling. */
  lemma FirstFailureWait(poll: int)
    ensures BackoffDelay(poll, 1) == poll <==> poll <= MAXIMUM_BACKOFF
  {
    assert poll * Pow2(0) == poll;
  }
}
