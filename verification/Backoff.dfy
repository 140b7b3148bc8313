/** Exponential retry backoff before jitter. `Duration` is Go's 64-bit nanosecond count, so
    every product in the loop is shown to fit. */
module Backoff {
  import opened Prelude

  newtype Duration = d: int | -0x8000_0000_0000_0000 <= d <= 0x7fff_ffff_ffff_ffff

  const DEFAULT_BASE: Duration := 1_000_000_000
  const DEFAULT_MAX: Duration := 86_400_000_000_000

  function Pow2(n: nat): nat {
    if n == 0 then 1 else 2 * Pow2(n - 1)
  }

  function BaseOf(base: Duration): Duration {
    if base <= 0 then DEFAULT_BASE else base
  }

  function MaxOf(max: Duration): Duration {
    if max <= 0 then DEFAULT_MAX else max
  }

  /** base * 2^(attempt - 1), capped, over unbounded integers. */
  function ClosedForm(base: Duration, max: Duration, attempt: int): int {
    Min(BaseOf(base) as int * Pow2(if attempt <= 1 then 0 else attempt - 1), MaxOf(max) as int)
  }

  lemma {:induction false} Pow2Monotone(m: nat, n: nat)
    requires m <= n
    ensures Pow2(m) <= Pow2(n)
  {
    if m < n {
      Pow2Monotone(m, n - 1);
    }
  }

  lemma ScaledPow2Monotone(b: nat, m: nat, n: nat)
    requires m <= n
    ensures b * Pow2(m) <= b * Pow2(n)
  {
    Pow2Monotone(m, n);
    assert b * (Pow2(n) - Pow2(m)) >= 0;
  }

  /** The first delay is the base, each further one doubles until the maximum; the defaults are
      a second and a day. */
  lemma DelayDoubles(base: Duration, max: Duration, attempt: int)
    ensures base > 0 && attempt <= 1 ==> ClosedForm(base, max, attempt) == Min(base as int, MaxOf(max) as int)
    ensures attempt >= 1 ==>
      ClosedForm(base, max, attempt + 1) == Min(2 * ClosedForm(base, max, attempt), MaxOf(max) as int)
    ensures base <= 0 ==> ClosedForm(base, max, attempt) == ClosedForm(1_000_000_000, max, attempt)
    ensures max <= 0 ==> ClosedForm(base, max, attempt) == ClosedForm(base, 86_400_000_000_000, attempt)
    ensures max > 0 ==> MaxOf(max) == max
  {
    if attempt >= 1 {
      var b := BaseOf(base) as int;
      assert b * Pow2(attempt) == 2 * (b * Pow2(attempt - 1));
      ScaledPow2Monotone(b, 0, attempt - 1);
    }
  }

  /** Later attempts never wait less. */
  lemma DelayNondecreasing(base: Duration, max: Duration, a: int, b: int)
    requires a <= b
    ensures ClosedForm(base, max, a) <= ClosedForm(base, max, b)
  {
    ScaledPow2Monotone(BaseOf(base) as int, if a <= 1 then 0 else a - 1, if b <= 1 then 0 else b - 1);
  }

  method RetryDelay(base: Duration, max: Duration, attempt: int) returns (delay: Duration)
    ensures delay as int == ClosedForm(base, max, attempt)
    ensures 0 < delay <= MaxOf(max)
  {
    var cap := MaxOf(max);
    delay := BaseOf(base);
    var n := 1;
    ghost var b := BaseOf(base) as int;
    while n < attempt && delay < cap
      invariant 1 <= n && (n <= attempt || n == 1)
      invariant delay > 0
      invariant delay as int == b * Pow2(n - 1)
      decreases attempt - n
    {
      assert b * Pow2(n) == 2 * (b * Pow2(n - 1));
      if delay > cap / 2 {
        delay := cap;
        ScaledPow2Monotone(b, n, attempt - 1);
        break;
      }
      delay := delay * 2;
      n := n + 1;
    }
    if delay > cap {
      delay := cap;
    }
    if n < attempt {
      ScaledPow2Monotone(b, n - 1, attempt - 1);
    }
  }
}
