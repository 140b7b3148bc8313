/** Definitions shared by every part of the model. Instants are integer counts of
    nanoseconds since Go's zero time (1 January of year 1, UTC), so that the zero
    instant is 0 and `Truncate` needs no offset. */
module Prelude {

  datatype Option<+T> = None | Some(value: T)

  const ZERO_TIME: int := 0

  /** 1 January 1970 in nanoseconds since Go's zero time. */
  const UNIX_EPOCH: int := 62_135_596_800_000_000_000

  const MAX_INT64: int := 0x7fff_ffff_ffff_ffff

  const MILLISECOND: int := 1_000_000

  const SECOND: int := 1_000_000_000

  /** The Unix epoch is 1969 years after Go's zero time, 477 of them leap years. */
  lemma UnixEpochIsRight()
    ensures 1969 / 4 - 1969 / 100 + 1969 / 400 == 477
    ensures UNIX_EPOCH == (1969 * 365 + 477) * 86_400 * 1_000_000_000
  {
  }

  function Max(a: int, b: int): int {
    if a < b then b else a
  }

  function Min(a: int, b: int): int {
    if a < b then a else b
  }

  /** The latest multiple of `period` on or before `t`. */
  function Truncate(t: int, period: int): (r: int)
    requires period > 0
    ensures r <= t < r + period
  {
    t / period * period
  }

  lemma MultiplierOrder(a: int, b: int, d: int)
    requires d >= 1 && a * d < b * d
    ensures a < b
  {
    assert (b - a) * d > 0;
  }

  lemma QuotientBound(q: int, d: int, n: int)
    requires d >= 1 && q * d <= n
    ensures q <= n / d
  {
    assert q * d < (n / d + 1) * d;
    MultiplierOrder(q, n / d + 1, d);
  }

  /** `Truncate` finds the only multiple of the period within one period below `t`. */
  lemma TruncateUnique(t: int, period: int, q: int)
    requires period > 0 && q * period <= t < q * period + period
    ensures Truncate(t, period) == q * period
  {
    var b := t / period;
    assert b * period <= t < (b + 1) * period;
    assert t < (q + 1) * period;
    MultiplierOrder(b, q + 1, period);
    MultiplierOrder(q, b + 1, period);
  }

  /** A set of indices between two bounds is no larger than the span. */
  lemma {:induction false} IndexSetBound(s: set<nat>, lo: nat, hi: int)
    requires lo <= hi + 1
    requires forall i :: i in s ==> lo <= i <= hi
    ensures |s| <= hi - lo + 1
    decreases hi - lo + 1
  {
    if lo == hi + 1 {
      assert s == {};
    } else {
      IndexSetBound(s - {hi}, lo, hi - 1);
      assert s <= (s - {hi}) + {hi};
      assert |s| <= |s - {hi}| + 1;
    }
  }

  lemma SubsetSize<T>(a: set<T>, b: set<T>)
    requires a <= b
    ensures |a| <= |b|
  {
    assert b == a + (b - a);
  }

  lemma LeastIndex(s: set<nat>) returns (m: nat)
    requires s != {}
    ensures m in s && forall i :: i in s ==> m <= i
  {
    var x :| x in s;
    m := x;
    if s - {x} != {} {
      var rest := LeastIndex(s - {x});
      m := if rest < x then rest else x;
    }
    assert forall i :: i in s ==> i == x || i in s - {x};
  }

  lemma GreatestIndex(s: set<nat>) returns (m: nat)
    requires s != {}
    ensures m in s && forall i :: i in s ==> i <= m
  {
    var x :| x in s;
    m := x;
    if s - {x} != {} {
      var rest := GreatestIndex(s - {x});
      m := if x < rest then rest else x;
    }
    assert forall i :: i in s ==> i == x || i in s - {x};
  }
}
