/** The generic cell rate algorithm on histories. `Tat` is the cursor that a
    virtual-scheduling limiter (ATM Forum Traffic Management Specification 4.0,
    section 4.4.2) holds after a history of permits; the lemmas say what that cursor
    knows about the history. */
module Gcra {
  import opened Prelude

  datatype Rule = Rule(interval: int, burst: int) {
    predicate Valid() {
      interval >= 1 && burst >= 1
    }

    function Tolerance(): int {
      interval * (burst - 1)
    }
  }

  /** Cursor after permits carrying the given instants, in grant order. */
  function Tat(rule: Rule, origin: int, grants: seq<int>): int {
    if |grants| == 0 then origin
    else Max(Tat(rule, origin, grants[..|grants| - 1]), grants[|grants| - 1]) + rule.interval
  }

  predicate Admits(rule: Rule, cursor: int, now: int) {
    cursor - rule.Tolerance() <= now
  }

  /** Every permit was admitted by the cursor its predecessors left behind. */
  ghost predicate Conforming(rule: Rule, origin: int, grants: seq<int>) {
    forall k :: 0 <= k < |grants| ==> Admits(rule, Tat(rule, origin, grants[..k]), grants[k])
  }

  /** The rate guarantee, with no cursor in it: permits i <= j lie far enough apart. */
  ghost predicate Spaced(rule: Rule, grants: seq<int>) {
    forall i, j :: 0 <= i <= j < |grants| ==>
      (j - i) * rule.interval <= grants[j] - grants[i] + rule.Tolerance()
  }

  /** The same guarantee against the instant at which the cursor was created. */
  ghost predicate SpacedFrom(rule: Rule, origin: int, grants: seq<int>) {
    forall j :: 0 <= j < |grants| ==> origin + j * rule.interval <= grants[j] + rule.Tolerance()
  }

  lemma {:induction false} TatDominates(rule: Rule, origin: int, grants: seq<int>)
    requires rule.Valid()
    ensures Tat(rule, origin, grants) >= origin + |grants| * rule.interval
    ensures forall i :: 0 <= i < |grants| ==>
      Tat(rule, origin, grants) >= grants[i] + (|grants| - i) * rule.interval
  {
    var n := |grants|;
    if n > 0 {
      TatDominates(rule, origin, grants[..n - 1]);
      assert n * rule.interval == (n - 1) * rule.interval + rule.interval;
      forall i | 0 <= i < n
        ensures Tat(rule, origin, grants) >= grants[i] + (n - i) * rule.interval
      {
        assert (n - i) * rule.interval == (n - 1 - i) * rule.interval + rule.interval;
        if i < n - 1 {
          assert grants[..n - 1][i] == grants[i];
        }
      }
    }
  }

  /** One of the lower bounds of `TatDominates` is attained: -1 stands for the origin. */
  lemma {:induction false} TatAttained(rule: Rule, origin: int, grants: seq<int>) returns (w: int)
    ensures -1 <= w < |grants|
    ensures w == -1 ==> Tat(rule, origin, grants) == origin + |grants| * rule.interval
    ensures w >= 0 ==> Tat(rule, origin, grants) == grants[w] + (|grants| - w) * rule.interval
  {
    var n := |grants|;
    if n == 0 {
      w := -1;
    } else if Tat(rule, origin, grants[..n - 1]) < grants[n - 1] {
      w := n - 1;
    } else {
      w := TatAttained(rule, origin, grants[..n - 1]);
      assert n * rule.interval == (n - 1) * rule.interval + rule.interval;
      assert (n - w) * rule.interval == (n - 1 - w) * rule.interval + rule.interval;
    }
  }

  /** Every further permit moves the cursor forward. */
  lemma {:induction false} TatStrict(rule: Rule, origin: int, grants: seq<int>, k: nat)
    requires rule.Valid() && k < |grants|
    ensures Tat(rule, origin, grants[..k]) < Tat(rule, origin, grants)
    decreases |grants|
  {
    var n := |grants|;
    if k < n - 1 {
      TatStrict(rule, origin, grants[..n - 1], k);
      assert grants[..n - 1][..k] == grants[..k];
    }
  }

  /** The cursor admits a request exactly when appending it keeps the rate guarantee,
      so the limiter is neither too generous nor too strict. */
  lemma AdmitsIffSpaced(rule: Rule, origin: int, grants: seq<int>, now: int)
    requires rule.Valid()
    ensures Admits(rule, Tat(rule, origin, grants), now) <==>
      && origin + |grants| * rule.interval <= now + rule.Tolerance()
      && forall i :: 0 <= i < |grants| ==>
           (|grants| - i) * rule.interval <= now - grants[i] + rule.Tolerance()
  {
    TatDominates(rule, origin, grants);
    var w := TatAttained(rule, origin, grants);
  }

  /** The k-th permit keeps its distance from the origin and from all earlier permits. */
  ghost predicate SpacedAt(rule: Rule, origin: int, grants: seq<int>, k: nat)
    requires k < |grants|
  {
    && origin + k * rule.interval <= grants[k] + rule.Tolerance()
    && forall i :: 0 <= i <= k ==> (k - i) * rule.interval <= grants[k] - grants[i] + rule.Tolerance()
  }

  lemma AdmitsIffSpacedAt(rule: Rule, origin: int, grants: seq<int>, k: nat)
    requires rule.Valid() && k < |grants|
    ensures Admits(rule, Tat(rule, origin, grants[..k]), grants[k]) <==> SpacedAt(rule, origin, grants, k)
  {
    AdmitsIffSpaced(rule, origin, grants[..k], grants[k]);
    assert rule.Tolerance() >= 0;
    assert forall i :: 0 <= i < k ==> grants[..k][i] == grants[i];
  }

  /** Conformance to the cursor and the cursor-free rate guarantee are the same thing. */
  lemma ConformingIffSpaced(rule: Rule, origin: int, grants: seq<int>)
    requires rule.Valid()
    ensures Conforming(rule, origin, grants) <==> Spaced(rule, grants) && SpacedFrom(rule, origin, grants)
  {
    forall k | 0 <= k < |grants|
      ensures Admits(rule, Tat(rule, origin, grants[..k]), grants[k]) <==> SpacedAt(rule, origin, grants, k)
    {
      AdmitsIffSpacedAt(rule, origin, grants, k);
    }
    SpacedPointwise(rule, origin, grants);
  }

  lemma SpacedPointwise(rule: Rule, origin: int, grants: seq<int>)
    ensures (forall k :: 0 <= k < |grants| ==> SpacedAt(rule, origin, grants, k)) <==>
      (Spaced(rule, grants) && SpacedFrom(rule, origin, grants))
  {
    if forall k :: 0 <= k < |grants| ==> SpacedAt(rule, origin, grants, k) {
      forall i, j | 0 <= i <= j < |grants|
        ensures (j - i) * rule.interval <= grants[j] - grants[i] + rule.Tolerance()
      {
        assert SpacedAt(rule, origin, grants, j);
      }
      forall j | 0 <= j < |grants| ensures origin + j * rule.interval <= grants[j] + rule.Tolerance() {
        assert SpacedAt(rule, origin, grants, j);
      }
    }
  }

  lemma TatAppend(rule: Rule, origin: int, grants: seq<int>, now: int)
    ensures Tat(rule, origin, grants + [now]) == Max(Tat(rule, origin, grants), now) + rule.interval
  {
    assert (grants + [now])[..|grants|] == grants;
  }

  lemma AppendConforming(rule: Rule, origin: int, grants: seq<int>, t: int)
    requires Conforming(rule, origin, grants)
    ensures Conforming(rule, origin, grants + [t]) <==> Admits(rule, Tat(rule, origin, grants), t)
  {
    var g := grants + [t];
    assert g[..|grants|] == grants && g[|grants|] == t;
    assert forall k :: 0 <= k < |grants| ==> g[..k] == grants[..k] && g[k] == grants[k];
  }

  /** Positions of the permits whose instant lies in the closed span. */
  ghost function PermitsIn(grants: seq<int>, lo: int, length: nat): (r: set<nat>)
    ensures forall i: nat :: i in r <==> i < |grants| && lo <= grants[i] <= lo + length
  {
    set i: nat | i < |grants| && lo <= grants[i] <= lo + length
  }

  lemma SpanArithmetic(d: int, interval: int, burst: int, length: nat)
    requires interval >= 1 && d * interval <= length + interval * (burst - 1)
    ensures d + 1 <= burst + length / interval
  {
    assert (d - (burst - 1)) * interval == d * interval - interval * (burst - 1);
    QuotientBound(d - (burst - 1), interval, length);
  }

  /** At most burst + floor(length / interval) permits carry an instant in any closed
      span, even when the instants are not in order. */
  lemma SpanBound(rule: Rule, grants: seq<int>, lo: int, length: nat)
    requires rule.Valid() && Spaced(rule, grants)
    ensures |PermitsIn(grants, lo, length)| <= rule.burst + length / rule.interval
  {
    var s := PermitsIn(grants, lo, length);
    if s != {} {
      var first := LeastIndex(s);
      var last := GreatestIndex(s);
      IndexSetBound(s, first, last);
      SpanArithmetic(last - first, rule.interval, rule.burst, length);
    } else {
      assert length / rule.interval >= 0;
    }
  }

  /** When the interval is the period divided by the limit, and the limit is not too large for
      the rounding to show, a period holds exactly `limit` intervals. */
  lemma PeriodHoldsLimit(interval: int, limit: int, period: int)
    requires 1 <= limit <= interval && interval * limit <= period < (interval + 1) * limit
    ensures period / interval == limit
  {
    var q := period / interval;
    QuotientBound(limit, interval, period);
    QuotientBrackets(period, interval);
    assert (interval + 1) * limit == interval * limit + limit;
    assert (limit + 1) * interval == interval * limit + interval;
    MultiplierOrder(q, limit + 1, interval);
  }

  lemma QuotientBrackets(n: int, d: int)
    requires d >= 1
    ensures n / d * d <= n < (n / d + 1) * d
  {
    assert (n / d + 1) * d == n / d * d + d;
  }

  /** Permits that lie one interval apart leave the cursor one interval after the last one. */
  lemma {:induction false} TatOfFarApart(rule: Rule, origin: int, grants: seq<int>)
    requires rule.Valid() && |grants| > 0 && origin <= grants[0]
    requires forall i :: 0 < i < |grants| ==> grants[i] - grants[i - 1] >= rule.interval
    ensures Tat(rule, origin, grants) == grants[|grants| - 1] + rule.interval
  {
    var n := |grants| - 1;
    if n > 0 {
      TatOfFarApart(rule, origin, grants[..n]);
    } else {
      assert Tat(rule, origin, grants[..0]) == origin;
    }
  }
}
