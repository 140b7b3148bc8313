/** `AcquireRateLimit`: a theoretical-arrival-time cursor shared by any number of
    processes and moved by compare-and-swap. `Step` interleaves the callers of one key
    and one rule at the granularity of a single store operation. */
module SharedRateLimit {
  import opened Prelude
  import opened Gcra
  import CursorStore

  // ---- parameters ----

  datatype Mode = SmoothMode | FixedWindowMode | UnknownMode

  datatype Params = Params(key: string, now: int, limit: int, period: int, burst: int, mode: Mode)

  function RateInterval(period: int, limit: int): int
    requires limit > 0
  {
    Max(period / limit, 1)
  }

  /** Saturating product of a duration and a count. */
  function MultiplyDuration(duration: int, multiplier: int): int {
    if multiplier <= 0 then 0
    else if duration > MAX_INT64 / multiplier then MAX_INT64
    else duration * multiplier
  }

  predicate ValidParams(p: Params) {
    p.key != "" && p.limit > 0 && p.period > 0 && p.burst <= p.limit
  }

  function RuleOf(p: Params): Rule
    requires ValidParams(p)
  {
    Rule(RateInterval(p.period, p.limit), Max(p.burst, 1))
  }

  /** Validation keeps the burst at or below the limit, and then the tolerance is the
      exact product: the saturating branch is never taken. */
  lemma ToleranceIsExact(p: Params)
    requires ValidParams(p) && p.period <= MAX_INT64 && p.limit <= MAX_INT64
    ensures var rule := RuleOf(p);
      rule.Valid() && MultiplyDuration(rule.interval, rule.burst - 1) == rule.Tolerance() <= MAX_INT64
  {
    var rule := RuleOf(p);
    var m := rule.burst - 1;
    if m > 0 {
      assert rule.interval * m <= MAX_INT64 by {
        if rule.interval == 1 {
        } else {
          assert p.period / p.limit * p.limit <= p.period;
          assert rule.interval * m <= rule.interval * p.limit;
        }
      }
      QuotientBound(rule.interval, m, MAX_INT64);
    }
  }

  // ---- the interleaved protocol ----

  /** Program counter of one caller. `before` is a history value: how many permits had
      been granted when the cursor was read. */
  datatype Caller =
    | Reading(now: int)
    | Swapping(now: int, seen: int, before: nat)
    | Granted
    | Refused(now: int, retryAt: int)

  /** `origin` and `grants` are history: the instant the cursor was created with and the
      instants of the granted permits, in grant order. */
  datatype State = State(cursor: Option<int>, callers: map<nat, Caller>, origin: int, grants: seq<int>)

  datatype Action =
    | Begin(caller: nat, now: int)
    | Read(caller: nat)
    | Swap(caller: nat)
    | GiveUp(caller: nat)

  const INITIAL: State := State(None, map[], 0, [])

  /** One atomic store operation, or a caller arriving or giving up. A step that the
      caller is not ready for changes nothing. */
  function Step(rule: Rule, s: State, a: Action): State {
    match a
    case Begin(c, now) => s.(callers := s.callers[c := Reading(now)])
    case GiveUp(c) => s.(callers := s.callers - {c})
    case Read(c) =>
      if c in s.callers && s.callers[c].Reading? then
        var now := s.callers[c].now;
        var at := if s.cursor.Some? then s.cursor.value else now;
        var origin := if s.cursor.Some? then s.origin else now;
        var retryAt := at - rule.Tolerance();
        var next := if now < retryAt then Refused(now, retryAt) else Swapping(now, at, |s.grants|);
        State(Some(at), s.callers[c := next], origin, s.grants)
      else s
    case Swap(c) =>
      if c in s.callers && s.callers[c].Swapping? then
        var Swapping(now, seen, _) := s.callers[c];
        if s.cursor == Some(seen) then
          State(Some(Max(seen, now) + rule.interval), s.callers[c := Granted], s.origin, s.grants + [now])
        else s.(callers := s.callers[c := Reading(now)])
      else s
  }

  function Run(rule: Rule, actions: seq<Action>): State {
    if |actions| == 0 then INITIAL
    else Step(rule, Run(rule, actions[..|actions| - 1]), actions[|actions| - 1])
  }

  ghost predicate CallerInv(rule: Rule, s: State, c: Caller) {
    match c
    case Swapping(now, seen, before) =>
      && s.cursor.Some? && before <= |s.grants|
      && seen == Tat(rule, s.origin, s.grants[..before])
      && Admits(rule, seen, now)
    case Refused(now, retryAt) => now < retryAt
    case _ => true
  }

  ghost predicate Inv(rule: Rule, s: State) {
    && (s.cursor.None? ==> s.grants == [])
    && (s.cursor.Some? ==> s.cursor.value == Tat(rule, s.origin, s.grants))
    && Conforming(rule, s.origin, s.grants)
    && forall c :: c in s.callers ==> CallerInv(rule, s, s.callers[c])
  }

  lemma ReadKeepsInv(rule: Rule, s: State, c: nat)
    requires Inv(rule, s)
    ensures Inv(rule, Step(rule, s, Read(c)))
  {
    assert s.grants[..|s.grants|] == s.grants;
  }

  lemma SwapKeepsInv(rule: Rule, s: State, c: nat)
    requires Inv(rule, s)
    ensures Inv(rule, Step(rule, s, Swap(c)))
  {
    var t := Step(rule, s, Swap(c));
    if t.grants != s.grants {
      var now := s.callers[c].now;
      AppendConforming(rule, s.origin, s.grants, now);
      TatAppend(rule, s.origin, s.grants, now);
      forall x | x in t.callers ensures CallerInv(rule, t, t.callers[x]) {
        if x != c {
          GrantKeepsCaller(rule, s, t, s.callers[x], now);
        }
      }
    }
  }

  lemma GrantKeepsCaller(rule: Rule, s: State, t: State, c: Caller, now: int)
    requires CallerInv(rule, s, c) && t.cursor.Some? && t.origin == s.origin && t.grants == s.grants + [now]
    ensures CallerInv(rule, t, c)
  {
    assert forall k :: 0 <= k <= |s.grants| ==> t.grants[..k] == s.grants[..k];
  }

  lemma StepKeepsInv(rule: Rule, s: State, a: Action)
    requires Inv(rule, s)
    ensures Inv(rule, Step(rule, s, a))
  {
    match a
    case Read(c) => ReadKeepsInv(rule, s, c);
    case Swap(c) => SwapKeepsInv(rule, s, c);
    case _ =>
  }

  lemma {:induction false} RunInv(rule: Rule, actions: seq<Action>)
    ensures Inv(rule, Run(rule, actions))
  {
    if |actions| > 0 {
      RunInv(rule, actions[..|actions| - 1]);
      StepKeepsInv(rule, Run(rule, actions[..|actions| - 1]), actions[|actions| - 1]);
    }
  }

  // ---- what every run guarantees ----

  /** In every interleaving, whatever instants the callers carry, permits i <= j in grant
      order satisfy (j - i) * interval <= now_j - now_i + (burst - 1) * interval. */
  lemma PermitsAreSpaced(rule: Rule, actions: seq<Action>)
    requires rule.Valid()
    ensures Spaced(rule, Run(rule, actions).grants)
  {
    RunInv(rule, actions);
    var s := Run(rule, actions);
    ConformingIffSpaced(rule, s.origin, s.grants);
  }

  /** So no span of the given length sees more than burst + floor(length / interval). */
  lemma PermitsPerSpan(rule: Rule, actions: seq<Action>, lo: int, length: nat)
    requires rule.Valid()
    ensures |PermitsIn(Run(rule, actions).grants, lo, length)| <= rule.burst + length / rule.interval
  {
    PermitsAreSpaced(rule, actions);
    SpanBound(rule, Run(rule, actions).grants, lo, length);
  }

  /** A read refuses exactly when one more permit would break the rate guarantee (against
      the granted permits or against the creation instant), and the retry instant it
      reports is the earliest one that would not. */
  lemma RefusalIsExact(rule: Rule, actions: seq<Action>, c: nat)
    requires rule.Valid()
    requires var s := Run(rule, actions); c in s.callers && s.callers[c].Reading? && s.cursor.Some?
    ensures var s := Run(rule, actions);
      var now := s.callers[c].now;
      var after := Step(rule, s, Read(c)).callers[c];
      && (after.Refused? <==> !Conforming(rule, s.origin, s.grants + [now]))
      && (after.Refused? ==> forall t :: Conforming(rule, s.origin, s.grants + [t]) <==> after.retryAt <= t)
  {
    RunInv(rule, actions);
    var s := Run(rule, actions);
    forall t
      ensures Conforming(rule, s.origin, s.grants + [t]) <==> Admits(rule, s.cursor.value, t)
    {
      AppendConforming(rule, s.origin, s.grants, t);
    }
  }

  /** Lock freedom without an ABA hole: a swap fails exactly when somebody else was
      granted a permit after this caller's read. */
  lemma SwapFailsOnlyAfterAnotherGrant(rule: Rule, actions: seq<Action>, c: nat)
    requires rule.Valid()
    requires var s := Run(rule, actions); c in s.callers && s.callers[c].Swapping?
    ensures var s := Run(rule, actions);
      Step(rule, s, Swap(c)).callers[c].Granted? <==> s.callers[c].before == |s.grants|
  {
    RunInv(rule, actions);
    var s := Run(rule, actions);
    var before := s.callers[c].before;
    if before == |s.grants| {
      assert s.grants[..before] == s.grants;
    } else {
      TatStrict(rule, s.origin, s.grants, before);
    }
  }

  // ---- in terms of limit and period ----

  /** The interval is the period divided by the limit, rounded down but at least a nanosecond. */
  lemma IntervalIsPeriodOverLimit(p: Params)
    requires ValidParams(p)
    ensures p.limit <= p.period ==>
      RuleOf(p).interval * p.limit <= p.period < (RuleOf(p).interval + 1) * p.limit
    ensures p.limit > p.period ==> RuleOf(p).interval == 1
    ensures RuleOf(p).interval >= 1 && RuleOf(p).burst == Max(p.burst, 1)
  {
    QuotientBrackets(p.period, p.limit);
    if p.limit <= p.period {
      QuotientBound(1, p.limit, p.period);
    } else {
      TruncateUnique(p.period, p.limit, 0);
      assert p.period / p.limit * p.limit == 0;
    }
  }

  /** Over every run of callers with the same parameters, a period carries at most the limit
      and the burst, as long as the limit is no larger than the interval. */
  lemma PermitsPerPeriod(p: Params, actions: seq<Action>, lo: int)
    requires ValidParams(p) && p.limit * p.limit <= p.period
    ensures |PermitsIn(Run(RuleOf(p), actions).grants, lo, p.period)| <= Max(p.burst, 1) + p.limit
  {
    var rule := RuleOf(p);
    assert p.limit <= p.limit * p.limit;
    IntervalIsPeriodOverLimit(p);
    MultiplierOrder(p.limit, rule.interval + 1, p.limit);
    PeriodHoldsLimit(rule.interval, p.limit, p.period);
    PermitsPerSpan(rule, actions, lo, p.period);
  }

  /** The instants lie at least period / limit apart. */
  ghost predicate FarApart(p: Params, instants: seq<int>) {
    forall i :: 0 < i < |instants| ==> GapSuffices(p, instants[i] - instants[i - 1])
  }

  predicate GapSuffices(p: Params, gap: int) {
    gap * p.limit >= p.period
  }

  lemma GapCoversInterval(p: Params, gap: int)
    requires ValidParams(p) && GapSuffices(p, gap)
    ensures gap >= RuleOf(p).interval
  {
    IntervalIsPeriodOverLimit(p);
    assert (gap + 1) * p.limit == gap * p.limit + p.limit;
    if p.limit <= p.period {
      MultiplierOrder(RuleOf(p).interval, gap + 1, p.limit);
    } else {
      MultiplierOrder(0, gap, p.limit);
    }
  }

  /** Callers whose instants lie at least period / limit apart are never refused. */
  lemma FarApartIsNeverRefused(p: Params, actions: seq<Action>, c: nat)
    requires ValidParams(p)
    requires var s := Run(RuleOf(p), actions); c in s.callers && s.callers[c].Reading?
    requires var s := Run(RuleOf(p), actions); var instants := s.grants + [s.callers[c].now];
      FarApart(p, instants) && (s.cursor.Some? ==> s.origin <= instants[0])
    ensures !Step(RuleOf(p), Run(RuleOf(p), actions), Read(c)).callers[c].Refused?
  {
    var rule := RuleOf(p);
    var s := Run(rule, actions);
    var now := s.callers[c].now;
    RunInv(rule, actions);
    ToleranceNonNegative(rule);
    if s.cursor.Some? {
      CursorBehind(p, s.origin, s.grants, now);
    }
  }

  lemma ToleranceNonNegative(rule: Rule)
    requires rule.interval >= 0 && rule.burst >= 1
    ensures rule.Tolerance() >= 0
  {
  }

  lemma CursorBehind(p: Params, origin: int, grants: seq<int>, now: int)
    requires ValidParams(p) && FarApart(p, grants + [now]) && origin <= (grants + [now])[0]
    ensures Tat(RuleOf(p), origin, grants) <= now
  {
    var instants, n := grants + [now], |grants|;
    IntervalIsPeriodOverLimit(p);
    forall i | 0 < i < |instants| ensures instants[i] - instants[i - 1] >= RuleOf(p).interval {
      GapCoversInterval(p, instants[i] - instants[i - 1]);
    }
    if n > 0 {
      assert forall i :: 0 <= i < n ==> instants[i] == grants[i];
      TatOfFarApart(RuleOf(p), origin, grants);
      assert instants[n] - instants[n - 1] >= RuleOf(p).interval;
    }
  }

  // ---- the retry loop itself ----

  datatype Outcome = Acquired | RetryAt(at: int) | InvalidParams | FixedWindowDelegated

  /** The cursor value that decides the call: the first one that refuses it, or the last
      one written by a rival before the swap goes through. */
  function Deciding(rule: Rule, now: int, at: int, rivals: seq<int>): int
    decreases rivals
  {
    if |rivals| == 0 || !Admits(rule, at, now) || rivals[0] == at then at
    else Deciding(rule, now, rivals[0], rivals[1..])
  }

  /** A call is decided by the first cursor value it sees that refuses it or that nobody
      overtakes before its swap. */
  lemma {:induction false} DecidedByFirstSettled(rule: Rule, now: int, at: int, rivals: seq<int>) returns (k: nat)
    ensures var seen := [at] + rivals;
      && k < |seen| && Deciding(rule, now, at, rivals) == seen[k]
      && (forall i :: 0 <= i < k ==> Admits(rule, seen[i], now) && seen[i] != seen[i + 1])
      && (k == |rivals| || !Admits(rule, seen[k], now) || seen[k + 1] == seen[k])
    decreases |rivals|
  {
    var seen := [at] + rivals;
    if |rivals| == 0 || !Admits(rule, at, now) || rivals[0] == at {
      k := 0;
    } else {
      var j := DecidedByFirstSettled(rule, now, rivals[0], rivals[1..]);
      k := j + 1;
      assert [rivals[0]] + rivals[1..] == rivals;
      assert forall i :: 0 <= i < |rivals| ==> seen[i + 1] == rivals[i];
      forall i | 0 <= i < k ensures Admits(rule, seen[i], now) && seen[i] != seen[i + 1] {
        if i > 0 {
          assert seen[i] == rivals[i - 1];
        }
      }
    }
  }

  /** `rivals[k]` is what the cursor holds when the k-th swap is attempted. The call ends
      at the first refusal or at the first swap that no rival overtook. */
  method AcquireRateLimit(store: CursorStore.Cursors, p: Params, rivals: seq<int>) returns (r: Outcome)
    requires p.period <= MAX_INT64 && p.limit <= MAX_INT64
    modifies store
    ensures r.InvalidParams? <==>
      p.key == "" || p.limit <= 0 || p.period <= 0 || p.burst > p.limit || p.mode.UnknownMode?
    ensures r.FixedWindowDelegated? <==> !r.InvalidParams? && p.mode.FixedWindowMode?
    ensures !r.Acquired? && !r.RetryAt? ==> store.cursors == old(store.cursors)
    ensures r.Acquired? || r.RetryAt? ==>
      && p.key in store.cursors
      && var rule := RuleOf(p);
         var first := if p.key in old(store.cursors) then old(store.cursors)[p.key] else p.now;
         var at := Deciding(rule, p.now, first, rivals);
         && (r.Acquired? <==> Admits(rule, at, p.now))
         && store.cursors[p.key] == (if r.Acquired? then Max(at, p.now) + rule.interval else at)
         && (r.RetryAt? ==> r.at == at - rule.Tolerance() > p.now)
    ensures forall k :: k != p.key ==>
      (k in store.cursors <==> k in old(store.cursors)) &&
      (k in store.cursors ==> store.cursors[k] == old(store.cursors)[k])
  {
    if !ValidParams(p) || p.mode.UnknownMode? {
      return InvalidParams;
    }
    if p.mode.FixedWindowMode? {
      return FixedWindowDelegated;
    }
    var rule := RuleOf(p);
    var tolerance := MultiplyDuration(rule.interval, rule.burst - 1);
    ToleranceIsExact(p);
    var round := 0;
    ghost var first := if p.key in store.cursors then store.cursors[p.key] else p.now;
    while true
      invariant 0 <= round <= |rivals|
      invariant round > 0 ==> p.key in store.cursors
      invariant Deciding(rule, p.now, first, rivals) ==
        Deciding(rule, p.now, if p.key in store.cursors then store.cursors[p.key] else p.now, rivals[round..])
      invariant forall k :: k != p.key ==>
        (k in store.cursors <==> k in old(store.cursors)) &&
        (k in store.cursors ==> store.cursors[k] == old(store.cursors)[k])
      decreases |rivals| - round
    {
      var at, _ := store.GetOrCreate(p.key, p.now);
      var retryAt := at - tolerance;
      if p.now < retryAt {
        return RetryAt(retryAt);
      }
      if round < |rivals| {
        store.cursors := store.cursors[p.key := rivals[round]];
      }
      var advanced := store.Advance(p.key, at, Max(at, p.now) + rule.interval);
      if advanced {
        return Acquired;
      }
      assert rivals[round..][1..] == rivals[round + 1..];
      round := round + 1;
    }
  }
}
