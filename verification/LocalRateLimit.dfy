/** The pool's own limiter: several rules per queue, checked by `localRateDelay` and taken
    together by `reserveLocalRateLimits`, which undoes its work when a later rule blocks. */
module LocalRateLimit {
  import opened Prelude
  import opened RuleKeys

  /** A rule as one job sees it: `key` already carries the job's kind, pipeline or tag. */
  datatype Rule = Rule(key: string, scope: Scope, mode: Mode, limit: int, period: int, interval: int, tolerance: int) {
    predicate Valid() {
      limit >= 1 && period >= 1 && interval >= 1 && tolerance >= 0
    }
  }

  datatype RateState = RateState(tat: int, windowStart: int, count: int)

  const FRESH: RateState := RateState(ZERO_TIME, ZERO_TIME, 0)

  /** What a successful reservation remembers for a rollback. */
  datatype Reservation = Reservation(key: string, previous: RateState, reserved: int, fixedWindow: bool)

  predicate Blocked(rule: Rule, st: RateState, now: int)
    requires rule.Valid()
  {
    if rule.mode.FixedWindowMode? then st.windowStart == Truncate(now, rule.period) && st.count >= rule.limit
    else st.tat - rule.tolerance > now
  }

  function Taken(rule: Rule, st: RateState, now: int): RateState
    requires rule.Valid()
  {
    if rule.mode.FixedWindowMode? then
      var window := Truncate(now, rule.period);
      if st.windowStart == window then st.(count := st.count + 1)
      else st.(windowStart := window, count := 1)
    else st.(tat := Max(st.tat, now) + rule.interval)
  }

  /** How long this rule alone would hold a job back. */
  function Wait(rule: Rule, st: RateState, now: int): int
    requires rule.Valid()
  {
    if !Blocked(rule, st, now) then 0
    else if rule.mode.FixedWindowMode? then Truncate(now, rule.period) + rule.period - now
    else st.tat - rule.tolerance - now
  }

  /** A blocked rule stays blocked until its wait is over and is open from then on. */
  lemma WaitIsExact(rule: Rule, st: RateState, now: int, d: nat)
    requires rule.Valid()
    ensures Wait(rule, st, now) >= 0
    ensures d < Wait(rule, st, now) ==> Blocked(rule, st, now + d)
    ensures Blocked(rule, st, now) && d >= Wait(rule, st, now) ==> !Blocked(rule, st, now + d)
  {
    if rule.mode.FixedWindowMode? {
      var w := Truncate(now, rule.period);
      if d < Wait(rule, st, now) {
        TruncateUnique(now + d, rule.period, now / rule.period);
      } else if Blocked(rule, st, now) {
        assert now + d >= w + rule.period && now + d < Truncate(now + d, rule.period) + rule.period;
      }
    }
  }

  predicate ValidRules(rules: seq<Rule>) {
    forall i :: 0 <= i < |rules| ==> rules[i].Valid()
  }

  /** Local rules of one job have different keys, so that no state is taken twice. */
  ghost predicate DistinctKeys(rules: seq<Rule>) {
    forall i, j :: 0 <= i < j < |rules| && rules[i].scope.Local? && rules[j].scope.Local? ==>
      rules[i].key != rules[j].key
  }

  ghost predicate LocalAt(rules: seq<Rule>, i: int) {
    0 <= i < |rules| && rules[i].scope.Local?
  }

  function StateAt(rates: map<string, RateState>, key: string): RateState {
    if key in rates then rates[key] else FRESH
  }

  /** Every local rule would let a job start at `now + d`. */
  ghost predicate OpenAfter(rules: seq<Rule>, rates: map<string, RateState>, now: int, d: int)
    requires ValidRules(rules)
  {
    forall i :: LocalAt(rules, i) ==> !Blocked(rules[i], StateAt(rates, rules[i].key), now + d)
  }

  /** No window counter lies ahead of the clock. */
  ghost predicate NoFutureWindow(rules: seq<Rule>, rates: map<string, RateState>, now: int)
    requires ValidRules(rules)
  {
    forall i :: LocalAt(rules, i) && rules[i].mode.FixedWindowMode? ==>
      StateAt(rates, rules[i].key).windowStart <= Truncate(now, rules[i].period)
  }

  lemma OpenStaysOpen(rule: Rule, st: RateState, now: int, d: nat)
    requires rule.Valid() && !Blocked(rule, st, now)
    requires rule.mode.FixedWindowMode? ==> st.windowStart <= Truncate(now, rule.period)
    ensures !Blocked(rule, st, now + d)
  {
    if rule.mode.FixedWindowMode? && Truncate(now + d, rule.period) == st.windowStart {
      assert st.windowStart <= now < st.windowStart + rule.period;
      TruncateUnique(now, rule.period, (now + d) / rule.period);
    }
  }

  // ---- taking and undoing ----

  /** The states after the local rules among the first `n` have been taken in order. */
  function TakenMap(rules: seq<Rule>, n: nat, before: map<string, RateState>, now: int): map<string, RateState>
    requires ValidRules(rules) && n <= |rules|
  {
    if n == 0 then before
    else
      var m := TakenMap(rules, n - 1, before, now);
      var rule := rules[n - 1];
      if rule.scope.Local? then m[rule.key := Taken(rule, StateAt(m, rule.key), now)] else m
  }

  function ReservationFor(rule: Rule, st: RateState, now: int): Reservation
    requires rule.Valid()
  {
    Reservation(rule.key, st, if rule.mode.FixedWindowMode? then ZERO_TIME else Taken(rule, st, now).tat,
                rule.mode.FixedWindowMode?)
  }

  /** The reservations made on the way, in rule order. */
  function Reservations(rules: seq<Rule>, n: nat, before: map<string, RateState>, now: int): seq<Reservation>
    requires ValidRules(rules) && n <= |rules|
  {
    if n == 0 then []
    else
      var rs := Reservations(rules, n - 1, before, now);
      var rule := rules[n - 1];
      if rule.scope.Local? then
        rs + [ReservationFor(rule, StateAt(TakenMap(rules, n - 1, before, now), rule.key), now)]
      else rs
  }

  /** Undo one reservation: unconditional for a window, conditional for a cursor. */
  function Undone(rates: map<string, RateState>, r: Reservation): map<string, RateState> {
    var st := StateAt(rates, r.key);
    if r.fixedWindow then rates[r.key := st.(windowStart := r.previous.windowStart, count := r.previous.count)]
    else if st.tat == r.reserved then rates[r.key := st.(tat := r.previous.tat)]
    else rates
  }

  /** Reservations are undone last first. */
  function UndoneAll(rates: map<string, RateState>, rs: seq<Reservation>): map<string, RateState>
    decreases |rs|
  {
    if |rs| == 0 then rates else UndoneAll(Undone(rates, rs[|rs| - 1]), rs[..|rs| - 1])
  }

  /** Two maps that agree once missing entries read as fresh ones. */
  ghost predicate Same(a: map<string, RateState>, b: map<string, RateState>) {
    forall k :: StateAt(a, k) == StateAt(b, k)
  }

  lemma {:induction false} UndoneAllRespectsSame(a: map<string, RateState>, b: map<string, RateState>,
                                                 rs: seq<Reservation>)
    requires Same(a, b)
    ensures Same(UndoneAll(a, rs), UndoneAll(b, rs))
    decreases |rs|
  {
    if |rs| > 0 {
      var r := rs[|rs| - 1];
      forall k ensures StateAt(Undone(a, r), k) == StateAt(Undone(b, r), k) {
        assert StateAt(a, k) == StateAt(b, k) && StateAt(a, r.key) == StateAt(b, r.key);
      }
      UndoneAllRespectsSame(Undone(a, r), Undone(b, r), rs[..|rs| - 1]);
    }
  }

  lemma UndoOne(m: map<string, RateState>, rule: Rule, now: int)
    requires rule.Valid()
    ensures var st := StateAt(m, rule.key);
      Same(Undone(m[rule.key := Taken(rule, st, now)], ReservationFor(rule, st, now)), m)
  {
  }

  /** Undoing what was just taken restores every state, even if rules shared a key. */
  lemma {:induction false} UndoRestores(rules: seq<Rule>, n: nat, before: map<string, RateState>, now: int)
    requires ValidRules(rules) && n <= |rules|
    ensures Same(UndoneAll(TakenMap(rules, n, before, now), Reservations(rules, n, before, now)), before)
  {
    if n > 0 {
      UndoRestores(rules, n - 1, before, now);
      if rules[n - 1].scope.Local? {
        var m := TakenMap(rules, n - 1, before, now);
        var rs := Reservations(rules, n, before, now);
        assert rs[..|rs| - 1] == Reservations(rules, n - 1, before, now);
        UndoOne(m, rules[n - 1], now);
        UndoneAllRespectsSame(Undone(TakenMap(rules, n, before, now), rs[|rs| - 1]), m, rs[..|rs| - 1]);
      }
    }
  }

  /** With distinct keys every rule is judged and moved from its own original state. */
  lemma {:induction false} TakenMapAt(rules: seq<Rule>, n: nat, before: map<string, RateState>, now: int, key: string)
    requires ValidRules(rules) && DistinctKeys(rules) && n <= |rules|
    ensures (forall i :: LocalAt(rules, i) && i < n ==> rules[i].key != key) ==>
      StateAt(TakenMap(rules, n, before, now), key) == StateAt(before, key)
    ensures forall i :: LocalAt(rules, i) && i < n && rules[i].key == key ==>
      StateAt(TakenMap(rules, n, before, now), key) == Taken(rules[i], StateAt(before, key), now)
  {
    if n > 0 {
      TakenMapAt(rules, n - 1, before, now, key);
      if LocalAt(rules, n - 1) && rules[n - 1].key == key {
        assert forall i :: LocalAt(rules, i) && i < n - 1 ==> rules[i].key != key;
      }
    }
  }

  // ---- the limiter ----

  /** A key missing from `rates` reads as a fresh state, which is what the source stores
      for it at the first look. */
  class Limiter {
    var rates: map<string, RateState>

    constructor ()
      ensures rates == map[]
    {
      rates := map[];
    }

    /** The least delay after which every local rule would be open if nobody else moved:
        zero exactly when all are open now, never more than needed, and enough unless a
        window counter lies ahead of the clock. */
    method Delay(rules: seq<Rule>, now: int) returns (delay: int)
      requires ValidRules(rules)
      ensures delay >= 0
      ensures delay == 0 <==> OpenAfter(rules, rates, now, 0)
      ensures forall d :: 0 <= d < delay ==> !OpenAfter(rules, rates, now, d)
      ensures NoFutureWindow(rules, rates, now) ==> OpenAfter(rules, rates, now, delay)
    {
      delay := 0;
      ghost var worst := -1;
      for k := 0 to |rules|
        invariant delay >= 0
        invariant forall i :: LocalAt(rules, i) && i < k ==> Wait(rules[i], StateAt(rates, rules[i].key), now) <= delay
        invariant delay > 0 ==>
          LocalAt(rules, worst) && Wait(rules[worst], StateAt(rates, rules[worst].key), now) == delay
      {
        var rule := rules[k];
        if rule.scope.Local? {
          var candidate := Wait(rule, StateAt(rates, rule.key), now);
          if candidate > delay {
            delay := candidate;
            worst := k;
          }
        }
      }
      WaitsCover(rules, rates, now, delay);
      forall d | 0 <= d < delay ensures !OpenAfter(rules, rates, now, d) {
        WaitIsExact(rules[worst], StateAt(rates, rules[worst].key), now, d);
      }
    }

    /** Takes every local rule or none of them. */
    method Reserve(rules: seq<Rule>, now: int) returns (ok: bool, reservations: seq<Reservation>)
      requires ValidRules(rules) && DistinctKeys(rules)
      modifies this
      ensures ok <==> OpenAfter(rules, old(rates), now, 0)
      ensures !ok ==> Same(rates, old(rates))
      ensures ok ==> rates == TakenMap(rules, |rules|, old(rates), now)
      ensures ok ==> reservations == Reservations(rules, |rules|, old(rates), now)
    {
      reservations := [];
      for k := 0 to |rules|
        invariant rates == TakenMap(rules, k, old(rates), now)
        invariant reservations == Reservations(rules, k, old(rates), now)
        invariant forall i :: LocalAt(rules, i) && i < k ==> !Blocked(rules[i], StateAt(old(rates), rules[i].key), now)
      {
        var rule := rules[k];
        if rule.scope.Local? {
          assert LocalAt(rules, k);
          TakenMapAt(rules, k, old(rates), now, rule.key);
          var st := StateAt(rates, rule.key);
          assert st == StateAt(old(rates), rule.key);
          if Blocked(rule, st, now) {
            UndoRestores(rules, k, old(rates), now);
            Rollback(reservations);
            return false, [];
          }
          reservations := reservations + [ReservationFor(rule, st, now)];
          rates := rates[rule.key := Taken(rule, st, now)];
        }
      }
      ok := true;
    }

    method Rollback(reservations: seq<Reservation>)
      modifies this
      ensures rates == UndoneAll(old(rates), reservations)
    {
      var i := |reservations|;
      assert reservations[..i] == reservations;
      while i > 0
        invariant 0 <= i <= |reservations|
        invariant UndoneAll(rates, reservations[..i]) == UndoneAll(old(rates), reservations)
      {
        i := i - 1;
        assert reservations[..i + 1][..i] == reservations[..i];
        rates := Undone(rates, reservations[i]);
      }
    }

    /** The check and the reservation agree: the reservation succeeds exactly after a zero
        delay, and rolling it back at once restores every state. */
    method ReserveAndRollBack(rules: seq<Rule>, now: int) returns (delay: int, ok: bool)
      requires ValidRules(rules) && DistinctKeys(rules)
      modifies this
      ensures ok <==> delay == 0
      ensures Same(rates, old(rates))
    {
      delay := Delay(rules, now);
      var reservations;
      ok, reservations := Reserve(rules, now);
      if ok {
        UndoRestores(rules, |rules|, old(rates), now);
        Rollback(reservations);
      }
    }
  }

  lemma WaitsCover(rules: seq<Rule>, rates: map<string, RateState>, now: int, delay: nat)
    requires ValidRules(rules)
    requires forall i :: LocalAt(rules, i) ==> Wait(rules[i], StateAt(rates, rules[i].key), now) <= delay
    ensures delay == 0 ==> OpenAfter(rules, rates, now, 0)
    ensures NoFutureWindow(rules, rates, now) ==> OpenAfter(rules, rates, now, delay)
  {
    forall i | LocalAt(rules, i)
      ensures delay == 0 ==> !Blocked(rules[i], StateAt(rates, rules[i].key), now)
      ensures NoFutureWindow(rules, rates, now) ==> !Blocked(rules[i], StateAt(rates, rules[i].key), now + delay)
    {
      var st := StateAt(rates, rules[i].key);
      WaitIsExact(rules[i], st, now, delay);
      if NoFutureWindow(rules, rates, now) && !Blocked(rules[i], st, now) {
        OpenStaysOpen(rules[i], st, now, delay);
      }
    }
  }

  // ---- from configuration ----

  function Tolerance(n: Limit): (r: int)
    requires Usable(n)
    ensures r >= 0
  {
    Interval(n) * (n.burst - 1)
  }

  function RuleFor(hash: string -> string, queue: string, n: Limit, value: string): Rule
    requires Usable(n)
  {
    Rule(RowKey(hash, queue, n, value), n.scope, n.mode, n.limit, n.period, Interval(n), Tolerance(n))
  }

  /** The rules of a normalised queue policy meet what the limiter needs of them, for every
      job, unless the digest collides on the texts of two of them. */
  lemma ConfiguredRulesAreDistinct(hash: string -> string, queue: string, limits: seq<Limit>,
                                   values: seq<string>, rules: seq<Rule>)
    requires Hexadecimal(hash) && CollisionFree(hash, queue, limits) && Pairwise(limits)
    requires |values| == |limits| == |rules|
    requires forall n :: n in limits ==> Usable(n)
    requires forall i :: 0 <= i < |limits| ==> rules[i] == RuleFor(hash, queue, limits[i], values[i])
    ensures ValidRules(rules) && DistinctKeys(rules)
  {
    forall i | 0 <= i < |rules| ensures rules[i].Valid() {
      assert limits[i] in limits;
      UsableRule(hash, queue, limits[i], values[i]);
    }
    forall i, j | 0 <= i < j < |rules| ensures rules[i].key != rules[j].key {
      KeysDiffer(hash, queue, limits, i, j, values[i], values[j]);
    }
  }

  lemma KeysDiffer(hash: string -> string, queue: string, limits: seq<Limit>, i: nat, j: nat, v: string, w: string)
    requires Hexadecimal(hash) && CollisionFree(hash, queue, limits) && Pairwise(limits) && i < j < |limits|
    ensures RowKey(hash, queue, limits[i], v) != RowKey(hash, queue, limits[j], w)
  {
    assert !Collide(hash, RuleText(queue, limits[i]), RuleText(queue, limits[j]));
    RowKeysDistinct(hash, queue, limits[i], limits[j], v, w);
  }

  lemma UsableRule(hash: string -> string, queue: string, n: Limit, value: string)
    requires Usable(n)
    ensures RuleFor(hash, queue, n, value).Valid()
  {
  }

  /** No two different rules that the policy normalises to collide. */
  ghost predicate PolicyCollisionFree(hash: string -> string, queue: string, policy: Policy) {
    forall m, n :: Configured(AllLimits(policy), m) && Configured(AllLimits(policy), n) ==>
      !Collide(hash, RuleText(queue, m), RuleText(queue, n))
  }

  function RulesFor(hash: string -> string, queue: string, limits: seq<Limit>, valueOf: Limit -> string): seq<Rule>
    requires forall n :: n in limits ==> Usable(n)
  {
    seq(|limits|, i requires 0 <= i < |limits| => RuleFor(hash, queue, limits[i], valueOf(limits[i])))
  }

  lemma RulesForAreDistinct(hash: string -> string, queue: string, limits: seq<Limit>, valueOf: Limit -> string)
    requires Hexadecimal(hash) && CollisionFree(hash, queue, limits) && Pairwise(limits)
    requires forall n :: n in limits ==> Usable(n)
    ensures var rules := RulesFor(hash, queue, limits, valueOf); ValidRules(rules) && DistinctKeys(rules)
  {
    var values := seq(|limits|, i requires 0 <= i < |limits| => valueOf(limits[i]));
    ConfiguredRulesAreDistinct(hash, queue, limits, values, RulesFor(hash, queue, limits, valueOf));
  }

  /** From configuration to permit: for every policy, job and clock, the delay that the
      pool computes for a job is zero exactly when its reservation succeeds. `valueOf` gives
      the job's value for a rule: its kind, pipeline or tag. */
  method CheckAgreesWithReserve(limiter: Limiter, hash: string -> string, queue: string, policy: Policy,
                                valueOf: Limit -> string, now: int) returns (delay: int, ok: bool)
    requires Hexadecimal(hash) && PolicyCollisionFree(hash, queue, policy)
    modifies limiter
    ensures ok <==> delay == 0
    ensures Same(limiter.rates, old(limiter.rates))
  {
    var limits := NormalizeRateLimits(policy);
    RulesForAreDistinct(hash, queue, limits, valueOf);
    var rules := RulesFor(hash, queue, limits, valueOf);
    delay, ok := limiter.ReserveAndRollBack(rules, now);
  }
}
