/** Many jobs reserving, keeping and rolling back permits of one local fixed-window rule.
    A rollback overwrites the counter with what its reservation had found, whatever has
    happened since. */
module WindowRollback {
  import opened Prelude
  import opened WindowLog
  import Local = LocalRateLimit

  datatype Rule = Rule(limit: int, period: int) {
    predicate Valid() {
      limit >= 1 && period >= 1
    }
  }

  datatype Counter = Counter(window: int, count: int)

  const FRESH: Counter := Counter(ZERO_TIME, 0)

  datatype Status = Pending | Kept | RolledBack

  /** `previous` is what the rollback closure captured. The rest is history: the window and
      the fate of the permit, and the counter its reservation left. */
  datatype Permit = Permit(window: int, previous: Counter, left: Counter, status: Status)

  /** `permits` lists all reservations ever made, in order. */
  datatype State = State(counter: Counter, permits: seq<Permit>)

  datatype Action = Reserve(now: int) | Keep(at: nat) | RollBack(at: nat)

  const INITIAL: State := State(FRESH, [])

  function Take(c: Counter, w: int): Counter {
    if c.window == w then Counter(w, c.count + 1) else Counter(w, 1)
  }

  predicate Full(rule: Rule, c: Counter, w: int) {
    c.window == w && c.count >= rule.limit
  }

  predicate PendingAt(s: State, at: nat) {
    at < |s.permits| && s.permits[at].status.Pending?
  }

  function Marked(s: State, at: nat, status: Status): State
    requires at < |s.permits|
  {
    s.(permits := s.permits[at := s.permits[at].(status := status)])
  }

  function Step(rule: Rule, s: State, a: Action): State
    requires rule.Valid()
  {
    match a
    case Reserve(now) =>
      var w := Truncate(now, rule.period);
      if Full(rule, s.counter, w) then s
      else
        var left := Take(s.counter, w);
        State(left, s.permits + [Permit(w, s.counter, left, Pending)])
    case Keep(at) => if PendingAt(s, at) then Marked(s, at, Kept) else s
    case RollBack(at) =>
      if PendingAt(s, at) then Marked(s, at, RolledBack).(counter := s.permits[at].previous) else s
  }

  function Run(rule: Rule, s: State, actions: seq<Action>): State
    requires rule.Valid()
  {
    if |actions| == 0 then s
    else Step(rule, Run(rule, s, actions[..|actions| - 1]), actions[|actions| - 1])
  }

  /** The steps of this machine are those of the limiter on one rule state: a reservation
      blocks, counts and captures as the limiter does, and a rollback overwrites as it does. */
  lemma MachineIsLimiter(local: Local.Rule, rule: Rule, s: State, st: Local.RateState, now: int, at: nat)
    requires local.Valid() && local.mode.FixedWindowMode? && rule == Rule(local.limit, local.period)
    requires s.counter == Counter(st.windowStart, st.count)
    ensures var t := Step(rule, s, Reserve(now)); var taken := Local.Taken(local, st, now);
      if Local.Blocked(local, st, now) then t == s
      else
        && t.counter == Counter(taken.windowStart, taken.count)
        && |t.permits| == |s.permits| + 1 && t.permits[|s.permits|].previous == s.counter
        && Local.ReservationFor(local, st, now).previous == st
    ensures PendingAt(s, at) ==>
      (var captured := st.(windowStart := s.permits[at].previous.window, count := s.permits[at].previous.count);
       var r := Local.Reservation(local.key, captured, ZERO_TIME, true);
       var undone := Local.StateAt(Local.Undone(map[local.key := st], r), local.key);
       Step(rule, s, RollBack(at)).counter == Counter(undone.windowStart, undone.count))
  {
  }

  // ---- permits and the counter ----

  /** Windows of the permits that are not rolled back. */
  function Standing(permits: seq<Permit>): seq<int> {
    if |permits| == 0 then []
    else
      var last := permits[|permits| - 1];
      Standing(permits[..|permits| - 1]) + if last.status.RolledBack? then [] else [last.window]
  }

  function KeptIn(permits: seq<Permit>, w: int): nat {
    if |permits| == 0 then 0
    else
      var last := permits[|permits| - 1];
      KeptIn(permits[..|permits| - 1], w) + if last.status.Kept? && last.window == w then 1 else 0
  }

  /** The counter that reservations of these windows leave behind. */
  function CounterOf(log: seq<int>): Counter {
    if |log| == 0 then FRESH else Counter(log[|log| - 1], Trailing(log))
  }

  lemma TakeAppends(log: seq<int>, w: int)
    ensures Take(CounterOf(log), w) == CounterOf(log + [w])
  {
    AppendCounts(log, w);
  }

  lemma StandingSnoc(permits: seq<Permit>, p: Permit)
    ensures Standing(permits + [p]) == Standing(permits) + if p.status.RolledBack? then [] else [p.window]
  {
    assert (permits + [p])[..|permits|] == permits;
  }

  lemma {:induction false} KeptStand(permits: seq<Permit>, w: int)
    ensures KeptIn(permits, w) <= Count(Standing(permits), w)
  {
    if |permits| > 0 {
      var n := |permits| - 1;
      KeptStand(permits[..n], w);
      CountSnoc(permits, w);
    }
  }

  ghost predicate Settled(permits: seq<Permit>) {
    forall i :: 0 <= i < |permits| ==> !permits[i].status.Pending?
  }

  lemma {:induction false} SettledAreKept(permits: seq<Permit>, w: int)
    requires Settled(permits)
    ensures KeptIn(permits, w) == Count(Standing(permits), w)
  {
    if |permits| > 0 {
      var n := |permits| - 1;
      SettledAreKept(permits[..n], w);
      CountSnoc(permits, w);
    }
  }

  /** Keeping a pending permit does not change what stands. */
  lemma {:induction false} KeepStanding(permits: seq<Permit>, at: nat)
    requires at < |permits| && permits[at].status.Pending?
    ensures Standing(permits[at := permits[at].(status := Kept)]) == Standing(permits)
  {
    var n := |permits| - 1;
    var after := permits[at := permits[at].(status := Kept)];
    if at < n {
      KeepStanding(permits[..n], at);
      assert after[..n] == permits[..n][at := permits[at].(status := Kept)];
    } else {
      assert after[..n] == permits[..n];
    }
  }

  function Counted(p: Permit, w: int): nat {
    if !p.status.RolledBack? && p.window == w then 1 else 0
  }

  lemma CountSnoc(permits: seq<Permit>, w: int)
    requires |permits| > 0
    ensures var n := |permits| - 1;
      Count(Standing(permits), w) == Count(Standing(permits[..n]), w) + Counted(permits[n], w)
  {
    var n := |permits| - 1;
    AppendCounts(Standing(permits[..n]), permits[n].window);
    assert Standing(permits[..n]) + [] == Standing(permits[..n]);
  }

  function StandingIn(permits: seq<Permit>, w: int): nat {
    if |permits| == 0 then 0 else StandingIn(permits[..|permits| - 1], w) + Counted(permits[|permits| - 1], w)
  }

  lemma {:induction false} StandingCounts(permits: seq<Permit>, w: int)
    ensures StandingIn(permits, w) == Count(Standing(permits), w)
  {
    if |permits| > 0 {
      StandingCounts(permits[..|permits| - 1], w);
      CountSnoc(permits, w);
    }
  }

  lemma {:induction false} StandingInUpdate(permits: seq<Permit>, at: nat, p: Permit, w: int)
    requires at < |permits|
    ensures StandingIn(permits[at := p], w) == StandingIn(permits, w) - Counted(permits[at], w) + Counted(p, w)
  {
    var n := |permits| - 1;
    var after := permits[at := p];
    if at < n {
      StandingInUpdate(permits[..n], at, p, w);
      assert after[..n] == permits[..n][at := p];
    } else {
      assert after[..n] == permits[..n];
    }
  }

  /** Rolling a pending permit back takes one entry of its window out of the log. */
  lemma RollBackCounts(permits: seq<Permit>, at: nat, w: int)
    requires at < |permits| && permits[at].status.Pending?
    ensures var after := permits[at := permits[at].(status := RolledBack)];
      Count(Standing(after), w) == Count(Standing(permits), w) - if permits[at].window == w then 1 else 0
  {
    var p := permits[at].(status := RolledBack);
    StandingInUpdate(permits, at, p, w);
    StandingCounts(permits, w);
    StandingCounts(permits[at := p], w);
  }

  lemma {:induction false} StandingPrefix(permits: seq<Permit>, k: nat)
    requires k <= |permits|
    ensures Standing(permits[..k]) <= Standing(permits)
  {
    if k < |permits| {
      var n := |permits| - 1;
      StandingPrefix(permits[..n], k);
      assert permits[..n][..k] == permits[..k];
    } else {
      assert permits[..k] == permits;
    }
  }

  /** When nothing after the permit stands, its rollback leaves what stood before it. */
  lemma {:induction false} TopRolledBack(permits: seq<Permit>, at: nat)
    requires at < |permits| && permits[at].status.Pending? && Standing(permits[..at + 1]) == Standing(permits)
    ensures Standing(permits[at := permits[at].(status := RolledBack)]) == Standing(permits[..at])
    ensures forall i :: at < i < |permits| ==> permits[i].status.RolledBack?
  {
    var n := |permits| - 1;
    var after := permits[at := permits[at].(status := RolledBack)];
    if at < n {
      assert permits[..n][..at + 1] == permits[..at + 1] && permits[..n][..at] == permits[..at];
      StandingPrefix(permits[..n], at + 1);
      assert permits[n].status.RolledBack?;
      TopRolledBack(permits[..n], at);
      assert after[..n] == permits[..n][at := permits[at].(status := RolledBack)];
    } else {
      assert after[..n] == permits[..at];
    }
  }

  // ---- careful runs ----

  /** The guard of a step: a reservation stays in the counter's window or opens one without
      standing permits, and a rollback finds the counter that its own reservation left. */
  predicate Guarded(rule: Rule, s: State, a: Action)
    requires rule.Valid()
  {
    match a
    case Reserve(now) =>
      var w := Truncate(now, rule.period);
      Full(rule, s.counter, w) || Continues(Standing(s.permits), w)
    case Keep(at) => true
    case RollBack(at) => PendingAt(s, at) ==> s.counter == s.permits[at].left
  }

  ghost predicate Careful(rule: Rule, actions: seq<Action>)
    requires rule.Valid()
  {
    forall k :: 0 <= k < |actions| ==> Guarded(rule, Run(rule, INITIAL, actions[..k]), actions[k])
  }

  ghost predicate CapturedRight(permits: seq<Permit>, i: nat)
    requires i < |permits|
  {
    permits[i].status.Pending? ==>
      && permits[i].previous == CounterOf(Standing(permits[..i]))
      && permits[i].left == CounterOf(Standing(permits[..i + 1]))
  }

  ghost predicate LogGood(rule: Rule, log: seq<int>)
    requires rule.Valid()
  {
    && NoReturn(log)
    && (forall w :: Count(log, w) <= rule.limit)
    && (forall i :: 0 <= i < |log| ==> Truncate(log[i], rule.period) == log[i])
  }

  ghost predicate Good(rule: Rule, s: State)
    requires rule.Valid()
  {
    && LogGood(rule, Standing(s.permits))
    && s.counter == CounterOf(Standing(s.permits))
    && forall i: nat :: i < |s.permits| ==> CapturedRight(s.permits, i)
  }

  lemma LogGoodPrefix(rule: Rule, log: seq<int>, k: nat)
    requires rule.Valid() && LogGood(rule, log) && k <= |log|
    ensures LogGood(rule, log[..k])
  {
    PrefixNoReturn(log, k);
    forall w ensures Count(log[..k], w) <= rule.limit {
      CountGrows(log, k, w);
    }
  }

  lemma LogGoodAppend(rule: Rule, log: seq<int>, w: int)
    requires rule.Valid() && LogGood(rule, log) && Continues(log, w) && Truncate(w, rule.period) == w
    requires !Full(rule, CounterOf(log), w)
    ensures LogGood(rule, log + [w])
  {
    AppendCounts(log, w);
    if Count(log, w) > 0 {
      LastBlockIsAll(log);
    }
  }

  lemma Aligned(rule: Rule, t: int)
    requires rule.Valid()
    ensures Truncate(Truncate(t, rule.period), rule.period) == Truncate(t, rule.period)
  {
    TruncateUnique(Truncate(t, rule.period), rule.period, t / rule.period);
  }

  /** A reservation captures what it finds, and earlier captures stay right. */
  lemma AppendKeepsCaptured(permits: seq<Permit>, w: int)
    requires forall i: nat :: i < |permits| ==> CapturedRight(permits, i)
    ensures var c := CounterOf(Standing(permits));
      var after := permits + [Permit(w, c, Take(c, w), Pending)];
      && Standing(after) == Standing(permits) + [w] && Take(c, w) == CounterOf(Standing(after))
      && forall i: nat :: i < |after| ==> CapturedRight(after, i)
  {
    var c, n := CounterOf(Standing(permits)), |permits|;
    var after := permits + [Permit(w, c, Take(c, w), Pending)];
    StandingSnoc(permits, after[n]);
    TakeAppends(Standing(permits), w);
    forall i: nat | i < |after| ensures CapturedRight(after, i) {
      if i < n {
        assert after[..i] == permits[..i] && after[..i + 1] == permits[..i + 1] && CapturedRight(permits, i);
      } else {
        assert after[..i] == permits && after[..i + 1] == after;
      }
    }
  }

  lemma ReserveKeepsGood(rule: Rule, s: State, now: int)
    requires rule.Valid() && Good(rule, s) && Guarded(rule, s, Reserve(now))
    ensures Good(rule, Step(rule, s, Reserve(now)))
  {
    var w := Truncate(now, rule.period);
    if !Full(rule, s.counter, w) {
      Aligned(rule, now);
      AppendKeepsCaptured(s.permits, w);
      LogGoodAppend(rule, Standing(s.permits), w);
    }
  }

  lemma KeepKeepsGood(rule: Rule, s: State, at: nat)
    requires rule.Valid() && Good(rule, s) && PendingAt(s, at)
    ensures Good(rule, Step(rule, s, Keep(at)))
  {
    var t := Step(rule, s, Keep(at));
    KeepStanding(s.permits, at);
    forall i: nat | i < |t.permits| ensures CapturedRight(t.permits, i) {
      assert CapturedRight(s.permits, i);
      KeepPrefix(s.permits, at, i);
      KeepPrefix(s.permits, at, i + 1);
    }
  }

  lemma KeepPrefix(permits: seq<Permit>, at: nat, k: nat)
    requires at < |permits| && k <= |permits| && permits[at].status.Pending?
    ensures Standing(permits[at := permits[at].(status := Kept)][..k]) == Standing(permits[..k])
  {
    var after := permits[at := permits[at].(status := Kept)];
    if at < k {
      assert after[..k] == permits[..k][at := permits[at].(status := Kept)];
      KeepStanding(permits[..k], at);
    } else {
      assert after[..k] == permits[..k];
    }
  }

  /** A rollback that finds its own counter is one of the last standing permit. */
  lemma MatchedIsTop(rule: Rule, s: State, at: nat)
    requires rule.Valid() && Good(rule, s) && PendingAt(s, at) && s.counter == s.permits[at].left
    ensures Standing(s.permits[..at + 1]) == Standing(s.permits)
  {
    var log, p := Standing(s.permits), Standing(s.permits[..at + 1]);
    assert CapturedRight(s.permits, at);
    StandingPrefix(s.permits, at + 1);
    StandsAtEnd(s.permits, at);
    if |p| < |log| {
      assert log[..|p|] == p;
      LastBlockIsUnique(log, |p| - 1);
    }
  }

  lemma StandsAtEnd(permits: seq<Permit>, at: nat)
    requires at < |permits| && permits[at].status.Pending?
    ensures Standing(permits[..at + 1]) == Standing(permits[..at]) + [permits[at].window]
  {
    assert permits[..at + 1] == permits[..at] + [permits[at]];
    StandingSnoc(permits[..at], permits[at]);
  }

  lemma RollBackKeepsGood(rule: Rule, s: State, at: nat)
    requires rule.Valid() && Good(rule, s) && PendingAt(s, at) && s.counter == s.permits[at].left
    ensures Good(rule, Step(rule, s, RollBack(at)))
  {
    var t := Step(rule, s, RollBack(at));
    assert CapturedRight(s.permits, at);
    MatchedIsTop(rule, s, at);
    TopRolledBack(s.permits, at);
    StandingPrefix(s.permits, at);
    var log, k := Standing(s.permits), |Standing(s.permits[..at])|;
    assert log[..k] == Standing(t.permits);
    LogGoodPrefix(rule, log, k);
    forall i: nat | i < |t.permits| ensures CapturedRight(t.permits, i) {
      if i < at {
        assert t.permits[..i] == s.permits[..i] && t.permits[..i + 1] == s.permits[..i + 1];
        assert CapturedRight(s.permits, i);
      }
    }
  }

  lemma StepKeepsGood(rule: Rule, s: State, a: Action)
    requires rule.Valid() && Good(rule, s) && Guarded(rule, s, a)
    ensures Good(rule, Step(rule, s, a))
  {
    match a
    case Reserve(now) => ReserveKeepsGood(rule, s, now);
    case Keep(at) => if PendingAt(s, at) { KeepKeepsGood(rule, s, at); }
    case RollBack(at) => if PendingAt(s, at) { RollBackKeepsGood(rule, s, at); }
  }

  lemma {:induction false} CarefulRunsAreGood(rule: Rule, actions: seq<Action>)
    requires rule.Valid() && Careful(rule, actions)
    ensures Good(rule, Run(rule, INITIAL, actions))
  {
    if |actions| > 0 {
      var init := actions[..|actions| - 1];
      assert forall k :: 0 <= k < |init| ==> init[..k] == actions[..k] && init[k] == actions[k];
      CarefulRunsAreGood(rule, init);
      StepKeepsGood(rule, Run(rule, INITIAL, init), actions[|actions| - 1]);
    }
  }

  /** In every careful run the counter counts exactly the standing permits of its window, so
      that no kept permit is ever forgotten, and no window has more of them than its limit. */
  lemma CarefulRunsKeepCeiling(rule: Rule, actions: seq<Action>, w: int)
    requires rule.Valid() && Careful(rule, actions)
    ensures var s := Run(rule, INITIAL, actions);
      && (Standing(s.permits) != [] ==> s.counter.count == Count(Standing(s.permits), s.counter.window))
      && KeptIn(s.permits, w) <= Count(Standing(s.permits), w) <= rule.limit
  {
    CarefulRunsAreGood(rule, actions);
    var s := Run(rule, INITIAL, actions);
    KeptStand(s.permits, w);
    if Standing(s.permits) != [] {
      LastBlockIsAll(Standing(s.permits));
    }
  }

  // ---- the exact condition ----

  /** Further reservations in one window, and keeps. */
  ghost predicate StartsIn(rule: Rule, actions: seq<Action>, w: int)
    requires rule.Valid()
  {
    forall i :: 0 <= i < |actions| ==>
      actions[i].Keep? || (actions[i].Reserve? && Truncate(actions[i].now, rule.period) == w)
  }

  /** No such continuation leads to more kept permits in the window than its limit. */
  ghost predicate CeilingSafe(rule: Rule, s: State, w: int)
    requires rule.Valid()
  {
    forall more :: StartsIn(rule, more, w) ==> KeptIn(Run(rule, s, more).permits, w) <= rule.limit
  }

  lemma {:induction false} StartsKeepGood(rule: Rule, s: State, more: seq<Action>, w: int)
    requires rule.Valid() && Good(rule, s) && Continues(Standing(s.permits), w) && StartsIn(rule, more, w)
    ensures Good(rule, Run(rule, s, more)) && Continues(Standing(Run(rule, s, more).permits), w)
  {
    if |more| > 0 {
      var init, a := more[..|more| - 1], more[|more| - 1];
      StartsKeepGood(rule, s, init, w);
      var t := Run(rule, s, init);
      StepKeepsGood(rule, t, a);
      if a.Reserve? && !Full(rule, t.counter, w) {
        StandingSnoc(t.permits, Step(rule, t, a).permits[|t.permits|]);
      } else if a.Keep? && PendingAt(t, a.at) {
        KeepStanding(t.permits, a.at);
      }
    }
  }

  lemma GoodIsSafe(rule: Rule, s: State, w: int)
    requires rule.Valid() && Good(rule, s) && Continues(Standing(s.permits), w)
    ensures CeilingSafe(rule, s, w)
  {
    forall more | StartsIn(rule, more, w) ensures KeptIn(Run(rule, s, more).permits, w) <= rule.limit {
      StartsKeepGood(rule, s, more, w);
      KeptStand(Run(rule, s, more).permits, w);
    }
  }

  lemma {:induction false} RunConcat(rule: Rule, s: State, a: seq<Action>, b: seq<Action>)
    requires rule.Valid()
    ensures Run(rule, s, a + b) == Run(rule, Run(rule, s, a), b)
  {
    if |b| == 0 {
      assert a + b == a;
    } else {
      assert (a + b)[..|a + b| - 1] == a + b[..|b| - 1];
      RunConcat(rule, s, a, b[..|b| - 1]);
    }
  }

  function Used(c: Counter, w: int): int {
    if c.window == w then c.count else 0
  }

  /** The counter lets as many jobs start in the window as it has room for. */
  lemma {:induction false} FillUp(rule: Rule, s: State, w: int, k: nat) returns (more: seq<Action>)
    requires rule.Valid() && Truncate(w, rule.period) == w && (k == 0 || Used(s.counter, w) + k <= rule.limit)
    ensures StartsIn(rule, more, w)
    ensures Count(Standing(Run(rule, s, more).permits), w) == Count(Standing(s.permits), w) + k
    ensures Used(Run(rule, s, more).counter, w) == Used(s.counter, w) + k
  {
    if k == 0 {
      more := [];
    } else {
      var init := FillUp(rule, s, w, k - 1);
      more := init + [Reserve(w)];
      assert more[..|init|] == init;
      var t := Run(rule, s, init);
      StandingSnoc(t.permits, Step(rule, t, Reserve(w)).permits[|t.permits|]);
      AppendCounts(Standing(t.permits), w);
    }
  }

  /** All pending jobs can keep their permits. */
  lemma {:induction false} KeepFirst(rule: Rule, s: State, k: nat, w: int) returns (more: seq<Action>)
    requires rule.Valid() && k <= |s.permits|
    ensures StartsIn(rule, more, w)
    ensures var t := Run(rule, s, more);
      && Standing(t.permits) == Standing(s.permits) && |t.permits| == |s.permits|
      && forall i :: 0 <= i < k ==> !t.permits[i].status.Pending?
  {
    if k == 0 {
      more := [];
    } else {
      var init := KeepFirst(rule, s, k - 1, w);
      more := init + [Keep(k - 1)];
      assert more[..|init|] == init;
      var t := Run(rule, s, init);
      if PendingAt(t, k - 1) {
        KeepStanding(t.permits, k - 1);
      }
    }
  }

  /** A counter that has forgotten a standing permit of a window lets the window overflow. */
  lemma UndercountOverflows(rule: Rule, s: State, w: int)
    requires rule.Valid() && Truncate(w, rule.period) == w && Used(s.counter, w) < Count(Standing(s.permits), w)
    ensures !CeilingSafe(rule, s, w)
  {
    var room := rule.limit - Used(s.counter, w);
    var starts := FillUp(rule, s, w, if room > 0 then room else 0);
    var t := Run(rule, s, starts);
    var keeps := KeepFirst(rule, t, |t.permits|, w);
    RunConcat(rule, s, starts, keeps);
    SettledAreKept(Run(rule, t, keeps).permits, w);
    assert StartsIn(rule, starts + keeps, w);
  }

  lemma {:induction false} TrailingAtMostCount(log: seq<int>)
    requires |log| > 0
    ensures Trailing(log) <= Count(log, log[|log| - 1])
  {
    if |log| >= 2 && log[|log| - 2] == log[|log| - 1] {
      TrailingAtMostCount(log[..|log| - 1]);
    }
  }

  /** What an earlier counter remembers of the last window misses its last permit. */
  lemma EarlierUndercounts(log: seq<int>, before: seq<int>, u: int)
    requires before + [u] <= log && |before| + 1 < |log|
    ensures var w := log[|log| - 1];
      Used(CounterOf(before), w) < Count(log, w) - if u == w then 1 else 0
  {
    var n, k := |log| - 1, |before| + 1;
    var w := log[n];
    assert log[..n][..k] == before + [u];
    AppendCounts(before, u);
    CountGrows(log[..n], k, w);
    if before != [] {
      TrailingAtMostCount(before);
    }
  }

  lemma UnmatchedUndercounts(rule: Rule, s: State, at: nat)
    requires rule.Valid() && Good(rule, s) && PendingAt(s, at) && s.counter != s.permits[at].left
    ensures var t, w := Step(rule, s, RollBack(at)), s.counter.window;
      Truncate(w, rule.period) == w && Used(t.counter, w) < Count(Standing(t.permits), w)
  {
    var log, before, u := Standing(s.permits), Standing(s.permits[..at]), s.permits[at].window;
    assert CapturedRight(s.permits, at);
    StandingPrefix(s.permits, at + 1);
    StandsAtEnd(s.permits, at);
    assert |before| + 1 == |log| ==> log == before + [u];
    EarlierUndercounts(log, before, u);
    RollBackCounts(s.permits, at, log[|log| - 1]);
  }

  /** The exact condition for rollbacks: after a careful run, rolling a permit back leaves the
      current window safe from whatever starts follow in it if and only if the counter is
      still what that permit's own reservation left. */
  lemma RollbackSafeIff(rule: Rule, actions: seq<Action>, at: nat)
    requires rule.Valid() && Careful(rule, actions) && PendingAt(Run(rule, INITIAL, actions), at)
    ensures var s := Run(rule, INITIAL, actions);
      CeilingSafe(rule, Step(rule, s, RollBack(at)), s.counter.window) <==> s.counter == s.permits[at].left
  {
    CarefulRunsAreGood(rule, actions);
    var s := Run(rule, INITIAL, actions);
    if s.counter == s.permits[at].left {
      RollBackKeepsGood(rule, s, at);
      MatchedIsTop(rule, s, at);
      TopRolledBack(s.permits, at);
      StandsAtEnd(s.permits, at);
      AppendCounts(Standing(s.permits[..at]), s.permits[at].window);
      GoodIsSafe(rule, Step(rule, s, RollBack(at)), s.counter.window);
    } else {
      UnmatchedUndercounts(rule, s, at);
      UndercountOverflows(rule, Step(rule, s, RollBack(at)), s.counter.window);
    }
  }

  /** The exact condition for reservations: a further permit leaves its window safe if and
      only if it continues the counter's window or opens one without standing permits. */
  lemma ReserveSafeIff(rule: Rule, actions: seq<Action>, now: int)
    requires rule.Valid() && Careful(rule, actions)
    requires !Full(rule, Run(rule, INITIAL, actions).counter, Truncate(now, rule.period))
    ensures var s, w := Run(rule, INITIAL, actions), Truncate(now, rule.period);
      CeilingSafe(rule, Step(rule, s, Reserve(now)), w) <==> Continues(Standing(s.permits), w)
  {
    CarefulRunsAreGood(rule, actions);
    var s, w := Run(rule, INITIAL, actions), Truncate(now, rule.period);
    var t := Step(rule, s, Reserve(now));
    StandingSnoc(s.permits, t.permits[|s.permits|]);
    AppendCounts(Standing(s.permits), w);
    if Continues(Standing(s.permits), w) {
      ReserveKeepsGood(rule, s, now);
      GoodIsSafe(rule, t, w);
    } else {
      Aligned(rule, now);
      UndercountOverflows(rule, t, w);
    }
  }

  lemma RunSnoc(rule: Rule, s: State, actions: seq<Action>, a: Action)
    requires rule.Valid()
    ensures Run(rule, s, actions + [a]) == Step(rule, Run(rule, s, actions), a)
  {
    assert (actions + [a])[..|actions|] == actions;
  }

  lemma RunTwo(rule: Rule, s: State, a: Action, b: Action)
    requires rule.Valid()
    ensures Run(rule, s, [a, b]) == Step(rule, Step(rule, s, a), b)
  {
    assert [] + [a] == [a] && [a] + [b] == [a, b];
    RunSnoc(rule, s, [], a);
    RunSnoc(rule, s, [a], b);
  }

  lemma TwoReserved(rule: Rule, w: int)
    requires rule.Valid() && rule.limit >= 2 && Truncate(w, rule.period) == w && w != ZERO_TIME
    ensures Run(rule, INITIAL, [Reserve(w), Reserve(w)]) ==
      State(Counter(w, 2), [Permit(w, FRESH, Counter(w, 1), Pending), Permit(w, Counter(w, 1), Counter(w, 2), Pending)])
  {
    RunTwo(rule, INITIAL, Reserve(w), Reserve(w));
  }

  /** Two jobs reserve in one window, and the first rolls back: its overwriting erases the
      permit of the second, and from there the window can be filled beyond its limit. */
  lemma WindowRollbackLosesPermit(rule: Rule, w: int) returns (actions: seq<Action>)
    requires rule.Valid() && rule.limit >= 2 && Truncate(w, rule.period) == w && w != ZERO_TIME
    ensures KeptIn(Run(rule, INITIAL, actions).permits, w) > rule.limit
  {
    var start := [Reserve(w), Reserve(w)];
    TwoReserved(rule, w);
    var s := Run(rule, INITIAL, start);
    var t := Step(rule, s, RollBack(0));
    RunSnoc(rule, INITIAL, start, RollBack(0));
    RollBackCounts(s.permits, 0, w);
    TwoStanding(s.permits, w);
    UndercountOverflows(rule, t, w);
    var more :| StartsIn(rule, more, w) && KeptIn(Run(rule, t, more).permits, w) > rule.limit;
    RunConcat(rule, INITIAL, start + [RollBack(0)], more);
    actions := start + [RollBack(0)] + more;
  }

  lemma TwoStanding(permits: seq<Permit>, w: int)
    requires |permits| == 2 && permits[0].window == permits[1].window == w
    requires permits[0].status.Pending? && permits[1].status.Pending?
    ensures Count(Standing(permits), w) == 2
  {
    assert permits[..1][..0] == [] && permits[..1][0] == permits[0];
    AppendCounts([], w);
    AppendCounts([w], w);
    assert [] + [w] == [w] && Standing(permits[..1]) == [w];
  }

  // ---- behind one rate gate ----

  ghost predicate NonePending(s: State) {
    forall i: nat :: !PendingAt(s, i)
  }

  /** All jobs on the state pass one rate gate, which a job holds from before its reservation
      until its permit is kept or rolled back. */
  ghost predicate Gated(rule: Rule, actions: seq<Action>)
    requires rule.Valid()
  {
    forall k :: 0 <= k < |actions| && actions[k].Reserve? ==> NonePending(Run(rule, INITIAL, actions[..k]))
  }

  ghost predicate PendingFindOwn(s: State) {
    && (forall i: nat, j: nat :: PendingAt(s, i) && PendingAt(s, j) ==> i == j)
    && (forall i: nat :: PendingAt(s, i) ==> s.counter == s.permits[i].left)
  }

  lemma StepFindsOwn(rule: Rule, s: State, a: Action)
    requires rule.Valid() && PendingFindOwn(s) && (a.Reserve? ==> NonePending(s))
    ensures PendingFindOwn(Step(rule, s, a))
  {
    var t := Step(rule, s, a);
    forall i: nat | PendingAt(t, i) && i < |s.permits| ensures PendingAt(s, i) {
    }
    if a.RollBack? && PendingAt(s, a.at) {
      forall i: nat ensures !PendingAt(t, i) {
        assert PendingAt(s, i) ==> i == a.at;
      }
    }
  }

  /** Then every rollback finds the counter that its own reservation left. */
  lemma {:induction false} GatedRollbacksMatch(rule: Rule, actions: seq<Action>)
    requires rule.Valid() && Gated(rule, actions)
    ensures PendingFindOwn(Run(rule, INITIAL, actions))
  {
    if |actions| > 0 {
      var init := actions[..|actions| - 1];
      assert forall k :: 0 <= k < |init| ==> init[..k] == actions[..k] && init[k] == actions[k];
      GatedRollbacksMatch(rule, init);
      StepFindsOwn(rule, Run(rule, INITIAL, init), actions[|actions| - 1]);
    }
  }

  /** So behind one gate only the clock can break the ceiling: as long as no reservation
      returns to a window with standing permits, no window exceeds its limit. */
  lemma GatedRunsKeepCeiling(rule: Rule, actions: seq<Action>, w: int)
    requires rule.Valid() && Gated(rule, actions)
    requires forall k :: 0 <= k < |actions| && actions[k].Reserve? ==>
      Guarded(rule, Run(rule, INITIAL, actions[..k]), actions[k])
    ensures Careful(rule, actions) && KeptIn(Run(rule, INITIAL, actions).permits, w) <= rule.limit
  {
    forall k | 0 <= k < |actions| ensures Guarded(rule, Run(rule, INITIAL, actions[..k]), actions[k]) {
      if actions[k].RollBack? {
        GatedPrefix(rule, actions, k);
        GatedRollbacksMatch(rule, actions[..k]);
      }
    }
    CarefulRunsKeepCeiling(rule, actions, w);
  }

  lemma GatedPrefix(rule: Rule, actions: seq<Action>, k: nat)
    requires rule.Valid() && Gated(rule, actions) && k <= |actions|
    ensures Gated(rule, actions[..k])
  {
    var init := actions[..k];
    assert forall i :: 0 <= i < k ==> init[..i] == actions[..i] && init[i] == actions[i];
  }
}
