/** Many jobs reserving, keeping and rolling back permits of one local rule state. A
    reservation is rolled back when a shared rule refuses the job after the local rules
    had admitted it. */
module LocalRollback {
  import opened Prelude
  import opened Gcra
  import RuleKeys
  import Local = LocalRateLimit

  datatype Status = Pending | Kept | Leaked

  /** What the rollback closure captured; `at` is history, the permit's position. */
  datatype Captured = Captured(previous: int, reserved: int, at: nat)

  /** `nows` and `statuses` are history: the instants and fates of the permits that stay
      charged to the rule, in reservation order. */
  datatype State = State(tat: int, captured: map<nat, Captured>, nows: seq<int>, statuses: seq<Status>, tickets: nat)

  datatype Action = Reserve(now: int) | Keep(ticket: nat) | RollBack(ticket: nat)

  const INITIAL: State := State(ZERO_TIME, map[], [], [], 0)

  function Removed<T>(s: seq<T>, at: nat): seq<T> {
    if at < |s| then s[..at] + s[at + 1..] else s
  }

  function Marked(s: seq<Status>, at: nat, status: Status): seq<Status> {
    if at < |s| then s[at := status] else s
  }

  function Step(rule: Rule, s: State, a: Action): State {
    match a
    case Reserve(now) =>
      if !Admits(rule, s.tat, now) then s
      else
        var reserved := Max(s.tat, now) + rule.interval;
        State(reserved, s.captured[s.tickets := Captured(s.tat, reserved, |s.nows|)],
              s.nows + [now], s.statuses + [Pending], s.tickets + 1)
    case Keep(ticket) =>
      if ticket !in s.captured then s
      else s.(captured := s.captured - {ticket}, statuses := Marked(s.statuses, s.captured[ticket].at, Kept))
    case RollBack(ticket) =>
      if ticket !in s.captured then s
      else
        var c := s.captured[ticket];
        if s.tat == c.reserved then
          s.(tat := c.previous, captured := s.captured - {ticket},
             nows := Removed(s.nows, c.at), statuses := Removed(s.statuses, c.at))
        else s.(captured := s.captured - {ticket}, statuses := Marked(s.statuses, c.at, Leaked))
  }

  function Run(rule: Rule, actions: seq<Action>): State {
    if |actions| == 0 then INITIAL
    else Step(rule, Run(rule, actions[..|actions| - 1]), actions[|actions| - 1])
  }

  /** The steps of this machine are those of the limiter on one rule state: a reservation
      blocks, charges and captures as the limiter does, and a rollback restores as it does. */
  lemma MachineIsLimiter(local: Local.Rule, rule: Rule, s: State, st: Local.RateState, now: int, ticket: nat)
    requires local.Valid() && local.mode.SmoothMode?
    requires rule == Rule(local.interval, rule.burst) && local.tolerance == rule.Tolerance()
    requires st.tat == s.tat
    ensures var t := Step(rule, s, Reserve(now));
      if Local.Blocked(local, st, now) then t == s
      else var r := Local.ReservationFor(local, st, now);
        && t.tat == Local.Taken(local, st, now).tat && s.tickets in t.captured && !r.fixedWindow
        && t.captured[s.tickets].previous == r.previous.tat && t.captured[s.tickets].reserved == r.reserved
    ensures ticket in s.captured ==>
      (var c := s.captured[ticket];
      var r := Local.Reservation(local.key, st.(tat := c.previous), c.reserved, false);
      Step(rule, s, RollBack(ticket)).tat == Local.StateAt(Local.Undone(map[local.key := st], r), local.key).tat)
  {
  }

  // ---- the standing permits form a stack ----

  ghost predicate CapturedInv(rule: Rule, s: State, c: Captured) {
    && c.at < |s.nows| == |s.statuses|
    && s.statuses[c.at].Pending?
    && c.previous == Tat(rule, ZERO_TIME, s.nows[..c.at])
    && c.reserved == Tat(rule, ZERO_TIME, s.nows[..c.at + 1])
  }

  ghost predicate Inv(rule: Rule, s: State) {
    && |s.nows| == |s.statuses|
    && s.tat == Tat(rule, ZERO_TIME, s.nows)
    && Conforming(rule, ZERO_TIME, s.nows)
    && (forall t :: t in s.captured ==> t < s.tickets && CapturedInv(rule, s, s.captured[t]))
    && (forall t, u :: t in s.captured && u in s.captured && t != u ==> s.captured[t].at != s.captured[u].at)
  }

  lemma CapturedSurvivesAppend(rule: Rule, s: State, t: State, c: Captured, now: int)
    requires CapturedInv(rule, s, c)
    requires t.nows == s.nows + [now] && t.statuses == s.statuses + [Pending]
    ensures CapturedInv(rule, t, c)
  {
    assert t.nows[..c.at] == s.nows[..c.at] && t.nows[..c.at + 1] == s.nows[..c.at + 1];
  }

  lemma ReserveKeepsInv(rule: Rule, s: State, now: int)
    requires Inv(rule, s)
    ensures Inv(rule, Step(rule, s, Reserve(now)))
  {
    if Admits(rule, s.tat, now) {
      var t := Step(rule, s, Reserve(now));
      AppendConforming(rule, ZERO_TIME, s.nows, now);
      TatAppend(rule, ZERO_TIME, s.nows, now);
      forall u | u in t.captured ensures CapturedInv(rule, t, t.captured[u]) {
        if u == s.tickets {
          assert t.nows[..|s.nows|] == s.nows && t.nows[..|s.nows| + 1] == t.nows;
        } else {
          CapturedSurvivesAppend(rule, s, t, s.captured[u], now);
        }
      }
    }
  }

  /** The comparison with the captured cursor singles out the top of the stack. */
  lemma RestoredOnlyFromTop(rule: Rule, s: State, c: Captured)
    requires rule.Valid() && Inv(rule, s) && CapturedInv(rule, s, c) && s.tat == c.reserved
    ensures c.at == |s.nows| - 1
  {
    if c.at + 1 < |s.nows| {
      TatStrict(rule, ZERO_TIME, s.nows, c.at + 1);
    }
  }

  lemma RestoreKeepsInv(rule: Rule, s: State, ticket: nat)
    requires rule.Valid() && Inv(rule, s) && ticket in s.captured && s.tat == s.captured[ticket].reserved
    ensures Inv(rule, Step(rule, s, RollBack(ticket)))
  {
    RestoredOnlyFromTop(rule, s, s.captured[ticket]);
    var t := Step(rule, s, RollBack(ticket));
    assert t.nows == s.nows[..|s.nows| - 1] && t.statuses == s.statuses[..|s.nows| - 1];
    assert forall k :: 0 <= k <= |t.nows| ==> t.nows[..k] == s.nows[..k];
    PrefixConforms(rule, s.nows, t.nows);
    forall u | u in t.captured ensures CapturedInv(rule, t, t.captured[u]) {
      CapturedSurvivesPop(rule, s, t, s.captured[u]);
    }
  }

  lemma PrefixConforms(rule: Rule, nows: seq<int>, shorter: seq<int>)
    requires Conforming(rule, ZERO_TIME, nows) && shorter <= nows
    ensures Conforming(rule, ZERO_TIME, shorter)
  {
    assert forall k :: 0 <= k < |shorter| ==> shorter[..k] == nows[..k] && shorter[k] == nows[k];
  }

  lemma CapturedSurvivesPop(rule: Rule, s: State, t: State, c: Captured)
    requires CapturedInv(rule, s, c) && c.at < |s.nows| - 1
    requires t.nows == s.nows[..|s.nows| - 1] && t.statuses == s.statuses[..|s.nows| - 1]
    ensures CapturedInv(rule, t, c)
  {
    assert t.nows[..c.at] == s.nows[..c.at] && t.nows[..c.at + 1] == s.nows[..c.at + 1];
  }

  lemma StepKeepsInv(rule: Rule, s: State, a: Action)
    requires rule.Valid() && Inv(rule, s)
    ensures Inv(rule, Step(rule, s, a))
  {
    match a
    case Reserve(now) => ReserveKeepsInv(rule, s, now);
    case Keep(ticket) =>
    case RollBack(ticket) =>
      if ticket in s.captured && s.tat == s.captured[ticket].reserved {
        RestoreKeepsInv(rule, s, ticket);
      }
  }

  lemma {:induction false} RunInv(rule: Rule, actions: seq<Action>)
    requires rule.Valid()
    ensures Inv(rule, Run(rule, actions))
  {
    if |actions| > 0 {
      RunInv(rule, actions[..|actions| - 1]);
      StepKeepsInv(rule, Run(rule, actions[..|actions| - 1]), actions[|actions| - 1]);
    }
  }

  // ---- the guarantees ----

  ghost predicate KeptHere(s: State, i: nat, now: int) {
    i < |s.nows| && i < |s.statuses| && s.statuses[i].Kept? && s.nows[i] == now
  }

  /** No step of any run takes a kept permit back: it stays charged, at its position. */
  lemma KeptPermitsSurvive(rule: Rule, actions: seq<Action>, a: Action, i: nat, now: int)
    requires rule.Valid() && KeptHere(Run(rule, actions), i, now)
    ensures KeptHere(Step(rule, Run(rule, actions), a), i, now)
  {
    RunInv(rule, actions);
    StepKeepsKept(rule, Run(rule, actions), a, i, now);
  }

  lemma StepKeepsKept(rule: Rule, s: State, a: Action, i: nat, now: int)
    requires rule.Valid() && Inv(rule, s) && KeptHere(s, i, now)
    ensures KeptHere(Step(rule, s, a), i, now)
  {
    if a.RollBack? && a.ticket in s.captured && s.tat == s.captured[a.ticket].reserved {
      RestoredOnlyFromTop(rule, s, s.captured[a.ticket]);
    }
  }

  /** Positions of the kept permits. */
  function KeptAt(statuses: seq<Status>): (r: seq<nat>)
    ensures forall k: nat :: k in r <==> k < |statuses| && statuses[k].Kept?
    ensures forall i, j :: 0 <= i < j < |r| ==> r[i] < r[j]
  {
    if |statuses| == 0 then []
    else
      var n := |statuses| - 1;
      var r := KeptAt(statuses[..n]);
      assert forall i :: 0 <= i < |r| ==> r[i] in r;
      if statuses[n].Kept? then r + [n] else r
  }

  function KeptNows(nows: seq<int>, statuses: seq<Status>): (r: seq<int>)
    requires |nows| == |statuses|
    ensures |r| == |KeptAt(statuses)|
    ensures forall i :: 0 <= i < |r| ==> KeptAt(statuses)[i] in KeptAt(statuses) && r[i] == nows[KeptAt(statuses)[i]]
  {
    var at := KeptAt(statuses);
    assert forall i :: 0 <= i < |at| ==> at[i] in at;
    seq(|at|, i requires 0 <= i < |at| => nows[at[i]])
  }

  lemma {:induction false} GapAtLeast(at: seq<nat>, i: nat, j: nat)
    requires i <= j < |at| && forall x, y :: 0 <= x < y < |at| ==> at[x] < at[y]
    ensures j - i <= at[j] - at[i]
    decreases j
  {
    if i < j {
      GapAtLeast(at, i, j - 1);
    }
  }

  lemma ScaleMonotone(a: int, b: int, d: int)
    requires a <= b && d >= 0
    ensures a * d <= b * d
  {
    assert (b - a) * d >= 0;
  }

  lemma SpacedPart(rule: Rule, nows: seq<int>, statuses: seq<Status>)
    requires rule.Valid() && |nows| == |statuses| && Spaced(rule, nows)
    ensures Spaced(rule, KeptNows(nows, statuses))
  {
    var kept, at := KeptNows(nows, statuses), KeptAt(statuses);
    var tolerance := rule.Tolerance();
    forall i, j | 0 <= i <= j < |kept|
      ensures (j - i) * rule.interval <= kept[j] - kept[i] + tolerance
    {
      GapAtLeast(at, i, j);
      ScaleMonotone(j - i, at[j] - at[i], rule.interval);
      assert at[i] in at && at[j] in at;
    }
  }

  /** The permits that were kept satisfy the burst and interval bound on their own, in
      every interleaving of reservations, keeps and rollbacks. */
  lemma KeptPermitsAreSpaced(rule: Rule, actions: seq<Action>)
    requires rule.Valid()
    ensures var s := Run(rule, actions);
      |s.nows| == |s.statuses| && Spaced(rule, KeptNows(s.nows, s.statuses))
  {
    RunInv(rule, actions);
    var s := Run(rule, actions);
    ConformingIffSpaced(rule, ZERO_TIME, s.nows);
    SpacedPart(rule, s.nows, s.statuses);
  }

  // ---- in terms of limit and period ----

  /** The rule that the kept permits of a configured limit obey. */
  function RuleOf(n: RuleKeys.Limit): Rule
    requires RuleKeys.Usable(n)
  {
    Rule(RuleKeys.Interval(n), n.burst)
  }

  /** A configured limit is a limiter rule with exactly that interval and tolerance, so the
      steps of this machine are the limiter's steps on it. */
  lemma ConfiguredRuleIsThisRule(hash: string -> string, queue: string, n: RuleKeys.Limit, value: string)
    requires RuleKeys.Usable(n)
    ensures var local := Local.RuleFor(hash, queue, n, value);
      && local.Valid() && local.mode == n.mode && local.scope == n.scope
      && local.limit == n.limit && local.period == n.period
      && local.interval == RuleOf(n).interval && local.tolerance == RuleOf(n).Tolerance()
    ensures RuleOf(n).Valid()
  {
    RuleKeys.IntervalIsPeriodOverLimit(n);
    Local.UsableRule(hash, queue, n, value);
  }

  /** In every interleaving, a period carries at most the limit and the burst of kept permits,
      as long as the limit is no larger than the interval. */
  lemma KeptPermitsPerPeriod(n: RuleKeys.Limit, actions: seq<Action>, lo: int)
    requires RuleKeys.Usable(n) && n.limit * n.limit <= n.period
    ensures var s := Run(RuleOf(n), actions);
      |s.nows| == |s.statuses| && |PermitsIn(KeptNows(s.nows, s.statuses), lo, n.period)| <= n.burst + n.limit
  {
    var rule := RuleOf(n);
    assert n.limit <= n.limit * n.limit;
    RuleKeys.IntervalIsPeriodOverLimit(n);
    MultiplierOrder(n.limit, rule.interval + 1, n.limit);
    PeriodHoldsLimit(rule.interval, n.limit, n.period);
    KeptPermitsAreSpaced(rule, actions);
    var s := Run(rule, actions);
    SpanBound(rule, KeptNows(s.nows, s.statuses), lo, n.period);
  }
}
