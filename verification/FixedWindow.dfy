/** `acquireFixedWindow`: the shared fixed-window limiter, which hides its counter in the
    milliseconds after the window boundary of one compare-and-swap cursor. */
module FixedWindow {
  import opened Prelude
  import opened WindowLog
  import CursorStore

  const UNIT: int := MILLISECOND

  datatype Config = Config(period: int, limit: int) {
    predicate Valid() {
      limit >= 1 && limit < period / UNIT
    }
  }

  datatype Caller =
    | Reading(now: int)
    | Swapping(now: int, seen: int)
    | Granted
    | Refused(window: int, retryAt: int)

  /** `log` is history: the windows of the granted permits, in grant order. */
  datatype State = State(cursor: Option<int>, callers: map<nat, Caller>, log: seq<int>)

  datatype Action =
    | Begin(caller: nat, now: int)
    | Read(caller: nat)
    | Swap(caller: nat)
    | GiveUp(caller: nat)

  const INITIAL: State := State(None, map[], [])

  function Window(cfg: Config, t: int): int
    requires cfg.Valid()
  {
    Truncate(t, cfg.period)
  }

  function CountIn(cfg: Config, cursor: int): int
    requires cfg.Valid()
  {
    (cursor - Window(cfg, cursor)) / UNIT
  }

  function Step(cfg: Config, s: State, a: Action): State
    requires cfg.Valid()
  {
    match a
    case Begin(c, now) => s.(callers := s.callers[c := Reading(now)])
    case GiveUp(c) => s.(callers := s.callers - {c})
    case Read(c) =>
      if c in s.callers && s.callers[c].Reading? then
        var now := s.callers[c].now;
        var window := Window(cfg, now);
        if s.cursor.None? then
          State(Some(window + UNIT), s.callers[c := Granted], s.log + [window])
        else if Window(cfg, s.cursor.value) == window && CountIn(cfg, s.cursor.value) >= cfg.limit then
          s.(callers := s.callers[c := Refused(window, window + cfg.period)])
        else s.(callers := s.callers[c := Swapping(now, s.cursor.value)])
      else s
    case Swap(c) =>
      if c in s.callers && s.callers[c].Swapping? then
        var Swapping(now, seen) := s.callers[c];
        var window := Window(cfg, now);
        var next := if Window(cfg, seen) == window then seen + UNIT else window + UNIT;
        if s.cursor == Some(seen) then State(Some(next), s.callers[c := Granted], s.log + [window])
        else s.(callers := s.callers[c := Reading(now)])
      else s
  }

  function Run(cfg: Config, actions: seq<Action>): State
    requires cfg.Valid()
  {
    if |actions| == 0 then INITIAL
    else Step(cfg, Run(cfg, actions[..|actions| - 1]), actions[|actions| - 1])
  }

  // ---- invariant ----

  ghost predicate CallerInv(cfg: Config, c: Caller)
    requires cfg.Valid()
  {
    c.Swapping? && Window(cfg, c.seen) == Window(cfg, c.now) ==> CountIn(cfg, c.seen) < cfg.limit
  }

  ghost predicate Inv(cfg: Config, s: State)
    requires cfg.Valid()
  {
    && (s.cursor.None? <==> s.log == [])
    && (s.cursor.Some? ==> s.cursor.value == s.log[|s.log| - 1] + Trailing(s.log) * UNIT)
    && (forall i :: 0 <= i < |s.log| ==> Window(cfg, s.log[i]) == s.log[i])
    && BlocksWithin(s.log, cfg.limit)
    && forall c :: c in s.callers ==> CallerInv(cfg, s.callers[c])
  }

  /** The encoded count never spills into the next window. */
  lemma EncodingIsFaithful(cfg: Config, window: int, n: nat)
    requires cfg.Valid() && Window(cfg, window) == window && n <= cfg.limit
    ensures Window(cfg, window + n * UNIT) == window
    ensures CountIn(cfg, window + n * UNIT) == n
  {
    var q := window / cfg.period;
    assert window == q * cfg.period;
    assert n * UNIT < cfg.period;
    TruncateUnique(window + n * UNIT, cfg.period, q);
  }

  lemma WindowIsAligned(cfg: Config, t: int)
    requires cfg.Valid()
    ensures Window(cfg, Window(cfg, t)) == Window(cfg, t)
  {
    TruncateUnique(Window(cfg, t), cfg.period, t / cfg.period);
  }

  lemma AppendKeepsBlocks(cfg: Config, log: seq<int>, w: int)
    requires cfg.Valid() && BlocksWithin(log, cfg.limit)
    requires |log| > 0 && log[|log| - 1] == w ==> Trailing(log) < cfg.limit
    ensures BlocksWithin(log + [w], cfg.limit)
    ensures Trailing(log + [w]) == if |log| > 0 && log[|log| - 1] == w then Trailing(log) + 1 else 1
  {
    AppendCounts(log, w);
    var ext := log + [w];
    forall k | 0 <= k <= |ext| ensures Trailing(ext[..k]) <= cfg.limit {
      if k <= |log| {
        assert ext[..k] == log[..k];
      } else {
        assert ext[..k] == ext;
      }
    }
  }

  lemma ReadKeepsInv(cfg: Config, s: State, c: nat)
    requires cfg.Valid() && Inv(cfg, s)
    ensures Inv(cfg, Step(cfg, s, Read(c)))
  {
    if c in s.callers && s.callers[c].Reading? && s.cursor.None? {
      var w := Window(cfg, s.callers[c].now);
      WindowIsAligned(cfg, s.callers[c].now);
      AppendKeepsBlocks(cfg, s.log, w);
    }
  }

  /** A successful swap writes the window of the new permit and the length of its block. */
  lemma SwapAppends(cfg: Config, s: State, c: nat)
    requires cfg.Valid() && Inv(cfg, s)
    requires c in s.callers && s.callers[c].Swapping? && s.cursor == Some(s.callers[c].seen)
    ensures var t := Step(cfg, s, Swap(c)); var w := Window(cfg, s.callers[c].now);
      && t.log == s.log + [w] && Window(cfg, w) == w && BlocksWithin(t.log, cfg.limit)
      && t.cursor == Some(w + Trailing(t.log) * UNIT)
  {
    var w := Window(cfg, s.callers[c].now);
    var last := s.log[|s.log| - 1];
    WindowIsAligned(cfg, s.callers[c].now);
    assert s.log[..|s.log|] == s.log;
    assert CallerInv(cfg, s.callers[c]);
    EncodingIsFaithful(cfg, last, Trailing(s.log));
    AppendKeepsBlocks(cfg, s.log, w);
  }

  lemma SwapKeepsInv(cfg: Config, s: State, c: nat)
    requires cfg.Valid() && Inv(cfg, s)
    ensures Inv(cfg, Step(cfg, s, Swap(c)))
  {
    if c in s.callers && s.callers[c].Swapping? && s.cursor == Some(s.callers[c].seen) {
      SwapAppends(cfg, s, c);
    }
  }

  lemma {:induction false} RunInv(cfg: Config, actions: seq<Action>)
    requires cfg.Valid()
    ensures Inv(cfg, Run(cfg, actions))
  {
    if |actions| > 0 {
      var s, a := Run(cfg, actions[..|actions| - 1]), actions[|actions| - 1];
      RunInv(cfg, actions[..|actions| - 1]);
      match a
      case Read(c) => ReadKeepsInv(cfg, s, c);
      case Swap(c) => SwapKeepsInv(cfg, s, c);
      case _ =>
    }
  }

  // ---- what every run guarantees ----

  /** In every run no block of consecutive permits for one window is longer than the limit,
      and while the permits never return to a window they left, no window exceeds it. */
  lemma WindowCeiling(cfg: Config, actions: seq<Action>, w: int)
    requires cfg.Valid()
    ensures BlocksWithin(Run(cfg, actions).log, cfg.limit)
    ensures NoReturn(Run(cfg, actions).log) ==> Count(Run(cfg, actions).log, w) <= cfg.limit
  {
    RunInv(cfg, actions);
    var log := Run(cfg, actions).log;
    if NoReturn(log) {
      BlocksBoundCounts(log, cfg.limit, w);
    }
  }

  /** So it is with windows in order, whatever the interleaving. */
  lemma OrderedWindowsKeepCeiling(cfg: Config, actions: seq<Action>, w: int)
    requires cfg.Valid() && Nondecreasing(Run(cfg, actions).log)
    ensures Count(Run(cfg, actions).log, w) <= cfg.limit
  {
    OrderedNeverReturns(Run(cfg, actions).log);
    WindowCeiling(cfg, actions, w);
  }

  /** A caller is refused exactly when the last block is this window's and is full; in a
      run that returned to no window that means exactly `limit` permits were granted in the
      window. The retry instant is the start of the next window. */
  lemma RefusalIsExact(cfg: Config, actions: seq<Action>, c: nat)
    requires cfg.Valid()
    requires var s := Run(cfg, actions); c in s.callers && s.callers[c].Reading?
    ensures var s := Run(cfg, actions);
      var w := Window(cfg, s.callers[c].now);
      var after := Step(cfg, s, Read(c)).callers[c];
      && (after.Refused? <==> s.log != [] && s.log[|s.log| - 1] == w && Trailing(s.log) == cfg.limit)
      && (after.Refused? && NoReturn(s.log) ==> Count(s.log, w) == cfg.limit)
      && (after.Refused? ==> after.retryAt == w + cfg.period > s.callers[c].now)
  {
    RunInv(cfg, actions);
    var s := Run(cfg, actions);
    if s.log != [] {
      assert s.log[..|s.log|] == s.log;
      EncodingIsFaithful(cfg, s.log[|s.log| - 1], Trailing(s.log));
      if NoReturn(s.log) {
        LastBlockIsAll(s.log);
      }
    }
  }

  // ---- the exact condition ----

  /** The second log extends the first one by permits for `w` only. */
  ghost predicate GrantsOnly(before: seq<int>, after: seq<int>, w: int) {
    before <= after && forall i :: |before| <= i < |after| ==> after[i] == w
  }

  /** No continuation of the run whose permits are all for `w` takes `w` over its limit. */
  ghost predicate CeilingUnbreakable(cfg: Config, actions: seq<Action>, w: int)
    requires cfg.Valid()
  {
    forall longer :: actions <= longer && GrantsOnly(Run(cfg, actions).log, Run(cfg, longer).log, w) ==>
      Count(Run(cfg, longer).log, w) <= cfg.limit
  }

  /** The exact condition: after a run that returned to no window, the ceiling of `w` is
      safe from whatever follows in `w` if and only if `w` is the cursor's own window or was
      never used. Coming back to a used window is what breaks it, an earlier one or not. */
  lemma CeilingUnbreakableIff(cfg: Config, actions: seq<Action>, now: int)
    requires cfg.Valid() && NoReturn(Run(cfg, actions).log)
    ensures var w := Window(cfg, now);
      CeilingUnbreakable(cfg, actions, w) <==> Continues(Run(cfg, actions).log, w)
  {
    var w := Window(cfg, now);
    var log := Run(cfg, actions).log;
    if Continues(log, w) {
      forall longer | actions <= longer && GrantsOnly(log, Run(cfg, longer).log, w)
        ensures Count(Run(cfg, longer).log, w) <= cfg.limit
      {
        OneWindowNeverReturns(log, Run(cfg, longer).log, w);
        WindowCeiling(cfg, longer, w);
      }
    } else {
      var longer := GrantUpTo(cfg, actions, now, cfg.limit);
      assert Count(Run(cfg, longer).log, w) > cfg.limit;
    }
  }

  lemma {:induction false} OneWindowNeverReturns(before: seq<int>, after: seq<int>, w: int)
    requires NoReturn(before) && Continues(before, w) && GrantsOnly(before, after, w)
    ensures NoReturn(after)
    ensures after != before ==> after[|after| - 1] == w
    decreases |after|
  {
    if |after| > |before| {
      var init := after[..|after| - 1];
      OneWindowNeverReturns(before, init, w);
      assert after == init + [w];
      AppendCounts(init, w);
    } else {
      assert after == before;
    }
  }

  /** One more caller in `w` is granted its permit unless the cursor's window is `w` and full. */
  lemma GrantOne(cfg: Config, actions: seq<Action>, now: int) returns (longer: seq<Action>)
    requires cfg.Valid()
    requires Run(cfg, actions).log != []
    requires var log := Run(cfg, actions).log; !(log[|log| - 1] == Window(cfg, now) && Trailing(log) == cfg.limit)
    ensures actions <= longer && Run(cfg, longer).log == Run(cfg, actions).log + [Window(cfg, now)]
  {
    RunInv(cfg, actions);
    HasRoom(cfg, Run(cfg, actions), Window(cfg, now));
    longer := GrantSteps(cfg, actions, now);
  }

  lemma HasRoom(cfg: Config, s: State, w: int)
    requires cfg.Valid() && Inv(cfg, s) && s.log != []
    requires !(s.log[|s.log| - 1] == w && Trailing(s.log) == cfg.limit)
    ensures s.cursor.Some? && !Full(cfg, s.cursor.value, w)
  {
    assert s.log[..|s.log|] == s.log;
    EncodingIsFaithful(cfg, s.log[|s.log| - 1], Trailing(s.log));
  }

  lemma GrantSteps(cfg: Config, actions: seq<Action>, now: int) returns (longer: seq<Action>)
    requires cfg.Valid()
    requires var s := Run(cfg, actions); s.cursor.Some? && !Full(cfg, s.cursor.value, Window(cfg, now))
    ensures actions <= longer && Run(cfg, longer).log == Run(cfg, actions).log + [Window(cfg, now)]
  {
    RunSnoc(cfg, actions, Begin(0, now));
    RunSnoc(cfg, actions + [Begin(0, now)], Read(0));
    RunSnoc(cfg, actions + [Begin(0, now)] + [Read(0)], Swap(0));
    longer := actions + [Begin(0, now)] + [Read(0)] + [Swap(0)];
  }

  /** From a cursor in another window, `k` permits for `w` can follow, up to the limit. */
  lemma {:induction false} GrantUpTo(cfg: Config, actions: seq<Action>, now: int, k: nat) returns (longer: seq<Action>)
    requires cfg.Valid() && k <= cfg.limit
    requires var log := Run(cfg, actions).log; log != [] && log[|log| - 1] != Window(cfg, now)
    ensures var log, after, w := Run(cfg, actions).log, Run(cfg, longer).log, Window(cfg, now);
      && actions <= longer && GrantsOnly(log, after, w) && Count(after, w) == Count(log, w) + k
      && (k > 0 ==> |after| > 0 && after[|after| - 1] == w && Trailing(after) == k)
      && (k == 0 ==> after == log)
  {
    if k == 0 {
      longer := actions;
    } else {
      var shorter := GrantUpTo(cfg, actions, now, k - 1);
      longer := GrantOne(cfg, shorter, now);
      AppendCounts(Run(cfg, shorter).log, Window(cfg, now));
    }
  }

  lemma RunSnoc(cfg: Config, actions: seq<Action>, a: Action)
    requires cfg.Valid()
    ensures Run(cfg, actions + [a]) == Step(cfg, Run(cfg, actions), a)
  {
    assert (actions + [a])[..|actions|] == actions;
  }

  /** With a clock that steps back one window, the ceiling fails: three permits, limit
      one, two of them in the same window. */
  lemma BackwardClockBreaksCeiling()
    ensures var cfg := Config(3 * UNIT, 1);
      exists actions, w :: cfg.Valid() && Count(Run(cfg, actions).log, w) > cfg.limit
  {
    var cfg := Config(3 * UNIT, 1);
    var late := 3 * UNIT;
    var grant0 := [Begin(0, 0)] + [Read(0)];
    RunSnoc(cfg, [], Begin(0, 0));
    assert [] + [Begin(0, 0)] == [Begin(0, 0)];
    RunSnoc(cfg, [Begin(0, 0)], Read(0));
    var begun := Run(cfg, [Begin(0, 0)]);
    assert begun == Step(cfg, INITIAL, Begin(0, 0));
    assert Run(cfg, grant0).log == begun.log + [0] == [0];
    var grant1 := GrantOne(cfg, grant0, late);
    var grant2 := GrantOne(cfg, grant1, 0);
    ThereAndBack(late);
    assert Run(cfg, grant2).log == [0] + [late] + [0];
  }

  lemma ThereAndBack(late: int)
    requires late != 0
    ensures Count([0] + [late] + [0], 0) == 2
  {
    AppendCounts([], 0);
    AppendCounts([0], late);
    AppendCounts([0] + [late], 0);
    assert [] + [0] == [0];
  }

  // ---- the retry loop itself ----

  datatype Outcome = Acquired | RetryAt(at: int) | LimitTooLarge

  predicate Full(cfg: Config, cursor: int, window: int)
    requires cfg.Valid()
  {
    Window(cfg, cursor) == window && CountIn(cfg, cursor) >= cfg.limit
  }

  /** The cursor value that decides the call when `rivals[k]` is what the cursor holds at
      the k-th swap. */
  function Deciding(cfg: Config, window: int, at: int, rivals: seq<int>): int
    requires cfg.Valid()
    decreases rivals
  {
    if |rivals| == 0 || Full(cfg, at, window) || rivals[0] == at then at
    else Deciding(cfg, window, rivals[0], rivals[1..])
  }

  method AcquireFixedWindow(store: CursorStore.Cursors, cfg: Config, key: string, now: int, rivals: seq<int>)
    returns (r: Outcome)
    requires cfg.limit >= 1 && cfg.period >= 1
    modifies store
    ensures r.LimitTooLarge? <==> !cfg.Valid()
    ensures r.LimitTooLarge? <==> cfg.limit >= cfg.period / 1_000_000
    ensures r.LimitTooLarge? ==> store.cursors == old(store.cursors)
    ensures cfg.Valid() && key !in old(store.cursors) ==>
      r.Acquired? && store.cursors == old(store.cursors)[key := Window(cfg, now) + UNIT]
    ensures cfg.Valid() && key in old(store.cursors) ==>
      var window := Window(cfg, now);
      var at := Deciding(cfg, window, old(store.cursors)[key], rivals);
      && (r.RetryAt? <==> Full(cfg, at, window))
      && (r.RetryAt? ==> r.at == window + cfg.period && store.cursors == old(store.cursors)[key := at])
      && (r.Acquired? ==> store.cursors == old(store.cursors)[key :=
           if Window(cfg, at) == window then at + 1_000_000 else window + 1_000_000])
  {
    if cfg.limit >= cfg.period / UNIT {
      return LimitTooLarge;
    }
    var window := Window(cfg, now);
    var round := 0;
    ghost var before := store.cursors;
    while true
      invariant 0 <= round <= |rivals|
      invariant round > 0 ==> key in before && key in store.cursors
      invariant key in before ==> key in store.cursors && store.cursors == before[key := store.cursors[key]]
      invariant key !in before ==> store.cursors == before
      invariant key in before ==>
        Deciding(cfg, window, before[key], rivals) == Deciding(cfg, window, store.cursors[key], rivals[round..])
      decreases |rivals| - round
    {
      var at, created := store.GetOrCreate(key, window + UNIT);
      if created {
        return Acquired;
      }
      var next := window + UNIT;
      if Window(cfg, at) == window {
        if CountIn(cfg, at) >= cfg.limit {
          return RetryAt(window + cfg.period);
        }
        next := at + UNIT;
      }
      if round < |rivals| {
        store.cursors := store.cursors[key := rivals[round]];
      }
      var advanced := store.Advance(key, at, next);
      if advanced {
        return Acquired;
      }
      assert rivals[round..][1..] == rivals[round + 1..];
      round := round + 1;
    }
  }
}
