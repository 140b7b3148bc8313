/** Durable cron: any number of schedulers of one group read the shared cursor, enqueue each
    due occurrence under a permanent unique key, and move the cursor by compare-and-swap. A
    scheduler may stop between any two store operations, and nothing relies on the lease. */
module Cron {
  import opened Prelude
  import opened Jobs
  import opened JobStore
  import opened UniqueKeys

  datatype CatchUp = CatchUpAll | CatchUpLatest | SkipMissed

  /** One periodic job. `next` is the schedule, `keyOf` the unique key of an occurrence and
      `scanLimit` the number of draws per tick (100000 in the scheduler). */
  datatype Config = Config(next: int -> int, startAt: int, catchUp: CatchUp, maxCatchUp: nat, scanLimit: nat,
                           tickInterval: int, keyOf: int -> string, params: InsertParams)

  ghost predicate ValidConfig(cfg: Config) {
    && cfg.maxCatchUp >= 1
    && (forall t :: IsPermanent(cfg.keyOf(t)))
    && (forall t, u :: cfg.keyOf(t) == cfg.keyOf(u) ==> t == u)
  }

  // ---- the schedule ----

  /** The k-th occurrence after `t`; the 0-th is `t` itself. */
  function Iterate(next: int -> int, t: int, k: nat): int {
    if k == 0 then t else next(Iterate(next, t, k - 1))
  }

  /** The schedule has moved forward k times from `t`. */
  ghost predicate Advances(next: int -> int, t: int, k: nat) {
    forall i: nat :: i < k ==> Iterate(next, t, i) < Iterate(next, t, i + 1)
  }

  lemma {:induction false} IterateSplits(next: int -> int, t: int, a: nat, b: nat)
    ensures Iterate(next, Iterate(next, t, a), b) == Iterate(next, t, a + b)
  {
    if b > 0 {
      IterateSplits(next, t, a, b - 1);
    }
  }

  lemma {:induction false} IterateIncreases(next: int -> int, t: int, i: nat, j: nat)
    requires i < j && Advances(next, t, j)
    ensures Iterate(next, t, i) < Iterate(next, t, j)
    decreases j
  {
    if i < j - 1 {
      IterateIncreases(next, t, i, j - 1);
    }
    assert Iterate(next, t, j - 1) < Iterate(next, t, j - 1 + 1);
  }

  /** Occurrences reached by advancing have one index only. */
  lemma IterateInjective(next: int -> int, t: int, i: nat, j: nat)
    requires Advances(next, t, i) && Advances(next, t, j) && Iterate(next, t, i) == Iterate(next, t, j)
    ensures i == j
  {
    if i < j {
      IterateIncreases(next, t, i, j);
    } else if j < i {
      IterateIncreases(next, t, j, i);
    }
  }

  // ---- scanning ----

  datatype Scan = Scanned(due: seq<int>, complete: bool) | DoesNotAdvance

  /** Occurrences after `cursor` up to `now`, at most `budget` draws and `cap` results. */
  function ScanFrom(next: int -> int, cursor: int, now: int, budget: nat, cap: nat): Scan
    decreases budget
  {
    if budget == 0 || cap == 0 then Scanned([], false)
    else
      var t := next(cursor);
      if t == ZERO_TIME || t <= cursor then DoesNotAdvance
      else if t > now then Scanned([], true)
      else
        var rest := ScanFrom(next, t, now, budget - 1, cap - 1);
        if rest.Scanned? then Scanned([t] + rest.due, rest.complete) else rest
  }

  function Cap(cfg: Config): nat {
    if cfg.catchUp.CatchUpAll? then cfg.maxCatchUp else cfg.scanLimit
  }

  lemma IterateShift(next: int -> int, cursor: int, k: nat)
    ensures Iterate(next, next(cursor), k) == Iterate(next, cursor, k + 1)
  {
    assert Iterate(next, cursor, 0) == cursor && Iterate(next, cursor, 1) == next(cursor);
    IterateSplits(next, cursor, 1, k);
  }

  /** These are the successive occurrences after the cursor, none of them in the future. */
  ghost predicate Successive(next: int -> int, cursor: int, now: int, due: seq<int>) {
    && Advances(next, cursor, |due|)
    && forall i :: 0 <= i < |due| ==> due[i] == Iterate(next, cursor, i + 1) <= now
  }

  lemma SuccessiveCons(next: int -> int, cursor: int, now: int, due: seq<int>)
    requires cursor < next(cursor) <= now && Successive(next, next(cursor), now, due)
    ensures Successive(next, cursor, now, [next(cursor)] + due)
  {
    var t, all := next(cursor), [next(cursor)] + due;
    assert Iterate(next, cursor, 0) == cursor && Iterate(next, cursor, 1) == t;
    forall i: nat | i < |all| ensures Iterate(next, cursor, i) < Iterate(next, cursor, i + 1) {
      if i > 0 {
        IterateShift(next, cursor, i - 1);
        IterateShift(next, cursor, i);
        assert Iterate(next, t, i - 1) < Iterate(next, t, i - 1 + 1);
      }
    }
    forall i: nat | i < |all| ensures all[i] == Iterate(next, cursor, i + 1) <= now {
      if i > 0 {
        IterateShift(next, cursor, i);
        assert due[i - 1] == Iterate(next, t, i - 1 + 1);
      }
    }
  }

  /** What a scan finds: successive occurrences, none of them in the future, and the next
      one is in the future whenever the scan is complete. */
  lemma {:induction false} ScanFinds(next: int -> int, cursor: int, now: int, budget: nat, cap: nat)
    ensures var s := ScanFrom(next, cursor, now, budget, cap);
      s.Scanned? ==>
        && |s.due| <= cap && Successive(next, cursor, now, s.due)
        && (s.complete ==> Iterate(next, cursor, |s.due| + 1) > now)
        && (!s.complete ==> |s.due| == Min(budget, cap))
    decreases budget
  {
    var s := ScanFrom(next, cursor, now, budget, cap);
    if s.Scanned? && |s.due| > 0 {
      var rest := ScanFrom(next, next(cursor), now, budget - 1, cap - 1);
      ScanFinds(next, next(cursor), now, budget - 1, cap - 1);
      SuccessiveCons(next, cursor, now, rest.due);
      IterateShift(next, cursor, |rest.due| + 1);
    } else if s.Scanned? && s.complete {
      assert Iterate(next, cursor, 0) == cursor && Iterate(next, cursor, 1) == next(cursor);
    }
  }

  /** The scanning loop of one tick. */
  method ScanDue(cfg: Config, original: int, now: int) returns (r: Scan)
    requires cfg.maxCatchUp >= 1
    ensures r == ScanFrom(cfg.next, original, now, cfg.scanLimit, Cap(cfg))
  {
    var due, cursor, complete := [], original, false;
    var draws := 0;
    while draws < cfg.scanLimit
      invariant 0 <= draws == |due| <= cfg.scanLimit
      invariant cfg.catchUp.CatchUpAll? ==> |due| < cfg.maxCatchUp
      invariant |due| <= Cap(cfg)
      invariant ScanFrom(cfg.next, original, now, cfg.scanLimit, Cap(cfg)) ==
        Prefixed(due, ScanFrom(cfg.next, cursor, now, cfg.scanLimit - draws, Cap(cfg) - draws))
    {
      var t := cfg.next(cursor);
      if t == ZERO_TIME || t <= cursor {
        return DoesNotAdvance;
      }
      if t > now {
        complete := true;
        break;
      }
      ghost var tail := ScanFrom(cfg.next, t, now, cfg.scanLimit - draws - 1, Cap(cfg) - draws - 1);
      assert tail.Scanned? ==> due + ([t] + tail.due) == (due + [t]) + tail.due;
      due := due + [t];
      cursor := t;
      draws := draws + 1;
      if cfg.catchUp.CatchUpAll? && |due| >= cfg.maxCatchUp {
        break;
      }
    }
    r := Scanned(due, complete);
    assert due + [] == due;
  }

  function Prefixed(due: seq<int>, s: Scan): Scan {
    if s.Scanned? then Scanned(due + s.due, s.complete) else s
  }

  // ---- the interleaved protocol ----

  /** One occurrence to handle: enqueue it (unless skipped), then swap the cursor from
      `expected` to it. `from` and `to` are history: the indices of both instants. */
  datatype Item = Item(occurrence: int, enqueue: bool, expected: int, from: nat, to: nat)

  datatype Scheduler = Idle | Working(plan: seq<Item>, enqueued: bool)

  /** `index` is history: which occurrence the cursor is. `ever` is history: every unique
      key that a stored row has carried. */
  datatype State = State(store: Store, cursor: Option<int>, schedulers: map<nat, Scheduler>,
                         index: nat, ever: set<string>)

  datatype Action =
    | Tick(scheduler: nat, now: int)
    | Enqueue(scheduler: nat, now: int)
    | Advance(scheduler: nat)
    | Crash(scheduler: nat)
    | Other(event: Event)

  const INITIAL: State := State(EMPTY, None, map[], 0, {})

  /** The plan of a tick that read `original`, the occurrence with index k. */
  function PlanOf(cfg: Config, original: int, k: nat, due: seq<int>, complete: bool, now: int): seq<Item> {
    if |due| == 0 then []
    else
      var last := due[|due| - 1];
      match cfg.catchUp
      case CatchUpAll =>
        seq(|due|, i requires 0 <= i < |due| =>
          Item(due[i], true, if i == 0 then original else due[i - 1], k + i, k + i + 1))
      case CatchUpLatest => if complete then [Item(last, true, original, k, k + |due|)] else []
      case SkipMissed =>
        if complete then [Item(last, now - last <= cfg.tickInterval, original, k, k + |due|)] else []
  }

  function Keys(s: Store): set<string> {
    set id | id in s.jobs :: s.jobs[id].uniqueKey
  }

  function WithStore(s: State, store: Store): State {
    s.(store := store, ever := s.ever + Keys(store))
  }

  function InsertOf(cfg: Config, occurrence: int): InsertParams {
    cfg.params.(uniqueKey := cfg.keyOf(occurrence))
  }

  function Step(cfg: Config, s: State, a: Action): State {
    match a
    case Tick(c, now) =>
      var original := if s.cursor.Some? then s.cursor.value else cfg.startAt;
      var scan := ScanFrom(cfg.next, original, now, cfg.scanLimit, Cap(cfg));
      var work :=
        if scan.Scanned? then Working(PlanOf(cfg, original, s.index, scan.due, scan.complete, now), false) else Idle;
      s.(cursor := Some(original), schedulers := s.schedulers[c := work])
    case Enqueue(c, now) =>
      if c in s.schedulers && s.schedulers[c].Working? && s.schedulers[c].plan != [] && !s.schedulers[c].enqueued then
        var item := s.schedulers[c].plan[0];
        var done := s.(schedulers := s.schedulers[c := s.schedulers[c].(enqueued := true)]);
        if item.enqueue then WithStore(done, Apply(s.store, Insert(InsertOf(cfg, item.occurrence), now))) else done
      else s
    case Advance(c) =>
      if c in s.schedulers && s.schedulers[c].Working? && s.schedulers[c].plan != [] && s.schedulers[c].enqueued then
        var item := s.schedulers[c].plan[0];
        if s.cursor == Some(item.expected) then
          s.(cursor := Some(item.occurrence), index := item.to,
             schedulers := s.schedulers[c := Working(s.schedulers[c].plan[1..], false)])
        else s.(schedulers := s.schedulers[c := Idle])
      else s
    case Crash(c) => s.(schedulers := s.schedulers[c := Idle])
    case Other(e) => WithStore(s, Apply(s.store, e))
  }

  function RunCron(cfg: Config, actions: seq<Action>): State {
    if |actions| == 0 then INITIAL
    else Step(cfg, RunCron(cfg, actions[..|actions| - 1]), actions[|actions| - 1])
  }

  // ---- invariant ----

  function At(cfg: Config, k: nat): int {
    Iterate(cfg.next, cfg.startAt, k)
  }

  /** The schedule moves forward from its k-th occurrence, and not to the zero instant. */
  predicate MovesOn(cfg: Config, k: nat) {
    At(cfg, k) < At(cfg, k + 1) != ZERO_TIME
  }

  ghost predicate ItemInv(cfg: Config, item: Item) {
    && item.from < item.to
    && (cfg.catchUp.CatchUpAll? ==> item.to == item.from + 1 && item.enqueue)
    && (cfg.catchUp.CatchUpLatest? ==> item.enqueue)
    && item.expected == At(cfg, item.from) && item.occurrence == At(cfg, item.to)
    && Advances(cfg.next, cfg.startAt, item.to)
  }

  ghost predicate SchedulerInv(cfg: Config, s: State, w: Scheduler) {
    w.Working? ==>
      && (forall i :: 0 <= i < |w.plan| ==> ItemInv(cfg, w.plan[i]))
      && (w.enqueued && w.plan != [] && w.plan[0].enqueue ==> cfg.keyOf(w.plan[0].occurrence) in s.ever)
  }

  /** Everything up to and including the cursor has been enqueued. */
  ghost predicate EnqueuedUpTo(cfg: Config, s: State, k: nat) {
    forall j: nat :: 1 <= j <= k ==> cfg.keyOf(At(cfg, j)) in s.ever
  }

  ghost predicate Inv(cfg: Config, s: State) {
    && Valid(s.store)
    && (s.cursor.None? ==> s.index == 0)
    && (s.cursor.Some? ==> s.cursor.value == At(cfg, s.index))
    && Advances(cfg.next, cfg.startAt, s.index)
    && (cfg.catchUp.CatchUpAll? ==> EnqueuedUpTo(cfg, s, s.index))
    && (cfg.catchUp.CatchUpLatest? && s.index > 0 ==> cfg.keyOf(At(cfg, s.index)) in s.ever)
    && Keys(s.store) <= s.ever
    && forall c :: c in s.schedulers ==> SchedulerInv(cfg, s, s.schedulers[c])
  }

  lemma AdvancesFurther(next: int -> int, t: int, a: nat, b: nat)
    requires Advances(next, t, a) && Advances(next, Iterate(next, t, a), b)
    ensures Advances(next, t, a + b)
  {
    forall i: nat | i < a + b ensures Iterate(next, t, i) < Iterate(next, t, i + 1) {
      if i >= a {
        IterateSplits(next, t, a, i - a);
        IterateSplits(next, t, a, i - a + 1);
        assert Iterate(next, Iterate(next, t, a), i - a) < Iterate(next, Iterate(next, t, a), i - a + 1);
      }
    }
  }

  lemma AdvancesLess(next: int -> int, t: int, a: nat, b: nat)
    requires Advances(next, t, b) && a <= b
    ensures Advances(next, t, a)
  {
  }

  /** The instants of a plan item are the occurrences with its indices. */
  lemma ItemIsSound(cfg: Config, k: nat, n: nat, item: Item)
    requires Advances(cfg.next, cfg.startAt, k + n)
    requires k <= item.from < item.to <= k + n
    requires cfg.catchUp.CatchUpAll? ==> item.to == item.from + 1 && item.enqueue
    requires cfg.catchUp.CatchUpLatest? ==> item.enqueue
    requires item.expected == Iterate(cfg.next, At(cfg, k), item.from - k)
    requires item.occurrence == Iterate(cfg.next, At(cfg, k), item.to - k)
    ensures ItemInv(cfg, item)
  {
    AdvancesLess(cfg.next, cfg.startAt, item.to, k + n);
    IterateSplits(cfg.next, cfg.startAt, k, item.to - k);
    IterateSplits(cfg.next, cfg.startAt, k, item.from - k);
  }

  lemma PlanIsSound(cfg: Config, k: nat, now: int, due: seq<int>, complete: bool)
    requires Advances(cfg.next, cfg.startAt, k)
    requires ScanFrom(cfg.next, At(cfg, k), now, cfg.scanLimit, Cap(cfg)) == Scanned(due, complete)
    ensures forall item :: item in PlanOf(cfg, At(cfg, k), k, due, complete, now) ==> ItemInv(cfg, item)
  {
    ScanFinds(cfg.next, At(cfg, k), now, cfg.scanLimit, Cap(cfg));
    AdvancesFurther(cfg.next, cfg.startAt, k, |due|);
    var plan := PlanOf(cfg, At(cfg, k), k, due, complete, now);
    assert Iterate(cfg.next, At(cfg, k), 0) == At(cfg, k);
    forall item | item in plan ensures ItemInv(cfg, item) {
      var i :| 0 <= i < |plan| && plan[i] == item;
      ItemIsSound(cfg, k, |due|, item);
    }
  }

  lemma TickKeepsInv(cfg: Config, s: State, c: nat, now: int)
    requires Inv(cfg, s)
    ensures Inv(cfg, Step(cfg, s, Tick(c, now)))
  {
    var original := At(cfg, s.index);
    var scan := ScanFrom(cfg.next, original, now, cfg.scanLimit, Cap(cfg));
    var t := Step(cfg, s, Tick(c, now));
    assert t.cursor == Some(original);
    if scan.Scanned? {
      PlanIsSound(cfg, s.index, now, scan.due, scan.complete);
      assert t.schedulers[c].Working?;
      assert forall i :: 0 <= i < |t.schedulers[c].plan| ==> t.schedulers[c].plan[i] in t.schedulers[c].plan;
    }
    forall w | w in t.schedulers && w != c ensures SchedulerInv(cfg, t, t.schedulers[w]) {
      GrowKeepsSchedulers(cfg, s, t, s.schedulers[w]);
    }
  }

  /** After an insert under a permanent key, some row carries the key. */
  lemma InsertLeavesKey(s: Store, p: InsertParams, now: int)
    requires p.uniqueKey != ""
    ensures p.uniqueKey in Keys(Apply(s, Insert(p, now)))
  {
    var t := Apply(s, Insert(p, now));
    if KeyTaken(s, p.uniqueKey) {
      var id :| id in s.jobs && Reserves(s.jobs[id], p.uniqueKey);
      assert id in t.jobs && t.jobs[id].uniqueKey == p.uniqueKey;
    } else {
      var id := IdOf(s.sequence + 1);
      assert id in t.jobs && t.jobs[id].uniqueKey == p.uniqueKey;
    }
  }

  /** Every other scheduler's promise survives as the set of known keys grows. */
  lemma GrowKeepsSchedulers(cfg: Config, s: State, t: State, w: Scheduler)
    requires SchedulerInv(cfg, s, w) && s.ever <= t.ever
    ensures SchedulerInv(cfg, t, w)
  {
  }

  lemma EnqueueKeepsInv(cfg: Config, s: State, c: nat, now: int)
    requires ValidConfig(cfg) && Inv(cfg, s)
    ensures Inv(cfg, Step(cfg, s, Enqueue(c, now)))
  {
    var t := Step(cfg, s, Enqueue(c, now));
    if t != s {
      var item := s.schedulers[c].plan[0];
      assert SchedulerInv(cfg, s, s.schedulers[c]);
      if item.enqueue {
        assert IsPermanent(cfg.keyOf(item.occurrence));
        ApplyValid(s.store, Insert(InsertOf(cfg, item.occurrence), now));
        InsertLeavesKey(s.store, InsertOf(cfg, item.occurrence), now);
      }
      forall w | w in t.schedulers ensures SchedulerInv(cfg, t, t.schedulers[w]) {
        GrowKeepsSchedulers(cfg, s, t, s.schedulers[w]);
      }
    }
  }

  lemma AdvanceKeepsInv(cfg: Config, s: State, c: nat)
    requires Inv(cfg, s)
    ensures Inv(cfg, Step(cfg, s, Advance(c)))
    ensures s.index <= Step(cfg, s, Advance(c)).index
  {
    var t := Step(cfg, s, Advance(c));
    if t.index != s.index || t.cursor != s.cursor {
      var item := s.schedulers[c].plan[0];
      assert SchedulerInv(cfg, s, s.schedulers[c]) && ItemInv(cfg, item);
      AdvancesLess(cfg.next, cfg.startAt, item.from, item.to);
      IterateInjective(cfg.next, cfg.startAt, s.index, item.from);
    }
    forall w | w in t.schedulers ensures SchedulerInv(cfg, t, t.schedulers[w]) {
      if w in s.schedulers { assert SchedulerInv(cfg, s, s.schedulers[w]); }
    }
  }

  lemma OtherKeepsInv(cfg: Config, s: State, e: Event)
    requires Inv(cfg, s)
    ensures Inv(cfg, Step(cfg, s, Other(e)))
  {
    var t := Step(cfg, s, Other(e));
    assert Valid(t.store) by {
      ApplyValid(s.store, e);
    }
    forall w | w in t.schedulers ensures SchedulerInv(cfg, t, t.schedulers[w]) {
      GrowKeepsSchedulers(cfg, s, t, s.schedulers[w]);
    }
  }

  lemma StepKeepsInv(cfg: Config, s: State, a: Action)
    requires ValidConfig(cfg) && Inv(cfg, s)
    ensures Inv(cfg, Step(cfg, s, a)) && s.index <= Step(cfg, s, a).index
  {
    match a
    case Tick(c, now) => TickKeepsInv(cfg, s, c, now);
    case Enqueue(c, now) => EnqueueKeepsInv(cfg, s, c, now);
    case Advance(c) => AdvanceKeepsInv(cfg, s, c);
    case Crash(c) =>
      forall w | w in s.schedulers ensures SchedulerInv(cfg, Step(cfg, s, a), s.schedulers[w]) {
        GrowKeepsSchedulers(cfg, s, Step(cfg, s, a), s.schedulers[w]);
      }
    case Other(e) => OtherKeepsInv(cfg, s, e);
  }

  lemma {:induction false} RunInv(cfg: Config, actions: seq<Action>)
    requires ValidConfig(cfg)
    ensures Inv(cfg, RunCron(cfg, actions))
  {
    if |actions| > 0 {
      RunInv(cfg, actions[..|actions| - 1]);
      StepKeepsInv(cfg, RunCron(cfg, actions[..|actions| - 1]), actions[|actions| - 1]);
    }
  }

  // ---- what every run guarantees ----

  /** The cursor is always an occurrence of the schedule counted from StartAt, and under
      the catch-up-all policy every occurrence up to it has been enqueued; under the
      latest-only policy the cursor's own occurrence has been. */
  lemma NothingIsMissed(cfg: Config, actions: seq<Action>)
    requires ValidConfig(cfg)
    ensures var s := RunCron(cfg, actions);
      && (s.cursor.Some? ==> s.cursor.value == At(cfg, s.index)) && Advances(cfg.next, cfg.startAt, s.index)
      && (cfg.catchUp.CatchUpAll? ==> forall j: nat :: 1 <= j <= s.index ==> cfg.keyOf(At(cfg, j)) in s.ever)
      && (cfg.catchUp.CatchUpLatest? && s.index > 0 ==> cfg.keyOf(At(cfg, s.index)) in s.ever)
  {
    RunInv(cfg, actions);
  }

  /** No step of any run moves the cursor back to an earlier occurrence. */
  lemma CursorNeverMovesBack(cfg: Config, actions: seq<Action>, a: Action)
    requires ValidConfig(cfg)
    ensures RunCron(cfg, actions).index <= Step(cfg, RunCron(cfg, actions), a).index
  {
    RunInv(cfg, actions);
    StepKeepsInv(cfg, RunCron(cfg, actions), a);
  }

  function EventOf(cfg: Config, s: State, a: Action): Event {
    match a
    case Other(e) => e
    case Enqueue(c, now) =>
      if c in s.schedulers && s.schedulers[c].Working? && s.schedulers[c].plan != [] then
        Insert(InsertOf(cfg, s.schedulers[c].plan[0].occurrence), now)
      else Resume("")
    case _ => Resume("")
  }

  /** No occurrence ever has two rows. */
  lemma {:induction false} NothingIsDoubled(cfg: Config, actions: seq<Action>, t: int)
    requires ValidConfig(cfg)
    ensures Exclusive(RunCron(cfg, actions).store, cfg.keyOf(t))
  {
    if |actions| > 0 {
      var init, a := actions[..|actions| - 1], actions[|actions| - 1];
      NothingIsDoubled(cfg, init, t);
      RunInv(cfg, init);
      var s := RunCron(cfg, init);
      assert IsPermanent(cfg.keyOf(t));
      ApplyKeepsExclusive(s.store, EventOf(cfg, s, a), cfg.keyOf(t));
    }
  }

  ghost predicate NoDeletes(actions: seq<Action>) {
    forall i :: 0 <= i < |actions| ==> !(actions[i].Other? && actions[i].event.Delete?)
  }

  lemma ApplyKeepsKeys(s: Store, e: Event)
    requires Valid(s) && !e.Delete?
    ensures Keys(s) <= Keys(Apply(s, e))
  {
    ApplyValid(s, e);
    var t := Apply(s, e);
    forall key | key in Keys(s) ensures key in Keys(t) {
      var id :| id in s.jobs && s.jobs[id].uniqueKey == key;
      assert id in t.jobs;
      MovesKeepsValidRow(e, s.jobs[id], t.jobs[id]);
    }
  }

  lemma {:induction false} EverIsStored(cfg: Config, actions: seq<Action>)
    requires ValidConfig(cfg) && NoDeletes(actions)
    ensures RunCron(cfg, actions).ever == Keys(RunCron(cfg, actions).store)
  {
    if |actions| > 0 {
      var init, a := actions[..|actions| - 1], actions[|actions| - 1];
      EverIsStored(cfg, init);
      RunInv(cfg, init);
      var s := RunCron(cfg, init);
      StepKeepsStored(cfg, s, a);
    }
  }

  lemma StepKeepsStored(cfg: Config, s: State, a: Action)
    requires Inv(cfg, s) && s.ever == Keys(s.store) && !(a.Other? && a.event.Delete?)
    ensures Step(cfg, s, a).ever == Keys(Step(cfg, s, a).store)
  {
    var t := Step(cfg, s, a);
    if t.store != s.store {
      ApplyKeepsKeys(s.store, EventOf(cfg, s, a));
      assert t.ever == s.ever + Keys(t.store);
    } else if a.Other? || a.Enqueue? {
      assert t.ever == s.ever || t.ever == s.ever + Keys(s.store);
    }
  }

  ghost predicate CarriesKey(s: Store, id: string, key: string) {
    id in s.jobs && s.jobs[id].uniqueKey == key
  }

  // ---- whose row it is ----

  /** The row has the attributes that this job gives to its rows. */
  predicate OfJob(cfg: Config, r: Row) {
    && r.queue == cfg.params.queue && r.kind == cfg.params.kind && r.priority == cfg.params.priority
    && r.maxRetry == cfg.params.maxRetry && r.pipeline == cfg.params.pipeline
  }

  /** The key of an occurrence after StartAt. */
  ghost predicate OwnKey(cfg: Config, key: string) {
    exists j: nat :: j >= 1 && key == cfg.keyOf(At(cfg, j))
  }

  ghost predicate ForeignInsert(cfg: Config, e: Event) {
    e.Insert? && OwnKey(cfg, e.params.uniqueKey)
  }

  /** Nobody else inserts under a key of this job. */
  ghost predicate NoForeignKeys(cfg: Config, actions: seq<Action>) {
    forall i :: 0 <= i < |actions| && actions[i].Other? ==> !ForeignInsert(cfg, actions[i].event)
  }

  ghost predicate RowsAreOwn(cfg: Config, s: Store) {
    forall id :: id in s.jobs && OwnKey(cfg, s.jobs[id].uniqueKey) ==> OfJob(cfg, s.jobs[id])
  }

  lemma ApplyKeepsOwn(cfg: Config, s: Store, e: Event)
    requires Valid(s) && RowsAreOwn(cfg, s)
    requires e.Insert? ==> !OwnKey(cfg, e.params.uniqueKey) || e.params == cfg.params.(uniqueKey := e.params.uniqueKey)
    ensures RowsAreOwn(cfg, Apply(s, e))
  {
    ApplyValid(s, e);
    var t := Apply(s, e);
    forall id | id in t.jobs && OwnKey(cfg, t.jobs[id].uniqueKey) ensures OfJob(cfg, t.jobs[id]) {
      if id in s.jobs {
        MovesKeepsValidRow(e, s.jobs[id], t.jobs[id]);
      }
    }
  }

  /** Then every row under a key of this job is this job's. */
  lemma {:induction false} OwnKeysHaveOwnRows(cfg: Config, actions: seq<Action>)
    requires ValidConfig(cfg) && NoForeignKeys(cfg, actions)
    ensures RowsAreOwn(cfg, RunCron(cfg, actions).store)
  {
    if |actions| > 0 {
      var init, a := actions[..|actions| - 1], actions[|actions| - 1];
      OwnKeysHaveOwnRows(cfg, init);
      RunInv(cfg, init);
      var s := RunCron(cfg, init);
      ApplyKeepsOwn(cfg, s.store, EventOf(cfg, s, a));
    }
  }

  /** A key is in the history because a row carried it at some moment of the run. */
  lemma {:induction false} EverWasStored(cfg: Config, actions: seq<Action>, key: string) returns (k: nat)
    requires key in RunCron(cfg, actions).ever
    ensures k <= |actions| && key in Keys(RunCron(cfg, actions[..k]).store)
  {
    var n := |actions| - 1;
    var init := actions[..n];
    if key in RunCron(cfg, init).ever {
      k := EverWasStored(cfg, init, key);
      assert init[..k] == actions[..k];
    } else {
      k := n + 1;
      assert actions[..k] == actions;
    }
  }

  /** Under the catch-up-all policy, every occurrence up to the cursor had a row of this very
      job at some moment of the run, in every interleaving and with all crashes, unless
      somebody else inserts under its keys. */
  lemma EveryOccurrenceHadItsRow(cfg: Config, actions: seq<Action>, j: nat) returns (k: nat, id: string)
    requires ValidConfig(cfg) && cfg.catchUp.CatchUpAll? && NoForeignKeys(cfg, actions)
    requires 1 <= j <= RunCron(cfg, actions).index
    ensures k <= |actions| && CarriesKey(RunCron(cfg, actions[..k]).store, id, cfg.keyOf(At(cfg, j)))
    ensures OfJob(cfg, RunCron(cfg, actions[..k]).store.jobs[id])
  {
    NothingIsMissed(cfg, actions);
    var key := cfg.keyOf(At(cfg, j));
    k := EverWasStored(cfg, actions, key);
    var store := RunCron(cfg, actions[..k]).store;
    var x :| x in store.jobs && store.jobs[x].uniqueKey == key;
    id := x;
    OwnKeysHaveOwnRows(cfg, actions[..k]);
    assert OwnKey(cfg, key);
  }

  ghost predicate OnlyRow(s: Store, id: string, key: string) {
    CarriesKey(s, id, key) && forall other :: CarriesKey(s, other, key) ==> other == id
  }

  /** Exactly once: under the catch-up-all policy, as long as nobody deletes jobs, every
      occurrence in (StartAt, cursor] has one row and only one, and it is this job's unless
      somebody else inserts under its keys. */
  lemma ExactlyOneRowPerOccurrence(cfg: Config, actions: seq<Action>, j: nat) returns (id: string)
    requires ValidConfig(cfg) && cfg.catchUp.CatchUpAll? && NoDeletes(actions)
    requires 1 <= j <= RunCron(cfg, actions).index
    ensures OnlyRow(RunCron(cfg, actions).store, id, cfg.keyOf(At(cfg, j)))
    ensures NoForeignKeys(cfg, actions) ==> OfJob(cfg, RunCron(cfg, actions).store.jobs[id])
  {
    var store, key := RunCron(cfg, actions).store, cfg.keyOf(At(cfg, j));
    NothingIsMissed(cfg, actions);
    EverIsStored(cfg, actions);
    assert key in Keys(store);
    var x :| x in store.jobs && store.jobs[x].uniqueKey == key;
    id := x;
    RowIsOnly(cfg, actions, At(cfg, j), id);
    if NoForeignKeys(cfg, actions) {
      OwnKeysHaveOwnRows(cfg, actions);
      assert OwnKey(cfg, key);
    }
  }

  lemma RowIsOnly(cfg: Config, actions: seq<Action>, t: int, id: string)
    requires ValidConfig(cfg) && CarriesKey(RunCron(cfg, actions).store, id, cfg.keyOf(t))
    ensures OnlyRow(RunCron(cfg, actions).store, id, cfg.keyOf(t))
  {
    var store, key := RunCron(cfg, actions).store, cfg.keyOf(t);
    NothingIsDoubled(cfg, actions, t);
    assert IsPermanent(key);
    forall other | CarriesKey(store, other, key) ensures other == id {
      assert Reserves(store.jobs[id], key) && Reserves(store.jobs[other], key);
    }
  }
}
