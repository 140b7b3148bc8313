/** What one tick of a durable schedule comes to, in terms of the schedule and the clock, when
    nobody disturbs it: which occurrences are enqueued and where the cursor ends. */
module CronTick {
  import opened Prelude
  import opened Jobs
  import opened JobStore
  import opened Cron

  // ---- what is due ----

  /** The `n` occurrences after the k-th one are due at `now`. */
  ghost predicate AreDue(cfg: Config, k: nat, n: nat, now: int) {
    (forall i: nat :: k <= i < k + n ==> MovesOn(cfg, i)) && (n > 0 ==> At(cfg, k + n) <= now)
  }

  /** No more than those: the next one is in the future. */
  predicate NoMoreDue(cfg: Config, k: nat, n: nat, now: int) {
    MovesOn(cfg, k + n) && now < At(cfg, k + n + 1)
  }

  function DueList(cfg: Config, k: nat, n: nat): seq<int> {
    seq(n, i requires 0 <= i < n => At(cfg, k + i + 1))
  }

  lemma {:induction false} DueRises(cfg: Config, k: nat, n: nat)
    requires n > 0 && forall i: nat :: k <= i < k + n ==> MovesOn(cfg, i)
    ensures At(cfg, k + 1) <= At(cfg, k + n)
  {
    if n > 1 {
      DueRises(cfg, k, n - 1);
      assert MovesOn(cfg, k + n - 1);
    }
  }

  /** The scan finds exactly what is due, up to its two bounds. */
  lemma {:induction false} ScanFindsDue(cfg: Config, k: nat, n: nat, now: int, budget: nat, cap: nat)
    requires n <= budget && n <= cap && AreDue(cfg, k, n, now)
    requires n < Min(budget, cap) ==> NoMoreDue(cfg, k, n, now)
    ensures ScanFrom(cfg.next, At(cfg, k), now, budget, cap) == Scanned(DueList(cfg, k, n), n < Min(budget, cap))
    decreases n
  {
    assert cfg.next(At(cfg, k)) == At(cfg, k + 1);
    if n > 0 {
      assert MovesOn(cfg, k);
      DueRises(cfg, k, n);
      ScanFindsDue(cfg, k + 1, n - 1, now, budget - 1, cap - 1);
      assert DueList(cfg, k, n) == [At(cfg, k + 1)] + DueList(cfg, k + 1, n - 1);
    } else {
      assert DueList(cfg, k, 0) == [];
    }
  }

  // ---- one occurrence ----

  /** An insert under a key adds that key and no other. */
  lemma InsertAddsKey(s: Store, p: InsertParams, now: int)
    requires Valid(s) && p.uniqueKey != ""
    ensures Keys(Apply(s, Insert(p, now))) == Keys(s) + {p.uniqueKey}
  {
    var e := Insert(p, now);
    InsertLeavesKey(s, p, now);
    ApplyKeepsKeys(s, e);
    ApplyValid(s, e);
    InsertAddsNoOtherKey(s, e, Apply(s, e));
  }

  lemma InsertAddsNoOtherKey(s: Store, e: Event, t: Store)
    requires Valid(s) && e.Insert? && Transition(s, e, t)
    ensures Keys(t) <= Keys(s) + {e.params.uniqueKey}
  {
    forall key | key in Keys(t) ensures key in Keys(s) + {e.params.uniqueKey} {
      var id :| id in t.jobs && t.jobs[id].uniqueKey == key;
      if id in s.jobs {
        MovesKeepsValidRow(e, s.jobs[id], t.jobs[id]);
      }
    }
  }

  /** The scheduler is about to handle `plan`, and the cursor is the k-th occurrence. */
  predicate Poised(cfg: Config, s: State, c: nat, k: nat, plan: seq<Item>) {
    && s.index == k && s.cursor == Some(At(cfg, s.index))
    && c in s.schedulers && s.schedulers[c] == Working(plan, false)
  }

  /** The scheduler's next two steps: enqueue and swap. */
  function Handling(c: nat, now: int): seq<Action> {
    [Enqueue(c, now), Advance(c)]
  }

  lemma RunSnoc(cfg: Config, actions: seq<Action>, a: Action)
    ensures RunCron(cfg, actions + [a]) == Step(cfg, RunCron(cfg, actions), a)
  {
    assert (actions + [a])[..|actions|] == actions;
  }

  lemma RunHandling(cfg: Config, actions: seq<Action>, c: nat, now: int)
    ensures RunCron(cfg, actions + Handling(c, now)) ==
      Step(cfg, Step(cfg, RunCron(cfg, actions), Enqueue(c, now)), Advance(c))
  {
    RunSnoc(cfg, actions, Enqueue(c, now));
    RunSnoc(cfg, actions + [Enqueue(c, now)], Advance(c));
    assert actions + Handling(c, now) == actions + [Enqueue(c, now)] + [Advance(c)];
  }

  lemma HandleItem(cfg: Config, s: State, c: nat, now: int, k: nat, plan: seq<Item>)
    requires Valid(s.store) && plan != [] && cfg.keyOf(plan[0].occurrence) != "" && Poised(cfg, s, c, k, plan)
    requires plan[0].expected == At(cfg, k) && plan[0].occurrence == At(cfg, plan[0].to)
    ensures var t, item := Step(cfg, Step(cfg, s, Enqueue(c, now)), Advance(c)), plan[0];
      && Poised(cfg, t, c, item.to, plan[1..])
      && Keys(t.store) == Keys(s.store) + (if item.enqueue then {cfg.keyOf(item.occurrence)} else {})
  {
    if plan[0].enqueue {
      InsertAddsKey(s.store, InsertOf(cfg, plan[0].occurrence), now);
    }
  }

  /** Handling the first item of a plan after a run. */
  lemma HandleFirst(cfg: Config, actions: seq<Action>, c: nat, now: int, k: nat, plan: seq<Item>)
    requires ValidConfig(cfg) && plan != [] && Poised(cfg, RunCron(cfg, actions), c, k, plan)
    requires plan[0].expected == At(cfg, k) && plan[0].occurrence == At(cfg, plan[0].to)
    ensures var s, t, item := RunCron(cfg, actions), RunCron(cfg, actions + Handling(c, now)), plan[0];
      && Poised(cfg, t, c, item.to, plan[1..])
      && Keys(t.store) == Keys(s.store) + (if item.enqueue then {cfg.keyOf(item.occurrence)} else {})
  {
    RunInv(cfg, actions);
    assert IsPermanent(cfg.keyOf(plan[0].occurrence));
    HandleItem(cfg, RunCron(cfg, actions), c, now, k, plan);
    RunHandling(cfg, actions, c, now);
  }

  // ---- whole ticks ----

  lemma TickPlans(cfg: Config, actions: seq<Action>, c: nat, now: int, n: nat)
    requires ValidConfig(cfg) && n <= Min(cfg.scanLimit, Cap(cfg))
    requires var k := RunCron(cfg, actions).index;
      AreDue(cfg, k, n, now) && (n < Min(cfg.scanLimit, Cap(cfg)) ==> NoMoreDue(cfg, k, n, now))
    ensures var s, t := RunCron(cfg, actions), RunCron(cfg, actions + [Tick(c, now)]);
      var k, all := s.index, n < Min(cfg.scanLimit, Cap(cfg));
      var plan := PlanOf(cfg, At(cfg, k), k, DueList(cfg, k, n), all, now);
      t.store == s.store && Poised(cfg, t, c, s.index, plan)
  {
    RunInv(cfg, actions);
    RunSnoc(cfg, actions, Tick(c, now));
    ScanFindsDue(cfg, RunCron(cfg, actions).index, n, now, cfg.scanLimit, Cap(cfg));
  }

  /** A tick after a run, with its first occurrence handled. */
  function Ticked(actions: seq<Action>, c: nat, now: int): seq<Action> {
    actions + [Tick(c, now)] + Handling(c, now)
  }

  /** Latest only: after any run, a tick with `n` occurrences due, carried out, takes the cursor
      to the last of them, whose successor is in the future, and enqueues that one alone. */
  lemma LatestOnlyTick(cfg: Config, actions: seq<Action>, c: nat, now: int, n: nat)
    requires ValidConfig(cfg) && cfg.catchUp.CatchUpLatest? && 1 <= n < cfg.scanLimit
    requires var k := RunCron(cfg, actions).index; AreDue(cfg, k, n, now) && NoMoreDue(cfg, k, n, now)
    ensures var s, t := RunCron(cfg, actions), RunCron(cfg, Ticked(actions, c, now));
      && t.index == s.index + n && t.cursor == Some(At(cfg, t.index))
      && At(cfg, t.index) <= now < At(cfg, t.index + 1)
      && Keys(t.store) == Keys(s.store) + {cfg.keyOf(At(cfg, t.index))}
  {
    LastOneTick(cfg, actions, c, now, n, true);
  }

  /** Skip missed: the cursor moves likewise, and the last occurrence is enqueued if and only
      if it is at most one tick interval old. */
  lemma SkipMissedTick(cfg: Config, actions: seq<Action>, c: nat, now: int, n: nat)
    requires ValidConfig(cfg) && cfg.catchUp.SkipMissed? && 1 <= n < cfg.scanLimit
    requires var k := RunCron(cfg, actions).index; AreDue(cfg, k, n, now) && NoMoreDue(cfg, k, n, now)
    ensures var s, t := RunCron(cfg, actions), RunCron(cfg, Ticked(actions, c, now));
      && t.index == s.index + n && t.cursor == Some(At(cfg, t.index))
      && At(cfg, t.index) <= now < At(cfg, t.index + 1)
      && Keys(t.store) == Keys(s.store) +
           (if now <= At(cfg, t.index) + cfg.tickInterval then {cfg.keyOf(At(cfg, t.index))} else {})
  {
    var last := At(cfg, RunCron(cfg, actions).index + n);
    LastOneTick(cfg, actions, c, now, n, now - last <= cfg.tickInterval);
  }

  lemma LastOneTick(cfg: Config, actions: seq<Action>, c: nat, now: int, n: nat, enqueue: bool)
    requires ValidConfig(cfg) && !cfg.catchUp.CatchUpAll? && 1 <= n < cfg.scanLimit
    requires var k := RunCron(cfg, actions).index; AreDue(cfg, k, n, now) && NoMoreDue(cfg, k, n, now)
    requires var k := RunCron(cfg, actions).index;
      enqueue == (cfg.catchUp.CatchUpLatest? || now - At(cfg, k + n) <= cfg.tickInterval)
    ensures var s, t := RunCron(cfg, actions), RunCron(cfg, Ticked(actions, c, now));
      && t.index == s.index + n && t.cursor == Some(At(cfg, t.index))
      && Keys(t.store) == Keys(s.store) + (if enqueue then {cfg.keyOf(At(cfg, t.index))} else {})
  {
    var k := RunCron(cfg, actions).index;
    var last := k + n;
    var plan := TickPlansLast(cfg, actions, c, now, k, n, last, enqueue);
    HandleFirst(cfg, actions + [Tick(c, now)], c, now, k, plan);
  }

  lemma TickPlansLast(cfg: Config, actions: seq<Action>, c: nat, now: int, k: nat, n: nat, last: nat,
                      enqueue: bool) returns (plan: seq<Item>)
    requires ValidConfig(cfg) && !cfg.catchUp.CatchUpAll? && 1 <= n < cfg.scanLimit
    requires k == RunCron(cfg, actions).index && AreDue(cfg, k, n, now) && NoMoreDue(cfg, k, n, now)
    requires last == k + n && enqueue == (cfg.catchUp.CatchUpLatest? || now - At(cfg, last) <= cfg.tickInterval)
    ensures plan == [Item(At(cfg, last), enqueue, At(cfg, k), k, last)]
    ensures var s, t := RunCron(cfg, actions), RunCron(cfg, actions + [Tick(c, now)]);
      t.store == s.store && Poised(cfg, t, c, k, plan)
  {
    plan := LastPlan(cfg, k, n, now, enqueue);
    TickPlans(cfg, actions, c, now, n);
  }

  lemma LastPlan(cfg: Config, k: nat, n: nat, now: int, enqueue: bool) returns (plan: seq<Item>)
    requires !cfg.catchUp.CatchUpAll? && n >= 1
    requires enqueue == (cfg.catchUp.CatchUpLatest? || now - At(cfg, k + n) <= cfg.tickInterval)
    ensures plan == [Item(At(cfg, k + n), enqueue, At(cfg, k), k, k + n)]
    ensures PlanOf(cfg, At(cfg, k), k, DueList(cfg, k, n), true, now) == plan
  {
    assert DueList(cfg, k, n)[n - 1] == At(cfg, k + n);
    plan := [Item(At(cfg, k + n), enqueue, At(cfg, k), k, k + n)];
  }

  /** Too long a backlog for one scan: neither policy does anything. */
  lemma BacklogTick(cfg: Config, actions: seq<Action>, c: nat, now: int)
    requires ValidConfig(cfg) && !cfg.catchUp.CatchUpAll?
    requires AreDue(cfg, RunCron(cfg, actions).index, cfg.scanLimit, now)
    ensures var s, t := RunCron(cfg, actions), RunCron(cfg, Ticked(actions, c, now));
      t.index == s.index && t.cursor == Some(At(cfg, s.index)) && t.store == s.store
  {
    TickPlans(cfg, actions, c, now, cfg.scanLimit);
    RunHandling(cfg, actions + [Tick(c, now)], c, now);
  }

  function HandlingMany(c: nat, now: int, n: nat): seq<Action> {
    if n == 0 then [] else Handling(c, now) + HandlingMany(c, now, n - 1)
  }

  /** The keys of the `n` occurrences after the k-th one. */
  function KeysBetween(cfg: Config, k: nat, n: nat): set<string>
    decreases n
  {
    if n == 0 then {} else {cfg.keyOf(At(cfg, k + 1))} + KeysBetween(cfg, k + 1, n - 1)
  }

  lemma {:induction false} EveryKeyIsThere(cfg: Config, k: nat, n: nat, j: nat)
    requires k < j <= k + n
    ensures cfg.keyOf(At(cfg, j)) in KeysBetween(cfg, k, n)
    decreases n
  {
    if k + 1 < j {
      EveryKeyIsThere(cfg, k + 1, n - 1, j);
    }
  }

  /** The occurrence after the j-th one, to be enqueued and swapped in. */
  function NextItem(cfg: Config, j: nat): Item {
    Item(At(cfg, j + 1), true, At(cfg, j), j, j + 1)
  }

  function AllPlan(cfg: Config, k: nat, n: nat): seq<Item>
    decreases n
  {
    if n == 0 then [] else [NextItem(cfg, k)] + AllPlan(cfg, k + 1, n - 1)
  }

  lemma {:induction false} AllPlanAt(cfg: Config, k: nat, n: nat, i: nat)
    requires i < n
    ensures |AllPlan(cfg, k, n)| == n && AllPlan(cfg, k, n)[i] == NextItem(cfg, k + i)
    decreases n
  {
    if n > 1 {
      AllPlanAt(cfg, k + 1, n - 1, if i > 0 then i - 1 else 0);
    }
  }

  lemma AllPlanIsPlan(cfg: Config, k: nat, n: nat, now: int, complete: bool)
    requires cfg.catchUp.CatchUpAll?
    ensures PlanOf(cfg, At(cfg, k), k, DueList(cfg, k, n), complete, now) == AllPlan(cfg, k, n)
  {
    var plan := PlanOf(cfg, At(cfg, k), k, DueList(cfg, k, n), complete, now);
    var due, all := DueList(cfg, k, n), AllPlan(cfg, k, n);
    if n > 0 {
      AllPlanAt(cfg, k, n, 0);
    }
    forall i: nat | i < n ensures plan[i] == all[i] {
      AllPlanAt(cfg, k, n, i);
      assert i > 0 ==> due[i - 1] == At(cfg, k + i);
    }
    assert plan == all;
  }

  lemma HandleNext(cfg: Config, actions: seq<Action>, c: nat, now: int, j: nat, n: nat, plan: seq<Item>)
      returns (rest: seq<Item>)
    requires ValidConfig(cfg) && n > 0 && plan == AllPlan(cfg, j, n) && Poised(cfg, RunCron(cfg, actions), c, j, plan)
    ensures rest == AllPlan(cfg, j + 1, n - 1)
    ensures var s, t := RunCron(cfg, actions), RunCron(cfg, actions + Handling(c, now));
      Poised(cfg, t, c, j + 1, rest) && Keys(t.store) == Keys(s.store) + {cfg.keyOf(At(cfg, j + 1))}
  {
    rest := plan[1..];
    assert plan[0] == NextItem(cfg, j);
    HandleFirst(cfg, actions, c, now, j, plan);
  }

  /** `t` is what handling the `n` items from the j-th occurrence on makes of `s`. */
  ghost predicate Caught(cfg: Config, s: State, t: State, j: nat, n: nat) {
    && t.index == j + n && t.cursor == Some(At(cfg, t.index))
    && Keys(t.store) == Keys(s.store) + KeysBetween(cfg, j, n)
  }

  lemma CaughtMore(cfg: Config, s: State, u: State, t: State, j: nat, n: nat)
    requires n > 0 && Keys(u.store) == Keys(s.store) + {cfg.keyOf(At(cfg, j + 1))} && Caught(cfg, u, t, j + 1, n - 1)
    ensures Caught(cfg, s, t, j, n)
  {
  }

  lemma {:induction false} HandleAll(cfg: Config, actions: seq<Action>, c: nat, now: int, j: nat, n: nat,
                                     plan: seq<Item>)
    requires ValidConfig(cfg) && plan == AllPlan(cfg, j, n) && Poised(cfg, RunCron(cfg, actions), c, j, plan)
    ensures Caught(cfg, RunCron(cfg, actions), RunCron(cfg, actions + HandlingMany(c, now, n)), j, n)
    decreases n
  {
    if n == 0 {
      assert actions + HandlingMany(c, now, 0) == actions;
    } else {
      var longer := actions + Handling(c, now);
      assert actions + HandlingMany(c, now, n) == longer + HandlingMany(c, now, n - 1);
      var rest := HandleNext(cfg, actions, c, now, j, n, plan);
      HandleAll(cfg, longer, c, now, j + 1, n - 1, rest);
      CaughtMore(cfg, RunCron(cfg, actions), RunCron(cfg, longer),
                 RunCron(cfg, longer + HandlingMany(c, now, n - 1)), j, n);
    }
  }

  /** Catch up all: after any run, a tick with `n` occurrences due, carried out, enqueues every
      one of them and takes the cursor to the last, where `n` is all that is due or the bound on
      one tick. */
  lemma CatchUpAllTick(cfg: Config, actions: seq<Action>, c: nat, now: int, n: nat)
    requires ValidConfig(cfg) && cfg.catchUp.CatchUpAll? && n <= Min(cfg.scanLimit, cfg.maxCatchUp)
    requires var k := RunCron(cfg, actions).index;
      AreDue(cfg, k, n, now) && (n < Min(cfg.scanLimit, cfg.maxCatchUp) ==> NoMoreDue(cfg, k, n, now))
    ensures var s, t := RunCron(cfg, actions), RunCron(cfg, actions + [Tick(c, now)] + HandlingMany(c, now, n));
      && t.index == s.index + n && t.cursor == Some(At(cfg, t.index))
      && Keys(t.store) == Keys(s.store) + KeysBetween(cfg, s.index, n)
  {
    var k := RunCron(cfg, actions).index;
    TickPlans(cfg, actions, c, now, n);
    AllPlanIsPlan(cfg, k, n, now, n < Min(cfg.scanLimit, Cap(cfg)));
    HandleAll(cfg, actions + [Tick(c, now)], c, now, k, n, AllPlan(cfg, k, n));
  }
}
