/** `processRow`: how a worker turns the outcome of a handler into one fenced state write,
    and what those writes add up to over a job's life. */
module RetryAccounting {
  import opened Prelude
  import opened Jobs
  import opened JobStore

  datatype Outcome =
    | Interrupted
    | Succeeded
    | DiscardError(error: string)
    | RetryError(error: string, at: int, after: int)
    | PlainError(error: string, next: int)

  /** The fixed part of a pool: per-kind retry defaults (zero when unset). What the retry
      policy answers to a plain error comes with the outcome, as it may depend on the error
      and on chance; the zero instant gives up. */
  datatype Pool = Pool(kindMaxRetry: string -> int)

  function EffectiveMax(pool: Pool, r: Row): int {
    if r.maxRetry > 0 then r.maxRetry
    else if pool.kindMaxRetry(r.kind) > 0 then pool.kindMaxRetry(r.kind)
    else 3
  }

  function FencedWrite(r: Row): SetStateParams {
    SetStateParams(r.id, Completed, None, ZERO_TIME, r.worker, r.attempt, false)
  }

  function FailedWrite(pool: Pool, r: Row, error: string, retryAt: int): SetStateParams {
    if r.attempt >= EffectiveMax(pool, r) || retryAt == ZERO_TIME then
      FencedWrite(r).(state := Discarded, err := Some(error))
    else FencedWrite(r).(state := Retryable, err := Some(error), retryAt := retryAt)
  }

  /** The state write that ends the attempt on the claimed copy `r`. */
  function ProcessRow(pool: Pool, r: Row, o: Outcome, now: int): SetStateParams {
    match o
    case Interrupted => FencedWrite(r).(isYield := true)
    case Succeeded => FencedWrite(r)
    case DiscardError(error) => FencedWrite(r).(state := Discarded, err := Some(error))
    case RetryError(error, at, after) =>
      FailedWrite(pool, r, error, if at == ZERO_TIME then now + after else at)
    case PlainError(error, next) => FailedWrite(pool, r, error, next)
  }

  // ---- a store driven by a pool ----

  /** `handed` holds every copy of a running row that a fetch can have returned so far. */
  datatype State = State(store: Store, handed: set<Row>)

  datatype Action = Do(event: Event) | Finish(copy: Row, outcome: Outcome, now: int)

  const INITIAL: State := State(EMPTY, {})

  function RunningRows(s: Store): set<Row> {
    set id | id in s.jobs && s.jobs[id].state.Running? :: s.jobs[id]
  }

  function EventOf(pool: Pool, a: Action): Event {
    match a
    case Do(e) => e
    case Finish(copy, outcome, now) => SetState(ProcessRow(pool, copy, outcome, now), now)
  }

  predicate Enabled(s: State, a: Action) {
    match a
    case Do(e) => !e.SetState?
    case Finish(copy, _, _) => copy in s.handed
  }

  /** State writes come from workers finishing a row they were handed, possibly long
      after the claim was lost; every other store operation may happen at any time. */
  function Step(pool: Pool, s: State, a: Action): State {
    if !Enabled(s, a) then s
    else
      var store := Apply(s.store, EventOf(pool, a));
      State(store, s.handed + RunningRows(store))
  }

  function RunPool(pool: Pool, actions: seq<Action>): State {
    if |actions| == 0 then INITIAL
    else Step(pool, RunPool(pool, actions[..|actions| - 1]), actions[|actions| - 1])
  }

  // ---- what holds of every row ----

  predicate Increasing(errors: seq<AttemptError>) {
    forall i, j :: 0 <= i < j < |errors| ==> errors[i].attempt < errors[j].attempt
  }

  /** Error attempts increase strictly and the row does not rest in the retryable state. */
  predicate Ordered(r: Row) {
    && Increasing(r.errors)
    && (forall i :: 0 <= i < |r.errors| ==> 1 <= r.errors[i].attempt <= r.attempt)
    && (r.state.Running? ==> forall i :: 0 <= i < |r.errors| ==> r.errors[i].attempt < r.attempt)
    && !r.state.Retryable?
  }

  /** An unfinished row only has errors below its limit. */
  predicate Bounded(pool: Pool, r: Row) {
    && |r.errors| <= EffectiveMax(pool, r)
    && (!Terminal(r.state) ==> forall i :: 0 <= i < |r.errors| ==> r.errors[i].attempt < EffectiveMax(pool, r))
  }

  predicate SameJob(r: Row, copy: Row) {
    r.id == copy.id && r.maxRetry == copy.maxRetry && r.kind == copy.kind
  }

  /** The event is one that a worker's outcome can produce on this row. */
  ghost predicate FromPool(pool: Pool, e: Event, r: Row) {
    e.SetState? ==>
      exists copy: Row, o: Outcome :: copy.attempt >= 1 && (copy.id == r.id ==> SameJob(r, copy)) &&
        e.write == ProcessRow(pool, copy, o, e.now)
  }

  lemma MovesKeepsOrdered(pool: Pool, e: Event, r: Row, q: Row)
    requires Moves(e, r, q) && FromPool(pool, e, r) && ValidRow(r) && Ordered(r)
    ensures Ordered(q)
  {
  }

  lemma {:induction false} IncreasingLength(errors: seq<AttemptError>, m: int)
    requires Increasing(errors) && m >= 1
    requires forall i :: 0 <= i < |errors| ==> 1 <= errors[i].attempt < m
    ensures |errors| <= m - 1
    decreases |errors|
  {
    var n := |errors|;
    if n > 0 {
      IncreasingLength(errors[..n - 1], errors[n - 1].attempt);
    }
  }

  lemma MovesKeepsBounded(pool: Pool, e: Event, r: Row, q: Row)
    requires Moves(e, r, q) && FromPool(pool, e, r) && ValidRow(r) && Ordered(r) && Bounded(pool, r)
    requires !(e.Reschedule? && e.id == r.id && Terminal(r.state))
    ensures Bounded(pool, q)
  {
    if !Terminal(r.state) {
      IncreasingLength(r.errors, EffectiveMax(pool, r));
    }
  }

  // ---- over whole runs ----

  ghost predicate Inv(s: State) {
    && Valid(s.store)
    && (forall id :: id in s.store.jobs ==> Ordered(s.store.jobs[id]))
    && (forall c :: c in s.handed ==> c.attempt >= 1 && Issued(s.store, c.id))
    && (forall c :: c in s.handed && c.id in s.store.jobs ==> SameJob(s.store.jobs[c.id], c))
  }

  lemma EnabledIsFromPool(pool: Pool, s: State, a: Action, id: string)
    requires Inv(s) && Enabled(s, a) && id in s.store.jobs
    ensures FromPool(pool, EventOf(pool, a), s.store.jobs[id])
  {
    if a.Finish? {
      assert s.store.jobs[id].id == id;
    }
  }

  /** Rows that survive a step stay ordered and stay the same job; a new row is ordered. */
  lemma RowAfter(pool: Pool, s: Store, e: Event, t: Store, id: string)
    requires Valid(s) && Transition(s, e, t) && id in t.jobs
    requires id in s.jobs ==> Ordered(s.jobs[id]) && FromPool(pool, e, s.jobs[id])
    ensures Ordered(t.jobs[id])
    ensures id in s.jobs ==> SameJob(t.jobs[id], s.jobs[id])
  {
    if id in s.jobs {
      MovesKeepsOrdered(pool, e, s.jobs[id], t.jobs[id]);
      MovesKeepsValidRow(e, s.jobs[id], t.jobs[id]);
    }
  }

  lemma CopyAfter(pool: Pool, s: State, e: Event, t: Store, c: Row)
    requires Inv(s) && Transition(s.store, e, t) && c in s.handed
    requires c.id in s.store.jobs ==> FromPool(pool, e, s.store.jobs[c.id])
    ensures Issued(t, c.id) && (c.id in t.jobs ==> SameJob(t.jobs[c.id], c))
  {
    NextIdIsFresh(s.store);
    if c.id in t.jobs {
      RowAfter(pool, s.store, e, t, c.id);
    }
  }

  lemma RunningRowsAreClaims(s: Store, c: Row)
    requires Valid(s) && c in RunningRows(s)
    ensures c.attempt >= 1 && c.id in s.jobs && s.jobs[c.id] == c && Issued(s, c.id)
  {
    var id :| id in s.jobs && s.jobs[id] == c;
    assert c.id == id && ValidRow(c);
  }

  lemma StepKeepsInv(pool: Pool, s: State, a: Action)
    requires Inv(s)
    ensures Inv(Step(pool, s, a))
  {
    if Enabled(s, a) {
      var e := EventOf(pool, a);
      var t := Apply(s.store, e);
      ApplyValid(s.store, e);
      forall id | id in s.store.jobs ensures FromPool(pool, e, s.store.jobs[id]) {
        EnabledIsFromPool(pool, s, a, id);
      }
      forall id | id in t.jobs ensures Ordered(t.jobs[id]) {
        RowAfter(pool, s.store, e, t, id);
      }
      forall c | c in s.handed + RunningRows(t)
        ensures c.attempt >= 1 && Issued(t, c.id) && (c.id in t.jobs ==> SameJob(t.jobs[c.id], c))
      {
        if c in s.handed { CopyAfter(pool, s, e, t, c); } else { RunningRowsAreClaims(t, c); }
      }
    }
  }

  lemma {:induction false} RunInv(pool: Pool, actions: seq<Action>)
    ensures Inv(RunPool(pool, actions))
  {
    if |actions| > 0 {
      RunInv(pool, actions[..|actions| - 1]);
      StepKeepsInv(pool, RunPool(pool, actions[..|actions| - 1]), actions[|actions| - 1]);
    }
  }

  /** Whatever yields, rescues, reschedules and stale writes intervene, a job's recorded
      error attempts are strictly increasing and no job rests in the retryable state. */
  lemma ErrorsIncrease(pool: Pool, actions: seq<Action>, id: string)
    requires id in RunPool(pool, actions).store.jobs
    ensures var r := RunPool(pool, actions).store.jobs[id];
      Increasing(r.errors) && !r.state.Retryable?
  {
    RunInv(pool, actions);
  }

  ghost predicate NeverRevives(pool: Pool, actions: seq<Action>) {
    forall k :: 0 <= k < |actions| && actions[k].Do? && actions[k].event.Reschedule? ==>
      var s, e := RunPool(pool, actions[..k]).store, actions[k].event;
      e.id in s.jobs ==> !Terminal(s.jobs[e.id].state)
  }

  /** Without an administrative reschedule of a finished job, a job records at most its
      effective maximum of errors. */
  lemma {:induction false} ErrorsBounded(pool: Pool, actions: seq<Action>, id: string)
    requires NeverRevives(pool, actions)
    ensures id in RunPool(pool, actions).store.jobs ==> Bounded(pool, RunPool(pool, actions).store.jobs[id])
  {
    if |actions| > 0 {
      var init, a := actions[..|actions| - 1], actions[|actions| - 1];
      assert forall k :: 0 <= k < |init| ==> init[..k] == actions[..k] && init[k] == actions[k];
      ErrorsBounded(pool, init, id);
      RunInv(pool, init);
      var s, t := RunPool(pool, init), RunPool(pool, actions);
      if Enabled(s, a) && id in t.store.jobs {
        var e := EventOf(pool, a);
        ApplyValid(s.store, e);
        if id in s.store.jobs {
          EnabledIsFromPool(pool, s, a, id);
          assert s.store.jobs[id].id == id;
          MovesKeepsBounded(pool, e, s.store.jobs[id], t.store.jobs[id]);
        }
      }
    }
  }

  // ---- with revivals ----

  /** Number of errors recorded at or above attempt `m`. */
  function Late(errors: seq<AttemptError>, m: int): nat {
    if |errors| == 0 then 0
    else Late(errors[..|errors| - 1], m) + if errors[|errors| - 1].attempt >= m then 1 else 0
  }

  lemma {:induction false} EarlyOrLate(errors: seq<AttemptError>, m: int)
    requires Increasing(errors) && m >= 1 && forall i :: 0 <= i < |errors| ==> 1 <= errors[i].attempt
    ensures |errors| <= m - 1 + Late(errors, m)
  {
    var n := |errors| - 1;
    if n >= 0 {
      if errors[n].attempt >= m {
        EarlyOrLate(errors[..n], m);
      } else {
        IncreasingLength(errors, m);
      }
    }
  }

  predicate Revives(r: Row, e: Event) {
    e.Reschedule? && e.id == r.id && Terminal(r.state)
  }

  /** Every late error ended the job, so there are no more of them than revivals, and one. */
  predicate LateBy(pool: Pool, r: Row, revivals: nat) {
    Late(r.errors, EffectiveMax(pool, r)) <= revivals + if Terminal(r.state) then 1 else 0
  }

  lemma MovesKeepsLate(pool: Pool, e: Event, r: Row, q: Row, revivals: nat)
    requires Moves(e, r, q) && FromPool(pool, e, r) && LateBy(pool, r, revivals)
    ensures LateBy(pool, q, revivals + if Revives(r, e) then 1 else 0)
  {
    if q.errors != r.errors {
      assert q.errors[..|r.errors|] == r.errors;
    }
  }

  /** How often a finished job was rescheduled in the course of a run. */
  function Revivals(pool: Pool, actions: seq<Action>, id: string): nat {
    if |actions| == 0 then 0
    else
      var init, a := actions[..|actions| - 1], actions[|actions| - 1];
      var s := RunPool(pool, init).store;
      Revivals(pool, init, id) +
      if Enabled(RunPool(pool, init), a) && id in s.jobs && Revives(s.jobs[id], EventOf(pool, a)) then 1 else 0
  }

  lemma {:induction false} RunKeepsLate(pool: Pool, actions: seq<Action>, id: string)
    ensures id in RunPool(pool, actions).store.jobs ==>
      LateBy(pool, RunPool(pool, actions).store.jobs[id], Revivals(pool, actions, id))
  {
    if |actions| > 0 {
      var init, a := actions[..|actions| - 1], actions[|actions| - 1];
      RunKeepsLate(pool, init, id);
      RunInv(pool, init);
      var s, t := RunPool(pool, init), RunPool(pool, actions);
      if Enabled(s, a) && id in t.store.jobs {
        var e := EventOf(pool, a);
        ApplyValid(s.store, e);
        if id in s.store.jobs {
          EnabledIsFromPool(pool, s, a, id);
          MovesKeepsLate(pool, e, s.store.jobs[id], t.store.jobs[id], Revivals(pool, init, id));
        }
      }
    }
  }

  /** In every run, administrative reschedules included, a job records at most its effective
      maximum of errors and one more for every time it was revived. */
  lemma ErrorsBoundedByRevivals(pool: Pool, actions: seq<Action>, id: string)
    requires id in RunPool(pool, actions).store.jobs
    ensures var r := RunPool(pool, actions).store.jobs[id];
      |r.errors| <= EffectiveMax(pool, r) + Revivals(pool, actions, id)
  {
    RunInv(pool, actions);
    RunKeepsLate(pool, actions, id);
    var r := RunPool(pool, actions).store.jobs[id];
    assert Ordered(r);
    EarlyOrLate(r.errors, EffectiveMax(pool, r));
  }
}
