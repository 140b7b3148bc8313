/** What a handler's outcome leads to in the store, and how often a job that keeps failing is
    tried. */
module RetryOutcomes {
  import opened Prelude
  import opened Jobs
  import opened JobStore
  import opened JobLife
  import opened RetryAccounting

  // ---- one outcome ----

  /** The copy's claim is still the running one. */
  predicate StillHeld(s: Store, copy: Row) {
    && copy.id in s.jobs && s.jobs[copy.id].state == Running && SameJob(s.jobs[copy.id], copy)
    && s.jobs[copy.id].worker == copy.worker && s.jobs[copy.id].attempt == copy.attempt
  }

  function After(pool: Pool, s: Store, copy: Row, o: Outcome, now: int): Store {
    Apply(s, SetState(ProcessRow(pool, copy, o, now), now))
  }

  /** The effective maximum is the job's own, else its kind's, else three. */
  lemma EffectiveMaxIs(pool: Pool, r: Row)
    ensures r.maxRetry > 0 ==> EffectiveMax(pool, r) == r.maxRetry
    ensures r.maxRetry <= 0 && pool.kindMaxRetry(r.kind) > 0 ==> EffectiveMax(pool, r) == pool.kindMaxRetry(r.kind)
    ensures r.maxRetry <= 0 && pool.kindMaxRetry(r.kind) <= 0 ==> EffectiveMax(pool, r) == 3
  {
  }

  predicate EndsIn(r: Row, q: Row, state: JobState, now: int) {
    q.state == state && q.finalizedAt == Some(now) && q.attempt == r.attempt && q.runAt == r.runAt && q.worker == ""
  }

  /** One more error, recorded under the attempt that failed. */
  predicate RecordsError(r: Row, q: Row, now: int, error: string) {
    q.errors == r.errors + [AttemptError(now, r.attempt, error)]
  }

  lemma SuccessCompletes(pool: Pool, s: Store, copy: Row, now: int)
    requires StillHeld(s, copy)
    ensures var r, q := s.jobs[copy.id], After(pool, s, copy, Succeeded, now).jobs[copy.id];
      EndsIn(r, q, Completed, now) && q.errors == r.errors
  {
  }

  lemma InterruptionGivesBack(pool: Pool, s: Store, copy: Row, now: int)
    requires StillHeld(s, copy)
    ensures var r, q := s.jobs[copy.id], After(pool, s, copy, Interrupted, now).jobs[copy.id];
      && q.state == Available && q.attempt == r.attempt - 1 && q.errors == r.errors && q.runAt == r.runAt
      && q.finalizedAt == r.finalizedAt
  {
  }

  lemma DiscardErrorDiscards(pool: Pool, s: Store, copy: Row, error: string, now: int)
    requires StillHeld(s, copy)
    ensures var r, q := s.jobs[copy.id], After(pool, s, copy, DiscardError(error), now).jobs[copy.id];
      EndsIn(r, q, Discarded, now) && RecordsError(r, q, now, error)
  {
  }

  /** A failure below the maximum with a retry instant waits for that instant; at the maximum,
      or without an instant, it is the last. */
  predicate FailsWith(pool: Pool, r: Row, q: Row, error: string, next: int, now: int) {
    && RecordsError(r, q, now, error)
    && (r.attempt < EffectiveMax(pool, r) && next != ZERO_TIME ==>
         q.state == Available && q.runAt == next && q.attempt == r.attempt && q.finalizedAt == r.finalizedAt)
    && (r.attempt >= EffectiveMax(pool, r) || next == ZERO_TIME ==> EndsIn(r, q, Discarded, now))
  }

  lemma PlainErrorRetriesOrDiscards(pool: Pool, s: Store, copy: Row, error: string, next: int, now: int)
    requires StillHeld(s, copy)
    ensures var r, q := s.jobs[copy.id], After(pool, s, copy, PlainError(error, next), now).jobs[copy.id];
      FailsWith(pool, r, q, error, next, now)
  {
  }

  lemma RetryErrorSetsInstant(pool: Pool, s: Store, copy: Row, error: string, at: int, delay: int, now: int)
    requires StillHeld(s, copy)
    ensures var r, q := s.jobs[copy.id], After(pool, s, copy, RetryError(error, at, delay), now).jobs[copy.id];
      FailsWith(pool, r, q, error, if at != ZERO_TIME then at else now + delay, now)
  {
  }

  /** An outcome of a claim that was lost meanwhile changes nothing. */
  lemma LostClaimChangesNothing(pool: Pool, s: Store, copy: Row, o: Outcome, now: int)
    requires copy.attempt >= 1 && copy.id in s.jobs
    requires s.jobs[copy.id].state != Running || s.jobs[copy.id].attempt != copy.attempt
    ensures After(pool, s, copy, o, now) == s
  {
  }

  // ---- a job that keeps failing ----

  /** The action leaves the job to fail: its handler returns plain errors with a retry instant,
      and nobody rescues, cancels, reschedules or deletes it. */
  ghost predicate LeavesFailing(s: State, a: Action, id: string) {
    match a
    case Finish(copy, o, _) => copy.id == id ==> o.PlainError? && o.next != ZERO_TIME
    case Do(e) =>
      && !(e.Cancel? && e.id == id) && !(e.Reschedule? && e.id == id) && !(e.Delete? && e.id == id)
      && (e.Rescue? && id in s.store.jobs ==> Apply(s.store, e).jobs[id] == s.store.jobs[id])
  }

  ghost predicate KeepsFailing(pool: Pool, actions: seq<Action>, id: string) {
    forall k :: 0 <= k < |actions| ==> LeavesFailing(RunPool(pool, actions[..k]), actions[k], id)
  }

  /** How often the job has gone from waiting to running. */
  function Starts(pool: Pool, actions: seq<Action>, id: string): nat {
    if |actions| == 0 then 0
    else
      var s, t := RunPool(pool, actions[..|actions| - 1]).store, RunPool(pool, actions).store;
      Starts(pool, actions[..|actions| - 1], id) +
      if id in s.jobs && id in t.jobs && s.jobs[id].state != Running && t.jobs[id].state == Running then 1 else 0
  }

  /** A failing job has an error for every attempt that is over. It waits below its maximum and
      ends at it. */
  predicate Failing(pool: Pool, r: Row) {
    var m := EffectiveMax(pool, r);
    match r.state
    case Running => |r.errors| == r.attempt - 1 && 1 <= r.attempt <= m
    case Available => 0 <= |r.errors| == r.attempt < m
    case Scheduled => 0 <= |r.errors| == r.attempt < m
    case Discarded => |r.errors| == r.attempt == m
    case _ => false
  }

  lemma MoveKeepsFailing(pool: Pool, e: Event, r: Row, q: Row)
    requires Moves(e, r, q) && Failing(pool, r) && !e.SetState?
    requires !(e.Cancel? && e.id == r.id) && (e.Rescue? ==> q == r)
    requires !(e.Reschedule? && e.id == r.id)
    ensures Failing(pool, q) && q.attempt == r.attempt + if r.state != Running && q.state == Running then 1 else 0
  {
  }

  lemma WriteKeepsFailing(pool: Pool, r: Row, q: Row, copy: Row, o: Outcome, now: int)
    requires Moves(SetState(ProcessRow(pool, copy, o, now), now), r, q) && Failing(pool, r)
    requires copy.attempt >= 1
    requires copy.id == r.id ==> SameJob(r, copy) && o.PlainError? && o.next != ZERO_TIME
    ensures Failing(pool, q) && q.attempt == r.attempt && (q.state == Running ==> r.state == Running)
  {
  }

  lemma StepKeepsFailing(pool: Pool, s: State, a: Action, id: string)
    requires Inv(s) && Enabled(s, a) && LeavesFailing(s, a, id) && id in s.store.jobs && Failing(pool, s.store.jobs[id])
    ensures var t := Apply(s.store, EventOf(pool, a));
      && id in t.jobs && Failing(pool, t.jobs[id])
      && var started := s.store.jobs[id].state != Running && t.jobs[id].state == Running;
         t.jobs[id].attempt == s.store.jobs[id].attempt + if started then 1 else 0
  {
    var e := EventOf(pool, a);
    ApplyValid(s.store, e);
    var r, q := s.store.jobs[id], Apply(s.store, e).jobs[id];
    assert r.id == id && Moves(e, r, q);
    match a
    case Do(_) => MoveKeepsFailing(pool, e, r, q);
    case Finish(copy, o, now) => WriteKeepsFailing(pool, r, q, copy, o, now);
  }

  lemma NewRowIsFailing(pool: Pool, id: string, p: InsertParams, now: int)
    ensures Failing(pool, NewRow(id, p, now)) && NewRow(id, p, now).attempt == 0
    ensures NewRow(id, p, now).state != Running
  {
  }

  /** The job is failing, and its attempt number is the number of times it was started. */
  ghost predicate FailsInStep(pool: Pool, actions: seq<Action>, id: string) {
    var s := RunPool(pool, actions).store;
    && (id in s.jobs ==> Failing(pool, s.jobs[id]) && s.jobs[id].attempt == Starts(pool, actions, id))
    && (id !in s.jobs ==> Starts(pool, actions, id) == 0)
  }

  lemma RunPoolSnoc(pool: Pool, actions: seq<Action>)
    requires |actions| > 0
    ensures var init, a := actions[..|actions| - 1], actions[|actions| - 1];
      RunPool(pool, actions).store ==
      if Enabled(RunPool(pool, init), a) then Apply(RunPool(pool, init).store, EventOf(pool, a))
      else RunPool(pool, init).store
  {
  }

  lemma NewcomerFails(pool: Pool, s: Store, e: Event, id: string)
    requires Valid(s) && id !in s.jobs && id in Apply(s, e).jobs
    ensures Failing(pool, Apply(s, e).jobs[id]) && Apply(s, e).jobs[id].attempt == 0
    ensures Apply(s, e).jobs[id].state != Running
  {
    ApplyValid(s, e);
    assert e.Insert?;
    NewRowIsFailing(pool, id, e.params, e.now);
  }

  lemma {:induction false} RunFailsInStep(pool: Pool, actions: seq<Action>, id: string)
    requires KeepsFailing(pool, actions, id)
    ensures FailsInStep(pool, actions, id)
  {
    if |actions| > 0 {
      var init, a := actions[..|actions| - 1], actions[|actions| - 1];
      assert forall k :: 0 <= k < |init| ==> init[..k] == actions[..k] && init[k] == actions[k];
      RunFailsInStep(pool, init, id);
      RunInv(pool, init);
      RunPoolSnoc(pool, actions);
      var s := RunPool(pool, init);
      if Enabled(s, a) {
        OneMoreStep(pool, s, a, id);
      }
    }
  }

  predicate CountsStart(r: Row, q: Row) {
    q.attempt == r.attempt + if r.state != Running && q.state == Running then 1 else 0
  }

  lemma OneMoreStep(pool: Pool, s: State, a: Action, id: string)
    requires Inv(s) && Enabled(s, a) && LeavesFailing(s, a, id)
    requires id in s.store.jobs ==> Failing(pool, s.store.jobs[id])
    ensures var t := Apply(s.store, EventOf(pool, a));
      && (id in s.store.jobs ==>
           id in t.jobs && Failing(pool, t.jobs[id]) && CountsStart(s.store.jobs[id], t.jobs[id]))
      && (id !in s.store.jobs && id in t.jobs ==>
           Failing(pool, t.jobs[id]) && t.jobs[id].attempt == 0 && t.jobs[id].state != Running)
  {
    if id in s.store.jobs {
      StepKeepsFailing(pool, s, a, id);
    } else if id in Apply(s.store, EventOf(pool, a)).jobs {
      NewcomerFails(pool, s.store, EventOf(pool, a), id);
    }
  }

  /** A job whose handler fails plainly every time and is always given a retry instant is
      started its effective maximum of times and then discarded: never finished before, never
      started after. */
  lemma TriedExactlyMaximumTimes(pool: Pool, actions: seq<Action>, id: string)
    requires KeepsFailing(pool, actions, id) && id in RunPool(pool, actions).store.jobs
    ensures var r := RunPool(pool, actions).store.jobs[id]; var m := EffectiveMax(pool, r);
      && Starts(pool, actions, id) <= m
      && (r.state in {Completed, Discarded, Cancelled} <==> Starts(pool, actions, id) == m && r.state != Running)
      && (r.state in {Completed, Discarded, Cancelled} ==> r.state == Discarded && |r.errors| == m)
  {
    RunFailsInStep(pool, actions, id);
  }
}
