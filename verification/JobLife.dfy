/** What the operations of the store do to a row, field by field, and what follows for every
    run: a job starts only in its queue, only when it is due and only through a fetch; it keeps
    its run time until somebody sets another; a rescue gives it back as it was claimed. */
module JobLife {
  import opened Prelude
  import opened Jobs
  import opened JobStore

  // ---- inserting ----

  /** A new job is stored under a new identifier with the attributes asked for, waits as
      scheduled exactly if its run time is in the future, and has not been tried. */
  lemma InsertStores(s: Store, p: InsertParams, now: int)
    requires Valid(s) && (p.uniqueKey == "" || !KeyTaken(s, p.uniqueKey))
    ensures var t, id := Apply(s, Insert(p, now)), IdOf(s.sequence + 1);
      && id !in s.jobs && t.jobs.Keys == s.jobs.Keys + {id} && (forall x :: x in s.jobs ==> t.jobs[x] == s.jobs[x])
      && var r := t.jobs[id];
         && r.id == id && r.queue == p.queue && r.kind == p.kind && r.priority == p.priority
         && r.uniqueKey == p.uniqueKey && r.maxRetry == p.maxRetry && r.pipeline == p.pipeline
         && r.runAt == (if p.runAt == ZERO_TIME then now else p.runAt) && r.createdAt == now
         && (r.runAt > now ==> r.state == Scheduled) && (r.runAt <= now ==> r.state == Available)
         && r.attempt == 0 && r.errors == [] && r.worker == ""
         && r.attemptedAt == r.startedAt == r.leaseExpiresAt == r.finalizedAt == None
    ensures var t := Apply(s, Insert(p, now)); p.queue in t.queues && (p.queue !in s.queues ==> !t.queues[p.queue])
  {
    NextIdIsFresh(s);
  }

  /** A key in use stops the insert: by a permanent key for ever, by another one until its job
      has finished. */
  lemma InsertRefusedIff(s: Store, p: InsertParams, now: int)
    requires Valid(s) && p.uniqueKey != ""
    ensures Apply(s, Insert(p, now)) == s <==>
      exists id :: id in s.jobs && s.jobs[id].uniqueKey == p.uniqueKey &&
        ("uf2_" <= p.uniqueKey || s.jobs[id].state !in {Completed, Discarded, Cancelled})
  {
    NextIdIsFresh(s);
    if KeyTaken(s, p.uniqueKey) {
      var id :| id in s.jobs && Reserves(s.jobs[id], p.uniqueKey);
      assert s.jobs[id].uniqueKey == p.uniqueKey;
    } else {
      assert Apply(s, Insert(p, now)).sequence != s.sequence;
      forall id | id in s.jobs && s.jobs[id].uniqueKey == p.uniqueKey
        ensures !("uf2_" <= p.uniqueKey) && s.jobs[id].state in {Completed, Discarded, Cancelled}
      {
        assert !Reserves(s.jobs[id], p.uniqueKey);
      }
    }
  }

  // ---- claiming ----

  /** The row as a claim at `now` leaves it. */
  predicate ClaimedFrom(r: Row, q: Row, worker: string, lease: int, now: int) {
    && q.state == Running && q.worker == worker && q.attempt == r.attempt + 1
    && q.attemptedAt == Some(now) && q.startedAt == None
    && (lease > 0 ==> q.leaseExpiresAt == Some(now + lease)) && (lease <= 0 ==> q.leaseExpiresAt == None)
    && SameJobData(r, q) && q.runAt == r.runAt && q.errors == r.errors && q.finalizedAt == r.finalizedAt
  }

  /** What no operation changes. */
  predicate SameJobData(r: Row, q: Row) {
    && q.id == r.id && q.queue == r.queue && q.kind == r.kind && q.priority == r.priority
    && q.createdAt == r.createdAt && q.maxRetry == r.maxRetry && q.uniqueKey == r.uniqueKey && q.pipeline == r.pipeline
  }

  /** The job waits and its time has come. */
  predicate IsDue(r: Row, queue: string, now: int) {
    r.queue == queue && (r.state == Available || r.state == Scheduled) && r.runAt <= now
  }

  /** A job goes to running only through a fetch from its own queue, which is not paused, and
      only if it was waiting and due. */
  lemma StartsOnlyWhenDue(s: Store, e: Event, id: string)
    requires Valid(s) && id in s.jobs && id in Apply(s, e).jobs
    requires s.jobs[id].state != Running && Apply(s, e).jobs[id].state == Running
    ensures e.Fetch? && e.queue in s.queues && !s.queues[e.queue] && IsDue(s.jobs[id], e.queue, e.now)
    ensures ClaimedFrom(s.jobs[id], Apply(s, e).jobs[id], e.worker, e.lease, e.now)
  {
    ApplyValid(s, e);
    assert Moves(e, s.jobs[id], Apply(s, e).jobs[id]);
    if e.Fetch? {
      assert Polls(s, e.queue) && Apply(s, e).jobs[id] == FetchedRow(s, e, id);
    }
  }

  /** In every run, whoever starts was due. */
  lemma EveryStartIsDue(events: seq<Event>, k: nat, id: string)
    requires k < |events|
    requires var s := Run(EMPTY, events[..k]); id in s.jobs && s.jobs[id].state != Running
    requires var t := Run(EMPTY, events[..k + 1]); id in t.jobs && t.jobs[id].state == Running
    ensures events[k].Fetch? && IsDue(Run(EMPTY, events[..k]).jobs[id], events[k].queue, events[k].now)
  {
    assert events[..k + 1] == events[..k] + [events[k]];
    RunSnoc(EMPTY, events[..k], events[k]);
    RunValid(EMPTY, events[..k]);
    StartsOnlyWhenDue(Run(EMPTY, events[..k]), events[k], id);
  }

  /** A fetch without a limit leaves nothing due behind. */
  lemma UnlimitedFetchTakesAll(s: Store, e: Event, id: string)
    requires Valid(s) && e.Fetch? && e.limit <= 0 && e.queue in s.queues && !s.queues[e.queue] && id in s.jobs
    ensures id in Apply(s, e).jobs && !IsDue(Apply(s, e).jobs[id], e.queue, e.now)
    ensures IsDue(s.jobs[id], e.queue, e.now) ==> Apply(s, e).jobs[id].state == Running
  {
    assert Apply(s, e).jobs[id] == FetchedRow(s, e, id);
  }

  // ---- losing and giving back ----

  /** A claim is overdue: its lease has run out or, without a lease, it began too long ago. */
  predicate IsOverdue(r: Row, at: int, before: int) {
    match r.leaseExpiresAt
    case Some(d) => at != ZERO_TIME && d <= at
    case None => r.attemptedAt.Some? && r.attemptedAt.value <= before
  }

  /** A rescue gives back exactly the overdue claims of its queue, with attempt number, run
      time and errors as they were, and leaves every other row alone. */
  lemma RescueGivesBack(s: Store, queue: string, at: int, before: int, id: string)
    requires id in s.jobs
    ensures var t := Apply(s, Rescue(queue, at, before));
      && id in t.jobs
      && var r, q := s.jobs[id], t.jobs[id];
         if r.state == Running && r.queue == queue && IsOverdue(r, at, before) then
           && q.state == Available && q.attempt == r.attempt && q.runAt == r.runAt && q.errors == r.errors
           && q.worker == "" && q.leaseExpiresAt == None && q.attemptedAt == None && SameJobData(r, q)
           && q.startedAt == r.startedAt && q.finalizedAt == r.finalizedAt
         else q == r
  {
  }

  /** The job is running, under this worker and attempt. */
  predicate RunsUnder(s: Store, id: string, worker: string, attempt: int) {
    id in s.jobs && s.jobs[id].state == Running && s.jobs[id].worker == worker && s.jobs[id].attempt == attempt
  }

  /** A heartbeat or start mark takes effect exactly for the worker and attempt that run. */
  lemma TokenTakesEffectIff(s: Store, id: string, worker: string, attempt: int)
    ensures AcceptsToken(s, id, worker, attempt) <==> RunsUnder(s, id, worker, attempt)
  {
  }

  lemma HeartbeatRenews(s: Store, id: string, worker: string, attempt: int, at: int, expiresAt: int)
    ensures var t := Apply(s, Heartbeat(id, worker, attempt, at, expiresAt));
      if RunsUnder(s, id, worker, attempt) then
        var deadline := if expiresAt == ZERO_TIME then at else expiresAt;
        t == s.(jobs := s.jobs[id := s.jobs[id].(leaseExpiresAt := Some(deadline))])
      else t == s
  {
  }

  lemma StartMarkIsKept(s: Store, id: string, worker: string, attempt: int, at: int)
    ensures var t := Apply(s, MarkStarted(id, worker, attempt, at));
      if RunsUnder(s, id, worker, attempt) then
        t == s.(jobs := s.jobs[id := s.jobs[id].(startedAt := Some(at))])
      else t == s
  {
  }

  // ---- state writes ----

  /** A state write takes effect exactly on a running job, if what it expects of worker and
      attempt, where it expects anything, is so. */
  lemma WriteTakesEffectIff(s: Store, p: SetStateParams)
    ensures Accepts(s, p) <==>
      && p.id in s.jobs && s.jobs[p.id].state == Running
      && (p.expectedWorker != "" ==> s.jobs[p.id].worker == p.expectedWorker)
      && (p.expectedAttempt > 0 ==> s.jobs[p.id].attempt == p.expectedAttempt)
  {
  }

  lemma StaleWriteChangesNothing(s: Store, p: SetStateParams, now: int)
    requires !Accepts(s, p)
    ensures Apply(s, SetState(p, now)) == s
  {
  }

  /** A yield gives back the attempt and leaves run time and errors alone. */
  lemma YieldGivesBack(s: Store, p: SetStateParams, now: int)
    requires Accepts(s, p) && p.isYield
    ensures var r, q := s.jobs[p.id], Apply(s, SetState(p, now)).jobs[p.id];
      && q.state == Available && q.attempt == r.attempt - 1 && q.runAt == r.runAt && q.errors == r.errors
      && q.worker == "" && q.attemptedAt == None && q.leaseExpiresAt == None && SameJobData(r, q)
      && q.finalizedAt == r.finalizedAt
    ensures forall x :: x in s.jobs && x != p.id ==> Apply(s, SetState(p, now)).jobs[x] == s.jobs[x]
  {
  }

  /** Any other write ends the attempt: an error is recorded under its number, a dated retry
      makes the job available at that instant, and a final state is stamped with the clock. */
  lemma WriteEndsAttempt(s: Store, p: SetStateParams, now: int)
    requires Accepts(s, p) && !p.isYield
    ensures var r, q := s.jobs[p.id], Apply(s, SetState(p, now)).jobs[p.id];
      && q.attempt == r.attempt && q.worker == "" && q.leaseExpiresAt == None && SameJobData(r, q)
      && (p.err.None? ==> q.errors == r.errors)
      && (p.err.Some? ==> q.errors == r.errors + [AttemptError(now, r.attempt, p.err.value)])
      && (p.state == Retryable && p.retryAt != ZERO_TIME ==> q.state == Available && q.runAt == p.retryAt)
      && (p.state != Retryable || p.retryAt == ZERO_TIME ==> q.state == p.state && q.runAt == r.runAt)
      && (p.state in {Completed, Discarded, Cancelled} ==> q.finalizedAt == Some(now))
      && (p.state !in {Completed, Discarded, Cancelled} ==> q.finalizedAt == r.finalizedAt)
    ensures forall x :: x in s.jobs && x != p.id ==> Apply(s, SetState(p, now)).jobs[x] == s.jobs[x]
  {
  }

  // ---- administration ----

  lemma CancelStops(s: Store, id: string, now: int)
    ensures var t := Apply(s, Cancel(id, now));
      if id in s.jobs && (s.jobs[id].state == Available || s.jobs[id].state == Scheduled) then
        t == s.(jobs := s.jobs[id := s.jobs[id].(state := Cancelled, finalizedAt := Some(now))])
      else t == s
  {
  }

  lemma RescheduleSets(s: Store, id: string, runAt: int)
    requires id in s.jobs
    ensures Apply(s, Reschedule(id, runAt)) == s.(jobs := s.jobs[id := s.jobs[id].(runAt := runAt, state := Scheduled)])
  {
  }

  // ---- run times ----

  /** The event sets a run time for the job: a reschedule or a dated retry. */
  predicate SetsRunTime(e: Event, id: string) {
    || (e.Reschedule? && e.id == id)
    || (e.SetState? && e.write.id == id && !e.write.isYield && e.write.state == Retryable &&
        e.write.retryAt != ZERO_TIME)
  }

  lemma MovesKeepRunTime(e: Event, r: Row, q: Row)
    requires Moves(e, r, q) && !SetsRunTime(e, r.id)
    ensures q.runAt == r.runAt && SameJobData(r, q)
  {
  }

  lemma RunTimeIsKept(s: Store, e: Event, id: string)
    requires Valid(s) && id in s.jobs && id in Apply(s, e).jobs && !SetsRunTime(e, id)
    ensures Apply(s, e).jobs[id].runAt == s.jobs[id].runAt && SameJobData(s.jobs[id], Apply(s, e).jobs[id])
  {
    ApplyValid(s, e);
    assert s.jobs[id].id == id;
    MovesKeepRunTime(e, s.jobs[id], Apply(s, e).jobs[id]);
  }

  ghost predicate NoRunTimeSet(events: seq<Event>, id: string) {
    forall k :: 0 <= k < |events| ==> !SetsRunTime(events[k], id)
  }

  /** No fetch among the events comes at or after the instant. */
  ghost predicate FetchesBefore(events: seq<Event>, at: int) {
    forall k :: 0 <= k < |events| && events[k].Fetch? ==> events[k].now < at
  }

  /** The job waits for its run time, or is gone for good. */
  ghost predicate WaitsFor(s: Store, id: string, runAt: int) {
    Issued(s, id) && (id in s.jobs ==> s.jobs[id].state != Running && s.jobs[id].runAt == runAt)
  }

  lemma StillWaits(s: Store, e: Event, id: string, runAt: int)
    requires Valid(s) && WaitsFor(s, id, runAt) && !SetsRunTime(e, id) && (e.Fetch? ==> e.now < runAt)
    ensures WaitsFor(Apply(s, e), id, runAt)
  {
    ApplyValid(s, e);
    NextIdIsFresh(s);
    if id in Apply(s, e).jobs {
      RunTimeIsKept(s, e, id);
      if Apply(s, e).jobs[id].state == Running {
        StartsOnlyWhenDue(s, e, id);
      }
    }
  }

  /** A waiting job is not started by any run whose fetches all come before its run time, and
      as long as it is in the store it waits for that same run time. */
  lemma {:induction false} NotBeforeItsTime(s: Store, events: seq<Event>, id: string, runAt: int)
    requires Valid(s) && WaitsFor(s, id, runAt)
    requires NoRunTimeSet(events, id) && FetchesBefore(events, runAt)
    ensures WaitsFor(Run(s, events), id, runAt)
  {
    if |events| > 0 {
      var n := |events| - 1;
      NotBeforeItsTime(s, events[..n], id, runAt);
      RunValid(s, events[..n]);
      StillWaits(Run(s, events[..n]), events[n], id, runAt);
    }
  }
}
