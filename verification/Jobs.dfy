/** Job rows, their states, and the fencing and ordering rules on them. */
module Jobs {
  import opened Prelude
  import opened Strings

  datatype JobState = Available | Running | Completed | Retryable | Discarded | Cancelled | Scheduled

  predicate Terminal(s: JobState) {
    s.Completed? || s.Discarded? || s.Cancelled?
  }

  datatype AttemptError = AttemptError(at: int, attempt: int, error: string)

  datatype Row = Row(
    id: string, queue: string, kind: string, state: JobState, priority: int, runAt: int, createdAt: int,
    attemptedAt: Option<int>, startedAt: Option<int>, leaseExpiresAt: Option<int>, finalizedAt: Option<int>,
    attempt: int, maxRetry: int, errors: seq<AttemptError>, uniqueKey: string, worker: string, pipeline: string)

  datatype InsertParams = InsertParams(
    queue: string, kind: string, priority: int, runAt: int, uniqueKey: string, maxRetry: int, pipeline: string)

  datatype SetStateParams = SetStateParams(
    id: string, state: JobState, err: Option<string>, retryAt: int,
    expectedWorker: string, expectedAttempt: int, isYield: bool)

  const PERMANENT_PREFIX: string := "uf2_"

  predicate IsPermanent(key: string) {
    PERMANENT_PREFIX <= key
  }

  predicate MatchesClaim(p: SetStateParams, worker: string, attempt: int) {
    && (p.expectedWorker == "" || p.expectedWorker == worker)
    && (p.expectedAttempt <= 0 || p.expectedAttempt == attempt)
  }

  // ---- row transitions ----

  function NewRow(id: string, p: InsertParams, now: int): Row {
    var runAt := if p.runAt == ZERO_TIME then now else p.runAt;
    Row(id, p.queue, p.kind, if runAt > now then Scheduled else Available, p.priority, runAt, now,
        None, None, None, None, 0, p.maxRetry, [], p.uniqueKey, "", p.pipeline)
  }

  /** Scheduled jobs whose time has come are made available by the next fetch. */
  function Promoted(r: Row, now: int): Row {
    if r.state.Scheduled? && r.runAt <= now then r.(state := Available) else r
  }

  predicate Claimable(r: Row, now: int) {
    (r.state.Available? || r.state.Scheduled?) && r.runAt <= now
  }

  function Claimed(r: Row, worker: string, lease: int, now: int): Row {
    r.(state := Running, attemptedAt := Some(now), startedAt := None,
       leaseExpiresAt := if lease > 0 then Some(now + lease) else None,
       attempt := r.attempt + 1, worker := worker)
  }

  predicate Expired(r: Row, at: int, before: int) {
    && r.state.Running?
    && if r.leaseExpiresAt.Some? then at != ZERO_TIME && r.leaseExpiresAt.value <= at
       else r.attemptedAt.Some? && r.attemptedAt.value <= before
  }

  function Rescued(r: Row): Row {
    r.(state := Available, attemptedAt := None, leaseExpiresAt := None, worker := "")
  }

  predicate HoldsClaim(r: Row, worker: string, attempt: int) {
    r.state.Running? && r.worker == worker && r.attempt == attempt
  }

  function Yielded(r: Row): Row {
    r.(state := Available, attempt := r.attempt - 1, attemptedAt := None, leaseExpiresAt := None, worker := "")
  }

  function Finished(r: Row, p: SetStateParams, now: int): Row {
    var errors := if p.err.Some? then r.errors + [AttemptError(now, r.attempt, p.err.value)] else r.errors;
    var retried := p.state.Retryable? && p.retryAt != ZERO_TIME;
    r.(state := if retried then Available else p.state,
       worker := "", leaseExpiresAt := None, errors := errors,
       runAt := if retried then p.retryAt else r.runAt,
       finalizedAt := if Terminal(p.state) then Some(now) else r.finalizedAt)
  }

  function Written(r: Row, p: SetStateParams, now: int): Row {
    if p.isYield then Yielded(r) else Finished(r, p, now)
  }

  // ---- claim order ----

  /** priority DESC, run_at ASC, created_at ASC, id ASC */
  predicate Precedes(a: Row, b: Row) {
    if a.priority != b.priority then a.priority > b.priority
    else if a.runAt != b.runAt then a.runAt < b.runAt
    else if a.createdAt != b.createdAt then a.createdAt < b.createdAt
    else Less(a.id, b.id)
  }

  /** created_at DESC, id DESC */
  predicate ListedBefore(a: Row, b: Row) {
    if a.createdAt != b.createdAt then a.createdAt > b.createdAt else Less(b.id, a.id)
  }
}
