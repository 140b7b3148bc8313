/** The documents move as the rows of the memory store do, seen in milliseconds. The two
    stores differ in that Redis forgets the start mark with the claim, and that it retries
    at once where a retry names no instant. */
module RedisRefinement {
  import opened Prelude
  import opened Jobs
  import opened RedisStore
  import opened RedisIndexes

  function MilliOption(t: Option<int>): Option<int> {
    match t
    case None => None
    case Some(v) => Some(UnixMilli(v))
  }

  function MilliErrors(errors: seq<AttemptError>): seq<AttemptError> {
    seq(|errors|, i requires 0 <= i < |errors| => errors[i].(at := UnixMilli(errors[i].at)))
  }

  /** A row with every instant in Unix milliseconds. */
  function InMillis(r: Row): Row {
    r.(runAt := UnixMilli(r.runAt), createdAt := UnixMilli(r.createdAt),
       attemptedAt := MilliOption(r.attemptedAt), startedAt := MilliOption(r.startedAt),
       leaseExpiresAt := MilliOption(r.leaseExpiresAt), finalizedAt := MilliOption(r.finalizedAt),
       errors := MilliErrors(r.errors))
  }

  function Unstarted(r: Row): Row {
    r.(startedAt := None)
  }

  lemma InsertRefines(id: string, p: InsertParams, now: int)
    ensures NewDoc(id, p, now) == InMillis(NewRow(id, p, now))
  {
    assert MilliErrors([]) == [];
  }

  /** A lease ends at the same millisecond, if it has one at all, exactly when it is at least
      a millisecond long and its fraction does not carry over the fraction of the clock. */
  lemma ClaimRefinesIff(r: Row, worker: string, lease: int, now: int)
    ensures var claimed := Claimed(InMillis(r), worker, Milliseconds(lease), UnixMilli(now));
      claimed == InMillis(Claimed(r, worker, lease, now)) <==>
      lease <= 0 || (lease >= MILLISECOND && Fraction(now) + lease % MILLISECOND < MILLISECOND)
  {
    var n, f := lease / MILLISECOND, Fraction(now) + lease % MILLISECOND;
    assert now + lease - UNIX_EPOCH == (UnixMilli(now) + n) * MILLISECOND + f;
  }

  /** The part of an instant below the millisecond. */
  function Fraction(t: int): int {
    (t - UNIX_EPOCH) % MILLISECOND
  }

  lemma ReleaseRefines(r: Row)
    ensures Released(InMillis(r)) == Unstarted(InMillis(Rescued(r)))
  {
  }

  lemma ErrorsAppend(errors: seq<AttemptError>, e: AttemptError)
    ensures MilliErrors(errors + [e]) == MilliErrors(errors) + [e.(at := UnixMilli(e.at))]
  {
  }

  /** A yield, a retry at a given instant or a final state leaves the document that the
      memory store's row would give. */
  lemma WriteRefines(r: Row, p: SetStateParams, now: int)
    requires WorkerWrite(p) && (!p.isYield && p.state.Retryable? ==> p.retryAt != ZERO_TIME)
    ensures var w := InMillis(Written(r, p, now));
      WrittenDoc(InMillis(r), p, now) == Encoded(if p.isYield then Unstarted(w) else w)
  {
    if p.err.Some? {
      ErrorsAppend(r.errors, AttemptError(now, r.attempt, p.err.value));
    }
  }

  /** A retry without an instant: Redis makes the job available now, the memory store leaves
      it in the retryable state, which no fetch takes. */
  lemma UndatedRetryDiffers(r: Row, p: SetStateParams, now: int)
    requires !p.isYield && p.state.Retryable? && p.retryAt == ZERO_TIME
    ensures WrittenDoc(InMillis(r), p, now).state.Available? && WrittenDoc(InMillis(r), p, now).runAt == UnixMilli(now)
    ensures Written(r, p, now).state.Retryable? && forall t :: !Claimable(Written(r, p, now), t)
  {
  }
}
