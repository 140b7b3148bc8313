/** The in-memory job store as a state machine: one event per critical section. */
module JobStore {
  import opened Prelude
  import opened Strings
  import opened Jobs

  datatype Store = Store(jobs: map<string, Row>, queues: map<string, bool>, sequence: nat)

  const EMPTY: Store := Store(map[], map[], 0)

  datatype Event =
    | Insert(params: InsertParams, now: int)
    | Fetch(queue: string, limit: int, worker: string, lease: int, now: int)
    | MarkStarted(id: string, worker: string, attempt: int, at: int)
    | Rescue(queue: string, at: int, before: int)
    | Heartbeat(id: string, worker: string, attempt: int, at: int, expiresAt: int)
    | SetState(write: SetStateParams, now: int)
    | Cancel(id: string, now: int)
    | Delete(id: string)
    | Reschedule(id: string, runAt: int)
    | Pause(queue: string)
    | Resume(queue: string)

  // ---- identifiers ----

  const ID_PREFIX: string := "mem_"

  function IdOf(k: nat): string {
    ID_PREFIX + Digits(k)
  }

  function IdNumber(id: string): int {
    if |id| < 4 then 0 else Value(id[4..])
  }

  /** The identifier has been handed out, whether or not the row still exists. */
  predicate Issued(s: Store, id: string) {
    1 <= IdNumber(id) <= s.sequence && IdOf(IdNumber(id)) == id
  }

  lemma IdRoundTrip(k: nat)
    ensures IdNumber(IdOf(k)) == k
  {
    assert IdOf(k)[4..] == Digits(k);
    DigitsRoundTrip(k);
  }

  // ---- unique keys ----

  predicate Reserves(r: Row, key: string) {
    r.uniqueKey == key && (IsPermanent(key) || !Terminal(r.state))
  }

  predicate KeyTaken(s: Store, key: string) {
    exists id :: id in s.jobs && Reserves(s.jobs[id], key)
  }

  // ---- fetching ----

  predicate Candidate(s: Store, queue: string, now: int, id: string) {
    id in s.jobs && s.jobs[id].queue == queue && Claimable(s.jobs[id], now)
  }

  function Ahead(s: Store, queue: string, now: int, id: string): set<string>
    requires id in s.jobs
  {
    set j | j in s.jobs && Candidate(s, queue, now, j) && Precedes(s.jobs[j], s.jobs[id])
  }

  /** A candidate is claimed when fewer than `limit` candidates precede it; a limit that
      is not positive claims all of them. */
  predicate Chosen(s: Store, queue: string, limit: int, now: int, id: string) {
    Candidate(s, queue, now, id) && (limit <= 0 || |Ahead(s, queue, now, id)| < limit)
  }

  function FetchedRow(s: Store, e: Event, id: string): Row
    requires e.Fetch? && id in s.jobs
  {
    var r := s.jobs[id];
    if r.queue != e.queue then r
    else if Chosen(s, e.queue, e.limit, e.now, id) then Claimed(r, e.worker, e.lease, e.now)
    else Promoted(r, e.now)
  }

  function RescuedRow(r: Row, e: Event): Row
    requires e.Rescue?
  {
    if r.queue == e.queue && Expired(r, e.at, e.before) then Rescued(r) else r
  }

  predicate Polls(s: Store, queue: string) {
    queue in s.queues && !s.queues[queue]
  }

  function EnsureQueue(queues: map<string, bool>, name: string): map<string, bool> {
    if name in queues then queues else queues[name := false]
  }

  // ---- the machine ----

  /** The write takes effect; a stale write changes nothing. */
  predicate Accepts(s: Store, p: SetStateParams) {
    p.id in s.jobs && s.jobs[p.id].state.Running? && MatchesClaim(p, s.jobs[p.id].worker, s.jobs[p.id].attempt)
  }

  predicate AcceptsToken(s: Store, id: string, worker: string, attempt: int) {
    id in s.jobs && HoldsClaim(s.jobs[id], worker, attempt)
  }

  function Inserted(s: Store, p: InsertParams, now: int): Store {
    if p.uniqueKey != "" && KeyTaken(s, p.uniqueKey) then s
    else
      var id := IdOf(s.sequence + 1);
      Store(s.jobs[id := NewRow(id, p, now)], EnsureQueue(s.queues, p.queue), s.sequence + 1)
  }

  function Apply(s: Store, e: Event): Store {
    match e
    case Insert(p, now) => Inserted(s, p, now)
    case Fetch(queue, limit, worker, lease, now) =>
      if !Polls(s, queue) then s
      else s.(jobs := map id | id in s.jobs :: FetchedRow(s, e, id))
    case MarkStarted(id, worker, attempt, at) =>
      if !AcceptsToken(s, id, worker, attempt) then s
      else s.(jobs := s.jobs[id := s.jobs[id].(startedAt := Some(at))])
    case Rescue(queue, at, before) =>
      s.(jobs := map id | id in s.jobs :: RescuedRow(s.jobs[id], e))
    case Heartbeat(id, worker, attempt, at, expiresAt) =>
      if !AcceptsToken(s, id, worker, attempt) then s
      else
        var deadline := if expiresAt == ZERO_TIME then at else expiresAt;
        s.(jobs := s.jobs[id := s.jobs[id].(leaseExpiresAt := Some(deadline))])
    case SetState(p, now) =>
      if !Accepts(s, p) then s else s.(jobs := s.jobs[p.id := Written(s.jobs[p.id], p, now)])
    case Cancel(id, now) =>
      if id in s.jobs && (s.jobs[id].state.Available? || s.jobs[id].state.Scheduled?) then
        s.(jobs := s.jobs[id := s.jobs[id].(state := Cancelled, finalizedAt := Some(now))])
      else s
    case Delete(id) => s.(jobs := s.jobs - {id})
    case Reschedule(id, runAt) =>
      if id in s.jobs then s.(jobs := s.jobs[id := s.jobs[id].(runAt := runAt, state := Scheduled)]) else s
    case Pause(queue) => s.(queues := s.queues[queue := true])
    case Resume(queue) => s.(queues := s.queues[queue := false])
  }

  function Run(s: Store, events: seq<Event>): Store {
    if |events| == 0 then s
    else Apply(Run(s, events[..|events| - 1]), events[|events| - 1])
  }

  lemma RunSnoc(s: Store, events: seq<Event>, e: Event)
    ensures Run(s, events + [e]) == Apply(Run(s, events), e)
  {
    assert (events + [e])[..|events|] == events;
  }

  // ---- one row at a time ----

  /** How an event may change a row that it leaves in the store. */
  predicate Moves(e: Event, r: Row, q: Row) {
    || q == r
    || match e
       case Fetch(queue, _, worker, lease, now) =>
         (Claimable(r, now) && q == Claimed(r, worker, lease, now)) || q == Promoted(r, now)
       case MarkStarted(id, worker, attempt, at) =>
         r.id == id && HoldsClaim(r, worker, attempt) && q == r.(startedAt := Some(at))
       case Rescue(queue, at, before) => Expired(r, at, before) && q == Rescued(r)
       case Heartbeat(id, worker, attempt, at, expiresAt) =>
         r.id == id && HoldsClaim(r, worker, attempt) &&
         q == r.(leaseExpiresAt := Some(if expiresAt == ZERO_TIME then at else expiresAt))
       case SetState(p, now) =>
         r.id == p.id && r.state.Running? && MatchesClaim(p, r.worker, r.attempt) && q == Written(r, p, now)
       case Cancel(id, now) =>
         && r.id == id && (r.state.Available? || r.state.Scheduled?)
         && q == r.(state := Cancelled, finalizedAt := Some(now))
       case Reschedule(id, runAt) => r.id == id && q == r.(runAt := runAt, state := Scheduled)
       case _ => false
  }

  ghost predicate IdsAgree(s: Store) {
    forall id :: id in s.jobs ==> s.jobs[id].id == id
  }

  /** Every event moves the rows it keeps, drops at most the deleted one, and adds at
      most one row, under the next identifier. */
  ghost predicate Transition(s: Store, e: Event, t: Store) {
    && (forall id :: id in s.jobs && id in t.jobs ==> Moves(e, s.jobs[id], t.jobs[id]))
    && (forall id :: id in s.jobs && id !in t.jobs ==> e == Delete(id))
    && (forall id :: id in t.jobs && id !in s.jobs ==> e.Insert? && id == IdOf(s.sequence + 1))
    && s.sequence <= t.sequence
    && (t.jobs.Keys <= s.jobs.Keys ||
        (e.Insert? && t.sequence == s.sequence + 1 && !(e.params.uniqueKey != "" && KeyTaken(s, e.params.uniqueKey)) &&
         t.jobs == s.jobs[IdOf(t.sequence) := NewRow(IdOf(t.sequence), e.params, e.now)]))
  }

  lemma ApplyIsTransition(s: Store, e: Event)
    requires IdsAgree(s) && IdOf(s.sequence + 1) !in s.jobs
    ensures Transition(s, e, Apply(s, e))
  {
    if e.Fetch? || e.Rescue? {
      SweepIsTransition(s, e);
    }
  }

  /** Fetching and rescuing go over all rows. */
  lemma SweepIsTransition(s: Store, e: Event)
    requires e.Fetch? || e.Rescue?
    ensures Transition(s, e, Apply(s, e))
  {
    var t := Apply(s, e);
    assert t.jobs.Keys == s.jobs.Keys;
    forall id | id in s.jobs && id in t.jobs ensures Moves(e, s.jobs[id], t.jobs[id]) {
    }
  }

  // ---- well-formed stores ----

  predicate ValidRow(r: Row) {
    r.attempt >= if r.state.Running? then 1 else 0
  }

  ghost predicate Valid(s: Store) {
    && IdsAgree(s)
    && (forall id :: id in s.jobs ==> Issued(s, id))
    && (forall id :: id in s.jobs ==> ValidRow(s.jobs[id]))
  }

  lemma NextIdIsFresh(s: Store)
    requires Valid(s)
    ensures IdOf(s.sequence + 1) !in s.jobs && !Issued(s, IdOf(s.sequence + 1))
  {
    IdRoundTrip(s.sequence + 1);
  }

  lemma MovesKeepsValidRow(e: Event, r: Row, q: Row)
    requires Moves(e, r, q) && ValidRow(r)
    ensures ValidRow(q) && q.id == r.id
    ensures q.uniqueKey == r.uniqueKey && q.kind == r.kind && q.queue == r.queue && q.maxRetry == r.maxRetry
    ensures q.priority == r.priority && q.pipeline == r.pipeline
  {
  }

  /** Events are transitions of valid stores and keep them valid. */
  lemma ApplyValid(s: Store, e: Event)
    requires Valid(s)
    ensures Valid(Apply(s, e)) && Transition(s, e, Apply(s, e))
  {
    NextIdIsFresh(s);
    IdRoundTrip(s.sequence + 1);
    ApplyIsTransition(s, e);
    var t := Apply(s, e);
    forall id | id in t.jobs ensures t.jobs[id].id == id && Issued(t, id) && ValidRow(t.jobs[id]) {
      if id in s.jobs {
        MovesKeepsValidRow(e, s.jobs[id], t.jobs[id]);
      }
    }
  }

  lemma {:induction false} RunValid(s: Store, events: seq<Event>)
    requires Valid(s)
    ensures Valid(Run(s, events))
  {
    if |events| > 0 {
      RunValid(s, events[..|events| - 1]);
      ApplyValid(Run(s, events[..|events| - 1]), events[|events| - 1]);
    }
  }
}
