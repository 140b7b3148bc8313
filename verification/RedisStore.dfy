/** The Redis layout of a job store: one document per job, and per queue a sorted set of
    available jobs, a sorted set of scheduled jobs and a hash of running jobs; beside them
    the unique reservations and the index by creation time. Each script, and each
    optimistic transaction, is one step. A document is a row whose instants are Unix
    milliseconds. */
module RedisStore {
  import opened Prelude
  import opened Strings
  import opened Jobs

  datatype Member = Member(queue: string, id: string)

  datatype Redis = Redis(docs: map<string, Row>, avail: map<Member, int>, sched: map<Member, int>,
                         run: map<Member, int>, uniq: map<string, string>, created: map<string, int>)

  const EMPTY: Redis := Redis(map[], map[], map[], map[], map[], map[])

  const PRIORITY_STEP: int := 1_000_000_000_000

  const PROMOTION_LIMIT: nat := 1024

  function UnixMilli(t: int): int {
    (t - UNIX_EPOCH) / MILLISECOND
  }

  function FromMilli(ms: int): int {
    UNIX_EPOCH + ms * MILLISECOND
  }

  /** Whole milliseconds of a duration, truncated toward zero. */
  function Milliseconds(d: int): int {
    if d >= 0 then d / MILLISECOND else -(-d / MILLISECOND)
  }

  /** A millisecond count names the millisecond that the instant lies in, counted from the
      first instant of 1970, and a duration keeps its whole milliseconds. */
  lemma MillisecondsAreRight(t: int, d: int)
    ensures FromMilli(UnixMilli(t)) <= t < FromMilli(UnixMilli(t) + 1)
    ensures UnixMilli(UNIX_EPOCH) == 0 && UnixMilli(UNIX_EPOCH + 1_000_000) == 1
    ensures d >= 0 ==> Milliseconds(d) * 1_000_000 <= d < (Milliseconds(d) + 1) * 1_000_000
    ensures Milliseconds(-d) == -Milliseconds(d)
  {
  }

  function PriorityScore(priority: int, runAt: int): int {
    runAt - priority * PRIORITY_STEP
  }

  function Score(d: Row): int {
    PriorityScore(d.priority, d.runAt)
  }

  function MemberOf(d: Row): Member {
    Member(d.queue, d.id)
  }

  function DropZero(t: Option<int>): Option<int> {
    if t == Some(0) then None else t
  }

  /** Encoding a document from its Go form omits a zero instant. */
  function Encoded(d: Row): Row {
    d.(attemptedAt := DropZero(d.attemptedAt), startedAt := DropZero(d.startedAt),
       leaseExpiresAt := DropZero(d.leaseExpiresAt), finalizedAt := DropZero(d.finalizedAt))
  }

  // ---- insert ----

  function NewDoc(id: string, p: InsertParams, now: int): Row {
    var row := NewRow(id, p, now);
    row.(runAt := UnixMilli(row.runAt), createdAt := UnixMilli(row.createdAt))
  }

  function Insert(s: Redis, id: string, p: InsertParams, now: int): Redis {
    if p.uniqueKey != "" && p.uniqueKey in s.uniq then s
    else
      var d := NewDoc(id, p, now);
      s.(docs := s.docs[id := d],
         avail := if d.state.Scheduled? then s.avail else s.avail[MemberOf(d) := Score(d)],
         sched := if d.state.Scheduled? then s.sched[MemberOf(d) := d.runAt] else s.sched,
         uniq := if p.uniqueKey != "" then s.uniq[p.uniqueKey := id] else s.uniq,
         created := s.created[id := d.createdAt])
  }

  // ---- fetch ----

  /** Sorted-set order: by score, then by member. */
  predicate Before(z: map<Member, int>, a: Member, b: Member)
    requires a in z && b in z
  {
    z[a] < z[b] || (z[a] == z[b] && Less(a.id, b.id))
  }

  ghost function Due(z: map<Member, int>, queue: string, now: int): set<Member> {
    set m | m in z && m.queue == queue && z[m] <= now
  }

  ghost function Earlier(z: map<Member, int>, due: set<Member>, m: Member): set<Member>
    requires due <= z.Keys && m in z
  {
    set x | x in due && Before(z, x, m)
  }

  /** The due entries that one fetch promotes: the first ones in order, if their document
      exists. */
  ghost function ToPromote(s: Redis, queue: string, now: int): set<Member> {
    var due := Due(s.sched, queue, now);
    set m | m in due && |Earlier(s.sched, due, m)| < PROMOTION_LIMIT && m.id in s.docs
  }

  function ScoreIn(s: Redis, m: Member): int {
    if m.id in s.docs then Score(s.docs[m.id]) else 0
  }

  function Moved(s: Redis, moving: set<Member>): Redis {
    s.(sched := s.sched - moving,
       avail := map m | m in s.avail.Keys + moving :: if m in moving then ScoreIn(s, m) else s.avail[m])
  }

  ghost function Promote(s: Redis, queue: string, now: int): Redis {
    Moved(s, ToPromote(s, queue, now))
  }

  ghost predicate IsFirst(z: map<Member, int>, queue: string, m: Member) {
    m in z && m.queue == queue && forall x :: x in z && x.queue == queue && x != m ==> Before(z, m, x)
  }

  ghost function First(z: map<Member, int>, queue: string): Option<Member> {
    if exists m :: IsFirst(z, queue, m) then
      var m :| IsFirst(z, queue, m);
      Some(m)
    else None
  }

  /** Take one entry out of the available set and claim its document. */
  function Claim(s: Redis, m: Member, worker: string, lease: int, now: int): Redis {
    var popped := s.(avail := s.avail - {m});
    if m.id !in s.docs then popped
    else
      var d := Claimed(s.docs[m.id], worker, lease, now);
      popped.(docs := s.docs[m.id := d],
              run := s.run[m := if d.leaseExpiresAt.Some? then d.leaseExpiresAt.value else now])
  }

  ghost function Fetch(s: Redis, queue: string, worker: string, lease: int, now: int): Redis {
    var t := Promote(s, queue, now);
    match First(t.avail, queue)
    case None => t
    case Some(m) => Claim(t, m, worker, lease, now)
  }

  // ---- running jobs ----

  function Released(d: Row): Row {
    Rescued(d).(startedAt := None)
  }

  function Rescue(s: Redis, m: Member, at: int, before: int): Redis {
    if m.id !in s.docs || !s.docs[m.id].state.Running? then s.(run := s.run - {m})
    else
      var d := s.docs[m.id];
      var expired :=
        if d.leaseExpiresAt.Some? then d.leaseExpiresAt.value <= at else m in s.run && s.run[m] <= before;
      if !expired then s
      else s.(docs := s.docs[m.id := Released(d)], run := s.run - {m}, avail := s.avail[m := Score(d)])
  }

  function Heartbeat(s: Redis, id: string, worker: string, attempt: int, lease: int): Redis {
    if id !in s.docs || !HoldsClaim(s.docs[id], worker, attempt) then s
    else
      var d := s.docs[id].(leaseExpiresAt := Some(lease));
      s.(docs := s.docs[id := d], run := s.run[Member(d.queue, id) := lease])
  }

  function MarkStarted(s: Redis, id: string, worker: string, attempt: int, at: int): Redis {
    if id !in s.docs || !HoldsClaim(s.docs[id], worker, attempt) then s
    else s.(docs := s.docs[id := s.docs[id].(startedAt := Some(at))])
  }

  /** The document after a fenced state write; `now` and `retryAt` are instants. */
  function WrittenDoc(d: Row, p: SetStateParams, now: int): Row {
    if p.isYield then Encoded(Yielded(d).(startedAt := None))
    else
      var errors := if p.err.Some? then d.errors + [AttemptError(UnixMilli(now), d.attempt, p.err.value)] else d.errors;
      var e := d.(errors := errors, worker := "", leaseExpiresAt := None);
      if p.state.Retryable? then
        Encoded(e.(state := Available, runAt := UnixMilli(if p.retryAt == ZERO_TIME then now else p.retryAt)))
      else Encoded(e.(state := p.state, finalizedAt := Some(UnixMilli(now))))
  }

  predicate FreesKey(d: Row) {
    d.uniqueKey != "" && !IsPermanent(d.uniqueKey)
  }

  predicate Writes(s: Redis, p: SetStateParams) {
    && p.id in s.docs && s.docs[p.id].state.Running?
    && MatchesClaim(p, s.docs[p.id].worker, s.docs[p.id].attempt)
  }

  /** Store the updated document and move its entry. */
  function WritePipeline(s: Redis, p: SetStateParams, d: Row, now: int): Redis {
    var m := Member(d.queue, p.id);
    var waits := !p.isYield && p.state.Retryable? && FromMilli(d.runAt) > now;
    var ready := p.isYield || (p.state.Retryable? && !waits);
    Redis(s.docs[p.id := d],
          if ready then s.avail[m := Score(d)] else s.avail,
          if waits then s.sched[m := d.runAt] else s.sched,
          s.run - {m},
          if !waits && !ready && FreesKey(d) then s.uniq - {d.uniqueKey} else s.uniq,
          s.created)
  }

  function SetState(s: Redis, p: SetStateParams, now: int): Redis {
    if Writes(s, p) then WritePipeline(s, p, WrittenDoc(s.docs[p.id], p, now), now) else s
  }

  // ---- administration ----

  function Cancel(s: Redis, id: string, now: int): Redis {
    if id !in s.docs || !(s.docs[id].state.Available? || s.docs[id].state.Scheduled?) then s
    else
      var d := Encoded(s.docs[id].(state := Cancelled, finalizedAt := Some(UnixMilli(now))));
      var m := Member(d.queue, id);
      s.(docs := s.docs[id := d], avail := s.avail - {m}, sched := s.sched - {m},
         uniq := if FreesKey(d) then s.uniq - {d.uniqueKey} else s.uniq)
  }

  function Delete(s: Redis, id: string): Redis {
    if id !in s.docs then s
    else
      var d := s.docs[id];
      var m := Member(d.queue, id);
      Redis(s.docs - {id}, s.avail - {m}, s.sched - {m}, s.run - {m},
            if d.uniqueKey != "" then s.uniq - {d.uniqueKey} else s.uniq, s.created - {id})
  }

  /** `runAt` is an instant. No state check, as the running hash is left alone. */
  function Reschedule(s: Redis, id: string, runAt: int): Redis {
    if id !in s.docs then s
    else
      var d := Encoded(s.docs[id].(state := Scheduled, runAt := UnixMilli(runAt)));
      var m := Member(d.queue, id);
      s.(docs := s.docs[id := d], avail := s.avail - {m}, sched := s.sched[m := d.runAt])
  }

  // ---- runs ----

  datatype Event =
    | InsertJob(id: string, params: InsertParams, now: int)
    | FetchOne(queue: string, worker: string, lease: int, now: int)
    | RescueOne(queue: string, id: string, at: int, before: int)
    | Beat(id: string, worker: string, attempt: int, at: int, leaseUntil: int)
    | Start(id: string, worker: string, attempt: int, at: int)
    | Write(write: SetStateParams, now: int)
    | CancelJob(id: string, now: int)
    | DeleteJob(id: string)
    | RescheduleJob(id: string, runAt: int)

  /** Arguments are instants and durations; the scripts get milliseconds. Inserted IDs are
      random UUIDs, taken to be unused, and a rescue pass takes its IDs from the queue's
      own running hash. */
  ghost function Apply(s: Redis, e: Event): Redis {
    match e
    case InsertJob(id, params, now) => if id in s.docs then s else Insert(s, id, params, now)
    case FetchOne(queue, worker, lease, now) => Fetch(s, queue, worker, Milliseconds(lease), UnixMilli(now))
    case RescueOne(queue, id, at, before) =>
      if id in s.docs && s.docs[id].queue != queue then s
      else Rescue(s, Member(queue, id), UnixMilli(at), UnixMilli(before))
    case Beat(id, worker, attempt, at, until) =>
      Heartbeat(s, id, worker, attempt, UnixMilli(if until == ZERO_TIME then at else until))
    case Start(id, worker, attempt, at) => MarkStarted(s, id, worker, attempt, UnixMilli(at))
    case Write(p, now) => SetState(s, p, now)
    case CancelJob(id, now) => Cancel(s, id, now)
    case DeleteJob(id) => Delete(s, id)
    case RescheduleJob(id, runAt) => Reschedule(s, id, runAt)
  }

  ghost function Run(events: seq<Event>): Redis {
    if events == [] then EMPTY else Apply(Run(events[..|events| - 1]), events[|events| - 1])
  }

  lemma RunSnoc(events: seq<Event>, e: Event)
    ensures Run(events + [e]) == Apply(Run(events), e)
  {
    assert (events + [e])[..|events|] == events;
  }

  lemma RunOne(a: Event)
    ensures Run([a]) == Apply(EMPTY, a)
  {
    RunSnoc([], a);
    assert [] + [a] == [a];
  }

  lemma RunTwo(a: Event, b: Event)
    ensures Run([a, b]) == Apply(Apply(EMPTY, a), b)
  {
    RunOne(a);
    RunSnoc([a], b);
    assert [a] + [b] == [a, b];
  }

  lemma RunThree(a: Event, b: Event, c: Event)
    ensures Run([a, b, c]) == Apply(Apply(Apply(EMPTY, a), b), c)
  {
    RunTwo(a, b);
    RunSnoc([a, b], c);
    assert [a, b] + [c] == [a, b, c];
  }
}
