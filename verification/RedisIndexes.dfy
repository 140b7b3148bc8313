/** The sorted sets, the running hash and the creation index agree with the documents. */
module RedisIndexes {
  import opened Prelude
  import opened Jobs
  import opened RedisStore

  predicate Ready(d: Row) {
    d.state.Available? || d.state.Scheduled?
  }

  /** A ready job is in exactly one sorted set, under the right score; a running job is in
      the running hash, with its deadline, and in neither set; a finished job is in none. */
  predicate Placed(s: Redis, d: Row) {
    var m := MemberOf(d);
    if Ready(d) then
      && (m in s.avail <==> m !in s.sched) && m !in s.run
      && (m in s.avail ==> s.avail[m] == Score(d))
      && (m in s.sched ==> s.sched[m] == d.runAt)
    else if d.state.Running? then
      && m !in s.avail && m !in s.sched && m in s.run
      && (d.leaseExpiresAt.Some? ==> s.run[m] == d.leaseExpiresAt.value)
      && (d.leaseExpiresAt.None? ==> d.attemptedAt == Some(s.run[m]))
    else Terminal(d.state) && m !in s.avail && m !in s.sched && m !in s.run
  }

  predicate Owned(s: Redis, m: Member) {
    m.id in s.docs && s.docs[m.id].queue == m.queue
  }

  /** No index holds an entry without its document. */
  ghost predicate NoOrphans(s: Redis) {
    && (forall m :: m in s.avail ==> Owned(s, m))
    && (forall m :: m in s.sched ==> Owned(s, m))
    && (forall m :: m in s.run ==> Owned(s, m))
    && s.created.Keys == s.docs.Keys
  }

  ghost predicate DocsPlaced(s: Redis) {
    forall id :: id in s.docs ==>
      && s.docs[id].id == id && id in s.created && s.created[id] == s.docs[id].createdAt
      && Placed(s, s.docs[id])
  }

  ghost predicate Agree(s: Redis) {
    NoOrphans(s) && DocsPlaced(s)
  }

  /** A worker writes a yield, a retry or a final state. */
  predicate WorkerWrite(p: SetStateParams) {
    p.isYield || p.state.Retryable? || Terminal(p.state)
  }

  predicate Allowed(s: Redis, e: Event) {
    match e
    case Write(p, _) => Writes(s, p) ==> WorkerWrite(p)
    case RescheduleJob(id, _) => id in s.docs ==> !s.docs[id].state.Running?
    case _ => true
  }

  // ---- steps that touch one job ----

  ghost predicate SameExcept<K(!new), V>(a: map<K, V>, b: map<K, V>, k: K) {
    forall x :: x != k ==> (x in a <==> x in b) && (x in a ==> a[x] == b[x])
  }

  /** `t` differs from `s` at most in the document of `m` and in the entries for `m`. */
  ghost predicate Local(s: Redis, t: Redis, m: Member) {
    && SameExcept(s.docs, t.docs, m.id) && SameExcept(s.created, t.created, m.id)
    && SameExcept(s.avail, t.avail, m) && SameExcept(s.sched, t.sched, m) && SameExcept(s.run, t.run, m)
  }

  /** The job of `m` is stored and placed, or is in no index. */
  predicate Settled(t: Redis, m: Member) {
    if m.id in t.docs then
      var d := t.docs[m.id];
      MemberOf(d) == m && m.id in t.created && t.created[m.id] == d.createdAt && Placed(t, d)
    else m !in t.avail && m !in t.sched && m !in t.run && m.id !in t.created
  }

  lemma LocalKeepsDocs(s: Redis, t: Redis, m: Member)
    requires Agree(s) && Local(s, t, m) && Settled(t, m)
    ensures t.created.Keys == t.docs.Keys && DocsPlaced(t)
  {
    forall id | id in t.docs && id != m.id
      ensures t.docs[id].id == id && id in t.created && t.created[id] == t.docs[id].createdAt && Placed(t, t.docs[id])
    {
    }
  }

  lemma LocalKeepsEntry(s: Redis, t: Redis, m: Member, x: Member)
    requires Agree(s) && Local(s, t, m) && Settled(t, m)
    requires m.id in s.docs ==> s.docs[m.id].queue == m.queue
    requires x in t.avail || x in t.sched || x in t.run
    ensures Owned(t, x)
  {
    if x != m {
      assert Owned(s, x);
    }
  }

  /** A step on one job keeps agreement if that job ends up settled. */
  lemma LocalKeepsAgree(s: Redis, t: Redis, m: Member)
    requires Agree(s) && Local(s, t, m) && Settled(t, m)
    requires m.id in s.docs ==> s.docs[m.id].queue == m.queue
    ensures Agree(t)
  {
    LocalKeepsDocs(s, t, m);
    forall x | x in t.avail || x in t.sched || x in t.run ensures Owned(t, x) {
      LocalKeepsEntry(s, t, m, x);
    }
  }

  lemma InsertKeeps(s: Redis, id: string, p: InsertParams, now: int)
    requires Agree(s) && id !in s.docs
    ensures Agree(Insert(s, id, p, now))
  {
    var m := Member(p.queue, id);
    assert !Owned(s, m);
    InsertSettles(s, id, p, now, NewDoc(id, p, now));
    LocalKeepsAgree(s, Insert(s, id, p, now), m);
  }

  lemma InsertSettles(s: Redis, id: string, p: InsertParams, now: int, d: Row)
    requires d == NewDoc(id, p, now) && id !in s.docs && id !in s.created
    requires var m := MemberOf(d); m !in s.avail && m !in s.sched && m !in s.run
    ensures Local(s, Insert(s, id, p, now), MemberOf(d)) && Settled(Insert(s, id, p, now), MemberOf(d))
  {
  }

  lemma ClaimKeeps(s: Redis, m: Member, worker: string, lease: int, now: int)
    requires Agree(s) && m in s.avail
    ensures Agree(Claim(s, m, worker, lease, now))
  {
    assert Owned(s, m);
    LocalKeepsAgree(s, Claim(s, m, worker, lease, now), m);
  }

  lemma RescueKeeps(s: Redis, m: Member, at: int, before: int)
    requires Agree(s) && (m.id in s.docs ==> s.docs[m.id].queue == m.queue)
    ensures Agree(Rescue(s, m, at, before))
  {
    var t := Rescue(s, m, at, before);
    if m.id in s.docs && s.docs[m.id].state.Running? {
      assert Placed(s, s.docs[m.id]);
      RescueIsLocal(s, m, at, before);
      RescueSettles(s, m, at, before);
      LocalKeepsAgree(s, t, m);
    } else {
      forall x | x in s.run ensures x != m {
        RunningOnly(s, x);
      }
      assert t.run == s.run;
    }
  }

  lemma RunningOnly(s: Redis, m: Member)
    requires Agree(s) && m in s.run
    ensures m.id in s.docs && s.docs[m.id].state.Running?
  {
    assert Owned(s, m);
    assert Placed(s, s.docs[m.id]);
  }

  lemma RescueIsLocal(s: Redis, m: Member, at: int, before: int)
    ensures Local(s, Rescue(s, m, at, before), m)
  {
  }

  lemma RescueSettles(s: Redis, m: Member, at: int, before: int)
    requires Settled(s, m) && m.id in s.docs && s.docs[m.id].state.Running?
    ensures Settled(Rescue(s, m, at, before), m)
  {
  }

  lemma HeartbeatKeeps(s: Redis, id: string, worker: string, attempt: int, lease: int)
    requires Agree(s)
    ensures Agree(Heartbeat(s, id, worker, attempt, lease))
  {
    if id in s.docs {
      LocalKeepsAgree(s, Heartbeat(s, id, worker, attempt, lease), MemberOf(s.docs[id]));
    }
  }

  lemma MarkStartedKeeps(s: Redis, id: string, worker: string, attempt: int, at: int)
    requires Agree(s)
    ensures Agree(MarkStarted(s, id, worker, attempt, at))
  {
    if id in s.docs {
      LocalKeepsAgree(s, MarkStarted(s, id, worker, attempt, at), MemberOf(s.docs[id]));
    }
  }

  lemma CancelKeeps(s: Redis, id: string, now: int)
    requires Agree(s)
    ensures Agree(Cancel(s, id, now))
  {
    if id in s.docs {
      LocalKeepsAgree(s, Cancel(s, id, now), MemberOf(s.docs[id]));
    }
  }

  lemma DeleteKeeps(s: Redis, id: string)
    requires Agree(s)
    ensures Agree(Delete(s, id))
  {
    if id in s.docs {
      DeleteIsLocal(s, id, s.docs[id]);
      LocalKeepsAgree(s, Delete(s, id), MemberOf(s.docs[id]));
    }
  }

  lemma DeleteIsLocal(s: Redis, id: string, d: Row)
    requires id in s.docs && s.docs[id] == d && d.id == id
    ensures Local(s, Delete(s, id), MemberOf(d)) && Settled(Delete(s, id), MemberOf(d))
  {
  }

  /** A state write keeps the indexes right exactly when it is refused or is one that
      workers make. */
  lemma SetStateKeepsIff(s: Redis, p: SetStateParams, now: int)
    requires Agree(s)
    ensures Agree(SetState(s, p, now)) <==> !Writes(s, p) || WorkerWrite(p)
  {
    if Writes(s, p) {
      if WorkerWrite(p) {
        WritePlaces(s, p, now);
      } else {
        OtherWriteMisplaces(s, p, now);
      }
    }
  }

  lemma WrittenIdentity(d: Row, p: SetStateParams, now: int)
    ensures var w := WrittenDoc(d, p, now);
      MemberOf(w) == MemberOf(d) && w.createdAt == d.createdAt && w.uniqueKey == d.uniqueKey
    ensures (WrittenDoc(d, p, now).state ==
      if p.isYield || p.state.Retryable? then Available else p.state)
  {
  }

  lemma PipelineIsLocal(s: Redis, p: SetStateParams, d: Row, now: int)
    requires d.id == p.id
    ensures Local(s, WritePipeline(s, p, d, now), MemberOf(d))
  {
  }

  lemma PipelineSettles(s: Redis, p: SetStateParams, d: Row, now: int)
    requires d.id == p.id && p.id in s.created && s.created[p.id] == d.createdAt
    requires MemberOf(d) !in s.avail && MemberOf(d) !in s.sched
    requires if p.isYield || p.state.Retryable? then d.state.Available? else Terminal(d.state)
    ensures Settled(WritePipeline(s, p, d, now), MemberOf(d))
  {
  }

  lemma WritePlaces(s: Redis, p: SetStateParams, now: int)
    requires Agree(s) && Writes(s, p) && WorkerWrite(p)
    ensures Agree(SetState(s, p, now))
  {
    var d := s.docs[p.id];
    assert Placed(s, d);
    WrittenIdentity(d, p, now);
    var w := WrittenDoc(d, p, now);
    PipelineIsLocal(s, p, w, now);
    PipelineSettles(s, p, w, now);
    LocalKeepsAgree(s, WritePipeline(s, p, w, now), MemberOf(w));
  }

  lemma OtherWriteMisplaces(s: Redis, p: SetStateParams, now: int)
    requires Agree(s) && Writes(s, p) && !WorkerWrite(p)
    ensures var t := SetState(s, p, now); p.id in t.docs && !Placed(t, t.docs[p.id])
  {
    var d := s.docs[p.id];
    assert Placed(s, d);
    var w := WrittenDoc(d, p, now);
    assert MemberOf(w) == MemberOf(d) && w.state == p.state;
  }

  /** Rescheduling keeps the indexes right exactly when the job is not running: a running
      job stays in the running hash. */
  lemma RescheduleKeepsIff(s: Redis, id: string, runAt: int)
    requires Agree(s)
    ensures Agree(Reschedule(s, id, runAt)) <==> !(id in s.docs && s.docs[id].state.Running?)
  {
    if id in s.docs {
      var t := Reschedule(s, id, runAt);
      var m := MemberOf(s.docs[id]);
      if s.docs[id].state.Running? {
        assert m in t.run && MemberOf(t.docs[id]) == m && Ready(t.docs[id]);
        assert !Placed(t, t.docs[id]);
      } else {
        LocalKeepsAgree(s, t, m);
      }
    }
  }

  // ---- promotion ----

  lemma MovedKeepsDocs(s: Redis, moving: set<Member>)
    requires Agree(s) && forall m :: m in moving ==> m in s.sched
    ensures DocsPlaced(Moved(s, moving))
  {
    var t := Moved(s, moving);
    forall id | id in t.docs
      ensures t.docs[id].id == id && id in t.created && t.created[id] == t.docs[id].createdAt && Placed(t, t.docs[id])
    {
      var d := s.docs[id];
      assert Placed(s, d);
      var m := MemberOf(d);
      assert m in t.avail <==> m in s.avail || m in moving;
      assert m in t.sched <==> m in s.sched && m !in moving;
    }
  }

  lemma PromoteKeeps(s: Redis, queue: string, now: int)
    requires Agree(s)
    ensures Agree(Promote(s, queue, now))
  {
    var moving := ToPromote(s, queue, now);
    MovedKeepsDocs(s, moving);
    forall m | m in moving ensures Owned(s, m) {
      assert m in s.sched;
    }
  }

  lemma FetchKeeps(s: Redis, queue: string, worker: string, lease: int, now: int)
    requires Agree(s)
    ensures Agree(Fetch(s, queue, worker, lease, now))
  {
    PromoteKeeps(s, queue, now);
    var t := Promote(s, queue, now);
    var first := First(t.avail, queue);
    if first.Some? {
      assert IsFirst(t.avail, queue, first.value);
      ClaimKeeps(t, first.value, worker, lease, now);
    }
  }

  // ---- whole runs ----

  lemma ApplyKeeps(s: Redis, e: Event)
    requires Agree(s)
    ensures Agree(Apply(s, e)) <==> Allowed(s, e)
  {
    match e
    case InsertJob(id, params, now) => if id !in s.docs { InsertKeeps(s, id, params, now); }
    case FetchOne(queue, worker, lease, now) => FetchKeeps(s, queue, worker, Milliseconds(lease), UnixMilli(now));
    case RescueOne(queue, id, at, before) =>
      if id in s.docs ==> s.docs[id].queue == queue {
        RescueKeeps(s, Member(queue, id), UnixMilli(at), UnixMilli(before));
      }
    case Beat(id, worker, attempt, at, until) =>
      HeartbeatKeeps(s, id, worker, attempt, UnixMilli(if until == ZERO_TIME then at else until));
    case Start(id, worker, attempt, at) => MarkStartedKeeps(s, id, worker, attempt, UnixMilli(at));
    case Write(p, now) => SetStateKeepsIff(s, p, now);
    case CancelJob(id, now) => CancelKeeps(s, id, now);
    case DeleteJob(id) => DeleteKeeps(s, id);
    case RescheduleJob(id, runAt) => RescheduleKeepsIff(s, id, runAt);
  }

  ghost predicate AllAllowed(events: seq<Event>) {
    forall k :: 0 <= k < |events| ==> Allowed(Run(events[..k]), events[k])
  }

  /** In every run whose state writes are those of workers and which reschedules no running
      job, the indexes agree with the documents. */
  lemma {:induction false} IndexesAgree(events: seq<Event>)
    requires AllAllowed(events)
    ensures Agree(Run(events))
  {
    if events != [] {
      var n := |events| - 1;
      var init := events[..n];
      assert forall k :: 0 <= k < n ==> init[..k] == events[..k] && init[k] == events[k];
      IndexesAgree(init);
      ApplyKeeps(Run(init), events[n]);
    }
  }

  /** The deadline of a running document has passed. */
  predicate Overdue(d: Row, at: int, before: int) {
    if d.leaseExpiresAt.Some? then d.leaseExpiresAt.value <= at
    else d.attemptedAt.Some? && d.attemptedAt.value <= before
  }

  /** The running hash decides a rescue as the deadline in the document would, which is the
      lease rule of the memory store but for its exception at the zero instant. */
  lemma RescueFollowsLease(s: Redis, id: string, at: int, before: int)
    requires Agree(s) && id in s.docs && s.docs[id].state.Running?
    ensures var d := s.docs[id]; var m := MemberOf(d);
      Rescue(s, m, at, before) == if Overdue(d, at, before) then
        s.(docs := s.docs[id := Released(d)], run := s.run - {m}, avail := s.avail[m := Score(d)])
      else s
    ensures var d := s.docs[id];
      Expired(d, at, before) <==> Overdue(d, at, before) && !(d.leaseExpiresAt.Some? && at == ZERO_TIME)
  {
    assert Placed(s, s.docs[id]);
  }
}
