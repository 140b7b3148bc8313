/** A Redis run and the rows that the memory store's transitions give, side by side. The rows
    are moved by the memory store's own guards and updates; only the choice of the job in a
    fetch and the verdict on a deadline, both taken in milliseconds, are Redis's. */
module RedisSimulation {
  import opened Prelude
  import opened Jobs
  import opened RedisStore
  import opened RedisIndexes
  import opened RedisOrder
  import opened RedisRefinement

  type Rows = map<string, Row>

  predicate Accepts(rows: Rows, p: SetStateParams) {
    && p.id in rows && rows[p.id].state.Running?
    && MatchesClaim(p, rows[p.id].worker, rows[p.id].attempt)
  }

  predicate Held(rows: Rows, id: string, worker: string, attempt: int) {
    id in rows && HoldsClaim(rows[id], worker, attempt)
  }

  ghost predicate Rescues(s: Redis, id: string, at: int, before: int) {
    id in s.docs && s.docs[id].state.Running? && Overdue(s.docs[id], UnixMilli(at), UnixMilli(before))
  }

  /** The rows after an event of the Redis run in state `s`. */
  ghost function StepRows(s: Redis, rows: Rows, e: Event): Rows {
    match e
    case InsertJob(id, p, now) =>
      if id in rows || (p.uniqueKey != "" && p.uniqueKey in s.uniq) then rows else rows[id := NewRow(id, p, now)]
    case FetchOne(queue, worker, lease, now) =>
      (match Popped(s, queue, UnixMilli(now))
       case Some(m) => if m.id in rows then rows[m.id := Claimed(rows[m.id], worker, lease, now)] else rows
       case None => rows)
    case RescueOne(queue, id, at, before) =>
      if id in rows && rows[id].queue == queue && Rescues(s, id, at, before) then rows[id := Rescued(rows[id])]
      else rows
    case Beat(id, worker, attempt, at, until) =>
      if Held(rows, id, worker, attempt) then
        rows[id := rows[id].(leaseExpiresAt := Some(if until == ZERO_TIME then at else until))]
      else rows
    case Start(id, worker, attempt, at) =>
      if Held(rows, id, worker, attempt) then rows[id := rows[id].(startedAt := Some(at))] else rows
    case Write(p, now) => if Accepts(rows, p) then rows[p.id := Written(rows[p.id], p, now)] else rows
    case CancelJob(id, now) =>
      if id in rows && Ready(rows[id]) then rows[id := rows[id].(state := Cancelled, finalizedAt := Some(now))]
      else rows
    case DeleteJob(id) => rows - {id}
    case RescheduleJob(id, runAt) =>
      if id in rows then rows[id := rows[id].(runAt := runAt, state := Scheduled)] else rows
  }

  ghost function RunRows(events: seq<Event>): Rows {
    if |events| == 0 then map[]
    else
      var init := events[..|events| - 1];
      StepRows(Run(init), RunRows(init), events[|events| - 1])
  }

  // ---- the relation ----

  /** The document is the row in milliseconds. The start mark is left out: Redis forgets it
      with the claim. */
  predicate Mirrors(d: Row, r: Row) {
    Unstarted(d) == Unstarted(InMillis(r))
  }

  /** No instant of the document is the Unix epoch, which an encoded document omits. */
  predicate NoEpoch(d: Row) {
    d.attemptedAt != Some(0) && d.leaseExpiresAt != Some(0) && d.finalizedAt != Some(0)
  }

  predicate Related(d: Row, r: Row) {
    Mirrors(d, r) && NoEpoch(d)
  }

  ghost predicate Simulates(s: Redis, rows: Rows) {
    s.docs.Keys == rows.Keys && forall id :: id in rows ==> Related(s.docs[id], rows[id])
  }

  /** Leases that both stores round to the same millisecond, dated retries, worker writes, and
      no instant in the first millisecond of the Unix epoch. */
  predicate Plain(e: Event) {
    match e
    case FetchOne(_, _, lease, now) =>
      && UnixMilli(now) != 0 && UnixMilli(now) + Milliseconds(lease) != 0
      && (lease <= 0 || (lease >= MILLISECOND && Fraction(now) + lease % MILLISECOND < MILLISECOND))
    case Beat(_, _, _, at, until) => UnixMilli(if until == ZERO_TIME then at else until) != 0
    case Write(p, now) =>
      UnixMilli(now) != 0 && WorkerWrite(p) && (!p.isYield && p.state.Retryable? ==> p.retryAt != ZERO_TIME)
    case CancelJob(_, now) => UnixMilli(now) != 0
    case _ => true
  }

  // ---- row by row ----

  lemma ClaimRelates(d: Row, r: Row, worker: string, lease: int, now: int)
    requires Related(d, r) && Plain(FetchOne("", worker, lease, now))
    ensures Related(Claimed(d, worker, Milliseconds(lease), UnixMilli(now)), Claimed(r, worker, lease, now))
  {
    ClaimRefinesIff(r, worker, lease, now);
    var q := Claimed(d, worker, Milliseconds(lease), UnixMilli(now));
    assert q == Claimed(InMillis(r), worker, Milliseconds(lease), UnixMilli(now));
  }

  lemma ReleaseRelates(d: Row, r: Row)
    requires Related(d, r)
    ensures Related(Released(d), Rescued(r))
  {
    ReleaseRefines(r);
  }

  lemma EncodedIsItself(d: Row)
    requires NoEpoch(d)
    ensures Unstarted(Encoded(d)) == Unstarted(d) && NoEpoch(Encoded(d))
  {
  }

  lemma WrittenUnstarted(d: Row, e: Row, p: SetStateParams, now: int)
    requires Unstarted(d) == Unstarted(e)
    ensures Unstarted(WrittenDoc(d, p, now)) == Unstarted(WrittenDoc(e, p, now))
  {
  }

  lemma WriteRelates(d: Row, r: Row, p: SetStateParams, now: int)
    requires Related(d, r) && Plain(Write(p, now))
    ensures Related(WrittenDoc(d, p, now), Written(r, p, now))
  {
    WrittenUnstarted(d, InMillis(r), p, now);
    WriteRefines(r, p, now);
    var w := InMillis(Written(r, p, now));
    assert NoEpoch(w);
    EncodedIsItself(if p.isYield then Unstarted(w) else w);
  }

  lemma CancelRelates(d: Row, r: Row, now: int)
    requires Related(d, r) && UnixMilli(now) != 0
    ensures Related(Encoded(d.(state := Cancelled, finalizedAt := Some(UnixMilli(now)))),
                    r.(state := Cancelled, finalizedAt := Some(now)))
  {
    EncodedIsItself(d.(state := Cancelled, finalizedAt := Some(UnixMilli(now))));
  }

  lemma RescheduleRelates(d: Row, r: Row, runAt: int)
    requires Related(d, r)
    ensures Related(Encoded(d.(state := Scheduled, runAt := UnixMilli(runAt))), r.(runAt := runAt, state := Scheduled))
  {
    EncodedIsItself(d.(state := Scheduled, runAt := UnixMilli(runAt)));
  }

  // ---- store by store ----

  lemma UpdateSimulates(s: Redis, rows: Rows, t: Redis, id: string, d: Row, r: Row)
    requires Simulates(s, rows) && t.docs == s.docs[id := d] && Related(d, r)
    ensures Simulates(t, rows[id := r])
  {
  }

  lemma SameSimulates(s: Redis, rows: Rows, t: Redis)
    requires Simulates(s, rows) && t.docs == s.docs
    ensures Simulates(t, rows)
  {
  }

  lemma InsertSimulates(s: Redis, rows: Rows, id: string, p: InsertParams, now: int)
    requires Simulates(s, rows)
    ensures Simulates(Apply(s, InsertJob(id, p, now)), StepRows(s, rows, InsertJob(id, p, now)))
  {
    var t := Apply(s, InsertJob(id, p, now));
    if id in rows || (p.uniqueKey != "" && p.uniqueKey in s.uniq) {
      SameSimulates(s, rows, t);
    } else {
      InsertRefines(id, p, now);
      UpdateSimulates(s, rows, t, id, NewDoc(id, p, now), NewRow(id, p, now));
    }
  }

  lemma FetchSimulates(s: Redis, rows: Rows, queue: string, worker: string, lease: int, now: int)
    requires Simulates(s, rows) && Plain(FetchOne(queue, worker, lease, now))
    ensures var e := FetchOne(queue, worker, lease, now); Simulates(Apply(s, e), StepRows(s, rows, e))
  {
    var e := FetchOne(queue, worker, lease, now);
    var t := Apply(s, e);
    var popped := Popped(s, queue, UnixMilli(now));
    if popped.Some? && popped.value.id in rows {
      var id := popped.value.id;
      ClaimRelates(s.docs[id], rows[id], worker, lease, now);
      UpdateSimulates(s, rows, t, id, Claimed(s.docs[id], worker, Milliseconds(lease), UnixMilli(now)),
                      Claimed(rows[id], worker, lease, now));
    } else {
      SameSimulates(s, rows, t);
    }
  }

  /** What a rescue does to the documents. */
  lemma RescueDocs(s: Redis, queue: string, id: string, at: int, before: int)
    requires Agree(s) && id in s.docs && s.docs[id].queue == queue
    ensures Apply(s, RescueOne(queue, id, at, before)).docs ==
      if Rescues(s, id, at, before) then s.docs[id := Released(s.docs[id])] else s.docs
  {
    assert s.docs[id].id == id;
    if s.docs[id].state.Running? {
      RescueFollowsLease(s, id, UnixMilli(at), UnixMilli(before));
    }
  }

  lemma RescueSimulates(s: Redis, rows: Rows, queue: string, id: string, at: int, before: int)
    requires Simulates(s, rows) && Agree(s)
    ensures var e := RescueOne(queue, id, at, before); Simulates(Apply(s, e), StepRows(s, rows, e))
  {
    var t := Apply(s, RescueOne(queue, id, at, before));
    if id in rows && rows[id].queue == queue {
      assert Related(s.docs[id], rows[id]);
      RescueDocs(s, queue, id, at, before);
      if Rescues(s, id, at, before) {
        ReleaseRelates(s.docs[id], rows[id]);
        UpdateSimulates(s, rows, t, id, Released(s.docs[id]), Rescued(rows[id]));
      }
    }
  }

  lemma TokenSimulates(s: Redis, rows: Rows, e: Event)
    requires Simulates(s, rows) && Plain(e) && (e.Beat? || e.Start?)
    ensures Simulates(Apply(s, e), StepRows(s, rows, e))
  {
    var t, after := Apply(s, e), StepRows(s, rows, e);
    if Held(rows, e.id, e.worker, e.attempt) {
      assert HoldsClaim(s.docs[e.id], e.worker, e.attempt);
      UpdateSimulates(s, rows, t, e.id, t.docs[e.id], after[e.id]);
    } else {
      SameSimulates(s, rows, t);
    }
  }

  lemma WriteSimulates(s: Redis, rows: Rows, p: SetStateParams, now: int)
    requires Simulates(s, rows) && Plain(Write(p, now))
    ensures Simulates(SetState(s, p, now), StepRows(s, rows, Write(p, now)))
  {
    assert Writes(s, p) <==> Accepts(rows, p);
    if Accepts(rows, p) {
      WriteRelates(s.docs[p.id], rows[p.id], p, now);
      var d, r := WrittenDoc(s.docs[p.id], p, now), Written(rows[p.id], p, now);
      UpdateSimulates(s, rows, SetState(s, p, now), p.id, d, r);
    }
  }

  lemma AdminSimulates(s: Redis, rows: Rows, e: Event)
    requires Simulates(s, rows) && Plain(e) && (e.CancelJob? || e.RescheduleJob?)
    ensures Simulates(Apply(s, e), StepRows(s, rows, e))
  {
    var t, after := Apply(s, e), StepRows(s, rows, e);
    if e.id in rows {
      assert Ready(s.docs[e.id]) <==> Ready(rows[e.id]);
      if e.RescheduleJob? {
        RescheduleRelates(s.docs[e.id], rows[e.id], e.runAt);
        UpdateSimulates(s, rows, t, e.id, t.docs[e.id], after[e.id]);
      } else if Ready(rows[e.id]) {
        CancelRelates(s.docs[e.id], rows[e.id], e.now);
        UpdateSimulates(s, rows, t, e.id, t.docs[e.id], after[e.id]);
      }
    }
  }

  lemma DeleteSimulates(s: Redis, rows: Rows, id: string)
    requires Simulates(s, rows)
    ensures Simulates(Delete(s, id), rows - {id})
  {
    if id !in s.docs {
      assert rows - {id} == rows;
    }
  }

  lemma ApplySimulates(s: Redis, rows: Rows, e: Event)
    requires Simulates(s, rows) && Agree(s) && Plain(e)
    ensures Simulates(Apply(s, e), StepRows(s, rows, e))
  {
    match e
    case InsertJob(id, p, now) => InsertSimulates(s, rows, id, p, now);
    case FetchOne(queue, worker, lease, now) => FetchSimulates(s, rows, queue, worker, lease, now);
    case RescueOne(queue, id, at, before) => RescueSimulates(s, rows, queue, id, at, before);
    case Beat(_, _, _, _, _) => TokenSimulates(s, rows, e);
    case Start(_, _, _, _) => TokenSimulates(s, rows, e);
    case Write(p, now) => WriteSimulates(s, rows, p, now);
    case CancelJob(_, _) => AdminSimulates(s, rows, e);
    case RescheduleJob(_, _) => AdminSimulates(s, rows, e);
    case DeleteJob(id) => DeleteSimulates(s, rows, id);
  }

  /** Over every allowed run with plain events, the documents of Redis are the rows that the
      memory store's transitions give, in milliseconds: same jobs, states, attempts, workers,
      errors, keys and instants. */
  lemma {:induction false} RunSimulates(events: seq<Event>)
    requires AllAllowed(events) && forall k :: 0 <= k < |events| ==> Plain(events[k])
    ensures Simulates(Run(events), RunRows(events))
  {
    if |events| > 0 {
      var n := |events| - 1;
      var init := events[..n];
      assert forall k :: 0 <= k < n ==> init[..k] == events[..k] && init[k] == events[k];
      RunSimulates(init);
      IndexesAgree(init);
      ApplySimulates(Run(init), RunRows(init), events[n]);
    }
  }
}
