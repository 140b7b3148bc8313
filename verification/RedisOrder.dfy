/** Which job a fetch claims: the packed score refines priority descending, then run time
    ascending. */
module RedisOrder {
  import opened Prelude
  import opened Strings
  import opened Jobs
  import opened RedisStore
  import opened RedisIndexes

  // ---- the packed score ----

  predicate KeyBefore(a: Row, b: Row) {
    a.priority > b.priority || (a.priority == b.priority && a.runAt < b.runAt)
  }

  /** These are the first two keys of the claim order of the memory store. */
  lemma KeysRefineClaimOrder(a: Row, b: Row)
    ensures KeyBefore(a, b) ==> Precedes(a, b)
    ensures Precedes(a, b) && (a.priority != b.priority || a.runAt != b.runAt) ==> KeyBefore(a, b)
  {
  }

  lemma ScoreOrderIsKeyOrder(a: Row, b: Row)
    requires Score(a) <= Score(b) && b.runAt - a.runAt < PRIORITY_STEP
    ensures !KeyBefore(b, a)
  {
    assert b.priority > a.priority ==> (b.priority - a.priority) * PRIORITY_STEP >= PRIORITY_STEP;
  }

  ghost predicate ScoresFaithful(span: nat) {
    forall p, q, t, u | t - u <= span && (p > q || (p == q && t < u)) :: PriorityScore(p, t) < PriorityScore(q, u)
  }

  /** Scores order all jobs as their keys do exactly when run times lie within a span
      shorter than one priority step. */
  lemma ScoresFaithfulIff(span: nat)
    ensures ScoresFaithful(span) <==> span < 1_000_000_000_000
  {
    if span < PRIORITY_STEP {
      forall p, q, t, u | t - u <= span && (p > q || (p == q && t < u))
        ensures PriorityScore(p, t) < PriorityScore(q, u)
      {
        if p > q {
          assert (p - q) * PRIORITY_STEP >= PRIORITY_STEP;
        }
      }
    } else {
      assert !(PriorityScore(1, span) < PriorityScore(0, 0));
    }
  }

  // ---- sorted sets ----

  lemma BeforeTotal(z: map<Member, int>, a: Member, b: Member)
    requires a in z && b in z && a.queue == b.queue && a != b
    ensures Before(z, a, b) != Before(z, b, a)
  {
    LessTotal(a.id, b.id);
  }

  lemma BeforeTransitive(z: map<Member, int>, a: Member, b: Member, c: Member)
    requires a in z && b in z && c in z && Before(z, a, b) && Before(z, b, c)
    ensures Before(z, a, c)
  {
    if z[a] == z[b] == z[c] {
      LessTransitive(a.id, b.id, c.id);
    }
  }

  lemma FirstUnique(z: map<Member, int>, queue: string, m: Member)
    requires IsFirst(z, queue, m)
    ensures First(z, queue) == Some(m)
  {
    var f := First(z, queue).value;
    assert IsFirst(z, queue, f);
    if f != m {
      BeforeTotal(z, f, m);
    }
  }

  lemma {:induction false} FirstOfSet(z: map<Member, int>, queue: string, s: set<Member>) returns (m: Member)
    requires s != {} && forall x :: x in s ==> x in z && x.queue == queue
    ensures m in s && forall x :: x in s && x != m ==> Before(z, m, x)
  {
    var y :| y in s;
    m := y;
    var rest := s - {y};
    assert forall x :: x in s && x != y ==> x in rest;
    if rest != {} {
      var f := FirstOfSet(z, queue, rest);
      BeforeTotal(z, f, y);
      if Before(z, f, y) {
        m := f;
      }
      forall x | x in s && x != m ensures Before(z, m, x) {
        if x != y && x != f && m == y {
          BeforeTransitive(z, y, f, x);
        }
      }
    }
  }

  lemma FirstExists(z: map<Member, int>, queue: string, x: Member)
    requires x in z && x.queue == queue
    ensures First(z, queue).Some?
  {
    var s := set y | y in z.Keys && y.queue == queue;
    assert x in s;
    var m := FirstOfSet(z, queue, s);
    assert IsFirst(z, queue, m);
  }

  // ---- promotion ----

  lemma DuePromoted(s: Redis, queue: string, now: int, m: Member)
    requires Agree(s) && m in Due(s.sched, queue, now)
    requires |Due(s.sched, queue, now)| <= PROMOTION_LIMIT
    ensures m in ToPromote(s, queue, now)
  {
    var due := Due(s.sched, queue, now);
    var earlier := Earlier(s.sched, due, m);
    LessTotal(m.id, m.id);
    assert earlier <= due - {m};
    SubsetSize(earlier, due - {m});
    assert Owned(s, m);
  }

  /** Whatever their number, some due entry is promoted if there is one. */
  lemma SomeDuePromoted(s: Redis, queue: string, now: int, x: Member)
    requires Agree(s) && x in Due(s.sched, queue, now)
    ensures exists m :: m in ToPromote(s, queue, now) && m.queue == queue
  {
    var due := Due(s.sched, queue, now);
    var m := FirstOfSet(s.sched, queue, due);
    forall y | y in due ensures !Before(s.sched, y, m) {
      if y == m {
        LessTotal(m.id, m.id);
      } else {
        BeforeTotal(s.sched, m, y);
      }
    }
    assert Earlier(s.sched, due, m) == {};
    assert Owned(s, m);
    assert m in ToPromote(s, queue, now);
  }

  // ---- what a fetch claims ----

  /** Jobs a fetch may claim: those already available, and the scheduled ones that are due. */
  predicate Candidate(s: Redis, queue: string, now: int, id: string) {
    && id in s.docs && s.docs[id].queue == queue && Ready(s.docs[id])
    && (Member(queue, id) in s.avail || s.docs[id].runAt <= now)
  }

  ghost function Popped(s: Redis, queue: string, now: int): Option<Member> {
    First(Promote(s, queue, now).avail, queue)
  }

  /** A fetch claims a job exactly when there is a candidate. */
  lemma FetchClaimsIff(s: Redis, queue: string, now: int)
    requires Agree(s)
    ensures Popped(s, queue, now).Some? <==> exists id :: Candidate(s, queue, now, id)
  {
    var t := Promote(s, queue, now);
    if id :| Candidate(s, queue, now, id) {
      var m := MemberOf(s.docs[id]);
      assert Placed(s, s.docs[id]);
      if m in s.avail {
        FirstExists(t.avail, queue, m);
      } else {
        SomeDuePromoted(s, queue, now, m);
        var x :| x in ToPromote(s, queue, now) && x.queue == queue;
        FirstExists(t.avail, queue, x);
      }
    }
    if Popped(s, queue, now).Some? {
      PoppedIsCandidate(s, queue, now);
      assert Candidate(s, queue, now, Popped(s, queue, now).value.id);
    }
  }

  lemma PoppedIsCandidate(s: Redis, queue: string, now: int)
    requires Agree(s) && Popped(s, queue, now).Some?
    ensures var m := Popped(s, queue, now).value; m.queue == queue && Candidate(s, queue, now, m.id)
  {
    var t := Promote(s, queue, now);
    var m := Popped(s, queue, now).value;
    assert IsFirst(t.avail, queue, m);
    if m in s.avail {
      assert Owned(s, m) && Placed(s, s.docs[m.id]);
    } else {
      assert m in s.sched && s.sched[m] <= now;
      assert Owned(s, m) && Placed(s, s.docs[m.id]);
    }
  }

  /** Without any bound: the claimed job has the least score of all entries available after
      promotion. */
  lemma PoppedHasLeastScore(s: Redis, queue: string, now: int, x: Member)
    requires Agree(s) && Popped(s, queue, now).Some?
    requires x in Promote(s, queue, now).avail && x.queue == queue
    ensures var m := Popped(s, queue, now).value;
      m.id in s.docs && x.id in s.docs && Score(s.docs[m.id]) <= Score(s.docs[x.id])
  {
    PromoteKeeps(s, queue, now);
    var t := Promote(s, queue, now);
    var m := Popped(s, queue, now).value;
    assert IsFirst(t.avail, queue, m);
    assert Owned(t, m) && Owned(t, x) && Placed(t, t.docs[m.id]) && Placed(t, t.docs[x.id]);
  }

  /** The run times of the candidates lie within one priority step. */
  ghost predicate NarrowSpan(s: Redis, queue: string, now: int) {
    forall i, j :: Candidate(s, queue, now, i) && Candidate(s, queue, now, j) ==>
      s.docs[i].runAt - s.docs[j].runAt < 1_000_000_000_000
  }

  /** With at most 1024 due entries and run times within one priority step, no candidate
      comes before the claimed job by priority and run time. */
  lemma ClaimOrder(s: Redis, queue: string, now: int, id: string)
    requires Agree(s) && Popped(s, queue, now).Some? && Candidate(s, queue, now, id)
    requires |Due(s.sched, queue, now)| <= 1024 && NarrowSpan(s, queue, now)
    ensures var first := Popped(s, queue, now).value.id; first in s.docs && !KeyBefore(s.docs[id], s.docs[first])
  {
    var x := MemberOf(s.docs[id]);
    assert Placed(s, s.docs[id]);
    if x in s.sched {
      DuePromoted(s, queue, now, x);
    }
    PoppedHasLeastScore(s, queue, now, x);
    PoppedIsCandidate(s, queue, now);
    ScoreOrderIsKeyOrder(s.docs[Popped(s, queue, now).value.id], s.docs[id]);
  }

  /** What the fetch then stores: the claimed document, counted and fenced, in the running
      hash, and nothing else. */
  lemma FetchStoresClaim(s: Redis, queue: string, worker: string, lease: int, now: int)
    requires Agree(s) && Popped(s, queue, now).Some?
    ensures var m := Popped(s, queue, now).value; var t := Fetch(s, queue, worker, lease, now);
      && m.id in s.docs
      && t.docs == s.docs[m.id := Claimed(s.docs[m.id], worker, lease, now)]
      && t.run.Keys == s.run.Keys + {m} && m !in t.avail && m !in t.sched
      && t.uniq == s.uniq
  {
    PoppedIsCandidate(s, queue, now);
    PromoteKeeps(s, queue, now);
    var m := Popped(s, queue, now).value;
    var p := Promote(s, queue, now);
    assert IsFirst(p.avail, queue, m);
    assert Placed(p, p.docs[m.id]);
  }

  /** A job that is due when it is inserted is running after the next fetch from its queue. */
  lemma InsertedIsClaimed(id: string, p: InsertParams, worker: string, lease: int, now: int)
    requires p.runAt <= now
    ensures var s := Fetch(Insert(EMPTY, id, p, now), p.queue, worker, lease, UnixMilli(now));
      Agree(s) && id in s.docs && s.docs[id].state.Running?
  {
    var s, at := Insert(EMPTY, id, p, now), UnixMilli(now);
    assert Agree(EMPTY);
    InsertKeeps(EMPTY, id, p, now);
    assert s.docs.Keys == {id};
    assert Candidate(s, p.queue, at, id);
    FetchClaimsIff(s, p.queue, at);
    PoppedIsCandidate(s, p.queue, at);
    FetchStoresClaim(s, p.queue, worker, lease, at);
    FetchKeeps(s, p.queue, worker, lease, at);
  }

  lemma InsertedThenFetched(id: string, p: InsertParams, worker: string, lease: int, now: int) returns (s: Redis)
    requires p.runAt <= now
    ensures s == Apply(Apply(EMPTY, InsertJob(id, p, now)), FetchOne(p.queue, worker, lease, now))
    ensures Agree(s) && id in s.docs && s.docs[id].state.Running?
  {
    InsertedIsClaimed(id, p, worker, Milliseconds(lease), now);
    s := Fetch(Insert(EMPTY, id, p, now), p.queue, worker, Milliseconds(lease), UnixMilli(now));
  }

  lemma EndsInReschedule(s: Redis, a: Event, b: Event, id: string, runAt: int)
    requires s == Apply(Apply(EMPTY, a), b)
    ensures Run([a, b, RescheduleJob(id, runAt)]) == Reschedule(s, id, runAt)
  {
    RunThree(a, b, RescheduleJob(id, runAt));
  }

  lemma BreaksWhileRunning(s: Redis, t: Redis, id: string, runAt: int)
    requires Agree(s) && id in s.docs && s.docs[id].state.Running? && t == Reschedule(s, id, runAt)
    ensures !Agree(t)
  {
    RescheduleKeepsIff(s, id, runAt);
  }

  /** A three-step run breaks the agreement: insert, fetch, reschedule while running. */
  lemma ReschedulingRunningJobBreaks(id: string, p: InsertParams, worker: string, lease: int, now: int, runAt: int)
    requires p.runAt <= now
    ensures !Agree(Run([InsertJob(id, p, now), FetchOne(p.queue, worker, lease, now), RescheduleJob(id, runAt)]))
  {
    var insert, fetch := InsertJob(id, p, now), FetchOne(p.queue, worker, lease, now);
    var s := InsertedThenFetched(id, p, worker, lease, now);
    EndsInReschedule(s, insert, fetch, id, runAt);
    BreaksWhileRunning(s, Run([insert, fetch, RescheduleJob(id, runAt)]), id, runAt);
  }
}
