/** Claims are fenced by worker and attempt number. A yield gives its attempt number back,
    so the numbers of one job go up and down; what makes the fence hold is that only a
    yield ever lets a number be issued twice. */
module Fencing {
  import opened Jobs
  import opened JobStore

  /** Attempt `n` can never be the running attempt of this row again. */
  predicate SpentRow(r: Row, n: int) {
    r.attempt >= n && (r.state.Running? ==> r.attempt > n)
  }

  ghost predicate Spent(s: Store, id: string, n: int) {
    Issued(s, id) && (id in s.jobs ==> SpentRow(s.jobs[id], n))
  }

  lemma MovesKeepsSpent(e: Event, r: Row, q: Row, n: int)
    requires Moves(e, r, q) && SpentRow(r, n)
    ensures SpentRow(q, n)
  {
  }

  lemma ApplyKeepsSpent(s: Store, e: Event, id: string, n: int)
    requires Valid(s) && Spent(s, id, n)
    ensures Spent(Apply(s, e), id, n)
  {
    ApplyValid(s, e);
    NextIdIsFresh(s);
    var t := Apply(s, e);
    if id in t.jobs {
      assert id in s.jobs;
      MovesKeepsSpent(e, s.jobs[id], t.jobs[id], n);
    }
  }

  lemma {:induction false} RunKeepsSpent(s: Store, events: seq<Event>, id: string, n: int)
    requires Valid(s) && Spent(s, id, n)
    ensures Spent(Run(s, events), id, n)
  {
    if |events| > 0 {
      var init := events[..|events| - 1];
      RunKeepsSpent(s, init, id, n);
      RunValid(s, init);
      ApplyKeepsSpent(Run(s, init), events[|events| - 1], id, n);
    }
  }

  /** The event ends the running claim on `id`: rescue, retry, final state, reschedule,
      delete, or a yield. */
  predicate Ends(s: Store, e: Event, id: string) {
    && id in s.jobs && s.jobs[id].state.Running?
    && (id !in Apply(s, e).jobs || !Apply(s, e).jobs[id].state.Running?)
  }

  predicate IsYieldWrite(e: Event) {
    e.SetState? && e.write.isYield
  }

  /** No heartbeat, start mark or fenced state write for attempt `n` takes effect. */
  ghost predicate Refuses(s: Store, id: string, n: int) {
    && (forall w :: !AcceptsToken(s, id, w, n))
    && (forall p: SetStateParams :: p.id == id && p.expectedAttempt == n ==> !Accepts(s, p))
  }

  lemma EndSpendsAttempt(s: Store, e: Event, id: string)
    requires Valid(s) && Ends(s, e, id) && !IsYieldWrite(e)
    ensures Spent(Apply(s, e), id, s.jobs[id].attempt)
  {
    ApplyValid(s, e);
    var t := Apply(s, e);
    assert Issued(s, id) && Issued(t, id);
    if id in t.jobs {
      assert Moves(e, s.jobs[id], t.jobs[id]);
    }
  }

  /** Once a claim ends in any way but a yield, its token is refused in every later state
      of every run, whatever yields come after and whichever worker presents it. */
  lemma EndedClaimsStayFenced(before: seq<Event>, e: Event, after: seq<Event>, id: string)
    requires var s := Run(EMPTY, before); Ends(s, e, id) && !IsYieldWrite(e)
    ensures var s := Run(EMPTY, before);
      s.jobs[id].attempt >= 1 && Refuses(Run(Apply(s, e), after), id, s.jobs[id].attempt)
  {
    RunValid(EMPTY, before);
    var s := Run(EMPTY, before);
    var n := s.jobs[id].attempt;
    assert ValidRow(s.jobs[id]);
    EndSpendsAttempt(s, e, id);
    ApplyValid(s, e);
    RunKeepsSpent(Apply(s, e), after, id, n);
  }

  /** A fetch without a limit claims every due job of a queue that is being polled. */
  lemma FetchClaims(u: Store, id: string, worker: string)
    requires id in u.jobs && u.jobs[id].state.Available? && Polls(u, u.jobs[id].queue)
    ensures var r := u.jobs[id];
      Apply(u, Fetch(r.queue, 0, worker, 0, r.runAt)).jobs[id] == Claimed(r, worker, 0, r.runAt)
  {
    var r := u.jobs[id];
    var e := Fetch(r.queue, 0, worker, 0, r.runAt);
    assert Candidate(u, e.queue, e.now, id);
    assert Chosen(u, e.queue, e.limit, e.now, id);
    assert FetchedRow(u, e, id) == Claimed(r, worker, 0, r.runAt);
  }

  /** Resuming the queue and fetching it at the job's run time claims an available job. */
  lemma RefetchClaims(t: Store, id: string, worker: string) returns (after: seq<Event>)
    requires id in t.jobs && t.jobs[id].state.Available?
    ensures AcceptsToken(Run(t, after), id, worker, t.jobs[id].attempt + 1)
  {
    var r := t.jobs[id];
    var resume, fetch := Resume(r.queue), Fetch(r.queue, 0, worker, 0, r.runAt);
    RunSnoc(t, [], resume);
    RunSnoc(t, [] + [resume], fetch);
    FetchClaims(Apply(t, resume), id, worker);
    after := [] + [resume] + [fetch];
  }

  /** After a yield the same worker may be given the same token again, from every state. */
  lemma YieldedTokenReturns(before: seq<Event>, e: Event, id: string) returns (after: seq<Event>)
    requires Ends(Run(EMPTY, before), e, id) && IsYieldWrite(e)
    ensures var s := Run(EMPTY, before);
      AcceptsToken(Run(Apply(s, e), after), id, s.jobs[id].worker, s.jobs[id].attempt)
  {
    RunValid(EMPTY, before);
    var s := Run(EMPTY, before);
    ApplyValid(s, e);
    var t := Apply(s, e);
    assert t.jobs[id] == Yielded(s.jobs[id]);
    after := RefetchClaims(t, id, s.jobs[id].worker);
  }

  /** The exact condition: the token of an ended claim is refused for ever if and only if
      the claim did not end in a yield. */
  lemma FencedForEverIffNotYield(before: seq<Event>, e: Event, id: string)
    requires Ends(Run(EMPTY, before), e, id)
    ensures var s := Run(EMPTY, before);
      (forall after :: Refuses(Run(Apply(s, e), after), id, s.jobs[id].attempt)) <==> !IsYieldWrite(e)
  {
    var s := Run(EMPTY, before);
    if IsYieldWrite(e) {
      var after := YieldedTokenReturns(before, e, id);
      assert !Refuses(Run(Apply(s, e), after), id, s.jobs[id].attempt);
    } else {
      forall after ensures Refuses(Run(Apply(s, e), after), id, s.jobs[id].attempt) {
        EndedClaimsStayFenced(before, e, after, id);
      }
    }
  }
}
