/** Leases, heartbeats and rescues over whole runs: a claim that nobody else ends is lost
    exactly when a rescue pass finds its last renewal expired. */
module Heartbeats {
  import opened Prelude
  import opened Jobs
  import opened JobStore
  import Fencing

  /** The token of a claim. */
  datatype Token = Token(id: string, worker: string, attempt: int)

  predicate Renews(e: Event, c: Token) {
    e.Heartbeat? && e.id == c.id && e.worker == c.worker && e.attempt == c.attempt
  }

  function NextDeadline(c: Token, d: int, e: Event): int {
    if !Renews(e, c) then d else if e.expiresAt == ZERO_TIME then e.at else e.expiresAt
  }

  /** The deadline after the heartbeats of the claim's holder among the events. */
  function Deadline(c: Token, d: int, events: seq<Event>): int {
    if |events| == 0 then d
    else NextDeadline(c, Deadline(c, d, events[..|events| - 1]), events[|events| - 1])
  }

  /** The event does not end the claim by its own right: it neither presents the token in a
      state write nor reschedules nor deletes the job. */
  predicate Leaves(e: Event, c: Token) {
    match e
    case SetState(p, _) => p.id == c.id ==> !MatchesClaim(p, c.worker, c.attempt)
    case Reschedule(id, _) => id != c.id
    case Delete(id) => id != c.id
    case _ => true
  }

  ghost predicate AllLeave(events: seq<Event>, c: Token) {
    forall k :: 0 <= k < |events| ==> Leaves(events[k], c)
  }

  /** The event is a rescue pass over the queue at or after the deadline. */
  predicate Late(queue: string, d: int, e: Event) {
    e.Rescue? && e.queue == queue && e.at != ZERO_TIME && e.at >= d
  }

  predicate LateAt(c: Token, queue: string, d: int, events: seq<Event>, k: nat)
    requires k < |events|
  {
    Late(queue, Deadline(c, d, events[..k]), events[k])
  }

  ghost predicate Timely(c: Token, queue: string, d: int, events: seq<Event>) {
    forall k: nat :: k < |events| ==> !LateAt(c, queue, d, events, k)
  }

  lemma TimelySnoc(c: Token, queue: string, d: int, events: seq<Event>)
    requires |events| > 0
    ensures var n := |events| - 1;
      Timely(c, queue, d, events) <==>
      Timely(c, queue, d, events[..n]) && !Late(queue, Deadline(c, d, events[..n]), events[n])
  {
    var n := |events| - 1;
    var init := events[..n];
    forall k: nat | k < n ensures LateAt(c, queue, d, init, k) <==> LateAt(c, queue, d, events, k) {
      assert init[..k] == events[..k];
    }
    if Timely(c, queue, d, events) {
      assert !LateAt(c, queue, d, events, n);
    }
  }

  predicate Holds(s: Store, c: Token) {
    AcceptsToken(s, c.id, c.worker, c.attempt)
  }

  /** The claim is held, on this queue and with this deadline. */
  predicate Leased(s: Store, c: Token, queue: string, d: int) {
    Holds(s, c) && s.jobs[c.id].queue == queue && s.jobs[c.id].leaseExpiresAt == Some(d)
  }

  lemma MovesKeepsLease(e: Event, r: Row, q: Row, c: Token, queue: string, d: int)
    requires Moves(e, r, q) && r.id == c.id && HoldsClaim(r, c.worker, c.attempt)
    requires r.queue == queue && r.leaseExpiresAt == Some(d) && Leaves(e, c)
    requires e.Rescue? ==> q == RescuedRow(r, e)
    requires Renews(e, c) ==> q == r.(leaseExpiresAt := Some(NextDeadline(c, d, e)))
    ensures Late(queue, d, e) ==> Fencing.SpentRow(q, c.attempt)
    ensures !Late(queue, d, e) ==> HoldsClaim(q, c.worker, c.attempt) && q.queue == queue
    ensures !Late(queue, d, e) ==> q.leaseExpiresAt == Some(NextDeadline(c, d, e))
  {
  }

  lemma StepKeepsLease(s: Store, e: Event, c: Token, queue: string, d: int)
    requires Valid(s) && Leased(s, c, queue, d) && Leaves(e, c)
    ensures !Late(queue, d, e) ==> Leased(Apply(s, e), c, queue, NextDeadline(c, d, e))
    ensures Late(queue, d, e) ==> Fencing.Spent(Apply(s, e), c.id, c.attempt)
  {
    ApplyValid(s, e);
    assert s.jobs[c.id].id == c.id && Issued(s, c.id);
    assert c.id in Apply(s, e).jobs;
    MovesKeepsLease(e, s.jobs[c.id], Apply(s, e).jobs[c.id], c, queue, d);
  }

  lemma {:induction false} TimelyStaysLeased(s: Store, events: seq<Event>, c: Token, queue: string, d: int)
    requires Valid(s) && Leased(s, c, queue, d) && AllLeave(events, c) && Timely(c, queue, d, events)
    ensures Leased(Run(s, events), c, queue, Deadline(c, d, events))
  {
    if |events| > 0 {
      var n := |events| - 1;
      TimelySnoc(c, queue, d, events);
      TimelyStaysLeased(s, events[..n], c, queue, d);
      RunValid(s, events[..n]);
      StepKeepsLease(Run(s, events[..n]), events[n], c, queue, Deadline(c, d, events[..n]));
    }
  }

  /** A claim that met a late rescue is spent for good. */
  lemma {:induction false} LateIsSpent(s: Store, events: seq<Event>, c: Token, queue: string, d: int)
    requires Valid(s) && Leased(s, c, queue, d) && AllLeave(events, c) && !Timely(c, queue, d, events)
    ensures Fencing.Spent(Run(s, events), c.id, c.attempt)
  {
    var n := |events| - 1;
    TimelySnoc(c, queue, d, events);
    RunValid(s, events[..n]);
    if Timely(c, queue, d, events[..n]) {
      TimelyStaysLeased(s, events[..n], c, queue, d);
      StepKeepsLease(Run(s, events[..n]), events[n], c, queue, Deadline(c, d, events[..n]));
    } else {
      LateIsSpent(s, events[..n], c, queue, d);
      Fencing.ApplyKeepsSpent(Run(s, events[..n]), events[n], c.id, c.attempt);
    }
  }

  /** The exact condition for keeping a claim through any run in which nobody writes with its
      token, reschedules or deletes the job: every rescue pass over its queue comes before the
      deadline of the last renewal. The holder's heartbeats are then still accepted. */
  lemma ClaimSurvivesIff(s: Store, events: seq<Event>, c: Token, queue: string, d: int)
    requires Valid(s) && Leased(s, c, queue, d) && AllLeave(events, c)
    ensures Holds(Run(s, events), c) <==> Timely(c, queue, d, events)
  {
    if Timely(c, queue, d, events) {
      TimelyStaysLeased(s, events, c, queue, d);
    } else {
      LateIsSpent(s, events, c, queue, d);
    }
  }

  // ---- heartbeats at the pool's pace ----

  /** When the claim was last renewed: at `start`, or by a heartbeat since. */
  function LastRenewal(c: Token, start: int, events: seq<Event>): int {
    if |events| == 0 then start
    else
      var e := events[|events| - 1];
      if Renews(e, c) then e.at else LastRenewal(c, start, events[..|events| - 1])
  }

  /** The pool's heartbeats ask for one timeout from now. */
  ghost predicate PoolBeats(c: Token, timeout: int, events: seq<Event>) {
    forall k :: 0 <= k < |events| && Renews(events[k], c) ==> events[k].expiresAt == events[k].at + timeout != ZERO_TIME
  }

  lemma {:induction false} DeadlineIsRenewalPlusTimeout(c: Token, start: int, timeout: int, events: seq<Event>)
    requires PoolBeats(c, timeout, events)
    ensures Deadline(c, start + timeout, events) == LastRenewal(c, start, events) + timeout
  {
    if |events| > 0 {
      DeadlineIsRenewalPlusTimeout(c, start, timeout, events[..|events| - 1]);
    }
  }

  /** The k-th event is no rescue pass over the queue a whole timeout after the last renewal. */
  predicate WithinTimeout(c: Token, queue: string, start: int, timeout: int, events: seq<Event>, k: nat)
    requires k < |events|
  {
    events[k].Rescue? && events[k].queue == queue ==> events[k].at - LastRenewal(c, start, events[..k]) < timeout
  }

  ghost predicate Regular(c: Token, queue: string, start: int, timeout: int, events: seq<Event>) {
    && PoolBeats(c, timeout, events)
    && forall k: nat :: k < |events| ==> WithinTimeout(c, queue, start, timeout, events, k)
  }

  lemma RegularIsTimely(events: seq<Event>, c: Token, queue: string, start: int, timeout: int, d: int)
    requires Regular(c, queue, start, timeout, events) && d == start + timeout
    ensures Timely(c, queue, d, events)
  {
    forall k: nat | k < |events| ensures !LateAt(c, queue, d, events, k) {
      assert WithinTimeout(c, queue, start, timeout, events, k);
      DeadlineIsRenewalPlusTimeout(c, start, timeout, events[..k]);
    }
  }

  /** A pool whose heartbeats come through at least once per timeout never loses a job to a
      rescue, its own or another pool's; `d` is the deadline that the claim itself set. */
  lemma RegularHeartbeatsKeepClaim(s: Store, events: seq<Event>, c: Token, queue: string,
                                   start: int, timeout: int, d: int)
    requires Valid(s) && Leased(s, c, queue, d) && d == start + timeout && AllLeave(events, c)
    requires Regular(c, queue, start, timeout, events)
    ensures Holds(Run(s, events), c)
  {
    RegularIsTimely(events, c, queue, start, timeout, d);
    ClaimSurvivesIff(s, events, c, queue, d);
  }
}
