/** Claims in Redis are fenced as in the memory store: over every run, whatever becomes of
    the indexes, as long as identifiers are not used twice. */
module RedisFencing {
  import opened Prelude
  import opened Jobs
  import opened RedisStore
  import opened RedisIndexes
  import opened RedisOrder
  import Fencing

  // ---- one document at a time ----

  /** How an event may change the document of `id` when it leaves it in the store. */
  predicate DocMoves(e: Event, id: string, d: Row, q: Row) {
    || q == d
    || match e
       case FetchOne(_, worker, lease, now) => q == Claimed(d, worker, Milliseconds(lease), UnixMilli(now))
       case RescueOne(_, x, _, _) => x == id && d.state.Running? && q == Released(d)
       case Beat(x, worker, attempt, at, until) =>
         x == id && HoldsClaim(d, worker, attempt) &&
         q == d.(leaseExpiresAt := Some(UnixMilli(if until == ZERO_TIME then at else until)))
       case Start(x, worker, attempt, at) =>
         x == id && HoldsClaim(d, worker, attempt) && q == d.(startedAt := Some(UnixMilli(at)))
       case Write(p, now) =>
         p.id == id && d.state.Running? && MatchesClaim(p, d.worker, d.attempt) && q == WrittenDoc(d, p, now)
       case CancelJob(x, now) =>
         x == id && Ready(d) && q == Encoded(d.(state := Cancelled, finalizedAt := Some(UnixMilli(now))))
       case RescheduleJob(x, runAt) => x == id && q == Encoded(d.(state := Scheduled, runAt := UnixMilli(runAt)))
       case _ => false
  }

  lemma ClaimMoves(s: Redis, m: Member, worker: string, lease: int, now: int, id: string)
    requires id in s.docs
    ensures var t := Claim(s, m, worker, lease, now);
      id in t.docs && (t.docs[id] == s.docs[id] || t.docs[id] == Claimed(s.docs[id], worker, lease, now))
    ensures Claim(s, m, worker, lease, now).docs.Keys == s.docs.Keys
  {
  }

  lemma FetchMoves(s: Redis, queue: string, worker: string, lease: int, now: int, id: string)
    ensures Fetch(s, queue, worker, lease, now).docs.Keys == s.docs.Keys
    ensures var t := Fetch(s, queue, worker, lease, now); id in s.docs ==>
      t.docs[id] == s.docs[id] || t.docs[id] == Claimed(s.docs[id], worker, lease, now)
  {
    var p := Promote(s, queue, now);
    var first := First(p.avail, queue);
    if first.Some? && id in s.docs {
      ClaimMoves(p, first.value, worker, lease, now, id);
    }
  }

  /** The event moves the document of `id` if it keeps it, drops it only by a delete and adds
      it only by an insert. */
  ghost predicate Moved(s: Redis, e: Event, t: Redis, id: string) {
    && (id in s.docs && id in t.docs ==> DocMoves(e, id, s.docs[id], t.docs[id]))
    && (id in s.docs && id !in t.docs ==> e == DeleteJob(id))
    && (id in t.docs && id !in s.docs ==> Inserts(e, id) && t.docs[id] == NewDoc(id, e.params, e.now))
  }

  lemma ApplyMoves(s: Redis, e: Event, id: string)
    ensures Moved(s, e, Apply(s, e), id)
  {
    match e
    case FetchOne(queue, worker, lease, now) => FetchMoves(s, queue, worker, Milliseconds(lease), UnixMilli(now), id);
    case Write(p, now) => WriteMoves(s, p, now, id);
    case InsertJob(x, p, now) => InsertMoves(s, x, p, now, id);
    case RescueOne(_, _, _, _) => TokenMoves(s, e, id);
    case Beat(_, _, _, _, _) => TokenMoves(s, e, id);
    case Start(_, _, _, _) => TokenMoves(s, e, id);
    case CancelJob(_, _) => AdminMoves(s, e, id);
    case DeleteJob(_) => AdminMoves(s, e, id);
    case RescheduleJob(_, _) => AdminMoves(s, e, id);
  }

  lemma TokenMoves(s: Redis, e: Event, id: string)
    requires e.RescueOne? || e.Beat? || e.Start?
    ensures Moved(s, e, Apply(s, e), id)
  {
  }

  lemma AdminMoves(s: Redis, e: Event, id: string)
    requires e.CancelJob? || e.DeleteJob? || e.RescheduleJob?
    ensures Moved(s, e, Apply(s, e), id)
  {
  }

  lemma WriteMoves(s: Redis, p: SetStateParams, now: int, id: string)
    ensures SetState(s, p, now).docs.Keys == s.docs.Keys
    ensures id in s.docs ==> DocMoves(Write(p, now), id, s.docs[id], SetState(s, p, now).docs[id])
  {
  }

  lemma InsertMoves(s: Redis, x: string, p: InsertParams, now: int, id: string)
    ensures var t := Insert(s, x, p, now);
      && (x !in s.docs && id in s.docs ==> id in t.docs && t.docs[id] == s.docs[id])
      && (id in t.docs && id !in s.docs ==> x == id && t.docs[id] == NewDoc(id, p, now))
  {
  }

  // ---- spent attempts ----

  predicate ValidDoc(d: Row) {
    d.attempt >= if d.state.Running? then 1 else 0
  }

  lemma MovesKeepsDoc(e: Event, id: string, d: Row, q: Row, n: int)
    requires DocMoves(e, id, d, q) && ValidDoc(d)
    ensures ValidDoc(q)
    ensures Fencing.SpentRow(d, n) ==> Fencing.SpentRow(q, n)
  {
  }

  lemma {:induction false} RunKeepsDocsValid(events: seq<Event>, id: string)
    ensures id in Run(events).docs ==> ValidDoc(Run(events).docs[id])
  {
    if events != [] {
      var n := |events| - 1;
      RunKeepsDocsValid(events[..n], id);
      var s := Run(events[..n]);
      ApplyMoves(s, events[n], id);
      if id in s.docs && id in Run(events).docs {
        MovesKeepsDoc(events[n], id, s.docs[id], Run(events).docs[id], 0);
      }
    }
  }

  predicate Inserts(e: Event, id: string) {
    e.InsertJob? && e.id == id
  }

  /** Identifiers are random UUIDs: none is inserted twice. */
  ghost predicate FreshIds(events: seq<Event>) {
    forall i, j, id :: 0 <= i < j < |events| && Inserts(events[i], id) ==> !Inserts(events[j], id)
  }

  lemma {:induction false} StoredWasInserted(events: seq<Event>, id: string) returns (i: nat)
    requires id in Run(events).docs
    ensures i < |events| && Inserts(events[i], id)
  {
    var n := |events| - 1;
    ApplyMoves(Run(events[..n]), events[n], id);
    if id in Run(events[..n]).docs {
      i := StoredWasInserted(events[..n], id);
    } else {
      i := n;
    }
  }

  ghost predicate Spent(s: Redis, id: string, n: int) {
    id in s.docs ==> Fencing.SpentRow(s.docs[id], n)
  }

  /** A spent attempt stays spent while the identifier is not inserted again. */
  lemma {:induction false} RunKeepsSpent(events: seq<Event>, k: nat, id: string, n: int)
    requires k <= |events| && Spent(Run(events[..k]), id, n)
    requires forall i :: k <= i < |events| ==> !Inserts(events[i], id)
    ensures Spent(Run(events), id, n)
    decreases |events|
  {
    if k == |events| {
      assert events[..k] == events;
    } else {
      var m := |events| - 1;
      assert events[..m][..k] == events[..k];
      RunKeepsSpent(events[..m], k, id, n);
      RunKeepsDocsValid(events[..m], id);
      var s := Run(events[..m]);
      ApplyMoves(s, events[m], id);
      if id in s.docs && id in Run(events).docs {
        MovesKeepsDoc(events[m], id, s.docs[id], Run(events).docs[id], n);
      }
    }
  }

  // ---- the fence ----

  ghost predicate Ends(s: Redis, e: Event, id: string) {
    && id in s.docs && s.docs[id].state.Running?
    && (id !in Apply(s, e).docs || !Apply(s, e).docs[id].state.Running?)
  }

  predicate IsYieldWrite(e: Event) {
    e.Write? && e.write.isYield
  }

  /** No heartbeat, start mark or fenced state write for attempt `n` takes effect. */
  ghost predicate Refuses(s: Redis, id: string, n: int) {
    && (forall w :: !(id in s.docs && HoldsClaim(s.docs[id], w, n)))
    && (forall p: SetStateParams :: p.id == id && p.expectedAttempt == n ==> !Writes(s, p))
  }

  lemma EndSpendsAttempt(s: Redis, e: Event, id: string)
    requires Ends(s, e, id) && !IsYieldWrite(e)
    ensures Spent(Apply(s, e), id, s.docs[id].attempt)
  {
    ApplyMoves(s, e, id);
  }

  /** Once a claim ends in any way but a yield, its token is refused in every later state of
      every run, whatever happens to the indexes meanwhile. */
  lemma EndedClaimsStayFenced(before: seq<Event>, e: Event, after: seq<Event>, id: string)
    requires Ends(Run(before), e, id) && !IsYieldWrite(e) && FreshIds(before + [e] + after)
    ensures var n := Run(before).docs[id].attempt; n >= 1 && Refuses(Run(before + [e] + after), id, n)
  {
    var s, events, k := Run(before), before + [e] + after, |before| + 1;
    var n := s.docs[id].attempt;
    RunKeepsDocsValid(before, id);
    EndSpendsAttempt(s, e, id);
    RunSnoc(before, e);
    assert events[..k] == before + [e];
    var first := StoredWasInserted(before, id);
    assert Inserts(events[first], id);
    RunKeepsSpent(events, k, id, n);
  }

  // ---- the exact condition ----

  /** The store is in good order and `d` is the document of an available job. */
  ghost predicate Waiting(s: Redis, id: string, d: Row) {
    Agree(s) && id in s.docs && s.docs[id] == d && MemberOf(d) in s.avail
  }

  ghost function DeleteAll(s: Redis, ids: seq<string>): Redis {
    if |ids| == 0 then s else Delete(DeleteAll(s, ids[..|ids| - 1]), ids[|ids| - 1])
  }

  function Deletes(ids: seq<string>): seq<Event> {
    seq(|ids|, i requires 0 <= i < |ids| => DeleteJob(ids[i]))
  }

  lemma {:induction false} RunDeletes(events: seq<Event>, ids: seq<string>)
    ensures Run(events + Deletes(ids)) == DeleteAll(Run(events), ids)
  {
    if |ids| == 0 {
      assert events + Deletes(ids) == events;
    } else {
      var n := |ids| - 1;
      RunDeletes(events, ids[..n]);
      RunSnoc(events + Deletes(ids[..n]), DeleteJob(ids[n]));
      assert events + Deletes(ids) == events + Deletes(ids[..n]) + [DeleteJob(ids[n])];
    }
  }

  /** Deleting other documents leaves this one as it is. */
  lemma {:induction false} DeleteAllKeeps(s: Redis, ids: seq<string>, id: string, d: Row)
    requires Waiting(s, id, d) && id !in ids
    ensures Waiting(DeleteAll(s, ids), id, d)
    ensures forall x :: x in DeleteAll(s, ids).docs <==> x in s.docs && x !in ids
  {
    if |ids| > 0 {
      var n := |ids| - 1;
      assert ids == ids[..n] + [ids[n]];
      DeleteAllKeeps(s, ids[..n], id, d);
      DeleteKeepsOther(DeleteAll(s, ids[..n]), ids[n], id);
    }
  }

  lemma {:induction false} Listing(s: set<string>) returns (q: seq<string>)
    ensures forall x :: x in q <==> x in s
  {
    if s == {} {
      q := [];
    } else {
      var x :| x in s;
      var rest := Listing(s - {x});
      q := rest + [x];
    }
  }

  /** The other documents can be deleted one by one. */
  lemma DeleteOthers(s: Redis, id: string, d: Row) returns (ids: seq<string>)
    requires Waiting(s, id, d)
    ensures Waiting(DeleteAll(s, ids), id, d) && DeleteAll(s, ids).docs.Keys == {id}
  {
    ids := Listing(s.docs.Keys - {id});
    DeleteAllKeeps(s, ids, id, d);
  }

  lemma DeleteKeepsOther(s: Redis, x: string, id: string)
    requires Agree(s) && id in s.docs && x != id && MemberOf(s.docs[id]) in s.avail
    ensures var t := Delete(s, x);
      Waiting(t, id, s.docs[id]) && t.docs.Keys == s.docs.Keys - {x}
  {
    DeleteKeeps(s, x);
    assert s.docs[id].id == id && (x in s.docs ==> s.docs[x].id == x);
  }

  /** An available job that is alone in the store goes to the next fetch of its queue. */
  lemma AloneIsClaimed(s: Redis, id: string, d: Row, worker: string)
    requires Waiting(s, id, d) && s.docs.Keys == {id}
    ensures var t := Apply(s, FetchOne(d.queue, worker, 0, 0));
      id in t.docs && HoldsClaim(t.docs[id], worker, d.attempt + 1)
  {
    var queue, at := d.queue, UnixMilli(0);
    assert Placed(s, s.docs[id]);
    assert Candidate(s, queue, at, id);
    FetchClaimsIff(s, queue, at);
    PoppedIsCandidate(s, queue, at);
    FetchStoresClaim(s, queue, worker, Milliseconds(0), at);
  }

  lemma YieldedIsAvailable(s: Redis, e: Event, id: string)
    requires Agree(s) && Ends(s, e, id) && IsYieldWrite(e)
    ensures var t := Apply(s, e);
      id in t.docs && t.docs[id].attempt == s.docs[id].attempt - 1 && Waiting(t, id, t.docs[id])
  {
    SetStateKeepsIff(s, e.write, e.now);
    ApplyMoves(s, e, id);
    assert Writes(s, e.write) && e.write.id == id;
  }

  lemma FreshExtends(before: seq<Event>, more: seq<Event>)
    requires FreshIds(before) && forall i :: 0 <= i < |more| ==> !more[i].InsertJob?
    ensures FreshIds(before + more)
  {
    var events := before + more;
    assert forall i :: |before| <= i < |events| ==> events[i] == more[i - |before|];
    assert forall i :: 0 <= i < |before| ==> events[i] == before[i];
  }

  /** After a yield the same worker may be given the same token again, from every state with
      right indexes. */
  lemma YieldedTokenReturns(before: seq<Event>, e: Event, id: string) returns (after: seq<Event>)
    requires AllAllowed(before) && FreshIds(before) && Ends(Run(before), e, id) && IsYieldWrite(e)
    ensures FreshIds(before + [e] + after)
    ensures var s, t := Run(before), Run(before + [e] + after);
      id in t.docs && HoldsClaim(t.docs[id], s.docs[id].worker, s.docs[id].attempt)
  {
    IndexesAgree(before);
    after := ReclaimedAfterYield(before, Run(before), e, id);
    StillFresh(before, e, after);
  }

  lemma ReclaimedAfterYield(before: seq<Event>, s: Redis, e: Event, id: string) returns (after: seq<Event>)
    requires s == Run(before) && Agree(s) && Ends(s, e, id) && IsYieldWrite(e)
    ensures forall i :: 0 <= i < |after| ==> !after[i].InsertJob?
    ensures var t := Run(before + [e] + after);
      id in t.docs && HoldsClaim(t.docs[id], s.docs[id].worker, s.docs[id].attempt)
  {
    YieldedIsAvailable(s, e, id);
    after := TokenReturns(before, e, Apply(s, e), id, Apply(s, e).docs[id], s.docs[id].worker);
  }

  lemma StillFresh(before: seq<Event>, e: Event, after: seq<Event>)
    requires FreshIds(before) && !e.InsertJob? && forall i :: 0 <= i < |after| ==> !after[i].InsertJob?
    ensures FreshIds(before + [e] + after)
  {
    FreshExtends(before, [e] + after);
    assert before + ([e] + after) == before + [e] + after;
  }

  lemma TokenReturns(before: seq<Event>, e: Event, t: Redis, id: string, d: Row, worker: string)
      returns (after: seq<Event>)
    requires t == Apply(Run(before), e) && Waiting(t, id, d)
    ensures forall i :: 0 <= i < |after| ==> !after[i].InsertJob?
    ensures var u := Run(before + [e] + after); id in u.docs && HoldsClaim(u.docs[id], worker, d.attempt + 1)
  {
    var ids := DeleteOthers(t, id, d);
    AloneIsClaimed(DeleteAll(t, ids), id, d, worker);
    after := RunsOn(before, e, ids, FetchOne(d.queue, worker, 0, 0));
  }

  lemma RunsOn(before: seq<Event>, e: Event, ids: seq<string>, f: Event) returns (after: seq<Event>)
    requires !f.InsertJob?
    ensures forall i :: 0 <= i < |after| ==> !after[i].InsertJob?
    ensures Run(before + [e] + after) == Apply(DeleteAll(Apply(Run(before), e), ids), f)
  {
    RunSnoc(before, e);
    RunDeletes(before + [e], ids);
    RunSnoc(before + [e] + Deletes(ids), f);
    after := Deletes(ids) + [f];
    assert before + [e] + after == before + [e] + Deletes(ids) + [f];
  }

  /** The exact condition, as in the memory store: the token of an ended claim is refused for
      ever if and only if the claim did not end in a yield. */
  lemma FencedForEverIffNotYield(before: seq<Event>, e: Event, id: string)
    requires AllAllowed(before) && FreshIds(before) && Ends(Run(before), e, id)
    ensures var n := Run(before).docs[id].attempt;
      !IsYieldWrite(e) <==>
      forall after :: FreshIds(before + [e] + after) ==> Refuses(Run(before + [e] + after), id, n)
  {
    var n := Run(before).docs[id].attempt;
    if IsYieldWrite(e) {
      var after := YieldedTokenReturns(before, e, id);
      assert !Refuses(Run(before + [e] + after), id, n);
    } else {
      forall after | FreshIds(before + [e] + after) ensures Refuses(Run(before + [e] + after), id, n) {
        EndedClaimsStayFenced(before, e, after, id);
      }
    }
  }
}
