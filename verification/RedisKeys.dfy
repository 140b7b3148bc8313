/** The unique reservations agree with the documents. */
module RedisKeys {
  import opened Prelude
  import opened Jobs
  import opened RedisStore
  import opened RedisIndexes
  import JobStore

  predicate Holds(d: Row) {
    d.uniqueKey != "" && JobStore.Reserves(d, d.uniqueKey)
  }

  predicate OwnsKey(s: Redis, id: string)
    requires id in s.docs
  {
    s.docs[id].uniqueKey in s.uniq && s.uniq[s.docs[id].uniqueKey] == id
  }

  predicate KeyOwned(s: Redis, k: string)
    requires k in s.uniq
  {
    s.uniq[k] in s.docs && s.docs[s.uniq[k]].uniqueKey == k && Holds(s.docs[s.uniq[k]])
  }

  /** Every document that reserves its key owns the reservation. */
  ghost predicate HoldersOwn(s: Redis) {
    forall id :: id in s.docs && Holds(s.docs[id]) ==> OwnsKey(s, id)
  }

  /** Every reservation belongs to a document that reserves that key. */
  ghost predicate OwnersHold(s: Redis) {
    forall k :: k in s.uniq ==> KeyOwned(s, k)
  }

  ghost predicate KeysAgree(s: Redis) {
    HoldersOwn(s) && OwnersHold(s)
  }

  ghost predicate KeyTaken(s: Redis, key: string) {
    exists id :: id in s.docs && JobStore.Reserves(s.docs[id], key)
  }

  /** Then no two documents reserve one key, and an insert is refused exactly when the
      memory store would refuse it. */
  lemma AgreementIsExclusive(s: Redis, key: string)
    requires KeysAgree(s) && key != ""
    ensures key in s.uniq <==> KeyTaken(s, key)
    ensures forall i, j :: i in s.docs && j in s.docs && i != j ==>
      !(JobStore.Reserves(s.docs[i], key) && JobStore.Reserves(s.docs[j], key))
  {
    forall id | id in s.docs && JobStore.Reserves(s.docs[id], key) ensures key in s.uniq && s.uniq[key] == id {
      assert Holds(s.docs[id]);
    }
    if key in s.uniq {
      assert JobStore.Reserves(s.docs[s.uniq[key]], key);
    }
  }

  // ---- steps ----

  /** No document changes its key, its presence or whether it is finished. */
  ghost predicate SameHolders(s: Redis, t: Redis) {
    && t.uniq == s.uniq && t.docs.Keys == s.docs.Keys
    && forall id :: id in s.docs ==>
         t.docs[id].uniqueKey == s.docs[id].uniqueKey && Holds(t.docs[id]) == Holds(s.docs[id])
  }

  lemma SameHoldersKeep(s: Redis, t: Redis)
    requires SameHolders(s, t)
    ensures KeysAgree(t) <==> KeysAgree(s)
  {
  }

  lemma InsertKeepsKeys(s: Redis, id: string, p: InsertParams, now: int)
    requires KeysAgree(s) && id !in s.docs
    ensures KeysAgree(Insert(s, id, p, now))
  {
    var d := NewDoc(id, p, now);
    assert d.uniqueKey == p.uniqueKey && !Terminal(d.state);
  }

  lemma ReplaceSameHolders(s: Redis, t: Redis, id: string, d: Row)
    requires id in s.docs && t.docs == s.docs[id := d] && t.uniq == s.uniq
    requires d.uniqueKey == s.docs[id].uniqueKey && !Terminal(d.state) && !Terminal(s.docs[id].state)
    ensures SameHolders(s, t)
  {
  }

  lemma ClaimSameHolders(s: Redis, m: Member, worker: string, lease: int, now: int)
    requires m.id in s.docs && !Terminal(s.docs[m.id].state)
    ensures SameHolders(s, Claim(s, m, worker, lease, now))
  {
    ReplaceSameHolders(s, Claim(s, m, worker, lease, now), m.id, Claimed(s.docs[m.id], worker, lease, now));
  }

  lemma FetchKeepsKeys(s: Redis, queue: string, worker: string, lease: int, now: int)
    requires Agree(s) && KeysAgree(s)
    ensures KeysAgree(Fetch(s, queue, worker, lease, now))
  {
    PromoteKeeps(s, queue, now);
    var t := Promote(s, queue, now);
    SameHoldersKeep(s, t);
    var first := First(t.avail, queue);
    if first.Some? {
      var m := first.value;
      assert IsFirst(t.avail, queue, m);
      assert Owned(t, m) && Placed(t, t.docs[m.id]);
      ClaimSameHolders(t, m, worker, lease, now);
      SameHoldersKeep(t, Claim(t, m, worker, lease, now));
    }
  }

  lemma RescueSameHolders(s: Redis, m: Member, at: int, before: int)
    ensures SameHolders(s, Rescue(s, m, at, before))
  {
    var t := Rescue(s, m, at, before);
    if t.docs != s.docs {
      ReplaceSameHolders(s, t, m.id, Released(s.docs[m.id]));
    }
  }

  lemma HeartbeatSameHolders(s: Redis, id: string, worker: string, attempt: int, lease: int)
    ensures SameHolders(s, Heartbeat(s, id, worker, attempt, lease))
  {
    if id in s.docs && HoldsClaim(s.docs[id], worker, attempt) {
      ReplaceSameHolders(s, Heartbeat(s, id, worker, attempt, lease), id, s.docs[id].(leaseExpiresAt := Some(lease)));
    }
  }

  lemma MarkStartedSameHolders(s: Redis, id: string, worker: string, attempt: int, at: int)
    ensures SameHolders(s, MarkStarted(s, id, worker, attempt, at))
  {
    if id in s.docs && HoldsClaim(s.docs[id], worker, attempt) {
      ReplaceSameHolders(s, MarkStarted(s, id, worker, attempt, at), id, s.docs[id].(startedAt := Some(at)));
    }
  }

  /** A step that replaces one document by a finished one and frees its ordinary key. */
  lemma FinishKeepsKeys(s: Redis, t: Redis, id: string, d: Row)
    requires KeysAgree(s) && id in s.docs && d.uniqueKey == s.docs[id].uniqueKey
    requires !Terminal(s.docs[id].state) && Terminal(d.state)
    requires t.docs == s.docs[id := d] && t.uniq == if FreesKey(d) then s.uniq - {d.uniqueKey} else s.uniq
    ensures KeysAgree(t)
  {
    assert FreesKey(d) ==> Holds(s.docs[id]) && s.uniq[d.uniqueKey] == id;
    forall x | x in t.docs && Holds(t.docs[x]) ensures OwnsKey(t, x) {
      assert Holds(s.docs[x]);
    }
    forall k | k in t.uniq ensures KeyOwned(t, k) {
      assert k in s.uniq;
    }
  }

  lemma SetStateKeepsKeys(s: Redis, p: SetStateParams, now: int)
    requires KeysAgree(s) && (Writes(s, p) ==> WorkerWrite(p))
    ensures KeysAgree(SetState(s, p, now))
  {
    if Writes(s, p) {
      var w := WrittenDoc(s.docs[p.id], p, now);
      WrittenIdentity(s.docs[p.id], p, now);
      if p.isYield || p.state.Retryable? {
        SameHoldersKeep(s, WritePipeline(s, p, w, now));
      } else {
        FinishKeepsKeys(s, WritePipeline(s, p, w, now), p.id, w);
      }
    }
  }

  lemma CancelKeepsKeys(s: Redis, id: string, now: int)
    requires KeysAgree(s)
    ensures KeysAgree(Cancel(s, id, now))
  {
    var t := Cancel(s, id, now);
    if id in s.docs && Ready(s.docs[id]) {
      FinishKeepsKeys(s, t, id, t.docs[id]);
    }
  }

  predicate OthersKey(s: Redis, id: string) {
    && id in s.docs && s.docs[id].uniqueKey != ""
    && s.docs[id].uniqueKey in s.uniq && s.uniq[s.docs[id].uniqueKey] != id
  }

  /** Deleting a job deletes the reservation of its key whoever owns it, so the keys stay
      right exactly when no other job has taken the key since. */
  lemma DeleteKeepsKeysIff(s: Redis, id: string)
    requires KeysAgree(s)
    ensures KeysAgree(Delete(s, id)) <==> !OthersKey(s, id)
  {
    if id in s.docs {
      var t, key := Delete(s, id), s.docs[id].uniqueKey;
      if OthersKey(s, id) {
        var owner := s.uniq[key];
        assert owner in t.docs && Holds(t.docs[owner]) && key !in t.uniq;
      } else {
        forall x | x in t.docs && Holds(t.docs[x]) ensures OwnsKey(t, x) {
          assert x in s.docs && Holds(s.docs[x]);
        }
        forall k | k in t.uniq ensures KeyOwned(t, k) {
          assert k in s.uniq;
        }
      }
    }
  }

  predicate RevivesKey(s: Redis, id: string) {
    id in s.docs && Terminal(s.docs[id].state) && FreesKey(s.docs[id])
  }

  /** Rescheduling takes no reservation, so the keys stay right exactly when the job is not a
      finished one with an ordinary key. */
  lemma RescheduleKeepsKeysIff(s: Redis, id: string, runAt: int)
    requires KeysAgree(s)
    ensures KeysAgree(Reschedule(s, id, runAt)) <==> !RevivesKey(s, id)
  {
    if id in s.docs {
      var t := Reschedule(s, id, runAt);
      if RevivesKey(s, id) {
        assert !Holds(s.docs[id]) && Holds(t.docs[id]);
        assert t.docs[id].uniqueKey in s.uniq ==> s.uniq[t.docs[id].uniqueKey] != id;
      } else {
        SameHoldersKeep(s, t);
      }
    }
  }

  // ---- whole runs ----

  predicate KeySafe(s: Redis, e: Event) {
    match e
    case DeleteJob(id) => !OthersKey(s, id)
    case RescheduleJob(id, _) => !RevivesKey(s, id)
    case _ => true
  }

  lemma ApplyKeepsKeysIff(s: Redis, e: Event)
    requires Agree(s) && KeysAgree(s) && Allowed(s, e)
    ensures KeysAgree(Apply(s, e)) <==> KeySafe(s, e)
  {
    match e
    case InsertJob(id, params, now) => if id !in s.docs { InsertKeepsKeys(s, id, params, now); }
    case FetchOne(queue, worker, lease, now) => FetchKeepsKeys(s, queue, worker, Milliseconds(lease), UnixMilli(now));
    case Write(p, now) => SetStateKeepsKeys(s, p, now);
    case CancelJob(id, now) => CancelKeepsKeys(s, id, now);
    case DeleteJob(id) => DeleteKeepsKeysIff(s, id);
    case RescheduleJob(id, runAt) => RescheduleKeepsKeysIff(s, id, runAt);
    case RescueOne(queue, id, at, before) =>
      RescueSameHolders(s, Member(queue, id), UnixMilli(at), UnixMilli(before));
      SameHoldersKeep(s, Apply(s, e));
    case Beat(id, worker, attempt, at, until) =>
      HeartbeatSameHolders(s, id, worker, attempt, UnixMilli(if until == ZERO_TIME then at else until));
      SameHoldersKeep(s, Apply(s, e));
    case Start(id, worker, attempt, at) =>
      MarkStartedSameHolders(s, id, worker, attempt, UnixMilli(at));
      SameHoldersKeep(s, Apply(s, e));
  }

  ghost predicate AllKeySafe(events: seq<Event>) {
    forall k :: 0 <= k < |events| ==> KeySafe(Run(events[..k]), events[k])
  }

  /** In every allowed run that deletes no job whose key another job has taken and revives
      no finished job with an ordinary key, reservations and documents agree. */
  lemma {:induction false} ReservationsAgree(events: seq<Event>)
    requires AllAllowed(events) && AllKeySafe(events)
    ensures KeysAgree(Run(events))
  {
    if events != [] {
      var n := |events| - 1;
      var init := events[..n];
      assert forall k :: 0 <= k < n ==> init[..k] == events[..k] && init[k] == events[k];
      IndexesAgree(init);
      ReservationsAgree(init);
      ApplyKeepsKeysIff(Run(init), events[n]);
    }
  }

  /** After a delete that frees another job's key, the next insert under the key stores a
      second job that reserves it. */
  lemma FreedKeyAdmitsDuplicate(s: Redis, id: string, other: string, p: InsertParams, now: int)
    requires KeysAgree(s) && OthersKey(s, id) && other !in s.docs && p.uniqueKey == s.docs[id].uniqueKey
    ensures var key := p.uniqueKey; var owner := s.uniq[key]; var t := Insert(Delete(s, id), other, p, now);
      && owner != other && owner in t.docs && JobStore.Reserves(t.docs[owner], key)
      && other in t.docs && JobStore.Reserves(t.docs[other], key)
  {
    var owner := s.uniq[p.uniqueKey];
    assert owner in s.docs && Holds(s.docs[owner]);
    var t := Insert(Delete(s, id), other, p, now);
    assert t.docs[other] == NewDoc(other, p, now) && t.docs[owner] == s.docs[owner];
  }

  /** Such a state is reached by cancelling a job and inserting another under its key. */
  lemma CancelledJobsKeyIsRetaken(a: string, b: string, p: InsertParams, now: int)
    requires a != b && p.uniqueKey != "" && !IsPermanent(p.uniqueKey)
    ensures OthersKey(Run([InsertJob(a, p, now), CancelJob(a, now), InsertJob(b, p, now)]), a)
  {
    RunThree(InsertJob(a, p, now), CancelJob(a, now), InsertJob(b, p, now));
    HandedOver(a, b, p, now);
  }

  lemma HandedOver(a: string, b: string, p: InsertParams, now: int)
    requires a != b && p.uniqueKey != "" && !IsPermanent(p.uniqueKey)
    ensures OthersKey(Insert(Cancel(Insert(EMPTY, a, p, now), a, now), b, p, now), a)
    ensures b !in Cancel(Insert(EMPTY, a, p, now), a, now).docs
  {
    var first := Insert(EMPTY, a, p, now);
    assert first.docs == map[a := NewDoc(a, p, now)] && first.uniq == map[p.uniqueKey := a];
    var second := Cancel(first, a, now);
    assert second.docs.Keys == {a} && second.docs[a].uniqueKey == p.uniqueKey && second.uniq == map[];
  }

  /** A three-step run breaks the agreement: insert, cancel, reschedule the finished job. */
  lemma RevivingCancelledJobBreaks(id: string, p: InsertParams, now: int, runAt: int)
    requires p.uniqueKey != "" && !IsPermanent(p.uniqueKey)
    ensures !KeysAgree(Run([InsertJob(id, p, now), CancelJob(id, now), RescheduleJob(id, runAt)]))
  {
    RunThree(InsertJob(id, p, now), CancelJob(id, now), RescheduleJob(id, runAt));
    var first := Insert(EMPTY, id, p, now);
    InsertKeepsKeys(EMPTY, id, p, now);
    CancelKeepsKeys(first, id, now);
    assert first.docs[id] == NewDoc(id, p, now) && Ready(first.docs[id]);
    RescheduleKeepsKeysIff(Cancel(first, id, now), id, runAt);
  }
}
