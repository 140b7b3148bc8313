/** No job starts early in Redis: in every run whose clock does not go back, what is available
    or running is due, so a fetch claims only jobs whose run time has come. */
module RedisDue {
  import opened Prelude
  import opened Jobs
  import opened RedisStore
  import opened RedisIndexes
  import opened RedisOrder

  /** Whether the job is where a fetch can take it, or has taken it. */
  predicate OutOfWaiting(s: Redis, d: Row) {
    MemberOf(d) in s.avail || d.state.Running?
  }

  /** Nothing is out of waiting before its run time, as the clock stands at `t`. */
  ghost predicate NothingEarly(s: Redis, t: int) {
    forall id :: id in s.docs && OutOfWaiting(s, s.docs[id]) ==> s.docs[id].runAt <= UnixMilli(t)
  }

  lemma MilliMonotone(t: int, u: int)
    requires t <= u
    ensures UnixMilli(t) <= UnixMilli(u)
  {
  }

  lemma LaterIsFine(s: Redis, t: int, u: int)
    requires NothingEarly(s, t) && t <= u
    ensures NothingEarly(s, u)
  {
    MilliMonotone(t, u);
  }

  // ---- steps on one job ----

  /** A step on one job is fine if that job ends up waiting, gone or due. */
  lemma LocalNothingEarly(s: Redis, t: Redis, m: Member, now: int)
    requires Agree(s) && Agree(t) && Local(s, t, m) && NothingEarly(s, now)
    requires m.id in t.docs && OutOfWaiting(t, t.docs[m.id]) ==> t.docs[m.id].runAt <= UnixMilli(now)
    ensures NothingEarly(t, now)
  {
    forall id | id in t.docs && OutOfWaiting(t, t.docs[id]) ensures t.docs[id].runAt <= UnixMilli(now) {
      if id != m.id {
        assert id in s.docs && t.docs[id] == s.docs[id] && s.docs[id].id == id;
        assert MemberOf(s.docs[id]) != m;
        assert OutOfWaiting(s, s.docs[id]);
      }
    }
  }

  lemma InsertNothingEarly(s: Redis, id: string, p: InsertParams, now: int)
    requires Agree(s) && id !in s.docs && NothingEarly(s, now)
    ensures NothingEarly(Insert(s, id, p, now), now)
  {
    var t, d := Insert(s, id, p, now), NewDoc(id, p, now);
    var m := MemberOf(d);
    assert !Owned(s, m);
    InsertKeeps(s, id, p, now);
    InsertSettles(s, id, p, now, d);
    NewDocDue(id, p, now);
    LocalNothingEarly(s, t, m, now);
  }

  lemma NewDocDue(id: string, p: InsertParams, now: int)
    ensures var d := NewDoc(id, p, now); !d.state.Running? && (!d.state.Scheduled? ==> d.runAt <= UnixMilli(now))
  {
    var runAt := NewRow(id, p, now).runAt;
    if runAt <= now {
      MilliMonotone(runAt, now);
    }
  }

  lemma PromoteNothingEarly(s: Redis, queue: string, now: int)
    requires Agree(s) && NothingEarly(s, now)
    ensures NothingEarly(Promote(s, queue, UnixMilli(now)), now)
  {
    var t := Promote(s, queue, UnixMilli(now));
    forall id | id in t.docs && OutOfWaiting(t, t.docs[id]) ensures t.docs[id].runAt <= UnixMilli(now) {
      var d := s.docs[id];
      var m := MemberOf(d);
      assert Placed(s, d) && d.id == id;
      if m !in s.avail && !d.state.Running? {
        assert m in ToPromote(s, queue, UnixMilli(now));
      }
    }
  }

  lemma ClaimNothingEarly(s: Redis, m: Member, worker: string, lease: int, ms: int, now: int)
    requires Agree(s) && NothingEarly(s, now) && m in s.avail
    ensures NothingEarly(Claim(s, m, worker, lease, ms), now)
  {
    assert Owned(s, m) && s.docs[m.id].id == m.id;
    ClaimKeeps(s, m, worker, lease, ms);
    assert OutOfWaiting(s, s.docs[m.id]);
    ClaimIsLocal(s, m, worker, lease, ms);
    LocalNothingEarly(s, Claim(s, m, worker, lease, ms), m, now);
  }

  lemma ClaimIsLocal(s: Redis, m: Member, worker: string, lease: int, ms: int)
    requires m.id in s.docs
    ensures var t := Claim(s, m, worker, lease, ms);
      Local(s, t, m) && m.id in t.docs && t.docs[m.id].runAt == s.docs[m.id].runAt
  {
  }

  lemma FetchNothingEarly(s: Redis, queue: string, worker: string, lease: int, now: int)
    requires Agree(s) && NothingEarly(s, now)
    ensures NothingEarly(Fetch(s, queue, worker, lease, UnixMilli(now)), now)
  {
    PromoteNothingEarly(s, queue, now);
    PromoteKeeps(s, queue, UnixMilli(now));
    var t := Promote(s, queue, UnixMilli(now));
    var first := First(t.avail, queue);
    if first.Some? {
      assert IsFirst(t.avail, queue, first.value);
      ClaimNothingEarly(t, first.value, worker, lease, UnixMilli(now), now);
    }
  }

  lemma WriteNothingEarly(s: Redis, p: SetStateParams, now: int)
    requires Agree(s) && NothingEarly(s, now) && (Writes(s, p) ==> WorkerWrite(p))
    ensures NothingEarly(SetState(s, p, now), now)
  {
    if Writes(s, p) {
      var d := s.docs[p.id];
      var w := WrittenDoc(d, p, now);
      assert d.id == p.id && OutOfWaiting(s, d) && Placed(s, d);
      SetStateKeepsIff(s, p, now);
      WrittenIdentity(d, p, now);
      PipelineIsLocal(s, p, w, now);
      WrittenIsDue(s, p, d, w, now);
      LocalNothingEarly(s, WritePipeline(s, p, w, now), MemberOf(w), now);
    }
  }

  lemma WrittenIsDue(s: Redis, p: SetStateParams, d: Row, w: Row, now: int)
    requires w == WrittenDoc(d, p, now) && MemberOf(w) == MemberOf(d) && d.id == p.id && WorkerWrite(p)
    requires MemberOf(d) !in s.avail && d.runAt <= UnixMilli(now)
    ensures !w.state.Running?
    ensures MemberOf(w) in WritePipeline(s, p, w, now).avail ==> w.runAt <= UnixMilli(now)
  {
    if !p.isYield && p.state.Retryable? && FromMilli(w.runAt) <= now {
      MilliMonotone(FromMilli(w.runAt), now);
      assert UnixMilli(FromMilli(w.runAt)) == w.runAt;
    }
  }

  lemma OtherNothingEarly(s: Redis, e: Event, m: Member, now: int)
    requires Agree(s) && NothingEarly(s, now) && m.id in s.docs && MemberOf(s.docs[m.id]) == m
    requires e.RescueOne? || e.Beat? || e.Start? || e.CancelJob? || e.RescheduleJob?
    requires e.id == m.id && (e.RescueOne? ==> e.queue == m.queue) && Allowed(s, e)
    ensures NothingEarly(Apply(s, e), now)
  {
    var t := Apply(s, e);
    ApplyKeeps(s, e);
    assert Placed(s, s.docs[m.id]);
    OtherIsLocal(s, e, m);
    LocalNothingEarly(s, t, m, now);
  }

  /** The step stays with one job, and takes it out of waiting only if it was out already. */
  ghost predicate NoSooner(s: Redis, t: Redis, m: Member)
    requires m.id in s.docs
  {
    && Local(s, t, m)
    && (m.id in t.docs && OutOfWaiting(t, t.docs[m.id]) ==>
         OutOfWaiting(s, s.docs[m.id]) && t.docs[m.id].runAt == s.docs[m.id].runAt)
  }

  lemma OtherIsLocal(s: Redis, e: Event, m: Member)
    requires m.id in s.docs && MemberOf(s.docs[m.id]) == m && Placed(s, s.docs[m.id])
    requires e.RescueOne? || e.Beat? || e.Start? || e.CancelJob? || e.RescheduleJob?
    requires e.id == m.id && (e.RescueOne? ==> e.queue == m.queue)
    ensures NoSooner(s, Apply(s, e), m)
  {
    match e
    case RescueOne(_, _, at, before) => RescueIsNoSooner(s, m, UnixMilli(at), UnixMilli(before));
    case CancelJob(_, now) => CancelIsNoSooner(s, m, now);
    case RescheduleJob(_, runAt) => RescheduleIsNoSooner(s, m, runAt);
    case _ =>
  }

  lemma RescueIsNoSooner(s: Redis, m: Member, at: int, before: int)
    requires m.id in s.docs && MemberOf(s.docs[m.id]) == m
    ensures NoSooner(s, Rescue(s, m, at, before), m)
  {
  }

  lemma CancelIsNoSooner(s: Redis, m: Member, now: int)
    requires m.id in s.docs && MemberOf(s.docs[m.id]) == m
    ensures NoSooner(s, Cancel(s, m.id, now), m)
  {
  }

  lemma RescheduleIsNoSooner(s: Redis, m: Member, runAt: int)
    requires m.id in s.docs && MemberOf(s.docs[m.id]) == m
    ensures NoSooner(s, Reschedule(s, m.id, runAt), m)
  {
  }

  lemma DeleteNothingEarly(s: Redis, id: string, now: int)
    requires Agree(s) && NothingEarly(s, now)
    ensures NothingEarly(Delete(s, id), now)
  {
    if id in s.docs {
      assert s.docs[id].id == id;
      DeleteKeeps(s, id);
      DeleteIsLocal(s, id, s.docs[id]);
      LocalNothingEarly(s, Delete(s, id), MemberOf(s.docs[id]), now);
    }
  }

  // ---- runs ----

  /** The clock reading that an event carries, if it matters here. */
  function Clock(e: Event): Option<int> {
    match e
    case InsertJob(_, _, now) => Some(now)
    case FetchOne(_, _, _, now) => Some(now)
    case Write(_, now) => Some(now)
    case _ => None
  }

  predicate ReadsUpTo(e: Event, t: int) {
    Clock(e).Some? ==> Clock(e).value <= t
  }

  /** No reading of the clock is later than `t`. */
  ghost predicate ClockUpTo(events: seq<Event>, t: int) {
    forall k :: 0 <= k < |events| ==> ReadsUpTo(events[k], t)
  }

  /** The clock never goes back. */
  predicate ClockRises(events: seq<Event>) {
    forall i, j :: 0 <= i <= j < |events| && Clock(events[j]).Some? ==> ReadsUpTo(events[i], Clock(events[j]).value)
  }

  lemma PrefixRises(events: seq<Event>, t: int) returns (now: int)
    requires |events| > 0 && ClockRises(events) && ClockUpTo(events, t)
    ensures var n := |events| - 1;
      && ClockRises(events[..n]) && ClockUpTo(events[..n], now) && now <= t
      && (Clock(events[n]).Some? ==> Clock(events[n]).value == now)
  {
    var n := |events| - 1;
    now := if Clock(events[n]).Some? then Clock(events[n]).value else t;
    assert ReadsUpTo(events[n], t);
    forall k | 0 <= k < n ensures ReadsUpTo(events[k], now) {
      assert ReadsUpTo(events[k], t);
    }
  }

  lemma ApplyNothingEarly(s: Redis, e: Event, t: int)
    requires Agree(s) && NothingEarly(s, t) && Allowed(s, e) && (Clock(e).Some? ==> Clock(e).value == t)
    ensures NothingEarly(Apply(s, e), t)
  {
    match e
    case InsertJob(id, p, now) => if id !in s.docs { InsertNothingEarly(s, id, p, now); }
    case FetchOne(queue, worker, lease, now) => FetchNothingEarly(s, queue, worker, Milliseconds(lease), now);
    case Write(p, now) => WriteNothingEarly(s, p, now);
    case DeleteJob(id) => DeleteNothingEarly(s, id, t);
    case RescueOne(queue, id, _, _) =>
      if id in s.docs && s.docs[id].queue == queue {
        assert s.docs[id].id == id;
        OtherNothingEarly(s, e, Member(queue, id), t);
      }
    case Beat(id, _, _, _, _) =>
      if id in s.docs {
        assert s.docs[id].id == id;
        OtherNothingEarly(s, e, MemberOf(s.docs[id]), t);
      }
    case Start(id, _, _, _) =>
      if id in s.docs {
        assert s.docs[id].id == id;
        OtherNothingEarly(s, e, MemberOf(s.docs[id]), t);
      }
    case CancelJob(id, _) =>
      if id in s.docs {
        assert s.docs[id].id == id;
        OtherNothingEarly(s, e, MemberOf(s.docs[id]), t);
      }
    case RescheduleJob(id, _) =>
      if id in s.docs {
        assert s.docs[id].id == id;
        OtherNothingEarly(s, e, MemberOf(s.docs[id]), t);
      }
  }

  lemma {:induction false} RunNothingEarly(events: seq<Event>, t: int)
    requires AllAllowed(events) && ClockRises(events) && ClockUpTo(events, t)
    ensures NothingEarly(Run(events), t)
  {
    if events != [] {
      var n := |events| - 1;
      var init := events[..n];
      assert forall k :: 0 <= k < n ==> init[..k] == events[..k] && init[k] == events[k];
      var now := PrefixRises(events, t);
      RunNothingEarly(init, now);
      IndexesAgree(init);
      ApplyNothingEarly(Run(init), events[n], now);
      LaterIsFine(Run(events), now, t);
    }
  }

  /** In every allowed run whose clock does not go back, a fetch claims only a job of its queue
      that was ready and whose run time had come, to the millisecond. */
  lemma FetchIsNeverEarly(events: seq<Event>, queue: string, now: int)
    requires AllAllowed(events) && ClockRises(events) && ClockUpTo(events, now)
    requires Popped(Run(events), queue, UnixMilli(now)).Some?
    ensures var s, m := Run(events), Popped(Run(events), queue, UnixMilli(now)).value;
      m.id in s.docs && s.docs[m.id].queue == queue && Ready(s.docs[m.id]) && s.docs[m.id].runAt <= UnixMilli(now)
  {
    IndexesAgree(events);
    RunNothingEarly(events, now);
    var s := Run(events);
    PoppedIsCandidate(s, queue, UnixMilli(now));
    var m := Popped(s, queue, UnixMilli(now)).value;
    assert s.docs[m.id].id == m.id;
  }
}
