/** The scripts as a server runs them, command by command, each proved to be one step of
    the store. */
module RedisServer {
  import opened Prelude
  import opened Strings
  import opened Jobs
  import opened Ordering
  import opened RedisStore
  import opened RedisOrder

  function OrderOf(z: map<Member, int>): (Member, Member) -> bool {
    (a: Member, b: Member) => a in z && b in z && Before(z, a, b)
  }

  lemma OrderIsTotal(z: map<Member, int>, queue: string, s: set<Member>)
    requires forall m :: m in s ==> m in z && m.queue == queue
    ensures StrictTotal(OrderOf(z), s)
  {
    forall a | a in s ensures !OrderOf(z)(a, a) {
      LessTotal(a.id, a.id);
    }
    forall a, b | a in s && b in s && a != b ensures OrderOf(z)(a, b) || OrderOf(z)(b, a) {
      BeforeTotal(z, a, b);
    }
    forall a, b, c | a in s && b in s && c in s && OrderOf(z)(a, b) && OrderOf(z)(b, c) ensures OrderOf(z)(a, c) {
      BeforeTransitive(z, a, b, c);
    }
  }

  /** ZRANGEBYSCORE with a limit: the first entries that are due, in order. */
  method RangeByScore(z: map<Member, int>, queue: string, now: int, limit: nat) returns (q: seq<Member>)
    ensures forall m :: m in q <==> m in Due(z, queue, now) && |Earlier(z, Due(z, queue, now), m)| < limit
  {
    var due := set m | m in z.Keys && m.queue == queue && z[m] <= now;
    assert due == Due(z, queue, now);
    OrderIsTotal(z, queue, due);
    var all := Sort(OrderOf(z), due);
    q := if |all| <= limit then all else all[..limit];
    SortedIsDistinct(OrderOf(z), due, all);
    forall i | 0 <= i < |all| ensures |Earlier(z, due, all[i])| == i {
      RankIsIndex(OrderOf(z), due, all, i);
      assert all[i] in all;
      assert Earlier(z, due, all[i]) == Predecessors(OrderOf(z), due, all[i]);
    }
    forall m | m in due && |Earlier(z, due, m)| < limit ensures m in q {
      assert m in all;
      var i :| 0 <= i < |all| && all[i] == m;
      assert q[i] == m;
    }
    forall m | m in q ensures m in due && |Earlier(z, due, m)| < limit {
      var i :| 0 <= i < |q| && q[i] == m;
      assert all[i] == m && m in all;
    }
  }

  /** ZPOPMIN's choice. */
  method LeastMember(z: map<Member, int>, queue: string) returns (least: Option<Member>)
    ensures least == First(z, queue)
  {
    var rest := set m | m in z.Keys && m.queue == queue;
    ghost var all := rest;
    least := None;
    while rest != {}
      invariant rest <= all
      invariant least.None? ==> rest == all
      invariant least.Some? ==> least.value in all - rest
      invariant least.Some? ==> forall x :: x in all - rest && x != least.value ==> Before(z, least.value, x)
      decreases |rest|
    {
      var m :| m in rest;
      if least.None? {
        least := Some(m);
      } else {
        BeforeTotal(z, m, least.value);
        if Before(z, m, least.value) {
          forall x | x in all - rest && x != least.value ensures Before(z, m, x) {
            BeforeTransitive(z, m, least.value, x);
          }
          least := Some(m);
        }
      }
      rest := rest - {m};
    }
    if least.Some? {
      assert forall x :: x in z && x.queue == queue ==> x in all - rest;
      FirstUnique(z, queue, least.value);
    } else {
      assert forall m :: IsFirst(z, queue, m) ==> m in all;
    }
  }

  function Stored(q: seq<Member>, docs: map<string, Row>): set<Member> {
    set m | m in q && m.id in docs
  }

  lemma MovedMore(s: Redis, moving: set<Member>, m: Member)
    requires m.id in s.docs
    ensures Moved(s, moving + {m}).sched == Moved(s, moving).sched - {m}
    ensures Moved(s, moving + {m}).avail == Moved(s, moving).avail[m := Score(s.docs[m.id])]
  {
  }

  /** ZREM from the scheduled set and ZADD to the available set, entry by entry. */
  method MoveEach(docs: map<string, Row>, sched: map<Member, int>, avail: map<Member, int>, due: seq<Member>,
                  ghost s: Redis)
      returns (fromSched: map<Member, int>, toAvail: map<Member, int>)
    requires s.docs == docs && s.sched == sched && s.avail == avail
    ensures fromSched == Moved(s, Stored(due, docs)).sched && toAvail == Moved(s, Stored(due, docs)).avail
  {
    fromSched, toAvail := sched, avail;
    assert Stored(due[..0], docs) == {};
    for i := 0 to |due|
      invariant fromSched == Moved(s, Stored(due[..i], docs)).sched && toAvail == Moved(s, Stored(due[..i], docs)).avail
    {
      var m := due[i];
      assert due[..i + 1] == due[..i] + [m];
      if m.id in docs {
        assert Stored(due[..i + 1], docs) == Stored(due[..i], docs) + {m};
        MovedMore(s, Stored(due[..i], docs), m);
        fromSched := fromSched - {m};
        toAvail := toAvail[m := Score(docs[m.id])];
      } else {
        assert Stored(due[..i + 1], docs) == Stored(due[..i], docs);
      }
    }
    assert due[..|due|] == due;
  }

  class Server {
    var docs: map<string, Row>
    var avail: map<Member, int>
    var sched: map<Member, int>
    var run: map<Member, int>
    var uniq: map<string, string>
    var created: map<string, int>

    ghost function Model(): Redis
      reads this
    {
      Redis(docs, avail, sched, run, uniq, created)
    }

    constructor ()
      ensures Model() == EMPTY
    {
      docs, avail, sched, run, uniq, created := map[], map[], map[], map[], map[], map[];
    }

    /** insertJobScript */
    method InsertJob(id: string, p: InsertParams, now: int) returns (inserted: bool)
      modifies this
      ensures Model() == Insert(old(Model()), id, p, now)
      ensures inserted <==> !(p.uniqueKey != "" && p.uniqueKey in old(uniq))
    {
      if p.uniqueKey != "" && p.uniqueKey in uniq {
        return false;
      }
      if p.uniqueKey != "" {
        uniq := uniq[p.uniqueKey := id];
      }
      var d := NewDoc(id, p, now);
      docs := docs[id := d];
      if d.state.Scheduled? {
        sched := sched[MemberOf(d) := d.runAt];
      } else {
        avail := avail[MemberOf(d) := Score(d)];
      }
      created := created[id := d.createdAt];
      inserted := true;
    }

    /** The promotion loop of fetchOneScript. */
    method PromoteDue(queue: string, now: int)
      modifies this`avail, this`sched
      ensures Model() == Promote(old(Model()), queue, now)
    {
      var due := RangeByScore(sched, queue, now, PROMOTION_LIMIT);
      var fromSched, toAvail := MoveEach(docs, sched, avail, due, Model());
      assert Stored(due, docs) == ToPromote(Model(), queue, now);
      sched, avail := fromSched, toAvail;
    }

    /** fetchOneScript: promote what is due, take the least entry and claim its document. */
    method FetchOne(queue: string, worker: string, lease: int, now: int) returns (claimed: Option<Row>)
      modifies this
      ensures Model() == Fetch(old(Model()), queue, worker, lease, now)
      ensures var popped := Popped(old(Model()), queue, now);
        claimed == if popped.Some? && popped.value.id in docs then Some(docs[popped.value.id]) else None
    {
      PromoteDue(queue, now);
      var least := LeastMember(avail, queue);
      if least.None? {
        return None;
      }
      var m := least.value;
      avail := avail - {m};
      if m.id !in docs {
        return None;
      }
      var d := Claimed(docs[m.id], worker, lease, now);
      docs := docs[m.id := d];
      run := run[m := if d.leaseExpiresAt.Some? then d.leaseExpiresAt.value else now];
      claimed := Some(d);
    }

    /** rescueOneScript */
    method RescueOne(m: Member, at: int, before: int) returns (rescued: bool)
      modifies this
      ensures Model() == Rescue(old(Model()), m, at, before)
      ensures rescued <==> docs != old(docs)
    {
      if m.id !in docs || !docs[m.id].state.Running? {
        run := run - {m};
        return false;
      }
      var d := docs[m.id];
      if d.leaseExpiresAt.Some? {
        if d.leaseExpiresAt.value > at {
          return false;
        }
      } else if m !in run || run[m] > before {
        return false;
      }
      docs := docs[m.id := Released(d)];
      run := run - {m};
      avail := avail[m := Score(d)];
      assert docs[m.id] != old(docs)[m.id];
      rescued := true;
    }

    /** jobSetStateIfRunning */
    method SetStateIfRunning(p: SetStateParams, now: int) returns (written: bool)
      modifies this
      ensures Model() == SetState(old(Model()), p, now)
      ensures written <==> Writes(old(Model()), p)
    {
      if p.id !in docs {
        return false;
      }
      if !docs[p.id].state.Running? || !MatchesClaim(p, docs[p.id].worker, docs[p.id].attempt) {
        return false;
      }
      var d := WrittenDoc(docs[p.id], p, now);
      var m := Member(d.queue, p.id);
      run := run - {m};
      docs := docs[p.id := d];
      if p.isYield {
        avail := avail[m := Score(d)];
      } else if p.state.Retryable? {
        if FromMilli(d.runAt) > now {
          sched := sched[m := d.runAt];
        } else {
          avail := avail[m := Score(d)];
        }
      } else if FreesKey(d) {
        uniq := uniq - {d.uniqueKey};
      }
      written := true;
    }

    /** heartbeatScript */
    method RenewLease(id: string, worker: string, attempt: int, lease: int) returns (renewed: bool)
      modifies this
      ensures Model() == Heartbeat(old(Model()), id, worker, attempt, lease)
      ensures renewed <==> id in old(docs) && HoldsClaim(old(docs)[id], worker, attempt)
    {
      if id !in docs || !HoldsClaim(docs[id], worker, attempt) {
        return false;
      }
      docs := docs[id := docs[id].(leaseExpiresAt := Some(lease))];
      run := run[Member(docs[id].queue, id) := lease];
      renewed := true;
    }

    /** jobCancel, uninterrupted */
    method JobCancel(id: string, now: int) returns (cancelled: bool)
      modifies this
      ensures Model() == Cancel(old(Model()), id, now)
      ensures cancelled <==> id in old(docs) && (old(docs)[id].state.Available? || old(docs)[id].state.Scheduled?)
    {
      if id !in docs || !(docs[id].state.Available? || docs[id].state.Scheduled?) {
        return false;
      }
      var d := Encoded(docs[id].(state := Cancelled, finalizedAt := Some(UnixMilli(now))));
      if FreesKey(d) {
        uniq := uniq - {d.uniqueKey};
      }
      var m := Member(d.queue, id);
      avail := avail - {m};
      sched := sched - {m};
      docs := docs[id := d];
      cancelled := true;
    }

    /** jobDelete, uninterrupted */
    method JobDelete(id: string) returns (found: bool)
      modifies this
      ensures Model() == Delete(old(Model()), id)
      ensures found <==> id in old(docs)
    {
      if id !in docs {
        return false;
      }
      var d := docs[id];
      var m := Member(d.queue, id);
      docs := docs - {id};
      avail := avail - {m};
      sched := sched - {m};
      run := run - {m};
      created := created - {id};
      if d.uniqueKey != "" {
        uniq := uniq - {d.uniqueKey};
      }
      found := true;
    }

    /** jobReschedule, uninterrupted */
    method JobReschedule(id: string, runAt: int) returns (found: bool)
      modifies this
      ensures Model() == Reschedule(old(Model()), id, runAt)
      ensures found <==> id in old(docs)
    {
      if id !in docs {
        return false;
      }
      var d := Encoded(docs[id].(runAt := UnixMilli(runAt), state := Scheduled));
      var m := Member(d.queue, id);
      avail := avail - {m};
      sched := sched[m := d.runAt];
      docs := docs[id := d];
      found := true;
    }
  }
}
