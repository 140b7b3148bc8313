/** At most one row holds a unique key: for ever, for a permanent key; while it is not
    finished, for an ordinary one. */
module UniqueKeys {
  import opened Prelude
  import opened Jobs
  import opened JobStore

  /** No two rows reserve the same non-empty key. */
  ghost predicate Exclusive(s: Store, key: string) {
    forall i, j :: i in s.jobs && j in s.jobs && i != j ==>
      !(Reserves(s.jobs[i], key) && Reserves(s.jobs[j], key))
  }

  predicate RevivesTerminal(s: Store, e: Event) {
    e.Reschedule? && e.id in s.jobs && Terminal(s.jobs[e.id].state)
  }

  /** A surviving row reserves a key only if it did so before, unless a finished job is
      rescheduled. */
  lemma MovesReserves(e: Event, r: Row, q: Row, key: string)
    requires Moves(e, r, q) && Reserves(q, key)
    requires IsPermanent(key) || !(e.Reschedule? && e.id == r.id && Terminal(r.state))
    ensures Reserves(r, key)
  {
  }

  lemma ApplyKeepsExclusive(s: Store, e: Event, key: string)
    requires Valid(s) && Exclusive(s, key) && key != ""
    requires IsPermanent(key) || !RevivesTerminal(s, e)
    ensures Exclusive(Apply(s, e), key)
  {
    ApplyValid(s, e);
    var t := Apply(s, e);
    forall id | id in t.jobs && id in s.jobs && Reserves(t.jobs[id], key) ensures Reserves(s.jobs[id], key) {
      assert s.jobs[id].id == id;
      MovesReserves(e, s.jobs[id], t.jobs[id], key);
    }
  }

  /** None of the events reschedules a job that is finished when it happens. */
  ghost predicate NeverRevives(events: seq<Event>) {
    forall k :: 0 <= k < |events| ==> !RevivesTerminal(Run(EMPTY, events[..k]), events[k])
  }

  /** In every run at most one stored row carries a given permanent key, and in every run
      that never reschedules a finished job at most one unfinished row carries a given
      ordinary key. */
  lemma {:induction false} KeysStayExclusive(events: seq<Event>, key: string)
    requires key != "" && (IsPermanent(key) || NeverRevives(events))
    ensures Exclusive(Run(EMPTY, events), key)
  {
    if |events| > 0 {
      var init := events[..|events| - 1];
      assert forall k :: 0 <= k < |init| ==> init[..k] == events[..k] && init[k] == events[k];
      KeysStayExclusive(init, key);
      RunValid(EMPTY, init);
      ApplyKeepsExclusive(Run(EMPTY, init), events[|events| - 1], key);
    }
  }

  /** When rescheduling a finished job is harmless: exactly when no unfinished row holds
      its ordinary key. */
  lemma ReviveKeepsExclusiveIff(s: Store, e: Event)
    requires Valid(s) && RevivesTerminal(s, e)
    requires var key := s.jobs[e.id].uniqueKey; key != "" && !IsPermanent(key) && Exclusive(s, key)
    ensures var key := s.jobs[e.id].uniqueKey;
      Exclusive(Apply(s, e), key) <==> !KeyTaken(s, key)
  {
    var key := s.jobs[e.id].uniqueKey;
    var t := Apply(s, e);
    assert Reserves(t.jobs[e.id], key);
    assert forall id :: id in s.jobs && id != e.id ==> t.jobs[id] == s.jobs[id];
    if KeyTaken(s, key) {
      var holder :| holder in s.jobs && Reserves(s.jobs[holder], key);
      assert holder != e.id && Reserves(t.jobs[holder], key);
    }
  }

  /** A replayed job can share its key with a newer one: cancel, insert again, reschedule
      the first. */
  lemma RevivalBreaksExclusivity()
    ensures exists events, key :: key != "" && !IsPermanent(key) && !Exclusive(Run(EMPTY, events), key)
  {
    var key := "u2_x";
    assert !IsPermanent(key) by { assert key[1] != PERMANENT_PREFIX[1]; }
    var p := InsertParams("q", "k", 0, 0, key, 0, "");
    var insert1, cancel, insert2, revive := Insert(p, 1), Cancel(IdOf(1), 2), Insert(p, 3), Reschedule(IdOf(1), 4);
    RunSnoc(EMPTY, [], insert1);
    RunSnoc(EMPTY, [] + [insert1], cancel);
    RunSnoc(EMPTY, [] + [insert1] + [cancel], insert2);
    RunSnoc(EMPTY, [] + [insert1] + [cancel] + [insert2], revive);
    var s2 := Apply(Apply(EMPTY, insert1), cancel);
    CancelledHolder(p, s2);
    TwinAfterRevival(s2, p);
    assert !Exclusive(Run(EMPTY, [] + [insert1] + [cancel] + [insert2] + [revive]), key);
  }

  lemma CancelledHolder(p: InsertParams, s: Store)
    requires s == Apply(Apply(EMPTY, Insert(p, 1)), Cancel(IdOf(1), 2))
    requires p.runAt == ZERO_TIME && p.uniqueKey != "" && !IsPermanent(p.uniqueKey)
    ensures s.sequence == 1 && IdOf(1) in s.jobs && Terminal(s.jobs[IdOf(1)].state)
    ensures s.jobs[IdOf(1)].uniqueKey == p.uniqueKey && !KeyTaken(s, p.uniqueKey)
  {
    var first := Apply(EMPTY, Insert(p, 1));
    assert !KeyTaken(EMPTY, p.uniqueKey);
    assert first.jobs == map[IdOf(1) := NewRow(IdOf(1), p, 1)];
  }

  lemma TwinAfterRevival(s: Store, p: InsertParams)
    requires s.sequence == 1 && IdOf(1) in s.jobs && s.jobs[IdOf(1)].uniqueKey == p.uniqueKey
    requires p.runAt == ZERO_TIME && p.uniqueKey != "" && !KeyTaken(s, p.uniqueKey)
    ensures !Exclusive(Apply(Apply(s, Insert(p, 3)), Reschedule(IdOf(1), 4)), p.uniqueKey)
  {
    IdRoundTrip(1);
    IdRoundTrip(2);
    var t := Apply(Apply(s, Insert(p, 3)), Reschedule(IdOf(1), 4));
    assert Reserves(t.jobs[IdOf(1)], p.uniqueKey) && Reserves(t.jobs[IdOf(2)], p.uniqueKey);
  }
}
