/** Retention: `Prune` lists one state page by page and deletes expired jobs between the
    pages. */
module Maintenance {
  import opened Prelude
  import Strings
  import opened Jobs
  import opened JobStore
  import opened Pagination
  import opened MemoryDriver

  const PAGE_SIZE: int := 500

  function InState(jobs: map<string, Row>, state: JobState): set<string> {
    set id | id in jobs && jobs[id].state == state
  }

  predicate Expiring(r: Row, cutoff: int) {
    r.finalizedAt.Some? && r.finalizedAt.value <= cutoff
  }

  /** The jobs that a retention pass over one state must remove. */
  function PruneSet(jobs: map<string, Row>, state: JobState, cutoff: int): set<string> {
    set id | id in jobs && jobs[id].state == state &&
      jobs[id].finalizedAt.Some? && jobs[id].finalizedAt.value <= cutoff
  }

  /** Every creation instant fits the Unix nanosecond count inside a cursor. */
  ghost predicate Representable(jobs: map<string, Row>) {
    forall id :: id in jobs ==> FitsUnixNano(jobs[id].createdAt)
  }

  /** Every row can be named by a cursor. */
  ghost predicate Addressable(jobs: map<string, Row>) {
    forall id :: id in jobs ==> jobs[id].createdAt != UNIX_EPOCH && id != ""
  }

  function PageIds(rows: seq<Row>): set<string> {
    set i | 0 <= i < |rows| :: rows[i].id
  }

  lemma {:induction false} PageIdsCount(rows: seq<Row>)
    requires forall i, j :: 0 <= i < j < |rows| ==> rows[i].id != rows[j].id
    ensures |PageIds(rows)| == |rows|
  {
    if |rows| > 0 {
      var n := |rows| - 1;
      PageIdsCount(rows[..n]);
      assert PageIds(rows) == PageIds(rows[..n]) + {rows[n].id};
      assert rows[n].id !in PageIds(rows[..n]);
    }
  }

  function ExpiringIds(rows: seq<Row>, cutoff: int): set<string> {
    if |rows| == 0 then {}
    else
      var n := |rows| - 1;
      var ids := ExpiringIds(rows[..n], cutoff);
      if Expiring(rows[n], cutoff) then ids + {rows[n].id} else ids
  }

  lemma {:induction false} ExpiringIdsAre(rows: seq<Row>, cutoff: int, id: string)
    ensures id in ExpiringIds(rows, cutoff) <==>
      exists i :: 0 <= i < |rows| && rows[i].id == id && Expiring(rows[i], cutoff)
  {
    if |rows| > 0 {
      var n := |rows| - 1;
      ExpiringIdsAre(rows[..n], cutoff, id);
      if i :| 0 <= i < |rows| && rows[i].id == id && Expiring(rows[i], cutoff) {
        if i < n {
          assert rows[..n][i] == rows[i];
        }
      }
    }
  }

  lemma ExpiringStep(rows: seq<Row>, cutoff: int, k: nat)
    requires k < |rows| && forall i, j :: 0 <= i < j < |rows| ==> rows[i].id != rows[j].id
    ensures ExpiringIds(rows[..k + 1], cutoff) ==
      ExpiringIds(rows[..k], cutoff) + if Expiring(rows[k], cutoff) then {rows[k].id} else {}
    ensures rows[k].id !in ExpiringIds(rows[..k], cutoff)
  {
    assert rows[..k + 1][..k] == rows[..k];
    ExpiringIdsAre(rows[..k], cutoff, rows[k].id);
  }

  /** On a page of different rows, those marked for deletion are the ones finalised on or
      before the cutoff. */
  lemma ExpiringIdsIff(rows: seq<Row>, cutoff: int, i: nat)
    requires i < |rows| && forall i, j :: 0 <= i < j < |rows| ==> rows[i].id != rows[j].id
    ensures rows[i].id in ExpiringIds(rows, cutoff) <==>
      rows[i].finalizedAt.Some? && rows[i].finalizedAt.value <= cutoff
  {
    ExpiringIdsAre(rows, cutoff, rows[i].id);
  }

  /** Deletes the expired rows of one page. */
  method DeletePage(d: Driver, rows: seq<Row>, cutoff: int) returns (deleted: nat, errs: seq<string>)
    requires forall i :: 0 <= i < |rows| ==> rows[i].id in d.jobs
    requires forall i, j :: 0 <= i < j < |rows| ==> rows[i].id != rows[j].id
    modifies d
    ensures d.Model() == old(d.Model()).(jobs := old(d.jobs) - ExpiringIds(rows, cutoff))
    ensures deleted == |ExpiringIds(rows, cutoff)| && errs == []
  {
    deleted, errs := 0, [];
    ghost var gone: set<string> := {};
    for k := 0 to |rows|
      invariant gone == ExpiringIds(rows[..k], cutoff)
      invariant d.Model() == old(d.Model()).(jobs := old(d.jobs) - gone)
      invariant deleted == |gone| && errs == []
    {
      ExpiringStep(rows, cutoff, k);
      var id := rows[k].id;
      if Expiring(rows[k], cutoff) {
        var ok := d.JobDelete(id);
        if ok {
          deleted := deleted + 1;
        } else {
          errs := errs + [id];
        }
        assert old(d.jobs) - gone - {id} == old(d.jobs) - (gone + {id});
        gone := gone + {id};
      }
    }
    assert rows[..|rows|] == rows;
  }

  /** What the pass has left to list: the rows of the state that follow the cursor. */
  ghost predicate Frontier(original: map<string, Row>, state: JobState, cursor: Cursor, rest: set<string>) {
    rest == Matching(original, Filter("", Some(state), ""), cursor)
  }

  /** The rows after a full page are what the next cursor selects. */
  lemma NextFrontier(original: map<string, Row>, state: JobState, cursor: Cursor, rest: set<string>, rows: seq<Row>)
    requires forall id :: id in original ==> original[id].id == id
    requires Representable(original) && Frontier(original, state, cursor, rest)
    requires |rows| > 0 && IsPage(original, rest, PAGE_SIZE, rows)
    requires var last := EncodeJobCursor(rows[|rows| - 1]); !DecodeJobCursor(last).InvalidCursor?
    ensures Frontier(original, state, EncodeJobCursor(rows[|rows| - 1]), rest - PageIds(rows))
  {
    var last := rows[|rows| - 1];
    var next := EncodeJobCursor(last);
    CursorRoundTripIff(last);
    var f := Filter("", Some(state), "");
    forall id | id in original
      ensures id in rest - PageIds(rows) <==> Matches(f, next, original[id])
    {
      NextFrontierRow(original, state, cursor, rest, rows, id);
    }
    assert rest - PageIds(rows) == Matching(original, f, next);
  }

  lemma NextFrontierRow(original: map<string, Row>, state: JobState, cursor: Cursor, rest: set<string>, rows: seq<Row>,
                        id: string)
    requires id in original && Frontier(original, state, cursor, rest)
    requires |rows| > 0 && IsPage(original, rest, PAGE_SIZE, rows)
    requires var last := rows[|rows| - 1]; DecodeJobCursor(EncodeJobCursor(last)) == Position(last.createdAt, last.id)
    ensures id in rest - PageIds(rows) <==>
      Matches(Filter("", Some(state), ""), EncodeJobCursor(rows[|rows| - 1]), original[id])
  {
    var r, last := original[id], rows[|rows| - 1];
    FollowsIsListOrder(r, last);
    if id in rest && id !in PageIds(rows) {
      assert Absent(rows, id);
    } else if id in PageIds(rows) {
      var i :| 0 <= i < |rows| && rows[i].id == id;
      NotAfterLast(rows, i);
    } else if r.state == state {
      BeforeCursorStaysBefore(cursor, r, last);
    }
  }

  lemma NotAfterLast(rows: seq<Row>, i: nat)
    requires i < |rows| && forall i, j :: 0 <= i < j < |rows| ==> ListedBefore(rows[i], rows[j])
    ensures !ListedBefore(rows[|rows| - 1], rows[i])
  {
    Strings.LessTotal(rows[i].id, rows[|rows| - 1].id);
  }

  /** A row that an earlier cursor already excluded is excluded by every later one. */
  lemma BeforeCursorStaysBefore(cursor: Cursor, r: Row, last: Row)
    requires Matches(Filter("", None, ""), cursor, last) && !Matches(Filter("", None, ""), cursor, r)
    ensures !JobFollowsCursor(r, last.createdAt, last.id)
  {
    var at := DecodeJobCursor(cursor);
    if r.createdAt == last.createdAt == at.createdAt && Strings.Less(r.id, last.id) {
      Strings.LessTransitive(r.id, last.id, at.id);
    }
  }

  /** The live rows of the state are those of the original store that are still ahead. */
  lemma LivePage(original: map<string, Row>, live: map<string, Row>, state: JobState, cursor: Cursor,
                 rest: set<string>, cutoff: int, rows: seq<Row>)
    requires forall id :: id in original ==> original[id].id == id
    requires Frontier(original, state, cursor, rest)
    requires live == original - (PruneSet(original, state, cutoff) - rest)
    requires IsPage(live, Matching(live, Filter("", Some(state), ""), cursor), PAGE_SIZE, rows)
    ensures IsPage(original, rest, PAGE_SIZE, rows)
    ensures PageIds(rows) <= rest && |PageIds(rows)| == |rows|
    ensures |rows| < PAGE_SIZE ==> PageIds(rows) == rest
  {
    var f := Filter("", Some(state), "");
    assert rest <= live.Keys;
    assert Matching(live, f, cursor) == rest;
    PageIdsCount(rows);
    if |rows| < PAGE_SIZE {
      SubsetOfSameSize(PageIds(rows), rest);
    }
  }

  lemma {:induction false} SubsetOfSameSize(a: set<string>, b: set<string>)
    requires a <= b && |a| == |b|
    ensures a == b
  {
    assert |b - a| == |b| - |a|;
  }

  lemma ExpiringOnPage(original: map<string, Row>, state: JobState, rest: set<string>, cutoff: int, rows: seq<Row>)
    requires rest <= InState(original, state) && IsPage(original, rest, PAGE_SIZE, rows)
    ensures ExpiringIds(rows, cutoff) == PruneSet(original, state, cutoff) * PageIds(rows)
  {
    var prune, ids := PruneSet(original, state, cutoff), ExpiringIds(rows, cutoff);
    forall id ensures id in ids <==> id in prune && id in PageIds(rows) {
      ExpiringIdsAre(rows, cutoff, id);
      if id in PageIds(rows) {
        var i :| 0 <= i < |rows| && rows[i].id == id;
        assert rows[i] == original[id];
      }
    }
  }

  lemma SplitPrune(prune: set<string>, rest: set<string>, ids: set<string>)
    requires ids <= rest
    ensures prune - (rest - ids) == (prune - rest) + prune * ids
    ensures |prune - (rest - ids)| == |prune - rest| + |prune * ids|
  {
    assert prune - (rest - ids) == (prune - rest) + prune * ids;
    assert (prune - rest) !! prune * ids;
  }

  lemma DropTwice(m: map<string, Row>, a: set<string>, b: set<string>)
    ensures m - a - b == m - (a + b)
  {
  }

  /** The pass has removed exactly the expired jobs that are no longer ahead of it. */
  ghost predicate Progress(original: Store, current: Store, state: JobState, cutoff: int, rest: set<string>) {
    && rest <= InState(original.jobs, state)
    && current == original.(jobs := original.jobs - (PruneSet(original.jobs, state, cutoff) - rest))
  }

  predicate Usable(cursor: Cursor) {
    cursor.NoCursor? || DecodeJobCursor(cursor).Position?
  }

  /** Lists one page and deletes its expired rows. */
  method PrunePage(d: Driver, state: JobState, cutoff: int, cursor: Cursor,
                   ghost original: Store, ghost rest: set<string>)
    returns (page: Option<seq<Row>>, deleted: nat)
    requires IdsAgree(d.Model()) && IdsAgree(original) && Progress(original, d.Model(), state, cutoff, rest)
    requires Usable(cursor) ==> Frontier(original.jobs, state, cursor, rest)
    modifies d
    ensures page.None? <==> !Usable(cursor)
    ensures page.None? ==> d.Model() == old(d.Model())
    ensures page.Some? ==>
      var rows := page.value;
      && IsPage(original.jobs, rest, PAGE_SIZE, rows)
      && PageIds(rows) <= rest && |PageIds(rows)| == |rows|
      && (|rows| < PAGE_SIZE ==> PageIds(rows) == rest)
      && Progress(original, d.Model(), state, cutoff, rest - PageIds(rows))
      && deleted == |PruneSet(original.jobs, state, cutoff) * PageIds(rows)|
  {
    deleted := 0;
    page := d.JobList(Filter("", Some(state), ""), PAGE_SIZE, cursor);
    if page.Some? {
      ghost var prune := PruneSet(original.jobs, state, cutoff);
      LivePage(original.jobs, d.jobs, state, cursor, rest, cutoff, page.value);
      ExpiringOnPage(original.jobs, state, rest, cutoff, page.value);
      var errs;
      deleted, errs := DeletePage(d, page.value, cutoff);
      SplitPrune(prune, rest, PageIds(page.value));
      DropTwice(original.jobs, prune - rest, prune * PageIds(page.value));
    }
  }

  lemma ProgressKeepsIds(original: Store, current: Store, state: JobState, cutoff: int, rest: set<string>)
    requires IdsAgree(original) && Progress(original, current, state, cutoff, rest)
    ensures IdsAgree(current)
  {
  }

  /** Where a pass stands between two pages. */
  ghost predicate Pass(original: Store, current: Store, state: JobState, cutoff: int, cursor: Cursor,
                       rest: set<string>, scanned: nat, deleted: nat) {
    && (Usable(cursor) ==> Frontier(original.jobs, state, cursor, rest))
    && (Addressable(original.jobs) ==> Usable(cursor))
    && Progress(original, current, state, cutoff, rest)
    && scanned == |InState(original.jobs, state)| - |rest|
    && deleted == |PruneSet(original.jobs, state, cutoff) - rest|
  }

  lemma PassStarts(original: Store, state: JobState, cutoff: int)
    ensures Pass(original, original, state, cutoff, NoCursor, InState(original.jobs, state), 0, 0)
  {
    var rest, prune := InState(original.jobs, state), PruneSet(original.jobs, state, cutoff);
    assert rest == Matching(original.jobs, Filter("", Some(state), ""), NoCursor);
    assert prune - rest == {} && original.jobs - {} == original.jobs;
  }

  lemma NextCursor(original: map<string, Row>, state: JobState, cursor: Cursor, rest: set<string>, rows: seq<Row>)
    requires forall id :: id in original ==> original[id].id == id
    requires Representable(original) && Frontier(original, state, cursor, rest)
    requires |rows| > 0 && IsPage(original, rest, PAGE_SIZE, rows)
    ensures var next := EncodeJobCursor(rows[|rows| - 1]);
      && (Usable(next) ==> Frontier(original, state, next, rest - PageIds(rows)))
      && (Addressable(original) ==> Usable(next))
  {
    var last := rows[|rows| - 1];
    assert last.id in original && original[last.id] == last;
    CursorRoundTripIff(last);
    if Usable(EncodeJobCursor(last)) {
      NextFrontier(original, state, cursor, rest, rows);
    }
  }

  lemma PassAdvances(original: Store, before: Store, current: Store, state: JobState, cutoff: int, cursor: Cursor,
                     rest: set<string>, scanned: nat, deleted: nat, rows: seq<Row>)
    requires IdsAgree(original) && Representable(original.jobs)
    requires Pass(original, before, state, cutoff, cursor, rest, scanned, deleted) && Usable(cursor)
    requires |rows| > 0 && IsPage(original.jobs, rest, PAGE_SIZE, rows)
    requires PageIds(rows) <= rest && |PageIds(rows)| == |rows|
    requires Progress(original, current, state, cutoff, rest - PageIds(rows))
    ensures |rest - PageIds(rows)| == |rest| - |rows|
    ensures Pass(original, current, state, cutoff, EncodeJobCursor(rows[|rows| - 1]), rest - PageIds(rows),
                 scanned + |rows|, deleted + |PruneSet(original.jobs, state, cutoff) * PageIds(rows)|)
  {
    var ids, prune := PageIds(rows), PruneSet(original.jobs, state, cutoff);
    NextCursor(original.jobs, state, cursor, rest, rows);
    SplitPrune(prune, rest, ids);
    assert |rest - ids| == |rest| - |ids|;
  }

  lemma PassEnds(original: Store, current: Store, state: JobState, cutoff: int, cursor: Cursor,
                 scanned: nat, deleted: nat)
    requires Pass(original, current, state, cutoff, cursor, {}, scanned, deleted)
    ensures current == original.(jobs := original.jobs - PruneSet(original.jobs, state, cutoff))
    ensures scanned == |InState(original.jobs, state)| && deleted == |PruneSet(original.jobs, state, cutoff)|
  {
    assert PruneSet(original.jobs, state, cutoff) - {} == PruneSet(original.jobs, state, cutoff);
  }

  /** One retention pass over one state, with no other writer. Without an error it has
      removed exactly the expired jobs of the state and scanned each of its jobs once,
      for any number of pages; an error means that some job cannot be named by a cursor. */
  method PruneState(d: Driver, state: JobState, cutoff: int) returns (scanned: nat, deleted: nat, failed: bool)
    requires IdsAgree(d.Model()) && Representable(d.jobs)
    modifies d
    ensures IdsAgree(d.Model())
    ensures !failed ==> d.Model() == old(d.Model()).(jobs := old(d.jobs) - PruneSet(old(d.jobs), state, cutoff))
    ensures !failed ==> scanned == |InState(old(d.jobs), state)|
    ensures !failed ==> deleted == |PruneSet(old(d.jobs), state, cutoff)|
    ensures Addressable(old(d.jobs)) ==> !failed
  {
    scanned, deleted, failed := 0, 0, false;
    var cursor := NoCursor;
    ghost var original, rest := d.Model(), InState(d.jobs, state);
    PassStarts(original, state, cutoff);
    while true
      invariant Pass(original, d.Model(), state, cutoff, cursor, rest, scanned, deleted)
      decreases |rest|
    {
      ProgressKeepsIds(original, d.Model(), state, cutoff, rest);
      ghost var before := d.Model();
      var page, n := PrunePage(d, state, cutoff, cursor, original, rest);
      if page.None? {
        failed := true;
        return;
      }
      var rows := page.value;
      if |rows| == 0 {
        assert rest == PageIds(rows) == {};
        break;
      }
      PassAdvances(original, before, d.Model(), state, cutoff, cursor, rest, scanned, deleted, rows);
      rest := rest - PageIds(rows);
      scanned, deleted, cursor := scanned + |rows|, deleted + n, EncodeJobCursor(rows[|rows| - 1]);
      if |rows| < PAGE_SIZE {
        break;
      }
    }
    PassEnds(original, d.Model(), state, cutoff, cursor, scanned, deleted);
    ProgressKeepsIds(original, d.Model(), state, cutoff, rest);
  }

  // ---- the three states together ----

  /** A zero duration disables pruning for that state. */
  datatype Retention = Retention(completed: int, discarded: int, cancelled: int) {
    function For(state: JobState): int {
      match state
      case Completed => completed
      case Discarded => discarded
      case Cancelled => cancelled
      case _ => 0
    }
  }

  predicate PrunedBy(r: Row, policy: Retention, now: int) {
    policy.For(r.state) > 0 && Expiring(r, now - policy.For(r.state))
  }

  /** The job is in a finished state with a retention time, and has been for at least that long. */
  predicate OutlivedBy(r: Row, policy: Retention, now: int) {
    && r.finalizedAt.Some?
    && var since := r.finalizedAt.value;
       || (r.state == Completed && policy.completed > 0 && since + policy.completed <= now)
       || (r.state == Discarded && policy.discarded > 0 && since + policy.discarded <= now)
       || (r.state == Cancelled && policy.cancelled > 0 && since + policy.cancelled <= now)
  }

  /** A pass removes exactly the finished jobs that have outlived their retention. */
  lemma RetainedIff(jobs: map<string, Row>, policy: Retention, now: int, id: string)
    requires id in jobs
    ensures id in Retained(jobs, policy, now) <==> !OutlivedBy(jobs[id], policy, now)
    ensures id in Retained(jobs, policy, now) ==> Retained(jobs, policy, now)[id] == jobs[id]
  {
  }

  /** A longer retention, or none, never removes more. */
  lemma LongerRetentionKeepsMore(jobs: map<string, Row>, short: Retention, long: Retention, now: int)
    requires long.completed == 0 || 0 < short.completed <= long.completed
    requires long.discarded == 0 || 0 < short.discarded <= long.discarded
    requires long.cancelled == 0 || 0 < short.cancelled <= long.cancelled
    ensures Retained(jobs, short, now).Keys <= Retained(jobs, long, now).Keys
  {
    forall id | id in Retained(jobs, short, now) ensures id in Retained(jobs, long, now) {
      RetainedIff(jobs, short, now, id);
      RetainedIff(jobs, long, now, id);
    }
  }

  /** Passing time never brings a job back into the retained ones. */
  lemma LaterPassRemovesMore(jobs: map<string, Row>, policy: Retention, now: int, later: int)
    requires now <= later
    ensures Retained(jobs, policy, later).Keys <= Retained(jobs, policy, now).Keys
  {
    forall id | id in Retained(jobs, policy, later) ensures id in Retained(jobs, policy, now) {
      RetainedIff(jobs, policy, now, id);
      RetainedIff(jobs, policy, later, id);
    }
  }

  /** The store after a complete pass: the rows that no configured cutoff reaches. */
  function Retained(jobs: map<string, Row>, policy: Retention, now: int): map<string, Row> {
    map id | id in jobs && !PrunedBy(jobs[id], policy, now) :: jobs[id]
  }

  function ScannedBy(jobs: map<string, Row>, policy: Retention): set<string> {
    set id | id in jobs && policy.For(jobs[id].state) > 0
  }

  /** The policy restricted to one state. */
  function Only(policy: Retention, state: JobState): Retention {
    Retention(if state.Completed? then policy.completed else 0, if state.Discarded? then policy.discarded else 0,
              if state.Cancelled? then policy.cancelled else 0)
  }

  datatype PruneResult = PruneResult(scanned: nat, deleted: nat, failed: bool)

  method PruneIfSet(d: Driver, state: JobState, policy: Retention, now: int) returns (q: PruneResult)
    requires IdsAgree(d.Model()) && Representable(d.jobs) && policy.For(state) >= 0 && Terminal(state)
    modifies d
    ensures IdsAgree(d.Model())
    ensures Addressable(old(d.jobs)) ==> !q.failed
    ensures !q.failed ==>
      && d.Model() == old(d.Model()).(jobs := Retained(old(d.jobs), Only(policy, state), now))
      && q.scanned == |ScannedBy(old(d.jobs), Only(policy, state))|
      && q.deleted == |old(d.jobs)| - |d.jobs|
  {
    var duration := policy.For(state);
    if duration == 0 {
      DisabledState(d.jobs, state, policy, now);
      return PruneResult(0, 0, false);
    }
    var cutoff := now - duration;
    OneStateAgrees(d.jobs, state, policy, now, cutoff);
    var scanned, deleted, failed := PruneState(d, state, cutoff);
    q := PruneResult(scanned, deleted, failed);
  }

  lemma OnlyFor(policy: Retention, state: JobState, other: JobState)
    requires Terminal(state)
    ensures Only(policy, state).For(other) == if other == state then policy.For(state) else 0
  {
  }

  lemma DisabledState(jobs: map<string, Row>, state: JobState, policy: Retention, now: int)
    requires policy.For(state) == 0 && Terminal(state)
    ensures Retained(jobs, Only(policy, state), now) == jobs && ScannedBy(jobs, Only(policy, state)) == {}
  {
    forall id | id in jobs ensures Only(policy, state).For(jobs[id].state) == 0 {
      OnlyFor(policy, state, jobs[id].state);
    }
  }

  lemma OneStateAgrees(jobs: map<string, Row>, state: JobState, policy: Retention, now: int, cutoff: int)
    requires policy.For(state) > 0 && Terminal(state) && cutoff == now - policy.For(state)
    ensures var prune := PruneSet(jobs, state, cutoff);
      && jobs - prune == Retained(jobs, Only(policy, state), now)
      && |jobs - prune| == |jobs| - |prune|
    ensures InState(jobs, state) == ScannedBy(jobs, Only(policy, state))
  {
    var only, prune := Only(policy, state), PruneSet(jobs, state, cutoff);
    forall id | id in jobs
      ensures id in prune <==> PrunedBy(jobs[id], only, now)
      ensures id in InState(jobs, state) <==> id in ScannedBy(jobs, only)
    {
      OnlyFor(policy, state, jobs[id].state);
    }
    assert jobs - prune == Retained(jobs, only, now);
    DroppedCount(jobs, prune);
  }

  lemma DroppedCount(m: map<string, Row>, s: set<string>)
    requires s <= m.Keys
    ensures |m - s| == |m| - |s|
  {
    assert (m - s).Keys == m.Keys - s;
  }

  /** A pass over one state leaves the scan set of another one alone. */
  lemma ScanUndisturbed(jobs: map<string, Row>, policy: Retention, now: int, state: JobState, other: JobState)
    requires Terminal(state) && Terminal(other) && state != other
    ensures var kept := Retained(jobs, Only(policy, state), now);
      ScannedBy(kept, Only(policy, other)) == ScannedBy(jobs, Only(policy, other))
  {
    var left := Retained(jobs, Only(policy, state), now);
    forall id ensures id in ScannedBy(left, Only(policy, other)) <==> id in ScannedBy(jobs, Only(policy, other)) {
      if id in jobs {
        OnlyFor(policy, state, jobs[id].state);
        OnlyFor(policy, other, jobs[id].state);
      }
    }
  }

  lemma ScanSplits(jobs: map<string, Row>, policy: Retention)
    ensures |ScannedBy(jobs, Only(policy, Completed))| + |ScannedBy(jobs, Only(policy, Discarded))| +
      |ScannedBy(jobs, Only(policy, Cancelled))| == |ScannedBy(jobs, policy)|
  {
    var a, b := ScannedBy(jobs, Only(policy, Completed)), ScannedBy(jobs, Only(policy, Discarded));
    var c := ScannedBy(jobs, Only(policy, Cancelled));
    forall id ensures id in ScannedBy(jobs, policy) <==> id in a || id in b || id in c
      ensures !(id in a && id in b) && !(id in a && id in c) && !(id in b && id in c)
    {
      if id in jobs {
        OnlyFor(policy, Completed, jobs[id].state);
        OnlyFor(policy, Discarded, jobs[id].state);
        OnlyFor(policy, Cancelled, jobs[id].state);
      }
    }
    DisjointSum(a, b, c, ScannedBy(jobs, policy));
  }

  lemma DisjointSum(a: set<string>, b: set<string>, c: set<string>, whole: set<string>)
    requires whole == a + b + c && a !! b && a !! c && b !! c
    ensures |whole| == |a| + |b| + |c|
  {
    assert |a + b| == |a| + |b|;
    assert (a + b) !! c;
  }

  /** Passes over different states add up to the whole policy. */
  lemma PassesCompose(jobs: map<string, Row>, policy: Retention, now: int)
    ensures var one := Retained(jobs, Only(policy, Completed), now);
      var two := Retained(one, Only(policy, Discarded), now);
      && Retained(two, Only(policy, Cancelled), now) == Retained(jobs, policy, now)
      && |ScannedBy(jobs, Only(policy, Completed))| + |ScannedBy(one, Only(policy, Discarded))| +
         |ScannedBy(two, Only(policy, Cancelled))| == |ScannedBy(jobs, policy)|
  {
    var one := Retained(jobs, Only(policy, Completed), now);
    ScanSplits(jobs, policy);
    ScanUndisturbed(jobs, policy, now, Completed, Discarded);
    ScanUndisturbed(jobs, policy, now, Completed, Cancelled);
    ScanUndisturbed(one, policy, now, Discarded, Cancelled);
    RetainedComposes(jobs, policy, now);
  }

  lemma RetainedComposes(jobs: map<string, Row>, policy: Retention, now: int)
    ensures Retained(Retained(Retained(jobs, Only(policy, Completed), now), Only(policy, Discarded), now),
                     Only(policy, Cancelled), now) == Retained(jobs, policy, now)
  {
    forall id | id in jobs
      ensures PrunedBy(jobs[id], policy, now) <==>
        PrunedBy(jobs[id], Only(policy, Completed), now) || PrunedBy(jobs[id], Only(policy, Discarded), now) ||
        PrunedBy(jobs[id], Only(policy, Cancelled), now)
    {
    }
  }

  /** The whole pass: the three terminal states in turn. If it reports no error, it has
      removed exactly the jobs of the configured states finalised on or before their
      cutoffs, counted each of them, and scanned every job of those states once. */
  method Prune(d: Driver, policy: Retention, now: int) returns (r: Option<PruneResult>)
    requires IdsAgree(d.Model()) && Representable(d.jobs)
    modifies d
    ensures r.None? <==> policy.completed < 0 || policy.discarded < 0 || policy.cancelled < 0
    ensures r.None? ==> d.Model() == old(d.Model())
    ensures r.Some? && Addressable(old(d.jobs)) ==> !r.value.failed
    ensures r.Some? && !r.value.failed ==>
      && d.Model() == old(d.Model()).(jobs := Retained(old(d.jobs), policy, now))
      && r.value.deleted == |old(d.jobs)| - |d.jobs|
      && r.value.scanned == |ScannedBy(old(d.jobs), policy)|
    ensures r.Some? && !r.value.failed ==>
      && (forall id :: id in old(d.jobs) ==> (id !in d.jobs <==> OutlivedBy(old(d.jobs)[id], policy, now)))
      && (forall id :: id in d.jobs ==> id in old(d.jobs) && d.jobs[id] == old(d.jobs)[id])
  {
    forall id | id in d.jobs
      ensures id in Retained(d.jobs, policy, now) <==> !OutlivedBy(d.jobs[id], policy, now)
    {
      RetainedIff(d.jobs, policy, now, id);
    }
    if policy.completed < 0 || policy.discarded < 0 || policy.cancelled < 0 {
      return None;
    }
    PassesCompose(d.jobs, policy, now);
    var a := PruneIfSet(d, Completed, policy, now);
    if a.failed {
      return Some(a);
    }
    var b := PruneIfSet(d, Discarded, policy, now);
    if b.failed {
      return Some(PruneResult(a.scanned + b.scanned, a.deleted + b.deleted, true));
    }
    var c := PruneIfSet(d, Cancelled, policy, now);
    r := Some(PruneResult(a.scanned + b.scanned + c.scanned, a.deleted + b.deleted + c.deleted, c.failed));
  }
}
