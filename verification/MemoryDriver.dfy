/** The in-memory driver's job operations as a class. Each method is one critical section
    and is proved to perform the corresponding event of the store machine. */
module MemoryDriver {
  import opened Prelude
  import opened Strings
  import opened Jobs
  import opened JobStore
  import opened JobLife
  import opened Ordering
  import opened Pagination

  predicate Before(m: map<string, Row>, a: string, b: string) {
    a in m && b in m && Precedes(m[a], m[b])
  }

  predicate Listed(m: map<string, Row>, a: string, b: string) {
    a in m && b in m && ListedBefore(m[a], m[b])
  }

  function ClaimOrder(m: map<string, Row>): (string, string) -> bool {
    (a, b) => Before(m, a, b)
  }

  function ListOrder(m: map<string, Row>): (string, string) -> bool {
    (a, b) => Listed(m, a, b)
  }

  lemma PrecedesIsStrictTotal(m: map<string, Row>, s: set<string>)
    requires s <= m.Keys && forall id :: id in m ==> m[id].id == id
    ensures StrictTotal(ClaimOrder(m), s)
  {
    var lt := ClaimOrder(m);
    forall a | a in s ensures !lt(a, a) { LessTotal(a, a); }
    forall a, b | a in s && b in s && a != b ensures lt(a, b) || lt(b, a) { LessTotal(a, b); }
    forall a, b, c | a in s && b in s && c in s && lt(a, b) && lt(b, c) ensures lt(a, c) {
      if Less(a, b) && Less(b, c) { LessTransitive(a, b, c); }
    }
  }

  lemma ListedIsStrictTotal(m: map<string, Row>, s: set<string>)
    requires s <= m.Keys && forall id :: id in m ==> m[id].id == id
    ensures StrictTotal(ListOrder(m), s)
  {
    var lt := ListOrder(m);
    forall a | a in s ensures !lt(a, a) { LessTotal(a, a); }
    forall a, b | a in s && b in s && a != b ensures lt(a, b) || lt(b, a) { LessTotal(a, b); }
    forall a, b, c | a in s && b in s && c in s && lt(a, b) && lt(b, c) ensures lt(a, c) {
      if Less(b, a) && Less(c, b) { LessTransitive(c, b, a); }
    }
  }

  /** A batch insert is the inserts of its items, in order, each at its own instant. */
  function InsertedAll(s: Store, params: seq<InsertParams>, nows: seq<int>): Store
    requires |nows| == |params|
  {
    if |params| == 0 then s
    else
      var n := |params| - 1;
      Inserted(InsertedAll(s, params[..n], nows[..n]), params[n], nows[n])
  }

  datatype InsertResult = InsertResult(id: string, uniqueSkip: bool)

  /** What an insert into `s` reports: a row that reserves the key, or the new row. */
  predicate ReportsInsert(s: Store, p: InsertParams, r: InsertResult) {
    && (r.uniqueSkip <==> p.uniqueKey != "" && KeyTaken(s, p.uniqueKey))
    && if r.uniqueSkip then r.id in s.jobs && Reserves(s.jobs[r.id], p.uniqueKey) else r.id == IdOf(s.sequence + 1)
  }

  /** Each result so far is right for the store that its insert found. */
  ghost predicate ReportsAll(s: Store, params: seq<InsertParams>, nows: seq<int>, results: seq<InsertResult>)
    requires |nows| == |params|
  {
    && |results| <= |params|
    && forall k :: 0 <= k < |results| ==> ReportsInsert(InsertedAll(s, params[..k], nows[..k]), params[k], results[k])
  }

  lemma ReportsSnoc(s: Store, params: seq<InsertParams>, nows: seq<int>, results: seq<InsertResult>, r: InsertResult)
    requires |nows| == |params| && ReportsAll(s, params, nows, results) && |results| < |params|
    requires var k := |results|; ReportsInsert(InsertedAll(s, params[..k], nows[..k]), params[k], r)
    ensures ReportsAll(s, params, nows, results + [r])
  {
    var longer := results + [r];
    forall k | 0 <= k < |longer| ensures ReportsInsert(InsertedAll(s, params[..k], nows[..k]), params[k], longer[k]) {
      if k < |results| {
        assert longer[k] == results[k];
      }
    }
  }

  lemma InsertedSnoc(s: Store, params: seq<InsertParams>, nows: seq<int>, k: nat)
    requires |nows| == |params| && k < |params|
    ensures InsertedAll(s, params[..k + 1], nows[..k + 1]) ==
      Inserted(InsertedAll(s, params[..k], nows[..k]), params[k], nows[k])
  {
    assert params[..k + 1][..k] == params[..k] && nows[..k + 1][..k] == nows[..k];
  }

  function PromotedIn(r: Row, queue: string, now: int): Row {
    if r.queue == queue then Promoted(r, now) else r
  }

  predicate CandidateRow(r: Row, queue: string, now: int) {
    r.queue == queue && Claimable(r, now)
  }

  /** All rows outside `rest` have been promoted and collected. */
  ghost predicate Collected(jobs: map<string, Row>, after: map<string, Row>, candidates: set<string>,
                            rest: set<string>, queue: string, now: int)
  {
    && after.Keys == jobs.Keys
    && (forall id :: id in jobs && id in rest ==> after[id] == jobs[id])
    && (forall id :: id in jobs && id !in rest ==> after[id] == PromotedIn(jobs[id], queue, now))
    && (forall id :: id in candidates <==> id in jobs && id !in rest && CandidateRow(jobs[id], queue, now))
  }

  lemma CollectOne(jobs: map<string, Row>, after: map<string, Row>, candidates: set<string>, rest: set<string>,
                   queue: string, now: int, id: string)
    requires Collected(jobs, after, candidates, rest, queue, now) && id in jobs && id in rest
    ensures Collected(jobs, after[id := PromotedIn(jobs[id], queue, now)],
                      if CandidateRow(jobs[id], queue, now) then candidates + {id} else candidates,
                      rest - {id}, queue, now)
  {
  }

  method PromoteRow(r: Row, queue: string, now: int) returns (after: Row, candidate: bool)
    ensures after == PromotedIn(r, queue, now) && (candidate <==> CandidateRow(r, queue, now))
  {
    after, candidate := r, false;
    if r.queue == queue {
      if after.state.Scheduled? && after.runAt <= now {
        after := after.(state := Available);
      }
      candidate := after.state.Available? && after.runAt <= now;
    }
  }

  /** First pass of a fetch: promote due scheduled jobs and collect the candidates. */
  method PromoteAll(jobs: map<string, Row>, queue: string, now: int)
    returns (after: map<string, Row>, candidates: set<string>)
    ensures Collected(jobs, after, candidates, {}, queue, now)
  {
    after, candidates := jobs, {};
    var rest := jobs.Keys;
    while rest != {}
      invariant rest <= jobs.Keys && Collected(jobs, after, candidates, rest, queue, now)
      decreases |rest|
    {
      var id :| id in rest;
      var row, candidate := PromoteRow(jobs[id], queue, now);
      CollectOne(jobs, after, candidates, rest, queue, now, id);
      after := after[id := row];
      candidates := if candidate then candidates + {id} else candidates;
      rest := rest - {id};
    }
  }

  /** The listed jobs are claimed, and nothing else changes. */
  ghost predicate ClaimedAll(jobs: map<string, Row>, order: seq<string>, rows: seq<Row>, after: map<string, Row>,
                             worker: string, lease: int, now: int)
    requires forall i :: 0 <= i < |order| ==> order[i] in jobs
  {
    && after.Keys == jobs.Keys
    && (forall id :: id in jobs ==>
         after[id] == if id in order then Claimed(jobs[id], worker, lease, now) else jobs[id])
    && |rows| == |order|
    && (forall i :: 0 <= i < |rows| ==> rows[i] == Claimed(jobs[order[i]], worker, lease, now))
  }

  /** Second pass of a fetch: claim the listed jobs one after the other. */
  method ClaimInOrder(jobs: map<string, Row>, order: seq<string>, worker: string, lease: int, now: int)
    returns (rows: seq<Row>, after: map<string, Row>)
    requires forall i :: 0 <= i < |order| ==> order[i] in jobs
    requires forall i, j :: 0 <= i < j < |order| ==> order[i] != order[j]
    ensures ClaimedAll(jobs, order, rows, after, worker, lease, now)
  {
    rows, after := [], jobs;
    for k := 0 to |order|
      invariant after.Keys == jobs.Keys
      invariant forall id :: id in jobs ==>
        after[id] == if id in order[..k] then Claimed(jobs[id], worker, lease, now) else jobs[id]
      invariant |rows| == k
      invariant forall i :: 0 <= i < k ==> rows[i] == Claimed(jobs[order[i]], worker, lease, now)
    {
      var id := order[k];
      assert id !in order[..k];
      assert forall x :: x in order[..k + 1] <==> x in order[..k] || x == id;
      var row := Claimed(after[id], worker, lease, now);
      after := after[id := row];
      rows := rows + [row];
    }
    assert order[..|order|] == order;
  }

  /** The claimed jobs are the chosen ones, each once and in claim order. */
  ghost predicate InClaimOrder(s: Store, e: Event, claimed: seq<string>)
    requires e.Fetch?
  {
    && (forall id :: id in claimed <==> Chosen(s, e.queue, e.limit, e.now, id))
    && (forall i :: 0 <= i < |claimed| ==> claimed[i] in s.jobs)
    && (forall i, j :: 0 <= i < j < |claimed| ==>
         claimed[i] != claimed[j] && Precedes(s.jobs[claimed[i]], s.jobs[claimed[j]]))
  }

  /** Sorts the candidates and keeps the first `limit`, or all of them. */
  method SelectClaims(ghost s: Store, jobs: map<string, Row>, candidates: set<string>, ghost e: Event, limit: int)
    returns (claimed: seq<string>)
    requires Valid(s) && jobs == s.jobs && e.Fetch? && limit == e.limit
    requires forall id :: id in candidates <==> Candidate(s, e.queue, e.now, id)
    ensures InClaimOrder(s, e, claimed)
    ensures candidates <= jobs.Keys && TakesFirst(jobs, candidates, claimed, limit)
  {
    PrecedesIsStrictTotal(jobs, candidates);
    var order := Sort(ClaimOrder(jobs), candidates);
    var count := if limit <= 0 || limit > |order| then |order| else limit;
    claimed := order[..count];
    PrefixInClaimOrder(s, e, candidates, order, count);
    PrefixTakesFirst(jobs, candidates, order, limit, count);
  }

  lemma PrefixInClaimOrder(s: Store, e: Event, candidates: set<string>, order: seq<string>, count: nat)
    requires e.Fetch?
    requires forall id :: id in candidates <==> Candidate(s, e.queue, e.now, id)
    requires StrictTotal(ClaimOrder(s.jobs), candidates)
    requires Lists(order, candidates) && Sorted(ClaimOrder(s.jobs), order)
    requires count == if e.limit <= 0 || e.limit > |order| then |order| else e.limit
    ensures InClaimOrder(s, e, order[..count])
  {
    ChosenIsPrefix(s, e, candidates, order, count);
    assert forall i :: 0 <= i < |order| ==> order[i] in order;
    assert forall i, j :: 0 <= i < j < |order| ==> Before(s.jobs, order[i], order[j]);
  }

  /** The claimed prefix of the order keeps to the limit and leaves only later jobs behind. */
  ghost predicate TakesFirst(jobs: map<string, Row>, candidates: set<string>, claimed: seq<string>, limit: int)
    requires candidates <= jobs.Keys && forall i :: 0 <= i < |claimed| ==> claimed[i] in jobs
  {
    && (limit > 0 ==> |claimed| <= limit)
    && (limit <= 0 || |claimed| < limit ==> forall id :: id in candidates ==> id in claimed)
    && (forall id, i :: id in candidates && id !in claimed && 0 <= i < |claimed| ==>
         Precedes(jobs[claimed[i]], jobs[id]))
  }

  lemma PrefixTakesFirst(jobs: map<string, Row>, candidates: set<string>, order: seq<string>, limit: int, count: nat)
    requires candidates <= jobs.Keys && Lists(order, candidates) && Sorted(ClaimOrder(jobs), order)
    requires count == if limit <= 0 || limit > |order| then |order| else limit
    ensures forall i :: 0 <= i < count ==> order[..count][i] in jobs
    ensures TakesFirst(jobs, candidates, order[..count], limit)
  {
    assert forall i :: 0 <= i < |order| ==> order[i] in order;
    assert order[..|order|] == order;
    forall id, i: nat | id in candidates && id !in order[..count] && i < count
      ensures Precedes(jobs[order[i]], jobs[id])
    {
      LaterInOrder(jobs, order, count, id, i);
    }
  }

  lemma LaterInOrder(jobs: map<string, Row>, order: seq<string>, count: nat, id: string, i: nat)
    requires i < count <= |order| && id in order && id !in order[..count] && forall x :: x in order ==> x in jobs
    requires Sorted(ClaimOrder(jobs), order)
    ensures Precedes(jobs[order[i]], jobs[id])
  {
    var j :| 0 <= j < |order| && order[j] == id;
    assert forall x :: 0 <= x < count ==> order[x] == order[..count][x];
    assert ClaimOrder(jobs)(order[i], order[j]) && order[i] in order;
  }

  function ExpiredIds(jobs: map<string, Row>, queue: string, at: int, before: int): set<string> {
    set id | id in jobs && jobs[id].queue == queue && Expired(jobs[id], at, before)
  }

  lemma DropOne(s: set<string>, rest: set<string>, id: string)
    requires id in rest
    ensures |s - (rest - {id})| == |s - rest| + if id in s then 1 else 0
  {
    if id in s {
      assert s - (rest - {id}) == (s - rest) + {id};
    } else {
      assert s - (rest - {id}) == s - rest;
    }
  }

  method RescueRow(row: Row, queue: string, at: int, before: int) returns (stuck: bool, after: Row)
    ensures stuck <==> row.queue == queue && Expired(row, at, before)
    ensures after == RescuedRow(row, Rescue(queue, at, before))
  {
    stuck, after := row.queue == queue && Expired(row, at, before), row;
    if stuck {
      after := Rescued(row);
    }
  }

  /** All rows outside `rest` have been seen by the rescue pass. */
  ghost predicate Swept(jobs: map<string, Row>, after: map<string, Row>, rest: set<string>, e: Event)
    requires e.Rescue?
  {
    && after.Keys == jobs.Keys
    && (forall id :: id in jobs && id in rest ==> after[id] == jobs[id])
    && (forall id :: id in jobs && id !in rest ==> after[id] == RescuedRow(jobs[id], e))
  }

  lemma SweepOne(jobs: map<string, Row>, after: map<string, Row>, rest: set<string>, e: Event, id: string, row: Row)
    requires e.Rescue? && Swept(jobs, after, rest, e) && id in jobs && row == RescuedRow(jobs[id], e)
    ensures Swept(jobs, after[id := row], rest - {id}, e)
  {
  }

  method RescueAll(jobs: map<string, Row>, queue: string, at: int, before: int)
    returns (rescued: nat, after: map<string, Row>)
    ensures Swept(jobs, after, {}, Rescue(queue, at, before))
    ensures rescued == |ExpiredIds(jobs, queue, at, before)|
  {
    rescued, after := 0, jobs;
    var rest := jobs.Keys;
    ghost var e, expired := Rescue(queue, at, before), ExpiredIds(jobs, queue, at, before);
    while rest != {}
      invariant rest <= jobs.Keys && Swept(jobs, after, rest, e)
      invariant rescued == |expired - rest|
      decreases |rest|
    {
      var id :| id in rest;
      var stuck, row := RescueRow(jobs[id], queue, at, before);
      DropOne(expired, rest, id);
      SweepOne(jobs, after, rest, e, id, row);
      rescued := if stuck then rescued + 1 else rescued;
      after := after[id := row];
      rest := rest - {id};
    }
    assert expired - {} == expired;
  }

  lemma RescueAgrees(s: Store, e: Event, after: map<string, Row>)
    requires e.Rescue? && after.Keys == s.jobs.Keys
    requires forall id :: id in s.jobs ==> after[id] == RescuedRow(s.jobs[id], e)
    ensures s.(jobs := after) == Apply(s, e)
  {
    assert after == Apply(s, e).jobs;
  }

  // ---- listing ----

  datatype Filter = Filter(queue: string, state: Option<JobState>, kind: string)

  predicate Matches(f: Filter, cursor: Cursor, r: Row) {
    && (f.queue == "" || r.queue == f.queue)
    && (f.state.None? || r.state == f.state.value)
    && (f.kind == "" || r.kind == f.kind)
    && (cursor.NoCursor? ||
        var at := DecodeJobCursor(cursor); at.Position? && JobFollowsCursor(r, at.createdAt, at.id))
  }

  function Matching(jobs: map<string, Row>, f: Filter, cursor: Cursor): set<string> {
    set id | id in jobs && Matches(f, cursor, jobs[id])
  }

  function PageLimit(limit: int): int {
    if limit <= 0 || limit > 1000 then 100 else limit
  }

  /** The rows are the first ones of `ids` in list order: as many as the limit allows. */
  ghost predicate IsPage(jobs: map<string, Row>, ids: set<string>, limit: int, rows: seq<Row>) {
    && (forall i :: 0 <= i < |rows| ==> rows[i].id in ids && rows[i].id in jobs && jobs[rows[i].id] == rows[i])
    && (forall i, j :: 0 <= i < j < |rows| ==> rows[i].id != rows[j].id && ListedBefore(rows[i], rows[j]))
    && |rows| == Min(|ids|, limit)
    && RestFollows(jobs, ids, rows)
  }

  ghost predicate Absent(rows: seq<Row>, id: string) {
    forall j :: 0 <= j < |rows| ==> rows[j].id != id
  }

  /** Every row that did not fit on the page comes after every row on it. */
  ghost predicate RestFollows(jobs: map<string, Row>, ids: set<string>, rows: seq<Row>) {
    forall id, i :: id in ids && id in jobs && Absent(rows, id) && 0 <= i < |rows| ==> ListedBefore(rows[i], jobs[id])
  }

  /** The row is asked for: its queue, state and kind where they are given, and its place after
      the cursor. */
  predicate AskedFor(f: Filter, cursor: Cursor, r: Row) {
    && (f.queue != "" ==> r.queue == f.queue) && (f.kind != "" ==> r.kind == f.kind)
    && (f.state.Some? ==> r.state == f.state.value)
    && (cursor.Payload? ==> OlderThan(r, UNIX_EPOCH + cursor.createdAt, cursor.id))
  }

  /** Created earlier, or at the same instant with a smaller identifier. */
  predicate OlderThan(r: Row, createdAt: int, id: string) {
    r.createdAt < createdAt || (r.createdAt == createdAt && Less(r.id, id))
  }

  /** The page holds the newest rows asked for, newest first: all of them if they fit. */
  ghost predicate ListsNewest(jobs: map<string, Row>, f: Filter, cursor: Cursor, limit: int, rows: seq<Row>) {
    && |rows| <= limit
    && (forall i :: 0 <= i < |rows| ==>
         rows[i].id in jobs && jobs[rows[i].id] == rows[i] && AskedFor(f, cursor, rows[i]))
    && (forall i, j :: 0 <= i < j < |rows| ==> OlderThan(rows[j], rows[i].createdAt, rows[i].id))
    && (forall id, i :: id in jobs && AskedFor(f, cursor, jobs[id]) && Absent(rows, id) && 0 <= i < |rows| ==>
         OlderThan(jobs[id], rows[i].createdAt, rows[i].id))
    && (|rows| < limit ==> forall id :: id in jobs && AskedFor(f, cursor, jobs[id]) ==> !Absent(rows, id))
  }

  lemma MatchesIffAskedFor(f: Filter, cursor: Cursor, r: Row)
    requires cursor.NoCursor? || DecodeJobCursor(cursor).Position?
    ensures Matches(f, cursor, r) <==> AskedFor(f, cursor, r)
  {
  }

  lemma ListedBeforeIsOlder(r: Row, q: Row)
    ensures ListedBefore(r, q) <==> OlderThan(q, r.createdAt, r.id)
  {
  }

  lemma {:induction false} ShortPageIsAll(ids: set<string>, rows: seq<Row>)
    requires forall i, j :: 0 <= i < j < |rows| ==> rows[i].id != rows[j].id
    requires (forall i :: 0 <= i < |rows| ==> rows[i].id in ids) && |rows| == |ids|
    ensures forall id :: id in ids ==> !Absent(rows, id)
  {
    if |rows| > 0 {
      var n := |rows| - 1;
      var last := rows[n].id;
      ShortPageIsAll(ids - {last}, rows[..n]);
      forall id | id in ids ensures !Absent(rows, id) {
        if id != last {
          assert id in ids - {last};
          var i :| 0 <= i < n && rows[..n][i].id == id;
          assert rows[i].id == id;
        } else {
          assert rows[n].id == id;
        }
      }
    }
  }

  lemma PageListsNewest(jobs: map<string, Row>, f: Filter, cursor: Cursor, limit: int, rows: seq<Row>)
    requires cursor.NoCursor? || DecodeJobCursor(cursor).Position?
    requires limit >= 1 && IsPage(jobs, Matching(jobs, f, cursor), limit, rows)
    ensures ListsNewest(jobs, f, cursor, limit, rows)
  {
    var ids := Matching(jobs, f, cursor);
    forall r: Row ensures Matches(f, cursor, r) <==> AskedFor(f, cursor, r) {
      MatchesIffAskedFor(f, cursor, r);
    }
    forall r: Row, q: Row ensures ListedBefore(r, q) <==> OlderThan(q, r.createdAt, r.id) {
      ListedBeforeIsOlder(r, q);
    }
    if |rows| < limit {
      ShortPageIsAll(ids, rows);
    }
  }

  method MatchingIds(jobs: map<string, Row>, f: Filter, cursor: Cursor) returns (ids: set<string>)
    ensures ids == Matching(jobs, f, cursor)
  {
    ids := {};
    var rest := jobs.Keys;
    while rest != {}
      invariant rest <= jobs.Keys
      invariant forall id :: id in ids <==> id in jobs && id !in rest && Matches(f, cursor, jobs[id])
      decreases |rest|
    {
      var id :| id in rest;
      if Matches(f, cursor, jobs[id]) {
        ids := ids + {id};
      }
      rest := rest - {id};
    }
  }

  method SortPage(jobs: map<string, Row>, ids: set<string>, limit: int) returns (rows: seq<Row>)
    requires ids <= jobs.Keys && limit > 0 && forall id :: id in jobs ==> jobs[id].id == id
    ensures IsPage(jobs, ids, limit, rows)
  {
    ListedIsStrictTotal(jobs, ids);
    var order := Sort(ListOrder(jobs), ids);
    SortedIsDistinct(ListOrder(jobs), ids, order);
    var count := if |order| > limit then limit else |order|;
    assert forall i :: 0 <= i < |order| ==> order[i] in order && order[i] in ids;
    ListedInOrder(jobs, order);
    rows := seq(count, i requires 0 <= i < count => jobs[order[i]]);
    RestFollowsPage(jobs, ids, order, rows);
  }

  lemma ListedInOrder(jobs: map<string, Row>, order: seq<string>)
    requires Sorted(ListOrder(jobs), order)
    ensures forall i, j :: 0 <= i < j < |order| ==> Listed(jobs, order[i], order[j])
  {
    forall i, j | 0 <= i < j < |order| ensures Listed(jobs, order[i], order[j]) {
      assert ListOrder(jobs)(order[i], order[j]);
    }
  }

  lemma RestFollowsPage(jobs: map<string, Row>, ids: set<string>, order: seq<string>, rows: seq<Row>)
    requires |rows| <= |order| && (forall id :: id in ids ==> id in order)
    requires forall i, j :: 0 <= i < j < |order| ==> Listed(jobs, order[i], order[j])
    requires forall i :: 0 <= i < |rows| ==> order[i] in jobs && rows[i] == jobs[order[i]] && rows[i].id == order[i]
    ensures RestFollows(jobs, ids, rows)
  {
    forall id, i | id in ids && id in jobs && Absent(rows, id) && 0 <= i < |rows|
      ensures ListedBefore(rows[i], jobs[id])
    {
      var k :| 0 <= k < |order| && order[k] == id;
      assert Listed(jobs, order[i], order[k]);
    }
  }

  class Driver {
    var jobs: map<string, Row>
    var queues: map<string, bool>
    var sequence: nat

    ghost function Model(): Store
      reads this
    {
      Store(jobs, queues, sequence)
    }

    constructor ()
      ensures Model() == EMPTY
    {
      jobs, queues, sequence := map[], map[], 0;
    }

    method FindUniqueJob(key: string) returns (found: Option<string>)
      ensures found.Some? ==> found.value in jobs && Reserves(jobs[found.value], key)
      ensures found.None? ==> !KeyTaken(Model(), key)
    {
      var rest := jobs.Keys;
      while rest != {}
        invariant rest <= jobs.Keys
        invariant forall id :: id in jobs && id !in rest ==> !Reserves(jobs[id], key)
        decreases |rest|
      {
        var id :| id in rest;
        if Reserves(jobs[id], key) {
          return Some(id);
        }
        rest := rest - {id};
      }
      found := None;
    }

    method InsertOne(p: InsertParams, now: int) returns (r: InsertResult)
      modifies this
      ensures Model() == Inserted(old(Model()), p, now) && ReportsInsert(old(Model()), p, r)
    {
      if p.uniqueKey != "" {
        var dup := FindUniqueJob(p.uniqueKey);
        if dup.Some? {
          assert KeyTaken(Model(), p.uniqueKey);
          return InsertResult(dup.value, true);
        }
      }
      sequence := sequence + 1;
      var id := IdOf(sequence);
      jobs := jobs[id := NewRow(id, p, now)];
      if p.queue !in queues {
        queues := queues[p.queue := false];
      }
      r := InsertResult(id, false);
    }

    /** `nows` are the instants at which the items are inserted. */
    method JobInsertMany(params: seq<InsertParams>, nows: seq<int>) returns (results: seq<InsertResult>)
      requires |nows| == |params|
      modifies this
      ensures Model() == InsertedAll(old(Model()), params, nows)
      ensures |results| == |params| && ReportsAll(old(Model()), params, nows, results)
    {
      results := [];
      ghost var s := Model();
      for k := 0 to |params|
        invariant Model() == InsertedAll(s, params[..k], nows[..k])
        invariant |results| == k && ReportsAll(s, params, nows, results)
      {
        InsertedSnoc(s, params, nows, k);
        var r := InsertOne(params[k], nows[k]);
        ReportsSnoc(s, params, nows, results, r);
        results := results + [r];
      }
      assert params[..|params|] == params && nows[..|nows|] == nows;
    }

    /** Promotes what is due and claims the first candidates in claim order. */
    method JobFetchBatch(queue: string, limit: int, worker: string, lease: int, now: int) returns (rows: seq<Row>)
      requires Valid(Model())
      modifies this
      ensures Model() == Apply(old(Model()), Fetch(queue, limit, worker, lease, now))
      ensures Polls(old(Model()), queue) ==>
        ReportsClaims(old(Model()), Fetch(queue, limit, worker, lease, now), rows, jobs)
      ensures queue in old(queues) && !old(queues)[queue] ==>
        TakesDueJobs(old(jobs), jobs, rows, queue, limit, worker, lease, now)
      ensures !(queue in old(queues) && !old(queues)[queue]) ==> rows == [] && jobs == old(jobs)
    {
      rows := [];
      if queue !in queues || queues[queue] {
        return;
      }
      ghost var s, e := Model(), Fetch(queue, limit, worker, lease, now);
      var promoted, candidates := PromoteAll(jobs, queue, now);
      var claimed := SelectClaims(s, jobs, candidates, e, limit);
      var after;
      rows, after := ClaimInOrder(promoted, claimed, worker, lease, now);
      PassesMakeFetch(s, e, promoted, candidates, claimed, rows, after);
      jobs := after;
    }

    method JobMarkStarted(id: string, worker: string, attempt: int, at: int) returns (marked: bool)
      modifies this
      ensures marked <==> AcceptsToken(old(Model()), id, worker, attempt)
      ensures Model() == Apply(old(Model()), MarkStarted(id, worker, attempt, at))
    {
      if id !in jobs || !HoldsClaim(jobs[id], worker, attempt) {
        return false;
      }
      jobs := jobs[id := jobs[id].(startedAt := Some(at))];
      marked := true;
    }

    method JobRescueStuck(queue: string, at: int, before: int) returns (rescued: nat)
      modifies this
      ensures Model() == Apply(old(Model()), Rescue(queue, at, before))
      ensures rescued == |ExpiredIds(old(jobs), queue, at, before)|
    {
      rescued, jobs := RescueAll(jobs, queue, at, before);
      RescueAgrees(old(Model()), Rescue(queue, at, before), jobs);
    }

    method JobHeartbeat(id: string, worker: string, attempt: int, at: int, expiresAt: int) returns (renewed: bool)
      modifies this
      ensures renewed <==> AcceptsToken(old(Model()), id, worker, attempt)
      ensures Model() == Apply(old(Model()), Heartbeat(id, worker, attempt, at, expiresAt))
    {
      if id !in jobs || !HoldsClaim(jobs[id], worker, attempt) {
        return false;
      }
      var deadline := expiresAt;
      if deadline == ZERO_TIME {
        deadline := at;
      }
      jobs := jobs[id := jobs[id].(leaseExpiresAt := Some(deadline))];
      renewed := true;
    }

    method JobSetStateIfRunning(p: SetStateParams, now: int) returns (stale: bool)
      modifies this
      ensures stale <==> !Accepts(old(Model()), p)
      ensures Model() == Apply(old(Model()), SetState(p, now))
    {
      if p.id !in jobs || !jobs[p.id].state.Running? || !MatchesClaim(p, jobs[p.id].worker, jobs[p.id].attempt) {
        return true;
      }
      var row := jobs[p.id];
      if p.isYield {
        jobs := jobs[p.id := Yielded(row)];
        return false;
      }
      row := row.(state := p.state, worker := "", leaseExpiresAt := None);
      if p.err.Some? {
        row := row.(errors := row.errors + [AttemptError(now, row.attempt, p.err.value)]);
      }
      if p.state.Retryable? && p.retryAt != ZERO_TIME {
        row := row.(runAt := p.retryAt, state := Available);
      }
      if Terminal(p.state) {
        row := row.(finalizedAt := Some(now));
      }
      jobs := jobs[p.id := row];
      stale := false;
    }

    method JobCancel(id: string, now: int) returns (ok: bool)
      modifies this
      ensures ok <==> id in old(jobs) && (old(jobs)[id].state.Available? || old(jobs)[id].state.Scheduled?)
      ensures Model() == Apply(old(Model()), Cancel(id, now))
    {
      if id !in jobs || !(jobs[id].state.Available? || jobs[id].state.Scheduled?) {
        return false;
      }
      jobs := jobs[id := jobs[id].(state := Cancelled, finalizedAt := Some(now))];
      ok := true;
    }

    method JobDelete(id: string) returns (ok: bool)
      modifies this
      ensures ok <==> id in old(jobs)
      ensures Model() == Apply(old(Model()), Delete(id)) == old(Model()).(jobs := old(jobs) - {id})
    {
      ok := id in jobs;
      jobs := jobs - {id};
    }

    method JobReschedule(id: string, runAt: int) returns (ok: bool)
      modifies this
      ensures ok <==> id in old(jobs)
      ensures Model() == Apply(old(Model()), Reschedule(id, runAt))
    {
      if id !in jobs {
        return false;
      }
      jobs := jobs[id := jobs[id].(runAt := runAt, state := Scheduled)];
      ok := true;
    }

    /** One page of the filtered jobs in list order. */
    method JobList(f: Filter, limit: int, cursor: Cursor) returns (page: Option<seq<Row>>)
      requires IdsAgree(Model())
      ensures page.None? <==> !cursor.NoCursor? && DecodeJobCursor(cursor).InvalidCursor?
      ensures page.Some? ==> IsPage(jobs, Matching(jobs, f, cursor), PageLimit(limit), page.value)
      ensures page.Some? ==> ListsNewest(jobs, f, cursor, if 1 <= limit <= 1000 then limit else 100, page.value)
    {
      if !cursor.NoCursor? && DecodeJobCursor(cursor).InvalidCursor? {
        return None;
      }
      var ids := MatchingIds(jobs, f, cursor);
      var rows := SortPage(jobs, ids, PageLimit(limit));
      PageListsNewest(jobs, f, cursor, PageLimit(limit), rows);
      page := Some(rows);
    }

    method QueuePause(queue: string)
      modifies this
      ensures Model() == Apply(old(Model()), Pause(queue)) && !Polls(Model(), queue)
    {
      queues := queues[queue := true];
    }

    method QueueResume(queue: string)
      modifies this
      ensures Model() == Apply(old(Model()), Resume(queue)) && Polls(Model(), queue)
    {
      queues := queues[queue := false];
    }
  }

  lemma CandidateRank(s: Store, e: Event, candidates: set<string>, order: seq<string>, i: nat)
    requires e.Fetch? && i < |order|
    requires forall id :: id in candidates <==> Candidate(s, e.queue, e.now, id)
    requires StrictTotal(ClaimOrder(s.jobs), candidates)
    requires Lists(order, candidates) && Sorted(ClaimOrder(s.jobs), order)
    ensures order[i] in candidates && order[i] in s.jobs && |Ahead(s, e.queue, e.now, order[i])| == i
  {
    assert order[i] in order && Candidate(s, e.queue, e.now, order[i]);
    RankIsIndex(ClaimOrder(s.jobs), candidates, order, i);
    var ahead := Ahead(s, e.queue, e.now, order[i]);
    var ranked := Predecessors(ClaimOrder(s.jobs), candidates, order[i]);
    assert forall x :: x in ahead <==> x in ranked;
    assert ahead == ranked;
  }

  /** The claimed prefix of the sorted candidates is what the store machine chooses. */
  lemma ChosenIsPrefix(s: Store, e: Event, candidates: set<string>, order: seq<string>, count: nat)
    requires e.Fetch?
    requires forall id :: id in candidates <==> Candidate(s, e.queue, e.now, id)
    requires StrictTotal(ClaimOrder(s.jobs), candidates)
    requires Lists(order, candidates) && Sorted(ClaimOrder(s.jobs), order)
    requires count == if e.limit <= 0 || e.limit > |order| then |order| else e.limit
    ensures forall id :: id in order[..count] <==> Chosen(s, e.queue, e.limit, e.now, id)
    ensures forall i, j :: 0 <= i < j < |order| ==> order[i] != order[j]
  {
    forall i | 0 <= i < |order|
      ensures order[i] in candidates && order[i] in s.jobs && |Ahead(s, e.queue, e.now, order[i])| == i
    {
      CandidateRank(s, e, candidates, order, i);
    }
    forall id | id in order[..count] ensures Chosen(s, e.queue, e.limit, e.now, id) {
      var i :| 0 <= i < count && order[..count][i] == id;
      assert Candidate(s, e.queue, e.now, order[i]);
    }
    forall id | Chosen(s, e.queue, e.limit, e.now, id) ensures id in order[..count] {
      assert id in candidates && id in order;
      var i :| 0 <= i < |order| && order[i] == id;
      assert order[..count][i] == id;
    }
  }

  /** Promotion followed by the claims is one fetch of the store machine. */
  lemma FetchAgrees(s: Store, e: Event, promoted: map<string, Row>, after: map<string, Row>, claimed: seq<string>)
    requires e.Fetch? && Polls(s, e.queue) && after.Keys == promoted.Keys == s.jobs.Keys
    requires forall id :: id in s.jobs ==>
      promoted[id] == PromotedIn(s.jobs[id], e.queue, e.now)
    requires forall id :: id in s.jobs ==>
      after[id] == if id in claimed then Claimed(promoted[id], e.worker, e.lease, e.now) else promoted[id]
    requires forall id :: id in claimed <==> Chosen(s, e.queue, e.limit, e.now, id)
    ensures s.(jobs := after) == Apply(s, e)
  {
    forall id | id in s.jobs ensures after[id] == FetchedRow(s, e, id) {
      assert id in claimed <==> Chosen(s, e.queue, e.limit, e.now, id);
    }
    assert after == Apply(s, e).jobs;
  }

  /** What a fetch returns: rows in claim order, stored and running, and exactly the chosen. */
  ghost predicate ReportsClaims(s: Store, e: Event, rows: seq<Row>, after: map<string, Row>)
    requires e.Fetch?
  {
    && (forall i, j :: 0 <= i < j < |rows| ==> Precedes(rows[i], rows[j]))
    && (forall i :: 0 <= i < |rows| ==> rows[i].id in after && after[rows[i].id] == rows[i] && rows[i].state.Running?)
    && (forall id :: id in s.jobs ==>
         (Claimed(s.jobs[id], e.worker, e.lease, e.now) in rows <==> Chosen(s, e.queue, e.limit, e.now, id)))
  }

  /** Higher priority first, then earlier run time, then earlier creation. */
  predicate NoLaterThan(r: Row, q: Row) {
    || r.priority > q.priority
    || (r.priority == q.priority && (r.runAt < q.runAt || (r.runAt == q.runAt && r.createdAt <= q.createdAt)))
  }

  /** What a fetch does, in the fields of the rows. */
  ghost predicate TakesDueJobs(before: map<string, Row>, after: map<string, Row>, rows: seq<Row>,
                               queue: string, limit: int, worker: string, lease: int, now: int)
  {
    && after.Keys == before.Keys
    && (limit > 0 ==> |rows| <= limit)
    && (forall i :: 0 <= i < |rows| ==> TookDueJob(before, after, rows[i], queue, worker, lease, now))
    && (forall i, j :: 0 <= i < j < |rows| ==> rows[i].id != rows[j].id && NoLaterThan(rows[i], rows[j]))
    && (limit <= 0 || |rows| < limit ==> forall id :: id in after ==> !IsDue(after[id], queue, now))
    && (forall id, i :: id in after && IsDue(after[id], queue, now) && 0 <= i < |rows| ==>
         NoLaterThan(rows[i], after[id]))
    && (forall id :: id in after && Absent(rows, id) ==>
         after[id] == before[id] || (before[id].state == Scheduled && after[id] == before[id].(state := Available)))
  }

  /** The row is a job that was due, claimed. */
  predicate TookDueJob(before: map<string, Row>, after: map<string, Row>, row: Row,
                       queue: string, worker: string, lease: int, now: int)
  {
    && row.id in before && row.id in after && after[row.id] == row
    && IsDue(before[row.id], queue, now) && ClaimedFrom(before[row.id], row, worker, lease, now)
  }

  /** Promotion first does not show in a claimed row. */
  lemma ClaimHidesPromotion(r: Row, queue: string, worker: string, lease: int, now: int)
    ensures Claimed(PromotedIn(r, queue, now), worker, lease, now) == Claimed(r, worker, lease, now)
  {
  }

  lemma RowsAgree(s: Store, e: Event, promoted: map<string, Row>, claimed: seq<string>, rows: seq<Row>,
                  after: map<string, Row>)
    requires e.Fetch? && IdsAgree(s) && |rows| == |claimed| && after.Keys == promoted.Keys == s.jobs.Keys
    requires forall id :: id in claimed <==> Chosen(s, e.queue, e.limit, e.now, id)
    requires forall id :: id in s.jobs ==> promoted[id] == PromotedIn(s.jobs[id], e.queue, e.now)
    requires forall i :: 0 <= i < |rows| ==>
      claimed[i] in s.jobs && rows[i] == Claimed(promoted[claimed[i]], e.worker, e.lease, e.now) == after[claimed[i]]
    requires forall i, j :: 0 <= i < j < |claimed| ==> Precedes(s.jobs[claimed[i]], s.jobs[claimed[j]])
    ensures ReportsClaims(s, e, rows, after)
  {
    forall i | 0 <= i < |rows| ensures rows[i] == Claimed(s.jobs[claimed[i]], e.worker, e.lease, e.now) {
      ClaimHidesPromotion(s.jobs[claimed[i]], e.queue, e.worker, e.lease, e.now);
    }
    forall id | id in s.jobs
      ensures Claimed(s.jobs[id], e.worker, e.lease, e.now) in rows <==> Chosen(s, e.queue, e.limit, e.now, id)
    {
      var row := Claimed(s.jobs[id], e.worker, e.lease, e.now);
      if row in rows {
        var i :| 0 <= i < |rows| && rows[i] == row;
        assert claimed[i] == id && claimed[i] in claimed;
      }
      if id in claimed {
        var i :| 0 <= i < |claimed| && claimed[i] == id;
        assert rows[i] == row;
      }
    }
  }

  /** All that the passes of a fetch establish about the claimed jobs. */
  ghost predicate Selected(s: Store, e: Event, promoted: map<string, Row>, claimed: seq<string>, rows: seq<Row>,
                           after: map<string, Row>)
    requires e.Fetch?
  {
    && |rows| == |claimed| && after.Keys == promoted.Keys == s.jobs.Keys
    && (forall id :: id in s.jobs ==> promoted[id] == PromotedIn(s.jobs[id], e.queue, e.now))
    && (forall id :: id in s.jobs ==>
         after[id] == if id in claimed then Claimed(promoted[id], e.worker, e.lease, e.now) else promoted[id])
    && (forall i :: 0 <= i < |rows| ==>
         claimed[i] in s.jobs && rows[i] == Claimed(promoted[claimed[i]], e.worker, e.lease, e.now))
    && (forall id :: id in claimed ==> Candidate(s, e.queue, e.now, id))
    && (forall i, j :: 0 <= i < j < |claimed| ==>
         claimed[i] != claimed[j] && Precedes(s.jobs[claimed[i]], s.jobs[claimed[j]]))
    && (e.limit > 0 ==> |claimed| <= e.limit)
    && (e.limit <= 0 || |claimed| < e.limit ==> forall id :: Candidate(s, e.queue, e.now, id) ==> id in claimed)
    && (forall id, i :: Candidate(s, e.queue, e.now, id) && id !in claimed && 0 <= i < |claimed| ==>
         Precedes(s.jobs[claimed[i]], s.jobs[id]))
  }

  lemma SelectedTook(s: Store, e: Event, promoted: map<string, Row>, claimed: seq<string>, rows: seq<Row>,
                     after: map<string, Row>, i: nat)
    requires e.Fetch? && IdsAgree(s) && Selected(s, e, promoted, claimed, rows, after) && i < |rows|
    ensures rows[i].id == claimed[i] && TookDueJob(s.jobs, after, rows[i], e.queue, e.worker, e.lease, e.now)
    ensures rows[i].priority == s.jobs[claimed[i]].priority && rows[i].runAt == s.jobs[claimed[i]].runAt
    ensures rows[i].createdAt == s.jobs[claimed[i]].createdAt
  {
    assert claimed[i] in claimed;
  }

  lemma SelectedLeft(s: Store, e: Event, promoted: map<string, Row>, claimed: seq<string>, rows: seq<Row>,
                     after: map<string, Row>, id: string)
    requires e.Fetch? && Selected(s, e, promoted, claimed, rows, after)
    requires id in after && IsDue(after[id], e.queue, e.now)
    ensures Candidate(s, e.queue, e.now, id) && id !in claimed && after[id] == promoted[id]
    ensures after[id].priority == s.jobs[id].priority && after[id].runAt == s.jobs[id].runAt
    ensures after[id].createdAt == s.jobs[id].createdAt
  {
  }

  lemma PrecedesIsNoLater(r: Row, q: Row)
    requires Precedes(r, q)
    ensures NoLaterThan(r, q)
  {
  }

  lemma FetchTakesDueJobs(s: Store, e: Event, promoted: map<string, Row>, claimed: seq<string>, rows: seq<Row>,
                          after: map<string, Row>)
    requires e.Fetch? && IdsAgree(s) && Selected(s, e, promoted, claimed, rows, after)
    ensures TakesDueJobs(s.jobs, after, rows, e.queue, e.limit, e.worker, e.lease, e.now)
  {
    forall i: nat | i < |rows|
      ensures rows[i].id == claimed[i] && TookDueJob(s.jobs, after, rows[i], e.queue, e.worker, e.lease, e.now)
    {
      SelectedTook(s, e, promoted, claimed, rows, after, i);
    }
    forall i: nat, j: nat | i < j < |rows| ensures rows[i].id != rows[j].id && NoLaterThan(rows[i], rows[j]) {
      SelectedTook(s, e, promoted, claimed, rows, after, i);
      SelectedTook(s, e, promoted, claimed, rows, after, j);
      PrecedesIsNoLater(s.jobs[claimed[i]], s.jobs[claimed[j]]);
    }
    forall id | id in after && IsDue(after[id], e.queue, e.now) ensures e.limit > 0 && |rows| >= e.limit {
      SelectedLeft(s, e, promoted, claimed, rows, after, id);
    }
    forall id, i: nat | id in after && IsDue(after[id], e.queue, e.now) && i < |rows|
      ensures NoLaterThan(rows[i], after[id])
    {
      SelectedLeft(s, e, promoted, claimed, rows, after, id);
      SelectedTook(s, e, promoted, claimed, rows, after, i);
      PrecedesIsNoLater(s.jobs[claimed[i]], s.jobs[id]);
    }
    forall id | id in after && Absent(rows, id)
      ensures after[id] == s.jobs[id] || (s.jobs[id].state == Scheduled && after[id] == s.jobs[id].(state := Available))
    {
      forall i | 0 <= i < |claimed| ensures claimed[i] != id {
        assert rows[i].id == claimed[i];
      }
    }
  }

  /** The three passes of a fetch together. */
  lemma PassesMakeFetch(s: Store, e: Event, promoted: map<string, Row>, candidates: set<string>, claimed: seq<string>,
                        rows: seq<Row>, after: map<string, Row>)
    requires e.Fetch? && IdsAgree(s) && Polls(s, e.queue)
    requires Collected(s.jobs, promoted, candidates, {}, e.queue, e.now) && InClaimOrder(s, e, claimed)
    requires candidates <= s.jobs.Keys && TakesFirst(s.jobs, candidates, claimed, e.limit)
    requires forall i :: 0 <= i < |claimed| ==> claimed[i] in promoted
    requires ClaimedAll(promoted, claimed, rows, after, e.worker, e.lease, e.now)
    ensures s.(jobs := after) == Apply(s, e)
    ensures ReportsClaims(s, e, rows, after)
    ensures TakesDueJobs(s.jobs, after, rows, e.queue, e.limit, e.worker, e.lease, e.now)
  {
    FetchAgrees(s, e, promoted, after, claimed);
    assert forall i :: 0 <= i < |claimed| ==> claimed[i] in claimed;
    RowsAgree(s, e, promoted, claimed, rows, after);
    PassesSelect(s, e, promoted, candidates, claimed, rows, after);
    FetchTakesDueJobs(s, e, promoted, claimed, rows, after);
  }

  lemma PassesSelect(s: Store, e: Event, promoted: map<string, Row>, candidates: set<string>, claimed: seq<string>,
                     rows: seq<Row>, after: map<string, Row>)
    requires e.Fetch?
    requires Collected(s.jobs, promoted, candidates, {}, e.queue, e.now) && InClaimOrder(s, e, claimed)
    requires candidates <= s.jobs.Keys && TakesFirst(s.jobs, candidates, claimed, e.limit)
    requires forall i :: 0 <= i < |claimed| ==> claimed[i] in promoted
    requires ClaimedAll(promoted, claimed, rows, after, e.worker, e.lease, e.now)
    ensures Selected(s, e, promoted, claimed, rows, after)
  {
    assert forall id :: id in candidates <==> Candidate(s, e.queue, e.now, id);
    assert forall id :: id in claimed ==> Chosen(s, e.queue, e.limit, e.now, id);
  }
}
