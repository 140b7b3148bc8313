/** Two periodic jobs that share a job store, each with its own cursor and schedulers. Each
    job sees the other one as somebody else who inserts rows. */
module CronPair {
  import opened Prelude
  import opened Jobs
  import opened JobStore
  import opened Cron

  datatype PairAction = First(a: Action) | Second(a: Action) | Third(e: Event)

  /** The two states have the same store. */
  datatype Pair = Pair(a: State, b: State)

  /** What a scheduler's step asks the store to insert. */
  function Emits(cfg: Config, s: State, x: Action): Option<Event> {
    if x.Enqueue? && x.scheduler in s.schedulers && s.schedulers[x.scheduler].Working? then
      var w := s.schedulers[x.scheduler];
      if w.plan != [] && !w.enqueued && w.plan[0].enqueue then Some(Insert(InsertOf(cfg, w.plan[0].occurrence), x.now))
      else None
    else None
  }

  function Sees(cfg: Config, s: State, e: Option<Event>): State {
    if e.Some? then Step(cfg, s, Other(e.value)) else s
  }

  function StepPair(ca: Config, cb: Config, p: Pair, x: PairAction): Pair {
    match x
    case First(a) => if a.Other? then p else Pair(Step(ca, p.a, a), Sees(cb, p.b, Emits(ca, p.a, a)))
    case Second(a) => if a.Other? then p else Pair(Sees(ca, p.a, Emits(cb, p.b, a)), Step(cb, p.b, a))
    case Third(e) => Pair(Step(ca, p.a, Other(e)), Step(cb, p.b, Other(e)))
  }

  function RunPair(ca: Config, cb: Config, actions: seq<PairAction>): Pair {
    if |actions| == 0 then Pair(INITIAL, INITIAL)
    else StepPair(ca, cb, RunPair(ca, cb, actions[..|actions| - 1]), actions[|actions| - 1])
  }

  lemma RunSnoc(ca: Config, cb: Config, actions: seq<PairAction>, x: PairAction)
    ensures RunPair(ca, cb, actions + [x]) == StepPair(ca, cb, RunPair(ca, cb, actions), x)
  {
    assert (actions + [x])[..|actions|] == actions;
  }

  // ---- each job's view ----

  function Exchange(x: PairAction): PairAction {
    match x
    case First(a) => Second(a)
    case Second(a) => First(a)
    case Third(e) => x
  }

  function Swapped(actions: seq<PairAction>): seq<PairAction> {
    seq(|actions|, i requires 0 <= i < |actions| => Exchange(actions[i]))
  }

  lemma {:induction false} SwappedRun(ca: Config, cb: Config, actions: seq<PairAction>)
    ensures RunPair(cb, ca, Swapped(actions)) == Pair(RunPair(ca, cb, actions).b, RunPair(ca, cb, actions).a)
  {
    if |actions| > 0 {
      var n := |actions| - 1;
      SwappedRun(ca, cb, actions[..n]);
      assert Swapped(actions)[..n] == Swapped(actions[..n]);
    }
  }

  /** One action as the first job sees it, from state `p`. */
  function Seen(cb: Config, p: Pair, x: PairAction): seq<Action> {
    match x
    case First(a) => if a.Other? then [] else [a]
    case Second(a) =>
      if a.Other? then []
      else
        var e := Emits(cb, p.b, a);
        if e.Some? then [Other(e.value)] else []
    case Third(e) => [Other(e)]
  }

  function View(ca: Config, cb: Config, actions: seq<PairAction>): seq<Action> {
    if |actions| == 0 then []
    else
      var init := actions[..|actions| - 1];
      View(ca, cb, init) + Seen(cb, RunPair(ca, cb, init), actions[|actions| - 1])
  }

  lemma SeenStep(ca: Config, cb: Config, p: Pair, x: PairAction, before: seq<Action>)
    requires p.a == RunCron(ca, before)
    ensures StepPair(ca, cb, p, x).a == RunCron(ca, before + Seen(cb, p, x))
  {
    var seen := Seen(cb, p, x);
    if |seen| == 0 {
      assert before + seen == before;
    } else {
      assert (before + seen)[..|before|] == before;
    }
  }

  /** A run of the pair is a run of the first job among others. */
  lemma {:induction false} ViewRun(ca: Config, cb: Config, actions: seq<PairAction>)
    ensures RunPair(ca, cb, actions).a == RunCron(ca, View(ca, cb, actions))
  {
    if |actions| > 0 {
      var init := actions[..|actions| - 1];
      ViewRun(ca, cb, init);
      SeenStep(ca, cb, RunPair(ca, cb, init), actions[|actions| - 1], View(ca, cb, init));
    }
  }

  lemma PairInv(ca: Config, cb: Config, actions: seq<PairAction>)
    requires ValidConfig(ca) && ValidConfig(cb)
    ensures Inv(ca, RunPair(ca, cb, actions).a) && Inv(cb, RunPair(ca, cb, actions).b)
  {
    ViewRun(ca, cb, actions);
    RunInv(ca, View(ca, cb, actions));
    SwappedRun(ca, cb, actions);
    ViewRun(cb, ca, Swapped(actions));
    RunInv(cb, View(cb, ca, Swapped(actions)));
  }

  lemma StepStore(cfg: Config, s: State, x: Action)
    requires !x.Other?
    ensures Step(cfg, s, x).store == match Emits(cfg, s, x) case Some(e) => Apply(s.store, e) case None => s.store
  {
  }

  lemma {:induction false} SameStore(ca: Config, cb: Config, actions: seq<PairAction>)
    ensures RunPair(ca, cb, actions).a.store == RunPair(ca, cb, actions).b.store
  {
    if |actions| > 0 {
      var init, x := actions[..|actions| - 1], actions[|actions| - 1];
      SameStore(ca, cb, init);
      var p := RunPair(ca, cb, init);
      match x
      case First(a) => if !a.Other? { StepStore(ca, p.a, a); }
      case Second(a) => if !a.Other? { StepStore(cb, p.b, a); }
      case Third(e) =>
    }
  }

  // ---- keys ----

  /** Some occurrence of one job has the key of an occurrence of the other. */
  ghost predicate ShareKey(ca: Config, cb: Config) {
    exists i: nat, j: nat :: i >= 1 && j >= 1 && ca.keyOf(At(ca, i)) == cb.keyOf(At(cb, j))
  }

  lemma ShareKeyCommutes(ca: Config, cb: Config)
    ensures ShareKey(ca, cb) <==> ShareKey(cb, ca)
  {
    if i, j :| i >= 1 && j >= 1 && ca.keyOf(At(ca, i)) == cb.keyOf(At(cb, j)) {
      assert cb.keyOf(At(cb, j)) == ca.keyOf(At(ca, i));
    }
    if i, j :| i >= 1 && j >= 1 && cb.keyOf(At(cb, i)) == ca.keyOf(At(ca, j)) {
      assert ca.keyOf(At(ca, j)) == cb.keyOf(At(cb, i));
    }
  }

  /** Third parties delete nothing and insert under no key of either job. */
  ghost predicate Clean(ca: Config, cb: Config, actions: seq<PairAction>) {
    forall i :: 0 <= i < |actions| && actions[i].Third? ==>
      !actions[i].e.Delete? && !ForeignInsert(ca, actions[i].e) && !ForeignInsert(cb, actions[i].e)
  }

  lemma CleanSwaps(ca: Config, cb: Config, actions: seq<PairAction>)
    requires Clean(ca, cb, actions)
    ensures Clean(cb, ca, Swapped(actions))
  {
    var swapped := Swapped(actions);
    forall i | 0 <= i < |swapped| && swapped[i].Third?
      ensures !swapped[i].e.Delete? && !ForeignInsert(cb, swapped[i].e) && !ForeignInsert(ca, swapped[i].e)
    {
      assert swapped[i] == Exchange(actions[i]);
    }
  }

  /** A scheduler only ever inserts under the key of an occurrence of its own job. */
  lemma EmitsOwnKey(cfg: Config, s: State, x: Action)
    requires Inv(cfg, s) && Emits(cfg, s, x).Some?
    ensures var e := Emits(cfg, s, x).value; e.Insert? && OwnKey(cfg, e.params.uniqueKey)
  {
    var item := s.schedulers[x.scheduler].plan[0];
    assert SchedulerInv(cfg, s, s.schedulers[x.scheduler]) && ItemInv(cfg, item);
    assert item.occurrence == At(cfg, item.to) && item.to >= 1;
  }

  lemma SeenIsHarmless(ca: Config, cb: Config, p: Pair, x: PairAction)
    requires Inv(cb, p.b) && Clean(ca, cb, [x])
    ensures NoDeletes(Seen(cb, p, x)) && (!ShareKey(ca, cb) ==> NoForeignKeys(ca, Seen(cb, p, x)))
  {
    assert x == [x][0];
    if x.Second? && !x.a.Other? && Emits(cb, p.b, x.a).Some? {
      EmitsOwnKey(cb, p.b, x.a);
      var key := Emits(cb, p.b, x.a).value.params.uniqueKey;
      if OwnKey(ca, key) {
        var i: nat :| i >= 1 && key == ca.keyOf(At(ca, i));
        var j: nat :| j >= 1 && key == cb.keyOf(At(cb, j));
        assert ShareKey(ca, cb);
      }
    }
  }

  lemma {:induction false} ViewIsHarmless(ca: Config, cb: Config, actions: seq<PairAction>)
    requires ValidConfig(ca) && ValidConfig(cb) && Clean(ca, cb, actions)
    ensures NoDeletes(View(ca, cb, actions))
    ensures !ShareKey(ca, cb) ==> NoForeignKeys(ca, View(ca, cb, actions))
  {
    if |actions| > 0 {
      var init, x := actions[..|actions| - 1], actions[|actions| - 1];
      ViewIsHarmless(ca, cb, init);
      PairInv(ca, cb, init);
      SeenIsHarmless(ca, cb, RunPair(ca, cb, init), x);
    }
  }

  // ---- jobs that share no key ----

  /** The occurrence has one row, and it is a row of this job. */
  ghost predicate HasOwnRow(cfg: Config, s: Store, i: nat) {
    exists id :: OnlyRow(s, id, cfg.keyOf(At(cfg, i))) && OfJob(cfg, s.jobs[id])
  }

  ghost predicate AllOwned(cfg: Config, s: State) {
    forall i: nat :: 1 <= i <= s.index ==> HasOwnRow(cfg, s.store, i)
  }

  /** The row serves two occurrences that the cursors have passed, one of each job. */
  ghost predicate ServesBoth(ca: Config, cb: Config, p: Pair, i: nat, j: nat, id: string) {
    && 1 <= i <= p.a.index && 1 <= j <= p.b.index
    && CarriesKey(p.a.store, id, ca.keyOf(At(ca, i))) && CarriesKey(p.a.store, id, cb.keyOf(At(cb, j)))
  }

  /** Every occurrence that a cursor has passed has a row of its own. */
  ghost predicate EachHasItsRow(ca: Config, cb: Config, p: Pair) {
    && AllOwned(ca, p.a) && AllOwned(cb, p.b)
    && forall i: nat, j: nat, id: string :: !ServesBoth(ca, cb, p, i, j, id)
  }

  lemma FirstOwnsItsRows(ca: Config, cb: Config, actions: seq<PairAction>)
    requires ValidConfig(ca) && ValidConfig(cb) && ca.catchUp.CatchUpAll?
    requires Clean(ca, cb, actions) && !ShareKey(ca, cb)
    ensures AllOwned(ca, RunPair(ca, cb, actions).a)
  {
    ViewIsHarmless(ca, cb, actions);
    ViewRun(ca, cb, actions);
    var s := RunPair(ca, cb, actions).a;
    forall i: nat | 1 <= i <= s.index ensures HasOwnRow(ca, s.store, i) {
      var id := ExactlyOneRowPerOccurrence(ca, View(ca, cb, actions), i);
    }
  }

  lemma UnsharedKeysKeepRows(ca: Config, cb: Config, actions: seq<PairAction>)
    requires ValidConfig(ca) && ValidConfig(cb) && ca.catchUp.CatchUpAll? && cb.catchUp.CatchUpAll?
    requires Clean(ca, cb, actions) && !ShareKey(ca, cb)
    ensures EachHasItsRow(ca, cb, RunPair(ca, cb, actions))
  {
    FirstOwnsItsRows(ca, cb, actions);
    ShareKeyCommutes(ca, cb);
    CleanSwaps(ca, cb, actions);
    FirstOwnsItsRows(cb, ca, Swapped(actions));
    SwappedRun(ca, cb, actions);
  }

  // ---- jobs that share a key ----

  /** The schedule keeps moving forward, and never to the zero instant. */
  ghost predicate Lively(cfg: Config) {
    cfg.scanLimit >= 1 && forall k: nat :: MovesOn(cfg, k)
  }

  /** A tick at the next occurrence plans that occurrence and no other. */
  lemma TickPlansNext(cfg: Config, s: State)
    requires ValidConfig(cfg) && cfg.catchUp.CatchUpAll? && Lively(cfg) && Inv(cfg, s)
    ensures var k := s.index; var t := Step(cfg, s, Tick(0, At(cfg, k + 1)));
      && t.index == k && t.cursor == Some(At(cfg, k)) && t.store == s.store && 0 in t.schedulers
      && t.schedulers[0] == Working([Item(At(cfg, k + 1), true, At(cfg, k), k, k + 1)], false)
  {
    var k := s.index;
    var t := At(cfg, k + 1);
    assert cfg.next(At(cfg, k)) == t && cfg.next(t) == At(cfg, k + 2);
    assert MovesOn(cfg, k) && MovesOn(cfg, k + 1);
    var scan := ScanFrom(cfg.next, At(cfg, k), t, cfg.scanLimit, cfg.maxCatchUp);
    var rest := ScanFrom(cfg.next, t, t, cfg.scanLimit - 1, cfg.maxCatchUp - 1);
    assert rest.Scanned? && rest.due == [];
    assert scan == Scanned([t], rest.complete);
  }

  /** Tick, enqueue and advance take the cursor to the next occurrence. */
  lemma OneRound(cfg: Config, s: State) returns (t: State)
    requires ValidConfig(cfg) && cfg.catchUp.CatchUpAll? && Lively(cfg) && Inv(cfg, s)
    ensures var at := At(cfg, s.index + 1);
      t == Step(cfg, Step(cfg, Step(cfg, s, Tick(0, at)), Enqueue(0, at)), Advance(0))
    ensures t.index == s.index + 1
  {
    var at := At(cfg, s.index + 1);
    TickPlansNext(cfg, s);
    t := Step(cfg, Step(cfg, Step(cfg, s, Tick(0, at)), Enqueue(0, at)), Advance(0));
  }

  function Round(at: int): seq<PairAction> {
    [First(Tick(0, at)), First(Enqueue(0, at)), First(Advance(0))]
  }

  lemma RunRound(ca: Config, cb: Config, actions: seq<PairAction>, at: int)
    ensures RunPair(ca, cb, actions + Round(at)).a ==
      Step(ca, Step(ca, Step(ca, RunPair(ca, cb, actions).a, Tick(0, at)), Enqueue(0, at)), Advance(0))
  {
    var a1 := actions + [First(Tick(0, at))];
    var a2 := a1 + [First(Enqueue(0, at))];
    RunSnoc(ca, cb, actions, First(Tick(0, at)));
    RunSnoc(ca, cb, a1, First(Enqueue(0, at)));
    RunSnoc(ca, cb, a2, First(Advance(0)));
    assert actions + Round(at) == a2 + [First(Advance(0))];
  }

  ghost predicate OnlyFirst(actions: seq<PairAction>) {
    forall i :: 0 <= i < |actions| ==> actions[i].First?
  }

  /** The schedulers of one job alone can take its cursor as far as one likes. */
  lemma {:induction false} Drive(ca: Config, cb: Config, actions: seq<PairAction>, k: nat)
      returns (more: seq<PairAction>)
    requires ValidConfig(ca) && ValidConfig(cb) && ca.catchUp.CatchUpAll? && Lively(ca)
    ensures OnlyFirst(more) && RunPair(ca, cb, actions + more).a.index >= k
    decreases k
  {
    if k == 0 {
      more := [];
    } else {
      var init := Drive(ca, cb, actions, k - 1);
      var s := RunPair(ca, cb, actions + init).a;
      PairInv(ca, cb, actions + init);
      var t := OneRound(ca, s);
      RunRound(ca, cb, actions + init, At(ca, s.index + 1));
      more := init + Round(At(ca, s.index + 1));
      assert actions + more == actions + init + Round(At(ca, s.index + 1));
    }
  }

  /** A row that carries the key and has the attributes of the job. */
  ghost predicate JobsRow(cfg: Config, s: Store, id: string, key: string) {
    CarriesKey(s, id, key) && OfJob(cfg, s.jobs[id])
  }

  lemma InsertKeepsRow(cfg: Config, s: Store, e: Event, id: string, key: string)
    requires Valid(s) && e.Insert? && JobsRow(cfg, s, id, key)
    ensures JobsRow(cfg, Apply(s, e), id, key)
  {
    ApplyValid(s, e);
    assert id in Apply(s, e).jobs;
    MovesKeepsValidRow(e, s.jobs[id], Apply(s, e).jobs[id]);
  }

  /** What the first job does leaves the rows and the cursor of the second one alone. */
  lemma {:induction false} FirstLeavesRow(ca: Config, cb: Config, actions: seq<PairAction>, more: seq<PairAction>,
                                          id: string, key: string)
    requires ValidConfig(ca) && ValidConfig(cb) && OnlyFirst(more)
    requires JobsRow(cb, RunPair(ca, cb, actions).a.store, id, key)
    ensures JobsRow(cb, RunPair(ca, cb, actions + more).a.store, id, key)
    ensures RunPair(ca, cb, actions + more).b.index == RunPair(ca, cb, actions).b.index
  {
    if |more| == 0 {
      assert actions + more == actions;
    } else {
      var n := |more| - 1;
      FirstLeavesRow(ca, cb, actions, more[..n], id, key);
      PairInv(ca, cb, actions + more[..n]);
      assert actions + more == actions + more[..n] + [more[n]];
      RunSnoc(ca, cb, actions + more[..n], more[n]);
      FirstStepLeavesRow(ca, cb, RunPair(ca, cb, actions + more[..n]), more[n].a, id, key);
    }
  }

  lemma FirstStepLeavesRow(ca: Config, cb: Config, p: Pair, x: Action, id: string, key: string)
    requires Valid(p.a.store) && JobsRow(cb, p.a.store, id, key)
    ensures var q := StepPair(ca, cb, p, First(x)); JobsRow(cb, q.a.store, id, key) && q.b.index == p.b.index
  {
    if !x.Other? {
      StepStore(ca, p.a, x);
      if Emits(ca, p.a, x).Some? {
        InsertKeepsRow(cb, p.a.store, Emits(ca, p.a, x).value, id, key);
      }
    }
  }

  lemma {:induction false} AloneSeesNobody(ca: Config, cb: Config, actions: seq<PairAction>)
    requires OnlyFirst(actions)
    ensures NoForeignKeys(ca, View(ca, cb, actions)) && NoDeletes(View(ca, cb, actions))
  {
    if |actions| > 0 {
      AloneSeesNobody(ca, cb, actions[..|actions| - 1]);
      assert actions[|actions| - 1].First?;
    }
  }

  /** On its own, a job comes to have its row for any occurrence. */
  lemma AloneHasRow(ca: Config, cb: Config, k: nat) returns (actions: seq<PairAction>, id: string)
    requires ValidConfig(ca) && ValidConfig(cb) && ca.catchUp.CatchUpAll? && Lively(ca) && k >= 1
    ensures OnlyFirst(actions) && RunPair(ca, cb, actions).a.index >= k
    ensures JobsRow(ca, RunPair(ca, cb, actions).a.store, id, ca.keyOf(At(ca, k)))
  {
    actions := Drive(ca, cb, [], k);
    assert [] + actions == actions;
    ViewRun(ca, cb, actions);
    AloneSeesNobody(ca, cb, actions);
    id := ExactlyOneRowPerOccurrence(ca, View(ca, cb, actions), k);
  }

  lemma SecondAlone(ca: Config, cb: Config, j: nat) returns (actions: seq<PairAction>, id: string)
    requires ValidConfig(ca) && ValidConfig(cb) && cb.catchUp.CatchUpAll? && Lively(cb) && j >= 1
    ensures (forall i :: 0 <= i < |actions| ==> actions[i].Second?) && RunPair(ca, cb, actions).b.index >= j
    ensures JobsRow(cb, RunPair(ca, cb, actions).a.store, id, cb.keyOf(At(cb, j)))
  {
    var swapped;
    swapped, id := AloneHasRow(cb, ca, j);
    actions := Swapped(swapped);
    SwappedRun(cb, ca, swapped);
    SameStore(ca, cb, actions);
  }

  /** A shared key: in some run of the two jobs alone, the cursor of the first one passes an
      occurrence whose only row is one that the second one stored for its own. */
  lemma SharedKeyServesBoth(ca: Config, cb: Config, i: nat, j: nat) returns (actions: seq<PairAction>, id: string)
    requires ValidConfig(ca) && ValidConfig(cb) && ca.catchUp.CatchUpAll? && cb.catchUp.CatchUpAll?
    requires Lively(ca) && Lively(cb) && i >= 1 && j >= 1 && ca.keyOf(At(ca, i)) == cb.keyOf(At(cb, j))
    ensures forall k :: 0 <= k < |actions| ==> !actions[k].Third?
    ensures var p := RunPair(ca, cb, actions);
      && ServesBoth(ca, cb, p, i, j, id)
      && OnlyRow(p.a.store, id, ca.keyOf(At(ca, i))) && OfJob(cb, p.a.store.jobs[id])
  {
    var before;
    before, id := SecondAlone(ca, cb, j);
    var more := Drive(ca, cb, before, i);
    FirstLeavesRow(ca, cb, before, more, id, cb.keyOf(At(cb, j)));
    actions := before + more;
    ViewRun(ca, cb, actions);
    RowIsOnly(ca, View(ca, cb, actions), At(ca, i), id);
  }

  /** The exact condition: in every run of two periodic jobs, with crashes between any two
      steps, every occurrence that a cursor has passed has a row of its own, if and only if
      no occurrence of one job has the key of an occurrence of the other. */
  lemma EachHasItsRowIff(ca: Config, cb: Config)
    requires ValidConfig(ca) && ValidConfig(cb) && ca.catchUp.CatchUpAll? && cb.catchUp.CatchUpAll?
    requires Lively(ca) && Lively(cb)
    ensures (forall actions :: Clean(ca, cb, actions) ==> EachHasItsRow(ca, cb, RunPair(ca, cb, actions))) <==>
      !ShareKey(ca, cb)
  {
    if ShareKey(ca, cb) {
      var i: nat, j: nat :| i >= 1 && j >= 1 && ca.keyOf(At(ca, i)) == cb.keyOf(At(cb, j));
      var actions, id := SharedKeyServesBoth(ca, cb, i, j);
      assert Clean(ca, cb, actions) && !EachHasItsRow(ca, cb, RunPair(ca, cb, actions));
    } else {
      forall actions | Clean(ca, cb, actions) ensures EachHasItsRow(ca, cb, RunPair(ca, cb, actions)) {
        UnsharedKeysKeepRows(ca, cb, actions);
      }
    }
  }
}
