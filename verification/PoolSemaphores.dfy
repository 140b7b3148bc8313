/** Reference-counted semaphores of the pool, in every interleaving of acquisition,
    abandoned waits and release. */
module PoolSemaphores {
  import opened Prelude
  import opened PoolMachine

  predicate Refers(job: Job, e: nat) {
    e in job.held || (job.pc.Queued? && job.pc.e == e) || (job.pc.Dropping? && job.pc.e == e)
  }

  ghost function Holders(jobs: seq<Job>, e: nat): set<nat> {
    set j: nat | j < |jobs| && e in jobs[j].held
  }

  ghost function Referrers(jobs: seq<Job>, e: nat): set<nat> {
    set j: nat | j < |jobs| && Refers(jobs[j], e)
  }

  // ---- invariant ----

  /** The job holds tokens for exactly the first `i` resources of its plan. */
  ghost predicate Aligned(entries: seq<Entry>, job: Job, i: nat) {
    && |job.held| == i <= |job.plan|
    && forall k :: 0 <= k < i ==> job.held[k] < |entries| && entries[job.held[k]].key == job.plan[k]
  }

  ghost predicate JobInv(cfg: Config, entries: seq<Entry>, job: Job) {
    && ValidPlan(cfg, job.plan)
    && (forall k :: 0 <= k < |job.held| ==> job.held[k] < |entries|)
    && (forall k, l :: 0 <= k < l < |job.held| ==> job.held[k] != job.held[l])
    && match job.pc
       case Acquiring(i) => i < |job.plan| && Aligned(entries, job, i)
       case Queued(i, e) =>
         i < |job.plan| && Aligned(entries, job, i) && e < |entries| && entries[e].key == job.plan[i] && e !in job.held
       case PermitWait => Aligned(entries, job, |job.plan|)
       case Dropping(e, _) => e < |entries| && Counted(entries[e].key) && e !in job.held
       case Ungating => true
       case Handling => true
       case Unwinding => true
       case _ => job.held == []
  }

  ghost predicate TableInv(s: State) {
    forall r :: r in s.table ==> s.table[r] < |s.entries| && s.entries[s.table[r]].key == r
  }

  predicate Listed(s: State, e: nat)
    requires e < |s.entries|
  {
    s.entries[e].key in s.table && s.table[s.entries[e].key] == e
  }

  /** Tokens and references are counted exactly, the limit holds, whoever refers to the
      entry refers to the one in the table, and the table only lists referenced entries. */
  ghost predicate EntryInv(cfg: Config, s: State, e: nat)
    requires e < |s.entries|
  {
    var entry := s.entries[e];
    && entry.tokens == |Holders(s.jobs, e)| <= cfg.limit(entry.key)
    && (Counted(entry.key) ==> entry.refs == |Referrers(s.jobs, e)|)
    && (Referrers(s.jobs, e) != {} ==> Listed(s, e))
    && (Counted(entry.key) && Listed(s, e) ==> Referrers(s.jobs, e) != {})
  }

  ghost predicate Inv(cfg: Config, s: State) {
    && (forall j :: 0 <= j < |s.jobs| ==> JobInv(cfg, s.entries, s.jobs[j]))
    && TableInv(s)
    && (forall e: nat :: e < |s.entries| ==> EntryInv(cfg, s, e))
  }

  // ---- frames ----

  ghost predicate KeysKept(a: seq<Entry>, b: seq<Entry>) {
    |a| <= |b| && forall e :: 0 <= e < |a| ==> a[e].key == b[e].key
  }

  lemma JobFrame(cfg: Config, a: seq<Entry>, b: seq<Entry>, job: Job)
    requires JobInv(cfg, a, job) && KeysKept(a, b)
    ensures JobInv(cfg, b, job)
  {
  }

  /** Replacing one job changes at most its own membership. */
  lemma SetsAfter(jobs: seq<Job>, j: nat, job: Job, e: nat)
    requires j < |jobs|
    ensures var after := jobs[j := job];
      && Holders(after, e) == (if e in job.held then Holders(jobs, e) + {j} else Holders(jobs, e) - {j})
      && Referrers(after, e) == (if Refers(job, e) then Referrers(jobs, e) + {j} else Referrers(jobs, e) - {j})
  {
  }

  lemma SetsUnchanged(jobs: seq<Job>, j: nat, job: Job, e: nat)
    requires j < |jobs|
    requires e in job.held <==> e in jobs[j].held
    requires Refers(job, e) <==> Refers(jobs[j], e)
    ensures Holders(jobs[j := job], e) == Holders(jobs, e) && Referrers(jobs[j := job], e) == Referrers(jobs, e)
  {
    SetsAfter(jobs, j, job, e);
  }

  /** Entries that the step does not touch keep their invariant. */
  lemma EntryFrame(cfg: Config, s: State, t: State, j: nat, job: Job, e: nat)
    requires j < |s.jobs| && t.jobs == s.jobs[j := job] && e < |s.entries| <= |t.entries|
    requires EntryInv(cfg, s, e) && t.entries[e] == s.entries[e]
    requires e in job.held <==> e in s.jobs[j].held
    requires Refers(job, e) <==> Refers(s.jobs[j], e)
    requires Listed(t, e) <==> Listed(s, e)
    ensures EntryInv(cfg, t, e)
  {
    SetsUnchanged(s.jobs, j, job, e);
  }

  /** A step that moves one program counter and touches no entry. */
  lemma MoveKeepsInv(cfg: Config, s: State, t: State, j: nat, job: Job)
    requires Inv(cfg, s) && j < |s.jobs|
    requires t.jobs == s.jobs[j := job] && t.entries == s.entries && t.table == s.table
    requires JobInv(cfg, s.entries, job) && job.held == s.jobs[j].held
    requires forall e: nat :: e < |s.entries| ==> (Refers(job, e) <==> Refers(s.jobs[j], e))
    ensures Inv(cfg, t)
  {
    forall e: nat | e < |t.entries| ensures EntryInv(cfg, t, e) {
      EntryFrame(cfg, s, t, j, job, e);
    }
  }

  // ---- steps on entries ----

  lemma NotYetHeld(cfg: Config, s: State, job: Job, i: nat, e: nat)
    requires JobInv(cfg, s.entries, job) && job.pc == Acquiring(i)
    requires e < |s.entries| && s.entries[e].key == job.plan[i]
    ensures !Refers(job, e)
  {
    forall k | 0 <= k < |job.held| ensures job.held[k] != e {
      assert Rank(cfg, job.plan[k]) < Rank(cfg, job.plan[i]);
    }
  }

  lemma FreshEntryUnused(cfg: Config, s: State, e: nat)
    requires Inv(cfg, s) && e >= |s.entries|
    ensures Holders(s.jobs, e) == {} && Referrers(s.jobs, e) == {}
  {
    forall j | 0 <= j < |s.jobs| ensures !Refers(s.jobs[j], e) {
      assert JobInv(cfg, s.entries, s.jobs[j]);
    }
  }

  /** All jobs keep their invariant when one of them is replaced by a good one. */
  lemma JobsFrame(cfg: Config, s: State, t: State, j: nat, job: Job)
    requires Inv(cfg, s) && j < |s.jobs| && t.jobs == s.jobs[j := job]
    requires KeysKept(s.entries, t.entries) && JobInv(cfg, t.entries, job)
    ensures forall k :: 0 <= k < |t.jobs| ==> JobInv(cfg, t.entries, t.jobs[k])
  {
    forall k | 0 <= k < |t.jobs| ensures JobInv(cfg, t.entries, t.jobs[k]) {
      if k != j {
        JobFrame(cfg, s.entries, t.entries, s.jobs[k]);
      }
    }
  }

  /** Counting a reference in an entry that the job did not refer to before. */
  lemma CountedEntry(cfg: Config, s: State, t: State, j: nat, job: Job, e: nat)
    requires j < |s.jobs| && t.jobs == s.jobs[j := job] && e < |t.entries|
    requires !Refers(s.jobs[j], e) && Refers(job, e) && e !in job.held && Listed(t, e)
    requires t.entries[e].tokens == |Holders(s.jobs, e)| <= cfg.limit(t.entries[e].key)
    requires Counted(t.entries[e].key) ==> t.entries[e].refs == |Referrers(s.jobs, e)| + 1
    ensures EntryInv(cfg, t, e)
  {
    SetsAfter(s.jobs, j, job, e);
    assert Holders(t.jobs, e) == Holders(s.jobs, e);
    assert j !in Referrers(s.jobs, e) && j in Referrers(t.jobs, e);
  }

  lemma QueuedJob(cfg: Config, entries: seq<Entry>, after: seq<Entry>, before: Job, e: nat)
    requires JobInv(cfg, entries, before) && before.pc.Acquiring? && KeysKept(entries, after)
    requires e < |after| && after[e].key == before.plan[before.pc.i] && !Refers(before, e)
    ensures JobInv(cfg, after, before.(pc := Queued(before.pc.i, e)))
  {
    JobFrame(cfg, entries, after, before);
  }

  /** The entry of a queued job after its reference was counted. */
  lemma TakenEntry(cfg: Config, s: State, j: nat)
    requires Inv(cfg, s) && ValidConfig(cfg)
    requires j < |s.jobs| && s.jobs[j].pc.Acquiring? && s.jobs[j].pc.i < |s.jobs[j].plan|
    ensures var i := s.jobs[j].pc.i;
      var t := TakeRef(s, j, i);
      var e := t.table[s.jobs[j].plan[i]];
      && e < |t.entries| && KeysKept(s.entries, t.entries)
      && t.jobs == s.jobs[j := s.jobs[j].(pc := Queued(i, e))]
      && JobInv(cfg, t.entries, t.jobs[j]) && EntryInv(cfg, t, e)
  {
    var before := s.jobs[j];
    assert JobInv(cfg, s.entries, before);
    var i := before.pc.i;
    var r := before.plan[i];
    var t := TakeRef(s, j, i);
    var e := t.table[r];
    if r in s.table {
      NotYetHeld(cfg, s, before, i, e);
      assert EntryInv(cfg, s, e);
    } else {
      FreshEntryUnused(cfg, s, e);
      assert j !in Referrers(s.jobs, e);
    }
    QueuedJob(cfg, s.entries, t.entries, before, e);
    CountedEntry(cfg, s, t, j, t.jobs[j], e);
  }

  lemma TakeRefKeepsInv(cfg: Config, s: State, j: nat)
    requires Inv(cfg, s) && ValidConfig(cfg)
    requires j < |s.jobs| && s.jobs[j].pc.Acquiring? && s.jobs[j].pc.i < |s.jobs[j].plan|
    ensures Inv(cfg, TakeRef(s, j, s.jobs[j].pc.i))
  {
    TakenEntry(cfg, s, j);
    var i := s.jobs[j].pc.i;
    var t := TakeRef(s, j, i);
    var e := t.table[s.jobs[j].plan[i]];
    JobsFrame(cfg, s, t, j, t.jobs[j]);
    forall x: nat | x < |t.entries| && x != e ensures EntryInv(cfg, t, x) {
      EntryFrame(cfg, s, t, j, t.jobs[j], x);
    }
  }

  lemma SentJob(cfg: Config, entries: seq<Entry>, after: seq<Entry>, before: Job, job: Job)
    requires JobInv(cfg, entries, before) && before.pc.Queued? && KeysKept(entries, after)
    requires job == before.(pc := AfterPlan(before.plan, before.pc.i + 1), held := before.held + [before.pc.e])
    ensures JobInv(cfg, after, job)
    ensures forall x: nat :: Refers(job, x) <==> Refers(before, x)
  {
  }

  lemma SentEntry(cfg: Config, s: State, j: nat)
    requires Inv(cfg, s) && j < |s.jobs| && s.jobs[j].pc.Queued? && CanProceed(cfg, s, j)
    ensures EntryInv(cfg, ProceedJob(cfg, s, j), s.jobs[j].pc.e)
  {
    var before := s.jobs[j];
    assert JobInv(cfg, s.entries, before);
    var e := before.pc.e;
    var t := ProceedJob(cfg, s, j);
    SentJob(cfg, s.entries, t.entries, before, t.jobs[j]);
    assert EntryInv(cfg, s, e);
    SetsAfter(s.jobs, j, t.jobs[j], e);
    assert j !in Holders(s.jobs, e) && j in Referrers(s.jobs, e);
    assert Referrers(t.jobs, e) == Referrers(s.jobs, e);
  }

  lemma SendKeepsInv(cfg: Config, s: State, j: nat)
    requires Inv(cfg, s) && j < |s.jobs| && s.jobs[j].pc.Queued? && CanProceed(cfg, s, j)
    ensures Inv(cfg, ProceedJob(cfg, s, j))
  {
    var before := s.jobs[j];
    assert JobInv(cfg, s.entries, before);
    var t := ProceedJob(cfg, s, j);
    SentJob(cfg, s.entries, t.entries, before, t.jobs[j]);
    SentEntry(cfg, s, j);
    JobsFrame(cfg, s, t, j, t.jobs[j]);
    forall x: nat | x < |t.entries| && x != before.pc.e ensures EntryInv(cfg, t, x) {
      EntryFrame(cfg, s, t, j, t.jobs[j], x);
    }
  }

  /** The job after it gave a token back still refers to the entry while it is counted. */
  lemma GivenJob(cfg: Config, s: State, j: nat, k: nat, unwinding: bool)
    requires j < |s.jobs| && k < |s.jobs[j].held| && s.jobs[j].held[k] < |s.entries|
    requires JobInv(cfg, s.entries, s.jobs[j]) && (s.jobs[j].pc.Ungating? || s.jobs[j].pc.Unwinding?)
    ensures var before := s.jobs[j]; var e := before.held[k];
      var t := GiveBack(s, j, k, unwinding); var job := t.jobs[j];
      && JobInv(cfg, t.entries, job)
      && e !in job.held && (Refers(job, e) <==> Counted(s.entries[e].key))
      && forall x: nat :: x != e ==> (x in job.held <==> x in before.held) && (Refers(job, x) <==> Refers(before, x))
  {
    HeldWithout(s.jobs[j].held, k);
  }

  lemma GivenEntry(cfg: Config, s: State, t: State, j: nat, job: Job, e: nat)
    requires j < |s.jobs| && t.jobs == s.jobs[j := job] && e < |s.entries| == |t.entries|
    requires EntryInv(cfg, s, e) && t.table == s.table
    requires t.entries[e] == s.entries[e].(tokens := s.entries[e].tokens - 1)
    requires e in s.jobs[j].held && e !in job.held && (Refers(job, e) <==> Counted(s.entries[e].key))
    ensures EntryInv(cfg, t, e)
  {
    SetsAfter(s.jobs, j, job, e);
    assert j in Holders(s.jobs, e) && j in Referrers(s.jobs, e);
    assert Counted(s.entries[e].key) ==> Referrers(t.jobs, e) == Referrers(s.jobs, e);
  }

  lemma GiveBackKeepsInv(cfg: Config, s: State, j: nat, k: nat, unwinding: bool)
    requires Inv(cfg, s) && j < |s.jobs| && k < |s.jobs[j].held| && s.jobs[j].held[k] < |s.entries|
    requires s.jobs[j].pc.Ungating? || s.jobs[j].pc.Unwinding?
    ensures Inv(cfg, GiveBack(s, j, k, unwinding))
  {
    var e := s.jobs[j].held[k];
    var t := GiveBack(s, j, k, unwinding);
    GivenJob(cfg, s, j, k, unwinding);
    JobsFrame(cfg, s, t, j, t.jobs[j]);
    GivenEntry(cfg, s, t, j, t.jobs[j], e);
    forall x: nat | x < |t.entries| && x != e ensures EntryInv(cfg, t, x) {
      EntryFrame(cfg, s, t, j, t.jobs[j], x);
    }
  }

  lemma HeldWithout(held: seq<nat>, k: nat)
    requires k < |held| && forall i, j :: 0 <= i < j < |held| ==> held[i] != held[j]
    ensures var rest := held[..k] + held[k + 1..];
      && (forall x :: x in rest <==> x in held && x != held[k])
      && (forall i, j :: 0 <= i < j < |rest| ==> rest[i] != rest[j])
  {
    var rest := held[..k] + held[k + 1..];
    forall x | x in held && x != held[k] ensures x in rest {
      var i :| 0 <= i < |held| && held[i] == x;
      assert x == if i < k then rest[i] else rest[i - 1];
    }
  }

  lemma DroppedEntry(cfg: Config, s: State, j: nat)
    requires Inv(cfg, s) && j < |s.jobs| && s.jobs[j].pc.Dropping? && s.jobs[j].pc.e < |s.entries|
    requires Counted(s.entries[s.jobs[j].pc.e].key) && s.jobs[j].pc.e !in s.jobs[j].held
    ensures EntryInv(cfg, ProceedJob(cfg, s, j), s.jobs[j].pc.e)
    ensures Listed(s, s.jobs[j].pc.e)
  {
    var e := s.jobs[j].pc.e;
    var t := ProceedJob(cfg, s, j);
    SetsAfter(s.jobs, j, t.jobs[j], e);
    assert EntryInv(cfg, s, e);
    assert j in Referrers(s.jobs, e) && j !in Holders(s.jobs, e);
    assert Holders(t.jobs, e) == Holders(s.jobs, e);
    assert |Referrers(t.jobs, e)| == |Referrers(s.jobs, e)| - 1;
  }

  lemma DropKeepsInv(cfg: Config, s: State, j: nat)
    requires Inv(cfg, s) && j < |s.jobs| && s.jobs[j].pc.Dropping?
    ensures Inv(cfg, ProceedJob(cfg, s, j))
  {
    var before := s.jobs[j];
    assert JobInv(cfg, s.entries, before);
    var e := before.pc.e;
    var t := ProceedJob(cfg, s, j);
    DroppedEntry(cfg, s, j);
    JobsFrame(cfg, s, t, j, t.jobs[j]);
    forall x: nat | x < |t.entries| && x != e ensures EntryInv(cfg, t, x) {
      EntryFrame(cfg, s, t, j, t.jobs[j], x);
    }
  }

  lemma {:induction false} GateAtInRange(entries: seq<Entry>, held: seq<nat>)
    ensures var g := GateAt(entries, held);
      g.Some? ==> g.value < |held| && held[g.value] < |entries| && entries[held[g.value]].key.Gate?
  {
    if |held| > 0 {
      GateAtInRange(entries, held[..|held| - 1]);
    }
  }

  // ---- all steps ----

  lemma ClaimKeepsInv(cfg: Config, s: State, pipeline: string, plan: seq<Resource>)
    requires Inv(cfg, s) && ValidPlan(cfg, plan)
    ensures Inv(cfg, ClaimJob(s, pipeline, plan))
  {
    var t := ClaimJob(s, pipeline, plan);
    forall e: nat | e < |t.entries| ensures EntryInv(cfg, t, e) {
      assert EntryInv(cfg, s, e);
      assert Holders(t.jobs, e) == Holders(s.jobs, e);
      assert Referrers(t.jobs, e) == Referrers(s.jobs, e);
    }
  }

  /** Steps that move only the program counter (and the pipeline bookkeeping). */
  lemma PlainStepKeepsInv(cfg: Config, s: State, j: nat)
    requires Inv(cfg, s) && j < |s.jobs|
    requires var pc := s.jobs[j].pc;
      pc.PipelineWait? || pc.PermitWait? || pc.Handling? || pc.Closing? || pc.Unlinking? || pc.Finished?
    ensures Inv(cfg, ProceedJob(cfg, s, j))
  {
    assert JobInv(cfg, s.entries, s.jobs[j]);
    var t := ProceedJob(cfg, s, j);
    assert s.jobs == s.jobs[j := s.jobs[j]];
    MoveKeepsInv(cfg, s, t, j, t.jobs[j]);
  }

  lemma UngateKeepsInv(cfg: Config, s: State, j: nat)
    requires Inv(cfg, s) && j < |s.jobs| && s.jobs[j].pc.Ungating?
    ensures Inv(cfg, ProceedJob(cfg, s, j))
  {
    assert JobInv(cfg, s.entries, s.jobs[j]);
    var gate := GateAt(s.entries, s.jobs[j].held);
    GateAtInRange(s.entries, s.jobs[j].held);
    if gate.Some? {
      GiveBackKeepsInv(cfg, s, j, gate.value, false);
    } else {
      MoveKeepsInv(cfg, s, ProceedJob(cfg, s, j), j, s.jobs[j].(pc := Handling));
    }
  }

  lemma UnwindKeepsInv(cfg: Config, s: State, j: nat)
    requires Inv(cfg, s) && j < |s.jobs| && s.jobs[j].pc.Unwinding?
    ensures Inv(cfg, ProceedJob(cfg, s, j))
  {
    assert JobInv(cfg, s.entries, s.jobs[j]);
    if |s.jobs[j].held| > 0 {
      GiveBackKeepsInv(cfg, s, j, |s.jobs[j].held| - 1, true);
    } else {
      MoveKeepsInv(cfg, s, ProceedJob(cfg, s, j), j, s.jobs[j].(pc := Closing));
    }
  }

  lemma ProceedKeepsInv(cfg: Config, s: State, j: nat)
    requires Inv(cfg, s) && ValidConfig(cfg) && j < |s.jobs| && CanProceed(cfg, s, j)
    ensures Inv(cfg, ProceedJob(cfg, s, j))
  {
    match s.jobs[j].pc
    case Acquiring(_) =>
      assert JobInv(cfg, s.entries, s.jobs[j]);
      TakeRefKeepsInv(cfg, s, j);
    case Queued(_, _) => SendKeepsInv(cfg, s, j);
    case Dropping(_, _) => DropKeepsInv(cfg, s, j);
    case Ungating => UngateKeepsInv(cfg, s, j);
    case Unwinding => UnwindKeepsInv(cfg, s, j);
    case _ => PlainStepKeepsInv(cfg, s, j);
  }

  /** Leaving the queue of a kind or of the pool: nothing was counted. */
  lemma LeaveKeepsInv(cfg: Config, s: State, t: State, j: nat)
    requires Inv(cfg, s) && j < |s.jobs| && s.jobs[j].pc.Queued? && s.jobs[j].pc.e < |s.entries|
    requires !Counted(s.entries[s.jobs[j].pc.e].key) && t == WithJob(s, j, s.jobs[j].(pc := Unwinding))
    ensures Inv(cfg, t)
  {
    var e := s.jobs[j].pc.e;
    assert JobInv(cfg, s.entries, s.jobs[j]) && EntryInv(cfg, s, e);
    SetsAfter(s.jobs, j, t.jobs[j], e);
    assert Holders(t.jobs, e) == Holders(s.jobs, e);
    assert Referrers(t.jobs, e) <= Referrers(s.jobs, e);
    JobsFrame(cfg, s, t, j, t.jobs[j]);
    assert EntryInv(cfg, t, e);
    forall x: nat | x < |t.entries| && x != e ensures EntryInv(cfg, t, x) {
      EntryFrame(cfg, s, t, j, t.jobs[j], x);
    }
  }

  lemma AbandonKeepsInv(cfg: Config, s: State, j: nat)
    requires Inv(cfg, s) && j < |s.jobs|
    ensures Inv(cfg, AbandonJob(s, j))
  {
    var job := s.jobs[j];
    assert JobInv(cfg, s.entries, job);
    match job.pc
    case Queued(_, e) =>
      if Counted(s.entries[e].key) {
        MoveKeepsInv(cfg, s, AbandonJob(s, j), j, job.(pc := Dropping(e, true)));
      } else {
        LeaveKeepsInv(cfg, s, AbandonJob(s, j), j);
      }
    case PipelineWait => MoveKeepsInv(cfg, s, AbandonJob(s, j), j, job.(pc := Unwinding));
    case PermitWait => MoveKeepsInv(cfg, s, AbandonJob(s, j), j, job.(pc := Unwinding));
    case _ =>
  }

  lemma {:induction false} RunInv(cfg: Config, actions: seq<Action>)
    requires ValidConfig(cfg)
    ensures Inv(cfg, Run(cfg, actions))
  {
    if |actions| > 0 {
      var s := Run(cfg, actions[..|actions| - 1]);
      RunInv(cfg, actions[..|actions| - 1]);
      match actions[|actions| - 1]
      case Claim(pipeline, plan) => if ValidPlan(cfg, plan) { ClaimKeepsInv(cfg, s, pipeline, plan); }
      case Proceed(j) => if j < |s.jobs| && CanProceed(cfg, s, j) { ProceedKeepsInv(cfg, s, j); }
      case GiveUp(j) => if j < |s.jobs| { AbandonKeepsInv(cfg, s, j); }
    }
  }

  // ---- what every run guarantees ----

  ghost predicate RefersToKey(s: State, j: nat, r: Resource, e: nat) {
    j < |s.jobs| && e < |s.entries| && Refers(s.jobs[j], e) && s.entries[e].key == r
  }

  ghost function KeyHolders(s: State, r: Resource): set<nat> {
    set j: nat | j < |s.jobs| && exists e :: e in s.jobs[j].held && e < |s.entries| && s.entries[e].key == r
  }

  /** All outstanding references to a key point at the one entry in the table; a counted
      key is in the table exactly while somebody refers to it; and its reference count is
      the number of those jobs. */
  lemma OneEntryPerKey(cfg: Config, actions: seq<Action>, r: Resource)
    requires ValidConfig(cfg)
    ensures var s := Run(cfg, actions);
      && (forall j, e :: RefersToKey(s, j, r, e) ==> r in s.table && s.table[r] == e)
      && (Counted(r) ==> (r in s.table <==> exists j, e :: RefersToKey(s, j, r, e)))
      && (Counted(r) && r in s.table ==>
           s.table[r] < |s.entries| && s.entries[s.table[r]].refs == |Referrers(s.jobs, s.table[r])| > 0)
  {
    RunInv(cfg, actions);
    var s := Run(cfg, actions);
    forall j, e | RefersToKey(s, j, r, e) ensures r in s.table && s.table[r] == e {
      assert EntryInv(cfg, s, e) && j in Referrers(s.jobs, e);
    }
    if Counted(r) && r in s.table {
      var e := s.table[r];
      assert EntryInv(cfg, s, e) && Listed(s, e);
      var j :| j in Referrers(s.jobs, e);
      assert RefersToKey(s, j, r, e);
    }
  }

  /** At most `limit` jobs hold a resource at once: a key slot, a rate gate (limit one), a
      kind or the pool's capacity. */
  lemma LimitHolds(cfg: Config, actions: seq<Action>, r: Resource)
    requires ValidConfig(cfg)
    ensures |KeyHolders(Run(cfg, actions), r)| <= cfg.limit(r)
  {
    RunInv(cfg, actions);
    var s := Run(cfg, actions);
    forall j | j in KeyHolders(s, r) ensures r in s.table && j in Holders(s.jobs, s.table[r]) {
      HolderUsesTable(cfg, s, r, j);
    }
    if r in s.table {
      assert EntryInv(cfg, s, s.table[r]);
      SubsetSize(KeyHolders(s, r), Holders(s.jobs, s.table[r]));
    } else {
      assert KeyHolders(s, r) == {};
    }
  }

  lemma HolderUsesTable(cfg: Config, s: State, r: Resource, j: nat)
    requires Inv(cfg, s) && j in KeyHolders(s, r)
    ensures r in s.table && j in Holders(s.jobs, s.table[r])
  {
    var e: nat :| e in s.jobs[j].held && e < |s.entries| && s.entries[e].key == r;
    assert EntryInv(cfg, s, e) && j in Referrers(s.jobs, e);
  }

  /** Giving a token back never blocks: the channel of a held entry is not empty. */
  lemma ReleaseNeverBlocks(cfg: Config, actions: seq<Action>, j: nat, e: nat)
    requires ValidConfig(cfg) && j < |Run(cfg, actions).jobs| && e in Run(cfg, actions).jobs[j].held
    ensures e < |Run(cfg, actions).entries| && Run(cfg, actions).entries[e].tokens >= 1
  {
    RunInv(cfg, actions);
    var s := Run(cfg, actions);
    assert JobInv(cfg, s.entries, s.jobs[j]);
    assert EntryInv(cfg, s, e);
    assert j in Holders(s.jobs, e);
  }
}
