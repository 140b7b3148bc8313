/** No deadlock in job admission, and every admitted job can be run to its end. */
module PoolProgress {
  import opened PoolMachine
  import Semaphores = PoolSemaphores
  import Pipeline = PoolPipeline

  ghost predicate AllFinished(s: State) {
    forall j :: 0 <= j < |s.jobs| ==> s.jobs[j].pc.Finished?
  }

  ghost predicate Stuck(cfg: Config, s: State) {
    forall j: nat :: j < |s.jobs| ==> !CanProceed(cfg, s, j)
  }

  function WaitRank(cfg: Config, s: State, j: nat): nat
    requires j < |s.jobs|
  {
    var job := s.jobs[j];
    if job.pc.Queued? && job.pc.i < |job.plan| then Rank(cfg, job.plan[job.pc.i]) else 0
  }

  /** In a stuck state, behind a full semaphore stands a job that waits further up. */
  lemma HolderWaitsHigher(cfg: Config, s: State, j: nat) returns (h: nat)
    requires ValidConfig(cfg) && Semaphores.Inv(cfg, s) && Stuck(cfg, s) && j < |s.jobs| && s.jobs[j].pc.Queued?
    ensures h < |s.jobs| && s.jobs[h].pc.Queued? && WaitRank(cfg, s, j) < WaitRank(cfg, s, h)
  {
    assert Semaphores.JobInv(cfg, s.entries, s.jobs[j]);
    var e := s.jobs[j].pc.e;
    assert Semaphores.EntryInv(cfg, s, e);
    assert !CanProceed(cfg, s, j);
    assert cfg.limit(s.entries[e].key) >= 1;
    assert Semaphores.Holders(s.jobs, e) != {};
    h :| h in Semaphores.Holders(s.jobs, e);
    assert !CanProceed(cfg, s, h);
    var other := s.jobs[h];
    assert Semaphores.JobInv(cfg, s.entries, other);
    var k :| 0 <= k < |other.held| && other.held[k] == e;
    assert other.pc.Queued?;
    assert other.plan[k] == s.entries[e].key;
    assert Rank(cfg, other.plan[k]) < Rank(cfg, other.plan[other.pc.i]);
  }

  /** Ranks are bounded, so no job can be queued in a stuck state. */
  lemma {:induction false} NobodyQueued(cfg: Config, s: State, j: nat)
    requires ValidConfig(cfg) && Semaphores.Inv(cfg, s) && Stuck(cfg, s) && j < |s.jobs|
    ensures !s.jobs[j].pc.Queued?
    decreases cfg.keyRules + 3 - WaitRank(cfg, s, j)
  {
    assert Semaphores.JobInv(cfg, s.entries, s.jobs[j]);
    if s.jobs[j].pc.Queued? {
      assert WaitRank(cfg, s, j) <= cfg.keyRules + 2;
      var h := HolderWaitsHigher(cfg, s, j);
      assert Semaphores.JobInv(cfg, s.entries, s.jobs[h]);
      NobodyQueued(cfg, s, h);
    }
  }

  /** A stuck job without a queue waits at its gate for an earlier, finished job: absurd. */
  lemma {:induction false} StuckMeansFinished(cfg: Config, s: State, j: nat)
    requires ValidConfig(cfg) && Semaphores.Inv(cfg, s) && Pipeline.Inv(s) && Stuck(cfg, s) && j < |s.jobs|
    ensures s.jobs[j].pc.Finished?
  {
    NobodyQueued(cfg, s, j);
    assert !CanProceed(cfg, s, j);
    assert Pipeline.PreviousInv(s, j);
    if s.jobs[j].pc.PipelineWait? && s.jobs[j].previous.Some? {
      StuckMeansFinished(cfg, s, s.jobs[j].previous.value);
    }
  }

  /** In every reachable state with an unfinished job, some job can take a step, is in its
      handler, or waits only for time. */
  lemma NoDeadlock(cfg: Config, actions: seq<Action>) returns (j: nat)
    requires ValidConfig(cfg) && !AllFinished(Run(cfg, actions))
    ensures j < |Run(cfg, actions).jobs| && CanProceed(cfg, Run(cfg, actions), j)
  {
    var s := Run(cfg, actions);
    Semaphores.RunInv(cfg, actions);
    Pipeline.RunInv(cfg, actions);
    if Stuck(cfg, s) {
      forall k | 0 <= k < |s.jobs| ensures s.jobs[k].pc.Finished? {
        StuckMeansFinished(cfg, s, k);
      }
    }
    j :| j < |s.jobs| && CanProceed(cfg, s, j);
  }

  // ---- draining ----

  /** Steps that a job still has to take, at most. */
  function WorkLeft(job: Job): int {
    var m, h := |job.plan|, |job.held|;
    match job.pc
    case PipelineWait => 4 * m + 7
    case Acquiring(i) => 4 * (m - i) + 2 * h + 6
    case Queued(i, _) => 4 * (m - i) + 2 * h + 5
    case PermitWait => 2 * h + 6
    case Ungating => 2 * h + 5
    case Dropping(_, unwinding) => if unwinding then 2 * h + 4 else 2 * h + 6
    case Handling => 2 * h + 4
    case Unwinding => 2 * h + 3
    case Closing => 2
    case Unlinking => 1
    case Finished => 0
  }

  ghost function TotalWork(jobs: seq<Job>): int {
    if |jobs| == 0 then 0 else TotalWork(jobs[..|jobs| - 1]) + WorkLeft(jobs[|jobs| - 1])
  }

  lemma {:induction false} TotalWorkUpdate(jobs: seq<Job>, j: nat, job: Job)
    requires j < |jobs|
    ensures TotalWork(jobs[j := job]) == TotalWork(jobs) - WorkLeft(jobs[j]) + WorkLeft(job)
  {
    var n := |jobs| - 1;
    if j < n {
      TotalWorkUpdate(jobs[..n], j, job);
      assert jobs[j := job][..n] == jobs[..n][j := job];
    } else {
      assert jobs[j := job][..n] == jobs[..n];
    }
  }

  lemma WorkNonNegative(cfg: Config, entries: seq<Entry>, job: Job)
    requires Semaphores.JobInv(cfg, entries, job)
    ensures WorkLeft(job) >= 0
  {
  }

  lemma {:induction false} TotalNonNegative(cfg: Config, entries: seq<Entry>, jobs: seq<Job>)
    requires forall j :: 0 <= j < |jobs| ==> Semaphores.JobInv(cfg, entries, jobs[j])
    ensures TotalWork(jobs) >= 0
  {
    if |jobs| > 0 {
      TotalNonNegative(cfg, entries, jobs[..|jobs| - 1]);
      WorkNonNegative(cfg, entries, jobs[|jobs| - 1]);
    }
  }

  /** Every enabled step of a job brings it strictly closer to its end. */
  lemma ProceedDecreases(cfg: Config, s: State, j: nat)
    requires ValidConfig(cfg) && Semaphores.Inv(cfg, s) && j < |s.jobs| && CanProceed(cfg, s, j)
    ensures var t := ProceedJob(cfg, s, j);
      |t.jobs| == |s.jobs| && t.jobs == s.jobs[j := t.jobs[j]] && WorkLeft(t.jobs[j]) < WorkLeft(s.jobs[j])
  {
    var job := s.jobs[j];
    assert Semaphores.JobInv(cfg, s.entries, job);
    if job.pc.Acquiring? {
      Semaphores.TakenEntry(cfg, s, j);
    } else if job.pc.Ungating? {
      UngatingDecreases(cfg, s, j);
    } else if job.pc.Unwinding? {
      UnwindingDecreases(cfg, s, j);
    }
  }

  lemma UngatingDecreases(cfg: Config, s: State, j: nat)
    requires j < |s.jobs| && s.jobs[j].pc.Ungating? && Semaphores.JobInv(cfg, s.entries, s.jobs[j])
    ensures var t := ProceedJob(cfg, s, j);
      |t.jobs| == |s.jobs| && t.jobs == s.jobs[j := t.jobs[j]] && WorkLeft(t.jobs[j]) < WorkLeft(s.jobs[j])
  {
    Semaphores.GateAtInRange(s.entries, s.jobs[j].held);
  }

  lemma UnwindingDecreases(cfg: Config, s: State, j: nat)
    requires j < |s.jobs| && s.jobs[j].pc.Unwinding? && Semaphores.JobInv(cfg, s.entries, s.jobs[j])
    ensures var t := ProceedJob(cfg, s, j);
      |t.jobs| == |s.jobs| && t.jobs == s.jobs[j := t.jobs[j]] && WorkLeft(t.jobs[j]) < WorkLeft(s.jobs[j])
  {
  }

  /** From every reachable state the pool can drain: some sequence of enabled steps, no
      longer than the work left, finishes every job without abandoning any. */
  lemma {:induction false} PoolDrains(cfg: Config, actions: seq<Action>) returns (more: seq<Action>)
    requires ValidConfig(cfg)
    ensures actions <= more && AllFinished(Run(cfg, more))
    ensures |more| - |actions| <= TotalWork(Run(cfg, actions).jobs)
    ensures forall k :: |actions| <= k < |more| ==> more[k].Proceed?
    decreases TotalWork(Run(cfg, actions).jobs)
  {
    var s := Run(cfg, actions);
    Semaphores.RunInv(cfg, actions);
    TotalNonNegative(cfg, s.entries, s.jobs);
    if AllFinished(s) {
      more := actions;
    } else {
      var j := NoDeadlock(cfg, actions);
      Pipeline.RunSnoc(cfg, actions, Proceed(j));
      var next := actions + [Proceed(j)];
      var t := Run(cfg, next);
      ProceedDecreases(cfg, s, j);
      TotalWorkUpdate(s.jobs, j, t.jobs[j]);
      more := PoolDrains(cfg, next);
      assert next <= more;
      assert forall k :: |actions| <= k < |next| ==> more[k] == next[k];
    }
  }
}
