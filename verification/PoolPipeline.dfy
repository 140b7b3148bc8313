/** Jobs that share a pipeline run one after the other, in claim order, through a chain of
    done channels whose last link is kept in the tail map. */
module PoolPipeline {
  import opened Prelude
  import opened PoolMachine
  import Semaphores = PoolSemaphores

  predicate Ended(pc: Pc) {
    pc.Unlinking? || pc.Finished?
  }

  /** No later job was claimed for the same pipeline. */
  ghost predicate IsLast(s: State, j: nat) {
    && j < |s.jobs| && s.jobs[j].pipeline != ""
    && forall k :: j < k < |s.jobs| ==> s.jobs[k].pipeline != s.jobs[j].pipeline
  }

  ghost predicate PreviousInv(s: State, j: nat)
    requires j < |s.jobs|
  {
    s.jobs[j].previous.Some? ==>
      var p := s.jobs[j].previous.value;
      && p < j && s.jobs[j].pipeline != "" && s.jobs[p].pipeline == s.jobs[j].pipeline
      && forall k :: p < k < j ==> s.jobs[k].pipeline != s.jobs[j].pipeline
  }

  ghost predicate Inv(s: State) {
    && (forall j :: 0 <= j < |s.jobs| ==> PreviousInv(s, j))
    && (forall j: nat :: j in s.closed <==> j < |s.jobs| && s.jobs[j].pipeline != "" && Ended(s.jobs[j].pc))
    && (forall id :: id in s.tails ==> IsLast(s, s.tails[id]) && s.jobs[s.tails[id]].pipeline == id)
    && (forall j: nat :: IsLast(s, j) ==>
         (!s.jobs[j].pc.Finished? <==> s.jobs[j].pipeline in s.tails && s.tails[s.jobs[j].pipeline] == j))
  }

  /** What a step on job `j` may change here. */
  ghost predicate JobStep(s: State, t: State, j: nat) {
    && j < |s.jobs| && |t.jobs| == |s.jobs| && (forall k :: 0 <= k < |s.jobs| && k != j ==> t.jobs[k] == s.jobs[k])
    && t.jobs[j].pipeline == s.jobs[j].pipeline && t.jobs[j].previous == s.jobs[j].previous
    && (t.jobs[j].pc.PipelineWait? ==> s.jobs[j].pc.PipelineWait?)
    && match s.jobs[j].pc
       case Closing =>
         t.tails == s.tails && Ended(t.jobs[j].pc) &&
         if s.jobs[j].pipeline == "" then t.closed == s.closed
         else t.closed == s.closed + {j} && t.jobs[j].pc.Unlinking?
       case Unlinking =>
         && t.jobs[j].pc.Finished? && t.closed == s.closed
         && t.tails == (if s.jobs[j].pipeline in s.tails && s.tails[s.jobs[j].pipeline] == j
                        then s.tails - {s.jobs[j].pipeline} else s.tails)
       case _ => t.tails == s.tails && t.closed == s.closed && (Ended(t.jobs[j].pc) <==> Ended(s.jobs[j].pc)) &&
                 (t.jobs[j].pc.Finished? <==> s.jobs[j].pc.Finished?)
  }

  lemma ProceedIsJobStep(cfg: Config, s: State, j: nat)
    requires j < |s.jobs|
    ensures JobStep(s, ProceedJob(cfg, s, j), j)
  {
  }

  lemma AbandonIsJobStep(s: State, j: nat)
    requires j < |s.jobs| && (s.jobs[j].pc.PipelineWait? || s.jobs[j].pc.Queued? || s.jobs[j].pc.PermitWait?)
    ensures JobStep(s, AbandonJob(s, j), j)
  {
  }

  lemma JobStepKeepsInv(s: State, t: State, j: nat)
    requires Inv(s) && JobStep(s, t, j)
    ensures Inv(t)
  {
    forall k: nat ensures IsLast(t, k) <==> IsLast(s, k) {
    }
    forall k | 0 <= k < |t.jobs| ensures PreviousInv(t, k) {
      assert PreviousInv(s, k);
    }
  }

  lemma ClaimKeepsInv(s: State, pipeline: string, plan: seq<Resource>)
    requires Inv(s)
    ensures Inv(ClaimJob(s, pipeline, plan))
  {
    var t := ClaimJob(s, pipeline, plan);
    var n := |s.jobs|;
    forall k | 0 <= k < |t.jobs| ensures PreviousInv(t, k) {
      if k < n {
        assert PreviousInv(s, k);
      }
    }
    forall k: nat | k < n ensures IsLast(t, k) <==> IsLast(s, k) && s.jobs[k].pipeline != pipeline {
      LastAfterClaim(s, pipeline, plan, k);
    }
  }

  lemma LastAfterClaim(s: State, pipeline: string, plan: seq<Resource>, k: nat)
    requires k < |s.jobs|
    ensures IsLast(ClaimJob(s, pipeline, plan), k) <==> IsLast(s, k) && s.jobs[k].pipeline != pipeline
  {
    var t, n := ClaimJob(s, pipeline, plan), |s.jobs|;
    assert t.jobs[n].pipeline == pipeline && forall x :: 0 <= x < n ==> t.jobs[x] == s.jobs[x];
    if IsLast(t, k) {
      forall x | k < x < n ensures s.jobs[x].pipeline != s.jobs[k].pipeline {
        assert t.jobs[x].pipeline != t.jobs[k].pipeline;
      }
    }
  }

  lemma {:induction false} RunInv(cfg: Config, actions: seq<Action>)
    ensures Inv(Run(cfg, actions))
  {
    if |actions| > 0 {
      var s := Run(cfg, actions[..|actions| - 1]);
      RunInv(cfg, actions[..|actions| - 1]);
      match actions[|actions| - 1]
      case Claim(pipeline, plan) => ClaimKeepsInv(s, pipeline, plan);
      case Proceed(j) =>
        if j < |s.jobs| && CanProceed(cfg, s, j) {
          ProceedIsJobStep(cfg, s, j);
          JobStepKeepsInv(s, ProceedJob(cfg, s, j), j);
        }
      case GiveUp(j) =>
        if j < |s.jobs| && AbandonJob(s, j) != s {
          AbandonIsJobStep(s, j);
          JobStepKeepsInv(s, AbandonJob(s, j), j);
        }
    }
  }

  /** The tail map holds an entry for a pipeline exactly while the last job claimed for it
      has not finished, and the entry is that job's. */
  lemma TailIsLastUnfinished(cfg: Config, actions: seq<Action>, j: nat)
    requires IsLast(Run(cfg, actions), j)
    ensures var s := Run(cfg, actions);
      && (s.jobs[j].pipeline in s.tails <==> !s.jobs[j].pc.Finished?)
      && (s.jobs[j].pipeline in s.tails ==> s.tails[s.jobs[j].pipeline] == j)
  {
    RunInv(cfg, actions);
    var s := Run(cfg, actions);
    if s.jobs[j].pipeline in s.tails {
      assert IsLast(s, s.tails[s.jobs[j].pipeline]);
    }
  }

  // ---- order ----

  ghost predicate EarlierClosed(s: State, j: nat)
    requires j < |s.jobs|
  {
    forall i: nat :: i < j && s.jobs[i].pipeline == s.jobs[j].pipeline ==> i in s.closed
  }

  predicate Cleared(s: State, j: nat)
    requires j < |s.jobs|
  {
    s.jobs[j].pipeline != "" && (!s.jobs[j].pc.PipelineWait? || s.jobs[j].previous.None?)
  }

  /** Whoever got past its gate, or never had one, has all its predecessors closed. */
  ghost predicate OrderInv(s: State) {
    forall j: nat :: j < |s.jobs| && Cleared(s, j) ==> EarlierClosed(s, j)
  }

  /** The k-th action is not a waiter's giving up at a pipeline gate that is still closed. */
  ghost predicate GateRespected(cfg: Config, actions: seq<Action>, k: nat)
    requires k < |actions|
  {
    actions[k].GiveUp? ==>
      var s := Run(cfg, actions[..k]);
      actions[k].job < |s.jobs| && s.jobs[actions[k].job].pc.PipelineWait? ==> GateOpen(s, actions[k].job)
  }

  ghost predicate GatesRespected(cfg: Config, actions: seq<Action>, from: nat) {
    forall k: nat :: from <= k < |actions| ==> GateRespected(cfg, actions, k)
  }

  lemma ClaimKeepsOrder(s: State, pipeline: string, plan: seq<Resource>)
    requires Inv(s) && OrderInv(s)
    ensures OrderInv(ClaimJob(s, pipeline, plan))
  {
    var t, n := ClaimJob(s, pipeline, plan), |s.jobs|;
    forall j: nat | j < n && Cleared(t, j) ensures EarlierClosed(t, j) {
      assert Cleared(s, j) && EarlierClosed(s, j);
    }
    if pipeline != "" && pipeline !in s.tails {
      NoTailMeansClosed(s, pipeline);
    }
  }

  lemma NoTailMeansClosed(s: State, pipeline: string)
    requires Inv(s) && OrderInv(s) && pipeline != "" && pipeline !in s.tails
    ensures forall i: nat :: i < |s.jobs| && s.jobs[i].pipeline == pipeline ==> i in s.closed
  {
    var same := set i: nat | i < |s.jobs| && s.jobs[i].pipeline == pipeline;
    if same != {} {
      var last := GreatestIndex(same);
      forall k | last < k < |s.jobs| ensures s.jobs[k].pipeline != pipeline {
        assert k !in same;
      }
      assert IsLast(s, last);
      assert last in s.closed && Cleared(s, last) && EarlierClosed(s, last);
      forall i: nat | i < |s.jobs| && s.jobs[i].pipeline == pipeline ensures i in s.closed {
        assert i in same;
      }
    } else {
      forall i: nat | i < |s.jobs| ensures s.jobs[i].pipeline != pipeline {
        assert i !in same;
      }
    }
  }

  lemma BehindPrevious(s: State, j: nat, p: nat)
    requires j < |s.jobs| && PreviousInv(s, j) && s.jobs[j].previous == Some(p)
    requires p in s.closed && EarlierClosed(s, p)
    ensures EarlierClosed(s, j)
  {
    forall i: nat | i < j && s.jobs[i].pipeline == s.jobs[j].pipeline ensures i in s.closed {
      assert i <= p;
    }
  }

  lemma PassingGate(s: State, j: nat)
    requires Inv(s) && OrderInv(s) && j < |s.jobs| && s.jobs[j].pipeline != "" && GateOpen(s, j)
    ensures EarlierClosed(s, j)
  {
    if s.jobs[j].previous.Some? {
      var p := s.jobs[j].previous.value;
      assert Ended(s.jobs[p].pc) && Cleared(s, p);
      BehindPrevious(s, j, p);
    } else {
      assert Cleared(s, j);
    }
  }

  lemma JobStepKeepsOrder(s: State, t: State, j: nat)
    requires Inv(s) && OrderInv(s) && JobStep(s, t, j)
    requires s.jobs[j].pc.PipelineWait? && !t.jobs[j].pc.PipelineWait? ==> GateOpen(s, j)
    ensures OrderInv(t)
  {
    assert s.closed <= t.closed;
    forall k: nat | k < |t.jobs| && Cleared(t, k) ensures EarlierClosed(t, k) {
      if k == j && s.jobs[j].pc.PipelineWait? && !t.jobs[j].pc.PipelineWait? {
        PassingGate(s, j);
      } else {
        assert Cleared(s, k);
      }
      assert EarlierClosed(s, k);
    }
  }

  lemma {:induction false} RunOrder(cfg: Config, actions: seq<Action>)
    requires GatesRespected(cfg, actions, 0)
    ensures OrderInv(Run(cfg, actions))
  {
    if |actions| > 0 {
      var init, a := actions[..|actions| - 1], actions[|actions| - 1];
      forall k: nat | k < |init| ensures GateRespected(cfg, init, k) {
        assert init[..k] == actions[..k] && init[k] == actions[k] && GateRespected(cfg, actions, k);
      }
      assert GateRespected(cfg, actions, |init|);
      RunOrder(cfg, init);
      RunInv(cfg, init);
      var s := Run(cfg, init);
      match a
      case Claim(pipeline, plan) => ClaimKeepsOrder(s, pipeline, plan);
      case Proceed(j) =>
        if j < |s.jobs| && CanProceed(cfg, s, j) {
          ProceedIsJobStep(cfg, s, j);
          JobStepKeepsOrder(s, ProceedJob(cfg, s, j), j);
        }
      case GiveUp(j) =>
        if j < |s.jobs| && AbandonJob(s, j) != s {
          AbandonIsJobStep(s, j);
          JobStepKeepsOrder(s, AbandonJob(s, j), j);
        }
    }
  }

  /** In every run where no waiter gives up at a closed gate, a job is past its gate (in its
      handler, say) only when every earlier job of its pipeline is done with everything
      but its bookkeeping. So they run one at a time and in claim order. */
  lemma OneAtATimeInClaimOrder(cfg: Config, actions: seq<Action>, i: nat, j: nat)
    requires GatesRespected(cfg, actions, 0)
    requires var s := Run(cfg, actions);
      i < j < |s.jobs| && s.jobs[i].pipeline == s.jobs[j].pipeline != "" && !s.jobs[j].pc.PipelineWait?
    ensures Ended(Run(cfg, actions).jobs[i].pc)
  {
    RunInv(cfg, actions);
    RunOrder(cfg, actions);
    assert Cleared(Run(cfg, actions), j) && EarlierClosed(Run(cfg, actions), j);
  }

  // ---- the exact condition ----

  /** The job passed its gate and is on its way to its handler or in it. */
  predicate Admitted(pc: Pc) {
    pc.Acquiring? || pc.Queued? || pc.PermitWait? || pc.Ungating? || pc.Handling? || (pc.Dropping? && !pc.unwinding)
  }

  /** Job `j` is admitted while an earlier job of its pipeline has not ended. */
  predicate Overtakes(s: State, i: nat, j: nat) {
    && i < j < |s.jobs| && s.jobs[i].pipeline == s.jobs[j].pipeline != ""
    && Admitted(s.jobs[j].pc) && !Ended(s.jobs[i].pc)
  }

  ghost predicate InOrder(s: State) {
    forall i: nat, j: nat :: !Overtakes(s, i, j)
  }

  /** Whatever follows, short of another closed gate abandoned, nobody overtakes. */
  ghost predicate StaysInOrder(cfg: Config, actions: seq<Action>) {
    forall longer :: actions <= longer && GatesRespected(cfg, longer, |actions|) ==> InOrder(Run(cfg, longer))
  }

  lemma RunSnoc(cfg: Config, actions: seq<Action>, a: Action)
    ensures Run(cfg, actions + [a]) == Step(cfg, Run(cfg, actions), a)
  {
    assert (actions + [a])[..|actions|] == actions;
  }

  /** The job behind a waiter waits too, and its gate is the waiter's channel. */
  lemma NextWaits(s: State, w: nat, j: nat)
    requires w < j < |s.jobs| && s.jobs[j].pipeline == s.jobs[w].pipeline != ""
    requires PreviousInv(s, j) && (Cleared(s, j) ==> EarlierClosed(s, j)) && w !in s.closed
    requires forall k :: w < k < j ==> s.jobs[k].pipeline != s.jobs[w].pipeline
    ensures s.jobs[j].pc.PipelineWait? && s.jobs[j].previous == Some(w)
  {
    assert !EarlierClosed(s, j);
  }

  /** The successor of a waiter, if there is one; otherwise the waiter is the tail. */
  lemma Successor(s: State, w: nat) returns (j: Option<nat>)
    requires Inv(s) && OrderInv(s) && w < |s.jobs| && s.jobs[w].pipeline != "" && s.jobs[w].pc.PipelineWait?
    ensures j.None? ==> s.jobs[w].pipeline in s.tails && s.tails[s.jobs[w].pipeline] == w
    ensures j.Some? ==> w < j.value < |s.jobs| && s.jobs[j.value].pipeline == s.jobs[w].pipeline
    ensures j.Some? ==> s.jobs[j.value].pc.PipelineWait? && s.jobs[j.value].previous == Some(w)
  {
    var later := set k: nat | w < k < |s.jobs| && s.jobs[k].pipeline == s.jobs[w].pipeline;
    if later == {} {
      j := None;
      forall k: nat | w < k < |s.jobs| ensures s.jobs[k].pipeline != s.jobs[w].pipeline {
        assert k !in later;
      }
      assert IsLast(s, w);
    } else {
      var next := LeastIndex(later);
      forall k: nat | w < k < next ensures s.jobs[k].pipeline != s.jobs[w].pipeline {
        assert k !in later;
      }
      assert PreviousInv(s, next) && (Cleared(s, next) ==> EarlierClosed(s, next)) && w !in s.closed;
      NextWaits(s, w, next);
      j := Some(next);
    }
  }

  /** After a waiter gave up, two steps of its own close its channel. */
  lemma GaveUpCloses(cfg: Config, actions: seq<Action>, w: nat) returns (longer: seq<Action>)
    requires var s := Run(cfg, actions); w < |s.jobs| && s.jobs[w].pipeline != "" && s.jobs[w].held == []
    requires Run(cfg, actions).jobs[w].pc.Unwinding?
    ensures longer == actions + [Proceed(w)] + [Proceed(w)]
    ensures var s, t := Run(cfg, actions), Run(cfg, longer);
      && |t.jobs| == |s.jobs| && w in t.closed && t.tails == s.tails
      && forall k :: 0 <= k < |s.jobs| && k != w ==> t.jobs[k] == s.jobs[k]
  {
    longer := actions + [Proceed(w)] + [Proceed(w)];
    RunSnoc(cfg, actions, Proceed(w));
    RunSnoc(cfg, actions + [Proceed(w)], Proceed(w));
    assert Run(cfg, actions + [Proceed(w)]).jobs[w].pc == Closing;
  }

  lemma PassesOpenGate(cfg: Config, actions: seq<Action>, j: nat)
    requires var s := Run(cfg, actions); j < |s.jobs| && s.jobs[j].pc.PipelineWait? && GateOpen(s, j)
    ensures var s, t := Run(cfg, actions), Run(cfg, actions + [Proceed(j)]);
      && |t.jobs| == |s.jobs| && Admitted(t.jobs[j].pc) && t.jobs[j].pipeline == s.jobs[j].pipeline
      && forall k :: 0 <= k < |s.jobs| && k != j ==> t.jobs[k] == s.jobs[k]
  {
    RunSnoc(cfg, actions, Proceed(j));
  }

  lemma NewcomerWaits(cfg: Config, actions: seq<Action>, w: nat)
    requires var s := Run(cfg, actions);
      w < |s.jobs| && s.jobs[w].pipeline != "" && s.jobs[w].pipeline in s.tails && s.tails[s.jobs[w].pipeline] == w
    ensures var s, n := Run(cfg, actions), |Run(cfg, actions).jobs|;
      var t := Run(cfg, actions + [Claim(s.jobs[w].pipeline, [Capacity])]);
      && |t.jobs| == n + 1 && t.closed == s.closed && (forall k :: 0 <= k < n ==> t.jobs[k] == s.jobs[k])
      && t.jobs[n].pc.PipelineWait? && t.jobs[n].previous == Some(w) && t.jobs[n].pipeline == s.jobs[w].pipeline
  {
    RunSnoc(cfg, actions, Claim(Run(cfg, actions).jobs[w].pipeline, [Capacity]));
  }

  /** In front of a closed gate stands a job that has not ended. */
  lemma ClosedGateHasHead(s: State, w: nat)
    requires Inv(s) && w < |s.jobs| && !GateOpen(s, w)
    ensures s.jobs[w].previous.Some?
    ensures var i := s.jobs[w].previous.value;
      i < w && s.jobs[i].pipeline == s.jobs[w].pipeline && !Ended(s.jobs[i].pc)
  {
    assert PreviousInv(s, w);
  }

  lemma WaiterHoldsNothing(cfg: Config, actions: seq<Action>, w: nat)
    requires ValidConfig(cfg) && w < |Run(cfg, actions).jobs| && Run(cfg, actions).jobs[w].pc.PipelineWait?
    ensures Run(cfg, actions).jobs[w].held == []
  {
    Semaphores.RunInv(cfg, actions);
    var s := Run(cfg, actions);
    assert Semaphores.JobInv(cfg, s.entries, s.jobs[w]);
  }

  /** The successor of a job that gave up passes its gate. */
  lemma PassesAfter(cfg: Config, actions: seq<Action>, w: nat, i: nat, j: nat) returns (longer: seq<Action>)
    requires var s := Run(cfg, actions);
      && i < w < j < |s.jobs| && s.jobs[i].pipeline == s.jobs[w].pipeline == s.jobs[j].pipeline != ""
      && !Ended(s.jobs[i].pc) && s.jobs[w].pc.Unwinding? && s.jobs[w].held == []
      && s.jobs[j].pc.PipelineWait? && s.jobs[j].previous == Some(w)
    ensures longer == actions + [Proceed(w)] + [Proceed(w)] + [Proceed(j)]
    ensures Overtakes(Run(cfg, longer), i, j)
  {
    var closed := GaveUpCloses(cfg, actions, w);
    PassesOpenGate(cfg, closed, j);
    longer := closed + [Proceed(j)];
  }

  lemma GaveUp(cfg: Config, actions: seq<Action>, w: nat)
    requires w < |Run(cfg, actions).jobs| && Run(cfg, actions).jobs[w].pc.PipelineWait?
    ensures var s := Run(cfg, actions);
      Run(cfg, actions + [GiveUp(w)]) == WithJob(s, w, s.jobs[w].(pc := Unwinding))
  {
    RunSnoc(cfg, actions, GiveUp(w));
  }

  /** When a waiter gives up at a closed gate, its successor (a new one, if none waits) can
      be admitted while the job in front of the waiter has not ended. */
  lemma AbandonedGateLetsSuccessorPass(cfg: Config, actions: seq<Action>, w: nat)
      returns (longer: seq<Action>, i: nat, j: nat)
    requires ValidConfig(cfg) && GatesRespected(cfg, actions, 0)
    requires var s := Run(cfg, actions);
      w < |s.jobs| && s.jobs[w].pipeline != "" && s.jobs[w].pc.PipelineWait? && !GateOpen(s, w)
    ensures actions + [GiveUp(w)] <= longer && (forall k :: |actions| < k < |longer| ==> !longer[k].GiveUp?)
    ensures Overtakes(Run(cfg, longer), i, j)
  {
    RunInv(cfg, actions);
    RunOrder(cfg, actions);
    var s := Run(cfg, actions);
    WaiterHoldsNothing(cfg, actions, w);
    ClosedGateHasHead(s, w);
    i := s.jobs[w].previous.value;
    var next := Successor(s, w);
    GaveUp(cfg, actions, w);
    var gone := actions + [GiveUp(w)];
    if next.Some? {
      j := next.value;
      longer := PassesAfter(cfg, gone, w, i, j);
    } else {
      j := |s.jobs|;
      NewcomerWaits(cfg, gone, w);
      longer := PassesAfter(cfg, gone + [Claim(s.jobs[w].pipeline, [Capacity])], w, i, j);
    }
  }

  lemma RespectedThroughout(cfg: Config, actions: seq<Action>, w: nat, longer: seq<Action>)
    requires GatesRespected(cfg, actions, 0) && actions + [GiveUp(w)] <= longer
    requires GatesRespected(cfg, longer, |actions| + 1)
    requires w < |Run(cfg, actions).jobs| && GateOpen(Run(cfg, actions), w)
    ensures GatesRespected(cfg, longer, 0)
  {
    var gone := actions + [GiveUp(w)];
    forall k: nat | k < |longer| ensures GateRespected(cfg, longer, k) {
      if k < |actions| {
        assert longer[..k] == actions[..k] && longer[k] == gone[k] == actions[k];
        assert GateRespected(cfg, actions, k);
      } else if k == |actions| {
        assert longer[..k] == actions && longer[k] == gone[k] == GiveUp(w);
      }
    }
  }

  lemma RespectedRunInOrder(cfg: Config, actions: seq<Action>)
    requires GatesRespected(cfg, actions, 0)
    ensures InOrder(Run(cfg, actions))
  {
    var s := Run(cfg, actions);
    forall i: nat, j: nat ensures !Overtakes(s, i, j) {
      if i < j < |s.jobs| && s.jobs[i].pipeline == s.jobs[j].pipeline != "" && Admitted(s.jobs[j].pc) {
        OneAtATimeInClaimOrder(cfg, actions, i, j);
      }
    }
  }

  /** The exact condition: after a run that respected its gates, a waiter's giving up leaves
      the pipelines in order, whatever follows, if and only if its gate was open. */
  lemma GivingUpKeepsOrderIff(cfg: Config, actions: seq<Action>, w: nat)
    requires ValidConfig(cfg) && GatesRespected(cfg, actions, 0)
    requires var s := Run(cfg, actions);
      w < |s.jobs| && s.jobs[w].pipeline != "" && s.jobs[w].pc.PipelineWait?
    ensures StaysInOrder(cfg, actions + [GiveUp(w)]) <==> GateOpen(Run(cfg, actions), w)
  {
    var gone := actions + [GiveUp(w)];
    if GateOpen(Run(cfg, actions), w) {
      forall longer | gone <= longer && GatesRespected(cfg, longer, |gone|) ensures InOrder(Run(cfg, longer)) {
        RespectedThroughout(cfg, actions, w, longer);
        RespectedRunInOrder(cfg, longer);
      }
    } else {
      var longer, i, j := AbandonedGateLetsSuccessorPass(cfg, actions, w);
      assert GatesRespected(cfg, longer, |gone|);
      assert !InOrder(Run(cfg, longer));
    }
  }
}
