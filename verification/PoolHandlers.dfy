/** What a job has when its handler runs, and that it does run: a job in its handler holds
    every resource of its plan but the rate gate, so no resource is overrun by handlers, and a
    job that nobody makes give up gets to its handler before it finishes. */
module PoolHandlers {
  import opened Prelude
  import opened PoolMachine
  import opened PoolSemaphores

  // ---- plans ----

  /** The plan names a slot for every key rule, the rate gate and the kind semaphore where there
      is one, and pool capacity. */
  lemma PlanForCovers(queue: string, values: seq<string>, gate: Option<string>, kind: Option<string>)
    ensures var plan := PlanFor(queue, values, gate, kind);
      && (forall i :: 0 <= i < |values| ==> KeySlot(queue, i, values[i]) in plan)
      && (gate.Some? ==> Gate(gate.value) in plan) && (kind.Some? ==> Kind(kind.value) in plan) && Capacity in plan
  {
    var plan := PlanFor(queue, values, gate, kind);
    forall i | 0 <= i < |values| ensures KeySlot(queue, i, values[i]) in plan {
      assert plan[i] == KeySlot(queue, i, values[i]);
    }
    assert plan[|plan| - 1] == Capacity;
    var n := |values|;
    assert gate.Some? ==> plan[n] == Gate(gate.value);
    assert kind.Some? ==> plan[n + if gate.Some? then 1 else 0] == Kind(kind.value);
  }

  // ---- held keys ----

  /** The job holds a token of an entry for this resource. */
  ghost predicate HoldsKey(entries: seq<Entry>, held: seq<nat>, r: Resource) {
    exists k :: 0 <= k < |held| && held[k] < |entries| && entries[held[k]].key == r
  }

  predicate Admitted(pc: Pc) {
    pc.PermitWait? || pc.Ungating? || pc.Handling? || (pc.Dropping? && !pc.unwinding)
  }

  /** A job past its last semaphore holds all that its plan names, but for the gate. */
  ghost predicate Equipped(entries: seq<Entry>, job: Job) {
    Admitted(job.pc) ==> forall r :: r in job.plan && !r.Gate? ==> HoldsKey(entries, job.held, r)
  }

  lemma KeysKeptHold(a: seq<Entry>, b: seq<Entry>, held: seq<nat>, r: Resource)
    requires KeysKept(a, b) && HoldsKey(a, held, r)
    ensures HoldsKey(b, held, r)
  {
    var k :| 0 <= k < |held| && held[k] < |a| && a[held[k]].key == r;
    assert b[held[k]].key == r;
  }

  lemma EquippedStays(a: seq<Entry>, b: seq<Entry>, job: Job)
    requires KeysKept(a, b) && Equipped(a, job)
    ensures Equipped(b, job)
  {
    if Admitted(job.pc) {
      forall r | r in job.plan && !r.Gate? ensures HoldsKey(b, job.held, r) {
        KeysKeptHold(a, b, job.held, r);
      }
    }
  }

  /** Once all of the plan is taken, everything is held. */
  lemma AlignedIsEquipped(entries: seq<Entry>, job: Job)
    requires Aligned(entries, job, |job.plan|)
    ensures forall r :: r in job.plan ==> HoldsKey(entries, job.held, r)
  {
    forall r | r in job.plan ensures HoldsKey(entries, job.held, r) {
      var i :| 0 <= i < |job.plan| && job.plan[i] == r;
      assert entries[job.held[i]].key == r;
    }
  }

  lemma DropGateKeeps(entries: seq<Entry>, held: seq<nat>, g: nat, r: Resource)
    requires g < |held| && held[g] < |entries| && entries[held[g]].key.Gate? && !r.Gate? && HoldsKey(entries, held, r)
    ensures HoldsKey(entries, held[..g] + held[g + 1..], r)
  {
    var k :| 0 <= k < |held| && held[k] < |entries| && entries[held[k]].key == r;
    var rest := held[..g] + held[g + 1..];
    assert rest[if k < g then k else k - 1] == held[k];
  }

  // ---- steps ----

  /** The step keeps the keys of all entries and touches no other job. */
  lemma ProceedFrame(cfg: Config, s: State, j: nat)
    requires Inv(cfg, s) && ValidConfig(cfg) && j < |s.jobs| && CanProceed(cfg, s, j)
    ensures var t := ProceedJob(cfg, s, j);
      && KeysKept(s.entries, t.entries) && |t.jobs| == |s.jobs| && t.jobs[j].plan == s.jobs[j].plan
      && forall k :: 0 <= k < |s.jobs| && k != j ==> t.jobs[k] == s.jobs[k]
  {
    assert JobInv(cfg, s.entries, s.jobs[j]);
    if s.jobs[j].pc.Acquiring? {
      TakenEntry(cfg, s, j);
    }
  }

  /** Which steps lead to or stay in the admitted part of a job's way. */
  lemma HowAdmitted(cfg: Config, s: State, j: nat)
    requires j < |s.jobs| && s.jobs[j].plan != [] && Admitted(ProceedJob(cfg, s, j).jobs[j].pc)
    requires JobInv(cfg, s.entries, s.jobs[j])
    ensures var before, job := s.jobs[j], ProceedJob(cfg, s, j).jobs[j];
      || before.pc.Ungating?
      || (before.pc.Queued? && job.pc.PermitWait?)
      || (Admitted(before.pc) && job.held == before.held && job.plan == before.plan)
  {
    match s.jobs[j].pc
    case Acquiring(_) =>
    case Unwinding =>
    case _ =>
  }

  lemma ProceedEquips(cfg: Config, s: State, j: nat)
    requires Inv(cfg, s) && ValidConfig(cfg) && j < |s.jobs| && CanProceed(cfg, s, j) && Equipped(s.entries, s.jobs[j])
    requires JobInv(cfg, ProceedJob(cfg, s, j).entries, ProceedJob(cfg, s, j).jobs[j])
    ensures Equipped(ProceedJob(cfg, s, j).entries, ProceedJob(cfg, s, j).jobs[j])
  {
    var t := ProceedJob(cfg, s, j);
    assert JobInv(cfg, s.entries, s.jobs[j]);
    if Admitted(t.jobs[j].pc) {
      HowAdmitted(cfg, s, j);
      if s.jobs[j].pc.Ungating? {
        UngatingEquips(cfg, s, j);
      } else if t.jobs[j].pc.PermitWait? {
        AlignedIsEquipped(t.entries, t.jobs[j]);
      } else {
        ProceedFrame(cfg, s, j);
        SameHeldStays(s.entries, t.entries, s.jobs[j], t.jobs[j]);
      }
    }
  }

  lemma SameHeldStays(a: seq<Entry>, b: seq<Entry>, before: Job, job: Job)
    requires KeysKept(a, b) && Equipped(a, before) && Admitted(before.pc)
    requires job.held == before.held && job.plan == before.plan
    ensures Equipped(b, job)
  {
    forall r | r in job.plan && !r.Gate? ensures HoldsKey(b, job.held, r) {
      KeysKeptHold(a, b, job.held, r);
    }
  }

  lemma UngatingEquips(cfg: Config, s: State, j: nat)
    requires Inv(cfg, s) && j < |s.jobs| && s.jobs[j].pc.Ungating? && Equipped(s.entries, s.jobs[j])
    ensures Equipped(ProceedJob(cfg, s, j).entries, ProceedJob(cfg, s, j).jobs[j])
  {
    var t := ProceedJob(cfg, s, j);
    var before, job := s.jobs[j], t.jobs[j];
    assert JobInv(cfg, s.entries, before);
    GateAtInRange(s.entries, before.held);
    var gate := GateAt(s.entries, before.held);
    if gate.Some? {
      forall r | r in job.plan && !r.Gate? ensures HoldsKey(t.entries, job.held, r) {
        DropGateKeeps(s.entries, before.held, gate.value, r);
        KeysKeptHold(s.entries, t.entries, job.held, r);
      }
    }
  }

  // ---- runs ----

  ghost predicate AllEquipped(s: State) {
    forall j :: 0 <= j < |s.jobs| ==> Equipped(s.entries, s.jobs[j])
  }

  lemma ProceedKeepsEquipped(cfg: Config, s: State, j: nat)
    requires Inv(cfg, s) && ValidConfig(cfg) && j < |s.jobs| && CanProceed(cfg, s, j) && AllEquipped(s)
    requires Inv(cfg, ProceedJob(cfg, s, j))
    ensures AllEquipped(ProceedJob(cfg, s, j))
  {
    var t := ProceedJob(cfg, s, j);
    ProceedFrame(cfg, s, j);
    assert JobInv(cfg, t.entries, t.jobs[j]);
    ProceedEquips(cfg, s, j);
    forall k | 0 <= k < |t.jobs| && k != j ensures Equipped(t.entries, t.jobs[k]) {
      EquippedStays(s.entries, t.entries, s.jobs[k]);
    }
  }

  lemma AbandonKeepsEquipped(s: State, j: nat)
    requires j < |s.jobs| && AllEquipped(s)
    ensures AllEquipped(AbandonJob(s, j))
  {
  }

  lemma {:induction false} RunEquips(cfg: Config, actions: seq<Action>)
    requires ValidConfig(cfg)
    ensures AllEquipped(Run(cfg, actions))
  {
    if |actions| > 0 {
      var init, a := actions[..|actions| - 1], actions[|actions| - 1];
      RunEquips(cfg, init);
      RunInv(cfg, init);
      RunInv(cfg, actions);
      var s := Run(cfg, init);
      match a
      case Claim(_, _) =>
      case Proceed(j) => if j < |s.jobs| && CanProceed(cfg, s, j) { ProceedKeepsEquipped(cfg, s, j); }
      case GiveUp(j) => if j < |s.jobs| { AbandonKeepsEquipped(s, j); }
    }
  }

  /** The jobs in their handlers whose plan names the resource. */
  ghost function Handlers(s: State, r: Resource): set<nat> {
    set j: nat | j < |s.jobs| && s.jobs[j].pc.Handling? && r in s.jobs[j].plan
  }

  /** In every run, a job in its handler holds everything its plan names but the gate. */
  lemma HandlerHoldsItsPlan(cfg: Config, actions: seq<Action>, j: nat, r: Resource)
    requires ValidConfig(cfg) && !r.Gate? && j in Handlers(Run(cfg, actions), r)
    ensures j in KeyHolders(Run(cfg, actions), r)
  {
    RunEquips(cfg, actions);
    var s := Run(cfg, actions);
    assert Equipped(s.entries, s.jobs[j]) && HoldsKey(s.entries, s.jobs[j].held, r);
    var k :| 0 <= k < |s.jobs[j].held| && s.jobs[j].held[k] < |s.entries| && s.entries[s.jobs[j].held[k]].key == r;
    assert s.jobs[j].held[k] in s.jobs[j].held;
  }

  /** In every run, no more handlers are at work on a key, of a kind or in the whole pool than
      their limit allows. */
  lemma HandlersWithinLimit(cfg: Config, actions: seq<Action>, r: Resource)
    requires ValidConfig(cfg) && !r.Gate?
    ensures |Handlers(Run(cfg, actions), r)| <= cfg.limit(r)
  {
    var s := Run(cfg, actions);
    forall j | j in Handlers(s, r) ensures j in KeyHolders(s, r) {
      HandlerHoldsItsPlan(cfg, actions, j, r);
    }
    SubsetSize(Handlers(s, r), KeyHolders(s, r));
    LimitHolds(cfg, actions, r);
  }

  // ---- every job gets its turn ----

  /** The job was in its handler at some moment of the run. */
  ghost predicate WasHandled(cfg: Config, actions: seq<Action>, j: nat) {
    exists k :: 0 <= k <= |actions| && j < |Run(cfg, actions[..k]).jobs| && Run(cfg, actions[..k]).jobs[j].pc.Handling?
  }

  predicate PastHandler(pc: Pc) {
    pc.Unwinding? || pc.Closing? || pc.Unlinking? || pc.Finished? || (pc.Dropping? && pc.unwinding)
  }

  lemma ProceedPastHandler(cfg: Config, s: State, j: nat)
    requires j < |s.jobs| && PastHandler(ProceedJob(cfg, s, j).jobs[j].pc)
    ensures PastHandler(s.jobs[j].pc) || s.jobs[j].pc.Handling?
  {
  }

  lemma StepPastHandler(cfg: Config, s: State, a: Action, j: nat)
    requires a != GiveUp(j) && j < |Step(cfg, s, a).jobs| && PastHandler(Step(cfg, s, a).jobs[j].pc)
    ensures j < |s.jobs| && (PastHandler(s.jobs[j].pc) || s.jobs[j].pc.Handling?)
  {
    match a
    case Proceed(i) => if i == j && j < |s.jobs| && CanProceed(cfg, s, j) { ProceedPastHandler(cfg, s, j); }
    case _ =>
  }

  /** In every run that does not make it give up, a job that has finished, or is on its way out,
      has been in its handler. */
  lemma {:induction false} FinishedWasHandled(cfg: Config, actions: seq<Action>, j: nat)
    requires GiveUp(j) !in actions && j < |Run(cfg, actions).jobs| && PastHandler(Run(cfg, actions).jobs[j].pc)
    ensures WasHandled(cfg, actions, j)
  {
    var n := |actions| - 1;
    var init := actions[..n];
    assert GiveUp(j) !in init && actions[n] in actions;
    StepPastHandler(cfg, Run(cfg, init), actions[n], j);
    if Run(cfg, init).jobs[j].pc.Handling? {
      assert actions[..n] == init;
    } else {
      FinishedWasHandled(cfg, init, j);
      var k :| 0 <= k <= |init| && j < |Run(cfg, init[..k]).jobs| && Run(cfg, init[..k]).jobs[j].pc.Handling?;
      assert init[..k] == actions[..k];
    }
  }
}
