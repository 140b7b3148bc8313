/** Admission of claimed jobs in one worker pool: the pipeline gate, the per-key
    semaphores in rule order, the rate gate, the per-kind semaphore and the pool's own
    capacity, each taken and given back by interleaved goroutines. Semaphore entries live
    in a table under reference counts; a map deletion is by key, whatever entry is there. */
module PoolMachine {
  import opened Prelude
  import opened Strings

  datatype Resource =
    | KeySlot(queue: string, index: nat, value: string)
    | Gate(signature: string)
    | Kind(kind: string)
    | Capacity

  /** Entries of these resources are removed when the last reference is dropped. */
  predicate Counted(r: Resource) {
    r.KeySlot? || r.Gate?
  }

  /** `keyRules` bounds the number of key-concurrency rules of any queue. */
  datatype Config = Config(limit: Resource -> nat, keyRules: nat)

  ghost predicate ValidConfig(cfg: Config) {
    (forall r :: cfg.limit(r) >= 1) && (forall g :: cfg.limit(Gate(g)) == 1)
  }

  function Rank(cfg: Config, r: Resource): nat {
    match r
    case KeySlot(_, index, _) => index
    case Gate(_) => cfg.keyRules
    case Kind(_) => cfg.keyRules + 1
    case Capacity => cfg.keyRules + 2
  }

  /** Resources in the order in which a job takes them. */
  ghost predicate ValidPlan(cfg: Config, plan: seq<Resource>) {
    && |plan| > 0
    && (forall i :: 0 <= i < |plan| && plan[i].KeySlot? ==> plan[i].index < cfg.keyRules)
    && (forall i, j :: 0 <= i < j < |plan| ==> Rank(cfg, plan[i]) < Rank(cfg, plan[j]))
  }

  /** The plan of a job: one slot per key rule in rule order, the rate gate if its queue
      has rate limits, the kind semaphore if its kind has one, and pool capacity. */
  function PlanFor(queue: string, values: seq<string>, gate: Option<string>, kind: Option<string>): seq<Resource> {
    seq(|values|, i requires 0 <= i < |values| => KeySlot(queue, i, values[i])) +
    (if gate.Some? then [Gate(gate.value)] else []) +
    (if kind.Some? then [Kind(kind.value)] else []) +
    [Capacity]
  }

  lemma PlanForIsValid(cfg: Config, queue: string, values: seq<string>, gate: Option<string>, kind: Option<string>)
    requires |values| <= cfg.keyRules
    ensures ValidPlan(cfg, PlanFor(queue, values, gate, kind))
  {
    var plan, n := PlanFor(queue, values, gate, kind), |values|;
    assert forall i :: 0 <= i < n ==> plan[i] == KeySlot(queue, i, values[i]);
  }

  /** The map key of a slot, as the pool builds it. */
  function SlotText(queue: string, index: nat, value: string): string {
    queue + "\0" + (Itoa(index) + "\0" + value)
  }

  /** A slot may be taken for its key: queue names without the NUL character keep the keys
      of different slots apart. */
  lemma SlotTextInjective(q: string, i: nat, v: string, r: string, j: nat, w: string)
    requires '\0' !in q && '\0' !in r && SlotText(q, i, v) == SlotText(r, j, w)
    ensures KeySlot(q, i, v) == KeySlot(r, j, w)
  {
    JoinInjective(q, Itoa(i) + "\0" + v, r, Itoa(j) + "\0" + w, '\0');
    JoinInjective(Itoa(i), v, Itoa(j), w, '\0');
    ItoaInjective(i, j);
  }

  // ---- state ----

  /** `Dropping` is the moment between giving a token back and dropping the reference. */
  datatype Pc =
    | PipelineWait
    | Acquiring(i: nat)
    | Queued(i: nat, e: nat)
    | PermitWait
    | Ungating
    | Dropping(e: nat, unwinding: bool)
    | Handling
    | Unwinding
    | Closing
    | Unlinking
    | Finished

  /** `held` lists the entries whose token the job holds, in the order taken. */
  datatype Job = Job(pipeline: string, previous: Option<nat>, plan: seq<Resource>, pc: Pc, held: seq<nat>)

  datatype Entry = Entry(key: Resource, refs: int, tokens: int)

  /** Jobs are numbered in claim order. `closed` holds the jobs whose done channel is
      closed; `tails` maps a pipeline to the job that owns its tail channel. */
  datatype State = State(jobs: seq<Job>, entries: seq<Entry>, table: map<Resource, nat>,
                         tails: map<string, nat>, closed: set<nat>)

  datatype Action =
    | Claim(pipeline: string, plan: seq<Resource>)
    | Proceed(job: nat)
    | GiveUp(job: nat)

  const INITIAL: State := State([], [], map[], map[], {})

  function WithJob(s: State, j: nat, job: Job): State
    requires j < |s.jobs|
  {
    s.(jobs := s.jobs[j := job])
  }

  function AfterPlan(plan: seq<Resource>, i: nat): Pc {
    if i < |plan| then Acquiring(i) else PermitWait
  }

  function GateAt(entries: seq<Entry>, held: seq<nat>): Option<nat> {
    if |held| == 0 then None
    else
      var n := |held| - 1;
      if held[n] < |entries| && entries[held[n]].key.Gate? then Some(n) else GateAt(entries, held[..n])
  }

  /** Look the entry up or create it, and count the reference. */
  function TakeRef(s: State, j: nat, i: nat): State
    requires j < |s.jobs| && i < |s.jobs[j].plan|
  {
    var r := s.jobs[j].plan[i];
    var e := if r in s.table then s.table[r] else |s.entries|;
    var entries := if r in s.table then s.entries else s.entries + [Entry(r, 0, 0)];
    if e < |entries| then
      s.(entries := entries[e := entries[e].(refs := entries[e].refs + if Counted(r) then 1 else 0)],
         table := s.table[r := e],
         jobs := s.jobs[j := s.jobs[j].(pc := Queued(i, e))])
    else s
  }

  /** Drop the reference and delete the key when it was the last one. */
  function DropRef(s: State, e: nat): State
    requires e < |s.entries|
  {
    var entry := s.entries[e].(refs := s.entries[e].refs - 1);
    s.(entries := s.entries[e := entry],
       table := if entry.refs == 0 then s.table - {entry.key} else s.table)
  }

  /** Give the token of the k-th held entry back. */
  function GiveBack(s: State, j: nat, k: nat, unwinding: bool): State
    requires j < |s.jobs| && k < |s.jobs[j].held| && s.jobs[j].held[k] < |s.entries|
  {
    var job := s.jobs[j];
    var e := job.held[k];
    var pc := if Counted(s.entries[e].key) then Dropping(e, unwinding) else if unwinding then Unwinding else Ungating;
    s.(entries := s.entries[e := s.entries[e].(tokens := s.entries[e].tokens - 1)],
       jobs := s.jobs[j := job.(pc := pc, held := job.held[..k] + job.held[k + 1..])])
  }

  predicate GateOpen(s: State, j: nat)
    requires j < |s.jobs|
  {
    s.jobs[j].previous.None? || s.jobs[j].previous.value in s.closed
  }

  /** The job can take its next step without waiting for another job. A permit wait ends
      with time, and a handler with its own return. */
  predicate CanProceed(cfg: Config, s: State, j: nat)
    requires j < |s.jobs|
  {
    match s.jobs[j].pc
    case PipelineWait => GateOpen(s, j)
    case Queued(_, e) => e < |s.entries| && s.entries[e].tokens < cfg.limit(s.entries[e].key)
    case Finished => false
    case _ => true
  }

  function ProceedJob(cfg: Config, s: State, j: nat): State
    requires j < |s.jobs|
  {
    var job := s.jobs[j];
    match job.pc
    case PipelineWait => WithJob(s, j, job.(pc := AfterPlan(job.plan, 0)))
    case Acquiring(i) => if i < |job.plan| then TakeRef(s, j, i) else s
    case Queued(i, e) =>
      if e < |s.entries| then
        s.(entries := s.entries[e := s.entries[e].(tokens := s.entries[e].tokens + 1)],
           jobs := s.jobs[j := job.(pc := AfterPlan(job.plan, i + 1), held := job.held + [e])])
      else s
    case PermitWait => WithJob(s, j, job.(pc := Ungating))
    case Ungating =>
      var gate := GateAt(s.entries, job.held);
      if gate.Some? && gate.value < |job.held| && job.held[gate.value] < |s.entries| then
        GiveBack(s, j, gate.value, false)
      else WithJob(s, j, job.(pc := Handling))
    case Dropping(e, unwinding) =>
      if e < |s.entries| then WithJob(DropRef(s, e), j, job.(pc := if unwinding then Unwinding else Ungating)) else s
    case Handling => WithJob(s, j, job.(pc := Unwinding))
    case Unwinding =>
      if |job.held| == 0 then WithJob(s, j, job.(pc := Closing))
      else if job.held[|job.held| - 1] < |s.entries| then GiveBack(s, j, |job.held| - 1, true)
      else s
    case Closing =>
      if job.pipeline == "" then WithJob(s, j, job.(pc := Finished))
      else WithJob(s.(closed := s.closed + {j}), j, job.(pc := Unlinking))
    case Unlinking =>
      var tails := if job.pipeline in s.tails && s.tails[job.pipeline] == j then s.tails - {job.pipeline} else s.tails;
      WithJob(s.(tails := tails), j, job.(pc := Finished))
    case Finished => s
  }

  /** A waiting job loses its claim or sees the shutdown. */
  function AbandonJob(s: State, j: nat): State
    requires j < |s.jobs|
  {
    var job := s.jobs[j];
    match job.pc
    case PipelineWait => WithJob(s, j, job.(pc := Unwinding))
    case Queued(i, e) =>
      if e < |s.entries| && Counted(s.entries[e].key) then WithJob(s, j, job.(pc := Dropping(e, true)))
      else WithJob(s, j, job.(pc := Unwinding))
    case PermitWait => WithJob(s, j, job.(pc := Unwinding))
    case _ => s
  }

  function ClaimJob(s: State, pipeline: string, plan: seq<Resource>): State {
    var previous := if pipeline in s.tails then Some(s.tails[pipeline]) else None;
    s.(jobs := s.jobs + [Job(pipeline, previous, plan, PipelineWait, [])],
       tails := if pipeline == "" then s.tails else s.tails[pipeline := |s.jobs|])
  }

  ghost function Step(cfg: Config, s: State, a: Action): State {
    match a
    case Claim(pipeline, plan) => if ValidPlan(cfg, plan) then ClaimJob(s, pipeline, plan) else s
    case Proceed(j) => if j < |s.jobs| && CanProceed(cfg, s, j) then ProceedJob(cfg, s, j) else s
    case GiveUp(j) => if j < |s.jobs| then AbandonJob(s, j) else s
  }

  ghost function Run(cfg: Config, actions: seq<Action>): State {
    if |actions| == 0 then INITIAL
    else Step(cfg, Run(cfg, actions[..|actions| - 1]), actions[|actions| - 1])
  }
}
