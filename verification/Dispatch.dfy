/** The dispatch loop of a worker pool: weighted round robin over the queues, bounded by
    the free slots of the pending channel and by each queue's concurrency. Jobs finish
    while the loop runs; what the store answers and which jobs finish are parameters. */
module Dispatch {
  import opened Prelude

  // ---- the schedule ----

  function Occurrences(s: seq<string>, q: string): nat {
    if s == [] then 0 else Occurrences(s[..|s| - 1], q) + if s[|s| - 1] == q then 1 else 0
  }

  function Weight(weights: map<string, int>, q: string): nat {
    if q in weights && weights[q] > 0 then weights[q] else 1
  }

  lemma {:induction false} OccurrencesConcat(a: seq<string>, b: seq<string>, q: string)
    ensures Occurrences(a + b, q) == Occurrences(a, q) + Occurrences(b, q)
  {
    if b == [] {
      assert a + b == a;
    } else {
      var n := |b| - 1;
      assert (a + b)[..|a + b| - 1] == a + b[..n];
      OccurrencesConcat(a, b[..n], q);
    }
  }

  lemma {:induction false} OccursSomewhere(s: seq<string>, q: string)
    ensures Occurrences(s, q) > 0 <==> q in s
  {
    if s != [] {
      OccursSomewhere(s[..|s| - 1], q);
      assert s == s[..|s| - 1] + [s[|s| - 1]];
    }
  }

  /** Each listing of a queue contributes its weight, which is 1 unless configured positive. */
  method BuildSchedule(queues: seq<string>, weights: map<string, int>) returns (schedule: seq<string>)
    ensures forall q :: Occurrences(schedule, q) == Occurrences(queues, q) * Weight(weights, q)
  {
    schedule := [];
    for k := 0 to |queues|
      invariant forall q :: Occurrences(schedule, q) == Occurrences(queues[..k], q) * Weight(weights, q)
    {
      var queue := queues[k];
      var weight := if queue in weights then weights[queue] else 0;
      if weight <= 0 {
        weight := 1;
      }
      ghost var before := schedule;
      for i := 0 to weight
        invariant forall q :: Occurrences(schedule, q) == Occurrences(before, q) + if q == queue then i else 0
      {
        ghost var shorter := schedule;
        schedule := schedule + [queue];
        assert schedule[..|schedule| - 1] == shorter;
      }
      assert queues[..k + 1][..k] == queues[..k];
      forall q ensures Occurrences(schedule, q) == Occurrences(queues[..k + 1], q) * Weight(weights, q) {
        if q == queue {
          assert Weight(weights, q) == weight;
          var n := Occurrences(queues[..k], q);
          assert (n + 1) * weight == n * weight + weight;
        }
      }
    }
    assert queues[..|queues|] == queues;
  }

  /** The queue polled at a cursor position. */
  function DrawAt(schedule: seq<string>, cursor: nat): string
    requires schedule != []
  {
    schedule[cursor % |schedule|]
  }

  /** The queues polled by `n` consecutive draws that start at cursor `from`. */
  function Draws(schedule: seq<string>, from: nat, n: nat): seq<string>
    requires schedule != []
  {
    seq(n, i requires 0 <= i < n => DrawAt(schedule, from + i))
  }

  lemma TurnsOver(from: nat, i: nat, n: nat)
    requires i < n
    ensures (from + i) % n == if from % n + i < n then from % n + i else from % n + i - n
  {
    var k, r := from / n, from % n;
    assert from + i == k * n + (r + i);
    if r + i < n {
      Remainder(k, r + i, n);
    } else {
      assert from + i == (k + 1) * n + (r + i - n);
      Remainder(k + 1, r + i - n, n);
    }
  }

  lemma Remainder(k: nat, r: nat, n: nat)
    requires r < n
    ensures (k * n + r) % n == r
  {
    TruncateUnique(k * n + r, n, k);
  }

  /** A round of consecutive draws, wherever it starts, polls every queue exactly as often
      as the schedule lists it. */
  lemma RoundPollsEachWeight(schedule: seq<string>, from: nat, q: string)
    requires schedule != []
    ensures Occurrences(Draws(schedule, from, |schedule|), q) == Occurrences(schedule, q)
  {
    var n := |schedule|;
    var r := from % n;
    var round := Draws(schedule, from, n);
    forall i | 0 <= i < n ensures round[i] == (schedule[r..] + schedule[..r])[i] {
      TurnsOver(from, i, n);
    }
    assert round == schedule[r..] + schedule[..r];
    OccurrencesConcat(schedule[r..], schedule[..r], q);
    assert schedule == schedule[..r] + schedule[r..];
    OccurrencesConcat(schedule[..r], schedule[r..], q);
  }

  /** Over any number of whole rounds the shares are the weights, exactly. */
  lemma {:induction false} RoundsShareByWeight(schedule: seq<string>, from: nat, rounds: nat, q: string)
    requires schedule != []
    ensures Occurrences(Draws(schedule, from, rounds * |schedule|), q) == rounds * Occurrences(schedule, q)
  {
    var n := |schedule|;
    if rounds > 0 {
      var head, last := (rounds - 1) * n, rounds * n;
      assert last == head + n;
      assert Draws(schedule, from, last) == Draws(schedule, from, head) + Draws(schedule, from + head, n);
      OccurrencesConcat(Draws(schedule, from, head), Draws(schedule, from + head, n), q);
      RoundsShareByWeight(schedule, from, rounds - 1, q);
      RoundPollsEachWeight(schedule, from + head, q);
      assert rounds * Occurrences(schedule, q) == (rounds - 1) * Occurrences(schedule, q) + Occurrences(schedule, q);
    }
  }

  // ---- polls ----

  datatype Fetched = OneJob | NoJob | Failed

  datatype Outcome = AtLimit | Empty | Error | Claimed

  /** `active` is the queue's number of active jobs when it was polled. */
  datatype Poll = Poll(queue: string, active: nat, outcome: Outcome)

  function Claims(log: seq<Poll>): nat {
    if log == [] then 0 else Claims(log[..|log| - 1]) + if log[|log| - 1].outcome.Claimed? then 1 else 0
  }

  lemma ClaimsSnoc(log: seq<Poll>, poll: Poll)
    ensures Claims(log + [poll]) == Claims(log) + if poll.outcome.Claimed? then 1 else 0
  {
    assert (log + [poll])[..|log|] == log;
  }

  predicate WithinRounds(polls: nat, claims: nat, misses: nat, n: nat) {
    polls <= claims * n + misses
  }

  lemma RoundsGrow(polls: nat, claims: nat, misses: nat, n: nat)
    requires WithinRounds(polls, claims, misses, n) && misses < n
    ensures WithinRounds(polls + 1, claims, misses + 1, n) && WithinRounds(polls + 1, claims + 1, 0, n)
  {
    assert (claims + 1) * n == claims * n + n;
  }

  /** The loop has used `room - free` slots, its last `misses` polls are the ones since the
      last claim, and neither reason to stop held earlier. */
  ghost predicate LoopLog(log: seq<Poll>, misses: nat, free: nat, room: nat, n: nat) {
    && misses <= n && misses <= |log|
    && Claims(log) + free == room
    && (forall i :: |log| - misses <= i < |log| ==> !log[i].outcome.Claimed?)
    && (misses < |log| ==> log[|log| - misses - 1].outcome.Claimed?)
    && WithinRounds(|log|, Claims(log), misses, n)
    && (forall k :: 0 <= k < |log| ==> Claims(log[..k]) < room && !FullRoundMissed(log[..k], n))
  }

  /** The loop stopped at the first moment at which its room was used up or a whole round had
      missed, after at most one round per claim and one more. */
  ghost predicate StoppedInTime(log: seq<Poll>, room: nat, n: nat) {
    && Claims(log) <= room
    && (Claims(log) == room || FullRoundMissed(log, n))
    && (forall k :: 0 <= k < |log| ==> Claims(log[..k]) < room && !FullRoundMissed(log[..k], n))
    && |log| <= (Claims(log) + 1) * n
  }

  lemma LoopLogStops(log: seq<Poll>, misses: nat, free: nat, room: nat, n: nat)
    requires LoopLog(log, misses, free, room, n) && (free == 0 || misses == n)
    ensures StoppedInTime(log, room, n)
  {
    var c := Claims(log);
    assert (c + 1) * n == c * n + n;
  }

  lemma LoopLogSnoc(log: seq<Poll>, poll: Poll, misses: nat, free: nat, room: nat, n: nat)
    requires LoopLog(log, misses, free, room, n) && free > 0 && misses < n
    ensures var claimed := poll.outcome.Claimed?;
      LoopLog(log + [poll], if claimed then 0 else misses + 1, if claimed then free - 1 else free, room, n)
  {
    var longer := log + [poll];
    ClaimsSnoc(log, poll);
    RoundsGrow(|log|, Claims(log), misses, n);
    forall k | 0 <= k < |longer| ensures Claims(longer[..k]) < room && !FullRoundMissed(longer[..k], n) {
      if k < |log| {
        assert longer[..k] == log[..k];
      } else {
        assert longer[..k] == log;
        assert misses < |log| ==> log[|log| - misses - 1].outcome.Claimed?;
      }
    }
  }

  function QueuesOf(log: seq<Poll>): seq<string> {
    seq(|log|, i requires 0 <= i < |log| => log[i].queue)
  }

  /** The last `n` polls exist and none of them claimed a job. */
  predicate FullRoundMissed(log: seq<Poll>, n: nat) {
    |log| >= n && forall i :: |log| - n <= i < |log| ==> !log[i].outcome.Claimed?
  }

  predicate LogFollows(log: seq<Poll>, schedule: seq<string>, from: nat) {
    schedule != [] && QueuesOf(log) == Draws(schedule, from, |log|)
  }

  /** When a whole round has missed, every queue of the schedule was polled in it, as often
      as its weight, and had nothing to claim. */
  lemma EveryQueueMissed(log: seq<Poll>, schedule: seq<string>, from: nat, q: string)
    requires LogFollows(log, schedule, from) && FullRoundMissed(log, |schedule|)
    ensures var round := log[|log| - |schedule|..];
      && Occurrences(QueuesOf(round), q) == Occurrences(schedule, q)
      && (q in schedule ==> exists i :: 0 <= i < |round| && round[i].queue == q && !round[i].outcome.Claimed?)
  {
    var n := |schedule|;
    var k := |log| - n;
    var round := log[k..];
    assert QueuesOf(round) == Draws(schedule, from + k, n) by {
      forall i | 0 <= i < n ensures QueuesOf(round)[i] == Draws(schedule, from + k, n)[i] {
        assert QueuesOf(log)[k + i] == Draws(schedule, from, |log|)[k + i];
        assert from + k + i == from + (k + i);
      }
    }
    RoundPollsEachWeight(schedule, from + k, q);
    OccursSomewhere(schedule, q);
    OccursSomewhere(QueuesOf(round), q);
    if q in schedule {
      var i :| 0 <= i < n && QueuesOf(round)[i] == q;
      assert round[i].queue == q;
    }
  }

  function LimitIn(concurrency: map<string, int>, q: string): int {
    if q in concurrency then concurrency[q] else 0
  }

  /** A queue is passed over exactly when it is at its limit; otherwise the store is asked
      and its answer decides. */
  predicate PollIsRight(concurrency: map<string, int>, poll: Poll, answer: Fetched) {
    var limit := LimitIn(concurrency, poll.queue);
    if limit > 0 && poll.active >= limit then poll.outcome.AtLimit?
    else poll.outcome == match answer case OneJob => Claimed case NoJob => Empty case Failed => Error
  }

  /** A poll claims exactly when the store hands out a job and the queue is not at a positive
      limit of active jobs; a queue at its limit is not even asked for one. */
  lemma ClaimsExactly(concurrency: map<string, int>, poll: Poll, answer: Fetched)
    requires PollIsRight(concurrency, poll, answer)
    ensures var full := poll.queue in concurrency && 0 < concurrency[poll.queue] <= poll.active;
      && (poll.outcome == Claimed <==> answer == OneJob && !full) && (poll.outcome == AtLimit <==> full)
      && (poll.outcome == Error <==> answer == Failed && !full) && (poll.outcome == Empty <==> answer == NoJob && !full)
  {
  }

  /** What the store answers to the fetch of a draw. */
  function Answer(answers: nat -> Fetched, draw: nat): Fetched {
    answers(draw)
  }

  /** The polls are the consecutive draws from the cursor, each with the right outcome. */
  ghost predicate PollsRight(pool: WorkerPool, log: seq<Poll>, from: nat, answers: nat -> Fetched) {
    && (log != [] ==> LogFollows(log, pool.schedule, from))
    && forall i :: 0 <= i < |log| ==> PollIsRight(pool.concurrency, log[i], Answer(answers, from + i))
  }

  lemma PollsRightSnoc(pool: WorkerPool, log: seq<Poll>, from: nat, answers: nat -> Fetched, cursor: nat, poll: Poll)
    requires PollsRight(pool, log, from, answers) && pool.schedule != [] && cursor == from + |log|
    requires poll.queue == DrawAt(pool.schedule, cursor)
    requires PollIsRight(pool.concurrency, poll, Answer(answers, cursor))
    ensures PollsRight(pool, log + [poll], from, answers)
  {
    assert QueuesOf(log + [poll]) == QueuesOf(log) + [poll.queue];
    assert Draws(pool.schedule, from, |log| + 1) == Draws(pool.schedule, from, |log|) + [poll.queue];
  }

  // ---- jobs in flight ----

  ghost function InQueue(inFlight: map<nat, string>, q: string): set<nat> {
    set j | j in inFlight && inFlight[j] == q
  }

  lemma StartCounts(inFlight: map<nat, string>, j: nat, queue: string, q: string)
    requires j !in inFlight
    ensures |InQueue(inFlight[j := queue], q)| == |InQueue(inFlight, q)| + if q == queue then 1 else 0
    ensures |inFlight[j := queue]| == |inFlight| + 1
  {
    var more := InQueue(inFlight[j := queue], q);
    assert more == if q == queue then InQueue(inFlight, q) + {j} else InQueue(inFlight, q);
  }

  lemma DoneCounts(inFlight: map<nat, string>, j: nat, q: string)
    requires j in inFlight
    ensures |InQueue(inFlight, q)| == |InQueue(inFlight - {j}, q)| + if q == inFlight[j] then 1 else 0
    ensures |inFlight - {j}| == |inFlight| - 1
  {
    var less := InQueue(inFlight - {j}, q);
    assert InQueue(inFlight, q) == if q == inFlight[j] then less + {j} else less;
    assert inFlight == (inFlight - {j})[j := inFlight[j]];
  }

  /** What a finishing job does: leave its queue's count, then free its pending slot. */
  datatype Signal = LeavesQueue(job: nat) | FreesSlot(job: nat)

  class WorkerPool {
    const schedule: seq<string>
    const concurrency: map<string, int>
    const capacity: nat
    var queueCursor: nat
    var active: map<string, nat>
    var pending: nat
    /** The running goroutines: jobs still counted in their queue, jobs that hold only a slot. */
    var inFlight: map<nat, string>
    var draining: set<nat>
    var started: nat

    constructor (schedule: seq<string>, concurrency: map<string, int>, capacity: nat)
      ensures Valid() && queueCursor == 0 && pending == 0
      ensures this.schedule == schedule && this.concurrency == concurrency && this.capacity == capacity
    {
      this.schedule, this.concurrency, this.capacity := schedule, concurrency, capacity;
      queueCursor, active, pending := 0, map[], 0;
      inFlight, draining, started := map[], {}, 0;
    }

    function ActiveOf(q: string): nat
      reads this`active
    {
      if q in active then active[q] else 0
    }

    function Limit(q: string): int {
      LimitIn(concurrency, q)
    }

    /** The counters count the jobs in flight, no limited queue is over its concurrency,
        and the slots taken are the jobs that have not finished. */
    ghost predicate Valid()
      reads this`active, this`pending, this`inFlight, this`draining, this`started
    {
      && (forall q :: ActiveOf(q) == |InQueue(inFlight, q)|)
      && (forall q :: q in concurrency && concurrency[q] > 0 ==> ActiveOf(q) <= concurrency[q])
      && inFlight.Keys !! draining
      && (forall j :: j in inFlight ==> j < started)
      && (forall j :: j in draining ==> j < started)
      && pending == |inFlight| + |draining| <= capacity
    }

    method QueueCanClaim(queue: string) returns (ok: bool)
      requires Valid()
      modifies this`active
      ensures Valid() && forall q :: ActiveOf(q) == old(ActiveOf(q))
      ensures ok <==> Limit(queue) <= 0 || ActiveOf(queue) < Limit(queue)
      ensures ok <==> !(queue in concurrency && concurrency[queue] > 0 && ActiveOf(queue) >= concurrency[queue])
    {
      if queue !in active {
        active := active[queue := 0];
      }
      ok := !(Limit(queue) > 0 && active[queue] >= Limit(queue));
    }

    method QueueClaimed(queue: string)
      modifies this`active
      ensures forall q :: ActiveOf(q) == old(ActiveOf(q)) + if q == queue then 1 else 0
    {
      if queue !in active {
        active := active[queue := 0];
      }
      active := active[queue := active[queue] + 1];
    }

    method QueueDone(queue: string)
      modifies this`active
      ensures forall q :: ActiveOf(q) == old(ActiveOf(q)) - (if q == queue && old(ActiveOf(q)) > 0 then 1 else 0)
    {
      if queue in active && active[queue] > 0 {
        active := active[queue := active[queue] - 1];
      }
    }

    /** Count the claimed job and take its slot; the send finds room, so it does not wait. */
    method Start(queue: string)
      requires Valid() && pending < capacity && (Limit(queue) <= 0 || ActiveOf(queue) < Limit(queue))
      modifies this`active, this`pending, this`inFlight, this`started
      ensures Valid() && pending == old(pending) + 1
      ensures inFlight == old(inFlight)[old(started) := queue] && started == old(started) + 1
    {
      forall q {
        StartCounts(inFlight, started, queue, q);
      }
      StartCounts(inFlight, started, queue, queue);
      QueueClaimed(queue);
      pending := pending + 1;
      inFlight, started := inFlight[started := queue], started + 1;
    }

    /** The guard in QueueDone never loses a decrement. */
    method Finish(signal: Signal)
      requires Valid()
      modifies this`active, this`pending, this`inFlight, this`draining
      ensures Valid() && pending <= old(pending)
      ensures signal.LeavesQueue? && signal.job in old(inFlight) ==>
        && inFlight == old(inFlight) - {signal.job}
        && ActiveOf(old(inFlight)[signal.job]) == old(ActiveOf(inFlight[signal.job])) - 1
      ensures signal.FreesSlot? && signal.job in old(draining) ==>
        pending == old(pending) - 1 && inFlight == old(inFlight)
    {
      var j := signal.job;
      if signal.LeavesQueue? && j in inFlight {
        forall q {
          DoneCounts(inFlight, j, q);
        }
        DoneCounts(inFlight, j, inFlight[j]);
        QueueDone(inFlight[j]);
        inFlight, draining := inFlight - {j}, draining + {j};
      } else if signal.FreesSlot? && j in draining {
        pending := pending - 1;
        draining := draining - {j};
      }
    }

    /** The jobs that finish between two draws. */
    method FinishAll(signals: seq<Signal>)
      requires Valid()
      modifies this`active, this`pending, this`inFlight, this`draining
      ensures Valid() && pending <= old(pending)
    {
      for k := 0 to |signals|
        invariant Valid() && pending <= old(pending)
      {
        Finish(signals[k]);
      }
    }

    /** One call of the dispatch loop. `answers` is what the store replies to the fetch of a
        given draw and `finishing` the jobs that end just before it. The loop draws queues
        from the cursor on, stops exactly when the slots free at its start are used up or a
        whole round has missed, and never waits for a slot. */
    method FetchAndDispatch(stopping: bool, answers: nat -> Fetched, finishing: nat -> seq<Signal>)
        returns (log: seq<Poll>)
      requires Valid()
      modifies this
      ensures Valid()
      ensures stopping ==> log == []
      ensures queueCursor == old(queueCursor) + |log| && started == old(started) + Claims(log)
      ensures PollsRight(this, log, old(queueCursor), answers)
      ensures !stopping ==> StoppedInTime(log, capacity - old(pending), |schedule|)
    {
      log := [];
      if stopping {
        return;
      }
      var free := capacity - pending;
      if free <= 0 {
        return;
      }
      var misses := 0;
      ghost var room, from := free, queueCursor;
      while free > 0 && misses < |schedule|
        invariant Valid() && 0 <= free <= capacity - pending
        invariant queueCursor == from + |log| && started + free == old(started) + room
        invariant PollsRight(this, log, from, answers)
        invariant LoopLog(log, misses, free, room, |schedule|)
        decreases free, |schedule| - misses
      {
        var cursor := queueCursor;
        var poll := Draw(Answer(answers, cursor), finishing(cursor));
        PollsRightSnoc(this, log, from, answers, cursor, poll);
        LoopLogSnoc(log, poll, misses, free, room, |schedule|);
        misses := if poll.outcome.Claimed? then 0 else misses + 1;
        free := if poll.outcome.Claimed? then free - 1 else free;
        log := log + [poll];
      }
      LoopLogStops(log, misses, free, room, |schedule|);
    }

    /** Draw the next queue of the schedule, after some jobs have finished. */
    method Draw(answer: Fetched, signals: seq<Signal>) returns (poll: Poll)
      requires Valid() && pending < capacity && schedule != []
      modifies this
      ensures Valid() && queueCursor == old(queueCursor) + 1
      ensures poll.queue == DrawAt(schedule, old(queueCursor)) && PollIsRight(concurrency, poll, answer)
      ensures pending <= old(pending) + if poll.outcome.Claimed? then 1 else 0
      ensures started == old(started) + if poll.outcome.Claimed? then 1 else 0
    {
      FinishAll(signals);
      queueCursor := queueCursor + 1;
      poll := PollQueue(DrawAt(schedule, queueCursor - 1), answer);
    }

    /** Poll one queue, and start the job if one was claimed. */
    method PollQueue(queue: string, answer: Fetched) returns (poll: Poll)
      requires Valid() && pending < capacity
      modifies this`active, this`pending, this`inFlight, this`started
      ensures Valid() && poll.queue == queue && poll.active == old(ActiveOf(queue))
      ensures PollIsRight(concurrency, poll, answer)
      ensures pending == old(pending) + if poll.outcome.Claimed? then 1 else 0
      ensures started == old(started) + if poll.outcome.Claimed? then 1 else 0
      ensures inFlight == if poll.outcome.Claimed? then old(inFlight)[old(started) := queue] else old(inFlight)
    {
      var ok := QueueCanClaim(queue);
      poll := Poll(queue, ActiveOf(queue), AtLimit);
      if ok {
        match answer {
          case Failed => poll := poll.(outcome := Error);
          case NoJob => poll := poll.(outcome := Empty);
          case OneJob =>
            poll := poll.(outcome := Claimed);
            Start(queue);
        }
      }
    }
  }
}
