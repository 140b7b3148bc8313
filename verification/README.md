# goncordia: a verified model of the job-queue engine

goncordia is a job queue for Go: jobs are rows in a store, worker pools claim them under a
(worker, attempt) token, run them under rate and concurrency limits, and write the outcome
back. This project models the shared-state protocols behind its guarantees and proves them
over every input, every reachable state or every interleaving.

Conventions. An instant is an integer count of nanoseconds since Go's zero time, so the
zero instant is 0. A section under a mutex, a Lua script or an optimistic transaction is
one atomic step. A goroutine or a remote caller is a program counter in a datatype. A run
is a sequence of actions from the initial state; an action that is not enabled changes
nothing, so a theorem about all action sequences is one about all interleavings. What the
clock, the handler or the database answers is a parameter.

| module | models |
|---|---|
| `Gcra` | the rate guarantee on permit histories, without and with a cursor |
| `CursorStore`, `SharedRateLimit`, `WindowLog`, `FixedWindow` | the compare-and-swap limiters shared by processes |
| `RuleKeys`, `LocalRateLimit`, `LocalRollback`, `WindowRollback` | the pool's multi-rule limiter with reservation and rollback |
| `Jobs`, `JobStore`, `JobLife`, `Fencing`, `Heartbeats`, `UniqueKeys`, `RetryAccounting`, `RetryOutcomes` | the job store as a state machine and what its runs keep |
| `MemoryDriver`, `Ordering`, `Strings` | the in-memory driver as a class that refines that machine |
| `Pagination`, `Maintenance` | keyset cursors and retention over pages |
| `Cron`, `CronTick`, `CronPair`, `CronKeys` | durable schedulers that may crash between any two steps |
| `PoolMachine`, `PoolSemaphores`, `PoolPipeline`, `PoolProgress`, `PoolHandlers` | admission of claimed jobs: pipeline gates, semaphores, progress |
| `Dispatch` | the weighted round-robin dispatch loop |
| `RedisStore`, `RedisIndexes`, `RedisKeys`, `RedisOrder`, `RedisDue`, `RedisFencing`, `RedisRefinement`, `RedisSimulation`, `RedisServer` | the Redis layout, its indexes and its scripts |
| `Backoff` | exponential backoff in 64-bit arithmetic |
| `Prelude` | shared definitions |

Where the code gives less than one might assume, the model follows the code; a lemma shows
the failing case and another gives the exact condition:

- A fenced token is refused for ever exactly when the claim did not end in a yield
  (`Fencing.FencedForEverIffNotYield`).
- Rescheduling a finished job can put two unfinished jobs under one ordinary key
  (`UniqueKeys.RevivalBreaksExclusivity`, `UniqueKeys.ReviveKeepsExclusiveIff`).
- The shared fixed-window counter is lost when a clock returns to a window used before
  (`FixedWindow.BackwardClockBreaksCeiling`, `FixedWindow.CeilingUnbreakableIff`).
- The local fixed-window rollback can erase a permit another job kept
  (`WindowRollback.WindowRollbackLosesPermit`, `WindowRollback.RollbackSafeIff`).
- A pipeline waiter that gives up at a closed gate lets its successor overtake
  (`PoolPipeline.AbandonedGateLetsSuccessorPass`, `PoolPipeline.GivingUpKeepsOrderIff`).
- Periodic jobs of one kind whose group and job names run together skip each other's
  occurrences when their schedules coincide
  (`CronPair.SharedKeyServesBoth`, `CronKeys.JobsKeepTheirRowsIff`).
- In Redis, rescheduling a running job leaves it in the running hash
  (`RedisOrder.ReschedulingRunningJobBreaks`, `RedisIndexes.RescheduleKeepsIff`), rescheduling
  a finished one takes no reservation (`RedisKeys.RevivingCancelledJobBreaks`,
  `RedisKeys.RescheduleKeepsKeysIff`), and deleting a job frees its unique key even when
  another job has taken it since (`RedisKeys.DeleteKeepsKeysIff`,
  `RedisKeys.FreedKeyAdmitsDuplicate`).
- A retry without an instant makes a Redis job available at once, while the memory store
  leaves the row in the retryable state (`RedisRefinement.UndatedRetryDiffers`).
- The comment at driver/rate_limit.go:109-111 speaks of nanoseconds after the window
  boundary; the code counts in milliseconds, and so does the model.

## Model

| member | source | states |
|---|---|---|
| Gcra.AdmitsIffSpaced | driver/rate_limit.go:72-106 | the cursor test admits a request if and only if appending it keeps the distance to every earlier permit and to the creation instant |
| Gcra.ConformingIffSpaced | driver/rate_limit.go:72-106 | a history was admitted step by step by the cursor if and only if it satisfies the cursor-free pairwise rate guarantee |
| Gcra.TatStrict | driver/rate_limit.go:87-94 | every further permit moves the cursor strictly forward |
| Gcra.SpanBound | driver/rate_limit.go:72-106 | pairwise spacing implies at most burst + floor(L/interval) permits in any span of length L, with instants in any order |
| CursorStore.Cursors.GetOrCreate | driver/memory/memory.go:473-482 | returns the stored cursor or creates it, and touches no other key |
| CursorStore.Cursors.Advance | driver/memory/memory.go:484-493 | compare-and-swap: succeeds exactly when the expected value is stored |
| SharedRateLimit.ToleranceIsExact | driver/rate_limit.go:166-182 | for every valid parameter set the saturating product never saturates and the tolerance is exactly (burst - 1) * interval |
| SharedRateLimit.PermitsAreSpaced | driver/rate_limit.go:76-106 | in every interleaving of any number of callers with arbitrary instants, permits i <= j satisfy (j - i) * interval <= now_j - now_i + (burst - 1) * interval |
| SharedRateLimit.PermitsPerSpan | driver/rate_limit.go:76-106 | in every interleaving no span of length L carries more than burst + floor(L/interval) permits |
| SharedRateLimit.IntervalIsPeriodOverLimit | driver/rate_limit.go:166-172 | interval * limit <= period < (interval + 1) * limit, and one nanosecond when the limit exceeds the period |
| SharedRateLimit.PermitsPerPeriod | driver/rate_limit.go:51-106 | in every interleaving of callers with one parameter set, a period carries at most limit + max(burst, 1) permits, for limit * limit <= period |
| SharedRateLimit.FarApartIsNeverRefused | driver/rate_limit.go:72-91 | callers whose instants lie at least period / limit apart are never refused |
| SharedRateLimit.DecidedByFirstSettled | driver/rate_limit.go:76-106 | a call is decided by the first cursor value it sees that refuses it or that nobody overtakes |
| SharedRateLimit.RefusalIsExact | driver/rate_limit.go:83-86 | a caller is refused if and only if one more permit would break the guarantee, and the reported retry instant is the earliest that would not |
| SharedRateLimit.SwapFailsOnlyAfterAnotherGrant | driver/rate_limit.go:92-106 | a swap succeeds exactly when nobody was granted a permit since the read, so there is no ABA hole and a retry means somebody progressed |
| SharedRateLimit.AcquireRateLimit | driver/rate_limit.go:51-106 | the retry loop against any sequence of rival cursor values: validation errors, outcome, retry instant, new cursor, other keys unchanged |
| FixedWindow.EncodingIsFaithful | driver/rate_limit.go:115-133 | a count up to the limit is recovered from the cursor and never spills into the next window |
| FixedWindow.WindowCeiling | driver/rate_limit.go:112-164 | in every interleaving no block of consecutive permits of a window exceeds the limit, and while the permits never return to a window they left, no window does |
| FixedWindow.OrderedWindowsKeepCeiling | driver/rate_limit.go:112-164 | in every interleaving with nondecreasing windows each window gets at most `limit` permits |
| FixedWindow.RefusalIsExact | driver/rate_limit.go:132-148 | refusal happens exactly when the cursor's block is this window's and full; if no window was returned to, exactly `limit` permits were granted in it |
| FixedWindow.CeilingUnbreakableIff | driver/rate_limit.go:132-153 | after a run that returned to no window, the ceiling of a window holds in every continuation granting in it if and only if it is the cursor's window or was never used |
| FixedWindow.BackwardClockBreaksCeiling | driver/rate_limit.go:132-153 | a concrete run with a clock that steps back exceeds the limit of a window |
| FixedWindow.AcquireFixedWindow | driver/rate_limit.go:112-164 | the retry loop: limit too large, first use, refusal with the next window's start, and the new cursor |
| RuleKeys.SignatureInjective | worker.go:535-588 | two limits with the same signature are the same limit, although a tag prefix may contain the separator |
| RuleKeys.RowKeysDistinct | worker.go:1270-1299 | different rules of a queue share a limiter state, for whatever jobs, only if the digest collides on their own two texts |
| RuleKeys.CollisionFreeDigestExists | worker.go:573-575 | what is assumed of the digest can be met: some function without separators in its results has no collision on any policy |
| RuleKeys.NormalizeRateLimits | worker.go:535-588 | the normalised rules are pairwise different, usable and exactly the normal forms of the enabled configured limits, the older single limit included |
| RuleKeys.NormalizeMends | worker.go:545-560 | normalisation leaves a usable limit alone and mends the rest: a second for a missing period, a burst between one and the limit |
| RuleKeys.IntervalIsPeriodOverLimit | worker.go:560-563 | interval * limit <= period < (interval + 1) * limit, and one nanosecond when the limit exceeds the period |
| LocalRateLimit.WaitIsExact | worker.go:971-1008 | a blocked rule stays blocked for exactly its reported wait |
| LocalRateLimit.UndoRestores | worker.go:1021-1032 | undoing reservations last first restores every rule state, even if rules shared a key |
| LocalRateLimit.TakenMapAt | worker.go:1033-1078 | with distinct keys each rule is charged once, from its own original state, and nothing else changes |
| LocalRateLimit.Limiter.Delay | worker.go:971-1008 | zero if and only if every local rule is open now; never longer than needed; long enough unless a window lies ahead of the clock |
| LocalRateLimit.Limiter.Reserve | worker.go:1010-1091 | succeeds if and only if every local rule is open; charges all of them or leaves every state unchanged |
| LocalRateLimit.Limiter.Rollback | worker.go:1021-1032 | undoes the reservations last first, windows unconditionally and cursors conditionally |
| LocalRateLimit.Limiter.ReserveAndRollBack | worker.go:1117-1160 | the reservation succeeds exactly after a zero delay, and an immediate rollback restores every state |
| LocalRateLimit.ConfiguredRulesAreDistinct | worker.go:535-588 | the rules of a normalised policy have distinct keys and valid parameters for every job, unless the digest collides on two of them |
| LocalRateLimit.CheckAgreesWithReserve | worker.go:1117-1160 | from configuration to permit: for every policy, job and instant the computed delay is zero if and only if the reservation succeeds |
| LocalRollback.MachineIsLimiter | worker.go:1063-1078 | the rollback machine blocks, charges, captures and restores exactly as the limiter does on one rule state |
| LocalRollback.RestoredOnlyFromTop | worker.go:1028-1029 | the comparison with the captured cursor succeeds only for the most recent standing permit |
| LocalRollback.KeptPermitsSurvive | worker.go:1028-1029 | no step of any run erases a kept permit |
| LocalRollback.KeptPermitsAreSpaced | worker.go:1010-1091 | in every interleaving of reserve, keep and roll back, the kept permits alone satisfy the burst and interval bound |
| LocalRollback.ConfiguredRuleIsThisRule | worker.go:560-586 | a configured limit becomes a limiter rule with exactly its interval and (burst - 1) intervals of tolerance |
| LocalRollback.KeptPermitsPerPeriod | worker.go:1010-1091 | in every interleaving a period carries at most limit + burst kept permits, for limit * limit <= period |
| WindowRollback.MachineIsLimiter | worker.go:1043-1062 | the window machine blocks, counts, captures and overwrites exactly as the limiter does on one rule state |
| WindowRollback.CarefulRunsKeepCeiling | worker.go:1010-1091 | in every run whose rollbacks find the counter their own reservation left and whose reservations return to no window with standing permits, the counter counts exactly the standing permits and no window exceeds its limit |
| WindowRollback.RollbackSafeIff | worker.go:1025-1027 | after such a run a rollback leaves the window safe from all further starts in it if and only if the counter is still what its own reservation left |
| WindowRollback.ReserveSafeIff | worker.go:1043-1062 | after such a run a reservation leaves its window safe if and only if it continues the counter's window or opens one without standing permits |
| WindowRollback.WindowRollbackLosesPermit | worker.go:1025-1027 | for every limit of at least two, a run in which a rollback erases another job's permit takes the window over its limit |
| WindowRollback.GatedRollbacksMatch | worker.go:921-960 | when all jobs on the state pass one rate gate, every rollback finds the counter its own reservation left |
| WindowRollback.GatedRunsKeepCeiling | worker.go:921-960 | so behind one gate no window exceeds its limit unless the clock returns to a window with standing permits |
| RuleKeys.SharedRuleDifferentGates | worker.go:921-934 | jobs can share a rule's state and pass different gates: with a whole-queue rule and one by kind, pipeline or tag, jobs with different values do |
| Backoff.RetryDelay | core/retry.go:37-56 | the loop in 64-bit arithmetic returns min(base * 2^(attempt-1), max) and no intermediate value leaves int64 |
| Backoff.DelayNondecreasing | core/retry.go:37-56 | the delay never shrinks with the attempt number |
| Backoff.DelayDoubles | core/retry.go:37-56 | the first delay is the base, each further one doubles up to the maximum; the defaults are a second and a day |
| JobStore.ApplyIsTransition | driver/memory/memory.go:95-393 | every operation moves the rows it keeps by one row transition, drops at most the deleted row and adds at most one row under the next identifier |
| JobStore.ApplyValid | driver/memory/memory.go:95-393 | every operation keeps the store well formed |
| JobStore.RunValid | driver/memory/memory.go:95-393 | every run keeps the store well formed: rows under their own issued identifiers, running rows with attempt at least one |
| JobStore.NextIdIsFresh | driver/memory/memory.go:108-109 | the next identifier was never issued before |
| JobLife.InsertStores | driver/memory/memory.go:108-139 | a new job has the attributes asked for, waits as scheduled exactly if its run time is in the future, and has not been tried |
| JobLife.InsertRefusedIff | driver/memory/memory.go:100-107 | an insert is refused if and only if a row carries its key and the key is permanent or the row unfinished |
| JobLife.StartsOnlyWhenDue | driver/memory/memory.go:203-263 | a job goes to running only through a fetch from its own unpaused queue, only if it was waiting and due, and then with the next attempt number, the worker, the instant and the lease of the fetch |
| JobLife.EveryStartIsDue | driver/memory/memory.go:203-263 | in every run, whoever starts was due |
| JobLife.NotBeforeItsTime | driver/memory/memory.go:203-263 | a waiting job is not started by any run whose fetches come before its run time, and keeps that run time |
| JobLife.UnlimitedFetchTakesAll | driver/memory/memory.go:240-262 | a fetch without a limit leaves nothing due behind |
| JobLife.RescueGivesBack | driver/memory/memory.go:277-297 | a rescue gives back exactly the overdue claims of its queue with attempt number, run time and errors as they were |
| JobLife.TokenTakesEffectIff | driver/memory/memory.go:265-312 | a heartbeat or start mark takes effect exactly for the worker and attempt that run |
| JobLife.HeartbeatRenews | driver/memory/memory.go:299-312 | an accepted heartbeat sets the deadline it names, or its own instant if it names none, and nothing else |
| JobLife.StartMarkIsKept | driver/memory/memory.go:265-275 | an accepted start mark is stored and changes nothing else |
| JobLife.WriteTakesEffectIff | driver/driver.go:229-232 | a state write takes effect exactly on a running job whose worker and attempt are what it expects, where it expects anything |
| JobLife.YieldGivesBack | driver/memory/memory.go:321-330 | a yield gives back the attempt and leaves run time and errors alone |
| JobLife.WriteEndsAttempt | driver/memory/memory.go:331-353 | any other write records its error under the attempt, makes a dated retry available at that instant and stamps a final state |
| JobLife.CancelStops | driver/memory/memory.go:357-371 | a cancel ends exactly a waiting job |
| JobLife.RescheduleSets | driver/memory/memory.go:383-393 | a reschedule sets run time and scheduled state, whatever the state was |
| Fencing.EndedClaimsStayFenced | driver/memory/memory.go:265-393 | once a claim ends other than by a yield, no later state of any run accepts a heartbeat, start mark or fenced write with its token |
| Fencing.YieldedTokenReturns | driver/memory/memory.go:314-330 | after a yield, from every state, some continuation hands the same token out again |
| Fencing.FencedForEverIffNotYield | driver/memory/memory.go:265-393 | the token of an ended claim is refused for ever if and only if the claim did not end in a yield |
| UniqueKeys.KeysStayExclusive | driver/memory/memory.go:95-141 | in every run at most one row carries a permanent key; without revived jobs at most one unfinished row carries an ordinary key |
| UniqueKeys.ReviveKeepsExclusiveIff | driver/memory/memory.go:383-393 | rescheduling a finished job keeps its key exclusive if and only if no unfinished row holds it |
| UniqueKeys.RevivalBreaksExclusivity | driver/memory/memory.go:383-393 | a concrete run in which two unfinished rows share an ordinary key |
| RetryAccounting.ErrorsIncrease | worker.go:1376-1499 | whatever yields, rescues and stale writes intervene, recorded error attempts strictly increase and no job rests in the retryable state |
| RetryAccounting.ErrorsBounded | worker.go:1376-1499 | without revival a job records at most its effective maximum of errors |
| RetryAccounting.ErrorsBoundedByRevivals | worker.go:1376-1499 | in every run a job records at most its effective maximum of errors and one more for each time a finished state was rescheduled |
| RetryOutcomes.SuccessCompletes | worker.go:1447-1451 | a handler that returns nil leaves the job completed now, with no new error |
| RetryOutcomes.InterruptionGivesBack | worker.go:1440-1445 | a lost context gives the attempt back and records nothing |
| RetryOutcomes.DiscardErrorDiscards | worker.go:1456-1461 | a discard error ends the job discarded with one error more |
| RetryOutcomes.PlainErrorRetriesOrDiscards | worker.go:1463-1499 | a failure below the maximum with a retry instant waits for exactly that instant; at the maximum or without an instant it ends discarded |
| RetryOutcomes.RetryErrorSetsInstant | worker.go:1473-1478 | a retry directive names the instant, or the delay from now |
| RetryOutcomes.EffectiveMaxIs | worker.go:1379-1388 | the effective maximum is the job's own, else its kind's, else three |
| RetryOutcomes.LostClaimChangesNothing | worker.go:1501-1506 | the outcome of a lost claim changes nothing |
| RetryOutcomes.TriedExactlyMaximumTimes | worker.go:1376-1499 | in every run in which its handler only fails plainly and is given a retry instant, a job is started its effective maximum of times and then discarded |
| Heartbeats.ClaimSurvivesIff | driver/memory/memory.go:277-312 | through any run in which nobody ends it otherwise, a claim is kept if and only if every rescue pass over its queue comes before the deadline of the last renewal |
| Heartbeats.RegularHeartbeatsKeepClaim | worker.go:1508-1588 | a pool whose heartbeats come through at least once per timeout never loses a job to a rescue |
| MemoryDriver.Driver.FindUniqueJob | driver/memory/memory.go:573-584 | finds a row that reserves the key, and none only if there is none |
| MemoryDriver.Driver.InsertOne | driver/memory/memory.go:100-139 | one insert of the machine; reports a skip exactly when the key is taken, and then a row that reserves it |
| MemoryDriver.Driver.JobInsertMany | driver/memory/memory.go:95-141 | the store after the batch is that of the inserts one after another, and each result is right for the store its insert found |
| MemoryDriver.Driver.JobFetchBatch | driver/memory/memory.go:203-263 | one fetch of the store machine; every row returned was waiting and due in that queue and is now claimed; rows come by priority, run time and creation; at most the limit; with fewer than the limit nothing due is left, and what is left comes no earlier |
| MemoryDriver.ChosenIsPrefix | driver/memory/memory.go:227-246 | the claimed prefix of the sorted candidates is the rank-based choice of the machine |
| MemoryDriver.Driver.JobMarkStarted | driver/memory/memory.go:265-275 | one start mark of the machine; accepted exactly for the current token |
| MemoryDriver.Driver.JobRescueStuck | driver/memory/memory.go:277-297 | one rescue of the machine; returns the number of expired claims |
| MemoryDriver.Driver.JobHeartbeat | driver/memory/memory.go:299-312 | one heartbeat of the machine; accepted exactly for the current token |
| MemoryDriver.Driver.JobSetStateIfRunning | driver/memory/memory.go:314-355 | one state write of the machine; stale exactly when the job is not running under the expected claim |
| MemoryDriver.Driver.JobCancel | driver/memory/memory.go:357-371 | one cancellation of the machine, with its not-found and conflict cases |
| MemoryDriver.Driver.JobDelete | driver/memory/memory.go:373-381 | removes exactly the named row |
| MemoryDriver.Driver.JobReschedule | driver/memory/memory.go:383-393 | one reschedule of the machine, without a state check |
| MemoryDriver.Driver.JobList | driver/memory/memory.go:154-188 | a page is the newest rows that match queue, state and kind and are older than the cursor, newest first; all of them if they fit into 100 or a limit of up to 1000 |
| MemoryDriver.Driver.QueuePause | driver/memory/memory.go:406-412 | one pause of the machine, after which a fetch from the queue claims nothing |
| MemoryDriver.Driver.QueueResume | driver/memory/memory.go:414-420 | one resume of the machine, after which the queue is polled again |
| Pagination.CursorRoundTripIff | driver/pagination.go:23-41 | a row's cursor decodes to its own position if and only if the instant fits and is not the Unix epoch and the ID is set |
| Pagination.FollowsIsListOrder | driver/pagination.go:43-45 | following a cursor is the list order |
| Maintenance.NextFrontier | maintenance.go:89-112 | what the next cursor selects is exactly what the page left over |
| Maintenance.DeletePage | maintenance.go:97-107 | deletes exactly the expired rows of a page and counts them |
| Maintenance.PruneState | maintenance.go:87-112 | for any store size, although rows are deleted between pages, a pass removes exactly the expired rows of the state and scans each of its rows once |
| Maintenance.PassesCompose | maintenance.go:76-114 | the passes over the three states add up to the whole policy, in removals and in scans |
| Maintenance.Prune | maintenance.go:63-115 | rejects negative durations; without an error removes exactly the finished jobs that have outlived the retention of their state, leaves every other row unchanged and counts deletions and scans exactly |
| Maintenance.RetainedIff | maintenance.go:76-106 | a job is removed if and only if it is completed, discarded or cancelled, that state has a positive retention, and it was finalised at least that long ago |
| Maintenance.LongerRetentionKeepsMore | maintenance.go:63-115 | a longer retention never removes more |
| Maintenance.ExpiringIdsIff | maintenance.go:97-101 | on a page exactly the rows finalised on or before the cutoff are marked for deletion |
| Cron.ScanFinds | cron.go:258-286 | the scan finds successive occurrences up to now, none in the future, and all of them when it is complete |
| Cron.ScanDue | cron.go:258-286 | the scanning loop computes that scan |
| CronTick.ScanFindsDue | cron.go:256-271 | a scan finds exactly the occurrences that are due, up to its bounds |
| CronTick.LatestOnlyTick | cron.go:281-286 | after any run, a tick carried out under latest-only takes the cursor to the last due occurrence, whose successor is in the future, and enqueues that one alone |
| CronTick.SkipMissedTick | cron.go:287-292 | under skip-missed the cursor moves likewise, and the occurrence is enqueued if and only if it is at most one tick interval old |
| CronTick.CatchUpAllTick | cron.go:293-304 | under catch-up-all a tick carried out enqueues every due occurrence up to its bound and takes the cursor to the last |
| CronTick.BacklogTick | cron.go:272-275 | a backlog too long for one scan moves nothing under the other two policies |
| Cron.NothingIsMissed | cron.go:241-339 | in every interleaving of schedulers with crashes between any two steps, the cursor is an iterate of Next from StartAt and, under catch-up-all, the key of every occurrence up to it has been stored |
| Cron.EveryOccurrenceHadItsRow | cron.go:241-339 | under catch-up-all, at some moment of the run every occurrence up to the cursor had a row with this job's kind, queue, priority, retry limit and pipeline, unless somebody else inserts under its keys |
| Cron.CursorNeverMovesBack | cron.go:330-339 | no step of any run moves the cursor to an earlier occurrence |
| Cron.NothingIsDoubled | cron.go:314-328 | in every run no occurrence has two rows |
| Cron.ExactlyOneRowPerOccurrence | cron.go:241-339 | under catch-up-all and without deletions every occurrence up to the cursor has one row and only one, and it is this job's unless somebody else inserts under its keys |
| CronPair.UnsharedKeysKeepRows | cron.go:241-339 | in every run of two periodic jobs that share no occurrence key, every occurrence a cursor has passed has a row of its own job and of its own |
| CronPair.SharedKeyServesBoth | cron.go:288-304 | when two jobs share an occurrence key, some run of them takes the cursor of one past an occurrence whose only row is the other's |
| CronPair.EachHasItsRowIff | cron.go:241-339 | over all runs of two jobs every passed occurrence has a row of its own if and only if no occurrence of one has the key of an occurrence of the other |
| CronKeys.CallerKeysEqualIff | cron.go:314-322 | two occurrences have the same key text if and only if they are at the same instant and the names of group and job run together to the same string |
| CronKeys.SchedulerKeysAreValid | cron.go:314-322 | the keys the scheduler builds for one job are permanent and differ between occurrences, which is what the theorems on runs ask |
| CronKeys.ShareKeyIff | cron.go:314-322 | an occurrence of one job has the key of an occurrence of the other if and only if they are of one kind, their names run together and their schedules coincide at some instant |
| CronKeys.JobsKeepTheirRowsIff | cron.go:241-339 | over all runs of two jobs every passed occurrence has a row of its own if and only if not all three hold |
| CronKeys.CollisionFreeDigestExists | client.go:382-392 | what is assumed of the digest of kind and text can be met |
| CronKeys.CursorTextsDiffer | cron.go:341-344 | jobs whose names run together still have cursors of their own |
| CronKeys.PlainGroupsDiffer | cron.go:314-322 | groups without a colon in their names never run together |
| CronKeys.NamesRunTogether | cron.go:314-322 | moving part of a job's name into its group's gives the same key at every instant |
| CronKeys.SharedKeySkipsOccurrence | driver/memory/memory.go:95-107 | the second of two occurrences with one key stores nothing |
| PoolMachine.PlanForIsValid | worker.go:819-850 | the resources of a job are taken in one global order: key rules by index, rate gate, kind, capacity |
| PoolMachine.SlotTextInjective | worker.go:1319-1321 | different slots have different map keys when queue names contain no NUL |
| PoolSemaphores.OneEntryPerKey | worker.go:921-960 | in every run all references to a key point at the one entry in the map, which exists exactly while somebody refers to it and counts them |
| PoolSemaphores.LimitHolds | worker.go:1301-1358 | in every run at most `limit` jobs hold a key slot, and likewise a rate gate, a kind and the pool's capacity |
| PoolSemaphores.ReleaseNeverBlocks | worker.go:951-952 | giving a token back never waits |
| PoolHandlers.PlanForCovers | worker.go:819-850 | a job's plan names a slot for every key rule, its rate gate and kind semaphore, and pool capacity |
| PoolHandlers.HandlerHoldsItsPlan | worker.go:819-857 | in every run a job in its handler holds everything its plan names but the rate gate |
| PoolHandlers.HandlersWithinLimit | worker.go:819-857 | in every run no more handlers are at work on a key, of a kind or in the pool than the limit allows |
| PoolHandlers.FinishedWasHandled | worker.go:786-884 | in every run that does not make it give up, a job that has finished has been in its handler |
| PoolPipeline.TailIsLastUnfinished | worker.go:1251-1268 | the tail map holds an entry exactly while the last claimed job of a pipeline is unfinished, and it is that job's |
| PoolPipeline.OneAtATimeInClaimOrder | worker.go:791-811 | in every run in which no waiter gives up at a closed gate, jobs of a pipeline run one at a time and in claim order |
| PoolPipeline.AbandonedGateLetsSuccessorPass | worker.go:798-811 | whenever a waiter gives up at a closed gate, its successor, or a new one, can be admitted while the job in front has not ended |
| PoolPipeline.GivingUpKeepsOrderIff | worker.go:791-811 | after a run that respected its gates, a waiter's giving up keeps the order in every continuation if and only if its gate was open |
| PoolProgress.HolderWaitsHigher | worker.go:819-850 | in a stuck state, behind a full semaphore stands a job waiting for a resource of higher rank |
| PoolProgress.NoDeadlock | worker.go:786-857 | in every reachable state with an unfinished job some job can step, is in its handler or waits only for time |
| PoolProgress.ProceedDecreases | worker.go:786-857 | every enabled step brings its job strictly closer to its end |
| PoolProgress.PoolDrains | worker.go:786-857 | from every reachable state some run of enabled steps finishes every job, abandoning none |
| Dispatch.BuildSchedule | worker.go:422-435 | the schedule lists each queue as often as it is configured times its weight, where a weight that is not positive counts as one |
| Dispatch.RoundPollsEachWeight | worker.go:748-750 | any round of consecutive draws, wherever it starts, polls each queue exactly its weight |
| Dispatch.RoundsShareByWeight | worker.go:748-750 | over any number of rounds the shares of the queues are exactly their weights |
| Dispatch.EveryQueueMissed | worker.go:747-771 | when the loop ends with free slots, every queue was polled its weight since the last claim and had nothing to claim |
| Dispatch.ClaimsExactly | worker.go:751-771 | a poll claims exactly when the store hands out a job and the queue is not at a positive limit of active jobs |
| Dispatch.WorkerPool.QueueCanClaim | worker.go:887-900 | refuses exactly a limited queue at its concurrency and changes no count |
| Dispatch.WorkerPool.QueueClaimed | worker.go:902-911 | counts one more active job of the queue and no other |
| Dispatch.WorkerPool.QueueDone | worker.go:913-919 | counts one active job less, never below zero |
| Dispatch.WorkerPool.Start | worker.go:770-792 | the send to the pending channel finds room, no queue exceeds its concurrency and the counts stay exact |
| Dispatch.WorkerPool.Finish | worker.go:794-797 | the guard against negative counts never loses a decrement and a slot is freed once |
| Dispatch.WorkerPool.FetchAndDispatch | worker.go:733-797 | for all store answers and completions: polls are consecutive draws with the right outcomes, the loop stops exactly when its room is used up or a round has missed, within one round per claim and one more, and all counts stay exact |
| RedisIndexes.IndexesAgree | driver/redis/executor.go:145-286 | in every run with worker writes and no reschedule of a running job, a ready job is in exactly one sorted set under the right score, a running one in the running hash only, a finished one in none |
| RedisIndexes.SetStateKeepsIff | driver/redis/executor.go:634-720 | a state write keeps that agreement if and only if it is refused or is a yield, a retry or a final state |
| RedisIndexes.RescheduleKeepsIff | driver/redis/executor.go:779-801 | a reschedule keeps that agreement if and only if the job is not running |
| RedisOrder.ReschedulingRunningJobBreaks | driver/redis/executor.go:779-801 | insert, fetch and reschedule is a run that breaks it, for every job that is due |
| RedisIndexes.ApplyKeeps | driver/redis/executor.go:145-286 | a step keeps that agreement if and only if it is none of the two exceptions |
| RedisIndexes.RescueFollowsLease | driver/redis/executor.go:225-256 | the running hash decides a rescue exactly as the deadline in the document would, which is the memory store's lease rule but for its exception at the zero instant |
| RedisKeys.AgreementIsExclusive | driver/redis/executor.go:145-153 | when reservations agree with documents, a key is reserved exactly when the memory store would call it taken, by one job at most |
| RedisKeys.ReservationsAgree | driver/redis/executor.go:145-169 | in every allowed run that deletes no job whose key was retaken and revives no finished job with an ordinary key, reservations and documents agree |
| RedisKeys.DeleteKeepsKeysIff | driver/redis/executor.go:754-777 | a delete keeps that agreement if and only if no other job has taken the key |
| RedisKeys.RescheduleKeepsKeysIff | driver/redis/executor.go:779-801 | a reschedule keeps that agreement if and only if the job is not a finished one with an ordinary key |
| RedisKeys.RevivingCancelledJobBreaks | driver/redis/executor.go:779-801 | insert, cancel and reschedule is a run that breaks it, for every ordinary key |
| RedisKeys.FreedKeyAdmitsDuplicate | driver/redis/executor.go:754-777 | after a delete that frees another job's key, the next insert stores a second job that reserves the key |
| RedisKeys.CancelledJobsKeyIsRetaken | driver/redis/executor.go:722-752 | cancelling a job and inserting another under its key reaches such a state |
| RedisOrder.ScoresFaithfulIff | driver/redis/executor.go:40-42 | the packed score orders jobs by priority and run time if and only if run times span less than 10^12 ms |
| RedisOrder.KeysRefineClaimOrder | driver/memory/memory.go:227-238 | those two keys are the first two of the memory store's claim order |
| RedisOrder.FetchClaimsIff | driver/redis/executor.go:171-223 | a fetch claims a job if and only if one is available or due, however many are due |
| RedisOrder.PoppedHasLeastScore | driver/redis/executor.go:171-223 | the claimed job has the least score of all entries available after promotion |
| RedisOrder.ClaimOrder | driver/redis/executor.go:171-223 | with at most 1024 due entries within the span, no candidate precedes the claimed job by priority and run time |
| RedisOrder.FetchStoresClaim | driver/redis/executor.go:197-223 | the fetch stores the claimed document and its running entry and changes no other document |
| RedisDue.FetchIsNeverEarly | driver/redis/executor.go:171-223 | in every allowed run whose clock does not go back, a fetch claims only a ready job of its queue whose run time has come |
| RedisStore.MillisecondsAreRight | driver/redis/executor.go:474-475 | a millisecond count names the millisecond of the instant since 1970, and a duration keeps its whole milliseconds |
| RedisFencing.ApplyMoves | driver/redis/executor.go:145-286 | every step moves each document it keeps by one row transition in milliseconds, drops only the deleted and adds only the inserted one |
| RedisFencing.EndedClaimsStayFenced | driver/redis/executor.go:258-286 | once a claim ends other than by a yield, no later state of any run accepts its token, whatever becomes of the indexes, while identifiers are not used twice |
| RedisFencing.YieldedTokenReturns | driver/redis/executor.go:655-662 | after a yield, from every state with right indexes, some continuation hands the same token out again |
| RedisFencing.FencedForEverIffNotYield | driver/redis/executor.go:634-720 | the token of an ended claim is refused for ever if and only if the claim did not end in a yield |
| RedisRefinement.InsertRefines | driver/redis/executor.go:447-488 | a new document is the memory store's new row in milliseconds |
| RedisRefinement.ClaimRefinesIff | driver/redis/executor.go:201-218 | a claim changes the document as the memory store's claim changes the row if and only if the lease is not positive, or at least a millisecond long without a carry from the fractions |
| RedisRefinement.ReleaseRefines | driver/redis/executor.go:243-247 | a rescue does too, and clears the start mark besides |
| RedisRefinement.WriteRefines | driver/redis/executor.go:652-688 | a yield, a dated retry and a final state leave the document that the memory store's row gives in milliseconds |
| RedisRefinement.UndatedRetryDiffers | driver/redis/executor.go:672-679 | a retry without an instant is available at once here and rests in the retryable state in the memory store |
| RedisSimulation.RunSimulates | driver/redis/executor.go:145-286 | over every allowed run with dated retries and leases that do not carry, the documents are the rows that the memory store's transitions give, in milliseconds, but for the start mark |
| RedisServer.RangeByScore | driver/redis/executor.go:178-179 | returns exactly the due entries with fewer than `limit` predecessors |
| RedisServer.LeastMember | driver/redis/executor.go:197-199 | finds the least member of the queue's set, and none only if it is empty |
| RedisServer.Server.InsertJob | driver/redis/executor.go:145-162 | one insert step; refused exactly when the key is reserved |
| RedisServer.Server.PromoteDue | driver/redis/executor.go:178-194 | the loop promotes exactly the first 1024 due entries that have a document |
| RedisServer.Server.FetchOne | driver/redis/executor.go:171-223 | one fetch step; returns the claimed document |
| RedisServer.Server.RescueOne | driver/redis/executor.go:225-256 | one rescue step; reports whether a document changed |
| RedisServer.Server.RenewLease | driver/redis/executor.go:258-272 | one heartbeat step; accepted exactly for the current token |
| RedisServer.Server.SetStateIfRunning | driver/redis/executor.go:634-720 | one state-write step; accepted exactly for a running job under the expected claim |
| RedisServer.Server.JobCancel | driver/redis/executor.go:722-752 | one cancel step, with its refusals |
| RedisServer.Server.JobDelete | driver/redis/executor.go:754-777 | one delete step |
| RedisServer.Server.JobReschedule | driver/redis/executor.go:779-801 | one reschedule step |

## Left out

- The SQL, MongoDB, Cassandra, ClickHouse, DynamoDB and Firestore executors and the gorm and bun adapters: they rest on query engines outside the repository.
- The admin HTTP handler, dashboard, OpenTelemetry, observers, benchmarks, migrations, listeners, middleware, panic traces and context plumbing.
- Real clocks, timers and I/O errors: instants and answers are parameters, and a failed call is a caller that gives up.
- Cron expression parsing: the schedule is any function; a step that does not move forward is the code's own stall case.
- The legacy cron path without durable cursors (cron.go:210-239), leader leases (driver/memory/memory.go:452-471) and queue listing: they add easy members, and the cron theorems do not rely on the lease.
- Dead-letter listing and bulk operations (maintenance.go:118-217): loops over the operations modelled here.
- Changing a queue policy during a run and distributed pipelines (worker.go:472-515, 1187-1249): one pool with a fixed policy.
- JSON, base64 and SHA-256: a cursor is its payload; a digest is any function whose results contain no colon, and theorems that need it ask for no collision on the texts at hand.
- PoolSemaphores.OneEntryPerKey: a slot stands for its map key, which queue names with a NUL character could confuse.
- Job arguments, timeouts, tags and traces of a row, which no modelled operation inspects except for the key value of a rate rule.
- Backoff.RetryDelay: does not model the jitter added after the delay (core/retry.go:57-83), a floating-point detail.
- SharedRateLimit.ToleranceIsExact: the floating-point form of the interval is modelled as integer division clamped to at least one, which agrees for periods under 2^53 ns.
- LocalRateLimit.Limiter.Reserve: a missing rule state reads as a fresh one, so creating it without charging it is no change.
- Maintenance.Prune: reads the clock once, where the code reads it for each state, and assumes creation instants that fit a Unix nanosecond count, outside of which Go leaves the encoding undefined.
- MemoryDriver.Driver.JobFetchBatch: returns row values; aliasing of the pointers behind returned rows is not captured.
- Dispatch.WorkerPool.FetchAndDispatch: the cursor is unbounded, so its wrap-around after 2^63 draws is not modelled; a claimed row belongs to the queue it was fetched from.
- RedisIndexes.IndexesAgree: cancel, delete and reschedule run uninterrupted, as the code does not make them atomic; a failed optimistic transaction is no step; identifiers are not reused; numbers are exact, where the scripts keep 14 digits and scores are doubles.
- RedisSimulation.RunSimulates: the choice of the job in a fetch and the verdict on a deadline are taken from Redis, which rounds to milliseconds.
- RedisOrder.ClaimOrder: one fetch at a time; a batch is that many fetches in a row.
