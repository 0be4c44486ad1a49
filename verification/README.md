# Protocols and algorithms of the handbook labs, verified

This project models the stateful and arithmetic core of an engineering
handbook's repository and proves what that code promises, over every input,
every run and every interleaving:

- the **durable task engine**: a lease and fencing protocol with idempotent
  submission, crash reclaim, checkpoints, retry and dead-letter, and the
  workers that run on it;
- **numerical algorithms**: golden-section search, least squares, largest
  remainder, the apportioning of source text to seconds, and the one-pass
  escalation threshold;
- **failover triggers** and the simulator that measures them;
- the **WAV container** reader and joiner;
- **concurrent protocols**: the dynamic batcher, the approval queue with the
  tool gateway, and three token-bucket rate limiters;
- **loops with an argument behind them**: readable excerpt ids, bounded
  link-following and the token budget.

## How it is built

One module per source file or protocol. Code that changes objects step by step
is a class whose methods change fields in place, or a method with the source's
loop; each is tied by its `ensures` to a specification over immutable values.
What the source promises is then proved of those specifications.

| files | models |
|---|---|
| `TaskProtocol`, `TaskLease`, `TaskRecords`, `TaskTiming`, `TaskFairness`, `TaskRuns`, `TaskHistory` | the store as one function per operation; the contract of `lease`; what explains every field of a record; when leases end and records come due; who waits for whom; invariants and fencing over runs; whole histories |
| `TaskStore`, `TaskWorker`, `WorkerReports` | the store object and its records; workers as a state machine and as objects; what they do and report |
| `GoldenSection`, `SynthesisCost`, `LargestRemainder`, `Apportion`, `PlanMeaning`, `Threshold` | the numerical algorithms, and what an apportioned plan says |
| `Triggers`, `Scenario`, `Simulate`, `WindowRuns`, `WindowsAndCounts` | triggers, simulated regions, the run of one over the other, the window trigger over whole runs, and windows against counts |
| `Wav`, `WavJoin`, `WavBytes` | the container, what joining guarantees, and both down to the bytes |
| `Batcher`, `DynamicBatcher` | the batching protocol, and its object with the futures |
| `TokenBucket`, `SkewedClocks`, `RateLimiters` | one bucket and its runs, a shared bucket under clocks that disagree, and the three limiters |
| `ToolGateway`, `GatewayOutcomes`, `GatewayLimits`, `GatewayObjects` | calls, approvals and audit as a state machine, how each call ends, the rate limit over its runs, and the objects |
| `SourcePack`, `ExcerptIds` | link-following with its budget, and excerpt ids |
| `Prelude`, `Sorting` | optional values, sums, and a stable sort |

`dafny verify dfyconfig.toml` checks everything.

A coroutine that holds a lock never suspends inside it in any of these files,
so every stretch of code between two suspension points is one step, and a run
is any sequence of steps. Clock readings, random draws, fresh ids and tokens,
and the answers of foreign code are inputs of a step. Floats are reals.

## Where the code and its documentation differ

The models follow the code. For each difference there is a lemma that exhibits
it and one that says what does hold.

- `store.py` lines 20-24 promise that stale acks, fails and checkpoints from an
  expired lease are rejected. `_require_leased` does not look at the time, so a
  lease past `leased_until` stays good until some `lease` on its queue reclaims
  it (`TaskRuns.LateAckIsAccepted`, `TaskRuns.HeldUntilReleased`,
  `TaskRuns.LeaseEndsOnlyByRelease`).
- `approval.py` refuses a second decision, yet a decided status is not final: the
  deadline can still strike between a decision and the moment the call resumes,
  and then overwrites the status with EXPIRED (`ToolGateway.ApprovedThenExpired`,
  `ToolGateway.DecidedChangesOnlyByTimeout`).
- `batcher.py` line 77 says that every waiter must hear about a failure. A
  handler that returns too few outputs leaves the rest of its batch waiting for
  good, because the length check of `zip` raises after the others were settled
  (`Batcher.ShortRun`, `Batcher.ShortOutputStrands`). `Batcher.UnansweredIff`
  says exactly who is left without an answer.
- `distributed_rate_limit.py` line 51 calls the bucket cross-replica, but a
  reading that goes back is stored, and the way forward again accrues once more
  (`SkewedClocks.SkewedClocksGrantMore`). Capacity plus rate times elapsed holds
  for every run at given readings exactly when the steps between them win back no
  more than accrues from the first to the last (`SkewedClocks.BoundHoldsIff`).
  For callers that ask for whole tokens it holds exactly when the count of a
  greedy caller keeps it (`SkewedClocks.WholeBoundHoldsIff`).
- `labs/region-failover-budget/README.md` lines 26-27 equates a window of W
  seconds with W / interval + 1 consecutive failures. A missing probe tells them
  apart (`WindowsAndCounts.MissingProbeTellsApart`), and so does a first probe
  that fails (`WindowsAndCounts.FailureFirst`). After a healthy first probe the
  two report the same for all runs with given arrivals exactly when silence
  counts, one failure is enough, the probes are too few, none is missing, or none
  but the first arrives (`WindowsAndCounts.AgreeIff`).

## Assumptions

- Ids and lease tokens, once drawn, are not drawn again (`TaskRuns.Fresh`). The
  clock of the task store may read anything at any step.
- `GoldenSection.FitIsNear` is for objectives that over log-temperature in [-3, 3]
  never rise before one minimiser and strictly rise after it. The code does not
  ensure that: records with 0.1 against 0.9 and 0.6 against 0.4 on their labels
  give an objective that first rises, where the clamp flattens the first of them,
  and then falls. `GoldenSection.FitIsNearBestSeen` needs no such hypothesis.
  `ratio` is the positive root of r*r + r = 1.
- In `GatewayLimits` each tool is registered with one rate, and the monotonic
  clock does not go back.
- Plan weights, the requested seconds, the expansion factor and the characters
  per second are positive, as the plan schema and the budget check establish.
- Documents are filed under their own ids, as the loader files them.
- The schema, scope and registry answers of a tool call, heading slugs, the
  resolution of links to ids and the characters that `strip` removes are
  arbitrary functions or inputs.

## Model

| member | source | states |
|---|---|---|
| `TaskLease.LeaseMeetsSpec` | labs/durable-agent-task-engine/src/task_queue/store.py:56-107 | `lease` meets a declarative contract from every consistent store: after re-dating expired leases of the queue to now, it grants the first due task with attempts left, in order of `available_at` then submission; it dead-letters exactly the exhausted due tasks ordered before that one (all of them if there is none); it answers none exactly when every due task is exhausted; every other task is unchanged |
| `TaskLease.LeaseSpecDetermines` | labs/durable-agent-task-engine/src/task_queue/store.py:56-89 | that contract leaves no freedom: it fixes the winner, the answer and every task record |
| `TaskLease.CandidatesShape` | labs/durable-agent-task-engine/src/task_queue/store.py:61-68 | the sorted candidates are exactly the due pending tasks of the queue, each once, in the stable order the contract speaks of |
| `TaskLease.ScanShape` | labs/durable-agent-task-engine/src/task_queue/store.py:69-89 | the scan changes the tasks it passes over and the one it delivers, and no other |
| `TaskRecords.LeaseInOneSentence` | labs/durable-agent-task-engine/src/task_queue/store.py:56-107 | a `lease` over the snapshot it is called on, field by field: it delivers exactly the first record that is due with attempts left, of its own queue and counting run-out leases as due from now; dead-letters exactly the due ones with none left that are not behind it; and puts the other run-out leases back to PENDING |
| `TaskRecords.RecordLaw` | labs/durable-agent-task-engine/src/task_queue/store.py:26-180 | why each field of a record has the value it has after any operation: status, attempts, `available_at`, token, expiry, error, checkpoint and time stamp, in terms of what the operation was and found |
| `TaskRecords.AnswerLaw` | labs/durable-agent-task-engine/src/task_queue/store.py:109-188 | the answer of every operation that names a record: not found, lease expired, wrong status, or done with the record as it then is; a refusal changes nothing |
| `TaskRuns.StepKeepsInv` | labs/durable-agent-task-engine/src/task_queue/store.py:26-188 | every operation keeps the invariant: LEASED exactly when a token is set and exactly when an expiry is set, attempts within the limit while leased, no token on two tasks, and the idempotency index and the tasks agree both ways |
| `TaskRuns.TaskPersists` | labs/durable-agent-task-engine/src/task_queue/store.py:45-54 | a task is never removed and keeps its id, queue, key, payload, limit and creation time |
| `TaskRuns.Fencing` | labs/durable-agent-task-engine/src/task_queue/store.py:109-150 | once a granted token has been dropped by reclaim, ack or fail, every later heartbeat, checkpoint, ack or fail that presents it, for any task, is refused and leaves the whole store unchanged |
| `TaskRuns.TokenNamesOneTask` | labs/durable-agent-task-engine/src/task_queue/store.py:182-188 | a live token presented for another task is refused and changes nothing |
| `TaskRuns.NewLeaseExcludesOld` | labs/durable-agent-task-engine/src/task_queue/store.py:56-89 | a second lease of one task kills the first one's token for good, so only the newest holder can change the record |
| `TaskRuns.HeldUntilReleased` | labs/durable-agent-task-engine/src/task_queue/store.py:182-188 | exact condition for losing a lease in one step: a settlement with its token, or a `lease` on its queue whose clock is at or past `leased_until` |
| `TaskRuns.LeaseEndsOnlyByRelease` | labs/durable-agent-task-engine/src/task_queue/store.py:91-107 | over a run a granted token is live exactly as long as no such step happened; the clock alone ends nothing |
| `TaskRuns.LateAckIsAccepted` | labs/durable-agent-task-engine/src/task_queue/store.py:121-128 | a concrete run in which an ack nine seconds after `leased_until` is accepted, against the class documentation's "stale acks are rejected" |
| `TaskHistory.BoundedDelivery` | labs/durable-agent-task-engine/src/task_queue/store.py:69-88 | between resets of its counter a task is handed out with strictly increasing attempt numbers above the counter's old value and at most `max_attempts`, hence at most `max_attempts` less the attempts already spent times |
| `TaskHistory.SucceededIsFinal` | labs/durable-agent-task-engine/src/task_queue/store.py:121-128 | SUCCEEDED is absorbing: the record never changes again |
| `TaskHistory.SingleCompletion` | labs/durable-agent-task-engine/src/task_queue/store.py:121-128 | at most one ack of a task is ever accepted and no delivery follows it |
| `TaskHistory.SucceededIffAcked` | labs/durable-agent-task-engine/src/task_queue/store.py:121-128 | a task is SUCCEEDED exactly when one of its acks was accepted |
| `TaskHistory.CheckpointIsMerge` | labs/durable-agent-task-engine/src/task_queue/store.py:115-119 | the checkpoint of a task is the left-to-right merge of every accepted write since submission, across reclaims, retries and requeues |
| `TaskHistory.DeliveryResumes` | labs/durable-agent-task-engine/src/task_queue/store.py:81-88 | the checkpoint carried by any delivery is that merge |
| `TaskHistory.SubmissionIsIdempotent` | labs/durable-agent-task-engine/src/task_queue/store.py:31-54 | two submissions of a run get the same task exactly when queue and key agree; the second keeps the first payload and limit and changes nothing |
| `TaskRecords.ComesFromSubmit` | labs/durable-agent-task-engine/src/task_queue/store.py:45-54 | a record carries the queue, key, payload, attempt limit and creation time of the `submit` that drew its id |
| `TaskRecords.DeliversWhatWasSubmitted` | labs/durable-agent-task-engine/src/task_queue/store.py:77-88 | every delivery hands out that queue and payload, with an attempt number within that limit and the token drawn for it |
| `TaskRecords.ResumesFromLastWrite` | labs/durable-agent-task-engine/src/task_queue/store.py:115-119 | and, key by key, the value of the last accepted checkpoint write of that key, whoever made it |
| `TaskRecords.DeadLetterIff` | labs/durable-agent-task-engine/src/task_queue/store.py:69-75 | a task is DEAD_LETTER exactly when a `lease` that found it due with no attempt left, or an accepted fail of its last attempt, came after its last accepted requeue; while it is, it is never delivered |
| `TaskTiming.LeaseEndsAt` | labs/durable-agent-task-engine/src/task_queue/store.py:91-107 | a `lease` call ends a live lease exactly when it serves the same queue and its clock has reached the expiry |
| `TaskTiming.GrantProtects` | labs/durable-agent-task-engine/src/task_queue/store.py:77-80 | a delivery protects its holder for `lease_seconds` from when it is made |
| `TaskTiming.HeartbeatProtects` | labs/durable-agent-task-engine/src/task_queue/store.py:109-113 | an accepted heartbeat protects its holder for `lease_seconds` from then |
| `TaskTiming.GrantedIsDeliverable` | labs/durable-agent-task-engine/src/task_queue/store.py:56-89 | `lease` grants only what is due on its queue with attempts left |
| `TaskTiming.DeliverableIsServed` | labs/durable-agent-task-engine/src/task_queue/store.py:56-89 | and grants something whenever anything is |
| `TaskTiming.RetryWaits` | labs/durable-agent-task-engine/src/task_queue/store.py:130-150 | right after an accepted fail the record is deliverable exactly on its queue, from its retry time on, and only with attempts left |
| `TaskTiming.FirstGrantIsDue` | labs/durable-agent-task-engine/src/task_queue/store.py:56-89 | over a run, whatever happens in between, the first delivery of a pending record with attempts left is made on its queue by a clock at or past its `available_at` |
| `TaskTiming.RetryIsDelayed` | labs/durable-agent-task-engine/src/task_queue/store.py:130-150 | over a run, the next delivery after an accepted fail that leaves attempts is made by a clock at or past the fail's time plus its delay |
| `TaskTiming.RequeueIsDueAtOnce` | labs/durable-agent-task-engine/src/task_queue/store.py:167-180 | a requeued dead letter is due at once, and deliverable exactly if its attempts were reset or not used up |
| `TaskTiming.CrashIsReclaimed` | labs/durable-agent-task-engine/src/task_queue/store.py:91-107 | a crashed holder's record is deliverable by the very `lease` call that reclaims it, from the expiry on and not before |
| `TaskTiming.SubmissionIsDueAtOnce` | labs/durable-agent-task-engine/src/task_queue/store.py:45-54 | a new submission is due at once |
| `TaskFairness.WaitsItsTurn` | labs/durable-agent-task-engine/src/task_queue/store.py:56-89 | over a run, once the clock has passed the `available_at` of a pending task with attempts left, nobody gets ahead of it: until its delivery every `lease` call on its queue delivers a task that was ahead of it at the start, and fewer remain each time |
| `TaskFairness.OvertakenOnceEach` | labs/durable-agent-task-engine/src/task_queue/store.py:56-89 | and no two of those calls deliver the same task |
| `TaskFairness.ServedInTurn` | labs/durable-agent-task-engine/src/task_queue/store.py:56-89 | so no task starves: it is delivered by one of the next `lease` calls on its queue, after at most as many others as there are tasks ahead of it now |
| `TaskFairness.TiesGoByInsertion` | labs/durable-agent-task-engine/src/task_queue/store.py:61-68 | at one clock reading that fails: with nobody ahead of a due task, a task submitted before it, reclaimed by the same call, is delivered first |
| `TaskStore.InMemoryTaskStore.Submit` | labs/durable-agent-task-engine/src/task_queue/store.py:31-54 | the object's snapshot moves exactly as the submit step; a repeated key returns the stored object |
| `TaskStore.InMemoryTaskStore.ReclaimExpired` | labs/durable-agent-task-engine/src/task_queue/store.py:91-107 | the reclaim loop, in place, equals reclaiming every task at once |
| `TaskStore.InMemoryTaskStore.Deliver` | labs/durable-agent-task-engine/src/task_queue/store.py:69-89 | the delivery loop over the sorted candidates equals the scan |
| `TaskStore.InMemoryTaskStore.Lease` | labs/durable-agent-task-engine/src/task_queue/store.py:56-89 | the whole of `lease`, in place, equals the lease step that the declarative contract is proved of |
| `TaskStore.InMemoryTaskStore.RequireLeased` | labs/durable-agent-task-engine/src/task_queue/store.py:182-188 | answers the object exactly when its status is LEASED and the token matches, else the right error |
| `TaskStore.InMemoryTaskStore.Heartbeat` | labs/durable-agent-task-engine/src/task_queue/store.py:109-113 | in place, equals the heartbeat step, refusals included |
| `TaskStore.InMemoryTaskStore.Checkpoint` | labs/durable-agent-task-engine/src/task_queue/store.py:115-119 | in place, equals the checkpoint step, refusals included |
| `TaskStore.InMemoryTaskStore.Ack` | labs/durable-agent-task-engine/src/task_queue/store.py:121-128 | in place, equals the ack step, refusals included |
| `TaskStore.InMemoryTaskStore.Fail` | labs/durable-agent-task-engine/src/task_queue/store.py:130-150 | in place, equals the fail step: back to PENDING after the delay, or DEAD_LETTER at the attempt limit |
| `TaskStore.InMemoryTaskStore.Get` | labs/durable-agent-task-engine/src/task_queue/store.py:152-157 | the record, or not found |
| `TaskStore.InMemoryTaskStore.ListDeadLetter` | labs/durable-agent-task-engine/src/task_queue/store.py:159-165 | the loop returns exactly the dead-lettered tasks of the queue, all of them, each once, in the order they were submitted, and changes nothing |
| `TaskLease.DeadLettersShape` | labs/durable-agent-task-engine/src/task_queue/store.py:159-165 | the listing step answers just that from every consistent store |
| `TaskStore.InMemoryTaskStore.RequeueDeadLetter` | labs/durable-agent-task-engine/src/task_queue/store.py:167-180 | in place, equals the requeue step; not found and wrong status are errors that change nothing |
| `TaskWorker.NextKeepsInv` | labs/durable-agent-task-engine/src/task_queue/worker.py:95-172 | every move of every worker and client keeps the system invariant: permits accounted for, every lease in flight granted by the store, every success recorded in the store, no two successes for one task |
| `TaskWorker.AtMostOneSuccess` | labs/durable-agent-task-engine/src/task_queue/worker.py:127-136 | under any interleaving of any number of workers and clients at most one "succeeded" result is ever emitted per task, and then the store has it SUCCEEDED |
| `TaskWorker.ConcurrencyBounded` | labs/durable-agent-task-engine/src/task_queue/worker.py:85-113 | a worker never runs more handlers than its concurrency |
| `TaskWorker.SettlementAnswer` | labs/durable-agent-task-engine/src/task_queue/worker.py:127-153 | a settlement is answered with the record or with a lost lease, never with an unknown id; the failure report says dead-letter exactly when the attempts are used up |
| `WorkerReports.MoveActs` | labs/durable-agent-task-engine/src/task_queue/worker.py:95-125 | which store operation each move of a worker performs and what becomes of its leases and permits: a poll takes what the store grants, a returned handler acks its own lease, a raised one fails it with its own error and delay |
| `WorkerReports.ResultsAreSettlements` | labs/durable-agent-task-engine/src/task_queue/worker.py:127-159 | in every schedule a worker's results are exactly its accepted settlements, in order: a success for each return and a retry or dead-letter report for each failure whose lease the store still knew, and nothing else |
| `WorkerReports.SuccessIffAcked` | labs/durable-agent-task-engine/src/task_queue/worker.py:127-136 | a "succeeded" result for a task exists if and only if some worker's ack of it was accepted |
| `WorkerReports.WorkerCanGoOn` | labs/durable-agent-task-engine/src/task_queue/worker.py:95-125 | what can happen next: exactly when a worker can poll, a handler end, a permit be released and a shutdown be asked for |
| `TaskWorker.NoLeaseAfterStop` | labs/durable-agent-task-engine/src/task_queue/worker.py:95-100 | once shutdown was requested a worker takes no new lease; its running handlers can only finish |
| `TaskWorker.Worker.Poll` | labs/durable-agent-task-engine/src/task_queue/worker.py:95-113 | one turn of the run loop against a real store object equals the machine's move |
| `TaskWorker.Worker.OnSuccess` | labs/durable-agent-task-engine/src/task_queue/worker.py:127-136 | ack and report in place equals the machine's move; a lost lease reports nothing |
| `TaskWorker.Worker.OnFailure` | labs/durable-agent-task-engine/src/task_queue/worker.py:138-153 | fail and report in place equals the machine's move; a lost lease reports nothing |
| `TaskWorker.DrainedForGood` | labs/durable-agent-task-engine/src/task_queue/worker.py:95-100 | a worker that is stopping with nothing in flight never performs a store operation again, never changes its results, and has all its permits back |
| `TaskWorker.Worker.OnCancelled` | labs/durable-agent-task-engine/src/task_queue/worker.py:115-125 | a cancelled handler emits nothing, asks the store nothing and gives its permit back |
| `TaskWorker.Worker.Shutdown` | labs/durable-agent-task-engine/src/task_queue/worker.py:162-166 | stops the loop and returns at once exactly when nothing is in flight |
| `TaskWorker.DrainedWhenDone` | labs/durable-agent-task-engine/src/task_queue/worker.py:162-172 | what the wait waits for: once stopping, a worker's processes have a fixed number of moves ahead in every schedule, and it is drained exactly when that many were made |
| `TaskWorker.Worker.ShutdownEnds` | labs/durable-agent-task-engine/src/task_queue/worker.py:167-172 | the end of the wait: true exactly if no process was left; those that were are cancelled, may swallow that and still ack or fail, and are awaited, so either way nothing is in flight and every permit is back |
| `TaskWorker.Worker.Release` | labs/durable-agent-task-engine/src/task_queue/worker.py:124-125 | releasing a permit in place equals the machine's move |
| `GoldenSection.FitTemperature` | labs/decision-tier-calibration/src/decision_tier/metrics.py:114-133 | the loop returns the exponential of the log-temperature that the reductions settle on, and asks the likelihood for 62 temperatures, in the listed order: two to begin with and only the new point of each reduction |
| `GoldenSection.PointsAreInside` | labs/decision-tier-calibration/src/decision_tier/metrics.py:119-132 | every temperature asked for has its logarithm strictly inside the searched range, and each new one inside the bracket it cuts |
| `GoldenSection.FitIsNear` | labs/decision-tier-calibration/src/decision_tier/metrics.py:108-133 | for every objective on [-3, 3] that never rises before its minimiser, flat stretches of the clamp included, and strictly rises after it, that log-temperature is within 3 * ratio^60, below 1e-12, of the minimiser |
| `GoldenSection.FitIsNearBestSeen` | labs/decision-tier-calibration/src/decision_tier/metrics.py:114-133 | for every objective whatever, the log-temperature is within 3 * ratio^60 of an evaluated point that is the best of all 62 |
| `GoldenSection.ShrinkKeepsTight` | labs/decision-tier-calibration/src/decision_tier/metrics.py:124-132 | each step keeps `a` and `b` at the golden points with `fa = f(a)` and `fb = f(b)` although one of them is reused, shrinks the width by exactly the ratio, and keeps the minimiser inside |
| `GoldenSection.PointsReused` | labs/decision-tier-calibration/src/decision_tier/metrics.py:119-132 | cutting at one inner point leaves the other exactly at the opposite golden point of what remains |
| `GoldenSection.MinimiserIsLeast` | labs/decision-tier-calibration/src/decision_tier/metrics.py:114-119 | the point searched for is where the objective is least, and nothing to its right is as low |
| `SynthesisCost.FitIsOptimal` | packages/podcast-providers/src/local.ts:251-269 | for two or more samples not all of one length no (fixed, marginal) pair has a smaller sum of squared residuals over the samples, and no other pair attains it |
| `SynthesisCost.DenominatorSign` | packages/podcast-providers/src/local.ts:262-265 | the denominator is nonnegative, and zero exactly when all audio lengths are equal |
| `SynthesisCost.FitFailsIff` | packages/podcast-providers/src/local.ts:252-265 | each error is raised exactly for fewer than two samples, or for two or more of one length |
| `SynthesisCost.NormalEquations` | packages/podcast-providers/src/local.ts:267-268 | at the fit the plain and the audio-weighted residuals sum to zero |
| `SynthesisCost.ExactDataIsRecovered` | packages/podcast-providers/src/local.ts:251-286 | measurements on a line are recovered exactly, so a projection from them is exact |
| `SynthesisCost.ProjectionAddsUp` | packages/podcast-providers/src/local.ts:280-286 | projecting a render cut into calls is projecting each call and adding up, so each call pays the fixed part anew |
| `LargestRemainder.AllocateCharacters` | packages/podcast-engine/src/apportion.ts:33-52 | the in-loop split obeys the law of largest remainder for any weights: shares sum to exactly the characters, each is its quota's floor or one more, every bumped position has a remainder no smaller than any other, ties to the lower index; all zero for no weight or no characters |
| `LargestRemainder.SplitIsUnique` | packages/podcast-engine/src/apportion.ts:19-32 | the law leaves no freedom: characters and weights determine the shares |
| `LargestRemainder.LeftoverBound` | packages/podcast-engine/src/apportion.ts:37-49 | what rounding down leaves over is nonnegative and smaller than the number of positions, so one pass suffices |
| `LargestRemainder.SharesNonnegative` | packages/podcast-engine/src/apportion.ts:33-52 | no share is negative for a nonnegative weight |
| `Apportion.CharactersConserved` | packages/podcast-engine/src/apportion.ts:76-95 | the characters allocated over all beats are exactly the total length of the excerpts cited by at least one beat, however often each is cited |
| `Apportion.OwnMaterialOnly` | packages/podcast-engine/src/apportion.ts:76-95 | a beat receives between zero and the length of the excerpts it cites itself |
| `Apportion.PlanIsBounded` | packages/podcast-engine/src/apportion.ts:97-153 | planned seconds are positive, at most the request and at most what the cited characters support; the stage fails exactly when no cited excerpt has text; a missing shortfall means the request is met up to the tolerance |
| `Apportion.AllocatePassage` | packages/podcast-engine/src/apportion.ts:76-95 | one excerpt's shares are added to the beats that cite it and to no other |
| `Apportion.Apportion` | packages/podcast-engine/src/apportion.ts:54-153 | the imperative stage computes the plan that the bounds are proved of, length mismatch included |
| `PlanMeaning.PassageIsShared` | packages/podcast-engine/src/apportion.ts:76-95 | the characters of one excerpt are split by the law of largest remainder, with their own weights, among exactly the beats that cite it, on top of what they had |
| `PlanMeaning.PlanMeans` | packages/podcast-engine/src/apportion.ts:97-153 | each planned beat keeps its title, intent, weight and its excerpts once each in order of first mention, and gets the smaller of what it wants and what its text supports; a shortfall is null exactly if no beat wants more than that by more than the tolerance, and else names exactly those that do, in draft order; the seconds are the sum of the targets |
| `Triggers.WindowAllUnhealthy.Observe` | labs/region-failover-budget/src/failover_budget/triggers.py:42-56 | the deque object moves exactly as the trigger step |
| `Triggers.WindowAllUnhealthy.Evaluate` | labs/region-failover-budget/src/failover_budget/triggers.py:50-56 | evicting from the front leaves the deque's recent part, and fires exactly when that is non-empty and all unhealthy |
| `Triggers.ConsecutiveFailures.Observe` | labs/region-failover-budget/src/failover_budget/triggers.py:75-81 | the counter object moves exactly as the trigger step |
| `Triggers.DequeIsHistory` | labs/region-failover-budget/src/failover_budget/triggers.py:42-56 | with a clock that never goes back the deque is always the part of the whole recorded history that the latest window holds |
| `Triggers.WindowFiresIff` | labs/region-failover-budget/src/failover_budget/triggers.py:29-56 | it fires exactly when some check recorded since the reset lies in the window and no such check is healthy |
| `Simulate.FireTimes` | labs/region-failover-budget/src/failover_budget/simulate.py:25-38 | the loop over a real trigger object returns the times of exactly the probes that fire |
| `Scenario.ProbeReports` | labs/region-failover-budget/src/failover_budget/scenario.py:54-76 | when a probe arrives and when it is healthy, with the edges of outages and blips: a blip counts from its start on and no longer at its end |
| `Scenario.StepsMeans` | labs/region-failover-budget/src/failover_budget/scenario.py:62-64 | probes are due every interval from 0 on, for as many whole intervals as the duration holds |
| `Simulate.BlipFiresOnce` | labs/region-failover-budget/src/failover_budget/simulate.py:3-10 | between two fires of any trigger some probe was healthy |
| `Simulate.AwakeSince` | labs/region-failover-budget/src/failover_budget/simulate.py:25-38 | an awake trigger remembers exactly the probes since the start or since the healthy probe that woke it |
| `Simulate.WindowWaitsOut` | labs/region-failover-budget/src/failover_budget/simulate.py:25-38 | a window trigger's fire comes strictly more than `window` after every earlier healthy probe |
| `Simulate.ConsecutiveFiresAt` | labs/region-failover-budget/src/failover_budget/simulate.py:25-38 | with n >= 1 a consecutive trigger fires exactly at the n-th counted failure since the last healthy probe |
| `Simulate.OneFirePerStretch` | labs/region-failover-budget/src/failover_budget/simulate.py:25-38 | one fire in each stretch without a healthy probe that holds at least n counted failures, at the n-th of them, and none in any other stretch |
| `Simulate.FireHasStretch` | labs/region-failover-budget/src/failover_budget/simulate.py:25-38 | conversely each fire lies in exactly one maximal such stretch and is the only fire there: fires and qualifying stretches correspond one to one |
| `Simulate.FailoversFall` | labs/region-failover-budget/src/failover_budget/simulate.py:25-38 | for every observation stream the number of failovers never rises as n grows |
| `Simulate.DelayMeaning` | labs/region-failover-budget/src/failover_budget/simulate.py:63-73 | the delay computed from the fires alone is 0 when the simulation stands failed over at the first probe of the outage, and otherwise runs to the next fire, or is missing |
| `Simulate.ConsecutiveDetectsWithin` | labs/region-failover-budget/src/failover_budget/simulate.py:53-73 | with n more probes due once the outage has begun, all counted, the delay is present, nonnegative and below n probe intervals |
| `Simulate.DarkRegionUnseen` | labs/region-failover-budget/src/failover_budget/simulate.py:53-73 | ignoring silence, a consecutive trigger reports a region that goes dark exactly if it was already failed over |
| `WindowRuns.WindowFiresAt` | labs/region-failover-budget/src/failover_budget/simulate.py:25-38 | the window trigger fires exactly at a probe that finds some recorded check in the window and no healthy one, if no earlier probe since the last healthy one did; the resets between do not matter |
| `WindowsAndCounts.WindowIsConsecutive` | labs/region-failover-budget/src/failover_budget/triggers.py:29-81 | on probes `d` apart that arrive or count as failures, after a healthy first one, a window of `W` seconds fires at exactly the times at which floor(W / d) + 1 consecutive failures do |
| `WindowsAndCounts.AgreeIff` | labs/region-failover-budget/src/failover_budget/triggers.py:29-81 | exactly for which arrivals that holds, whatever the probes after a healthy first one say: silence counts, or W < d, or there are no more probes than the window covers, or none is missing, or none but the first arrives |
| `WindowsAndCounts.ToldApart` | labs/region-failover-budget/src/failover_budget/triggers.py:29-81 | for every other pattern of arrivals a run and a probe at which the window fires and the count does not |
| `WindowsAndCounts.MissingProbeTellsApart` | labs/region-failover-budget/src/failover_budget/triggers.py:29-81 | an instance: healthy, failing, missing, ten seconds apart; a window of 15 seconds fires at the third, two consecutive failures never do |
| `WindowsAndCounts.FailureFirst` | labs/region-failover-budget/src/failover_budget/triggers.py:29-81 | if the first thing on record is a failure the window fires at it, and the two agree exactly for W < d |
| `WindowsAndCounts.LongerWindowsFailOverLess` | labs/region-failover-budget/src/failover_budget/simulate.py:25-38 | on evenly spaced probes, whatever is missing and with either silence rule, the number of failovers never rises with the window |
| `WindowRuns.WindowInDarkRegion` | labs/region-failover-budget/src/failover_budget/simulate.py:53-73 | ignoring silence, a window trigger reports a dark outage exactly at the first probe by which the last healthy check has left the window while an unhealthy one is still in it, or at once if already failed over, and otherwise never |
| `WindowRuns.SilenceReadAsHealth` | labs/region-failover-budget/src/failover_budget/simulate.py:53-73 | so a dark outage whose last probe before it was healthy is never reported |
| `WindowRuns.WindowDetectsWithin` | labs/region-failover-budget/src/failover_budget/simulate.py:53-73 | with every probe of the outage counted and one due after the window has passed, the delay is present, nonnegative and below the window plus one probe interval |
| `Scenario.Timeline` | labs/region-failover-budget/src/failover_budget/scenario.py:54-76 | the sweeping blip pointer reports a probe unhealthy exactly when some blip interval contains it, for blips in order of start; lost and silent probes are missing |
| `Scenario.Blips` | labs/region-failover-budget/src/failover_budget/scenario.py:42-51 | blips start at the running totals of the gaps drawn, in order, all before `duration` and as many as that allows |
| `Wav.ReadWavChunks` | packages/podcast-providers/src/wav.ts:24-48 | the walk terminates on every byte string and returns its layout |
| `Wav.LayoutIsRead` | packages/podcast-providers/src/wav.ts:24-48 | exactly one chunk list is a layout of the bytes, described without a reader: text without its top bits, sizes least significant byte first, a truncated chunk cut at the end of the file, a pad byte after an odd size |
| `Wav.WriteHeader` | packages/podcast-providers/src/wav.ts:101-111 | the header written in place is the RIFF, fmt and data prefix with its three sizes and its padding |
| `WavBytes.FileIsWrittenAs` | packages/podcast-providers/src/wav.ts:98-111 | a written file byte by byte: its texts, the RIFF size as the file's length less 8, the sizes of format and data least significant byte first, a zero after an odd format, and no padding after the data |
| `Wav.ConcatenateWav` | packages/podcast-providers/src/wav.ts:62-111 | the loop returns the join, or the error of the first part that cannot be joined, or the overflow of a 32-bit size |
| `WavJoin.ConcatShared` | packages/podcast-providers/src/wav.ts:62-111 | parts that share a format join into their file, unless its size overflows 32 bits |
| `WavJoin.ConcatOnlyShared` | packages/podcast-providers/src/wav.ts:54-61 | and only such parts do: a join that succeeds had readable parts with byte-identical formats |
| `WavBytes.JoinRefusedIff` | packages/podcast-providers/src/wav.ts:62-96 | a join is refused exactly for no parts, for the first part that is no WAV, lacks a format or a data chunk or has another format than those before it, with the error that says so, or for a size that does not fit 32 bits |
| `WavJoin.FileReadsBack` | packages/podcast-providers/src/wav.ts:24-111 | re-reading a written file yields exactly its format body, odd-length padding included, and its data body |
| `WavJoin.JoinReadsBack` | packages/podcast-providers/src/wav.ts:62-111 | re-reading a join yields exactly the shared format, then the data bodies in order, and nothing else |
| `WavJoin.JoinOfJoin` | packages/podcast-providers/src/wav.ts:62-111 | joining a stretch first and then the rest around it gives the flat join, and succeeds exactly when that does |
| `WavJoin.StretchJoins` | packages/podcast-providers/src/wav.ts:62-111 | any stretch of a list that joins can itself be joined first |
| `WavJoin.WavDurationSeconds` | packages/podcast-providers/src/local.ts:212-229 | the loop returns the duration read from the chunks |
| `WavBytes.DurationMeans` | packages/podcast-providers/src/local.ts:212-229 | how long a file lasts, from its bytes: the length of its first data chunk over the rate at byte 8 of the last format chunk of 16 bytes or more before it, and nothing for a rate of zero, fewer than 44 bytes or no layout |
| `WavJoin.DurationsAdd` | packages/podcast-providers/src/local.ts:212-229 | for measurable parts with one `fmt ` chunk each, a join lasts exactly as long as its parts together |
| `Threshold.FitThreshold` | labs/decision-tier-calibration/src/decision_tier/threshold.py:53-80 | the one pass returns a signal value that meets the target, no higher than any other that does, keeping every record that any feasible threshold whatever keeps; none exactly when no threshold of any value is feasible |
| `Threshold.Sweep` | labs/decision-tier-calibration/src/decision_tier/threshold.py:35-50 | one point per threshold, ascending, each with the kept count at its threshold, the share of them that are right, or 0 for none, and the total; kept counts never rise |
| `Threshold.CountsAddUp` | labs/decision-tier-calibration/src/decision_tier/threshold.py:39-41 | a record counts as kept at a threshold exactly if its signal is at least that, and as right if it is also correct |
| `Threshold.SweepDecides` | labs/decision-tier-calibration/src/decision_tier/threshold.py:35-80 | a threshold is feasible exactly when its sweep point says so, which ties the fit to brute force over the sweep |
| `Batcher.StepKeepsInv` | labs/dynamic-batching-inference/src/inference/batcher.py:45-91 | every submission, flush, settlement, cancellation and shutdown keeps the invariant, among it: the full event is set exactly when the list has reached the batch size |
| `Batcher.BatchesThenPending` | labs/dynamic-batching-inference/src/inference/batcher.py:45-73 | in every interleaving the taken batches in order, then the pending list, are the accepted submissions in order, each once |
| `Batcher.AnswerIsOwn` | labs/dynamic-batching-inference/src/inference/batcher.py:74-85 | an answered future holds its own position's output of its own batch, or that batch's error |
| `Batcher.SettledOnce` | labs/dynamic-batching-inference/src/inference/batcher.py:74-85 | once settled or cancelled a future never changes again, nor does a batch |
| `Batcher.NothingAfterShutdown` | labs/dynamic-batching-inference/src/inference/batcher.py:45-47 | after a shutdown nothing is accepted or pending ever again |
| `Batcher.FlushTakesAll` | labs/dynamic-batching-inference/src/inference/batcher.py:65-91 | after any run a flush or a shutdown turns everything pending, in order, into one batch for the handler, and nothing into none; a shutdown also stops |
| `Batcher.SubmitWaitsOrIsRefused` | labs/dynamic-batching-inference/src/inference/batcher.py:45-53 | after any run a submission joins the end of the list with its own payload and a waiting future, unless a shutdown came before, and then it changes nothing |
| `Batcher.UnansweredIff` | labs/dynamic-batching-inference/src/inference/batcher.py:74-85 | exactly who has no answer once a batch is done: the cancelled, and the positions past a returned output list, whatever happens in other batches |
| `Batcher.EveryoneHears` | labs/dynamic-batching-inference/src/inference/batcher.py:87-91 | once stopped, every accepted item has its place in a batch, and waits no more if that batch raised or returned an output for its place |
| `Batcher.ShortOutputStrands` | labs/dynamic-batching-inference/src/inference/batcher.py:83-85 | a position past the outputs is never answered over any continuation: it waits for good unless someone cancels it |
| `Batcher.ShortRun` | labs/dynamic-batching-inference/src/inference/batcher.py:83-85 | an instance: two items in one batch, one output returned, and the second still waits |
| `DynamicBatchers.DynamicBatcher.Submit` | labs/dynamic-batching-inference/src/inference/batcher.py:45-53 | the object moves exactly as the submit step; refused exactly when stopping |
| `DynamicBatchers.DynamicBatcher.TakeBatch` | labs/dynamic-batching-inference/src/inference/batcher.py:65-73 | the object moves exactly as the flush step and hands out everything pending |
| `DynamicBatchers.DynamicBatcher.Deliver` | labs/dynamic-batching-inference/src/inference/batcher.py:83-85 | the walk over batch and outputs settles the future objects exactly as the step |
| `DynamicBatchers.DynamicBatcher.DeliverError` | labs/dynamic-batching-inference/src/inference/batcher.py:77-81 | the walk over the batch rejects the future objects exactly as the step |
| `DynamicBatchers.DynamicBatcher.Shutdown` | labs/dynamic-batching-inference/src/inference/batcher.py:87-91 | the object moves exactly as the shutdown step |
| `SourcePack.ResolveRelated` | packages/handbook-content/src/source-pack.ts:152-179 | the nested loops, with their early exit, compute the breadth-first rounds in link order |
| `SourcePack.RelatedIsNeighbourhood` | packages/handbook-content/src/source-pack.ts:145-179 | the result is exactly the loaded documents at link distance 1 to `depth` from the primary, each once, never the primary, nearer ones first |
| `SourcePack.FitBudget` | packages/handbook-content/src/source-pack.ts:206-218 | the budget loop keeps a candidate exactly when it fits after the choices before it, and the total is the cost of what is included |
| `SourcePack.BudgetHolds` | packages/handbook-content/src/source-pack.ts:206-218 | the primary always stays first, and the total exceeds the budget only when the primary alone is included |
| `SourcePack.BudgetSplits` | packages/handbook-content/src/source-pack.ts:206-218 | included and dropped split the candidates: none lost, none twice |
| `SourcePack.BudgetIsGreedy` | packages/handbook-content/src/source-pack.ts:206-218 | a candidate is kept exactly when it fits on top of the primary and of the candidates kept before it, the others are dropped, both in order, and the total is what was spent |
| `SourcePack.CostMeans` | packages/handbook-content/src/source-pack.ts:90-142 | a document costs the sum over its bodies of a quarter of their characters, each rounded up |
| `SourcePack.BuildSourcePack` | packages/handbook-content/src/source-pack.ts:188-218 | both stages together; an unknown id is an error |
| `TokenBucket.TokensStayInRange` | labs/async-ai-gateway/src/ai_gateway/rate_limit.py:27-38 | tokens stay between zero and the capacity over every run with a clock that does not go back |
| `TokenBucket.StretchIsBounded` | labs/async-ai-gateway/src/ai_gateway/rate_limit.py:27-38 | over any stretch of any such run the tokens granted are at most the capacity plus the rate times the time the stretch took |
| `TokenBucket.StretchWithinRate` | labs/async-ai-gateway/src/ai_gateway/rate_limit.py:27-38 | the same bound in numbers: the capacity and the rate for every second between the first and the last attempt of the stretch |
| `TokenBucket.RefusedOnlyAtTheLimit` | labs/async-ai-gateway/src/ai_gateway/rate_limit.py:27-38 | an attempt is refused exactly when granting it would push some stretch that ends with it over capacity plus rate times duration: the limiter is as generous as its limit allows |
| `TokenBucket.RefusedLeaveNoTrace` | labs/async-ai-gateway/src/ai_gateway/rate_limit.py:27-38 | deleting any choice of refused attempts changes no other outcome |
| `TokenBucket.KeysAreIndependent` | labs/policy-gated-tool-runtime/src/tool_gateway/rate_limit.py:25-46 | each key sees exactly the outcomes of its own attempts on a bucket of its own, whatever the other keys do |
| `TokenBucket.KeyStretchIsBounded` | labs/policy-gated-tool-runtime/src/tool_gateway/rate_limit.py:25-46 | so per tenant and tool, grants over any stretch stay within that key's own limit |
| `SkewedClocks.ClampedGrantsAreBounded` | labs/async-ai-gateway/src/ai_gateway/distributed_rate_limit.py:27-46 | with arbitrary clock readings the script's tokens stay in range, and grants plus what is left are at most the capacity plus, step by step, what an empty bucket can win back: the accrual of the step, cut at the capacity |
| `SkewedClocks.DrainGrantsAll` | labs/async-ai-gateway/src/ai_gateway/distributed_rate_limit.py:27-46 | and at any readings some run is granted exactly that much, so the bound cannot be lowered |
| `SkewedClocks.BoundHoldsIff` | labs/async-ai-gateway/src/ai_gateway/distributed_rate_limit.py:27-50 | exactly on which readings every run from a full bucket keeps capacity plus rate times elapsed: when the steps win back no more than accrues between the first reading and the last |
| `SkewedClocks.WholeBoundHoldsIff` | labs/async-ai-gateway/src/ai_gateway/distributed_rate_limit.py:70-88 | the same for callers that ask for whole tokens, as the limiter does: when the tokens a greedy caller takes, a number computed from the readings alone, keep the bound |
| `SkewedClocks.RegainedWithinElapsed` | labs/async-ai-gateway/src/ai_gateway/distributed_rate_limit.py:27-46 | on a clock that never goes back that condition always holds |
| `SkewedClocks.SkewedClocksGrantMore` | labs/async-ai-gateway/src/ai_gateway/distributed_rate_limit.py:27-50 | an instance where it fails: three attempts of two callers whose clocks disagree are granted more than capacity plus rate times elapsed |
| `RateLimiters.AsyncTokenBucket.Acquire` | labs/async-ai-gateway/src/ai_gateway/rate_limit.py:27-38 | the bucket object, in place, equals one attempt for one token |
| `RateLimiters.TenantRateLimiter.Acquire` | labs/async-ai-gateway/src/ai_gateway/rate_limit.py:56-67 | the limiter's table of bucket objects moves exactly as the keyed step; an empty tenant id is an error that changes nothing |
| `RateLimiters.NewAsyncTokenBucket` | labs/async-ai-gateway/src/ai_gateway/rate_limit.py:18-25 | construction is refused exactly for a capacity or a rate that is not positive; a new bucket is full |
| `RateLimiters.NewRedisTenantRateLimiter` | labs/async-ai-gateway/src/ai_gateway/distributed_rate_limit.py:53-68 | construction is refused exactly for a capacity or a rate that is not positive |
| `RateLimiters.NewTenantRateLimiter` | labs/async-ai-gateway/src/ai_gateway/rate_limit.py:48-54 | construction is refused exactly for a capacity or a rate that is not positive |
| `RateLimiters.ToolRateLimiter.Acquire` | labs/policy-gated-tool-runtime/src/tool_gateway/rate_limit.py:29-46 | the table of (tenant, tool) bucket cells moves exactly as the keyed step |
| `RateLimiters.Redis.TokenBucketScript` | labs/async-ai-gateway/src/ai_gateway/distributed_rate_limit.py:14-46 | the stored hash moves exactly as the keyed step with a clamped elapsed time and any number of tokens requested |
| `RateLimiters.GrantsPerMillisecond` | labs/async-ai-gateway/src/ai_gateway/distributed_rate_limit.py:28-33 | readings of the shared clock are in milliseconds and the rate is per second: on readings that never go back, grants are at most the capacity and the rate for every thousand of them |
| `RateLimiters.RedisTenantRateLimiter.Acquire` | labs/async-ai-gateway/src/ai_gateway/distributed_rate_limit.py:70-88 | argument errors change nothing; otherwise one script step under the tenant's key |
| `RateLimiters.TenantKeysDistinct` | labs/async-ai-gateway/src/ai_gateway/distributed_rate_limit.py:76-76 | two tenants never share a key |
| `RateLimiters.ExpiryChangesNothing` | labs/async-ai-gateway/src/ai_gateway/distributed_rate_limit.py:41-41 | a bucket the store expired is as good as the one it forgot, provided the ttl times the rate covers the capacity |
| `ToolGateway.StepKeepsDecided` | labs/policy-gated-tool-runtime/src/tool_gateway/approval.py:29-75 | every step keeps it that each successful decision is on a request of its own and that behind every high-risk start stands an approval of the call's own request |
| `ToolGateway.ApprovedBeforeStart` | labs/policy-gated-tool-runtime/src/tool_gateway/gateway.py:83-97 | in every interleaving a high-risk handler starts only after exactly one successful decision on its own call's request, and that decision approved it |
| `ToolGateway.PendingNeverReentered` | labs/policy-gated-tool-runtime/src/tool_gateway/approval.py:62-75 | a request that has left PENDING never returns to it, a finished call never changes, and the audit log only grows |
| `ToolGateway.OneEntryPerCall` | labs/policy-gated-tool-runtime/src/tool_gateway/gateway.py:102-122 | each finished call has exactly one audit entry, with its outcome; an unfinished one has none |
| `ToolGateway.PendingIsAwaited` | labs/policy-gated-tool-runtime/src/tool_gateway/approval.py:83-84 | a pending request is undecided and its call is suspended waiting for it |
| `ToolGateway.DecidedChangesOnlyByTimeout` | labs/policy-gated-tool-runtime/src/tool_gateway/approval.py:53-60 | exact condition under which a decided status changes: the deadline strikes before the decided call resumes |
| `GatewayOutcomes.CallIsItsStory` | labs/policy-gated-tool-runtime/src/tool_gateway/gateway.py:50-122 | over every interleaving the state of a call is determined by what its checks said when it began, by whether it was resumed or timed out, by the status of its request and by how its handler ended |
| `GatewayOutcomes.OutcomeMeans` | labs/policy-gated-tool-runtime/src/tool_gateway/gateway.py:50-122 | exactly when a call ends as denied for scope, arguments, rate or approval, as allowed, and as failed: allowed exactly if its handler returned, failed exactly if the tool is unknown or the handler raised |
| `GatewayOutcomes.DeniedMeansRefused` | labs/policy-gated-tool-runtime/src/tool_gateway/approval.py:53-60 | a call denied for want of approval has a request that is DENIED or EXPIRED, an expired request has its call ended so, and an approved call that was resumed has started |
| `GatewayOutcomes.StatusMeans` | labs/policy-gated-tool-runtime/src/tool_gateway/approval.py:53-75 | a request is EXPIRED exactly if its call timed out, and else APPROVED or DENIED exactly if that was decided |
| `GatewayOutcomes.CanGoOn` | labs/policy-gated-tool-runtime/src/tool_gateway/approval.py:53-60 | nothing gets stuck: a waiting call can resume exactly once its request is decided, can time out as long as it waits, and a running handler can end either way |
| `GatewayOutcomes.ResumeGoesOn` | labs/policy-gated-tool-runtime/src/tool_gateway/approval.py:58-60 | resuming after an approval enters the handler, and after a denial ends the call with its audit entry |
| `GatewayOutcomes.DecisionIsRecorded` | labs/policy-gated-tool-runtime/src/tool_gateway/approval.py:62-75 | a decision on a pending request is kept with who made it and why and wakes the call; any other changes nothing |
| `ToolGateway.ApprovedThenExpired` | labs/policy-gated-tool-runtime/src/tool_gateway/approval.py:53-60 | a concrete run in which an approved request expires and its handler never starts |
| `ToolGateway.CheapChecksFirst` | labs/policy-gated-tool-runtime/src/tool_gateway/gateway.py:25-31 | a call refused by registry, scope or schema costs no rate-limit token and opens no approval; an approval is opened only after a token was granted |
| `GatewayLimits.LimiterIsKeyed` | labs/policy-gated-tool-runtime/src/tool_gateway/gateway.py:73-79 | over every interleaving the limiter inside the gateway is the table of independent buckets over the calls that reached it |
| `GatewayLimits.CountIsGranted` | labs/policy-gated-tool-runtime/src/tool_gateway/gateway.py:73-97 | the calls of a tenant to a tool that got past the limiter, by asking for approval or entering the handler, are as many as the tokens their own bucket handed out |
| `GatewayLimits.CallsStayWithinRate` | labs/policy-gated-tool-runtime/src/tool_gateway/gateway.py:73-97 | over every interleaving, of the calls begun in any stretch of a run at most the tool's rate per minute plus a sixtieth of it per second get past the limiter, per tenant and tool |
| `GatewayObjects.ApprovalQueue.Decide` | labs/policy-gated-tool-runtime/src/tool_gateway/approval.py:62-75 | on the request objects, in place: not found, already decided, or the decision and the wake-up, and nothing else |
| `GatewayObjects.ApprovalQueue.Register` | labs/policy-gated-tool-runtime/src/tool_gateway/approval.py:38-50 | a new pending request with an event that is not set |
| `GatewayObjects.ApprovalQueue.Expire` | labs/policy-gated-tool-runtime/src/tool_gateway/approval.py:56-58 | the timeout branch overwrites the status whatever it is |
| `GatewayObjects.ApprovalQueue.ListPending` | labs/policy-gated-tool-runtime/src/tool_gateway/approval.py:83-84 | exactly the pending requests, in the order made |
| `GatewayObjects.Gateway.Call` | labs/policy-gated-tool-runtime/src/tool_gateway/gateway.py:50-97 | from the start of a call to its first suspension or refusal, on the real limiter and queue objects, equals the machine's step |
| `GatewayObjects.Gateway.Wake` | labs/policy-gated-tool-runtime/src/tool_gateway/approval.py:53-60 | resuming after the event equals the machine's step |
| `GatewayObjects.Gateway.TimeOut` | labs/policy-gated-tool-runtime/src/tool_gateway/approval.py:56-58 | the timeout equals the machine's step |
| `GatewayObjects.Gateway.HandlerDone` | labs/policy-gated-tool-runtime/src/tool_gateway/gateway.py:99-111 | the handler's end equals the machine's step, raised or not |
| `ExcerptIds.DeriveExcerptIds` | packages/podcast-engine/src/ids.ts:47-71 | each id is its label when no earlier id took that, and otherwise the label with its smallest free suffix from 2 on; labels use the slug, or the ordinal in the document for an empty one |
| `ExcerptIds.LabelReads` | packages/podcast-engine/src/ids.ts:52-55 | a label reads as the document, a number sign and the slug, or "section-" and the numeral of the number of earlier excerpts of that document |
| `ExcerptIds.SuffixReads` | packages/podcast-engine/src/ids.ts:60-63 | a suffix reads as a hyphen and its numeral, which reads back as the suffix |
| `ExcerptIds.FreeId` | packages/podcast-engine/src/ids.ts:60-65 | the suffix loop terminates and finds the smallest free suffix |
| `ExcerptIds.SuffixesRunOut` | packages/podcast-engine/src/ids.ts:60-65 | why it terminates: distinct suffixes give distinct candidates, so no more of them are in use than the set has elements |
| `ExcerptIds.IdsDistinct` | packages/podcast-engine/src/ids.ts:39-46 | no two excerpts of a pack share an id |
| `ExcerptIds.PrefixIds` | packages/podcast-engine/src/ids.ts:47-71 | the ids are determined by the pack, and a prefix of the pack receives a prefix of them |
| `ExcerptIds.LabelKeptWhenFree` | packages/podcast-engine/src/ids.ts:57-68 | an id is its plain label exactly when no earlier excerpt took it |

## Left out

- Rounding of floats: all arithmetic is over reals. The relative tolerance of
  `apportion` is a parameter, so the bounds hold for 1e-9 as for any other.
- Several clock readings inside one locked body (`now`, `time.monotonic()` for a
  heartbeat, `touch`) are one reading, shared by the whole step.
- The library sorts are one stable insertion sort, proved sorted and stable.
- The Task, Lease and audit records carry the fields the protocol uses; audit
  details, latencies, audit ids and timestamps, agent ids, and the arguments and
  outputs of tool calls are not kept.
- Task cancellation in the store and the gateway: coroutines run to their next
  suspension point and are not cancelled there. A worker's handlers and the
  batcher's futures can be cancelled.
- The worker's `on_result` callback, its backoff formula and jitter, and the time
  it waits between polls: any delay may be passed to a failure, and moves may
  come at any time. When the wait of `shutdown` ends, and how a cancelled
  handler takes it, are inputs.
- The crash of the batcher's loop after a length mismatch: what the mismatch
  does to the futures is modelled, the later silence of the loop is not.
- TokenBucket.StretchIsBounded: assumes a clock that does not go back, as
  `time.monotonic` gives; `SkewedClocks` covers any other readings.
- Expiry of Redis keys is not a step; `RateLimiters.ExpiryChangesNothing` says
  when it would make no difference. The text form in which Redis stores tokens
  is not modelled either.
- Distribution of blips and probe losses: draws are arbitrary inputs, and the
  gaps given must reach the scenario's duration. The loop over seeds, the rate
  per day and a blip rate's conversion are averages and lists over what is
  proved for one run.
- Simulate.DelayMeaning: the delay is a function of the fires of one run; its
  comprehensions are not loops here.
- Excerpt text and documents: titles, versions, the sha256 of the pack and the
  reading time are not kept; a document is its id, links and bodies.
- Strings are sequences of characters; Unicode normalisation and UTF-16 units
  are not modelled. Bytes are the integers 0 to 255, and Node's ASCII decoding
  clears their top bit, as it does.
- Calibration measures, sweeps over triggers, recovery budgets, transcript
  rendering, HTTP, Redis transport, subprocesses, model and speech clients, JWT,
  schema validation and the site itself: foreign libraries, transport, or easy
  members.
