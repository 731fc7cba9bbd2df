# Verified model of the job orchestrator

The repository schedules graphs of small jobs. A worker claims a ready job under an expiring lease, extends it
with heartbeats, and completes or fails it; children become ready when all their parents have succeeded; failed
and expired attempts are retried with backoff until a budget is spent. There are two implementations: an
in-memory scheduler (`src/scheduler.rs`) and a PostgreSQL store (`src/store.rs`). Both admit a graph only after
`DagSpec::validate` (`src/domain.rs`) has found it acyclic.

## How the files fit together

| files | what they hold |
|---|---|
| `Prelude`, `Collections`, `Divisors`, `Domain`, `Graphs`, `Multigraphs` | 64-bit saturating arithmetic, orders, sums over maps, common divisors, the submitted values, paths and cycles, counters over edge lists |
| `Validation`, `ValidationOrder` | `validate` as loops over maps and queues, proved equal to a queue-free description; soundness, completeness, independence of input order; which order it returns and which complaint it makes, without the algorithm |
| `Backoff` | the retry delay with its saturation, jitter and SQL twin, and for which configurations it never shrinks |
| `LeaseMachine`, `LeaseInvariants` | the simple machine: one flat job map, no heap, no counters; its invariant over every call |
| `ReadyIndex`, `Records`, `Coupling`, `Scheduler`, `Replay` | the `Scheduler` class with nested maps, a heap, counters and a token sequence, every method proved to be a step of the simple machine |
| `CallEffects`, `Deadlines` | what each call answers and changes, said of rows, deadlines and counts without the machine's functions; how long a lease lasts |
| `Runs`, `Liveness` | theorems over whole runs: fencing, frozen outcomes, conservation, bounded work, no stall, drain |
| `Sql`, `EventLog`, `StoreModel`, `StoreEffects`, `StoreRuns`, `Store` | the `PostgresStore` class, its SQL statements over tables, atomic transactions and what each answers and changes, the event log, fencing |
| `Agreement` | scheduler and store side by side |
| `StoreConcurrency`, `StatementFencing`, `LiveLeases`, `Cancellation`, `Stranding`, `SerialCompletion`, `StrandedRun` | the statements of concurrent transactions interleaved under READ COMMITTED |
| `Witnesses` | short runs behind remarks below |

`Scheduler.Scheduler` carries two ghost fields: `model`, the state of the simple machine, and `submitted`, the
edge lists as submitted. Each method states its whole effect as `model == M.Operation(old(model), ...)` and its
reply likewise. The simple machine claims the least key among all due waiting jobs and releases the pending
children all of whose parents have succeeded, so the heap and the counters are fast forms of it. `CallEffects`
states the answers and effects of its operations in terms of rows alone, so that neither the object nor the machine
stands only on its own definition; `StoreEffects` does the same for the store. `Replay` shows
that any list of calls against the object is a run of the machine; the theorems of `Runs` and `Liveness` are
about those runs. The store is treated the same way: each method of `PostgresStore` executes statements with
their joins, and is proved to be a step of `StoreModel`, which has none.

## Where the code and its documentation part

- `docs/SCHEDULER.md:11` says PostgreSQL uses the same order as the heap. The heap orders by availability and
  then priority (`src/scheduler.rs:67-73`), the SQL by priority and then availability (`src/store.rs:124`).
  `Agreement.SamePickIff` gives the exact condition under which both pick the same job. `Agreement.PicksCanDiffer`
  gives a run of each implementation that submits the same two graphs and then picks differently.
- `src/store.rs:196` says a completion commits its result and releases the children whose dependencies are
  satisfied, atomically. With atomic transactions that holds. When the statements of two completions interleave,
  each may miss the other's uncommitted success, and the child stays pending for good:
  `StrandedRun.AChildCanBeStranded`, and `Stranding.StrandedForever`: nothing but a cancellation ends the wait.
  `Stranding.StrandedIff` says exactly when, in terms of what each completion's release statement saw. A condition
  that can be kept from outside is `SerialCompletion.SerialNeverStrands`: while no two open completions belong to
  one graph, no child is stranded, so overlapping completions are needed. That children are released only if every
  parent has succeeded (`docs/ARCHITECTURE.md:21`) holds at every interleaving:
  `StoreConcurrency.StatementLevelSafety`.
- The whole retry delay of a job is nondecreasing under the default configuration
  (`Backoff.DefaultDelayMonotone`) but not under every one: `Backoff.DelayCanDecrease`. The delay before jitter
  doubles until the cap cuts a doubling, and only that step can go wrong. With `now` the last uncapped delay, `next`
  the cap and `f1`, `f2` their fifths, it is safe for every job exactly when `f1` is zero or
  `f1 - gcd(f1, f2) <= next - now`: `Backoff.DelayMonotoneIff`, for all caps up to 248 days
  (`Backoff.ShortCapsReach`) and for longer ones whose fifths have a least common multiple within 64 bits.
- The token sequence saturates. `Runs.FreshTokenIff` says that a claim hands out a new number exactly while the
  sequence is below its maximum, `Runs.ExhaustedTokensRepeat` what happens afterwards. Fencing therefore asks that
  the sequence has not run out, which `max_dags <= (2^64 - 1) / 20000` guarantees for ever.
- `max_ready_jobs` is compared with the heap length at admission only. The heap length counts entries left by
  cancelled jobs; the simple machine keeps those keys in `stale`, so that admission refuses exactly when the code
  does.
- A heartbeat may shorten a lease (`src/scheduler.rs:240`): `Witnesses.HeartbeatCanShorten`.
- The reap and cancel transactions of the store write no events, so a dead-lettered or cancelled job's log may end
  with a claim: `Witnesses.LogsCanEndWithClaims`. `StoreRuns.DeadLetterLogged` says which: a dead letter is logged
  exactly when a failure, not a reap, made the job dead-lettered.

## Reading the model

Strings are sequences of bytes, one character each; they are compared byte by byte. 64-bit values are bounded
integers with the code's saturating operations. Time is an argument of every call and arbitrary unless a lemma
asks for more. Hash maps are maps, and where the code iterates over one the loop picks elements in any order. The
heap is a multiset with a least-element read. A job row of the store is the same `Job` value as in the simple
machine, and `job_dependencies` is kept per graph. The store's clock stays 60000 ms short of the 64-bit maximum.

In `StoreConcurrency` a statement picks its rows on the snapshot taken when it starts, then changes them one at a
time. It may change a row only while no other open transaction has written it, after checking the row's own
condition again on the newest version. A claim may stop early, because it skips locked rows. Transactions begin,
commit and abort in any order. `saw` is a history variable.

## Main results

- Validation is sound, complete and independent of input order: `Validation.Validate`, `AcceptedIff`,
  `AcceptedOrder`, `CycleVerdictIsReal`, `InputOrderIsIrrelevant`; and the returned list is the one topological order
  in which jobs follow their last parents: `ValidationOrder.ReturnedOrderIff`.
- The scheduler with heap and counters is the simple machine: the methods of `Scheduler.Scheduler`,
  `Replay.Replay`, `Coupling.CountersAreExact`, `Coupling.IndexMirrorsJobs`.
- What each call answers and changes: `CallEffects.SubmitAnswers`, `TakeAnswers`, `CompleteAnswers`, `FailAnswers`,
  `ReapAnswers`, `CancelAnswers`, their twins in `StoreEffects`, and how long leases last:
  `Deadlines.LeaseLastsItsTime`, `Deadlines.HolderIsHeard`, `StoreEffects.LeaseLastsItsTime`,
  `StoreEffects.HolderIsHeard`.
- Over every run: `LeaseInvariants.RunKeeps`, `Runs.Fencing`, `Runs.ClaimTokensDistinct`, `Runs.TerminalForever`,
  `Runs.BoundedWork`, `Liveness.RunNeverStalls`, `Liveness.Drain`.
- The store with its joins is the join-free machine, and its log follows a grammar: the methods of
  `Store.PostgresStore`, `StoreRuns.EventGrammar`, `StoreRuns.DeadLetterLogged`, `StoreRuns.StoreFencing`,
  `StoreRuns.StoreNeverStalls`,
  `Agreement.CounterReleaseEqualsAntiJoin`, `Agreement.SamePickIff`.
- At every interleaving of statements: `StoreConcurrency.StatementLevelSafety`,
  `StatementFencing.InterleavedFencing`, `StatementFencing.OneOutcomeInterleaved`, `LiveLeases.NeverStolen`,
  `Cancellation.CancelledForGood`, `Stranding.StrandedIff`, `SerialCompletion.SerialNeverStrands`,
  `StrandedRun.AChildCanBeStranded`.
- The retry delay: `Backoff.DelayMonotoneIff`.

The last five rows of the table follow from the definitions alone and are listed for completeness.

## Model

| member | source | states |
|---|---|---|
| Validation.Validate | src/domain.rs:76-145 | the loops of `validate` return exactly the queue-free description `Validation`: same error, same order, for every input and every hash map iteration order |
| Validation.ScanJobs | src/domain.rs:87-99 | the job loop reports the first complaint in list order, or a zero count for every id |
| Validation.ScanEdges | src/domain.rs:101-116 | the edge loop reports the first complaint, or the exact number of incoming edges per job, repetitions counted, and the adjacency lists |
| Validation.ZeroDegree | src/domain.rs:118-123 | the initial queue is the sorted list of jobs without parents, whatever the iteration order |
| Validation.Drain | src/domain.rs:125-140 | the queue loop emits Kahn's order of the edge set |
| Validation.Release | src/domain.rs:127-139 | finishing a job appends, sorted, exactly the jobs whose last parent it was, and keeps all counters exact |
| Validation.Decrement | src/domain.rs:129-136 | decrementing never underflows with repeated edges, and reports each job reaching zero once |
| Validation.NoJobErrorIff | src/domain.rs:87-99 | the job loop accepts exactly lists of valid jobs with distinct, unseen ids |
| Validation.StaticErrorIff | src/domain.rs:76-116 | the checks before the queue pass exactly when identifiers, counts, payloads, policies and endpoints are in order |
| Validation.KahnStep | src/domain.rs:125-140 | one turn of the queue keeps: emitted and queued jobs are distinct and are exactly those whose parents are emitted |
| Validation.KahnComplete | src/domain.rs:141-143 | an emptied queue has emitted every job exactly when the graph has no cycle |
| Validation.AcceptedIff | src/domain.rs:76-145 | a specification is accepted exactly when it passes the static checks and its edges have no cycle |
| Validation.AcceptedOrder | src/domain.rs:125-144 | the returned order lists every job once and every edge points forward in it |
| Validation.CycleVerdictIsReal | src/domain.rs:102-104 | a `Cycle` error means that the edges do have a cycle |
| Validation.InputOrderIsIrrelevant | src/domain.rs:118-140 | accepted specifications with the same jobs and edges in any order, edges repeated or not, return the identical order |
| ValidationOrder.ReturnedOrderIff | src/domain.rs:118-140 | a list is the one returned exactly when it is a topological order in which jobs come as their last parents do, jobs with the same last parent in byte order |
| ValidationOrder.OnlyOneOrder | src/domain.rs:118-140 | at most one list is in that order |
| ValidationOrder.KahnInReleaseOrder | src/domain.rs:125-139 | the queue emits in that order |
| ValidationOrder.HeaderComplaint | src/domain.rs:77-84 | the graph's own id and sizes are complained about first, in this order |
| ValidationOrder.JobComplaint | src/domain.rs:87-99 | then the first bad job: identifier, payload, delay, policy, duplicate |
| ValidationOrder.EdgeComplaint | src/domain.rs:101-116 | then the first bad edge: self-loop, unknown source, unknown target |
| ValidationOrder.CycleComplaint | src/domain.rs:141-143 | and a cycle last |
| Prelude.StrLeIsLex | src/domain.rs:123 | the string order is the byte-wise one: a prefix, or smaller where the two first differ |
| Graphs.ClosedSetHasCycle | src/domain.rs:141-143 | a nonempty set in which every node has a predecessor in the set contains a cycle |
| Graphs.OrderExcludesCycle | src/domain.rs:125-144 | a topological order rules cycles out |
| Multigraphs.UnmetAfter | src/scheduler.rs:272-285 | finishing a node lowers a child's counter by the number of edges between them |
| Multigraphs.UnmetZero | src/scheduler.rs:286-290 | the counter is zero exactly when all parents are done |
| Backoff.BoundedExact | src/scheduler.rs:392-394 | for positive configurations the saturating form is the exact capped exponential |
| Backoff.BoundedMonotone | src/scheduler.rs:392-394 | the delay before jitter never shrinks with the attempt number |
| Backoff.JitterRange | src/scheduler.rs:453-461 | jitter is nonnegative and below a fifth of the delay, and zero when that fifth is |
| Backoff.RetryAtExact | src/scheduler.rs:395-396 | the two saturating additions act as one, and a retry lies in the future unless time is at its end |
| Backoff.JobHashIs | src/scheduler.rs:457-459 | the hash of an id is its bytes read as a number to base 31, modulo 2^64 |
| Divisors.RemainderGap | src/scheduler.rs:453-461 | no number's remainder by `a` exceeds its remainder by `b` by more than `a - gcd(a, b)` |
| Divisors.WidestGap | src/scheduler.rs:453-461 | some number below the least common multiple reaches that gap |
| Backoff.HashStep | src/scheduler.rs:392-396 | between two delays no hash shortens the whole delay if the gap of the fifths is made up for; otherwise, within 64 bits, some hash does |
| Backoff.DelayStepIff | src/scheduler.rs:392-396 | the same for the delays of two successive attempts, over all job ids |
| Backoff.DelayMonotoneIff | src/scheduler.rs:392-396 | the whole delay of every job id is nondecreasing over all attempts exactly for the configurations whose capped doubling makes up for the jitter |
| Backoff.ShortCapsReach | src/scheduler.rs:12-18 | caps up to five times 2^32 milliseconds are decided either way |
| Backoff.DelayStep | src/scheduler.rs:392-396 | when the delay before jitter stands still or grows by a fifth, the whole delay does not shrink |
| Backoff.DefaultDelayMonotone | src/scheduler.rs:20-30 | under the default configuration the whole delay of a job never shrinks with its attempt number |
| Backoff.DelayCanDecrease | src/scheduler.rs:392-396 | a configuration that fails the condition, and a job whose second delay is shorter than its first |
| Backoff.SqlBackoffAgrees | src/store.rs:254-255 | the SQL delay is the scheduler's delay before jitter under the default configuration |
| LeaseMachine.KeyOrder | src/scheduler.rs:67-73 | the derived order of heap keys is total |
| LeaseMachine.TokenNumberRoundTrip | src/scheduler.rs:194-197 | the decimal after the last dash of a token recovers the sequence number, although ids may contain dashes |
| LeaseInvariants.ReapKeeps | src/scheduler.rs:312-331 | reaping keeps the invariant: attempts fit states, leases and results exist exactly where they should, no job waits without reason |
| LeaseInvariants.TakeKeeps | src/scheduler.rs:170-214 | claiming keeps the invariant, including distinct token numbers and the count of claims |
| LeaseInvariants.CompleteKeeps | src/scheduler.rs:245-296 | completing keeps the invariant, including that exactly the unblocked children leave pending |
| LeaseInvariants.FailKeeps | src/scheduler.rs:299-309 | failing keeps the invariant |
| LeaseInvariants.HeartbeatKeeps | src/scheduler.rs:217-242 | a heartbeat keeps the invariant |
| LeaseInvariants.CancelKeeps | src/scheduler.rs:334-351 | cancelling keeps the invariant, with heap leftovers accounted for |
| LeaseInvariants.SubmitKeeps | src/scheduler.rs:95-156 | submitting keeps the invariant; acyclicity comes from validation |
| LeaseInvariants.StepKeeps | src/scheduler.rs:95-351 | every call keeps the whole invariant |
| LeaseInvariants.RunKeeps | src/scheduler.rs:95-351 | every state of every run satisfies the invariant |
| CallEffects.SubmitAnswers | src/scheduler.rs:95-126 | accepted exactly for an admissible new graph while fewer than `max_dags` exist and waiting jobs, leftovers and new jobs without parents stay within `max_ready_jobs`; each refusal carries its own error and changes nothing |
| CallEffects.SubmitAdds | src/scheduler.rs:104-156 | every job appears once, ready exactly without an edge to it, available from now, unattempted; nothing else changes |
| CallEffects.SubmitStaysWithin | src/scheduler.rs:120-126 | after an accepted submission the heap is within its limit |
| CallEffects.IndexCounts | src/scheduler.rs:120-124 | the heap holds as many entries as there are waiting jobs and leftovers |
| CallEffects.ReapAnswers | src/scheduler.rs:312-331 | exactly the overdue jobs are sent back, dead exactly when their budget is spent and otherwise after their delay; the answer is the number of changed rows |
| CallEffects.TakeAnswers | src/scheduler.rs:173-214 | nothing is claimed exactly when nothing is due; otherwise the due job earliest in availability, then highest in priority, then first by names; the row and the answer describe the same lease, attempt, kind and payload, and nothing else changes |
| CallEffects.ClaimAnswers | src/scheduler.rs:164-172 | a claim is refused exactly for a bad owner or duration, and otherwise reaps before it takes |
| CallEffects.TurnedAway | src/scheduler.rs:411-441 | exactly the live holder is heard; missing graph, missing job and lost lease are told apart |
| CallEffects.HeartbeatAnswers | src/scheduler.rs:217-242 | an accepted heartbeat sets and answers the deadline now plus duration and changes nothing else |
| CallEffects.CompleteAnswers | src/scheduler.rs:245-296 | an accepted completion keeps the result and readies, from now on, exactly the pending children it leaves without an unfinished parent; nothing else changes |
| CallEffects.FailAnswers | src/scheduler.rs:299-309 | an accepted failure answers the state the record has afterwards, dead-lettered exactly when the budget was spent |
| CallEffects.CancelAnswers | src/scheduler.rs:334-351 | exactly the unfinished jobs are cancelled, the answer is the number of changed rows, and waiting jobs leave their heap entries behind |
| Deadlines.LeaseStands | src/scheduler.rs:198-203 | while a job is leased its lease is the one the last claim or heartbeat set |
| Deadlines.LeaseLastsItsTime | src/scheduler.rs:312-331 | a lease set at `t` for `d` is left alone by every reap before `t + d`, also inside a claim, and ended by the first one from then on |
| Deadlines.HolderIsHeard | src/scheduler.rs:411-432 | until then its owner with its token, and nobody else, is heard |
| ReadyIndex.PeekMin | src/scheduler.rs:173-177 | the top of the heap is an entry that no other entry precedes |
| ReadyIndex.IndexIsExact | src/scheduler.rs:173-192 | the heap holds one current entry per waiting job, at most one leftover per cancelled job, and never outgrows the jobs |
| Coupling.CountersAreExact | src/scheduler.rs:104-137 | each counter is the number of incoming edges, repetitions counted, from jobs not succeeded; positive while pending and zero afterwards unless cancelled |
| Coupling.IndexMirrorsJobs | src/scheduler.rs:138-140 | the same of the heap, for the records themselves |
| Coupling.ReleaseNext | src/scheduler.rs:272-293 | one turn of the release loop finds its record, never saturates the counter, and keeps the partly lowered counters described |
| Coupling.CompletionCovers | src/scheduler.rs:257-271 | before the release loop every child has a record and a counter at least as large as the edges about to be removed |
| Coupling.ReleaseDone | src/scheduler.rs:272-295 | after the loop the counters are exact again and the jobs are those of the simple machine |
| Coupling.PoppedKey | src/scheduler.rs:178-192 | a popped entry names an existing record of the same availability, waiting or cancelled: the skips for missing or changed records never fire |
| Coupling.TakesLeast | src/scheduler.rs:173-197 | the first live entry popped is the least key among all due waiting jobs |
| Coupling.TakeNothing | src/scheduler.rs:173-177 | when the loop ends without a claim, no waiting job is due |
| Coupling.ReapNext | src/scheduler.rs:324-330 | reaping the listed leases one by one reaches the same records whatever the list order, and no retry errors |
| Scheduler.Scheduler.constructor | src/scheduler.rs:85-92 | a new scheduler is the empty machine |
| Scheduler.Scheduler.Submit | src/scheduler.rs:95-156 | same checks, same errors and same new state as the machine; afterwards the heap is within `max_ready_jobs` |
| Scheduler.Scheduler.Claim | src/scheduler.rs:159-214 | reaps, then hands out the least key among all due waiting jobs; `None` exactly when there is none |
| Scheduler.Scheduler.PopUntilLive | src/scheduler.rs:173-214 | the pop loop performs that claim and discards exactly the leftovers in front of it |
| Scheduler.Scheduler.Heartbeat | src/scheduler.rs:217-242 | extends exactly the lease that owner, token, state and deadline identify |
| Scheduler.Scheduler.AssertLease | src/scheduler.rs:411-432 | accepts exactly the holder of a live lease, with the error the machine gives otherwise |
| Scheduler.Scheduler.Complete | src/scheduler.rs:245-296 | records the result and makes ready exactly the pending children whose parents have all succeeded |
| Scheduler.Scheduler.ReleaseDependents | src/scheduler.rs:272-295 | the counter loop with its heap pushes |
| Scheduler.Scheduler.RetryOrDeadLetter | src/scheduler.rs:377-409 | one failed attempt: back to waiting with its entry pushed, or dead-lettered once the budget is spent |
| Scheduler.Scheduler.Fail | src/scheduler.rs:299-309 | the machine's failure step and the state it answers |
| Scheduler.Scheduler.CollectExpired | src/scheduler.rs:313-323 | lists each expired lease once, in any order |
| Scheduler.Scheduler.Reap | src/scheduler.rs:312-331 | retries every expired lease whatever the order and answers their number |
| Scheduler.Scheduler.Cancel | src/scheduler.rs:334-351 | cancels exactly the unfinished jobs of the graph and answers their number |
| Scheduler.Scheduler.Snapshot | src/scheduler.rs:354-375 | the jobs of the graph in id order with their public fields |
| Scheduler.SnapshotShows | src/scheduler.rs:354-375 | one entry per job in byte order of ids, each with the fields of its record |
| Scheduler.Scheduler.AdmitJobs | src/scheduler.rs:117-146 | one record per job with its exact counter, and one heap entry per job without parents |
| Scheduler.CountDependencies | src/scheduler.rs:104-116 | exact counters and sorted child lists |
| Replay.Execute | src/scheduler.rs:95-351 | any call on a scheduler object is one step of the machine |
| Replay.Replay | src/scheduler.rs:83-351 | any list of calls on a new scheduler observes a run of the machine |
| Runs.SequenceCountsClaims | src/scheduler.rs:194-203 | the sequence is the sum of all attempts, at most 20000 times `max_dags`, so it does not saturate for `max_dags` up to (2^64 - 1) / 20000 |
| Runs.FreshTokenIff | src/scheduler.rs:194-197 | a claim carries a number larger than all before exactly while the sequence is below its maximum |
| Runs.ExhaustedTokensRepeat | src/scheduler.rs:194-197 | once it is at its maximum, every claim of a job carries the same token |
| Runs.ClaimTokensDistinct | src/scheduler.rs:194-197 | no two claims of a run hand out the same token while the sequence lasts |
| Runs.HoldersAfter | src/scheduler.rs:194-203 | after any call a token number is held as before or by the job just claimed |
| Runs.EndRetires | src/scheduler.rs:226-239 | a lease that ends retires its number at once |
| Runs.Fencing | src/scheduler.rs:411-432 | once a lease has ended by any call, its token is never accepted again in the run, at any times |
| Runs.OneOutcomePerToken | src/scheduler.rs:257-269 | a token that committed an outcome is never accepted again |
| Runs.TerminalFrozen | src/scheduler.rs:95-351 | no call changes any part of a terminal job's record |
| Runs.TerminalForever | src/scheduler.rs:95-351 | so it survives the rest of the run |
| Runs.OneResultPerJob | src/scheduler.rs:257-265 | no two accepted completions of a run concern the same job |
| Runs.StepLowersMeasure | src/scheduler.rs:159-351 | every claim, completion, failure, reaped lease and cancelled job lowers a sum over all jobs by at least one, leases reaped inside a claim included |
| Runs.BoundedWork | src/scheduler.rs:159-351 | without new submissions a run contains at most 41 effective steps per job |
| Runs.ReapIdempotent | src/scheduler.rs:312-331 | after a reap no lease is expired, and a second reap at the same time answers 0 and changes nothing |
| Liveness.NoStall | src/scheduler.rs:272-293 | every pending job of a graph without cancelled jobs has an ancestor that is ready, waiting for a retry, leased or dead-lettered |
| Liveness.WaitingEnds | src/scheduler.rs:272-293 | the same for one graph of rows: if nothing above a pending job acted, the edges would close a cycle |
| Liveness.UnfinishedIsActive | src/scheduler.rs:272-293 | an unfinished graph without dead letters has a job that is ready, waiting or leased |
| Liveness.RunNeverStalls | src/scheduler.rs:95-351 | the same in every run that has not cancelled the graph |
| Liveness.RoundDrains | src/scheduler.rs:159-296 | a claim-and-complete round claims a job all of whose parents are done and completes it |
| Liveness.Drain | tests/scheduler_properties.rs:53-91 | every accepted graph is finished by exactly one round per job, in topological order, for all owners, leases, results and nondecreasing times; afterwards nothing is left to claim |
| Sql.QueueOrder | src/store.rs:124 | the ORDER BY of a claim is a total order |
| EventLog.ReadableIsWellShaped | src/store.rs:139-153 | a log the grammar reads has claims numbered 1, 2, 3, ..., each outcome right after its claim with its number, a dead letter only at the full budget, and nothing after a success or dead letter |
| EventLog.PhaseIs | src/store.rs:386-405 | the last event alone decides what may come next |
| StoreEffects.SubmitAnswers | src/store.rs:47-101 | accepted exactly for an admissible new graph without repeated edges |
| StoreEffects.SubmitAdds | src/store.rs:64-98 | every row appears once, ready exactly without an edge to it, available from now |
| StoreEffects.ReapAnswers | src/store.rs:367-383 | exactly the overdue rows are sent back, dead exactly when their budget is spent and otherwise after the capped doubling; the answer is the number of changed rows |
| StoreEffects.ClaimAnswers | src/store.rs:104-168 | after the reap the due row highest in priority, then earliest in availability, then first by names is leased, described in the answer and logged; nothing else changes |
| StoreEffects.HeartbeatAnswers | src/store.rs:171-194 | an accepted heartbeat sets the deadline now plus duration and changes nothing else |
| StoreEffects.CompleteAnswers | src/store.rs:197-240 | an accepted completion keeps the result, readies exactly the freed children and logs the success with owner and attempt |
| StoreEffects.FailAnswers | src/store.rs:243-272 | an accepted failure answers and logs the state the row has afterwards, dead-lettered exactly when the budget was spent |
| StoreEffects.CancelAnswers | src/store.rs:283-306 | the graph is marked, exactly its unfinished rows are cancelled, and the answer is their number |
| StoreEffects.LeaseLastsItsTime | src/store.rs:181-183 | a lease set at `t` for `d` is left alone by every reap before `t + d`, also inside a claim, and ended by the first one from then on |
| StoreEffects.HolderIsHeard | src/store.rs:209-213 | until then its owner with its token, and nobody else, is heard |
| StoreModel.ClaimKeeps | src/store.rs:104-168 | a claim keeps the tables consistent, given a token never issued before |
| StoreModel.CompleteKeeps | src/store.rs:197-240 | a completion keeps the tables and the log consistent |
| StoreModel.FailKeeps | src/store.rs:243-272 | a failure does, the event carrying the new state and the attempt |
| StoreModel.ReapedKeeps | src/store.rs:367-383 | reaping does, without an event |
| StoreModel.CancelKeeps | src/store.rs:283-306 | a cancellation does, and leaves no unfinished row in the graph |
| StoreModel.SubmitKeeps | src/store.rs:47-101 | a submission does |
| StoreModel.StepKeeps | src/store.rs:47-306 | every atomic transaction keeps row, edge, lease and log consistency |
| StoreModel.RunKeeps | src/store.rs:47-306 | so does every run of transactions |
| EventLog.NonEmptyCounts | src/store.rs:139-153 | a log that is not empty holds a claim |
| StoreRuns.EventGrammar | src/store.rs:139-153 | in every state of every run each job's log has that shape and counts its attempts; it is empty before the first claim, ends with a claim while leased, with a success exactly when the job has succeeded, and with a claim or a dead letter carrying the whole budget when it is dead-lettered |
| StoreRuns.DeadLetteredBy | src/store.rs:367-383 | a row becomes dead-lettered from leased only; a failure logs it, a reap leaves the row's log alone |
| StoreRuns.TerminalStays | src/store.rs:104-306 | a terminal row and its log never change again |
| StoreRuns.DeadLetterLogged | src/store.rs:262-269 | a dead-lettered job's log ends for ever with a dead letter if a failure made it so, and with its last claim if a reap did |
| StoreRuns.StoreNeverStalls | src/store.rs:197-240 | with atomic transactions every pending row of every run has an ancestor that is ready, waiting for a retry, leased or dead-lettered |
| StoreRuns.TokensAfter | src/store.rs:127-131 | a row carries a token only if it did before or has just been claimed with it |
| StoreRuns.StoreFencing | src/store.rs:209-223 | once a lease has ended by any transaction, its token is never accepted again |
| StoreRuns.OneOutcomePerToken | src/store.rs:209-272 | no token commits two outcomes |
| Store.PostgresStore.Submit | src/store.rs:47-101 | refuses what validation refuses, an existing graph and repeated edges; otherwise inserts every row, ready exactly without parents |
| Store.PostgresStore.Claim | src/store.rs:104-168 | reaps, then leases the first due waiting row by priority, availability and ids, joins notwithstanding, and logs it |
| Store.PostgresStore.Heartbeat | src/store.rs:171-194 | extends the one row that owner, token, state and deadline identify, or reports a conflict |
| Store.PostgresStore.Complete | src/store.rs:197-240 | commits the result, readies exactly the pending children whose parents have all succeeded, and logs the success |
| Store.PostgresStore.Fail | src/store.rs:243-272 | retries or dead-letters the row and logs the new state |
| Store.PostgresStore.Reap | src/store.rs:275-280 | retries or dead-letters exactly the expired rows and answers their number |
| Store.PostgresStore.Cancel | src/store.rs:283-306 | marks the graph and cancels exactly its unfinished rows |
| Store.InsertEdges | src/store.rs:89-98 | repeated edges violate the primary key; distinct ones become the edge set |
| Store.GuardsAreRedundant | src/store.rs:116-123 | a waiting row always belongs to a running graph and has no unfinished parent, so the claim's joins exclude nothing |
| Store.AntiJoin | src/store.rs:229-231 | the NOT EXISTS over parent rows says that all parents have succeeded |
| Store.ReleaseIs | src/store.rs:224-236 | the release statement readies exactly the pending children whose parents have all succeeded |
| Store.GuardedRow | src/store.rs:415-421 | a statement guarded by a lease changes its one row or none, so comparing the row count with one is exact |
| Agreement.CounterReleaseEqualsAntiJoin | src/store.rs:224-231 | the scheduler's counter loop and the release statement make the same children ready |
| Agreement.RetryAgreesUpToJitter | src/store.rs:252-256 | retries differ by the jitter alone under the default configuration |
| Agreement.SamePickIff | src/store.rs:124 | scheduler and store pick the same job exactly when some due job is both earliest and of highest priority |
| Agreement.PicksDiffer | src/scheduler.rs:67-73 | an older and a more urgent job are always picked differently |
| Agreement.PicksCanDiffer | docs/SCHEDULER.md:11 | a run of each implementation that submits the same two graphs, after which both hold the same rows and pick different jobs |
| StoreConcurrency.MoveOk | src/store.rs:104-306 | every move of every transaction keeps: views are safe, locks are exclusive, terminal rows are not written |
| StoreConcurrency.OtherTxOk | src/store.rs:208-239 | a commit does not disturb what other open transactions rely on, because success is stable |
| StoreConcurrency.StatementLevelSafety | src/store.rs:208-239 | in every committed state of every interleaving all parents of a job past pending and not cancelled have succeeded |
| StatementFencing.MoveLeases | src/store.rs:104-272 | every move keeps: committed tokens are on one row each, a claim's token is nowhere else, a passed compare-and-set found its token committed |
| StatementFencing.EndRetires | src/store.rs:209-223 | a commit that ends a lease retires its token at once |
| StatementFencing.InterleavedFencing | src/store.rs:178-189 | once a committed lease has ended, no transaction that passed a heartbeat, completion or failure guard with its token commits, in any interleaving |
| StatementFencing.OneOutcomeInterleaved | src/store.rs:209-272 | no token commits two outcomes, in any interleaving |
| StatementFencing.ClaimsExclude | src/store.rs:125-131 | no two open transactions hold a change of the same row, and over all they see a token is on one row |
| LiveLeases.NeverStolen | src/store.rs:110-137 | when a claim commits, a row that was leased is as it was or has lost a lease overdue at the claim's time; tests/postgres_integration.rs relies on it |
| LiveLeases.ClaimStatement | src/store.rs:113-132 | a row this claim has reaped or leased qualifies for neither of its statements again |
| Cancellation.CancelledForGood | src/store.rs:283-306 | once the cancellation of a graph has committed, every row of the graph is terminal for good, in any interleaving |
| StoreConcurrency.TerminalRowsFrozen | src/store.rs:209-298 | a terminal row is never changed again in any interleaving |
| Stranding.ReleaseQualifies | src/store.rs:224-231 | what the release statement qualifies on its snapshot, in terms of parents and succeeded rows |
| Stranding.FullStep | src/store.rs:208-239 | every move keeps the history exact: which completion saw which successes, and which children that released |
| Stranding.StrandedIff | src/store.rs:224-236 | a child whose parents have all succeeded is still pending exactly when no parent's completion saw them all |
| Stranding.StrandedByOverlap | src/store.rs:208-239 | then two of its parents' completions did not see each other's success |
| Stranding.StrandedForever | src/store.rs:224-231 | such a child never becomes ready |
| SerialCompletion.SerialStep | src/store.rs:208-239 | while completions of a graph do not overlap, of any two one saw the other, and an open one that has looked saw all that its graph has committed |
| SerialCompletion.SerialNeverStrands | src/store.rs:196-240 | if no two open completions ever belong to one graph, no child is left pending once all its parents have succeeded |
| StrandedRun.AChildCanBeStranded | src/store.rs:224-231 | a reachable state with a stranded child and no open transaction |
| StrandedRun.Overlap | src/store.rs:208-239 | any two leased parents that share their children, completed at once, release none of them |
| Witnesses.HeartbeatCanShorten | src/scheduler.rs:240 | a run in which an accepted heartbeat sets an earlier deadline than the claim gave |
| Witnesses.LogsCanEndWithClaims | src/store.rs:283-306 | runs that end with a dead-lettered and with a cancelled job whose log is a single claim |
| LeaseInvariants.ErrorsChangeNothing | src/scheduler.rs:95-351 | a call that answers with an error leaves the whole state as it was |
| LeaseInvariants.NewlyUnblocked | src/scheduler.rs:266-269 | only a child of the job just finished can become unblocked by it |
| StoreRuns.AppendOnly | migrations/0001_control_plane.sql:39-48 | a transaction appends at most one event and changes none |
| Agreement.CompleteAgrees | src/store.rs:197-240 | on the same jobs and edges both completions accept the same calls, refuse the others with corresponding errors, and leave the same jobs |
| Agreement.CancelAgrees | src/store.rs:283-306 | likewise for cancellations, counts and errors included |

## Left out

- HTTP routing, JSON, error mapping, tracing, the command line tools, the dashboard and all deployment files: they hold no scheduling state.
- `src/worker.rs`: a worker is any client that calls complete or fail at any time, or never; hashing and upper-casing are foreign calls.
- SQL parsing, connection pools, migrations, row decoding and the corrupt-data error: typed rows cannot hold an unknown name.
- Store reads (`snapshot`, `list_dags`): they would add only easy members; the scheduler's snapshot is modelled.
- Internals of the binary heap and the hash maps: a multiset with a least-element read, and maps iterated in any order.
- Nested records updated through mutable references are owned values put back into the map, so aliasing is not modelled; the code has none across calls.
- PostgreSQL refuses text with a zero byte, so a payload, result or owner that holds one is a database error there; the model of the store accepts it as the scheduler does.
- Text order in SQL follows the database collation; the model compares bytes.
- Overflow of the 16-bit attempt columns: attempts stay at or below 20, so the saturating increment of the model is never felt.
- Lease tokens of the store are arguments of a claim that were never issued before, in place of random UUIDs; `StatementFencing` says so of the moves of an interleaving (`TokensFresh`).
- StoreConcurrency: claims in cancelled graphs are not excluded and a claim may take any due row, which only adds interleavings; event rows and the state column of `dags` are not part of it; statement failures, deadlocks and serialization errors are aborts.
- Fencing: asks that the token sequence is not exhausted at the later call; beyond that point tokens repeat, as `Runs.ExhaustedTokensRepeat` states.
- DelayMonotoneIff: the half that makes some delay shrink finds a byte string with the hash it needs, not one of the identifiers `validate` admits; and for caps whose fifths have a least common multiple above 2^64 only the other half is stated.
- RetryAgreesUpToJitter: is about the default configuration, because the statement's constants are those of the default.
- Heartbeats, reaps and submissions are not compared between the two implementations: their limits on lease durations, repeated edges and admission differ, and reaps differ by jitter.
