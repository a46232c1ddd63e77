# Webhook gateway: a verified model

The repository receives webhooks, inspects them, stores them and delivers them upstream. This project models its
logic in Dafny and proves what that logic keeps: the delivery queue with its leases and retries, the worker pool, the
ingestion transaction, schema drift, check digits, the in-memory limiter, the failure digest, webhook signatures and
layered decoding. `dafny verify dfyconfig.toml` checks everything.

## What is modelled

- **Delivery queue.** `DeliveryTable` is the jobs table as an object whose methods are the SQL statements;
  `RetryPolicy` and `DeliveryState` are the pure decision and the transition table. `DeliverySystem` puts them into a
  step system in which pollers, workers, crashes, lease recovery and manual replays interleave freely; `DeliveryRuns`
  holds the theorems about whole runs. `DeliveryService` is the worker and the poller as they run, loops included.
  Two operating hypotheses are part of the runs: an execution ends within its two-minute lease, and a job is not
  replayed while it is in flight. `DisciplineIsExact` shows that exclusivity needs both. `NoJobLost` is about all
  runs, those that break the hypotheses included. `PollLoop` decides when the poller's batch loop ends.
- **Worker pool.** `WorkerPool` is the pool, its channel and the per-endpoint semaphore as a protocol of small steps;
  `Pool` is the object, each of whose uninterrupted pieces is a step of that protocol.
- **Ingestion.** `Ingestion` interleaves webhooks through duplicate check, transaction and commit, with failures,
  lost replies and crashes anywhere; `IngestionTheorems` states what holds of the store and the answers;
  `IngestionService` is the straight-line method, tied to the steps.
- **Schemas.** `Json`, `SchemaDrift` and `DriftTheorems`: inference and comparison over JSON trees; `DriftReports`: what
  is in a report, place by place; `ShownPaths`: which places a reported path identifies.
- **Check digits.** `Iban` and `IbanSwaps` (ISO/IEC 7064, MOD 97-10), `CheckDigits` (Luhn of ISO/IEC 7812-1 Annex B,
  and TCKN, each in both implementations), on top of `Decimals`.
- **Accumulators.** `RateLimiter`, and `FailureDigest` with `DigestTheorems`, are objects with maps of buckets that are
  updated in place, and theorems over traces of calls.
- **Codecs.** `Signature` writes and reads signature headers around an arbitrary MAC; `Decoding` undoes
  percent-encoding and backslash escapes on bytes.

Time is one integer clock in nanoseconds passed in by the caller, jitter is a parameter k/2^53, and Go's 64-bit
wrap-around is written out where it can occur.

## Where the code departs from what it says

- `StatusChanges`: the poller's release of a refused job, and a replay of a PROCESSING or RETRY_WAIT job, move it to
  PENDING, which `CanTransition` does not list.
- `IntervalBound` and `BoundIsReached`: the limiter is called a sliding window but counts in fixed windows; an
  interval of one window can hold 2*limit - 1 calls, and no more. It is a sliding window exactly for a limit of one
  (`SlidesIff`).
- `RetryAfterWraps`: from 9223372037 seconds on, Retry-After can turn into a negative wait. A computed backoff can do
  so from the 38th attempt on (`BackoffTurnsNegative`); `BackoffPositiveIff` and `RetryAfterPositiveIff` say exactly
  when no draw does.
- `LoopEndsIff`: jobs that cannot be loaded or that the pool refuses are handed back due at once. At one instant the
  batch loop is bound to end exactly when fewer of the due jobs are handed back than a batch holds; otherwise every
  batch is full, and stays so however the clock moves (`RefusingPoolSpins`).
- `SubmitPanicsIff`: a submit during shutdown is said to return an error. One that has passed the check panics instead,
  exactly when the channel is closed before its send; `ShutdownPanicsSubmit` is such a run.
- `LostToTheCache` and `DuplicateHasJobIff`: the duplicate key is set before the transaction; when that fails, a sender
  that tries again within the minute is told DUPLICATE although no job exists.
- `ShownPathsCollide`: a reported path does not always identify the place, since a member named a.b reads like b under
  a. `IdentifiedIff` says exactly when it does, `CleanPathsIdentify` that it does among names without dots and opening
  brackets.
- A max_retries of zero or less is read as three (`EffectiveMax`).
- `UpperCaseAloneStays`: the unescaping looks for lower-case escapes only before it decides to start.
  `ShortcutIsExactIff` says exactly when that makes no difference.

## Model

| member | source | states |
|---|---|---|
| RetryPolicy.DecisionOutcome | backend/internal/delivery/retry.go:52-203 | For every status, error and attempt: DELIVERED on success, RETRY_WAIT exactly for a transient fault with budget left, otherwise DEAD_LETTER; the terminal flag agrees with the state machine, only a retry waits, and the two incident actions belong to exactly 401/403 and 404 |
| RetryPolicy.BackoffEnvelope | backend/internal/delivery/retry.go:207-223 | While the doubling fits, a backoff is positive, never above the cap, at least the capped exponential and at most 1.25 times it, whatever the jitter |
| RetryPolicy.BackoffDoubles | backend/internal/delivery/retry.go:207-223 | The first wait before jitter is the base, each later one twice the one before, as far as the cap allows |
| RetryPolicy.RateLimitIsObeyed | backend/internal/delivery/retry.go:103-122 | A 429 with budget left waits exactly the seconds its header asks for, or until its date, capped; without either it waits by the backoff |
| RetryPolicy.BackoffPositiveIff | backend/internal/delivery/retry.go:207-223 | For all draws at once: every backoff lies in (0, max] exactly when the doubling fits in 64 bits or the platform converts the overflow to a positive number |
| RetryPolicy.DefaultsRepresentable | backend/internal/delivery/retry.go:33-40 | With the production options the doubling fits up to the 37th attempt |
| RetryPolicy.BackoffTurnsNegative | backend/internal/delivery/retry.go:207-223 | From the 38th attempt on it does not, and where the overflow becomes the least number the wait is negative |
| RetryPolicy.RetryAfterPositiveIff | backend/internal/delivery/retry.go:226-257 | For all draws at once: a Retry-After wait lies in (0, max] exactly when its seconds do not wrap to zero or below, or its date is in the future, or, for anything else, the doubling fits or overflows to a positive number |
| RetryPolicy.RetryAfterWraps | backend/internal/delivery/retry.go:237-243 | 9223372037 seconds is the least Retry-After value that becomes a negative wait; every smaller positive one is taken as it stands, capped |
| RetryPolicy.TotalWaitEnvelope | backend/internal/delivery/retry.go:207-223 | The waits before the n-th attempt sum to between the capped series and the smaller of 1.25 times it and n-1 caps |
| RetryPolicy.SeriesIsGeometric | backend/internal/delivery/retry.go:207-223 | Below the cap that series is base * (2^(n-1) - 1) |
| RetryPolicy.DefaultRetryWaits | backend/internal/delivery/retry.go:33-40 | With the production options every retry waits more than nothing and at most 30 seconds, as long as neither the doubling nor Retry-After wraps |
| DeliveryTable.SelectBatch | backend/internal/database/delivery.sql.go:14-30 | A batch of exactly min(limit, due) due jobs, none due later than a due job left behind |
| DeliveryTable.Earliest | backend/internal/database/delivery.sql.go:14-30 | A due job with the least next_retry_at |
| DeliveryTable.JobTable.ClaimPendingDeliveryJobs | backend/internal/database/delivery.sql.go:14-30 | Such a batch becomes PROCESSING, locked by the worker now, and every other row is unchanged |
| DeliveryTable.JobTable.CreateDeliveryJob | backend/internal/database/delivery.sql.go:156-171 | Inserts a PENDING job due at once, unless the endpoint already has the idempotency key; then nothing changes |
| DeliveryTable.JobTable.CompleteDeliveryJob | backend/internal/database/delivery.sql.go:74-85 | Unguarded by status: the row becomes DELIVERED and unlocked with one more attempt, other rows stay |
| DeliveryTable.JobTable.FailDeliveryJob | backend/internal/database/delivery.sql.go:215-227 | Unguarded by status: the row takes the given status and due time, unlocked with one more attempt; completed only when DEAD_LETTER |
| DeliveryTable.JobTable.RecoverStaleDeliveryJobs | backend/internal/database/delivery.sql.go:480-489 | Exactly the PROCESSING rows locked for more than two minutes go to RETRY_WAIT, due at once |
| DeliveryTable.JobTable.RequeueDeliveryJob | backend/internal/database/delivery.sql.go:496-507 | The row becomes PENDING, unlocked, due at once, with at least three attempts of budget left |
| DeliverySystem.EvaluateOutcome | backend/internal/service/delivery_service.go:277-281 | What one attempt decides, from the attempts and budget of the claim-time snapshot |
| DeliverySystem.StepKeepsGood | backend/internal/service/delivery_service.go:180-381 | Claim, submit, refusal, attempt numbering, recording, settling, abandonment, crash, recovery and replay, in any order, keep the invariant that ties rows, flights and history, under the lease and replay hypotheses |
| DeliverySystem.OneFlightPerJob | backend/internal/database/delivery.sql.go:14-30 | The invariant allows no job two executions |
| DeliverySystem.SettleKeepsGood | backend/internal/service/delivery_service.go:338-355 | Settling by the snapshot keeps budget, history and locks consistent |
| DeliveryRuns.LeaseExclusivity | backend/internal/database/delivery.sql.go:14-30 | In every reachable state no job has two executions, and whoever is about to settle finds the row it claimed, PROCESSING, with the attempts it saw |
| DeliveryRuns.DisciplineIsExact | backend/internal/database/delivery.sql.go:480-507 | The two hypotheses are necessary as well: a clock step or a replay that breaks one is exactly a step after which recovery and a claim can start a second execution |
| DeliveryRuns.StatusChanges | backend/internal/delivery/state.go:72-94 | A step makes a change CanTransition lists, except exactly the refused submit and the replay of a PROCESSING or RETRY_WAIT job |
| DeliveryRuns.TerminalIsFinal | backend/internal/delivery/state.go:67-69 | Only a replay touches a delivered or dead-lettered row, and only its own settling step ends a job |
| DeliveryRuns.BackInTheQueue | backend/internal/database/delivery.sql.go:496-507 | Whatever puts a job back makes it claimable at once; a requeue leaves attempts alone and grants at least three more |
| DeliveryRuns.BackoffIsWaitedOut | backend/internal/service/delivery_service.go:345-354 | After an attempt that is to be retried, the job stays due exactly its computed delay later, and over every run that does not replay it nothing claims or changes it before that instant |
| DeliveryRuns.WaitingIsKept | backend/internal/database/delivery.sql.go:14-30 | Any waiting job stays as it is until its due time, over every run that does not replay it |
| DeliveryRuns.RetryBudget | backend/internal/service/delivery_service.go:279-281 | Claims = attempts + lost leases + refusals + replays of a claimed job + one if running; attempts stay below the budget until terminal and the budget grows by at most three per requeue; attempt numbers are 1, 2, 3, ... |
| DeliveryRuns.LastAnswerDecides | backend/internal/service/delivery_service.go:338-355 | A finished job was delivered exactly when its last answer was accepted; a retryable fault ends it only with the budget spent |
| NoJobLost.StepKeepsLawful | backend/internal/database/delivery.sql.go:74-85 | Every step, disciplined or not, keeps each row locked exactly while PROCESSING |
| NoJobLost.LocksMirrorStatus | backend/internal/database/delivery.sql.go:215-227 | In every state any run leads to, whatever outlives its lease or is replayed in flight: PROCESSING exactly when both lock fields are set, and otherwise neither is |
| DeliveryRuns.LocksMirrorStatus | backend/internal/database/delivery.sql.go:74-85 | Under the two hypotheses, moreover, completed exactly while DELIVERED or DEAD_LETTER |
| NoJobLost.JobsNeverVanish | backend/internal/database/delivery.sql.go:74-85 | From any state, no run whatsoever removes a job |
| NoJobLost.RecoveryMakesDue | backend/internal/database/delivery.sql.go:480-489 | In every state any run leads to, at any clock past the due time and the end of the lease, recovery leaves an unfinished job due, and a claim with room for all due jobs takes it |
| NoJobLost.Reclaimed | backend/internal/database/delivery.sql.go:14-30 | From every such state an unfinished job can be claimed again, with its budget and history as they were |
| DeliveryRuns.RunOutcome | backend/internal/service/delivery_service.go:277-354 | For every interleaving and every stream of answers, a job never requeued settles after exactly the attempts its upstream dictates, min(first final answer, budget), DELIVERED exactly if that answer is accepted |
| DeliveryRuns.CanAlwaysSettle | backend/internal/service/delivery_service.go:180-381 | and from every such state the remaining attempts can be made |
| DeliveryService.DeliveryService.ExecuteJob | backend/internal/service/delivery_service.go:180-381 | One attempt settles its row by the snapshot and logs the next attempt number: delivered, or due again exactly at now plus the decided delay, or dead-lettered a day ahead; a request that cannot be built changes nothing |
| DeliveryService.DeliveryService.RecordDeliveryAttempt | backend/internal/service/delivery_service.go:316-332 | Attempt numbers are one more than those recorded |
| DeliveryService.DeliveryService.PollAndProcessQueue | backend/internal/service/delivery_service.go:384-418 | Claims min(batch size, due) jobs, ten where none is configured, hands over every one that can be loaded and is accepted, and puts the rest back |
| DeliveryService.DeliveryService.RunTasks | backend/internal/service/delivery_service.go:180-381 | Running accepted tasks, oldest first, those that cannot be built included, makes nothing due and nothing stale, given retries that wait |
| DeliveryService.BackoffsArePositive | backend/internal/service/delivery_service.go:277-281 | Among jobs with at most 36 attempts made, every retry waits as long as no Retry-After wraps: the hypothesis of the loops |
| DeliveryService.DeliveryService.PollRound | backend/internal/service/delivery_service.go:462-472 | One round takes its batch off the due jobs except what cannot be loaded or is refused; after a short batch only such jobs are due |
| DeliveryService.DeliveryService.PollUntilShort | backend/internal/service/delivery_service.go:462-472 | When fewer due jobs are given back than a batch holds and every retry waits, the loop terminates and only jobs given back are due, whatever the workers finish meanwhile |
| DeliveryService.DeliveryService.TickerCycle | backend/internal/service/delivery_service.go:473-487 | Under the same conditions, after recovery, a tick leaves nothing stale and nothing due but what is given back |
| DeliveryService.DueAfterPoll | backend/internal/service/delivery_service.go:384-418 | After a poll exactly the jobs left behind and those given back are due |
| DeliveryService.RoundShrinks | backend/internal/service/delivery_service.go:384-418 | A poll leaves due exactly as many of the jobs it gives back, and takes the rest of its batch away |
| PollLoop.RefusingPoolSpins | backend/internal/service/delivery_service.go:462-472 | As many due jobs given back as a batch holds: at whatever instants the polls come and whatever workers do to other jobs, every batch is full |
| PollLoop.ShortBatchComes | backend/internal/service/delivery_service.go:462-472 | Fewer: within one round more than there are due jobs a batch comes back short |
| PollLoop.LoopEndsIff | backend/internal/service/delivery_service.go:462-487 | At one instant the batch loop is bound to end exactly when fewer due jobs are given back than a batch holds |
| WorkerPool.PoolConservation | backend/internal/worker/pool.go:67-129 | Over every interleaving each accepted task is queued, executing or finished, tasks start in acceptance order, and neither workers nor queue exceed their capacity |
| WorkerPool.NothingAcceptedAfterClose | backend/internal/worker/pool.go:118-129 | Cancellation implies the channel is closed, and then nothing is accepted, not even by a submit that passed the check before |
| WorkerPool.SendAccepts | backend/internal/worker/pool.go:123-129 | A send into an open channel with room queues and accepts just the task it was called with, and any other send leaves both alone |
| WorkerPool.SubmitPanicsIff | backend/internal/worker/pool.go:116-129 | A submit that has passed the check panics exactly when the channel is closed between the check and its send |
| WorkerPool.ShutdownPanicsSubmit | backend/internal/worker/pool.go:116-129 | From every open state the run check, flag, close leads to a send that panics and accepts nothing |
| WorkerPool.DrainedWhenAllExited | backend/internal/worker/pool.go:151-172 | When all workers have returned, every accepted task has run exactly once |
| WorkerPool.SemaphoreIsFair | backend/internal/service/delivery_service.go:163-176 | At most maxPerEndpoint executions are past an endpoint's semaphore, a release never blocks, and a worker waits exactly when they hold it all |
| WorkerPool.HoldersAre | backend/internal/service/delivery_service.go:163-176 | In every reachable state a worker holds exactly the semaphore of the endpoint whose task it has started |
| WorkerPool.ShutdownUsesUpBacklog | backend/internal/worker/pool.go:102-115 | After the close every worker step uses up backlog |
| WorkerPool.ShutdownProgresses | backend/internal/worker/pool.go:67-83 | and some worker step is possible until all have returned |
| WorkerPool.StepKeepsGood | backend/internal/worker/pool.go:67-129 | Submit in two steps, receive, drain, semaphore, finish, close and cancel keep the pool's invariant |
| Pool.Pool.BeginSubmit | backend/internal/worker/pool.go:118-121 | Submit up to the flag: the protocol's first submit step |
| Pool.Pool.TrySend | backend/internal/worker/pool.go:123-129 | The send that does not wait: into an open channel with room the task goes last into channel and accepted list; refused or on a closed channel both stay as they were |
| Pool.Pool.Stop | backend/internal/worker/pool.go:151-157 | Only the first call acts: it raises the flag, closes, then cancels |
| Pool.Pool.AcquireEndpointSemaphore | backend/internal/service/delivery_service.go:163-176 | Creates the endpoint's semaphore when first needed and takes one token |
| Pool.Pool.FinishTask | backend/internal/worker/pool.go:85-100 | The deferred release and count after a task, panic or not |
| Pool.Pool.DrainRemaining | backend/internal/worker/pool.go:102-115 | Left alone, a draining worker runs everything in the channel, in order and once each, as a play of the protocol, and returns |
| Pool.Pool.constructor | backend/internal/worker/pool.go:37-57 | Defaults of 10 workers and 5000 places |
| Json.SortStrings | backend/internal/security/schema/drift.go:141-145 | The member names in ascending order, each once |
| Json.SortedKeysAscend | backend/internal/security/schema/drift.go:141-145 | The order the comparison visits them in is ascending and without repeats |
| Json.AtMostIsLexicographic | backend/internal/security/schema/drift.go:141-145 | That order is lexicographic: the first differing character decides and a beginning comes first |
| SchemaDrift.InferValue | backend/internal/security/schema/infer.go:37-100 | The recursion with its loop over sorted names builds the specified schema |
| SchemaDrift.CompareNode | backend/internal/security/schema/drift.go:78-181 | The recursion appends to the shared list exactly the specified changes, in order |
| SchemaDrift.CheckRequired | backend/internal/security/schema/drift.go:116-134 | One FIELD_MISSING for each required name that is absent or null |
| SchemaDrift.CheckMembers | backend/internal/security/schema/drift.go:147-180 | Member by member: a known one is compared, an unknown one added |
| SchemaDrift.DetectDrift | backend/internal/security/schema/drift.go:37-76 | NONE exactly without changes, BREAKING exactly if some change is not an added field |
| ShownPaths.CleanPathsIdentify | backend/internal/security/schema/drift.go:183-194 | Among places whose member names hold neither a dot nor an opening bracket, the shown path identifies the place |
| ShownPaths.IdentifiedIff | backend/internal/security/schema/drift.go:183-194 | Among all places, exactly these are the only ones to show their path: the document, a member of plain name, and a bracketed plain name under a nameless member |
| ShownPaths.MemberIdentifiedIff | backend/internal/security/schema/drift.go:183-194 | For one member: its name holds no dot, no bracket after the first character, and is not the mark for elements |
| ShownPaths.ShownIsPieces | backend/internal/security/schema/drift.go:183-194 | The path is a dollar sign and the steps in a row |
| DriftTheorems.Classified | backend/internal/security/schema/drift.go:78-181 | Against an inferred schema: no change exactly for a payload of the sample's shape, only added fields exactly for that shape with extras, the shapes being independent recursive predicates |
| DriftTheorems.EmptyArrayClassified | backend/internal/security/schema/infer.go:59-64 | An empty sample array constrains elements only to have no members |
| DriftTheorems.DriftClassification | backend/internal/security/schema/drift.go:37-76 | The severity of any payload against any inferred baseline is that three-way classification |
| DriftTheorems.SelfDrift | backend/internal/security/schema/infer.go:59-95 | A payload against its own schema: precisely one FIELD_MISSING per null member reachable through members and first array elements, and nothing else |
| DriftReports.DriftReportIsExact | backend/internal/security/schema/drift.go:78-181 | For every baseline and payload, a change, kind, place, expected and actual included, is reported exactly when it holds at its place in the two trees |
| DriftReports.DriftReportSaysOnce | backend/internal/security/schema/drift.go:78-181 | Against an inferred baseline no change is reported twice |
| DriftReports.ObjectInOrder | backend/internal/security/schema/drift.go:116-181 | Of an object first what is missing is reported, then its members one after the other in their order |
| DriftReports.TypeOfIs | backend/internal/security/schema/drift.go:196-217 | A value has exactly one type, a number being an integer exactly if it equals a 64-bit integer |
| Iban.ValidateIBAN | backend/internal/security/pii/iban.go:15-53 | The loop and its checks accept exactly the admissible strings whose expansion is 1 modulo 97 |
| Iban.Digits | backend/internal/security/pii/iban.go:31-42 | The loop yields the expansion, or stops on a character that is neither digit nor letter |
| Iban.ExpansionFolds | backend/internal/security/pii/iban.go:31-52 | The digit string has the residue of a running fold that never holds a big number |
| Iban.AcceptsMeans | backend/internal/security/pii/iban.go:15-53 | Spelt out: 15 to 34 characters, 26 for TR, and rotated by four and expanded to digits a number that is 1 modulo 97 |
| Iban.SeparatorsDoNotMatter | backend/internal/security/pii/iban.go:15-53 | Spaces and dashes anywhere make no difference |
| Iban.CaseDoesNotMatter | backend/internal/security/pii/iban.go:15-53 | Nor does the case of a letter |
| Iban.SubstitutionRejected | backend/internal/security/pii/iban.go:15-53 | From a valid IBAN every digit-for-digit or letter-for-letter substitution is rejected |
| Iban.SwapRejected | backend/internal/security/pii/iban.go:15-53 | and every swap of two different neighbours of one kind away from the cut |
| IbanSwaps.EverySwapRejected | backend/internal/security/pii/iban.go:15-53 | and across the cut between positions 3 and 4 too: every adjacent swap of two different characters of one kind is rejected |
| IbanSwaps.FoldIsAffine | backend/internal/security/pii/iban.go:31-52 | The fold is affine in its start, with a power of ten as slope |
| IbanSwaps.PeriodIsLong | backend/internal/security/pii/iban.go:44-52 | Modulo 97 no power of ten from the 1st to the 66th is 1: longer than any admissible number |
| Iban.UniqueCheckDigits | backend/internal/security/pii/iban.go:15-53 | For each country and body of admissible length exactly one check value from 02 to 98 is accepted |
| Iban.CheckDigitsAre | backend/internal/security/pii/iban.go:15-53 | That value is 98 less the residue of the expanded body and country followed by two zeros, as ISO/IEC 7064 computes it |
| CheckDigits.ValidateLuhn | backend/internal/security/pii/pii.go:26-54 | The loop accepts exactly 13 to 19 remaining digits with the weighted sum divisible by ten |
| CheckDigits.IsValidLuhn | backend/internal/ai/sanitizer.go:66-88 | The second loop, with its early exit, accepts exactly that after removing spaces and dashes |
| CheckDigits.LuhnImplementationsAgree | backend/internal/ai/sanitizer.go:66-88 | For every string: the second accepts exactly what the first accepts among strings of digits, spaces and dashes |
| CheckDigits.LuhnHoldsMeans | backend/internal/security/pii/pii.go:26-54 | What both decide, by positions: 13 to 19 digits, every second from the right doubled and its digits added, the sum divisible by ten |
| CheckDigits.LuhnCheckDigit | backend/internal/security/pii/pii.go:26-54 | For each payload exactly one last digit completes it: what its sum lacks to the next multiple of ten |
| CheckDigits.LuhnCatchesOneDigit | backend/internal/security/pii/pii.go:26-54 | Every single-digit change of a valid number is rejected |
| CheckDigits.LuhnSwap | backend/internal/security/pii/pii.go:26-54 | An adjacent swap passes exactly when the digits are equal or 0 and 9 |
| CheckDigits.WrittenDigitCaught | backend/internal/ai/sanitizer.go:66-88 | In the string as written, spaces and dashes included, either implementation rejects every change of one digit |
| CheckDigits.WrittenSwap | backend/internal/ai/sanitizer.go:66-88 | and passes a swap of two neighbouring digits, separated or not, exactly when they are equal or 0 and 9 |
| CheckDigits.ValidateTCKN | backend/internal/security/pii/pii.go:57-90 | The first loop decides the two check-digit equations, Go's remainder included |
| CheckDigits.IsValidTCKN | backend/internal/ai/sanitizer.go:37-63 | The second loop decides the same |
| CheckDigits.TcknMeans | backend/internal/security/pii/pii.go:57-90 | The two equations on the eleven digits |
| CheckDigits.TcknCatchesOneDigit | backend/internal/security/pii/pii.go:57-90 | Every single-digit change of a valid number is rejected |
| CheckDigits.TcknSwap | backend/internal/security/pii/pii.go:57-90 | An adjacent swap within the first nine digits passes exactly when the digits differ by 0 or 5 and no zero comes first |
| RateLimiter.Limiter.Allow | backend/internal/security/ratelimit/limiter.go:40-121 | In memory: the bucket of the key alone opens or counts, and the answer is its count against the limit |
| RateLimiter.Limiter.CheckSpikeAnomaly | backend/internal/security/ratelimit/limiter.go:124-139 | The same on the key with its prefix, default window 10 s, reported as flag and count |
| RateLimiter.KeysAreIndependent | backend/internal/security/ratelimit/limiter.go:75-88 | On every trace the answers for a key are those of its own bucket to its own calls |
| RateLimiter.WindowIsExact | backend/internal/security/ratelimit/limiter.go:75-120 | Within one window exactly the first limit calls are allowed and remaining is exact |
| RateLimiter.ResetIsExact | backend/internal/security/ratelimit/limiter.go:101-119 | Inside a window every answer gives the time left, the opening instant plus the window minus now |
| RateLimiter.NoLimitNoCount | backend/internal/security/ratelimit/limiter.go:40-44 | Calls without a limit are all allowed and leave the bucket of their key untouched |
| RateLimiter.SpikeIsExact | backend/internal/security/ratelimit/limiter.go:124-139 | A burst is flagged from the first call past the threshold on, the count being exact up to it |
| RateLimiter.IntervalBound | backend/internal/security/ratelimit/limiter.go:75-120 | Any closed interval as long as n windows of any trace holds at most (n+1)*limit - 1 allowed calls of a key |
| RateLimiter.BoundIsReached | backend/internal/security/ratelimit/limiter.go:75-120 | Two instants one unit apart can hold 2*limit - 1 allowed calls, so the bound for one window is exact |
| RateLimiter.SlidesIff | backend/internal/security/ratelimit/limiter.go:75-120 | No window length of any trace holds more than limit allowed calls of a key exactly when the limit is one |
| FailureDigest.Accumulator.RecordFailure | backend/internal/alerting/digest.go:83-114 | Counts the failure in the endpoint's bucket; below the threshold it is held and nothing is sent, at the threshold one digest of the whole bucket goes out and the bucket leaves |
| FailureDigest.Accumulator.FlushAll | backend/internal/alerting/digest.go:117-124 | Flushes every bucket, each once, in some order |
| FailureDigest.Accumulator.CheckAndFlushExpired | backend/internal/alerting/digest.go:146-156 | Flushes exactly the buckets a whole window old; a younger one stays as it is |
| FailureDigest.Accumulator.FlushBucket | backend/internal/alerting/digest.go:158-204 | The bucket leaves and one digest of it goes out |
| DigestTheorems.DigestsPartitionFailures | backend/internal/alerting/digest.go:83-204 | Over every run an endpoint's digests summarise consecutive blocks of its failures, 1 to threshold each, origin of the first and outcome of the last; the pending bucket summarises the rest |
| DigestTheorems.Conservation | backend/internal/alerting/digest.go:83-124 | Recorded = reported + pending per endpoint, and a pending bucket is below the threshold |
| DigestTheorems.SizesOfPartition | backend/internal/alerting/digest.go:110-114 | Each digest carries 1 to threshold failures |
| DigestTheorems.RecordSendsFull | backend/internal/alerting/digest.go:110-114 | A recorded failure sends nothing, or one digest of its endpoint that carries exactly threshold failures |
| DigestTheorems.OneDigestPerThreshold | backend/internal/alerting/digest.go:110-114 | Over a run of records alone an endpoint has exactly floor(failures / threshold) digests |
| DigestTheorems.CheckReportsExpired | backend/internal/alerting/digest.go:146-156 | A check reports every bucket a window old, and leaves a younger one and its endpoint's digests alone |
| DigestTheorems.FlushAllReportsAll | backend/internal/alerting/digest.go:117-133 | After flushing everything no failure is unreported |
| DigestTheorems.ReportedInTime | backend/internal/alerting/digest.go:135-156 | With expiry checks at most g apart, a failure window + g old has been reported |
| IngestionService.Service.ProcessWebhook | backend/internal/service/ingestion_service.go:303-480 | One webhook run straight through is a play of the step machine: blocked by mode or policy it is answered BLOCK and has no job, a duplicate DUPLICATE, and only an open one forwards; a failed one leaves the store as it was unless the commit's reply is lost |
| IngestionService.Service.CheckAndSetIdempotency | backend/internal/valkey/valkey.go:78-95 | Duplicate exactly if the key is live and the cache answers; sets it otherwise for 60 s |
| Ingestion.StepKeepsGood | backend/internal/service/ingestion_service.go:360-480 | Arrival, begin, both inserts, commit, lost replies and crashes, interleaved, keep the invariant on store, open transactions and answers |
| IngestionTheorems.AllOrNothing | backend/internal/service/ingestion_service.go:360-480 | Every step leaves the store unchanged, stores a mocked request, or records one request with, exactly when needed and its key is free, its job |
| IngestionTheorems.JobsAreJustified | backend/internal/service/ingestion_service.go:360 | Every job refers to a committed request of its endpoint in open mode that the policy lets pass, no duplicate, with a target |
| IngestionTheorems.AnswersMean | backend/internal/service/ingestion_service.go:336-360 | Over every run BLOCK is answered exactly where mode or policy block, DUPLICATE where not and the body was seen, FORWARD where the mode is open, the policy passes and the body is new |
| IngestionTheorems.OneJobPerKey | backend/internal/database/delivery.sql.go:156-171 | Over the whole run, key expiries included, an endpoint and body have at most one job |
| IngestionTheorems.OneJobPerBody | backend/internal/database/delivery.sql.go:156-171 | Two requests of one endpoint with the same body never both have jobs |
| IngestionTheorems.ForwardedHasJob | backend/internal/service/ingestion_service.go:431-480 | A FORWARD answer with a target has its job, or shares one of the same endpoint and body |
| IngestionTheorems.JobsComeFromRequests | backend/internal/service/ingestion_service.go:431-464 | A key has a job exactly when some committed request with it called for one |
| IngestionTheorems.DuplicateHasJobIff | backend/internal/service/ingestion_service.go:303-325 | A DUPLICATE answer is backed by a job exactly when another committed request with the body called for one |
| IngestionTheorems.LostToTheCache | backend/internal/service/ingestion_service.go:303-325 | A transaction that cannot begin, then the same body within the minute: DUPLICATE, and no job exists |
| IngestionTheorems.FreshBodyIsDelivered | backend/internal/service/ingestion_service.go:303-480 | From every reachable state, a body the cache does not hold is, without failures, answered FORWARD and has its job |
| Signature.VerifyStripe | backend/internal/security/hmac/verifier.go:101-156 | The loops over fields and candidates reach the specified verdict, each error in its turn |
| Signature.Verify | backend/internal/security/hmac/verifier.go:31-54 | Empty secret passes, default tolerance five minutes, dispatch by provider on its header |
| Signature.VerifyDefaults | backend/internal/security/hmac/verifier.go:31-54 | On every verdict: no secret means accepted, no tolerance means 300 seconds |
| Signature.StripeAcceptsIff | backend/internal/security/hmac/verifier.go:101-156 | Accepted exactly when the last field t is a number within the tolerance and some field v1 is the MAC over that text, a dot and the body |
| Signature.StripeRefusals | backend/internal/security/hmac/verifier.go:101-138 | Missing exactly for an empty header, expired exactly for a well-formed one whose time is out of tolerance |
| Signature.PaddedFieldReads | backend/internal/security/hmac/verifier.go:110-122 | White space around a field does not matter |
| Signature.ToleranceIsDistance | backend/internal/security/hmac/verifier.go:133-138 | Saturating differences amount to distance from the clock, either way |
| Signature.PrefixedAcceptsIff | backend/internal/security/hmac/verifier.go:57-85 | Generic and GitHub accept exactly the MAC, bare or with the prefix once |
| Signature.ShopifyAcceptsIff | backend/internal/security/hmac/verifier.go:86-98 | Shopify accepts the base-64 MAC and nothing else |
| Signature.IyzicoAcceptsIff | backend/internal/security/hmac/templates.go:194-205 | Iyzico accepts exactly the MAC in any mixture of cases |
| Signature.IyzicoTakesCapitals | backend/internal/security/hmac/templates.go:194-205 | however its letters are capitalised |
| Signature.WrittenHeader | backend/internal/security/hmac/templates.go:169-191 | The generated value letter by letter, with the given time or the present |
| Signature.RoundTrip | backend/internal/security/hmac/templates.go:169-191 | For every provider, secret and body the generated header value is accepted, for Stripe within the tolerance |
| Signature.HeaderIsFound | backend/internal/security/hmac/verifier.go:170-179 | The one header that bears a name of the provider is found under any spelling, whatever others there are |
| Signature.SignedIsAccepted | backend/internal/security/hmac/verifier.go:31-54 | Verify accepts headers one of which, under any spelling of the provider's name, holds a generated value, in time |
| Signature.JoinSplit | backend/internal/security/hmac/verifier.go:110-111 | The pieces contain no comma and joined give back the header |
| Decimals.ParsePrint | backend/internal/security/hmac/templates.go:176-179 | Every 64-bit integer printed in decimal is parsed back |
| Decoding.MultiPassURLDecode | backend/internal/security/normalize/canonicalize.go:43-56 | The loop with its three exits decodes pass by pass |
| Decoding.UnescapeIffEncodes | backend/internal/security/normalize/canonicalize.go:43-56 | One pass yields s exactly from the texts that spell s |
| Decoding.LayersDecode | backend/internal/security/normalize/canonicalize.go:43-56 | As many passes as layers, or more, give back a plain text, however each layer was encoded |
| Decoding.PassesRemoveLayers | backend/internal/security/normalize/canonicalize.go:43-56 | With every byte encoded k times, n passes remove exactly min(k, n) layers |
| Decoding.UpperRoundTrip | backend/internal/security/normalize/canonicalize.go:43-56 | Upper-case hexadecimal digits are decoded just so |
| Decoding.DecodedIsNoLonger | backend/internal/security/normalize/canonicalize.go:43-56 | Decoding never lengthens |
| Decoding.UnescapeUnicodeSequences | backend/internal/security/normalize/canonicalize.go:59-94 | The loop terminates and computes the specified unescaping |
| Decoding.NeverLengthens | backend/internal/security/normalize/canonicalize.go:59-94 | Unescaping never lengthens, signed and surrogate escapes included |
| Decoding.UnescapeInvertsWriter | backend/internal/security/normalize/canonicalize.go:59-94 | Any code units written as four-digit escapes come back in UTF-8 |
| Decoding.FourDigitEscapeReads | backend/internal/security/normalize/canonicalize.go:64-93 | One escape of four digits in any case, before any text, yields the code unit they spell |
| Decoding.TwoDigitEscapeReads | backend/internal/security/normalize/canonicalize.go:64-93 | One of two digits likewise |
| Decoding.SignedEscapeReads | backend/internal/security/normalize/canonicalize.go:64-93 | A sign in the place of the first digit is read as a sign |
| Decoding.Utf8Carries | backend/internal/security/normalize/canonicalize.go:64-93 | The bytes written carry the bits of the code unit as section 3 of RFC 3629 lays them out |
| Decoding.AsciiRoundTrip | backend/internal/security/normalize/canonicalize.go:59-94 | ASCII text written as escapes comes back unchanged |
| Decoding.ShortcutIsExactIff | backend/internal/security/normalize/canonicalize.go:59-62 | Returning early gives what the loop would exactly when a lower-case escape is mentioned or no position starts an escape |
| Decoding.UpperCaseAloneStays | backend/internal/security/normalize/canonicalize.go:59-62 | A lone upper-case escape of an apostrophe is returned as it stands, where the loop would decode it |
| Decoding.LoopChangesEscapes | backend/internal/security/normalize/canonicalize.go:64-93 | The loop changes exactly the texts in which some position starts an escape, and shortens them |

## Left out

- WorkerPool.StepKeepsGood: interleavings are runs of the protocol on values, since goroutines switch between any two accesses; the object covers the pieces in between. Receiving a task and counting it active are one step.
- Pool.Pool.DrainRemaining: for one worker running alone with free semaphores; several at once are covered by the protocol.
- WorkerPool.NothingAcceptedAfterClose: SubmitWithTimeout is not modelled; it adds a wait to the same send.
- IngestionTheorems.FreshBodyIsDelivered: the stages before the duplicate check (size, rate, signature) and the security findings are inputs; the variant without a connection pool is left out.
- RateLimiter.Limiter.Allow: the shared counter in Valkey is not modelled, nor the overflow of a count.
- RateLimiter.IntervalBound: for a key whose limit and window do not change during the interval, on a clock that does not go back.
- DigestTheorems.ReportedInTime: the gap between checks is a hypothesis; the ticker that should keep it at half a window is not modelled.
- FailureDigest.Accumulator.FlushBucket: event identifiers and text formatting of a digest are left out, and the callback is the list of digests it is given.
- Decoding.LayersDecode: the control-character filter, HTML entities and the last decoding of the whole chain are left out.
- Signature.HeaderIsFound: with two spellings of one name, or two names of one provider, Go may pick either; the theorem is about one such header, in whatever order the map is visited. Names and MACs are compared as characters, which for them is comparing bytes.
- SchemaDrift.InferValue: string formats are not inferred, and a schema is a record of the fields inference writes rather than a free JSON object.
- DeliveryService.DeliveryService.PollUntilShort: the same jobs are given back in every round, and statement errors, which end the loop in the code, are left out.
- DeliveryService.DeliveryService.RunTasks: the workers run their tasks between two polls, at the same instant.
- Upstream HTTP calls, the URL guard, TLS and DNS: an upstream reply is an arbitrary answer.
- PostgreSQL and Valkey: each statement is one atomic step, and statements whose errors the code ignores succeed.
- SHA-256, HMAC and base 64: the MAC is any function; nothing is claimed about forging one.
- Attempt telemetry beyond its numbers, reason texts, alerts, and the status mirrored on captured requests.
- Pattern scanners, entropy, the prompt guard, the JSON Schema library, OpenAPI import and format detection.
- The older forwarding outbox, which repeats the delivery machine in a weaker form.
- Handlers, CRUD services, streams, diagnostics, the agent and the frontend.
