# TelDrive Lab: a verified model

This project models the parts of TelDrive Lab that move, keep and account for data, and proves properties of
them over every input, every run and every interleaving. `dafny verify dfyconfig.toml` checks it.

| files | what they model |
|---|---|
| `Jobs.dfy`, `JobRuns.dfy`, `Queue.dfy`, `Children.dfy` | the durable job queue: one row per job, leases, bounded retries, pause, cancel, lease recovery, verification, parents and children |
| `Retry.dfy`, `BackoffSpacing.dfy` | retry policy, the transfer executor's classification, and how far apart they keep the claims of a job |
| `Safety.dfy`, `Workers.dfy`, `JobLifecycle.dfy` | the safety boundary, the worker's claim, gate, execute, re-read, settle protocol, and the audited store |
| `Limiter.dfy` | the admission limiter under any number of threads |
| `Files.dfy`, `Transfer.dfy` | a file system in which every I/O call may fail, and the verified copy on top of it |
| `Lifecycle.dfy`, `LifecycleRuns.dfy` | quarantine, purge and restore, and whole runs of them |
| `BackupRecords.dfy`, `Backups.dfy`, `BackupRuns.dfy`, `BackupHistories.dfy`, `Scheduler.dfy` | backup records; plan, apply, verify, restore and purge; the round trip; whole runs; and the backup schedule |
| `Traversal.dfy`, `Search.dfy`, `Snapshots.dfy` | derived structures against something simpler: the explicit-stack traversal, the search index, incremental snapshots |
| `Retention.dfy`, `Base.dfy` | the retention policy; optional values, errors, string order, sorting |

How to read it. A SQLite table is a map, and every public method is one atomic step that is handed the clock;
this is what `BEGIN IMMEDIATE` and the single UPDATE statements give, and an assumption for `retry`, `enqueue`
and the read that follows a claim. Other processes appear as legal runs of those steps, placed in every gap the
code leaves open; a worker only relies on nobody else using its id. The order in which SQLite breaks ties is
left open. Times are reals or ordered integers. SHA-256 is an uninterpreted function that may collide: results are
stated on digests, and where a size or the bytes themselves are concerned the exception is two particular contents
with one digest. Every I/O call consumes one tick and fails when an arbitrary function of the tick says so, and a
write may store something other than it was given; a result "without faults" asks this only from the moment of the
call on. Temporary files live in a name space of their own, as their reserved prefix intends. UUIDs, digests,
authorization providers and executors are parameters. Paths are component sequences that have already been resolved.

## Where the code and its documentation part

* JOB_MODEL.md lists the allowed transitions (lines 152-166). The code realises all of them and exactly two
  more, RUNNING to COMPLETED and VERIFYING to CANCELLED (`JobRuns.StateEdges`). The first is `complete`: the
  governing rule (line 15) holds of a job exactly when no call of `complete` on it ever met its guard, RUNNING and
  held by the caller (`JobRuns.CompletedFromVerifyingIff`, `JobRuns.WithoutCompleteOnlyVerified`,
  `JobRuns.CompleteSkipsVerification`).
* A lease that runs out spends no attempt, so `max_attempts` bounds the claims of a job only together with its
  recoveries and pauses (`JobRuns.ClaimsBounded`, `JobRuns.RecoveryIsUnbounded`).
* Every settling write of a worker is fenced by its id but `cancel` (`Workers.OnlyCancelIsUnfenced`), which can
  therefore strike another worker's job (`Workers.CancelStrikesAnotherWorker`).
* The module `retry` promises not to guess from exception text; the transfer executor decides by searching the
  error text, which quotes paths: one fault is retried or given up for good by what the path spells
  (`Retry.RetriedIff`, `Retry.PathDecidesRetry`, `Retry.DiskFullRetriedIff`). An executor that raises is retried
  with no delay at all, and an authorization provider that raises leaves the job claimed until its lease runs out
  (`Workers.Worker.Coordinate`).
* The size and first digest of a source are taken outside the `try` of the copy, so an I/O error escapes as
  an exception exactly when it falls on one of those calls (`Transfer.Copy`); nothing has been written by then.
* `restore_plan` takes a parameter called `sources` but compares quarantine paths, and an empty selection
  selects everything. Quarantining a source again replaces its record unlocked.
* A quarantine record outlives its purged copy. If another source is then quarantined at the same path, its copy is
  made before `put` raises, and the evidence survives exactly when the old record happens to match the new source
  (`Lifecycle.LifecycleExecutor.QuarantineOne`). `LifecycleRuns.SharedTargetRun` is a run in which `reconcile` ends
  up calling a record corrupt although no I/O call failed. `LifecycleRuns.AlwaysAttested` therefore asks that
  each source has a quarantine path of its own.
* Backup items are sorted by the paths as given and read back sorted by resolved path. When the two orders
  differ the plan's digest changes on the way and its lock no longer protects it (`BackupRecords.ReadBackIff`,
  `BackupRecords.LockBypassIff`); `BackupRuns.LockBypassed` is such a run, from two sources given as `/b/x`
  and `z`. A plan and what it is read back as may both be on record, and are then listed as one plan twice
  (`BackupRecords.ListedTwiceIff`, `BackupRecords.TwinRebuiltTwice`). Putting a plan again unlocks it
  (`BackupRecords.PutKeepsLocksIff`).
* Purging a backup leaves its plan on record, where it stays listed as ready, and does not ask who else needs its
  files. So locking protects a record and not the files: the copies of a locked backup stand exactly when no purge
  of another plan that is due has a place in common with them (`BackupHistories.LockedBackupStandsIff`);
  `BackupHistories.StaleRun` loses one without any fault. `purge` asks the safety boundary for every copy it unlinks,
  but not for the manifest.
* A backup source named `manifests` takes the place of the manifest directory: `apply` raises after all copies
  were made, nothing goes on record, and the copies left behind make a second attempt fail
  (`BackupRuns.NamesakeRun`). Two sources of one name can never both be applied (`Backups.SameNameSameDestination`).
* `advance_schedule` takes the later of two times, but for a due schedule that is always now plus the interval;
  missed runs are not made up (`Scheduler.FiresOnceThenWaits`).
* The search index is refreshed by comparing a fingerprint, and an upsert that repeats a stamp can go unnoticed
  (`Search.PickedUpIff`, `Search.RenamedUnderOldStamp`). Rebuilding the catalog drops its table, and SQLite
  forgets the id counter of a dropped table, while indexed text stays; so the text passes to whichever file
  takes the id (`Search.ResetHandsTextOver`).

## Model

| member | source | states |
|---|---|---|
| Base.SortComparesMultisets | teldrive_lab/safety.py:109 | comparing two tuples of paths after `sorted` is comparing them as multisets: equal exactly when every path occurs equally often in both |
| Base.LeqInWords | teldrive_lab/safety.py:109 | the order of strings: a prefix comes first, and otherwise the first difference decides |
| Safety.ProtectedIffBelowRoot | teldrive_lab/safety.py:125-132 | a path is protected exactly when some built-in or configured root or state path is a component-wise prefix of it |
| Safety.BoundaryOnlyGrows | teldrive_lab/safety.py:58-76 | configuration only adds to the boundary: whatever the built-in roots protect, and everything below it, stays protected under every configuration |
| Safety.BoundaryInWords | teldrive_lab/safety.py:42-76 | a path is protected exactly when it lies below one of the four production roots, the docker socket, or a configured root or state path |
| Safety.MutationAllowedIff | teldrive_lab/safety.py:135-164 | each of the seven mutating operations is allowed exactly when no path lies below a root of the boundary and either a receipt is given that is approved, for this operation, for exactly these paths as a multiset and listing them in order, or none is given and authorization is explicit |
| Safety.ReadingAlwaysAllowed | teldrive_lab/safety.py:166-169 | read, index, verify, plan and dry-run are never refused, on any path |
| Safety.IssuedReceiptScope | teldrive_lab/safety.py:100-110 | a receipt issued by `for_paths` for one list of paths authorizes another list exactly when that list is unprotected and equal to it as a multiset, in whatever order |
| Safety.OnlyMutationsNeedReceipts | teldrive_lab/safety.py:100-110 | `for_paths` raises ValueError exactly for the five operations that only read; otherwise the receipt is approved, for this operation and with this id |
| Safety.RefusalReason | teldrive_lab/safety.py:148-164 | every refusal names its cause in the words the transfer executor searches for, and says a receipt would help exactly when no path is protected |
| Safety.ProtectedNamed | teldrive_lab/safety.py:146-149 | a mutation touching protected paths is refused in these words, and the message names every one of them |
| Safety.Vetoed | teldrive_lab/lifecycle.py:192 | what the planners test without a receipt (`not allowed and not requires_authorization`) holds exactly when some path is protected |
| Jobs.ApplyAddressed | teldrive_lab/jobs.py:171-272 | a call addressed to one job changes at most that row: it writes the row exactly when its WHERE clause accepts it, and otherwise leaves the whole table as it was |
| Jobs.BeforeInWords | teldrive_lab/jobs.py:166 | the ORDER BY in words: CRITICAL, HIGH, NORMAL, LOW, anything else, and by creation time within a class |
| Jobs.SomeRowIsNext | teldrive_lab/jobs.py:165-166 | whenever some row is eligible there is one no eligible row precedes by (priority rank, created), so the SELECT of `claim` returns a row exactly when something is eligible |
| Jobs.JobStore.Enqueue | teldrive_lab/jobs.py:108-126 | the four refusals (attempts below one, unknown parent, ended parent, duplicate id) each with its error and an unchanged table; otherwise exactly one fresh QUEUED row is added |
| Jobs.JobStore.Claim | teldrive_lab/jobs.py:160-169 | refuses a non-positive lease; finds nothing exactly when every queued job has a retry time to come; otherwise hands out a queued job that is due, such that no other one is of a higher class, CRITICAL, HIGH, NORMAL, LOW, anything else, or older in its class; it is now RUNNING for this worker until now plus the lease, and no other row changes |
| Jobs.JobStore.Get | teldrive_lab/jobs.py:128-133 | the row of the id, or KeyError |
| Jobs.JobStore.RenewLease | teldrive_lab/jobs.py:171-177 | succeeds exactly on a RUNNING job of this worker with a positive lease; then only that row's lease and update time change |
| Jobs.JobStore.UpdateProgress | teldrive_lab/jobs.py:179-191 | succeeds exactly on a RUNNING job of this worker with progress in [0,1]; then only that row's progress and update time change |
| Jobs.JobStore.BeginVerification | teldrive_lab/jobs.py:193-204 | succeeds exactly on a RUNNING job of this worker; the row goes to VERIFYING with progress capped at 0.999999 |
| Jobs.JobStore.CompleteVerification | teldrive_lab/jobs.py:206-217 | succeeds exactly on a VERIFYING job of this worker; the row is COMPLETED with progress 1, a completion time and no owner |
| Jobs.JobStore.Pause | teldrive_lab/jobs.py:219-227 | succeeds exactly on a RUNNING job, of the named worker if one is named; owner and lease are cleared |
| Jobs.JobStore.Resume | teldrive_lab/jobs.py:229-234 | succeeds exactly on a PAUSED job, which becomes eligible at once |
| Jobs.JobStore.Complete | teldrive_lab/jobs.py:236-241 | succeeds exactly on a RUNNING job of this worker, which is COMPLETED without passing through VERIFYING |
| Jobs.JobStore.Fail | teldrive_lab/jobs.py:243-248 | succeeds exactly on a held job of this worker, which is FAILED with one attempt more and the error recorded |
| Jobs.JobStore.Cancel | teldrive_lab/jobs.py:250-255 | succeeds exactly on a job that has not ended, whoever holds it |
| Jobs.JobStore.RecoverExpiredLeases | teldrive_lab/jobs.py:257-260 | requeues exactly the held rows whose lease lies before now and returns how many they were |
| Jobs.JobStore.Retry | teldrive_lab/jobs.py:262-272 | refuses a negative delay; otherwise succeeds exactly on a held job of this worker, counting one attempt: FAILED when that was the last, else QUEUED until now plus the delay |
| Jobs.RunsCompose | teldrive_lab/jobs.py:160-272 | running one legal run after another is running their concatenation |
| JobRuns.RowOkKept | teldrive_lab/jobs.py:160-272 | no step breaks a row: owner and lease set exactly while RUNNING or VERIFYING, attempts at most the maximum and below it unless FAILED, progress in [0,1] and capped in VERIFYING, completion time set exactly in COMPLETED, where progress is 1 |
| JobRuns.StoreOkAlways | teldrive_lab/jobs.py:108-272 | every legal run of steps by any number of processes keeps all rows well formed |
| JobRuns.ReachableOk | teldrive_lab/jobs.py:91-126 | every store reachable from the empty one has only well-formed rows |
| JobRuns.StateEdges | JOB_MODEL.md:152-166 | some step of the code goes from one state to another exactly when the documented table allows it or it is RUNNING to COMPLETED or VERIFYING to CANCELLED, which the code adds |
| JobRuns.ScopeKept | teldrive_lab/jobs.py:160-272 | over any run a job never disappears, its request and creation time never change, and once ended its row never changes again |
| JobRuns.OnlyClaimInstallsWorker | teldrive_lab/jobs.py:168 | a worker comes to hold a job it did not hold only by its own claim of that job |
| JobRuns.LosingAJob | teldrive_lab/jobs.py:219-272 | a step on a held row either keeps its owner or clears it, and clears it exactly when the row stops being held |
| JobRuns.StaleWorkerFenced | teldrive_lab/jobs.py:171-272 | from a point where a worker does not hold a job, through every run in which it does not claim it, each of its fenced calls on that job fails and leaves the store unchanged |
| JobRuns.HeldThroughout | teldrive_lab/jobs.py:160-272 | if a worker holds a job at both ends of a run in which it does not claim it, the attempt count has not moved, and a RUNNING job is still RUNNING unless the worker itself began verification |
| JobRuns.AccountStep | teldrive_lab/jobs.py:160-272 | each single step moves claims and (attempts + recoveries + pauses + hold) by the same amount |
| JobRuns.ClaimAccounting | teldrive_lab/jobs.py:160-272 | in every run from the empty store: claims of a job = attempts + lease recoveries + pauses + 1 if it is held, COMPLETED, or was cancelled while held |
| JobRuns.ClaimsBounded | teldrive_lab/jobs.py:262-271 | hence a job is claimed at most `max_attempts` times plus once per recovery and once per pause |
| JobRuns.CompletedOnce | teldrive_lab/jobs.py:206-241 | in every run the successful completions of a job number one if it is COMPLETED and none otherwise, so no job is completed twice |
| JobRuns.RecoveryIsUnbounded | teldrive_lab/jobs.py:257-260 | for every n there is a legal run in which a job of one attempt is claimed n + 1 times without spending it, its lease running out each time |
| JobRuns.CompletedFromVerifyingIff | teldrive_lab/jobs.py:206-241 | in every run from the empty store, a COMPLETED job was taken from VERIFYING to COMPLETED by some step exactly when no call of `complete` on it ever met its guard, RUNNING and held by the caller |
| JobRuns.WithoutCompleteOnlyVerified | JOB_MODEL.md:15 | so where nobody calls `complete` on a job it is completed only straight from VERIFYING |
| JobRuns.CompleteSkipsVerification | teldrive_lab/jobs.py:236-241 | and a legal run exists at whose end a job is COMPLETED that was in VERIFYING at no point of it |
| Queue.ClaimsSelectInOrder | teldrive_lab/jobs.py:160-169 | after any number of claims at one instant, the rows handed out are distinct, in order, no longer eligible, and precede every eligible row not yet handed out; all other rows are untouched |
| Queue.DrainingIsASort | teldrive_lab/jobs.py:160-169 | claims at one instant until one finds nothing hand out every eligible job exactly once, in non-decreasing (priority rank, created) order, and nothing else; never a job whose retry time is still to come |
| Queue.DrainInWords | teldrive_lab/jobs.py:160-169 | the same in words: the queued jobs that are due are handed out once each, CRITICAL before HIGH before NORMAL before LOW before anything else, first come first served within a class |
| Queue.DrainProgress | teldrive_lab/jobs.py:166-168 | such a claim finds nothing exactly when nothing is eligible, and otherwise leaves exactly one eligible job fewer |
| Children.ChildSummary | teldrive_lab/jobs.py:146-155 | the counting loop returns how many jobs name this parent, and for each state how many of them are in it |
| Children.CountsPartition | teldrive_lab/jobs.py:151-155 | the seven counts add up to the total |
| Children.VerdictsIff | teldrive_lab/jobs.py:68-74 | `terminal` holds exactly when there is a child and all have ended, `successful` exactly when there is one and all are COMPLETED |
| Children.SettledForGood | teldrive_lab/jobs.py:115-120 | once a parent and all its children have ended, in every later state it has the same children with the same rows and the same summary |
| Children.SuccessLostIff | teldrive_lab/jobs.py:115-125 | an enqueue turns a successful summary unsuccessful exactly when the parent has not ended, the attempts are valid and the id is new |
| Retry.BackoffBounds | teldrive_lab/retry.py:39 | the un-jittered delay lies between the base and the maximum delay |
| Retry.NewPolicy | teldrive_lab/retry.py:20-32 | a policy is refused, with ValueError, exactly when it allows no attempt, its delays are negative or out of order, or its jitter lies outside [0,1] |
| Retry.BackoffDoubles | teldrive_lab/retry.py:39 | the first delay is the base delay, and each next one doubles it, cut at the maximum |
| Retry.DelayBand | teldrive_lab/retry.py:35-46 | for every attempt and random value in [0,1] the delay is within the jitter band around the backoff and never above the maximum |
| Retry.DelayTable | teldrive_lab/retry.py:35-46 | there is a delay exactly for attempts from one on with, unless the jitter is zero, a random value in [0,1]; else ValueError; without jitter it is the backoff |
| Retry.DelayEnds | teldrive_lab/retry.py:42-46 | the random value 0 gives the backoff times (1 - jitter), 1 gives it times (1 + jitter), cut at the maximum |
| Retry.DelayGrows | teldrive_lab/retry.py:42-46 | a greater random value gives no shorter delay |
| Retry.BackoffGrowth | teldrive_lab/retry.py:39 | from one attempt to the next the backoff never shrinks and at most doubles |
| Retry.HalfCancelsJitter | teldrive_lab/retry.py:42-46 | the fixed random value 0.5 makes the delay exactly the backoff, whatever the jitter |
| Retry.ClassifyTable | teldrive_lab/retry.py:49-63 | protected is unsafe whatever the code; otherwise each class has exactly its codes, and any other code is transient |
| Retry.SucceedsIff | teldrive_lab/transfer_executor.py:24-40 | the executor reports success exactly for an UPLOAD or DOWNLOAD with source and destination, with no receipt but one for a transfer, whose transfer succeeded |
| Retry.FailureCodes | teldrive_lab/transfer_executor.py:42-60 | a failed transfer keeps its message, "transfer failed" when there is none, and its code and status go by the first of the phrases the message contains, in this order |
| Retry.CopyFailureCodes | teldrive_lab/transfer.py:112-140 | what becomes of the ways a copy fails: different digests are retried as VERIFY_MISMATCH; a missing source or an existing destination is given up as TRANSFER_INPUT, a transfer too big as TRANSFER_RESOURCE_LIMIT |
| Retry.RefusedEarly | teldrive_lab/transfer_executor.py:29-38 | before any transfer: another kind of job is UNSUPPORTED_JOB_TYPE, one without source or destination MISSING_TRANSFER_PATH, both permanent; a receipt for another operation is AUTHORIZATION_SCOPE_MISMATCH, unsafe |
| Retry.RetriedIff | teldrive_lab/transfer_executor.py:22-60 | a failed transfer is retried exactly when its message ("transfer failed" when there is none) contains none of the five phrases searched for, and reported unsafe exactly when it contains one of the first two; a retry waits the backoff of the next attempt |
| Retry.PathDecidesRetry | teldrive_lab/transfer_executor.py:42-50 | an I/O error quotes a path: if the text around the path contains no phrase, the transfer is retried exactly when the path contains none, and given up as unsafe exactly when the path contains one of the first two |
| Retry.MentionsInQuote | teldrive_lab/transfer_executor.py:43-50 | a message that quotes a path contains one of the phrases exactly when the path does or the text before or after it does: no phrase reaches across a quote |
| Retry.DiskFullRetriedIff | teldrive_lab/transfer.py:148-150 | the message of a full disk, with any path in it, is retried exactly when the path contains none of the phrases |
| Retry.RefusedTransfersAreUnsafe | teldrive_lab/transfer_executor.py:43-46 | whatever refusal the safety boundary gives a transfer, the executor reports it unsafe, so it is not tried again |
| BackoffSpacing.NoClaimBefore | teldrive_lab/jobs.py:165 | with a clock that does not run backwards, a queued job with a retry time is claimed by no one before it, in any legal run |
| BackoffSpacing.AskedDelay | teldrive_lab/transfer_executor.py:52-59 | a retry asked for on a row carries exactly the backoff of the row's next attempt, whatever policy, receipt and outcome |
| BackoffSpacing.AskedIsBackoff | teldrive_lab/worker.py:110-116 | the same, for every policy at once, of the delay the worker passes on |
| BackoffSpacing.RetryThenWait | teldrive_lab/jobs.py:262-271 | a retry the holder records counts one attempt, ends the job exactly when it was the last, and otherwise keeps everyone from claiming it before now plus the delay |
| BackoffSpacing.BackoffHonoured | teldrive_lab/worker.py:78-119 | from a claim, through any run while the executor works, to the retry it asks for: one attempt more than the claim saw is recorded and no later claim comes before that time plus the exponential backoff of that attempt |
| BackoffSpacing.ClaimsSpacedOut | teldrive_lab/jobs.py:160-272 | over any run with a non-decreasing clock whose retries carry their backoff, the first and last claims of a job are at least the sum of the backoffs of all attempts in between apart, pauses and recoveries included |
| BackoffSpacing.ClaimsApart | teldrive_lab/jobs.py:160-272 | the same between the first claim and any other, by their positions in the run |
| BackoffSpacing.HolderSeesLastClaim | teldrive_lab/jobs.py:160-272 | in every run from the empty store, whoever holds a job sees the attempts that its last claim handed out |
| BackoffSpacing.AskedRunsAreSpaced | teldrive_lab/transfer_executor.py:52-59 | a run in which every retry of the job that takes effect was asked for by the transfer executor on the row as last claimed is one whose retries carry their backoff |
| BackoffSpacing.AskedClaimsSpacedOut | teldrive_lab/worker.py:110-116 | so with such retries and a non-decreasing clock the first claim of a job and any later one are at least the sum of the backoffs of all attempts then on record apart |
| Workers.Executor.Execute | teldrive_lab/worker.py:80-85 | records the call; others may make any legal run of the store meanwhile; an exception becomes a retryable result with no delay |
| Workers.Worker.RunOnce | teldrive_lab/worker.py:60-131 | whatever others do in the gaps: a bad lease or an empty queue leaves everything alone; otherwise exactly the least eligible job is claimed and then handled as the protocol says, with the audit trail of the path taken, a raising provider included; the executor is called once if the gate is open to the job and what the provider gave, and not at all otherwise; with a quiet last gap it ends as `ClaimToConclusion` says |
| Workers.Worker.Coordinate | teldrive_lab/worker.py:65-131 | a provider that raises leaves the job claimed, the executor uncalled and the audit at CLAIMED; the executor is called exactly once if the gate allows the job and never otherwise; afterwards the job is left exactly as found if it is no longer held, and settled by the status if it is |
| Workers.Worker.Proceed | teldrive_lab/worker.py:80-131 | the approved branch: exactly one execution, then the job is left exactly as found if it is no longer held, and settled by the status if it is |
| Workers.Worker.Deny | teldrive_lab/worker.py:68-76 | a refused job is failed with UNSAFE_OPERATION and the reason, if this worker still holds it; else the call raises and nothing changes |
| Workers.Worker.Settle | teldrive_lab/worker.py:95-131 | a success makes the two verification writes and every other status exactly its own write, with the default code, message and non-negative delay; a write that does not apply raises and changes nothing |
| Workers.GateAllowsIff | teldrive_lab/worker.py:146-156 | the gate allows INDEX and VERIFY always, and any other job exactly when each of its source, destination and path that is present resolves outside the boundary and there is an approved receipt for a transfer of exactly these resolved paths as a multiset |
| Workers.OnlyThroughGate | teldrive_lab/worker.py:65-85 | whatever happens after the claim, the executor is called once, with the claimed job and the receipt, exactly when that gate is open, and never otherwise |
| Workers.HeldSettlement | teldrive_lab/worker.py:95-129 | with nobody in the last gap, a held RUNNING job is settled without raising: COMPLETED on success, CANCELLED, FAILED, or retried with one attempt more, with the code and message of the answer or their defaults, and no other job changes |
| Workers.TransferCompletesIff | teldrive_lab/transfer_executor.py:24-60 | with the transfer executor a held RUNNING job ends COMPLETED exactly when it is an UPLOAD or DOWNLOAD with source and destination, was given no receipt but one for a transfer, and the transfer succeeded |
| Workers.QuietSettlement | teldrive_lab/worker.py:87-131 | from the claim, through any run by others: the job is left exactly as found when it is no longer held and settled as the status says when it is; COMPLETED exactly on success; no other job changes |
| Workers.ClaimToConclusion | teldrive_lab/worker.py:60-131 | from the claim to the end, whatever others do while the authorization is fetched and the executor runs, with a quiet last gap: a raising provider leaves the job as found; a lost job is not touched; a held one is FAILED with UNSAFE_OPERATION when the gate refuses, and otherwise ends as the answer says, attempts counted from the claimed row; no other job changes |
| Workers.OnlyCancelIsUnfenced | teldrive_lab/worker.py:95-129 | of the settling writes, one takes effect on a job the worker does not hold exactly when the executor answered CANCELLED and the job has not ended |
| Workers.CancelStrikesAnotherWorker | teldrive_lab/worker.py:105-108 | and it can happen: a lease runs out after the second read, another worker claims the job, and its job is cancelled |
| JobLifecycle.AuditedJobStore.Enqueue | teldrive_lab/job_lifecycle.py:72-75 | does to the store exactly what the plain store does, and appends QUEUED on success, nothing on failure |
| JobLifecycle.AuditedJobStore.Claim | teldrive_lab/job_lifecycle.py:77-84 | does to the store exactly what the plain store does, and appends RUNNING when a job was handed out, nothing otherwise |
| JobLifecycle.AuditedJobStore.Complete | teldrive_lab/job_lifecycle.py:86-89 | does to the store exactly what the plain store does, and appends COMPLETED on success, nothing on failure |
| JobLifecycle.AuditedJobStore.Pause | teldrive_lab/job_lifecycle.py:91-97 | does to the store exactly what the plain store does, and appends PAUSED on success, nothing on failure |
| JobLifecycle.AuditedJobStore.Resume | teldrive_lab/job_lifecycle.py:99-102 | does to the store exactly what the plain store does, and appends QUEUED on success, nothing on failure |
| JobLifecycle.AuditedJobStore.Cancel | teldrive_lab/job_lifecycle.py:104-107 | does to the store exactly what the plain store does, and appends CANCELLED on success, nothing on failure |
| JobLifecycle.AuditedJobStore.Retry | teldrive_lab/job_lifecycle.py:109-120 | does to the store exactly what the plain store does, and appends the state reached, QUEUED or FAILED, on success, nothing on failure |
| JobLifecycle.AuditedJobStore.RecoverExpiredLeases | teldrive_lab/job_lifecycle.py:122-133 | does to the store exactly what the plain store does, and appends one event with the count when some lease was requeued, naming no job |
| JobLifecycle.StepCases | teldrive_lab/job_lifecycle.py:72-133 | seen from one job, an audited step requeues it and logs a recovery naming no job, or logs its new state, or neither names nor changes it |
| JobLifecycle.AuditFidelity | teldrive_lab/job_lifecycle.py:72-133 | in every run through the facade the last event naming a job shows its current state exactly when no lease recovery has requeued it since; then it shows RUNNING, the job is QUEUED, and a recovery event stands later in the log |
| JobLifecycle.RecoveriesCounted | teldrive_lab/job_lifecycle.py:122-133 | over every run the counts in the recovery events add up to the number of leases requeued |
| Limiter.TransferLimiter.TakePermit | teldrive_lab/concurrency.py:35 | takes a permit exactly when one is free |
| Limiter.TransferLimiter.CheckSize | teldrive_lab/concurrency.py:31-34 | ValueError exactly when the size is negative or above the limit |
| Limiter.TransferLimiter.Admit | teldrive_lab/concurrency.py:36-39 | admits a size exactly when with the bytes in flight it stays within the limit, and then adds it |
| Limiter.TransferLimiter.ReturnBytes | teldrive_lab/concurrency.py:44-45 | takes the bytes back, clamped at zero |
| Limiter.TransferLimiter.ReturnPermit | teldrive_lab/concurrency.py:47 | gives a permit back; the bounded semaphore raises exactly when all are free |
| Limiter.NeverClamped | teldrive_lab/concurrency.py:45-47 | in every state that satisfies the invariant the clamp alters nothing and the semaphore does not raise |
| Limiter.NewLimits | teldrive_lab/concurrency.py:14-18 | limits are refused, with ValueError, exactly when they leave no worker or no byte |
| Limiter.InvKept | teldrive_lab/concurrency.py:30-47 | every step of every client keeps: bytes in flight are the sizes of the active transfers and within the limit, permits are free or held, and a sleeper not notified really does not fit (no lost wakeup) |
| Limiter.SomeoneCanStep | teldrive_lab/concurrency.py:35-47 | while some client is unfinished some client has an enabled step, although sleepers keep their permits: no deadlock |
| Limiter.MeasureDecreases | teldrive_lab/concurrency.py:30-47 | every step, a release that wakes all sleepers included, lowers a measure bounded below by zero |
| Limiter.WorkloadDrains | teldrive_lab/transfer.py:191-212 | every finite workload of any number of clients, under every schedule and whatever the backend does: no schedule exceeds the initial measure, and where nobody can step all transfers are over, all permits are free and no bytes are in flight |
| Limiter.WorkIsDone | teldrive_lab/concurrency.py:30-47 | however scheduled: when no client can step any more, each has gone from its check to its transfer exactly once for each of its sizes between zero and the limit, in their order, and for no other |
| Files.FileSystem.Replace | teldrive_lab/transfer.py:142 | on success exactly the destination changes, to the bytes of the temporary file, which is gone; on failure nothing changes |
| Transfer.MoveChunk | teldrive_lab/transfer.py:127-129 | one round reads and appends the next chunk; zero is returned exactly at the end of the source; on a faithful medium the temporary file stays a prefix of the source |
| Transfer.CopyChunk | teldrive_lab/transfer.py:127-131 | one round of the loop: a chunk is read, appended and reported, or the source is at its end; it fails only if an I/O call or the callback does |
| Transfer.AllowedIff | teldrive_lab/transfer.py:98-107 | a copy is let through exactly when neither path is protected and there is explicit authorization or an approved receipt for both paths, for an overwrite if it may overwrite and for a transfer if not |
| Transfer.Report | teldrive_lab/transfer.py:130-131 | counts strictly increase and the last one is what has been copied; the callback may raise |
| Transfer.CopyChunks | teldrive_lab/transfer.py:122-131 | without a fault all bytes are copied and, on a faithful medium, equal the source; the k-th report says the smaller of k MiB and the size; it fails only if an I/O call or the callback does |
| Transfer.Publish | teldrive_lab/transfer.py:135-143 | the destination is replaced only when both digests agree |
| Transfer.Bracket | teldrive_lab/transfer.py:120-156 | all or nothing, and the temporary file is removed unless that very unlink fails |
| Transfer.LookAndCopy | teldrive_lab/transfer.py:116-156 | an admitted transfer: an OSError escapes exactly when one of the calls for the size and first digest fails, any other failure becomes a result |
| Transfer.Copy | teldrive_lab/transfer.py:90-156 | with a fault possible at every I/O call: success with the destination's digest equal to the source's, `copied` equal to its size and no other file changed; or every file as it was, an existing destination included; an OSError escapes exactly when an admitted transfer fails while taking the size or first digest, another exception exactly when the callback raises it; no partial file left unless the final unlink failed; reports strictly increase and end at the size; without faults or obstacles the callback alone decides the outcome |
| Transfer.Managed | teldrive_lab/transfer.py:183-201 | the same through the manager: it raises exactly when its own look at the size, or those of the copy, fail, and is never a success when the safety boundary refuses |
| Transfer.DigestsCatchCorruption | teldrive_lab/transfer.py:135-147 | a copy reported as a success holds the very bytes of the source however badly the medium stored them, unless two different contents have one digest |
| Transfer.StillUnobstructed | teldrive_lab/transfer.py:109-121 | one copy does not get in the way of another whose destination lies neither above nor below its own |
| Retention.EffectiveRetention | teldrive_lab/lifecycle.py:41-44 | a record or backup is kept for the retention or the safety window, whichever is longer |
| Retention.NewPolicy | teldrive_lab/lifecycle.py:36-38 | a negative interval is refused, any other accepted |
| Lifecycle.LifecycleStore.Put | teldrive_lab/lifecycle.py:135-145 | replaces the source's row, unless another source has the same quarantine path: then IntegrityError and nothing changes |
| Lifecycle.LifecycleStore.All | teldrive_lab/lifecycle.py:154-157 | every row exactly once and as stored, in order of source |
| Lifecycle.LifecycleStore.SetLocked | teldrive_lab/lifecycle.py:159-161 | changes only the lock of an existing row |
| Lifecycle.LifecyclePlanner.QuarantinePlan | teldrive_lab/lifecycle.py:178-206 | one item per path, in order; QUARANTINE exactly for an unprotected existing file with a free unprotected target, with its digest and size and purge time now plus max(retention, safety window); else blocked; it raises exactly when an I/O call fails |
| Lifecycle.LifecyclePlanner.PlanOne | teldrive_lab/lifecycle.py:185-205 | the same for one path; an absent file never raises |
| Lifecycle.LifecyclePlanner.PurgePlan | teldrive_lab/lifecycle.py:208-223 | exactly one item per record, with its size, digest and purge time; PURGE_READY exactly when it is unlocked, its copy is present and its time has come; LOCKED exactly when it is locked |
| Lifecycle.LifecyclePlanner.RestorePlan | teldrive_lab/lifecycle.py:225-252 | exactly the records whose quarantine path is selected, each once, an empty selection or none selecting everything; RESTORE exactly when the copy is present and the target free, neither protected |
| Lifecycle.LifecyclePlanner.Reconcile | teldrive_lab/lifecycle.py:254-280 | exactly one finding per record: MISSING_QUARANTINE exactly when the copy is absent, CORRUPT_QUARANTINE exactly when it is there with another size or digest, LOCKED_VERIFIED and VERIFIED exactly when it is there as recorded, by the lock; it raises exactly when an I/O call fails |
| Lifecycle.LifecyclePlanner.ReconcileOne | teldrive_lab/lifecycle.py:257-279 | the finding of one record, each of the four exactly in its case, or an OSError exactly when an I/O call on its copy fails |
| Lifecycle.LifecycleExecutor.CopyVerified | teldrive_lab/lifecycle.py:307-312 | true only if exactly the destination is new, with the digest of the source; else no file changes; true without faults or obstacles |
| Lifecycle.LifecycleExecutor.QuarantineOne | teldrive_lab/lifecycle.py:307-321 | on success exactly the target is new, its digest is the source's and the record says so; on failure nothing changes, except that a target another source has on record leaves the copy behind and raises IntegrityError; without faults or obstacles it raises that exactly when the target is on record for another source, else answers true, and evidence survives exactly when every such record matches the source |
| Lifecycle.LifecycleExecutor.Quarantine | teldrive_lab/lifecycle.py:302-322 | only targets of the plan are added and every file keeps its bytes; every record was there before or comes from an item whose copy is present; a fresh plan with unshared targets keeps every record attested and never raises an integrity error; without faults or obstacles it answers true |
| Lifecycle.LifecycleExecutor.PurgeOne | teldrive_lab/lifecycle.py:328-339 | false exactly when the path is protected, true exactly when it is there and the unlink succeeds, which removes it and nothing else; otherwise it raises and nothing changes |
| Lifecycle.LifecycleExecutor.Purge | teldrive_lab/lifecycle.py:324-340 | removes exactly what it lists, only unprotected paths of PURGE_READY items, and all of them when it returns true, which it does without faults on copies that are there, unprotected and listed once |
| Lifecycle.LifecycleExecutor.Restore | teldrive_lab/lifecycle.py:342-360 | only destinations are added, nothing is overwritten; when it returns true every RESTORE item is back with its recorded digest, and it does so without faults from copies with their recorded digests into free and unprotected places |
| Lifecycle.LifecycleExecutor.RestoreOne | teldrive_lab/lifecycle.py:350-359 | true only if exactly the destination is new, with the recorded digest; without faults or obstacles, from a copy with that digest, it is true and the bytes are those of the copy |
| Lifecycle.NeverShared | teldrive_lab/lifecycle.py:135-145 | while a plan with unshared targets is carried out, a target that is still free is on record for no other source, so the UNIQUE constraint cannot fire |
| Lifecycle.AttestationAdded | teldrive_lab/lifecycle.py:307-318 | whatever the digest function: a verified copy under a fresh item, with a target no other source has on record, leaves every present copy with its recorded digest, and with its recorded size unless it and its source collide |
| Lifecycle.EvidenceAdded | teldrive_lab/lifecycle.py:302-322 | the size of the new record is right too exactly when the copy is as long as the source |
| Lifecycle.EvidenceOverlaid | teldrive_lab/lifecycle.py:117-119 | where a copy is made at a path another source has on record, the evidence survives exactly when that record matches the new bytes |
| Lifecycle.EvidenceMeansNoCorruption | teldrive_lab/lifecycle.py:268-275 | where evidence holds, reconcile calls no record corrupt: only missing, verified or locked and verified |
| Lifecycle.CorruptOnlyByCollision | teldrive_lab/lifecycle.py:268-275 | an attested record is called CORRUPT only if its source and its copy are present, of different lengths and with one digest |
| LifecycleRuns.QuarantineNow | teldrive_lab/lifecycle.py:178-322 | planning and carrying out a quarantine: files only appear at targets; a record is as it was, or was made by this operation for a source with a free target, with the source's size and digest and a purge time of now plus max(retention, safety window), unlocked; without faults or obstacles every source is quarantined |
| LifecycleRuns.PurgeNow | teldrive_lab/lifecycle.py:208-340 | planning and carrying out a purge: a file that goes is the copy of a record that is unlocked and due; when it answers true no such copy is left, which without faults, and with no copy protected, it does; records are untouched |
| LifecycleRuns.PurgeAndReconcile | teldrive_lab/lifecycle.py:208-340 | after a purge that answered true, reconcile reports a record missing exactly when its copy was gone before or it was unlocked and due |
| LifecycleRuns.RestoreNow | teldrive_lab/lifecycle.py:225-360 | planning and carrying out a restore: files only appear at destinations of selected records; without faults or obstacles all of them are back with their recorded digests |
| LifecycleRuns.Run | teldrive_lab/lifecycle.py:302-360 | performs any sequence of quarantine, purge, restore and lock operations with faults anywhere; its states, which it returns, form a history each step of which has the effect of its operation |
| LifecycleRuns.Origin | teldrive_lab/lifecycle.py:313-318 | in every history each record was there from the start or was made by one earlier quarantine operation, and has changed only its lock since |
| LifecycleRuns.RemovalsAreDue | teldrive_lab/lifecycle.py:208-340 | in every history a file vanishes only by a purge, as the copy of a record that is then unlocked and was made by an earlier quarantine operation whose time plus max(retention, safety window) has passed, or was there from the start and is due |
| LifecycleRuns.OthersKeepTheirBytes | teldrive_lab/lifecycle.py:302-360 | in every history a file that is on record as nobody's copy keeps its bytes |
| LifecycleRuns.SourcesKeepTheirBytes | teldrive_lab/lifecycle.py:302-360 | in every history in which each source has a quarantine path of its own, which is no source itself and nothing is restored onto, every source, and every other path that is no quarantine path, keeps its bytes |
| LifecycleRuns.LockedStays | teldrive_lab/lifecycle.py:159-161 | in every history, from a state in which a record is locked until it is unlocked or its source quarantined again, the record stands and its copy keeps its bytes |
| LifecycleRuns.AlwaysAttested | teldrive_lab/lifecycle.py:302-360 | in every history in which each source has a quarantine path of its own, which is no source itself and nothing is restored onto, whatever the digest function, each recorded copy that is present has its recorded digest, and its recorded size unless it and its source collide |
| LifecycleRuns.NeverCorrupt | teldrive_lab/lifecycle.py:268-275 | so in every such history `reconcile` calls a record corrupt only where its source and its copy are of different lengths with one digest |
| LifecycleRuns.SharedTargetRun | teldrive_lab/lifecycle.py:117-145 | two sources of one name, one quarantined, purged, then the other quarantined at the same root: `put` raises IntegrityError and `reconcile` reports the first record CORRUPT, although no I/O call failed |
| BackupRecords.BackupStore.Put | teldrive_lab/backups.py:111-114 | replaces the header, unlocked; of the item rows the last item of each source stays, and rows of other sources and digests are kept |
| BackupRecords.BackupStore.Lock | teldrive_lab/backups.py:125-127 | locks exactly an existing digest, else KeyError and no change |
| BackupRecords.BackupStore.Items | teldrive_lab/backups.py:121 | the item rows of a digest, each once, strictly sorted by source |
| BackupRecords.BackupStore.Plans | teldrive_lab/backups.py:116-123 | the plan of every row, each row exactly once, older ones first |
| BackupRecords.BackupStore.RetentionReady | teldrive_lab/backups.py:223-224 | lists, older ones first, the plan of a row exactly when it is past its purge time and its own digest, recomputed, is not locked, and each row at most once |
| BackupRecords.ListedIff | teldrive_lab/backups.py:223-224 | a plan is listed exactly when it is due and is rebuilt from some row |
| BackupRecords.ListedTwiceIff | teldrive_lab/backups.py:116-123 | a due plan is listed twice exactly when two rows rebuild it |
| BackupRecords.TwinRebuiltTwice | teldrive_lab/backups.py:111-123 | and this happens: a plan is put, and then the plan it is read back as |
| BackupRecords.ReadBackIff | teldrive_lab/backups.py:111-123 | a fresh plan is read back as the very same plan exactly when its items are strictly sorted by source |
| BackupRecords.AlwaysTraced | teldrive_lab/backups.py:111-131 | over any run of fresh puts and locks every header and its rows come from exactly one put and are locked exactly when that digest was locked after it |
| BackupRecords.RebuiltAsPut | teldrive_lab/backups.py:111-123 | over any such run of strictly sorted plans, what a row is rebuilt as is the very plan that was put there |
| BackupRecords.ReadyPlansAreUnlockedAndOld | teldrive_lab/backups.py:223-224 | over any such run of strictly sorted plans, each made under its own policy, whatever passes the filter was put, has not been locked since, and is at least as old as the max(retention, safety window) of its policy |
| BackupRecords.ListedOnce | teldrive_lab/backups.py:223-224 | over any such run of strictly sorted plans no plan is listed twice |
| BackupRecords.LockBypassIff | teldrive_lab/backups.py:168-224 | a locked plan past its time passes the filter all the same exactly when its items were not strictly sorted by source and its re-sorted twin, of another digest, is not locked |
| BackupRecords.PutKeepsLocksIff | teldrive_lab/backups.py:113 | a put keeps every lock exactly when the digest it puts was not locked |
| Backups.BackupPlanner.PlanItem | teldrive_lab/backups.py:162-167 | the error of the first check that fails (no such file, protected, destination taken); else OSError exactly when an I/O call fails; else one item with the current size and digest |
| Backups.BackupPlanner.MakePlan | teldrive_lab/backups.py:159-169 | one item per source in the order of the paths as given, each current, under the root by name, kept for max(retention, safety window); or the error of the first source that fails a check, or OSError exactly when an I/O call fails |
| Backups.BackupExecutor.Carry | teldrive_lab/backups.py:190-191 | true only if exactly the destination is new and has the expected digest; nothing existing changes; without faults or obstacles it is true |
| Backups.BackupExecutor.CopyItems | teldrive_lab/backups.py:188-192 | files are only added, at destinations of the plan; when all are carried, every destination holds its recorded digest and no two coincide |
| Backups.BackupExecutor.Apply | teldrive_lab/backups.py:187-194 | true only if destinations are pairwise distinct, every one holds its recorded digest and the plan is stored, else the store is unchanged; no file goes, none but the manifest changes, and new ones only appear at the places of the plan; without faults or obstacles all copies are made, and it is true exactly when no source is named `manifests`, else it raises OSError |
| Backups.BackupExecutor.WriteManifest | teldrive_lab/backups.py:193 | no file but the manifest changes, and that does not go; without faults it succeeds exactly when the manifest's directory can be made |
| Backups.BackupExecutor.Verify | teldrive_lab/backups.py:196-210 | VERIFIED exactly when the copy is there with its size and digest, MISSING exactly when it is not there, else CORRUPT; all VERIFIED exactly when the backup is intact; it raises exactly when an I/O call fails |
| Backups.BackupExecutor.Restore | teldrive_lab/backups.py:212-221 | nothing existing changes; true only if every file is back, at a place that was free, with its recorded digest; without faults, from an intact backup into a receptive root, it is true and sizes match |
| Backups.BackupExecutor.RestoreItem | teldrive_lab/backups.py:214-220 | one file: refused where something is in the way, or the copy is missing or has another digest; true only if it is back at a free place with its recorded digest |
| Backups.BackupExecutor.Purge | teldrive_lab/backups.py:226-236 | answers false and removes nothing when the plan's digest is locked or its time has not come; else only files of the plan go, and what it lists is what went but for the manifest; when true none of them is left; without faults it is true exactly when no copy is protected and nothing is a directory; records are untouched |
| Backups.BackupExecutor.PurgeFile | teldrive_lab/backups.py:230-232 | false exactly when the path is protected; true only if it is no directory, and then it is gone; else nothing changes |
| Backups.AppliedIsIntact | teldrive_lab/backups.py:187-210 | after `apply` returned true on a planner-made plan, and until one of those very files is altered, every item is VERIFIED unless its source and its copy are of different lengths with one digest |
| Backups.AppliedIsRestorable | teldrive_lab/backups.py:212-218 | then every unprotected root holding none of the names can take the whole backup |
| Backups.ApplyCompletes | teldrive_lab/backups.py:187-194 | after fault-free copying, whatever became of the manifest, every copy is VERIFIED, and the manifest was written exactly when no source is named `manifests` |
| Backups.SameNameSameDestination | teldrive_lab/backups.py:164 | destinations of a planner-made plan are distinct exactly when the sources' names are, so two sources of one name cannot both be backed up |
| Backups.ManifestDirectory | teldrive_lab/backups.py:168-193 | the manifest directory can be made after copying exactly when no source is named `manifests` |
| BackupRuns.BackUp | teldrive_lab/backups.py:159-210 | plan, apply and verify in a row, with a fault possible at every I/O call: existing files but the manifest are kept; once `apply` has returned true the plan is on record, destinations are distinct, every copy is new with the recorded digest and every verification that gets to its end says what is there; without faults, with distinct names, none of them `manifests`, free unprotected destinations and a usable root, all of this happens and every item is VERIFIED |
| BackupRuns.BringBack | teldrive_lab/backups.py:212-221 | while the backup files are unaltered, a restore without faults into an unprotected root holding none of the names succeeds, every file is back with its recorded size and digest, and no other file changes |
| BackupRuns.NamesakeRun | teldrive_lab/backups.py:187-194 | a run without faults: the one source is named `manifests`; the copy is made and VERIFIED, `apply` raises, nothing goes on record, and planning again raises FileExistsError |
| BackupRuns.PlanAndApply | teldrive_lab/backups.py:159-194 | plan and apply in a row, with a fault possible at every I/O call: as BackUp without the verification, and without faults, whatever the names, all copies are made and the backup is on record exactly when no source is named `manifests` |
| BackupRuns.LockBypassed | teldrive_lab/backups.py:168-224 | a run from raw paths: two sources given as `/b/x` and `z`, the latter for /a/z, are planned, applied and locked, and the plan read back, re-sorted, is listed as ready exactly when its digest differs from the one locked |
| BackupHistories.Run | teldrive_lab/backups.py:187-236 | performs any sequence of applications, locks, purges and restores with faults anywhere; its states, which it returns, form a history each step of which has the effect of its operation |
| BackupHistories.UnstruckStands | teldrive_lab/backups.py:187-236 | in every history, faults or not, a file stands from one state to another if no purge of a due plan with that place comes between, and keeps its bytes unless an applied plan has its manifest there |
| BackupHistories.FileStandsIff | teldrive_lab/backups.py:226-236 | in every history without faults whose purges are not kept from unlinking, a file stands from one state to another exactly when no purge of a due plan with that place comes between |
| BackupHistories.StaysLocked | teldrive_lab/backups.py:111-131 | in every history a locked digest stays locked until a plan with that digest is put again |
| BackupHistories.LockedBackupStandsIff | teldrive_lab/backups.py:125-236 | in every such history, from a state in which a backup is locked and all its copies are there, they stand exactly when no purge of a due plan with a place in common comes between; such a plan has another digest |
| BackupHistories.UnsharedBackupStands | teldrive_lab/backups.py:125-236 | in every history, faults or not, a copy of a locked backup that is no place of any other plan purged or applied stands with its bytes |
| BackupHistories.StaleRun | teldrive_lab/backups.py:187-236 | a run without faults: one source is backed up, purged, and backed up again at the same place, and the second backup is locked; the first plan is listed as ready still, its purge succeeds, and verification finds the locked backup MISSING, unless the two plans have one digest |
| Scheduler.BackupScheduler.Add | teldrive_lab/backups.py:241-243 | adds an enabled schedule, or refuses a non-positive interval and changes nothing |
| Scheduler.BackupScheduler.RunDue | teldrive_lab/backups.py:244-248 | exactly the enabled schedules whose time has come move on, to one interval from now; each has exactly one new BACKUP job, with its sources and destination, NORMAL and with three attempts, and no other job is new or altered; the returned ids are those jobs |
| Scheduler.BackupScheduler.FireOne | teldrive_lab/backups.py:247 | one job enqueued, one schedule advanced, nothing else changed |
| Scheduler.MovedIsFired | teldrive_lab/backups.py:141-147 | a call fires every due schedule and no other, and with positive intervals leaves none due at that time |
| Scheduler.FiresOnceThenWaits | teldrive_lab/backups.py:143-147 | a fired schedule next runs exactly one interval after the call, however late that was: missed runs are not made up; it is no longer due exactly when its interval is positive |
| Scheduler.FiringsSpaced | teldrive_lab/backups.py:141-147 | over any sequence of calls, in any clock order, consecutive firings of a schedule are at least an interval apart |
| Scheduler.FiringsSpan | teldrive_lab/backups.py:141-147 | hence n firings satisfy (n - 1) * interval <= last - first |
| Scheduler.DueCallsSpaced | teldrive_lab/backups.py:141-147 | any two calls at which a schedule is due are at least an interval apart, and each fires it |
| Traversal.ScanDirectory | teldrive_lab/resources.py:66-98 | the loop over one directory yields the files in order while there is room, stops at the first file too many or the first non-empty directory too deep, and otherwise returns the subdirectories to visit |
| Traversal.PushedChildren | teldrive_lab/resources.py:99-100 | pushing the subdirectories in reverse makes the stack visit them next, in order, before everything below them on it |
| Traversal.WalkStep | teldrive_lab/resources.py:55-100 | popping one directory either ends the traversal or leaves a stack of strictly smaller total size whose visits complete the whole output |
| Traversal.Drain | teldrive_lab/resources.py:53-100 | the stack loop terminates and outputs exactly what the recursive visit order, cut at the limits, gives |
| Traversal.IterFiles | teldrive_lab/resources.py:37-100 | negative limits raise, an absent root yields nothing, a regular file raises, and a directory gives the cut recursive order |
| Traversal.CutCases | teldrive_lab/resources.py:84-97 | where a visit order is cut: too many files exactly when more are found than allowed before the first violation, and so on for the other endings |
| Traversal.VisitsCompare | teldrive_lab/resources.py:66-100 | the files visited before the first depth violation are a prefix of the recursive walk, all of it exactly when no non-empty directory lies below the depth limit |
| Traversal.VisitsTrack | teldrive_lab/resources.py:66-100 | the visit order with its depth check meets the first non-empty directory one level too deep where the unlimited recursive scan does, after the same files |
| Traversal.MetIsThere | teldrive_lab/resources.py:66-98 | every directory the recursive scan meets is a non-empty directory of the tree, found by following its path |
| Traversal.DepthLimitStrikesFirst | teldrive_lab/resources.py:84-97 | the traversal reports the depth limit at a path exactly when it is the first non-empty directory met one level below `max_depth`, with at most `max_files` files before it, and has then yielded exactly those files |
| Traversal.TraversalRefinesWalk | teldrive_lab/resources.py:53-100 | on every finite tree what is yielded is a prefix of the recursive walk; the traversal ends normally exactly when at most `max_files` files exist and no non-empty directory lies below `max_depth`, and then has yielded all of it; too many files means exactly the first `max_files`; it ends at the depth limit exactly when at most `max_files` files come before the first non-empty directory one level too deep, and then reports that directory and has yielded exactly those files |
| Traversal.WalkExactly | teldrive_lab/resources.py:53-100 | the recursive walk lists exactly the paths that lead to a file of the tree |
| Traversal.WalkInOrder | teldrive_lab/resources.py:58-100 | where no directory has two entries of one name, the walk lists the files of a directory by name and then what lies in its subdirectories by name, and nothing twice |
| Traversal.YieldsFilesInOrder | teldrive_lab/resources.py:37-100 | so the bounded traversal yields files of the tree only, in this order, each once, and all of them when it ends normally |
| Search.Catalog.Upsert | teldrive_lab/catalog.py:110-125 | a known identity keeps its id and first sighting and takes everything else from the record; a new one gets the next id; ids and identities stay unique and no other row changes |
| Search.Catalog.Rebuild | teldrive_lab/catalog.py:161-167 | the table is empty and its ids start again at one |
| Search.UnifiedSearch.TakeFingerprint | teldrive_lab/search.py:76-79 | row count, greatest last-seen and modified stamps (none when there are none) and content count |
| Search.UnifiedSearch.FillIndex | teldrive_lab/search.py:83-85 | afterwards the index has one row per catalog row, each column from its own column and the text from the content table, empty when there is none |
| Search.UnifiedSearch.Rebuild | teldrive_lab/search.py:81-89 | the index is the join and the stored fingerprint the current one; catalog and content are untouched |
| Search.UnifiedSearch.EnsureCurrent | teldrive_lab/search.py:91-99 | rebuilds exactly when the stored fingerprint is not the current one, and otherwise changes nothing |
| Search.UnifiedSearch.IndexContent | teldrive_lab/search.py:101-110 | refuses a bad id, length or kind or an unknown record and changes nothing; otherwise replaces the record's text and rebuilds |
| Search.UnifiedSearch.RemoveContent | teldrive_lab/search.py:112-116 | forgets the record's text and rebuilds |
| Search.LaterShows | teldrive_lab/search.py:76-79 | an upsert with a stamp later than all before it always changes the fingerprint |
| Search.AlwaysTracks | teldrive_lab/search.py:81-116 | over every interleaving with ever later stamps: wherever the fingerprint is current the index agrees |
| Search.IndexAgreement | teldrive_lab/search.py:91-99 | for every interleaving of upserts with ever later stamps, catalog rebuilds, content edits and refreshes, a refresh leaves the index equal to the catalog joined with the content |
| Search.PickedUpIff | teldrive_lab/search.py:91-99 | whatever its stamp, an upsert is picked up by the next refresh exactly when its identity is new, or it changes the fingerprint, or it changes no indexed column |
| Search.RenamedUnderOldStamp | teldrive_lab/search.py:91-99 | and one is missed: a file renamed under the stamps it already had stays under its old name |
| Search.ContentStaysWithItsFile | teldrive_lab/search.py:101-116 | without a catalog rebuild, in every run, text is kept only for existing records and an id never comes to denote another file |
| Search.ResetHandsTextOver | teldrive_lab/catalog.py:161-167 | after a catalog rebuild the next file takes id 1 and is indexed with the text given for the earlier record 1; its row is right exactly when there was no such text |
| Snapshots.SortedPaths | teldrive_lab/advanced.py:483 | lists a set of paths, each once, in order |
| Snapshots.CreateSnapshot | teldrive_lab/advanced.py:479-488 | the full manifest, its parent's digest, the entries new or different from the parent's, and the parent's paths that are gone |
| Snapshots.IncrementRebuilds | teldrive_lab/advanced.py:482-483 | dropping what was deleted and writing what changed turns the parent's files into exactly the child's |
| Snapshots.IncrementIsLeast | teldrive_lab/advanced.py:482-483 | and no smaller increment does: any other with the same effect deletes at least the same paths and writes at least the same entries |
| Snapshots.ReplayRebuilds | teldrive_lab/advanced.py:479-488 | replaying the increments of any chain from nothing rebuilds the last full manifest |
| Snapshots.RestoreFromAnyBase | teldrive_lab/advanced.py:479-488 | any snapshot of a chain can be the base: replaying what follows it gives the same manifest |
| Snapshots.VerifySnapshot | teldrive_lab/advanced.py:491-498 | missing, extra and changed list exactly those paths; verified exactly when paths, sizes and digests agree, whatever the times |
| Snapshots.VerifiedIffOnlyTimesChanged | teldrive_lab/advanced.py:479-498 | a tree verifies exactly when the next snapshot of it would delete nothing and rewrite only entries whose time alone differs |
| Snapshots.VerifiedMeansSameBytes | teldrive_lab/advanced.py:470-498 | where the digest separates the contents in question, a tree verifies exactly when it has the very bytes it had |

## Left out

- SQLite itself: SQL text, WAL, locking timeouts, full-text matching and schema migration; tables are maps.
- Process crashes between two writes, in particular between a store write and its audit write.
- SHA-256 internals, JSON and manifest texts, ISO timestamps and UUID generation.
- Path resolution, symbolic links, environment variables, and the inspection that decides how an executor is called.
- I/O errors and links during traversal: an entry that cannot be read is skipped by the code; the trees here are readable.
- The system's text of an I/O error, which is arbitrary here; the classification is proved for every message and every quoted path.
- Spurious wakeups of the condition variable; one would only send a sleeper back to its check.
- Views of modelled state that change nothing: `list_jobs`, the backups' `reconcile`, the lifecycle's plan digests and counts.
- Wrappers of modelled operations: `snapshot_plan` and `lock_records`.
- Helpers on plain values that no modelled operation calls: `idempotency_key`, `reconcile` of job_lifecycle.py, `retention_plan`.
- That a parent waits for its children, or that a lifecycle purge rechecks the lock: the code enforces neither.
- Search query parsing, ranking and paging, which read the index and do not change it.
- rclone, subprocess, network, HTTP, command-line and user-interface code, and the modules built as dispatch tables over the above.
- Retry.Execute: the message of an unsupported job type is shortened, and codes are compared as given, since every caller of the classification passes upper case.
- Workers.Executor.Execute: the side effects of an executor are not modelled, only what it answers and what others do to the store meanwhile.
- Workers.QuietSettlement and Workers.ClaimToConclusion: assume nobody steps in between the second read and the settling writes; without that, Workers.Worker.Settle and Workers.OnlyCancelIsUnfenced say what can happen.
- BackoffSpacing.AskedClaimsSpacedOut: a retry recorded because an executor raised carries no delay and is not covered.
- Backups.BackupExecutor.Apply: the text written to the manifest is not modelled, since neither verify nor restore reads it.
- Differences between the clocks of several machines: the spacing results read one clock that never runs backwards; all other results leave the clock free.
