# Celeste Hyper: a verified model of the job runner and its algorithms

Celeste Hyper deploys container images to Kubernetes clusters. Its hard core is a crash-tolerant job
runner: a job table, per-resource locks with fencing tokens and a current-deployment table in SQLite, and
worker processes that claim jobs, hold a lock while a handler runs, and settle the job afterwards. Around
it stand a dotenv editor, an alert manager, an audit trail, a schema migration harness, a log scanner, a
network scanner, a health gate, a port allocator and a multi-node image import.

This project models that code in Dafny and proves what it promises, for all inputs, all runs and all
interleavings. `dafny verify dfyconfig.toml` checks everything.

How the files fit together:

- **Job runner.** `Tables` holds the tables. `Locks` and `Fencing` give every lock and
  `current_deployment` statement as a method over the database and as a function on the table, with laws
  about arbitrary histories. `Jobs` gives the queue's statements as functions, `JobRuns` their laws over
  runs, `Queue` the class that executes them. `Workers` is the protocol: one step per SQL statement, any
  number of worker processes, arbitrary interleavings, restarts, a clock that only moves forward. `Worker` is the
  worker class, proved to be a run of that protocol. Over all runs of it, `LockRaces` says when lock tokens
  order the acquisitions, `WorkerStarts` bounds attempts and handler starts, `WorkerTables` says when terminal
  states last and when the job table keeps its invariant, and `WorkerRuns` treats prompt and stalled workers and
  shows the runs that go wrong (`WorkerMoves` builds them). `WorkerLeases` says how long beats and renewals keep a
  job and its lock, `WorkerRetries` how long a delayed job waits, `JobEndings` what the table tells of how attempts
  ended. `Handlers` and `HandlerMethods` add the deploy and rollback handlers, with the degraded marks and
  automatic rollbacks; `HandlerMarks` has the laws of the marks.
- **dotenv.** `EnvText` (escaping, lines), `EnvFiles` (the parser's and printer's loops), `EnvRoundTrip`,
  `EnvHandwritten` (text the printer never emits).
- **Alerts.** `Alerts` (one cycle as a function of the store, laws over many), `AlertHistories` (who is notified, told from
  the history), `AlertManager` (the class).
- **Audit trail.** `Audit` (query, cursor, append, prune), `AuditPaging` (laws of following the cursor),
  `AuditQueries` (which rows a query asks for).
- **Migrations.** `Migrations` (any number of processes, interleaved by transaction), `MigrationHarness`
  (the loop of one process).
- **Log scanning.** `LogStamps` (timestamps), `LogScan` (the loop), `LogResume` (resuming from a cursor),
  `LogTracebacks` (resuming with tracebacks in the log), `LogBlocks` (one traceback that a poll cuts or repeats),
  `LogReports` (what a finding says of its line).
- **Network scan.** `Addresses` (dotted quads, masks, prefix blocks), `NetworkScan` (the expansion loops),
  `ScanTargets` (what they compute).
- **Image import.** `BundleNames` (Job names), `SlugWords` (what a slug is of a text's words), `JobNameClashes` (when two of them are equal), `FanOut` (bounded
  concurrency, also used by the network scan), `BundleImport` (the orchestration).
- **Others.** `HealthGate`, `Ports`, and the shared `Text`, `Sequences`, `Sets`, `Powers` and `Wrappers`.

Where the source works by changing things in place (tables, fields, loops over accumulators), the model is
a class or a method with a loop, specified by a function; the laws are lemmas about that function. Each
method of `Queues.Queue` executes the function of its name in `Jobs` or `Locks`; below, only those with more to
them have a row of their own.

## Where the code and its comments disagree

- `src/lib/lock.ts:55` says that renewing a released lock fails. It succeeds as long as nobody else acquired
  the lock: `Locks.ReleasedLockCanBeRenewed` is a concrete run, `Locks.RenewIffLatestGrant` the exact
  condition.
- `src/queue/queue.ts:51-52` promises that lock and fencing token serialise workers across processes, and
  `src/lib/lock.ts:18-22` that tokens strictly increase. But an acquisition is a SELECT and an upsert without a
  guard, atomic within one process only (`src/lib/lock.ts:30-32`). Two processes that both read a free lock's row
  before either writes it hold the lock under one token, and the older of them can overwrite what the newer one
  deployed: `LockRaces.TwoLooksShareAToken` for any two workers, `LockRaces.TwoProcessesDefeatFencing` as a run.
  Tokens increase over a whole run if and only if no grant is written on a token that changed since its reader
  saw it (`LockRaces.TokensIncreaseIff`); the fencing results rest on that condition.
- `deferClaim` and `noRetry` (`src/queue/queue.ts:171-173`, `209-216`) have no state guard. A worker stalled
  between claim and deferral for longer than its lease reopens a job that another worker has completed:
  `WorkerRuns.StalledDeferralReopensAFinishedJob` is the run. Over all runs, done, failed and dead are left
  if and only if some step is the deferral of a job that is terminal by then
  (`WorkerTables.TerminalIsFinalIff`); without a stall past the lease there is no such step
  (`WorkerRuns.PromptRunsNeverReopenJobs`).
- The table invariant (a pending job has attempts left) is another matter: it holds throughout a run if and only
  if no worker burns the retries of a job that is back in the queue, and none records a retry after the last
  attempt was burned between the SELECT and the UPDATE of its `fail` (`WorkerTables.TableIsOkThroughoutIff`). Both
  happen: `WorkerRuns.ZombieBurnsAPendingJob`, `WorkerRuns.ZombieSpendsARetry`.
- `State.setCurrent` (`src/lib/state.ts:297-303`) is unfenced: it replaces the tag and keeps the token
  (`Fencing.UnfencedWriteReplacesTheTag`).
- A dotenv value that begins with an apostrophe and is printed bare is read back as a single-quoted literal
  (`EnvRoundTrip.ApostropheIsLost`); `EnvRoundTrip.RoundTrip` has the exact domain of the round trip.
- A traceback breaks the resumability of the log scan. Its continuation lines do not move the cursor, so a second
  poll reports them one by one as far as they are newer (`LogBlocks.TracebackIsReportedAgain`); polling again is
  silent if and only if no line newer than the cursor, or without a timestamp, heads a traceback or reports by
  itself (`LogTracebacks.RepeatedPollIff`, `LogTracebacks.GrownLogIff`). A poll that ends inside a traceback cannot
  be made up for by any second poll, unless the rest leaves the traceback's finding as it was
  (`LogBlocks.CutTracebackIff`, with a log in `LogBlocks.TornTraceback`). A reporting line without a timestamp is
  reported again by every poll (`LogResume.ResumeIff`).
- Timestamps are cut to nine fraction digits, so later stamps can tie (`LogStamps.TenthDigitsTie`); they compare
  rightly if and only if they do not (`LogStamps.NormalizeKeepsOrder`).
- The cap of a network scan counts texts, so two spellings of an address count twice
  (`ScanTargets.TwoSpellingsAreListedTwice`, for example `1.1.1.1` and `01.1.1.1`). Texts and addresses are
  equally many if and only if no two different texts listed read as one address (`ScanTargets.CountsAddressesIff`).
- `importJobName` (`src/services/bundle-import.ts:83-90`) does not keep all nodes of an import apart: when
  service and tag are cut beside a dash, nodes named `a` and `x-a` get one Job name
  (`JobNameClashes.CutNamesClash`, with the concrete input in `JobNameClashes.PaymentsClash`).
  `JobNameClashes.JobNamesCollideIff` has the exact condition for all services, tags and nodes. The import
  then refuses to start (`BundleImport.OneJobPerNode`).

- The reason a failed health gate gives for a killed pod (`src/services/health-gate.ts:71-74`) is the pod's waiting
  reason, if it has one: of a pod whose container ran out of memory while another one still starts it names the start.
  `HealthGate.FatalStateIsNamedIff` has the exact condition.

## Model

| member | source | states |
|---|---|---|
| Locks.AcquireLock | src/lib/lock.ts:23-46 | the row afterwards and the grant are those of the acquisition function: refused while the expiry lies ahead, otherwise the next token and a full term |
| Locks.RenewLock | src/lib/lock.ts:58-73 | extends exactly the row with this resource, holder and token, and reports whether it did |
| Locks.ReleaseLock | src/lib/lock.ts:49-51 | zeroes the expiry of the holder's row and keeps its token |
| Locks.TokenCountsGrants | src/lib/lock.ts:38-46 | after any history of calls the stored token is the number of acquisitions granted for the resource |
| Locks.TokensStrictlyIncrease | src/lib/lock.ts:18-22 | of two acquisitions of a resource in any history, the later has the higher token, through releases and expiries |
| Locks.OneTtlKeeps | src/lib/lock.ts:66-72 | with one TTL and a monotone clock no renewal shortens a lease |
| Locks.NoAcquisitionBeforeExpiry | src/lib/lock.ts:33-37 | once a holder is granted an expiry, no acquisition succeeds before it unless that holder releases or cuts its own lease short |
| Locks.RenewIffLatestGrant | src/lib/lock.ts:53-73 | over all histories a renewal succeeds if and only if the caller made the latest granted acquisition, released or expired or not |
| Locks.ReleasedLockCanBeRenewed | src/lib/lock.ts:53-57 | a concrete run in which a renewal succeeds after a release, against the comment |
| Fencing.FencedSetCurrent | src/lib/lock.ts:82-97 | writes the row exactly when there is none or its token is not higher, and reports whether it did |
| Fencing.SetCurrent | src/lib/state.ts:297-303 | replaces tag and time and keeps the stored token, 0 for a new row |
| Fencing.StoredTokenIsTheMaximum | src/lib/lock.ts:75-97 | after any mix of writes the stored token is the highest fenced token written to the service |
| Fencing.StoredTagIsTheDecidingWrite | src/lib/lock.ts:82-97 | the stored tag and time are those of a write no earlier write outranks and every later one is outranked by |
| Fencing.DecidingWriteCarriesTheTokenIff | src/lib/state.ts:297-303 | over any mix of writes the stored token is the deciding write's own if and only if that write is fenced |
| Fencing.FencedWritesKeepTheMaximum | src/lib/lock.ts:75-97 | with fenced writes only, the stored tag is that of the last write carrying the maximum token |
| Fencing.StaleWriteIsRefused | src/lib/lock.ts:77-80 | however many writes come between, a fenced write with a lower token than an earlier fenced write changes nothing |
| Fencing.UnfencedWriteReplacesTheTag | src/lib/state.ts:297-303 | a concrete history in which the stored tag was set by no write carrying the stored token |
| Jobs.Least | src/queue/queue.ts:102 | the id chosen is in the set and below all others |
| Jobs.NextId | src/queue/queue.ts:81-87 | an id assigned by the database is new and above every id in the table |
| Jobs.ReapInTwoStatements | src/queue/queue.ts:228-238 | the two reaping updates, one after the other, change each expired row once, as one combined update would |
| JobRuns.RunKeepsTableOk | src/queue/queue.ts:96-239 | every disciplined run of the queue's statements keeps: running iff lease holder and lease time are set, pending implies attempts below the maximum, running implies between one and the maximum |
| JobRuns.NoRetryKeepsTableOkIffNotPending | src/queue/queue.ts:171-173 | burning retries keeps that invariant if and only if the job is not pending |
| JobRuns.DeferKeepsTableOkIffClaimed | src/queue/queue.ts:210-216 | a deferral keeps it if and only if the job was claimed at least once |
| JobRuns.RecordFailureKeepsTableOkIff | src/queue/queue.ts:146-163 | the UPDATE of `fail` keeps it if and only if it is not the retry of a job the holder still leases and whose attempts are spent by now |
| JobRuns.EnqueueKeepsTableOkIffAttempts | src/queue/queue.ts:68-88 | an enqueue keeps it if and only if at least one attempt is granted |
| JobRuns.TerminalIsFinal | src/queue/queue.ts:125-139 | no disciplined call takes a job out of done, failed or dead or touches its attempts |
| JobRuns.TerminalStaysTerminal | src/queue/queue.ts:125-239 | nor does any disciplined run |
| JobRuns.OnlyTheLeaseHolderSettles | src/queue/queue.ts:127-163 | completing or failing on behalf of a holder changes the table if and only if that holder leases the running job |
| JobRuns.AttemptsAreNetClaims | src/queue/queue.ts:96-106 | in every run, disciplined or not, a job's attempts are its claims less its deferrals |
| JobRuns.MaxAttemptsNeverGrow | src/queue/queue.ts:171-173 | a job's maximum of attempts never grows |
| JobRuns.ClaimsAreBounded | src/queue/queue.ts:96-239 | whatever mix of errors, lease losses, deferrals and burned retries, claims less deferrals never exceed the attempts granted at the start |
| JobRuns.StepSpendsBudget | src/queue/queue.ts:96-239 | every call that changes a job's state lowers a non-negative measure of its remaining attempts, but for a deferral, which raises it by one |
| JobRuns.StateChangesAreBounded | src/queue/queue.ts:96-239 | so a run changes a job's state at most twice per attempt, plus deferrals |
| JobRuns.ClaimTakesTheOldestDueJob | src/queue/queue.ts:95-106 | a claim takes the lowest id among due jobs, touches no other row, and takes nothing if and only if none is due |
| Queues.Queue.Claim | src/queue/queue.ts:96-106 | table and result are those of the claim function |
| Queues.Queue.Fail | src/queue/queue.ts:146-163 | one transition of the guarded row: back to pending at its backoff, or failed, returning what was decided even when the guard refuses; the backoff is `WorkerRetries.BackoffDoublesToAMinute` |
| WorkerRetries.BackoffDoublesToAMinute | src/queue/queue.ts:44-46 | the delay is five seconds at first, doubles, and is never more than a minute |
| WorkerRetries.NoClaimBeforeTheDelay | src/queue/queue.ts:95-106 | in every interleaving a waiting job that nobody cancels is due exactly from the end of its delay on, and no claim takes it sooner |
| WorkerRetries.DelayedJobWaits | src/queue/queue.ts:146-216 | so a retried, deferred or newly submitted job is claimed by nobody before its delay has passed and is due from then on |
| JobEndings.LastEndingIsTold | src/queue/queue.ts:139-163 | over all disciplined runs a row's error is that of the call that last ended an attempt, and its state, when terminal, too |
| JobEndings.FailedOrDead | src/queue/queue.ts:139-145 | a job is failed, dead or done if and only if its last attempt was ended by a failure without a retry, a lost lease on the last attempt, or a completion: failing handlers and dying workers are told apart |
| JobEndings.EndingIsRecorded | src/queue/queue.ts:133-240 | what each ending leaves in every column, reaping included; no other call ends an attempt or touches the error |
| JobEndings.DeferralUndoesTheClaim | src/queue/queue.ts:209-216 | a deferral undoes the claim before it, but for the time of the next attempt |
| JobEndings.AnswersTellTheTable | src/queue/queue.ts:89-163 | `fail` answers the state it leaves the job in, and `cancelPending` whether the job left the table, which only a pending one does |
| JobEndings.EnqueuedIsDueAfterItsDelay | src/queue/queue.ts:67-88 | a job enqueued is new, due exactly from its delay on and at once without one, with three attempts unless told otherwise |
| Queues.Queue.ReapExpiredLeases | src/queue/queue.ts:223-239 | reaps every expired lease once and returns how many there were |
| Workers.AcquireInTwoSteps | src/lib/lock.ts:30-45 | the SELECT and the upsert of the protocol, with nothing in between, are the acquisition |
| Workers.FailInTwoSteps | src/queue/queue.ts:146-163 | likewise the SELECT and the UPDATE of `fail` |
| Workers.RunKeepsFencing | src/queue/worker.ts:104-145 | in every interleaving of any workers in which no grant is written on a changed token: each lock in hand belongs to its worker, no token in hand exceeds the table's, two workers on one resource have different tokens, and every fenced write so far carried a token the lock table had granted |
| Workers.LaterHolderOutranks | src/queue/worker.ts:110-118 | a worker that takes a lock on the token it read gets a higher token than every worker still running on that resource |
| Workers.LiveLockIsExclusive | src/lib/lock.ts:33-46 | under the fencing invariant two live locks on one resource are one worker's, every other worker that looks is turned away, and only one that read this very lock as free before can still take it |
| Workers.ReapedWorkerCannotOverwrite | src/lib/lock.ts:75-97 | over whole runs: once a worker has written a service under its token, a worker with an older token changes nothing there |
| Workers.NewestAcquisitionWins | src/lib/lock.ts:82-97 | in every reachable state, without unfenced writes and without grants on changed tokens, a service shows the tag of the last write of the highest token that ever wrote it |
| LockRaces.TokensIncreaseIff | src/lib/lock.ts:18-46 | over all runs of any workers: tokens strictly increase across the acquisitions of every resource if and only if no grant is written on a token that changed since its worker read it |
| LockRaces.TokensAreOrdinals | src/lib/lock.ts:33-45 | in such runs the tokens of a resource are 1, 2, 3, one for each acquisition, and the table holds the last |
| LockRaces.TagIsOfTheNewestAcquisition | src/lib/lock.ts:75-97 | so the stored token numbers an acquisition, and every write to the service came from that acquisition or one before it |
| LockRaces.TwoLooksShareAToken | src/lib/lock.ts:30-45 | any two workers that read a free lock's row before either writes it both hold the lock, under one token, and the fencing invariant is lost |
| LockRaces.OlderHolderOverwrites | src/lib/lock.ts:82-97 | then the older holder's fenced write replaces the newer one's tag |
| LockRaces.TwoProcessesDefeatFencing | src/queue/queue.ts:49-53 | a concrete run of two workers in which this happens |
| WorkerStarts.AttemptsNeverExceedTheGrant | src/queue/queue.ts:96-239 | in every interleaving, with stale heartbeats, deferrals and burned retries, a job's attempts column stays within what it was submitted with, and below it while pending |
| WorkerStarts.StartsNeverExceedTheGrant | src/queue/worker.ts:104-134 | in every interleaving, cancellations, crashes and late deferrals included, the handler of a job is entered at most as often as the job was submitted for |
| WorkerStarts.DeferralFindsAnAttempt | src/queue/queue.ts:210-216 | in every reachable state a worker about to give a claim back finds an attempt to take back, however late |
| WorkerTables.StepReopensIff | src/queue/queue.ts:210-216 | one step takes a job out of done, failed or dead if and only if it is the deferral of that terminal job by a worker that found the lock taken |
| WorkerTables.TerminalIsFinalIff | src/queue/worker.ts:104-145 | over all runs and lease times: a job, once done, failed or dead, stays so with its attempts unchanged if and only if no step defers it while it is terminal |
| WorkerTables.StepKeepsTableIff | src/queue/worker.ts:104-145 | in every reachable state one step keeps the table invariant if and only if it neither burns the retries of a pending job nor records a retry whose attempts were spent since it read them |
| WorkerTables.TableIsOkThroughoutIff | src/queue/worker.ts:104-145 | over all runs the invariant (running exactly with a lease, pending with attempts left) holds throughout if and only if no step does either of the two |
| WorkerRuns.PromptRunsNeverReopenJobs | src/queue/worker.ts:104-118 | a corollary: when no worker stalls past its lease between claim and handler, terminal states are final in every interleaving |
| WorkerRuns.StalledDeferralReopensAFinishedJob | src/queue/worker.ts:110-116 | a concrete interleaving in which a stalled deferral reopens a completed job |
| WorkerRuns.ZombieBurnsAPendingJob | src/queue/queue.ts:171-173 | a concrete interleaving in which a reaped worker leaves a pending job without attempts |
| WorkerRuns.ZombieSpendsARetry | src/queue/queue.ts:146-163 | one in which it does so between the two statements of another worker's `fail` |
| WorkerObject.Worker.Stop | src/queue/worker.ts:82-101 | stops claiming, and has drained exactly when nothing is in flight |
| WorkerObject.Worker.Tick | src/queue/worker.ts:104-145 | the database after a tick is that of the protocol steps of one undisturbed tick; a stopping worker does nothing |
| WorkerObject.Worker.Process | src/queue/worker.ts:110-145 | a contended claim is given back; otherwise token, handler, settling and release happen in this order |
| WorkerObject.Worker.Finish | src/queue/worker.ts:126-137 | the outcome is recorded under the holder guard before the lock goes back |
| WorkerObject.ActsKeepWorking | src/queue/worker.ts:120-137 | whatever a handler does, undisturbed its job stays running under its name and the lock's row keeps its name and token; until when they run is `WorkerLeases.LeaseRunsFromTheLastBeat` |
| WorkerLeases.BeatsKeepTheLease | src/queue/worker.ts:120-137 | in every interleaving, while less than a lease passes between beats, the lease runs one term from the last beat and so ahead of the clock |
| WorkerLeases.ReapingSparesTheLease | src/queue/queue.ts:223-240 | reaping with any clock reading up to now leaves such a job alone |
| WorkerLeases.RenewalsKeepTheLock | src/queue/worker.ts:120-137 | likewise the lock, from the last renewal, while no other worker is about to write a grant |
| WorkerLeases.NobodyFindsTheLockFree | src/lib/lock.ts:30-52 | meanwhile every other worker's look finds the lock held |
| WorkerLeases.LeaseRunsFromTheLastBeat | src/queue/worker.ts:157-171 | from the claim on, lease and lock end exactly one term after the last beat and the last renewal |
| WorkerLeases.KeptIffBeatInTime | src/queue/queue.ts:117-123 | at any moment of a handler's run, reaping leaves the job if and only if less than a lease has passed since the last beat, and the lock is found held if and only if less than a term has passed since the last renewal |
| WorkerObject.UndisturbedTickSettles | src/queue/worker.ts:104-145 | a tick that reaches the handler settles the job by the handler's outcome and frees lock and worker |
| WorkerObject.TickIsARun | src/queue/worker.ts:104-145 | a tick is a run of the interleaving protocol, so all its laws apply |
| Handlers.Reachable | src/queue/handlers/deploy.ts:37-96 | every state reached from the start, crashes and restarts included, keeps the handler invariants |
| Handlers.OneAutoRollbackPerService | src/queue/handlers/deploy.ts:62-92 | in every reachable state of one worker a service has at most one active automatic rollback |
| Handlers.DoomedDeployFailsForGood | src/queue/handlers/deploy.ts:46-92 | a deploy that enqueued a rollback, found one active, or was refused by the degraded gate or the env guard is never attempted again and ends failed once let go, unless the worker dies with this very job in hand; it may die with any other |
| Handlers.DoomedDeployIsNeverClaimed | src/queue/handlers/deploy.ts:46-92 | such a deploy is never claimed again, wherever the worker dies, but for the gap between enqueueing the rollback and burning the retries |
| Handlers.DoomedJobSettlesFailed | src/queue/queue.ts:146-157 | letting go of such a job records it as failed |
| HandlerMethods.HandleDeploy | src/queue/handlers/deploy.ts:37-96 | returns if and only if the service was found, is not degraded and the deploy succeeded, and otherwise throws; an automatic rollback is queued and retries are called off exactly as `HandlerMethods.AnsweredJobs` says of the inputs; the deployment row is started once and marked broken for a degraded service |
| HandlerMethods.DeployAnswers | src/queue/handlers/deploy.ts:37-96 | told from the inputs and the job table alone, for the protocol's steps: the handler returns only for a deploy let through that succeeded; a new automatic rollback, due in ten seconds, is in the table if and only if the gate failed on a service set up for it, none was active and there is a target; no other job is added; retries are called off exactly when degraded, stopped by the env guard, or rolled back |
| HandlerMethods.AutoRollback | src/queue/handlers/deploy.ts:62-93 | enqueues at most one rollback and always throws |
| HandlerMethods.FinalizeRollback | src/lib/state.ts:278-284 | the fenced tag write, the terminal status and the cleared mark happen together |
| HandlerMethods.HandleRollback | src/queue/handlers/rollback.ts:100-163 | throws if and only if service, undo or rollout fail; success finalizes under the job's token; a failure leaves the tag alone and the deployment applying (untouched when the service is not found), and marks the service degraded when the rollback was automatic |
| HandlerMethods.FinalTagIsWhatRuns | src/queue/handlers/rollback.ts:140-158 | a tag is recorded only when the cluster reported exactly it |
| HandlerMethods.RecordedTag | src/queue/handlers/rollback.ts:140-158 | the recorded text: the reported image if it is the expected one or none was expected, else the revision, else the reported image, else `rollback-rev-unknown` |
| HandlerMethods.RollbackMarksMatch | src/queue/handlers/rollback.ts:100-113 | the protocol's rollback steps move the degraded marks as the handler does |
| HandlerMarks.DegradedIffFailureStands | src/queue/handlers/rollback.ts:100-163 | over all runs a service is degraded if and only if an automatic rollback of it failed and neither a successful rollback nor the operator has cleared it since |
| HandlerMarks.BusyLockUndoesThePoll | src/queue/worker.ts:104-117 | a poll whose job finds its resource locked changes nothing, beyond the reaping, but when the job is due |
| HandlerMarks.DeploySettles | src/queue/worker.ts:120-171 | a deploy job ends done if and only if it was let through and succeeded, failed for good if and only if it was not and retries are called off or spent, and otherwise waits for its backoff |
| HandlerMarks.OthersSettle | src/queue/handlers/rollback.ts:115-163 | a rollback ends done if and only if its service was found and kubectl undid and rolled out, a job of another kind if and only if its handler returned |
| EnvText.ChainIsEscape | src/lib/env-files.ts:129-134 | the five replacements in sequence escape each character on its own |
| EnvText.UnescapeInvertsEscape | src/lib/env-files.ts:62-64 | unescaping undoes that escape for all texts |
| EnvText.FindClosingDquote | src/lib/env-files.ts:51-60 | the loop finds the first unescaped quote |
| EnvText.ClosingQuoteEndsEscape | src/lib/env-files.ts:51-60 | on an escaped value followed by a quote it stops exactly at that quote |
| EnvText.QuotedIsOneLine | src/lib/env-files.ts:126-138 | a printed value contains no line break and does not end in a carriage return |
| EnvText.SplitPrinted | src/lib/env-files.ts:74 | splitting printed lines gives them back, each less a final carriage return, and one empty line |
| EnvFiles.ReadQuoted | src/lib/env-files.ts:95-109 | the inner loop collects a quoted value over as many lines as it takes |
| EnvFiles.ParseRows | src/lib/env-files.ts:71-124 | the loop computes the recursive parse of the lines, of which `EnvRoundTrip` says what it makes of printed text and `EnvHandwritten` what of any other |
| EnvFiles.SerializeRows | src/lib/env-files.ts:141-151 | content and stripped keys are those of the printing functions |
| EnvFiles.RowErrors | src/lib/env-files.ts:154-166 | no error if and only if every key is valid and none repeats |
| EnvRoundTrip.ParseOfPrinted | src/lib/env-files.ts:71-151 | what parsing printed rows yields, for all rows with valid keys: an error if and only if keys repeat, otherwise each row read back |
| EnvRoundTrip.DescriptionBackIff | src/lib/env-files.ts:83-86 | a description comes back if and only if absent, or non-empty with trimmed lines |
| EnvRoundTrip.RoundTrip | src/lib/env-files.ts:71-151 | parsing printed rows returns them, cleaned and in order, if and only if keys are distinct, no cleaned value is printed bare and begins with an apostrophe, and all descriptions survive |
| EnvRoundTrip.ApostropheIsLost | src/lib/env-files.ts:110-114 | the concrete value for which the round trip fails |
| EnvHandwritten.SingleQuotedIsLiteral | src/lib/env-files.ts:109-114 | for every key and text, a single-quoted value is the text, apostrophes included; what follows the last quote is dropped |
| EnvHandwritten.UnclosedQuoteTakesTheLine | src/lib/env-files.ts:109-114 | without a closing quote the value is the rest of the line |
| EnvHandwritten.BareValueIsTrimmed | src/lib/env-files.ts:115-117 | a bare value is the text without the white space around it |
| EnvHandwritten.DoubleQuotedSpansLines | src/lib/env-files.ts:92-108 | a double-quoted value over any number of lines is those lines joined |
| EnvHandwritten.DescriptionIsTheBlockAbove | src/lib/env-files.ts:77-90 | a row's description is exactly the comment lines directly above it; a blank line or one without a pair ends the block |
| EnvHandwritten.OtherKeysAreSkipped | src/lib/env-files.ts:86-91 | a line whose key has a character other than capitals, digits and underscore, or begins with a digit, gives no row |
| EnvHandwritten.CrlfIsALineEnding | src/lib/env-files.ts:74 | text with CRLF line endings reads as its lines |
| EnvText.CleanDropsControls | src/lib/env-files.ts:141-151 | of each character a printed value keeps the character, or nothing if it is a control character other than tab and line breaks |
| EnvText.PrintedBareIff | src/lib/env-files.ts:126-138 | a value is printed bare if and only if it is trimmed and holds no line break, tab, quote, `#` or `=` |
| HealthGate.Inspect | src/services/health-gate.ts:71-80 | a sample fails fast if and only if it has a fatal pod or jumps two restarts over the first successful sample |
| HealthGate.RunHealthGate | src/services/health-gate.ts:47-96 | passes if and only if some full window of consecutive ready samples ends before any broken sample; attempts used and reason are those of the first decisive sample; after all attempts the reason is an outdated generation of the last sample, or else a timeout carrying what the last reading was |
| HealthGate.FullStreakPasses | src/services/health-gate.ts:82-85 | a streak of the threshold's length with nothing broken is a passing window |
| HealthGate.ShortStreakDoesNotPass | src/services/health-gate.ts:64-68 | a shorter streak is not, and a sample error restarts it |
| HealthGate.JumpIff | src/services/health-gate.ts:76-80 | the comparison against the stored baseline detects exactly the jumps over the first successful sample |
| HealthGate.PassesAtIff | src/services/health-gate.ts:66-90 | told from the readings: the gate can pass at a reading if and only if the last `threshold` are samples of at least one replica, all ready, no pod so far was in one of the four fatal states, and restarts rose by less than two over the first sample |
| HealthGate.FatalStateIsNamedIff | src/services/health-gate.ts:71-74 | the reason given for a fatal pod is one of the four fatal states if and only if the pod has no other waiting reason |
| HealthGate.BrokenStops | src/services/health-gate.ts:71-80 | after a broken sample no later window passes |
| Ports.AggregateClusterPorts | src/services/port-registry.ts:36-52 | the index holds a port if and only if some service of the list uses it |
| Ports.CandidateDistance | src/services/port-allocator.ts:47-50 | the i-th candidate of the cyclic sweep is in range and lies at cyclic distance i |
| Ports.DistanceIsCandidate | src/services/port-allocator.ts:47-50 | every port of the range is the candidate at its distance, so the sweep misses none |
| Ports.AllocatePort | src/services/port-allocator.ts:40-63 | fails if and only if the range is taken; otherwise the first free port in cyclic order, reported as reassigned if and only if it is not the desired one |
| Ports.AllocateExposePorts | src/services/port-allocator.ts:65-120 | both ports, both errors exactly, and a conflict listed exactly for an operator's own pick that was bumped |
| Ports.AllocateFromList | src/services/port-registry.ts:36-52 | from the raw list: both ports are the first in cyclic order that no listed service uses (the NodePort cluster-wide), the conflicts are exactly the operator's picks that moved, and allocation fails if and only if a range is exhausted |
| Ports.FirstFreeIsTheNextAbove | src/services/port-allocator.ts:46-62 | the first free port in cyclic order is the next free one from the desired one up, or the lowest free one if there is none above |
| Ports.NodePortIs | src/services/port-allocator.ts:90-120 | an unused NodePort that was asked for is kept; without a wish it is the lowest unused one from 30000 on |
| Ports.ServicePortIs | src/services/port-allocator.ts:65-88 | an unused service port from 1024 to 65535 that was asked for is kept; for a wish out of range it is the lowest unused one from 1024 on |
| Ports.UnnamedIsDefault | src/services/port-registry.ts:36-52 | a service listed without a namespace counts as one of `default` |
| Audit.DecodeInvertsEncode | src/lib/audit.ts:84-91 | a cursor decodes to the row it was made from, for all timestamps and exactly representable ids |
| Audit.SelectIsSorted | src/lib/audit.ts:116-120 | the selection is the matching rows in strictly descending (ts, id) order |
| AuditQueries.FiltersAreTheQuery | src/lib/audit.ts:93-114 | the clauses hold of a row if and only if it has the queried actor, action, kind and result and lies from `since` on and before `until` |
| AuditQueries.AnswerIsWhatIsAsked | src/lib/audit.ts:93-124 | the answer is the newest rows asked for, beyond the cursor, as many as the page size between 1 and 200 allows |
| Audit.SortedIsUnique | src/lib/audit.ts:119 | a set of rows has only one such listing |
| Audit.AuditLog.BuildWhere | src/lib/audit.ts:98-114 | the clauses pushed are those of the query |
| Audit.AuditLog.QueryAudit | src/lib/audit.ts:98-124 | the page is the first rows of the sorted selection, and there is a next cursor, the encoded last row, if and only if rows remain |
| Audit.AuditLog.PruneAudit | src/lib/audit.ts:32-37 | keeps exactly the rows above the cut |
| Audit.AuditLog.RecordAudit | src/lib/audit.ts:45-63 | appends one row under the next id, pruning on every 500th |
| Audit.TrailIsARecentSuffix | src/lib/audit.ts:39-44 | after any number of events the trail is exactly the most recent ones, within the promised bound |
| Audit.TrailKeepsTheNewest | src/lib/audit.ts:29-70 | the newest 200 000 events are always in the trail, an event is gone once 200 500 are recorded from it on, and there are never 200 500 rows |
| AuditPaging.PagePartitions | src/lib/audit.ts:107-122 | one page splits the rows after its cursor into those on it and those after the next cursor |
| AuditPaging.PagesAreSorted | src/lib/audit.ts:93-97 | the rows of successive pages are strictly sorted throughout |
| AuditPaging.NoRowTwice | src/lib/audit.ts:93-97 | with inserts and prunes between pages no row is returned twice |
| AuditPaging.NoRowMissed | src/lib/audit.ts:93-97 | and every matching row present throughout is returned by the time the pages end |
| AuditPaging.NextPageContinues | src/lib/audit.ts:122 | the next cursor leaves exactly the rows not yet returned |
| AuditPaging.PagesAreTheQuery | src/lib/audit.ts:98-124 | on a fixed table following the cursor ends, with exactly the filtered rows in order |
| AuditPaging.FollowIsPagesOver | src/lib/audit.ts:84-124 | a client that sends back each answer's cursor text gets the pages above, whatever is inserted and pruned in between |
| AuditPaging.FollowedTextsAreTheQuery | src/lib/audit.ts:84-124 | starting without a cursor on a fixed table, following the texts yields exactly the filtered rows in order, and then no cursor |
| Migrations.PrepareSorts | src/lib/migrations.ts:71-76 | preparing keeps every migration, digested, in version order |
| Migrations.ExecuteAdvances | src/lib/migrations.ts:197-226 | executing the migration at hand moves the database to the next prefix of pending ones |
| Migrations.EveryInterleavingIsAPrefix | src/lib/migrations.ts:120-134 | in every interleaving of any number of processes the database is its base plus the pending ones of a prefix, each executed once, in order, failures leaving nothing behind |
| Migrations.FinishedMeansAllExecutedOnce | src/lib/migrations.ts:178-247 | once one process has finished, all pending migrations were executed exactly once in total, under their own checksums |
| Migrations.PendingIsIncreasing | src/lib/migrations.ts:71-76 | and in strictly increasing version order |
| MigrationHarness.MigrationDatabase.ApplyOne | src/lib/migrations.ts:178-242 | one migration is one protocol step; an error changes nothing |
| MigrationHarness.MigrationDatabase.ApplyAll | src/lib/migrations.ts:174-242 | the loop is the process run to its end |
| MigrationHarness.MigrationDatabase.CurrentVersion | src/lib/migrations.ts:244-247 | the greatest recorded version |
| MigrationHarness.MigrationDatabase.ApplyMigrations | src/lib/migrations.ts:135-248 | tables, result and error are those of the process run alone |
| MigrationHarness.AloneIsAnInterleaving | src/lib/migrations.ts:126-129 | a process alone is one of the interleavings |
| MigrationHarness.AloneSucceedsIff | src/lib/migrations.ts:135-248 | a process alone succeeds if and only if it is no downgrade, no applied migration changed and every pending one's SQL runs |
| MigrationHarness.AloneOutcome | src/lib/migrations.ts:156-248 | how a process alone ends, every case: all pending migrations executed and reported in order, or stopped at the first changed or failing one, which the error names, with the database up to it; a downgrade touches nothing |
| Migrations.NobodyReportsTwice | src/lib/migrations.ts:197-226 | over all interleavings no migration is reported as applied by two processes, nor one that was there before |
| Migrations.NumberOfVersion | src/lib/migrations.ts:60-63 | a version's number is that of its leading digits, padding and the rest of its name ignored, the sign kept |
| Migrations.RefusedIffOlder | src/lib/migrations.ts:156-168 | each recorded version refuses exactly the binaries below its number |
| MigrationHarness.RerunAppliesNothing | src/lib/migrations.ts:121-124 | after any process finished, a rerun succeeds and applies nothing |
| Alerts.UniqueKeepsKeys | src/services/alerts/manager.ts:94-95 | the first alert per key is kept: same keys, none twice |
| Alerts.BySeveritySorts | src/services/alerts/manager.ts:131 | the queue is ordered by severity |
| Alerts.BySeverityPermutes | src/services/alerts/manager.ts:131 | and holds exactly what was due |
| Alerts.DirectAlertsAreTheMostSevere | src/services/alerts/manager.ts:131-133 | at most maxPerCycle alerts go out directly, and none is less severe than one left to the summary |
| Alerts.TotalsGrowByOne | src/services/alerts/manager.ts:99-129 | a key's total grows by one if and only if the cycle carries it, however often |
| Alerts.ClosesExactlyWhenResolved | src/services/alerts/manager.ts:161-175 | an open record closes if and only if its scope was scanned, it was not seen for the resolve time, and it was never notified or the resolved message went through |
| Alerts.NotificationsRespectCooldown | src/services/alerts/manager.ts:119-128 | over any cycles and prunes, two successful notifications of a key are a cooldown apart unless it was closed or pruned between |
| AlertHistories.QueuedIff | src/services/alerts/manager.ts:119-128 | over any cycles and prunes, a carried key is queued if and only if its record was never notified successfully, was closed since, or its last notification is a cooldown ago |
| AlertHistories.SuppressedAreTheOthers | src/services/alerts/manager.ts:119-128 | the carried keys that are not queued are exactly as many as are counted suppressed |
| AlertHistories.LastSentIsTheLastNotice | src/services/alerts/manager.ts:141-157 | the stored time is that of the last successful notification of the record |
| AlertHistories.FirstAlertsAreKept | src/services/alerts/manager.ts:94-99 | of several alerts with one key a cycle keeps the first, and the order |
| AlertHistories.BySeverityIsStable | src/services/alerts/manager.ts:131 | alerts of one severity keep their order in the queue |
| AlertHistories.CarriedRecord | src/services/alerts/manager.ts:100-157 | every column of a carried key's record after a cycle |
| AlertHistories.UncarriedRecord | src/services/alerts/manager.ts:160-175 | of a key that is not carried nothing changes but that it may be closed |
| AlertHistories.PrunesKeepTheRecent | src/lib/state.ts:204-206 | a record outlives any prunes, unchanged, if and only if it was last seen no earlier than each cut |
| AlertHistories.FirstSaveFixesThree | src/lib/state.ts:189-198 | however often a key is saved, its category, service and scope are the first save's and all else the last's |
| AlertManagerObject.AlertStore.SaveAlert | src/lib/state.ts:189-198 | an upsert that leaves category, service and scope of an existing row alone |
| AlertManagerObject.AlertManager.Enqueue | src/services/alerts/manager.ts:44-48 | at most 500 alerts wait |
| AlertManagerObject.AlertManager.NoteAll | src/services/alerts/manager.ts:99-129 | records, queue, seen conditions and suppressed count after noting |
| AlertManagerObject.AlertManager.SendAll | src/services/alerts/manager.ts:135-159 | the store marks exactly the delivered alerts, and sent, failed and overflow add up to the queue |
| AlertManagerObject.AcceptedAreTaken | src/services/alerts/manager.ts:135-149 | the count of sent alerts is the number of direct ones Slack took |
| AlertManagerObject.AlertManager.ResolveAll | src/services/alerts/manager.ts:161-175 | closes exactly the stale conditions and counts the announced ones |
| AlertManagerObject.AlertManager.Cycle | src/services/alerts/manager.ts:89-179 | every key's record ends as the cycle function says; `suppressed` counts exactly the carried keys that are not queued, and suppressed, sent, overflow and failed add up to the distinct keys |
| LogStamps.NormalizeIsIdempotent | src/services/alerts/log-scan.ts:39-48 | normalising twice is normalising once, for all texts and calendars |
| LogStamps.NormalizeKeepsOrder | src/services/alerts/log-scan.ts:39-48 | for all UTC stamps the texts of the normal forms compare if and only if the instants do (by clock reading, then by rational fraction) and the normal forms differ |
| LogStamps.NineDigitsKeepOrder | src/services/alerts/log-scan.ts:39-48 | for stamps of up to nine fraction digits text order is the order of instants |
| LogStamps.OffsetsCompareAsInstants | src/services/alerts/log-scan.ts:25-48 | a cursor with an offset compares with every UTC stamp as its instant does, but for ties |
| LogStamps.TenthDigitsTie | src/services/alerts/log-scan.ts:47 | stamps that differ in the tenth digit alone read alike |
| LogScan.ReadBlock | src/services/alerts/log-scan.ts:143-150 | collects the header and the longest run of continuation lines, up to 40 lines |
| LogScan.ScanLogLines | src/services/alerts/log-scan.ts:131-164 | the loop computes the recursive scan |
| LogResume.FindingsAreWellReported | src/services/alerts/log-scan.ts:131-175 | every finding of any scan, tracebacks included, has its message and detail within bounds, is newer than the cursor unless unstamped, and is fingerprinted by the stored message; there are no more findings than lines |
| LogReports.FindingsStandForLines | src/services/alerts/log-scan.ts:133-176 | every finding stands for a line that was not skipped: its traceback, else its structured entry, else its pattern, with both texts redacted first and cut to 500 and 1800 characters afterwards |
| LogReports.TracebackIsOneFinding | src/services/alerts/log-scan.ts:142-153 | a header and up to 39 continuation lines are one error named after the last line and showing them all; the scan goes on after them, a fortieth line included |
| LogResume.HeaderFreeScan | src/services/alerts/log-scan.ts:136-163 | without traceback headers a scan reports line by line and its cursor is the greatest timestamp |
| LogResume.ResumeIff | src/services/alerts/log-scan.ts:131-164 | for header-free logs, rescanning from the cursor leaves the cursor of one scan, and repeats and loses nothing if and only if no unstamped line of the first part reports and no reporting line of the second lies between the cursors |
| LogResume.ResumableScan | src/services/alerts/log-scan.ts:131-164 | a fully timestamped log that grows by later lines is reported once |
| LogResume.PollsAreOneScan | src/services/alerts/log-scan.ts:131-164 | any number of polls of such a log report together what one scan of its final state reports |
| LogTracebacks.SilentScanIff | src/services/alerts/log-scan.ts:131-164 | for every log, tracebacks included, a scan from a cursor reports nothing if and only if no line the cursor does not skip heads a traceback or reports by itself |
| LogTracebacks.RepeatedPollIff | src/services/alerts/log-scan.ts:131-164 | polling an unchanged log from the first poll's cursor reports nothing if and only if no line newer than it, or unstamped, does so |
| LogTracebacks.ScanAppends | src/services/alerts/log-scan.ts:131-164 | scanning a log whose second part does not continue a traceback of the first is scanning the parts one after the other |
| LogTracebacks.GrownLogIff | src/services/alerts/log-scan.ts:131-164 | two polls of such a growing log report together what one scan of it reports if and only if no line of the first part newer than the cursor, or unstamped, heads a traceback or reports by itself |
| LogBlocks.CutTracebackIff | src/services/alerts/log-scan.ts:142-153 | for every log that ends in a traceback, whatever follows: a second poll completes the first to what one scan of the grown log reports if and only if the rest leaves the traceback's finding as it was and the poll reports exactly what follows it |
| LogBlocks.TornTraceback | src/services/alerts/log-scan.ts:142-153 | a log cut after a traceback's header, which no second poll makes up for |
| LogBlocks.TracebackIsReportedAgain | src/services/alerts/log-scan.ts:142-153 | for every timestamped traceback anywhere in a log, whose continuation heads no other: the second poll of the same log reports each of its lines that reports by itself and is newer than the cursor, or unstamped |
| LogBlocks.RepeatedTraceback | src/services/alerts/log-scan.ts:142-153 | a log in which there is such a line |
| Addresses.IpToInt | src/services/network-scan.ts:32-43 | the loop in 32-bit signed arithmetic yields the number of the dotted quad, or nothing exactly when it is malformed |
| Addresses.PrintedAddressReadsBack | src/services/network-scan.ts:45-47 | reading a printed address gives the number back, for all addresses |
| Addresses.ReadAddressPrintsBack | src/services/network-scan.ts:32-47 | printing a read address gives the text back if and only if no octet has a leading zero |
| Addresses.MaskIsModulus | src/services/network-scan.ts:74-75 | the bitwise and with the shifted mask clears exactly the host bits |
| Addresses.BlockIsARun | src/services/network-scan.ts:70-76 | the run enumerated from the masked base is the set of addresses sharing the prefix (section 3.1 of RFC 4632), and never leaves the address space |
| NetworkScan.ExpandTargets | src/services/network-scan.ts:54-80 | the error is that of the first refused target; with none, the list is the union in order of first appearance |
| NetworkScan.RefusalSaysWhy | src/services/network-scan.ts:54-80 | which error refuses a target, exactly: no address, no block, a block over the cap with its size, or the cap exceeded in all |
| ScanTargets.UnionIsExact | src/services/network-scan.ts:55-79 | the list repeats nothing and holds a text if and only if some target adds it |
| ScanTargets.SucceedsIff | src/services/network-scan.ts:54-80 | the order of targets does not matter: success if and only if each target is acceptable by itself and the union fits the cap |
| ScanTargets.CountsAddressesIff | src/services/network-scan.ts:52-63 | for all targets: the list has at least as many texts as addresses denoted, and equally many if and only if no two different texts of it read as one address |
| ScanTargets.ListsThePrintedUnionIff | src/services/network-scan.ts:49-79 | the list is the printed union of addresses and prefix blocks if and only if every target is canonical |
| ScanTargets.SucceedsByAddresses | src/services/network-scan.ts:49-80 | whenever the texts read apart, success is decided by the number of addresses denoted |
| ScanTargets.CanonicalSucceedsIff | src/services/network-scan.ts:49-80 | canonical targets always read apart, so this holds of them |
| ScanTargets.TwoSpellingsAreListedTwice | src/services/network-scan.ts:62-63 | two spellings of one address are listed as two |
| ScanTargets.OneAddressTwoTexts | src/services/network-scan.ts:32-63 | `1.1.1.1` and `01.1.1.1` are such a pair |
| FanOut.InFlightIsBounded | src/services/network-scan.ts:115-133 | in every interleaving at most `limit` calls are in flight, and items are taken once, in list order |
| FanOut.CompleteIff | src/services/network-scan.ts:123-132 | at the end an item has its own result if and only if it was called, and all have if and only if none was taken after the deadline |
| FanOut.MapBoundedIsMap | src/services/bundle-import.ts:126-139 | without a deadline the results are those of all items, each called once, whatever the interleaving |
| BundleNames.SlugIsALabelOrEmpty | src/services/bundle-import.ts:60-63 | a slug has only letters, digits and dashes, none at its ends |
| SlugWords.SlugJoinsTheWords | src/services/bundle-import.ts:60-63 | the slug of any text is its runs of letters and digits, lowered, joined by single dashes |
| BundleNames.SegmentsCollideIff | src/services/bundle-import.ts:65-74 | two nodes share a segment if and only if both are hashed with equal stem and digits |
| BundleNames.ImportJobNameIsALabel | src/services/bundle-import.ts:83-90 | for all services, tags and nodes the name is a label of section 2.1 of RFC 1123, of at most 63 characters |
| JobNameClashes.JobNamesCollideIff | src/services/bundle-import.ts:83-90 | for all services, tags and nodes: two names are equal if and only if the segments are, or the longer segment ends in a dash and the other one and its base is shorter by exactly what precedes that dash |
| JobNameClashes.WholeNamesCollideIff | src/services/bundle-import.ts:83-90 | beside two segments that leave service and tag whole, names collide if and only if the segments do |
| JobNameClashes.CutNamesClash | src/services/bundle-import.ts:83-90 | whenever service and tag are cut beside a dash before an x, the unhashed nodes `a` and `x-a` get one name |
| JobNameClashes.PaymentsClash | src/services/bundle-import.ts:83-90 | a concrete service and tag for which they do |
| BundleImport.HandleReads | src/services/bundle-import.ts:288-319 | after a tick's reads exactly the succeeded Jobs have left the map and the error counts are the lengths of the current failure streaks; the first failing Job in order ends the import |
| BundleImport.PollTick | src/services/bundle-import.ts:283-325 | one tick keeps the polling invariant or settles the outcome |
| BundleImport.LostAfterFive | src/services/bundle-import.ts:41-43 | a Job is lost exactly when five reads in a row have failed |
| BundleImport.OneJobImportedIff | src/services/bundle-import.ts:283-325 | one Job's import told by its reads alone: in time, with a success that no counted failure and no five failed reads in a row precede |
| BundleImport.Poll | src/services/bundle-import.ts:276-327 | the outcome fits the reads, and no Job is read more often than there are ticks |
| BundleImport.RunRemoteBundleImport | src/services/bundle-import.ts:208-331 | early exits only list nodes; every other exit has deleted all Jobs before the first apply and deletes all again at the end; the outcome is the refused apply or what polling came to |
| BundleImport.ImportJobs | src/services/bundle-import.ts:252-330 | the guarded part tears down on every way out |
| BundleImport.OneJobPerNode | src/services/bundle-import.ts:229-236 | for all services and tags: one validly named Job per node, and the names repeat if and only if two nodes have one segment or one's swallows the other's |
| BundleImport.WholeNamesClashIff | src/services/bundle-import.ts:229-236 | beside segments that leave service and tag whole, two distinct nodes clash if and only if they collide under the hash |
| BundleImport.ImportedIff | src/services/bundle-import.ts:283-324 | success if and only if within the budgets every Job was read as succeeded, none having first been read as failed or lost to five failed reads in a row |
| BundleImport.FailedJobFailsTheImport | src/services/bundle-import.ts:291-318 | one Job failed or lost first makes the whole import fail |
| BundleImport.OutcomeIsUnique | src/services/bundle-import.ts:283-327 | the reads determine the outcome, down to the Job named and the Jobs pending |

## Left out

- kubectl, helm, git, S3, Slack, DNS and process spawning are parameters that return arbitrary results;
  `src/services/deploy.ts` is not part of this model, its result is such a parameter.
- HTTP routes, authentication, sessions, rate limiting, SSE and WebSocket plumbing, configuration, logging,
  the frontend and the offline command line.
- Time: ISO timestamps of jobs, locks and alerts are integers of milliseconds, which compare alike;
  `created_at`, `updated_at` and `deployed_at` bookkeeping beyond that is not modelled.
- Job payloads are reduced to the kind of job and the `auto` flag of rollbacks.
- Locks.NoAcquisitionBeforeExpiry: like the other laws of `Locks`, is about histories of whole calls, as in one
  process; across processes the two statements of an acquisition are apart in `Workers` and `LockRaces`.
- Workers that are alive at one time are assumed to have different names. A restarted worker may reuse its own.
- The clock reading of a statement is the time of its step, but for an acquisition, whose reading is the
  SELECT's, and a reaping, whose two updates share one that may lie back.
- `Worker.start`, the loop timer and the shutdown grace period; `Stop` says only whether a job was in flight.
- The worker's audit sink and `outstandingCount`, `pendingJob`.
- Handlers.OneAutoRollbackPerService: is about one worker, as the source's check and enqueue are two steps.
- SQLite durability, WAL and migration backup files: each transaction is atomic and `BEGIN IMMEDIATE` waits.
- Strings are sequences of Unicode characters, not UTF-16 units; the order of strings is that of characters.
- The regular expressions that classify log lines, redaction, SHA-256, `toLowerCase`, time-zone arithmetic
  and the exotic notations of JavaScript's `Number` are parameters.
- LogTracebacks.GrownLogIff: is about new lines that do not continue the log's last traceback
  (`LogBlocks.CutTracebackIff` is about those that do) and that the cursor does not skip; a skipped line is lost
  (`LogResume.ResumeIff` says when, for logs without tracebacks).
- The flush timer of the alert manager and the promise chain that serialises cycles: a cycle is one step.
- The wording of alert, error and progress messages, where it is not a parameter of an error value.
- `listClusterPortAllocations`, `classifyProbe`, `fingerprintDistribution`, the Job manifest, `listImportNodes`
  and service labels would only add easy members.
- BundleImport.RunRemoteBundleImport: the fan-outs inside appear in its trace in list order, the order in
  which `FanOut` proves the calls start.
- Metrics and quantity parsing, fleet sums, purge, template rendering, YAML and the env drift table.
