# The APIPact agent, modelled in Dafny

The APIPact agent takes sealed jobs from a relay, executes their HTTP requests from inside a customer's network, and
delivers sealed results. A supervisor keeps its worker process alive and replaces the worker binary with signed releases.
This project models the stateful protocols of that agent and the arithmetic and string code they rest on, and proves what
the agent's design promises of them: over every interleaving, every crash point and every sequence of outcomes.

`dafny verify dfyconfig.toml` checks everything.

## The files

| file | what it models |
|---|---|
| `Dedupe.dfy` | the persistent TTL set of processed job ids, against a log that is never pruned |
| `Intake.dfy` | intake over the life of an agent: redelivery, failed flushes, crashes at any step, reopening |
| `Fleet.dfy` | any number of worker processes on one state file |
| `Worker.dfy` | the acceptance gate of the worker, and the in-flight counters at drain |
| `Pool.dfy` | the requests of a job one after the other; many jobs at once under the two levels of semaphores |
| `Update.dfy`, `Supervisor.dfy` | the self-update as a small-step system with crashes, and as the program that is one of its runs |
| `Supervise.dfy` | the restart loop, alone and beside updates, with the health address the workers compete for |
| `Version.dfy` | printing, reading back, parsing and comparing versions |
| `Executor.dfy` | the guarded dialer, the body cap, the redirect loop |
| `Cidr.dfy`, `Egress.dfy`, `Config.dfy` | prefix masks as integer intervals, the egress policy, parsing and printing its lists |
| `Reporter.dfy` | the backoff in 64-bit arithmetic, the retry loops, the whole delivery |
| `Text.dfy`, `Numbers.dfy`, `Protocol.dfy` | fields of a string, powers of two and 64-bit wrap-around, shared result types |

Code that updates state is modelled by methods on classes, arrays and locals, each proved equal to a function of the old
state; the theorems are about those functions. Code that many goroutines or processes execute at once, or that can be killed
half-way, is modelled as a small-step system with a list of events, and its theorems hold for every list of events that is
a run. `Intake.StepsMakeACall` and `Supervisor.CyclesAreARun` tie the two views together.

What the code takes from elsewhere is a parameter: clocks, names of temporary files, the outcome of each file operation,
of each network exchange, of each process launch and readiness check; the hash function; the version line a binary prints;
the address and URL parsers of the Go library. Theorems hold for every value of these. The assumptions are stated in the
contracts: the clock of the dedupe store does not run backwards (`Intake.Event.Tick` only adds; `DedupeStore.PruneForgetsIff`
says what goes wrong otherwise), at most one worker process at a time has the state file open (the type of
`Intake.State`, and `Fleet.OneAtATime` among any number of processes; `Fleet.TwoProcessesStartTwice` says what goes wrong
otherwise), a rename replaces the target or changes nothing, and the state file reads back as written.

## Where the code differs from what its comments or a reader would suggest

The model follows the code in each case.

- Two starts of one job can be closer than the TTL: the store's window lies between records, and a handler can start its
  job late. `Intake.AtMostOncePerWindow` bounds the gap by the TTL less that delay, `Intake.LateStartShortensTheGap` shows
  that the bound is met with equality for every delay.
- Nothing keeps two worker processes off one state file. Each reads it once, before it takes the health address
  (`internal/worker/worker.go:92` and `:127`), so the address does not help: whenever two processes have the file open,
  every job that neither of them holds can be started twice in the same second (`Fleet.TwoProcessesStartTwice`).
- "Do not accept new work while draining" (`internal/worker/worker.go:173-174`) leaves a gap:
  `Drain.JobsAfterDrainIffStraggler` says exactly when a job still starts after the drain completed.
- `StopOnError` has no effect when `MaxConcurrency > 1` (`internal/worker/worker.go:269-281`); see
  `Pool.ReturnedJobMatchesLoop`.
- `Promote` "atomically swaps" (`internal/update/swap.go:43`), but between its two renames there is no binary in place.
  `UpdateCycle.CrashLeavesBinaryIff` says exactly at which steps a crash leaves one, `UpdateCycle.CrashCanLeaveNoBinary` gives
  a run that does not. When nothing was moved aside and the install fails, the restore puts an older `.prev` in place;
  `Supervisor.CycleIsTransactionIff` gives the exact condition for all or nothing.
- `superviseLoop` also restarts a worker that an update has stopped on purpose. One update is always enough for two live
  workers, of which the one the supervisor does not keep can win the health address
  (`SuperviseLoop.UpdateCanLeaveTwoWorkers`). The other then finds the address taken and exits, but the state does not heal:
  as long as the forgotten worker runs, none that the loop or any later update launches can serve
  (`SuperviseLoop.OrphanStays`), and the loop can restart for ever (`SuperviseLoop.RestartsGoOn`). One update is also always
  enough to end the loop (`SuperviseLoop.UpdateCanEndSupervision`). The loop's backoff ceiling is 32 s although it tests
  against 30 s.
- `isNewer` is an order only on strings that parse. On others each of two versions can be "newer" than the other
  (`Version.NewerBothWaysIff`), and a release that is not newer is taken for an update exactly when the current version does
  not parse (`Version.TakesLowerIff`). A worker that could not be asked for its version is such a case, and is downgraded
  (`Supervisor.SilentWorkerIsDowngraded`).
- Pre-release tags are dropped, so v1.5.0-beta.1 and v1.5.0 tie, unlike section 11 of Semantic Versioning 2.0.0
  (`Version.PreReleaseTies`).
- `executor.go:134` hands the original body to every redirect, not the body just sent: after a 302 and a 307 a GET carries
  the body of the POST (`Engine.DroppedBodyComesBack`, and `Engine.StaysDroppedIff`, `Engine.GetCarriesBodyIff` for the exact
  conditions). Sections 15.4.2 to 15.4.9 of RFC 9110 know no way back from GET to the body.
- `executor.go:297` adds one to the cap in 64 bits: at the largest cap nothing is read, and a negative default cap panics. It
  also drops the error of the read, so a body that breaks off within the cap is reported as complete (`Engine.CapIsExactIff`
  has the exact condition).
- A dial that reaches nothing reports a denial iff the *last* address is denied, whatever happened to the others
  (`Dialer.DeniedIffLastIsDenied`).
- Dropping an entry from a list that also has a network around it can change verdicts: an IPv4-mapped network of at least 96
  bits is matched as an IPv4 network, while a shorter prefix around it is matched as an IPv6 one. In "::/0,::ffff:10.0.0.0/104"
  the second entry matters (`Egress.MappedEntryMatters`); `Egress.NestedEntryIsRedundantIff` has the exact condition.
- A bare IPv4 address written in its 16-byte spelling becomes a network that misses the address
  (`Egress.BareAddressIsInItsNetworkIff`).
- `reporter.go:204` overflows 64 bits from attempt 37 on, and for some attempts the random draw then panics
  (`Backoff.DelayInWindowOrOverflow` names them).
- The HTTP fallback of `publishChannel` uses only the agent's own result URL, not the URL of the job
  (`Delivery.Reporter.PublishChannel`).

## Model

| member | source | states |
|---|---|---|
| `DedupeStore.Dedupe.Open` | internal/store/dedupe.go:31-46 | fails only on an unreadable file; a missing or garbled one starts empty; otherwise memory is the file without the entries past the cutoff |
| `DedupeStore.Dedupe.SeenOrRecord` | internal/store/dedupe.go:51-68 | memory, file and answer after a call, for both clock reads and every way the flush can fail, including the rollback |
| `DedupeStore.Dedupe.PruneLocked` | internal/store/dedupe.go:70-77 | visiting the entries in any order deletes exactly those older than the cutoff |
| `DedupeStore.Dedupe.FlushLocked` | internal/store/dedupe.go:79-101 | the file is replaced by the whole memory exactly if every step up to the rename works, else unchanged |
| `DedupeStore.PruneKeepsTheFuture` | internal/store/dedupe.go:70-77 | pruning changes no answer about the present or the future |
| `DedupeStore.RecordAgrees` | internal/store/dedupe.go:57-66 | recording a job that the log holds dead keeps agreement with the log, and so does taking the record back |
| `DedupeStore.CallRefinesLog` | internal/store/dedupe.go:51-77 | a call answers true iff a never-pruned log of successful records holds a live entry; only a successful record extends the log; memory and disk agree with it afterwards, also after a failed flush |
| `DedupeStore.OpenRefinesLog` | internal/store/dedupe.go:31-46 | reopening the file keeps agreement with the log |
| `DedupeStore.PruneForgetsIff` | internal/store/dedupe.go:55-77 | pruning loses an entry that is live for a later question exactly when the clock reads a time before the entry's expiry after having read one past it |
| `DedupeStore.BackwardClockForgets` | internal/store/dedupe.go:55-77 | with a clock that goes back, a job is answered fresh twice within its window |
| `Intake.StepKeepsInv` | internal/worker/worker.go:171-216 | every single step, crash or redelivery keeps the invariant that memory and file agree with the log and each log entry gives at most one start |
| `Intake.RunKeepsInv` | internal/worker/worker.go:171-216 | so does every run |
| `Intake.AtMostOncePerWindow` | internal/worker/worker.go:171-216 | with one worker process at a time, over every run with duplicates, failed flushes, crashes at any step and reopenings, two starts of one job have records a TTL apart, and the later start follows by the TTL less the delay of the earlier one |
| `Intake.LateStartShortensTheGap` | internal/worker/worker.go:199-215 | for every TTL and every delay some run meets that bound with equality, so only starts without delay are always a full TTL apart |
| `Intake.StartsAreRecorded` | internal/store/dedupe.go:48-50 | every start has a durable record of its own, made before it |
| `Intake.SuppressedIffLogged` | internal/store/dedupe.go:55-58 | after any run a delivery is suppressed iff the never-pruned log holds a live record, and a worker reopening the file would answer the same |
| `Intake.StepsMakeACall` | internal/store/dedupe.go:51-68 | the steps of one handler, taken in a row, have the memory, file, log and answer of the store's method |
| `Intake.OpenIsOpen` | internal/store/dedupe.go:31-46 | opening in the system is what the store's Open does, and fails exactly on an unreadable file |
| `Fleet.RunIsIntakeRun` | internal/store/dedupe.go:31-68 | a run of any number of processes on one file, of which at most one at a time is up, is a run of the single-process system |
| `Fleet.AtMostOncePerWindow` | internal/worker/worker.go:171-216 | at most one start per TTL window over every run of any number of processes in which at most one at a time has the file open |
| `Fleet.TwoProcessesStartTwice` | internal/store/dedupe.go:31-68 | whatever happened before, two processes with the file open can start any job that neither holds live twice in the same second, even if the first is gone before the second one acts |
| `WorkerGate.Worker.OnJob` | internal/worker/worker.go:171-216 | a job is launched iff it passes every check and the store calls it fresh; a draining worker, a message that does not open, another agent's job and one past its deadline launch nothing and leave the store untouched; wait group and in-flight count grow with the launches |
| `Drain.StepKeepsInv` | internal/worker/worker.go:209-215 | both counters count their handlers at every interleaving |
| `Drain.InFlightWithinWaitGroup` | internal/worker/worker.go:209-215 | 0 <= inflight <= wait-group count at every interleaving |
| `Drain.DrainSeesNothingInFlight` | internal/worker/worker.go:158-166 | when the drain sees the wait group empty, nothing is in flight |
| `Drain.DrainCompletes` | internal/worker/worker.go:154-166 | the wait of the drain can always return: every run goes on to one in which it has, with nothing in flight |
| `Drain.TakenUpIff` | internal/worker/worker.go:172-176 | a message is taken up iff the worker has not been told to drain, and then its job can get into flight |
| `Drain.JobsAfterDrainIffStraggler` | internal/worker/worker.go:171-216 | a job can go into flight after the drain completed iff some handler had passed the draining check without having called Add |
| `Execution.ExecSequential` | internal/worker/worker.go:251-266 | every slot and the number of executed requests on the sequential path; a slot that is not executed holds its own request id and the skip error |
| `Execution.StopsAtFirstError` | internal/worker/worker.go:253-263 | with the first failing request k: slots before k error-free, k its own error, every later slot its own id, status 0, no body and the error of kind invalid with the skip text, exactly k+1 requests executed; so slot i is error-free iff i < k |
| `Execution.NothingSkipped` | internal/worker/worker.go:250-281 | without StopOnError, or with MaxConcurrency above 1, every slot holds the answer to its request |
| `Execution.SlotsNameTheirRequests` | internal/worker/worker.go:246-282 | slot i answers request i |
| `Pool.StepKeepsInv` | internal/worker/worker.go:246-289 | every step of the two-level pool keeps counters equal to their holders and every slot right |
| `Pool.RunKeepsInv` | internal/worker/worker.go:246-289 | so does every run |
| `Pool.CapacityRespected` | internal/worker/worker.go:285-289 | at every interleaving at most cap(sem) requests execute overall and at most maxConc of one job |
| `Pool.CapacityIsUsed` | internal/worker/worker.go:268-289 | the bounds are reached: every number of requests up to the pool's capacity, and up to what the jobs allow, executes at once in some run |
| `Pool.HolderMoves` | internal/worker/worker.go:275-288 | a goroutine past its acquisitions can always take its next step |
| `Pool.NeverStuck` | internal/worker/worker.go:246-289 | the fixed order of the two semaphores never deadlocks: while a job has not returned, some step is enabled |
| `Pool.StepShrinksWork` | internal/worker/worker.go:246-289 | every step strictly shrinks the set of steps still ahead |
| `Pool.RunsAreBounded` | internal/worker/worker.go:246-289 | no run is longer than the work it starts with |
| `Pool.EveryRunCompletes` | internal/worker/worker.go:246-289 | every run whatever goes on to one after which all jobs have returned, so every wait returns |
| `Pool.ReturnedJobMatchesLoop` | internal/worker/worker.go:246-289 | whatever the interleaving, a returned job holds in every slot what the sequential loop (without StopOnError, if concurrent) puts there, and executed the same requests |
| `Pool.ReturnedJobSkips` | internal/worker/worker.go:246-289 | in a returned job with first failing request k: if it is sequential and stops on errors, slot i is error-free iff i < k and every slot after k says skipped and was not executed; otherwise every slot holds its answer |
| `Pool.SlotsAreWrittenOnce` | internal/worker/worker.go:279 | no slot is written twice and no request executed twice |
| `Swap.FileSystem.Rename` | internal/update/swap.go:47-54 | a rename replaces the target or changes nothing |
| `UpdateCycle.StepKeepsSafe` | internal/update/swap.go:19-66 | every step, failure or crash keeps both binaries vouched for and one of them present |
| `UpdateCycle.BinariesAreVouched` | internal/supervisor/supervisor.go:171-213 | over any number of cycles with failures and crashes anywhere, dest or dest.prev exists, and each is an original or matches an authentic manifest and passed its selfcheck |
| `UpdateCycle.CrashCanLeaveNoBinary` | internal/update/swap.go:47-51 | from every state where an update is due, a crash between the two renames leaves no binary in place |
| `UpdateCycle.BinaryInPlaceIff` | internal/update/swap.go:45-66 | after every run, with any failures and crashes: a binary is in place iff the last rename that touched it was not the one that moves it aside |
| `UpdateCycle.CrashLeavesBinaryIff` | internal/update/swap.go:45-57 | at every point of a run without a crash in the gap, a failed restore or a lying stat: a crash leaves a binary in place iff the program is not between moving the old binary aside and installing or restoring one, and there the rollback copy is left |
| `UpdateCycle.StepClimbs` | internal/update/manifest.go:132-153 | no step, failed rollbacks and crashes outside the gap included, lets the version of the binary to fall back on decrease |
| `UpdateCycle.InstalledVersionNeverDecreases` | internal/supervisor/supervisor.go:177-212 | over any run the installed version never decreases, if there is no pin, the worker answers, each download prints its manifest's version, stat and the restore work, and no crash falls between the two renames; rollbacks may fail |
| `UpdateCycle.HonestUpdateInstalls` | internal/supervisor/supervisor.go:177-212 | and it can rise: for every newer release that is accepted and becomes ready some honest run ends with it in place and the old binary kept for rollback |
| `Supervisor.Updater.StartChild` | internal/supervisor/supervisor.go:88-106 | the child is what is in place if it starts; success iff it also becomes ready |
| `Supervisor.Updater.StageWorker` | internal/update/swap.go:19-41 | success iff created, received, accepted and closed; the files in every case |
| `Supervisor.Updater.Promote` | internal/update/swap.go:45-57 | success and files for every combination of failing stat and renames |
| `Supervisor.Updater.Rollback` | internal/update/swap.go:60-66 | restores the copy iff there is one and the rename works |
| `Supervisor.Updater.CheckAndApply` | internal/supervisor/supervisor.go:171-213 | applied iff promoted and passed both readiness checks, and then the worker runs the new binary; after a swap that was not applied a worker runs iff it can be started and a binary is in place, and runs that binary; a cycle that stops before the swap leaves the worker alone |
| `Supervisor.CycleIsARun` | internal/supervisor/supervisor.go:171-213 | the program's cycle continues a run of the small-step system from rest to rest, for every environment, and an honest cycle continues an honest run |
| `Supervisor.Updater.UpdateLoop` | internal/supervisor/supervisor.go:140-168 | the files and the worker after any number of polls are those of the cycles one after the other |
| `Supervisor.CyclesAreARun` | internal/supervisor/supervisor.go:140-213 | any number of cycles continue one run, and each binary they add to the vetted ones was brought by one of them |
| `Supervisor.UpdatesKeepVouchedBinaries` | internal/supervisor/supervisor.go:140-213 | after any number of cycles, whatever failed: dest or dest.prev exists, and each is an original or was downloaded, matched its manifest and passed its selfcheck in one of them |
| `Supervisor.UpdatesNeverLowerTheVersion` | internal/supervisor/supervisor.go:140-213 | after any number of honest cycles a binary is in place whose version is no lower than at the beginning |
| `Supervisor.SilentWorkerIsDowngraded` | internal/supervisor/supervisor.go:177-180 | if the worker does not answer, an accepted release with a lower version takes its place, whatever else is in order |
| `Supervisor.CycleIsTransactionIff` | internal/supervisor/supervisor.go:190-212 | for any files and contents, the cycle leaves the staged binary if applied and the old one otherwise, exactly under the stated condition on its undoing steps |
| `Supervisor.CycleIsTransaction` | internal/supervisor/supervisor.go:190-212 | in particular if a binary is in place, the stat is truthful, and the restore and rollback renames work |
| `Supervisor.TransactionKeepsWorker` | internal/supervisor/supervisor.go:196-212 | a cycle that is a transaction and whose restart works leaves a running worker: the new binary if applied, else the bytes that were in place before |
| `Supervisor.LostBinaryLosesWorker` | internal/supervisor/supervisor.go:198-202 | a promotion that fails and is not restored leaves no binary and no worker, whatever the restart does |
| `Supervisor.InstallsIffDue` | internal/supervisor/supervisor.go:171-213 | when everything else goes well, the new binary is installed and the old one kept for rollback iff the version decision says so; otherwise no file changes |
| `Supervisor.InstallsIffAbove` | internal/update/manifest.go:132-153 | without a pin and with versions that parse, that is iff the release is above the current version |
| `Supervisor.PinnedInstallsIff` | internal/update/manifest.go:130-135 | with a pin, that is iff the release has the pinned version and the current one has not |
| `Supervisor.OtherVersionIsIgnored` | internal/update/manifest.go:133-134 | with a pin, a manifest for another version changes neither files nor worker, whatever else happens |
| `Supervisor.PinDowngrades` | internal/update/manifest.go:133-134 | a pin to an older version replaces a newer binary |
| `Supervisor.OnlyThePinReplaces` | internal/supervisor/supervisor.go:140-213 | over any number of cycles with a pin, whatever replaces the starting binaries was brought under a manifest for the pinned version |
| `Supervisor.MismatchIsRefused` | internal/update/manifest.go:119-126 | bytes with another hash than the manifest's, up to the case of its digits, or with another length than its positive size, are never put in place |
| `Supervisor.FailedSelfcheckIsRefused` | internal/supervisor/supervisor.go:190-194 | nor is a binary that fails its selfcheck |
| `Supervisor.OwnTempIsRemoved` | internal/supervisor/supervisor.go:188 | after a cycle its temporary file is gone if removing works, and no other temporary file is touched |
| `SuperviseLoop.Supervise` | internal/supervisor/supervisor.go:109-137 | after k failed restarts in a row the loop sleeps 2^min(k, 5) seconds, never more than 32 |
| `SuperviseLoop.OneWorkerWithoutUpdates` | internal/supervisor/supervisor.go:109-137 | while no update stops the worker, at most one is alive and the loop does not end |
| `SuperviseLoop.LoopRecovers` | internal/supervisor/supervisor.go:109-137 | after every such run the end of the worker can be followed by a new one that serves |
| `SuperviseLoop.UpdateCanLeaveTwoWorkers` | internal/supervisor/supervisor.go:118-131 | after every such run one update can lead to two live workers, of which the one the supervisor lost holds the health address |
| `SuperviseLoop.OrphanStays` | internal/worker/worker.go:125-130 | as long as that worker runs, through any restarts and updates, no other worker gets the address and the supervisor never stops it |
| `SuperviseLoop.OrphanExitFreesPort` | internal/worker/worker.go:125-130 | when it ends, the address is free for any other live worker |
| `SuperviseLoop.RestartsGoOn` | internal/supervisor/supervisor.go:118-136 | meanwhile the loop can launch any number of workers, each of which exits because the address is taken |
| `SuperviseLoop.UpdateCanEndSupervision` | internal/supervisor/supervisor.go:111-117 | and to a loop that has ended with a worker left unwatched |
| `Text.FieldsAreTheMaximalRuns` | internal/supervisor/supervisor.go:289-306 | the scan yields exactly the maximal runs of non-separators, and no other list is that |
| `Version.SplitFields` | internal/supervisor/supervisor.go:289-306 | the loop computes the scan, hence the maximal runs |
| `Version.ParseSemver` | internal/update/manifest.go:155-173 | succeeds iff the string has three numbers before its tag, and fills them in order |
| `Version.ParsesIff` | internal/update/manifest.go:157-172 | exactly those strings parse whose core is three decimal numbers within 64 bits with dots between them |
| `Version.CoreIs` | internal/update/manifest.go:157-160 | the core of a version: outer white space, one leading 'v' and everything from the first '-' or '+' on do not count |
| `Version.NewerIsAbove` | internal/update/manifest.go:147-152 | on parseable strings the loop decides the lexicographic order of the triples |
| `Version.NewerIsStrictWeakOrder` | internal/update/manifest.go:141-153 | on parseable strings a strict weak order whose ties are equal triples |
| `Version.InstalledIsNotOffered` | internal/update/manifest.go:134-153 | the installed version on offer never updates again, pinned or not |
| `Version.NewerBothWaysIff` | internal/update/manifest.go:144-146 | exactly when two versions each supersede the other |
| `Version.TakesLowerIff` | internal/update/manifest.go:141-153 | a parseable release that is not above the current version counts as an update iff the current version does not parse |
| `Version.SilentWorkerTakesAnyRelease` | internal/supervisor/supervisor.go:277-280 | so a worker without a version accepts every parseable release |
| `Version.PrintedVersionIsReadBack` | internal/supervisor/supervisor.go:274-287 | for any commit and date the printed line is read back as the version |
| `Version.VersionRoundTrip` | internal/version/version.go:14-22 | vA.B.C with any suffix is printed, split, read back unchanged and parsed to (A, B, C) |
| `Version.PreReleaseTies` | internal/update/manifest.go:158-160 | a release and its pre-release never supersede each other |
| `Cidr.AndAssociates` | internal/executor/egress.go:40-63 | the mask operation is associative, which nesting of networks rests on |
| `Cidr.MaskIsInterval` | internal/executor/egress.go:91 | agreeing under a prefix mask is membership in [base, base + 2^(W-p)) |
| `Cidr.NetworkIsInterval` | internal/executor/egress.go:91 | the same for every parsed network and every address, IPv4-mapped ones included, and its Contains: equal canonical lengths and membership in the block, as in section 3.1 of RFC 4632 |
| `Cidr.NestedByPrefix` | internal/executor/egress.go:47-56 | a network whose address lies in a shorter prefix of the same family is contained in it, IPv4-mapped ones included |
| `Cidr.NestedIsContainedIff` | internal/executor/egress.go:47-56 | a nested network is contained in the outer one iff both are matched in the same family |
| `Egress.VerdictFormula` | internal/executor/egress.go:40-63 | the verdict as one formula on sets of networks; a denial names a network that matched |
| `Egress.OrderIsIrrelevant` | internal/executor/egress.go:40-63 | permuting or repeating entries changes no verdict |
| `Egress.PermissionIsMonotone` | internal/executor/egress.go:40-63 | permission grows with Allow and AllowPrivate and shrinks with Block |
| `Egress.NestedEntryIsRedundant` | internal/executor/egress.go:40-63 | dropping an entry nested in another of its list changes no verdict if both are matched in the same family, or if no policy permits the entry's addresses anyway |
| `Egress.NestedEntryIsRedundantIff` | internal/executor/egress.go:40-63 | dropping an entry nested in another of its list changes no verdict of any policy iff both are matched in the same family or no policy permits the entry's addresses anyway |
| `Egress.MappedEntryMatters` | internal/executor/egress.go:40-63 | in "::/0,::ffff:10.0.0.0/104" it does change verdicts |
| `Egress.SpellingIsIrrelevant` | internal/executor/egress.go:40-74 | the verdict is the same for both spellings of an address |
| `Egress.LongFormIsIrrelevant` | internal/executor/egress.go:40-74 | byte for byte: ten zeros, two 255s and a.b.c.d get the verdict of a.b.c.d, under every policy |
| `Egress.AlwaysBlockedV4` | internal/executor/egress.go:30-37 | 169.254.0.0/16 and 0.0.0.0, in either spelling, are permitted by no policy, and no other IPv4 address is always blocked |
| `Egress.AlwaysBlockedV6` | internal/executor/egress.go:30-37 | the 16-byte addresses, other than IPv4 ones, that no setting permits |
| `Egress.DefaultPolicyV4` | internal/executor/egress.go:40-74 | the IPv4 addresses the default policy permits, in either spelling, as seven integer blocks left out |
| `Egress.DefaultPolicyV6` | internal/executor/egress.go:40-74 | the 16-byte addresses, other than IPv4 ones, that the default policy denies |
| `Egress.ParseCidrs` | internal/executor/egress.go:76-98 | the loop parses token by token and reports the first that is not a network |
| `Egress.ParsesIffEveryTokenDoes` | internal/executor/egress.go:76-98 | it succeeds iff every token is a network, and keeps their order |
| `Egress.CompletedTo` | internal/executor/egress.go:82-89 | a bare IPv4 address, in either spelling, is completed to /32 and any other bare address to /128; other tokens are parsed as they are |
| `Egress.SeparatorsAre` | internal/executor/egress.go:78 | commas, spaces, tabs and newlines separate tokens, and no other character does |
| `Egress.BareAddressIsInItsNetworkIff` | internal/executor/egress.go:82-90 | exactly when the network made from a bare address contains it |
| `Config.JoinList` | internal/config/config.go:200-209 | the loop joins the items with commas |
| `Config.JoinedTokens` | internal/config/config.go:200-209 | tokenising the joined list is concatenating the tokens of each item, in order |
| `Config.ListAcceptedIff` | internal/config/config.go:184-194 | an operator's list is accepted iff every token of every item is a network |
| `Dialer.GuardedDial` | internal/executor/executor.go:243-286 | the addresses dialed are the permitted ones in order, up to the first that connects; only the last can have connected, and the error is the stated one |
| `Dialer.DeniedIffLastIsDenied` | internal/executor/executor.go:267-284 | a dial that reaches nothing reports a denial iff the last resolved address is denied |
| `Dialer.CandidatesAreThePermitted` | internal/executor/executor.go:268-272 | the candidates are exactly the permitted addresses |
| `Engine.CapIsExactIff` | internal/executor/executor.go:293-301 | the captured body is the first cap bytes and the flag is exact iff the cap is neither negative nor the largest and the body does not break off within it |
| `Engine.RedirectExtendsForms` | internal/executor/executor.go:440-450 | one redirect extends the closed forms for method and body, although it is handed the original body |
| `Engine.MethodInNumbers` | internal/executor/executor.go:440-450 | over every history of 301, 302, 303, 307 and 308: the method is kept iff only 307 and 308 occurred, or it was GET or HEAD; a last 301, 302 or 303 sends no body, a last 307 or 308 the original one |
| `Engine.FollowedIff` | internal/executor/executor.go:121 | a reply is followed iff its status is 301, 302, 303, 307 or 308, redirects are asked for and the limit, maxRedirects or 10, is not reached |
| `Engine.NextHop` | internal/executor/executor.go:127-136 | following a redirect keeps the chain linked and the forms right |
| `Engine.Execute` | internal/executor/executor.go:74-144 | terminates within maxRedirects+1 exchanges, each linked to the one before by its Location and carrying the closed-form method and body; result and recorded hops follow from the last exchange; on every hop the addresses dialed are the permitted ones in order, up to the first that connects |
| `Engine.FirstExchange` | internal/executor/executor.go:105-111 | the first exchange has the request's URL, body and method, or GET where none is given |
| `Engine.NextExchange` | internal/executor/executor.go:113-137 | every further exchange follows a 301, 302, 303, 307 or 308: after 307 and 308 it has the method of the one before and the original body, after the others no body and GET unless that method was GET or HEAD |
| `Engine.ExchangesMade` | internal/executor/executor.go:97-143 | at most maxRedirects+1 exchanges, with 10 for a limit that is not positive and 0 without redirects, and exactly as many if every reply is a redirect that can be followed |
| `Engine.TerminalBody` | internal/executor/executor.go:293-305 | the request's own cap counts if it is positive, the engine's otherwise; the reported body is cut there and flagged iff it was longer |
| `Engine.OnlyPermittedAreDialed` | internal/executor/executor.go:267-279 | no hop of a whole execution dials a denied address or passes over a permitted one, and only the last one dialed can have connected |
| `Engine.ErrorOrStatus` | internal/executor/executor.go:97-143 | a result has an error and status 0, or no error and the status of a reply that is not followed; it names its request and at most maxRedirects hops |
| `Engine.BlockedIff` | internal/executor/executor.go:452-456 | exactly when a failed exchange is classified as blocked |
| `Engine.KindOfFailure` | internal/executor/executor.go:452-477 | which failures are dns, tls, timeout, connect or http, by the first that is found in the error, and which are worth a retry |
| `Engine.GetCarriesBodyIff` | internal/executor/executor.go:134 | exactly when a redirected request ends up as GET with the original body |
| `Engine.StaysDroppedIff` | internal/executor/executor.go:134 | a dropped body stays dropped iff no 307 or 308 follows a 301, 302 or 303 |
| `Engine.DroppedBodyComesBack` | internal/executor/executor.go:134 | a POST after a 302 and a 307 is a GET with the body of the POST |
| `Backoff.DelayInWindowOrOverflow` | internal/reporter/reporter.go:203-211 | for every attempt the delay lies in [base/2, base) or the draw panics, and exactly when it panics; never up to attempt 36 |
| `Backoff.EveryDelayIsDrawn` | internal/reporter/reporter.go:203-211 | every delay in that half-open interval is drawn for some random number |
| `Backoff.OverflowedBase` | internal/reporter/reporter.go:204-207 | between attempts 37 and 57 the wrapped product is negative or above the ceiling, by one bit of 5^9 |
| `Backoff.EverythingShiftedOut` | internal/reporter/reporter.go:204 | from attempt 58 on the product is zero |
| `Delivery.Reporter.constructor` | internal/reporter/reporter.go:56-72 | the reporter that deliveries rely on has a positive number of attempts and a positive inline limit, 4 and 200 KiB where none was given, and is otherwise as configured |
| `Delivery.Reporter.PostHttp` | internal/reporter/reporter.go:160-201 | the whole trace of posts and naps, why it stopped, and the result, for every sequence of outcomes |
| `Delivery.Reporter.PublishChannel` | internal/reporter/reporter.go:126-156 | the same for publishes, with posts to the agent's own URL only after the last publish failed |
| `Delivery.Reporter.Report` | internal/reporter/reporter.go:77-122 | the route taken and the trace along it |
| `Delivery.JobsOwnRouteFirst` | internal/reporter/reporter.go:78-121 | the job's own transport, URL, channel and limit go before the agent's; a large result goes to a URL if there is one; an unknown transport goes nowhere |
| `Delivery.StatusesInNumbers` | internal/reporter/reporter.go:187-196 | 2xx deliver, 4xx other than 429 end the attempts, everything else is retried |
| `Delivery.DeliveryTrace` | internal/reporter/reporter.go:77-201 | at most RetryAttempts publishes, then at most as many posts, all of the same bytes, none after a success or refusal; delivered iff the last attempt succeeded; an oversized payload is published only if no URL is known |
| `Delivery.GivesUpOnlyWhenSpent` | internal/reporter/reporter.go:135-155 | an undisturbed delivery gives up only on a refusal or with its retries used up |
| `Delivery.BudgetClosedForm` | internal/reporter/reporter.go:203-211 | the sum of the nap windows of n attempts |
| `Delivery.DeliverySleepBounded` | internal/reporter/reporter.go:77-211 | a whole delivery, a nap cut short by its context included, sleeps at most twice that sum |
| `Delivery.NoPanicUpTo37` | internal/reporter/reporter.go:203-211 | with up to 37 attempts no delivery panics |

## Left out

- Cryptography: envelopes, signatures and hashes are not modelled; whether a message opens, a manifest is authentic or a hash matches is an input.
- The replay cache of the opener: it can only drop messages, which `Intake.Event.Drop` allows at any time.
- The PushFlo transport, TLS, the HTTP client, DNS, URL and address parsing: their outcomes are inputs.
- More than one dial per exchange: an HTTP client that redials after a failed reuse or races two connections is taken as one dial.
- `Engine.Execute`: request headers, timing, TLS details, protocol and header capture are not part of the result; the order of captured headers is not determined by the code.
- `Engine.Execute`: the total deadline shows only as an exchange that fails with a timeout.
- `Engine.Execute`: the method is trimmed and upper-cased, the URL built and the base64 body decoded before the model begins; error texts other than those of a skip and of a bad Location are shortened.
- `Delivery.Reporter.PostHttp`: request headers and the token are not modelled; a nap is an amount of time in the trace, not time that passes.
- `Drain.DrainSeesNothingInFlight`: the 30-second limit of the drain is not modelled; a drain that times out promises nothing.
- `Supervisor.Updater.CheckAndApply`: runs without the restart loop beside it; `SuperviseLoop` models the two together, without files.
- `SuperviseLoop.OneWorkerWithoutUpdates`: readiness is not modelled there; a launch that never becomes ready is a launch, and the supervisor's own shutdown is left out.
- `UpdateCycle.World.Accepts`: case folding is that of ASCII letters, which is all a hexadecimal checksum can match.
- `DedupeStore.Dedupe.FlushLocked`: a crash of the process only; the file is not synced, so a power loss can lose a rename that went through.
- `Intake.AtMostOncePerWindow`: at most once, not exactly once; a job recorded before a crash is suppressed on purpose and may never run.
- `Pool.NeverStuck`: an engine call that never answers is not modelled; every execution returns.
- The integer width of clock values, wait groups and counts: they stay far below 2^63; widths are modelled where they matter, in the backoff, the body cap and version numbers.
- Strings are sequences of code points; `string(r)` of an invalid byte is not modelled.
- Building a version string from module build information when none was injected; it is one more possible version string.
- Configuration defaults, validation, channel names and agent ids: they would only add easy members.
- Enrollment, key storage, heartbeats, control messages, the health server, logging, the command line and installation.
