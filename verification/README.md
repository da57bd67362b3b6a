# A verified model of the live-migration operator

The repository is a Kubernetes operator that moves a running process from one node to another with CRIU.
A controller drives a migration through the stages Quiescing, Dumping, Uploaded, Restoring and RestoreFailed.
An agent beside the process takes incremental dumps, uploads them and restores them. A write profiler inside
the agent decides which memory is too hot to dump early, and a scheduler keeps the dirty memory small enough
to be uploaded before a deadline.

This project models the parts of that system where correctness is not visible from one function, and proves
properties of every input, every run or every reachable state. `dafny verify dfyconfig.toml` checks all of it.

## How it is organised

| file | what it models |
|---|---|
| `MigrationStatus.dfy` | the status record, every write to it, and the atomic migration machine |
| `Reconciling.dfy` | the machine as it really runs: stale copies, lost writes, crashes, other clients; its refinement |
| `MigrationSafety.dfy` | invariants, conservation, termination, dump and retry safety over all runs |
| `Decisions.dfy` | what a reconcile decides from its copy and the answers it gets; waiting and progress |
| `Controller.dfy` | the reconciler as an object that changes the status field by field, tied to the machine |
| `DumpChain.dfy` | the incremental dump chain, hot ranges, and which pages can be recovered |
| `Scan.dfy`, `Heat.dfy` | chunked dirty counting and the hot/cold classifier, against the history of scans |
| `Deadline.dfy`, `Profiling.dfy` | the deadline invariant, the feasibility score, and the loop that acts on them |
| `Ptrace.dfy` | system call injection into a traced process, on every exit path |
| `Annotations.dfy` | the command line on its way from the pod builder through the annotations to the agent |
| `Storage.dfy` | S3 keys and local paths of a dump, there and back |
| `LazyPagesLog.dfy` | the fold over the lazy-pages log and the figures made from it |
| `Addresses.dfy`, `Text.dfy`, `Options.dfy` | address ranges and mappings; Go's string operations; optional values |

Calls to the outside (Kubernetes API, gRPC, CRIU, ptrace, PAGEMAP_SCAN, S3) are inputs with a stated contract.
Floating-point numbers are reals, and a reconcile reads the clock once. Stored times are cut to whole seconds, as the
Kubernetes API does.

### What the proofs found

* **The uncached guard is needed.** With it, a second final dump within a migration implies that the report of the first
  was never accepted (`NoDumpStorm`). Without it there is a run that repeats a dump whose success was stored
  (`UnguardedDumpRepeats`).
* **Dumps can lose pages.** `DumpRecoverableIff` gives the exact condition for one dump, and each way to fail has its
  lemma and a run over one page. While the agent's bookkeeping is that of the last dump, there are exactly three
  (`LossCauses`): a hot range that shrinks under the same start address (`ShrinkingRangeLoses`), an exclude file that
  cannot be written (`UnwrittenFileLoses`), and a pre-dump of the scheduler, which passes no no-parent ranges
  (`ScheduledDumpLoses`). The bookkeeping itself goes wrong when a request fails (`FailedRequestForgets`), when
  profiling is stopped (`StopForgets`) and when the scheduler dumps in between (`ScheduledHoleForgotten`). The final
  dump is complete only if every clean page the last pre-dump left out is still excluded (`FinalDumpCompleteIff`).
* **A container that sets only arguments is lost.** The pod builder saves the arguments and replaces the command line by
  a sleep; the agent finds no command and starts nothing (`CommandLineSurvivesIff`, `ArgsOnlyIsLost`).
* **Giving up is promised to cost seven seconds of backoff; on the stored clock it does.** Stored times are cut to
  seconds, so the real time can be 6.001 s (`QuickGiveUp`) and is always more than six (`GivingUpTakesSevenSeconds`);
  `SevenSecondsIff` says exactly when it is seven.
* **An injected call can run although its injection reports an error.** Then a scratch page or a descriptor stays in the
  target; apart from that the target is left as it was (`TargetIntactIff`, `LostResultLeaks`).
* **A memory range can be write-protected without being reported.** When the answer to a registration is lost, the range
  stays armed but is missing from the list; the list is complete exactly when no agreed answer was lost
  (`ReportedIff`).
* **The annotation decoder is not the inverse of quoting.** An `n` or `t` after a backslash comes back as newline or
  tab, and nothing else changes (`UnescapeQuoted`, `GarbledIff`). A value that ends with the wanted key and `=`
  captures the search (`ReadsWrong`).
* **A feasibility score of exactly one draws no warning**, although the invariant is violated there
  (`FeasibilityAgrees`, `ScoreOfOneIsSilent`).
* **A per-source maximum stall can exceed the overall one** exactly when no event is from that source and every stall is
  negative after rounding (`Summarize`); a served line without timestamp does it (`NegativeStallHides`).
* The comment on `getS3Prefix` announces a leading `checkpoints/`; the code writes none, and neither does the model.

## Model

| member | source | states |
|---|---|---|
| Reconciling.Refinement | pkg/controller/reconciler.go:50-203 | for every interleaving of stale reads, lost writes, crashes and foreign metadata writes, the accepted versions are a run of the machine that always works on the newest status, and every remote call is explained by the version it was decided from |
| Reconciling.StepKeepsSound | pkg/controller/migration_fsm.go:95-112 | each step of the reconciler keeps that relation, accepted or refused |
| Reconciling.EntryKeepsSound | pkg/controller/migration_fsm.go:95-112 | an accepted version keeps every earlier call explained and every report paired with its own call |
| Reconciling.CallKeepsSound | pkg/controller/migration_fsm.go:428-470 | a remote call keeps it; no earlier report is attributed to a later call |
| MigrationSafety.WriteKeepsPhase | pkg/controller/migration_fsm.go:80-111 | every permitted write keeps Phase a sound summary of Stage |
| MigrationSafety.WriteKeepsRecord | pkg/controller/migration_fsm.go:95-118 | every permitted write keeps an idle record empty and the retry count within its budget |
| MigrationSafety.EveryStatusFits | pkg/controller/migration_fsm.go:80-118 | in every reachable status Running implies Idle, Migrating implies not Idle, a terminal stage shows as Failed, a migration in flight as Migrating, Idle implies a zero record, and retries stay within MaxRetries |
| MigrationSafety.MigrationsConserved | pkg/controller/migration_fsm.go:124-161 | started migrations = history records + one if a migration is in flight, in every reachable state |
| MigrationSafety.HistoryGrows | pkg/controller/migration_fsm.go:684-702 | history is append-only; only a success appends a success record and raises Generation |
| MigrationSafety.GenerationCounts | pkg/controller/reconciler.go:233-238 | Generation is the number of success records since the initial pod was last created |
| MigrationSafety.WriteBurnsFuel | pkg/controller/migration_fsm.go:756-777 | every handler write strictly decreases the measure of remaining retries and stage rank |
| MigrationSafety.WriteUsesAttempt | pkg/controller/migration_fsm.go:820-823 | entering Restoring uses one of MaxRetries + 1 attempts |
| MigrationSafety.FuelBurns | pkg/controller/migration_fsm.go:258-277 | the same along every run, starting only from Start |
| MigrationSafety.FuelBounds | pkg/controller/migration_fsm.go:745-833 | the writes made between two versions of one migration are bounded by the measure they used |
| MigrationSafety.FuelNeverRaised | pkg/controller/migration_fsm.go:745-833 | while every version is in flight nothing raises the measure, whoever writes |
| MigrationSafety.MigrationTerminates | pkg/controller/migration_fsm.go:106-108 | a migration makes at most 15 handler writes and enters Restoring at most 4 times |
| MigrationSafety.PastDump | pkg/controller/migration_fsm.go:515-603 | once past its dump a migration never returns to Quiescing or Dumping |
| MigrationSafety.RecordCarriesDump | pkg/controller/migration_fsm.go:493-500 | from Uploaded on, the record carries the dump that was accepted for this migration: its ID, its pipe inodes, the path app/generation/node/ID with the generation before the migration, and the dial-back address with port 9999, or none and 0 |
| MigrationSafety.StoredDirectory | pkg/controller/migration_fsm.go:475-476 | for names without a slash that path splits into exactly app, the decimal generation, node and ID, and the generation reads back |
| Text.DecimalReads | pkg/controller/migration_fsm.go:475-476 | a decimal number reads back as itself |
| Text.SplitFour | pkg/agent/checkpoint.go:650-654 | a path of four slash-free parts splits into them |
| MigrationSafety.RecordRemembersStart | pkg/controller/migration_fsm.go:144-154 | while a migration is in flight its record names the node it started on and the reason |
| MigrationSafety.RecordNamesTarget | pkg/controller/migration_fsm.go:575-590 | while a migration is restoring, its record names a pod that a create call of the operator brought up before |
| MigrationSafety.OneDumpPerMigration | pkg/controller/migration_fsm.go:144-154 | two accepted dumps belong to two different migrations |
| MigrationSafety.RestoreUsesAcceptedDump | pkg/controller/migration_fsm.go:652-661 | every Restore call, from any snapshot, carries the ID and pipe inodes that a FinalDump call of that migration answered, the path app/generation/node/ID it was uploaded to, and the dial-back address |
| MigrationSafety.TargetCarriesAcceptedDump | pkg/controller/migration_fsm.go:555-571 | every target pod that is created names the same dump, the node the migration started on, and the generation its success will have |
| MigrationSafety.SuccessWasRestored | pkg/controller/migration_fsm.go:652-702 | every success record was appended by one accepted write, which reports a Restore call of its own, made before it and answered without error |
| MigrationSafety.HistoryTells | pkg/controller/migration_fsm.go:684-702 | every history record names the node its migration started on; on success also the reason and the node where the app now runs, on failure neither, and the stage is terminal; its message has the retries and time, the dump error, or the retries and last error |
| MigrationSafety.NoDumpStorm | pkg/controller/migration_fsm.go:428-435 | a guarded second FinalDump in a migration implies that the report of the first was never accepted |
| MigrationSafety.UnguardedDumpRepeats | pkg/controller/migration_fsm.go:412-435 | without the guard there is a run that repeats a recorded dump |
| MigrationSafety.TerminalNeedsReset | pkg/controller/migration_fsm.go:181-184 | after a terminal stage no guarded dump or target pod before an accepted retry reset |
| MigrationSafety.TerminalStays | pkg/controller/migration_fsm.go:891-926 | a terminal stage lasts until a reset is accepted |
| MigrationSafety.QuiesceStamp | pkg/controller/migration_fsm.go:228-284 | the stored transition time in Quiescing is at most one drain budget after entry |
| Decisions.QuiesceMovesOn | pkg/controller/migration_fsm.go:228-284 | two drain budgets after entry, whoever holds the newest copy tries the move to Dumping, whatever pods remain |
| Decisions.WaitsIff | pkg/controller/migration_fsm.go:216-833 | a handler leaves a migration in flight alone in exactly four situations: draining, backing off, the old target still there, a copy the guard finds out of date |
| Decisions.StageTriesPermitted | pkg/controller/migration_fsm.go:165-193 | whatever a stage handler tries from any copy advances a migration in flight and is permitted by the machine |
| Decisions.TriesPermitted | pkg/controller/reconciler.go:50-203 | the same for the first write of a whole reconcile |
| Decisions.StartsIff | pkg/controller/reconciler.go:318-350 | a reconcile starts a migration if and only if the app is idle and its current pod is marked for it or sits on a cordoned node; a webhook-managed app must have a phase first |
| Decisions.ReasonIs | pkg/controller/reconciler.go:329-345 | the reason is the one given, "manual" if it is empty, and the interruption of the node otherwise |
| Decisions.BusyOnlyAdvances | pkg/controller/reconciler.go:110-126 | from a copy of a migration in flight a reconcile only advances it, unless no live pod is left, and from a failed one only a requested retry resets it |
| Decisions.ResetsIff | pkg/controller/migration_fsm.go:891-926 | a reset is tried if and only if a retry is requested and the stage is terminal |
| Decisions.NewPodIff | pkg/controller/reconciler.go:110-138 | the initial pod comes exactly when every listed pod is going, another one exactly when the current pod of an idle app failed, need not move and could be deleted |
| Decisions.NewPodStored | pkg/controller/reconciler.go:228-278 | its name is stored and the app waits for it; only the initial pod starts the generations anew |
| Decisions.AdoptsIff | pkg/controller/reconciler.go:629-643 | a webhook-managed app without a phase, and no other, takes over its current pod and counts as running |
| Decisions.RefreshConverges | pkg/controller/reconciler.go:141-175 | a stored refresh shows node and phase of the pod and leaves nothing to refresh |
| Decisions.CheckpointsIff | pkg/controller/reconciler.go:177-193 | a reconcile stores a periodic checkpoint if and only if the app is idle, its running pod needs nothing else and the interval is over |
| Decisions.CheckpointChains | pkg/controller/reconciler.go:417-462 | a stored checkpoint is the last of its chain: it starts one of depth one or makes the present one longer by one, never beyond the limit |
| Decisions.ReappliedIsLast | pkg/controller/reconciler.go:464-479 | a checkpoint stored again after a conflict becomes the last one and leaves chain, phase and migration of the refetched copy alone |
| Decisions.CheckpointsSpaced | pkg/controller/reconciler.go:397-414 | two checkpoints are at least the interval apart |
| Decisions.FirstCheckpointWaits | pkg/controller/reconciler.go:397-411 | the first one waits a minute after the app was created |
| Decisions.QuiesceActs | pkg/controller/migration_fsm.go:228-277 | the first visit within the drain budget deletes exactly the pods that run and are not going, or scales exactly the Deployments that own them; no other visit does either |
| Decisions.DrainBudgetIs | pkg/controller/migration_fsm.go:228-236 | that budget is the configured number of seconds, or five |
| Decisions.VisitStep | pkg/controller/migration_fsm.go:165-193 | one visit of the newest copy, late enough, waits for a lingering target or strictly burns fuel, and keeps the status sound |
| Decisions.MigrationFinishes | pkg/controller/migration_fsm.go:745-833 | progress: a migration visited as often as its fuel (at most 15), not counting visits that find the old target, has ended with exactly one more history record, however everything else answers |
| MigrationSafety.BackoffRespected | pkg/controller/migration_fsm.go:781-789 | a migration with r retries has lasted at least the sum of the first r backoffs on the stored whole-second clock |
| MigrationSafety.RetryWaits | pkg/controller/migration_fsm.go:60-69 | each retry comes at least two seconds after the second failure and five after the third, counted from the stored time |
| Decisions.BacksOffIff | pkg/controller/migration_fsm.go:60-69 | and a handler backs off exactly that long, and not at all after the first failure |
| MigrationSafety.GivingUpTakesSevenSeconds | pkg/controller/migration_fsm.go:60-69 | giving up takes seven seconds on the stored clock and more than six of real time |
| MigrationSafety.SevenSecondsIff | pkg/controller/migration_fsm.go:60-69 | the real time is at least seven seconds if and only if the stored times differ by eight or giving up falls no earlier within its second than the start |
| MigrationSafety.QuickGiveUp | pkg/controller/migration_fsm.go:781-789 | a run that gives up after 6.001 seconds |
| Controller.ListQuiesceTargets | pkg/controller/migration_fsm.go:308-331 | exactly the listed pods that run and are not terminating, in order |
| Controller.GetCurrentPod | pkg/controller/reconciler.go:281-305 | the first of the newest pods that are not terminating; none only if all terminate |
| Controller.Reconciler.Get | pkg/controller/reconciler.go:54-63 | a reconcile starts from whatever version the cache returns, and knows its number |
| Controller.Reconciler.UpdateStatus | pkg/controller/reconciler.go:164-175 | a write is accepted if and only if it arrives and the copy is still the newest version |
| Controller.Reconciler.SetStage | pkg/controller/migration_fsm.go:95-112 | the field updates are the machine's write, stored under the same rule |
| Controller.Reconciler.StartMigration | pkg/controller/migration_fsm.go:124-161 | the field updates are the machine's Start from an idle copy, into Quiescing exactly when a selector is configured; it makes no call |
| Controller.Reconciler.FsmQuiescingHandler | pkg/controller/migration_fsm.go:216-285 | a legal step; the first visit deletes the matched pods or scales their Deployments, and only that one; from the newest copy the stored status is the machine's |
| Controller.Reconciler.DeletePods | pkg/controller/migration_fsm.go:263-268 | one delete for each pod |
| Controller.Reconciler.ScaleOwnersToZero | pkg/controller/migration_fsm.go:337-399 | the Deployments of the pods, each scaled once |
| Decisions.OwnersAre | pkg/controller/migration_fsm.go:337-385 | those are exactly the owning Deployments, without repetition |
| Controller.Reconciler.FsmAdvanceToDumping | pkg/controller/migration_fsm.go:290-303 | tries exactly the write to Dumping and makes no call |
| Controller.Reconciler.FsmDumpingHandler | pkg/controller/migration_fsm.go:412-507 | a legal step that calls FinalDump at most once and only past the guard, and reports that very call: a dump is stored exactly when the agent answered and the dump succeeded, with the dial-back address exactly for the two direct strategies; from the newest copy the stored status is the machine's |
| Controller.Reconciler.FsmTransitionToFinalDumpFailed | pkg/controller/migration_fsm.go:837-861 | failure record and terminal stage go in one write |
| Controller.Reconciler.FsmUploadedHandler | pkg/controller/migration_fsm.go:515-603 | a legal step that creates at most one target pod, past the guard and carrying the recorded dump; it goes on exactly when the pod exists and runs, and deletes it at once if it does not get to run; from the newest copy the stored status is the machine's |
| Controller.Reconciler.FsmRestoringHandler | pkg/controller/migration_fsm.go:609-738 | a legal step with at most one Restore call, which carries the record; success is tried exactly when the target was found, its agent answered and the call had no error, and only an acknowledged success deletes or detaches the source pod |
| Controller.Reconciler.FinishMigration | pkg/controller/migration_fsm.go:684-702 | history, generation, node and the cleared record go in one write; only once that is acknowledged is the source pod deleted, or detached if it is to be preserved |
| Controller.Reconciler.FsmRestoreFailedHandler | pkg/controller/migration_fsm.go:745-833 | gives up exactly when the budget is spent, waits out the backoff, deletes the target of the failed attempt whenever it is found after that and nothing else, and retries once it is gone |
| Controller.Reconciler.FsmTransitionToRestoreFailed | pkg/controller/migration_fsm.go:866-881 | tries the RestoreFailed write and nothing else |
| Controller.Reconciler.AdvanceMigrationFSM | pkg/controller/migration_fsm.go:165-193 | from the newest copy exactly one visit of the migration is stored; which pods each stage deletes; terminal stages try nothing |
| Controller.Reconciler.CheckRetryAnnotation | pkg/controller/migration_fsm.go:891-939 | a reset is tried and the current pod deleted if and only if a retry is requested and the stage is terminal |
| Controller.Reconciler.CreateInitialPod | pkg/controller/reconciler.go:206-244 | tries exactly the initial-pod write, and only when the pod was created |
| Controller.Reconciler.RecreatePod | pkg/controller/reconciler.go:247-278 | the failed pod is deleted; the write is tried exactly when that worked and the new pod was created |
| Controller.Reconciler.PerformPreCheckpoint | pkg/controller/reconciler.go:417-482 | its first write starts a new chain exactly when there is no last dump or the chain is full; it never moves the stage and writes at most three times |
| Controller.Reconciler.StoreCheckpoint | pkg/controller/reconciler.go:464-479 | at most three writes, the first with the new chain fields, each later one reapplying only ID and time |
| Controller.Reconciler.RefreshFromPod | pkg/controller/reconciler.go:141-175 | tries the exact refresh that the pod calls for, none if nothing changed |
| Controller.Reconciler.RefreshFromWebhook | pkg/controller/reconciler.go:629-643 | tries the refresh exactly when there is no phase yet, otherwise changes nothing |
| Controller.Reconciler.ReconcileWebhookManaged | pkg/controller/reconciler.go:614-685 | the first write it tries, as a function of the copy and the answers |
| Controller.Reconciler.Reconcile | pkg/controller/reconciler.go:50-203 | from a copy of any age: a legal run with at most one stage transition, every version ever stored sound, and from the newest copy of a migration in flight exactly one visit of it is stored |
| Controller.Reconciler.Serve | pkg/controller/reconciler.go:50-203 | one recorded reconcile, whatever it meets, ends the migration or does not raise its fuel, and lowers it if it lands |
| Controller.Reconciler.ReconcileAll | pkg/controller/reconciler.go:50-203 | any sequence of requests leaves a trail of recorded steps in which each request is one reconcile, and once as many have landed as there was fuel the migration has ended |
| Controller.ReconcileStep | pkg/controller/reconciler.go:50-203 | a reconcile from any copy keeps every version, and ends the migration or burns fuel exactly when it lands |
| Controller.InterleavedProgress | pkg/controller/reconciler.go:50-203 | over any recorded run cut into reconciles, stale, lost and waiting ones never raise the fuel, so once as many have landed as there was fuel the migration has ended |
| Reconciling.LogGrows | pkg/controller/reconciler.go:50-203 | no step takes back an accepted version |
| DumpChain.Agent.BuildExcludeArgs | pkg/agent/server.go:186-215 | the no-parent ranges cover exactly the pages of ranges whose start was hot before and is not now |
| DumpChain.DumpRecoverableIff | pkg/agent/server.go:186-215 | one more dump keeps every page recoverable if and only if it takes no hole for a parent page |
| DumpChain.ChainRecoverable | pkg/agent/checkpoint.go:99-108 | over any run of requests, failures, scheduled pre-dumps and stops that loses no page, every dump resolves every page to its content |
| DumpChain.RequestLosesNothing | pkg/agent/server.go:203-215 | the bookkeeping covers every page left out before, if starts that stay hot keep their range |
| DumpChain.RequestsRecoverable | pkg/agent/server.go:166-239 | hence every dump of a run of successful requests is recoverable |
| DumpChain.ProfiledRecoverable | pkg/agent/server.go:186-215 | with the profiler's own hot regions every dump is recoverable as long as no VMA shrinks between requests |
| DumpChain.ProfilerStarts | pkg/profiler/heat.go:116-128 | the profiler's regions have distinct starts |
| DumpChain.ProfilerKeeps | pkg/profiler/heat.go:57-62 | a region that starts where an earlier one did is at least as long while no VMA shrinks |
| DumpChain.LossCauses | pkg/agent/server.go:203-215 | while the bookkeeping is that of the last dump, only a scheduled pre-dump, an unwritten exclude file or a shrinking range can lose a page |
| DumpChain.FinalDumpCompleteIff | pkg/agent/server.go:320-325 | the final dump is complete if and only if every clean page the last pre-dump left out is still excluded |
| DumpChain.ShrinkingRangeLoses | pkg/agent/server.go:203-209 | two requests with a shrinking range that lose a page |
| DumpChain.FailedRequestForgets | pkg/agent/server.go:209-222 | a failed request makes the next one lose every clean page of a forgotten hole |
| DumpChain.ScheduledDumpLoses | pkg/agent/deadline_scheduler.go:358-375 | a scheduled pre-dump on a parent loses every clean hole that has cooled |
| DumpChain.UnwrittenFileLoses | pkg/agent/checkpoint.go:760-767 | more than ten unchanged ranges without a written file lose every clean hole |
| DumpChain.StopForgets | pkg/agent/server.go:805-815 | after profiling is stopped the next request loses every clean hole it does not exclude |
| DumpChain.ScheduledHoleForgotten | pkg/agent/deadline_scheduler.go:358-375 | the next request loses the clean holes of a scheduled pre-dump |
| DumpChain.ScheduledDumpRun | pkg/agent/deadline_scheduler.go:358-375 | a request and a scheduled pre-dump over one page that lose it |
| DumpChain.BookkeepingRun | pkg/agent/server.go:209-222 | two requests over one page that lose it, with a failed request or a stop between them |
| DumpChain.ScheduledHoleRun | pkg/agent/deadline_scheduler.go:358-375 | a scheduled pre-dump and a request over one page that lose it |
| DumpChain.UnwrittenFileRun | pkg/agent/checkpoint.go:760-767 | two equal requests with eleven ranges that lose the page |
| Scan.ChunksPartition | pkg/profiler/scan.go:38-41 | the chunks partition the VMA; every address is in exactly its own chunk |
| Scan.CountFits | pkg/profiler/scan.go:145-150 | no chunk counts more pages than it has, so the 16-bit counter never saturates |
| Scan.CountRegion | pkg/profiler/scan.go:145-150 | counting a region in place adds exactly its pages to their chunks |
| Scan.ScanVma | pkg/profiler/scan.go:129-164 | each dirty page is counted once in its own chunk, and the chunk counts add up to the total |
| Scan.ScanDirtyPages | pkg/profiler/scan.go:93-168 | the results count exactly the scanned VMAs, in order, page by page and chunk by chunk, and the total counts every dirty page once; fails exactly when write protection is refused |
| Heat.HotRunIsLongestSuffix | pkg/profiler/heat.go:100-106 | the specification's run is the longest suffix above the threshold |
| Heat.ExceedsIff | pkg/profiler/heat.go:89-92 | a ratio exceeds the threshold exactly when the dirty pages exceed that share of the pages |
| Heat.HotRunIff | pkg/profiler/heat.go:100-106 | the run is at least n long exactly when each of the last n scans counted the chunk above the threshold |
| Heat.TracksExactly | pkg/profiler/heat.go:100-128 | so the map marks a chunk hot exactly when they did |
| Heat.RingPush | pkg/profiler/heat.go:94-98 | writing at the head drops the oldest ratio of a full buffer and nothing else |
| Heat.PushFits | pkg/profiler/heat.go:89-106 | recording a ratio keeps ring, streak and hot flag equal to what the chunk's presence says |
| Heat.HeatClassifier.Update | pkg/profiler/heat.go:49-129 | a region is listed exactly once for each chunk that each of the last hotConsecutive scans since the reset counted with more dirty pages than the threshold's share; it has the chunk's bounds, and its ratio times its pages is the number of dirty pages counted last |
| Heat.HeatClassifier.Touch | pkg/profiler/heat.go:57-107 | one chunk's record changes as the specification says, no other does |
| Heat.HeatClassifier.Reset | pkg/profiler/heat.go:131-133 | nothing is tracked and the history starts anew |
| Heat.HeatClassifier.CollectHot | pkg/profiler/heat.go:116-128 | each hot chunk once, with the bounds and ratio of its latest observation |
| Heat.ChunksDisjoint | pkg/profiler/heat.go:57-72 | chunks of disjoint VMAs are non-empty and disjoint |
| Heat.RatioBounded | pkg/profiler/heat.go:89-92 | ratios of a counted scan lie between 0 and 1 |
| Heat.HotRegionsFit | pkg/profiler/heat.go:116-128 | hot regions are non-empty, disjoint and together no larger than what was scanned |
| Heat.HotRegionKept | pkg/profiler/heat.go:57-62 | while no VMA shrinks, a chunk under the same start keeps at least its range |
| Deadline.ViolatedIff | pkg/agent/deadline_scheduler.go:157-187 | violated if and only if the dirty bytes cannot be uploaded in the available time |
| Deadline.DeadlineMissedIff | pkg/agent/deadline_scheduler.go:157-187 | the same over the configuration: deadline less freeze and margin, configured bandwidth or the fallback |
| Deadline.NoTimeIff | pkg/agent/deadline_scheduler.go:164-187 | no time is available if and only if a clean process violates it |
| Deadline.LoopStaysBelow | pkg/agent/deadline_scheduler.go:116-130 | the arithmetic of the loop: the volume stays below the limit after every tick and below it plus one tick before |
| Deadline.EvaluateFeasibility | pkg/agent/deadline_scheduler.go:203-276 | the computed score, all early exits included |
| Deadline.FeasibilityIs | pkg/agent/deadline_scheduler.go:203-276 | that score in terms of the configuration: no bandwidth scores 999, no time or a dirty rate not below the bandwidth 0 with a warning, otherwise the available time by the time for the hot bytes and the whole bytes that a pre-dump cycle reproduces |
| Deadline.ColdFixedPointIff | pkg/agent/deadline_scheduler.go:241-248 | the steady state is the unique fixed point of one pre-dump cycle |
| Deadline.ResidualBounded | pkg/agent/deadline_scheduler.go:241-248 | it bounds every partial sum, and the partial sums grow |
| Deadline.FeasibilityAgrees | pkg/agent/deadline_scheduler.go:250-260 | at the steady-state minimum the invariant is violated if and only if the score is at most one |
| Deadline.ScoreOfOneIsSilent | pkg/agent/deadline_scheduler.go:253-268 | whenever the hot regions alone take the whole available time, the score is one, silent and violated |
| Deadline.SilentExample | pkg/agent/deadline_scheduler.go:253-268 | such a configuration |
| Profiling.Profiler.CollectSample | pkg/profiler/profiler.go:166-227 | the byte counter grows by every dirty page once and never understates the distinct pages scanned dirty, the rate is those bytes per second; the classifier gets the exact counts of the watched VMAs, and the hot regions are exactly its hot chunks; a failed parse or scan changes none of it |
| Profiling.DiffVmas | pkg/profiler/vma.go:102-119 | exactly the writable anonymous VMAs that are not registered with their present end |
| Profiling.WritableAnonymousVmas | pkg/profiler/vma.go:89-97 | exactly the writable anonymous VMAs, in order |
| Profiling.WatchedAre | pkg/profiler/vma.go:89-97 | those are exactly the writable, private VMAs that are not the vdso |
| Addresses.SetOfIs | pkg/profiler/vma.go:102-107 | the map of registered ranges holds exactly their starts, each with the end of the last range that starts there |
| Profiling.Profiler.RegisterNew | pkg/profiler/profiler.go:176-188 | afterwards every watched VMA that the kernel did not refuse is registered with its present range, and nothing is registered that was neither before nor is one of those |
| Profiling.Profiler.CleanupBeforeCRIU | pkg/profiler/profiler.go:268-300 | stops, drops heat, registrations and descriptors with none left open on its side, keeps the dirty volume |
| Profiling.Profiler.ReinitAfterCRIU | pkg/profiler/profiler.go:305-353 | only a complete restart clears the counters; no descriptor is held that the profiler does not know |
| Profiling.InvariantScheduler.Start | pkg/agent/deadline_scheduler.go:90-143 | over any run of ticks with any samples between them, whatever fails, the volume is exactly the fold of the rounds and bounds the pages scanned dirty |
| Profiling.InvariantScheduler.OneRound | pkg/agent/deadline_scheduler.go:116-130 | the samples of a round add exactly their dirty bytes, and its tick resets them exactly when it is violated and the pre-dump and restart work |
| Profiling.LeftBelow | pkg/agent/deadline_scheduler.go:116-130 | when every pre-dump is followed by a restart, that fold is below the limit after every tick and less than one round above it before every tick |
| Profiling.InvariantScheduler.Tick | pkg/agent/deadline_scheduler.go:116-130 | not violated implies that the pages scanned dirty fit the deadline; violated plus a good pre-dump and restart brings the count to zero |
| Profiling.InvariantScheduler.TriggerPreDump | pkg/agent/deadline_scheduler.go:342-393 | a failed dump or restart leaves the profiler stopped with its count |
| Ptrace.WriteToTarget | pkg/profiler/ptrace.go:63-88 | success writes exactly the bytes of the data, partial last word included; it succeeds if and only if every covering word is mapped and no poke or peek fails |
| Ptrace.InjectSyscall | pkg/profiler/ptrace.go:25-59 | what the target is after each way an injection can end, result lost included; the call that runs is the one its registers ask for |
| Ptrace.Attach | pkg/profiler/ptrace.go:100-137 | seize to poke: every failure leaves the memory alone and detaches |
| Ptrace.CreateUffd | pkg/profiler/ptrace.go:164-178 | which descriptor comes back, and which exist afterwards |
| Ptrace.Handshake | pkg/profiler/ptrace.go:186-200 | only the scratch page changes; succeeds if and only if it was written and accepted, and then version 0xAA with asynchronous write protection, unpopulated pages included, was asked for |
| Ptrace.RegisterVmas | pkg/profiler/ptrace.go:202-227 | exactly the accepted writable anonymous VMAs, in order; only the scratch page changes; the trace of what the kernel was asked, decoded from its registers and the scratch page, is that of the rows below |
| Ptrace.BlockWritten | pkg/profiler/ptrace.go:186-219 | an argument block written byte by byte to the scratch page reads as its 64-bit words |
| Ptrace.ArmedAreProtected | pkg/profiler/ptrace.go:202-227 | the ranges that the kernel agreed to write-protect, decoded from the argument blocks, are start and end of the VMAs it agreed to, in order |
| Ptrace.ReportedIff | pkg/profiler/ptrace.go:202-227 | they are the reported ones if and only if no agreed answer was lost |
| Ptrace.UseUffd | pkg/profiler/ptrace.go:186-255 | handshake to return: what is reported, and that the descriptor survives only on success |
| Ptrace.CleanupMmap | pkg/profiler/ptrace.go:158-162 | with working restore calls: detached, original memory and registers, no scratch page |
| Ptrace.CleanupUffd | pkg/profiler/ptrace.go:180-184 | the same without the descriptor |
| Ptrace.SetupUffdWP | pkg/profiler/ptrace.go:95-256 | on every exit: detached, registers and memory as before, exactly the returned descriptor on success and none on failure, up to what a lost result left behind; the calls that ran, and on success the ranges armed beyond those before |
| Ptrace.SetupArms | pkg/profiler/ptrace.go:95-256 | a setup arms exactly the VMAs that the kernel agreed to, and nothing without an accepted handshake |
| Ptrace.TargetIntactIff | pkg/profiler/ptrace.go:146-178 | nothing is left behind if and only if no creating call ran behind an error report |
| Ptrace.LostResultLeaks | pkg/profiler/ptrace.go:164-178 | a run that leaks the first descriptor |
| Ptrace.CloseTargetUffd | pkg/profiler/ptrace.go:329-390 | on every exit: detached with code and registers restored; the descriptor is gone if and only if the close ran and succeeded |
| Text.SplitAfterJoinIff | pkg/agent/server.go:969-976 | splitting undoes joining if and only if every part ends before the first separator |
| Text.SplittableByChar | pkg/controller/pod_builder.go:194-203 | for the comma: no part holds one |
| Text.SplittableByBars | pkg/controller/pod_builder.go:204-213 | for the bars: no part holds them and no part but the last ends in one |
| Annotations.FindClose | pkg/agent/server.go:1147-1161 | the first quote that no backslash escapes, or none |
| Annotations.ExtractAnnotation | pkg/agent/server.go:1137-1176 | the text from the first key match to its closing quote, unescaped; empty if either is missing |
| Annotations.UnescapeQuoted | pkg/agent/server.go:1169-1173 | the four replacements turn a quoted value into the garbled one, for every value |
| Annotations.GarbledIff | pkg/agent/server.go:1169-1173 | a value comes back unchanged if and only if no backslash is directly followed by n or t |
| Annotations.ReadsValue | pkg/agent/server.go:1139-1176 | the value of the first line whose key ends with the wanted key, if nothing before it misleads |
| Annotations.ReadsNothing | pkg/agent/server.go:1141-1143 | empty, if no key and no value ends like the wanted key |
| Annotations.ReadsWrong | pkg/agent/server.go:1139-1161 | a value ending with key and '=' yields the name of the next key |
| Annotations.ReadsStored | pkg/agent/server.go:1137-1176 | for an unambiguous listing in any order, the stored value, garbled |
| Annotations.Serialize | pkg/controller/pod_builder.go:194-213 | the concatenating loop joins the parts |
| Annotations.SaveCommandLine | pkg/controller/pod_builder.go:192-216 | which annotations hold command, arguments and working directory, all others as before, and none without command and arguments |
| Annotations.ParseCommandLine | pkg/agent/server.go:957-976 | the three searches, decoded; without a command nothing is started |
| Annotations.CommandLineSurvivesIff | pkg/agent/server.go:947-976 | the command line reaches the agent unchanged if and only if it has a command and each part survives splitting, is not read as missing and is not garbled; without a command nothing is started |
| Annotations.SomethingTravels | pkg/agent/server.go:947-976 | the situation of that law exists |
| Annotations.ArgsOnlyIsLost | pkg/controller/pod_builder.go:192-216 | a container that sets only arguments, for which the agent reads no command |
| Storage.JoinPathNames | pkg/agent/s3.go:162-168 | joining clean names to any directory appends them to its cleaned form |
| Storage.KeptDots | pkg/agent/s3.go:351-354 | cleaning drops ".", lets ".." take the name before it along, drops it at the root and keeps it at the front of a relative path |
| Storage.KeyIs | pkg/agent/s3.go:162-168 | the key is app, generation, node, dump and path joined by slashes |
| Storage.KeysDistinct | pkg/agent/checkpoint.go:650-654 | different files of different dumps have different keys |
| Storage.BasePathIs | pkg/agent/s3.go:222-236 | the base path, with or without trailing slash, is the owner's directory |
| Storage.ListedIff | pkg/agent/s3.go:240-262 | a download lists an object if and only if app, generation and node agree |
| Storage.LocalPathIs | pkg/agent/s3.go:351-354 | a listed object comes back at workDir/dumpID/path, for any work directory |
| Storage.AbsolutePlace | pkg/agent/s3.go:351-354 | for the work directory "/" and then any parts: "/", what cleaning keeps of the parts, the dump ID and the path |
| Storage.Places | pkg/agent/s3.go:351-354 | the places spelled out for absolute and relative work directories, with clean names, with "." and with ".." |
| Storage.LocalPathsDistinct | pkg/agent/s3.go:351-354 | two objects of a download never share a local path |
| Storage.ListFull | pkg/agent/s3.go:291-300 | the keys below the base path |
| Storage.ListMetadata | pkg/agent/s3.go:247-258 | the full listing without page images, in the same order |
| Storage.PagesByName | pkg/agent/s3.go:251-254 | what counts as a page image is the file's own name |
| Storage.UploadFiles | pkg/agent/s3.go:111-183 | every file whose transfer works is stored under its own key and no other object changes; succeeds if and only if all work |
| Storage.DownloadFiles | pkg/agent/s3.go:309-354 | only listed keys are written, each working one with its content when no two share a path; succeeds if and only if all work |
| Storage.DownloadFile | pkg/agent/s3.go:348-378 | one transfer changes only its own path, and succeeds with the object's content |
| Storage.DownloadFullCheckpoint | pkg/agent/s3.go:272-307 | on success every file of the app, generation and node is back in its place with its content, and nothing else; for an absolute work directory the place is "/" and its names, the dump ID and the path |
| Storage.DownloadMetadataOnly | pkg/agent/s3.go:222-267 | the same without the page images |
| Storage.UploadThenDownload | pkg/agent/s3.go:162-354 | the round trip: every file of an uploaded dump directory is back below workDir/dumpID with its content; for an absolute work directory of clean names the path is spelled out |
| LazyPagesLog.ParseEvents | pkg/agent/metrics.go:83-122 | the loop over two maps yields, in order, the events of the per-process specification |
| LazyPagesLog.InterleavingIndependent | pkg/agent/metrics.go:83-122 | the events of a process in an interleaved log are those of the log restricted to it |
| LazyPagesLog.PendingIff | pkg/agent/metrics.go:93-105 | a fault is pending if and only if there is a latest unserved start; it holds that start's time and the bytes copied since |
| LazyPagesLog.EventPairs | pkg/agent/metrics.go:107-122 | a served line gives an event if and only if it answers a start, with the time and pages since that start |
| LazyPagesLog.Collect | pkg/agent/metrics.go:152-165 | all stalls, those of each source and the page counts, in order |
| LazyPagesLog.RoundMonotone | pkg/agent/metrics.go:193-229 | rounding to three decimals keeps order |
| LazyPagesLog.Round3Iff | pkg/agent/metrics.go:193-229 | rounding gives the nearest thousandth, of two equally near the one away from zero |
| LazyPagesLog.Avg | pkg/agent/metrics.go:193-202 | the rounded mean, never above the rounded maximum |
| LazyPagesLog.Max | pkg/agent/metrics.go:204-215 | the rounded greatest value, 0 for none |
| LazyPagesLog.Percentile | pkg/agent/metrics.go:217-229 | the rounded value of the stated rank among the given values |
| LazyPagesLog.Figures | pkg/agent/metrics.go:167-174 | mean, median and maximum of the values, each to the nearest thousandth; the first two never exceed the third |
| LazyPagesLog.PageFigures | pkg/agent/metrics.go:176-186 | mean and greatest of the page counts |
| LazyPagesLog.PartMaxIff | pkg/agent/metrics.go:171-174 | a source's maximum is at most the overall one if and only if the source has an event or some stall is not negative |
| LazyPagesLog.NegativeStallHides | pkg/agent/metrics.go:84-122 | a two-line log where it is not |
| LazyPagesLog.Summarize | pkg/agent/metrics.go:143-187 | every figure is the mean, median or maximum of the stalls it names; fault counts add up, median and means never exceed their maxima, and exactly when a source's maximum exceeds the overall one, in terms of the events |

## Left out

- Controller.Reconciler.Reconcile: one clock reading per reconcile, whereas the code reads the clock at each use.
- Controller.Reconciler.Reconcile: of its writes it names the first; a refresh that was stored may be followed by a pre-checkpoint write, of which only legality is stated.
- Controller.Reconciler.FsmQuiescingHandler: that deletes and scaling requests succeed; the requests are recorded, their errors are only logged by the source.
- Controller.Reconciler.ScaleOwnersToZero: the walk from pod through ReplicaSet to Deployment is an input.
- Controller.Reconciler.FinishMigration: message text and duration of history records are kept as arguments, not rendered; their timestamps are not cut to seconds; which labels a detached pod loses is not modelled.
- Decisions.MigrationFinishes: visits are at least the longest wait apart and accepted; Controller.Reconciler.ReconcileAll is about any interleaving, and that the queue brings enough reconciles about is the scheduling of controller-runtime.
- MigrationSafety.MigrationTerminates: MaxRetries is the default 3, the only value the code and the CRD schema ever write.
- Unknown stage strings, which the dispatcher only logs, are not values of the model.
- Which pod is the source: the pod that a handler works on is the newest live pod and is an input; that the pod deleted after success or by a retry is the source is not claimed, because the code does not ensure it.
- Pods, nodes and owner references as objects with their own lifecycle; they enter as answers.
- The recorded chain depth and root against the real chain after a conflict or a migration; the code lets them differ.
- DumpChain.ChainRecoverable: dumps name the previous dump or no parent; CRIU's behaviour is the contract of docs/write_profiler.md, not proved.
- Scan.ScanDirtyPages: VMA types and path names are copied along in the source and are not carried here; the ioctl's answer is assumed page-aligned, disjoint and inside the VMA.
- Heat.HeatClassifier.Update: getAllVMAs and the counters that only read the map are left out as easy members.
- Profiling.Profiler.CleanupBeforeCRIU: unregistering in the kernel; closing the target's descriptor is Ptrace.CloseTargetUffd.
- Profiling.Profiler.CollectSample: write-protecting the pages of a newly registered VMA, and the running average rate.
- Profiling.InvariantScheduler.Tick: bounds the pages scanned dirty; a profiler that a failed restart left stopped scans nothing more.
- Deadline.FeasibilityAgrees: reals instead of IEEE floats, unbounded integers instead of int64.
- The scheduler without a profiler, which never reports a violation, and its initial pre-dump, after which the loop always runs.
- The scheduler's Stop is a non-blocking send that can be dropped, so nothing is claimed about ticks after it.
- Ptrace.SetupUffdWP: addresses are unbounded and the kernel is assumed to hand out fresh pages and descriptors; registrations on a closed descriptor are assumed to vanish with it.
- Annotations.ReadsValue: values over newline, tab and printable ASCII, for which Go's quoting has only four escapes.
- Shell quoting and process start after the command line is decoded.
- Storage.UploadFiles: file contents are opaque; parallel transfers run one after the other, which their distinct keys and paths justify.
- LazyPagesLog.ParseEvents: regular expressions are inputs; transfer, cache-hit and prefetch figures are plain sums or last values and left out.
- performMigrationLegacy and its failure handler, which nothing reaches.
- Generated gRPC code, AWS and IMDS access, CloudWatch, webhook injection, pod affinity and environment building.
