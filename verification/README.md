# Verified models of the Chola CI controller, worker and pipeline view

A Dafny 4.11 project that models the parts of Chola whose correctness spans several functions or a
whole run, and proves what they promise. `dafny verify dfyconfig.toml` checks everything.

- **Stage dependencies and gating** (`Dag.dfy`, `JobGroups.dfy`). Kahn's algorithm over maps in
  arbitrary order, and the two gates that admit a stage.
- **Job groups and the allocation ledger** (`JobGroups.dfy`, `Ledger.dfy`, `ControllerModel.dfy`,
  `ControllerRuns.dfy`, `ControllerHistory.dfy`, `Controller.dfy`, `ControllerReports.dfy`,
  `ControllerTimes.dfy`, `ControllerLocks.dfy`). The handlers are methods on the controller's
  registries; each is proved to be one step of a state machine, whose runs conserve allocations.
  What the gates, the completion check and the background tasks decide is told from the events of
  a run.
- **Retention purge** (`PurgeProtocol.dfy`, `Purge.dfy`). Queue, directive, deletion, ack and stamp
  over an unreliable stream, again as methods proved to be steps of a protocol.
- **SQL statement splitter** (`SqlSplitter.dfy`). The skip-ahead lexer against a byte-by-byte
  automaton.
- **Log path** (`Masking.dfy`, `LogChunks.dfy`, `LogReaders.dfy`, `LogStreamer.dfy`,
  `LogSecrets.dfy`, `LogAggregator.dfy`, `LogPipeline.dfy`). Two readers, masking, batching,
  deduplication, the bounded buffer and the hand-over to live subscribers, and the whole way from
  the readers to the controller.
- **Process tree, rate limiter, pipeline rows** (`ProcessTree.dfy`, `RateLimiter.dfy`,
  `PipelineRows.dfy`). The limiter's bound, one below twice its limit, is shown to be the least.

## How the controller is modelled

Every handler is one atomic step, and group ids are fresh and below a bound that can be any number.
Time, the outcome of the store, database and stream calls that decide a step, the hash of a job id
and the scheduler's preference are parameters or arbitrary choices; so is the iteration order of a
map. The source
holds its locks for less than a whole handler. For the reaper, which picks groups under one lock
and acts under another, for the reservation, which charges a worker under one lock and adds the
group under another, and for the handlers that close a group under one lock and release it under
another, `ControllerLocks.dfy` says exactly what that costs.

The ledger keeps a ghost account, `leaked`, of what was charged to a worker and will never be
released by the end of a group: reservations refused after the charge, and groups failed by the
stuck sweep. With it the law is an equality: counters are the open groups' sum plus leaks. The
reconciler sets leaks to nothing.

## How the purge is modelled

A message once sent can be received at any later time and any number of times, or never. Every store
or database call can fail. Which workers look live is arbitrary in every step. One assumption
carries the safety results: a group the retention tick has picked is over, and no worker writes
files for it any more.

## Where the code does less than it says

Each is shown by a lemma, with the exact condition under which the code is right.

- An unclosed dollar quote has its last bytes scanned again (`SplitMeetsSpecIffTailQuiet`).
- The replacement of a secret removes it from every text exactly when it is `Maskable`
  (`RemovedFromEveryLineIffMaskable`), and keeps it out of every log exactly when it holds no
  newline either (`NeverLoggedIff`).
- A chunk larger than the buffer bound overfills the buffer (`FeedStream`); a subscriber is served
  by buffer index, clamped to the buffer's length, instead of stream offset (`HandOver`).
- The two readers can send lines in another order than they wrote them (`ShippedIsLocalLogIff`).
- A stage whose dependencies cannot be read is admitted without them (`InOrderIff`).
- A group that closes between the reaper's two locks is released twice (`LateReapBalancesIff`). A
  reconciliation between a reservation's charge and its group erases the charge
  (`LateAddUndercountsIff`), and one between a group's end and its release makes the release a
  second subtraction (`LateReleaseUndercountsIff`).
- A stamp passes over live workers with files that it cannot know about: owners that were never
  enqueued, or all of them when the owners cannot be read (`FilesLeftIff`).
- Stages of length zero can share a row without overlapping (`ClusterRows`).

Where a comment in the source and the code differ, the model follows the code: a dollar tag may
start with a digit, although the comment beside the code asks for a letter or an underscore.

## Model

| member | source | states |
|---|---|---|
| `Dag.BuildGraph` | crates/ci-controller/src/dag.rs:9-22 | In-degrees and child lists count every edge as often as it is named, for every map order |
| `Dag.InitialQueue` | crates/ci-controller/src/dag.rs:24-28 | Exactly the nodes of in-degree zero, each once, in an arbitrary order |
| `Dag.TellKids` | crates/ci-controller/src/dag.rs:33-43 | Telling all children of a finished stage restores the sorting invariant; a told child is always known and its in-degree never underflows, so the "not defined" error cannot occur |
| `Dag.DrainQueue` | crates/ci-controller/src/dag.rs:30-44 | When the queue is empty the order is without repetition and dependency-first, and every in-degree counts exactly the dependencies still missing |
| `Dag.LeftoverReachesCycle` | crates/ci-controller/src/dag.rs:46-53 | A stage left with a positive in-degree has a dependency chain into a cycle |
| `Dag.LinearExtensionAcyclic` | crates/ci-controller/src/dag.rs:46-56 | Only acyclic dependencies have a dependency-first order of all nodes |
| `Dag.TopoSort` | crates/ci-controller/src/dag.rs:7-57 | Sorted exactly when no cycle exists; then a linear extension of every key and every named dependency; otherwise the stage named reaches a cycle (so the "unknown" fallback cannot occur) |
| `Dag.ValidateDag` | crates/ci-controller/src/dag.rs:61-63 | Accepts exactly the acyclic maps |
| `JobGroups.SetJobState` | crates/ci-controller/src/job_group_registry.rs:116-145 | Reporting a job keeps the number, order and stages of the group's jobs |
| `JobGroups.AdmissionKeepsGating` | crates/ci-controller/src/grpc_server.rs:1237-1279 | A stage both gates admit keeps the job list free of repeated stages and closed under dependencies prefix by prefix |
| `JobGroups.NoStageOnCycle` | crates/ci-controller/src/job_group_registry.rs:389-406 | No stage that lies on a dependency cycle is ever in a job list the gates built |
| `JobGroups.AdmitsUnblocked` | crates/ci-controller/src/job_group_registry.rs:389-406 | A missing stage with no missing dependency passes both gates once its dependencies succeeded |
| `JobGroups.GatingNeverDeadlocks` | crates/ci-controller/src/dag.rs:46-56 | For acyclic dependencies and any dependency-closed set not fully submitted, with the submitted ones successful, some missing stage passes both gates |
| `JobGroups.TransitionsGoForward` | crates/ci-controller/src/job_group_registry.rs:46-59 | A transition is allowed exactly if it goes one place from Pending over Reserved and Running to Success, or to one of the other ends |
| `JobGroups.CompletionMeans` | crates/ci-controller/src/job_group_registry.rs:165-245 | Of an open group with jobs, job states written out: Failed exactly if a job is Failed; Cancelled exactly if none is and one is Cancelled; Success exactly if every job is Success or Unknown and every reserved stage has a job; no answer otherwise |
| `ControllerRuns.BooksKept` | crates/ci-core/src/models/worker.rs:176-181 | Groups that leave the books together with their shares keep the counters exact, and the release never meets the floor of the saturating subtraction |
| `ControllerRuns.BooksLeak` | crates/ci-controller/src/grpc_server.rs:3350-3370 | Groups failed without a release leave their shares in the counters as a leak of exactly that size |
| `ControllerRuns.GrantBalanced` | crates/ci-controller/src/grpc_server.rs:988-1036 | A granted reservation raises the counters by exactly what the new group holds |
| `ControllerRuns.ReconciledBalanced` | crates/ci-controller/src/grpc_server.rs:3132-3182 | Reconciling makes every counter equal to the sum over the worker's open groups |
| `ControllerRuns.ResultIsReached` | crates/ci-controller/src/job_group_registry.rs:165-245 | A completion check that answers with a state found the group open and has put it in that terminal state |
| `ControllerRuns.StepBalanced` | crates/ci-controller/src/grpc_server.rs:988-1132 | Every step keeps: a worker's three counters are the sum over its open groups plus what leaked |
| `ControllerRuns.StepCapped` | crates/ci-core/src/models/worker.rs:161-174 | Every step keeps CPU and memory counters within the worker's caps |
| `ControllerRuns.StepInv` | crates/ci-controller/src/grpc_server.rs:988-1132 | Every step keeps the whole invariant |
| `ControllerRuns.StepClosesExactly` | crates/ci-controller/src/job_group_registry.rs:46-79 | A step closes exactly the open groups its handler names and opens only the one it grants |
| `ControllerRuns.RunConserves` | crates/ci-controller/src/grpc_server.rs:3128-3182 | In every state of every run the counters equal the sum over open groups plus leaks, never less than the sum, and the sum respects the caps |
| `ControllerRuns.RunNeverUnderflows` | crates/ci-core/src/models/worker.rs:176-181 | In every run a release is covered by the worker's counters |
| `ControllerRuns.ClosedAtMostOnce` | crates/ci-controller/src/job_group_registry.rs:46-79 | In every run a group is closed at most once, by whichever of completion, cancel, death, reap or sweep comes first |
| `ControllerRuns.StepOrderly` | crates/ci-controller/src/job_group_registry.rs:165-245 | Every step keeps: a reserved group has no jobs, a successful one ran every reserved stage, no stage is listed twice |
| `ControllerHistory.TooEarlyIsUnread` | crates/ci-controller/src/grpc_server.rs:1237-1260 | A stage is submitted before one of its dependencies only if the dependencies could not be read |
| `ControllerHistory.UnreadSubmissionIsAdmitted` | crates/ci-controller/src/grpc_server.rs:1239-1249 | With the dependencies unread every stage not yet listed is admitted, from any state |
| `ControllerHistory.SubmissionOf` | crates/ci-controller/src/grpc_server.rs:1507-1525 | Every listed stage goes back to a submission made when the list was exactly what now stands before it; if its dependencies were read, they stand there |
| `ControllerHistory.InOrderIff` | crates/ci-controller/src/grpc_server.rs:1237-1279 | In every state of every run a group's stages follow its dependencies if and only if none was submitted too early |
| `ControllerHistory.CycleNeedsUnread` | crates/ci-controller/src/job_group_registry.rs:389-406 | In every run a stage on a cycle is listed only if a stage of that cycle was submitted too early, whether or not the reservation saw the cycle |
| `ControllerHistory.RunOrderly` | crates/ci-controller/src/job_group_registry.rs:198-245 | In every run: Success only with a job for each reserved stage, stages distinct, dependencies first exactly if no submission came too early, and then no stage on a cycle |
| `ControllerHistory.RunNeverDeadlocks` | crates/ci-controller/src/grpc_server.rs:1237-1279 | In every state of every run an incomplete group whose submitted stages succeeded can submit another stage, if the dependencies are acyclic or its reservation read them |
| `Controller.ControllerState.constructor` | crates/ci-controller/src/job_group_registry.rs:17-23 | Starts with empty registries and balanced books |
| `Controller.ControllerState.UpdateState` | crates/ci-controller/src/job_group_registry.rs:46-79 | Moves exactly on an allowed transition and says so; nothing else changes |
| `Controller.ControllerState.FailGroupJobs` | crates/ci-controller/src/job_group_registry.rs:349-370 | Fails the unfinished jobs only, and the group |
| `Controller.ControllerState.UpdateJobInGroup` | crates/ci-controller/src/job_group_registry.rs:116-145 | The first job matching by id or by hashed id takes the state, no other job changes |
| `Controller.ControllerState.CheckGroupCompletion` | crates/ci-controller/src/job_group_registry.rs:165-245 | Answers the completion state and enters it; otherwise changes nothing |
| `Controller.ControllerState.HandleWorkerDeath` | crates/ci-controller/src/job_group_registry.rs:289-321 | Splits the worker's open groups into those with stages left to start and the others, missing none |
| `Controller.ControllerState.EvictTerminal` | crates/ci-controller/src/job_group_registry.rs:248-261 | Removes exactly the terminal groups older than the cutoff and counts them; one step |
| `Controller.ControllerState.SelectWorker` | crates/ci-controller/src/grpc_server.rs:941-1019 | Charges one connected worker with room that allows it, or finds that none does |
| `Controller.ControllerState.ChargeWorker` | crates/ci-controller/src/grpc_server.rs:941-1036 | No worker is charged exactly when every connected worker is short of CPU, memory or disk; the one charged is connected and not short |
| `Controller.RoomIffNotShort` | crates/ci-core/src/models/worker.rs:161-174 | Within the caps the filter and the allocation agree: a worker has room exactly if the need keeps both counters within their caps and fits the free disk |
| `Controller.ControllerState.ReserveWorker` | crates/ci-controller/src/grpc_server.rs:940-1181 | No connected worker and no room exactly when that is so, and then nothing changes; a late refusal or a grant is exactly one step; a cycle is found only in dependencies that were read |
| `Controller.ControllerState.AddGroup` | crates/ci-controller/src/job_group_registry.rs:25-29 | The group is known and keeps any jobs already listed under its id |
| `Controller.ControllerState.SubmitStage` | crates/ci-controller/src/grpc_server.rs:1219-1279 | Not found, dependencies unmet and accepted exactly as the two gates say of the dependencies as read; acceptance is one step |
| `Controller.ControllerState.QueueJob` | crates/ci-controller/src/grpc_server.rs:1507-1525 | Queues the job, starts a reserved group; one step |
| `Controller.ControllerState.ReportJobStatus` | crates/ci-controller/src/grpc_server.rs:2203-2288 | One step; answers a completion exactly when the group closes, which it then did with its allocation released |
| `Controller.ControllerState.CancelGroup` | crates/ci-controller/src/grpc_server.rs:2806-2876 | Unknown, already terminal or cancelled, exactly; a cancellation is one step and ends as Failed |
| `Controller.ControllerState.OnWorkerDeath` | crates/ci-controller/src/grpc_server.rs:3228-3270 | Failing the groups and releasing their total is one step: the loop's total is their exact sum on that worker |
| `Controller.ControllerState.ReapStaleReservations` | crates/ci-controller/src/main.rs:664-803 | Closing and releasing stale groups one after the other is one step over all of them |
| `Controller.ControllerState.SweepStuckGroups` | crates/ci-controller/src/grpc_server.rs:3341-3370 | One step that fails stuck groups and leaks what they hold |
| `Controller.ControllerState.ExpectedAllocation` | crates/ci-controller/src/grpc_server.rs:3146-3155 | The loop's sum over the worker's groups is the ledger's sum |
| `Controller.ControllerState.ReconcileWorkerAllocations` | crates/ci-controller/src/grpc_server.rs:3132-3182 | One step; every counter ends equal to the sum over open groups |
| `ControllerReports.StepJobFollows` | crates/ci-controller/src/job_group_registry.rs:116-145 | What any step does to any listed job: the first job with the reported id or its hash takes the reported state, the end of the group fails an unfinished job, and nothing else changes any job |
| `ControllerReports.StateIsLastReport` | crates/ci-controller/src/grpc_server.rs:2203-2230 | In every run a job is Success, Cancelled or Unknown if and only if the last report on it said so |
| `ControllerReports.SubmissionIff` | crates/ci-controller/src/job_group_registry.rs:389-406 | In every state of every run a stage whose dependencies are read can be submitted if and only if it is not listed and success is the last thing reported about a job of each of its dependencies |
| `ControllerReports.DependencySucceeded` | crates/ci-controller/src/grpc_server.rs:1251-1259 | Behind every such submission stands, for each dependency, an earlier report of success since which that job has been successful in every state |
| `ControllerReports.SubmitAfterRun` | crates/ci-controller/src/grpc_server.rs:1237-1279 | At the end of any run the handler answers that dependencies are unmet if and only if they were read and success has not been reported for one of them |
| `ControllerReports.ReportLeavesState` | crates/ci-controller/src/job_group_registry.rs:165-245 | Every report on an open group with jobs leaves it Failed, Cancelled, Success or as it was, exactly as the job states after the report determine |
| `ControllerReports.SuccessMeansReported` | crates/ci-controller/src/grpc_server.rs:2203-2251 | In every run, in the step in which a group becomes successful, every job was last reported as success or unknown and every reserved stage is listed |
| `ControllerTimes.LastTouch` | crates/ci-controller/src/job_group_registry.rs:40-44 | In every run the activity stamp of a group is the time of its last grant, submission or report |
| `ControllerTimes.LastMove` | crates/ci-controller/src/job_group_registry.rs:59-66 | In every run the update stamp of a group is the time it was last granted, started or closed |
| `ControllerTimes.ReapedIff` | crates/ci-controller/src/main.rs:683-707 | In every run the reaper closes exactly the reserved groups without activity for longer than the idle timeout and the running groups, none of whose jobs runs or is assigned, without activity for longer than the stall timeout |
| `ControllerTimes.SweptIff` | crates/ci-controller/src/grpc_server.rs:3349-3360 | In every run the sweep closes exactly the running groups whose first submission was at least four hours ago |
| `ControllerTimes.DiedIff` | crates/ci-controller/src/job_group_registry.rs:289-321 | A worker's death closes exactly its open groups without a queued or assigned job |
| `ControllerTimes.EvictedIff` | crates/ci-controller/src/job_group_registry.rs:248-261 | In every run an eviction removes exactly the groups that were closed before the cutoff |
| `ControllerLocks.LateReapBalancesIff` | crates/ci-controller/src/main.rs:681-767 | In every run, for a group picked in one state and treated in a later one: the books stay exact if and only if the group is still open or its release takes nothing; closed and evicted groups included |
| `ControllerLocks.LateReapUndercounts` | crates/ci-controller/src/main.rs:727-767 | A group that closed in between is released twice and the counters fall below the open groups' sum |
| `ControllerLocks.LateReapRun` | crates/ci-controller/src/main.rs:681-767 | A run that does so, for any acyclic dependencies |
| `ControllerLocks.ChargeStays` | crates/ci-controller/src/grpc_server.rs:988-1019 | In every run the charge is still on the books if no reconciliation came in between |
| `ControllerLocks.LateAddCoversIff` | crates/ci-controller/src/grpc_server.rs:988-1181 | A group added without a charge of its own leaves the counters covering the open groups if and only if what else is charged covers it, and then the books are exact once that is taken off the leaks |
| `ControllerLocks.LeakedIsHistory` | crates/ci-controller/src/grpc_server.rs:3162-3181 | What is charged to a worker without an open group is what the steps since the last reconciliation left there |
| `ControllerLocks.LateAddUndercountsIff` | crates/ci-controller/src/grpc_server.rs:988-1181 | In every run, for a worker charged in one step and its group added in a later state: the counters fall below the open groups if and only if a reconciliation came in between and what leaked since the last one does not make up for the charge |
| `ControllerLocks.QuietLateAddUndercountsIff` | crates/ci-controller/src/grpc_server.rs:988-1181 | With no leak on the worker after a reconciliation: if and only if one came in between and the group holds something |
| `ControllerLocks.ReconciledAwayIff` | crates/ci-controller/src/grpc_server.rs:3162-3181 | A reconciliation directly before the group is added leaves the counters below the open groups if and only if the group holds something |
| `ControllerLocks.LateAddRun` | crates/ci-controller/src/grpc_server.rs:988-1181 | A run of a charge and a reconciliation after which the added group is not covered |
| `ControllerLocks.LateReleaseUndercountsIff` | crates/ci-controller/src/grpc_server.rs:2251-2288 | For a group closed in any reachable state and released after any path: the counters fall below the open groups if and only if a reconciliation came in between and neither later leaks nor an idle worker absorb the release |
| `ControllerLocks.QuietLateReleaseUndercountsIff` | crates/ci-controller/src/grpc_server.rs:2844-2867 | With no leak on the worker after a reconciliation: if and only if one came in between and the release takes something off the counters |
| `PurgeProtocol.StepInv` | crates/ci-controller/src/grpc_server.rs:422-506 | Every step keeps: queue entries and directives only for picked groups, success acks only for workers with none of the three directories left |
| `PurgeProtocol.AckStampsIff` | crates/ci-controller/src/grpc_server.rs:481-500 | A success ack stamps its group exactly if the owners and their queues could be read and every live owner is off the queue, the acknowledged one by this ack; dead owners do not count |
| `PurgeProtocol.LeavesByOwnAck` | crates/ci-controller/src/redis_store.rs:421-429 | A queue entry disappears only by that worker's own success ack, and by then its three directories are gone |
| `PurgeProtocol.StaysQueued` | crates/ci-controller/src/redis_store.rs:394-429 | In every run an enqueued entry stays until a success ack for it is handled |
| `PurgeProtocol.AckStampIsSafe` | crates/ci-controller/src/grpc_server.rs:492-500 | In every run, with messages lost, late or repeated: when an ack stamps the group, every live owner ever enqueued was acknowledged since and has no directory left |
| `PurgeProtocol.NeverEnqueuedKeepsFiles` | crates/ci-controller/src/retention.rs:299-318 | A worker never enqueued keeps exactly the directories it had when the group was picked |
| `PurgeProtocol.FilesLeftAtStampIff` | crates/ci-controller/src/grpc_server.rs:508-558 | A live owner has files left at an ack-path stamp if and only if it had some when the group was picked and was never enqueued |
| `PurgeProtocol.RetryFinishes` | crates/ci-controller/src/grpc_server.rs:355-414 | From any reachable state with a queued entry, drain, clean deletion and ack clear it, delete the files and stamp the group exactly if no other live owner is queued |
| `PurgeProtocol.ReturningOwnerKeepsFiles` | crates/ci-controller/src/grpc_server.rs:492-500 | A run in which an owner silent at the tick is live at the stamp and keeps its files |
| `PurgeProtocol.TickStampLeavesIff` | crates/ci-controller/src/retention.rs:299-323 | The tick's own stamp leaves files on a live worker if and only if the owners could not be read and the worker had files |
| `PurgeProtocol.AckStampLeavesIff` | crates/ci-controller/src/grpc_server.rs:508-558 | The ack path leaves files on a live worker if and only if it had some and was never enqueued |
| `PurgeProtocol.StampLeavesIff` | crates/ci-controller/src/storage.rs:3611-3637 | In every run, on both paths: a stamp leaves files on a live worker if and only if it had some and the stamp could not know about it |
| `PurgeProtocol.PresentIff` | crates/ci-worker/src/agent.rs:1129-1145 | In every run a directory of a picked group is there if and only if it was when the group was picked and no purge of its worker removed it since |
| `PurgeProtocol.FilesLeftIff` | crates/ci-controller/src/storage.rs:3611-3637 | In every run, on both paths: a stamp leaves files on a live worker if and only if it could not know about the worker and one of the directories the worker had when the group was picked was never removed |
| `PurgeProtocol.StampSafeIff` | crates/ci-controller/src/storage.rs:3611-3637 | In every run a stamp leaves no live worker with files if and only if it could know about every live worker that had some |
| `PurgeProtocol.StampIsFinal` | crates/ci-controller/src/storage.rs:3625-3629 | After a stamp a worker that was never enqueued keeps every directory for the rest of the run |
| `PurgeProtocol.UnreadOwnersAreStamped` | crates/ci-controller/src/retention.rs:300-306 | From any reachable state a failed read of the owners can stamp an unstamped group and leave a live worker's files |
| `Purge.PurgeState.WorkersForGroup` | crates/ci-controller/src/storage.rs:3647-3667 | Exactly the workers that ran a stage of the group |
| `Purge.PurgeState.FilterLiveWorkers` | crates/ci-controller/src/retention.rs:338-356 | Exactly the owners whose last heartbeat is less than the timeout ago |
| `Purge.PurgeState.Pass` | crates/ci-controller/src/retention.rs:299-318 | Enqueues the live owners the store can be reached for; stamp at once exactly when there are none |
| `Purge.PurgeState.RunT1` | crates/ci-controller/src/retention.rs:296-333 | A whole tick puts exactly the reached live owners of the readable candidates on the queue, stamps exactly the candidates without a live owner, and is a path of one protocol step per candidate |
| `Purge.PurgeState.DrainPendingPurges` | crates/ci-controller/src/grpc_server.rs:363-414 | One step that keeps the queue; sends everything queued if the stream holds |
| `Purge.PurgeState.PurgeGroupDirs` | crates/ci-worker/src/agent.rs:1117-1152 | Removes what can be removed of the three directories and nothing else; reports no failure exactly when none failed, and then all three are gone |
| `Purge.PurgeState.HandlePurgeDirective` | crates/ci-worker/src/agent.rs:398-433 | One step; acknowledges success exactly when every directory was removed or absent |
| `Purge.PurgeState.AllWorkersAcked` | crates/ci-controller/src/grpc_server.rs:511-558 | True exactly when the owners could be read and every live one could be looked up and is off the queue |
| `Purge.PurgeState.HandlePurgeAck` | crates/ci-controller/src/grpc_server.rs:422-506 | One step; a failed ack changes nothing |
| `SqlSplitter.SkipLineComment` | crates/ci-controller/src/storage.rs:5084-5090 | Jumps to where the byte-by-byte automaton leaves the comment |
| `SqlSplitter.SkipBlockComment` | crates/ci-controller/src/storage.rs:5091-5099 | Jumps to where the automaton leaves the comment, which does not nest |
| `SqlSplitter.SkipString` | crates/ci-controller/src/storage.rs:5100-5115 | Jumps to where the automaton leaves the string, doubled quotes included |
| `SqlSplitter.ScanTag` | crates/ci-controller/src/storage.rs:5117-5129 | Finds the end of the tag as the automaton does |
| `SqlSplitter.SkipDollarBody` | crates/ci-controller/src/storage.rs:5139-5147 | Jumps behind the first closing tag, or to where an unclosed quote is taken up again |
| `SqlSplitter.NextPosition` | crates/ci-controller/src/storage.rs:5081-5156 | One pass of the loop strictly advances and keeps the cuts still to come |
| `SqlSplitter.SplitSqlStatements` | crates/ci-controller/src/storage.rs:5075-5162 | The pieces are those of the cuts the skipping lexer makes |
| `SqlSplitter.SplitCutsValid` | crates/ci-controller/src/storage.rs:5152-5160 | Cuts increase and lie on semicolons |
| `SqlSplitter.SplitMeetsSpecIffTailQuiet` | crates/ci-controller/src/storage.rs:5066-5074 | The cuts are exactly the top-level semicolons if and only if the rescanned tail of an unclosed dollar quote holds none |
| `SqlSplitter.ClosedQuotesMeetSpec` | crates/ci-controller/src/storage.rs:5066-5074 | With all dollar quotes closed the cuts are exactly the top-level semicolons |
| `SqlSplitter.UnclosedQuoteCounterexample` | crates/ci-controller/src/storage.rs:5140-5147 | An unclosed dollar quote whose last bytes are split |
| `SqlSplitter.SplitRejoins` | crates/ci-controller/src/storage.rs:5152-5160 | The pieces with their semicolons rebuild the input |
| `SqlSplitter.SplitCutsAppend` | crates/ci-controller/src/storage.rs:5075-5162 | If A ends at top level, the cuts of A followed by B are those of A and, shifted, those of B |
| `SqlSplitter.SplitAppend` | crates/ci-controller/src/storage.rs:5075-5162 | If A ends with a top-level semicolon, the pieces of A followed by B are those of A then those of B |
| `SqlSplitter.CutsOnBoundaries` | crates/ci-controller/src/storage.rs:5152-5155 | In valid UTF-8 (section 3 of RFC 3629) every cut is on a character boundary |
| `Masking.MaskSecretValues` | crates/ci-worker/src/executor.rs:503-511 | The loop is the left-to-right composition of the replacements of the non-empty secrets |
| `Masking.MaskAppend` | crates/ci-worker/src/executor.rs:505-509 | Masking with one list and then another is masking with both |
| `Masking.MaskFirst` | crates/ci-worker/src/executor.rs:507 | With one secret, what stands before its first occurrence stays, the occurrence becomes the mask, and masking goes on behind it |
| `Masking.MaskAbsent` | crates/ci-worker/src/executor.rs:505-509 | A text without any of the secrets is left as it is |
| `Masking.MaskKeepsTheRest` | crates/ci-worker/src/executor.rs:507 | The masked text is the text with exactly the occurrences a scan from the left finds exchanged for the mask, every other byte kept in order |
| `Masking.StarFreeMaskable` | crates/ci-worker/src/executor.rs:503-511 | Secrets without an asterisk are maskable |
| `Masking.ReplaceRemoves` | crates/ci-worker/src/executor.rs:507 | One replacement removes its own secret from any text, if maskable |
| `Masking.ReplaceIntroducesNothing` | crates/ci-worker/src/executor.rs:507 | One replacement brings no other maskable secret into a text without it |
| `Masking.MaskRemovesSecrets` | crates/ci-worker/src/executor.rs:502-511 | No non-empty maskable secret is left, whatever the order of the list |
| `Masking.MaskIdempotent` | crates/ci-worker/src/log_streamer.rs:101-104 | Masking what was masked changes nothing |
| `Masking.RemovedFromEveryLineIffMaskable` | crates/ci-worker/src/executor.rs:502-511 | Its own replacement removes a secret from every text if and only if it neither starts nor ends with an asterisk nor contains the mask itself; every other secret has a text it survives in |
| `Masking.LeadingStarLeaks` | crates/ci-worker/src/executor.rs:507 | For every secret of this form, a text that still holds it after masking |
| `Masking.TrailingStarLeaks` | crates/ci-worker/src/executor.rs:507 | For every secret of this form, a text that still holds it after masking |
| `Masking.InnerMaskLeaks` | crates/ci-worker/src/executor.rs:507 | For every secret of this form, a text that still holds it after masking |
| `LogAggregator.Aggregator.RegisterAlias` | crates/ci-controller/src/log_aggregator.rs:80-82 | One alias more; logs untouched |
| `LogAggregator.Aggregator.LastOffset` | crates/ci-controller/src/log_aggregator.rs:243-246 | The offset of the job behind the alias, zero when unknown |
| `LogAggregator.Aggregator.Subscribe` | crates/ci-controller/src/log_aggregator.rs:311-376 | Buffered data from the offset and a receiver placed at the next broadcast; an unknown job gets an empty log |
| `LogAggregator.FeedStream` | crates/ci-controller/src/log_aggregator.rs:124-197 | Any tiling fed in order from any state leaves the offset at the stream's length and an end of the stream in the buffer; all that the bound allows if and only if the last chunk fits the bound |
| `LogAggregator.RedeliveryConverges` | crates/ci-controller/src/log_aggregator.rs:124-164 | Any redelivery in any order without gaps leaves the state of exactly-once delivery up to the furthest chunk since the last reset |
| `LogAggregator.ReplayIsIgnored` | crates/ci-controller/src/log_aggregator.rs:141-148 | Replaying from any boundary above 0 does not move the progress |
| `LogAggregator.FullReplay` | crates/ci-controller/src/log_aggregator.rs:126-139 | A full replay from offset 0 ends at the same progress |
| `LogAggregator.Broadcasts` | crates/ci-controller/src/log_aggregator.rs:224-231 | Without a reset the broadcasts after a point are exactly the chunks first delivered after it |
| `LogPipeline.StreamLogs` | crates/ci-controller/src/grpc_server.rs:2342-2366 | A call feeds its chunks in order and acknowledges the last offset |
| `LogAggregator.Aggregator.AppendChunk` | crates/ci-controller/src/log_aggregator.rs:102-239 | One chunk changes the log of its job alone, by the rule the stream lemmas are about, and answers the new offset |
| `LogAggregator.OnceAbridges` | crates/ci-controller/src/log_aggregator.rs:166-197 | With a log file or without, the buffer is never longer than the stream and is the whole stream if it is as long |
| `LogAggregator.HandOver` | crates/ci-controller/src/log_aggregator.rs:311-376 | For every offset within the stream: buffered data and later broadcasts are the stream from that offset, without gap or repeat, if and only if the offset is where the stream stood or is before it and nothing was dropped |
| `LogAggregator.BufferedOnDisk` | crates/ci-controller/src/log_aggregator.rs:166-176 | With a log file the buffer is an end of the stream, all of it while the stream is within the bound |
| `LogAggregator.BufferedInMemory` | crates/ci-controller/src/log_aggregator.rs:177-197 | Without a log file a chunk is buffered whole exactly if it fits the bound behind what is there, and what was buffered once stays |
| `LogStreamer.Stream` | crates/ci-worker/src/log_streamer.rs:95-167 | For every interleaving of lines and ticks the chunks tile the masked stream from offset 0 and each ends a line; nothing waits after a tick and less than the limit after a line; a chunk without its last line is below the limit, and one below it was prompted by a tick or the end |
| `LogReaders.SentIsWritten` | crates/ci-worker/src/executor.rs:342-419 | For every interleaving of the two readers the streamer is sent exactly the lines of the local log, those of each stream in their order |
| `LogReaders.ReadersMayReorder` | crates/ci-worker/src/executor.rs:355-376 | Any two lines of the two streams can be sent in the other order than they were written |
| `LogStreamer.ShippedLinesAreLocal` | crates/ci-worker/src/log_streamer.rs:101-104 | The local log's lines in any order are shipped unchanged by the second masking, and in as many bytes |
| `LogStreamer.ShippedIsLocalLogIff` | crates/ci-worker/src/executor.rs:347-416 | What is shipped is the local log byte for byte if and only if its lines arrive in the order of the file |
| `LogStreamer.ShippedIsLocalLog` | crates/ci-worker/src/executor.rs:347-378 | Lines in the order of the file ship as the local log, whatever they hold |
| `LogSecrets.LogHidesSecrets` | crates/ci-worker/src/executor.rs:347-416 | No maskable secret without a newline is in a log of masked lines, in whatever order they come |
| `LogSecrets.SplitSecretIsLogged` | crates/ci-worker/src/executor.rs:350-354 | Every secret with a newline is in the log of the lines a reader makes of it |
| `LogSecrets.NeverLoggedIff` | crates/ci-worker/src/executor.rs:347-378 | A maskable secret is kept out of every log of lines if and only if it holds no newline |
| `LogPipeline.ShipLog` | crates/ci-controller/src/grpc_server.rs:2342-2385 | From the two readers to the controller: the offset acknowledged is the length of the local log, the buffer an end of what was sent, the longest allowed if and only if the last batch fits, and neither holds a secret without a newline |
| `ProcessTree.DescendantIffDeep` | crates/ci-worker/src/executor.rs:18-56 | A strict descendant is a process at some depth below the root, and no process is at two depths, cycles notwithstanding |
| `PipelineRows.ClusterRows` | frontend/src/lib/pipeline.ts:158-176 | Rows concatenate to the sorted nodes, every lane after the first starts inside its row, every end in an earlier row is at most every start in a later one; the rows are the connected components of overlap if and only if, in the sorted input, whatever starts before an earlier stage has ended overlaps an earlier stage, and always with positive durations |
| `PipelineRows.RowsAreComponentsIffLanesOverlap` | frontend/src/lib/pipeline.ts:158-176 | Linked and separated rows are the connected components if and only if every lane overlaps an earlier one of its row |
| `PipelineRows.LanesOverlapIff` | frontend/src/lib/pipeline.ts:158-176 | That is a condition on the sorted nodes alone |
| `PipelineRows.PositiveOverlapsWhenInside` | frontend/src/lib/pipeline.ts:158-176 | Positive durations meet the condition |
| `PipelineRows.InstantStageCounterexample` | frontend/src/lib/pipeline.ts:165-167 | Whatever rows are made of two stages that start together, the second of no duration, they are not the components |
| `RateLimiter.Limiter.constructor` | crates/ci-controller/src/rate_limit.rs:17-23 | No entries |
| `RateLimiter.Limiter.Check` | crates/ci-controller/src/rate_limit.rs:26-39 | Changes the entry of its address only, by the rule the run lemmas are about |
| `RateLimiter.WindowBound` | crates/ci-controller/src/rate_limit.rs:26-39 | In any half-open stretch as long as the window at most 2·max(1, max_requests) − 1 requests of one address are accepted |
| `RateLimiter.RefusedOnlyIfUsedUp` | crates/ci-controller/src/rate_limit.rs:30-38 | A request is refused only if the limit was used up by requests of its address accepted in the window that ends with it |
| `RateLimiter.RefusedLeavesNoTrace` | crates/ci-controller/src/rate_limit.rs:36-38 | Without a refused request of an address that has an entry, every later entry and answer is the same |
| `RateLimiter.AcceptedAloneIsTheRun` | crates/ci-controller/src/rate_limit.rs:26-39 | With a positive limit the accepted requests alone make the same run |
| `RateLimiter.BoundAttained` | crates/ci-controller/src/rate_limit.rs:26-39 | For every limit and every window of at least two ticks a run reaches that bound |
| `ProcessTree.NextGeneration` | crates/ci-worker/src/executor.rs:24-51 | One scan finds exactly the next generation, each once |
| `ProcessTree.CollectDescendants` | crates/ci-worker/src/executor.rs:18-56 | Exactly the strict descendants of the root, each once, for every parent map |
| `PipelineRows.SortSorts` | frontend/src/lib/pipeline.ts:159 | Sorted by start |
| `PipelineRows.SortStable` | frontend/src/lib/pipeline.ts:159 | Equal starts keep their order |

## Left out

- Interleaving inside a handler, other than between the two locks of the reaper, the reservation and the handlers that close and release: handlers are atomic in runs.
- Dependencies that change while a group is open: the map of a repository is fixed, only reading it can fail.
- Startup recovery, worker registration and removal, `restore_allocations`, limit and slot setters: workers and their caps are fixed.
- `migrate_group`, ad-hoc groups of `submit_job`, webhook groups and the HTTP cancel handler.
- Scheduler priorities and tie-breaking: the choice among workers with room is arbitrary.
- How a blacklist pattern matches and how running builds are counted: both are parameters of `ReserveWorker`.
- The idempotency cache, filtering of requested stages, scripts, secrets and commands of a stage.
- Redis reservation keys, the purge in-flight key and its expiry, database persistence, metrics, status texts, exit codes and completion times.
- The fixed width of counters, offsets and times: integers are unbounded.
- Retention tiers T2 and T3, T1 without fan-out or without a store, and the controller's own scratch directories.
- A purge queue entry that is not a group id.
- Log files on the controller, finalising and cleaning up logs, a lagging receiver, worker ids and timestamps of chunks.
- A line or chunk channel closed while the readers or the streamer run, a failed write to the local log, and lines cut off by a cancellation.
- Processes that appear, vanish or move while the tree is read: the parent map is fixed.
- Stages whose time stamps do not parse.
- gRPC and HTTP transport, TLS, authentication, tokens and encryption.
- SQL queries, archiving functions and the query compiler.
- React pages and the rest of the pipeline view.
