# FlowDeck's stateful engines, modelled and proved

FlowDeck contains a number of small engines that keep state over a long run: the manager of the resident `fdx`
process, the request multiplexer, the workspace index, the live verification of a run, the key/value daemon, the token
ledger, the file lock, and a few more. This project models each of them in Dafny and proves what it keeps over every run,
every input or every state of the disk. Where the code falls short of a promise, the model follows the code. The section
on promises names for each the lemma that shows it failing, and the one that says exactly when it holds.

## How the models are built

An engine with callbacks is a state and a function `Step` on events: a request, a chunk of output, a timer, a signal, a
settled promise, a file operation of one of many processes, a write that fails, a process that dies. An event that cannot
happen in a state changes nothing, so a theorem about every sequence of events is a theorem about every interleaving. An
asynchronous method is cut at its awaits. Beside the state machine stands a class with the source's fields, whose
methods update them step by step and are proved to do what `Step` says; of these methods the table below lists only those
with a loop. What the events of an engine may never do is said by the invariants and run theorems; that they act, and how,
is said event by event in the modules called `Outcomes` and `Answers`, and in `TurboEngineTheorems` for calls.

| engine | modules | source |
|---|---|---|
| resident process manager | `LineFraming`, `NativeDaemonModel`, `NativeDaemonProofs`, `NativeDaemonTheorems`, `NativeDaemonOutput`, `NativeDaemonOutcomes`, `NativeDaemon` | `src/services/fdx-native-daemon.ts` |
| request multiplexer | `TurboEngineModel`, `TurboEngineTheorems`, `TurboEngine` | `src/services/fdx-turbo-engine.ts` |
| workspace index | `WorkspaceFiles`, `WorkspaceIndexModel`, `WorkspaceIndexTheorems`, `WorkspaceChanges`, `WorkspaceStores`, `WorkspaceQueries`, `WorkspaceOutcomes`, `WorkspaceIndex` | `src/services/fdx-index.ts` |
| live verification | `LiveVerificationModel`, `LiveVerificationTheorems`, `LiveVerificationOutcomes`, `LiveVerification` | `src/runtime/flowdeck-opencode-adapter.ts` and the services it calls |
| comment stripper | `JsonComments`, `JsonTokens` | `src/config/agent-models.ts` |
| key/value daemon | `KeyValueModel`, `KeyValueTheorems`, `KeyValueSizes`, `KeyValueAnswers`, `KeyValueDaemon` | `src/services/fdx-daemon.ts` |
| token ledger | `AdaptiveLedgerModel`, `AdaptiveLedgerTheorems`, `AdaptiveContinuations`, `AdaptiveTwins`, `AdaptiveHandles`, `AdaptiveRuns`, `AdaptiveOutcomes`, `AdaptiveControl` | `src/services/adaptive-execution-control.ts`, `src/services/token-budget-controller.ts` |
| file lock | `AsyncLockModel`, `AsyncLockTheorems`, `AsyncLockOutcomes`, `AsyncLock` | `src/services/async-lock.ts` |
| failure deduplicator | `FailureDedupModel`, `FailureDedupTheorems`, `FailureDedup` | `src/browser/failure-deduplication.ts` |
| config update and rollback | `BackupNames`, `ConfigEditor`, `ConfigOutcomes` | `src/services/config-editor.ts` |
| install and uninstall | `InstallerModel`, `InstallerTheorems`, `InstallerOutcomes`, `Installer` | `bin/flowdeck.js`, `scripts/config-transaction.mjs` |
| audit log | `AuditLog` | `src/services/audit-log.ts` |
| rolling hash | `RollingHash` | `src/browser/evidence-collector.ts` |

## Promises that the code does not keep as stated

| promise | shown failing by | holds exactly as said by |
|---|---|---|
| the exit of a process concerns its own requests | `LateExitRejectsNewRequest` | `ExitSparesOthersIff` |
| `maxRestarts` bounds the process starts | `StartsUnbounded` | `StartsCounted`, which counts them |
| output may be cut into chunks anywhere | `NullLineDependsOnChunks` | `ChunkingIrrelevantIff` |
| one computation per key is in flight | `CancellationLosesSingleFlight` | `SingleFlightThroughoutIff` |
| an incremental refresh is as good as a rescan | `IgnoredFileIsIndexed`, `DirectoryIsDropped`, `AbsolutePathKeepsStale` | `RefreshChangedIsScanIff` |
| a failing index call changes nothing | `RefreshThrowsAfterChange` | `LaterFailedCallChangesNothingIff`, `FailedCallChangesNothingIff` |
| requested paths select what lies below them | `OtherSpellingSelectsNothing` | `SelectsBelowIff` |
| no more is redistributed than was reclaimed | `OverlapOverspends` | `WithinThroughoutIff`, while the controller has room for what is asked |
| an event is recorded once | `TwinsAreRecordedTwice` | `TerminationsDistinctIff`, and `DistinctThroughoutIff` for the others |
| a redistributed reservation is given out once | `TwoHandlesGiveOutOne` | `SharedIff`, `NextIsSharedIff` |
| one process has the lock | `DeathAfterRelease`, `TwoStealers`, `LongHold` | `SafeThroughoutIff`, `RobberyCostsExclusion` |
| a failure that is gone becomes resolved | `StandingStill` | `EveryHistory`, `ActiveIsLastBatchIff` |
| backups sort by age | `WidthMatters` | `BackupsSortByAge`, for timestamps of one width |
| a rollback restores what an update replaced | `TornBackupIsRestored` | `RollbackRestoresIff`, `TornBackupIsRestoredIff` |
| a failed transaction leaves both files byte for byte | `InvalidByteIsLost` | `FailureRestoresIff`, `FailedInstallRestoresIff`, `FailedUninstallRestoresIff`, `AllOrNothingIff` |
| an uninstall undoes the install | `SecondUninstallTakesUsersAgent`, `ReinstallForgetsAgent` | `RoundTripIff`, `AgentKeptIff` |

Some of these need a word more.

- The comment above `acquireLock` says that a lock older than `staleMs` is stolen. The code steals it only when it cannot
  read a PID from it; the PID of a live process protects the lock at any age. Even so, a process can lose its lock: to the
  death of an earlier holder, to two processes that steal at once, and to a look at an old lock that turns into a read of
  a new, still empty one.
- The header of `scripts/config-transaction.mjs` promises byte-perfect rollback. It writes back what it has decoded, so that
  a file that is not valid UTF-8 is changed by a failing transaction, even when the configuration was never written.
- A call of the token ledger that waits may still be refused by the controller, so that a run is judged by what the calls
  under way can come to: `StaysWithinIff` and `StaysDistinctIff` say that counting them is exact, since without any
  further request they can all be entered. `CoveredThroughoutIff` and `UniqueThroughoutIff` count them in every run,
  whether the controller has room or not.
- Taking the lock is judged in the same way: once a thief has removed the file of a process that still has the lock,
  nothing but its next operation stands between it and a second holder.
- The handler of output does not ask which process it comes from: the last words of a replaced process become the
  beginning of the new one's first line (`LateOutputJoins`). A handle does not ask what has become of a reservation: it
  gives out cancelled ones (`GivesOutCancelled`).

## Model

| member | source | states |
|---|---|---|
| NativeDaemonTheorems.EveryRun | src/services/fdx-native-daemon.ts:143-393 | after any events every request is pending or settled exactly once; timers are armed for exactly the pending ones; no child means nothing pending; health is healthy, suspect or quarantined as failures are 0, 1 or 2; queue and automatic restarts are bounded |
| NativeDaemonTheorems.SettledForGood | src/services/fdx-native-daemon.ts:160-167 | a settled caller stays settled as it was, whatever happens later |
| NativeDaemonTheorems.LeavesSettled | src/services/fdx-native-daemon.ts:208-278 | a request that leaves the queue is settled in that very step |
| NativeDaemonTheorems.TimerSettles | src/services/fdx-native-daemon.ts:169-172 | the timer of a pending request is armed and settles it, so no caller waits for ever |
| NativeDaemonOutcomes.RefusedRequest | src/services/fdx-native-daemon.ts:143-152 | a request is refused for a full queue, before anything is started, or for want of a healthy writable process after a start, and only counted |
| NativeDaemonOutcomes.AcceptedRequest | src/services/fdx-native-daemon.ts:154-206 | any other is issued: rejected at once if its signal has fired or the write fails, and otherwise pending on that process, with its timer armed and its signal heard |
| NativeDaemonOutcomes.FirstTimeout | src/services/fdx-native-daemon.ts:225-254 | the first timeout since the last answer rejects its own request, and makes the process suspect |
| NativeDaemonOutcomes.SecondTimeout | src/services/fdx-native-daemon.ts:225-244 | the second rejects everything pending, gives the process up, and plans a restart unless `stop` has been called or none is left |
| NativeDaemonOutcomes.SignalIff | src/services/fdx-native-daemon.ts:174-182 | a signal rejects its own request if that is pending, and no other |
| NativeDaemonOutcomes.ExitIff | src/services/fdx-native-daemon.ts:316-392 | the exit of a process, or its failure to start, rejects everything pending with its own code and plans a restart under the same condition |
| NativeDaemonOutcomes.RestartIff | src/services/fdx-native-daemon.ts:388-391 | a planned restart starts a process if and only if `stop` has not been called and no live process is there |
| NativeDaemonOutcomes.StartIff | src/services/fdx-native-daemon.ts:100-105 | a start leaves a live process with a PID, and otherwise starts one, healthy and with nothing read, unless `stop` has been called |
| NativeDaemonOutcomes.StopIff | src/services/fdx-native-daemon.ts:257-278 | `stop` rejects everything pending as stopped, lets go of the process, and forbids another |
| NativeDaemonTheorems.StoppedForGood | src/services/fdx-native-daemon.ts:257-290 | after `stop` nothing is ever pending and no process is ever started |
| NativeDaemonTheorems.StepStarts | src/services/fdx-native-daemon.ts:100-105 | an event starts one process if and only if `stop` has not been called and it is a `start`, or a `request` there is room for, that finds no live child with a PID, or a restart timer that finds an unhealthy child |
| NativeDaemonTheorems.StartsCounted | src/services/fdx-native-daemon.ts:289-306 | over every run the starts are exactly the number of such demands and restarts, and the restarts are at most `maxRestarts` |
| NativeDaemonTheorems.StartsUnbounded | src/services/fdx-native-daemon.ts:100-105 | for every n there is a run with n process starts, in which each process exits before the next is asked for, although no automatic restart is allowed |
| NativeDaemonTheorems.ExitSparesOthersIff | src/services/fdx-native-daemon.ts:316-319 | an exit spares the requests written to other processes if and only if there are none |
| NativeDaemonTheorems.LateExitRejectsNewRequest | src/services/fdx-native-daemon.ts:368-375 | a run from the start in which the exit of a process that two timeouts have had killed rejects a request of the process that replaced it |
| NativeDaemonProofs.ConsumeHandlesLines | src/services/fdx-native-daemon.ts:333-366 | the framing loop handles the trimmed non-blank lines of the buffer in order, up to the first that throws, and leaves the rest buffered |
| NativeDaemonProofs.StepInv | src/services/fdx-native-daemon.ts:100-393 | every event keeps the invariant of the manager |
| NativeDaemonOutput.ChunkingIrrelevantIff | src/services/fdx-native-daemon.ts:333-342 | in any state, every way to cut output into chunks leads to the state the whole output leads to, if and only if, among the pieces that newlines finish in what was buffered and the output, none but the last throws; output of one character cannot be cut |
| NativeDaemonOutput.LeavesUnreadIff | src/services/fdx-native-daemon.ts:333-342 | the framing loop leaves a finished piece unread if and only if one before the last is not blank and decodes to `null` |
| NativeDaemonOutput.NullLineDependsOnChunks | src/services/fdx-native-daemon.ts:344-351 | a line that is JSON `null` makes the difference between one chunk and two |
| NativeDaemonOutput.WithoutThrowingLines | src/services/fdx-native-daemon.ts:333-366 | if no line throws, every cut handles the trimmed non-blank lines of the whole and leaves what follows the last newline |
| NativeDaemonOutput.SettledByOwnLine | src/services/fdx-native-daemon.ts:351-365 | a request that output settles is settled by a line that carries its own id, with what that line says |
| NativeDaemonOutcomes.OutputSettlesIff | src/services/fdx-native-daemon.ts:333-366 | output settles a pending request if and only if a line that carries its id is reached before one that throws, and the first such line settles it: resolved with its value if it says ok, and otherwise rejected |
| NativeDaemonOutcomes.OutputCounts | src/services/fdx-native-daemon.ts:351-365 | output makes the process healthy again if and only if it answers a pending request with success, and counts a failure for each that it answers otherwise |
| NativeDaemonOutput.LateOutputJoins | src/services/fdx-native-daemon.ts:309-309 | the unfinished output of a replaced process is read as the beginning of the new one's |
| LineFraming.SplitsAtNewlines | src/services/fdx-native-daemon.ts:336-338 | lines and remainder cut a text at its newlines and lose nothing |
| LineFraming.FrameConcat | src/services/fdx-native-daemon.ts:333-342 | framing a text in two parts gives the lines and the remainder of the whole |
| NativeDaemon.FdxNativeDaemon.OnData | src/services/fdx-native-daemon.ts:333-366 | the new state is that of the chunk, and `threw` says whether a handler threw |
| NativeDaemon.FdxNativeDaemon.RejectPending | src/services/fdx-native-daemon.ts:369-375 | rejecting one pending request after the other is rejecting all, each once |
| TurboEngineTheorems.EveryRun | src/services/fdx-turbo-engine.ts:152-230 | after any events every admitted call waits on a running, unaborted computation for its key or has been settled exactly once; `queued` counts the calls that have not left and stays within the limit |
| TurboEngineTheorems.CallIsRecorded | src/services/fdx-turbo-engine.ts:152-228 | a call that finds room is counted and recorded, waiting and heard, or rejected at once if its signal has fired; one that finds none leaves no trace |
| TurboEngineTheorems.CallJoins | src/services/fdx-turbo-engine.ts:176-228 | a call joins the computation its key is registered for, as one more subscriber, or starts exactly one if there is none |
| TurboEngineTheorems.CallersShare | src/services/fdx-turbo-engine.ts:176-228 | any number of calls for a key in flight wait for its one computation, and none is started |
| TurboEngineTheorems.SettledCallLeaves | src/services/fdx-turbo-engine.ts:158-160 | the end of a settled call makes room for one more |
| TurboEngineTheorems.QueueEmpties | src/services/fdx-turbo-engine.ts:152-230 | from every reachable state, computations that settle and calls that leave empty the queue, with every call settled exactly once |
| TurboEngineTheorems.LeaveInv | src/services/fdx-turbo-engine.ts:158-160 | leaving keeps the invariant, and the clamp at zero never acts |
| TurboEngineTheorems.SettledByComputation | src/services/fdx-turbo-engine.ts:182-230 | a waiting call is settled with the result of its computation, or by its own signal |
| TurboEngineTheorems.OthersUntouched | src/services/fdx-turbo-engine.ts:182-230 | an event settles no call but those of its computation or its signal |
| TurboEngineTheorems.AbortedIff | src/services/fdx-turbo-engine.ts:215-223 | a controller is aborted by an event if and only if the event is the cancellation of its only subscriber |
| TurboEngineTheorems.NobodyAttaches | src/services/fdx-turbo-engine.ts:176-202 | no event makes anybody a subscriber of an aborted or finished computation |
| TurboEngineTheorems.StepSingleFlightIff | src/services/fdx-turbo-engine.ts:182-202 | the exact events that lose single flight |
| TurboEngineTheorems.SingleFlightThroughoutIff | src/services/fdx-turbo-engine.ts:182-202 | a run keeps one computation per key throughout if and only if no such event is in it |
| TurboEngineTheorems.OneResultPerKey | src/services/fdx-turbo-engine.ts:176-192 | under single flight all waiting callers of a key share one computation and get its one result |
| TurboEngineTheorems.SingleFlightWithoutCancellation | src/services/fdx-turbo-engine.ts:162-230 | in a run without cancellations at most one computation per key is running |
| TurboEngineTheorems.CancellationLosesSingleFlight | src/services/fdx-turbo-engine.ts:184-192 | a run with cancellations in which two unaborted computations for one key run at once |
| TurboEngine.FdxTurboEngine.OnSettled | src/services/fdx-turbo-engine.ts:182-198 | the new state settles every subscriber, one after the other, with the result |
| WorkspaceFiles.DiscoverFrom | src/services/fdx-index.ts:249-266 | the recursive walk computes the specified list of files |
| WorkspaceFiles.DiscoversIndexable | src/services/fdx-index.ts:249-266 | below the file limit the walk finds exactly the small regular files that no ignored name, link or state file hides |
| WorkspaceFiles.LimitedWalk | src/services/fdx-index.ts:249-266 | whatever the limit, the walk finds only indexable files, and misses one only if it finds as many as the limit says |
| WorkspaceFiles.IndexableIff | src/services/fdx-index.ts:61-63 | a small regular file is indexable if no name on its path is one of the five ignored ones and the state file is not on it |
| WorkspaceFiles.LStatSteps | src/services/fdx-index.ts:190-192 | links on the way are followed, one at the end is not, and nothing lies below a file |
| WorkspaceFiles.WellFormedIff | src/services/fdx-index.ts:252-253 | the trees the theorems are about are those in which no directory lists a name twice |
| WorkspaceIndexTheorems.RefreshIsScan | src/services/fdx-index.ts:84-109 | the memoised refresh is the from-scratch scan if old records with current stamps are current |
| WorkspaceOutcomes.RefreshRemembersIff | src/services/fdx-index.ts:94-101 | a full refresh keeps the record of a file whose size and modification time it knows, and makes a new one of any other |
| WorkspaceIndexTheorems.RefreshAfterAnyHistory | src/services/fdx-index.ts:84-109 | if equal stamps mean equal text, a full refresh after any history of disks, refreshes and invalidations is the from-scratch scan |
| WorkspaceChanges.RefreshChangedIsScanIff | src/services/fdx-index.ts:167-210 | for changed paths spelled in any way, the call fails if one leaves the workspace; otherwise the incremental refresh is the from-scratch scan if and only if every small file it reads again is indexable, every other place it drops is not, and the snapshot is right everywhere else |
| WorkspaceChanges.CanonicalChangedIsScanIff | src/services/fdx-index.ts:175-205 | for canonical paths: those that are small files are indexable, nothing indexable lies below one, and they cover every difference |
| WorkspaceOutcomes.RefreshChangedIff | src/services/fdx-index.ts:175-206 | a record is read again if a changed path leads to a small file there, otherwise dropped if one spells it or a place above it, and otherwise kept |
| WorkspaceOutcomes.TouchesIff | src/services/fdx-index.ts:178-180 | a changed path touches the records at or below the path it spells, with one leading `./` or without |
| WorkspaceOutcomes.ResolveIs | src/services/fdx-index.ts:186-188 | canonical names lead below the workspace, after a leading slash below the root; `.`, an empty path and `..` to the workspace itself and above it |
| WorkspaceChanges.EditThenRefreshChanged | src/services/fdx-index.ts:140-210 | after an edit that the changed paths cover, the incremental refresh equals the memoised full refresh |
| WorkspaceChanges.IgnoredFileIsIndexed | src/services/fdx-index.ts:185-204 | naming an ignored file makes a fresh snapshot wrong |
| WorkspaceChanges.DirectoryIsDropped | src/services/fdx-index.ts:176-191 | naming a directory drops the files below it |
| WorkspaceChanges.AbsolutePathKeepsStale | src/services/fdx-index.ts:178-190 | a deleted file named by its absolute path keeps its record |
| WorkspaceStores.CallsAreIsolated | src/services/fdx-index.ts:84-221 | a call, failing or not, changes no other workspace's snapshot and keeps within the workspace limit |
| WorkspaceStores.FailedCallChangesNothingIff | src/services/fdx-index.ts:84-221 | a failing call has changed nothing if and only if its guards stopped it (no directory to scan, no room for another workspace, a path that escapes), or it sets the files that were set at the very same time; that it could not save is the error exactly of the calls that pass their guards |
| WorkspaceStores.LaterFailedCallChangesNothingIff | src/services/fdx-index.ts:105-107 | once the clock has moved on since the workspace was set, a failing call has changed nothing if and only if its guards stopped it |
| WorkspaceStores.CommittedCall | src/services/fdx-index.ts:205-220 | a call that passes its guards sets the same resident snapshot, with its time, whether it can save it or not, and the file becomes what is resident or stays |
| WorkspaceOutcomes.ErrorIff | src/services/fdx-index.ts:84-208 | which call throws which error: no directory, no room for another workspace, a path that leads out, or no way to save |
| WorkspaceOutcomes.AnswerIsResident | src/services/fdx-index.ts:106-109 | a refresh that does not throw answers with what is then resident |
| WorkspaceOutcomes.InvalidateIff | src/services/fdx-index.ts:212-221 | an invalidation takes out exactly the records whose paths are spelled, or without paths the workspace, and leaves every other as it was |
| WorkspaceOutcomes.InvalidatedIsGone | src/services/fdx-index.ts:212-221 | an invalidated path is not in memory until the workspace is refreshed, whatever other calls are made and whatever fails to be saved |
| WorkspaceStores.RefreshThrowsAfterChange | src/services/fdx-index.ts:106-107 | a refresh that throws and leaves its snapshot resident |
| WorkspaceStores.AgreesIff | src/services/fdx-index.ts:300-307 | file and memory stay in agreement if and only if the call saves, or its guards stop it, or it sets what was set at the very same time; a call that passes its guards and saves restores agreement, whatever failed before |
| WorkspaceStores.FileIsLastSave | src/services/fdx-index.ts:300-307 | after any calls the file holds what was in memory after the last call that passed its guards and could save, or what it held at first |
| WorkspaceStores.MemoryIgnoresFailures | src/services/fdx-index.ts:84-221 | runs of calls that differ only in which writes fail have the same in memory, whatever the errors thrown |
| WorkspaceQueries.WarmIsRescan | src/services/fdx-index.ts:117-160 | a refresh of a resident snapshot that is the scan of the disk changes nothing but its time, and any query on it answers as the query that refreshes first |
| WorkspaceQueries.SelectsBelowIff | src/services/fdx-index.ts:272-284 | requested paths select the files at or below the places they lead to if and only if the workspace itself is not asked for in a spelling other than `.` or `./`, or every file is requested otherwise too |
| WorkspaceQueries.SelectIff | src/services/fdx-index.ts:272-284 | for any requested paths: everything for none, `.` or `./`; an error for one that leads out; otherwise the files at or below a place, other than the workspace itself, that one leads to |
| WorkspaceQueries.OtherSpellingSelectsNothing | src/services/fdx-index.ts:272-276 | asked for the workspace as `name/..`, a query selects nothing though every file lies below |
| WorkspaceIndex.FdxWorkspaceIndex.Refresh | src/services/fdx-index.ts:84-109 | the loop over the found files gives the memoised refresh, or one of the two errors and no change |
| WorkspaceIndex.FdxWorkspaceIndex.RefreshChanged | src/services/fdx-index.ts:167-210 | the two loops give the incremental refresh; an escaping path changes nothing |
| LiveVerificationTheorems.EveryAttemptIsGood | src/runtime/flowdeck-opencode-adapter.ts:1001-1097 | however the run changes at the awaits, with a faithful fingerprint every attempt to complete finds all required work satisfied, no required child active or failed, and no cancellation or replacement pending |
| LiveVerificationTheorems.PassesIffGood | src/orchestration/services/verification-service.ts:177-202 | evaluation passes exactly the states in which the run may complete |
| LiveVerificationOutcomes.FindingsIff | src/runtime/flowdeck-opencode-adapter.ts:1030-1052 | every reason is recorded exactly if what it names is so, and the evidence is that of the required items |
| LiveVerificationTheorems.CompletedOnce | src/orchestration/services/completion-policy.ts:61-140 | over any interleaving a run is completed at most once and stays completed |
| LiveVerificationTheorems.AttemptCompletesIff | src/orchestration/services/completion-policy.ts:65-104 | an attempt completes the run unless the run is stalled or the stored verification is stale or names no commit or version |
| LiveVerificationTheorems.RunStored | src/orchestration/services/verification-service.ts:150-202 | whatever interleaves, a passed result that is about to be applied is still stored as passed: verifications of one identity cannot disagree |
| LiveVerificationOutcomes.UndisturbedVerification | src/runtime/flowdeck-opencode-adapter.ts:1001-1097 | undisturbed, a verification of a verifying run ends with its verdict stored: good states pass; a pass completes the run unless it is stalled or the verification is stale or names no commit or version; any other verdict moves it to recovering, its version advanced |
| LiveVerificationOutcomes.OutdatedResultIsDropped | src/runtime/flowdeck-opencode-adapter.ts:1053-1097 | a result for a state that the run has left changes nothing in the run and is marked stale, unless the run has ended with the same fingerprint |
| LiveVerificationOutcomes.OutdatedIsNotEvaluated | src/runtime/flowdeck-opencode-adapter.ts:1014-1029 | a run that has changed before the evaluation is not evaluated, and its request is marked stale |
| LiveVerificationOutcomes.NothingToVerify | src/runtime/flowdeck-opencode-adapter.ts:1001-1008 | without a verifying run a verification does nothing |
| LiveVerificationOutcomes.MissingRequestEnds | src/orchestration/services/verification-service.ts:150-202 | a request that is not stored any more ends its verification |
| LiveVerificationOutcomes.ChangeIff | src/orchestration/services/transition-engine.ts:628-660 | the rest of the program may change a run in any way, except that an ended one stays in its phase |
| LiveVerificationOutcomes.PolicyIff | src/orchestration/services/completion-policy.ts:65-104 | the policy by itself lets a run be completed if and only if the run is verifying in a good state and not stalled, and the verification is stored for this very state, passed with evidence and no reason, and not stale |
| LiveVerificationOutcomes.CompletedMeansGood | src/orchestration/services/completion-policy.ts:61-140 | unless the rest of the program completes it by itself, a completed run was completed once, by the last attempt, in a good state |
| JsonComments.StripJsonComments | src/config/agent-models.ts:48-97 | the one-pass loop with its two flags gives the text of the tokens that are not comments |
| JsonComments.LexIsLossless | src/config/agent-models.ts:48-97 | the tokens of a text, put together, are the text |
| JsonComments.StrippedLexesToKept | src/config/agent-models.ts:48-97 | lexing the stripped text gives exactly the kept tokens: literals intact, and no new comment |
| JsonComments.StripIsIdempotent | src/config/agent-models.ts:48-97 | stripping twice is stripping once |
| JsonComments.StripIsIdentityIff | src/config/agent-models.ts:48-97 | stripping leaves a text as it is if and only if it has no comment |
| JsonTokens.LiteralIff | src/config/agent-models.ts:48-97 | a string literal goes to the first quote with an even number of backslashes before it, or to the end |
| JsonTokens.LineCommentIff | src/config/agent-models.ts:48-97 | a line comment goes up to the next newline and leaves it |
| JsonTokens.BlockCommentIff | src/config/agent-models.ts:48-97 | a block comment goes up to the first star and slash behind its opening, or to the end |
| JsonTokens.PlainIff | src/config/agent-models.ts:48-97 | any other character is a token by itself |
| JsonTokens.StripsFirst | src/config/agent-models.ts:48-97 | stripping drops a comment and goes on behind it, and keeps any other token |
| KeyValueTheorems.EveryRun | src/services/fdx-daemon.ts:41-65 | over any requests, failing writes, deaths and restarts, the file decodes to the in-memory map in order, and both are exactly the acknowledged and landed requests applied to a plain map, which stays empty or within the size of the file |
| KeyValueTheorems.StepSound | src/services/fdx-daemon.ts:41-65 | an acknowledged request has been carried out, and a failed one has changed nothing |
| KeyValueAnswers.RefusalIff | src/services/fdx-daemon.ts:42-48 | a malformed request, and one whose method is not served, gets the error of the first test it fails and changes nothing |
| KeyValueAnswers.ReadAnswer | src/services/fdx-daemon.ts:45-58 | a get answers what the plain map holds for the key, and health how much it holds |
| KeyValueAnswers.PutAnswerIff | src/services/fdx-daemon.ts:59-65 | a put is refused if and only if its value is not JSON or too large, its key is new to a full map, or the file would be too large; otherwise it is acknowledged, and the map and the file hold it |
| KeyValueAnswers.InvalidateAnswerIff | src/services/fdx-daemon.ts:57-65 | an invalidation is refused only for the size of the file; otherwise the keys that begin with its own are gone, and no others |
| KeyValueAnswers.FailedWriteLeaves | src/services/fdx-daemon.ts:65-65 | a failed write leaves memory and the state file, and a temporary file that says how far it came |
| KeyValueAnswers.TemporaryIsIgnored | src/services/fdx-daemon.ts:63-65 | runs that differ only in the temporary file give the same memory and file |
| KeyValueAnswers.RestartHolds | src/services/fdx-daemon.ts:63-63 | a restart on any file, whoever wrote it, holds for each key the last of its values that is small enough, and nothing else |
| KeyValueAnswers.LastEntriesAre | src/services/fdx-daemon.ts:65-65 | what is written is the end of the list, as much of it as may be kept |
| KeyValueSizes.FileIsSized | src/services/fdx-daemon.ts:65-65 | the size compared with the limit of the file is the length of its JSON text in UTF-8 |
| KeyValueSizes.UnitsIsUtf16 | src/services/fdx-daemon.ts:42-44 | the lengths compared with the limits on ids and keys are those in UTF-16 |
| KeyValueAnswers.AddressIff | src/services/fdx-daemon.ts:42-44 | with identities of one length, two requests share a key of the map if and only if they are of one workspace and name one key |
| KeyValueTheorems.AcknowledgedPutSurvives | src/services/fdx-daemon.ts:58-65 | an acknowledged put is what a get answers after any crashes, until a later request overwrites its key |
| KeyValueTheorems.WorkspacesAreIsolated | src/services/fdx-daemon.ts:19-57 | with identities of one length no request changes an entry of another workspace |
| KeyValueTheorems.LoadIsIdentity | src/services/fdx-daemon.ts:63-63 | loading what was written gives it back, in order, although the size filter counts differently |
| KeyValueTheorems.InvalidateFitsIff | src/services/fdx-daemon.ts:57-65 | after any events from an empty disk, an invalidation is refused for size if and only if the file limit is below two bytes |
| AdaptiveLedgerTheorems.StepConserves | src/services/adaptive-execution-control.ts:60-68 | in every step, what commits have released is what is entered as reclaimed plus what is about to be |
| AdaptiveLedgerTheorems.StepBudget | src/services/token-budget-controller.ts:378-620 | the reserved total is what open reservations claim, so no clamp at zero acts; a closed reservation never changes again |
| AdaptiveLedgerTheorems.CoveredThroughoutIff | src/services/adaptive-execution-control.ts:69-84 | what is redistributed and what the calls under way may yet redistribute stays within what is reclaimed throughout a run if and only if no redistribution is let through for more than is left once those under way are counted |
| AdaptiveLedgerTheorems.StepCoveredIff | src/services/adaptive-execution-control.ts:75-77 | that is exactly when a single event loses it |
| AdaptiveLedgerTheorems.RedistributedWithinReclaimed | src/services/adaptive-execution-control.ts:69-84 | then redistributed tokens never exceed reclaimed ones, nor these what commits released |
| AdaptiveLedgerTheorems.OneAtATimeStaysWithin | src/services/adaptive-execution-control.ts:69-84 | in a run from the start in which no redistribution is asked for while another is under way, redistributed tokens never exceed reclaimed ones |
| AdaptiveContinuations.DrainEntersAll | src/services/adaptive-execution-control.ts:78-83 | if the controller has room, letting the redistributions under way proceed enters all they ask for, and reclaims nothing |
| AdaptiveContinuations.StaysWithinIff | src/services/adaptive-execution-control.ts:69-84 | if the controller has room, whatever happens without a further request no more is redistributed than reclaimed, if and only if what is entered and what is under way is covered |
| AdaptiveContinuations.WithinThroughoutIff | src/services/adaptive-execution-control.ts:72-84 | while the controller has room, a run comes to no point from which more can be redistributed than is reclaimed, without a further request, if and only if no redistribution in it is let through for more than is left once those under way are counted |
| AdaptiveRuns.OverlapOverspends | src/services/adaptive-execution-control.ts:72-82 | a run from the start in which two overlapping redistributions hand out 120 of 100 reclaimed tokens |
| AdaptiveLedgerTheorems.NeverOversubscribed | src/services/token-budget-controller.ts:398-437 | while commits stay within their claims, consumed and reserved tokens stay within the ceiling in every interleaving |
| AdaptiveOutcomes.ReserveIff | src/services/token-budget-controller.ts:374-445 | a reservation is granted if and only if the run is not over, the session has a share left and the run has enough left; it is then open and counted |
| AdaptiveOutcomes.ReconcileIff | src/services/token-budget-controller.ts:447-540 | a commit under a used key changes nothing; any other bills the run, closes the reservation it names, frees its claim, releases what was not used, and at the hard stop cancels all that is open |
| AdaptiveOutcomes.RedistributeIff | src/services/adaptive-execution-control.ts:69-77 | a redistribution is let through if and only if it is for at least one token, bounded by the profile, not entered before, from a source that was reclaimed, and within what is left |
| AdaptiveOutcomes.GrantIff | src/services/adaptive-execution-control.ts:78-83 | one let through is granted what the controller gives, or ends |
| AdaptiveOutcomes.EntryIsWritten | src/services/adaptive-execution-control.ts:60-91 | a call that has only its entry left to write appends it |
| AdaptiveOutcomes.OpenIs | src/services/adaptive-execution-control.ts:37-42 | a workstream is opened with a handle that has given out nothing |
| AdaptiveOutcomes.TerminateIff | src/services/adaptive-execution-control.ts:85-88 | a termination is let through unless that very one has been entered |
| AdaptiveOutcomes.StopIff | src/services/token-budget-controller.ts:542-552 | stopping a run cancels all that is open and leaves nothing reserved |
| AdaptiveLedgerTheorems.RecordedOnce | src/services/adaptive-execution-control.ts:64-90 | no reservation is reclaimed twice in any run; where no call is made while its twin is under way, no event id is recorded twice |
| AdaptiveLedgerTheorems.UniqueThroughoutIff | src/services/adaptive-execution-control.ts:71-91 | event ids stay unique throughout a run, among what is entered and the calls under way, if and only if no call is let through while one for the same id is under way |
| AdaptiveTwins.StaysDistinctIff | src/services/adaptive-execution-control.ts:71-91 | whatever happens without a further request no event id is recorded twice, if and only if ids are unique among what is entered and the calls under way; for redistributions, if the controller has room |
| AdaptiveTwins.DistinctThroughoutIff | src/services/adaptive-execution-control.ts:71-91 | a run comes to no point from which an event id can be recorded twice, without a further request, if and only if no call in it is let through while one for the same id is under way; for redistributions, while the controller has room |
| AdaptiveTwins.TerminationsDistinctIff | src/services/adaptive-execution-control.ts:85-91 | the same for the terminations of every run from the start, whatever room the controller has |
| AdaptiveRuns.TwinsAreRecordedTwice | src/services/adaptive-execution-control.ts:85-91 | a run from the start in which two overlapping terminations are both recorded |
| AdaptiveHandles.GivenInOrderOnce | src/services/adaptive-execution-control.ts:43-55 | after any events every handle has given out a beginning of its workstream's redistributions in ledger order, none twice |
| AdaptiveOutcomes.HandleReserveIff | src/services/adaptive-execution-control.ts:43-55 | a handle gives out the first redistribution to its workstream that it has not given out, and only if there is none reserves for its own session, within its profile |
| AdaptiveHandles.SharedIff | src/services/adaptive-execution-control.ts:40-55 | after any events two handles have given out a reservation in common if and only if they are of one workstream and both have given out something |
| AdaptiveRuns.TwoHandlesGiveOutOne | src/services/adaptive-execution-control.ts:40-52 | a run from the start in which two handles of a workstream give out the same reservation |
| AdaptiveHandles.NextIsSharedIff | src/services/adaptive-execution-control.ts:48-52 | a handle's next redistribution has been given out by another if and only if that one is of its workstream and has given out more |
| AdaptiveHandles.GivesOutCancelled | src/services/adaptive-execution-control.ts:48-52 | a handle gives out a reservation that has been cancelled |
| AdaptiveHandles.StepGrantsApart | src/services/adaptive-execution-control.ts:78-83 | every redistribution is of a reservation of its own |
| AdaptiveControl.AdaptiveExecutionControl.CancelReservations | src/services/token-budget-controller.ts:554-616 | the loop cancels the open reservations of the sessions, one after the other, as the specification does |
| AdaptiveLedgerTheorems.CancelsExactly | src/services/token-budget-controller.ts:571-582 | a reservation ends cancelled if and only if it was, or was open and its session is affected; all others are unchanged |
| AdaptiveOutcomes.TerminationCancels | src/services/adaptive-execution-control.ts:85-91 | a termination that proceeds cancels the open reservations of its own session and of those under it, and no others, and is then about to be entered |
| AdaptiveOutcomes.CancelOneIff | src/services/token-budget-controller.ts:587-598 | cancelling one reservation cancels it if it is open, frees its claim, and touches no other |
| AdaptiveControl.AdaptiveExecutionControl.Totals | src/services/adaptive-execution-control.ts:75-76 | the two sums over the ledger |
| AsyncLockTheorems.TwoHoldersMeanRobbery | src/services/async-lock.ts:49-158 | in every run, of two processes that possess the lock at once one has had its file removed by another process |
| AsyncLockTheorems.SafeThroughoutIff | src/services/async-lock.ts:62-116 | wherever a run is cut one process at most has the lock, and still does after any one further operation other than an `unlink`, if and only if no `unlink` in the run removes the file of another process that still has the lock |
| AsyncLockTheorems.RobberyCostsExclusion | src/services/async-lock.ts:102-116 | after such an `unlink` the thief's next operation, its create, makes two holders |
| AsyncLockTheorems.WithoutRobberies | src/services/async-lock.ts:49-158 | in a run without such an `unlink` one process at most has the lock, and nobody's file is removed by another |
| AsyncLockTheorems.StepRobsIff | src/services/async-lock.ts:106-107 | where nobody has been robbed, an operation robs if and only if it removes the file of another process that still has the lock, and that operation is the `unlink` of a thief |
| AsyncLockTheorems.CalmRunsExclude | src/services/async-lock.ts:49-158 | in a run from the start in which no process finds the file older than `staleMs` and none dies with the lock or with its PID in another's hand, at most one possesses it, and nobody is robbed |
| AsyncLockTheorems.DeathAfterRelease | src/services/async-lock.ts:85-116 | a run with two holders in which only a process without the lock dies |
| AsyncLockTheorems.TwoStealers | src/services/async-lock.ts:102-116 | a run with two holders that both stole the lock of one dead process |
| AsyncLockTheorems.LongHold | src/services/async-lock.ts:72-101 | a run with two holders in which nobody dies |
| AsyncLockTheorems.DeadHolderIsReplaced | src/services/async-lock.ts:60-116 | a process that runs alone takes a dead holder's lock on its first attempt |
| AsyncLockOutcomes.AttemptIff | src/services/async-lock.ts:60-125 | an undisturbed attempt takes a free lock, and one whose PID is dead or which has none and has aged, if the operations it takes succeed; from any other it goes away waiting, and it moves no other process |
| AsyncLockOutcomes.WaiterGetsLock | src/services/async-lock.ts:49-158 | a process that waits has the lock after its next attempt once the holder has released it or died |
| AsyncLockOutcomes.EmptyFileBlocksUntilAged | src/services/async-lock.ts:62-101 | a file into which its creator could not write its PID keeps everybody out until it has aged |
| AsyncLock.CreatesIff | src/services/async-lock.ts:85-116 | which attempts of one call take the lock |
| AsyncLock.GoesOnIff | src/services/async-lock.ts:117-145 | a call attempts again after an attempt that neither takes the lock nor fails, while there is time |
| AsyncLockOutcomes.GoneWhenLookedAt | src/services/async-lock.ts:72-84 | a file that is gone when it is looked at leaves the process waiting |
| AsyncLock.AcquireLock | src/services/async-lock.ts:49-145 | it returns only after its own successful create, fails only on a failed first create, gives up only past the deadline, and makes at most timeout/60 + 2 attempts, 32 by default |
| FailureDedupTheorems.EveryHistory | src/browser/failure-deduplication.ts:25-77 | over every history a fingerprint is known if and only if a batch showed it, and resolved if and only if a batch of a later generation came after the last that showed it |
| FailureDedupTheorems.ActiveIsLastBatchIff | src/browser/failure-deduplication.ts:57-73 | the active set is exactly the last batch if and only if all other known fingerprints are outlived; increasing generations are enough |
| FailureDedupTheorems.StandingStill | src/browser/failure-deduplication.ts:57-61 | two batches of one generation leave a vanished failure active |
| FailureDedupTheorems.NewAreUnknownOrResolved | src/browser/failure-deduplication.ts:32-55 | the new list is the batch's distinct fingerprints that were unknown or resolved before it, in order of first appearance |
| FailureDedupTheorems.CountsAreObservations | src/browser/failure-deduplication.ts:36-78 | the total is the number of observations since the reset, and each count the number of its own |
| FailureDedupTheorems.HistoryRemembers | src/browser/failure-deduplication.ts:32-55 | over every history fingerprints are held in the order they were first seen, each with the classification of its first observation and the time of its last |
| FailureDedupTheorems.SiftPartitions | src/browser/failure-deduplication.ts:64-73 | active and resolved lists hold every known fingerprint once |
| FailureDedup.FailureDeduplicator.ProcessObservations | src/browser/failure-deduplication.ts:25-86 | the loops give the processed state and the four answers above |
| FailureDedup.FailureDeduplicator.Observe | src/browser/failure-deduplication.ts:32-55 | the loop over a batch gives the observed state, the seen fingerprints and the new ones |
| ConfigEditor.UpdateTouches | src/services/config-editor.ts:185-243 | a failed update leaves the file byte for byte, and any update leaves every file but backups and the temporary one |
| ConfigOutcomes.UpdateAnswerIff | src/services/config-editor.ts:185-243 | which update fails with which error, and the name of the backup of one that succeeds |
| ConfigOutcomes.UpdateLeaves | src/services/config-editor.ts:185-243 | a successful update leaves the edited text; a temporary file is left only by a write that fails after something was written that cannot be removed |
| ConfigEditor.RollbackRestoresIff | src/services/config-editor.ts:101-135 | for every retention limit, update then rollback brings back the backup that sorts last, and restores the file if and only if that backup reads back as the file was |
| ConfigOutcomes.RollbackAnswerIff | src/services/config-editor.ts:307-339 | which rollback fails with which error; one that succeeds leaves what is read of the backup that sorts last, and every other file as it was |
| ConfigEditor.LaterBackupRestores | src/services/config-editor.ts:307-339 | with timestamps of one width and none later, that is the new backup, so that the file is restored if and only if it survives UTF-8 decoding |
| ConfigEditor.TornBackupIsRestoredIff | src/services/config-editor.ts:107-113 | after a copy that fails half way the file is untouched, and a rollback installs the torn copy if and only if no older backup sorts after it |
| ConfigEditor.TornBackupIsRestored | src/services/config-editor.ts:307-333 | it does when there is no older backup |
| ConfigEditor.PrunedKeeps | src/services/config-editor.ts:116-135 | pruning touches only backups, changes none, and never takes the one that sorts last |
| ConfigEditor.PrunedBound | src/services/config-editor.ts:116-135 | unhindered pruning leaves as many backups as the limit allows, each later than all that are gone |
| ConfigOutcomes.PrunedBackup | src/services/config-editor.ts:101-135 | with a limit, a backup leaves as many as it allows; `ConfigOutcomes.UnprunedBackup` says that without one none is removed |
| ConfigOutcomes.BackupIsNamed | src/services/config-editor.ts:101-110 | a backup is named after its file and the time |
| BackupNames.BackupsSortByAge | src/services/config-editor.ts:105-106 | backup names with timestamps of one width sort by age |
| BackupNames.WidthMatters | src/services/config-editor.ts:105-106 | the tick that makes a timestamp one digit wider sorts the newer backup first |
| ConfigEditor.ConfigDirectory.EnforceRetention | src/services/config-editor.ts:116-135 | the loop prunes the oldest names down to the limit |
| InstallerTheorems.InstallThenUninstall | bin/flowdeck.js:128-168 | install then managed uninstall restores both settings, in order, up to a plugin setting that becomes a list and a null agent that becomes absent |
| InstallerTheorems.RoundTripIff | bin/flowdeck.js:732-771 | the configuration is exactly restored if and only if the plugin setting was a list and the agent not an explicit null |
| InstallerTheorems.SecondInstallIsIdle | bin/flowdeck.js:131-153 | a second install makes no edit |
| InstallerTheorems.AgentKeptIff | bin/flowdeck.js:757-771 | a managed uninstall keeps the present agent if and only if the manifest does not say the install set one |
| InstallerOutcomes.InstallAnswerIff | bin/flowdeck.js:128-168 | an install fails for a configuration that does not parse or whose plugin setting cannot be extended, is idle if the plugin is listed and an agent set, and otherwise succeeds if and only if no step of its transaction fails |
| InstallerOutcomes.InstallLeaves | bin/flowdeck.js:128-168 | an install that changes something leaves the plugin listed behind what was there and an agent set, and a manifest that says what it added |
| InstallerOutcomes.UninstallAnswerIff | bin/flowdeck.js:720-830 | when an uninstall fails, is idle, or takes something out |
| InstallerOutcomes.UninstallLeaves | bin/flowdeck.js:732-771 | an uninstall that changes something takes out what the manifest says was added, and brings back the agent from before |
| InstallerOutcomes.WithoutIff | bin/flowdeck.js:736-747 | every entry that is the plugin is taken out of a list, and the others stay in order |
| InstallerOutcomes.IsRefIff | bin/flowdeck.js:736-747 | a package is listed with a version or without, a local reference only as it stands |
| InstallerOutcomes.SpreadIff | bin/flowdeck.js:131-136 | what a plugin setting can be extended from: nothing, a value that counts as false, a list, or a text taken apart |
| InstallerOutcomes.TextOfList | bin/flowdeck.js:736-747 | the text of a list joins those of its elements with commas, null ones as empty |
| InstallerOutcomes.TransactErrorIff | scripts/config-transaction.mjs:50-178 | a transaction that does not succeed fails with the error of the first step that cannot be taken |
| InstallerTheorems.SecondUninstallTakesUsersAgent | bin/flowdeck.js:805-820 | a second uninstall removes an agent that the user set after the first |
| InstallerTheorems.ReinstallForgetsAgent | bin/flowdeck.js:138-140 | an install, a removal by hand, an install and an uninstall leave the agent that the first install set |
| InstallerTheorems.FailureRestoresIff | scripts/config-transaction.mjs:50-178 | however a transaction fails while the writes that put the files back go through, both are left byte for byte, if and only if one of them cannot be read, so that it never begins, or both are valid UTF-8 |
| InstallerTheorems.FailedInstallRestoresIff | bin/flowdeck.js:128-168 | the same for an install, which also never begins if the plugin setting cannot be extended or there is nothing to edit |
| InstallerTheorems.FailedUninstallRestoresIff | bin/flowdeck.js:732-820 | the same for a managed uninstall, which also never begins without a manifest that names the plugin and something to edit |
| InstallerTheorems.AllOrNothingIff | scripts/config-transaction.mjs:50-178 | a transaction succeeds if and only if none of its steps fails, and has then written both files; one that does not begin leaves both; otherwise a file is left as it was if and only if it is valid UTF-8, or where putting it back fails too, if what was written there is what it held |
| InstallerTheorems.InvalidByteIsLost | scripts/config-transaction.mjs:264-275 | an install that fails to write the configuration changes one that is not valid UTF-8 |
| AuditLog.LogIsHistory | src/services/audit-log.ts:131-193 | whichever writes fail, the log is the appended lines in order without those whose own write failed and those still buffered; the buffer is below 100, and empty after a critical event |
| AuditLog.NothingIsLost | src/services/audit-log.ts:168-193 | without write failures log and buffer together are the history |
| AuditLog.AppendIff | src/services/audit-log.ts:168-193 | a line that is not critical is only buffered until a hundred are, and then all are written; a critical one has everything before it written first |
| AuditLog.LandedIff | src/services/audit-log.ts:131-138 | of some lines those land whose own writes succeed, in order |
| AuditLog.Log.FlushBuffer | src/services/audit-log.ts:131-138 | the loop over the swapped-out buffer writes its lines in order, without those that fail |
| RollingHash.SimpleHash | src/browser/evidence-collector.ts:270-277 | the loop on 32-bit integers gives the signed 32-bit representative of the base-31 polynomial, its sign dropped |
| RollingHash.Round | src/browser/evidence-collector.ts:274-275 | one round is one step of the polynomial, and no intermediate value leaves the exactly held integers |
| RollingHash.PolynomialStarts | src/browser/evidence-collector.ts:270-275 | a unit is its own hash, and each one before it counts thirty-one times as much |
| RollingHash.HashConcat | src/browser/evidence-collector.ts:270-277 | the hash of a concatenation follows from the hashes of its parts and the second's length |
| RollingHash.SameFingerprintIff | src/browser/evidence-collector.ts:276-277 | two strings share a fingerprint if and only if their polynomials agree or cancel modulo 2^32 |

## Left out

- Prompts, command and tool tables, the rest of the lifecycle adapter, regex classifiers and redaction, sockets, SQLite and git: no engine of their own, or foreign effects.
- Hashes and fingerprints are taken to be faithful where a theorem says so; JSON values are their JSON text, and a JSON value is taken to read back as its text.
- Strings are sequences of Unicode scalar values, except in the rolling hash and where the daemon measures lengths; paths are sequences of names, and back-slashes in changed paths are not rewritten.
- Process manager: request ids are sequence numbers, a reply that is JSON `null` throws as it does in the source and the process is taken to live on, and the bounded wait of `stop` for the exit is not modelled. A rejection pass settles all callers at once in the model; the method does it one by one.
- Multiplexer: what a computation does (cache, daemon, native, fallback) is its result; the unobserved rejection of an entry's own promise is not modelled.
- Workspace index: extraction of symbols and dependencies is a parameter, and so is what a query reads out of the selected files; a snapshot's file list is a map from paths, which takes sorting to tell paths apart; the state file is written as a whole or not at all, and loading it is left out; the time of a snapshot is a number that the call is given; the file limit is modelled as it is tested, and theorems about scans are for walks it does not cut short. For a workspace that is the root of the file system the source drops the first character of every path (`src/services/fdx-index.ts:93`); the model does not.
- Live verification: the event bus, the progress observation and the review rows of the completion policy are left out; `requestFdxVerification` has no caller and is left out.
- Key/value daemon: the daemon is one without a code index, whose three methods then fail; socket framing is not modelled.
- Token ledger: reservations are numbered, event ids are structured rather than strings, the controller is enabled, per-session shares are a refusal that may happen at any time, and the recovery of orphaned redistributions is a cancellation that may.
- File lock: a PID is never used again by another process, and `parseInt` of the file's text is its outcome; timers are taken not to fire early.
- AcquireLock: what the world does during each attempt is a parameter, so that one call is modelled here and the interleaving of many in `AsyncLockModel`.
- Failure deduplicator: fields that are only copied, and the filter by classification, are left out; its lists name failures by fingerprint.
- Config editor: decoding, parsing and editing JSONC are parameters, and a temporary name is one that no file has; the older `safeUpdateConfig` is the same protocol with another edit.
- Installer: a configuration that parses is taken to be an object, seen through its two settings; parsing, editing and printing are parameters, and the theorems about settings take them to be faithful; forced uninstall, update and migrate are left out. A package name or file URL has more than one character.
- Audit log: redaction and the flush timer's scheduling; a flush may come at any time.
