# Verified models of sparkle-service

sparkle-service is a privileged daemon that runs a proxy core for unprivileged clients. This project
models the parts of it whose correctness spans several calls, goroutines or an unbounded input, and
proves what they guarantee. The operating system (sysctl files, mount table, processes, clock, log
files, pipe handles) is an abstract environment; its answers are parameters of the operations.

Concurrent code is a machine of atomic actions, and a run is any sequence of them that the machine
allows (`Runs.dfy`). Code that changes an object or a buffer step by step is a class or a method with
loops, proved against a function or a property of values.

| file | models |
|---|---|
| `SysproxyGuard.dfy`, `GuardLimits.dfy` | HTTP handlers and guard loops competing for the system proxy settings, and when a setting can be overwritten |
| `Forwarding.dfy` | saving, changing and restoring forwarding sysctls when one file overwrites others |
| `Gateway.dfy` | the gateway manager and its stack of nested forwarding changes |
| `Launch.dfy` | launch resources, cleanup chains and the one-shot fallback to a direct start |
| `CoreManager.dfy`, `ManagerObject.dfy` | the core process manager: sections under its mutex with their goroutines, and the object whose code computes them |
| `SandboxMounts.dfy` | merging, ordering and performing sandbox mounts |
| `NonceStore.dfy`, `Authentication.dfy` | replay protection and the timestamp window |
| `CanonicalRequest.dfy` | query canonicalisation and the signed string |
| `WebSocket.dfy` | frames of sections 5.2 and 5.3 of RFC 6455 |
| `ProcessTree.dfy` | the process graph walk and termination order |
| `PipeClose.dfy`, `PipeDeadline.dfy` | named pipe closing and deadlines |
| `LogLines.dfy`, `LogWriter.dfy` | line assembly from chunks; the size-limited log file |
| `CpuRange.dfy` | CPU lists and their printed form |
| `Runs.dfy`, `Sorting.dfy`, `Splitting.dfy`, `Text.dfy` | executions, sorting, splitting and text shared by the others |

Some properties one might expect do not hold of the code; each has a counterexample and the
condition under which it holds:

- A handler that stops the guard and then leaves it alone (`disable`, or a `pac` or `proxy` request
  whose own guard cannot be set up) can be overwritten by a guard started between its stop and its
  lock (`DisableCanBeUndone`, `FailedGuardCanBeOverwritten`). Guards that existed at the stop cannot
  do that (`NoStaleRestore`), and it is possible if and only if the current generation belongs to a
  guard when the handler is done (`OverwrittenExactlyIf`).
- `handleProcessExit` does not know whose exit it handles and can end the session that replaced the
  dead one (`CrashExitCanEndNewSession`); whether the exit was waited for or noticed by polling, it
  spares other sessions if and only if the manager is idle by then or no session was begun since
  (`CrashExitScope`). An expected exit always does (`ExpectedExitEndsOwnSession`).
- A failed change of the forwarding settings is not always undone: an interface entry overwritten
  through the IPv6 `all` entry is taken for a foreign change if it cannot be read after the failure
  (`UnreadableEntryIsLost`). For a given failure it is undone if and only if the failing write does
  not come between the `all` entry and an unreadable interface entry that neither was nor is to be
  "1" (`RollbackUndoesPrefix`); whatever fails, it is undone if and only if IPv6 is not touched or
  every other interface forwards already (`AlwaysSafeExactlyIf`).
- `/` counts as deep as `/bin`, so a mount of `/` can hide one made before it
  (`RootAfterBinHidesIt`); the most specific target wins if and only if no top-level directory is
  requested before `/` (`MostSpecificTargetWins`).
- The delivered lines can depend on how the output was chunked (`LongLineDependsOnChunks`); they do
  not if and only if every terminated line is blank before its last 16384 characters
  (`PublishedExactlyIf`). An unterminated line is always cut the same way.
- Whether a fatal error is reported can depend on the chunks too (`LongLineHidesError`); it does not
  if and only if the stream shows none or shows one within the last 16384 characters of a line
  (`ReportedExactlyIf`).
- The timestamp window is about wall time, the nonce store about monotonic time. A request can be
  admitted twice other than at the two ends of its window if and only if the wall clock was set back
  in between, by any amount (`ReplayInsideExactlyIf`, and on the authenticator `ReplayAfterSetBack`).
- Trimming can leave part of a line at the start of the log (`LongLineIsCut`); the file starts at a line if and only if
  nothing was trimmed or the last trim found a newline just before or early in its window
  (`StartsAtLineExactlyIf`).

`dafny verify dfyconfig.toml` checks everything.

## Model

| member | source | states |
|---|---|---|
| SysproxyGuard.NoStaleRestore | route/sysproxyapi/sysproxy_guard.go:104-147 | in every interleaving, a guard that existed when a handler stopped the guard never writes settings after that handler's write, even if it had passed its check before the stop |
| SysproxyGuard.ReconfigurationIsFinal | route/sysproxyapi/sysproxy_guard.go:61-91 | once a handler has reconfigured the guard under the mutation lock, no earlier guard ever writes again |
| SysproxyGuard.GuardsAreAskedFor | route/sysproxyapi/sysproxy_guard.go:61-88 | every guard of every run was started by the configuration of a request with the guard flag, and is named by that generation |
| SysproxyGuard.GuardIsStarted | route/sysproxyapi/sysproxy_guard.go:82-88 | such a configuration starts the guard that is then current |
| SysproxyGuard.UnguardedRequestStops | route/sysproxyapi/sysproxy_guard.go:62-65 | after the configuration of a request without the flag no guard is current and none is stored |
| SysproxyGuard.UnguardedRequestEndsGuarding | route/sysproxyapi/sysproxy_guard.go:62-65 | and no guard writes until a later request with the flag has started one |
| SysproxyGuard.WritersAreRequests | route/sysproxyapi/sysproxy.go:126-135 | settings are written inside the lock by requests, never by a shutdown; a successful proxy request turns to the guard, any other unlocks |
| SysproxyGuard.CancelledGuardsEnd | route/sysproxyapi/sysproxy_guard.go:153-164 | a loop ends only after it was cancelled, and then it can |
| SysproxyGuard.CheckBeforeWrite | route/sysproxyapi/sysproxy_guard.go:182-190 | a guard writes once per check |
| SysproxyGuard.NeverStuck | route/sysproxyapi/sysproxy_guard.go:104-147 | while a request is unfinished some request or guard can go on |
| SysproxyGuard.LiveGuardsAreCurrent | route/sysproxyapi/sysproxy_guard.go:110-141 | a guard neither cancelled nor about to be cancelled is the one of the current generation, so loops never pile up |
| SysproxyGuard.OneWriterInside | route/sysproxyapi/sysproxy_guard.go:180-200 | while a guard applies settings no other guard applies and no handler holds the lock |
| SysproxyGuard.RunKeepsInv | route/sysproxyapi/sysproxy.go:126-135 | mutual exclusion, generation bounds and "no guard forgotten" hold after every prefix of every run |
| SysproxyGuard.StopGenKept | route/sysproxyapi/sysproxy.go:159-168 | a handler keeps the generation its stop produced until it finishes |
| SysproxyGuard.CurrentGuardCanRestore | route/sysproxyapi/sysproxy_guard.go:149-200 | the guarantee is not vacuous: a current guard can always restore when the lock is free |
| SysproxyGuard.DisableCanBeUndone | route/sysproxyapi/sysproxy.go:190-195 | a run in which a guard started between a disable handler's stop and lock overwrites the disabled settings |
| SysproxyGuard.FailedGuardCanBeOverwritten | route/sysproxyapi/sysproxy_guard.go:67-77 | a run in which a `proxy` request whose guard cannot be set up is overwritten by a guard started between its stop and its lock |
| GuardLimits.OverwrittenExactlyIf | route/sysproxyapi/sysproxy_guard.go:61-98 | a handler that leaves the guard alone (disable, failed write, failed guard set-up) can be overwritten before anyone reconfigures if and only if the current generation belongs to a guard when it is done |
| GuardLimits.OverwriterStartedBetween | route/sysproxyapi/sysproxy_guard.go:104-141 | the guard that can overwrite such a handler was started after its stop and before it got the lock |
| Forwarding.PutAllMeaning | route/lanternapi/forwarding_linux.go:61-72 | writing a list in which overwritten files are written again later leaves each named file at its own value and every other file alone |
| Forwarding.CandidatesOrdered | route/lanternapi/forwarding_linux.go:23-40 | no file is listed twice and the IPv6 `all` entry precedes every interface entry |
| Forwarding.CandidatesCover | route/lanternapi/forwarding_linux.go:28-38 | every file that a candidate overwrites indirectly is itself a candidate |
| Forwarding.PlanIsRecord | route/lanternapi/forwarding_linux.go:41-60 | the recorded list remembers the table and is undoable, for every interface set and interface name |
| Forwarding.PrepareMeaning | route/lanternapi/forwarding_linux.go:19-72 | after a successful prepare each file holds exactly the wanted value; foreign interfaces keep theirs |
| Forwarding.RestoreMeaning | route/lanternapi/forwarding_linux.go:74-105 | a restore puts back each recorded file still holding the written value and leaves foreign values alone |
| Forwarding.RestoreSkipsMissing | route/lanternapi/forwarding_linux.go:77-92 | files that have disappeared are skipped, the rest is treated as usual |
| Forwarding.RestoreUndoesWrites | route/lanternapi/forwarding_linux.go:74-105 | prepare followed by restore is the identity on the whole sysctl table |
| Forwarding.RollbackUndoesPrefix | route/lanternapi/forwarding_linux.go:61-70 | after any number of writes, undoing gives back the table if and only if the failure did not come between the IPv6 `all` entry and an unreadable interface entry that neither was nor is to be "1" |
| Forwarding.PartlyAt | route/lanternapi/forwarding_linux.go:61-62 | every value after the first writes of a planned list, read off the list alone |
| Forwarding.PlanIsShaped | route/lanternapi/forwarding_linux.go:23-60 | every planned list is ordered and only its `all` entry, planned as "1", overwrites others |
| Forwarding.AlwaysSafeExactlyIf | route/lanternapi/forwarding_linux.go:19-72 | a prepare can be undone whatever fails and cannot be read, if and only if IPv6 is not touched or every other interface forwards already |
| Forwarding.OtherInterfaceIsLost | route/lanternapi/forwarding_linux.go:61-68 | any other interface loses its setting when the write after the `all` entry fails and its entry cannot be read again |
| Forwarding.UnreadableEntryIsLost | route/lanternapi/forwarding_linux.go:61-68 | a machine with two interfaces and a failing write of its real plan after which undoing does not give back the table |
| Forwarding.OutcomeUndone | route/lanternapi/forwarding_linux.go:61-71 | whatever a prepare leaves, undoing its record leads back exactly if its writes were safe |
| Forwarding.BuildCandidates | route/lanternapi/forwarding_linux.go:23-40 | the code's list of files |
| Forwarding.Collect | route/lanternapi/forwarding_linux.go:41-60 | succeeds exactly if every candidate can be read, and then returns the plan |
| Forwarding.WriteSettings | route/lanternapi/forwarding_linux.go:61-71 | everything written, or rolled back with nothing left to undo, or stuck with the record to be undone later |
| Forwarding.PrepareForwarding | route/lanternapi/forwarding_linux.go:19-72 | nothing touched exactly for a bad name or unreadable file; otherwise the outcome of writing the planned record, failed rollbacks included |
| Forwarding.ForwardingState.RereadValues | route/lanternapi/forwarding_linux.go:63-67 | after a failed write the values found become the ones to undo; an unreadable entry keeps its planned value |
| Forwarding.ForwardingState.Restore | route/lanternapi/forwarding_linux.go:74-105 | writes nothing unless every existing file can be read; otherwise performs the whole restore |
| Gateway.NestedChangesUnwind | route/lanternapi/lantern.go:234-246 | in every run of complete, failed and undone prepares whose writes were safe, the table is at its first value whenever the stack is empty |
| Gateway.StepKeepsOrigin | route/lanternapi/lantern.go:295-321 | each safe change keeps the table that a full unwinding would give |
| Gateway.Manager.StopLocked | route/lanternapi/lantern.go:222-248 | a completed stop returns the table to its value before the first start; a controller that keeps running leaves everything in place; when a stop reports success, exactly |
| Gateway.Manager.RestoreAll | route/lanternapi/lantern.go:234-246 | nested updates and base record are undone youngest first, or the rest stays recorded |
| Gateway.Manager.RestoreYoungest | route/lanternapi/lantern.go:235-241 | undoes and pops the youngest update, or changes nothing |
| Gateway.Prepare | route/lanternapi/lantern.go:297-306 | when a prepare succeeds, exactly; what it leaves can be undone if and only if it wrote safely, and it did if all files can be read again or all other interfaces forward already |
| Gateway.EstablishedMeans | route/lanternapi/lantern.go:295-321 | every file then holds its wanted value |
| Gateway.Manager.PrepareBase | route/lanternapi/lantern.go:199-205 | the first change of a session becomes the base record, even when its rollback is still to be done |
| Gateway.Manager.Start | route/lanternapi/lantern.go:121-220 | refused requests change nothing; exactly when a start works; non-empty updates imply a base record; a failed start changes nothing, is back at the origin, or left a controller running |
| Gateway.Manager.StartController | route/lanternapi/lantern.go:199-219 | prepare, then start; every failure keeps the record or is back at the origin |
| Gateway.Manager.RunController | route/lanternapi/lantern.go:206-218 | a failed or incomplete component start undoes the forwarding change |
| Gateway.Manager.Configure | route/lanternapi/lantern.go:250-324 | exactly when it works; success leaves every wanted value in force and the plan on top of the stack; a failure pushes what is still to be undone, or leaves the table as it was |
| Launch.ReverseOfRegistration | core/manager.go:47-58 | a cleanup chain releases registrations once each in reverse order |
| Launch.HoldingDistinct | core/manager_start.go:47-54 | nothing appears twice among what a session and its controller hold |
| Launch.CoreCommand.CleanupNow | core/launcher.go:27-33 | releases what the command holds, at most once |
| Launch.CoreCommand.Start | core/launcher.go:35-80 | exactly when it works and with how many attempts; what the first attempt held is released before the second; a failed start holds nothing |
| Launch.DirectCommand | core/launcher_linux_direct.go:13-32 | holds a helper exactly if a CPU affinity is set; failure holds nothing |
| Launch.SandboxCommand | core/launcher_linux_sandbox.go:18-42 | holds its sandbox or has released it |
| Launch.NewCommand | core/launcher_linux_auto.go:13-32 | for each mode exactly when there is a command, and whether it runs in a sandbox, through a helper or directly; a fallback exists exactly for an automatically chosen sandbox |
| Launch.ModesConfine | core/launcher_linux.go:13-36 | where a launched process runs: a forced sandbox is never left, a direct start never uses one, automatic mode uses one exactly if it was probed, prepared and worked |
| Launch.LaunchSession.AddRelease | core/manager.go:47-58 | the newest registration runs first |
| Launch.LaunchSession.CleanupNow | core/launch.go:73-79 | the whole chain runs once and releases exactly what the session held, in order |
| Launch.PrepareLaunchSession | core/launch.go:154-228 | exactly when a session is prepared; on every failure path hook and endpoint have been released, in the order of that path |
| Launch.RunCommand | core/manager_start.go:47-82 | after start and attach the session owns everything, or nothing is left |
| Launch.LaunchProcess | core/manager_start.go:12-92 | exactly when a process is launched; every resource is owned by the new session, whose kinds and order are listed, or released once |
| CoreManager.AlwaysSteady | core/manager.go:101-149 | in every run, whenever the mutex is free the manager is fully idle or fully running with one session's parts, no stop channel was closed twice, at most 3 recoveries were spawned and at most 9 automatic starts made |
| CoreManager.SectionsKeepSteady | core/manager.go:221-252 | each section under the mutex leads from a steady state to a steady state |
| CoreManager.ExhaustedExitStaysDown | core/manager.go:409-418 | a crash exit beyond the limit leaves the manager idle and spawns nothing |
| CoreManager.RequestsTakeEffect | core/manager.go:101-166 | in every run a start begins a new session, refuses or leaves the manager idle, a stop leaves it idle with its channel closed, a restart does both, and an adoption begins a session without a command |
| CoreManager.RecoveryTakesEffect | core/manager.go:425-440 | a recovery makes at most three starts and stops at the first that works |
| CoreManager.CrashExitTakesEffect | core/manager.go:396-425 | a crash exit ends the session, counts, and spawns one recovery while the count is within the limit |
| CoreManager.DeathTakesEffect | core/manager.go:254-293 | who looks for a replacement process and who finishes at once |
| CoreManager.LookTakesEffect | core/manager_takeover.go:14-25 | a search goes on while a session is there and remembers the controller it found a process in |
| CoreManager.ExpectedExitEndsOwnSession | core/manager.go:315-327 | an expected exit ends the session of its own command, and changes nothing otherwise |
| CoreManager.TakeoverStaysInSession | core/manager_takeover.go:38-53 | a takeover installs the process in the session it was found in if that is still there, and otherwise changes nothing |
| CoreManager.NotificationIsRead | core/manager.go:343-351 | a notification is followed up only for the running session's launch |
| CoreManager.NotificationTakesEffect | core/manager.go:367-378 | it installs a different process exactly if launch and controller are unchanged |
| CoreManager.TakeoverHappens | core/manager_takeover.go:14-58 | a run in which a restarted process is taken over |
| CoreManager.PolledExitIsHandled | core/manager.go:461-492 | a run in which polling notices an exit and a recovery is asked for |
| CoreManager.CrashExitCanEndNewSession | core/manager.go:391-423 | a run in which the exit of one session's process ends the next session |
| CoreManager.CrashExitScope | core/manager.go:391-423 | a crash exit, waited for or noticed by polling, ends the session whose process died or nothing, if and only if the manager is idle by then or no session was begun since |
| ManagerObject.FindManagedCorePID | core/manager_takeover.go:60-83 | the youngest eligible process, the last listed among equals, and none exactly if there is none |
| ManagerObject.Manager.SignalStopLocked | core/manager.go:247-252 | closes the stop channel if there is one and forgets it |
| ManagerObject.Manager.CleanupLocked | core/manager.go:221-236 | every owned resource is released once, controller first, and all fields are cleared |
| ManagerObject.Manager.StopCoreLocked | core/manager.go:127-149 | computes the stop section and releases exactly what was owned |
| ManagerObject.Manager.FinishExpectedProcessExit | core/manager.go:315-327 | for the current command the manager becomes idle and has released everything; otherwise nothing changes |
| ManagerObject.Manager.HandleProcessExit | core/manager.go:396-425 | computes its section, releases everything owned and asks for a recovery exactly within the limit |
| ManagerObject.Manager.CommitFoundProcess | core/manager_takeover.go:38-53 | installs the process exactly if monitoring continues with the same controller |
| ManagerObject.Manager.CommitNotifiedProcess | core/manager.go:367-378 | installs a new process exactly if launch and controller are unchanged |
| ManagerObject.Manager.AdoptRuntimeRecord | core/runtime_state.go:97-118 | an idle manager becomes a running session that owns its controller, or stays as it was when the controller cannot be attached |
| ManagerObject.Manager.StartCoreLocked | core/manager_start.go:12-131 | exactly when a start works; then a fully running session owns the listed resources in order, otherwise a refusal or an idle manager that has given everything back |
| ManagerObject.Manager.AddTrafficPipe | core/manager_start.go:115-119 | the pipe becomes the newest link of the cleanup chain |
| ManagerObject.Manager.RestartCore | core/manager.go:155-166 | stop, then start, as one section |
| SandboxMounts.MostSpecificTargetWins | core/sandbox/sandbox_linux.go:556-586 | performing the compacted list makes the deepest covering target effective for every path, if and only if no top-level directory is requested before `/`; always when `/` is not requested |
| SandboxMounts.RootAfterBinHidesIt | core/sandbox/sandbox_linux.go:582-584 | a request list with `/` for which it fails |
| SandboxMounts.CompactMeaning | core/sandbox/sandbox_linux.go:556-586 | one mount per requested target, sorted by depth, read-only exactly if every request was, with the first source given |
| SandboxMounts.EqualDepthOrder | core/sandbox/sandbox_linux.go:582-585 | equally deep targets keep the order of their first requests |
| SandboxMounts.SortIsStable | core/sandbox/sandbox_linux.go:582-584 | sorted by depth, same elements, equal depths in place |
| SandboxMounts.DepthCountsSeparators | core/sandbox/sandbox_linux.go:583 | the depth compared is the number of separators of the printed path |
| SandboxMounts.CompactDepths | core/sandbox/sandbox_linux.go:582-584 | so it is for every mount of a compacted list |
| SandboxMounts.CleanRender | core/sandbox/sandbox_linux.go:563 | cleaning a printed absolute path gives the path back |
| SandboxMounts.CleanAppends | core/sandbox/sandbox_linux.go:563 | cleaning drops doubled separators and `.`, goes up at `..` but not above the root, and down at a name |
| SandboxMounts.SourcesAreClean | core/sandbox/sandbox_linux.go:564-566 | a source is kept in one clean spelling for each place |
| SandboxMounts.CompactSandboxMounts | core/sandbox/sandbox_linux.go:556-586 | the loop with its index map computes the merge and the sort |
| SandboxMounts.MountTable.MountAll | core/sandbox/sandbox_linux.go:77-114 | all mounts in order, or none after a failure |
| SandboxMounts.RootedResolves | core/sandbox/sandbox_linux.go:621-623 | below the sandbox root paths resolve as the plan says |
| NonceStore.Store.EvictExpired | route/auth/middleware.go:64-81 | drops exactly the expired prefix from queue and map |
| NonceStore.Store.Remember | route/auth/middleware.go:45-62 | accepts a key if and only if the unbounded history holds no acceptance of it less than a ttl old |
| NonceStore.FreshIfUnseen | route/auth/middleware.go:51-53 | a key is in the map exactly if the history holds a recent acceptance of it |
| NonceStore.QueueMeaning | route/auth/middleware.go:25-35 | the queue invariant is exactly "sorted by expiry with distinct keys" |
| NonceStore.SpacedPairs | route/auth/middleware.go:45-62 | acceptances of one key are at least a ttl apart |
| Authentication.Authenticator.AuthenticateV2 | route/auth/middleware.go:116-163 | the first failing check decides the answer; accepted exactly if all checks pass and the same key id, timestamp and nonce were not admitted within two drifts; replayed exactly if they were |
| Authentication.WindowIsThirtySeconds | route/auth/middleware.go:132-138 | the window is thirty seconds either way, ends included |
| Authentication.ParsesDecimal | route/auth/middleware.go:127 | the value of a timestamp is what its sign and digits say, within 64 bits |
| Authentication.ParsesOnlyDigits | route/auth/middleware.go:127-130 | anything but digits after an optional sign is refused |
| Authentication.KeyIdsAccepted | route/auth/auth.go:82-103 | exactly the key ids of 1 to 128 letters, digits, `-`, `_` or `.` are accepted, white space around them not counting |
| Authentication.FreshMeansNoReplay | route/auth/middleware.go:157-160 | looking up the joined key answers the question about the request |
| Authentication.NonceKeyInjective | route/auth/middleware.go:157 | the joined nonce key determines key id, timestamp and nonce |
| Authentication.KeyIdHasNoColon | route/auth/auth.go:82-103 | accepted key ids contain no colon |
| Authentication.TimestampHasNoColon | route/auth/middleware.go:127-130 | accepted timestamps contain no colon |
| Authentication.ReplayOnlyAtWindowEnds | route/auth/middleware.go:132-160 | with the wall clock not set back, a second admission forces the two instants to be the window's two ends; a third needs it set back by the whole window |
| Authentication.SetBackAllowsReplay | route/auth/middleware.go:132-160 | for every amount of set-back, two admissions of a request that are not at the window's ends |
| Authentication.ReplayInsideExactlyIf | route/auth/middleware.go:132-160 | such admissions exist if and only if the wall clock was set back in between |
| Authentication.ReplayAfterSetBack | route/auth/middleware.go:116-163 | two calls on a new authenticator that both accept the same request inside its window |
| CanonicalRequest.CanonicalLines | route/auth/middleware.go:181-202 | the signed string has eight lines: version tag, timestamp, nonce, key id, method, path or `/`, canonical query and body hash; it exists exactly if the query parses |
| CanonicalRequest.CanonicalIdentifiesRequest | route/auth/middleware.go:181-202 | for one-line fields, canonical strings are equal if and only if all signed fields and the decoded query pairs agree |
| CanonicalRequest.CanonicalMeansSamePairs | route/auth/middleware.go:204-230 | canonical queries are equal exactly if the multisets of decoded pairs are |
| CanonicalRequest.CanonicalReordered | route/auth/middleware.go:204-230 | reordering the parameters of a query string never changes the result, failures included |
| CanonicalRequest.CanonicalizeIdempotent | route/auth/middleware.go:204-230 | canonicalising twice is canonicalising once |
| CanonicalRequest.ParseEncode | route/auth/middleware.go:209-229 | parsing an encoded list of pairs gives the list back |
| CanonicalRequest.UnescapeEscape | route/auth/middleware.go:225 | unescaping an escaped string gives it back |
| CanonicalRequest.EscapedForm | route/auth/middleware.go:225 | unreserved bytes stay, a space becomes `+`, any other byte two upper-case hex digits |
| CanonicalRequest.UnescapedForms | route/auth/middleware.go:209 | `+` is a space, hex digits of either case count, a malformed escape is refused |
| CanonicalRequest.SegmentMeaning | route/auth/middleware.go:209-212 | the first `=` separates, and semicolons or malformed escapes are refused |
| CanonicalRequest.LeDecides | route/auth/middleware.go:218 | strings are ordered by the first byte in which they differ |
| CanonicalRequest.CanonicalIsSorted | route/auth/middleware.go:214-227 | the canonical query lists the decoded pairs in ascending order of keys, then values |
| CanonicalRequest.CanonicalHasNoNewline | route/auth/middleware.go:192-201 | a canonical query never breaks the line structure |
| CanonicalRequest.CanonicalizeQueryCode | route/auth/middleware.go:204-230 | grouping, sorting keys and values and joining computes the canonical query |
| WebSocket.ReadsEveryClientFrame | route/httphelper/websocket.go:111-164 | every final masked frame of admissible size, in any length form, is read as its opcode and unmasked payload and consumed exactly; a larger one is refused |
| WebSocket.ReadsOnlyClientFrames | route/httphelper/websocket.go:111-164 | whatever is read was such a frame |
| WebSocket.ReadRefuses | route/httphelper/websocket.go:117-124 | exactly the frames that are not final, and then those not masked, are refused as such |
| WebSocket.PrefixIsShort | route/httphelper/websocket.go:111-156 | every proper prefix of a readable frame is a short read |
| WebSocket.MaskIsInvolution | route/httphelper/websocket.go:157-161 | masking twice gives the payload back |
| WebSocket.LengthReads | route/httphelper/websocket.go:125-140 | each length form reads back |
| WebSocket.MinimalIsShortest | route/httphelper/websocket.go:92-102 | no length form that fits is shorter than the one written |
| WebSocket.ClientRecoversMessages | route/httphelper/websocket.go:89-109 | a section 5.2 decoder recovers payloads and low opcode bits of every sequence of written frames |
| WebSocket.ClientRecoversExactly | route/httphelper/websocket.go:89-109 | it recovers the sequence itself if and only if all opcodes are below 16 |
| WebSocket.Stream.WriteFrame | route/httphelper/websocket.go:89-109 | appends the frame, or reports the failed write |
| WebSocket.Unmask | route/httphelper/websocket.go:157-161 | the in-place loop computes the mask |
| WebSocket.ReadFrame | route/httphelper/websocket.go:111-164 | computes the reading function and leaves the rest of the stream |
| ProcessTree.CollectChildren | core/process/terminate_windows.go:60-69 | the child lists hold exactly the snapshot's parent-child records |
| ProcessTree.Walk | core/process/terminate_windows.go:70-85 | terminates on every graph and returns exactly the other reachable processes, each once and after a parent of it |
| ProcessTree.ProcessTree | core/process/terminate_windows.go:50-86 | fails exactly if the snapshot cannot be read |
| ProcessTree.Terminate | core/process/terminate_windows.go:12-26 | a non-positive id is a no-op; otherwise a reverse pass that stops at the first process that resists |
| ProcessTree.PassMeaning | core/process/terminate_windows.go:20-25 | succeeds exactly if no reachable process resists, and then terminated all of them once, the root last, each other one before a parent |
| ProcessTree.ChildBeforeParent | core/process/terminate_windows.go:20-25 | with one record per process, each goes before its own parent, cycles included |
| PipeClose.NeverUsesClosedHandle | listen/namedpipe/file.go:88-123 | in every interleaving of operations and closers the handle is open whenever it is used and is closed at most once |
| PipeClose.ClosedMeansQuiet | listen/namedpipe/file.go:88-102 | nothing joins the wait group once closing, and a closed handle means nothing is in flight |
| PipeClose.NeverStuck | listen/namedpipe/file.go:88-123 | while a call is unfinished some call can go on |
| PipeClose.OpenPipeAdmits | listen/namedpipe/file.go:112-123 | without a closer every operation is admitted and the handle stays open |
| PipeClose.CheckDecides | listen/namedpipe/file.go:113-118 | an operation is refused exactly if the pipe is closing |
| PipeClose.CancelComesFirst | listen/namedpipe/file.go:93-95 | pending I/O is cancelled before anyone waits for it |
| PipeClose.QuietMeansClosed | listen/namedpipe/file.go:88-102 | when no call can go on, a pipe someone began to close is closed |
| PipeDeadline.NeverClosesTwice | listen/namedpipe/file.go:248-287 | in every interleaving of sets and timers no channel is closed twice, and at rest the flag says whether the channel is closed |
| PipeDeadline.SetTakesEffect | listen/namedpipe/file.go:267-286 | a set without deadline returns with channel open, flag clear and no live timer; a past one with both set; a future one with its timer live or already fired |
| PipeDeadline.ClearedStaysCleared | listen/namedpipe/file.go:252-269 | nothing changes afterwards until the next set takes the lock |
| PipeDeadline.ReplacedOnlyWhenQuiet | listen/namedpipe/file.go:260-266 | the channel is replaced only after it was closed and while no timer could close it |
| PipeDeadline.ArmedTimerFires | listen/namedpipe/file.go:272-281 | an armed timer can expire, and its callback then sets the flag and closes the channel |
| PipeDeadline.NeverStuck | listen/namedpipe/file.go:252-257 | a set waits only for a callback that can go on |
| LogLines.BoundedOutputBuffer.Write | core/manager_logs.go:35-43 | the buffer holds exactly the last min(limit, total) characters written |
| LogLines.LastOfAppend | core/manager_logs.go:39-41 | cutting early loses nothing a later cut would keep |
| LogLines.DropKeepsLines | core/manager_logs.go:120 | replacing line ends only drops carriage returns at the ends of terminated lines |
| LogLines.DropEach | core/manager_logs.go:120 | every CRLF becomes a newline, whatever surrounds it |
| LogLines.FeedFollowsStream | core/manager_logs.go:128-142 | the partial line kept is always the end of the raw one, and one chunk keeps the delivered lines in step with a robust stream |
| LogLines.AlarmFollowsStream | core/manager_logs.go:75-92 | one chunk raises the alarm at least for an error within the limit and at most for an error |
| LogLines.PublishedIgnoresChunks | core/manager_logs.go:115-173 | for a robust stream every chunking publishes the trimmed non-blank terminated lines and the end of the last one |
| LogLines.PublishedExactlyIf | core/manager_logs.go:115-173 | the published lines are the same for all chunkings if and only if every terminated line is blank before its last `LineLimit` characters |
| LogLines.ReportIgnoresChunks | core/manager_logs.go:69-107 | under every chunking an error within the limit is reported and nothing is reported unless some line shows an error |
| LogLines.ReportedExactlyIf | core/manager_logs.go:69-107 | the report is the same for all chunkings if and only if the stream shows no error or one within the last `LineLimit` characters of a line |
| LogLines.ShortLinesIgnoreChunks | core/manager_logs.go:69-173 | with no line above 16384 characters the stream is delivered and reported as if read line by line |
| LogLines.IndicatorsAreFatal | core/manager_startup.go:57-69 | the fatal indicator counts in any mixture of cases, the listen errors as written |
| LogLines.LongLineHidesError | core/manager_logs.go:82-92 | one stream, two chunkings: an error reported and missed |
| LogLines.LongLineDependsOnChunks | core/manager_logs.go:135-137 | a family of streams whose published lines depend on the chunks |
| LogLines.FatalIgnoresCR | core/manager_startup.go:57-69 | a trailing carriage return never decides whether a line is fatal |
| LogLines.CoreLogEventWatcher.Write | core/manager_logs.go:115-145 | buffer and published lines follow the chunk by chunk function; for a robust stream the lines completed so far |
| LogLines.CoreLogEventWatcher.Stop | core/manager_logs.go:147-158 | afterwards exactly what a robust stream delivers was published |
| LogLines.StartupLogWatcher.Write | core/manager_logs.go:69-95 | at most one error is sent; it is if some line shows one within the limit, and only if some line shows one |
| LogWriter.TrimMeaning | core/log_writer.go:164-192 | a trim keeps a suffix of at most the target size that starts just after a newline unless the kept tail has none before its last byte |
| LogWriter.RunKeepsSuffix | core/log_writer.go:72-95 | after any writes and limit changes the file is a suffix of everything written and within a positive limit |
| LogWriter.RunKeepsWholeLines | core/log_writer.go:125-162 | while lines are short against the limits, the file always starts at the beginning of a line of the history |
| LogWriter.StartsAtLineExactlyIf | core/log_writer.go:164-192 | after any run the file starts at a line of the history if and only if nothing was trimmed or the last trim found a newline just before its window or in it before its last byte |
| LogWriter.LongLineIsCut | core/log_writer.go:187-189 | a line longer than the limit leaves a file that starts inside it |
| LogWriter.LimitedBounds | core/log_writer.go:125-162 | enforcing the limit leaves content within it alone, trims the rest to a bounded suffix, and is idempotent |
| LogWriter.Target | core/log_writer.go:138 | the low watermark is 0.7 of the limit, rounded down, at least one byte |
| LogWriter.BoundedLogWriter.EnforceLimit | core/log_writer.go:125-162 | trims the open file and no other |
| LogWriter.BoundedLogWriter.EnsureOpen | core/log_writer.go:105-123 | creates a missing file and brings a newly opened one within the limit |
| LogWriter.BoundedLogWriter.Write | core/log_writer.go:72-95 | appends and trims the current file, which stays a bounded suffix of everything written to it, or does nothing when not saving |
| LogWriter.BoundedLogWriter.Update | core/log_writer.go:43-70 | new settings take effect at once and touch only the file they name |
| CpuRange.RangesExpand | core/process/process_cgroup_linux.go:123-149 | the printed ranges denote exactly the list, for every list |
| CpuRange.ListReads | core/process/process_cgroup_linux.go:129-138 | printed ranges read back |
| CpuRange.RangesMinimal | core/process/process_cgroup_linux.go:139-146 | for an increasing list no description of the same CPUs has fewer ranges |
| CpuRange.FormatCPURange | core/process/process_cgroup_linux.go:123-149 | reading the text gives back the list for every non-empty list of non-negative ids |
| CpuRange.NormalizeAffinity | core/launch.go:257-270 | accepts exactly the lists within range and returns the increasing list of the same CPUs |
| CpuRange.AffinityText | core/process/process_cgroup_linux.go:123-149 | normalising and printing names exactly the requested CPUs in the fewest items |

## Left out

- SysproxyGuard.NoStaleRestore: generations are unbounded; the wrap-around of a 64-bit counter is not modelled.
- SysproxyGuard: snapshot comparison, watch callbacks, error reporting and events of the guard loop; a loop may see foreign settings at any time.
- Forwarding.RestoreUndoesWrites: writes of a restore and of a rollback succeed; one whose writes fail is not modelled, since repeating it need not converge.
- Forwarding.PrepareForwarding: the interface is not called `all`, a name the kernel reserves, the interface set does not change during a call, and values carry no surrounding white space.
- Gateway.Manager.Start: network discovery, DHCP probe, option normalisation and the controller itself are parameters; nobody else writes the sysctls.
- Launch.LaunchProcess: process start, priority and affinity calls are parameters that may fail; the Windows and macOS launchers are not modelled.
- CoreManager.AlwaysSteady: desired-state files, runtime records, events, start times, backoff delays, and whether PID polling eventually notices an exit.
- ManagerObject.Manager.AdoptRuntimeRecord: adoption happens on an idle manager, before requests are served.
- CoreManager.CrashExitScope: the polling loop's reads of pid and state fall between sections; reads in the middle of one are only covered by AlwaysSteady.
- SandboxMounts.MostSpecificTargetWins: targets are absolute; mount propagation, read-only remounting and the list of paths a sandbox asks for are not modelled.
- SandboxMounts: removal of stale sandbox roots (linuxMountPointsUnder, pathWithin) would only add a second sort and prefix test.
- NonceStore.Store.Remember: monotonic clock readings do not decrease from call to call.
- Authentication.Authenticator.AuthenticateV2: SHA-256, Ed25519, key storage and the peer check are parameters; header lower-casing of the content hash is done by the caller.
- CanonicalRequest.CanonicalIdentifiesRequest: the method is already upper-case and the path already escaped; limits on the number of query parameters are not modelled.
- WebSocket: handshake, close codes and control frames; a failed payload write may leave part of a frame.
- ProcessTree.Terminate: whether a process can be terminated does not change during the pass.
- PipeClose.NeverUsesClosedHandle: Flush and Fd, which use the handle without joining the wait group (listen/namedpipe/file.go:240-246), are not part of the protocol; the completion port and results of I/O are not modelled.
- PipeDeadline.NeverClosesTwice: readers and writers that wait on the channel.
- LogLines.PublishedIgnoresChunks: Write and Stop calls are serialised; the rules that turn lines into events and the texts of reported errors are not modelled, and text is a sequence of characters.
- LogWriter.RunKeepsSuffix: file operations succeed; 0.7 of the limit is rounded down exactly, without floating-point error; file modes and ownership are not modelled.
- CpuRange.NormalizeAffinity: the rest of profile normalisation.
- Command line, service registration, HTTP routing, reverse proxies, events to subscribers, memory and uptime formatting, Windows access control and other platform variants: plumbing without properties of this kind.
