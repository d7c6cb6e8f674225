# A verified model of the exam desktop's runtime, channel, guards and printers

This project models four groups of components of the exam desktop and proves what they promise over
every input and every run.

* **Runtime.** The state governor (`StateGovernor`, `GovernorLaws`, `GovernorOrder`) with its re-entrant event
  queue; the core runtime's snapshot updates, exit flow and monitor loop (`RuntimeModel`, `CoreRuntimeModule`,
  `RuntimeLocks`, `SnapshotLaws`, `ExitFlow`, `ExitFlowRuns`, `ExitPatches`, `MonitorLoop`), cut into atomic steps
  at each `await` and each timer callback; and the renderer's replica (`Preload`).
* **Channel.** The canonical JSON writer with a parser that inverts it and the exact text it writes (`JsonNumbers`,
  `JsonStrings`, `JsonLayout`, `CanonicalJson`, `CanonicalOrder`), the frames it authenticates (`IpcFrames`,
  `IpcText`), the core's authenticator (`IpcAuth`), whole runs against a network that drops, duplicates, reorders,
  alters and invents frames (`IpcChannel`, `IpcReplays`, `IpcAcceptance`), the desktop's verifier of responses
  (`FrameVerifier`), the pending-request table (`Sidecar`, `SidecarLaws`), the elevated service (`ServiceAuthorizer`,
  `ServiceNames`) and the emergency-restore widget (`EmergencyWidget`, `EmergencyWidgetLaws`, `GreatestNonces`).
* **Persistence.** The accessibility guard with its write-ahead backup (`AccessibilityGuard`,
  `AccessibilityLaws`) and the audit log with its hash chain, rotation and upload queue (`AuditChain`,
  `AuditLog`, `AuditLaws`, `AuditTears`, `AuditRecords`, `AuditContents`, `UploadQueue`). Every primitive write may fail, and a crash
  may fall between any two.
* **Command lines.** The two command-line quoters against the Microsoft C runtime's rules for splitting a
  command line (`CommandLine`, `CommandLineRules`, `CommandLineLaws`).

Code that changes variables in place is a class whose methods are proved against functions on values; the laws
are lemmas about those functions and about runs of them. Clocks, random bytes, the sidecar's answers, write
failures and MACs, signatures and hashes are parameters. Where a law needs a hash to be injective or a MAC to
be unforgeable, its `requires` says so.

Words used below: an exit is *finished* when the three exit flags are off, the governor is unlocked and no
fallback timer is armed, and *settled* when the session is EXITED and the audio lock off as well; a flow is *at
rest* when no answer, restore or timer is outstanding; an exit is *stranded* when it is marked as in progress
with no answer, restore or cleanup timer left.

## Where the code does less than its documentation or its name suggests

Each is stated as an exact condition, with a concrete run that fails.

* The lock on a confirmed exam only looks at a requested state that is a non-empty string. Whoever passes a
  reported state on checks that it is a string, so the empty string is what gets past: a monitor answer that
  reports it ends the confirmed exam (`RuntimeLocks.LockHoldsExactly`, `EmptyReportEndsTheExam`).
* An exit can be stranded, and that happens exactly when its last outstanding step ends without ending it, with no
  cleanup pending and the cleanup timer gone: the restore of an acknowledged exit throws with no answer left, or the
  last answer carries no data with no restore left (`ExitFlowRuns.StrandsExactly`). At rest an exit is finished if
  and only if no step of the run stranded it for good, whatever else threw (`RestsSettledExactly`). A protection that
  cannot be restored and a late acknowledgement are enough (`LateAcknowledgementStrands`), and only a new exit request
  or the cancelling of the exit confirmation frees it (`StrandedUntilFreed`).
* Cancelling the exit confirmation after the exit was requested brings the session back but does not recall the
  command: the answer still outstanding completes the exit all the same (`ExitFlowRuns.CancelDoesNotRecall`).
* A finished exit does not hold the state EXITED against patches from outside: a late status answer or the sidecar's
  own exit moves it on, and exactly such patches and a cancelled confirmation do (`ExitFlowRuns.StaysOnCourseExactly`,
  `LateStatusMovesOn`).
* Deactivating the accessibility guard without a guard in force reports success without looking at the settings. The
  report is true exactly if a guard was in force, or there is no backup, or the settings in force are those of the
  backup; after a failed activation whose roll-back failed too it is false, and the same process can do nothing about
  it (`AccessibilityLaws.DeactivationReportExactly`, `DeactivationCanMisreport`, `OwnBackupBlocksEverything`). The
  failed activation's own text says that the settings were restored even then.
* The audit segments and the current file stop forming one chain that the next append extends exactly when an append
  fails behind its rename or is cut off in a line, or two rotations use one timestamp (`AuditLaws.OneChainExactly`,
  `FailedRotationBreaksTheChain`).
* The audit files hold every record written to them exactly as long as no rotation reuses a timestamp and nothing is
  written behind a record that lacks its line feed (`AuditRecords.NothingIsLostExactly`). In the latter case both
  records are lost although the second append reports success (`CutLineLosesBoth`), and the second one stays queued for
  upload (`UploadQueue.QueuedButInNoFile`).
* The upload queue can be read exactly as long as no append is cut off within its record there or writes behind one
  that lacks its line feed (`UploadQueue.QueueIsConserved`). From then on every drain, acknowledgement and failure
  report fails for good, while the log goes on and appends report success (`GarbledForGood`).
* The audit log verifies and can be appended to exactly as long as no append is cut off within its record or writes
  onto a line that lacks its line feed (`AuditTears.IntactExactly`); the append that does the latter reports success
  (`AuditLaws.MissingLineFeedRuinsTheNext`), and nothing can be appended afterwards (`TornRecordWedges`).
* Letting go of the emergency button is only noticed in the state "holding": if a request is refused in between, the
  hold goes on counting (`EmergencyWidgetLaws.CancelForgetsExactly`, `ReleasedHoldStillCounts`).
* `0` and `-0` have one canonical text (`CanonicalOrder.NegativeZeroIsLost`), so a MAC or an audit hash does not tell
  them apart.
* The program name of a built command line comes back only if it has no quote character and, where it is quoted, no
  backslash at its end; arguments are not restricted (`CommandLineLaws.RoundTripExactly`).
* The frame factory uses up a sequence number even when building the frame throws (`IpcChannel.SequencedFrameFactory.Create`).

## Model

| member | source | states |
|---|---|---|
| CommandLine.QuoteArgument | bootstrapper/src/main.rs:523-550 | The loop over characters with its backslash counter writes exactly the quoted form, for either quoter's choice of forcing characters. |
| CommandLine.HasForcingCharacter | rust-core/src/desktop_isolation.rs:244-249 | Finds a character that forces quotes exactly if there is one. |
| CommandLine.BuildCommandLine | rust-core/src/desktop_isolation.rs:235-242 | The loop that pushes and joins parts gives the same line as the bootstrapper's iterator chain. |
| CommandLineLaws.ScanEscaped | rust-core/src/desktop_isolation.rs:251-272 | Inside quotes a runtime scanner recovers every value, with any runs of backslashes and quotes, from its escaped form. |
| CommandLineLaws.ArgumentsOfTail | bootstrapper/src/main.rs:552-558 | Splitting gives back exactly the list of arguments, for every list. |
| CommandLineLaws.ProgramNameOfLine | bootstrapper/src/main.rs:523-530 | For a quote-free program name, argv[0] is read back exactly if the name is unquoted or does not end in a backslash. |
| CommandLineLaws.RoundTripExactly | bootstrapper/src/main.rs:523-558 | Splitting `build_command_line(app, args)` gives app and args if and only if they are NUL-free, app has no quote and app is unquoted or does not end in a backslash; for both quoters and both runtime dialects. |
| CommandLineLaws.QuotersAgree | rust-core/src/desktop_isolation.rs:244-272 | What both quoters can represent is read back the same from either line. |
| CommandLineLaws.QuotersDiffer | rust-core/src/desktop_isolation.rs:245-249 | The quoters write an argument with a line feed differently. |
| CommandLineLaws.WrittenAsItIsExactly | bootstrapper/src/main.rs:523-530 | A value is written without quotes exactly if it is not empty and holds no quote and no white space in the quoter's sense: any Unicode white space, or blank and tab. |
| CommandLineLaws.QuotesAreAdded | bootstrapper/src/main.rs:531-550 | A quoted value holds its own quotes and the two around it, and no other. |
| CommandLineLaws.LineGrowsExactly | bootstrapper/src/main.rs:552-558 | Each further argument adds one blank and its quoted form, nothing else. |
| JsonNumbers.ReadNumberOfText | src/ipc-auth.js:16-21 | A JSON parser reads every finite number back from the text JavaScript prints for it, whatever may follow a number. |
| JsonStrings.ReadStringOfText | src/ipc-auth.js:13-15 | A JSON parser reads every string back from its printed form, lone surrogates and control characters included. |
| JsonLayout.ExponentIsWrittenExactly | src/ipc-auth.js:16-21 | The text of a number other than zero holds an exponent exactly if its magnitude is at least 10^21 or below 10^-6. |
| JsonLayout.PlainText | src/ipc-auth.js:16-21 | Without an exponent: how many digits stand before the point, where it stands, and that it stands only before a fraction. |
| JsonLayout.ScaledText | src/ipc-auth.js:16-21 | With one: a single digit, the others behind a point if there are any, the signed exponent in decimal digits. |
| JsonLayout.IntegersArePlain | src/ipc-auth.js:16-21 | Every integer below 10^21, so every timestamp and sequence number, is written in plain decimal digits. |
| JsonLayout.WrittenAsItIsExactly | src/ipc-auth.js:13-15 | A string stands for itself exactly if it holds no quote, backslash, unit below 0x20 or lone surrogate. |
| JsonLayout.EscapesExactly | src/ipc-auth.js:13-15 | What each of these is written as: seven short forms, and four lower-case hexadecimal digits that read back as the unit. |
| CanonicalJson.CanonicalIsInvertible | src/ipc-auth.js:12-32 | A parser recovers every value from its canonical text, up to the sign of zero and the order of members. |
| CanonicalJson.CanonicalIsInjective | src/ipc-auth.js:12-32 | Equal canonical texts mean equal values, up to the sign of zero and the order of members. |
| CanonicalOrder.PrintableExactly | src/ipc-auth.js:16-31 | Canonicalizing succeeds exactly if no number is non-finite and no value has an unsupported type. |
| CanonicalOrder.SortAscends | src/ipc-auth.js:26-29 | Members are written in ascending code-unit order of their keys. |
| CanonicalOrder.CanonicalOfNormal | src/ipc-auth.js:12-32 | Normalising a value does not change its canonical text. |
| CanonicalOrder.SameTextExactly | src/ipc-auth.js:12-32 | Two printable values share a canonical text if and only if they are equal up to the sign of zero and the order of members. |
| CanonicalOrder.ObjectsAreMaps | src/ipc-auth.js:25-30 | Objects with distinct keys share a canonical text exactly if they are the same key-to-value map, whatever the insertion order. |
| CanonicalOrder.NegativeZeroIsLost | src/ipc-auth.js:16-21 | Zero and negative zero have the same canonical text. |
| IpcFrames.MacBindsContent | rust-core/src/ipc_auth.rs:248-268 | The canonical text of the MAC content determines version, kind, nonce, timestamp, payload and, for v2, sequence. |
| IpcText.MacTextExactly | rust-core/src/ipc_auth.rs:248-268 | The text a MAC is taken over, spelled out for every frame with a printable payload: five members for v1 and six for v2, by ascending key, without blanks, numbers in plain digits. |
| IpcAuth.IpcAuthenticator.Verify | rust-core/src/ipc_auth.rs:162-235 | The checks in their order, each with its own error, and the whole new state: what is pruned, remembered and counted. |
| IpcAuth.IpcAuthenticator.CheckShape | rust-core/src/ipc_auth.rs:168-192 | The checks made before any state is touched, the first that fails being the error. |
| IpcAuth.IpcAuthenticator.RecordAcceptance | rust-core/src/ipc_auth.rs:218-234 | The sequence, the nonce and the time of an accepted frame are recorded and the nonces pruned. |
| IpcAuth.IpcAuthenticator.VerifyRequest | rust-core/src/ipc_auth.rs:111-118 | The payload is handed out exactly if the frame verifies as a request. |
| IpcAuth.IpcAuthenticator.DropOldAccepts | rust-core/src/ipc_auth.rs:270-278 | The loop drops exactly the leading acceptances that left the window. |
| IpcAuth.IpcAuthenticator.Prune | rust-core/src/ipc_auth.rs:280-294 | The loops keep the nonces still in the window and evict oldest first down to the capacity. |
| IpcAuth.IpcAuthenticator.FindOldest | rust-core/src/ipc_auth.rs:283-294 | Finds the entry with the smallest timestamp, and among equals the first nonce in UTF-8 byte order. |
| IpcAuth.TrimEvictsOldest | rust-core/src/ipc_auth.rs:280-294 | Eviction ends exactly at the capacity and gives up only entries at least as old as every one it keeps. |
| IpcAuth.RefusalKeepsState | rust-core/src/ipc_auth.rs:168-228 | A refused frame changes neither the nonces nor the sequence. |
| IpcChannel.SequencedFrameFactory.Create | src/ipc-auth.js:83-111 | The next number is used up in any case; a frame with it comes out exactly if the payload has a canonical text. |
| IpcChannel.SignedRequestIsCreated | rust-core/src/ipc_auth.rs:208-228 | A request whose MAC content was signed by either end is one the factory created, even though responses are signed with the same key. |
| IpcChannel.OrderedAtMostOnce | rust-core/src/ipc_auth.rs:162-235 | Whatever the network does, the accepted frames are an in-order, repetition-free subsequence of the created ones; early eviction of nonces changes nothing. |
| IpcChannel.RateLimitedExactly | rust-core/src/ipc_auth.rs:194-198 | A well-formed fresh frame that is not earlier than the last meets the rate limit exactly if 256 acceptances are still in the window. |
| IpcChannel.RateHolds | rust-core/src/ipc_auth.rs:270-278 | In every run with a clock that does not go back, the queue is a suffix of all acceptances, what it lacks is older than the window, and acceptances 256 apart are more than a second apart. |
| IpcChannel.AtMost256PerSecond | rust-core/src/ipc_auth.rs:194-233 | In every run whose clock does not go back, any closed interval of one second holds at most 256 accepted frames. |
| IpcAcceptance.AcceptedExactly | rust-core/src/ipc_auth.rs:162-235 | After every run whose clock does not go back a frame is accepted if and only if it is a well-formed fresh request, fits and has a matching MAC, fewer than 256 were accepted in the window, its nonce is not remembered and, for v2, its sequence exceeds that of every accepted v2 frame. |
| IpcAcceptance.RefusedForExactly | rust-core/src/ipc_auth.rs:194-228 | For each error a fresh request can meet, the exact condition under which it does, in the order of the checks. |
| IpcAcceptance.RememberedWasAccepted | rust-core/src/ipc_auth.rs:229-234 | In every run a remembered nonce is that of an accepted frame, so no other is refused as a replay. |
| IpcAcceptance.CreatedExactly | src/ipc-auth.js:83-111 | A created frame carries its payload, nonce, time and number, and the signature of its own text. |
| IpcAcceptance.OrderlyStreamIsAccepted | rust-core/src/ipc_auth.rs:188-234 | Created requests delivered in creation order, in time, with new nonces, fitting and below the rate are all accepted, whatever is created or answered in between. |
| IpcReplays.ForgettingIsSafe | rust-core/src/ipc_auth.rs:188-203 | In runs whose clock does not go back and that never trim to capacity no nonce and timestamp are accepted twice, for v1 frames too. |
| IpcReplays.ReplayNeedsFlood | rust-core/src/ipc_auth.rs:280-294 | In every run whose clock does not go back, v1 frames and trimming included, a nonce and timestamp are accepted again only after at least 4096 other accepted ones that are no older. |
| IpcReplays.OldNoncesAreForgotten | rust-core/src/ipc_auth.rs:280-294 | In every run no nonce is remembered beyond the window before the last acceptance. |
| FrameVerifier.Verifier.VerifyFrame | src/ipc-auth.js:134-183 | The checks in their order, each with its own error; a refused frame changes nothing, an accepted one is remembered and the map pruned. |
| FrameVerifier.Verifier.Prune | src/ipc-auth.js:122-132 | The loops keep the fresh nonces and evict the first of the oldest until the map fits. |
| FrameVerifier.TrimKeepsTheNewest | src/ipc-auth.js:128-131 | An entry is given up only while 4096 entries at least as new are kept. |
| FrameVerifier.ReplayNeedsFlood | src/ipc-auth.js:113-184 | In every run whose clock does not go back, a nonce and timestamp are accepted again only after at least 4096 others that are no older, and accepted v2 sequences ascend. |
| FrameVerifier.AcceptedExactly | src/ipc-auth.js:134-183 | After every run a response is accepted if and only if it is well-formed, fresh and genuine, its nonce is not in the map and, for v2, its sequence exceeds that of every accepted v2 frame. |
| FrameVerifier.NewNonceIsNotSeen | src/ipc-auth.js:122-132 | In every run whose clock does not go back the map holds no nonce but those of accepted frames. |
| ReplayCache.AcceptIsSafe | edulearn-exam-service/src/authorization.rs:148-155 | What passes the window and the cache was never accepted before, and every accepted use stays cached or too old. |
| ServiceAuthorizer.Authorizer.AuthorizeTermination | edulearn-exam-service/src/authorization.rs:132-251 | A request is authorised if and only if it passes every gate: version, target, nonce, window, both server signatures, bindings, device key, and a process the policy prohibits and does not allow; only then the cache changes. |
| ServiceAuthorizer.Authorizer.CheckSignatures | edulearn-exam-service/src/authorization.rs:157-213 | Succeeds exactly if the signatures, algorithms, bindings, expiries and the device key all fit. |
| ServiceAuthorizer.Authorizer.CheckTarget | edulearn-exam-service/src/authorization.rs:215-244 | The loops over the policy's lists decide exactly whether the process is prohibited and not allowed. |
| ServiceAuthorizer.NoReplayInAnyRun | edulearn-exam-service/src/authorization.rs:145-155 | With a clock that does not go back no nonce and timestamp are authorised twice in any run, and every cached timestamp stays within 30 s behind and 5 s ahead of the last accepting clock. |
| ServiceAuthorizer.NeverItselfNorAllowed | edulearn-exam-service/src/authorization.rs:139-222 | No run authorises ending the service itself, process 0 or an allowed process. |
| ServiceNames.AuthorizedExactly | edulearn-exam-service/src/authorization.rs:132-251 | After every run a request is authorised if and only if its nonce is not remembered and everything else holds, spelled out: version, target, lengths, window, signatures, bindings, expiries, device, and a listed and not allowed process. |
| ServiceNames.NamedExactly | edulearn-exam-service/src/authorization.rs:215-222 | A list names a process exactly if one of its names equals the trimmed process name up to ASCII case. |
| ServiceNames.ProhibitedExactly | edulearn-exam-service/src/authorization.rs:223-240 | Prohibited means listed in one of four lists, or in the fifth unless virtual machines are allowed. |
| ServiceNames.CaseDoesNotMatter | edulearn-exam-service/src/authorization.rs:215-244 | Names that differ only in ASCII case get the same decision. |
| ServiceNames.SurroundingsDoNotMatter | edulearn-exam-service/src/authorization.rs:215 | White space around the process name changes nothing. |
| ServiceNames.TrimExactly | edulearn-exam-service/src/authorization.rs:215 | Trimming takes all white space off both ends and nothing else. |
| StateGovernor.Governor.IssueSequenceId | src/state-governor.js:99-103 | Hands out the next id and moves on by one. |
| StateGovernor.Governor.Apply | src/state-governor.js:201-234 | From outside, the event is queued and the queue drained; inside a callback it is only queued; a stale id is refused at once. |
| StateGovernor.Governor.EnqueueEvent | src/state-governor.js:236-257 | The same under the next issued id. |
| StateGovernor.Governor.DrainQueue | src/state-governor.js:171-199 | The loop ends, refuses stale events, applies the others in order, and does nothing when already draining. |
| StateGovernor.Governor.ReduceAndNotify | src/state-governor.js:130-169 | One event is applied with its lock, reducer, unlocking, stamp and notification, with all calls its callbacks make in between. |
| StateGovernor.Governor.MakeCalls | src/state-governor.js:164-168 | What a callback's calls do while its event is processed: they issue ids and queue events, and apply nothing. |
| GovernorLaws.GovernorIsConsistent | src/state-governor.js:86-234 | After every run of calls applied ids were strictly ascending, the next id exceeds them, nothing is queued, every event is decided, and the snapshot carries the governor's sequence id and lock. |
| GovernorLaws.ConsistentWhileDraining | src/state-governor.js:171-199 | The same after any number of turns of the drain loop, where the next id also exceeds every id still queued. |
| GovernorLaws.DrainKeepsGood | src/state-governor.js:171-199 | Draining empties the queue, only extends the record of outcomes and keeps the governor consistent. |
| GovernorLaws.DecidedExactlyOnce | src/state-governor.js:171-234 | Every event ever submitted, by a caller or a callback, is accepted or refused as stale exactly once. |
| GovernorLaws.FreshEventIsApplied | src/core-runtime.js:1186-1199 | An event under a freshly issued id is applied at once, which is how every runtime patch lands. |
| GovernorLaws.MutedExactlyInTheExam | src/state-governor.js:109-128 | Audio is muted exactly in a confirmed exam without exit lock, and restored whenever exiting or exited. |
| GovernorOrder.AppliedAsSubmitted | src/state-governor.js:171-199 | In every run, whatever callbacks submit in between, events are applied in the order in which they were submitted. |
| GovernorOrder.TurnShowsTheEvent | src/state-governor.js:130-199 | A turn of the drain loop changes nothing for a stale event; for any other it shows its reducer's fields, its id and its lock, whatever its callbacks call. |
| GovernorOrder.PatchReducerLands | src/state-governor.js:143-146 | A patch event sets the fields it names and keeps every other. |
| GovernorOrder.AudioHeldExactly | src/state-governor.js:109-128 | Audio is held exactly under the exit lock, with the audio lock, while entering the kiosk or with an exit requested, outside the states that restore or mute. |
| CoreRuntimeModule.CoreRuntime.BuildEffectivePatch | src/core-runtime.js:1051-1179 | The patch, built and cut down step by step, is the lock's, the exit guard's and the audio rule's result in that order. |
| CoreRuntimeModule.CoreRuntime.DeleteCriticalFields | src/core-runtime.js:1088-1092 | The loop over the list removes exactly the critical fields. |
| CoreRuntimeModule.CoreRuntime.UpdateSnapshot | src/core-runtime.js:1051-1200 | An update publishes the merged snapshot under the next sequence id with the new lock. |
| CoreRuntimeModule.CoreRuntime.PatchThroughGovernor | src/core-runtime.js:590-608 | An update with the governor's validation status and the exit-flow permission. |
| CoreRuntimeModule.CoreRuntime.StopRuntimeMonitorLoop | src/core-runtime.js:721-729 | A new monitor generation, no timer, nothing in flight. |
| CoreRuntimeModule.CoreRuntime.ClearAndInvalidateTimers | src/core-runtime.js:483-495 | Both fallback timers cleared and a new exit generation. |
| CoreRuntimeModule.CoreRuntime.BeginExitConfirmation | src/core-runtime.js:609-629 | Notes the state to go back to, and changes nothing while an exit is in progress. |
| CoreRuntimeModule.CoreRuntime.CancelExitConfirmation | src/core-runtime.js:631-661 | Goes ahead exactly if a previous state is noted or an exit in progress: timers invalidated, flags and lock cleared, the previous state requested without overriding the lock. |
| CoreRuntimeModule.CoreRuntime.RequestExit | src/core-runtime.js:663-680 | A new exit generation, the requested state under the exit lock, the monitor stopped and the cleanup timer armed for this generation. |
| CoreRuntimeModule.CoreRuntime.EnterExiting | src/core-runtime.js:682-694 | The exiting state, and the audio timer armed for the current generation. |
| CoreRuntimeModule.CoreRuntime.EnterExited | src/core-runtime.js:696-719 | Timers cleared and invalidated, then the exited state with everything unlocked. |
| CoreRuntimeModule.CoreRuntime.ForceExitCleanup | src/core-runtime.js:522-539 | Goes on exactly for the current generation while an exit is in progress, and otherwise changes nothing. |
| CoreRuntimeModule.CoreRuntime.FinishForcedCleanup | src/core-runtime.js:551-576 | The restore's patch if there is one, then the exited state. |
| CoreRuntimeModule.CoreRuntime.StartAcknowledgedExit | src/core-runtime.js:2454-2458 | Monitor stopped, exam mode cleared, exiting state entered. |
| CoreRuntimeModule.CoreRuntime.FinishCommand | src/core-runtime.js:2550-2570 | The command's update, and the timers cleared exactly for an explicit exit whose state is EXITED then. |
| CoreRuntimeModule.CoreRuntime.FinishExitWithoutData | src/core-runtime.js:2550-2570 | An explicit exit answered without data ends with its plain update. |
| CoreRuntimeModule.CoreRuntime.FinishAcknowledgedExit | src/core-runtime.js:2498-2570 | The final patch with the lock released, and the timers cleared once the state is EXITED. |
| CoreRuntimeModule.CoreRuntime.OnAudioRestoreTimer | src/core-runtime.js:502-518 | Releases the audio lock only for its own generation in the exiting state. |
| CoreRuntimeModule.CoreRuntime.RunRuntimeMonitorTick | src/core-runtime.js:731-796 | A tick stops the loop, does nothing, or requests, exactly under the stated conditions. |
| CoreRuntimeModule.CoreRuntime.FinishRuntimeMonitorTick | src/core-runtime.js:826-894 | A stale answer changes nothing; a current one patches, or stops the loop on a lost connection; the flag is cleared only for the current generation. |
| CoreRuntimeModule.CoreRuntime.StartRuntimeMonitorLoop | src/core-runtime.js:897-937 | Starts the timer and the first tick, stops, or does nothing, exactly under the stated conditions. |
| RuntimeLocks.LockHoldsExactly | src/core-runtime.js:1073-1109 | One update without the override leaves the confirmed exam exactly if it names the state with something other than a non-empty string and the exit guard does not strip it. |
| RuntimeLocks.ConfirmedExamIsLocked | src/core-runtime.js:97-107 | Over a whole sequence of updates without the override the confirmed exam is never left exactly if no update slips past the lock. |
| RuntimeLocks.ProperPatchesKeepTheExam | src/core-runtime.js:1073-1084 | In particular if every patch names the state, if at all, by a non-empty string. |
| RuntimeLocks.EmptyReportEndsTheExam | src/core-runtime.js:848-862 | A current monitor answer that reports the empty string as the session state ends a confirmed exam. |
| RuntimeLocks.BlockedPatchIsHarmless | src/core-runtime.js:1086-1109 | A blocked patch changes no field of the critical list. |
| RuntimeLocks.ExitIsLocked | src/core-runtime.js:1111-1151 | While an exit is in progress no sequence of updates without the permission changes the session state, the exit flags or a critical field. |
| RuntimeLocks.AudioLockOnlySetByTheExam | src/core-runtime.js:1153-1179 | Without the audio permission the audio lock changes only to true, by a patch that asks for the confirmed exam, even while the exit guard strips the rest. |
| RuntimeLocks.UpdatesAreNumbered | src/core-runtime.js:1181-1200 | Each update publishes under the next sequence id of the same governor. |
| SnapshotLaws.PatchLandsExactly | src/core-runtime.js:1051-1200 | One update, field by field: a field is kept exactly if a lock keeps it or the patch does not name it, and otherwise takes the patch's value. |
| SnapshotLaws.UncriticalFieldsAlwaysLand | src/core-runtime.js:1086-1151 | A field that is not frozen takes the patch's value even during an exit and beside a blocked state. |
| SnapshotLaws.RuledFields | src/core-runtime.js:1153-1200 | What the audio lock, the exam mode and the governor's own fields hold after an update. |
| SnapshotLaws.UpdateTouchesNothingElse | src/core-runtime.js:1181-1200 | An update changes the snapshot, the lock as asked and the next sequence id, and no timer or generation. |
| ExitFlow.StepKeepsInvExactly | src/core-runtime.js:522-588 | Every step of the concurrent exit flow keeps the invariant (finished, or under way with a restore or timer to end it), except exactly the restore that throws as the last of these. |
| ExitFlowRuns.StrandsExactly | src/core-runtime.js:2447-2570 | A step strands an exit if and only if no cleanup and no cleanup timer is left and it is the throw of the last restore with no answer outstanding, or the last answer, without data, with no restore outstanding. |
| ExitFlowRuns.RestsSettledExactly | src/core-runtime.js:1777-1845 | In every interleaving of overlapping exits, answers, failures, restores that may throw, timers and outside patches: at rest the exit is finished if and only if no step stranded it for good, and settled exactly then unless an outside patch moved on. |
| ExitFlowRuns.RestsWithoutStranding | src/core-runtime.js:483-588 | A run none of whose steps strands comes to rest only finished, throwing restores or not. |
| ExitFlowRuns.RestsOnlyExited | src/core-runtime.js:541-571 | In particular if no acknowledged restore throws; restores of the fallback may. |
| ExitFlowRuns.EveryExitCompletes | src/core-runtime.js:2447-2570 | The same from the first exit request on. |
| ExitFlowRuns.StaysOnCourseExactly | src/core-runtime.js:359-385 | An exit under way or settled stays so at every step, except exactly at an outside patch after it that names another session state or takes up the audio lock, and at a cancelled confirmation that leads back to anything but an exited state. |
| ExitFlowRuns.LateStatusMovesOn | src/core-runtime.js:1946-1951 | A status answer with another state, arriving after the exit, moves the session on. |
| ExitFlowRuns.FlowComesToRest | src/core-runtime.js:497-588 | The flow's own steps in a run are bounded by what was outstanding and nine for each exit request. |
| ExitFlowRuns.QuiescentExactly | src/core-runtime.js:483-588 | At rest means exactly that no step of the flow itself can happen. |
| ExitFlowRuns.StrandedUntilFreed | src/core-runtime.js:2487-2488 | A stranded exit stays so under every run without an exit request or a cancelled confirmation; the one puts it under way again with its timer, the other finishes it. |
| ExitFlowRuns.CancelDoesNotRecall | src/core-runtime.js:631-661 | An exit confirmed, requested and then cancelled is finished, with the session it was confirmed in; the answer that comes later settles it all the same. |
| ExitFlowRuns.LateAcknowledgementStrands | src/core-runtime.js:541-571 | From every start, with restores that throw: request, cleanup by the timer, late acknowledgement and its restore leave a stranded exit. |
| ExitPatches.AcknowledgedExitLands | src/core-runtime.js:2487-2570 | After an acknowledged exit every field of the answer and its restore, the exit's own excepted, stands in the snapshot, and every other is unchanged. |
| ExitPatches.AnswerWithoutDataLands | src/core-runtime.js:2550-2570 | The same for an exit answered without data, the exit's own fields included. |
| ExitPatches.ForcedCleanupLands | src/core-runtime.js:541-576 | What the restore of the forced cleanup reports stands in the exited snapshot; without a restore nothing it carries changes. |
| ExitPatches.EndingStepLands | src/core-runtime.js:2447-2570 | Whichever step of the flow ends an exit, what it brings stands in the snapshot, beside what was there. |
| ExitPatches.OrdinaryExitReleasesTheKiosk | src/core-runtime.js:2487-2498 | After an exit whose restore reports the kiosk gone the exit is settled and the snapshot says so. |
| ExitPatches.RequestedExactly | src/core-runtime.js:663-680 | Every field, the lock, the timers and the generations after an exit request. |
| ExitPatches.ExitingExactly | src/core-runtime.js:682-694 | Every field, the lock and the timers after the exiting state is entered. |
| ExitPatches.ExitedFields | src/core-runtime.js:696-719 | The exited state resets its own fields and carries the others along. |
| ExitPatches.AudioTimerReleasesExactly | src/core-runtime.js:502-518 | The audio timer releases the audio lock exactly while its own exit is exiting, and changes no other field. |
| ExitPatches.StatusLands | src/core-runtime.js:590-608 | Each patch of the flow brings the governor's validation: its record, the safe mode and whether it passed. |
| MonitorLoop.OneCurrentTick | src/core-runtime.js:721-895 | In every run the in-flight flag is up exactly while one pending tick has the current generation, never two, and no answer to a request made before a stop or an exit patches the snapshot. |
| MonitorLoop.AnswerUsedExactly | src/core-runtime.js:826-831 | In every run an answer is used exactly if nothing stopped the loop since its request. |
| MonitorLoop.TickAsksExactly | src/core-runtime.js:731-796 | In a monitored exam a tick asks exactly if it is connected and nothing is outstanding, and changes no field. |
| MonitorLoop.AnswerLands | src/core-runtime.js:848-862 | What a current answer reports stands in the snapshot, the state if it is a string and every field no lock keeps. |
| MonitorLoop.AnswerLetsTheLoopGoOn | src/core-runtime.js:826-894 | After any answer but a lost connection the timer stays armed and the next tick asks again. |
| MonitorLoop.LostConnectionStops | src/core-runtime.js:833-846 | A lost connection stops the loop and is noted with its error. |
| MonitorLoop.LoopEndsOutsideTheExam | src/core-runtime.js:744-783 | Outside the confirmed exam and the entering of the kiosk a tick ends the loop. |
| MonitorLoop.StartAsks | src/core-runtime.js:897-937 | Starting the loop in a monitored exam arms the timer and asks at once. |
| Preload.Replica.ApplyRuntimeSnapshot | src/preload.js:57-89 | A snapshot of the same governor without a greater sequence id is discarded, any other is merged. |
| Preload.NeverGoesBack | src/preload.js:66-81 | From one governor the replica's sequence id never goes down. |
| Preload.AppliedExactly | src/preload.js:57-89 | Between numbered snapshots of one governor exactly the newer are merged; those of another always are. |
| Preload.Converges | src/preload.js:57-89 | For any order, loss and duplication of complete snapshots the replica ends as the delivered one with the greatest sequence id. |
| Preload.RendererConverges | src/core-runtime.js:951-953 | The same for the snapshots a runtime publishes. |
| Sidecar.Transport.MakeRequest | src/rust-sidecar.js:336-403 | Not connected, duplicate id and failed write each resolve the promise at once; otherwise the request waits with its timer. |
| Sidecar.Transport.CleanupPendingRequests | src/rust-sidecar.js:72-85 | The loop resolves every pending request with the error and empties the table. |
| Sidecar.Transport.HandleCoreMessage | src/rust-sidecar.js:87-99 | A message settles the request pending under its id, or nothing. |
| Sidecar.Transport.HandlePipeLine | src/rust-sidecar.js:116-130 | A rejected frame or a throwing event handler ends all pending requests. |
| Sidecar.Transport.OnTimeout | src/rust-sidecar.js:364-373 | The timer's callback removes what is pending under its id and resolves its own promise. |
| Sidecar.Transport.OnChildEnd | src/rust-sidecar.js:147-178 | Disconnected, and every pending request resolved with the error. |
| SidecarLaws.FireSettlesItsOwn | src/rust-sidecar.js:364-373 | A timer that is still armed always finds its own request under its id. |
| SidecarLaws.EveryRequestIsAccountedFor | src/rust-sidecar.js:72-178 | In every run issued requests are the pending and the resolved ones, each once; pending ids and armed timers correspond; a message resolves only its own id. |
| SidecarLaws.ResolvedExactlyOnce | src/rust-sidecar.js:336-403 | Once no timer is armed every request has been resolved exactly once. |
| SidecarLaws.NeverResolvedTwice | src/rust-sidecar.js:336-403 | At every moment each issued request is pending or resolved, exactly one of the two and once. |
| SidecarLaws.MessageSettlesItsOwn | src/rust-sidecar.js:87-99 | A message under a pending id settles that one request, with its own body, and disarms its timer; any other settles nothing. |
| SidecarLaws.EndResolvesAll | src/rust-sidecar.js:147-178 | The end of the connection, whatever ends it, leaves nothing pending and gives every pending request the error that belongs to it, in the order of their making. |
| SidecarLaws.PipeLineExactly | src/rust-sidecar.js:116-130 | A line fails all pending requests exactly if it is rejected or is an event nobody waits for whose handler throws. |
| SidecarLaws.RequestMeetsExactly | src/rust-sidecar.js:336-403 | Whether a new request waits, and otherwise which error it gets at once. |
| EmergencyWidget.Controller.Sync | rust-core/src/emergency_widget.rs:155-185 | Showing, hiding and what each resets. |
| EmergencyWidget.Controller.BeginHold | rust-core/src/emergency_widget.rs:188-195 | A hold begins exactly if the widget is visible. |
| EmergencyWidget.Controller.Cancel | rust-core/src/emergency_widget.rs:198-205 | Cancels exactly in the state "holding". |
| EmergencyWidget.Controller.Complete | rust-core/src/emergency_widget.rs:208-240 | A request exactly if a hold was started, lasted long enough and the widget has an id. |
| EmergencyWidget.Controller.Validate | rust-core/src/emergency_widget.rs:242-310 | The first failing check is the reason; an accepted nonce joins the set, which stays the greatest of all ever accepted. |
| EmergencyWidget.Controller.Remember | rust-core/src/emergency_widget.rs:295-300 | The eviction loop keeps the 64 greatest. |
| GreatestNonces.GreatestIsUnique | rust-core/src/emergency_widget.rs:295-300 | Only one set holds the k greatest elements, so the loop's result is determined. |
| EmergencyWidgetLaws.NoncesAreTheGreatest | rust-core/src/emergency_widget.rs:288-300 | After any run the set holds the 64 greatest nonces ever accepted, or all of them. |
| EmergencyWidgetLaws.LastOnesCannotBeReplayed | rust-core/src/emergency_widget.rs:288-300 | If accepted nonces ascended, a request that passes the other checks is refused as a replay exactly if its nonce is one of the last 64. |
| EmergencyWidgetLaws.EveryRequestWasHeld | rust-core/src/emergency_widget.rs:188-240 | In every run each request comes from one hold of at least the required duration, directly before it, and a hold makes at most one. |
| EmergencyWidgetLaws.CancelForgetsExactly | rust-core/src/emergency_widget.rs:198-205 | Letting go forgets the hold exactly in the state "holding". |
| EmergencyWidgetLaws.ReleasedHoldStillCounts | rust-core/src/emergency_widget.rs:198-240 | After a refused request a released hold still becomes a request once the time is over. |
| EmergencyWidgetLaws.AcceptedExactly | rust-core/src/emergency_widget.rs:242-293 | A request is accepted if and only if policy, state, reason, session, runtime, proof of protection, age, nonce and widget all fit, each spelled out. |
| EmergencyWidgetLaws.OnlyCheckedRequestsAreAccepted | rust-core/src/emergency_widget.rs:242-310 | In every run the nonces accepted are exactly those of the requests that met that condition when they were made. |
| EmergencyWidgetLaws.HoldCompletesExactly | rust-core/src/emergency_widget.rs:208-240 | In every run the button makes a request exactly if the open hold lasted long enough and the widget has an id, and the request carries that id, the time and a fresh attempt number. |
| EmergencyWidgetLaws.SyncShowsExactly | rust-core/src/emergency_widget.rs:155-185 | After a synchronisation the widget is visible exactly if it should be, with new ids exactly when it appears. |
| AccessibilityGuard.Guard.ApplySnapshot | rust-core/src/accessibility_guard.rs:263-273 | The three writes in order, stopping at the first that fails, with every durable state in between. |
| AccessibilityGuard.Guard.PersistBackup | rust-core/src/accessibility_guard.rs:120-151 | The backup appears whole, by the rename, or not at all, and never replaces one. |
| AccessibilityGuard.Guard.RemoveBackup | rust-core/src/accessibility_guard.rs:157-171 | Succeeds without a backup, otherwise exactly if the removal does. |
| AccessibilityGuard.Guard.UndoChange | rust-core/src/accessibility_guard.rs:386-390 | The original settings are written back, and only if that works the backup is removed. |
| AccessibilityGuard.Guard.ActivateGuard | rust-core/src/accessibility_guard.rs:300-400 | Result, guard and every durable state on the way, for every combination of failing operations. |
| AccessibilityGuard.Guard.DeactivateGuard | rust-core/src/accessibility_guard.rs:402-451 | The same for deactivation. |
| AccessibilityGuard.Guard.RecoverAfterUncleanShutdown | rust-core/src/accessibility_guard.rs:453-534 | The same for recovery, for any answer about the backup's owner. |
| AccessibilityLaws.NeverLosesTheSettings | rust-core/src/accessibility_guard.rs:300-534 | In every run, with any write failing and crashes between any two steps, the original settings are in force or in the backup. |
| AccessibilityLaws.ActivatesOnlyFromOriginal | rust-core/src/accessibility_guard.rs:345-385 | A guard newly in force holds the original settings, the backup holds them and the shortcuts are off. |
| AccessibilityLaws.BackupNeverOverwritten | rust-core/src/accessibility_guard.rs:120-129 | A call leaves a backup alone or removes it with the original settings in force; an activation that finds one changes nothing durable. |
| AccessibilityLaws.RecoveryReportIsTrue | rust-core/src/accessibility_guard.rs:511-533 | A recovery that reports success has restored the original settings and removed the backup. |
| AccessibilityLaws.RecoverySucceeds | rust-core/src/accessibility_guard.rs:453-534 | After any run a recovery without faults succeeds exactly if there is no backup, or its version is known and its owner is gone. |
| AccessibilityLaws.DeactivationReportExactly | rust-core/src/accessibility_guard.rs:415-450 | A deactivation that reports success has restored the settings exactly if the guard was in force, or there is no backup, or the settings in force are the backup's. |
| AccessibilityLaws.DeactivationCanMisreport | rust-core/src/accessibility_guard.rs:386-421 | A run in which deactivation reports success with a shortcut still off. |
| AccessibilityLaws.OwnBackupBlocksEverything | rust-core/src/accessibility_guard.rs:202-215 | With a backup of its own and no guard, no call of a process changes anything durable. |
| AccessibilityLaws.BackupRoundTrip | rust-core/src/accessibility_guard.rs:56-99 | The backup gives back exactly the settings it was made from. |
| AccessibilityLaws.OnlyTheHotkeyBits | rust-core/src/accessibility_guard.rs:248-261 | The two shortcut bits are cleared and no other bit is touched. |
| AccessibilityLaws.DisabledExactly | rust-core/src/accessibility_guard.rs:248-261 | In all three flag words the two shortcut bits are clear and every other bit, and the filter's four times, are kept. |
| AccessibilityLaws.ActivationTurnsShortcutsOff | rust-core/src/accessibility_guard.rs:373-385 | An activation that reports success has done that to the settings in force. |
| AccessibilityLaws.ActivationSucceedsExactly | rust-core/src/accessibility_guard.rs:314-399 | An activation succeeds exactly if a guard is in force, or there is no backup and no operation of it fails. |
| AccessibilityLaws.ActivationNamesItsOwner | rust-core/src/accessibility_guard.rs:120-151 | A new guard's backup names the process that activated it. |
| AccessibilityLaws.DeactivationSucceedsExactly | rust-core/src/accessibility_guard.rs:402-451 | A deactivation succeeds exactly if no guard is in force, or its writes do and the backup is gone after it. |
| AccessibilityLaws.OwnerIsAliveExactly | rust-core/src/accessibility_guard.rs:202-215 | The owner counts as alive exactly if there is such a process that started when the backup says, where it says so. |
| AuditChain.VerifyChain | rust-core/src/audit_log.rs:231-285 | Valid exactly if every line parses and the records chain, with their count and last hash; otherwise it names the first bad record, and everything before it is a valid chain. |
| AuditChain.TamperEvidence | rust-core/src/audit_log.rs:405-429 | Two logs that verify and report the same last hash agree record for record from the end; of equal length they are equal. |
| AuditChain.LastHashDeterminesAll | rust-core/src/audit_log.rs:405-429 | A chain from null is determined by its last hash alone. |
| AuditLog.AuditFiles.AppendEvent | rust-core/src/audit_log.rs:172-215 | Read the last hash, rotate, write, queue: the files after a failure or crash at each of these points, lines cut off in either file included. |
| AuditLog.AuditFiles.ReadPendingRecords | rust-core/src/audit_log.rs:453-469 | The loop reads the queue exactly if every line of it is a record. |
| AuditLog.AuditFiles.ReadLastAuditHash | rust-core/src/audit_log.rs:431-451 | The loop looks only at the last line that is not blank. |
| AuditLog.AuditFiles.RotateIfNeeded | rust-core/src/audit_log.rs:497-507 | A full file is sealed under the timestamp, in place of a segment already there. |
| AuditLog.AuditFiles.DrainBatch | rust-core/src/audit_log.rs:287-306 | An error exactly if the queue cannot be read; otherwise a prefix of it of length min(clamp(limit, 1, 100), depth), and nothing is removed. |
| AuditLog.AuditFiles.AcknowledgeBatch | rust-core/src/audit_log.rs:308-323 | The records named are removed and the others keep their order; the count is returned only if the reading, the rewrite and the last-upload marker all succeed, and a failing marker leaves the queue rewritten. |
| AuditLog.AuditFiles.RecordUploadFailure | rust-core/src/audit_log.rs:325-348 | Exactly the records named are updated and counted; an unreadable queue and a failed rewrite are errors and change nothing. |
| AuditLaws.FilesAlwaysVerify | rust-core/src/audit_log.rs:172-285 | After any run whose writes to the log are not cut off in a line, the current file and every sealed segment verify. |
| AuditTears.SegmentsAlwaysVerify | rust-core/src/audit_log.rs:497-507 | Sealed segments verify after every run, lines cut off included. |
| AuditTears.SoundExactly | rust-core/src/audit_log.rs:490-495 | Over whole runs every file stays intact and ends its lines if and only if no append is cut off in a line. |
| AuditTears.AppendIntactExactly | rust-core/src/audit_log.rs:172-215 | An append leaves the current file intact exactly if it neither writes part of a record nor onto a line that lacks its line feed. |
| AuditTears.IntactExactly | rust-core/src/audit_log.rs:172-285 | Over whole runs the current file verifies, and can be appended to, if and only if no append did so. |
| AuditLaws.AppendContinuesExactly | rust-core/src/audit_log.rs:180-201 | With injective hashes, an append keeps segments and current file one chain from null that the next one extends exactly if it does not fail behind its rename, is not cut off in a line of the log and reuses no sealed timestamp. |
| AuditLaws.OneChainExactly | rust-core/src/audit_log.rs:172-215 | The same over whole runs, both directions, whatever fails in them. |
| AuditLaws.LogFormsOneChain | rust-core/src/audit_log.rs:172-215 | A log that starts empty is one chain from null after every run without such an append. |
| AuditLaws.FailedRotationBreaksTheChain | rust-core/src/audit_log.rs:180-183 | After such a failure the next record written does not link to the sealed ones. |
| AuditLaws.TornRecordWedges | rust-core/src/audit_log.rs:431-451 | Whatever the log held, after a record cut off in the middle no append ever succeeds and the log never changes. |
| AuditLaws.MissingLineFeedRuinsTheNext | rust-core/src/audit_log.rs:490-495 | After a record without its line feed the next append reports success and leaves a file that neither verifies nor can be appended to. |
| AuditRecords.AppendOfAll | rust-core/src/audit_log.rs:172-215 | An append keeps all records in the files, its own included, exactly if its rotation replaces no segment and it does not write behind a record that lacks its line feed. |
| AuditRecords.NothingIsLostExactly | rust-core/src/audit_log.rs:490-507 | Over whole runs with every kind of failed write: the files hold what they held and every record written, in order, if and only if every append did so. |
| AuditRecords.CutLineLosesBoth | rust-core/src/audit_log.rs:490-495 | A record without its line feed and the next one, reported as appended, then stand in no file. |
| AuditContents.WrittenRecordCarriesTheEvent | rust-core/src/audit_log.rs:180-202 | An append that writes whole onto a line of its own leaves as last line a record with its event's id and body, its own digest, and the hash of the line before. |
| AuditContents.FilesTellTheEvents | rust-core/src/audit_log.rs:172-215 | Over whole runs that lose no record the files tell the id and body of exactly the events that were written, in their order. |
| AuditContents.RotationSealsExactly | rust-core/src/audit_log.rs:497-507 | A rotation seals the current lines under the event's timestamp and keeps every segment of another one. |
| UploadQueue.AppendReadsExactly | rust-core/src/audit_log.rs:202-213 | After an append a readable queue can still be read exactly if the append is not cut off within its record there and does not write behind a record that lacks its line feed. |
| UploadQueue.QueueIsConserved | rust-core/src/audit_log.rs:202-348 | Over whole runs the queue can be read if and only if no append garbled it, and then it is, in append order, what was there and what was queued without what was acknowledged later. |
| UploadQueue.GarbledForGood | rust-core/src/audit_log.rs:453-469 | A garbled queue is never read again, while the log and what appends report are the same as with an empty queue. |
| UploadQueue.QueueFollowsTheWrites | rust-core/src/audit_log.rs:201-213 | The queue's events are a subsequence of the records written to the log, even with crashes between the two file appends. |
| UploadQueue.QueueFollowsTheFiles | rust-core/src/audit_log.rs:201-213 | As long as no append loses records, the queue's events stand in the files, in their order. |
| UploadQueue.QueuedButInNoFile | rust-core/src/audit_log.rs:490-495 | Otherwise a queued event may stand in no file: one written behind a line without its line feed. |
| UploadQueue.FailureKeepsEvents | rust-core/src/audit_log.rs:325-348 | Recording a failure keeps the events and their order, counts attempts up to the maximum and sets the next retry within a minute after it. |
| AuditContents.QueuedUploadCarriesTheEvent | rust-core/src/audit_log.rs:203-213 | A queued upload carries its event's record, due at once, with no attempt made, behind the ones waiting. |
| AuditContents.AcknowledgedExactly | rust-core/src/audit_log.rs:313-319 | An acknowledgement removes every upload that is named and none that is not. |
| AuditContents.FailureReportedExactly | rust-core/src/audit_log.rs:337-345 | Each named upload counts one more attempt, the reason and its next try; one that is not named is unchanged. |
| AuditContents.BackoffExactly | rust-core/src/audit_log.rs:522-533 | The delay starts at a second and doubles with each attempt up to a minute. |

## Left out

- JsonNumbers.ReadNumberOfText: takes a number as its sign, shortest digits and exponent; that JavaScript finds the shortest digits of a binary64 value is not modelled.
- IpcChannel.OrderedAtMostOnce: is about v2 frames, the only ones the desktop's factory makes; v1 frames are covered by `IpcReplays`.
- FrameVerifier.Verifier.VerifyFrame: takes frames whose fields have their declared types and natural timestamps and sequences; the checks that reject other types are not modelled.
- GovernorLaws.GovernorIsConsistent: assumes callbacks that return and make finitely many calls; a reducer that throws or never stops calling, malformed events and ids beyond 2^53 are not modelled.
- ExitFlowRuns.RestsSettledExactly: assumes that patches from outside leave the exit flags alone once the exit is over; a `force_restore_desktop` without explicit intent, a new start and stopping the whole runtime are not part of the run.
- EmergencyWidget.Controller.Validate: the texts of errors and results are reduced to reasons; the attempt counter is unbounded.
- AccessibilityLaws.NeverLosesTheSettings: the user changes settings only while no guard and no backup exist, and only one process uses the guard at a time.
- AuditLog.AuditFiles.AppendEvent: the file size enters only as whether it has reached its maximum; read errors other than unreadable lines are not modelled.
- AuditChain.TamperEvidence: compares records up to the canonical text of their content.
- Preload.Converges: snapshots are complete records over one set of fields; a second governor (a restarted runtime) takes over the replica whatever its sequence ids.
- RuntimeModel: `contracts/safe-exam` is not part of this model; normalising a complete snapshot is the identity, and of all session states only those the modelled code compares are named.
- Stopping the transport, starting the child process and connecting the pipe (`src/rust-sidecar.js:183-334`, `405-450`) enter only as events.
- HMAC, SHA-256, Ed25519, base64 and constant-time comparison are parameters.
- Evaluation rules, ETW and collectors, capture, clipboard, focus, input and display guards, windows and logging are platform calls or tables that one reading settles.
- The bootstrapper's heartbeat, restart budget and desktop session are small state tables.
