# Verified model of TermRecall

TermRecall records what runs in a user's terminals, keeps it in checkpoint files, and reopens the terminals after a
crash. This project models its four protocols in Dafny and proves what they promise.

Check everything with `dafny verify dfyconfig.toml`.

## The system

**Restore.** A recovery record lives in one file. List, execute, retry and discard requests run concurrently over it
under a lock for each workspace, a dispatch lock that is given up while terminals are launched, and the store's own
lock. Finishing a workspace writes a tombstone file and then unlinks the record.
`RecoveryRecord` is the record and its growth; `RecoveryStore` is the store as a class over its files, with every
operation also given as the list of directories it passes through, so that a crash is a cut of that list;
`RestoreProtocol` is the transition system of tasks, locks, files, the checkpoint writer and crashes; `RestoreSafety`
and `RestoreProgress` prove its properties over every run, and `LaunchAccounting` accounts for everything launches report.
`RestoreDecisions` says what a request decides: which items it launches, under which attempt id, what a retry or a
repetition leads to, and what an answer means on disk; `RestoreAnswers` covers the other answers.
`TerminalLaunch` and `LaunchCoverage` fill in the launch: directory fallback, the gnome-terminal and ghostty plans, their
outcomes, and the server's check of them. `LaunchCommands` is what the plans ask for, word by word, and `LaunchOutcomes`
what becomes of each item, from its command line to the committed record.

**Capture.** A bridge in each shell sends numbered events under a capability. `EngineState` is the service's reducer,
`Bridge` the bridge as a class, and `CaptureProtocol` both of them over a network that delays, loses and duplicates
and on which an abandoned request stays in flight. `EngineHistory` characterizes the engine by the inputs it has accepted,
`CaptureDirectory` carries that to the protocol, and `CaptureBackoff` says when a bridge keeps still. `FrameReader` is the
bounded reader in front of the bridge.

**Durability.** `CheckpointNames`, `CheckpointStore` and `CheckpointSafety` are the checkpoint directory: names, atomic
replace, pruning, loading. `CheckpointManager` is the write scheduler as a class, `CheckpointLoop` its run loop
interleaved with marks and flushes, `CheckpointTiming` when it writes, by failures, marks, flushes and stop requests, and
`DurabilityPipeline` puts engine, scheduler, files and crashes together;
`DurabilityStates` shows that a restart continues with a state the engine was in, `DurabilityLimits` exactly when the
promise fails.

**Installation.** `SetupTransaction` is the setup transaction as lists of file-system steps: staged generation,
integration files, links, manifest, rollback and cleanup. `SetupInstaller` runs it as the code does, with a failure
before or after any call. `MarkerEncoding` is the generation marker's
JSON, `BashrcBlock` the byte transform of `.bashrc`, `BashrcMigration` its migration of the older block and everything it
accepts, `PathQuoting` its quoting as the shell reads it.

**Classification.** `ShellWords` is the quoting structure of a command line by section 2.2 (Quoting) of POSIX.1-2017
Shell Command Language, `QuoteScanner` the parser that scans it and splits it with shlex, and `CommandPolicy` what that
lets through, measured against the shell's operators, parameters and assignments.

Where the source mutates objects, the model is a class whose methods are proved against functions of the old state,
and the properties are proved about those functions. Where the source computes values, the model is functions.

## Where the code does less than expected

Each of these is proved, with the exact condition under which the property does hold and an input on which it fails.

- Attempt ids are deterministic. Repeating an execute whose items all failed launches again and is refused at commit,
  whatever the second launch reports (`RestoreSafety.RepeatedExecuteIsRefused`); a commit finds its record in every case
  (`RestoreSafety.CommitFindsItsRecord`). An item can thus be started twice with success, but only after the first
  success was lost (`LaunchAccounting.LaunchedAgainOnlyAfterALoss`).
- A tombstone file holds one workspace id. Once overwritten, an old id that is installed again is loaded again
  (`RecoveryStore.EndedStaysEnded`, `RecoveryStore.OverwrittenTombstoneRevives`).
- The store alone lets an item be completed twice; what prevents it is the server's filter
  (`RecoveryRecord.CommitKeepsSettled`, `RecoveryRecord.StoreAcceptsSecondSuccess`).
- A snapshot request is refused when the service has loaded a checkpoint and accepted nothing since
  (`DurabilityPipeline.SnapshotRefusedExactly`, `DurabilityLimits.LoadedServiceRefusesSnapshot`).
- An answered snapshot is lost if a readable file is named above the next generation
  (`DurabilityLimits.AnswersSurviveExactly`, `DurabilityLimits.MisnamedFileLosesAnswers`).
- A generation of 10^20 or more is written under a name no reader recognizes
  (`CheckpointSafety.UncoveredGenerationIsNeverRead`).
- Rollback cannot delete the new generation if its path or the install id has a character beyond `~`, DEL included: the
  marker is written with such characters escaped and accepted for deletion only without escapes
  (`MarkerEncoding.CanonicalExactly`, `SetupTransaction.RollbackRestores`,
  `SetupTransaction.AccentedRootIsNotRolledBack`).
- Rollback restores a file captured with mode 0, which only the superuser can capture, with mode 0600
  (`SetupTransaction.RollbackRestores`, `SetupTransaction.ModeZeroIsNotRolledBack`).
- Enabling completes an unterminated marker at the end of `.bashrc`, and disabling then refuses
  (`BashrcBlock.RoundTrip`, `BashrcBlock.UnterminatedMarkerIsRefused`).
- The gnome-terminal plan leaves items with a missing directory out of every action when others are present, and the
  server then refuses the whole attempt (`LaunchCoverage.CommittedUnlessMixed`,
  `LaunchCoverage.VanishedDirectoryIsRefused`).
- The grouped gnome-terminal command line puts the words of every later tab behind the `--` of the first command, where a
  program that ends its options at `--` (guideline 10 of the Utility Syntax Guidelines of POSIX.1-2017) takes them for
  that command's; a status of 0 still reports all items as restored (`LaunchCommands.EveryTabIsAskedForExactly`,
  `LaunchOutcomes.SwallowedTabIsReported`).
- A leading assignment is refused only if its value holds no newline (`CommandPolicy.FirstWordAssignsNothing`,
  `CommandPolicy.NewlineAssignmentIsAccepted`).
- shlex and the shell read different words from an unquoted carriage return and from a double-quoted backslash before
  `$`, a backquote or a newline (`QuoteScanner.ReadingsAgree`, `QuoteScanner.AcceptedButReadOtherwise`).
- A loaded snapshot may hold two shells of one id, and nothing the engine does removes them
  (`EngineState.RunsKeepEngineOk`).

## Model

| member | source | states |
|---|---|---|
| `RecoveryRecord.CommitCounts` | src/termrecall/store.py:199-241 | A commit adds to each item's count of final outcomes exactly those of the new attempt |
| `RecoveryRecord.CommitRevalidates` | src/termrecall/store.py:225-241 | The record a commit builds always passes the record's own checks, so constructing it never fails |
| `RecoveryRecord.CommitKeepsSettled` | src/termrecall/model.py:202-221 | Each item ends at most once and the completed list is exactly the ended items, after a commit, if and only if no final outcome names a completed item |
| `RecoveryRecord.StoreAcceptsSecondSuccess` | src/termrecall/store.py:199-241 | A commit that ends a completed item again, which the store accepts |
| `RecoveryRecord.FreshIsSettled` | src/termrecall/recovery.py:186-198 | A newly reconciled record has that property |
| `RecoveryStore.RecoveryStore.LoadRecovery` | src/termrecall/store.py:119-134 | Loading unlinks a tombstoned record and returns none, else the record, with the files passed through on the way |
| `RecoveryStore.RecoveryStore.WriteRecovery` | src/termrecall/store.py:140-150 | A record is installed only where no file is, and refused if its JSON exceeds the size limit |
| `RecoveryStore.RecoveryStore.CommitOutcomes` | src/termrecall/store.py:199-241 | The loop over outcomes stores exactly the committed record or refuses, checks in the code's order, the size limit last |
| `RecoveryStore.RecoveryStore.CompleteOrDiscard` | src/termrecall/store.py:247-274 | Tombstone first, then unlink; refused for another workspace or an unfinished one |
| `RestoreDecisions.FinishesExactly` | src/termrecall/store.py:247-274 | A workspace is finished if and only if it is the one stored and each of its items is completed, or it is discarded; else it is refused for the first reason that applies |
| `RestoreDecisions.InstallsExactly` | src/termrecall/store.py:140-150 | A record ends up stored where none was, unless it exceeds the size limit, and nothing stored is touched |
| `RestoreDecisions.NothingBuriedIsLeft` | src/termrecall/store.py:119-134 | After any other operation no record that a tombstone names is left |
| `RecoveryStore.CrashIsAtomic` | src/termrecall/store.py:424-479 | Wherever any operation stops, a reader sees what it saw before or what it sees after |
| `RecoveryStore.CrashDuringFinish` | src/termrecall/store.py:247-274 | Reopening after a crash in complete-or-discard yields the untouched record, or none and an unlinked file |
| `RecoveryStore.EndedStaysEnded` | src/termrecall/store.py:511-520 | Over any run with crashes no ended workspace is loaded again, if and only if every reinstall of one happens while a tombstone file still names it |
| `RecoveryStore.FreshIdsStayEnded` | src/termrecall/store.py:501-520 | In particular if installs use ids that never ended |
| `RecoveryStore.OverwrittenTombstoneRevives` | src/termrecall/store.py:511-520 | Two discards later the first workspace can come back |
| `RestoreSafety.StepKeepsInv` | src/termrecall/server.py:408-422 | Every step of every task, the writer, an arrival or a crash keeps lock ownership, decisions and the stored record consistent |
| `RestoreSafety.OnePinned` | src/termrecall/server.py:509-741 | No two tasks hold a decision on the record at once, for any workspaces |
| `RestoreSafety.CommitFindsItsRecord` | src/termrecall/server.py:675-722 | In every interleaving, the stored record at commit is the one loaded before the launch, and the commit succeeds if and only if the attempt id is new, the list not full and the grown record within the size limit |
| `RestoreSafety.OnlyOpenItemsAreLaunched` | src/termrecall/server.py:585-592 | Whatever is being launched is known, distinct and stored as never ended, and nothing else is being launched |
| `RestoreSafety.StoredRecordsAreSettled` | src/termrecall/model.py:202-221 | In every reachable state, mid-operation and after crashes, the file ends each item at most once and lists exactly the ended items |
| `RestoreSafety.RepeatedExecuteIsRefused` | src/termrecall/recovery.py:240-256 | The same execute after all items failed launches again and is refused at commit, whatever the second launch reports; a retry of it is not |
| `RestoreDecisions.SameIdExactly` | src/termrecall/recovery.py:240-256 | Two launches get one attempt id if and only if they agree on workspace, items, approvals, adapter and the attempt they retry, if any |
| `RestoreDecisions.RetryIsRefusedOnlyAfterARetry` | src/termrecall/server.py:648-653 | A retry is refused for its id only if an earlier attempt was itself a retry of the same attempt |
| `RestoreDecisions.FailedExecuteCanBeRetried` | src/termrecall/server.py:618-653 | A first execute whose items all failed, then its retry: the same items are launched, and whatever is reported of them is committed if and only if the grown record is within the size limit |
| `RestoreDecisions.ExecuteDecides` | src/termrecall/server.py:569-616 | An execute launches if and only if it names known items of the stored workspace, each once, approves only those and one of them is open; then exactly the open ones with exactly their approvals |
| `RestoreDecisions.RetryDecides` | src/termrecall/server.py:618-653 | The same for a retry: exactly the items its attempt skipped or failed that are still open |
| `RestoreDecisions.RetryRefusedFor` | src/termrecall/server.py:618-647 | A retry that launches nothing is told the first reason that applies |
| `RestoreDecisions.RetryableExactly` | src/termrecall/server.py:638-643 | An item is offered again if and only if it was skipped or failed and has not been completed since |
| `RestoreDecisions.SuccessfulExecuteIsIdempotent` | src/termrecall/server.py:593-616 | Repeating an execute that succeeded for all its items launches nothing and answers the same attempt, finishing a completed workspace first |
| `RestoreDecisions.RepeatedExecuteDecides` | src/termrecall/server.py:593-615 | An execute of completed items only is answered with the attempt that completed them under the same approvals, finishing a complete workspace first, or refused |
| `RestoreDecisions.LastMatchingExactly` | src/termrecall/server.py:655-673 | The attempt answered is the last with the same id, items in any order and approvals |
| `RestoreDecisions.OtherDecisions` | src/termrecall/server.py:724-741 | A discard ends exactly the stored workspace; a list reconciles exactly when nothing is stored |
| `RestoreDecisions.CompletedExactly` | src/termrecall/store.py:227-235 | A commit completes exactly the items it reports a success or warning of |
| `RestoreDecisions.CompletedInOrder` | src/termrecall/store.py:227-230 | The completed list grows at its end, in the order of the outcomes |
| `RestoreDecisions.CommitRefusedFor` | src/termrecall/store.py:205-224 | A refused commit is told the first reason that applies, in the order of the code, the size limit last |
| `RestoreDecisions.EveryAnswerIsTrue` | src/termrecall/server.py:703-741 | In every run, an answer that restored or discarded says what is on disk when it is given |
| `RestoreAnswers.SnapshotsAreAnsweredDurable` | src/termrecall/server.py:488-493 | In every run, when a snapshot request is answered everything accepted by then is durable |
| `RestoreAnswers.DurableIsWhatWasWritten` | src/termrecall/checkpoint.py:155-180 | Over every run, what is durable is what the service had accepted when the last write that succeeded began |
| `RestoreAnswers.LaunchFaultsAreTold` | src/termrecall/server.py:675-722 | After a launch the commit follows exactly for outcomes of the selected items, each once; else the answer names the fault |
| `RestoreAnswers.ClippedExactly` | src/termrecall/server.py:699-702 | What is stored of a message is its first 160 characters; items and kinds stay |
| `RestoreProgress.NoDeadlock` | src/termrecall/server.py:363-372 | In every reachable state with an unanswered request some step is enabled |
| `RestoreProgress.EveryRequestIsAnswered` | src/termrecall/server.py:408-507 | Without new requests every run is bounded, and when it can go no further all requests are answered |
| `LaunchAccounting.ReportsAreAccountedFor` | src/termrecall/server.py:675-722 | Over any run, the successes launches report of an item are recorded, lost with their launch or still in flight |
| `LaunchAccounting.LaunchedAgainOnlyAfterALoss` | src/termrecall/server.py:585-592 | When an item is handed to the adapter again, every success reported for it before has been lost |
| `LaunchAccounting.OpenExactlyWhenAllLost` | src/termrecall/server.py:638-643 | An item is open, with nothing in flight, if and only if every success reported for it was lost; at most one is not |
| `TerminalLaunch.ResolveDirectory` | src/termrecall/recovery.py:158-173 | The loop over parents computes the directory characterized below |
| `TerminalLaunch.ResolvedIsDeepest` | src/termrecall/recovery.py:158-173 | It is the deepest usable ancestor, else home, else an error |
| `TerminalLaunch.GnomePlan` | src/termrecall/adapters/gnome.py:54-95 | The loop builds one action with a tab for each item whose directory exists |
| `TerminalLaunch.GhosttyPlan` | src/termrecall/adapters/ghostty.py:55-78 | The loop builds one action for each item |
| `TerminalLaunch.BuildActions` | src/termrecall/recovery.py:259-376 | Unsupported items get actions of their own, and the first unknown item or unusable home fails the whole |
| `TerminalLaunch.Execute` | src/termrecall/adapters/gnome.py:96-137 | The loop gives each item of each action one outcome, in order; which one is `LaunchOutcomes.OutcomesExactly` |
| `LaunchOutcomes.OutcomesExactly` | src/termrecall/adapters/gnome.py:96-137 | Of actions over distinct items, each item is reported a success if and only if its action has a command line that exited with 0, skipped if and only if it has none or the program was not found, else failed |
| `LaunchOutcomes.CompletedExactlyTheOpened` | src/termrecall/server.py:694-718 | A committed attempt newly completes exactly the items whose command line exited with 0 |
| `LaunchOutcomes.OnlyTheOpenableAreCompleted` | src/termrecall/adapters/ghostty.py:55-120 | And those only if the terminal was installed and their directory could be opened |
| `LaunchOutcomes.SwallowedTabIsReported` | src/termrecall/adapters/gnome.py:71-94 | Two items, the first with a command: one tab is asked for, and both are reported as restored |
| `LaunchCommands.PlanningFailsExactly` | src/termrecall/recovery.py:275-342 | Planning succeeds if and only if all items are known and each of a supported terminal has a usable ancestor directory or home |
| `LaunchCommands.PlanningErrorIsTheFirst` | src/termrecall/recovery.py:275-342 | The first item that violates this decides the error |
| `LaunchCommands.PlannedInOrder` | src/termrecall/recovery.py:275-342 | The planned items are those of supported terminals, all of them in order, with their nearest usable directory and their approved and installed command |
| `LaunchCommands.GnomeGroups` | src/termrecall/adapters/gnome.py:54-94 | One command line with a segment for each item that can be opened, in order, its directory and its wrapped command; its level; a warning for each other item; or none at all |
| `LaunchCommands.GhosttyOpensEach` | src/termrecall/adapters/ghostty.py:55-78 | For each item a command line with its directory and its wrapped command, or none, with level and warnings |
| `LaunchCommands.CommandLineExactly` | src/termrecall/recovery.py:352-376 | An item of an attempt stands in a command line if and only if the terminal is installed, the item is planned and its directory can be opened |
| `LaunchCommands.MissingProgramIsNoted` | src/termrecall/recovery.py:366-375 | An action warns of a missing program if and only if it holds an item whose approved command has none |
| `LaunchCommands.EveryTabIsAskedForExactly` | src/termrecall/adapters/gnome.py:71-82 | Read up to the first `--`, a grouped command line asks for a tab for each of its items if and only if no item before the last has a command |
| `LaunchCommands.DirectoryReadsBack` | src/termrecall/adapters/gnome.py:74 | The directory in a command line reads back, name by name, as the one meant |
| `LaunchCoverage.GnomeCoversUnlessMixed` | src/termrecall/adapters/gnome.py:54-95 | The plan names each item exactly once if and only if no item or every item lacks its directory, or the terminal is missing |
| `LaunchCoverage.GhosttyCovers` | src/termrecall/adapters/ghostty.py:55-78 | The plan names the items in order, once each |
| `LaunchCoverage.ActionsCoverExactly` | src/termrecall/recovery.py:350-376 | With the unsupported items' actions the whole selection is covered if and only if the plan covers its part |
| `LaunchCoverage.CommittedExactlyWhenCovered` | src/termrecall/server.py:694-698 | The server's outcome check passes if and only if the actions cover the selection |
| `LaunchCoverage.EveryPlanIsCommitted` | src/termrecall/server.py:675-722 | On a quiescent file system with absolute paths, planning that succeeds always leads to a commit |
| `LaunchCoverage.CommittedUnlessMixed` | src/termrecall/server.py:694-698 | If directories can vanish, exactly when the plan is not a mixture |
| `LaunchCoverage.VanishedDirectoryIsRefused` | src/termrecall/adapters/gnome.py:54-95 | Two items, one directory gone by the time of planning: an internal error |
| `LaunchCoverage.PlanningSucceeds` | src/termrecall/recovery.py:259-276 | Known items and a usable home are enough for planning to succeed |
| `LaunchCoverage.NeverAWarning` | src/termrecall/adapters/ghostty.py:79-120 | These adapters report success, skip or failure only |
| `EngineState.ReplaceOrAppendShell` | src/termrecall/state.py:218-228 | The loop replaces the first record of the shell or appends one, and changes nothing else |
| `EngineState.RegisterKeepsEngineOk` | src/termrecall/state.py:64-134 | Registering keeps one record per shell, equal watermarks, distinct capabilities and snapshot generation equal to dirty generation |
| `EngineState.EventKeepsEngineOk` | src/termrecall/state.py:137-208 | So does an event; an active command carries the last command sequence; what an event stores is `EngineHistory.ShellIsItsHistory` |
| `EngineState.RunsKeepEngineOk` | src/termrecall/state.py:92-208 | So does every run from a loaded snapshot, if and only if the snapshot has no two shells of one id, which loading does not check |
| `EngineState.NothingIsReplayed` | src/termrecall/state.py:144-174 | Within one service run, over any registrations, accepted event and command sequences of a shell strictly increase |
| `EngineHistory.ShellIsItsHistory` | src/termrecall/state.py:64-208 | Over every run: a registered shell is stored with the directory of its last accepted registration, prompt or directory event, the last started command that did not end, and as exited exactly if an exit was accepted since; every other shell is as loaded |
| `EngineHistory.EventAcceptedExactly` | src/termrecall/state.py:137-198 | An event is accepted if and only if it comes from the last registration of a shell not exited, with a higher sequence and fitting command number |
| `EngineHistory.EventRefusedFor` | src/termrecall/state.py:144-183 | Otherwise it is told the first reason that applies, which is never a missing shell |
| `EngineHistory.RegistrationAcceptedExactly` | src/termrecall/state.py:64-134 | A registration is accepted if and only if it starts at 0, names a supported terminal and its own process, brings a capability no other shell holds, and there is room |
| `EngineHistory.RegistrationRefusedFor` | src/termrecall/state.py:64-134 | Otherwise it is told the first reason that applies |
| `Bridge.Bridge.Register` | src/termrecall/bridge.py:115-146 | An acceptable registration reply sets capability and sequence and clears the backoff; any other changes nothing |
| `Bridge.Bridge.FailExchange` | src/termrecall/bridge.py:75-80 | A failure drops the capability, keeps the sequence and advances the backoff up to its last delay |
| `Bridge.Bridge.ProcessFrame` | src/termrecall/bridge.py:166-193 | A frame is delivered only under its own acknowledged sequence; sent but not delivered leaves the sequence where it was and no capability |
| `CaptureProtocol.FrameIsProcessFrame` | src/termrecall/bridge.py:166-193 | The protocol's bridge steps together are one call of the class method |
| `CaptureProtocol.StepKeepsInv` | src/termrecall/server.py:427-453 | Every network, bridge or service step keeps sessions ordered, grants unique and both ends in step |
| `CaptureProtocol.AcceptedEventsAreASubsequence` | src/termrecall/state.py:144-174 | Under any delay, loss, duplication, reconnect or restart the applied events are the frames in order, without repeats |
| `CaptureProtocol.QuietBridgeIsInStep` | src/termrecall/bridge.py:115-193 | A bridge with the current capability and nothing outstanding continues at the watermark plus one |
| `CaptureDirectory.StoredShellIsItsEffects` | src/termrecall/state.py:185-208 | Over every run of bridge, network and service: the stored shell is the last registration followed by the events accepted since, or as loaded |
| `CaptureDirectory.QuietBridgeIsStoredRight` | src/termrecall/bridge.py:166-193 | A bridge with the current capability and nothing outstanding has the shell stored in the directory of the last frame that named one, on a clock that never reads below 0 |
| `CaptureBackoff.ExchangesWaitExactly` | src/termrecall/bridge.py:75-80 | A frame starts an exchange if and only if a directory is known and the delay for the failures in a row, counted from the last, has passed |
| `FrameReader.Reader.ReadLine` | src/termrecall/bridge.py:204-218 | A bounded readline returns the longest prefix up to a newline, the limit or the end |
| `FrameReader.Reader.DiscardToNewline` | src/termrecall/bridge.py:195-202 | It consumes exactly the rest of the current line |
| `FrameReader.Reader.Run` | src/termrecall/bridge.py:204-218 | For every input it terminates, having handed over exactly the terminated lines of at most 4096 bytes, in order |
| `FrameReader.LinesAreTheOnlyCut` | src/termrecall/bridge.py:204-218 | The lines meant are the only way to cut the input into lines and an unterminated rest |
| `FrameReader.LinesMakeUpTheText` | src/termrecall/bridge.py:204-218 | Together with that rest they are the whole input |
| `FrameReader.FramesInOrder` | src/termrecall/bridge.py:204-218 | The frames are those of the lines, in their order |
| `CheckpointNames.NameOrder` | src/termrecall/store.py:567-576 | Padded names order like their generations below 10^20 |
| `CheckpointNames.NameIsRecognized` | src/termrecall/store.py:35-38 | A name is recognized, and gives its generation back, exactly below 10^20 |
| `CheckpointNames.NameSpellsGeneration` | src/termrecall/store.py:35-38 | Such a name spells the generation in twenty decimal digits |
| `CheckpointStore.CheckpointDirectory.ListNames` | src/termrecall/store.py:567-576 | Listing in any order yields the recognized names, newest first |
| `CheckpointStore.CheckpointDirectory.LoadLatest` | src/termrecall/store.py:106-109 | The loop over files computes the newest readable one, or stops at an unsupported version above it |
| `CheckpointStore.CheckpointDirectory.Prune` | src/termrecall/store.py:597-614 | The loop unlinks exactly the readable files beyond the tenth, one directory state after another |
| `CheckpointStore.CheckpointDirectory.Write` | src/termrecall/store.py:89-104 | A snapshot over the size limit is refused untouched; else a write replaces, then prunes, through the listed directory states |
| `CheckpointSafety.LatestIsDecided` | src/termrecall/store.py:578-595 | What is read is settled by the newest file that is not invalid |
| `CheckpointSafety.PruningKeepsTheNewest` | src/termrecall/store.py:597-614 | A file is pruned if and only if it is readable and has ten newer readable ones; all others stay unchanged |
| `CheckpointSafety.PruningDoesNotChangeTheLatest` | src/termrecall/store.py:597-614 | From the replace on, every state of a write reads the same, for every directory and generation |
| `CheckpointSafety.CrashGivesOldOrNew` | src/termrecall/store.py:89-104 | A crash anywhere in a write, of any generation over any directory, leaves the old latest or the new one |
| `CheckpointSafety.ReplaceGivesOldOrNew` | src/termrecall/store.py:578-595 | Which of the two: the new one exactly if its file is the newest that is not invalid |
| `CheckpointSafety.UncoveredGenerationIsNeverRead` | src/termrecall/store.py:567-576 | A generation of 10^20 or more changes nothing for readers |
| `CheckpointManager.CheckpointManager.MarkDirty` | src/termrecall/checkpoint.py:87-100 | Marks the generation, schedules a first write, leaves a scheduled one alone |
| `CheckpointManager.CheckpointManager.BeginFlush` | src/termrecall/checkpoint.py:102-114 | Durable already, refused when stopped, or waiting with the flush generation raised |
| `CheckpointManager.CheckpointManager.Due` | src/termrecall/checkpoint.py:145-153 | The next write time of the state |
| `CheckpointManager.CheckpointManager.BeginWrite` | src/termrecall/checkpoint.py:155-163 | A write that is not running already takes the whole dirty generation as its target |
| `CheckpointManager.CheckpointManager.EndWrite` | src/termrecall/checkpoint.py:166-195 | Success makes the target durable and reschedules, failure backs off, as functions of the old state; when writes then begin is `CheckpointTiming.NoWriteBeginsEarly` |
| `CheckpointLoop.NoLostWakeup` | src/termrecall/checkpoint.py:116-143 | A parked loop without a pending change waits for the very time the scheduler would give |
| `CheckpointLoop.WaitingFlushesAreKnown` | src/termrecall/checkpoint.py:102-114 | Each waiting flush is durable or below the flush generation |
| `CheckpointLoop.PendingWorkIsDueInTime` | src/termrecall/checkpoint.py:145-153 | The scheduled time is within the deadline of every mark not yet durable, and with no backoff set and no write running the next write is due by then or at once; a backoff exists only while work is pending |
| `CheckpointLoop.LaterMarksNeverPostpone` | src/termrecall/checkpoint.py:87-100 | A mark while work is pending changes no schedule |
| `CheckpointLoop.FlushIsServed` | src/termrecall/checkpoint.py:102-143 | Once no backoff holds it back, and whatever is marked or flushed meanwhile, a waiting flush is durable after five successful loop steps, one of which is enabled until then |
| `CheckpointTiming.NoWriteBeginsEarly` | src/termrecall/checkpoint.py:116-195 | After the n-th failure in a row no write begins before its end plus the n-th backoff delay, or the last one; without failures and unless a flush waits, none before the write window ends; a success sets the count back |
| `CheckpointTiming.WritesAreDueExactly` | src/termrecall/checkpoint.py:145-153 | And while something is pending and no write runs, that is exactly when the next is due |
| `CheckpointTiming.StopIsHonoured` | src/termrecall/checkpoint.py:123-143 | After a stop request the loop ends within three of its steps, each enabled, and begins no write |
| `DurabilityPipeline.WrittenReadsNew` | src/termrecall/store.py:89-104 | After the replace every state of a write reads the written snapshot, if no readable file is named above it |
| `DurabilityPipeline.AnsweredSnapshotsSurvive` | src/termrecall/server.py:488-493 | A snapshot answered with success: after a crash at any later moment at least the generation of the request is loaded, if no readable file is named above the next generation |
| `DurabilityStates.RestartContinuesARealState` | src/termrecall/cli.py:872-880 | Over every run, a restarted service continues with a state the engine was in before, shells and all, of at least the generation of every answered snapshot; with the empty one if nothing is stored |
| `DurabilityLimits.AnswersSurviveExactly` | src/termrecall/server.py:488-493 | And only if, for every directory a service can start from |
| `DurabilityLimits.MisnamedFileLosesAnswers` | src/termrecall/store.py:578-595 | A file named 5 that holds generation 0 is such a failing directory |
| `DurabilityLimits.LoadedServiceRefusesSnapshot` | src/termrecall/cli.py:878-880 | A service booted from a checkpoint refuses its first snapshot request |
| `DurabilityPipeline.SnapshotRefusedExactly` | src/termrecall/checkpoint.py:65-66 | An immediate answer is a refusal if and only if nothing was accepted in this run and the loaded generation is positive |
| `DurabilityLimits.LateAnswersExactly` | src/termrecall/server.py:488-493 | A request that waited is answered with success if and only if what it requires is durable, else with the internal error |
| `SetupTransaction.RollbackRestores` | src/termrecall/lifecycle.py:541-576 | A setup stopped after any step and rolled back: all files, stage and generations as before, if and only if no restored file had mode 0 and a generation already in place has a marker that verifies |
| `SetupTransaction.AccentedRootIsNotRolledBack` | src/termrecall/lifecycle_fs.py:654-698 | A root outside ASCII, stopped with the generation in place: it stays |
| `SetupTransaction.ModeZeroIsNotRolledBack` | src/termrecall/lifecycle_fs.py:382-392 | A manifest of mode 0 is not restored |
| `SetupTransaction.RollbackIsSound` | src/termrecall/lifecycle.py:553-571 | At every step of setup and of any partial rollback, `current` is absent or names a complete generation |
| `SetupTransaction.CleanupIsSound` | src/termrecall/lifecycle.py:725-744 | After the commit, deleting superseded generations in any order and however incompletely leaves `current` naming the new one |
| `SetupTransaction.CommitIsLast` | src/termrecall/lifecycle.py:680-691 | The manifest changes with the last step only, and `current` with the one before |
| `SetupTransaction.InstalledFiles` | src/termrecall/lifecycle.py:663-679 | After setup every command link has its target and every integration file its new content and mode, 0600 for a mode of 0 |
| `SetupTransaction.BackupComesFirst` | src/termrecall/lifecycle.py:663-666 | The backup of .bashrc is made once, before .bashrc is touched, and no rollback removes it |
| `SetupTransaction.RollbackMirrorsSetup` | src/termrecall/lifecycle.py:552-562 | Rollback restores the slots in the reverse order of setup, down to the backup |
| `SetupTransaction.MarkerVerifiesExactly` | src/termrecall/lifecycle_fs.py:654-698 | The marker verifies if and only if no character of root, id or install id is beyond `~` |
| `SetupInstaller.Installer.Install` | src/termrecall/lifecycle.py:638-691 | Under any faults, some prefix of the setup steps has taken effect, all of them exactly when no call failed |
| `SetupInstaller.Installer.Rollback` | src/termrecall/lifecycle.py:541-576 | Some prefix of the rollback steps, all of them and a verified marker if it reports success |
| `SetupInstaller.Installer.CleanUp` | src/termrecall/lifecycle.py:725-744 | Only superseded generations are touched, each unchanged, emptied or gone, and all gone if no call fails; a failing look-up of a marker ends it, whatever was deleted before |
| `SetupInstaller.Installer.Setup` | src/termrecall/lifecycle.py:617-722 | Rolled back: as before unless a file had mode 0. Rolled back incompletely: some prefix of the rollback, because its last call failed or the marker does not verify. Committed, with or without a warning: the new installation stands. Undone only if a call failed, and however it ends, `current` is whole |
| `MarkerEncoding.CanonicalExactly` | src/termrecall/lifecycle.py:396-407 | Escaped and plain JSON of a text agree, so the marker verifies, if and only if no character is beyond `~` |
| `MarkerEncoding.JsonReadsBack` | src/termrecall/lifecycle.py:396-407 | A reader by section 7 of RFC 8259 gets every text back from its plain form, and from its escaped form if and only if no high surrogate stands before a low one |
| `BashrcBlock.RoundTrip` | src/termrecall/lifecycle_integrations.py:144-187 | For all texts and paths, disabling what enabling made with any tail added gives the text and the tail, if and only if no marker line stands in the text with a newline, the tail or the source line |
| `BashrcBlock.SourceLineIsClean` | src/termrecall/lifecycle_integrations.py:90-108 | The source line holds none if the path has no newline |
| `BashrcBlock.EnableIsIdempotent` | src/termrecall/lifecycle_integrations.py:167-178 | Enabling again changes nothing, with the exact condition; covers appended, present and migrated blocks, which `BashrcMigration` shows to keep the rest |
| `BashrcMigration.MigratesExactly` | src/termrecall/lifecycle_integrations.py:168-172 | For all texts and paths, enabling replaces the older block and keeps everything before and after it, if and only if no other marker line stands in the text; else it refuses |
| `BashrcMigration.MigratedThenDisabled` | src/termrecall/lifecycle_integrations.py:168-184 | Migrating and disabling leaves what stood around the older block, less one separator newline |
| `BashrcMigration.DisablesExactly` | src/termrecall/lifecycle_integrations.py:178-184 | Disabling takes out the block and one separator newline of any text, with the exact condition |
| `BashrcMigration.EnableAcceptsExactly` | src/termrecall/lifecycle_integrations.py:161-176 | Enabling accepts exactly the texts without markers and those with one whole block of either kind and no other marker |
| `BashrcMigration.EnableGives` | src/termrecall/lifecycle_integrations.py:163-176 | Where the block stands the text is left alone; without markers the block is appended after one separator newline |
| `BashrcMigration.DisableAcceptsExactly` | src/termrecall/lifecycle_integrations.py:177-187 | Disabling accepts exactly the texts without markers, unchanged, and those with one whole block and no other marker |
| `BashrcMigration.RefusedFor` | src/termrecall/lifecycle_integrations.py:161-186 | A refused text is told which markers were in the way |
| `BashrcBlock.CountSplit` | src/termrecall/lifecycle_integrations.py:138-141 | Occurrences of a marker line add up across a concatenation at a line end |
| `BashrcBlock.BlockIsOnly` | src/termrecall/lifecycle_integrations.py:156-172 | With the block in a text, it is accepted if and only if nothing else in it is a marker line |
| `BashrcBlock.UnterminatedMarkerIsRefused` | src/termrecall/lifecycle_integrations.py:176-184 | A last line that is a marker but for its newline: enabling succeeds, disabling refuses |
| `PathQuoting.QuotedPathIsOneWord` | src/termrecall/lifecycle_integrations.py:90-99 | The shell reads the quoted path as one word, the path itself, for every path |
| `PathQuoting.SourceLineReadsAsMeant` | src/termrecall/lifecycle_integrations.py:101-103 | The shell reads the line of the block as a test for the file and the command that sources it, the path being one word of each |
| `PathQuoting.OlderLineReadsAsMeant` | src/termrecall/lifecycle_integrations.py:106-107 | And the line of the older block as the command that sources it |
| `ShellWords.ParseOfText` | src/termrecall/classifier.py:419-471 | Every quoting structure is found again in its text |
| `ShellWords.TextOfParse` | src/termrecall/classifier.py:419-471 | Every text with closed quotes is the text of its structure |
| `QuoteScanner.InStepEverywhere` | src/termrecall/classifier.py:419-456 | Scanner and shlex are in the same quote and escape state at every position of every text |
| `QuoteScanner.ScanAcceptsHarmless` | src/termrecall/classifier.py:419-459 | The scanner accepts if and only if quotes are closed, no operator is unquoted, and no backquote or `$(` is active |
| `QuoteScanner.LexReadsWords` | src/termrecall/classifier.py:460-464 | shlex fails exactly on open quotes and a final backslash and otherwise yields the words of the structure |
| `QuoteScanner.AcceptedSplits` | src/termrecall/classifier.py:457-469 | Whatever the scanner accepts splits without error into at least one word |
| `QuoteScanner.ParseOneSimpleCommand` | src/termrecall/classifier.py:403-488 | The loop computes the words exactly for admissible, harmless commands that do not start with an assignment |
| `CommandPolicy.OperatorsExactly` | src/termrecall/classifier.py:456-457 | The characters looked for are exactly those that control and redirection operators of the shell begin with |
| `CommandPolicy.NoOperators` | src/termrecall/classifier.py:429-457 | No operator stands unquoted in an accepted command, nor behind a backslash |
| `CommandPolicy.NothingExpands` | src/termrecall/classifier.py:414-417 | No dollar sign in it, quoted or not, begins a parameter expansion, and no pattern character is in it |
| `CommandPolicy.AcceptedText` | src/termrecall/classifier.py:406-407 | It is more than white space, holds no NUL and does not end in a backslash |
| `CommandPolicy.FirstWordAssignsNothing` | src/termrecall/classifier.py:477-485 | Its first word assigns a variable only if the value holds a newline |
| `CommandPolicy.NewlineAssignmentIsAccepted` | src/termrecall/classifier.py:207 | An accepted command that begins with such an assignment |
| `CommandPolicy.PlainCommandsAreAccepted` | src/termrecall/classifier.py:403-488 | A command of ordinary words is accepted as these words, unless the first assigns |
| `QuoteScanner.ReadingsAgree` | src/termrecall/classifier.py:460-464 | On accepted commands shlex and the standard read the same words if and only if no carriage return is unquoted and no double-quoted backslash precedes `$`, a backquote or a newline |
| `QuoteScanner.AcceptedButReadOtherwise` | src/termrecall/classifier.py:403-488 | A command the parser accepts and the shell reads otherwise |

## Left out

- RestoreProgress.EveryRequestIsAnswered: does not model the timers and the backoff of the checkpoint writer, whose step
  is enabled whenever something is dirty; that the run loop does serve a flush is `CheckpointLoop.FlushIsServed`.
- SetupInstaller.Installer.Install: does not model the single calls that build the venv, the wheel record and the marker;
  a part of the stage counts as there when it is complete, and a half-built one as not there.
- Sockets, file descriptors, path walks without following links, file locks, peer credentials, signals: files are maps
  with atomic replace and unlink, locks are owners, commands end with a given result.
- JSON and base64 codecs, schema validation and SHA-256: a file is what it decodes to, an attempt id is the fields it is a
  digest of, and which records and snapshots are within the size limits is given by a predicate. The marker's string
  escaping is the one part of JSON that is modelled.
- Corrupted recovery and tombstone files.
- Credential patterns, command deny-lists and the classification that follows the parser, and the parser's mode with
  tokens given by its caller.
- Comments, tilde, reserved words and expansions in the POSIX reading of a command: only quoting and blanks.
- The server's handlers as methods of one object: they run concurrently, so their steps are those of the transition
  system on values in `RestoreProtocol`, which also leaves out the diagnostics they collect.
- The run loop of the checkpoint manager as one method: it is interleaved with marks and flushes, so `CheckpointLoop`
  gives its steps on values.
- Planning of the integration mutations and capture of before-images: the plan is given, and the before-images are the
  files as they stand when setup starts.
- Reconciliation of a snapshot with live processes: its result is any fresh record.
- Choice of a resume command and session, and executable lookup: given for each item.
- The kitty, konsole and xfce4 adapters.
- Errors other than a missing executable or a timeout when a command is run: in the protocol they end the attempt with
  the answer for an I/O error.
- Cancellation, the checkpoint written at shutdown, and progress under a store that keeps failing.
- Texts of responses and diagnostics, and which items a list answer shows.
- Creation of parent directories, which rollback leaves behind, and deletion entry by entry inside a generation.
- The marker check on generations left by earlier installs: in cleanup a refusal counts as a failed deletion.
- Uninstall, and the setup of integrations alone, whose restore errors are suppressed.
- Command-line parsing, prompts, diagnostics and probing.
