# SmallLight in Dafny

SmallLight is a macOS menu-bar helper. While a modifier chord is held and the pointer dwells
over a Finder item, it resolves that item and acts on it. A folder is compressed to a zip
next to itself. A zip archive is extracted into a fresh sibling directory. Anything else only
gets an informational HUD line. Before any action the original is copied into an undo staging
area, and afterwards an audit record is written. A short-lived deduplication store stops the
same item from being handled twice in a row.

This project models that pipeline and its small state machines, and proves what each of them
promises:

- **Hover detection** (`hover_monitor.dfy`, `legacy_hover_monitor.dfy`, `event_flags.dfy`).
  The dwell/debounce `HoverStateMachine` is a class whose methods are proved against pure
  transition functions. The driver keeps the dwell timer as an optional deadline and logs the
  callbacks it would make. The earlier single-location machine is modelled too, and is proved
  to agree with the current one.
- **Deduplication** (`deduplication_store.dfy`). The TTL ring is a class over `ring`/`index`
  fields, specified by pure `Purge`, `Record`, `Remove` and `IsDuplicate`.
- **Decide / stage / act / undo** (`orchestrator.dfy`, `undo_staging.dfy`,
  `compression_service.dfy`, `zip_handler.dfy`, `confirmation_tracker.dfy`). The collaborators
  of `DefaultActionOrchestrator` are function-typed fields over an abstract world
  (`collaborators.dfy`), and every call is recorded in a call log. The file-touching services
  run over a value disk: a map from path to file or directory (`file_system.dfy`), behind a
  `FileManager` class whose `disk` field changes.
- **Coordinator** (`coordinator.dfy`). This covers the start/stop mode machine, the dedup gate
  of `resolve`, routing to extraction, compression or an informational line, the handlers'
  staging-then-action-then-audit sequence, and the rule that a failed handler releases its
  dedup key.
- **Small state machines** (`hot_key_center.dfy`, `hot_key_manager.dfy`, `hot_key_state.dfy`,
  `hud_view_model.dfy`, `app_view_model.dfy`, `preferences.dfy`, `accessibility_prompt.dfy`,
  `user_defaults.dfy`). These are hot-key registration and dispatch, HUD history trimming, the
  menu-bar status, the hot-key preset table, and the accessibility prompt throttle.

Paths are sequences of components. `Paths.PathString` joins them with "/", as `URL.path`
does. Times and coordinates are `real`. The distance test `sqrt(dx²+dy²) ≤ tolerance` is
written as `dx²+dy² ≤ tolerance²`. `.ulpOfOne` is the exact real 2⁻⁵². Event flags are
64-bit vectors with the CoreGraphics mask values. UUIDs, ISO timestamps, the clock, the
resolver's answer and the registrar's and launcher's outcomes are parameters.

Where a class method changes state, its contract ties the new state to a pure function of
the old one, and the properties are proved about those functions. Where the source is a pure
computation, the model is a function with lemmas.

## Model

| member | source | states |
|---|---|---|
| EventFlags.Filtered | Sources/SmallLightAppHost/Interaction/HoverMonitor.swift:333-343 | filtering keeps exactly the Option, Control, Shift and Command bits of the raw flags and clears every other bit |
| EventFlags.FilteredIdempotent | Sources/SmallLightAppHost/Interaction/HoverMonitor.swift:341-343 | filtering twice gives the same flags as filtering once |
| EventFlags.FilteringKeepsChord | Sources/SmallLightAppHost/Interaction/HoverMonitor.swift:341-347 | for a chord made only of monitored modifiers, the filtered flags contain it exactly when the raw flags do |
| EventFlags.UnmonitoredChordNeverHeld | Sources/SmallLightAppHost/Interaction/HoverMonitor.swift:341-347 | a chord that needs an unmonitored bit is never contained in filtered flags |
| EventFlags.HeldKeyFlags | Sources/SmallLightAppHost/Configuration/AppSettings.swift:42-57 | each held-key setting maps to a non-empty chord of monitored modifiers only |
| HoverMonitoring.MouseMove | Sources/SmallLightAppHost/Interaction/HoverMonitor.swift:229-256 | a move always records both locations, the time and the filtered flags; without the chord it cancels and disarms; a held, armed, stationary move (distance within tolerance, inclusive) returns none; any other held move arms and returns startDwell |
| HoverMonitoring.FlagsChange | Sources/SmallLightAppHost/Interaction/HoverMonitor.swift:258-276 | a release cancels and disarms and keeps the movement time; a held change refreshes the movement time and returns startDwell exactly when a location is known and nothing was armed |
| HoverMonitoring.DwellTimer | Sources/SmallLightAppHost/Interaction/HoverMonitor.swift:278-301 | a fire yields a snapshot exactly when armed, held, with time and locations, outside the debounce window and no earlier than threshold − ε; it then disarms, records the fire time and reports both last locations and the current flags; a fire on a machine that is not ready disarms it; a ready fire inside the debounce window or too early changes nothing |
| HoverMonitoring.InitialCoherent | Sources/SmallLightAppHost/Interaction/HoverMonitor.swift:209-215 | the initial machine satisfies the field invariant (armed only while held and with a location; both locations recorded together) |
| HoverMonitoring.ReadyIsArmed | Sources/SmallLightAppHost/Interaction/HoverMonitor.swift:279-284 | on a coherent machine the timer guard is exactly "armed" |
| HoverMonitoring.Step | Sources/SmallLightAppHost/Interaction/HoverMonitor.swift:117-134 | only a timer input can produce a fire, stamped with its time, and a timer never asks the driver to start or cancel |
| HoverMonitoring.StepCoherent | Sources/SmallLightAppHost/Interaction/HoverMonitor.swift:229-301 | every event keeps the field invariant, so an armed dwell always has the chord held |
| HoverMonitoring.RunIsDebounced | Sources/SmallLightAppHost/Interaction/HoverMonitor.swift:286-295 | over any sequence of events, consecutive fires are at least the debounce interval apart, and the machine remembers the latest fire time |
| HoverMonitoring.RunIsCoherent | Sources/SmallLightAppHost/Interaction/HoverMonitor.swift:233-300 | over any run from a coherent state the invariant holds, and every fired snapshot carries flags that contain the required chord |
| HoverMonitoring.ReleaseCancels | Sources/SmallLightAppHost/Interaction/HoverMonitor.swift:241-266 | a move or flags change without the chord always returns cancelDwell and disarms |
| HoverMonitoring.DwellFiresAfterThreshold | Tests/SmallLightTests/HoverStateMachineTests.swift:11-28 | a location seen without the chord, then Option pressed: the fire before the threshold reports nothing and the one after it reports that location with Option, once |
| HoverMonitoring.MovementResetsDwell | Tests/SmallLightTests/HoverStateMachineTests.swift:30-51 | moving restarts the dwell, and the fire reports the new location |
| HoverMonitoring.DebouncePreventsRapidRetrigger | Tests/SmallLightTests/HoverStateMachineTests.swift:53-75 | after a fire and a re-arm, a fire inside the debounce window and one before the new threshold report nothing, so the run has exactly two fires |
| HoverMonitoring.ModifierReleaseCancelsDwell | Tests/SmallLightTests/HoverStateMachineTests.swift:77-107 | after a first fire, a re-arm and a release of the chord, the later fire reports nothing, so only the first fire is seen |
| HoverMonitoring.HoverStateMachine.constructor | Sources/SmallLightAppHost/Interaction/HoverMonitor.swift:209-227 | a new machine holds its configuration and the initial fields: nothing recorded, no flags, not armed, not held |
| HoverMonitoring.HoverStateMachine.HandleMouseMove | Sources/SmallLightAppHost/Interaction/HoverMonitor.swift:229-256 | the mutating method leaves the fields and returns the action that `MouseMove` gives for the old fields |
| HoverMonitoring.HoverStateMachine.HandleFlagsChange | Sources/SmallLightAppHost/Interaction/HoverMonitor.swift:258-276 | the mutating method follows `FlagsChange` |
| HoverMonitoring.HoverStateMachine.HandleDwellTimer | Sources/SmallLightAppHost/Interaction/HoverMonitor.swift:278-301 | the mutating method follows `DwellTimer` |
| HoverMonitoring.HoverStateMachine.DwellIsActive | Sources/SmallLightAppHost/Interaction/HoverMonitor.swift:303-305 | reports whether the dwell is armed |
| HoverMonitoring.TimerAfter | Sources/SmallLightAppHost/Interaction/HoverMonitor.swift:138-163 | startDwell replaces any pending timer with a fresh deadline one threshold ahead; cancelDwell clears it; none leaves it |
| HoverMonitoring.HoverMonitor.constructor | Sources/SmallLightAppHost/Interaction/HoverMonitor.swift:35-51 | the machine is built from the trigger settings with the held key's flags and the default tolerance of 4; no timer is pending and no handler has been called |
| HoverMonitoring.HoverMonitor.ScheduleDwellTimer | Sources/SmallLightAppHost/Interaction/HoverMonitor.swift:149-158 | any pending timer is replaced by one due a dwell threshold from now |
| HoverMonitoring.HoverMonitor.CancelDwellTimer | Sources/SmallLightAppHost/Interaction/HoverMonitor.swift:160-163 | no timer is pending afterwards |
| HoverMonitoring.HoverMonitor.HandleAction | Sources/SmallLightAppHost/Interaction/HoverMonitor.swift:138-147 | the driver's timer follows `TimerAfter` |
| HoverMonitoring.HoverMonitor.NotifyModifierIfNeeded | Sources/SmallLightAppHost/Interaction/HoverMonitor.swift:182-188 | the modifier handler is called, and the remembered state updated, only when a handler exists and the held state flips |
| HoverMonitoring.HoverMonitor.ReportEvent | Sources/SmallLightAppHost/Interaction/HoverMonitor.swift:102-113 | the modifier handler hears of a flip of the held state and the movement handler of every move, when they exist |
| HoverMonitoring.HoverMonitor.ReportMovement | Sources/SmallLightAppHost/Interaction/HoverMonitor.swift:104-113 | a move is reported to the movement handler when there is one, and nothing else is |
| HoverMonitoring.HoverMonitor.Process | Sources/SmallLightAppHost/Interaction/HoverMonitor.swift:115-135 | the machine takes the move or flags change, other kinds leave it alone, and the timer follows the action returned |
| HoverMonitoring.HoverMonitor.HandleEvent | Sources/SmallLightAppHost/Interaction/HoverMonitor.swift:96-136 | an event is filtered, reported to the modifier handler on a flip and to the movement handler on a move, then fed to the machine; the timer follows the action returned; unknown event kinds leave machine and timer alone |
| HoverMonitoring.HoverMonitor.DwellTimerFired | Sources/SmallLightAppHost/Interaction/HoverMonitor.swift:165-180 | a fire with a snapshot calls the dwell handler once with it; a fire without one reschedules only while the dwell is still armed, and otherwise leaves no timer |
| HoverMonitoring.HoverMonitor.Stop | Sources/SmallLightAppHost/Interaction/HoverMonitor.swift:84-85 | stopping leaves no pending timer |
| LegacyHoverMonitoring.MouseMove | Sources/SmallLightAppHost/HoverMonitor.swift:177-196 | a release cancels and disarms; a held, armed move within tolerance returns none; any other held move arms and returns startDwell |
| LegacyHoverMonitoring.FlagsChange | Sources/SmallLightAppHost/HoverMonitor.swift:198-216 | a release cancels and disarms; a held change refreshes the movement time and starts a dwell only with a known location and nothing armed |
| LegacyHoverMonitoring.DwellTimer | Sources/SmallLightAppHost/HoverMonitor.swift:218-235 | a fire yields (last location, current flags) exactly when armed, held, outside the debounce window and past threshold − ε, and then disarms and records the fire time |
| LegacyHoverMonitoring.MouseMoveAgrees | Sources/SmallLightAppHost/HoverMonitor.swift:177-196 | the earlier machine is the current machine with the two locations merged into one (moves) |
| LegacyHoverMonitoring.FlagsChangeAgrees | Sources/SmallLightAppHost/HoverMonitor.swift:198-216 | the same agreement for flags changes |
| LegacyHoverMonitoring.DwellTimerAgrees | Sources/SmallLightAppHost/HoverMonitor.swift:218-235 | the same agreement for timer fires, the result dropping the hit-test location |
| LegacyHoverMonitoring.LegacyHoverStateMachine.constructor | Sources/SmallLightAppHost/HoverMonitor.swift:158-175 | a new machine holds its configuration and the initial fields |
| LegacyHoverMonitoring.LegacyHoverStateMachine.HandleMouseMove | Sources/SmallLightAppHost/HoverMonitor.swift:177-196 | the mutating method follows `LegacyHoverMonitoring.MouseMove` |
| LegacyHoverMonitoring.LegacyHoverStateMachine.HandleFlagsChange | Sources/SmallLightAppHost/HoverMonitor.swift:198-216 | the mutating method follows `LegacyHoverMonitoring.FlagsChange` |
| LegacyHoverMonitoring.LegacyHoverStateMachine.HandleDwellTimer | Sources/SmallLightAppHost/HoverMonitor.swift:218-235 | the mutating method follows `LegacyHoverMonitoring.DwellTimer` |
| Deduplication.Purge | Sources/SmallLightAppHost/DeduplicationStore.swift:54-61 | purging keeps exactly the entries no older than now − ttl, never grows the ring, and leaves the index 0 or a valid slot |
| Deduplication.IsDuplicate | Sources/SmallLightAppHost/DeduplicationStore.swift:23-28 | a key is a duplicate exactly when an unexpired entry with that key is in the ring |
| Deduplication.Insert | Sources/SmallLightAppHost/DeduplicationStore.swift:34-40 | below capacity the entry is appended; at capacity it overwrites ring[index] and the index advances modulo capacity |
| Deduplication.Record | Sources/SmallLightAppHost/DeduplicationStore.swift:31-42 | after recording, the ring still fits the capacity, holds the new entry, and otherwise holds only unexpired old entries; below capacity the new entry is appended to the purged ring, and at capacity it overwrites only the slot at the index, which advances cyclically, so every unexpired old entry survives except the one in that slot |
| Deduplication.Remove | Sources/SmallLightAppHost/DeduplicationStore.swift:45-52 | removing drops exactly the entries with that key and leaves the index 0 or a valid slot |
| Deduplication.WithoutKeyAppend | Sources/SmallLightAppHost/DeduplicationStore.swift:47 | removal by key keeps the remaining entries in their order |
| Deduplication.OperationsKeepIndex | Sources/SmallLightAppHost/DeduplicationStore.swift:31-61 | every operation keeps the ring within capacity and the index 0 or a valid slot |
| Deduplication.RecordedIsDuplicate | Tests/SmallLightTests/DeduplicationStoreTests.swift:6-12 | a key recorded at `now` is a duplicate at any time up to now + ttl |
| Deduplication.ExpiredIsNotDuplicate | Tests/SmallLightTests/DeduplicationStoreTests.swift:14-20 | a key whose entries are all older than now − ttl is not a duplicate |
| Deduplication.RemovedIsNotDuplicate | Tests/SmallLightTests/DeduplicationStoreTests.swift:22-28 | after removal the key is not a duplicate at any time |
| Deduplication.FillAppends | Sources/SmallLightAppHost/DeduplicationStore.swift:35-36 | recording up to capacity distinct fresh keys into an empty store appends them in order |
| Deduplication.FillThenOverwriteFirst | Sources/SmallLightAppHost/DeduplicationStore.swift:35-40 | filling an empty store to capacity and recording one more key overwrites only the first-recorded entry and moves the index to slot 1 |
| Deduplication.RecordWithoutExpiry | Sources/SmallLightAppHost/DeduplicationStore.swift:31-42 | when nothing has expired, recording is a plain insertion |
| Deduplication.EvictionIsNotOldest | Sources/SmallLightAppHost/DeduplicationStore.swift:38-50 | after a removal the victim of the next overwrite is ring[index], which need not be the oldest entry |
| Deduplication.StoreScenarios | Tests/SmallLightTests/DeduplicationStoreTests.swift:6-28 | the three test scenarios: duplicate within the TTL, expired after it, and free again after removal |
| Deduplication.DeduplicationStore.constructor | Sources/SmallLightAppHost/DeduplicationStore.swift:16-20 | a new store has the given TTL and capacity and an empty ring at index 0 |
| Deduplication.DeduplicationStore.IsDuplicateKey | Sources/SmallLightAppHost/DeduplicationStore.swift:23-28 | the call purges and answers `IsDuplicate` of the old state; a duplicate key is one that was recorded before |
| Deduplication.DeduplicationStore.RecordKey | Sources/SmallLightAppHost/DeduplicationStore.swift:31-42 | the ring and index follow `Record` |
| Deduplication.DeduplicationStore.RemoveKey | Sources/SmallLightAppHost/DeduplicationStore.swift:45-52 | the ring and index follow `Remove` |
| Deduplication.DeduplicationStore.PurgeExpired | Sources/SmallLightAppHost/DeduplicationStore.swift:54-61 | the ring and index follow `Purge` |
| FileSystem.CreateDirectories | Sources/SmallLightServices/FileUndoStagingManager.swift:35 | creating with intermediates succeeds exactly when no prefix of the path is a file; it keeps every entry and adds only directories on the way to the path |
| FileSystem.CreateDirectory | Sources/SmallLightAppHost/Services/ZipHandler.swift:73 | creating without intermediates succeeds exactly when the path is new and its parent is a directory, and adds just that directory |
| FileSystem.RemoveItem | Sources/SmallLightServices/FileUndoStagingManager.swift:55 | removal succeeds exactly on an existing non-root path and drops its whole subtree |
| FileSystem.CopyItem | Sources/SmallLightServices/FileUndoStagingManager.swift:58 | copying succeeds exactly when the source exists, the destination is new under a directory and is not inside the source; the destination then holds the source's subtree and nothing else changes |
| FileSystem.RemoveItemIfExists | Sources/SmallLightServices/FileCompressionService.swift:114-118 | removing only if present leaves the disk without anything at or below the path |
| FileSystem.VisibleChildren | Sources/SmallLightServices/FileCompressionService.swift:73-77 | listing a directory gives exactly its direct children whose names do not start with "." |
| FileSystem.FileManager.ExistingKind | Sources/SmallLightAppHost/Services/ZipHandler.swift:47-52 | `fileExists(atPath:isDirectory:)`: something exists exactly when the path is on disk, and the flag says whether it is a directory |
| FileSystem.FileManager.CreateDirectoryAt | Sources/SmallLightServices/FileUndoStagingManager.swift:35 | the disk follows `CreateDirectories` or `CreateDirectory` as asked |
| FileSystem.FileManager.CopyItemAt | Sources/SmallLightServices/FileUndoStagingManager.swift:58 | the disk follows `CopyItem` |
| FileSystem.FileManager.RemoveItemAt | Sources/SmallLightServices/FileUndoStagingManager.swift:55 | the disk follows `RemoveItem` |
| FileSystem.FileManager.ContentsOfDirectory | Sources/SmallLightServices/FileCompressionService.swift:73-77 | the listing is `VisibleChildren` of the current disk |
| UndoStaging.FolderName | Sources/SmallLightServices/FileUndoStagingManager.swift:69-77 | compress, decompress and none stage into "compress", "decompress" and "noop" |
| UndoStaging.FolderNamesDistinct | Sources/SmallLightServices/FileUndoStagingManager.swift:69-77 | distinct actions stage into distinct folders |
| UndoStaging.StagingURL | Sources/SmallLightServices/FileUndoStagingManager.swift:30-38 | the staging location is root/folder/timestamp/last component; it lies under the root in the action's folder, its directory exists afterwards, nothing on disk is changed, and it fails exactly when the directory cannot be created |
| UndoStaging.SafeCopy | Sources/SmallLightServices/FileUndoStagingManager.swift:61-66 | whatever was at the destination is replaced by exactly the source's subtree, the source is untouched, and the rest of the disk is unchanged |
| UndoStaging.StageOriginal | Sources/SmallLightServices/FileUndoStagingManager.swift:40-48 | staging succeeds exactly when root/originals can be created and the item exists and is neither above nor below its staged path; the staged copy is root/originals/"<uuid>-<last component>" and holds exactly the item's subtree, the item itself is untouched, and outside the staged path only the new directories on the way to root/originals appear |
| UndoStaging.Restore | Sources/SmallLightServices/FileUndoStagingManager.swift:50-59 | restoring succeeds exactly when the destination's parent can be created and the staged item exists and is neither above nor below the destination (which is not the root); it then replaces the destination with the staged subtree, the staged item is still there, and outside the destination every old entry is kept and only directories on the way to the parent are new |
| UndoStaging.FileUndoStagingManager.StagingURLFor | Sources/SmallLightServices/FileUndoStagingManager.swift:30-38 | the file manager's disk and the result follow `StagingURL` |
| UndoStaging.FileUndoStagingManager.StageOriginalAt | Sources/SmallLightServices/FileUndoStagingManager.swift:40-48 | the disk and the result follow `StageOriginal` |
| UndoStaging.FileUndoStagingManager.RestoreFrom | Sources/SmallLightServices/FileUndoStagingManager.swift:50-59 | the disk and the result follow `Restore` |
| UndoStaging.FileUndoStagingManager.SafeCopyItem | Sources/SmallLightServices/FileUndoStagingManager.swift:61-66 | the disk and the result follow `SafeCopy` |
| Compression.CompressDestination | Sources/SmallLightServices/FileCompressionService.swift:17-19 | the archive is named "<last component>.zip" inside the destination directory |
| Compression.CompressArguments | Sources/SmallLightServices/FileCompressionService.swift:28-36 | the launcher gets exactly `ditto -c -k --sequesterRsrc --keepParent <source> <destination>` |
| Compression.PrepareArchiveDestination | Sources/SmallLightServices/FileCompressionService.swift:21-26 | the destination's directory is created and any existing item at the destination is removed, and nothing else changes |
| Compression.CompressItem | Sources/SmallLightServices/FileCompressionService.swift:16-45 | compress returns the archive path after a successful launch; a file-system failure is rethrown before the launcher runs; a launcher failure becomes `compressionFailed` |
| Compression.DecompressArguments | Sources/SmallLightServices/FileCompressionService.swift:59-65 | the launcher gets exactly `ditto -x -k <archive> <extraction root>` |
| Compression.PrepareExtractionRoot | Sources/SmallLightServices/FileCompressionService.swift:48-57 | it succeeds exactly when the base directory can be created; the extraction root is then an empty fresh directory, and nothing outside the root differs from the disk with the base directory created |
| Compression.DecompressItem | Sources/SmallLightServices/FileCompressionService.swift:47-84 | decompress extracts into "<base name>-<uuid>" under the destination directory; a launcher failure becomes `decompressionFailed`; on success it returns the sole visible entry when there is exactly one, and otherwise the extraction root |
| Compression.FileCompressionService.Compress | Sources/SmallLightServices/FileCompressionService.swift:16-45 | the disk and the result follow `CompressItem` |
| Compression.FileCompressionService.Decompress | Sources/SmallLightServices/FileCompressionService.swift:47-84 | the disk and the result follow `DecompressItem` |
| ZipHandling.ErrorDescription | Sources/SmallLightAppHost/Services/ZipHandler.swift:11-21 | notAZip reads "Selected item is not a zip archive."; dittoFailed gives its message, or "ditto failed with status N." when the message is empty |
| ZipHandling.CandidatesDistinct | Sources/SmallLightAppHost/Services/ZipHandler.swift:66-69 | the suffixes "_unpacked", "_unpacked2", "_unpacked3", … name pairwise distinct candidates |
| ZipHandling.TakenCandidatesFit | Sources/SmallLightAppHost/Services/ZipHandler.swift:66-70 | the suffix loop can only pass as many candidates as the disk has entries, so it terminates |
| ZipHandling.FirstFreeFrom | Sources/SmallLightAppHost/Services/ZipHandler.swift:66-70 | the loop stops at the first candidate that does not exist, and every earlier candidate exists |
| ZipHandling.ChosenDestination | Sources/SmallLightAppHost/Services/ZipHandler.swift:59-71 | the destination is a new sibling of the archive: the plain base name when it is free, otherwise the first free "_unpacked" candidate |
| ZipHandling.DittoArguments | Sources/SmallLightAppHost/Services/ZipHandler.swift:80 | ditto gets exactly `-x -k <zip> <destination>` |
| ZipHandling.Extract | Sources/SmallLightAppHost/Services/ZipHandler.swift:41-102 | anything but an existing regular file with a "zip" extension (any case) is refused with notAZip and the disk untouched; otherwise the result is the chosen sibling exactly when ditto exits with 0; a launch failure or a non-zero exit removes the created destination and reports the error, with the status and trimmed standard error |
| ZipHandling.DestinationCreatable | Sources/SmallLightAppHost/Services/ZipHandler.swift:73 | creating the chosen destination without intermediates always succeeds |
| ZipHandling.ZipHandler.MakeDestination | Sources/SmallLightAppHost/Services/ZipHandler.swift:59-75 | the repeat-while loop returns `ChosenDestination` and creates exactly that directory |
| ZipHandling.ZipHandler.ExtractArchive | Sources/SmallLightAppHost/Services/ZipHandler.swift:41-57 | the disk and the result follow `Extract` |
| ZipHandling.ZipHandler.Conclude | Sources/SmallLightAppHost/Services/ZipHandler.swift:77-102 | after ditto has run, the disk and the result follow `Concluded`: success, or the destination removed and the error |
| Collaborators.ReplaysAppend | Sources/SmallLightDomain/ServiceProtocols.swift:3-30 | a log the services answered, extended by a call they answer on the world it left, is again a log they answered |
| Collaborators.ReplayedFirstTwo | Sources/SmallLightDomain/ServiceProtocols.swift:3-30 | in a log the services answered, the first two calls are the services' own answers, and the worlds they leave are the worlds after one and two calls |
| Collaborators.Thrown | Sources/SmallLightDomain/ServiceProtocols.swift:3-30 | a recorded collaborator call threw exactly when its recorded outcome is an error |
| Orchestration.Decide | Sources/SmallLightServices/DefaultActionOrchestrator.swift:34-41 | a directory is compressed (checked before archive), a non-directory archive decompressed, anything else gets none |
| Orchestration.Evaluate | Sources/SmallLightServices/DefaultActionOrchestrator.swift:25-45 | an inactive chord gives nil without asking Finder; otherwise Finder is asked once, its error propagates and an empty answer gives nil; a decision names the item, the action `Decide` picks, and requires confirmation exactly when the action is not none; the logged Finder call is the one the services answer, and no world changes |
| Orchestration.Perform | Sources/SmallLightServices/DefaultActionOrchestrator.swift:47-66 | a none decision throws confirmationPending and calls nothing; otherwise stagingURL, stageOriginal, the action into the item's parent directory and the audit record are called in that order, each only after the earlier ones succeeded; the first error propagates; success returns the destination produced, audited exactly once; the log is what the services answered, call after call, and the world returned is the one the last call left |
| Orchestration.Undo | Sources/SmallLightServices/DefaultActionOrchestrator.swift:68-71 | undo asks for the staging location with action compress, whatever the item, and restores from it onto the item's path; the log is what the services answered, and the world returned is the one the last call left |
| Orchestration.UndoLastActionOnDisk | Sources/SmallLightServices/DefaultActionOrchestrator.swift:68-71 | undo as written over the real staging store keeps the disk well formed |
| Orchestration.UndoOnStoreIsUndoLastActionOnDisk | Sources/SmallLightServices/DefaultActionOrchestrator.swift:68-71 | `undoLastAction` run with the staging store as its collaborator leaves the same disk and the same success or error as the undo over the disk |
| Orchestration.UndoOnStoreLosesItem | Sources/SmallLightServices/DefaultActionOrchestrator.swift:68-71 | `undoLastAction` with the staging store, on an item whose fresh staging location did not exist before, fails and the item is gone from the disk |
| Orchestration.PerformStagesOriginal | Sources/SmallLightServices/DefaultActionOrchestrator.swift:47-66 | with the staging store, a perform that staged the original put it at root/originals/<UUID>-<name>, holding exactly what the item held after the staging location was made |
| Orchestration.UndoLastActionLosesItem | Sources/SmallLightServices/DefaultActionOrchestrator.swift:68-71 | when the fresh staging location did not exist before, undo as written fails and the item is gone |
| Orchestration.UndoFromStagedOriginal | Sources/SmallLightServices/FileUndoStagingManager.swift:50-59 | the corrected undo restores from the staged original, and on success the item holds the staged subtree |
| Orchestration.StagedUndoRoundTrip | Sources/SmallLightServices/FileUndoStagingManager.swift:40-59 | staging then the corrected undo succeeds and brings back exactly the subtree the item had when it was staged |
| ConfirmationTracking.PathKey | Sources/SmallLightServices/UserDefaultsConfirmationTracker.swift:36-38 | the key of a URL is its standardized path |
| ConfirmationTracking.Marked | Sources/SmallLightServices/UserDefaultsConfirmationTracker.swift:22-27 | after marking, the path no longer needs confirmation, and every path with another key is unchanged |
| ConfirmationTracking.Reset | Sources/SmallLightServices/UserDefaultsConfirmationTracker.swift:29-34 | after a reset, the path needs confirmation again, and every path with another key is unchanged |
| ConfirmationTracking.MarkIdempotent | Sources/SmallLightServices/UserDefaultsConfirmationTracker.swift:22-27 | marking twice is marking once |
| ConfirmationTracking.ResetUndoesMark | Tests/SmallLightTests/ConfirmationTrackerTests.swift:42-51 | resetting a path that was just marked restores the previous set |
| ConfirmationTracking.StandardizedPathShared | Sources/SmallLightServices/UserDefaultsConfirmationTracker.swift:36-38 | a path and its standardized form share one status |
| ConfirmationTracking.PersistedReloads | Sources/SmallLightServices/UserDefaultsConfirmationTracker.swift:10-42 | the persisted array reads back as the same set |
| ConfirmationTracking.ConfirmationTracker.constructor | Sources/SmallLightServices/UserDefaultsConfirmationTracker.swift:10-14 | a new tracker starts from the set stored under its key |
| ConfirmationTracking.ConfirmationTracker.NeedsConfirmation | Sources/SmallLightServices/UserDefaultsConfirmationTracker.swift:16-20 | needs confirmation exactly when the path's key is not in the set |
| ConfirmationTracking.ConfirmationTracker.MarkConfirmed | Sources/SmallLightServices/UserDefaultsConfirmationTracker.swift:22-27 | the set follows `Marked` and is written back |
| ConfirmationTracking.ConfirmationTracker.ResetConfirmation | Sources/SmallLightServices/UserDefaultsConfirmationTracker.swift:29-34 | the set follows `Reset` and is written back |
| ConfirmationTracking.PersistenceAcrossInstances | Tests/SmallLightTests/ConfirmationTrackerTests.swift:32-40 | a path marked by one tracker does not need confirmation in a new tracker on the same store |
| Paths.Standardize | Sources/SmallLightServices/UserDefaultsConfirmationTracker.swift:37 | standardizing gives a path without "." or ".." components and leaves such paths alone |
| Paths.StandardizeIdempotent | Sources/SmallLightServices/UserDefaultsConfirmationTracker.swift:37 | standardizing twice is standardizing once |
| Paths.DeletingPathExtension | Sources/SmallLightAppHost/Services/ZipHandler.swift:61 | dropping the extension gives the name before the last dot, so name = base + "." + extension |
| Text.NatToStringInjective | Sources/SmallLightAppHost/Services/ZipHandler.swift:67 | decimal renderings of distinct numbers differ |
| Text.Trim | Sources/SmallLightAppHost/Services/ZipHandler.swift:96-98 | the result is a window of the input with only whitespace outside it, and it neither starts nor ends with whitespace |
| Text.TrimIsTheWindow | Sources/SmallLightAppHost/Services/ZipHandler.swift:96-98 | any window with only whitespace outside it and no whitespace at its ends is the trimmed string, so trimming is determined by the input |
| HotKeyRegistration.Dispatched | Sources/SmallLightAppHost/Interaction/HotKeyCenter.swift:30-33 | a handler fires for a pressed event and never for a released one |
| HotKeyRegistration.HotKeyCenter.constructor | Sources/SmallLightAppHost/Interaction/HotKeyCenter.swift:21-23 | a new center holds no registrations |
| HotKeyRegistration.HotKeyCenter.UnregisterAll | Sources/SmallLightAppHost/Interaction/HotKeyCenter.swift:42-45 | every token is unregistered, in order, and the list is emptied |
| HotKeyRegistration.HotKeyCenter.Register | Sources/SmallLightAppHost/Interaction/HotKeyCenter.swift:25-40 | existing registrations are unregistered first; success holds one registration per entry, in entry order, each from a fresh registrar; the first failure unregisters everything made so far, empties the list and rethrows |
| HotKeyRegistration.HotKeyCenter.RegisterEach | Sources/SmallLightAppHost/Interaction/HotKeyCenter.swift:27-39 | the loop from an empty list: the same outcome, with the unregistering limited to this run's tokens |
| HotKeyManagement.ChordActiveAfter | Sources/SmallLightServices/DefaultHotKeyManager.swift:35-42 | pressed sets the chord active and released clears it |
| HotKeyManagement.DefaultHotKeyManager.constructor | Sources/SmallLightServices/DefaultHotKeyManager.swift:17 | a new manager holds no token and has made no registrar calls |
| HotKeyManagement.DefaultHotKeyManager.Register | Sources/SmallLightServices/DefaultHotKeyManager.swift:22-27 | the previous token is unregistered before the chord is registered; a success keeps the new token; a failure is rethrown and the token field is left as it was; the chord-active state is untouched |
| HotKeyManagement.DefaultHotKeyManager.Unregister | Sources/SmallLightServices/DefaultHotKeyManager.swift:29-33 | the token is unregistered and dropped, and the chord-active state is forced to false |
| HotKeyManagement.DefaultHotKeyManager.Handle | Sources/SmallLightServices/DefaultHotKeyManager.swift:35-42 | the chord-active state follows `ChordActiveAfter` |
| HotKeyManagement.EventsToggleThenUnregisterResets | Tests/SmallLightTests/HotKeyManagerTests.swift:7-36 | press reads active, release reads inactive, and unregister leaves it inactive |
| HotKeyState.InMemoryHotKeyState.constructor | Sources/SmallLightServices/InMemoryHotKeyState.swift:8-10 | the initial value is the argument |
| HotKeyState.InMemoryHotKeyState.Inactive | Sources/SmallLightServices/InMemoryHotKeyState.swift:8 | the default initial value is false |
| HotKeyState.InMemoryHotKeyState.SetModifierChordActive | Sources/SmallLightServices/InMemoryHotKeyState.swift:18-22 | a read after a set returns the value set |
| HotKeyState.SetTwice | Tests/SmallLightTests/HotKeyManagerTests.swift:20-21 | setting false after true reads back false |
| HUD.Appended | Sources/SmallLightUI/HUDViewModel.swift:33-38 | the new entry comes first, older entries follow in order shifted by one, and only the oldest beyond the limit are dropped |
| HUD.AppendedWithinLimit | Tests/SmallLightUITests/HUDViewModelTests.swift:15-24 | the history never exceeds the limit, and below it grows by exactly one |
| HUD.HUDViewModel.constructor | Sources/SmallLightUI/HUDViewModel.swift:26-30 | a new view model has an empty history and the given limit and flags |
| HUD.HUDViewModel.Append | Sources/SmallLightUI/HUDViewModel.swift:33-38 | the history follows `Appended` and nothing else changes |
| HUD.HUDViewModel.UpdateAccessibility | Sources/SmallLightUI/HUDViewModel.swift:40-42 | only the accessibility flag changes |
| AppStatus.StatusFor | Sources/SmallLightUI/AppViewModel.swift:17-37 | compress, decompress and none give "Compress ready", "Decompress ready" and "Watching", all listening; nil gives "Idle" and an error "Error", neither listening |
| AppStatus.InactiveChordShowsIdle | Sources/SmallLightUI/AppViewModel.swift:17-31 | with the chord inactive, the status is the initial "Idle", not listening |
| AppStatus.HeldChordShowsItemStatus | Tests/SmallLightUITests/MenuBarViewModelTests.swift:26-28 | with the chord held over an item, the status follows the action chosen for it |
| AppStatus.AppViewModel.constructor | Sources/SmallLightUI/AppViewModel.swift:8-9 | the initial state is "Idle" and not listening |
| AppStatus.AppViewModel.RefreshState | Sources/SmallLightUI/AppViewModel.swift:17-37 | the state follows `StatusFor` |
| Preferences.Chord | Sources/SmallLightAppHost/PreferencesView.swift:151-160 | controlOptionL is 37 with control and option, optionShiftSpace is 49 with option and shift, commandOptionSpace is 49 with command and option |
| Preferences.FirstMatching | Sources/SmallLightAppHost/PreferencesView.swift:174-177 | the search finds a listed preset with that chord, and finds none exactly when no listed preset has it |
| Preferences.PresetFrom | Sources/SmallLightAppHost/PreferencesView.swift:173-179 | a chord of some preset maps to a preset with that chord; any other chord maps to controlOptionL |
| Preferences.ChordsDistinct | Sources/SmallLightAppHost/PreferencesView.swift:151-160 | the three chords are pairwise distinct |
| Preferences.PresetRoundTrip | Sources/SmallLightAppHost/PreferencesView.swift:173-177 | mapping a preset's chord back gives the preset |
| Preferences.DefaultChordIsControlOptionL | Sources/SmallLightDomain/HotKeyModels.swift:40 | the default action chord maps to controlOptionL |
| Preferences.StoredAssetPath | Sources/SmallLightAppHost/PreferencesView.swift:58-61 | an empty path is stored as nil, any other path as itself |
| Preferences.AssetPathRoundTrip | Sources/SmallLightAppHost/PreferencesView.swift:25-61 | storing the shown path and showing it again gives the same path |
| Preferences.PreferencesStore.constructor | Sources/SmallLightAppHost/PreferencesStore.swift:38-76 | the store holds the three preferences it is given |
| Preferences.EveryPresetListed | Sources/SmallLightAppHost/PreferencesView.swift:144-150 | every preset is in the list of all presets |
| Preferences.PreferencesViewModel.constructor | Sources/SmallLightAppHost/PreferencesView.swift:20-32 | a new view model shows the store's values and is not inside a refresh |
| Preferences.PreferencesViewModel.RefreshFromStore | Sources/SmallLightAppHost/PreferencesView.swift:34-41 | afterwards the view model shows the store, and the guard is off again |
| Preferences.PreferencesViewModel.OnLaunchAtLoginChanged | Sources/SmallLightAppHost/PreferencesView.swift:48-56 | inside a refresh nothing is written; otherwise the store gets the flag and the launch agent is asked once |
| Preferences.PreferencesViewModel.OnAssetPathChanged | Sources/SmallLightAppHost/PreferencesView.swift:58-61 | inside a refresh nothing is written; otherwise the store gets `StoredAssetPath` of the field |
| Preferences.PreferencesViewModel.OnHotKeyChanged | Sources/SmallLightAppHost/PreferencesView.swift:63-66 | inside a refresh nothing is written; otherwise the store gets the preset's chord |
| Preferences.ChosenPresetSurvivesRefresh | Sources/SmallLightAppHost/PreferencesView.swift:34-66 | a preset chosen and written to the store is still selected after the refresh that follows |
| AccessibilityPrompt.PromptDue | Sources/SmallLightAppHost/Coordination/AppCoordinator.swift:165-174 | trusted never prompts; no recorded prompt (≤ 0) prompts; otherwise it prompts exactly when more than 3600 s have elapsed |
| AccessibilityPrompt.RecordedPromptSuppresses | Sources/SmallLightAppHost/Coordination/AppCoordinator.swift:159-178 | after recording a prompt, the next one is due exactly when more than an hour has passed |
| AccessibilityPrompt.ResetMakesPromptDue | Sources/SmallLightAppHost/Coordination/AppCoordinator.swift:170-182 | after a reset, an untrusted process is prompted |
| AccessibilityPrompt.AccessibilityPromptController.constructor | Sources/SmallLightAppHost/Coordination/AppCoordinator.swift:161-163 | the controller works on the given defaults |
| AccessibilityPrompt.AccessibilityPromptController.ShouldPrompt | Sources/SmallLightAppHost/Coordination/AppCoordinator.swift:165-174 | the answer follows `PromptDue`; when trusted, the recorded time is cleared, and otherwise nothing is written |
| AccessibilityPrompt.AccessibilityPromptController.RecordPrompt | Sources/SmallLightAppHost/Coordination/AppCoordinator.swift:176-178 | the current time is stored under the prompt key |
| AccessibilityPrompt.AccessibilityPromptController.Reset | Sources/SmallLightAppHost/Coordination/AppCoordinator.swift:180-182 | the prompt key is removed |
| Coordination.DedupKey | Sources/SmallLightAppHost/Coordination/AppCoordinator+Behavior.swift:277 | the dedup key is "<path>::resolve" |
| Coordination.DedupKeyDeterminesPath | Sources/SmallLightAppHost/Coordination/AppCoordinator+Behavior.swift:277 | two items share a key exactly when their paths print as the same `url.path` string |
| Coordination.MakeFinderItem | Sources/SmallLightAppHost/Coordination/AppCoordinator+Behavior.swift:388-398 | the Finder item and URL carry the resolution's path and flags |
| Coordination.RouteFor | Sources/SmallLightAppHost/Coordination/AppCoordinator+Behavior.swift:144-153 | an archive under zip mode auto goes to extraction; otherwise a directory goes to compression; anything else gets only an informational entry |
| Coordination.RouteMatchesDecision | Sources/SmallLightAppHost/Coordination/AppCoordinator+Behavior.swift:144-153 | routing and `Decide` differ only on an archive that is a directory: the coordinator extracts it where the orchestrator would compress it |
| Coordination.ContextMessage | Sources/SmallLightAppHost/Coordination/AppCoordinator+Behavior.swift:297-305 | the informational line names the parent directory, as a folder or a file message |
| Coordination.RunActionAgreesWithPerform | Sources/SmallLightAppHost/Coordination/AppCoordinator+Behavior.swift:173-265 | the compress handler makes the same calls as `perform` and leaves the same world; it succeeds whenever `perform` does, with the same destination, and the two differ only when the audit record fails |
| Coordination.RunAction | Sources/SmallLightAppHost/Coordination/AppCoordinator+Behavior.swift:173-265 | a handler calls stagingURL, stageOriginal, then the extraction or the compression into the parent directory, then the audit; each runs only after the earlier ones succeeded; an audit failure is swallowed; the audit is written exactly when the handler succeeds; the log is what the services answered, and the world returned is the one the last call left |
| Coordination.HandlerEntries | Sources/SmallLightAppHost/Coordination/AppCoordinator+Behavior.swift:363-386 | success shows the staging location, the staged original and the destination; failure shows one line at the item's path carrying the error's description |
| Coordination.PresentedAllNewestFirst | Sources/SmallLightUI/HUDViewModel.swift:33-38 | presenting several entries in order leaves the newest first, trimmed to the limit |
| Coordination.FailedHandlingReleasesKey | Sources/SmallLightAppHost/Coordination/AppCoordinator+Behavior.swift:203-253 | after a failed handler removes its key, the item is no longer a duplicate |
| Coordination.ClearedResolveKeyIsFree | Sources/SmallLightAppHost/Coordination/AppCoordinator+Behavior.swift:86-89 | clearing a path's key for the "resolve" action frees the very key the resolution gate records, so the item is no longer a duplicate at any time |
| Coordination.SucceededHandlingKeepsKey | Sources/SmallLightAppHost/Coordination/AppCoordinator+Behavior.swift:282 | after a successful handler, the item stays a duplicate for the TTL |
| Coordination.AppCoordinator.constructor | Sources/SmallLightAppHost/Coordination/AppCoordinator.swift:21-106 | a new coordinator is idle, with the HUD hidden, no accessibility warning given and no calls made |
| Coordination.AppCoordinator.Start | Sources/SmallLightAppHost/Coordination/AppCoordinator+Behavior.swift:9-20 | from idle, start enters watching with the HUD hidden and registers the three application hot keys all or nothing: when every registrar accepts its chord the center holds exactly those registrations, otherwise it holds none; from any other mode the mode, the HUD and the hot keys are unchanged; the dedup store, the calls and the world are never touched |
| Coordination.AppCoordinator.Stop | Sources/SmallLightAppHost/Coordination/AppCoordinator+Behavior.swift:22-30 | from watching, stop leaves no hot key registered and ends in idle; from any other mode the mode and the hot keys are unchanged; the HUD's visibility is kept |
| Coordination.AppCoordinator.Present | Sources/SmallLightAppHost/Coordination/AppCoordinator+Behavior.swift:47-53 | the HUD history follows `Appended` with the entry |
| Coordination.AppCoordinator.PresentAll | Sources/SmallLightAppHost/Coordination/AppCoordinator+Behavior.swift:47-53 | the HUD history follows appending each entry in order |
| Coordination.AppCoordinator.HandleAction | Sources/SmallLightAppHost/Coordination/AppCoordinator+Behavior.swift:173-265 | the calls and world follow `RunAction`, the HUD gets `HandlerEntries`, and a failure removes the dedup key |
| Coordination.AppCoordinator.ClearDedupKey | Sources/SmallLightAppHost/Coordination/AppCoordinator+Behavior.swift:86-89 | the store afterwards is the old store with every entry of "<path>::<action>" removed |
| Coordination.AppCoordinator.HandleResolvedItem | Sources/SmallLightAppHost/Coordination/AppCoordinator+Behavior.swift:144-153 | the route chosen by `RouteFor` decides between the informational entry, extraction and compression |
| Coordination.AppCoordinator.Resolve | Sources/SmallLightAppHost/Coordination/AppCoordinator+Behavior.swift:270-295 | nothing found, or a resolver error, changes neither the store nor the calls nor the HUD history; a missing accessibility permission warns once and clears the HUD's flag; without the bypass a key still in the store only purges the store; otherwise the key ends up recorded |
| Coordination.AppCoordinator.HandleAccessibilityWarning | Sources/SmallLightAppHost/Coordination/AppCoordinator+Behavior.swift:155-164 | the warning is shown only the first time and clears the HUD's accessibility flag |
| Coordination.AppCoordinator.HandleHoverEvent | Sources/SmallLightAppHost/Coordination/AppCoordinator+Behavior.swift:134-137 | a hover resolves with the dedup gate: an item whose key is still in the store makes no calls and adds no HUD entry, and a new item's key is recorded |
| Coordination.AppCoordinator.ManualResolve | Sources/SmallLightAppHost/Coordination/AppCoordinator+Behavior.swift:55-60 | manual resolve bypasses the gate, so the item's key is recorded even when it was a duplicate |

## Left out

- Event tap, run-loop source, dispatch queues and `Task { @MainActor }` hops: OS plumbing and
  concurrency. Each handler is modelled as running to completion in the order it was queued.
  The driver's timer is an optional deadline, and its callbacks are logs.
- Locks (`queue.sync` in the dedup store, the confirmation tracker and the hot-key state):
  these only serialise access, so the methods are sequential.
- Floating point: times, intervals and coordinates are reals without IEEE rounding. The
  preferences' day/second conversion and the undo-retention field are not modelled, because
  they are float arithmetic over a value the core does not use.
- Finder item resolution (`FinderItemResolver`, the Accessibility and AppleScript services):
  foreign AX and NSAppleScript calls. What the resolver returns or throws is an input to
  `Coordination.AppCoordinator.Resolve`.
- Process spawning: the ditto process and `DefaultProcessLauncher` are reduced to their
  outcome (`ZipHandling.ToolRun`, `Compression.Launcher`), a function of the arguments and the
  disk. Real file contents, standard-error pipes and exit codes beyond the status are not modelled.
- The audit logger's JSON encoding and file append, `PreferencesStore`'s UserDefaults encoding
  and `LaunchAgentManager`: persistence wrappers. The audit logger and the launch agent are
  collaborators whose calls are logged.
- Carbon hot-key registration: foreign calls. The registrar is a function from
  (registrar number, chord) to a token or an error.
- UI: windows, the NSAlert, NSWorkspace, the pasteboard and the HUD's auto-copy,
  `toggleHUDVisibility` and `focusHUD` (window state only), and `verifyAccessibilityPermissions`,
  which calls AX and shows an alert.
- The persisted confirmed-path array is modelled as a set, so the order in which the array is
  written out is not modelled.
- Coordination.AppCoordinator.Resolve: for an item that passes the gate it states only that
  the key is recorded; what the handler then does is stated by
  `Coordination.AppCoordinator.HandleResolvedItem`.
- Coordination.AppCoordinator.HandleHoverEvent: likewise states only that a new item's key is
  recorded, not the handler's effects.
- Coordination.AppCoordinator.ManualResolve: likewise states only that the key is recorded.
- Orchestration.UndoLastActionOnDisk: states only well-formedness; what the as-written undo
  does to the item is stated by `Orchestration.UndoLastActionLosesItem`, and
  `Orchestration.UndoOnStoreIsUndoLastActionOnDisk` shows that it is `Orchestration.Undo` with
  the staging store as collaborator.
- Orchestration.OnStore: every staging call in a run uses the world's one timestamp and one
  UUID; the clock and the UUID generator are not advanced between calls.
- Deduplication.Record and Deduplication.DeduplicationStore.RecordKey: require a positive
  capacity. With capacity 0 the source indexes an empty ring (`ring[index]`) and traps, and
  the model does not model that crash.
- Coordination.AppCoordinator.Start: registers the default chords (`HotKeyEntries`), while the
  source reads `settings.focusHotKey`, `settings.manualResolveHotKey` and
  `settings.toggleHUDHotKey`; the settings object is not part of this model.
- Confirmation gating through `acknowledgeConfirmation`, and retention pruning
  (`cleanupExpiredArtifacts`): some tests call these, but the orchestrator and the staging
  manager have no such members, so the model follows the code.

## Findings

| source | as written | input that shows it | evidently intended | confidence | as-written member | corrected member |
|---|---|---|---|---|---|---|
| Sources/SmallLightServices/DefaultActionOrchestrator.swift:68-71 | undo asks `stagingURL` for a fresh location (a new timestamp directory) and restores from it; `restore` first removes the item at the destination, then copies from the staging location | any existing item whose fresh staging location did not exist before the call, with `FileUndoStagingManager` as the staging store | restore from the staged original that `stageOriginal` returned when the action ran, so the item comes back as it was | not executed | Orchestration.UndoOnStoreLosesItem | Orchestration.StagedUndoRoundTrip |

## Notes on the code

- The dedup store overwrites `ring[index]` once it is full. After a purge or a removal has
  shifted the ring, that slot need not hold the oldest entry, so "the oldest is evicted" does
  not hold in general. The model follows the code, and `Deduplication.EvictionIsNotOldest`
  shows a case where it differs.
- The coordinator routes an archive to extraction before it checks for a directory. The
  orchestrator checks for a directory first. `Coordination.RouteMatchesDecision` states that
  the two disagree exactly on an archive that is also a directory.
- `stop` leaves `hudVisible` as it was; only `start` resets it.
- When `DefaultHotKeyManager.register` fails, the previous token has already been unregistered
  but is still held.
