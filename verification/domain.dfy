/** The shared vocabulary of the services: actions, Finder items, decisions, the error cases
    of every layer, hot-key chords and the default settings. */
module Domain {
  import opened FileSystem
  import opened Paths

  /** `SmallLightAction`. */
  datatype SmallLightAction = Compress | Decompress | NoAction

  /** `FinderItem`: a file URL (as a path) and what the resolver saw there. */
  datatype FinderItem = FinderItem(path: Path, isDirectory: bool, isArchive: bool)

  /** `ActionDecision`. */
  datatype ActionDecision = ActionDecision(item: FinderItem, intendedAction: SmallLightAction, requiresConfirmation: bool)

  /** Why the process launcher failed: the tool could not be started, or it exited with a
      non-zero status (`ProcessLauncherError.commandFailed`). */
  datatype LauncherFailure = CouldNotLaunch(description: string) | CommandFailed(exitCode: int)

  /** `SmallLightError`; the failure reasons carry the launcher's error itself. */
  datatype SmallLightError =
    | FinderAccessDenied
    | ItemUnavailable
    | CompressionFailed(reason: LauncherFailure)
    | DecompressionFailed(reason: LauncherFailure)
    | ConfirmationPending
    | UndoUnavailable

  /** `ZipHandlerError`. */
  datatype ZipHandlerError = NotAZip | DittoFailed(code: int, message: string)

  /** Any error a collaborator can throw. */
  datatype Failure =
    | Domain(error: SmallLightError)
    | FileSystemFailure(fsError: FsError)
    | Zip(zipError: ZipHandlerError)
    | Launcher(launcherError: LauncherFailure)
    | Collaborator(description: string)

  /** `HotKeyModifiers`, an option set over 32 bits. */
  type HotKeyModifiers = bv32

  const ModifierCommand: HotKeyModifiers := 1
  const ModifierOption: HotKeyModifiers := 2
  const ModifierShift: HotKeyModifiers := 4
  const ModifierControl: HotKeyModifiers := 8

  datatype HotKeyChord = HotKeyChord(keyCode: bv32, modifiers: HotKeyModifiers)

  datatype HotKeyEventKind = Pressed | Released

  /** `HotKeyChord.defaultActionChord`: key code 37 with Option and Control. */
  const DefaultActionChord: HotKeyChord := HotKeyChord(37, ModifierOption | ModifierControl)

  /** The defaults of the trigger, HUD and deduplication settings. */
  const DefaultDwellThreshold: real := 0.2
  const DefaultDebounceInterval: real := 0.08
  const DefaultHistoryLimit: int := 5
  const DefaultDedupTtl: real := 3.0
  const DefaultDedupCapacity: nat := 256

  datatype ZipMode = Auto | Prompt

  const DefaultZipMode: ZipMode := Auto
}
