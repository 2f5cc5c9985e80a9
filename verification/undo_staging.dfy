/** `FileUndoStagingManager`: staging directories per action and timestamp, copies of
    originals under a fresh name, and restoring a staged item over a destination. The ISO-8601
    timestamp and the UUID are parameters: the formatter's output and a fresh-name oracle. */
module UndoStaging {
  import opened Wrappers
  import opened Paths
  import opened FileSystem
  import opened Domain

  /** `SmallLightAction.folderName`. */
  function FolderName(action: SmallLightAction): (r: string)
    ensures action == Compress ==> r == "compress"
    ensures action == Decompress ==> r == "decompress"
    ensures action == NoAction ==> r == "noop"
  {
    match action
    case Compress => "compress"
    case Decompress => "decompress"
    case NoAction => "noop"
  }

  /** Each action stages into its own folder. */
  lemma FolderNamesDistinct(a: SmallLightAction, b: SmallLightAction)
    requires FolderName(a) == FolderName(b)
    ensures a == b
  {
    assert FolderName(a)[0] == FolderName(b)[0];
  }

  function StagingDirectory(root: Path, action: SmallLightAction, timestamp: string): Path {
    root + [FolderName(action), timestamp]
  }

  function StagingPath(root: Path, action: SmallLightAction, timestamp: string, item: FinderItem): Path {
    StagingDirectory(root, action, timestamp) + [LastComponent(item.path)]
  }

  function OriginalsDirectory(root: Path): Path {
    root + ["originals"]
  }

  /** `stagingURL(for:action:)`: creates root/folder/timestamp with its intermediates and names
      the item's last component inside it, which lies under the root in the action's folder. */
  function StagingURL(d: Disk, root: Path, timestamp: string, item: FinderItem, action: SmallLightAction)
    : (r: (Disk, Result<Path, FsError>))
    requires WellFormed(d)
    ensures WellFormed(r.0)
    ensures r.1.Ok? <==> CreateDirectories(d, StagingDirectory(root, action, timestamp)).Ok?
    ensures r.1.Ok? ==>
      && r.1.value == StagingPath(root, action, timestamp, item)
      && IsDirectory(r.0, StagingDirectory(root, action, timestamp))
      && IsPrefix(root, r.1.value) && r.1.value[|root|] == FolderName(action)
      && forall q :: q in d ==> q in r.0 && r.0[q] == d[q]
    ensures r.1.Err? ==> r.0 == d
  {
    var directory := StagingDirectory(root, action, timestamp);
    match CreateDirectories(d, directory)
    case Err(e) => (d, Err(e))
    case Ok(d1) =>
      assert (directory + [LastComponent(item.path)])[..|root|] == root;
      (d1, Ok(directory + [LastComponent(item.path)]))
  }

  /** A path below `src + s` that is not below `src` lies on the way from `src` to it. */
  lemma PrefixOfExtension(p: Path, src: Path, s: Path)
    requires IsPrefix(p, src + s)
    ensures IsPrefix(p, src) || IsPrefix(src, p)
  {
    if |p| <= |src| {
      assert p == (src + s)[..|p|] == src[..|p|];
    } else {
      assert src == (src + s)[..|src|] == p[..|src|];
    }
  }

  /** Removing `dst` leaves the subtree of an entry that is neither above nor below it alone. */
  lemma DisjointSubtreeKept(d: Disk, p: Path, src: Path)
    requires !IsPrefix(p, src) && !IsPrefix(src, p)
    ensures Subtree(Outside(d, p), src) == Subtree(d, src)
  {
    forall s | src + s in d ensures !IsPrefix(p, src + s) {
      if IsPrefix(p, src + s) {
        PrefixOfExtension(p, src, s);
      }
    }
  }

  /** `safeCopyItem(at:to:)`: removes whatever is at the destination and copies the source
      there, so the destination ends up holding exactly the source's subtree. */
  function SafeCopy(d: Disk, src: Path, dst: Path): (r: (Disk, Result<(), FsError>))
    requires WellFormed(d)
    ensures WellFormed(r.0)
    ensures r.1.Ok? <==>
      src in d && dst != [] && IsDirectory(d, Parent(dst)) && !IsPrefix(src, dst) && !IsPrefix(dst, src)
    ensures r.1.Ok? ==> Subtree(r.0, dst) == Subtree(d, src) && Outside(r.0, dst) == Outside(d, dst)
    ensures r.1.Ok? ==> !IsPrefix(dst, src) && Subtree(r.0, src) == Subtree(d, src)
  {
    if dst in d then
      match RemoveItem(d, dst)
      case Err(e) => (d, Err(e))
      case Ok(d1) =>
        SafeCopyFacts(d, d1, src, dst);
        Applied(d1, CopyItem(d1, src, dst))
    else
      SafeCopyFresh(d, src, dst);
      Applied(d, CopyItem(d, src, dst))
  }

  lemma SafeCopyFacts(d: Disk, d1: Disk, src: Path, dst: Path)
    requires WellFormed(d) && dst in d && dst != [] && d1 == Outside(d, dst) && WellFormed(d1)
    ensures CopyItem(d1, src, dst).Ok? <==>
      src in d && IsDirectory(d, Parent(dst)) && !IsPrefix(src, dst) && !IsPrefix(dst, src)
    ensures CopyItem(d1, src, dst).Ok? ==>
      && Subtree(d1, src) == Subtree(d, src) && Outside(d1, dst) == Outside(d, dst)
      && Subtree(CopyItem(d1, src, dst).value, src) == Subtree(d, src)
  {
    assert |Parent(dst)| < |dst|;
    assert IsDirectory(d1, Parent(dst)) <==> IsDirectory(d, Parent(dst));
    if CopyItem(d1, src, dst).Ok? {
      DisjointSubtreeKept(d, dst, src);
      var r := CopyItem(d1, src, dst).value;
      DisjointSubtreeKept(r, dst, src);
      assert Subtree(Outside(r, dst), src) == Subtree(Outside(d1, dst), src);
      DisjointSubtreeKept(d1, dst, src);
    }
  }

  lemma SafeCopyFresh(d: Disk, src: Path, dst: Path)
    requires WellFormed(d) && dst !in d
    ensures dst != []
    ensures src in d ==> !IsPrefix(dst, src)
    ensures CopyItem(d, src, dst).Ok? ==> Subtree(CopyItem(d, src, dst).value, src) == Subtree(d, src)
  {
    if src in d {
      AncestorsAreDirectories(d, src);
      assert src[..|src|] == src;
      assert forall k :: 0 <= k <= |src| ==> src[..k] in d;
    }
    if CopyItem(d, src, dst).Ok? {
      var r := CopyItem(d, src, dst).value;
      DisjointSubtreeKept(r, dst, src);
      DisjointSubtreeKept(d, dst, src);
    }
  }

  /** Where `stageOriginal(at:)` puts the copy: root/originals/"<UUID>-<last component>". */
  function StagedOriginalPath(root: Path, uuid: string, src: Path): Path {
    OriginalsDirectory(root) + [uuid + "-" + LastComponent(src)]
  }

  /** `stageOriginal(at:)`: creates root/originals, then copies the item there under
      "<UUID>-<last component>". It succeeds exactly when the originals directory can be
      created and the item exists and is neither above nor below its staged path; the staged
      copy then holds exactly the item's subtree, and no entry outside the staged path
      changes. */
  function StageOriginal(d: Disk, root: Path, uuid: string, src: Path): (r: (Disk, Result<Path, FsError>))
    requires WellFormed(d)
    ensures WellFormed(r.0)
    ensures r.1.Ok? <==>
      && CreateDirectories(d, OriginalsDirectory(root)).Ok? && src in d
      && !IsPrefix(src, StagedOriginalPath(root, uuid, src)) && !IsPrefix(StagedOriginalPath(root, uuid, src), src)
    ensures r.1.Ok? ==>
      && r.1.value == StagedOriginalPath(root, uuid, src)
      && Subtree(r.0, r.1.value) == Subtree(d, src)
      && Subtree(r.0, src) == Subtree(d, src)
      && !IsPrefix(src, r.1.value) && !IsPrefix(r.1.value, src)
      && src in d && r.1.value in r.0
    ensures r.1.Ok? ==> forall q :: q in d && !IsPrefix(r.1.value, q) ==> q in r.0 && r.0[q] == d[q]
    ensures r.1.Ok? ==> forall q :: q in r.0 && !IsPrefix(r.1.value, q) && q !in d ==>
      IsPrefix(q, OriginalsDirectory(root)) && r.0[q].Directory?
  {
    var directory := OriginalsDirectory(root);
    var destination := StagedOriginalPath(root, uuid, src);
    assert Parent(destination) == directory;
    match CreateDirectories(d, directory)
    case Err(e) => (d, Err(e))
    case Ok(d1) =>
      var (d2, copied) := SafeCopy(d1, src, destination);
      SafeCopyAfterCreating(d, d1, src, destination);
      if copied.Err? then (d2, Err(copied.error))
      else
        NewDirectoriesOutsideSource(d, d1, directory, destination, src);
        SubtreeTopKept(d1, src, d2, destination);
        KeptOutsideDestination(d, d1, d2, destination);
        (d2, Ok(destination))
  }

  /** Once the destination's parent has been created, the safe copy succeeds exactly when the
      source was already there and is neither above nor below the destination: the new
      directories all lie above the destination. */
  lemma SafeCopyAfterCreating(d: Disk, d1: Disk, src: Path, destination: Path)
    requires WellFormed(d) && CreateDirectories(d, Parent(destination)) == Ok(d1)
    ensures SafeCopy(d1, src, destination).1.Ok? <==>
      src in d && destination != [] && !IsPrefix(src, destination) && !IsPrefix(destination, src)
  {
    assert IsPrefix(Parent(destination), destination);
    AboveDirectoryIsAboveDestination(src, [], Parent(destination), destination);
    assert src + [] == src;
  }

  /** After creating directories and then a safe copy to `destination`, the entries outside
      the destination are the old ones plus the new directories. */
  lemma KeptOutsideDestination(d: Disk, d1: Disk, d2: Disk, destination: Path)
    requires forall q :: q in d ==> q in d1 && d1[q] == d[q]
    requires Outside(d2, destination) == Outside(d1, destination)
    ensures forall q :: q in d && !IsPrefix(destination, q) ==> q in d2 && d2[q] == d[q]
    ensures forall q :: q in d2 && !IsPrefix(destination, q) && q !in d ==> q in d1 && d2[q] == d1[q]
  {
    forall q | q in d && !IsPrefix(destination, q) ensures q in d2 && d2[q] == d[q] {
      assert q in Outside(d1, destination);
    }
    forall q | q in d2 && !IsPrefix(destination, q) && q !in d ensures q in d1 && d2[q] == d1[q] {
      assert q in Outside(d2, destination);
    }
  }

  /** A path whose subtree equals that of an existing entry exists itself. */
  lemma SubtreeTopKept(d1: Disk, p1: Path, d2: Disk, p2: Path)
    requires p1 in d1 && Subtree(d2, p2) == Subtree(d1, p1)
    ensures p2 in d2
  {
    assert p1 + [] == p1;
    assert p2 + [] == p2;
    assert [] in Subtree(d1, p1);
  }

  /** Creating the directories on the way to `directory` does not touch the subtree of a
      source that is not above a path inside it. */
  lemma NewDirectoriesOutsideSource(d: Disk, d1: Disk, directory: Path, destination: Path, src: Path)
    requires forall q :: q in d ==> q in d1 && d1[q] == d[q]
    requires forall q :: q in d1 && q !in d ==> IsPrefix(q, directory)
    requires IsPrefix(directory, destination) && !IsPrefix(src, destination)
    ensures Subtree(d1, src) == Subtree(d, src)
    ensures src in d1 ==> src in d
  {
    forall s | src + s in d1 ensures src + s in d {
      AboveDirectoryIsAboveDestination(src, s, directory, destination);
    }
    assert src + [] == src;
  }

  /** An entry below `src` that lies on the way to `directory` puts `src` above `destination`. */
  lemma AboveDirectoryIsAboveDestination(src: Path, s: Path, directory: Path, destination: Path)
    requires IsPrefix(directory, destination)
    ensures IsPrefix(src + s, directory) ==> IsPrefix(src, destination)
  {
    if IsPrefix(src + s, directory) {
      assert destination[..|src + s|] == directory[..|src + s|];
      assert destination[..|src|] == (src + s)[..|src|];
    }
  }

  /** `restore(from:to:)`: creates the destination's parent with its intermediates, then removes
      what is at the destination and copies the staged item there (the source repeats the
      steps of the safe copy). It succeeds exactly when the parent can be created and the
      staged item exists and is neither above nor below the destination; the destination then
      holds the staged subtree, the staged item is still in place, and outside the
      destination only the directories on the way to its parent are new. */
  function Restore(d: Disk, staged: Path, destination: Path): (r: (Disk, Result<(), FsError>))
    requires WellFormed(d)
    ensures WellFormed(r.0)
    ensures r.1.Ok? <==>
      && CreateDirectories(d, Parent(destination)).Ok? && staged in d && destination != []
      && !IsPrefix(staged, destination) && !IsPrefix(destination, staged)
    ensures r.1.Ok? ==>
      && IsDirectory(r.0, Parent(destination))
      && Subtree(r.0, destination) == Subtree(d, staged)
      && Subtree(r.0, staged) == Subtree(d, staged)
    ensures r.1.Ok? ==> forall q :: q in d && !IsPrefix(destination, q) ==> q in r.0 && r.0[q] == d[q]
    ensures r.1.Ok? ==> forall q :: q in r.0 && !IsPrefix(destination, q) && q !in d ==>
      IsPrefix(q, Parent(destination)) && r.0[q].Directory?
  {
    match CreateDirectories(d, Parent(destination))
    case Err(e) => (d, Err(e))
    case Ok(d1) =>
      var (d2, copied) := SafeCopy(d1, staged, destination);
      SafeCopyAfterCreating(d, d1, staged, destination);
      if copied.Ok? then
        RestoreFacts(d, d1, d2, staged, destination);
        KeptOutsideDestination(d, d1, d2, destination);
        (d2, copied)
      else (d2, copied)
  }

  lemma RestoreFacts(d: Disk, d1: Disk, d2: Disk, staged: Path, destination: Path)
    requires WellFormed(d) && WellFormed(d1)
    requires forall q :: q in d ==> q in d1 && d1[q] == d[q]
    requires forall q :: q in d1 && q !in d ==> IsPrefix(q, Parent(destination))
    requires IsDirectory(d1, Parent(destination))
    requires SafeCopy(d1, staged, destination) == (d2, Ok(()))
    ensures IsDirectory(d2, Parent(destination))
    ensures Subtree(d1, staged) == Subtree(d, staged)
  {
    assert destination != [];
    assert IsPrefix(Parent(destination), destination);
    NewDirectoriesOutsideSource(d, d1, Parent(destination), destination, staged);
    assert Parent(destination) in Outside(d2, destination);
  }

  /** The staging manager with its root; every call goes through the shared file manager. */
  class FileUndoStagingManager {
    const root: Path
    const fileManager: FileManager

    constructor (root: Path, fileManager: FileManager)
      ensures this.root == root && this.fileManager == fileManager
    {
      this.root := root;
      this.fileManager := fileManager;
    }

    method StagingURLFor(item: FinderItem, action: SmallLightAction, timestamp: string) returns (r: Result<Path, FsError>)
      requires fileManager.Valid()
      modifies fileManager
      ensures fileManager.Valid()
      ensures (fileManager.disk, r) == StagingURL(old(fileManager.disk), root, timestamp, item, action)
    {
      var directory := StagingDirectory(root, action, timestamp);
      var created := fileManager.CreateDirectoryAt(directory, true);
      if created.Err? {
        return Err(created.error);
      }
      return Ok(directory + [LastComponent(item.path)]);
    }

    method SafeCopyItem(src: Path, dst: Path) returns (r: Result<(), FsError>)
      requires fileManager.Valid()
      modifies fileManager
      ensures fileManager.Valid()
      ensures (fileManager.disk, r) == SafeCopy(old(fileManager.disk), src, dst)
    {
      if fileManager.FileExists(dst) {
        var removed := fileManager.RemoveItemAt(dst);
        if removed.Err? {
          return removed;
        }
      }
      r := fileManager.CopyItemAt(src, dst);
    }

    method StageOriginalAt(src: Path, uuid: string) returns (r: Result<Path, FsError>)
      requires fileManager.Valid()
      modifies fileManager
      ensures fileManager.Valid()
      ensures (fileManager.disk, r) == StageOriginal(old(fileManager.disk), root, uuid, src)
    {
      var directory := OriginalsDirectory(root);
      var created := fileManager.CreateDirectoryAt(directory, true);
      if created.Err? {
        return Err(created.error);
      }
      var destination := StagedOriginalPath(root, uuid, src);
      var copied := SafeCopyItem(src, destination);
      if copied.Err? {
        return Err(copied.error);
      }
      return Ok(destination);
    }

    method RestoreFrom(staged: Path, destination: Path) returns (r: Result<(), FsError>)
      requires fileManager.Valid()
      modifies fileManager
      ensures fileManager.Valid()
      ensures (fileManager.disk, r) == Restore(old(fileManager.disk), staged, destination)
    {
      var created := fileManager.CreateDirectoryAt(Parent(destination), true);
      if created.Err? {
        return created;
      }
      r := SafeCopyItem(staged, destination);
    }
  }
}
