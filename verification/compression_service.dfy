/** `FileCompressionService`: zipping an item next to itself and unzipping an archive into a
    fresh directory, both through `ditto`. The process launcher is an oracle: given the
    argument vector and the disk it either fails or leaves a new disk. */
module Compression {
  import opened Wrappers
  import opened Text
  import opened Paths
  import opened FileSystem
  import opened Domain

  /** `ProcessLaunching.run(arguments:)`: the disk `ditto` leaves, or why it failed. */
  type Launcher = (seq<string>, Disk) -> Result<Disk, LauncherFailure>

  /** The tool leaves a well-formed disk behind whenever it succeeds. */
  ghost predicate KeepsWellFormed(launcher: Launcher) {
    forall args, d :: WellFormed(d) && launcher(args, d).Ok? ==> WellFormed(launcher(args, d).value)
  }

  /** destinationDirectory/<item's last component>.zip */
  function CompressDestination(destinationDirectory: Path, item: FinderItem): (r: Path)
    ensures Parent(r) == destinationDirectory && LastComponent(r) == LastComponent(item.path) + ".zip"
  {
    destinationDirectory + [LastComponent(item.path) + ".zip"]
  }

  function CompressArguments(source: Path, destination: Path): (r: seq<string>)
    ensures |r| == 7 && r[5] == PathString(source) && r[6] == PathString(destination)
    ensures r[..5] == ["ditto", "-c", "-k", "--sequesterRsrc", "--keepParent"]
  {
    ["ditto", "-c", "-k", "--sequesterRsrc", "--keepParent", PathString(source), PathString(destination)]
  }

  /** Creating the destination's directory and removing whatever is at the destination: on
      success the directory exists and the destination is free. */
  function PrepareArchiveDestination(d: Disk, destination: Path): (r: Result<Disk, FsError>)
    requires WellFormed(d) && destination != []
    ensures r.Ok? <==> CreateDirectories(d, Parent(destination)).Ok?
    ensures r.Ok? ==> WellFormed(r.value) && destination !in r.value && IsDirectory(r.value, Parent(destination))
    ensures r.Ok? ==> Outside(r.value, destination) == Outside(CreateDirectories(d, Parent(destination)).value, destination)
  {
    match CreateDirectories(d, Parent(destination))
    case Err(e) => Err(e)
    case Ok(d1) =>
      assert IsPrefix(destination, destination);
      assert |Parent(destination)| < |destination|;
      OutsideOutside(d1, destination);
      RemoveItemIfExists(d1, destination)
  }

  lemma OutsideOutside(d: Disk, p: Path)
    ensures Outside(Outside(d, p), p) == Outside(d, p)
  {
  }

  /** `compress(item:destinationDirectory:)`: the launcher runs with exactly the `ditto -c -k
      --sequesterRsrc --keepParent <item> <destination>` vector on a disk where the destination
      is free; its failure becomes `compressionFailed`, its success returns the destination. */
  function CompressItem(d: Disk, item: FinderItem, destinationDirectory: Path, launcher: Launcher)
    : (r: (Disk, Result<Path, Failure>))
    requires WellFormed(d) && KeepsWellFormed(launcher)
    ensures WellFormed(r.0)
    ensures r.1.Ok? ==> r.1.value == CompressDestination(destinationDirectory, item)
    ensures var destination := CompressDestination(destinationDirectory, item);
      var prepared := PrepareArchiveDestination(d, destination);
      && (prepared.Err? ==> r == (d, Err(FileSystemFailure(prepared.error))))
      && (prepared.Ok? ==>
            var run := launcher(CompressArguments(item.path, destination), prepared.value);
            r == if run.Ok? then (run.value, Ok(destination))
                 else (prepared.value, Err(Domain(CompressionFailed(run.error)))))
  {
    var destination := CompressDestination(destinationDirectory, item);
    match PrepareArchiveDestination(d, destination)
    case Err(e) => (d, Err(FileSystemFailure(e)))
    case Ok(d1) =>
      match launcher(CompressArguments(item.path, destination), d1)
      case Err(e) => (d1, Err(Domain(CompressionFailed(e))))
      case Ok(d2) => (d2, Ok(destination))
  }

  /** "<item name without its extension>-<UUID>" */
  function ExtractionRootName(item: FinderItem, uuid: string): string {
    DeletingPathExtension(LastComponent(item.path)) + "-" + uuid
  }

  function DecompressArguments(source: Path, extractionRoot: Path): (r: seq<string>)
    ensures r == ["ditto", "-x", "-k", PathString(source), PathString(extractionRoot)]
  {
    ["ditto", "-x", "-k", PathString(source), PathString(extractionRoot)]
  }

  /** Creating the destination directory, clearing and recreating the extraction root: on
      success the root is an empty directory inside the destination directory. */
  function PrepareExtractionRoot(d: Disk, extractionRoot: Path): (r: Result<Disk, FsError>)
    requires WellFormed(d) && extractionRoot != []
    ensures r.Ok? <==> CreateDirectories(d, Parent(extractionRoot)).Ok?
    ensures r.Ok? ==> WellFormed(r.value) && IsDirectory(r.value, extractionRoot)
    ensures r.Ok? ==> forall q :: q in r.value && IsPrefix(extractionRoot, q) ==> q == extractionRoot
    ensures r.Ok? ==> Outside(r.value, extractionRoot) == Outside(CreateDirectories(d, Parent(extractionRoot)).value, extractionRoot)
  {
    match CreateDirectories(d, Parent(extractionRoot))
    case Err(e) => Err(e)
    case Ok(d1) =>
      var d2 := if extractionRoot in d1 then RemoveItem(d1, extractionRoot).value else d1;
      EmptiedRoot(d1, d2, extractionRoot);
      CreateDirectories(d2, extractionRoot)
  }

  lemma EmptiedRoot(d1: Disk, d2: Disk, root: Path)
    requires WellFormed(d1) && root != [] && IsDirectory(d1, Parent(root))
    requires d2 == if root in d1 then RemoveItem(d1, root).value else d1
    ensures WellFormed(d2) && root !in d2 && IsDirectory(d2, Parent(root))
    ensures forall q :: q in d2 ==> !IsPrefix(root, q)
    ensures CreateDirectories(d2, root).Ok?
    ensures CreateDirectories(d2, root).Ok? ==> CreateDirectories(d2, root).value == d2[root := Directory]
  {
    NothingBelowRemoved(d1, d2, root);
    ParentReadyForChild(d2, root);
    CreatedOnlyChild(d2, root);
  }

  lemma NothingBelowRemoved(d1: Disk, d2: Disk, root: Path)
    requires WellFormed(d1) && root != [] && IsDirectory(d1, Parent(root))
    requires d2 == if root in d1 then RemoveItem(d1, root).value else d1
    ensures WellFormed(d2)
    ensures forall q :: q in d2 ==> !IsPrefix(root, q)
    ensures root !in d2 && IsDirectory(d2, Parent(root))
  {
    assert |Parent(root)| < |root|;
    assert IsPrefix(root, root);
    if root !in d1 {
      forall q | q in d2 ensures !IsPrefix(root, q) {
        AncestorsAreDirectories(d2, q);
        assert q[..|q|] == q;
      }
    }
  }

  /** Every existing ancestor of `root` is a directory when its parent is one. */
  lemma ParentReadyForChild(d: Disk, root: Path)
    requires WellFormed(d) && root != [] && IsDirectory(d, Parent(root)) && root !in d
    ensures CreateDirectories(d, root).Ok?
    ensures forall k :: 0 <= k < |root| ==> root[..k] in d
  {
    AncestorsAreDirectories(d, Parent(root));
    assert Parent(root)[..|Parent(root)|] == Parent(root);
    forall k | 0 <= k < |root| ensures root[..k] == Parent(root)[..k] {
    }
  }

  lemma CreatedOnlyChild(d: Disk, root: Path)
    requires WellFormed(d) && root !in d && CreateDirectories(d, root).Ok?
    requires forall k :: 0 <= k < |root| ==> root[..k] in d
    ensures CreateDirectories(d, root).value == d[root := Directory]
  {
    var r := CreateDirectories(d, root).value;
    forall q | q in r && q !in d ensures q == root {
      assert IsPrefix(q, root);
      assert q == root[..|q|];
    }
    assert root[..|root|] == root;
  }

  /** `decompress(item:destinationDirectory:)`: the launcher runs `ditto -x -k <item> <root>`
      on a disk where the extraction root is a fresh, empty directory; its failure becomes
      `decompressionFailed`. The result is the root's only visible entry when there is exactly
      one, and the root itself otherwise. */
  function DecompressItem(d: Disk, item: FinderItem, destinationDirectory: Path, uuid: string, launcher: Launcher)
    : (r: (Disk, Result<Path, Failure>))
    requires WellFormed(d) && KeepsWellFormed(launcher)
    ensures WellFormed(r.0)
    ensures var root := destinationDirectory + [ExtractionRootName(item, uuid)];
      var prepared := PrepareExtractionRoot(d, root);
      && (prepared.Err? ==> r == (d, Err(FileSystemFailure(prepared.error))))
      && (prepared.Ok? ==>
            var run := launcher(DecompressArguments(item.path, root), prepared.value);
            && (run.Err? ==> r == (prepared.value, Err(Domain(DecompressionFailed(run.error)))))
            && (run.Ok? ==> r.0 == run.value && (r.1.Ok? <==> IsDirectory(run.value, root)))
            && (run.Ok? && r.1.Ok? ==>
                  var contents := VisibleChildren(run.value, root).value;
                  (|contents| == 1 ==> r.1.value in contents) && (|contents| != 1 ==> r.1.value == root)))
  {
    var root := destinationDirectory + [ExtractionRootName(item, uuid)];
    match PrepareExtractionRoot(d, root)
    case Err(e) => (d, Err(FileSystemFailure(e)))
    case Ok(d1) =>
      match launcher(DecompressArguments(item.path, root), d1)
      case Err(e) => (d1, Err(Domain(DecompressionFailed(e))))
      case Ok(d2) =>
        match VisibleChildren(d2, root)
        case Err(e) => (d2, Err(FileSystemFailure(e)))
        case Ok(contents) =>
          if |contents| == 1 then (d2, Ok(Only(contents))) else (d2, Ok(root))
  }

  /** The element of a one-element set. */
  function Only<T>(s: set<T>): (x: T)
    requires |s| == 1
    ensures s == {x}
  {
    var x :| x in s;
    assert s == (s - {x}) + {x};
    assert |s - {x}| == 0;
    x
  }

  /** The compression service over the shared file manager and its launcher. */
  class FileCompressionService {
    const fileManager: FileManager
    const launcher: Launcher

    constructor (fileManager: FileManager, launcher: Launcher)
      ensures this.fileManager == fileManager && this.launcher == launcher
    {
      this.fileManager := fileManager;
      this.launcher := launcher;
    }

    method Compress(item: FinderItem, destinationDirectory: Path) returns (r: Result<Path, Failure>)
      requires fileManager.Valid() && KeepsWellFormed(launcher)
      modifies fileManager
      ensures fileManager.Valid()
      ensures (fileManager.disk, r) == CompressItem(old(fileManager.disk), item, destinationDirectory, launcher)
    {
      var destination := CompressDestination(destinationDirectory, item);
      var created := fileManager.CreateDirectoryAt(Parent(destination), true);
      if created.Err? {
        return Err(FileSystemFailure(created.error));
      }
      if fileManager.FileExists(destination) {
        var _ := fileManager.RemoveItemAt(destination);
      }
      var arguments := CompressArguments(item.path, destination);
      var run := launcher(arguments, fileManager.disk);
      if run.Err? {
        return Err(Domain(CompressionFailed(run.error)));
      }
      fileManager.disk := run.value;
      return Ok(destination);
    }

    method Decompress(item: FinderItem, destinationDirectory: Path, uuid: string) returns (r: Result<Path, Failure>)
      requires fileManager.Valid() && KeepsWellFormed(launcher)
      modifies fileManager
      ensures fileManager.Valid()
      ensures (fileManager.disk, r) == DecompressItem(old(fileManager.disk), item, destinationDirectory, uuid, launcher)
    {
      var created := fileManager.CreateDirectoryAt(destinationDirectory, true);
      if created.Err? {
        return Err(FileSystemFailure(created.error));
      }
      var extractionRoot := destinationDirectory + [ExtractionRootName(item, uuid)];
      if fileManager.FileExists(extractionRoot) {
        var _ := fileManager.RemoveItemAt(extractionRoot);
      }
      var rootCreated := fileManager.CreateDirectoryAt(extractionRoot, true);
      if rootCreated.Err? {
        return Err(FileSystemFailure(rootCreated.error));
      }
      var arguments := DecompressArguments(item.path, extractionRoot);
      var run := launcher(arguments, fileManager.disk);
      if run.Err? {
        return Err(Domain(DecompressionFailed(run.error)));
      }
      fileManager.disk := run.value;
      var contents := fileManager.ContentsOfDirectory(extractionRoot);
      if contents.Err? {
        return Err(FileSystemFailure(contents.error));
      }
      if |contents.value| == 1 {
        return Ok(Only(contents.value));
      }
      return Ok(extractionRoot);
    }
  }
}
