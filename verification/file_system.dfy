/** The part of `FileManager` the core calls, over an abstract disk: a finite map from absolute
    paths to a file's contents or a directory marker. A directory's contents are the entries
    whose paths extend its own. */
module FileSystem {
  import opened Wrappers
  import opened Paths

  datatype Node = File(data: seq<int>) | Directory

  type Disk = map<Path, Node>

  datatype FsError =
    | NoSuchFile(path: Path)
    | FileExists(path: Path)
    | NotADirectory(path: Path)
    | CopyIntoItself(source: Path, destination: Path)
    | NoPermission(path: Path)

  /** Every entry other than the root sits in a directory, and the root is a directory. */
  ghost predicate WellFormed(d: Disk) {
    && [] in d && d[[]].Directory?
    && forall q {:trigger Parent(q)} :: q in d && q != [] ==> Parent(q) in d && d[Parent(q)].Directory?
  }

  predicate IsDirectory(d: Disk, p: Path) {
    p in d && d[p].Directory?
  }

  /** The entries at or below `p`, keyed by their path relative to `p`. */
  function Subtree(d: Disk, p: Path): (m: map<Path, Node>)
    ensures forall s :: s in m <==> p + s in d
    ensures forall s :: s in m ==> m[s] == d[p + s]
  {
    forall q | IsPrefix(p, q) ensures q == p + q[|p|..] { PrefixSplit(p, q); }
    assert forall s :: p + s in d ==> (p + s)[|p|..] == s && IsPrefix(p, p + s);
    var keys := set q | q in d && IsPrefix(p, q) :: q[|p|..];
    map s | s in keys :: d[p + s]
  }

  /** The entries that are not at or below `p`. */
  function Outside(d: Disk, p: Path): (m: Disk)
    ensures forall q :: q in m <==> q in d && !IsPrefix(p, q)
    ensures forall q :: q in m ==> m[q] == d[q]
  {
    map q | q in d && !IsPrefix(p, q) :: d[q]
  }

  /** On a well-formed disk every proper ancestor of an entry is a directory. */
  lemma {:induction false} AncestorsAreDirectories(d: Disk, p: Path)
    requires WellFormed(d) && p in d
    ensures forall k :: 0 <= k < |p| ==> IsDirectory(d, p[..k])
    decreases |p|
  {
    if p != [] {
      var parent := Parent(p);
      AncestorsAreDirectories(d, parent);
      assert forall k :: 0 <= k <= |parent| ==> parent[..k] == p[..k];
    }
  }

  /** `createDirectory(at: p, withIntermediateDirectories: true)`: succeeds exactly when no
      ancestor of `p`, nor `p` itself, is a file; it then adds the missing directories on the
      way to `p` and changes nothing else. */
  function CreateDirectories(d: Disk, p: Path): (r: Result<Disk, FsError>)
    requires WellFormed(d)
    ensures r.Ok? <==> forall k :: 0 <= k <= |p| && p[..k] in d ==> d[p[..k]].Directory?
    ensures r.Ok? ==> WellFormed(r.value) && IsDirectory(r.value, p)
    ensures r.Ok? ==> forall q :: q in d ==> q in r.value && r.value[q] == d[q]
    ensures r.Ok? ==> forall q :: q in r.value && q !in d ==> IsPrefix(q, p) && r.value[q].Directory?
    decreases |p|
  {
    if p in d then
      assert p[..|p|] == p;
      if d[p].Directory? then
        AncestorsAreDirectories(d, p);
        Ok(d)
      else
        Err(FileExists(p))
    else
      // the root of a well-formed disk exists, so `p` has a parent
      var parent := Parent(p);
      assert forall k :: 0 <= k <= |parent| ==> parent[..k] == p[..k];
      match CreateDirectories(d, parent)
      case Err(e) => Err(e)
      case Ok(d1) => AddDirectoryStep(d, d1, p); Ok(d1[p := Directory])
  }

  /** Adding a missing directory below an existing one keeps the disk well formed. */
  lemma AddDirectoryStep(d: Disk, d1: Disk, p: Path)
    requires p != [] && p !in d && WellFormed(d1) && IsDirectory(d1, Parent(p))
    requires forall q :: q in d ==> q in d1 && d1[q] == d[q]
    requires forall q :: q in d1 && q !in d ==> IsPrefix(q, Parent(p)) && d1[q].Directory?
    ensures WellFormed(d1[p := Directory])
    ensures forall q :: q in d1[p := Directory] && q !in d ==> IsPrefix(q, p) && d1[p := Directory][q].Directory?
  {
    var parent := Parent(p);
    assert p[..|parent|] == parent;
    forall q | q in d1 && q !in d ensures IsPrefix(q, p) {
      assert p[..|q|] == parent[..|q|];
    }
  }

  /** `createDirectory(at: p, withIntermediateDirectories: false)`. */
  function CreateDirectory(d: Disk, p: Path): (r: Result<Disk, FsError>)
    requires WellFormed(d)
    ensures r.Ok? <==> p !in d && IsDirectory(d, Parent(p))
    ensures r.Ok? ==> r.value == d[p := Directory] && WellFormed(r.value)
  {
    if p in d then Err(FileExists(p))
    else if Parent(p) !in d then Err(NoSuchFile(Parent(p)))
    else if !d[Parent(p)].Directory? then Err(NotADirectory(Parent(p)))
    else Ok(d[p := Directory])
  }

  /** Removing everything at or below an entry other than the root keeps a disk well formed. */
  lemma OutsideWellFormed(d: Disk, p: Path)
    requires WellFormed(d) && p != []
    ensures WellFormed(Outside(d, p))
  {
  }

  /** `removeItem(at: p)`: removes `p` and everything below it (the root cannot be removed). */
  function RemoveItem(d: Disk, p: Path): (r: Result<Disk, FsError>)
    requires WellFormed(d)
    ensures r.Ok? <==> p in d && p != []
    ensures r.Ok? ==> r.value == Outside(d, p) && WellFormed(r.value)
  {
    if p !in d then Err(NoSuchFile(p))
    else if p == [] then Err(NoPermission(p))
    else OutsideWellFormed(d, p); Ok(Outside(d, p))
  }

  /** The entries below `src`, moved below `dst`. */
  function Relocated(d: Disk, src: Path, dst: Path): (m: Disk)
    ensures forall q {:trigger q in m} :: q in m <==> IsPrefix(dst, q) && src + q[|dst|..] in d
    ensures forall q {:trigger q in m} :: q in m ==> IsPrefix(dst, q) && m[q] == d[src + q[|dst|..]]
  {
    var moved := Subtree(d, src);
    forall q | IsPrefix(dst, q) ensures q == dst + q[|dst|..] { PrefixSplit(dst, q); }
    assert forall s :: (dst + s)[|dst|..] == s && IsPrefix(dst, dst + s);
    var keys := set s | s in moved :: dst + s;
    map q | q in keys :: moved[q[|dst|..]]
  }

  /** `copyItem(at: src, to: dst)`: fails when the source is missing, the destination exists,
      the destination's parent is not a directory, or the destination lies inside the source;
      otherwise the tree below `dst` becomes a copy of the tree below `src` and nothing outside
      `dst` changes. */
  function CopyItem(d: Disk, src: Path, dst: Path): (r: Result<Disk, FsError>)
    requires WellFormed(d)
    ensures r.Ok? <==> src in d && dst !in d && IsDirectory(d, Parent(dst)) && !IsPrefix(src, dst)
    ensures r.Ok? ==> Subtree(r.value, dst) == Subtree(d, src)
    ensures r.Ok? ==> Outside(r.value, dst) == Outside(d, dst)
    ensures r.Ok? ==> WellFormed(r.value)
  {
    if src !in d then Err(NoSuchFile(src))
    else if dst in d then Err(FileExists(dst))
    else if Parent(dst) !in d then Err(NoSuchFile(Parent(dst)))
    else if !d[Parent(dst)].Directory? then Err(NotADirectory(Parent(dst)))
    else if IsPrefix(src, dst) then Err(CopyIntoItself(src, dst))
    else
      CopyPlacement(d, src, dst);
      CopyWellFormed(d, src, dst);
      Ok(Outside(d, dst) + Relocated(d, src, dst))
  }

  /** Below `dst` the copy holds exactly the tree of `src`; elsewhere the disk is unchanged. */
  lemma CopyPlacement(d: Disk, src: Path, dst: Path)
    ensures Subtree(Outside(d, dst) + Relocated(d, src, dst), dst) == Subtree(d, src)
    ensures Outside(Outside(d, dst) + Relocated(d, src, dst), dst) == Outside(d, dst)
  {
    CopyInside(d, src, dst);
    CopyOutside(d, src, dst);
  }

  lemma CopyInside(d: Disk, src: Path, dst: Path)
    ensures Subtree(Outside(d, dst) + Relocated(d, src, dst), dst) == Subtree(d, src)
  {
    var inside, original := Subtree(Outside(d, dst) + Relocated(d, src, dst), dst), Subtree(d, src);
    forall s | s in inside ensures s in original && inside[s] == original[s] {
      CopiedEntry(d, src, dst, s);
    }
    forall s | s in original ensures s in inside {
      CopiedEntry(d, src, dst, s);
    }
    SameEntries(inside, original);
  }

  lemma SameEntries(a: map<Path, Node>, b: map<Path, Node>)
    requires forall s :: s in a ==> s in b && a[s] == b[s]
    requires forall s :: s in b ==> s in a
    ensures a == b
  {
  }

  lemma CopiedEntry(d: Disk, src: Path, dst: Path, s: Path)
    ensures dst + s in Outside(d, dst) + Relocated(d, src, dst) <==> src + s in d
    ensures src + s in d ==> (Outside(d, dst) + Relocated(d, src, dst))[dst + s] == d[src + s]
  {
    var o, moved := Outside(d, dst), Relocated(d, src, dst);
    assert IsPrefix(dst, dst + s) && (dst + s)[|dst|..] == s;
    assert dst + s !in o;
  }

  lemma CopyOutside(d: Disk, src: Path, dst: Path)
    ensures Outside(Outside(d, dst) + Relocated(d, src, dst), dst) == Outside(d, dst)
  {
    var o, moved := Outside(d, dst), Relocated(d, src, dst);
    var after := Outside(o + moved, dst);
    forall q ensures q in after <==> q in o {
      assert q in moved ==> IsPrefix(dst, q);
    }
    assert after == o;
  }

  /** A copy placed in an existing directory keeps the disk well formed. */
  lemma CopyWellFormed(d: Disk, src: Path, dst: Path)
    requires WellFormed(d) && dst != [] && IsDirectory(d, Parent(dst))
    ensures WellFormed(Outside(d, dst) + Relocated(d, src, dst))
  {
    var d': Disk := Outside(d, dst) + Relocated(d, src, dst);
    assert [] in Outside(d, dst);
    forall q | q in d' && q != [] ensures Parent(q) in d' && d'[Parent(q)].Directory? {
      CopyEntryParent(d, src, dst, q);
    }
  }

  lemma CopyEntryParent(d: Disk, src: Path, dst: Path, q: Path)
    requires WellFormed(d) && dst != [] && IsDirectory(d, Parent(dst))
    requires q in Outside(d, dst) + Relocated(d, src, dst) && q != []
    ensures Parent(q) in Outside(d, dst) + Relocated(d, src, dst)
    ensures (Outside(d, dst) + Relocated(d, src, dst))[Parent(q)].Directory?
  {
    var o, moved := Outside(d, dst), Relocated(d, src, dst);
    if q in moved {
      var s := q[|dst|..];
      PrefixSplit(dst, q);
      if s == [] {
        assert q == dst;
        CopiedTopHasParent(d, src, dst);
      } else {
        CopiedInnerHasParent(d, src, dst, s);
      }
    } else {
      OutsideEntryParent(d, src, dst, q);
    }
  }

  lemma OutsideEntryParent(d: Disk, src: Path, dst: Path, q: Path)
    requires WellFormed(d) && q in Outside(d, dst) && q != []
    ensures Parent(q) in Outside(d, dst) + Relocated(d, src, dst)
    ensures (Outside(d, dst) + Relocated(d, src, dst))[Parent(q)].Directory?
  {
    var o, moved := Outside(d, dst), Relocated(d, src, dst);
    assert Parent(q) in d;
    assert !IsPrefix(dst, Parent(q));
    assert Parent(q) !in moved;
  }

  lemma CopiedTopHasParent(d: Disk, src: Path, dst: Path)
    requires dst != [] && IsDirectory(d, Parent(dst))
    ensures Parent(dst) in Outside(d, dst) + Relocated(d, src, dst)
    ensures (Outside(d, dst) + Relocated(d, src, dst))[Parent(dst)].Directory?
  {
    var o, moved := Outside(d, dst), Relocated(d, src, dst);
    assert !IsPrefix(dst, Parent(dst));
    assert Parent(dst) in o && o[Parent(dst)].Directory?;
    assert Parent(dst) !in moved;
  }

  lemma CopiedInnerHasParent(d: Disk, src: Path, dst: Path, s: Path)
    requires WellFormed(d) && s != [] && src + s in d
    ensures Parent(dst + s) in Outside(d, dst) + Relocated(d, src, dst)
    ensures (Outside(d, dst) + Relocated(d, src, dst))[Parent(dst + s)].Directory?
  {
    var moved := Relocated(d, src, dst);
    var up := Parent(s);
    ParentOfExtension(dst, s);
    ParentOfExtension(src, s);
    assert src + up in d && d[src + up].Directory?;
    assert IsPrefix(dst, dst + up) && (dst + up)[|dst|..] == up;
    assert dst + up in moved;
  }

  lemma ParentOfExtension(p: Path, s: Path)
    requires s != []
    ensures Parent(p + s) == p + Parent(s)
  {
  }

  /** `fileExists(atPath:)` followed by `removeItem(at:)` when it does. */
  function RemoveItemIfExists(d: Disk, p: Path): (r: Result<Disk, FsError>)
    requires WellFormed(d)
    ensures r.Ok? <==> p != []
    ensures r.Ok? ==> r.value == Outside(d, p) && WellFormed(r.value)
  {
    if p in d then RemoveItem(d, p)
    else if p == [] then Err(NoPermission(p))
    else
      assert Outside(d, p) == d by {
        forall q | q in d ensures !IsPrefix(p, q) {
          AncestorsAreDirectories(d, q);
          assert q[..|q|] == q;
        }
      }
      Ok(d)
  }

  /** `contentsOfDirectory(at: p, options: [.skipsHiddenFiles])`: the children of `p` whose
      names do not start with a dot. */
  function VisibleChildren(d: Disk, p: Path): (r: Result<set<Path>, FsError>)
    ensures r.Ok? <==> IsDirectory(d, p)
    ensures r.Ok? ==> forall q :: q in r.value <==>
      q in d && |q| == |p| + 1 && IsPrefix(p, q) && !(|q[|p|]| > 0 && q[|p|][0] == '.')
  {
    if p !in d then Err(NoSuchFile(p))
    else if !d[p].Directory? then Err(NotADirectory(p))
    else Ok(set q | q in d && |q| == |p| + 1 && IsPrefix(p, q) && !(|q[|p|]| > 0 && q[|p|][0] == '.'))
  }

  /** The disk after an operation and what the caller sees: the new disk on success, the old
      one and the error on failure. */
  function Applied(d: Disk, r: Result<Disk, FsError>): (out: (Disk, Result<(), FsError>))
    ensures out.1.Ok? <==> r.Ok?
    ensures r.Ok? ==> out.0 == r.value
    ensures r.Err? ==> out == (d, Err(r.error))
  {
    match r
    case Ok(d') => (d', Ok(()))
    case Err(e) => (d, Err(e))
  }

  /** `FileManager`: the disk as a field that each call updates in place. */
  class FileManager {
    var disk: Disk

    ghost predicate Valid()
      reads this
    {
      WellFormed(disk)
    }

    constructor (d: Disk)
      requires WellFormed(d)
      ensures Valid() && disk == d
    {
      disk := d;
    }

    predicate FileExists(p: Path)
      reads this
    {
      p in disk
    }

    /** `fileExists(atPath:isDirectory:)`. */
    function ExistingKind(p: Path): (r: Option<bool>)
      reads this
      ensures r.Some? <==> p in disk
      ensures r.Some? ==> (r.value <==> IsDirectory(disk, p))
    {
      if p in disk then Some(disk[p].Directory?) else None
    }

    /** `createDirectory(at:withIntermediateDirectories:)`. */
    method CreateDirectoryAt(p: Path, withIntermediateDirectories: bool) returns (r: Result<(), FsError>)
      requires Valid()
      modifies this
      ensures Valid()
      ensures (disk, r) == Applied(old(disk),
        if withIntermediateDirectories then CreateDirectories(old(disk), p) else CreateDirectory(old(disk), p))
    {
      var result := if withIntermediateDirectories then CreateDirectories(disk, p) else CreateDirectory(disk, p);
      disk, r := Applied(disk, result).0, Applied(disk, result).1;
    }

    method RemoveItemAt(p: Path) returns (r: Result<(), FsError>)
      requires Valid()
      modifies this
      ensures Valid() && (disk, r) == Applied(old(disk), RemoveItem(old(disk), p))
    {
      disk, r := Applied(disk, RemoveItem(disk, p)).0, Applied(disk, RemoveItem(disk, p)).1;
    }

    method CopyItemAt(src: Path, dst: Path) returns (r: Result<(), FsError>)
      requires Valid()
      modifies this
      ensures Valid() && (disk, r) == Applied(old(disk), CopyItem(old(disk), src, dst))
    {
      disk, r := Applied(disk, CopyItem(disk, src, dst)).0, Applied(disk, CopyItem(disk, src, dst)).1;
    }

    /** `contentsOfDirectory(at:includingPropertiesForKeys:options: [.skipsHiddenFiles])`. */
    function ContentsOfDirectory(p: Path): (r: Result<set<Path>, FsError>)
      reads this
      ensures r == VisibleChildren(disk, p)
    {
      VisibleChildren(disk, p)
    }
  }
}
