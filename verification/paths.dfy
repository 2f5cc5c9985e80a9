/** File URLs as sequences of path components, with the parts of `URL` the core uses. */
module Paths {
  import opened Text

  /** An absolute file path: its components from the root; the root itself is `[]`. */
  type Path = seq<string>

  /** `url.path`: the components joined by "/" after a leading "/". */
  function PathString(p: Path): (s: string)
    ensures |s| >= 1 && s[0] == '/'
  {
    "/" + Join(p, "/")
  }

  /** `appendingPathComponent(name)`. */
  function Child(p: Path, name: string): (r: Path)
    ensures |r| == |p| + 1 && r[..|p|] == p && r[|p|] == name
  {
    p + [name]
  }

  /** `deletingLastPathComponent()`; the root is its own parent. */
  function Parent(p: Path): (r: Path)
    ensures p != [] ==> Child(r, p[|p| - 1]) == p
    ensures p == [] ==> r == []
  {
    if p == [] then [] else p[..|p| - 1]
  }

  /** `lastPathComponent`; for the root Foundation answers "/". */
  function LastComponent(p: Path): (r: string)
    ensures p != [] ==> r == p[|p| - 1]
  {
    if p == [] then "/" else p[|p| - 1]
  }

  /** `p` is `q` or one of its ancestors. */
  predicate IsPrefix(p: Path, q: Path) {
    |p| <= |q| && q[..|p|] == p
  }

  lemma PrefixSplit(p: Path, q: Path)
    requires IsPrefix(p, q)
    ensures q == p + q[|p|..]
  {
  }

  /** Position of the dot that starts a file name's extension, or -1 when it has none
      (no dot, or only a leading dot as in a hidden file's name). */
  function ExtensionDot(name: string): (i: int)
    ensures -1 <= i < |name|
    ensures i >= 0 ==> i > 0 && name[i] == '.'
  {
    var i := LastIndexOf(name, '.');
    if i > 0 then i else -1
  }

  /** `pathExtension` of a single component. */
  function PathExtension(name: string): string {
    var i := ExtensionDot(name);
    if i < 0 then "" else name[i + 1..]
  }

  /** `deletingPathExtension().lastPathComponent` of a single component. */
  function DeletingPathExtension(name: string): (r: string)
    ensures PathExtension(name) == "" ==> r == name || r + "." == name
    ensures PathExtension(name) != "" ==> r + "." + PathExtension(name) == name
  {
    var i := ExtensionDot(name);
    if i < 0 then name
    else
      assert name == name[..i] + "." + name[i + 1..] by {
        assert name == name[..i] + [name[i]] + name[i + 1..];
      }
      name[..i]
  }

  /** Components that `standardizedFileURL` removes or resolves. */
  predicate IsSpecial(c: string) {
    c == "" || c == "." || c == ".."
  }

  predicate IsStandard(p: Path) {
    forall i :: 0 <= i < |p| ==> !IsSpecial(p[i])
  }

  /** Standardizes `rest` on top of the already standard prefix `done`. */
  function StandardizeFrom(done: Path, rest: Path): Path
    decreases |rest|
  {
    if rest == [] then done
    else if rest[0] == "" || rest[0] == "." then StandardizeFrom(done, rest[1..])
    else if rest[0] == ".." then StandardizeFrom(Parent(done), rest[1..])
    else StandardizeFrom(done + [rest[0]], rest[1..])
  }

  lemma {:induction false} StandardizeFromIsStandard(done: Path, rest: Path)
    requires IsStandard(done)
    ensures IsStandard(StandardizeFrom(done, rest))
    decreases |rest|
  {
    if rest == [] {
    } else if rest[0] == "" || rest[0] == "." {
      StandardizeFromIsStandard(done, rest[1..]);
    } else if rest[0] == ".." {
      StandardizeFromIsStandard(Parent(done), rest[1..]);
    } else {
      StandardizeFromIsStandard(done + [rest[0]], rest[1..]);
    }
  }

  lemma {:induction false} StandardizeFromKeepsStandard(done: Path, rest: Path)
    requires IsStandard(rest)
    ensures StandardizeFrom(done, rest) == done + rest
    decreases |rest|
  {
    if rest != [] {
      StandardizeFromKeepsStandard(done + [rest[0]], rest[1..]);
      assert done + [rest[0]] + rest[1..] == done + rest;
    }
  }

  /** `standardizedFileURL`: drops empty and "." components and resolves ".." (at the root it
      stays at the root). The result is standard, and a standard path is left as it is. */
  function Standardize(p: Path): (r: Path)
    ensures IsStandard(r)
    ensures IsStandard(p) ==> r == p
  {
    StandardizeFromIsStandard([], p);
    if IsStandard(p) then StandardizeFromKeepsStandard([], p); StandardizeFrom([], p)
    else StandardizeFrom([], p)
  }

  /** Standardizing twice is standardizing once. */
  lemma StandardizeIdempotent(p: Path)
    ensures Standardize(Standardize(p)) == Standardize(p)
  {
  }
}
