/** `ZipHandler`: checks that a path is a zip archive, picks a sibling directory that does not
    exist yet (<base>, then <base>_unpacked, <base>_unpacked2, ...), creates it and runs
    `/usr/bin/ditto -x -k` into it, removing it again when the tool fails. */
module ZipHandling {
  import opened Wrappers
  import opened Text
  import opened Paths
  import opened FileSystem
  import opened Domain

  /** What running `ditto` gave: it could not be started, or it exited with a status, leaving
      a disk and a standard-error text behind. */
  datatype ToolRun = NotLaunched(description: string) | Exited(status: int, after: Disk, standardError: string)

  type Ditto = (seq<string>, Disk) -> ToolRun

  ghost predicate KeepsWellFormed(ditto: Ditto) {
    forall args, d :: WellFormed(d) && ditto(args, d).Exited? ==> WellFormed(ditto(args, d).after)
  }

  /** `ZipHandlerError.errorDescription`. */
  function ErrorDescription(e: ZipHandlerError): (r: string)
    ensures r != ""
    ensures e.NotAZip? ==> r == "Selected item is not a zip archive."
    ensures e.DittoFailed? && e.message != "" ==> r == e.message
    ensures e.DittoFailed? && e.message == "" ==> r == "ditto failed with status " + IntToString(e.code) + "."
  {
    match e
    case NotAZip => "Selected item is not a zip archive."
    case DittoFailed(code, message) =>
      if message == "" then "ditto failed with status " + IntToString(code) + "." else message
  }

  /** The suffix of the n-th candidate: "_unpacked" for the first, "_unpacked<n>" after. */
  function Suffix(n: nat): (r: string)
    requires n >= 1
  {
    if n == 1 then "_unpacked" else "_unpacked" + NatToString(n)
  }

  function Candidate(parent: Path, base: string, n: nat): (r: Path)
    requires n >= 1
    ensures Parent(r) == parent
  {
    parent + [base + Suffix(n)]
  }

  /** Different indices name different candidates. */
  lemma CandidatesDistinct(parent: Path, base: string, m: nat, n: nat)
    requires m >= 1 && n >= 1 && Candidate(parent, base, m) == Candidate(parent, base, n)
    ensures m == n
  {
    var cm, cn := Candidate(parent, base, m), Candidate(parent, base, n);
    assert cm[|parent|] == cn[|parent|];
    var sm, sn := Suffix(m), Suffix(n);
    assert base + sm == base + sn;
    assert sm == (base + sm)[|base|..];
    assert sn == (base + sn)[|base|..];
    if m != 1 && n != 1 {
      assert NatToString(m) == sm[9..];
      assert NatToString(n) == sn[9..];
      NatToStringInjective(m, n);
    }
  }

  /** The candidates before the n-th. */
  function Taken(parent: Path, base: string, n: nat): (r: set<Path>)
    ensures forall j :: 1 <= j < n ==> Candidate(parent, base, j) in r
    decreases n
  {
    if n <= 1 then {} else Taken(parent, base, n - 1) + {Candidate(parent, base, n - 1)}
  }

  /** Each taken candidate is a distinct entry of the disk, so at most |d| of them are taken. */
  lemma {:induction false} TakenCandidatesFit(d: Disk, parent: Path, base: string, n: nat)
    requires n >= 1 && AllTaken(d, parent, base, n)
    ensures n - 1 <= |d|
  {
    TakenOnDisk(d, parent, base, n);
    TakenCount(parent, base, n);
    SubsetCardinality(Taken(parent, base, n), d.Keys);
  }

  lemma {:induction false} TakenOnDisk(d: Disk, parent: Path, base: string, n: nat)
    requires AllTaken(d, parent, base, n)
    ensures Taken(parent, base, n) <= d.Keys
    decreases n
  {
    if n > 1 {
      TakenOnDisk(d, parent, base, n - 1);
    }
  }

  lemma {:induction false} TakenCount(parent: Path, base: string, n: nat)
    requires n >= 1
    ensures |Taken(parent, base, n)| == n - 1
    decreases n
  {
    if n > 1 {
      TakenCount(parent, base, n - 1);
      NotTakenYet(parent, base, n - 1, n - 1);
    }
  }

  /** A candidate is not among those before it. */
  lemma {:induction false} NotTakenYet(parent: Path, base: string, m: nat, n: nat)
    requires m >= 1 && m >= n
    ensures Candidate(parent, base, m) !in Taken(parent, base, n)
    decreases n
  {
    if n > 1 {
      NotTakenYet(parent, base, m, n - 1);
      if Candidate(parent, base, m) == Candidate(parent, base, n - 1) {
        CandidatesDistinct(parent, base, m, n - 1);
      }
    }
  }

  lemma {:induction false} SubsetCardinality<T>(a: set<T>, b: set<T>)
    requires a <= b
    ensures |a| <= |b|
    decreases |a|
  {
    if a != {} {
      var x :| x in a;
      SubsetCardinality(a - {x}, b - {x});
    }
  }

  /** The candidates before the n-th are all on the disk. */
  predicate AllTaken(d: Disk, parent: Path, base: string, n: nat) {
    forall j :: 1 <= j < n ==> Candidate(parent, base, j) in d
  }

  lemma TakenStep(d: Disk, parent: Path, base: string, n: nat)
    requires n >= 1 && AllTaken(d, parent, base, n) && Candidate(parent, base, n) in d
    ensures AllTaken(d, parent, base, n + 1)
  {
  }

  /** The first candidate from the n-th on that is not on the disk. */
  function FirstFreeFrom(d: Disk, parent: Path, base: string, n: nat): (r: nat)
    requires n >= 1 && AllTaken(d, parent, base, n)
    ensures r >= n && Candidate(parent, base, r) !in d
    ensures AllTaken(d, parent, base, r)
    decreases |d| + 1 - n
  {
    TakenCandidatesFit(d, parent, base, n);
    if Candidate(parent, base, n) !in d then n
    else
      TakenStep(d, parent, base, n);
      TakenCandidatesFit(d, parent, base, n + 1);
      FirstFreeFrom(d, parent, base, n + 1)
  }

  /** `makeDestination(for:)`'s choice: <parent>/<base> when it is free, otherwise the first
      free of <base>_unpacked, <base>_unpacked2, ... It is never on the disk and is always a
      sibling of the archive. */
  function ChosenDestination(d: Disk, zip: Path): (r: Path)
    ensures r !in d && Parent(r) == Parent(zip)
    ensures var plain := Parent(zip) + [DeletingPathExtension(LastComponent(zip))];
      (plain !in d ==> r == plain) &&
      (plain in d ==> exists n :: n >= 1 && r == Candidate(Parent(zip), DeletingPathExtension(LastComponent(zip)), n) &&
                        AllTaken(d, Parent(zip), DeletingPathExtension(LastComponent(zip)), n))
  {
    var parent, base := Parent(zip), DeletingPathExtension(LastComponent(zip));
    if parent + [base] !in d then parent + [base]
    else Candidate(parent, base, FirstFreeFrom(d, parent, base, 1))
  }

  /** `pathExtension.lowercased() == "zip"`. */
  predicate HasZipExtension(zip: Path) {
    Lower(PathExtension(LastComponent(zip))) == "zip"
  }

  function DittoArguments(zip: Path, destination: Path): (r: seq<string>)
    ensures r == ["-x", "-k", PathString(zip), PathString(destination)]
  {
    ["-x", "-k", PathString(zip), PathString(destination)]
  }

  /** `try? removeItem(at:)`: removes when it can and otherwise leaves the disk alone. */
  function RemoveQuietly(d: Disk, p: Path): (r: Disk)
    requires WellFormed(d)
    ensures WellFormed(r)
    ensures p != [] ==> r == Outside(d, p) && p !in r
    ensures p == [] ==> r == d
  {
    if p == [] then d
    else if p in d then RemoveItem(d, p).value
    else
      RemoveItemIfExistsFree(d, p);
      d
  }

  lemma RemoveItemIfExistsFree(d: Disk, p: Path)
    requires WellFormed(d) && p !in d
    ensures Outside(d, p) == d
  {
    forall q | q in d ensures !IsPrefix(p, q) {
      AncestorsAreDirectories(d, q);
      assert q[..|q|] == q;
    }
  }

  /** `extract(zipPath:)`: anything that is not an existing regular file with a "zip"
      extension is refused with `notAZip` and the disk untouched; otherwise the chosen sibling
      directory is created and `ditto -x -k <zip> <destination>` runs on that disk. A tool that
      does not start, or exits with a non-zero status, has the destination removed again and
      its error reported (`dittoFailed` with the status and the trimmed standard error). */
  function Extract(d: Disk, zip: Path, ditto: Ditto): (r: (Disk, Result<Path, Failure>))
    requires WellFormed(d) && KeepsWellFormed(ditto)
    ensures WellFormed(r.0)
    ensures !Accepted(d, zip) ==> r == (d, Err(Zip(NotAZip)))
    ensures Accepted(d, zip) ==> ExtractionOutcome(d, zip, ditto, r)
  {
    if !HasZipExtension(zip) || zip !in d || d[zip].Directory? then (d, Err(Zip(NotAZip)))
    else
      var destination := ChosenDestination(d, zip);
      DestinationCreatable(d, zip, destination);
      var prepared := d[destination := Directory];
      Concluded(prepared, destination, ditto(DittoArguments(zip, destination), prepared))
  }

  /** The end of an accepted extraction, once `ditto` has run on the prepared disk: its
      destination on success, otherwise the destination removed again and the error. */
  function Concluded(prepared: Disk, destination: Path, run: ToolRun): (r: (Disk, Result<Path, Failure>))
    requires WellFormed(prepared) && (run.Exited? ==> WellFormed(run.after))
    ensures WellFormed(r.0)
  {
    match run
    case NotLaunched(description) =>
      (RemoveQuietly(prepared, destination), Err(Launcher(CouldNotLaunch(description))))
    case Exited(status, after, standardError) =>
      if status == 0 then (after, Ok(destination))
      else (RemoveQuietly(after, destination), Err(Zip(DittoFailed(status, Trim(standardError)))))
  }

  /** The archive is an existing regular file with a "zip" extension (in any case). */
  predicate Accepted(d: Disk, zip: Path) {
    HasZipExtension(zip) && zip in d && d[zip].File?
  }

  /** What an accepted extraction gives: success exactly when `ditto` exits with status 0,
      and then the result is the chosen sibling and the disk the tool left; otherwise the
      destination is gone again and the error is the launch failure or the non-zero status
      with the trimmed standard error. */
  ghost predicate ExtractionOutcome(d: Disk, zip: Path, ditto: Ditto, r: (Disk, Result<Path, Failure>)) {
    var destination := ChosenDestination(d, zip);
    var run := ditto(DittoArguments(zip, destination), d[destination := Directory]);
    && (r.1.Ok? <==> run.Exited? && run.status == 0)
    && (r.1.Ok? ==> r.1.value == destination && r.0 == run.after && destination !in d && Parent(destination) == Parent(zip))
    && (r.1.Err? ==> destination !in r.0)
    && (run.NotLaunched? ==> r.1 == Err(Launcher(CouldNotLaunch(run.description))))
    && (run.Exited? && run.status != 0 ==>
          r.1 == Err(Zip(DittoFailed(run.status, Trim(run.standardError)))) && r.0 == Outside(run.after, destination))
  }

  /** The chosen destination sits in the archive's directory, so creating it without
      intermediates succeeds. */
  lemma DestinationCreatable(d: Disk, zip: Path, destination: Path)
    requires WellFormed(d) && zip in d && d[zip].File? && destination == ChosenDestination(d, zip)
    ensures CreateDirectory(d, destination).Ok?
    ensures WellFormed(d[destination := Directory])
  {
    assert zip != [];
  }

  /** The zip handler over the shared file manager. */
  class ZipHandler {
    const fileManager: FileManager
    const ditto: Ditto

    constructor (fileManager: FileManager, ditto: Ditto)
      ensures this.fileManager == fileManager && this.ditto == ditto
    {
      this.fileManager := fileManager;
      this.ditto := ditto;
    }

    /** `makeDestination(for:)`: the repeat-while loop over the suffixes, then the creation. */
    method MakeDestination(zip: Path) returns (r: Result<Path, FsError>)
      requires fileManager.Valid() && zip in fileManager.disk && fileManager.disk[zip].File?
      modifies fileManager
      ensures fileManager.Valid()
      ensures r == Ok(ChosenDestination(old(fileManager.disk), zip))
      ensures fileManager.disk == old(fileManager.disk)[r.value := Directory]
    {
      var parent := Parent(zip);
      var base := DeletingPathExtension(LastComponent(zip));
      var candidate := parent + [base];
      if fileManager.FileExists(candidate) {
        var suffixIndex := 1;
        candidate := Candidate(parent, base, suffixIndex);
        suffixIndex := suffixIndex + 1;
        while fileManager.FileExists(candidate)
          invariant fileManager.disk == old(fileManager.disk)
          invariant suffixIndex >= 2 && candidate == Candidate(parent, base, suffixIndex - 1)
          invariant AllTaken(fileManager.disk, parent, base, suffixIndex - 1)
          invariant FirstFreeFrom(fileManager.disk, parent, base, suffixIndex - 1) == FirstFreeFrom(fileManager.disk, parent, base, 1)
          decreases |fileManager.disk| + 1 - suffixIndex
        {
          TakenStep(fileManager.disk, parent, base, suffixIndex - 1);
          TakenCandidatesFit(fileManager.disk, parent, base, suffixIndex);
          candidate := Candidate(parent, base, suffixIndex);
          suffixIndex := suffixIndex + 1;
        }
      }
      DestinationCreatable(fileManager.disk, zip, candidate);
      var created := fileManager.CreateDirectoryAt(candidate, false);
      return Ok(candidate);
    }

    method ExtractArchive(zip: Path) returns (r: Result<Path, Failure>)
      requires fileManager.Valid() && KeepsWellFormed(ditto)
      modifies fileManager
      ensures fileManager.Valid()
      ensures (fileManager.disk, r) == Extract(old(fileManager.disk), zip, ditto)
    {
      if !HasZipExtension(zip) {
        return Err(Zip(NotAZip));
      }
      var kind := fileManager.ExistingKind(zip);
      if kind.None? || kind.value {
        return Err(Zip(NotAZip));
      }
      ghost var d0 := fileManager.disk;
      var made := MakeDestination(zip);
      var destination := made.value;
      assert destination == ChosenDestination(d0, zip) && fileManager.disk == d0[destination := Directory];
      var run := ditto(DittoArguments(zip, destination), fileManager.disk);
      r := Conclude(destination, run);
    }

    /** The end of `extract(zipPath:)` after `runDitto`: a failed run has the destination
        removed (`try? removeItem`) and its error rethrown. */
    method Conclude(destination: Path, run: ToolRun) returns (r: Result<Path, Failure>)
      requires fileManager.Valid() && (run.Exited? ==> WellFormed(run.after))
      modifies fileManager
      ensures fileManager.Valid()
      ensures (fileManager.disk, r) == Concluded(old(fileManager.disk), destination, run)
    {
      match run {
        case NotLaunched(description) =>
          fileManager.disk := RemoveQuietly(fileManager.disk, destination);
          return Err(Launcher(CouldNotLaunch(description)));
        case Exited(status, after, standardError) =>
          if status != 0 {
            fileManager.disk := RemoveQuietly(after, destination);
            return Err(Zip(DittoFailed(status, Trim(standardError))));
          }
          fileManager.disk := after;
          return Ok(destination);
      }
    }
  }
}
