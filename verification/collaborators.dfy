/** The collaborator protocols the services are written against (`FinderTargetingService`,
    `HotKeyStateProviding`, `CompressionService`, `AuditLogging`, `UndoStagingManaging` and the
    app host's `ZipHandling`), and the log of calls made into them. */
module Collaborators {
  import opened Wrappers
  import opened Paths
  import opened Domain

  /** Every collaborator as a function of an abstract world `W`: queries read it, effectful
      calls return the world they leave behind together with their outcome. */
  datatype Services<!W> = Services(
    chordActive: W -> bool,
    itemUnderCursor: W -> Result<Option<FinderItem>, Failure>,
    stagingURL: (W, FinderItem, SmallLightAction) -> (W, Result<Path, Failure>),
    stageOriginal: (W, Path) -> (W, Result<Path, Failure>),
    restore: (W, Path, Path) -> (W, Result<(), Failure>),
    compress: (W, FinderItem, Path) -> (W, Result<Path, Failure>),
    decompress: (W, FinderItem, Path) -> (W, Result<Path, Failure>),
    record: (W, SmallLightAction, FinderItem, Path) -> (W, Result<(), Failure>),
    extract: (W, Path) -> (W, Result<Path, Failure>))

  /** One call into a collaborator, with its arguments and what it returned. */
  datatype Call =
    | ItemUnderCursorCall(found: Result<Option<FinderItem>, Failure>)
    | StagingURLCall(item: FinderItem, action: SmallLightAction, staged: Result<Path, Failure>)
    | StageOriginalCall(original: Path, staged: Result<Path, Failure>)
    | RestoreCall(source: Path, target: Path, done: Result<(), Failure>)
    | CompressCall(item: FinderItem, destinationDirectory: Path, produced: Result<Path, Failure>)
    | DecompressCall(item: FinderItem, destinationDirectory: Path, produced: Result<Path, Failure>)
    | RecordCall(action: SmallLightAction, item: FinderItem, destination: Path, done: Result<(), Failure>)
    | ExtractCall(archive: Path, produced: Result<Path, Failure>)

  /** The error a call threw, if it threw one. */
  function Thrown(c: Call): (e: Option<Failure>)
    ensures e.None? <==>
      match c
      case ItemUnderCursorCall(found) => found.Ok?
      case StagingURLCall(_, _, staged) => staged.Ok?
      case StageOriginalCall(_, staged) => staged.Ok?
      case RestoreCall(_, _, done) => done.Ok?
      case CompressCall(_, _, produced) => produced.Ok?
      case DecompressCall(_, _, produced) => produced.Ok?
      case RecordCall(_, _, _, done) => done.Ok?
      case ExtractCall(_, produced) => produced.Ok?
  {
    match c
    case ItemUnderCursorCall(found) => if found.Err? then Some(found.error) else None
    case StagingURLCall(_, _, staged) => if staged.Err? then Some(staged.error) else None
    case StageOriginalCall(_, staged) => if staged.Err? then Some(staged.error) else None
    case RestoreCall(_, _, done) => if done.Err? then Some(done.error) else None
    case CompressCall(_, _, produced) => if produced.Err? then Some(produced.error) else None
    case DecompressCall(_, _, produced) => if produced.Err? then Some(produced.error) else None
    case RecordCall(_, _, _, done) => if done.Err? then Some(done.error) else None
    case ExtractCall(_, produced) => if produced.Err? then Some(produced.error) else None
  }

  /** Makes the call `c` describes, with its arguments, on world `w`: the world it leaves
      behind, and the call as it would be logged with the outcome it returns now. */
  function Replay<W>(s: Services<W>, w: W, c: Call): (r: (W, Call))
    ensures r.1.StagingURLCall? <==> c.StagingURLCall?
    ensures r.1.RestoreCall? <==> c.RestoreCall?
  {
    match c
    case ItemUnderCursorCall(_) => (w, ItemUnderCursorCall(s.itemUnderCursor(w)))
    case StagingURLCall(item, action, _) =>
      var (w', staged) := s.stagingURL(w, item, action); (w', StagingURLCall(item, action, staged))
    case StageOriginalCall(original, _) =>
      var (w', staged) := s.stageOriginal(w, original); (w', StageOriginalCall(original, staged))
    case RestoreCall(source, target, _) =>
      var (w', done) := s.restore(w, source, target); (w', RestoreCall(source, target, done))
    case CompressCall(item, directory, _) =>
      var (w', produced) := s.compress(w, item, directory); (w', CompressCall(item, directory, produced))
    case DecompressCall(item, directory, _) =>
      var (w', produced) := s.decompress(w, item, directory); (w', DecompressCall(item, directory, produced))
    case RecordCall(action, item, destination, _) =>
      var (w', done) := s.record(w, action, item, destination); (w', RecordCall(action, item, destination, done))
    case ExtractCall(archive, _) =>
      var (w', produced) := s.extract(w, archive); (w', ExtractCall(archive, produced))
  }

  /** `log` is what the collaborators of `s` really answered, one call after another, starting
      from world `w`, and `w'` is the world the last of them left behind. */
  ghost predicate Replays<W>(s: Services<W>, w: W, log: seq<Call>, w': W)
    decreases |log|
  {
    if log == [] then w' == w
    else Replay(s, w, log[0]).1 == log[0] && Replays(s, Replay(s, w, log[0]).0, log[1..], w')
  }

  /** Replaying a log call by call. */
  lemma ReplaysCons<W>(s: Services<W>, w: W, c: Call, rest: seq<Call>, w': W)
    ensures Replays(s, w, [c] + rest, w') <==>
      Replay(s, w, c).1 == c && Replays(s, Replay(s, w, c).0, rest, w')
  {
    assert ([c] + rest)[0] == c && ([c] + rest)[1..] == rest;
  }

  /** A replayed log extended by one more call made on the world it left behind. */
  lemma {:induction false} ReplaysAppend<W>(s: Services<W>, w: W, log: seq<Call>, w1: W, c: Call, w2: W)
    requires Replays(s, w, log, w1) && Replay(s, w1, c) == (w2, c)
    ensures Replays(s, w, log + [c], w2)
    decreases |log|
  {
    if log == [] {
      assert log + [c] == [c] && [c][1..] == [];
    } else {
      ReplaysAppend(s, Replay(s, w, log[0]).0, log[1..], w1, c, w2);
      assert (log + [c])[0] == log[0] && (log + [c])[1..] == log[1..] + [c];
    }
  }

  /** The world after the calls of `log` are made one after another from `w`. */
  function Played<W>(s: Services<W>, w: W, log: seq<Call>): W
    decreases |log|
  {
    if log == [] then w else Played(s, Replay(s, w, log[0]).0, log[1..])
  }

  /** The first two calls of a replayed log, and the worlds they leave behind. */
  lemma ReplayedFirstTwo<W>(s: Services<W>, w: W, log: seq<Call>, w': W)
    requires Replays(s, w, log, w') && |log| >= 2
    ensures Replay(s, w, log[0]).1 == log[0]
    ensures Replay(s, Replay(s, w, log[0]).0, log[1]).1 == log[1]
    ensures Played(s, w, log[..1]) == Replay(s, w, log[0]).0
    ensures Played(s, w, log[..2]) == Replay(s, Replay(s, w, log[0]).0, log[1]).0
  {
    assert log[..1][1..] == [] && log[..2][1..] == [log[1]] && [log[1]][1..] == [];
    assert log[1..][0] == log[1];
    var w1 := Replay(s, w, log[0]).0;
    assert Played(s, w, log[..2]) == Played(s, w1, [log[1]]);
    assert Played(s, w1, [log[1]]) == Played(s, Replay(s, w1, log[1]).0, []);
  }
}
