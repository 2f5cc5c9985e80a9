/** `DefaultActionOrchestrator`: decides what the hovered item calls for, then stages the
    original, runs the compression service into the item's directory and writes one audit
    record; undo asks for a staging location and restores from it. */
module Orchestration {
  import opened Wrappers
  import opened Paths
  import opened FileSystem
  import opened Domain
  import opened Collaborators
  import opened UndoStaging

  /** The action chosen for an item: directories are compressed (even when they also look
      like archives), non-directory archives decompressed, anything else left alone. */
  function Decide(item: FinderItem): (a: SmallLightAction)
    ensures a == Compress <==> item.isDirectory
    ensures a == Decompress <==> !item.isDirectory && item.isArchive
    ensures a == NoAction <==> !item.isDirectory && !item.isArchive
  {
    if item.isDirectory then Compress
    else if item.isArchive then Decompress
    else NoAction
  }

  /** `evaluatePendingAction()`: nothing, without asking Finder, while the chord is inactive;
      otherwise the Finder service is asked once, its error is rethrown and an empty answer
      gives nothing. A decision names the item, the action `Decide` picks and asks for
      confirmation exactly when that action is not `none`. */
  function Evaluate<W>(s: Services<W>, w: W): (r: (seq<Call>, Result<Option<ActionDecision>, Failure>))
    ensures !s.chordActive(w) ==> r == ([], Ok(None))
    ensures s.chordActive(w) ==> r.0 == [ItemUnderCursorCall(s.itemUnderCursor(w))]
    ensures Replays(s, w, r.0, w)
    ensures s.chordActive(w) && s.itemUnderCursor(w).Err? ==> r.1 == Err(s.itemUnderCursor(w).error)
    ensures s.chordActive(w) && s.itemUnderCursor(w) == Ok(None) ==> r.1 == Ok(None)
    ensures r.1.Ok? && r.1.value.Some? ==>
      var decision := r.1.value.value;
      && s.chordActive(w) && s.itemUnderCursor(w) == Ok(Some(decision.item))
      && decision.intendedAction == Decide(decision.item)
      && (decision.requiresConfirmation <==> decision.intendedAction != NoAction)
  {
    if !s.chordActive(w) then ([], Ok(None))
    else
      var found := s.itemUnderCursor(w);
      var log := [ItemUnderCursorCall(found)];
      match found
      case Err(e) => (log, Err(e))
      case Ok(None) => (log, Ok(None))
      case Ok(Some(item)) =>
        var action := Decide(item);
        (log, Ok(Some(ActionDecision(item, action, action != NoAction))))
  }

  /** The call that carries out `action` on `item` into `directory`. */
  function ActionCall(action: SmallLightAction, item: FinderItem, directory: Path, produced: Result<Path, Failure>): Call {
    if action == Compress then CompressCall(item, directory, produced)
    else DecompressCall(item, directory, produced)
  }

  /** The calls `perform` makes for an action other than `none`, as far as they got: staging
      location for the item and action, staging of the item's original, the action into the
      item's parent directory, then the audit record of the destination it returned; each call
      is made only when all earlier ones succeeded. */
  predicate PerformLog(item: FinderItem, action: SmallLightAction, log: seq<Call>) {
    && 1 <= |log| <= 4
    && log[0].StagingURLCall? && log[0].item == item && log[0].action == action
    && (|log| > 1 ==> log[1].StageOriginalCall? && log[1].original == item.path)
    && (|log| > 2 ==> (log[2].CompressCall? || log[2].DecompressCall?) &&
                      log[2] == ActionCall(action, item, Parent(item.path), log[2].produced))
    && (|log| > 3 ==> log[3].RecordCall? && log[3].action == action && log[3].item == item &&
                      log[2].produced.Ok? && log[3].destination == log[2].produced.value)
    && forall i :: 0 <= i < |log| - 1 ==> Thrown(log[i]).None?
  }

  /** `perform(decision:)`: a `none` decision is refused with `confirmationPending` before any
      collaborator is called. Otherwise the calls follow `PerformLog`; the first error stops
      the run and is rethrown, and only a run that got through the action writes the (single)
      audit record. On success the destination returned is the one the action produced and
      the one audited. */
  function Perform<W>(s: Services<W>, w: W, decision: ActionDecision): (r: (W, seq<Call>, Result<Path, Failure>))
    ensures decision.intendedAction == NoAction ==> r == (w, [], Err(Domain(ConfirmationPending)))
    ensures decision.intendedAction != NoAction ==>
      var log := r.1;
      && PerformLog(decision.item, decision.intendedAction, log)
      && (r.2.Ok? <==> |log| == 4 && Thrown(log[3]).None?)
      && (r.2.Ok? ==> r.2.value == log[2].produced.value)
      && (r.2.Err? ==> Thrown(log[|log| - 1]) == Some(r.2.error))
      && ((exists i :: 0 <= i < |log| && log[i].RecordCall?) <==> |log| == 4)
    ensures Replays(s, w, r.1, r.0)
  {
    var item, action := decision.item, decision.intendedAction;
    if action == NoAction then (w, [], Err(Domain(ConfirmationPending)))
    else
      var (w1, staging) := s.stagingURL(w, item, action);
      var c1 := StagingURLCall(item, action, staging);
      assert Replay(s, w, c1) == (w1, c1);
      ReplaysAppend(s, w, [], w, c1, w1);
      assert [] + [c1] == [c1];
      if staging.Err? then (w1, [c1], Err(staging.error))
      else
        var (w2, original) := s.stageOriginal(w1, item.path);
        var c2 := StageOriginalCall(item.path, original);
        assert Replay(s, w1, c2) == (w2, c2);
        ReplaysAppend(s, w, [c1], w1, c2, w2);
        assert [c1] + [c2] == [c1, c2];
        if original.Err? then (w2, [c1, c2], Err(original.error))
        else
          var directory := Parent(item.path);
          var (w3, produced) := if action == Compress then s.compress(w2, item, directory) else s.decompress(w2, item, directory);
          var c3 := ActionCall(action, item, directory, produced);
          assert Replay(s, w2, c3) == (w3, c3);
          ReplaysAppend(s, w, [c1, c2], w2, c3, w3);
          assert [c1, c2] + [c3] == [c1, c2, c3];
          if produced.Err? then (w3, [c1, c2, c3], Err(produced.error))
          else
            var (w4, audited) := s.record(w3, action, item, produced.value);
            var c4 := RecordCall(action, item, produced.value, audited);
            assert Replay(s, w3, c4) == (w4, c4);
            ReplaysAppend(s, w, [c1, c2, c3], w3, c4, w4);
            assert [c1, c2, c3] + [c4] == [c1, c2, c3, c4];
            if audited.Err? then (w4, [c1, c2, c3, c4], Err(audited.error))
            else (w4, [c1, c2, c3, c4], Ok(produced.value))
  }

  /** `undoLastAction(for:)`: asks for the staging location of the item with action
      `compress`, whatever the item is, and restores from that location onto the item. */
  function Undo<W>(s: Services<W>, w: W, item: FinderItem): (r: (W, seq<Call>, Result<(), Failure>))
    ensures 1 <= |r.1| <= 2
    ensures r.1[0].StagingURLCall? && r.1[0].item == item && r.1[0].action == Compress
    ensures |r.1| == 2 <==> r.1[0].staged.Ok?
    ensures |r.1| == 2 ==> r.1[1] == RestoreCall(r.1[0].staged.value, item.path, r.2)
    ensures |r.1| == 1 ==> r.2 == Err(r.1[0].staged.error)
    ensures Replays(s, w, r.1, r.0)
  {
    var (w1, staging) := s.stagingURL(w, item, Compress);
    var c1 := StagingURLCall(item, Compress, staging);
    assert Replay(s, w, c1) == (w1, c1);
    ReplaysAppend(s, w, [], w, c1, w1);
    assert [] + [c1] == [c1];
    if staging.Err? then (w1, [c1], Err(staging.error))
    else
      var (w2, restored) := s.restore(w1, staging.value, item.path);
      var c2 := RestoreCall(staging.value, item.path, restored);
      assert Replay(s, w1, c2) == (w2, c2);
      ReplaysAppend(s, w, [c1], w1, c2, w2);
      assert [c1] + [c2] == [c1, c2];
      (w2, [c1, c2], restored)
  }

  /** `undoLastAction` over the undo staging store on a disk, as written: the location it
      restores from is a staging location created just now, which holds nothing. */
  function UndoLastActionOnDisk(d: Disk, root: Path, timestamp: string, item: FinderItem): (r: (Disk, Result<(), FsError>))
    requires WellFormed(d)
    ensures WellFormed(r.0)
  {
    var (d1, staging) := StagingURL(d, root, timestamp, item, Compress);
    if staging.Err? then (d1, Err(staging.error))
    else Restore(d1, staging.value, item.path)
  }

  /** The undo as written destroys the item it should bring back: when the fresh staging
      location did not exist before (the usual case), the restore removes the item and then
      fails to copy the missing staged item, so the call fails and the item is gone. */
  lemma UndoLastActionLosesItem(d: Disk, root: Path, timestamp: string, item: FinderItem)
    requires WellFormed(d) && item.path in d && item.path != []
    requires StagingURL(d, root, timestamp, item, Compress).1.Ok?
    requires StagingPath(root, Compress, timestamp, item) !in d
    ensures UndoLastActionOnDisk(d, root, timestamp, item).1.Err?
    ensures item.path !in UndoLastActionOnDisk(d, root, timestamp, item).0
  {
    var (d1, staging) := StagingURL(d, root, timestamp, item, Compress);
    var staged := staging.value;
    var directory := StagingDirectory(root, Compress, timestamp);
    assert staged !in d1 by {
      assert d1 == CreateDirectories(d, directory).value;
      assert |staged| == |directory| + 1;
    }
    assert IsDirectory(d, Parent(item.path));
    assert CreateDirectories(d1, Parent(item.path)) == Ok(d1) by {
      AncestorsAreDirectories(d1, item.path);
      assert forall k :: 0 <= k <= |Parent(item.path)| ==> Parent(item.path)[..k] == item.path[..k];
    }
    assert item.path in d1;
    var d2 := RemoveItem(d1, item.path).value;
    assert staged !in d2;
    assert CopyItem(d2, staged, item.path).Err?;
  }

  /** The undo the staging store is evidently meant for: restore from the staged original
      that `stageOriginal` returned. */
  function UndoFromStagedOriginal(d: Disk, stagedOriginal: Path, item: FinderItem): (r: (Disk, Result<(), FsError>))
    requires WellFormed(d)
    ensures WellFormed(r.0)
    ensures r.1.Ok? ==> Subtree(r.0, item.path) == Subtree(d, stagedOriginal)
  {
    Restore(d, stagedOriginal, item.path)
  }

  /** Staging the original, then any change that leaves the staged copy alone, then the
      corrected undo: the undo succeeds and the item holds exactly what it held when it was
      staged. */
  lemma StagedUndoRoundTrip(d0: Disk, root: Path, uuid: string, item: FinderItem, d2: Disk)
    requires WellFormed(d0) && StageOriginal(d0, root, uuid, item.path).1.Ok?
    requires WellFormed(d2)
    requires var (d1, staged) := StageOriginal(d0, root, uuid, item.path);
      Subtree(d2, staged.value) == Subtree(d1, staged.value)
    requires CreateDirectories(d2, Parent(item.path)).Ok?
    ensures var staged := StageOriginal(d0, root, uuid, item.path).1.value;
      && UndoFromStagedOriginal(d2, staged, item).1.Ok?
      && Subtree(UndoFromStagedOriginal(d2, staged, item).0, item.path) == Subtree(d0, item.path)
  {
    var (d1, staging) := StageOriginal(d0, root, uuid, item.path);
    var staged := staging.value;
    SubtreeTopKept(d1, staged, d2, staged);
    EmptyIsPrefix(staged);
    var d3 := CreateDirectories(d2, Parent(item.path)).value;
    assert staged in d3;
    assert SafeCopy(d3, staged, item.path).1.Ok?;
  }

  lemma EmptyIsPrefix(q: Path)
    ensures IsPrefix([], q)
  {
  }

  /** A disk the undo staging store can work on. */
  type WellFormedDisk = d: Disk | WellFormed(d) witness map[[] := Directory]

  /** The world of the undo staging store: the disk, the store's root directory, and the
      timestamp and UUID that `Date()` and `UUID()` give the store's next calls. */
  datatype StoreWorld = StoreWorld(disk: WellFormedDisk, root: Path, timestamp: string, uuid: string)

  function FromStore<T>(r: Result<T, FsError>): Result<T, Failure> {
    if r.Ok? then Ok(r.value) else Err(FileSystemFailure(r.error))
  }

  /** `others` with the staging calls answered by `DefaultUndoStagingManager` on the world's
      disk; a `FileManager` error is rethrown as it is. */
  function OnStore(others: Services<StoreWorld>): Services<StoreWorld> {
    others.(
      stagingURL := (w: StoreWorld, item: FinderItem, action: SmallLightAction) =>
        var (d, staged) := StagingURL(w.disk, w.root, w.timestamp, item, action);
        (w.(disk := d), FromStore(staged)),
      stageOriginal := (w: StoreWorld, original: Path) =>
        var (d, staged) := StageOriginal(w.disk, w.root, w.uuid, original);
        (w.(disk := d), FromStore(staged)),
      restore := (w: StoreWorld, source: Path, target: Path) =>
        var (d, done) := Restore(w.disk, source, target);
        (w.(disk := d), FromStore(done)))
  }

  /** `undoLastAction` on the staging store is `UndoLastActionOnDisk`: same disk afterwards,
      same success, same error. */
  lemma UndoOnStoreIsUndoLastActionOnDisk(others: Services<StoreWorld>, w: StoreWorld, item: FinderItem)
    ensures var (w', _, outcome) := Undo(OnStore(others), w, item);
      var (d', done) := UndoLastActionOnDisk(w.disk, w.root, w.timestamp, item);
      && w'.disk == d'
      && (outcome.Ok? <==> done.Ok?)
      && (done.Err? ==> outcome == Err(FileSystemFailure(done.error)))
  {
  }

  /** The undo as written, run on the staging store, loses the item: the call fails and the
      item is gone from the disk. */
  lemma UndoOnStoreLosesItem(others: Services<StoreWorld>, w: StoreWorld, item: FinderItem)
    requires item.path in w.disk && item.path != []
    requires StagingURL(w.disk, w.root, w.timestamp, item, Compress).1.Ok?
    requires StagingPath(w.root, Compress, w.timestamp, item) !in w.disk
    ensures Undo(OnStore(others), w, item).2.Err?
    ensures item.path !in Undo(OnStore(others), w, item).0.disk
  {
    UndoOnStoreIsUndoLastActionOnDisk(others, w, item);
    UndoLastActionLosesItem(w.disk, w.root, w.timestamp, item);
  }

  /** On the staging store, a `perform` that got past its second call staged the original
      under root/originals/<UUID>-<name>, and that copy holds exactly what the item held after
      the staging location was made. */
  lemma PerformStagesOriginal(others: Services<StoreWorld>, w: StoreWorld, decision: ActionDecision)
    requires decision.intendedAction != NoAction
    ensures var log := Perform(OnStore(others), w, decision).1;
      |log| >= 2 && log[1].staged.Ok? ==>
        && log[1].staged.value == StagedOriginalPath(w.root, w.uuid, decision.item.path)
        && Subtree(Played(OnStore(others), w, log[..2]).disk, log[1].staged.value) ==
           Subtree(Played(OnStore(others), w, log[..1]).disk, decision.item.path)
  {
    var s := OnStore(others);
    var item := decision.item;
    var (w', log, _) := Perform(s, w, decision);
    if |log| >= 2 {
      ReplayedFirstTwo(s, w, log, w');
      var w1 := Replay(s, w, log[0]).0;
      assert w1.root == w.root && w1.uuid == w.uuid;
      var (d2, original) := StageOriginal(w1.disk, w1.root, w1.uuid, item.path);
      assert Replay(s, w1, log[1]) == (w1.(disk := d2), StageOriginalCall(item.path, FromStore(original)));
    }
  }
}
