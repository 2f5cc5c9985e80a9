/** `AppCoordinator`'s behaviour: start and stop, the dedup gate in front of every resolved
    Finder item, the routing of an item to zip extraction, compression or an informational
    HUD entry, and the staging / action / audit sequence of the two handlers, which release
    the dedup key when they fail. */
module Coordination {
  import opened Wrappers
  import opened Paths
  import opened Domain
  import opened Collaborators
  import opened Deduplication
  import opened HUD
  import opened HotKeyRegistration
  import opened ZipHandling
  import Orchestration

  /** `AppCoordinator.Mode`. */
  datatype Mode = Idle | Watching

  /** `DedupAction.resolve`. */
  const DedupActionResolve: string := "resolve"

  /** `FinderItemResolution`: what the resolver found under the cursor. */
  datatype FinderItemResolution = FinderItemResolution(path: Path, isDirectory: bool, isArchive: bool)

  /** `FinderItemResolverError`, plus any other error the resolver throws. */
  datatype ResolverError = AccessibilityPermissionRequired | BaseDirectoryUnavailable | OtherResolverError

  /** What the three application hot keys do. */
  datatype HotKeyCommand = FocusHUD | ManualResolve | ToggleHUD

  /** The default chords of the application hot keys: Control+Option+Space, Control+Option+P
      and Command+Option+H. */
  const FocusHotKey: HotKeyChord := HotKeyChord(49, ModifierControl | ModifierOption)
  const ManualResolveHotKey: HotKeyChord := HotKeyChord(35, ModifierControl | ModifierOption)
  const ToggleHUDHotKey: HotKeyChord := HotKeyChord(4, ModifierOption | ModifierCommand)

  const HotKeyEntries: seq<(HotKeyChord, HotKeyCommand)> :=
    [(FocusHotKey, FocusHUD), (ManualResolveHotKey, ManualResolve), (ToggleHUDHotKey, ToggleHUD)]

  /** The dedup key of a resolved path: "<path>::resolve". */
  function DedupKey(path: Path): (key: string)
    ensures key == PathString(path) + "::" + DedupActionResolve
  {
    PathString(path) + "::" + DedupActionResolve
  }

  /** Two resolutions share a dedup key exactly when their paths print alike. */
  lemma DedupKeyDeterminesPath(p: Path, q: Path)
    ensures DedupKey(p) == DedupKey(q) <==> PathString(p) == PathString(q)
  {
    if DedupKey(p) == DedupKey(q) {
      var suffix := "::" + DedupActionResolve;
      assert PathString(p) == DedupKey(p)[..|DedupKey(p)| - |suffix|];
      assert PathString(q) == DedupKey(q)[..|DedupKey(q)| - |suffix|];
    }
  }

  /** `makeFinderItem(for:)`: the item with the resolution's path and kind, and its URL. */
  function MakeFinderItem(resolution: FinderItemResolution): (r: (FinderItem, Path))
    ensures r.0.path == resolution.path && r.1 == resolution.path
    ensures r.0.isDirectory == resolution.isDirectory && r.0.isArchive == resolution.isArchive
  {
    (FinderItem(resolution.path, resolution.isDirectory, resolution.isArchive), resolution.path)
  }

  /** Where `handleResolvedItem` sends a resolution. */
  datatype Route = ZipExtraction | Compression | Information

  /** Archives go to extraction when the zip mode is automatic, which takes precedence over
      being a directory; other directories go to compression; everything else only gets an
      informational HUD entry. */
  function RouteFor(resolution: FinderItemResolution, zipMode: ZipMode): (route: Route)
    ensures route == ZipExtraction <==> resolution.isArchive && zipMode == Auto
    ensures route == Compression <==> !(resolution.isArchive && zipMode == Auto) && resolution.isDirectory
    ensures route == Information <==> !(resolution.isArchive && zipMode == Auto) && !resolution.isDirectory
  {
    if resolution.isArchive && zipMode == Auto then ZipExtraction
    else if resolution.isDirectory then Compression
    else Information
  }

  /** With automatic zip handling the coordinator routes an item the way the orchestrator's
      decision would, except for a directory that also looks like an archive: the
      orchestrator compresses it, the coordinator extracts it. */
  lemma RouteMatchesDecision(resolution: FinderItemResolution)
    ensures var item := MakeFinderItem(resolution).0;
      var route := RouteFor(resolution, Auto);
      var action := Orchestration.Decide(item);
      && (route == ZipExtraction && action == Compress <==> resolution.isArchive && resolution.isDirectory)
      && (route == ZipExtraction ==> action != NoAction)
      && (route == Compression <==> action == Compress && !resolution.isArchive)
      && (route == Information <==> action == NoAction)
  {
  }

  /** `contextMessage(for:)`: the folder or file message with the item's parent directory. */
  function ContextMessage(resolution: FinderItemResolution): (m: Message)
    ensures m.argument == PathString(Parent(resolution.path))
    ensures m.key == if resolution.isDirectory then "hud.info.folder" else "hud.info.file"
  {
    Localized(if resolution.isDirectory then "hud.info.folder" else "hud.info.file", PathString(Parent(resolution.path)))
  }

  /** What a handler that got through its action hands to the HUD. */
  datatype ActionRun = ActionRun(staging: Path, stagedOriginal: Path, destination: Path)

  /** The call that carries out a handler's action: compression of the item into its parent
      directory, or extraction of the archive at the resolved path. */
  function HandlerActionCall(action: SmallLightAction, resolution: FinderItemResolution, produced: Result<Path, Failure>): Call {
    if action == Compress then CompressCall(MakeFinderItem(resolution).0, Parent(resolution.path), produced)
    else ExtractCall(resolution.path, produced)
  }

  /** The calls of `handleCompression` / `handleZipExtraction`, as far as they got: staging
      location for the item and action, staging of the original at the item's URL, the
      action, and the audit record of the destination; each call is made only when the
      earlier ones (the audit aside) succeeded. */
  predicate HandlerLog(resolution: FinderItemResolution, action: SmallLightAction, log: seq<Call>) {
    var item := MakeFinderItem(resolution).0;
    && 1 <= |log| <= 4
    && log[0].StagingURLCall? && log[0].item == item && log[0].action == action
    && (|log| > 1 ==> log[1].StageOriginalCall? && log[1].original == resolution.path)
    && (|log| > 2 ==> (log[2].CompressCall? || log[2].ExtractCall?) &&
                      log[2] == HandlerActionCall(action, resolution, log[2].produced))
    && (|log| > 3 ==> log[3].RecordCall? && log[3].action == action && log[3].item == item &&
                      log[2].produced.Ok? && log[3].destination == log[2].produced.value)
    && forall i :: 0 <= i < |log| - 1 ==> Thrown(log[i]).None?
  }

  /** The body of either handler (`Compress` for `handleCompression`, `Decompress` for
      `handleZipExtraction`). It succeeds exactly when it got as far as the audit record,
      whose own failure is swallowed; it then reports the staging location, the staged
      original and the action's destination. Otherwise it rethrows the error of its last
      call and has written no audit record. */
  function RunAction<W>(s: Services<W>, w: W, resolution: FinderItemResolution, action: SmallLightAction)
    : (r: (W, seq<Call>, Result<ActionRun, Failure>))
    requires action != NoAction
    ensures HandlerLog(resolution, action, r.1)
    ensures r.2.Ok? <==> |r.1| == 4
    ensures r.2.Ok? ==> r.2.value == ActionRun(r.1[0].staged.value, r.1[1].staged.value, r.1[2].produced.value)
    ensures r.2.Err? ==> Thrown(r.1[|r.1| - 1]) == Some(r.2.error)
    ensures (exists i :: 0 <= i < |r.1| && r.1[i].RecordCall?) <==> r.2.Ok?
    ensures Replays(s, w, r.1, r.0)
  {
    var (item, itemPath) := MakeFinderItem(resolution);
    var (w1, staging) := s.stagingURL(w, item, action);
    var c1 := StagingURLCall(item, action, staging);
    assert Replay(s, w, c1) == (w1, c1);
    ReplaysAppend(s, w, [], w, c1, w1);
    assert [] + [c1] == [c1];
    if staging.Err? then (w1, [c1], Err(staging.error))
    else
      var (w2, staged) := s.stageOriginal(w1, itemPath);
      var c2 := StageOriginalCall(itemPath, staged);
      assert Replay(s, w1, c2) == (w2, c2);
      ReplaysAppend(s, w, [c1], w1, c2, w2);
      assert [c1] + [c2] == [c1, c2];
      if staged.Err? then (w2, [c1, c2], Err(staged.error))
      else
        var (w3, produced) :=
          if action == Compress then s.compress(w2, item, Parent(itemPath)) else s.extract(w2, resolution.path);
        var c3 := HandlerActionCall(action, resolution, produced);
        assert Replay(s, w2, c3) == (w3, c3);
        ReplaysAppend(s, w, [c1, c2], w2, c3, w3);
        assert [c1, c2] + [c3] == [c1, c2, c3];
        if produced.Err? then (w3, [c1, c2, c3], Err(produced.error))
        else
          var (w4, audited) := s.record(w3, action, item, produced.value);
          var c4 := RecordCall(action, item, produced.value, audited);
          assert Replay(s, w3, c4) == (w4, c4);
          ReplaysAppend(s, w, [c1, c2, c3], w3, c4, w4);
          assert [c1, c2, c3] + [c4] == [c1, c2, c3, c4];
          (w4, [c1, c2, c3, c4],
           Ok(ActionRun(staging.value, staged.value, produced.value)))
  }

  /** The compress handler and `DefaultActionOrchestrator.perform` make the same calls and
      leave the same world; the handler succeeds whenever `perform` does, with the destination
      `perform` returns, and differs from it only when the audit record fails, which the
      handler ignores. */
  lemma RunActionAgreesWithPerform<W>(s: Services<W>, w: W, resolution: FinderItemResolution, confirm: bool)
    ensures var decision := ActionDecision(MakeFinderItem(resolution).0, Compress, confirm);
      var (w1, log1, outcome) := RunAction(s, w, resolution, Compress);
      var (w2, log2, performed) := Orchestration.Perform(s, w, decision);
      && w1 == w2 && log1 == log2
      && (performed.Ok? ==> outcome.Ok? && outcome.value.destination == performed.value)
      && (outcome.Ok? && performed.Err? <==> |log1| == 4 && Thrown(log1[3]).Some?)
  {
  }

  /** `error.localizedDescription`: a zip handler error's own description; for any other
      error the text Foundation makes for it, which `describe` stands for. */
  function FailureText(e: Failure, describe: Failure -> string): (t: string)
    ensures e.Zip? ==> t == ErrorDescription(e.zipError)
  {
    if e.Zip? then ErrorDescription(e.zipError) else describe(e)
  }

  /** The HUD entries a handler presents, in order: on success the staging location, the
      staged original and the destination (with the handler's success message); on failure
      one entry for the resolved path with the handler's error message. */
  function HandlerEntries(resolution: FinderItemResolution, action: SmallLightAction, outcome: Result<ActionRun, Failure>, describe: Failure -> string)
    : (entries: seq<HUDEntry>)
    ensures outcome.Ok? ==> |entries| == 3 && entries[2].path == PathString(outcome.value.destination)
    ensures outcome.Err? ==> |entries| == 1 && entries[0].path == PathString(resolution.path)
    ensures outcome.Err? ==>
      entries[0].message.Some? && entries[0].message.value.argument == FailureText(outcome.error, describe)
  {
    var prefix := if action == Compress then "hud.compress." else "hud.zip.";
    match outcome
    case Ok(run) =>
      [ HUDEntry(PathString(run.staging), Some(Localized("hud.zip.staging", PathString(run.staging)))),
        HUDEntry(PathString(run.stagedOriginal), Some(Localized("hud.zip.staged", PathString(run.stagedOriginal)))),
        HUDEntry(PathString(run.destination), Some(Localized(prefix + "success", PathString(run.destination)))) ]
    case Err(e) =>
      [ HUDEntry(PathString(resolution.path), Some(Localized(prefix + "error", FailureText(e, describe)))) ]
  }

  /** `entries` newest first. */
  function Reversed(entries: seq<HUDEntry>): (r: seq<HUDEntry>)
    ensures |r| == |entries|
    ensures forall i :: 0 <= i < |r| ==> r[i] == entries[|entries| - 1 - i]
  {
    if entries == [] then [] else Reversed(entries[1..]) + [entries[0]]
  }

  /** The first `limit` entries of a newest-first list. */
  function Newest(entries: seq<HUDEntry>, limit: nat): (r: seq<HUDEntry>)
    ensures |r| == if |entries| <= limit then |entries| else limit
    ensures r == entries[..|r|]
  {
    if |entries| > limit then entries[..limit] else entries
  }

  /** The history after presenting `entries` one after another. */
  function PresentedAll(history: seq<HUDEntry>, entries: seq<HUDEntry>, limit: nat): (r: seq<HUDEntry>)
    decreases |entries|
  {
    if entries == [] then history
    else PresentedAll(Appended(history, entries[0], limit), entries[1..], limit)
  }

  /** Cutting twice to the same limit is cutting once. */
  lemma NewestOfNewest(front: seq<HUDEntry>, back: seq<HUDEntry>, limit: nat)
    ensures Newest(front + Newest(back, limit), limit) == Newest(front + back, limit)
  {
    var cut := Newest(back, limit);
    var left := Newest(front + cut, limit);
    var right := Newest(front + back, limit);
    assert |left| == |right|;
    forall i | 0 <= i < |left|
      ensures left[i] == right[i]
    {
      if i >= |front| {
        assert left[i] == cut[i - |front|];
      }
    }
  }

  lemma AppendedIsNewest(history: seq<HUDEntry>, entry: HUDEntry, limit: nat)
    ensures Appended(history, entry, limit) == Newest([entry] + history, limit)
  {
  }

  lemma ReversedStep(entries: seq<HUDEntry>, history: seq<HUDEntry>)
    requires entries != []
    ensures Reversed(entries[1..]) + ([entries[0]] + history) == Reversed(entries) + history
  {
    assert Reversed(entries) == Reversed(entries[1..]) + [entries[0]];
  }

  /** Presenting several entries leaves them in front of the history, the last one first,
      and keeps the newest `limit` entries of the lot. */
  lemma {:induction false} PresentedAllNewestFirst(history: seq<HUDEntry>, entries: seq<HUDEntry>, limit: nat)
    requires |history| <= limit
    ensures PresentedAll(history, entries, limit) == Newest(Reversed(entries) + history, limit)
    decreases |entries|
  {
    if entries == [] {
      assert Reversed(entries) + history == history;
    } else {
      var rest := entries[1..];
      AppendedIsNewest(history, entries[0], limit);
      AppendedWithinLimit(history, entries[0], limit);
      PresentedAllNewestFirst(Appended(history, entries[0], limit), rest, limit);
      NewestOfNewest(Reversed(rest), [entries[0]] + history, limit);
      ReversedStep(entries, history);
    }
  }

  /** A handler that fails leaves the dedup key free again: whatever the store held, the
      resolved item is not a duplicate once its key has been recorded and then removed. */
  lemma FailedHandlingReleasesKey(store: Store, capacity: nat, ttl: real, key: string, now: real, later: real)
    requires capacity > 0 && WellIndexed(store, capacity)
    ensures !IsDuplicate(Remove(Record(store, capacity, ttl, key, now), key), key, later, ttl)
  {
    RemovedIsNotDuplicate(Record(store, capacity, ttl, key, now), key, later, ttl);
  }

  /** Clearing the key of a path for the "resolve" action frees exactly the key the
      resolution gate records for it: the item is no longer a duplicate, at any time. */
  lemma ClearedResolveKeyIsFree(store: Store, p: Path, now: real, ttl: real)
    ensures !IsDuplicate(Remove(store, PathString(p) + "::" + DedupActionResolve), DedupKey(p), now, ttl)
  {
    RemovedIsNotDuplicate(store, DedupKey(p), now, ttl);
  }

  /** A handler that succeeds keeps the key, so the same item resolved again within the TTL
      is dropped by the gate. */
  lemma SucceededHandlingKeepsKey(store: Store, capacity: nat, ttl: real, key: string, now: real, later: real)
    requires capacity > 0 && WellIndexed(store, capacity) && later - ttl <= now
    ensures IsDuplicate(Record(store, capacity, ttl, key, now), key, later, ttl)
  {
    RecordedIsDuplicate(store, capacity, ttl, key, now, later);
  }

  class AppCoordinator<W> {
    var mode: Mode
    var hudVisible: bool
    var didWarnAccessibility: bool
    const zipMode: ZipMode
    const dedupStore: DeduplicationStore
    const hud: HUDViewModel
    const hotKeyCenter: HotKeyCenter<HotKeyCommand>
    const services: Services<W>
    const describe: Failure -> string
    /** The world the collaborators act on, and the calls made into them so far. */
    var world: W
    var calls: seq<Call>

    ghost predicate Valid()
      reads this, dedupStore
    {
      dedupStore.Valid() && dedupStore.capacity > 0 && hud.historyLimit >= 0
    }

    constructor (zipMode: ZipMode, dedupStore: DeduplicationStore, hud: HUDViewModel, hotKeyCenter: HotKeyCenter<HotKeyCommand>,
                 services: Services<W>, describe: Failure -> string, world: W)
      requires dedupStore.Valid() && dedupStore.capacity > 0 && hud.historyLimit >= 0
      ensures Valid() && mode == Idle && !hudVisible && !didWarnAccessibility && calls == []
      ensures this.zipMode == zipMode && this.dedupStore == dedupStore && this.hud == hud
      ensures this.hotKeyCenter == hotKeyCenter && this.services == services && this.world == world
    {
      mode := Idle;
      hudVisible := false;
      didWarnAccessibility := false;
      this.zipMode := zipMode;
      this.dedupStore := dedupStore;
      this.hud := hud;
      this.hotKeyCenter := hotKeyCenter;
      this.services := services;
      this.describe := describe;
      this.world := world;
      calls := [];
    }

    /** `start()`: only from idle; hides the HUD, enters watching and registers the
        application hot keys, all or nothing (a registration error is only logged). */
    method Start(registrar: Registrar)
      modifies this, hotKeyCenter
      ensures old(mode) == Idle ==> mode == Watching && !hudVisible
      ensures old(mode) == Idle ==>
        var made := old(hotKeyCenter.registrarsMade);
        if forall i :: 0 <= i < |HotKeyEntries| ==> registrar(made + i, HotKeyEntries[i].0).Ok? then
          && hotKeyCenter.registrarsMade == made + |HotKeyEntries|
          && hotKeyCenter.registrations == ExpectedUpTo(HotKeyEntries, registrar, made, |HotKeyEntries|)
        else
          hotKeyCenter.registrations == []
      ensures old(mode) != Idle ==> mode == old(mode) && hudVisible == old(hudVisible) &&
                                     hotKeyCenter.registrations == old(hotKeyCenter.registrations)
      ensures dedupStore.State() == old(dedupStore.State()) && calls == old(calls) && world == old(world)
    {
      if mode != Idle {
        return;
      }
      hudVisible := false;
      mode := Watching;
      var _ := hotKeyCenter.Register(HotKeyEntries, registrar);
    }

    /** `stop()`: only from watching; unregisters every hot key and returns to idle. The HUD
        window is hidden but `hudVisible` is left as it was. */
    method Stop()
      modifies this, hotKeyCenter
      ensures old(mode) == Watching ==> mode == Idle && hotKeyCenter.registrations == []
      ensures old(mode) != Watching ==> mode == old(mode) && hotKeyCenter.registrations == old(hotKeyCenter.registrations)
      ensures hudVisible == old(hudVisible) && calls == old(calls) && world == old(world)
    {
      if mode != Watching {
        return;
      }
      hotKeyCenter.UnregisterAll();
      mode := Idle;
    }

    /** `present(path:message:)`. */
    method Present(entry: HUDEntry)
      requires hud.historyLimit >= 0
      modifies hud
      ensures hud.history == Appended(old(hud.history), entry, hud.historyLimit)
    {
      hud.Append(entry);
    }

    method PresentAll(entries: seq<HUDEntry>)
      requires hud.historyLimit >= 0
      modifies hud
      ensures hud.history == PresentedAll(old(hud.history), entries, hud.historyLimit)
    {
      for i := 0 to |entries|
        invariant PresentedAll(old(hud.history), entries, hud.historyLimit) ==
                  PresentedAll(hud.history, entries[i..], hud.historyLimit)
      {
        assert entries[i..][1..] == entries[i + 1..];
        Present(entries[i]);
      }
    }

    /** `handleCompression` / `handleZipExtraction`: runs the handler's calls, presents its
        HUD entries and, when it failed, removes the dedup key. */
    method HandleAction(resolution: FinderItemResolution, key: string, action: SmallLightAction)
      requires Valid() && action != NoAction
      modifies this, dedupStore`ring, dedupStore`index, hud
      ensures Valid()
      ensures var (w, log, outcome) := RunAction(services, old(world), resolution, action);
        && world == w && calls == old(calls) + log
        && hud.history == PresentedAll(old(hud.history), HandlerEntries(resolution, action, outcome, describe), hud.historyLimit)
        && dedupStore.State() == if outcome.Err? then Remove(old(dedupStore.State()), key) else old(dedupStore.State())
      ensures mode == old(mode) && hudVisible == old(hudVisible) && didWarnAccessibility == old(didWarnAccessibility)
    {
      var (w, log, outcome) := RunAction(services, world, resolution, action);
      world := w;
      calls := calls + log;
      if outcome.Err? {
        dedupStore.RemoveKey(key);
      }
      PresentAll(HandlerEntries(resolution, action, outcome, describe));
    }

    /** `clearDedupKey(for:action:)`: forgets the key "<path>::<action>". */
    method ClearDedupKey(path: string, action: string)
      requires Valid()
      modifies dedupStore`ring, dedupStore`index
      ensures Valid() && dedupStore.State() == Remove(old(dedupStore.State()), path + "::" + action)
    {
      dedupStore.RemoveKey(path + "::" + action);
    }

    /** `handleResolvedItem(_:dedupKey:)`. */
    method HandleResolvedItem(resolution: FinderItemResolution, key: string)
      requires Valid()
      modifies this, dedupStore`ring, dedupStore`index, hud
      ensures Valid()
      ensures RouteFor(resolution, zipMode) == Information ==>
        && hud.history == Appended(old(hud.history), HUDEntry(PathString(resolution.path), Some(ContextMessage(resolution))), hud.historyLimit)
        && dedupStore.State() == old(dedupStore.State()) && calls == old(calls) && world == old(world)
      ensures RouteFor(resolution, zipMode) != Information ==>
        var action := if RouteFor(resolution, zipMode) == ZipExtraction then Decompress else Compress;
        var (w, log, outcome) := RunAction(services, old(world), resolution, action);
        && world == w && calls == old(calls) + log
        && hud.history == PresentedAll(old(hud.history), HandlerEntries(resolution, action, outcome, describe), hud.historyLimit)
        && dedupStore.State() == if outcome.Err? then Remove(old(dedupStore.State()), key) else old(dedupStore.State())
      ensures mode == old(mode) && hudVisible == old(hudVisible) && didWarnAccessibility == old(didWarnAccessibility)
    {
      if resolution.isArchive && zipMode == Auto {
        HandleAction(resolution, key, Decompress);
      } else if resolution.isDirectory {
        HandleAction(resolution, key, Compress);
      } else {
        Present(HUDEntry(PathString(resolution.path), Some(ContextMessage(resolution))));
      }
    }

    /** `resolve(at:bypassDedup:)`, given what the resolver returned or threw and the current
        time. Nothing found stops at once. Without the bypass a key still in the store stops
        the item (the lookup purges expired keys first); otherwise the key is recorded and the
        item handled. A missing accessibility permission warns once, clearing the HUD's
        accessibility flag; any other resolver error is only logged. */
    method Resolve(resolved: Result<Option<FinderItemResolution>, ResolverError>, bypassDedup: bool, now: real)
      requires Valid()
      modifies this, dedupStore, hud
      ensures Valid()
      ensures resolved.Ok? && resolved.value.None? ==>
        dedupStore.State() == old(dedupStore.State()) && calls == old(calls) && hud.history == old(hud.history)
      ensures resolved.Err? ==>
        && dedupStore.State() == old(dedupStore.State()) && calls == old(calls) && hud.history == old(hud.history)
        && (resolved.error == AccessibilityPermissionRequired && !old(didWarnAccessibility) ==> didWarnAccessibility && !hud.accessibilityGranted)
        && (resolved.error != AccessibilityPermissionRequired || old(didWarnAccessibility) ==> hud.accessibilityGranted == old(hud.accessibilityGranted))
      ensures resolved.Ok? && resolved.value.Some? ==>
        var key := DedupKey(resolved.value.value.path);
        && (!bypassDedup && IsDuplicate(old(dedupStore.State()), key, now, dedupStore.ttl) ==>
              dedupStore.State() == Purge(old(dedupStore.State()), now, dedupStore.ttl) &&
              calls == old(calls) && hud.history == old(hud.history))
        && (bypassDedup || !IsDuplicate(old(dedupStore.State()), key, now, dedupStore.ttl) ==>
              key in dedupStore.recordedKeys)
      ensures mode == old(mode) && hudVisible == old(hudVisible)
    {
      if resolved.Err? {
        if resolved.error == AccessibilityPermissionRequired {
          HandleAccessibilityWarning();
        }
        return;
      }
      if resolved.value.None? {
        return;
      }
      var resolution := resolved.value.value;
      var key := DedupKey(resolution.path);
      if !bypassDedup {
        var duplicate := dedupStore.IsDuplicateKey(key, now);
        if duplicate {
          return;
        }
      }
      dedupStore.RecordKey(key, now);
      HandleResolvedItem(resolution, key);
    }

    /** `handleAccessibilityWarning()`: only the first time. */
    method HandleAccessibilityWarning()
      modifies this, hud
      ensures !old(didWarnAccessibility) ==> didWarnAccessibility && !hud.accessibilityGranted
      ensures old(didWarnAccessibility) ==> didWarnAccessibility && hud.accessibilityGranted == old(hud.accessibilityGranted)
      ensures hud.history == old(hud.history) && calls == old(calls) && mode == old(mode) && hudVisible == old(hudVisible)
    {
      if didWarnAccessibility {
        return;
      }
      didWarnAccessibility := true;
      hud.UpdateAccessibility(false);
    }

    /** `handleHoverEvent(_:)`: resolves with the dedup gate, so an item whose key is still in
        the store is not handled again. */
    method HandleHoverEvent(resolved: Result<Option<FinderItemResolution>, ResolverError>, now: real)
      requires Valid()
      modifies this, dedupStore, hud
      ensures Valid()
      ensures resolved.Ok? && resolved.value.Some? ==>
        var key := DedupKey(resolved.value.value.path);
        && (IsDuplicate(old(dedupStore.State()), key, now, dedupStore.ttl) ==>
              calls == old(calls) && hud.history == old(hud.history))
        && (!IsDuplicate(old(dedupStore.State()), key, now, dedupStore.ttl) ==> key in dedupStore.recordedKeys)
    {
      Resolve(resolved, false, now);
    }

    /** `manualResolve()`: resolves past the dedup gate, so an item whose key is still in the
        store is handled again. */
    method ManualResolve(resolved: Result<Option<FinderItemResolution>, ResolverError>, now: real)
      requires Valid()
      modifies this, dedupStore, hud
      ensures Valid()
      ensures resolved.Ok? && resolved.value.Some? ==> DedupKey(resolved.value.value.path) in dedupStore.recordedKeys
    {
      Resolve(resolved, true, now);
    }
  }
}
