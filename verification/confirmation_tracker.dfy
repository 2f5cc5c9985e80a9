/** `UserDefaultsConfirmationTracker`: the set of confirmed paths (keyed by their standardized
    form), cached in memory and written back to the user defaults after every change. */
module ConfirmationTracking {
  import opened Paths
  import opened UserDefaultsStore

  const StorageKey: string := "io.smalllight.confirmed-paths"

  /** `storageKey(for:)`: the standardized path. */
  function PathKey(path: Path): (k: string)
    ensures k == PathString(Standardize(path))
  {
    PathString(Standardize(path))
  }

  /** `needsConfirmation(for:)` over a confirmed set. */
  predicate Needs(confirmed: set<string>, path: Path) {
    PathKey(path) !in confirmed
  }

  /** `markConfirmed(for:)` over a confirmed set. */
  function Marked(confirmed: set<string>, path: Path): (r: set<string>)
    ensures !Needs(r, path)
    ensures forall q :: PathKey(q) != PathKey(path) ==> (Needs(r, q) <==> Needs(confirmed, q))
  {
    confirmed + {PathKey(path)}
  }

  /** `resetConfirmation(for:)` over a confirmed set. */
  function Reset(confirmed: set<string>, path: Path): (r: set<string>)
    ensures Needs(r, path)
    ensures forall q :: PathKey(q) != PathKey(path) ==> (Needs(r, q) <==> Needs(confirmed, q))
  {
    confirmed - {PathKey(path)}
  }

  /** `persist()` over the defaults: the whole set under the storage key, nothing else
      changed. */
  function Persisted(values: map<string, StoredValue>, confirmed: set<string>): map<string, StoredValue> {
    values[StorageKey := Strings(confirmed)]
  }

  /** Marking twice is marking once. */
  lemma MarkIdempotent(confirmed: set<string>, path: Path)
    ensures Marked(Marked(confirmed, path), path) == Marked(confirmed, path)
  {
  }

  /** Marking then resetting a path that was not confirmed restores the set. */
  lemma ResetUndoesMark(confirmed: set<string>, path: Path)
    requires Needs(confirmed, path)
    ensures Reset(Marked(confirmed, path), path) == confirmed
  {
  }

  /** Paths that standardize alike share one status: a path and its standardized form are
      confirmed together. */
  lemma StandardizedPathShared(confirmed: set<string>, path: Path)
    ensures Needs(confirmed, Standardize(path)) <==> Needs(confirmed, path)
  {
    StandardizeIdempotent(path);
  }

  /** What was persisted is what a tracker built on the same defaults starts from. */
  lemma PersistedReloads(values: map<string, StoredValue>, confirmed: set<string>)
    ensures StringsAt(Persisted(values, confirmed), StorageKey) == confirmed
  {
  }

  class ConfirmationTracker {
    const defaults: UserDefaults
    var cachedPaths: set<string>

    /** `init(userDefaults:)`: starts from the strings stored under the storage key. */
    constructor (defaults: UserDefaults)
      ensures this.defaults == defaults
      ensures cachedPaths == StringsAt(defaults.values, StorageKey)
    {
      this.defaults := defaults;
      cachedPaths := StringsAt(defaults.values, StorageKey);
    }

    method NeedsConfirmation(path: Path) returns (b: bool)
      ensures b == Needs(cachedPaths, path)
    {
      b := PathKey(path) !in cachedPaths;
    }

    method MarkConfirmed(path: Path)
      modifies this, defaults
      ensures cachedPaths == Marked(old(cachedPaths), path)
      ensures defaults.values == Persisted(old(defaults.values), cachedPaths)
    {
      cachedPaths := cachedPaths + {PathKey(path)};
      Persist();
    }

    method ResetConfirmation(path: Path)
      modifies this, defaults
      ensures cachedPaths == Reset(old(cachedPaths), path)
      ensures defaults.values == Persisted(old(defaults.values), cachedPaths)
    {
      cachedPaths := cachedPaths - {PathKey(path)};
      Persist();
    }

    method Persist()
      modifies defaults
      ensures defaults.values == Persisted(old(defaults.values), cachedPaths)
    {
      defaults.Set(StorageKey, Strings(cachedPaths));
    }
  }

  /** The persistence test: a path marked through one tracker needs no confirmation in a
      tracker built afterwards on the same defaults. */
  method PersistenceAcrossInstances(defaults: UserDefaults, path: Path) returns (needed: bool)
    modifies defaults
    ensures !needed
  {
    var first := new ConfirmationTracker(defaults);
    first.MarkConfirmed(path);
    PersistedReloads(old(defaults.values), first.cachedPaths);
    var second := new ConfirmationTracker(defaults);
    needed := second.NeedsConfirmation(path);
  }
}
