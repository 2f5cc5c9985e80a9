/** `HUDViewModel`: the newest-first history of HUD entries, trimmed to a limit, and the
    accessibility flag the HUD shows. */
module HUD {
  import opened Wrappers

  /** A localized message: its key and the one argument formatted into it. */
  datatype Message = Localized(key: string, argument: string)

  /** `HUDEntry` without its identifier and timestamp. */
  datatype HUDEntry = HUDEntry(path: string, message: Option<Message>)

  /** The history after `append`: the new entry in front, the older ones behind it in their
      order, and only the oldest past the limit dropped. */
  function Appended(history: seq<HUDEntry>, entry: HUDEntry, limit: nat): (r: seq<HUDEntry>)
    ensures |r| == if |history| + 1 <= limit then |history| + 1 else limit
    ensures limit > 0 ==> r[0] == entry
    ensures forall i :: 1 <= i < |r| ==> r[i] == history[i - 1]
  {
    var inserted := [entry] + history;
    if |inserted| > limit then inserted[..limit] else inserted
  }

  /** Appending to a history within the limit keeps it within the limit. */
  lemma AppendedWithinLimit(history: seq<HUDEntry>, entry: HUDEntry, limit: nat)
    requires |history| <= limit
    ensures |Appended(history, entry, limit)| <= limit
    ensures |history| < limit ==> |Appended(history, entry, limit)| == |history| + 1
  {
  }

  class HUDViewModel {
    var history: seq<HUDEntry>
    var autoCopyEnabled: bool
    var accessibilityGranted: bool
    const historyLimit: int

    constructor (historyLimit: int, autoCopyEnabled: bool, accessibilityGranted: bool)
      ensures this.historyLimit == historyLimit && history == []
      ensures this.autoCopyEnabled == autoCopyEnabled && this.accessibilityGranted == accessibilityGranted
    {
      this.historyLimit := historyLimit;
      this.autoCopyEnabled := autoCopyEnabled;
      this.accessibilityGranted := accessibilityGranted;
      history := [];
    }

    /** `append(_:)`: inserts at the front, then cuts the history down to the limit (a
        negative limit would make the cut trap). */
    method Append(entry: HUDEntry)
      requires historyLimit >= 0
      modifies this
      ensures history == Appended(old(history), entry, historyLimit)
      ensures autoCopyEnabled == old(autoCopyEnabled) && accessibilityGranted == old(accessibilityGranted)
    {
      history := [entry] + history;
      if |history| > historyLimit {
        history := history[..historyLimit];
      }
    }

    /** `updateAccessibility(granted:)`: changes the flag and nothing else. */
    method UpdateAccessibility(granted: bool)
      modifies this
      ensures accessibilityGranted == granted
      ensures history == old(history) && autoCopyEnabled == old(autoCopyEnabled)
    {
      accessibilityGranted := granted;
    }
  }
}
