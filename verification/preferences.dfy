/** The hot-key presets of the preferences window and `PreferencesViewModel`, which copies the
    store into its fields and writes each edited field back unless it is refreshing. */
module Preferences {
  import opened Wrappers
  import opened Domain

  /** `HotKeyPreset`, in `allCases` order. */
  datatype HotKeyPreset = ControlOptionL | OptionShiftSpace | CommandOptionSpace

  const AllPresets: seq<HotKeyPreset> := [ControlOptionL, OptionShiftSpace, CommandOptionSpace]

  /** `chord`: L (37) with Control+Option, Space (49) with Option+Shift, Space with
      Command+Option. */
  function Chord(p: HotKeyPreset): (c: HotKeyChord)
    ensures p == ControlOptionL ==> c == HotKeyChord(37, ModifierControl | ModifierOption)
    ensures p == OptionShiftSpace ==> c == HotKeyChord(49, ModifierOption | ModifierShift)
    ensures p == CommandOptionSpace ==> c == HotKeyChord(49, ModifierCommand | ModifierOption)
  {
    match p
    case ControlOptionL => HotKeyChord(37, ModifierControl | ModifierOption)
    case OptionShiftSpace => HotKeyChord(49, ModifierOption | ModifierShift)
    case CommandOptionSpace => HotKeyChord(49, ModifierCommand | ModifierOption)
  }

  /** The first of `presets` whose chord is `chord`. */
  function FirstMatching(presets: seq<HotKeyPreset>, chord: HotKeyChord): (r: Option<HotKeyPreset>)
    ensures r.Some? ==> r.value in presets && Chord(r.value) == chord
    ensures r.None? <==> forall p :: p in presets ==> Chord(p) != chord
  {
    if presets == [] then None
    else if Chord(presets[0]) == chord then Some(presets[0])
    else FirstMatching(presets[1..], chord)
  }

  /** `init(from:)`: the first preset in `allCases` order with that chord, Control+Option+L
      when there is none. */
  function PresetFrom(chord: HotKeyChord): (p: HotKeyPreset)
    ensures (exists q :: Chord(q) == chord) ==> Chord(p) == chord
    ensures (forall q :: Chord(q) != chord) ==> p == ControlOptionL
  {
    var found := FirstMatching(AllPresets, chord);
    if found.Some? then found.value
    else
      EveryPresetListed();
      ControlOptionL
  }

  /** `allCases` lists every preset. */
  lemma EveryPresetListed()
    ensures forall q: HotKeyPreset :: q in AllPresets
  {
    forall q: HotKeyPreset ensures q in AllPresets {
      match q
      case ControlOptionL => assert AllPresets[0] == q;
      case OptionShiftSpace => assert AllPresets[1] == q;
      case CommandOptionSpace => assert AllPresets[2] == q;
    }
  }

  /** The three chords are pairwise distinct. */
  lemma ChordsDistinct(p: HotKeyPreset, q: HotKeyPreset)
    requires Chord(p) == Chord(q)
    ensures p == q
  {
    assert ModifierControl | ModifierOption == 10;
    assert ModifierOption | ModifierShift == 6;
    assert ModifierCommand | ModifierOption == 3;
  }

  /** Every preset survives the trip through its chord. */
  lemma PresetRoundTrip(p: HotKeyPreset)
    ensures PresetFrom(Chord(p)) == p
  {
    ChordsDistinct(PresetFrom(Chord(p)), p);
  }

  /** The default action chord is the Control+Option+L preset. */
  lemma DefaultChordIsControlOptionL()
    ensures PresetFrom(DefaultActionChord) == ControlOptionL
  {
    assert Chord(ControlOptionL) == DefaultActionChord;
    ChordsDistinct(PresetFrom(DefaultActionChord), ControlOptionL);
  }

  /** `assetPath.isEmpty ? nil : assetPath`. */
  function StoredAssetPath(assetPath: string): (r: Option<string>)
    ensures r.None? <==> assetPath == ""
    ensures r.Some? ==> r.value == assetPath
  {
    if assetPath == "" then None else Some(assetPath)
  }

  /** `store.assetPackPath ?? ""`. */
  function DisplayedAssetPath(stored: Option<string>): string {
    if stored.Some? then stored.value else ""
  }

  /** A displayed path written back and read again is unchanged, and so is a stored path
      read and written back, except that a stored empty string comes back as nothing. */
  lemma AssetPathRoundTrip(assetPath: string, stored: Option<string>)
    ensures DisplayedAssetPath(StoredAssetPath(assetPath)) == assetPath
    ensures StoredAssetPath(DisplayedAssetPath(stored)) == if stored == Some("") then None else stored
  {
  }

  /** The preferences store the view model edits (the undo retention interval is not part of
      this model). */
  class PreferencesStore {
    var launchAtLogin: bool
    var assetPackPath: Option<string>
    var preferredHotKey: HotKeyChord

    constructor (launchAtLogin: bool, assetPackPath: Option<string>, preferredHotKey: HotKeyChord)
      ensures this.launchAtLogin == launchAtLogin && this.assetPackPath == assetPackPath
      ensures this.preferredHotKey == preferredHotKey
    {
      this.launchAtLogin := launchAtLogin;
      this.assetPackPath := assetPackPath;
      this.preferredHotKey := preferredHotKey;
    }
  }

  class PreferencesViewModel {
    var launchAtLogin: bool
    var assetPath: string
    var selectedHotKey: HotKeyPreset
    var isUpdatingFromStore: bool
    const store: PreferencesStore
    /** The values passed to the launch-agent manager's `setEnabled`, in order. */
    var launchAgentRequests: seq<bool>

    /** The fields show what the store holds. */
    predicate ShowsStore()
      reads this, store
    {
      && launchAtLogin == store.launchAtLogin
      && assetPath == DisplayedAssetPath(store.assetPackPath)
      && selectedHotKey == PresetFrom(store.preferredHotKey)
    }

    constructor (store: PreferencesStore)
      ensures this.store == store && ShowsStore() && !isUpdatingFromStore && launchAgentRequests == []
    {
      this.store := store;
      launchAtLogin := store.launchAtLogin;
      assetPath := DisplayedAssetPath(store.assetPackPath);
      selectedHotKey := PresetFrom(store.preferredHotKey);
      isUpdatingFromStore := false;
      launchAgentRequests := [];
    }

    /** `refreshFromStore()`: copies the store into the fields with the guard raised, then
        lowers it. */
    method RefreshFromStore()
      modifies this
      ensures ShowsStore() && !isUpdatingFromStore && launchAgentRequests == old(launchAgentRequests)
    {
      isUpdatingFromStore := true;
      launchAtLogin := store.launchAtLogin;
      assetPath := DisplayedAssetPath(store.assetPackPath);
      selectedHotKey := PresetFrom(store.preferredHotKey);
      isUpdatingFromStore := false;
    }

    /** `onLaunchAtLoginChanged()`: writes the flag and asks the launch-agent manager to
        follow it (its error is only logged). */
    method OnLaunchAtLoginChanged()
      modifies store, this`launchAgentRequests
      ensures isUpdatingFromStore ==> store.launchAtLogin == old(store.launchAtLogin) && launchAgentRequests == old(launchAgentRequests)
      ensures !isUpdatingFromStore ==> store.launchAtLogin == launchAtLogin && launchAgentRequests == old(launchAgentRequests) + [launchAtLogin]
      ensures store.assetPackPath == old(store.assetPackPath) && store.preferredHotKey == old(store.preferredHotKey)
    {
      if isUpdatingFromStore {
        return;
      }
      store.launchAtLogin := launchAtLogin;
      launchAgentRequests := launchAgentRequests + [launchAtLogin];
    }

    /** `onAssetPathChanged()`: an empty path is stored as nothing. */
    method OnAssetPathChanged()
      modifies store
      ensures isUpdatingFromStore ==> store.assetPackPath == old(store.assetPackPath)
      ensures !isUpdatingFromStore ==> store.assetPackPath == StoredAssetPath(assetPath)
      ensures store.launchAtLogin == old(store.launchAtLogin) && store.preferredHotKey == old(store.preferredHotKey)
    {
      if isUpdatingFromStore {
        return;
      }
      store.assetPackPath := if assetPath == "" then None else Some(assetPath);
    }

    /** `onHotKeyChanged()`: stores the selected preset's chord. */
    method OnHotKeyChanged()
      modifies store
      ensures isUpdatingFromStore ==> store.preferredHotKey == old(store.preferredHotKey)
      ensures !isUpdatingFromStore ==> store.preferredHotKey == Chord(selectedHotKey)
      ensures store.launchAtLogin == old(store.launchAtLogin) && store.assetPackPath == old(store.assetPackPath)
    {
      if isUpdatingFromStore {
        return;
      }
      store.preferredHotKey := Chord(selectedHotKey);
    }
  }

  /** Choosing a preset, storing it and refreshing from the store shows the same preset. */
  method ChosenPresetSurvivesRefresh(model: PreferencesViewModel, preset: HotKeyPreset)
    requires !model.isUpdatingFromStore
    modifies model, model.store
    ensures model.selectedHotKey == preset
  {
    model.selectedHotKey := preset;
    model.OnHotKeyChanged();
    model.RefreshFromStore();
    PresetRoundTrip(preset);
  }
}
