/** `CGEventFlags` as the 64-bit masks CoreGraphics defines, with the two helpers both hover
    monitors use: keeping only the monitored modifiers, and testing that a set of required
    modifiers is held. */
module EventFlags {

  type Flags = bv64

  const MaskShift: Flags := 0x20000
  const MaskControl: Flags := 0x40000
  const MaskAlternate: Flags := 0x80000
  const MaskCommand: Flags := 0x100000

  /** Option, Control, Shift and Command: the only modifiers the monitors look at. */
  const MonitoredModifiers: Flags := MaskAlternate | MaskControl | MaskShift | MaskCommand

  /** `flags.filtered`: the monitored bits of `f`, and no other bit. */
  function Filtered(f: Flags): (r: Flags)
    ensures r & f == r
    ensures r & !MonitoredModifiers == 0
    ensures f & MonitoredModifiers == r & MonitoredModifiers
  {
    f & MonitoredModifiers
  }

  /** `containsAll(required)`: every bit of `required` is set in `f`. */
  predicate ContainsAll(f: Flags, required: Flags) {
    f & required == required
  }

  /** Filtering twice is filtering once. */
  lemma FilteredIdempotent(f: Flags)
    ensures Filtered(Filtered(f)) == Filtered(f)
  {
  }

  /** For a chord made of monitored modifiers, filtering the raw flags first does not change
      whether the chord is held. */
  lemma FilteringKeepsChord(f: Flags, required: Flags)
    requires required & !MonitoredModifiers == 0
    ensures ContainsAll(Filtered(f), required) <==> ContainsAll(f, required)
  {
  }

  /** No chord that needs an unmonitored modifier is ever held after filtering. */
  lemma UnmonitoredChordNeverHeld(f: Flags, required: Flags)
    requires required & !MonitoredModifiers != 0
    ensures !ContainsAll(Filtered(f), required)
  {
  }

  /** `AppSettings.HeldKey`: the modifier chord that arms the dwell. */
  datatype HeldKey = Option | Control | ShiftOption

  function HeldKeyFlags(k: HeldKey): (r: Flags)
    ensures r != 0 && r & !MonitoredModifiers == 0
  {
    match k
    case Option => MaskAlternate
    case Control => MaskControl
    case ShiftOption => MaskShift | MaskAlternate
  }

  /** The default held key of the trigger settings. */
  const DefaultHeldKey: HeldKey := Option
}
