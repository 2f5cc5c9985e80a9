/** The earlier copy of the hover state machine, which keeps a single location for both the
    display and the hit test. Its transitions are given on a `LegacyState` value and as the
    mutating methods of a class, and are proved to agree with the current machine whenever
    both locations of the current machine coincide. */
module LegacyHoverMonitoring {
  import opened Wrappers
  import opened EventFlags
  import H = HoverMonitoring

  datatype LegacyState = LegacyState(
    lastLocation: Option<H.Point>,
    lastMovementTime: Option<real>,
    currentFlags: Flags,
    lastTriggerTime: Option<real>,
    dwellArmed: bool,
    isHeld: bool)

  const Initial: LegacyState := LegacyState(None, None, 0, None, false, false)

  /** `handleMouseMove(location:flags:timestamp:)`: records the location, time and filtered
      flags; without the chord it cancels and disarms; an armed dwell that stays within the
      tolerance is left alone; any other held move arms and starts the dwell. */
  function MouseMove(c: H.Config, s: LegacyState, location: H.Point, flags: Flags, t: real)
    : (r: (LegacyState, H.Action))
    ensures r.0.lastLocation == Some(location) && r.0.lastMovementTime == Some(t)
    ensures r.0.currentFlags == Filtered(flags) && r.0.lastTriggerTime == s.lastTriggerTime
    ensures r.0.isHeld == ContainsAll(Filtered(flags), c.requiredFlags)
    ensures !r.0.isHeld ==> r.1 == H.CancelDwell && !r.0.dwellArmed
    ensures r.0.isHeld ==> r.0.dwellArmed
    ensures r.0.isHeld ==> (r.1 == H.NoAction <==>
      s.dwellArmed && s.lastLocation.Some? && H.WithinTolerance(s.lastLocation.value, location, c.movementTolerance))
    ensures r.0.isHeld ==> r.1 != H.CancelDwell
  {
    var filtered := Filtered(flags);
    var held := ContainsAll(filtered, c.requiredFlags);
    var moved := s.(lastLocation := Some(location), lastMovementTime := Some(t),
                    currentFlags := filtered, isHeld := held);
    if !held then (moved.(dwellArmed := false), H.CancelDwell)
    else if s.dwellArmed && s.lastLocation.Some? &&
            H.WithinTolerance(s.lastLocation.value, location, c.movementTolerance) then (moved, H.NoAction)
    else (moved.(dwellArmed := true), H.StartDwell)
  }

  /** `handleFlagsChange`: records the filtered flags; without the chord it cancels and
      disarms; with it, it refreshes the movement time and starts the dwell exactly when a
      location is known and nothing is armed. */
  function FlagsChange(c: H.Config, s: LegacyState, flags: Flags, t: real): (r: (LegacyState, H.Action))
    ensures r.0.lastLocation == s.lastLocation && r.0.lastTriggerTime == s.lastTriggerTime
    ensures r.0.currentFlags == Filtered(flags)
    ensures r.0.isHeld == ContainsAll(Filtered(flags), c.requiredFlags)
    ensures !r.0.isHeld ==> r.1 == H.CancelDwell && !r.0.dwellArmed && r.0.lastMovementTime == s.lastMovementTime
    ensures r.0.isHeld ==> r.0.lastMovementTime == Some(t)
    ensures r.0.isHeld ==> (r.1 == H.StartDwell <==> s.lastLocation.Some? && !s.dwellArmed)
    ensures r.0.isHeld ==> r.1 != H.CancelDwell
  {
    var filtered := Filtered(flags);
    var held := ContainsAll(filtered, c.requiredFlags);
    var updated := s.(currentFlags := filtered, isHeld := held);
    if !held then (updated.(dwellArmed := false), H.CancelDwell)
    else
      var touched := updated.(lastMovementTime := Some(t));
      if s.lastLocation.Some? && !s.dwellArmed then (touched.(dwellArmed := true), H.StartDwell)
      else (touched, H.NoAction)
  }

  /** `handleDwellTimer`: fires only when armed, held, outside the debounce window and at least
      the dwell threshold (less the slack) after the last movement, returning the location and
      the current flags and disarming; a fire on a machine without an armed, held dwell
      disarms it. */
  function DwellTimer(c: H.Config, s: LegacyState, t: real): (r: (LegacyState, Option<(H.Point, Flags)>))
    ensures r.1.Some? <==>
      && s.dwellArmed && s.isHeld && s.lastMovementTime.Some? && s.lastLocation.Some?
      && (s.lastTriggerTime.None? || t - s.lastTriggerTime.value >= c.debounceInterval)
      && t - s.lastMovementTime.value + H.UlpOfOne >= c.dwellThreshold
    ensures r.1.Some? ==> r.1.value == (s.lastLocation.value, s.currentFlags)
    ensures r.1.Some? ==> r.0 == s.(dwellArmed := false, lastTriggerTime := Some(t))
    ensures r.1.None? ==> r.0.lastTriggerTime == s.lastTriggerTime
    ensures !(s.dwellArmed && s.isHeld && s.lastMovementTime.Some? && s.lastLocation.Some?) ==>
      r.0 == s.(dwellArmed := false)
  {
    if !(s.dwellArmed && s.isHeld && s.lastMovementTime.Some? && s.lastLocation.Some?) then
      (s.(dwellArmed := false), None)
    else if s.lastTriggerTime.Some? && t - s.lastTriggerTime.value < c.debounceInterval then (s, None)
    else if t - s.lastMovementTime.value + H.UlpOfOne < c.dwellThreshold then (s, None)
    else (s.(dwellArmed := false, lastTriggerTime := Some(t)), Some((s.lastLocation.value, s.currentFlags)))
  }

  /** The legacy view of a current machine: its display location is the single location. */
  function Forget(s: H.MachineState): LegacyState {
    LegacyState(s.lastDisplayLocation, s.lastMovementTime, s.currentFlags, s.lastTriggerTime,
                s.dwellArmed, s.isHeld)
  }

  /** A move to the same display and hit-test location does in the current machine what the
      legacy machine does. */
  lemma MouseMoveAgrees(c: H.Config, s: H.MachineState, location: H.Point, flags: Flags, t: real)
    ensures MouseMove(c, Forget(s), location, flags, t) ==
      (Forget(H.MouseMove(c, s, location, location, flags, t).0), H.MouseMove(c, s, location, location, flags, t).1)
  {
  }

  lemma FlagsChangeAgrees(c: H.Config, s: H.MachineState, flags: Flags, t: real)
    ensures FlagsChange(c, Forget(s), flags, t) ==
      (Forget(H.FlagsChange(c, s, flags, t).0), H.FlagsChange(c, s, flags, t).1)
  {
  }

  /** When the current machine records its two locations together (as it always does), a timer
      fire agrees too, the legacy result being the snapshot's display location and flags. */
  lemma DwellTimerAgrees(c: H.Config, s: H.MachineState, t: real)
    requires s.lastDisplayLocation.Some? <==> s.lastHitTestLocation.Some?
    ensures var (s', snap) := H.DwellTimer(c, s, t);
      DwellTimer(c, Forget(s), t) ==
        (Forget(s'), if snap.Some? then Some((snap.value.displayLocation, snap.value.modifiers)) else None)
  {
  }

  /** The legacy `HoverStateMachine`, with its fields updated in place. */
  class LegacyHoverStateMachine {
    const config: H.Config
    var lastLocation: Option<H.Point>
    var lastMovementTime: Option<real>
    var currentFlags: Flags
    var lastTriggerTime: Option<real>
    var dwellArmed: bool
    var isHeld: bool

    function State(): LegacyState
      reads this
    {
      LegacyState(lastLocation, lastMovementTime, currentFlags, lastTriggerTime, dwellArmed, isHeld)
    }

    constructor (dwellThreshold: real, debounceInterval: real, requiredFlags: Flags, movementTolerance: real)
      ensures config == H.Config(dwellThreshold, debounceInterval, requiredFlags, movementTolerance)
      ensures State() == Initial
    {
      config := H.Config(dwellThreshold, debounceInterval, requiredFlags, movementTolerance);
      lastLocation, lastMovementTime, currentFlags := None, None, 0;
      lastTriggerTime, dwellArmed, isHeld := None, false, false;
    }

    method HandleMouseMove(location: H.Point, flags: Flags, t: real) returns (action: H.Action)
      modifies this
      ensures (State(), action) == MouseMove(config, old(State()), location, flags, t)
    {
      var filteredFlags := Filtered(flags);
      var previousLocation := lastLocation;
      lastLocation := Some(location);
      lastMovementTime := Some(t);
      currentFlags := filteredFlags;
      isHeld := ContainsAll(filteredFlags, config.requiredFlags);
      if !isHeld {
        dwellArmed := false;
        return H.CancelDwell;
      }
      if dwellArmed && previousLocation.Some? &&
         H.WithinTolerance(previousLocation.value, location, config.movementTolerance) {
        return H.NoAction;
      }
      dwellArmed := true;
      return H.StartDwell;
    }

    method HandleFlagsChange(flags: Flags, t: real) returns (action: H.Action)
      modifies this
      ensures (State(), action) == FlagsChange(config, old(State()), flags, t)
    {
      var filteredFlags := Filtered(flags);
      currentFlags := filteredFlags;
      isHeld := ContainsAll(filteredFlags, config.requiredFlags);
      if !isHeld {
        dwellArmed := false;
        return H.CancelDwell;
      }
      lastMovementTime := Some(t);
      if lastLocation.Some? && !dwellArmed {
        dwellArmed := true;
        return H.StartDwell;
      }
      return H.NoAction;
    }

    method HandleDwellTimer(t: real) returns (result: Option<(H.Point, Flags)>)
      modifies this
      ensures (State(), result) == DwellTimer(config, old(State()), t)
    {
      if !(dwellArmed && isHeld && lastMovementTime.Some? && lastLocation.Some?) {
        dwellArmed := false;
        return None;
      }
      if lastTriggerTime.Some? && t - lastTriggerTime.value < config.debounceInterval {
        return None;
      }
      if t - lastMovementTime.value + H.UlpOfOne < config.dwellThreshold {
        return None;
      }
      dwellArmed := false;
      lastTriggerTime := Some(t);
      return Some((lastLocation.value, currentFlags));
    }

    function DwellIsActive(): (r: bool)
      reads this
      ensures r == State().dwellArmed
    {
      dwellArmed
    }
  }
}
