/** The dwell/debounce state machine behind the hover monitor, and the driver that turns its
    actions into a single pending dwell timer and forwards dwell, movement and modifier
    notifications to its handlers.

    Times and coordinates are reals. The machine's transitions are given first as functions on
    a `MachineState` value, which the properties are proved about; the `HoverStateMachine` class
    holds the same fields and its mutating methods are proved to perform those transitions. */
module HoverMonitoring {
  import opened Wrappers
  import opened EventFlags

  datatype Point = Point(x: real, y: real)

  /** `a.distance(to: b) <= tolerance`, without the square root: the root of a non-negative
      number is at most a non-negative bound exactly when the number is at most the bound's
      square, and no distance is at most a negative bound. */
  predicate WithinTolerance(a: Point, b: Point, tolerance: real) {
    var dx, dy := a.x - b.x, a.y - b.y;
    tolerance >= 0.0 && dx * dx + dy * dy <= tolerance * tolerance
  }

  /** `Double.ulpOfOne`, 2^-52, the slack allowed when comparing the elapsed dwell time. */
  const UlpOfOne: real := 1.0 / 4503599627370496.0

  /** `HoverStateMachine.Action`. */
  datatype Action = StartDwell | CancelDwell | NoAction

  /** `HoverStateMachine.DwellSnapshot`: what a successful timer fire reports. */
  datatype DwellSnapshot = DwellSnapshot(displayLocation: Point, hitTestLocation: Point, modifiers: Flags)

  /** The machine's constant parameters. */
  datatype Config = Config(
    dwellThreshold: real,
    debounceInterval: real,
    requiredFlags: Flags,
    movementTolerance: real)

  /** The default of the initializer's `movementTolerance` argument. */
  const DefaultMovementTolerance: real := 4.0

  /** The machine's mutable fields as one value. */
  datatype MachineState = MachineState(
    lastDisplayLocation: Option<Point>,
    lastHitTestLocation: Option<Point>,
    lastMovementTime: Option<real>,
    currentFlags: Flags,
    lastTriggerTime: Option<real>,
    dwellArmed: bool,
    isHeld: bool)

  /** The state of a newly initialised machine. */
  const Initial: MachineState := MachineState(None, None, None, 0, None, false, false)

  /** An armed dwell whose new display location is within the tolerance of the previous one. */
  predicate Stationary(c: Config, s: MachineState, display: Point) {
    s.dwellArmed && s.lastDisplayLocation.Some? &&
    WithinTolerance(s.lastDisplayLocation.value, display, c.movementTolerance)
  }

  /** `handleMouseMove`. Every move records both locations, its time and the filtered flags.
      Without the chord it cancels and disarms; with the chord held, a stationary move of an
      armed dwell changes nothing else, and any other move arms and starts the dwell. */
  function MouseMove(c: Config, s: MachineState, display: Point, hit: Point, flags: Flags, t: real)
    : (r: (MachineState, Action))
    ensures r.0.lastDisplayLocation == Some(display) && r.0.lastHitTestLocation == Some(hit)
    ensures r.0.lastMovementTime == Some(t) && r.0.currentFlags == Filtered(flags)
    ensures r.0.isHeld == ContainsAll(Filtered(flags), c.requiredFlags)
    ensures r.0.lastTriggerTime == s.lastTriggerTime
    ensures !r.0.isHeld ==> r.1 == CancelDwell && !r.0.dwellArmed
    ensures r.0.isHeld && Stationary(c, s, display) ==> r.1 == NoAction && r.0.dwellArmed
    ensures r.0.isHeld && !Stationary(c, s, display) ==> r.1 == StartDwell && r.0.dwellArmed
  {
    var filtered := Filtered(flags);
    var held := ContainsAll(filtered, c.requiredFlags);
    var moved := s.(lastDisplayLocation := Some(display), lastHitTestLocation := Some(hit),
                    lastMovementTime := Some(t), currentFlags := filtered, isHeld := held);
    if !held then (moved.(dwellArmed := false), CancelDwell)
    else if Stationary(c, s, display) then (moved, NoAction)
    else (moved.(dwellArmed := true), StartDwell)
  }

  /** `handleFlagsChange`. It records the filtered flags. Without the chord it cancels and
      disarms; with the chord held it refreshes the movement time and starts the dwell exactly
      when a location is known and nothing is armed yet. Locations never change. */
  function FlagsChange(c: Config, s: MachineState, flags: Flags, t: real): (r: (MachineState, Action))
    ensures r.0.lastDisplayLocation == s.lastDisplayLocation
    ensures r.0.lastHitTestLocation == s.lastHitTestLocation
    ensures r.0.lastTriggerTime == s.lastTriggerTime
    ensures r.0.currentFlags == Filtered(flags)
    ensures r.0.isHeld == ContainsAll(Filtered(flags), c.requiredFlags)
    ensures !r.0.isHeld ==> r.1 == CancelDwell && !r.0.dwellArmed && r.0.lastMovementTime == s.lastMovementTime
    ensures r.0.isHeld ==> r.0.lastMovementTime == Some(t) && r.1 != CancelDwell
    ensures r.0.isHeld ==> (r.1 == StartDwell <==> s.lastDisplayLocation.Some? && !s.dwellArmed)
    ensures r.0.isHeld ==> r.0.dwellArmed == (s.dwellArmed || s.lastDisplayLocation.Some?)
  {
    var filtered := Filtered(flags);
    var held := ContainsAll(filtered, c.requiredFlags);
    var updated := s.(currentFlags := filtered, isHeld := held);
    if !held then (updated.(dwellArmed := false), CancelDwell)
    else
      var touched := updated.(lastMovementTime := Some(t));
      if s.lastDisplayLocation.Some? && !s.dwellArmed then (touched.(dwellArmed := true), StartDwell)
      else (touched, NoAction)
  }

  /** The guard of `handleDwellTimer`: armed, held, and with a movement time and both locations. */
  predicate Ready(s: MachineState) {
    s.dwellArmed && s.isHeld && s.lastMovementTime.Some? &&
    s.lastDisplayLocation.Some? && s.lastHitTestLocation.Some?
  }

  /** A fire at `t` falls inside the debounce window of the previous trigger. */
  predicate InDebounce(c: Config, s: MachineState, t: real) {
    s.lastTriggerTime.Some? && t - s.lastTriggerTime.value < c.debounceInterval
  }

  /** A fire at `t` comes before the dwell threshold has elapsed since the last movement. */
  predicate TooEarly(c: Config, s: MachineState, t: real)
    requires s.lastMovementTime.Some?
  {
    t - s.lastMovementTime.value + UlpOfOne < c.dwellThreshold
  }

  /** `handleDwellTimer`. A fire reports a snapshot exactly when the machine is ready, outside
      the debounce window and past the dwell threshold; it then disarms, records the fire time
      and reports the last locations and current flags. A fire on a machine that is not ready
      disarms it; a fire that is too soon leaves the machine as it was. */
  function DwellTimer(c: Config, s: MachineState, t: real): (r: (MachineState, Option<DwellSnapshot>))
    ensures r.1.Some? <==> Ready(s) && !InDebounce(c, s, t) && !TooEarly(c, s, t)
    ensures r.1.Some? ==> s.dwellArmed && s.isHeld
    ensures r.1.Some? ==> s.lastTriggerTime.None? || t - s.lastTriggerTime.value >= c.debounceInterval
    ensures r.1.Some? ==> t - s.lastMovementTime.value + UlpOfOne >= c.dwellThreshold
    ensures r.1.Some? ==> r.1.value == DwellSnapshot(s.lastDisplayLocation.value, s.lastHitTestLocation.value, s.currentFlags)
    ensures r.1.Some? ==> r.0 == s.(dwellArmed := false, lastTriggerTime := Some(t))
    ensures !Ready(s) ==> r.0 == s.(dwellArmed := false) && r.1.None?
    ensures Ready(s) && r.1.None? ==> r.0 == s
  {
    if !Ready(s) then (s.(dwellArmed := false), None)
    else if InDebounce(c, s, t) then (s, None)
    else if TooEarly(c, s, t) then (s, None)
    else
      (s.(dwellArmed := false, lastTriggerTime := Some(t)),
       Some(DwellSnapshot(s.lastDisplayLocation.value, s.lastHitTestLocation.value, s.currentFlags)))
  }

  /** What the fields always satisfy: an armed dwell has the chord held and a known location,
      the two locations are recorded together and always with a movement time, and a held
      chord is contained in the current flags. */
  predicate Coherent(c: Config, s: MachineState) {
    && (s.dwellArmed ==> s.isHeld && s.lastDisplayLocation.Some?)
    && (s.lastDisplayLocation.Some? <==> s.lastHitTestLocation.Some?)
    && (s.lastDisplayLocation.Some? ==> s.lastMovementTime.Some?)
    && (s.isHeld ==> ContainsAll(s.currentFlags, c.requiredFlags))
  }

  lemma InitialCoherent(c: Config)
    ensures Coherent(c, Initial)
  {
  }

  /** On a coherent machine the timer guard reduces to "armed": a fire disarms only a dwell that
      was not armed anyway. */
  lemma ReadyIsArmed(c: Config, s: MachineState)
    requires Coherent(c, s)
    ensures Ready(s) <==> s.dwellArmed
  {
  }

  /** The three events the machine receives, in the order the driver delivers them. */
  datatype Input =
    | Move(display: Point, hit: Point, flags: Flags, time: real)
    | FlagsChanged(flags: Flags, time: real)
    | TimerFired(time: real)

  /** A successful fire: its time and its snapshot. */
  datatype Fire = Fire(time: real, snapshot: DwellSnapshot)

  /** One input: the new state, the action for the driver and, for a timer, the fire if any. */
  function Step(c: Config, s: MachineState, i: Input): (r: (MachineState, Action, Option<Fire>))
    ensures r.2.Some? ==> i.TimerFired? && r.2.value.time == i.time
    ensures i.TimerFired? ==> r.1 == NoAction
  {
    match i
    case Move(display, hit, flags, t) =>
      var (s', a) := MouseMove(c, s, display, hit, flags, t); (s', a, None)
    case FlagsChanged(flags, t) =>
      var (s', a) := FlagsChange(c, s, flags, t); (s', a, None)
    case TimerFired(t) =>
      var (s', snap) := DwellTimer(c, s, t);
      (s', NoAction, if snap.Some? then Some(Fire(t, snap.value)) else None)
  }

  lemma StepCoherent(c: Config, s: MachineState, i: Input)
    requires Coherent(c, s)
    ensures Coherent(c, Step(c, s, i).0)
  {
  }

  /** Feeds `inputs` to the machine in order and collects the successful fires. */
  function Run(c: Config, s: MachineState, inputs: seq<Input>): (MachineState, seq<Fire>)
    decreases |inputs|
  {
    if inputs == [] then (s, [])
    else
      var (before, fires) := Run(c, s, inputs[..|inputs| - 1]);
      var (after, _, fire) := Step(c, before, inputs[|inputs| - 1]);
      (after, if fire.Some? then fires + [fire.value] else fires)
  }

  /** Consecutive fires are at least the debounce interval apart. */
  predicate Debounced(c: Config, fires: seq<Fire>) {
    forall k :: 0 < k < |fires| ==> fires[k].time - fires[k - 1].time >= c.debounceInterval
  }

  /** Over any run, two successive dwell events are never closer than the debounce interval,
      and the machine remembers the time of the latest one. */
  lemma {:induction false} RunIsDebounced(c: Config, s: MachineState, inputs: seq<Input>)
    ensures Debounced(c, Run(c, s, inputs).1)
    ensures Run(c, s, inputs).1 != [] ==>
      Run(c, s, inputs).0.lastTriggerTime == Some(Run(c, s, inputs).1[|Run(c, s, inputs).1| - 1].time)
    decreases |inputs|
  {
    if inputs != [] {
      var prefix := inputs[..|inputs| - 1];
      RunIsDebounced(c, s, prefix);
      var (before, fires) := Run(c, s, prefix);
      var i := inputs[|inputs| - 1];
      var (after, _, fire) := Step(c, before, i);
      if fire.Some? {
        assert i.TimerFired?;
        var (_, snap) := DwellTimer(c, before, i.time);
        assert snap.Some?;
      }
    }
  }

  /** A run from a coherent state stays coherent, and every dwell event it emits carries the
      chord in its modifiers. */
  lemma {:induction false} RunIsCoherent(c: Config, s: MachineState, inputs: seq<Input>)
    requires Coherent(c, s)
    ensures Coherent(c, Run(c, s, inputs).0)
    ensures forall k :: 0 <= k < |Run(c, s, inputs).1| ==>
      ContainsAll(Run(c, s, inputs).1[k].snapshot.modifiers, c.requiredFlags)
    decreases |inputs|
  {
    if inputs != [] {
      var prefix := inputs[..|inputs| - 1];
      RunIsCoherent(c, s, prefix);
      var (before, fires) := Run(c, s, prefix);
      StepCoherent(c, before, inputs[|inputs| - 1]);
    }
  }

  /** Releasing the chord always cancels, whatever came before. */
  lemma ReleaseCancels(c: Config, s: MachineState, i: Input)
    requires !i.TimerFired? && !ContainsAll(Filtered(i.flags), c.requiredFlags)
    ensures Step(c, s, i).1 == CancelDwell && !Step(c, s, i).0.dwellArmed
  {
  }

  /** The configuration of the unit scenarios: dwell 0.2 s, debounce 0.08 s, Option held. */
  const ScenarioConfig: Config := Config(0.2, 0.08, MaskAlternate, DefaultMovementTolerance)

  /** Seeding a location without the chord, then pressing Option at 0.05 s: a fire at 0.20 s is
      too early and the fire at 0.26 s reports the seeded location with Option. */
  lemma DwellFiresAfterThreshold()
    ensures Run(ScenarioConfig, Initial, [
      Move(Point(100.0, 200.0), Point(100.0, 200.0), 0, 0.0),
      FlagsChanged(MaskAlternate, 0.05),
      TimerFired(0.20),
      TimerFired(0.26)]).1 ==
      [Fire(0.26, DwellSnapshot(Point(100.0, 200.0), Point(100.0, 200.0), MaskAlternate))]
  {
    var c, in4 := ScenarioConfig, [
      Move(Point(100.0, 200.0), Point(100.0, 200.0), 0, 0.0),
      FlagsChanged(MaskAlternate, 0.05),
      TimerFired(0.20),
      TimerFired(0.26)];
    assert in4[..2][..1] == in4[..1];
    assert in4[..3][..2] == in4[..2];
    assert in4[..1] == [in4[0]] && in4[..2] == [in4[0], in4[1]] && in4[..3] == [in4[0], in4[1], in4[2]];
    var (s1, a1) := MouseMove(c, Initial, Point(100.0, 200.0), Point(100.0, 200.0), 0, 0.0);
    assert Run(c, Initial, in4[..1]) == (s1, []);
    var (s2, a2) := FlagsChange(c, s1, MaskAlternate, 0.05);
    assert a2 == StartDwell;
    assert Run(c, Initial, in4[..2]) == (s2, []);
    var (s3, f3) := DwellTimer(c, s2, 0.20);
    assert f3 == None;
    assert Run(c, Initial, in4[..3]) == (s3, []);
  }

  /** Under Option, a second move far from the first restarts the dwell, so a fire at 0.19 s
      is too early and the fire at 0.26 s reports the new location. */
  lemma MovementResetsDwell()
    ensures Run(ScenarioConfig, Initial, [
      FlagsChanged(MaskAlternate, 0.0),
      Move(Point(50.0, 50.0), Point(50.0, 50.0), MaskAlternate, 0.01),
      Move(Point(120.0, 120.0), Point(120.0, 120.0), MaskAlternate, 0.05),
      TimerFired(0.19),
      TimerFired(0.26)]).1 ==
      [Fire(0.26, DwellSnapshot(Point(120.0, 120.0), Point(120.0, 120.0), MaskAlternate))]
  {
    var c, in5 := ScenarioConfig, [
      FlagsChanged(MaskAlternate, 0.0),
      Move(Point(50.0, 50.0), Point(50.0, 50.0), MaskAlternate, 0.01),
      Move(Point(120.0, 120.0), Point(120.0, 120.0), MaskAlternate, 0.05),
      TimerFired(0.19),
      TimerFired(0.26)];
    assert in5[..2][..1] == in5[..1];
    assert in5[..3][..2] == in5[..2];
    assert in5[..4][..3] == in5[..3];
    assert in5[..1] == [in5[0]] && in5[..2] == [in5[0], in5[1]] && in5[..3] == [in5[0], in5[1], in5[2]];
    assert in5[..4] == [in5[0], in5[1], in5[2], in5[3]];
    var (s1, a1) := FlagsChange(c, Initial, MaskAlternate, 0.0);
    assert Run(c, Initial, in5[..1]) == (s1, []);
    var (s2, a2) := MouseMove(c, s1, Point(50.0, 50.0), Point(50.0, 50.0), MaskAlternate, 0.01);
    assert a2 == StartDwell;
    assert Run(c, Initial, in5[..2]) == (s2, []);
    var (s3, a3) := MouseMove(c, s2, Point(120.0, 120.0), Point(120.0, 120.0), MaskAlternate, 0.05);
    assert !WithinTolerance(Point(50.0, 50.0), Point(120.0, 120.0), 4.0);
    assert a3 == StartDwell;
    assert Run(c, Initial, in5[..3]) == (s3, []);
    var (s4, f4) := DwellTimer(c, s3, 0.19);
    assert f4 == None;
    assert Run(c, Initial, in5[..4]) == (s4, []);
  }

  /** After a fire at 0.21 s, re-arming at 0.22 s: the fire at 0.27 s is inside the debounce
      window, the one at 0.31 s is before the dwell threshold, and the one at 0.43 s fires. */
  lemma DebouncePreventsRapidRetrigger()
    ensures |Run(ScenarioConfig, Initial, [
      Move(Point(10.0, 10.0), Point(10.0, 10.0), MaskAlternate, 0.0),
      FlagsChanged(MaskAlternate, 0.0),
      TimerFired(0.21),
      Move(Point(10.0, 10.0), Point(10.0, 10.0), MaskAlternate, 0.22),
      TimerFired(0.27),
      TimerFired(0.31),
      TimerFired(0.43)]).1| == 2
  {
    var c := ScenarioConfig;
    var p := Point(10.0, 10.0);
    var in7 := [Move(p, p, MaskAlternate, 0.0), FlagsChanged(MaskAlternate, 0.0), TimerFired(0.21),
                Move(p, p, MaskAlternate, 0.22), TimerFired(0.27), TimerFired(0.31), TimerFired(0.43)];
    assert in7[..2][..1] == in7[..1];
    assert in7[..3][..2] == in7[..2];
    assert in7[..4][..3] == in7[..3];
    assert in7[..5][..4] == in7[..4];
    assert in7[..6][..5] == in7[..5];
    assert in7[..1] == [in7[0]] && in7[..2] == [in7[0], in7[1]] && in7[..3] == [in7[0], in7[1], in7[2]];
    assert in7[..4] == in7[..3] + [in7[3]] && in7[..5] == in7[..4] + [in7[4]];
    assert in7[..6] == in7[..5] + [in7[5]];
    var (s1, a1) := MouseMove(c, Initial, p, p, MaskAlternate, 0.0);
    assert Run(c, Initial, in7[..1]) == (s1, []);
    var (s2, a2) := FlagsChange(c, s1, MaskAlternate, 0.0);
    assert Run(c, Initial, in7[..2]) == (s2, []);
    var (s3, f3) := DwellTimer(c, s2, 0.21);
    assert f3.Some?;
    assert |Run(c, Initial, in7[..3]).1| == 1 && Run(c, Initial, in7[..3]).0 == s3;
    var (s4, a4) := MouseMove(c, s3, p, p, MaskAlternate, 0.22);
    assert a4 == StartDwell;
    assert |Run(c, Initial, in7[..4]).1| == 1 && Run(c, Initial, in7[..4]).0 == s4;
    var (s5, f5) := DwellTimer(c, s4, 0.27);
    assert InDebounce(c, s4, 0.27) && f5 == None;
    assert |Run(c, Initial, in7[..5]).1| == 1 && Run(c, Initial, in7[..5]).0 == s5;
    var (s6, f6) := DwellTimer(c, s5, 0.31);
    assert TooEarly(c, s5, 0.31) && f6 == None;
    assert |Run(c, Initial, in7[..6]).1| == 1 && Run(c, Initial, in7[..6]).0 == s6;
    var (s7, f7) := DwellTimer(c, s6, 0.43);
    assert f7.Some?;
  }

  /** Releasing Option after re-arming cancels the dwell, so the fire at 0.40 s reports nothing. */
  lemma ModifierReleaseCancelsDwell()
    ensures Run(ScenarioConfig, Initial, [
      FlagsChanged(MaskAlternate, 0.0),
      Move(Point(5.0, 5.0), Point(5.0, 5.0), MaskAlternate, 0.01),
      TimerFired(0.22),
      Move(Point(6.0, 5.0), Point(6.0, 5.0), MaskAlternate, 0.23),
      FlagsChanged(0, 0.24),
      TimerFired(0.40)]).1 ==
      [Fire(0.22, DwellSnapshot(Point(5.0, 5.0), Point(5.0, 5.0), MaskAlternate))]
  {
    var c := ScenarioConfig;
    var p, q := Point(5.0, 5.0), Point(6.0, 5.0);
    var in6 := [FlagsChanged(MaskAlternate, 0.0), Move(p, p, MaskAlternate, 0.01), TimerFired(0.22),
                Move(q, q, MaskAlternate, 0.23), FlagsChanged(0, 0.24), TimerFired(0.40)];
    assert in6[..2][..1] == in6[..1];
    assert in6[..3][..2] == in6[..2];
    assert in6[..4][..3] == in6[..3];
    assert in6[..5][..4] == in6[..4];
    assert in6[..1] == [in6[0]] && in6[..2] == [in6[0], in6[1]] && in6[..3] == [in6[0], in6[1], in6[2]];
    assert in6[..4] == in6[..3] + [in6[3]] && in6[..5] == in6[..4] + [in6[4]];
    var (s1, a1) := FlagsChange(c, Initial, MaskAlternate, 0.0);
    assert Run(c, Initial, in6[..1]) == (s1, []);
    var (s2, a2) := MouseMove(c, s1, p, p, MaskAlternate, 0.01);
    assert Run(c, Initial, in6[..2]) == (s2, []);
    var (s3, f3) := DwellTimer(c, s2, 0.22);
    assert f3 == Some(DwellSnapshot(p, p, MaskAlternate));
    var fired := [Fire(0.22, DwellSnapshot(p, p, MaskAlternate))];
    assert Step(c, s2, in6[2]) == (s3, NoAction, Some(fired[0]));
    assert Run(c, Initial, in6[..3]) == (s3, [] + fired);
    assert [] + fired == fired;
    var (s4, a4) := MouseMove(c, s3, q, q, MaskAlternate, 0.23);
    assert a4 == StartDwell;
    assert Run(c, Initial, in6[..4]) == (s4, fired);
    var (s5, a5) := FlagsChange(c, s4, 0, 0.24);
    assert a5 == CancelDwell;
    assert Run(c, Initial, in6[..5]) == (s5, fired);
  }

  /** `HoverStateMachine`: the same transitions, as mutating methods on the fields. */
  class HoverStateMachine {
    const config: Config
    var lastDisplayLocation: Option<Point>
    var lastHitTestLocation: Option<Point>
    var lastMovementTime: Option<real>
    var currentFlags: Flags
    var lastTriggerTime: Option<real>
    var dwellArmed: bool
    var isHeld: bool

    function State(): MachineState
      reads this
    {
      MachineState(lastDisplayLocation, lastHitTestLocation, lastMovementTime, currentFlags,
                   lastTriggerTime, dwellArmed, isHeld)
    }

    constructor (dwellThreshold: real, debounceInterval: real, requiredFlags: Flags, movementTolerance: real)
      ensures config == Config(dwellThreshold, debounceInterval, requiredFlags, movementTolerance)
      ensures State() == Initial
    {
      config := Config(dwellThreshold, debounceInterval, requiredFlags, movementTolerance);
      lastDisplayLocation, lastHitTestLocation, lastMovementTime := None, None, None;
      currentFlags, lastTriggerTime := 0, None;
      dwellArmed, isHeld := false, false;
    }

    method HandleMouseMove(display: Point, hit: Point, flags: Flags, t: real) returns (action: Action)
      modifies this
      ensures (State(), action) == MouseMove(config, old(State()), display, hit, flags, t)
    {
      var filteredFlags := Filtered(flags);
      var previousLocation := lastDisplayLocation;
      lastDisplayLocation := Some(display);
      lastHitTestLocation := Some(hit);
      lastMovementTime := Some(t);
      currentFlags := filteredFlags;
      isHeld := ContainsAll(filteredFlags, config.requiredFlags);
      if !isHeld {
        dwellArmed := false;
        return CancelDwell;
      }
      if dwellArmed && previousLocation.Some? {
        if WithinTolerance(previousLocation.value, display, config.movementTolerance) {
          return NoAction;
        }
      }
      dwellArmed := true;
      return StartDwell;
    }

    method HandleFlagsChange(flags: Flags, t: real) returns (action: Action)
      modifies this
      ensures (State(), action) == FlagsChange(config, old(State()), flags, t)
    {
      var filteredFlags := Filtered(flags);
      currentFlags := filteredFlags;
      isHeld := ContainsAll(filteredFlags, config.requiredFlags);
      if !isHeld {
        dwellArmed := false;
        return CancelDwell;
      }
      lastMovementTime := Some(t);
      if lastDisplayLocation.Some? && !dwellArmed {
        dwellArmed := true;
        return StartDwell;
      }
      return NoAction;
    }

    method HandleDwellTimer(t: real) returns (snapshot: Option<DwellSnapshot>)
      modifies this
      ensures (State(), snapshot) == DwellTimer(config, old(State()), t)
    {
      if !(dwellArmed && isHeld && lastMovementTime.Some? && lastDisplayLocation.Some? && lastHitTestLocation.Some?) {
        dwellArmed := false;
        return None;
      }
      if lastTriggerTime.Some? && t - lastTriggerTime.value < config.debounceInterval {
        return None;
      }
      if t - lastMovementTime.value + UlpOfOne < config.dwellThreshold {
        return None;
      }
      dwellArmed := false;
      lastTriggerTime := Some(t);
      return Some(DwellSnapshot(lastDisplayLocation.value, lastHitTestLocation.value, currentFlags));
    }

    /** `dwellIsActive`. */
    function DwellIsActive(): (r: bool)
      reads this
      ensures r == State().dwellArmed
    {
      dwellArmed
    }
  }

  /** `HoverMonitor.Event`: what the dwell and movement handlers receive. */
  datatype HoverEvent = HoverEvent(displayLocation: Point, hitTestLocation: Point, modifiers: Flags)

  /** The event types the tap delivers; anything else is ignored after the modifier check. */
  datatype EventType = MouseMoved | FlagsChangedEvent | OtherEvent

  /** The driver's timer after an action: a start replaces any pending timer by one due at
      `deadline`, a cancel clears it, and no action leaves it alone. */
  function TimerAfter(timer: Option<real>, action: Action, deadline: real): (r: Option<real>)
    ensures action == StartDwell ==> r == Some(deadline)
    ensures action == CancelDwell ==> r == None
    ensures action == NoAction ==> r == timer
  {
    match action
    case StartDwell => Some(deadline)
    case CancelDwell => None
    case NoAction => timer
  }

  /** The machine's transition for one event of the tap: moves and flag changes go to the
      machine, any other event leaves it alone and asks for nothing. */
  function EventTransition(c: Config, s: MachineState, kind: EventType, display: Point, hit: Point, flags: Flags, t: real)
    : (r: (MachineState, Action))
  {
    match kind
    case MouseMoved => MouseMove(c, s, display, hit, flags, t)
    case FlagsChangedEvent => FlagsChange(c, s, flags, t)
    case OtherEvent => (s, NoAction)
  }

  /** The modifier notifications always alternate, starting with "held". */
  predicate Alternating(notes: seq<bool>) {
    forall i :: 0 <= i < |notes| ==> notes[i] == (i % 2 == 0)
  }

  /** `HoverMonitor`, without the event tap: events and timer fires are method calls, the
      dispatch timer is its deadline (`None` once cancelled or spent), and the handlers are
      logs of what they were called with. `now` is the clock reading of the moment. */
  class HoverMonitor {
    const machine: HoverStateMachine
    const dwellThreshold: real
    const hasMovementHandler: bool
    const hasModifierHandler: bool
    var dwellTimer: Option<real>
    var lastModifierState: bool
    /** The dwell handler's calls, in order. */
    var dwellEvents: seq<HoverEvent>
    /** The movement handler's calls, in order. */
    var movementEvents: seq<HoverEvent>
    /** The modifier handler's calls, in order. */
    var modifierNotifications: seq<bool>

    /** A timer is pending exactly while the machine's dwell is armed, and the modifier
        handler is told only of changes, so its calls alternate starting with "held". */
    ghost predicate Valid()
      reads this`dwellTimer, this`lastModifierState, this`modifierNotifications, machine
    {
      && Coherent(machine.config, machine.State())
      && machine.config.dwellThreshold == dwellThreshold
      && (dwellTimer.Some? <==> machine.dwellArmed)
      && Alternating(modifierNotifications)
      && lastModifierState == (|modifierNotifications| % 2 == 1)
      && (!hasModifierHandler ==> modifierNotifications == [])
    }

    constructor (dwellThreshold: real, debounceInterval: real, heldKey: HeldKey,
                 hasMovementHandler: bool, hasModifierHandler: bool)
      ensures Valid() && fresh(machine)
      ensures machine.config == Config(dwellThreshold, debounceInterval, HeldKeyFlags(heldKey), DefaultMovementTolerance)
      ensures machine.State() == Initial && dwellTimer == None
      ensures dwellEvents == [] && movementEvents == [] && modifierNotifications == []
    {
      var m := new HoverStateMachine(dwellThreshold, debounceInterval, HeldKeyFlags(heldKey), DefaultMovementTolerance);
      machine := m;
      this.dwellThreshold := dwellThreshold;
      this.hasMovementHandler := hasMovementHandler;
      this.hasModifierHandler := hasModifierHandler;
      dwellTimer, lastModifierState := None, false;
      dwellEvents, movementEvents, modifierNotifications := [], [], [];
    }

    /** `cancelDwellTimer`. */
    method CancelDwellTimer()
      modifies this`dwellTimer
      ensures dwellTimer == None
    {
      dwellTimer := None;
    }

    /** `scheduleDwellTimer`: any pending timer is replaced by one due after the threshold. */
    method ScheduleDwellTimer(now: real)
      modifies this`dwellTimer
      ensures dwellTimer == Some(now + dwellThreshold)
    {
      CancelDwellTimer();
      dwellTimer := Some(now + dwellThreshold);
    }

    /** `handle(action:)`. */
    method HandleAction(action: Action, now: real)
      modifies this`dwellTimer
      ensures dwellTimer == TimerAfter(old(dwellTimer), action, now + dwellThreshold)
    {
      match action {
        case StartDwell => ScheduleDwellTimer(now);
        case CancelDwell => CancelDwellTimer();
        case NoAction =>
      }
    }

    /** `notifyModifierIfNeeded`: the handler hears only of a change of the held state. */
    method NotifyModifierIfNeeded(isHeld: bool)
      requires Valid()
      modifies this`lastModifierState, this`modifierNotifications
      ensures Valid()
      ensures hasModifierHandler && isHeld != old(lastModifierState) ==>
        modifierNotifications == old(modifierNotifications) + [isHeld] && lastModifierState == isHeld
      ensures !(hasModifierHandler && isHeld != old(lastModifierState)) ==>
        modifierNotifications == old(modifierNotifications) && lastModifierState == old(lastModifierState)
    {
      if !hasModifierHandler || isHeld == lastModifierState {
        return;
      }
      lastModifierState := isHeld;
      modifierNotifications := modifierNotifications + [isHeld];
    }

    /** The block `handle(event:type:)` queues: the machine handles the event and its action
        drives the timer. */
    method Process(kind: EventType, display: Point, hit: Point, flags: Flags, t: real, now: real)
      requires Valid()
      modifies this`dwellTimer, machine
      ensures Valid()
      ensures var (s, a) := EventTransition(machine.config, old(machine.State()), kind, display, hit, flags, t);
        machine.State() == s && dwellTimer == TimerAfter(old(dwellTimer), a, now + dwellThreshold)
    {
      match kind {
        case MouseMoved =>
          var action := machine.HandleMouseMove(display, hit, flags, t);
          HandleAction(action, now);
        case FlagsChangedEvent =>
          var action := machine.HandleFlagsChange(flags, t);
          HandleAction(action, now);
        case OtherEvent =>
      }
    }

    /** The handlers' part of `handle(event:type:)`: the modifier handler is told of a change
        of the held state, then the movement handler sees every move. */
    method ReportEvent(kind: EventType, display: Point, hit: Point, flags: Flags)
      requires Valid()
      modifies this`lastModifierState, this`modifierNotifications, this`movementEvents
      ensures Valid()
      ensures var held := ContainsAll(flags, machine.config.requiredFlags);
        modifierNotifications ==
          if hasModifierHandler && held != old(lastModifierState) then old(modifierNotifications) + [held]
          else old(modifierNotifications)
      ensures movementEvents ==
        if kind == MouseMoved && hasMovementHandler then old(movementEvents) + [HoverEvent(display, hit, flags)]
        else old(movementEvents)
    {
      var isHeld := ContainsAll(flags, machine.config.requiredFlags);
      NotifyModifierIfNeeded(isHeld);
      ReportMovement(kind, display, hit, flags);
    }

    /** The movement handler sees every move. */
    method ReportMovement(kind: EventType, display: Point, hit: Point, flags: Flags)
      modifies this`movementEvents
      ensures movementEvents ==
        if kind == MouseMoved && hasMovementHandler then old(movementEvents) + [HoverEvent(display, hit, flags)]
        else old(movementEvents)
    {
      if kind == MouseMoved && hasMovementHandler {
        movementEvents := movementEvents + [HoverEvent(display, hit, flags)];
      }
    }

    /** `handle(event:type:)`: the flags are filtered, the handlers are told, and then the
        event is processed. */
    method HandleEvent(kind: EventType, display: Point, hit: Point, rawFlags: Flags, t: real, now: real)
      requires Valid()
      modifies this, machine
      ensures Valid()
      ensures var (s, a) := EventTransition(machine.config, old(machine.State()), kind, display, hit, Filtered(rawFlags), t);
        machine.State() == s && dwellTimer == TimerAfter(old(dwellTimer), a, now + dwellThreshold)
      ensures var held := ContainsAll(Filtered(rawFlags), machine.config.requiredFlags);
        modifierNotifications ==
          if hasModifierHandler && held != old(lastModifierState) then old(modifierNotifications) + [held]
          else old(modifierNotifications)
      ensures movementEvents ==
        if kind == MouseMoved && hasMovementHandler then old(movementEvents) + [HoverEvent(display, hit, Filtered(rawFlags))]
        else old(movementEvents)
      ensures dwellEvents == old(dwellEvents)
    {
      var flags := Filtered(rawFlags);
      ReportEvent(kind, display, hit, flags);
      Process(kind, display, hit, flags, t, now);
    }

    /** `dwellTimerFired` at clock reading `now`: the spent timer is gone; a snapshot goes to the
        dwell handler, and a fire that was too soon schedules a new timer while still armed. */
    method DwellTimerFired(now: real)
      requires Valid()
      modifies this, machine
      ensures Valid()
      ensures var (s, snap) := DwellTimer(machine.config, old(machine.State()), now);
        && machine.State() == s
        && dwellEvents == (if snap.Some? then old(dwellEvents) + [HoverEvent(snap.value.displayLocation, snap.value.hitTestLocation, snap.value.modifiers)] else old(dwellEvents))
        && dwellTimer == (if snap.None? && s.dwellArmed then Some(now + dwellThreshold) else None)
      ensures movementEvents == old(movementEvents) && modifierNotifications == old(modifierNotifications)
    {
      dwellTimer := None;
      var result := machine.HandleDwellTimer(now);
      if result.Some? {
        var snap := result.value;
        dwellEvents := dwellEvents + [HoverEvent(snap.displayLocation, snap.hitTestLocation, snap.modifiers)];
      } else {
        if machine.DwellIsActive() {
          ScheduleDwellTimer(now);
        }
      }
    }

    /** `stop`: the pending timer is cancelled (the event tap is not modelled). */
    method Stop()
      modifies this`dwellTimer
      ensures dwellTimer == None
    {
      CancelDwellTimer();
    }
  }
}
