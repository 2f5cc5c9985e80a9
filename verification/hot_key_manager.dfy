/** `DefaultHotKeyManager`: holds the registration token of one chord and turns the
    registrar's pressed/released events into the chord-active state. */
module HotKeyManagement {
  import opened Wrappers
  import opened Domain
  import opened HotKeyState

  /** What a registrar hands back for a registration. */
  datatype Token = Token(id: nat)

  /** The chord-active value an event leaves behind. */
  function ChordActiveAfter(kind: HotKeyEventKind): (active: bool)
    ensures active <==> kind == Pressed
  {
    match kind
    case Pressed => true
    case Released => false
  }

  class DefaultHotKeyManager {
    const state: InMemoryHotKeyState
    var token: Option<Token>
    /** The chords passed to the registrar, in order. */
    var registrarCalls: seq<HotKeyChord>
    /** The tokens unregistered, in order. */
    var unregistered: seq<Token>

    constructor (state: InMemoryHotKeyState)
      ensures this.state == state && token == None && registrarCalls == [] && unregistered == []
    {
      this.state := state;
      token := None;
      registrarCalls := [];
      unregistered := [];
    }

    /** `register(chord:)`: unregisters the token held, if any, then registers the chord;
        `outcome` is what the registrar returns. A thrown error leaves the (already
        unregistered) old token in place. The chord-active state is not touched. */
    method Register(chord: HotKeyChord, outcome: Result<Token, Failure>) returns (r: Result<(), Failure>)
      modifies this
      ensures unregistered == old(unregistered) + (if old(token).Some? then [old(token).value] else [])
      ensures registrarCalls == old(registrarCalls) + [chord]
      ensures outcome.Ok? ==> r == Ok(()) && token == Some(outcome.value)
      ensures outcome.Err? ==> r == Err(outcome.error) && token == old(token)
      ensures state.active == old(state.active)
    {
      if token.Some? {
        unregistered := unregistered + [token.value];
      }
      registrarCalls := registrarCalls + [chord];
      if outcome.Err? {
        return Err(outcome.error);
      }
      token := Some(outcome.value);
      return Ok(());
    }

    /** `unregister()`: unregisters and drops the token held, and forces the state to false. */
    method Unregister()
      modifies this, state
      ensures unregistered == old(unregistered) + (if old(token).Some? then [old(token).value] else [])
      ensures token == None && registrarCalls == old(registrarCalls)
      ensures !state.active
    {
      if token.Some? {
        unregistered := unregistered + [token.value];
      }
      token := None;
      state.SetModifierChordActive(false);
    }

    /** `handle(event:)`: a pressed event makes the chord active, a released one inactive. */
    method Handle(kind: HotKeyEventKind)
      modifies state
      ensures state.active == ChordActiveAfter(kind)
    {
      match kind {
        case Pressed => state.SetModifierChordActive(true);
        case Released => state.SetModifierChordActive(false);
      }
    }
  }

  /** The two manager tests: events toggle the state after a registration, and unregistering
      resets it and releases the token. */
  method EventsToggleThenUnregisterResets(state: InMemoryHotKeyState, t: Token) returns (afterPress: bool, afterRelease: bool, afterUnregister: bool)
    modifies state
    ensures afterPress && !afterRelease && !afterUnregister
  {
    var manager := new DefaultHotKeyManager(state);
    var _ := manager.Register(HotKeyChord(0, ModifierCommand | ModifierShift), Ok(t));
    manager.Handle(Pressed);
    afterPress := state.IsModifierChordActive();
    manager.Handle(Released);
    afterRelease := state.IsModifierChordActive();
    manager.Handle(Pressed);
    manager.Unregister();
    assert manager.unregistered == [t];
    afterUnregister := state.IsModifierChordActive();
  }
}
