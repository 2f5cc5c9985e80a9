/** `InMemoryHotKeyState`: one cell saying whether the modifier chord is held. */
module HotKeyState {
  class InMemoryHotKeyState {
    var active: bool

    /** `init(isModifierChordActive:)`; the argument defaults to false, which `Inactive` is. */
    constructor (isModifierChordActive: bool)
      ensures active == isModifierChordActive
    {
      active := isModifierChordActive;
    }

    constructor Inactive()
      ensures !active
    {
      active := false;
    }

    /** `isModifierChordActive`: the last value set. */
    function IsModifierChordActive(): bool
      reads this
    {
      active
    }

    /** `setModifierChordActive(_:)`: overwrites the cell and nothing else. */
    method SetModifierChordActive(isActive: bool)
      modifies this
      ensures active == isActive
    {
      active := isActive;
    }
  }

  /** Setting is idempotent and a read returns the last value set: setting true then false
      reads back false, whatever the cell held. */
  method SetTwice(state: InMemoryHotKeyState) returns (read: bool)
    modifies state
    ensures !read && !state.active
  {
    state.SetModifierChordActive(true);
    state.SetModifierChordActive(true);
    state.SetModifierChordActive(false);
    read := state.IsModifierChordActive();
  }
}
