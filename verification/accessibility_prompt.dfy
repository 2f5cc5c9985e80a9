/** `AccessibilityPromptController`: asks for the accessibility permission at most once an
    hour, remembering the time of the last prompt in the user defaults. */
module AccessibilityPrompt {
  import opened UserDefaultsStore

  const LastPromptKey: string := "io.smalllight.accessibility.lastPrompt"

  /** One hour, in seconds. */
  const SuppressionInterval: real := 3600.0

  /** `shouldPrompt`'s answer for the stored values, whether the process is trusted and the
      current time: never once trusted; always when no prompt time is recorded (a stored
      value of 0 or less counts as none); otherwise only once more than an hour has passed. */
  function PromptDue(values: map<string, StoredValue>, trusted: bool, now: real): (due: bool)
    ensures trusted ==> !due
    ensures !trusted && NumberAt(values, LastPromptKey) <= 0.0 ==> due
    ensures !trusted && NumberAt(values, LastPromptKey) > 0.0 ==>
      (due <==> now - NumberAt(values, LastPromptKey) > SuppressionInterval)
  {
    if trusted then false
    else
      var last := NumberAt(values, LastPromptKey);
      if last <= 0.0 then true else now - last > SuppressionInterval
  }

  /** After a prompt recorded at a positive time, no prompt is due for an hour, and one is due
      once more than an hour has passed. */
  lemma RecordedPromptSuppresses(values: map<string, StoredValue>, at: real, now: real)
    requires at > 0.0
    ensures now - at <= SuppressionInterval ==> !PromptDue(values[LastPromptKey := Number(at)], false, now)
    ensures now - at > SuppressionInterval ==> PromptDue(values[LastPromptKey := Number(at)], false, now)
  {
    assert NumberAt(values[LastPromptKey := Number(at)], LastPromptKey) == at;
  }

  /** After a reset a prompt is due again at once. */
  lemma ResetMakesPromptDue(values: map<string, StoredValue>, now: real)
    ensures PromptDue(values - {LastPromptKey}, false, now)
  {
    assert NumberAt(values - {LastPromptKey}, LastPromptKey) == 0.0;
  }

  class AccessibilityPromptController {
    const defaults: UserDefaults

    constructor (defaults: UserDefaults)
      ensures this.defaults == defaults
    {
      this.defaults := defaults;
    }

    /** `shouldPrompt`; `trusted` is what `AXIsProcessTrusted()` says and `now` the current
        time in seconds since 1970. A trusted process also clears the recorded time. */
    method ShouldPrompt(trusted: bool, now: real) returns (due: bool)
      modifies defaults
      ensures due == PromptDue(old(defaults.values), trusted, now)
      ensures trusted ==> defaults.values == old(defaults.values) - {LastPromptKey}
      ensures !trusted ==> defaults.values == old(defaults.values)
    {
      if trusted {
        Reset();
        return false;
      }
      var last := NumberAt(defaults.values, LastPromptKey);
      if last <= 0.0 {
        return true;
      }
      var elapsed := now - last;
      return elapsed > SuppressionInterval;
    }

    /** `recordPrompt()`: stores the current time. */
    method RecordPrompt(now: real)
      modifies defaults
      ensures defaults.values == old(defaults.values)[LastPromptKey := Number(now)]
    {
      defaults.Set(LastPromptKey, Number(now));
    }

    /** `reset()`: forgets the recorded time. */
    method Reset()
      modifies defaults
      ensures defaults.values == old(defaults.values) - {LastPromptKey}
    {
      defaults.RemoveObject(LastPromptKey);
    }
  }
}
