/** The user-defaults store shared by the confirmation tracker and the accessibility prompt
    controller: values by key, read and written in place. */
module UserDefaultsStore {
  /** A stored value: a string array (as the set of its elements, since its order is never
      read back) or a number. */
  datatype StoredValue = Strings(elements: set<string>) | Number(value: real)

  class UserDefaults {
    var values: map<string, StoredValue>

    constructor (values: map<string, StoredValue>)
      ensures this.values == values
    {
      this.values := values;
    }

    /** `set(_:forKey:)`. */
    method Set(key: string, value: StoredValue)
      modifies this
      ensures values == old(values)[key := value]
    {
      values := values[key := value];
    }

    /** `removeObject(forKey:)`. */
    method RemoveObject(key: string)
      modifies this
      ensures values == old(values) - {key}
    {
      values := values - {key};
    }
  }

  /** `array(forKey:) as? [String] ?? []`: the strings stored under `key`, none when nothing
      or something else is stored there. */
  function StringsAt(values: map<string, StoredValue>, key: string): (r: set<string>)
    ensures key in values && values[key].Strings? ==> r == values[key].elements
    ensures key !in values || !values[key].Strings? ==> r == {}
  {
    if key in values && values[key].Strings? then values[key].elements else {}
  }

  /** `double(forKey:)`: the number stored under `key`, 0 when nothing or something else is
      stored there. */
  function NumberAt(values: map<string, StoredValue>, key: string): (r: real)
    ensures key in values && values[key].Number? ==> r == values[key].value
    ensures key !in values || !values[key].Number? ==> r == 0.0
  {
    if key in values && values[key].Number? then values[key].value else 0.0
  }
}
