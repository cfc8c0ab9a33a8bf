/** A preference file as an in-memory map from keys to strings, shared by every object opened on it. */
module Prefs {
  import opened Opt

  class Preferences {
    var strings: map<string, string>

    constructor(stored: map<string, string>)
      ensures strings == stored
    {
      strings := stored;
    }

    /** `getString(key, default)`: the stored string, or `default` when the key is absent. */
    function GetString(key: string, default: Option<string>): (r: Option<string>)
      reads this
      ensures key in strings ==> r == Some(strings[key])
      ensures key !in strings ==> r == default
    {
      if key in strings then Some(strings[key]) else default
    }

    /** `edit { putString(key, value) }`. */
    method PutString(key: string, value: string)
      modifies this
      ensures strings == old(strings)[key := value]
    {
      strings := strings[key := value];
    }

    /** `edit { remove(k) }` for every key of `keys`, committed together. */
    method Remove(keys: set<string>)
      modifies this
      ensures strings == old(strings) - keys
    {
      strings := strings - keys;
    }
  }
}
