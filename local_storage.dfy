/** The device's key-value store (AsyncStorage), whose contents outlive the
    screen. Only setItem is used by the screen; a write may fail. */
module LocalStorage {

  class Storage {
    var entries: map<string, string>

    constructor (initial: map<string, string>)
      ensures entries == initial
    {
      entries := initial;
    }

    /** `setItem(key, value)`: either the value replaces whatever was stored
        under `key` and `ok` is true, or the write is rejected, nothing
        changes and `ok` is false. Which one happens is not determined. */
    method SetItem(key: string, value: string) returns (ok: bool)
      modifies this
      ensures ok ==> entries == old(entries)[key := value]
      ensures !ok ==> entries == old(entries)
    {
      ok := *;
      if ok {
        entries := entries[key := value];
      }
    }
  }
}
