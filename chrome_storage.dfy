/** `chrome.storage.local`: one flat key-value store shared by every part of the extension. */
module ChromeStorage {
  import opened Js

  /** The value `get` reports for `key`: `undefined` when the key is absent. */
  function Lookup(entries: map<string, Value>, key: string): (v: Value)
    ensures key !in entries ==> v == Undefined
    ensures key in entries ==> v == entries[key]
  {
    if key in entries then entries[key] else Undefined
  }

  /** Setting a single key is a map update. */
  lemma SetOne(entries: map<string, Value>, key: string, v: Value)
    ensures entries + map[key := v] == entries[key := v]
  {
  }

  class Store {
    var entries: map<string, Value>

    constructor (entries: map<string, Value>)
      ensures this.entries == entries
    {
      this.entries := entries;
    }

    /** `chrome.storage.local.set(items)`: every given key is overwritten, the rest kept. */
    method Set(items: map<string, Value>)
      modifies this
      ensures entries == old(entries) + items
    {
      entries := entries + items;
    }
  }
}
