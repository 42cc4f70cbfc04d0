/** The device's persistent key-value store, written synchronously. */
module Storage {
  import opened Options
  import opened TimerTypes

  /** What can sit under a key: a plain string, or the preset list that the program
      serialises with `JSON.stringify` (kept abstract, not as JSON text). */
  datatype Value = Text(text: string) | Presets(list: seq<Preset>)

  class KeyValueStore {
    var entries: map<string, Value>

    constructor ()
      ensures entries == map[]
    {
      entries := map[];
    }

    /** `setItem`: the key now holds the value, every other key is untouched. */
    method SetItem(key: string, value: Value)
      modifies this
      ensures entries == old(entries)[key := value]
    {
      entries := entries[key := value];
    }

    /** `getItem`: the stored value, or `None` (JavaScript `null`) for a missing key. */
    method GetItem(key: string) returns (r: Option<Value>)
      ensures r.Some? <==> key in entries
      ensures r.Some? ==> r.value == entries[key]
    {
      if key in entries {
        r := Some(entries[key]);
      } else {
        r := None;
      }
    }
  }
}
