/**
 * JSON values and the response object the converter endpoints fill in.
 *
 * A response is modelled as the values accumulated under each key, in the
 * order they were accumulated: writing a key a second time keeps the first
 * value and adds the second after it, which is what `JSONObject.accumulate`
 * does when a handler writes "result" twice.
 */
module Json {

  datatype JsonValue =
    | JNull
    | JBool(b: bool)
    | JNumber(literal: string)
    | JString(s: string)
    | JArray(items: seq<JsonValue>)
    | JObject(members: map<string, JsonValue>)

  /** The contents of a response object: every key with its accumulated values. */
  type Entries = map<string, seq<JsonValue>>

  /** The values accumulated under `key` so far (none when the key was never written). */
  function ValuesAt(m: Entries, key: string): seq<JsonValue> {
    if key in m then m[key] else []
  }

  /** `m` after accumulating `value` under `key`. */
  function Accumulated(m: Entries, key: string, value: JsonValue): (r: Entries)
    ensures ValuesAt(r, key) == ValuesAt(m, key) + [value]
    ensures r.Keys == m.Keys + {key}
    ensures forall k :: k in m && k != key ==> r[k] == m[k]
  {
    m[key := ValuesAt(m, key) + [value]]
  }

  /** A JSON array of strings, element by element. */
  function Strings(xs: seq<string>): (r: seq<JsonValue>)
    ensures |r| == |xs|
    ensures forall i :: 0 <= i < |xs| ==> r[i] == JString(xs[i])
  {
    if xs == [] then [] else [JString(xs[0])] + Strings(xs[1..])
  }

  /** The `JSONObject result` a handler builds and finally sends back. */
  class JsonObject {
    var entries: Entries

    constructor ()
      ensures entries == map[]
    {
      entries := map[];
    }

    method Accumulate(key: string, value: JsonValue)
      modifies this
      ensures entries == Accumulated(old(entries), key, value)
    {
      entries := entries[key := ValuesAt(entries, key) + [value]];
    }
  }
}
