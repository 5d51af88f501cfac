/** The JSON-shaped values the plan interpreter handles (Python `None`,
    `bool`, numbers, `str`, `list`, `dict`). A `dict` keeps its insertion
    order, so an object is an ordered list of key/value entries. */
module Json {
  import opened Wrappers

  datatype Json =
    | JNull
    | JBool(b: bool)
    | JNumber(n: real)
    | JString(s: string)
    | JArray(items: seq<Json>)
    | JObject(fields: seq<(string, Json)>)

  /** The key set of an object, `set(d.keys())`. */
  function Keys(fields: seq<(string, Json)>): set<string> {
    set i | 0 <= i < |fields| :: fields[i].0
  }

  /** `d.get(key)`: the value of the first entry under `key`. The key is
      present exactly when the result is `Some`. */
  function Lookup(fields: seq<(string, Json)>, key: string): (r: Option<Json>)
    ensures r.None? <==> key !in Keys(fields)
    ensures r.Some? ==> exists i :: 0 <= i < |fields| && fields[i] == (key, r.value) && forall j :: 0 <= j < i ==> fields[j].0 != key
    decreases |fields|
  {
    if fields == [] then None
    else if fields[0].0 == key then Some(fields[0].1)
    else
      var r := Lookup(fields[1..], key);
      assert Keys(fields) == {fields[0].0} + Keys(fields[1..]) by {
        forall k | k in Keys(fields) ensures k in {fields[0].0} + Keys(fields[1..]) {
          var i :| 0 <= i < |fields| && fields[i].0 == k;
          if i > 0 { assert fields[1..][i - 1] == fields[i]; }
        }
      }
      assert r.Some? ==> exists i :: 0 <= i < |fields| && fields[i] == (key, r.value) && forall j :: 0 <= j < i ==> fields[j].0 != key by {
        if r.Some? {
          var i :| 0 <= i < |fields| - 1 && fields[1..][i] == (key, r.value) && forall j :: 0 <= j < i ==> fields[1..][j].0 != key;
          assert fields[i + 1] == (key, r.value);
          forall j | 0 <= j < i + 1 ensures fields[j].0 != key {
            if j > 0 { assert fields[j] == fields[1..][j - 1]; }
          }
        }
      }
      r
  }

  /** Python truthiness of a JSON value: `None`, `False`, zero, and empty
      strings, lists and dicts are false. */
  predicate Truthy(j: Json) {
    match j
    case JNull => false
    case JBool(b) => b
    case JNumber(n) => n != 0.0
    case JString(s) => s != ""
    case JArray(items) => items != []
    case JObject(fields) => fields != []
  }
}
