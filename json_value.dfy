/**
 * The values `json.loads` produces and the evaluator passes around: null,
 * booleans, integers, strings, lists and insertion-ordered objects. Object keys
 * are strings when parsed from JSON text; `IntKey` stands for any other
 * hashable key a Python dict may hold, which key normalisation must leave alone.
 */
module JsonValue {
  import opened Wrappers
  import PyDict

  datatype Key = StrKey(s: string) | IntKey(n: int)

  datatype Json =
    | JNull
    | JBool(b: bool)
    | JInt(i: int)
    | JStr(s: string)
    | JList(items: seq<Json>)
    | JObject(entries: seq<(Key, Json)>)

  /** One `"name": value` member of an object literal. */
  function Field(name: string, v: Json): (Key, Json) {
    (StrKey(name), v)
  }

  /** A JSON array of strings. */
  function StrList(xs: seq<string>): (j: Json)
    ensures j.JList? && |j.items| == |xs|
    ensures forall i :: 0 <= i < |xs| ==> j.items[i] == JStr(xs[i])
  {
    JList(seq(|xs|, i requires 0 <= i < |xs| => JStr(xs[i])))
  }

  /** The keys of an object, in order. */
  function KeyNames(j: Json): seq<Key>
    requires j.JObject?
  {
    PyDict.Keys(j.entries)
  }

  /** `name in d` for a dict `d`. */
  predicate HasField(j: Json, name: string)
    requires j.JObject?
  {
    StrKey(name) in PyDict.Keys(j.entries)
  }

  /** `d.get(name)` for a dict `d`. */
  function GetField(j: Json, name: string): Option<Json>
    requires j.JObject?
  {
    PyDict.Get(j.entries, StrKey(name))
  }

  /** `d.get(name, default)` for a dict `d`. */
  function GetFieldOr(j: Json, name: string, default: Json): Json
    requires j.JObject?
  {
    GetField(j, name).GetOr(default)
  }

  /** `d[name] = v` for a dict `d`. */
  function SetField(j: Json, name: string, v: Json): (r: Json)
    requires j.JObject?
    ensures r.JObject?
  {
    JObject(PyDict.Set(j.entries, StrKey(name), v))
  }

  /** Python truthiness of a parsed value: `None`, `False`, `0` and empty containers are false. */
  predicate Truthy(j: Json) {
    match j
    case JNull => false
    case JBool(b) => b
    case JInt(i) => i != 0
    case JStr(s) => s != ""
    case JList(items) => items != []
    case JObject(es) => es != []
  }
}
