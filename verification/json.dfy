/** JSON values as the Python code sees them after `json.load`, with Python's
    truthiness and `dict.get`. */
module JsonValue {

  /** A decoded JSON value. Objects are maps: key order plays no part in the
      modelled behaviour. */
  datatype Json =
    | JNull
    | JBool(b: bool)
    | JInt(i: int)
    | JFloat(x: real)
    | JStr(s: string)
    | JArray(items: seq<Json>)
    | JObject(fields: map<string, Json>)

  /** A JSON object: one upstream record or response document. */
  type Object = map<string, Json>

  /** Python's truth value of a decoded JSON value (`if v:` / `not v`). */
  predicate Truthy(v: Json) {
    match v
    case JNull => false
    case JBool(b) => b
    case JInt(i) => i != 0
    case JFloat(x) => x != 0.0
    case JStr(s) => s != []
    case JArray(items) => items != []
    case JObject(fields) => fields != map[]
  }

  /** Python's `o.get(k, default)`. */
  function GetOr(o: Object, k: string, default: Json): Json {
    if k in o then o[k] else default
  }

  /** Python's `o.get(k)`: `None` when the key is missing. */
  function Get(o: Object, k: string): Json {
    GetOr(o, k, JNull)
  }
}
