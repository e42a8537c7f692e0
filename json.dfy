/** JSON-like values as the Python code holds them in dicts: job parameters and
    results, agent state, tool payloads and tool replies. */
module PyJson {

  datatype Json =
    | JNull
    | JBool(b: bool)
    | JInt(i: int)
    | JFloat(r: real)
    | JStr(s: string)
    | JList(items: seq<Json>)
    | JDict(fields: map<string, Json>)
  {
    /** Python truthiness: `None`, `False`, zero and empty containers are false. */
    predicate Truthy() {
      match this
      case JNull => false
      case JBool(b) => b
      case JInt(i) => i != 0
      case JFloat(r) => r != 0.0
      case JStr(s) => s != []
      case JList(xs) => xs != []
      case JDict(m) => m != map[]
    }
  }

  /** `d.get(k, default)`. */
  function Get(d: map<string, Json>, k: string, default: Json): Json {
    if k in d then d[k] else default
  }

  /** `x or y`. */
  function Or(x: Json, y: Json): Json {
    if x.Truthy() then x else y
  }
}
