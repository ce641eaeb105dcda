/** JSON values as the Python handlers see them after `await request.json()`
    and as Starlette keeps them in the session, with Python's truthiness. */
module Json {

  datatype Json =
    | JNull
    | JBool(b: bool)
    | JNum(n: int)
    | JStr(s: string)
    | JArr(items: seq<Json>)
    | JObj(fields: map<string, Json>)

  /** `bool(v)` in Python: `None`, `False`, `0`, `""`, `[]` and `{}` are
      false, everything else is true. */
  predicate Truthy(v: Json) {
    match v
    case JNull => false
    case JBool(b) => b
    case JNum(n) => n != 0
    case JStr(s) => s != []
    case JArr(items) => items != []
    case JObj(fields) => fields != map[]
  }

  /** `d.get(key)` on a dictionary: the value, or `None` when the key is
      absent. */
  function Get(d: map<string, Json>, key: string): (v: Json)
    ensures key !in d ==> v == JNull
  {
    if key in d then d[key] else JNull
  }
}
