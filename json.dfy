/** The JSON-shaped values that the views put into response bodies, and the two
    pieces of Python behaviour the backend relies on for them: truthiness and
    `dict.get`. */
module JsonData {

  datatype Json =
    | Null
    | Bool(b: bool)
    | Num(n: int)
    | Str(s: string)
    | Arr(items: seq<Json>)
    | Obj(fields: map<string, Json>)

  /** Python's `bool(x)`: `None`, `False`, `0` and empty strings, lists and
      dicts are false; everything else is true. */
  predicate Truthy(j: Json) {
    match j
    case Null => false
    case Bool(b) => b
    case Num(n) => n != 0
    case Str(s) => s != []
    case Arr(items) => items != []
    case Obj(fields) => fields != map[]
  }

  /** `d.get(key)`: the stored value, or `None` for a missing key. */
  function Get(d: map<string, Json>, key: string): (v: Json)
    ensures key !in d ==> v == Null
    ensures key in d ==> v == d[key]
  {
    if key in d then d[key] else Null
  }
}
