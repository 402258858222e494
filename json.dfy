/** Python values decoded from JSON, as the OpenReview client hands them over
    and as the JSON columns store them. `Null` is Python's `None`. */
module Json {
  import opened Wrappers
  import Text

  datatype Json =
    | Null
    | Bool(b: bool)
    | Num(n: int)
    | Str(s: string)
    | Arr(items: seq<Json>)
    | Obj(fields: map<string, Json>)

  /** Python truthiness: `None`, `False`, `0`, `""`, `[]` and `{}` are false. */
  predicate Truthy(j: Json) {
    match j
    case Null => false
    case Bool(b) => b
    case Num(n) => n != 0
    case Str(s) => s != ""
    case Arr(items) => items != []
    case Obj(fields) => fields != map[]
  }

  /** `dict.get(key)`: the entry, or `None` when the key is absent. */
  function Get(fields: map<string, Json>, key: string): (r: Json)
    ensures key !in fields ==> r == Null
    ensures key in fields ==> r == fields[key]
  {
    if key in fields then fields[key] else Null
  }

  /** `str(value)` for scalar values; lists and dicts give `None` here because
      their `repr` form is not part of this model. */
  function ScalarText(j: Json): (r: Option<string>)
    ensures j.Str? ==> r == Some(j.s)
    ensures r.None? <==> j.Arr? || j.Obj?
  {
    match j
    case Null => Some("None")
    case Bool(b) => Some(if b then "True" else "False")
    case Num(n) => Some(Text.IntToString(n))
    case Str(s) => Some(s)
    case Arr(_) => None
    case Obj(_) => None
  }
}
