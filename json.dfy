/**
 * The values `json.loads` produces, with Python's truthiness, `dict.get`,
 * the `or` operator and the type names that appear in exception messages.
 */
module PyJson {

  datatype Json =
    | JNull
    | JBool(b: bool)
    | JInt(i: int)
    | JFloat(f: real)
    | JString(s: string)
    | JArray(items: seq<Json>)
    | JObject(members: map<string, Json>)

  /** `bool(v)`: `None`, `False`, zero and empty containers are false. */
  predicate Truthy(v: Json) {
    match v
    case JNull => false
    case JBool(b) => b
    case JInt(i) => i != 0
    case JFloat(f) => f != 0.0
    case JString(s) => s != []
    case JArray(items) => items != []
    case JObject(members) => members != map[]
  }

  /** `d.get(key)`: the value under `key`, or `None` when it is absent. */
  function Get(members: map<string, Json>, key: string): (v: Json)
    ensures key !in members ==> v == JNull
    ensures key in members ==> v == members[key]
  {
    if key in members then members[key] else JNull
  }

  /** Python's `a or b`: `a` when it is truthy, otherwise `b`. */
  function Or(a: Json, b: Json): Json {
    if Truthy(a) then a else b
  }

  /** `a or b` is truthy exactly when one of them is, and prefers `a`. */
  lemma OrTruthy(a: Json, b: Json)
    ensures Truthy(Or(a, b)) <==> Truthy(a) || Truthy(b)
    ensures Truthy(a) ==> Or(a, b) == a
    ensures !Truthy(a) ==> Or(a, b) == b
  {
  }

  /** `type(v).__name__`. */
  function TypeName(v: Json): string {
    match v
    case JNull => "NoneType"
    case JBool(_) => "bool"
    case JInt(_) => "int"
    case JFloat(_) => "float"
    case JString(_) => "str"
    case JArray(_) => "list"
    case JObject(_) => "dict"
  }
}
