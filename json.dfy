/** Decoded JSON values as the request handlers see them after parsing a
    request body, with Python's truthiness and `dict.get`. */
module Json {

  /** A decoded JSON value (numbers are integers in this model). */
  datatype Value =
    | Null
    | Bool(b: bool)
    | Num(n: int)
    | Str(s: string)
    | Array(items: seq<Value>)
    | Object(fields: map<string, Value>)

  /** Python's truth value of a decoded JSON value: `None`, `False`, `0`,
      `""`, `[]` and `{}` are false, everything else true. */
  predicate Truthy(v: Value)
  {
    match v
    case Null => false
    case Bool(b) => b
    case Num(n) => n != 0
    case Str(s) => s != ""
    case Array(items) => items != []
    case Object(fields) => fields != map[]
  }

  /** `body.get(key, None)`. */
  function Get(body: map<string, Value>, key: string): (v: Value)
    ensures key in body ==> v == body[key]
    ensures key !in body ==> v == Null && !Truthy(v)
  {
    if key in body then body[key] else Null
  }
}
