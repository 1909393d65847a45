/** Decoded JSON values, as `json.load` hands them to the Python code,
    and Python's truthiness on them (`if value:` / `bool(value)`). */
module Json {

  /** JSON numbers are kept as integers: no floating point is modelled. */
  datatype Value =
    | Null
    | Bool(b: bool)
    | Num(n: int)
    | Str(s: string)
    | Arr(items: seq<Value>)
    | Obj(fields: seq<(string, Value)>)

  /** Python's `bool(v)` on a decoded JSON value: `None`, `False`, `0`,
      the empty string, the empty list and the empty dict are falsy. */
  predicate Truthy(v: Value) {
    match v
    case Null => false
    case Bool(b) => b
    case Num(n) => n != 0
    case Str(s) => s != ""
    case Arr(items) => |items| > 0
    case Obj(fields) => |fields| > 0
  }
}
