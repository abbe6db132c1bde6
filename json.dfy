/**
 * JSON values as the dashboard's Python back end and JavaScript front end
 * exchange them, with the two languages' notions of "truthy" and the
 * `dict.get(key, default)` lookup that the Python code uses everywhere.
 */
module Json {

  datatype Option<+T> = None | Some(value: T)

  /** A parsed JSON value; numbers are integers in this model. */
  datatype Value =
    | Null
    | Bool(b: bool)
    | Num(n: int)
    | Str(s: string)
    | Arr(items: seq<Value>)
    | Obj(fields: map<string, Value>)

  /** A JSON object, that is a Python dict with string keys. */
  type Dict = map<string, Value>

  /** Python's `d.get(key, default)`. */
  function Get(d: Dict, key: string, default: Value): Value
  {
    if key in d then d[key] else default
  }

  /** JavaScript truthiness of a parsed value; an absent property (`undefined`) is `Null`. */
  predicate Truthy(v: Value)
  {
    match v
    case Null => false
    case Bool(b) => b
    case Num(n) => n != 0
    case Str(s) => |s| > 0
    case Arr(_) => true
    case Obj(_) => true
  }
}
