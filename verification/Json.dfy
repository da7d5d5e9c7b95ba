/**
 * The request body as Python's `json` module decodes it. A JSON number
 * written without a fraction or exponent becomes an `int`, any other number
 * a `float`; `true`/`false` become `bool`, which Python treats as a subclass
 * of `int`.
 */
module Json {

  datatype Value =
    | Null
    | Bool(b: bool)
    | Int(i: int)
    | Float(f: real)
    | Str(s: string)
    | Array(items: seq<Value>)
    | Object(fields: map<string, Value>)

  /** A decoded JSON object: the `dados` dictionary of the handler. */
  type Body = map<string, Value>

  /** `type(v).__name__` for the Python object the value decodes to. */
  function TypeName(v: Value): string {
    match v
    case Null => "NoneType"
    case Bool(_) => "bool"
    case Int(_) => "int"
    case Float(_) => "float"
    case Str(_) => "str"
    case Array(_) => "list"
    case Object(_) => "dict"
  }
}
