/** JSON values as Python's json module hands them over, their Python truthiness,
    and the outcomes of calls to the external services, which the model takes as
    parameters rather than performing. */
module Json {
  import opened Wrappers

  /** A decoded JSON document. Integers and floats stay apart because Python's
      json module returns `int` for `1` and `float` for `1.0`. */
  datatype Value =
    | Null
    | Bool(b: bool)
    | Int(i: int)
    | Float(f: real)
    | Str(s: string)
    | Arr(items: seq<Value>)
    | Obj(fields: map<string, Value>)

  /** Python truthiness of a decoded value (`if v:` / `v or default`): `None`,
      `False`, zero, and empty strings, lists and dicts are false. */
  predicate Truthy(v: Value) {
    match v
    case Null => false
    case Bool(b) => b
    case Int(i) => i != 0
    case Float(f) => f != 0.0
    case Str(s) => s != ""
    case Arr(items) => items != []
    case Obj(fields) => fields != map[]
  }

  /** What an external call produced: it raised (with the exception's text), or
      it returned a payload. */
  datatype Outcome<+T> = Fail(message: string) | Ok(payload: T)

  /** What `json.loads` made of a reply text: a `JSONDecodeError`, or a value. */
  datatype Decoded = DecodeError | Decoded(value: Value)

  /** The text of the `TypeError` CPython raises for `v["key"]` when `v` is not a
      dict; `None` for a dict, where the lookup either succeeds or raises `KeyError`. */
  function SubscriptError(v: Value): (r: Option<string>)
    ensures r.None? <==> v.Obj?
    ensures r.Some? ==> r.value != ""
  {
    match v
    case Null => Some("'NoneType' object is not subscriptable")
    case Bool(_) => Some("'bool' object is not subscriptable")
    case Int(_) => Some("'int' object is not subscriptable")
    case Float(_) => Some("'float' object is not subscriptable")
    case Str(_) => Some("string indices must be integers, not 'str'")
    case Arr(_) => Some("list indices must be integers or slices, not str")
    case Obj(_) => None
  }

  /** The text of the `KeyError` raised for a missing key, as `str(e)` renders
      it. `str(e)` is `repr(key)`, which is the key between single quotes only
      for keys without a quote, a backslash or a non-printable character, such as
      the fixed keys "primary_language" and "confidence" this model looks up. */
  function KeyErrorText(key: string): (r: string)
    ensures |r| == |key| + 2 && r[0] == '\'' && r[|r| - 1] == '\''
    ensures r[1..|r| - 1] == key
  {
    "'" + key + "'"
  }

}
