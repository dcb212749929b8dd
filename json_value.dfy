/**
 * Decoded JSON values as the Python side sees them after `requests`' `.json()`:
 * `None`, `bool`, `int`, `float`, `str`, `list` and `dict`, together with the
 * few dictionary operations and Python exceptions the normaliser relies on.
 */
module JsonValue {

  /** A decoded JSON value. `Null` is Python's `None`; floats are modelled as reals. */
  datatype Json =
    | Null
    | Bool(b: bool)
    | Int(i: int)
    | Float(r: real)
    | Str(s: string)
    | Arr(items: seq<Json>)
    | Obj(fields: map<string, Json>)

  /** The Python exceptions that traversing a payload can raise. */
  datatype PyError =
    | KeyError(key: Json)   // `d[k]` on a dict without key k
    | TypeError             // subscripting or converting a value of the wrong type
    | ValueError            // `int()` of a string that is not an integer literal
    | AttributeError        // `.get` on a value that is not a dict

  /** `m.get(key, default)` */
  function GetOr(m: map<string, Json>, key: string, default: Json): (v: Json)
    ensures key in m ==> v == m[key]
    ensures key !in m ==> v == default
  {
    if key in m then m[key] else default
  }

  /** `m.get(key)`: a missing key reads as `None`. */
  function Get(m: map<string, Json>, key: string): Json
  {
    GetOr(m, key, Null)
  }

  /** Python truthiness, as used by `x or y`. */
  predicate Truthy(v: Json)
  {
    match v
    case Null => false
    case Bool(b) => b
    case Int(i) => i != 0
    case Float(r) => r != 0.0
    case Str(s) => |s| > 0
    case Arr(items) => |items| > 0
    case Obj(fields) => |fields| > 0
  }
}
