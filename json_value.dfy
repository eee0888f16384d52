/** A parsed JSON document and the few accessors the mempool decoder uses,
    shaped after the generic `Value` type of the serde_json library. */
module JsonValue {

  datatype Option<+T> = None | Some(value: T) {
    /** The wrapped value, or `default` when there is none. */
    function GetOr(default: T): T {
      match this
      case Some(v) => v
      case None => default
    }
  }

  /** A JSON value. A number whose text has no fraction and no exponent is kept
      as an `Int`, any other number as a `Float`; floating-point rounding is not
      modelled, so a `Float` carries a `real`. */
  datatype Value =
    | Null
    | Bool(b: bool)
    | Int(i: int)
    | Float(f: real)
    | String(s: string)
    | Array(items: seq<Value>)
    | Object(fields: map<string, Value>)

  /** The largest unsigned 64-bit integer, plus one. */
  const U64Limit: int := 0x1_0000_0000_0000_0000

  /** Member lookup by key: only an object has members. */
  function Get(v: Value, key: string): Option<Value> {
    if v.Object? && key in v.fields then Some(v.fields[key]) else None
  }

  /** The elements of an array, nothing for any other value. */
  function AsArray(v: Value): Option<seq<Value>> {
    if v.Array? then Some(v.items) else None
  }

  /** Any number read as a floating-point value; nothing for a non-number. */
  function AsF64(v: Value): Option<real> {
    match v
    case Int(i) => Some(i as real)
    case Float(f) => Some(f)
    case _ => None
  }

  /** An integer that fits an unsigned 64-bit word; a float, a negative or an
      oversized integer and every non-number give nothing. */
  function AsU64(v: Value): Option<nat> {
    if v.Int? && 0 <= v.i < U64Limit then Some(v.i) else None
  }

  function First(s: seq<Value>): Option<Value> {
    if s == [] then None else Some(s[0])
  }

  function Last(s: seq<Value>): Option<Value> {
    if s == [] then None else Some(s[|s| - 1])
  }
}
