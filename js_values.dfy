/** JavaScript values as the cache stores them: records, edit payloads and keys
    are plain, structurally compared values. Numbers are modelled as reals
    (NaN and the infinities are not modelled). */
module JsValues {

  datatype Option<+T> = None | Some(value: T)

  datatype Value =
    | Undefined
    | Null
    | Bool(b: bool)
    | Num(x: real)
    | Str(s: string)
    | Arr(items: seq<Value>)
    | Obj(fields: map<string, Value>)

  /** Property access `v.name`: undefined when `v` is not an object or lacks the field. */
  function Field(v: Value, name: string): (r: Value)
    ensures r != Undefined ==> v.Obj? && name in v.fields && v.fields[name] == r
  {
    if v.Obj? && name in v.fields then v.fields[name] else Undefined
  }

  /** JavaScript truthiness, as used by `Boolean(x)` and `x || y`. */
  predicate Truthy(v: Value) {
    match v
    case Undefined => false
    case Null => false
    case Bool(b) => b
    case Num(x) => x != 0.0
    case Str(s) => s != ""
    case Arr(_) => true
    case Obj(_) => true
  }

  /** `Number.isInteger(v)`. */
  predicate IsInteger(v: Value) {
    v.Num? && v.x.Floor as real == v.x
  }

  /** A valid IndexedDB key: a number, a string, or an array of valid keys
      (dates and binary keys are not modelled). */
  predicate IsValidKey(v: Value) {
    match v
    case Num(_) => true
    case Str(_) => true
    case Arr(items) => forall i :: 0 <= i < |items| ==> IsValidKey(items[i])
    case _ => false
  }
}
