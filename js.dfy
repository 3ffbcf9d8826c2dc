/** The JavaScript values the dashboard code reads out of telemetry objects,
    and the truthiness rule its `if (x)` and `x || fallback` tests use. */
module Js {
  import opened Common

  datatype JsValue = Undefined | Null | Bool(b: bool) | Num(x: real) | Str(s: string)

  /** ECMAScript ToBoolean on these values: `undefined`, `null`, `false`,
      `0` and `""` are falsy, everything else is truthy. */
  predicate Truthy(v: JsValue)
  {
    match v
    case Undefined => false
    case Null => false
    case Bool(b) => b
    case Num(x) => x != 0.0
    case Str(s) => s != ""
  }

  /** `v || fallback`: the left operand when it is truthy, else the right. */
  function Or(v: JsValue, fallback: JsValue): JsValue
  {
    if Truthy(v) then v else fallback
  }

  /** `obj[key]` on a plain data object: a missing property reads as `undefined`. */
  function Get(obj: map<string, JsValue>, key: string): JsValue
  {
    if key in obj then obj[key] else Undefined
  }

  /** `obj?.[key]`: optional chaining through an object that may be absent. */
  function GetOpt(obj: Option<map<string, JsValue>>, key: string): JsValue
  {
    if obj.Some? then Get(obj.value, key) else Undefined
  }
}
