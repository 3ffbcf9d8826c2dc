/** The JSON values the Python backend reads out of a decoded telemetry
    dictionary, and Python's truthiness rule on them. */
module Py {

  datatype PyValue = PyNone | PyBool(b: bool) | PyNum(x: real) | PyStr(s: string)

  /** Python's `bool(v)`: `None`, `False`, `0` and `""` are falsy. */
  predicate PyTruthy(v: PyValue)
  {
    match v
    case PyNone => false
    case PyBool(b) => b
    case PyNum(x) => x != 0.0
    case PyStr(s) => s != ""
  }

  /** A dictionary field that, when present, holds a number: the fields the
      code compares with `>` or `==` against numbers. */
  predicate NumericOrAbsent(d: map<string, PyValue>, key: string)
  {
    key in d ==> d[key].PyNum?
  }

  /** `d.get(key, default)` on a numeric field. */
  function GetNum(d: map<string, PyValue>, key: string, default: real): real
    requires NumericOrAbsent(d, key)
  {
    if key in d then d[key].x else default
  }
}
