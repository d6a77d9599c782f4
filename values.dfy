/** Python values as the validators and the error handler inspect them. */
module PyValues {
  /** A dynamically typed Python value; lists and dicts are reduced to their length. */
  datatype Value =
    | PyNone
    | PyBool(b: bool)
    | PyInt(i: int)
    | PyFloat(r: real)
    | PyStr(s: string)
    | PyList(len: nat)
    | PyDict(len: nat)

  /** `isinstance(v, int)`: `bool` is a subclass of `int` in Python. */
  predicate IsInt(v: Value) { v.PyInt? || v.PyBool? }

  function AsInt(v: Value): int
    requires IsInt(v)
  {
    if v.PyInt? then v.i else if v.b then 1 else 0
  }

  /** `isinstance(v, (int, float))`. */
  predicate IsNumber(v: Value) { IsInt(v) || v.PyFloat? }

  function AsReal(v: Value): real
    requires IsNumber(v)
  {
    if v.PyFloat? then v.r else AsInt(v) as real
  }

  /** Python truthiness (`bool(v)`). */
  predicate Truthy(v: Value) {
    match v
    case PyNone => false
    case PyBool(b) => b
    case PyInt(i) => i != 0
    case PyFloat(r) => r != 0.0
    case PyStr(s) => s != ""
    case PyList(n) => n > 0
    case PyDict(n) => n > 0
  }
}
