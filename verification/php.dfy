/** The few PHP value semantics the plugin's rules depend on. */
module Php {

  /** A scalar stored in an options array or posted by a form. */
  datatype Value = Int(i: int) | Str(s: string)

  /** `empty()` on a string: the empty string and "0" are both empty. */
  predicate EmptyString(s: string) {
    s == "" || s == "0"
  }

  /** `empty()` on a scalar value. */
  predicate Empty(v: Value) {
    match v
    case Int(i) => i == 0
    case Str(s) => EmptyString(s)
  }

  /** The `(bool)` cast, which for scalars is the negation of `empty()`. */
  predicate Truthy(v: Value) {
    !Empty(v)
  }

  /** `abs()`: the magnitude of an integer. */
  function Abs(i: int): (r: nat)
    ensures r == i || r == -i
  {
    if i < 0 then -i else i
  }

  /** `max(lo, min(hi, x))`. */
  function Clamp(lo: int, hi: int, x: int): (r: int)
    requires lo <= hi
    ensures lo <= r <= hi
    ensures lo <= x <= hi ==> r == x
    ensures x < lo ==> r == lo
    ensures x > hi ==> r == hi
  {
    if x < lo then lo else if x > hi then hi else x
  }
}
