/** Values as the JavaScript sources see them: optional fields (`null`/`undefined`),
    numbers that may be `NaN`, and the truthiness rules behind `||`, `??` and `!!`. */
module JsCore {

  /** A field that may be missing (`null` or `undefined`) or present. */
  datatype Option<+T> = None | Some(value: T) {

    /** `x ?? d`: the value if present, else the default. */
    function GetOr(d: T): T {
      match this
      case Some(v) => v
      case None => d
    }
  }

  /** A JavaScript number after `Number(...)`/`parseInt(...)`: an integer or `NaN`.
      Fractions and infinities are not part of this model. */
  datatype Num = Int(i: int) | NaN

  /** Truthiness of a number: `0` and `NaN` are falsy. */
  predicate NumTruthy(n: Num) {
    n.Int? && n.i != 0
  }

  /** `n || d` for a number `n` and an integer default `d`. */
  function NumOr(n: Num, d: int): (r: int)
  {
    if NumTruthy(n) then n.i else d
  }

  /** Truthiness of an optional string: missing and `""` are falsy. */
  predicate StrTruthy(s: Option<string>) {
    s.Some? && s.value != ""
  }

  /** `a || b` on optional strings. */
  function StrOr(a: Option<string>, b: Option<string>): (r: Option<string>)
  {
    if StrTruthy(a) then a else b
  }

  /** `s || d` for an optional string and a string default. */
  function StrOrDefault(s: Option<string>, d: string): (r: string)
  {
    if StrTruthy(s) then s.value else d
  }

  /** `!!b` on an optional boolean. */
  function BoolOf(b: Option<bool>): (r: bool)
  {
    b.Some? && b.value
  }

  /** `x || d` for an optional integer: missing and `0` take the default. */
  function IntOr(x: Option<int>, d: int): (r: int)
    ensures x.Some? && x.value != 0 ==> r == x.value
    ensures x.None? || x.value == 0 ==> r == d
  {
    if x.Some? && x.value != 0 then x.value else d
  }
}
