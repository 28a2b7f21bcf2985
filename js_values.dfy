/**
 * The handful of JavaScript value semantics the dashboard's arithmetic relies on:
 * optional values, thrown errors as results, IEEE division outcomes, the rounding
 * performed by `Number.prototype.toFixed(2)`, the `||` default on strings, and the
 * truncating remainder operator `%`.
 */
module JsValues {

  datatype Option<+T> = None | Some(value: T)

  /** A computation that either yields a value or throws an error with a message. */
  datatype Result<+T> = Success(value: T) | Failure(error: string)

  /**
   * The outcome of a JavaScript number division of two finite numbers: a finite
   * quotient, `NaN` (0 / 0), or an infinity (x / 0 with x != 0).
   */
  datatype JsNum = Finite(value: real) | NaN | Infinity(negative: bool)

  /** `a / b` on finite JavaScript numbers, computed exactly. */
  function Divide(a: real, b: real): (q: JsNum)
    ensures q.Finite? <==> b != 0.0
    ensures q.Finite? ==> q.value * b == a
    ensures q.NaN? <==> a == 0.0 && b == 0.0
    ensures q.Infinity? ==> (q.negative <==> a < 0.0)
  {
    if b != 0.0 then Finite(a / b)
    else if a == 0.0 then NaN
    else Infinity(a < 0.0)
  }

  /** Multiplication of a JavaScript number by a finite positive factor. */
  function Scale(q: JsNum, factor: real): (r: JsNum)
    requires factor > 0.0
    ensures r.Finite? <==> q.Finite?
    ensures r.Finite? ==> r.value == q.value * factor
    ensures !r.Finite? ==> r == q
  {
    match q
    case Finite(v) => Finite(v * factor)
    case _ => q
  }

  /**
   * The value of `x.toFixed(2)` read back as a number: the nearest multiple of 1/100,
   * halves rounded away from zero (toFixed rounds the magnitude and re-attaches the sign).
   */
  function Round2(x: real): (r: real)
    ensures -1.0 / 200.0 <= r - x <= 1.0 / 200.0
    ensures r == Hundredths(x) as real / 100.0
    ensures x >= 0.0 ==> r >= 0.0
    ensures x <= 0.0 ==> r <= 0.0
  {
    Hundredths(x) as real / 100.0
  }

  /** The integer count of hundredths that `x.toFixed(2)` prints. */
  function Hundredths(x: real): (n: int)
    ensures x * 100.0 - 0.5 <= n as real <= x * 100.0 + 0.5
    ensures x >= 0.0 ==> n >= 0
    ensures x <= 0.0 ==> n <= 0
  {
    if x >= 0.0 then (x * 100.0 + 0.5).Floor else -((-x) * 100.0 + 0.5).Floor
  }

  /** JavaScript's `||` applied to a string: the empty string is falsy. */
  function OrDefault(s: string, default: string): (r: string)
    ensures r == s || r == default
    ensures r == default <==> s == "" || s == default
  {
    if s == "" then default else s
  }

  /** JavaScript's `a % b` for integers and b > 0: the remainder takes the sign of `a`. */
  function JsRem(a: int, b: int): (r: int)
    requires b > 0
    ensures -b < r < b
    ensures a >= 0 ==> r == a % b
    ensures a < 0 ==> r <= 0
  {
    if a >= 0 then a % b else -((-a) % b)
  }
}
