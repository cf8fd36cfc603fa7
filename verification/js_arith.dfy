/** The integer operations of JavaScript the server relies on, all of them by
    sixty (seconds to minutes, minutes to hours). Dafny's `/` and `%` are
    Euclidean; JavaScript's `%` and dayjs's whole-unit difference truncate
    toward zero, and `Math.floor` rounds toward negative infinity. */
module JsArith {

  /** `Math.floor(a / 60)`. */
  function FloorDiv60(a: int): (q: int)
    ensures 60 * q <= a < 60 * q + 60
  {
    a / 60
  }

  /** `a / 60` truncated toward zero, as dayjs computes a difference in minutes. */
  function TruncDiv60(a: int): (q: int)
    ensures a >= 0 ==> q >= 0 && 0 <= a - 60 * q < 60
    ensures a < 0 ==> q <= 0 && -60 < a - 60 * q <= 0
  {
    if a >= 0 then a / 60 else -((-a) / 60)
  }

  /** JavaScript's `a % 60`: the remainder takes the sign of the dividend. */
  function JsRem60(a: int): (r: int)
    ensures a == 60 * TruncDiv60(a) + r
    ensures a >= 0 ==> 0 <= r < 60
    ensures a < 0 ==> -60 < r <= 0
  {
    if a >= 0 then a % 60 else -((-a) % 60)
  }
}
