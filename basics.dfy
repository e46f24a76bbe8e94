/** Small shared definitions: an option type for nullable references and
    out-parameters that may be unset, the real-number helpers the game's
    Mathf calls stand for, and the contract a square-root routine must meet. */
module Basics {

  datatype Option<+T> = None | Some(value: T)

  /** Mathf.Max on two reals. */
  function Max(a: real, b: real): real { if a > b then a else b }

  /** Mathf.Min on two reals. */
  function Min(a: real, b: real): real { if a < b then a else b }

  /** Mathf.Abs on a real. */
  function Abs(a: real): real { if a < 0.0 then -a else a }

  /** The engine's square root (Mathf.Sqrt) is a foreign routine; every member
      that needs it takes it as a parameter that must meet this contract. */
  ghost predicate IsSqrt(sqrt: real -> real) {
    forall x: real :: 0.0 <= x ==> 0.0 <= sqrt(x) && sqrt(x) * sqrt(x) == x
  }

  /** C#'s / on int: the quotient truncates toward zero. */
  function CsDiv(a: int, n: int): int
    requires n != 0
  {
    if a >= 0 then a / n else -((-a) / n)
  }

  /** C#'s % on int: what is left after the truncated division, so the
      remainder takes the sign of the dividend (Dafny's own % never goes
      negative). */
  function CsRem(a: int, n: int): (r: int)
    requires n != 0
    ensures a == n * CsDiv(a, n) + r
    ensures 0 <= a ==> 0 <= r < (if n < 0 then -n else n)
    ensures a < 0 ==> -(if n < 0 then -n else n) < r <= 0
  {
    if a >= 0 then a % n
    else
      assert n * -((-a) / n) == -(n * ((-a) / n));
      -((-a) % n)
  }

  /** The single-precision float.MaxValue, as an exact real. */
  const FloatMax: real := 340282346638528859811704183484516925440.0
}
