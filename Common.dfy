/** Small shared vocabulary: an optional value (for JavaScript's `null`
    results) and JavaScript's `Math.round` over exact reals. */
module Common {

  datatype Option<+T> = None | Some(value: T)

  /** `Math.round(x)`: the nearest integer, halves rounded towards +infinity.
      Over exact reals this is the floor of `x + 0.5`, for negative inputs too. */
  function Round(x: real): (r: int)
    ensures x - 0.5 < r as real <= x + 0.5
  {
    (x + 0.5).Floor
  }

  /** Round is the unique integer within half a unit of `x`
      (ties going up): any other such integer is `Round(x)` itself. */
  lemma RoundUnique(x: real, n: int)
    requires x - 0.5 < n as real <= x + 0.5
    ensures Round(x) == n
  {
    var r := Round(x);
    assert r as real <= x + 0.5 < r as real + 1.0;
  }

  /** Rounding an integer changes nothing. */
  lemma RoundOfInt(n: int)
    ensures Round(n as real) == n
  {
    RoundUnique(n as real, n);
  }

  /** A product of two positive reals is positive. */
  lemma MulPositive(a: real, b: real)
    requires a > 0.0 && b > 0.0
    ensures a * b > 0.0
  {
  }

  /** Rounding is monotone. */
  lemma RoundMonotone(x: real, y: real)
    requires x <= y
    ensures Round(x) <= Round(y)
  {
  }
}
