/**
 * Python numeric built-ins used by the scripts: `abs` and `int()` applied to a
 * float. Python floats are modelled as exact reals.
 */
module PyNum {

  /** `abs` on integers. */
  function Abs(x: int): (r: nat)
    ensures r == x || r == -x
  {
    if x < 0 then -x else x
  }

  /** `abs` on floats. */
  function AbsReal(x: real): (r: real)
    ensures r >= 0.0 && (r == x || r == -x)
  {
    if x < 0.0 then -x else x
  }

  /** `int(x)` for a float `x`: truncation toward zero. */
  function Trunc(x: real): (r: int)
    ensures AbsReal(x - r as real) < 1.0
    ensures AbsReal(r as real) <= AbsReal(x)
    ensures x >= 0.0 ==> r >= 0
  {
    if x >= 0.0 then x.Floor else -((-x).Floor)
  }

  /** `(a + b) / 2` with Python true division: the float midpoint of two ints. */
  function Midpoint(a: int, b: int): (m: real)
    ensures m - a as real == b as real - m
    ensures a <= b ==> a as real <= m <= b as real
  {
    (a + b) as real / 2.0
  }

  /**
   * For a non-negative sum, truncating the true half equals Dafny's integer
   * division by two, and the result lies between the two operands.
   */
  lemma TruncHalf(a: int, b: int)
    requires a + b >= 0
    ensures Trunc(Midpoint(a, b)) == (a + b) / 2
    ensures a <= b ==> a <= Trunc(Midpoint(a, b)) <= b
  {
    var q := (a + b) / 2;
    assert q as real <= Midpoint(a, b) < q as real + 1.0;
  }
}
