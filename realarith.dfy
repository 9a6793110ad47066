/** Small facts about real multiplication that the solver does not find
    on its own inside larger nonlinear goals. */
module RealArith {

  /** A product of two non-negative reals is non-negative. */
  lemma MulNonNegative(x: real, y: real)
    requires x >= 0.0 && y >= 0.0
    ensures x * y >= 0.0
  {
  }

  /** A product of two positive reals is positive. */
  lemma MulPositive(x: real, y: real)
    requires x > 0.0 && y > 0.0
    ensures x * y > 0.0
  {
  }

  /** For a positive divisor, the quotient reaches 1 exactly when the
      dividend reaches the divisor. */
  lemma QuotientAtLeastOne(a: real, b: real)
    requires b > 0.0
    ensures a / b >= 1.0 <==> a >= b
  {
    var q := a / b;
    assert b * q == a;
    if q >= 1.0 {
      MulNonNegative(b, q - 1.0);
      var p := b * (q - 1.0);
      assert p == a - b;
    } else {
      MulPositive(b, 1.0 - q);
      var p := b * (1.0 - q);
      assert p == b - a;
    }
  }
}
