/** Elementary facts about real arithmetic that the solver does not find unaided. */
module Reals {

  function Min(x: real, y: real): real {
    if x <= y then x else y
  }

  function Max(x: real, y: real): real {
    if x <= y then y else x
  }

  lemma DivMul(a: real, b: real)
    requires b != 0.0
    ensures a / b * b == a
  {
  }

  lemma MulDiv(a: real, b: real, c: real)
    requires c != 0.0
    ensures a * (b / c) == a * b / c
    ensures b / c * a == a * b / c
  {
    DivMul(b, c);
    assert a * (b / c) * c == a * (b / c * c);
    DivMul(a * b, c);
  }

  lemma MulNonNeg(a: real, b: real)
    requires a >= 0.0 && b >= 0.0
    ensures a * b >= 0.0
  {
  }

  lemma MulPos(a: real, b: real)
    requires a > 0.0 && b > 0.0
    ensures a * b > 0.0
  {
  }

  lemma MulMono(a: real, b: real, c: real)
    requires a <= b && c >= 0.0
    ensures a * c <= b * c
  {
    MulNonNeg(b - a, c);
    assert (b - a) * c == b * c - a * c;
  }

  lemma DivNonNeg(a: real, b: real)
    requires a >= 0.0 && b > 0.0
    ensures a / b >= 0.0
  {
  }

  lemma DivPos(a: real, b: real)
    requires a > 0.0 && b > 0.0
    ensures a / b > 0.0
  {
    DivNonNeg(a, b);
    DivMul(a, b);
  }

  /** Comparing a quotient with a number is comparing the products. */
  lemma DivLeIff(a: real, b: real, c: real)
    requires b > 0.0
    ensures a / b <= c <==> a <= c * b
  {
    var q := a / b;
    assert q * b == a;
    if q <= c {
      MulMono(q, c, b);
    } else {
      MulPos(q - c, b);
      assert (q - c) * b == q * b - c * b;
    }
  }

  lemma DivGeIff(a: real, b: real, c: real)
    requires b > 0.0
    ensures a / b >= c <==> a >= c * b
  {
    var q := a / b;
    assert q * b == a;
    if q >= c {
      MulMono(c, q, b);
    } else {
      MulPos(c - q, b);
      assert (c - q) * b == c * b - q * b;
    }
  }

  /** Comparing two quotients is comparing the cross products. */
  lemma DivCompare(a: real, b: real, c: real, d: real)
    requires b > 0.0 && d > 0.0
    ensures a / b <= c / d <==> a * d <= c * b
  {
    DivLeIff(a, b, c / d);
    MulDiv(b, c, d);
    DivGeIff(b * c, d, a);
  }
}
