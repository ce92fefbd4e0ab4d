/** Small facts about products and quotients of reals that the solver does not find on its own. */
module RealArith {

  /** The product p of two numbers in [0, 1] lies between 0 and the first factor. */
  lemma ScaleUnit(x: real, mult: real, p: real)
    requires 0.0 <= x <= 1.0 && 0.0 <= mult <= 1.0 && p == x * mult
    ensures 0.0 <= p <= x
  {
    MulNonneg(x, mult);
    assert x - x * mult == x * (1.0 - mult);
    MulNonneg(x, 1.0 - mult);
  }

  /** A product of non-negative numbers is non-negative. */
  lemma MulNonneg(x: real, y: real)
    requires 0.0 <= x && 0.0 <= y
    ensures 0.0 <= x * y
  {
  }

  /** Scaling by a positive factor keeps positive numbers positive and ordered. */
  lemma MulPosLess(k: real, a: real, b: real)
    requires k > 0.0 && 0.0 < a < b
    ensures 0.0 < k * a < k * b
  {
  }

  /** The reciprocal of a number above 1 lies in (0, 1). */
  lemma DivLessOne(t: real)
    requires t > 1.0
    ensures 0.0 < 1.0 / t < 1.0
  {
  }

  /** The reciprocal is antitone on positive numbers. */
  lemma DivAntitone(t1: real, t2: real)
    requires 0.0 < t1 <= t2
    ensures 1.0 / t2 <= 1.0 / t1
  {
    assert (1.0 / t2) * t2 == 1.0;
    assert (1.0 / t1) * t1 == 1.0;
    if 1.0 / t2 > 1.0 / t1 {
      MulStrictMono(1.0 / t1, 1.0 / t2, t1, t2);
    }
  }

  /** The product of positive numbers is strictly monotone when one factor grows strictly. */
  lemma MulStrictMono(a: real, b: real, x: real, y: real)
    requires 0.0 < a < b && 0.0 < x <= y
    ensures a * x < b * y
  {
    assert a * x < b * x;
    assert b * x <= b * y;
  }

  /** Scaling a non-negative number by a larger factor gives a larger product. */
  lemma ScaleLe(x: real, f: real, g: real, p: real, q: real)
    requires 0.0 <= x && f <= g && p == x * f && q == x * g
    ensures p <= q
  {
    assert q - p == x * (g - f);
    MulNonneg(x, g - f);
  }

  /** A product of positive numbers is positive. */
  lemma MulPos(x: real, y: real)
    requires x > 0.0 && y > 0.0
    ensures x * y > 0.0
  {
  }
}
