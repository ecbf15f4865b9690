/** Facts about products of integers, each stated with the very products its users hold. */
module Arith {

  lemma MulAssoc(x: int, y: int, z: int)
    ensures x * y * z == x * (y * z)
  {
  }

  lemma MulMonotone(c: int, x: int, y: int)
    requires c >= 0 && x <= y
    ensures c * x <= c * y
  {
  }

  lemma MulNonNegative(x: int, y: int)
    requires x >= 0 && y >= 0
    ensures x * y >= 0
  {
  }

  lemma MulPositive(x: int, y: int)
    requires x >= 1 && y >= 1
    ensures x * y >= x && x * y >= y
  {
    MulNonNegative(x, y - 1);
    MulNonNegative(x - 1, y);
  }

  lemma MulCommutes(x: int, y: int)
    ensures x * y == y * x
  {
  }

  lemma Distribute(p: int, x: int, y: int)
    ensures p * (x + y) == p * x + p * y
    ensures p * (x - y) == p * x - p * y
  {
  }

  /** x + y + k == a + b * k2, scaled by p. */
  lemma ScaleSum(p: int, b: int, x: int, y: int, k: int, a: int, k2: int)
    requires x + y + k == a + b * k2
    ensures p * x + p * y + p * k == p * a + b * p * k2
  {
    calc {
      p * x + p * y + p * k;
      p * (x + y + k);
      p * (a + b * k2);
      p * a + p * (b * k2);
      p * a + b * p * k2;
    }
  }

  /** x - y - k == a - b * k2, scaled by p. */
  lemma ScaleDifference(p: int, b: int, x: int, y: int, k: int, a: int, k2: int)
    requires x - y - k == a - b * k2
    ensures p * x - p * y - p * k == p * a - b * p * k2
  {
    calc {
      p * x - p * y - p * k;
      p * (x - y - k);
      p * (a - b * k2);
      p * a - p * (b * k2);
      p * a - b * p * k2;
    }
  }

  lemma ExtendTimes(v: int, p: int, x: int, b: int)
    ensures (v + p * x) * b == v * b + p * (x * b)
  {
    assert (v + p * x) * b == v * b + (p * x) * b;
    MulAssoc(p, x, b);
  }
}
