/** The inequalities behind the Newton reciprocal and the division through it. All powers of the
    base enter as integers whose products are given, so that no power is computed here. */
module RecipMath {
  import opened Arith

  /** An order between products with a common positive factor is an order between the others. */
  lemma CancelAtMost(c: int, x: int, y: int)
    requires c > 0 && c * x <= c * y
    ensures x <= y
  {
    if x > y {
      MulMonotone(c, y + 1, x);
      Distribute(c, y, 1);
    }
  }

  /** The reciprocal of the high part, times the base power below it, is close from above. */
  lemma HighReciprocal(a: int, ah: int, al: int, x: int, bl: int, b2h: int)
    requires a == al + bl * ah && 0 <= al && bl > 0 && x >= 0
    requires b2h < ah * (x + 2)
    ensures b2h * bl < a * (x + 2)
  {
    MulMonotone(bl, b2h + 1, ah * (x + 2));
    Distribute(bl, b2h, 1);
    assert bl * (ah * (x + 2)) == (bl * ah) * (x + 2);
    MulNonNegative(al, x + 2);
    assert a * (x + 2) == al * (x + 2) + (bl * ah) * (x + 2);
  }

  /** The error term t of the high half, with high part tm, times the reciprocal, whose high
      part is v: the new error, scaled by bk, is a sum of three non-negative parts. */
  lemma ErrorTerms(a: int, x1: int, t: int, tm: int, tl: int, v: int, ul: int,
                   bl: int, bk: int, b2h: int, bnh: int)
    requires t == bnh - a * x1 && t == tl + bl * tm
    requires tm * x1 == ul + bk * v
    requires bl * bk == b2h && b2h * bl == bnh
    ensures (t * bl - a * v) * bk == tl * b2h + tm * t + a * ul
  {
    calc {
      (t * bl - a * v) * bk;
      { ScaleError(t, bl, a, v, bk); }
      t * (bl * bk) - a * (bk * v);
      t * b2h - a * (tm * x1 - ul);
      { ProductError(a, tm, x1, ul); }
      t * b2h - tm * (a * x1) + a * ul;
      { SplitError(tl, bl, tm, b2h); }
      tl * b2h + tm * (b2h * bl) - tm * (a * x1) + a * ul;
      { Distribute(tm, bnh, a * x1); }
      tl * b2h + tm * t + a * ul;
    }
  }

  lemma ScaleError(t: int, bl: int, a: int, v: int, bk: int)
    ensures (t * bl - a * v) * bk == t * (bl * bk) - a * (bk * v)
  {
  }

  lemma ProductError(a: int, tm: int, x1: int, ul: int)
    ensures a * (tm * x1 - ul) == tm * (a * x1) - a * ul
  {
  }

  lemma SplitError(tl: int, bl: int, tm: int, b2h: int)
    ensures (tl + bl * tm) * b2h == tl * b2h + tm * (b2h * bl)
  {
  }

  /** The error of one Newton step stays positive and below 2a. The factor d stands for
      B^(h - l), of which only its size is needed. */
  lemma NewtonError(a: int, x1: int, t: int, tm: int, tl: int, v: int, ul: int,
                    bl: int, bh: int, bk: int, b2h: int, bn: int, bnh: int, d: int)
    requires t == bnh - a * x1 && t == tl + bl * tm && 0 <= tl < bl && tm >= 0
    requires tm * x1 == ul + bk * v && 0 <= ul < bk
    requires bl * bk == b2h && b2h * bl == bnh && bl * bh == bn && bn * bh == bnh && bk == bh * d
    requires bl > 0 && bh > 0 && bk > 0 && b2h > 0 && d >= 16
    requires bn <= 2 * a && 0 < a < bn && 0 < t < 2 * a
    ensures 0 < t * bl - a * v < 2 * a
  {
    ErrorTerms(a, x1, t, tm, tl, v, ul, bl, bk, b2h, bnh);
    ErrorPositive(t, tm, tl, bl, b2h);
    FirstTerm(a, tl, bl, bh, b2h, bn, bnh, bk, d);
    SecondTerm(a, t, tm, bl, bh, bn, bk, d);
    ErrorBounded(t * bl - a * v, a, bk, tl * b2h, tm * t, ul);
  }

  lemma ErrorBounded(e: int, a: int, bk: int, p: int, q: int, ul: int)
    requires e * bk == p + q + a * ul && p + q > 0 && 0 <= ul < bk && a > 0
    requires 8 * p <= a * bk && 4 * q <= a * bk
    ensures 0 < e < 2 * a
  {
    MulNonNegative(a, ul);
    MulMonotone(a, ul, bk);
    if e <= 0 {
      MulMonotone(bk, e, 0);
    }
    if e >= 2 * a {
      MulMonotone(bk, 2 * a, e);
    }
  }

  lemma ErrorPositive(t: int, tm: int, tl: int, bl: int, b2h: int)
    requires t == tl + bl * tm && 0 <= tl && tm >= 0 && t > 0 && b2h > 0
    ensures tl * b2h + tm * t > 0
  {
    if tm == 0 {
      MulMonotone(b2h, 1, tl);
    } else {
      MulMonotone(t, 1, tm);
      MulNonNegative(tl, b2h);
    }
  }

  lemma FirstTerm(a: int, tl: int, bl: int, bh: int, b2h: int, bn: int, bnh: int, bk: int, d: int)
    requires 0 <= tl < bl && bl > 0 && bh > 0 && b2h >= 0 && 0 < bn <= 2 * a && d >= 16
    requires b2h * bl == bnh && bn * bh == bnh && bk == bh * d
    ensures 8 * (tl * b2h) <= a * bk
  {
    MulMonotone(b2h, tl, bl);
    MulMonotone(bh, bn, 2 * a);
    assert bnh <= 2 * (a * bh);
    TimesD(a, bh, d);
  }

  lemma TimesD(a: int, bh: int, d: int)
    requires a >= 0 && bh >= 0 && d >= 16
    ensures 16 * (a * bh) <= a * (bh * d)
  {
    MulNonNegative(a, bh);
    MulMonotone(a * bh, 16, d);
    MulAssoc(a, bh, d);
  }

  lemma SecondTerm(a: int, t: int, tm: int, bl: int, bh: int, bn: int, bk: int, d: int)
    requires 0 < t < 2 * a && tm >= 0 && bl * tm <= t && bl > 0 && bh > 0 && d >= 16
    requires 0 < a < bn && bl * bh == bn && bk == bh * d
    ensures 4 * (tm * t) <= a * bk
  {
    SquareBound(a, t, bn);
    ScaledSecond(bl, tm, t, a, bh, bn);
    CancelAtMost(bl, tm * t, 4 * (a * bh));
    TimesD(a, bh, d);
  }

  lemma SquareBound(a: int, t: int, bn: int)
    requires 0 < t < 2 * a && a < bn
    ensures t * t <= 4 * (a * bn)
  {
    MulMonotone(t, t, 2 * a);
    MulMonotone(2 * a, t, 2 * a);
    MulMonotone(a, a, bn);
  }

  lemma ScaledSecond(bl: int, tm: int, t: int, a: int, bh: int, bn: int)
    requires bl * tm <= t && t > 0 && bl * bh == bn && t * t <= 4 * (a * bn)
    ensures bl * (tm * t) <= bl * (4 * (a * bh))
  {
    MulMonotone(t, bl * tm, t);
    assert t * (bl * tm) == bl * (tm * t);
    assert a * (bl * bh) == bl * (a * bh);
  }

  /** The size of a reciprocal of a normalized number. */
  lemma ReciprocalRange(a: int, x: int, bn: int)
    requires a * x < bn * bn < a * (x + 2) && bn <= 2 * a && 0 < a < bn
    ensures bn <= x < 2 * bn
  {
    if x >= 2 * bn {
      TooLarge(a, x, bn);
    }
    if x < bn {
      TooSmall(a, x, bn);
    }
  }

  lemma TooLarge(a: int, x: int, bn: int)
    requires bn <= 2 * a && 0 < a < bn && x >= 2 * bn
    ensures a * x >= bn * bn
  {
    MulMonotone(a, 2 * bn, x);
    MulMonotone(bn, bn, 2 * a);
  }

  lemma TooSmall(a: int, x: int, bn: int)
    requires 0 < a < bn && x < bn
    ensures a * (x + 2) <= bn * bn
  {
    MulMonotone(a, x + 2, bn + 1);
    MulMonotone(bn + 1, a, bn - 1);
    assert (bn + 1) * (bn - 1) == bn * bn - 1;
  }

  /** The quotient estimate q, the high part of ah * x, against the exact ah * p2n / d. */
  lemma EstimateCore(ah: int, x: int, d: int, p2n: int, ps: int, q: int)
    requires x * d <= p2n <= (x + 2) * d && d > 0 && 0 <= ah <= ps
    requires ps * q <= ah * x < ps * (q + 1)
    ensures (ps * q) * d <= ah * p2n <= (ps * (q + 3)) * d
  {
    CoreBelow(ah, x, d, p2n, ps * q);
    CoreAbove(ah, x, d, p2n, ps, ps * (q + 1));
    assert ps * (q + 3) == ps * (q + 1) + 2 * ps;
  }

  lemma CoreBelow(ah: int, x: int, d: int, p2n: int, y: int)
    requires x * d <= p2n && d > 0 && 0 <= ah && y <= ah * x
    ensures y * d <= ah * p2n
  {
    MulMonotone(d, y, ah * x);
    MulMonotone(ah, x * d, p2n);
    assert d * (ah * x) == ah * (x * d);
  }

  lemma CoreAbove(ah: int, x: int, d: int, p2n: int, ps: int, y: int)
    requires p2n <= (x + 2) * d && d > 0 && 0 <= ah <= ps && ah * x <= y
    ensures ah * p2n <= (y + 2 * ps) * d
  {
    MulMonotone(ah, p2n, (x + 2) * d);
    assert ah * ((x + 2) * d) == d * (ah * x + 2 * ah);
    MulMonotone(d, ah * x + 2 * ah, y + 2 * ps);
  }

  /** The whole divisor was inverted, shifted up by m: the quotient is at most three too small. */
  lemma ExactEstimate(a: int, ah: int, al: int, pw: int, ps: int, m: int, b: int, d: int, x: int, q: int, p2n: int)
    requires a == al + pw * ah && 0 <= al < pw && ah >= 0 && d == b * m && m >= 1 && b > 0 && d > 0
    requires p2n == ps * (pw * m) && x * d <= p2n <= (x + 2) * d && ah <= ps && ps > 0
    requires ps * q <= ah * x < ps * (q + 1)
    ensures 0 <= a - q * b < 3 * b + pw
  {
    EstimateCore(ah, x, d, p2n, ps, q);
    ExactScaled(ps, q, b, m, ah, pw);
    ExactScaled(ps, q + 3, b, m, ah, pw);
    MulNonNegative(ps - 1, m - 1);
    assert (ps - 1) * (m - 1) == ps * m - ps - m + 1;
    CancelAtMost(ps * m, q * b, pw * ah);
    CancelAtMost(ps * m, pw * ah, (q + 3) * b);
    assert (q + 3) * b == q * b + 3 * b;
  }

  lemma ExactScaled(ps: int, q: int, b: int, m: int, ah: int, pw: int)
    ensures (ps * q) * (b * m) == (ps * m) * (q * b)
    ensures ah * (ps * (pw * m)) == (ps * m) * (pw * ah)
  {
    FourFactors(ps, q, b, m);
    FourFactors(ps, ah, pw, m);
    assert ah * (ps * (pw * m)) == (ps * ah) * (pw * m);
    assert ah * pw == pw * ah;
  }

  lemma FourFactors(p: int, q: int, b: int, m: int)
    ensures (p * q) * (b * m) == (p * m) * (q * b)
  {
    calc {
      (p * q) * (b * m);
      p * (q * (b * m));
      p * (m * (q * b));
      (p * m) * (q * b);
    }
  }

  /** Only the top of the divisor was inverted, after rounding it up; m is the weight of its
      last limb in the divisor. The estimate is still never too large. */
  lemma TruncatedEstimate(a: int, ah: int, al: int, pw: int, ps: int, m: int, b: int, d: int, x: int, q: int, p2n: int)
    requires a == al + pw * ah && 0 <= al < pw && ah >= 0 && b < d * m <= b + m && m >= 1 && b > 0 && d > 0
    requires p2n * m == ps * pw && x * d <= p2n <= (x + 2) * d && ah <= ps && ps > 0 && q >= 0
    requires ps * q <= ah * x < ps * (q + 1)
    ensures 0 <= a - q * b < 3 * b + (q + 3) * m + pw
  {
    EstimateCore(ah, x, d, p2n, ps, q);
    TruncatedBounds(ah, pw, ps, m, d, q, p2n);
    RoundedDivisor(q, b, d * m, m, pw * ah);
  }

  lemma TruncatedBounds(ah: int, pw: int, ps: int, m: int, d: int, q: int, p2n: int)
    requires (ps * q) * d <= ah * p2n <= (ps * (q + 3)) * d && m >= 0 && ps > 0 && p2n * m == ps * pw
    ensures q * (d * m) <= pw * ah <= (q + 3) * (d * m)
  {
    MulMonotone(m, (ps * q) * d, ah * p2n);
    MulMonotone(m, ah * p2n, (ps * (q + 3)) * d);
    TruncatedScaled(ps, q, d, m);
    TruncatedScaled(ps, q + 3, d, m);
    ScaledDividend(m, ah, p2n, ps, pw);
    CancelAtMost(ps, q * (d * m), pw * ah);
    CancelAtMost(ps, pw * ah, (q + 3) * (d * m));
  }

  lemma ScaledDividend(m: int, ah: int, p2n: int, ps: int, pw: int)
    requires p2n * m == ps * pw
    ensures m * (ah * p2n) == ps * (pw * ah)
  {
    calc {
      m * (ah * p2n);
      ah * (p2n * m);
      ah * (ps * pw);
      ps * (pw * ah);
    }
  }

  lemma RoundedDivisor(q: int, b: int, dm: int, m: int, y: int)
    requires q >= 0 && b <= dm <= b + m && q * dm <= y <= (q + 3) * dm
    ensures q * b <= y <= q * b + 3 * b + (q + 3) * m
  {
    MulMonotone(q, b, dm);
    MulMonotone(q + 3, dm, b + m);
    Distribute(q + 3, b, m);
  }

  lemma TruncatedScaled(ps: int, q: int, d: int, m: int)
    ensures m * ((ps * q) * d) == ps * (q * (d * m))
  {
    calc {
      m * ((ps * q) * d);
      (ps * q) * (d * m);
      ps * (q * (d * m));
    }
  }
}
