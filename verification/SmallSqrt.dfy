/** Square roots of one and two limbs, by refinement of a table entry. */
module SmallSqrt {
  import opened Arith
  import opened Limbs
  import opened LimbOps
  import opened SqrtTable

  /** `s` is the integer square root of `a`, with remainder `r`. */
  predicate IsRoot(a: int, s: int, r: int) {
    s >= 0 && a == s * s + r && 0 <= r <= 2 * s
  }

  /** An integer square root is unique. */
  lemma RootIsUnique(a: int, s: int, r: int, t: int, q: int)
    requires IsRoot(a, s, r) && IsRoot(a, t, q)
    ensures s == t && r == q
  {
    if s < t {
      RootBelow(a, s, r, t, q);
    } else if t < s {
      RootBelow(a, t, q, s, r);
    }
  }

  lemma RootBelow(a: int, s: int, r: int, t: int, q: int)
    requires IsRoot(a, s, r) && IsRoot(a, t, q)
    ensures t <= s
  {
    SquareOfSum(s, 1);
    if s + 1 <= t {
      MulMonotone(t, s + 1, t);
      MulMonotone(s + 1, s + 1, t);
    }
  }

  /** `s` is the integer square root of `a` when `e` is not negative, and one more otherwise. */
  predicate NearRoot(a: int, s: int, e: int) {
    a == s * s + e && e <= 2 * s && 0 <= e + 2 * s - 1
  }

  lemma NearIsRoot(a: int, s: int, e: int)
    requires NearRoot(a, s, e)
    ensures e >= 0 ==> IsRoot(a, s, e)
    ensures e < 0 ==> IsRoot(a, s - 1, e + 2 * s - 1)
  {
    SquareOfSum(s, -1);
  }

  /** The root of the high part, beta * s1 + q with q the quotient of the next digit by 2 * s1,
      is the root of the whole or one more. */
  lemma RootStep(a1: int, s1: int, r1: int, beta: int, x: int, y: int, q: int, u: int)
    requires IsRoot(a1, s1, r1) && 0 < beta <= 2 * s1 && 0 <= x < beta && 0 <= y < beta && q >= 0
    requires r1 * beta + x == 2 * s1 * q + u && 0 <= u < 2 * s1
    ensures NearRoot((a1 * beta + x) * beta + y, s1 * beta + q, u * beta + y - q * q)
    ensures q <= beta && (q == beta ==> u * beta + y - q * q < 0)
  {
    QuotientAtMost(s1, r1, beta, x, q, u);
    RootSquare(a1, s1, r1, beta, x, y, q, u);
    RootAbove(s1, beta, y, q, u);
    RootBelowBound(s1, beta, y, q, u);
    if q == beta {
      FullQuotient(s1, r1, beta, x, y, u);
    }
  }

  lemma FullQuotient(s1: int, r1: int, beta: int, x: int, y: int, u: int)
    requires r1 <= 2 * s1 && 0 <= x < beta && 0 <= y < beta
    requires r1 * beta + x == 2 * s1 * beta + u
    ensures u * beta + y - beta * beta < 0
  {
    MulMonotone(beta, r1, 2 * s1);
    MulMonotone(beta, u, beta - 1);
  }

  lemma RootSquare(a1: int, s1: int, r1: int, beta: int, x: int, y: int, q: int, u: int)
    requires a1 == s1 * s1 + r1 && r1 * beta + x == 2 * s1 * q + u
    ensures (a1 * beta + x) * beta + y == (s1 * beta + q) * (s1 * beta + q) + (u * beta + y - q * q)
  {
    var b := s1 * beta;
    calc {
      (a1 * beta + x) * beta;
      { assert a1 * beta == s1 * s1 * beta + r1 * beta; }
      (s1 * s1 * beta + (2 * s1 * q + u)) * beta;
      { Spread(s1, beta, q, u); }
      b * b + 2 * (b * q) + u * beta;
    }
    SquareOfSum(b, q);
  }

  lemma Spread(s1: int, beta: int, q: int, u: int)
    ensures (s1 * s1 * beta + (2 * s1 * q + u)) * beta == (s1 * beta) * (s1 * beta) + 2 * ((s1 * beta) * q) + u * beta
  {
  }

  lemma SquareOfSum(b: int, q: int)
    ensures (b + q) * (b + q) == b * b + 2 * (b * q) + q * q
  {
  }

  lemma QuotientAtMost(s1: int, r1: int, beta: int, x: int, q: int, u: int)
    requires 0 <= r1 <= 2 * s1 && 0 < beta <= 2 * s1 && 0 <= x < beta && u >= 0
    requires r1 * beta + x == 2 * s1 * q + u
    ensures q <= beta
  {
    MulMonotone(beta, r1, 2 * s1);
    if q > beta {
      MulMonotone(2 * s1, beta + 1, q);
    }
  }

  lemma RootAbove(s1: int, beta: int, y: int, q: int, u: int)
    requires 0 < beta && 0 <= y < beta && 0 <= q && u <= 2 * s1 - 1
    ensures u * beta + y - q * q <= 2 * (s1 * beta + q)
  {
    MulMonotone(beta, u, 2 * s1 - 1);
    MulNonNegative(q, q);
  }

  lemma RootBelowBound(s1: int, beta: int, y: int, q: int, u: int)
    requires 0 < beta <= 2 * s1 && 0 <= y && 0 <= q <= beta && 0 <= u
    ensures u * beta + y - q * q + 2 * (s1 * beta + q) - 1 >= 0
  {
    MulNonNegative(u, beta);
    MulAssoc(2, s1, beta);
    SquareBelow(q, beta, 2 * s1);
  }

  lemma SquareBelow(q: int, beta: int, d: int)
    requires 0 < beta <= d && 0 <= q <= beta
    ensures q * q - 2 * q + 1 <= d * beta
  {
    MulMonotone(q, q, beta);
    MulMonotone(beta, q, beta);
    MulMonotone(beta, beta, d);
    MulMonotone(beta, 1, beta);
  }

  /** Quotient and remainder of natural numbers. */
  function QuotRem(n: int, d: int): (r: (int, int))
    requires n >= 0 && d > 0
    ensures n == d * r.0 + r.1 && 0 <= r.1 < d && r.0 >= 0
  {
    (n / d, n % d)
  }

  /** One refinement in single limbs: the root of (a1 * beta + x) * beta + y. */
  method RefineRoot(s1: Limb, r1: Limb, x: Limb, y: Limb, beta: Limb, ghost a1: int) returns (s: Limb, r: Limb)
    requires IsRoot(a1, s1, r1) && 256 <= beta <= 0x1_0000 && beta <= 2 * s1 && s1 < beta && x < beta && y < beta
    ensures IsRoot((a1 * beta + x) * beta + y, s, r)
  {
    hide QuotRem, NearRoot;
    SmallProduct(r1, beta);
    var num: Limb := r1 * beta + x;
    var qu := QuotRem(num, 2 * s1);
    hide IsRoot;
    RootStep(a1, s1, r1, beta, x, y, qu.0, qu.1);
    s, r := FinishRoot(s1, qu.0, qu.1, y, beta, (a1 * beta + x) * beta + y);
  }

  lemma SmallProduct(r: int, beta: int)
    requires 0 <= r <= 0x2_0000 && 0 <= beta <= 0x1_0000
    ensures 0 <= r * beta <= 0x2_0000_0000
  {
    MulMonotone(beta, r, 0x2_0000);
    MulNonNegative(r, beta);
  }

  /** Forms the root and its remainder, and lowers the root by one when the remainder, computed
      in a limb that wraps, shows as negative. */
  method FinishRoot(s1: Limb, q: Limb, u: Limb, y: Limb, beta: Limb, ghost a: int) returns (s: Limb, r: Limb)
    requires s1 < beta <= 0x1_0000 && q <= beta && u < 2 * s1 && y < beta
    requires NearRoot(a, s1 * beta + q, u * beta + y - q * q)
    ensures IsRoot(a, s, r)
  {
    hide IsRoot, NearRoot;
    SmallProduct(s1, beta);
    SmallProduct(u, beta);
    SmallProduct(q, q);
    s, r := AdjustRoot(s1 * beta + q, u * beta + y - q * q, a);
  }

  /** The remainder is kept in a limb, where a negative one shows by its high bit. */
  method AdjustRoot(s0: Limb, e: int, ghost a: int) returns (s: Limb, r: Limb)
    requires NearRoot(a, s0, e) && s0 < 0x4_0000_0000 && -0x4_0000_0000 < e < 0x4_0000_0000
    ensures IsRoot(a, s, r)
  {
    hide IsRoot, NearRoot;
    NearIsRoot(a, s0, e);
    NearSize(a, s0, e);
    s, r := s0, Wrap(e);
    if r >= HALF {
      s := s - 1;
      r := Wrap(r as int + 2 * s + 1);
    }
  }

  lemma NearSize(a: int, s: int, e: int)
    requires NearRoot(a, s, e)
    ensures e < 0 ==> s >= 1
  {
  }

  /** The 16-bit root: the table entry or the next number. */
  method TableRoot16(a16: Limb) returns (s1: Limb, r1: Limb)
    requires 0x4000 <= a16 < 0x1_0000
    ensures IsRoot(a16, s1, r1) && 128 <= s1 < 256
  {
    s1 := TableRoot(a16 / 256);
    SquareOfSum(s1, 1);
    SquareOfSum(s1, 2);
    SmallProduct(s1, s1);
    r1 := a16 - s1 * s1;
    if r1 > 2 * s1 {
      r1 := r1 - (2 * s1 + 1);
      s1 := s1 + 1;
    }
    RootBelowLimit(a16, s1, r1, 256);
  }

  lemma RootBelowLimit(a: int, s: int, r: int, c: int)
    requires IsRoot(a, s, r) && c >= 0 && a < c * c
    ensures s < c
  {
    if s >= c {
      MulMonotone(s, c, s);
      MulMonotone(c, c, s);
    }
  }

  /** floor(sqrt(a)) and the remainder for a limb of at least B / 4. */
  method MpSqrtrem1(a: Limb) returns (s: Limb, r: Limb)
    requires a >= B / 4
    ensures IsRoot(a, s, r) && 0x8000_0000 <= s < 0x1_0000_0000
  {
    hide IsRoot;
    HighDigits(a);
    LowDigits(a);
    var a32 := a / 0x1_0000_0000;
    s, r := HighRoot(a);
    RootAtLeast(a32, s, r, 0x8000);
    RootBelowLimit(a32, s, r, 0x1_0000);
    s, r := RefineRoot(s, r, a / 0x1_0000 % 0x1_0000, a % 0x1_0000, 0x1_0000, a32);
    RootAtLeast(a, s, r, 0x8000_0000);
    RootBelowLimit(a, s, r, 0x1_0000_0000);
  }

  /** The root of the high half of a limb: the table and one refinement. */
  method HighRoot(a: Limb) returns (s: Limb, r: Limb)
    requires a >= B / 4
    ensures IsRoot(a / 0x1_0000_0000, s, r)
  {
    hide IsRoot;
    HighDigits(a);
    var a16 := a / 0x1_0000_0000_0000;
    s, r := TableRoot16(a16);
    s, r := RefineRoot(s, r, a / 0x100_0000_0000 % 256, a / 0x1_0000_0000 % 256, 256, a16);
  }

  lemma HighDigits(a: Limb)
    ensures a / 0x1_0000_0000
         == (a / 0x1_0000_0000_0000 * 256 + a / 0x100_0000_0000 % 256) * 256 + a / 0x1_0000_0000 % 256
    ensures a >= B / 4 ==> 0x4000 <= a / 0x1_0000_0000_0000 && 0x4000_0000 <= a / 0x1_0000_0000
    ensures a / 0x1_0000_0000_0000 < 0x1_0000 && a / 0x1_0000_0000 < 0x1_0000_0000
  {
    var c := a / 0x1_0000_0000;
    assert a / 0x100_0000_0000 == c / 256;
    assert a / 0x1_0000_0000_0000 == c / 256 / 256;
  }

  lemma LowDigits(a: Limb)
    ensures a == (a / 0x1_0000_0000 * 0x1_0000 + a / 0x1_0000 % 0x1_0000) * 0x1_0000 + a % 0x1_0000
  {
  }

  lemma RootAtLeast(a: int, s: int, r: int, c: int)
    requires IsRoot(a, s, r) && c >= 0 && a >= c * c
    ensures s >= c
  {
    SquareOfSum(s, 1);
    if s + 1 <= c {
      MulMonotone(c, s + 1, c);
      MulMonotone(s + 1, s + 1, c);
    }
  }

  const HALF_BASE: int := 0x1_0000_0000

  /** The root of two limbs from the root of the high one, in double limbs that wrap. The root and
      the low limb of its remainder are stored; the high limb of the remainder is returned. */
  method MpSqrtrem2(tabs: array<Limb>, so: nat, taba: array<Limb>, ao: nat) returns (rh: Limb)
    requires tabs != taba && Fits(tabs, so, 1) && Fits(taba, ao, 2) && taba[ao + 1] >= B / 4
    modifies tabs, taba
    ensures OnlyChanges(tabs, so, 1) && OnlyChanges(taba, ao, 1)
    ensures IsRoot(old(taba[ao]) + B * old(taba[ao + 1]), tabs[so], taba[ao] + B * rh) && rh <= 1
  {
    hide IsRoot, NearRoot, QuotRem;
    var a0, a1 := taba[ao], taba[ao + 1];
    var s1, r1 := MpSqrtrem1(a1);
    RootRange(a1, s1, r1);
    var num := r1 * HALF_BASE + a0 / HALF_BASE;
    var qu := QuotRem(num, 2 * s1);
    var y := a0 % HALF_BASE;
    ghost var a := a0 + B * a1;
    assert (a1 * HALF_BASE + a0 / HALF_BASE) * HALF_BASE + y == a;
    RootStep(a1, s1, r1, HALF_BASE, a0 / HALF_BASE, y, qu.0, qu.1);
    var s, r := FinishRoot2(s1, qu.0, qu.1, y, a);
    tabs[so] := s;
    taba[ao] := Wrap(r);
    rh := r / B;
  }

  lemma RootRange(a: int, s: int, r: int)
    requires IsRoot(a, s, r)
    ensures 0 <= r <= 2 * s
  {
  }

  method FinishRoot2(s1: Limb, q: int, u: int, y: int, ghost a: int) returns (s: Limb, r: int)
    requires s1 < HALF_BASE && 0 <= q <= HALF_BASE && 0 <= u < 2 * s1 && 0 <= y < HALF_BASE
    requires NearRoot(a, s1 * HALF_BASE + q, u * HALF_BASE + y - q * q) && 0 <= a < B * B
    ensures IsRoot(a, s, r) && 0 <= r < 2 * B
  {
    hide IsRoot, NearRoot;
    SquareSize(q);
    var t := u * HALF_BASE + y;
    var square := if q / HALF_BASE != 0 then B else q * q;
    assert square == q * q;
    s, r := AdjustRoot2(s1 * HALF_BASE + q, t - square, a);
  }

  lemma SquareSize(q: int)
    requires 0 <= q <= HALF_BASE
    ensures 0 <= q * q <= B && (q == HALF_BASE ==> q * q == B)
  {
    MulMonotone(q, q, HALF_BASE);
    MulNonNegative(q, q);
  }

  /** The root, which may be B before it is lowered, is kept in a limb, its remainder in two. */
  method AdjustRoot2(s0: int, e: int, ghost a: int) returns (s: Limb, r: int)
    requires NearRoot(a, s0, e) && 0 <= s0 <= B && -B <= e < 4 * B && 0 <= a < B * B
    ensures IsRoot(a, s, r) && 0 <= r < 2 * B
  {
    hide IsRoot, NearRoot, Wrap;
    s, r := Wrap(s0), e % (B * B);
    if e >= 0 { KeptRoot(a, s0, e); } else { LoweredRoot(a, s0, e); }
    if r / B >= HALF {
      s := Wrap(s as int - 1);
      r := (r + 2 * s + 1) % (B * B);
    }
  }

  lemma KeptRoot(a: int, s0: int, e: int)
    requires NearRoot(a, s0, e) && 0 <= s0 <= B && 0 <= e < 4 * B && 0 <= a < B * B
    ensures Wrap(s0) == s0 && e % (B * B) == e && e / B < HALF && IsRoot(a, s0, e) && 0 <= e < 2 * B
  {
    hide IsRoot, NearRoot;
    NearIsRoot(a, s0, e);
    RootBelowLimit(a, s0, e, B);
    RootRange(a, s0, e);
    DoubleWrap(e);
  }

  lemma LoweredRoot(a: int, s0: int, e: int)
    requires NearRoot(a, s0, e) && 0 <= s0 <= B && -B <= e < 0 && 0 <= a < B * B
    ensures e % (B * B) / B >= HALF && Wrap(Wrap(s0) as int - 1) == s0 - 1
    ensures (e % (B * B) + 2 * (s0 - 1) + 1) % (B * B) == e + 2 * s0 - 1
    ensures IsRoot(a, s0 - 1, e + 2 * s0 - 1) && 0 <= e + 2 * s0 - 1 < 2 * B
  {
    hide IsRoot, NearRoot;
    NearIsRoot(a, s0, e);
    NearSize(a, s0, e);
    RootRange(a, s0 - 1, e + 2 * s0 - 1);
    DoubleWrap(e);
    DoubleUnwrap(e + 2 * s0 - 1);
    assert e % (B * B) + 2 * (s0 - 1) + 1 == (e + 2 * s0 - 1) + B * B;
  }

  lemma DoubleWrap(e: int)
    requires -B <= e < 4 * B
    ensures if e >= 0 then e % (B * B) == e && e / B < HALF else e % (B * B) == e + B * B && (e + B * B) / B >= HALF
  {
  }

  lemma DoubleUnwrap(x: int)
    requires 0 <= x < 4 * B
    ensures (x + B * B) % (B * B) == x
  {
  }
}
