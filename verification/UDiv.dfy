/** Division of two limbs by a normalized limb through its precomputed inverse, and the
    division of a run of limbs by one limb. */
module UDiv {
  import opened Arith
  import opened Limbs
  import opened LimbOps

  const UDIV1NORM_THRESHOLD: nat := 3

  /** The inverse of a normalized divisor: floor((B^2 - 1) / d) - B. */
  function UDiv1NormInit(d: Limb): (v: Limb)
    requires d >= HALF
    ensures 0 < B * B - (B + v) * d <= d
  {
    var a1, a0 := Wrap(0 - d - 1), B - 1;
    InverseFits(d, (a1 * B + a0) / d);
    Wrap((a1 * B + a0) / d)
  }

  lemma InverseFits(d: Limb, q: int)
    requires d >= HALF && q == ((B - 1 - d) * B + (B - 1)) / d
    ensures 0 <= q < B
    ensures 0 < B * B - (B + q) * d <= d
  {
    Division((B - 1 - d) * B + (B - 1), d, q);
    Distribute(d, B, q);
    if q >= B {
      MulMonotone(d, B, q);
    }
  }

  lemma Division(n: int, d: int, q: int)
    requires n >= 0 && d > 0 && q == n / d
    ensures q >= 0 && q * d <= n < q * d + d
  {
    assert n == d * q + n % d;
  }

  /** `m & d` for a mask m of all zeros or all ones. */
  function Masked(m: Limb, d: Limb): Limb
    requires m == 0 || m == B - 1
  {
    if m == 0 then 0 else d
  }

  /** All ones when the high bit of `a0` is set: the sign of `a0` spread over the limb. */
  function SignMask(a0: Limb): Limb {
    if a0 >= HALF then B - 1 else 0
  }

  /** n_adj: `a0`, plus `d` modulo B when the high bit of `a0` is set. */
  function Adjusted(a0: Limb, d: Limb): (x: Limb)
    requires HALF <= d
    ensures x == if a0 >= HALF then a0 + d - B else a0
  {
    Wrap(a0 + Masked(SignMask(a0), d))
  }

  /** The high dividend limb minus the mask, that is, plus one when the mask is all ones. */
  function Bumped(a1: Limb, a0: Limb): (c: Limb)
    requires a1 < B - 1
    ensures c == if a0 >= HALF then a1 + 1 else a1
  {
    Wrap(a1 - SignMask(a0))
  }

  /** The double limb whose high limb is the trial quotient, up to a1. */
  function TrialSum(a1: Limb, a0: Limb, d: Limb, v: Limb): int
    requires HALF <= d && a1 < d
  {
    v * Bumped(a1, a0) + Adjusted(a0, d)
  }

  /** Quotient and remainder of a1 * B + a0 by d. */
  method UDiv1Norm(a1: Limb, a0: Limb, d: Limb, dInv: Limb) returns (q: Limb, r: Limb)
    requires HALF <= d && a1 < d && dInv == UDiv1NormInit(d)
    ensures a1 * B + a0 == q * d + r && r < d
  {
    hide UDiv1NormInit, TrialSum;
    TrialQuotient(a1, a0, d, dInv);
    q := Wrap(TrialSum(a1, a0, d, dInv) / B + a1);
    q, r := Corrected(a1 * B + a0, q, d);
  }

  /** Subtracts q * d and then d in wrapping double limbs, and takes the last subtraction
      back when the high limb shows that it went below zero. */
  method Corrected(n: int, q0: Limb, d: Limb) returns (q: Limb, r: Limb)
    requires HALF <= d && 0 <= n < d * B && 0 <= n - q0 * d < 2 * d
    ensures n == q * d + r && r < d
  {
    var a := (n - q0 * d - d) % (B * B);
    var e := n - q0 * d;
    NextQuotient(n, q0, d);
    assert a == if e >= d then e - d else B * B + e - d;
    var ah := a / B;
    r := Wrap(Wrap(a) + Masked(ah, d));
    q := Wrap(q0 + 1 + ah);
    assert (q0 + 1) * d == q0 * d + d;
  }

  lemma NextQuotient(n: int, q: Limb, d: Limb)
    requires d > 0 && n < d * B
    ensures n - q * d >= d ==> q + 1 < B
  {
    if q == B - 1 {
      assert q * d == d * B - d;
    }
  }

  /** The trial quotient is the quotient or one less. */
  lemma TrialQuotient(a1: Limb, a0: Limb, d: Limb, v: Limb)
    requires HALF <= d && a1 < d
    requires 0 < B * B - (B + v) * d <= d
    ensures var q1 := TrialSum(a1, a0, d, v) / B + a1;
      0 <= q1 < B && 0 <= a1 * B + a0 - q1 * d < 2 * d
  {
    hide TrialSum;
    var t := TrialSum(a1, a0, d, v) + a1 * B;
    Distribute(d, B, v);
    TrialGap(a1, a0, d, v, B * B - B * d - v * d);
    FloorQuotient(a1 * B + a0, t, d);
  }

  /** The trial sum, with the high dividend limb added to its high limb, falls short of the
      dividend times B / d by at most B. */
  lemma TrialGap(a1: Limb, a0: Limb, d: Limb, v: Limb, k: int)
    requires HALF <= d && a1 < d && 0 < k <= d
    requires v * d == B * B - B * d - k
    ensures var t := TrialSum(a1, a0, d, v) + a1 * B;
      t >= 0 && 0 <= (a1 * B + a0) * B - t * d <= d * B
  {
    var n1, e := if a0 >= HALF then 1 else 0, B - d;
    var c := a1 + n1;
    MulNonNegative(v, c);
    assert TrialSum(a1, a0, d, v) == v * c + (a0 - n1 * e);
    ScaledTrial(v, c, a0 - n1 * e, a1, d, k);
    assert n1 * e * d == if n1 == 1 then e * d else 0;
    Gap(a0 - n1 * e, c, d, k, n1);
  }

  lemma ScaledTrial(v: int, c: int, x: int, a1: int, d: int, k: int)
    requires v * d == B * B - B * d - k
    ensures (v * c + x + a1 * B) * d == B * B * c - B * (d * (c - a1)) - k * c + x * d
  {
    calc {
      (v * c + x + a1 * B) * d;
      (v * d) * c + x * d + B * (a1 * d);
      (B * B - B * d - k) * c + x * d + B * (a1 * d);
      B * B * c - B * (d * c) - k * c + x * d + B * (a1 * d);
    }
    Distribute(d, c, a1);
  }

  /** The gap is x * (B - d) + k * c. */
  lemma Gap(x: int, c: int, d: Limb, k: int, n1: int)
    requires HALF <= d && 0 < k <= d && (n1 == 0 || n1 == 1)
    requires 0 <= c <= d - 1 + n1
    requires 0 <= x && (if n1 == 0 then x <= HALF else x <= d - 1)
    ensures 0 <= x * B - x * d + k * c <= d * B - (if n1 == 1 then B - d else 0)
  {
    var e := B - d;
    MulNonNegative(x, e);
    MulNonNegative(k, c);
    MulMonotone(c, k, d);
    MulMonotone(d, c, d - 1 + n1);
    assert x * e == x * B - x * d;
    if n1 == 0 {
      MulMonotone(e, x, HALF);
      MulNonNegative(d - HALF, e);
      assert (d - HALF) * e == d * B - d * d - HALF * B + HALF * d;
      assert d * (d - 1) == d * d - d;
    } else {
      MulMonotone(e, x, d - 1);
      assert e * (d - 1) == d * B - d * d - e;
    }
  }

  /** From a scaled bound on n - t * d / B to one on the floored quotient. */
  lemma FloorQuotient(n: int, t: int, d: Limb)
    requires HALF <= d && 0 <= n < d * B && t >= 0
    requires 0 <= n * B - t * d <= d * B
    ensures 0 <= t / B < B && 0 <= n - t / B * d < 2 * d
  {
    var q, e := t / B, t % B;
    assert t * d == B * (q * d) + e * d by {
      assert t == B * q + e;
      assert (B * q + e) * d == B * (q * d) + e * d;
    }
    MulNonNegative(e, d);
    MulMonotone(d, e, B - 1);
    if q >= B {
      MulMonotone(d, B, q);
    }
  }

  /** Quotient and remainder of two limbs, with or without the precomputed inverse. */
  method DivTwo(r0: Limb, a: Limb, b: Limb, useInverse: bool, bInv: Limb) returns (q: Limb, r: Limb)
    requires b >= HALF && r0 < b
    requires useInverse ==> bInv == UDiv1NormInit(b)
    ensures r0 * B + a == q * b + r && r < b
  {
    hide UDiv1NormInit;
    if useInverse {
      q, r := UDiv1Norm(r0, a, b, bInv);
    } else {
      var a1 := r0 * B + a;
      PlainQuotient(a1, b);
      q, r := Wrap(a1 / b), Wrap(a1 % b);
    }
  }

  lemma PlainQuotient(n: int, b: Limb)
    requires b > 0 && 0 <= n < b * B
    ensures 0 <= n / b < B && n == n / b * b + n % b
  {
    var q := n / b;
    Division(n, b, q);
    if q >= B {
      MulMonotone(b, B, q);
    }
  }

  lemma QuotientArith(d: int, v: int, p: int, high: int, b: int, r: int, q: int, r2: int, x: int)
    requires d * b + r == v + p * high && r * B + x == q * b + r2
    ensures (q + B * d) * b + r2 == (x + B * v) + B * p * high
  {
    assert (q + B * d) * b == q * b + B * (d * b);
    assert B * p * high == B * (p * high);
  }

  /** tabr = (taba + r * B^n) / b; returns the remainder. */
  method MpDiv1Norm(tabr: array<Limb>, ro: nat, taba: array<Limb>, ao: nat, n: nat, b: Limb, r: Limb)
    returns (rem: Limb)
    requires Fits(tabr, ro, n) && Fits(taba, ao, n) && SameOrApart(tabr, ro, taba, ao, n)
    requires b >= HALF && r < b
    modifies tabr
    ensures OnlyChanges(tabr, ro, n)
    ensures Val(tabr[ro..ro + n]) * b + rem == old(Val(taba[ao..ao + n])) + Pow(n) * r
    ensures rem < b
  {
    hide Val, Pow, UDiv1NormInit;
    ghost var s := taba[ao..ao + n];
    ghost var done: seq<Limb> := [];
    ValNil();
    var useInverse := n >= UDIV1NORM_THRESHOLD;
    var bInv: Limb := if useInverse then UDiv1NormInit(b) else 0;
    rem := r;
    var i := n;
    assert s[n..] == [];
    while i > 0
      invariant 0 <= i <= n && rem < b && |done| == n - i
      invariant forall j :: 0 <= j < tabr.Length && !(ro + i <= j < ro + n) ==> tabr[j] == old(tabr[j])
      invariant forall j :: ro + i <= j < ro + n ==> tabr[j] == done[j - (ro + i)]
      invariant forall j :: 0 <= j < i ==> taba[ao + j] == s[j]
      invariant Val(done) * b + rem == Val(s[i..]) + Pow(n - i) * r
    {
      i := i - 1;
      var q, r2 := DivTwo(rem, taba[ao + i], b, useInverse, bInv);
      ValCons(q, done);
      ValCons(s[i], s[i + 1..]);
      assert s[i..] == [s[i]] + s[i + 1..];
      PowStep(|done|);
      QuotientArith(Val(done), Val(s[i + 1..]), Pow(|done|), r, b, rem, q, r2, s[i]);
      tabr[ro + i] := q;
      rem := r2;
      done := [q] + done;
    }
    assert s[0..] == s;
    assert tabr[ro..ro + n] == done;
  }
}
