/** Schoolbook division of runs of limbs by a normalized divisor. */
module LongDiv {
  import opened Arith
  import opened Limbs
  import opened LimbOps
  import opened UDiv

  /** The top limb of the n limbs at a+o has its high bit set. */
  predicate Normalized(a: array<Limb>, o: int, n: int)
    reads a
  {
    n >= 1 && Fits(a, o, n) && a[o + n - 1] >= HALF
  }

  /** A quotient digit that is never too small: the two top limbs of the remainder by the
      top limb of the divisor. */
  method EstimateDigit(a1: Limb, a0: Limb, b1: Limb, useInverse: bool, bInv: Limb) returns (q: Limb)
    requires b1 >= HALF && (useInverse ==> bInv == UDiv1NormInit(b1))
    ensures q == B - 1 || a1 * B + a0 < (q + 1) * b1
  {
    hide UDiv1NormInit;
    if a1 >= b1 {
      q := B - 1;
    } else {
      var dummy;
      q, dummy := DivTwo(a1, a0, b1, useInverse, bInv);
      assert (q + 1) * b1 == q * b1 + b1;
    }
  }

  /** Subtracting an estimated digit times the divisor leaves less than the divisor. */
  lemma EstimateNotTooSmall(v: int, low: int, top: int, p: int, d: int, dLow: int, b1: int, q: int)
    requires v == low + p * top && 0 <= low < p
    requires d == dLow + p * b1 && 0 <= dLow
    requires 0 <= q <= B - 1 && v < B * d
    requires q == B - 1 || top < (q + 1) * b1
    ensures v - q * d < d
  {
    assert (q + 1) * d == q * d + d;
    if q < B - 1 {
      MulMonotone(p, top + 1, (q + 1) * b1);
      assert (q + 1) * (p * b1) == p * ((q + 1) * b1);
      Distribute(q + 1, dLow, p * b1);
      MulNonNegative(q + 1, dLow);
    }
  }

  /** The bound of the running remainder, once the next limb x is taken in. */
  lemma RemainderBound(x: Limb, v: int, d: int)
    requires 0 <= v < d
    ensures 0 <= x + B * v < B * d
  {
  }

  /** The two top limbs of `s` and the top limb of `d`, with the rest below weight p. */
  lemma TopLimbs(s: seq<Limb>, d: seq<Limb>, p: int)
    requires |s| == |d| + 1 >= 3 && p == Pow(|d| - 1)
    ensures Val(s) == Val(s[..|d| - 1]) + p * (s[|d|] * B + s[|d| - 1]) && 0 <= Val(s[..|d| - 1]) < p
    ensures Val(d) == Val(d[..|d| - 1]) + p * d[|d| - 1] && 0 <= Val(d[..|d| - 1])
  {
    hide Val, Pow;
    var n := |d| - 1;
    ValExtend(s, n);
    ValExtend(s, n + 1);
    ValExtend(d, n);
    ValBound(s[..n]);
    ValBound(d[..n]);
    assert s[..n + 2] == s && d[..n + 1] == d;
    PowStep(n);
    TwoLimbs(p, s[n + 1], s[n]);
  }

  lemma TwoLimbs(p: int, hi: int, lo: int)
    ensures p * lo + B * p * hi == p * (hi * B + lo)
  {
  }

  /** Adds the divisor back until the carry out of the low limbs turns the high limb, which
      holds a negative number, to zero. */
  method AddBack(taba: array<Limb>, o: nat, tabb: array<Limb>, bo: nat, nb: nat, q0: Limb, ghost v: int)
    returns (q: Limb)
    requires taba != tabb && Fits(taba, o, nb + 1) && Fits(tabb, bo, nb)
    requires v >= 0 && v - q0 * Val(tabb[bo..bo + nb]) < 0
    requires v - q0 * Val(tabb[bo..bo + nb]) == Val(taba[o..o + nb]) + Pow(nb) * (taba[o + nb] - B)
    modifies taba
    ensures OnlyChanges(taba, o, nb + 1)
    ensures v == q * Val(tabb[bo..bo + nb]) + Val(taba[o..o + nb])
    ensures Val(taba[o..o + nb]) < Val(tabb[bo..bo + nb])
  {
    hide Val, Pow;
    ghost var dv := Val(tabb[bo..bo + nb]);
    ValBound(tabb[bo..bo + nb]);
    q := q0;
    var done := false;
    while !done
      invariant OnlyChanges(taba, o, nb + 1)
      invariant !done ==> v - q * dv == Val(taba[o..o + nb]) + Pow(nb) * (taba[o + nb] - B) && v - q * dv < 0
      invariant done ==> v == q * dv + Val(taba[o..o + nb]) && Val(taba[o..o + nb]) < dv
      decreases q, !done
    {
      DigitPositive(v, q, dv);
      q := q - 1;
      done := AddBackOnce(taba, o, tabb, bo, nb, v, q);
    }
  }

  /** One add-back; done when the high limb has come to zero. */
  method AddBackOnce(taba: array<Limb>, o: nat, tabb: array<Limb>, bo: nat, nb: nat, ghost v: int, ghost q: int)
                     returns (done: bool)
    requires taba != tabb && Fits(taba, o, nb + 1) && Fits(tabb, bo, nb)
    requires v - (q + 1) * Val(tabb[bo..bo + nb]) == Val(taba[o..o + nb]) + Pow(nb) * (taba[o + nb] - B)
    requires v - (q + 1) * Val(tabb[bo..bo + nb]) < 0
    modifies taba
    ensures OnlyChanges(taba, o, nb + 1)
    ensures !done ==>
      v - q * Val(tabb[bo..bo + nb]) == Val(taba[o..o + nb]) + Pow(nb) * (taba[o + nb] - B)
          && v - q * Val(tabb[bo..bo + nb]) < 0
    ensures done ==>
      v == q * Val(tabb[bo..bo + nb]) + Val(taba[o..o + nb]) && Val(taba[o..o + nb]) < Val(tabb[bo..bo + nb])
  {
    hide Val, Pow;
    ghost var dv := Val(tabb[bo..bo + nb]);
    ValBound(tabb[bo..bo + nb]);
    ghost var low0, top := Val(taba[o..o + nb]), taba[o + nb];
    var c := MpAdd(taba, o, taba, o, tabb, bo, nb, 0);
    ghost var low := taba[o..o + nb];
    ValBound(low);
    OneAddBack(v, q, dv, low0, Val(low), Pow(nb), top, c);
    if c != 0 {
      taba[o + nb] := Wrap(taba[o + nb] as int + 1);
      assert taba[o..o + nb] == low;
    }
    done := c != 0 && taba[o + nb] == 0;
  }

  lemma DigitPositive(v: int, q: int, d: int)
    requires v >= 0 && v - q * d < 0 && d >= 0
    ensures q >= 1
  {
    if q <= 0 {
      MulMonotone(d, q, 0);
    }
  }

  /** The exact difference after one add-back, and its sign. */
  lemma OneAddBack(v: int, q: int, d: int, low0: int, low: int, p: int, top: Limb, c: int)
    requires v - (q + 1) * d == low0 + p * (top - B) && v - (q + 1) * d < 0
    requires low + p * c == low0 + d && 0 <= low < p && 0 <= c <= 1
    ensures v - q * d == low + p * (top + c - B)
    ensures v - q * d < 0 <==> top + c < B
    ensures v - q * d < d
  {
    assert (q + 1) * d == q * d + d;
    assert p * (top + c - B) == p * (top - B) + p * c;
    if top + c < B {
      MulMonotone(p, top + c - B, -1);
    }
  }

  /** One quotient digit: the nb + 1 limbs at `o` lose q times the divisor, and the divisor is
      added back while the result is negative. */
  method DivStep(taba: array<Limb>, o: nat, tabb: array<Limb>, bo: nat, nb: nat, useInverse: bool, bInv: Limb)
    returns (q: Limb)
    requires nb >= 2 && taba != tabb && Fits(taba, o, nb + 1) && Normalized(tabb, bo, nb)
    requires useInverse ==> bInv == UDiv1NormInit(tabb[bo + nb - 1])
    requires Val(taba[o + 1..o + nb + 1]) < Val(tabb[bo..bo + nb])
    modifies taba
    ensures OnlyChanges(taba, o, nb + 1)
    ensures old(Val(taba[o..o + nb + 1])) == q * Val(tabb[bo..bo + nb]) + Val(taba[o..o + nb])
    ensures Val(taba[o..o + nb]) < Val(tabb[bo..bo + nb])
  {
    hide Val, Pow, UDiv1NormInit;
    ghost var s, d := taba[o..o + nb + 1], tabb[bo..bo + nb];
    assert s[1..] == taba[o + 1..o + nb + 1];
    q := EstimateDigit(taba[o + nb], taba[o + nb - 1], tabb[bo + nb - 1], useInverse, bInv);
    ValCons(s[0], s[1..]);
    assert s == [s[0]] + s[1..];
    ValBound(s[1..]);
    RemainderBound(s[0], Val(s[1..]), Val(d));
    TopLimbs(s, d, Pow(nb - 1));
    EstimateNotTooSmall(Val(s), Val(s[..nb - 1]), s[nb] * B
        + s[nb - 1], Pow(nb - 1), Val(d), Val(d[..nb - 1]), d[nb - 1], q);
    ValExtend(s, nb);
    ValBound(d);
    assert s[..nb] == taba[o..o + nb] && s[..nb + 1] == s;
    var r := MpSubMul1(taba, o, tabb, bo, nb, q);
    var v := taba[o + nb];
    var a := Wrap(v as int - r);
    taba[o + nb] := a;
    ghost var low := taba[o..o + nb];
    ValBound(low);
    AfterSubtract(Val(low), Pow(nb), v, r, a, Val(s) - q * Val(d));
    if a > v {
      q := AddBack(taba, o, tabb, bo, nb, q, Val(s));
    } else {
      BoundAbove(Val(low), Pow(nb), a, Val(s) - q * Val(d), Val(d));
    }
  }

  /** What the borrow of the high limb says about the sign of the exact difference. */
  lemma AfterSubtract(low: int, p: int, v: Limb, r: Limb, a: Limb, exact: int)
    requires a == Wrap(v - r) && 0 <= low < p
    requires exact == low + p * v - p * r
    ensures if a > v then exact == low + p * (a - B) && exact < 0 else exact == low + p * a && exact >= 0
  {
    Distribute(p, v, r);
    if a > v {
      MulMonotone(p, v - r, -1);
    } else {
      MulNonNegative(p, a);
    }
  }

  lemma BoundAbove(low: int, p: int, a: int, exact: int, d: int)
    requires exact == low + p * a && 0 <= low && a >= 0 && p >= 0 && exact < d < p
    ensures exact == low
  {
    if a >= 1 {
      MulMonotone(p, 1, a);
    }
  }

  /** Whether the nb limbs at taba+o are at least the divisor, as the first quotient digit. */
  method CompareTop(taba: array<Limb>, o: nat, tabb: array<Limb>, bo: nat, nb: nat) returns (q: Limb)
    requires Fits(taba, o, nb) && Fits(tabb, bo, nb)
    ensures q == if Val(taba[o..o + nb]) >= Val(tabb[bo..bo + nb]) then 1 else 0
  {
    hide Val, Pow;
    ghost var s, d := taba[o..o + nb], tabb[bo..bo + nb];
    var j := nb;
    while j > 0
      invariant 0 <= j <= nb
      invariant s[j..] == d[j..]
    {
      j := j - 1;
      if taba[o + j] != tabb[bo + j] {
        TopDiffers(s, d, j);
        return if taba[o + j] < tabb[bo + j] then 0 else 1;
      }
      assert s[j..] == [s[j]] + s[j + 1..] && d[j..] == [d[j]] + d[j + 1..];
    }
    q := 1;
  }

  /** The first quotient digit, 0 or 1, subtracted from the top nb limbs. */
  method FirstDigit(taba: array<Limb>, o: nat, tabb: array<Limb>, bo: nat, nb: nat) returns (q: Limb)
    requires taba != tabb && Fits(taba, o, nb) && Normalized(tabb, bo, nb)
    modifies taba
    ensures OnlyChanges(taba, o, nb) && q <= 1
    ensures old(Val(taba[o..o + nb])) == q * Val(tabb[bo..bo + nb]) + Val(taba[o..o + nb])
    ensures Val(taba[o..o + nb]) < Val(tabb[bo..bo + nb])
  {
    hide Val, Pow;
    ghost var d := tabb[bo..bo + nb];
    q := CompareTop(taba, o, tabb, bo, nb);
    if q != 0 {
      ValBound(taba[o..o + nb]);
      HalfOfPower(d);
      ghost var a := Val(taba[o..o + nb]);
      var k := MpSub(taba, o, taba, o, tabb, bo, nb, 0);
      ValBound(taba[o..o + nb]);
      NoBorrow(a - Val(d), Val(taba[o..o + nb]), Pow(nb), k);
    }
  }

  /** A normalized divisor of n limbs is at least half of B^n. */
  lemma HalfOfPower(d: seq<Limb>)
    requires |d| >= 1 && d[|d| - 1] >= HALF
    ensures Pow(|d|) <= 2 * Val(d) && 0 < Val(d) < Pow(|d|)
  {
    var n := |d| - 1;
    ValBound(d);
    ValExtend(d, n);
    ValBound(d[..n]);
    assert d[..n + 1] == d;
    hide Val, Pow;
    PowStep(n);
    MulMonotone(Pow(n), HALF, d[n]);
  }

  lemma NoBorrow(exact: int, low: int, p: int, k: int)
    requires low - p * k == exact && exact >= 0 && 0 <= low < p && 0 <= k <= 1
    ensures k == 0 && low == exact
  {
  }

  lemma DigitJoinArith(v: int, d: int, q: int, w: int)
    requires w == q + B * v
    ensures w * d == q * d + B * (v * d)
  {
  }

  /** Computes and stores the quotient digit of the nb + 1 limbs at `o`. */
  method NextDigit(tabq: array<Limb>, qi: nat, taba: array<Limb>, o: nat, tabb: array<Limb>, bo: nat, nb: nat,
                   useInverse: bool, bInv: Limb, ghost x: Limb, ghost above: seq<Limb>)
    returns (q: Limb, ghost rem: seq<Limb>)
    requires nb >= 2 && tabq != taba && tabq != tabb && taba != tabb
    requires qi < tabq.Length && Fits(taba, o, nb + 1) && Normalized(tabb, bo, nb)
    requires useInverse ==> bInv == UDiv1NormInit(tabb[bo + nb - 1])
    requires |above| == nb && Val(above) < Val(tabb[bo..bo + nb])
    requires taba[o] == x && forall j :: o < j <= o + nb ==> taba[j] == above[j - o - 1]
    modifies tabq, taba
    ensures OnlyChanges(tabq, qi, 1) && tabq[qi] == q
    ensures OnlyChanges(taba, o, nb + 1)
    ensures |rem| == nb && forall j :: o <= j < o + nb ==> taba[j] == rem[j - o]
    ensures Val([x] + above) == q * Val(tabb[bo..bo + nb]) + Val(rem)
    ensures Val(rem) < Val(tabb[bo..bo + nb])
  {
    hide Val, Pow, UDiv1NormInit;
    assert taba[o + 1..o + nb + 1] == above;
    assert taba[o..o + nb + 1] == [x] + above;
    q := DivStep(taba, o, tabb, bo, nb, useInverse, bInv);
    rem := taba[o..o + nb];
    tabq[qi] := q;
  }

  lemma DigitJoins(s: seq<Limb>, i: nat, done: seq<Limb>, above: seq<Limb>, q: Limb, rem: seq<Limb>, d: int)
    requires i < |s| && Val(s[i + 1..]) == Val(done) * d + Val(above) && Val([s[i]] + above) == q * d + Val(rem)
    ensures Val(s[i..]) == Val([q] + done) * d + Val(rem)
  {
    hide Val;
    assert s[i..] == [s[i]] + s[i + 1..];
    ValCons(s[i], s[i + 1..]);
    ValCons(s[i], above);
    ValCons(q, done);
    DigitJoinArith(Val(done), d, q, Val([q] + done));
  }

  /** The quotient digits below the first one, from the top down. */
  method LowerDigits(tabq: array<Limb>, qo: nat, taba: array<Limb>, ao: nat, n: nat,
                     tabb: array<Limb>, bo: nat, nb: nat, ghost s: seq<Limb>, first: Limb)
    requires 2 <= nb && tabq != taba && tabq != tabb && taba != tabb
    requires Fits(tabq, qo, n + 1) && Fits(taba, ao, n + nb) && Normalized(tabb, bo, nb)
    requires |s| == n + nb && taba[ao..ao + n] == s[..n] && tabq[qo + n] == first
    requires Val(s[n..]) == first * Val(tabb[bo..bo + nb]) + Val(taba[ao + n..ao + n + nb])
    requires Val(taba[ao + n..ao + n + nb]) < Val(tabb[bo..bo + nb])
    modifies tabq, taba
    ensures OnlyChanges(tabq, qo, n) && OnlyChanges(taba, ao, n + nb)
    ensures Val(s) == Val(tabq[qo..qo + (n + 1)]) * Val(tabb[bo..bo + nb]) + Val(taba[ao..ao + nb])
    ensures Val(taba[ao..ao + nb]) < Val(tabb[bo..bo + nb])
  {
    hide Val, Pow, UDiv1NormInit;
    ghost var d := Val(tabb[bo..bo + nb]);
    var useInverse := n >= UDIV1NORM_THRESHOLD;
    var bInv: Limb := if useInverse then UDiv1NormInit(tabb[bo + nb - 1]) else 0;
    ghost var done: seq<Limb>, rem := [first], taba[ao + n..ao + n + nb];
    ValOne(first);
    assert forall j :: 0 <= j < n ==> s[j] == s[..n][j];
    var i := n;
    while i > 0
      invariant 0 <= i <= n && |done| == n - i + 1
      invariant OnlyChanges(taba, ao, n + nb) && OnlyChanges(tabq, qo, n)
      invariant forall j :: qo + i <= j <= qo + n ==> tabq[j] == done[j - (qo + i)]
      invariant forall j :: ao <= j < ao + i ==> taba[j] == s[j - ao]
      invariant |rem| == nb && Val(rem) < d
      invariant forall j :: ao + i <= j < ao + i + nb ==> taba[j] == rem[j - (ao + i)]
      invariant Val(s[i..]) == Val(done) * d + Val(rem)
    {
      i := i - 1;
      ghost var above := rem;
      var q;
      q, rem := NextDigit(tabq, qo + i, taba, ao + i, tabb, bo, nb, useInverse, bInv, s[i], above);
      DigitJoins(s, i, done, above, q, rem, d);
      done := [q] + done;
    }
    assert tabq[qo..qo + (n + 1)] == done;
    assert forall j :: ao <= j < ao + nb ==> taba[j] == rem[j - ao];
    assert taba[ao..ao + nb] == rem;
    assert s[0..] == s;
  }

  /** Schoolbook division for a divisor of at least two limbs. */
  method SchoolDivision(tabq: array<Limb>, qo: nat, taba: array<Limb>, ao: nat, na: nat,
                        tabb: array<Limb>, bo: nat, nb: nat)
    requires 2 <= nb <= na && tabq != taba && tabq != tabb && taba != tabb
    requires Fits(tabq, qo, na - nb + 1) && Fits(taba, ao, na) && Normalized(tabb, bo, nb)
    modifies tabq, taba
    ensures OnlyChanges(tabq, qo, na - nb + 1) && OnlyChanges(taba, ao, na)
    ensures old(Val(taba[ao..ao + na]))
         == Val(tabq[qo..qo + (na - nb + 1)]) * Val(tabb[bo..bo + nb]) + Val(taba[ao..ao + nb])
    ensures Val(taba[ao..ao + nb]) < Val(tabb[bo..bo + nb])
    ensures tabq[qo + (na - nb)] <= 1
  {
    hide Val, Pow, UDiv1NormInit;
    var n := na - nb;
    ghost var s := taba[ao..ao + na];
    assert s[n..] == taba[ao + n..ao + n + nb];
    var q := FirstDigit(taba, ao + n, tabb, bo, nb);
    tabq[qo + n] := q;
    LowerDigits(tabq, qo, taba, ao, n, tabb, bo, nb, s, q);
  }
}
