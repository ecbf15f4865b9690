/** Division of runs of limbs on all its paths: by one limb, schoolbook, and through a truncated
    Newton reciprocal, which itself divides at the bottom of its recursion. */
module BigDiv {
  import opened Arith
  import opened Limbs
  import opened LimbOps
  import opened UDiv
  import opened LongDiv
  import opened RecipMath
  import opened RecipSteps

  const DIVNORM_LARGE_THRESHOLD: nat := 50

  function Min(x: nat, y: nat): nat {
    if x < y then x else y
  }

  predicate IsLarge(na: nat, nb: nat)
    requires nb <= na
  {
    nb > 1 && Min(na - nb, nb) >= DIVNORM_LARGE_THRESHOLD
  }

  /** The top limb of the quotient by a normalized divisor is 0 or 1. */
  lemma QuotientTop(q: int, low: int, top: int, p: int)
    requires q == low + p * top && low >= 0 && p > 0 && q < 2 * p
    ensures top <= 1
  {
    if top >= 2 {
      MulMonotone(p, 2, top);
    }
  }

  lemma QuotientBelow(q: int, d: int, a: int, p: int, pd: int, pa: int)
    requires q * d <= a < pa && pa == p * pd && pd <= 2 * d && d > 0 && p >= 1
    ensures q < 2 * p
  {
    MulMonotone(p, pd, 2 * d);
    if q >= 2 * p {
      MulMonotone(d, 2 * p, q);
    }
  }

  method DivideByLimb(tabq: array<Limb>, qo: nat, taba: array<Limb>, ao: nat, na: nat,
                      tabb: array<Limb>, bo: nat)
    requires 1 <= na && tabq != taba && tabq != tabb && taba != tabb
    requires Fits(tabq, qo, na) && Fits(taba, ao, na) && Normalized(tabb, bo, 1)
    modifies tabq, taba
    ensures OnlyChanges(tabq, qo, na) && OnlyChanges(taba, ao, na)
    ensures old(Val(taba[ao..ao + na]))
         == Val(tabq[qo..qo + na]) * Val(tabb[bo..bo + 1]) + Val(taba[ao..ao + 1])
    ensures Val(taba[ao..ao + 1]) < Val(tabb[bo..bo + 1])
    ensures tabq[qo + (na - 1)] <= 1
  {
    hide Val, Pow;
    ghost var a, d := taba[ao..ao + na], tabb[bo..bo + 1];
    var r := MpDiv1Norm(tabq, qo, taba, ao, na, tabb[bo], 0);
    taba[ao] := r;
    assert taba[ao..ao + 1] == [r] && tabb[bo..bo + 1] == [tabb[bo]];
    ValOne(r);
    ValOne(tabb[bo]);
    ghost var q := tabq[qo..qo + na];
    ValBound(a);
    HalfOfPower(d);
    PowAdd(na - 1, 1);
    QuotientBelow(Val(q), Val(d), Val(a), Pow(na - 1), Pow(1), Pow(na));
    TopLimbZero(q);
    QuotientTop(Val(q), Val(q) - Pow(na - 1) * q[na - 1], q[na - 1], Pow(na - 1));
  }

  /** Divides taba by the normalized tabb: the quotient goes to tabq, the remainder to the low nb
      limbs of taba. */
  method MpDivNorm(tabq: array<Limb>, qo: nat, taba: array<Limb>, ao: nat, na: nat,
                   tabb: array<Limb>, bo: nat, nb: nat)
    requires 1 <= nb <= na && tabq != taba && tabq != tabb && taba != tabb
    requires Fits(tabq, qo, na - nb + 1) && Fits(taba, ao, na) && Normalized(tabb, bo, nb)
    modifies tabq, taba
    ensures OnlyChanges(tabq, qo, na - nb + 1) && OnlyChanges(taba, ao, na)
    ensures old(Val(taba[ao..ao + na]))
         == Val(tabq[qo..qo + (na - nb + 1)]) * Val(tabb[bo..bo + nb]) + Val(taba[ao..ao + nb])
    ensures Val(taba[ao..ao + nb]) < Val(tabb[bo..bo + nb])
    ensures tabq[qo + (na - nb)] <= 1
    decreases if IsLarge(na, nb) then 3 else 0, 0
  {
    hide Val, Pow;
    if nb == 1 {
      DivideByLimb(tabq, qo, taba, ao, na, tabb, bo);
    } else if Min(na - nb, nb) >= DIVNORM_LARGE_THRESHOLD {
      MpDivNormLarge(tabq, qo, taba, ao, na, tabb, bo, nb);
    } else {
      SchoolDivision(tabq, qo, taba, ao, na, tabb, bo, nb);
    }
  }

  /** The Newton reciprocal: B^(2n) lies between a * r and a * (r + 2). */
  method MpRecip(tabr: array<Limb>, ro: nat, taba: array<Limb>, ao: nat, n: nat)
    requires tabr != taba && Fits(tabr, ro, n + 1) && Normalized(taba, ao, n)
    modifies tabr
    ensures OnlyChanges(tabr, ro, n + 1) && tabr[ro + n] == 1
    ensures Val(taba[ao..ao + n]) * Val(tabr[ro..ro + (n + 1)]) < Pow(n + n)
          < Val(taba[ao..ao + n]) * (Val(tabr[ro..ro + (n + 1)]) + 2)
    decreases 1, n
  {
    hide Val, Pow;
    if n <= 2 {
      RecipBase(tabr, ro, taba, ao, n);
    } else {
      var l := (n - 1) / 2;
      var h := n - l;
      MpRecip(tabr, ro + l, taba, ao + l, h);
      var tabt := RecipError(tabr, ro, taba, ao, l, h);
      RecipCorrect(tabr, ro, taba, ao, l, h, tabt);
    }
  }

  /** The bottom of the recursion: ceil(B^(2n) / a) - 1 by a division. */
  method RecipBase(tabr: array<Limb>, ro: nat, taba: array<Limb>, ao: nat, n: nat)
    requires 1 <= n <= 2 && tabr != taba && Fits(tabr, ro, n + 1) && Normalized(taba, ao, n)
    modifies tabr
    ensures OnlyChanges(tabr, ro, n + 1) && tabr[ro + n] == 1
    ensures Val(taba[ao..ao + n]) * Val(tabr[ro..ro + (n + 1)]) < Pow(n + n)
          < Val(taba[ao..ao + n]) * (Val(tabr[ro..ro + (n + 1)]) + 2)
    decreases 1, 0
  {
    hide Val, Pow;
    ghost var a := Val(taba[ao..ao + n]);
    var tabt, nz, r := BaseQuotient(taba, ao, n);
    CopyLimbs(tabr, ro, tabt, 0, n + 1);
    ghost var q := Val(tabr[ro..ro + (n + 1)]);
    ghost var x := q;
    if !nz {
      var k := MpSubUi(tabr, ro, 1, n + 1);
      ValBound(tabr[ro..ro + (n + 1)]);
      BorrowZero(Val(tabr[ro..ro + (n + 1)]), Pow(n + 1), k, x - 1);
      x := x - 1;
    }
    PowAdd(n, n);
    HalfOfPower(taba[ao..ao + n]);
    BaseBounds(a, q, r, Pow(n + n), x);
    ReciprocalRange(a, x, Pow(n));
    TopLimbOne(tabr[ro..ro + (n + 1)]);
  }

  /** B^(2n) divided by the array: the quotient, and whether the division leaves a remainder. */
  method BaseQuotient(taba: array<Limb>, ao: nat, n: nat) returns (tabt: array<Limb>, nz: bool, ghost r: int)
    requires 1 <= n <= 2 && Normalized(taba, ao, n)
    ensures fresh(tabt) && tabt.Length == n + 2
    ensures Pow(n + n) == Val(tabt[0..n + 1]) * Val(taba[ao..ao + n]) + r && 0 <= r < Val(taba[ao..ao + n])
    ensures (nz <==> r != 0) && (!nz ==> Val(tabt[0..n + 1]) >= 1)
    decreases 0, 1
  {
    hide Val, Pow;
    var tabu := PowerOfBase(n + n);
    tabt := new Limb[n + 2];
    MpDivNorm(tabt, 0, tabu, 0, 2 * n + 1, taba, ao, n);
    r := Val(tabu[0..n]);
    ghost var q, a := tabt[0..n + 2], taba[ao..ao + n];
    ValBound(tabu[0..n]);
    HalfOfPower(a);
    PowAdd(n, n);
    TopLimbZero(q);
    PowStep(n);
    BaseSize(Val(q), Val(a), r, Pow(n));
    assert q[..n + 1] == tabt[0..n + 1];
    nz := MpScanNz(tabu, 0, n);
  }

  /** A fresh run of m + 1 limbs holding B^m. */
  method PowerOfBase(m: nat) returns (tabu: array<Limb>)
    ensures fresh(tabu) && tabu.Length == m + 1 && Val(tabu[0..m + 1]) == Pow(m)
  {
    hide Val, Pow;
    tabu := new Limb[m + 1];
    for i := 0 to m
      invariant forall j :: 0 <= j < i ==> tabu[j] == 0
    {
      tabu[i] := 0;
    }
    tabu[m] := 1;
    assert tabu[0..m + 1] == tabu[0..m] + [1];
    ValZeros(tabu[0..m]);
    ValSnoc(tabu[0..m], 1);
  }

  lemma BaseSize(q: int, a: int, r: int, p: int)
    requires p * p == q * a + r && r >= 0 && p <= 2 * a && a > 0 && p >= 1
    ensures q <= 2 * p
    ensures r == 0 ==> q >= 1
  {
    MulMonotone(p, p, 2 * a);
    if q > 2 * p {
      MulMonotone(a, 2 * p + 1, q);
      Distribute(a, 2 * p, 1);
    }
    if q <= 0 {
      MulMonotone(a, q, 0);
      MulMonotone(p, 1, p);
    }
  }

  lemma BaseBounds(a: int, q: int, r: int, p: int, x: int)
    requires p == q * a + r && 0 <= r < a && x == if r == 0 then q - 1 else q
    ensures a * x < p < a * (x + 2)
  {
    Distribute(a, q, 1);
    Distribute(a, q, 2);
  }

  /** Multiplies the number by the reciprocal of its high part, lowers the estimate until the
      product is below B^(n+h), and leaves B^(n+h) minus the product. */
  method RecipError(tabr: array<Limb>, ro: nat, taba: array<Limb>, ao: nat, l: nat, h: nat)
    returns (tabt: array<Limb>)
    requires l >= 1 && h >= 1 && tabr != taba && Fits(tabr, ro, l + h + 1) && Normalized(taba, ao, l + h)
    requires tabr[ro + l + h] == 1
    requires Val(taba[ao + l..ao + l + h]) * Val(tabr[ro + l..ro + l + (h + 1)]) < Pow(h + h)
           < Val(taba[ao + l..ao + l + h]) * (Val(tabr[ro + l..ro + l + (h + 1)]) + 2)
    modifies tabr
    ensures fresh(tabt) && tabt.Length == l + h + h + 1
    ensures OnlyChanges(tabr, ro + l, h + 1) && tabr[ro + l + h] == 1
    ensures Val(tabt[0..l + h + h + 1])
         == Pow(l + h + h) - Val(taba[ao..ao + l + h]) * Val(tabr[ro + l..ro + l + (h + 1)])
    ensures 0 < Val(tabt[0..l + h + h + 1]) < 2 * Val(taba[ao..ao + l + h])
  {
    hide Val, Pow;
    var n := l + h;
    ghost var a, x0 := taba[ao..ao + n], tabr[ro + l..ro + l + (h + 1)];
    assert a[l..] == taba[ao + l..ao + l + h];
    HalfOfPower(a);
    TopLimbZero(x0);
    ValBound(x0[..h]);
    tabt := new Limb[n + h + 1];
    MpMul(tabt, 0, taba, ao, n, tabr, ro + l, h + 1);
    LowerEstimate(tabt, n, h, taba, ao, tabr, ro + l);
    ghost var x1 := tabr[ro + l..ro + l + (h + 1)];
    ValSplit(a, l);
    ValBound(a[..l]);
    PowAdd(h + h, l);
    LoweredBounds(Val(a), Val(a[l..]), Val(a[..l]), Pow(l), Pow(h + h), Val(x0), Val(x1));
    TopLimbZero(x0);
    TopLimbOne(x1);
    Complement(tabt, n + h);
  }

  lemma LoweredBounds(a: int, ah: int, al: int, p: int, ph: int, x0: int, x1: int)
    requires a == al + p * ah && al >= 0 && p > 0 && a > 0 && 1 <= x1 <= x0 && ph < ah * (x0 + 2)
    requires x1 == x0 || ph * p <= a * (x1 + 1)
    ensures 0 < a * x1 && ph * p < a * x1 + 2 * a
  {
    HighReciprocal(a, ah, al, x0, p, ph);
    MulMonotone(a, 1, x1);
    Distribute(a, x1, 1);
    Distribute(a, x1, 2);
  }

  /** Multiplies the high part of the error by the estimate and joins its high part to it. */
  method RecipCorrect(tabr: array<Limb>, ro: nat, taba: array<Limb>, ao: nat, l: nat, h: nat, tabt: array<Limb>)
    requires 1 <= l < h && Fits(tabr, ro, l + h + 1) && Normalized(taba, ao, l + h)
    requires tabr != taba && tabt != tabr && tabt.Length == l + h + h + 1
    requires tabr[ro + l + h] == 1
    requires Val(tabt[0..l + h + h + 1])
          == Pow(l + h + h) - Val(taba[ao..ao + l + h]) * Val(tabr[ro + l..ro + l + (h + 1)])
    requires 0 < Val(tabt[0..l + h + h + 1]) < 2 * Val(taba[ao..ao + l + h])
    modifies tabr
    ensures OnlyChanges(tabr, ro, l + h + 1) && tabr[ro + (l + h)] == 1
    ensures Val(taba[ao..ao + (l + h)]) * Val(tabr[ro..ro + (l + h + 1)]) < Pow(l + h + (l + h))
          < Val(taba[ao..ao + (l + h)]) * (Val(tabr[ro..ro + (l + h + 1)]) + 2)
  {
    hide Val, Pow;
    var tabu := CorrectionTerm(tabr, ro, taba, ao, l, h, tabt);
    CombineHalves(tabr, ro, l, h, tabu, 2 * h - l);
    TopLimbOne(tabr[ro..ro + (l + h + 1)]);
  }

  /** The product whose high limbs are the correction, and the reciprocal they lead to. */
  method CorrectionTerm(tabr: array<Limb>, ro: nat, taba: array<Limb>, ao: nat, l: nat, h: nat, tabt: array<Limb>)
    returns (tabu: array<Limb>)
    requires 1 <= l < h && Fits(tabr, ro, l + h + 1) && Normalized(taba, ao, l + h)
    requires tabr != taba && tabt != tabr && tabt.Length == l + h + h + 1
    requires Val(tabt[0..l + h + h + 1])
          == Pow(l + h + h) - Val(taba[ao..ao + l + h]) * Val(tabr[ro + l..ro + l + (h + 1)])
    requires 0 < Val(tabt[0..l + h + h + 1]) < 2 * Val(taba[ao..ao + l + h])
    ensures fresh(tabu) && tabu.Length == l + h + 2 * h - l + 2
    ensures var x := Val(tabr[ro + l..ro + l + (h + 1)]) * Pow(l) + Val(tabu[2 * h - l..2 * h - l + (l + h + 2)]);
      Val(taba[ao..ao + (l + h)]) * x < Pow(l + h + (l + h)) < Val(taba[ao..ao + (l + h)]) * (x + 2)
          && Pow(l + h) <= x < 2 * Pow(l + h)
  {
    hide Val, Pow;
    var n, k := l + h, 2 * h - l;
    tabu := new Limb[n + 2 * h - l + 2];
    MpMul(tabu, 0, tabt, l, n + h + 1 - l, tabr, ro + l, h + 1);
    ghost var a, x1, t, u := taba[ao..ao + n], tabr[ro + l..ro + l + (h + 1)], tabt[0..n + h + 1],
                             tabu[0..n + 2 * h - l + 2];
    assert tabt[l..n + h + 1] == t[l..];
    assert tabu[k..k + (l + h + 2)] == u[k..];
    HalfOfPower(a);
    ValSplit(t, l);
    ValBound(t[..l]);
    ValBound(t[l..]);
    ValSplit(u, k);
    ValBound(u[..k]);
    CorrectedValue(Val(a), Val(x1), Val(t), Val(t[l..]), Val(t[..l]), Val(u[k..]), Val(u[..k]), l, h);
  }

  /** On numbers: the error and the product are split at their low limbs. */
  lemma CorrectedValue(a: int, x1: int, t: int, th: int, tl: int, uh: int, ul: int, l: nat, h: nat)
    requires 1 <= l < h && Pow(l + h) <= 2 * a && 0 < a < Pow(l + h)
    requires t == Pow(l + h + h) - a * x1 && 0 < t < 2 * a
    requires t == tl + Pow(l) * th && 0 <= tl < Pow(l) && 0 <= th
    requires th * x1 == ul + Pow(2 * h - l) * uh && 0 <= ul < Pow(2 * h - l)
    ensures var x := x1 * Pow(l) + uh;
      a * x < Pow(l + h + (l + h)) < a * (x + 2) && Pow(l + h) <= x < 2 * Pow(l + h)
  {
    hide Pow;
    var k := 2 * h - l;
    PowAdd(l, k);
    PowAdd(h + h, l);
    PowAdd(l, h);
    PowAdd(l + h, h);
    PowAdd(h, h - l);
    PowAdd(l + h + h, l);
    PowAdd(l + h, l + h);
    PowLarge(h - l);
    NewtonError(a, x1, t, th, tl, uh, ul, Pow(l), Pow(h), Pow(k), Pow(h + h), Pow(l + h), Pow(l + h + h), Pow(h - l));
    var x := x1 * Pow(l) + uh;
    ErrorToBounds(a, x1, Pow(l), uh, t, Pow(l + h + h), Pow(l + h + (l + h)));
    ReciprocalRange(a, x, Pow(l + h));
  }

  lemma ErrorToBounds(a: int, x1: int, bl: int, v: int, t: int, bnh: int, b2n: int)
    requires t == bnh - a * x1 && 0 < t * bl - a * v < 2 * a && bnh * bl == b2n
    ensures a * (x1 * bl + v) < b2n < a * (x1 * bl + v + 2)
  {
    Distribute(bl, bnh, a * x1);
    assert a * (x1 * bl + v) == bl * (a * x1) + a * v;
    Distribute(a, x1 * bl + v, 2);
  }

  lemma PowLarge(n: nat)
    requires n >= 1
    ensures Pow(n) >= 16
  {
    PowMonotone(1, n);
    assert Pow(1) == B;
  }

  /** What is inverted for a divisor `b` and a precision of n limbs: the divisor shifted up when
      it is short, its n top limbs plus one when it is long. */
  function Inverted(b: seq<Limb>, n: nat): int {
    if n >= |b| then Val(b) * Pow(n - |b|) else Val(b[|b| - n..]) + 1
  }

  lemma InvertedWhole(b: seq<Limb>, n: nat)
    requires n >= |b|
    ensures Inverted(b, n) == Val(b) * Pow(n - |b|)
  {
  }

  lemma InvertedTop(b: seq<Limb>, n: nat)
    requires n < |b|
    ensures Inverted(b, n) == Val(b[|b| - n..]) + 1
  {
  }

  predicate IsReciprocal(x: int, d: int, n: nat) {
    x * d <= Pow(n + n) <= (x + 2) * d
  }

  /** The reciprocal, n + 1 limbs, of the shifted or truncated divisor. */
  method TruncatedInverse(tabb: array<Limb>, bo: nat, nb: nat, n: nat) returns (inv: array<Limb>)
    requires n >= 1 && Normalized(tabb, bo, nb)
    ensures fresh(inv) && inv.Length == n + 1
    ensures IsReciprocal(Val(inv[0..n + 1]), Inverted(tabb[bo..bo + nb], n), n)
    decreases 2, 0
  {
    hide Val, Pow;
    inv := new Limb[n + 1];
    ghost var b := tabb[bo..bo + nb];
    var tabt := new Limb[n];
    if n >= nb {
      PaddedDivisor(tabt, tabb, bo, nb, n);
      MpRecip(inv, 0, tabt, 0, n);
    } else {
      CopyLimbs(tabt, 0, tabb, bo + nb - n, n);
      ghost var top := b[nb - n..];
      assert tabt[0..n] == top;
      var c := MpAddUi(tabt, 0, 1, n);
      ValBound(tabt[0..n]);
      ValBound(top);
      if c != 0 {
        SetToPower(inv, n);
        CarryTurnsZero(Val(tabt[0..n]), Pow(n), c, Val(top) + 1);
        PowAdd(n, n);
        PowerIsReciprocal(Pow(n), Pow(n + n));
        assert Inverted(b, n) == Pow(n);
        return;
      }
      HalfStays(top, tabt[0..n]);
      MpRecip(inv, 0, tabt, 0, n);
    }
    assert Inverted(b, n) == Val(tabt[0..n]);
    assert Val(inv[0..n + 1]) * Val(tabt[0..n]) == Val(tabt[0..n]) * Val(inv[0..n + 1]);
    assert (Val(inv[0..n + 1]) + 2) * Val(tabt[0..n]) == Val(tabt[0..n]) * (Val(inv[0..n + 1]) + 2);
  }

  lemma PowerIsReciprocal(p: int, p2: int)
    requires p >= 1 && p * p == p2
    ensures p * p <= p2 <= (p + 2) * p
  {
    Distribute(p, p, 2);
  }

  lemma CarryTurnsZero(low: int, p: int, c: int, exact: int)
    requires low + p * c == exact && 0 <= low && c == 1 && exact <= p
    ensures exact == p
  {
  }

  /** Adding one without a carry out keeps the top limb normalized. */
  lemma HalfStays(s: seq<Limb>, t: seq<Limb>)
    requires |s| == |t| >= 1 && s[|s| - 1] >= HALF && Val(t) >= Val(s)
    ensures t[|t| - 1] >= HALF
  {
    hide Val, Pow;
    var n := |s| - 1;
    TopLimbZero(s);
    TopLimbZero(t);
    if t[n] < s[n] {
      MulMonotone(Pow(n), t[n] + 1, s[n]);
      Distribute(Pow(n), t[n], 1);
    }
  }

  method SetToPower(inv: array<Limb>, n: nat)
    requires inv.Length == n + 1
    modifies inv
    ensures Val(inv[0..n + 1]) == Pow(n)
  {
    hide Val, Pow;
    for i := 0 to n
      invariant forall j :: 0 <= j < i ==> inv[j] == 0
    {
      inv[i] := 0;
    }
    inv[n] := 1;
    assert inv[0..n + 1] == inv[0..n] + [1];
    ValZeros(inv[0..n]);
    ValSnoc(inv[0..n], 1);
  }

  /** The divisor above n - nb zero limbs. */
  method PaddedDivisor(tabt: array<Limb>, tabb: array<Limb>, bo: nat, nb: nat, n: nat)
    requires tabt != tabb && tabt.Length == n >= nb && Normalized(tabb, bo, nb)
    modifies tabt
    ensures Val(tabt[0..n]) == Val(tabb[bo..bo + nb]) * Pow(n - nb) && Normalized(tabt, 0, n)
  {
    hide Val, Pow;
    for i := 0 to n - nb
      invariant forall j :: 0 <= j < i ==> tabt[j] == 0
    {
      tabt[i] := 0;
    }
    CopyLimbs(tabt, n - nb, tabb, bo, nb);
    ghost var b := tabb[bo..bo + nb];
    assert tabt[n - 1] == tabt[n - nb..n - nb + nb][nb - 1] == b[nb - 1];
    assert tabt[0..n] == tabt[0..n - nb] + b;
    ValZeros(tabt[0..n - nb]);
    ValAppend(tabt[0..n - nb], b);
    assert Pow(n - nb) * Val(b) == Val(b) * Pow(n - nb);
  }

  /** The number of limbs kept from the quotient product. */
  function InversePrecision(nq: nat, nb: nat): nat {
    if nq < nb then nq + 1 else nq
  }

  lemma FloorOf(p: int, q: int, r: int, y: int)
    requires y == r + p * q && 0 <= r < p
    ensures p * q <= y < p * (q + 1)
  {
    Distribute(p, q, 1);
  }

  lemma RoundedUp(b: int, low: int, p: int, high: int, d: int)
    requires b == low + p * high && 0 <= low < p && d == high + 1
    ensures b < d * p <= b + p
  {
    Distribute(p, high, 1);
  }

  lemma RemainderFits(nq: nat, nb: nat, q: int, b: int, r: int)
    requires nb >= 2 && nq + 1 < nb && 0 <= q < 2 * Pow(nq) && b < Pow(nb)
    requires r < 3 * b + (q + 3) * Pow(nb - (nq + 1)) + Pow(nb - 2)
    ensures r < Pow(nb + 1)
  {
    hide Pow;
    var m := nb - (nq + 1);
    PowAdd(nq, m);
    ScaledQuotient(q, Pow(nq), Pow(m));
    PowMonotone(m, nb);
    PowMonotone(nq + m, nb);
    PowMonotone(nb - 2, nb);
    PowStep(nb);
  }

  lemma ScaledQuotient(q: int, p: int, m: int)
    requires q < 2 * p && m >= 0
    ensures (q + 3) * m <= 2 * (p * m) + 3 * m
  {
    MulMonotone(m, q + 3, 2 * p + 3);
    Distribute(m, 2 * p, 3);
  }

  /** The reciprocal of the divisor times the n + 1 top limbs of the dividend. */
  method QuotientProduct(taba: array<Limb>, ao: nat, na: nat, tabb: array<Limb>, bo: nat, nb: nat, n: nat)
    returns (tabt: array<Limb>, ghost x: int, ghost hi: int, ghost lo: int, ghost q: int)
    requires 1 <= nb <= na && 1 <= n && n + 1 <= na <= n + n + 1 + nb && Fits(taba, ao, na) && Normalized(tabb, bo, nb)
    requires n + 1 <= 2 * (n + 1) - (na - nb + 1)
    ensures fresh(tabt) && tabt.Length == 2 * (n + 1)
    ensures IsReciprocal(x, Inverted(tabb[bo..bo + nb], n), n)
    ensures Val(taba[ao..ao + na]) == lo + Pow(na - (n + 1)) * hi && 0 <= lo < Pow(na - (n + 1))
    ensures var s := 2 * (n + 1) - (na - nb + 1);
      0 <= hi <= Pow(s) && q == Val(tabt[s..2 * (n + 1)]) >= 0 && Pow(s) * q <= hi * x < Pow(s) * (q + 1)
    decreases 2, 1
  {
    hide Val, Pow, Inverted, IsReciprocal;
    var inv := TruncatedInverse(tabb, bo, nb, n);
    x := Val(inv[0..n + 1]);
    tabt := new Limb[2 * (n + 1)];
    ghost var a, w, s := taba[ao..ao + na], na - (n + 1), 2 * (n + 1) - (na - nb + 1);
    assert taba[ao + w..ao + w + (n + 1)] == a[w..];
    MpMul(tabt, 0, inv, 0, n + 1, taba, ao + na - (n + 1), n + 1);
    ghost var prod := tabt[0..2 * (n + 1)];
    hi, lo, q := Val(a[w..]), Val(a[..w]), Val(prod[s..]);
    MulCommutes(x, hi);
    ValSplit(a, w);
    ValBound(a[..w]);
    ValBound(a[w..]);
    PowMonotone(n + 1, s);
    ValSplit(prod, s);
    ValBound(prod[..s]);
    ValBound(prod[s..]);
    FloorOf(Pow(s), q, Val(prod[..s]), hi * x);
    assert prod[s..] == tabt[s..2 * (n + 1)];
  }

  /** The quotient read off the product by the reciprocal of the padded divisor is never too large,
      and too small by so little that the remainder fits nb + 1 limbs. */
  method WholeQuotient(tabq: array<Limb>, qo: nat, taba: array<Limb>, ao: nat, na: nat,
                        tabb: array<Limb>, bo: nat, nb: nat, n: nat)
    requires 2 <= nb < na && n >= nb && n == InversePrecision(na - nb, nb)
    requires tabq != taba && tabq != tabb && taba != tabb
    requires Fits(tabq, qo, na - nb + 1) && Fits(taba, ao, na) && Normalized(tabb, bo, nb)
    modifies tabq
    ensures OnlyChanges(tabq, qo, na - nb + 1)
    ensures 0 <= Val(taba[ao..ao + na]) - Val(tabq[qo..qo + (na - nb + 1)]) * Val(tabb[bo..bo + nb]) < Pow(nb + 1)
    decreases 2, 2
  {
    hide Val, Pow, Inverted;
    var nq := na - nb;
    ghost var a, b := taba[ao..ao + na], tabb[bo..bo + nb];
    var tabt, x, hi, lo, q := QuotientProduct(taba, ao, na, tabb, bo, nb, n);
    ghost var w, s := na - (n + 1), 2 * (n + 1) - (nq + 1);
    HalfOfPower(b);
    InvertedWhole(b, n);
    PowAdd(w, n - nb);
    PowAdd(s, w + (n - nb));
    MulPositive(Val(b), Pow(n - nb));
    ExactEstimate(Val(a), hi, lo, Pow(w), Pow(s), Pow(n - nb), Val(b), Val(b) * Pow(n - nb), x, q, Pow(n + n));
    PowMonotone(w, nb);
    PowStep(nb);
    CopyLimbs(tabq, qo, tabt, 2 * (n + 1) - (nq + 1), nq + 1);
    assert tabq[qo..qo + (nq + 1)] == tabt[s..2 * (n + 1)];
    assert taba[ao..ao + na] == a && tabb[bo..bo + nb] == b;
  }

  /** The same with the reciprocal of the truncated divisor, rounded up. */
  method TruncatedQuotient(tabq: array<Limb>, qo: nat, taba: array<Limb>, ao: nat, na: nat,
                        tabb: array<Limb>, bo: nat, nb: nat, n: nat)
    requires 2 <= nb < na && n < nb && n == InversePrecision(na - nb, nb)
    requires tabq != taba && tabq != tabb && taba != tabb
    requires Fits(tabq, qo, na - nb + 1) && Fits(taba, ao, na) && Normalized(tabb, bo, nb)
    modifies tabq
    ensures OnlyChanges(tabq, qo, na - nb + 1)
    ensures 0 <= Val(taba[ao..ao + na]) - Val(tabq[qo..qo + (na - nb + 1)]) * Val(tabb[bo..bo + nb]) < Pow(nb + 1)
    decreases 2, 2
  {
    hide Val, Pow, Inverted;
    var nq := na - nb;
    ghost var a, b := taba[ao..ao + na], tabb[bo..bo + nb];
    var tabt, x, hi, lo, q := QuotientProduct(taba, ao, na, tabb, bo, nb, n);
    ghost var w, s := na - (n + 1), 2 * (n + 1) - (nq + 1);
    HalfOfPower(b);
    InvertedTop(b, n);
    ValBound(a);
    ValSplit(b, nb - n);
    ValBound(b[..nb - n]);
    ValBound(b[nb - n..]);
    ghost var d := Val(b[nb - n..]) + 1;
    RoundedUp(Val(b), Val(b[..nb - n]), Pow(nb - n), d - 1, d);
    PowAdd(n + n, nb - n);
    PowAdd(s, w);
    TruncatedEstimate(Val(a), hi, lo, Pow(w), Pow(s), Pow(nb - n), Val(b), d, x, q, Pow(n + n));
    PowAdd(nq, nb);
    QuotientBelow(q, Val(b), Val(a), Pow(nq), Pow(nb), Pow(nq + nb));
    RemainderFits(nq, nb, q, Val(b), Val(a) - q * Val(b));
    CopyLimbs(tabq, qo, tabt, 2 * (n + 1) - (nq + 1), nq + 1);
    assert tabq[qo..qo + (nq + 1)] == tabt[s..2 * (n + 1)];
    assert taba[ao..ao + na] == a && tabb[bo..bo + nb] == b;
  }

  /** The quotient estimate: reciprocal, product, and its top nq + 1 limbs. */
  method LargeQuotient(tabq: array<Limb>, qo: nat, taba: array<Limb>, ao: nat, na: nat,
                       tabb: array<Limb>, bo: nat, nb: nat)
    requires 2 <= nb < na && tabq != taba && tabq != tabb && taba != tabb
    requires Fits(tabq, qo, na - nb + 1) && Fits(taba, ao, na) && Normalized(tabb, bo, nb)
    modifies tabq
    ensures OnlyChanges(tabq, qo, na - nb + 1)
    ensures 0 <= Val(taba[ao..ao + na]) - Val(tabq[qo..qo + (na - nb + 1)]) * Val(tabb[bo..bo + nb]) < Pow(nb + 1)
    decreases 2, 3
  {
    var n := InversePrecision(na - nb, nb);
    if n >= nb {
      WholeQuotient(tabq, qo, taba, ao, na, tabb, bo, nb, n);
    } else {
      TruncatedQuotient(tabq, qo, taba, ao, na, tabb, bo, nb, n);
    }
  }

  /** The first remainder: only its nb + 1 low limbs are computed, as the others are zero. */
  method LargeRemainder(tabq: array<Limb>, qo: nat, taba: array<Limb>, ao: nat, na: nat,
                        tabb: array<Limb>, bo: nat, nb: nat)
    requires 2 <= nb < na && tabq != taba && tabq != tabb && taba != tabb
    requires Fits(tabq, qo, na - nb + 1) && Fits(taba, ao, na) && Fits(tabb, bo, nb)
    requires 0 <= Val(taba[ao..ao + na]) - Val(tabq[qo..qo + (na - nb + 1)]) * Val(tabb[bo..bo + nb]) < Pow(nb + 1)
    modifies taba
    ensures OnlyChanges(taba, ao, na)
    ensures Val(taba[ao..ao + (nb + 1)])
         == old(Val(taba[ao..ao + na])) - Val(tabq[qo..qo + (na - nb + 1)]) * Val(tabb[bo..bo + nb])
  {
    hide Val, Pow;
    var m := nb + 1;
    var tabt := new Limb[na + 1];
    MpMul(tabt, 0, tabq, qo, na - nb + 1, tabb, bo, nb);
    ghost var a, t := taba[ao..ao + na], tabt[0..na - nb + 1 + nb];
    assert tabt[0..m] == t[..m] && taba[ao..ao + m] == a[..m];
    var k := MpSub(taba, ao, taba, ao, tabt, 0, m, 0);
    ValSplit(a, m);
    ValSplit(t, m);
    ValBound(taba[ao..ao + m]);
    LowDifference(Val(taba[ao..ao + m]), Pow(m), k, Val(a[..m]), Val(a[m..]), Val(t[..m]), Val(t[m..]));
  }

  /** A difference below p is determined by the low parts of its operands. */
  lemma LowDifference(low: int, p: int, k: int, al: int, ah: int, tl: int, th: int)
    requires low - p * k == al - tl && 0 <= low < p
    requires 0 <= (al + p * ah) - (tl + p * th) < p
    ensures low == (al + p * ah) - (tl + p * th)
  {
    Distribute(p, ah, th);
    Distribute(p, ah - th, k);
    SmallMultiple(low, p, ah - th - k);
  }

  lemma SmallMultiple(low: int, p: int, e: int)
    requires 0 <= low < p && 0 <= low + p * e < p
    ensures p * e == 0
  {
    if e >= 1 {
      MulMonotone(p, 1, e);
    }
    if e <= -1 {
      MulMonotone(p, e, -1);
    }
  }

  /** Subtracts the divisor once more and increments the quotient. */
  method LargeAdjust(tabq: array<Limb>, qo: nat, nq: nat, taba: array<Limb>, ao: nat, tabb: array<Limb>, bo: nat,
                     nb: nat)
    requires tabq != taba && tabq != tabb && taba != tabb
    requires Fits(tabq, qo, nq + 1) && Fits(taba, ao, nb + 1) && Fits(tabb, bo, nb)
    requires Val(taba[ao..ao + (nb + 1)]) >= Val(tabb[bo..bo + nb])
    requires Val(tabq[qo..qo + (nq + 1)]) + 1 < Pow(nq + 1)
    modifies tabq, taba
    ensures OnlyChanges(tabq, qo, nq + 1) && OnlyChanges(taba, ao, nb + 1)
    ensures Val(taba[ao..ao + (nb + 1)]) == old(Val(taba[ao..ao + (nb + 1)])) - Val(tabb[bo..bo + nb])
    ensures Val(tabq[qo..qo + (nq + 1)]) == old(Val(tabq[qo..qo + (nq + 1)])) + 1
  {
    hide Val, Pow;
    SubtractOnce(taba, ao, tabb, bo, nb);
    var k := MpAddUi(tabq, qo, 1, nq + 1);
    ValBound(tabq[qo..qo + (nq + 1)]);
    CarryZero(Val(tabq[qo..qo + (nq + 1)]), Pow(nq + 1), k, old(Val(tabq[qo..qo + (nq + 1)])) + 1);
  }

  method SubtractOnce(taba: array<Limb>, ao: nat, tabb: array<Limb>, bo: nat, nb: nat)
    requires taba != tabb && Fits(taba, ao, nb + 1) && Fits(tabb, bo, nb)
    requires Val(taba[ao..ao + (nb + 1)]) >= Val(tabb[bo..bo + nb])
    modifies taba
    ensures OnlyChanges(taba, ao, nb + 1)
    ensures Val(taba[ao..ao + (nb + 1)]) == old(Val(taba[ao..ao + (nb + 1)])) - Val(tabb[bo..bo + nb])
  {
    hide Val, Pow;
    ghost var r := taba[ao..ao + (nb + 1)];
    ValExtend(r, nb);
    assert r[..nb + 1] == r && r[..nb] == taba[ao..ao + nb];
    var c := MpSub(taba, ao, taba, ao, tabb, bo, nb, 0);
    ghost var low := taba[ao..ao + nb];
    ValBound(low);
    TopBorrow(Val(low), Pow(nb), c, Val(r[..nb]), r[nb], Val(tabb[bo..bo + nb]));
    taba[ao + nb] := Wrap(taba[ao + nb] as int - c);
    ValSnoc(low, taba[ao + nb]);
    assert taba[ao..ao + (nb + 1)] == low + [taba[ao + nb]];
  }

  lemma TopBorrow(low: int, p: int, c: int, low0: int, top: int, b: int)
    requires low - p * c == low0 - b && 0 <= low < p && low0 + p * top >= b
    ensures top - c >= 0 && low + p * (top - c) == low0 + p * top - b
  {
    Distribute(p, top, c);
    if top - c <= -1 {
      MulMonotone(p, top - c, -1);
    }
  }

  /** Division through the reciprocal of a truncated divisor. */
  method MpDivNormLarge(tabq: array<Limb>, qo: nat, taba: array<Limb>, ao: nat, na: nat,
                        tabb: array<Limb>, bo: nat, nb: nat)
    requires 2 <= nb < na && tabq != taba && tabq != tabb && taba != tabb
    requires Fits(tabq, qo, na - nb + 1) && Fits(taba, ao, na) && Normalized(tabb, bo, nb)
    modifies tabq, taba
    ensures OnlyChanges(tabq, qo, na - nb + 1) && OnlyChanges(taba, ao, na)
    ensures old(Val(taba[ao..ao + na]))
         == Val(tabq[qo..qo + (na - nb + 1)]) * Val(tabb[bo..bo + nb]) + Val(taba[ao..ao + nb])
    ensures Val(taba[ao..ao + nb]) < Val(tabb[bo..bo + nb])
    ensures tabq[qo + (na - nb)] <= 1
    decreases 2, 4
  {
    hide Val, Pow;
    ghost var a, d := taba[ao..ao + na], tabb[bo..bo + nb];
    LargeQuotient(tabq, qo, taba, ao, na, tabb, bo, nb);
    LargeRemainder(tabq, qo, taba, ao, na, tabb, bo, nb);
    LargeAdjustAll(tabq, qo, taba, ao, na, tabb, bo, nb, a);
    ValBound(taba[ao..ao + nb]);
    ghost var q, n := tabq[qo..qo + (na - nb + 1)], na - nb;
    ValBound(a);
    HalfOfPower(d);
    PowAdd(n, nb);
    QuotientBelow(Val(q), Val(d), Val(a), Pow(n), Pow(nb), Pow(na));
    TopLimbZero(q);
    QuotientTop(Val(q), Val(q) - Pow(n) * q[n], q[n], Pow(n));
  }

  /** The correction loop: the quotient may still be too small. */
  method LargeAdjustAll(tabq: array<Limb>, qo: nat, taba: array<Limb>, ao: nat, na: nat,
                        tabb: array<Limb>, bo: nat, nb: nat, ghost a: seq<Limb>)
    requires 2 <= nb < na && tabq != taba && tabq != tabb && taba != tabb
    requires Fits(tabq, qo, na - nb + 1) && Fits(taba, ao, na) && Normalized(tabb, bo, nb)
    requires |a| == na
    requires Val(a) == Val(tabq[qo..qo + (na - nb + 1)]) * Val(tabb[bo..bo + nb]) + Val(taba[ao..ao + (nb + 1)])
    modifies tabq, taba
    ensures OnlyChanges(tabq, qo, na - nb + 1) && OnlyChanges(taba, ao, nb + 1)
    ensures Val(a) == Val(tabq[qo..qo + (na - nb + 1)]) * Val(tabb[bo..bo + nb]) + Val(taba[ao..ao + nb])
    ensures Val(taba[ao..ao + nb]) < Val(tabb[bo..bo + nb])
  {
    hide Val, Pow;
    var nq := na - nb;
    ghost var d := Val(tabb[bo..bo + nb]);
    HalfOfPower(tabb[bo..bo + nb]);
    ValBound(a);
    while true
      invariant OnlyChanges(tabq, qo, nq + 1) && OnlyChanges(taba, ao, nb + 1)
      invariant Val(a) == Val(tabq[qo..qo + (nq + 1)]) * d + Val(taba[ao..ao + (nb + 1)])
      decreases Val(taba[ao..ao + (nb + 1)])
    {
      ghost var r := taba[ao..ao + (nb + 1)];
      ValBound(r);
      TopLimbZero(r);
      assert r[..nb] == taba[ao..ao + nb];
      if taba[ao + nb] == 0 {
        var c := MpCmp(taba, ao, tabb, bo, nb);
        if c < 0 {
          break;
        }
      }
      RoomForOneMore(Val(tabq[qo..qo + (nq + 1)]), d, Val(a), Val(r), nq, nb);
      LargeAdjust(tabq, qo, nq, taba, ao, tabb, bo, nb);
    }
  }

  /** The quotient that is still too small fits its limbs even after the increment. */
  lemma RoomForOneMore(q: int, d: int, a: int, r: int, n: nat, m: nat)
    requires a == q * d + r && r >= d && a < Pow(n + m) && Pow(m) <= 2 * d && d > 0
    ensures q + 1 < Pow(n + 1) && a == (q + 1) * d + (r - d)
  {
    hide Pow;
    PowAdd(n, m);
    OneMore(q, d, a, r);
    QuotientBelow(q + 1, d, a, Pow(n), Pow(m), Pow(n + m));
    PowStep(n);
  }

  lemma OneMore(q: int, d: int, a: int, r: int)
    requires a == q * d + r && r >= d
    ensures (q + 1) * d <= a && a == (q + 1) * d + (r - d)
  {
    assert (q + 1) * d == q * d + d;
  }
}
