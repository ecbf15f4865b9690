/** Karatsuba square root of a run of limbs. */
module BigSqrt {
  import opened Arith
  import opened Limbs
  import opened LimbOps
  import opened LongDiv
  import opened BigDiv
  import opened RecipSteps
  import opened SmallSqrt

  function Two(k: nat): (p: int)
    ensures p >= 1
  {
    if k == 0 then 1 else 2 * Two(k - 1)
  }

  lemma {:induction false} TwoAdd(j: nat, k: nat)
    ensures Two(j + k) == Two(j) * Two(k)
  {
    if j > 0 {
      TwoAdd(j - 1, k);
    }
  }

  lemma TwoSmall()
    ensures Two(1) == 2 && Two(4) == 16
  {
  }

  lemma TwoLimb(shift: nat)
    requires shift <= LIMB_BITS
    ensures Two(shift) * Two(LIMB_BITS - shift) == B
  {
    hide Two;
    TwoAdd(shift, LIMB_BITS - shift);
    TwoSmall();
    TwoAdd(4, 4);
    TwoAdd(8, 8);
    TwoAdd(16, 16);
    TwoAdd(32, 32);
  }

  /** One limb of a right shift: the high bits come from `l`, and occupy bits that a / c does
      not, so that their sum is their bitwise or. */
  function ShiftLimb(a: Limb, l: Limb, c: int, d: int): (x: Limb)
    requires c >= 1 && d >= 1 && c * d == B
    ensures c * x + a % c == a + B * (l % c)
  {
    ShiftedIn(a, l, c, d);
    a / c + Wrap(l * d)
  }

  lemma ShiftedIn(a: Limb, l: Limb, c: int, d: int)
    requires c >= 1 && d >= 1 && c * d == B
    ensures Wrap(l * d) == l % c * d
    ensures 0 <= a / c + l % c * d < B
    ensures c * (a / c + l % c * d) + a % c == a + B * (l % c)
  {
    ShiftParts(l, l / c, l % c, c, d);
    ShiftFits(a, a / c, a % c, l % c, c, d);
  }

  lemma ShiftParts(l: int, q: int, r: int, c: int, d: int)
    requires c >= 1 && d >= 1 && c * d == B && l == c * q + r && 0 <= r < c
    ensures Wrap(l * d) == r * d && 0 <= r * d <= B - d
  {
    assert l * d == (c * d) * q + r * d;
    MulNonNegative(r, d);
    MulMonotone(d, r, c - 1);
    Distribute(d, c, 1);
  }

  lemma ShiftFits(a: int, qa: int, ra: int, r: int, c: int, d: int)
    requires c >= 1 && d >= 1 && c * d == B && 0 <= a < B && a == c * qa + ra && 0 <= ra < c
    requires 0 <= r * d <= B - d
    ensures 0 <= qa + r * d < B && c * (qa + r * d) + ra == a + B * r
  {
    if qa >= d {
      MulMonotone(c, d, qa);
    }
    if qa <= -1 {
      MulMonotone(c, qa, -1);
    }
    Distribute(c, qa, r * d);
    assert c * (r * d) == (c * d) * r;
  }

  lemma ShiftArith(c: int, x: int, v: int, w: int, p: int, p1: int, high: int)
    requires w == x + B * v && p1 == B * p
    ensures c * w == c * x + B * (c * v)
    ensures p1 * high == B * (p * high)
  {
  }

  /** tabr = (tab + high * B^n) >> shift; returns the bits shifted out. */
  method MpShr(tabr: array<Limb>, ro: nat, tab: array<Limb>, o: nat, n: nat, shift: nat, high: Limb)
    returns (rem: Limb)
    requires Fits(tabr, ro, n) && Fits(tab, o, n) && SameOrApart(tabr, ro, tab, o, n)
    requires 1 <= shift < LIMB_BITS
    modifies tabr
    ensures OnlyChanges(tabr, ro, n)
    ensures Two(shift) * Val(tabr[ro..ro + n]) + rem == old(Val(tab[o..o + n])) + Pow(n) * (high % Two(shift))
    ensures rem < Two(shift)
  {
    hide Val, Pow, Two;
    var c, d := Two(shift), Two(LIMB_BITS - shift);
    TwoLimb(shift);
    ghost var s := tab[o..o + n];
    ghost var done: seq<Limb> := [];
    ValNil();
    var l: Limb := high;
    var i := n;
    assert s[n..] == [];
    while i > 0
      invariant 0 <= i <= n && |done| == n - i
      invariant forall j :: 0 <= j < tabr.Length && !(ro + i <= j < ro + n) ==> tabr[j] == old(tabr[j])
      invariant forall j :: ro + i <= j < ro + n ==> tabr[j] == done[j - (ro + i)]
      invariant forall j :: o <= j < o + i ==> tab[j] == s[j - o]
      invariant c * Val(done) + l % c == Val(s[i..]) + Pow(n - i) * (high % c)
    {
      i := i - 1;
      var a := tab[o + i];
      var x := ShiftLimb(a, l, c, d);
      ValCons(x, done);
      ValCons(a, s[i + 1..]);
      PowStep(n - (i + 1));
      ShiftArith(c, x, Val(done), Val([x] + done), Pow(n - (i + 1)), Pow(n - i), high % c);
      assert s[i..] == [a] + s[i + 1..];
      tabr[ro + i] := x;
      l := a;
      done := [x] + done;
    }
    assert s[0..] == s;
    assert tabr[ro..ro + n] == done;
    ModBelow(l, c);
    rem := l % c;
  }

  lemma ModBelow(l: Limb, c: int)
    requires c >= 1
    ensures 0 <= l % c < B && l % c < c
  {
    var q := l / c;
    assert l == c * q + l % c;
    MulNonNegative(c, q);
  }

  /** When the remainder of the high root has a high limb, one divisor is taken out of it, and it
      fits its limbs again. */
  method ReduceHigh(taba: array<Limb>, o: nat, tabs: array<Limb>, so: nat, h: nat, qh: Limb)
    requires taba != tabs && Fits(taba, o, h) && Fits(tabs, so, h) && qh <= 1
    requires Val(taba[o..o + h]) + Pow(h) * qh <= 2 * Val(tabs[so..so + h])
    modifies taba
    ensures OnlyChanges(taba, o, h)
    ensures Val(taba[o..o + h]) == old(Val(taba[o..o + h])) + Pow(h) * qh - Val(tabs[so..so + h]) * qh
  {
    hide Val, Pow;
    if qh != 0 {
      ValBound(tabs[so..so + h]);
      var k := MpSub(taba, o, taba, o, tabs, so, h, 0);
      ValBound(taba[o..o + h]);
    }
  }

  /** The quotient in l limbs and a high part at most 2, and twice the divisor instead of once:
      the quotient is halved, and the bit shifted out adds the divisor to the remainder. */
  method HalveQuotient(tabs: array<Limb>, so: nat, l: nat, h: nat, taba: array<Limb>, o: nat,
                       tmp: array<Limb>, q0: Limb)
    returns (qh: Limb, rh: Limb)
    requires tabs != taba && tmp != tabs && tmp != taba
    requires Fits(tabs, so, l + h) && Fits(taba, o, h) && Fits(tmp, 0, l)
    requires Val(taba[o..o + h]) < Val(tabs[so + l..so + l + h])
    modifies tabs, taba
    ensures OnlyChanges(tabs, so, l) && OnlyChanges(taba, o, h) && rh <= 1
    ensures Val(taba[o..o + h]) + Pow(h) * rh < 2 * Val(tabs[so + l..so + l + h])
    ensures (Val(tmp[0..l]) + Pow(l) * q0) * Val(tabs[so + l..so + l + h]) + old(Val(taba[o..o + h]))
         == 2 * Val(tabs[so + l..so + l + h]) * (Val(tabs[so..so + l]) + Pow(l) * qh)
            + (Val(taba[o..o + h]) + Pow(h) * rh)
  {
    hide Val, Pow, Two;
    ghost var d, u := Val(tabs[so + l..so + l + h]), Val(taba[o..o + h]);
    ghost var dseq := tabs[so + l..so + l + h];
    ValBound(taba[o..o + h]);
    TwoSmall();
    CopyLimbs(tabs, so, tmp, 0, l);
    var ql := MpShr(tabs, so, tabs, so, l, 1, q0 % 2);
    qh := q0 / 2;
    assert tabs[so + l..so + l + h] == dseq;
    HalvedArith(Val(tabs[so..so + l]), ql, Val(tmp[0..l]), Pow(l), q0, qh, d);
    if ql != 0 {
      rh := MpAdd(taba, o, taba, o, tabs, so + l, h, 0);
    } else {
      rh := 0;
    }
    assert tabs[so + l..so + l + h] == dseq;
  }

  lemma HalvedArith(half: int, ql: int, t: int, p: int, q0: int, qh: int, d: int)
    requires 2 * half + ql == t + p * (q0 % 2 % 2) && qh == q0 / 2 && q0 >= 0
    ensures (t + p * q0) * d == 2 * d * (half + p * qh) + ql * d
  {
    assert t + p * q0 == 2 * (half + p * qh) + ql by {
      assert q0 == q0 % 2 + 2 * qh;
      Distribute(p, q0 % 2, 2 * qh);
    }
    assert (2 * (half + p * qh) + ql) * d == 2 * d * (half + p * qh) + ql * d;
  }

  /** The root of the high limbs is normalized, as the number is at least B^(2h) / 4. */
  lemma HighRootNormalized(s: seq<Limb>, a: seq<Limb>, r: int)
    requires |s| >= 1 && |a| == |s| + |s| && a[|a| - 1] >= B / 4 && IsRoot(Val(a), Val(s), r)
    ensures s[|s| - 1] >= HALF
  {
    hide Val, Pow, IsRoot;
    var n := |s| - 1;
    TopLimbZero(a);
    TopLimbZero(s);
    PowStep(n);
    PowAdd(n, n + 1);
    if s[n] < HALF {
      SmallTop(Val(s), Val(s[..n]), Pow(n), s[n]);
      MulMonotone(Pow(n + n + 1), B / 4, a[n + n + 1]);
      RootTooSmall(Val(a), Val(s), r, Pow(n), Pow(n + n + 1));
    }
  }

  lemma SmallTop(v: int, low: int, p: int, top: Limb)
    requires v == low + p * top && 0 <= low < p && top < HALF
    ensures v < HALF * p
  {
    MulMonotone(p, top, HALF - 1);
  }

  lemma RootTooSmall(a: int, s: int, r: int, p: int, p2: int)
    requires IsRoot(a, s, r) && s < HALF * p && p >= 1 && p2 == p * (B * p)
    ensures a < B / 4 * p2
  {
    var m := HALF * p;
    SquareOfSum(s, 1);
    MulMonotone(s + 1, s + 1, m);
    MulMonotone(m, s + 1, m);
    assert m * m == HALF * HALF * (p * p);
    assert p * (B * p) == B * (p * p);
  }

  /** Divides the remainder of the high root, with the next l limbs below it, by that root. */
  method DivideReduced(tabs: array<Limb>, so: nat, taba: array<Limb>, ao: nat, l: nat, h: nat,
                       tmp: array<Limb>, qh0: Limb)
    requires 1 <= l <= h && tabs != taba && tmp != tabs && tmp != taba
    requires Fits(tabs, so, h) && Fits(taba, ao, l + h) && Fits(tmp, 0, l + 1)
    requires Normalized(tabs, so, h) && qh0 <= 1
    requires Val(taba[ao + l..ao + l + h]) + Pow(h) * qh0 <= 2 * Val(tabs[so..so + h])
    modifies taba, tmp
    ensures OnlyChanges(taba, ao, l + h) && tmp[l] <= 1
    ensures Val(taba[ao..ao + h]) < Val(tabs[so..so + h])
    ensures Pow(l) * (old(Val(taba[ao + l..ao + l + h])) + Pow(h) * qh0) + old(Val(taba[ao..ao + l]))
         == (Val(tmp[0..l]) + Pow(l) * (qh0 + tmp[l])) * Val(tabs[so..so + h]) + Val(taba[ao..ao + h])
  {
    hide Val, Pow;
    ghost var a1, r1 := taba[ao..ao + l], Val(taba[ao + l..ao + l + h]) + Pow(h) * qh0;
    ReduceHigh(taba, ao + l, tabs, so, h, qh0);
    ghost var r2 := taba[ao + l..ao + l + h];
    assert taba[ao..ao + (l + h)] == a1 + r2;
    ValAppend(a1, r2);
    MpDivNorm(tmp, 0, taba, ao, l + h, tabs, so, h);
    ghost var t := tmp[0..l + 1];
    TopLimbZero(t);
    assert t[..l] == tmp[0..l];
    DividedArith(Val(a1), Pow(l), r1, Val(r2), qh0, Val(t), Val(t[..l]), t[l], Val(tabs[so..so + h]),
                 Val(taba[ao..ao + h]));
  }

  /** The same division by twice the root. */
  method DivideByRoot(tabs: array<Limb>, so: nat, taba: array<Limb>, ao: nat, l: nat, h: nat,
                      tmp: array<Limb>, qh0: Limb)
    returns (qh: Limb, rh: Limb)
    requires 1 <= l <= h && tabs != taba && tmp != tabs && tmp != taba
    requires Fits(tabs, so, l + h) && Fits(taba, ao, l + h) && Fits(tmp, 0, l + 1)
    requires Normalized(tabs, so + l, h) && qh0 <= 1
    requires Val(taba[ao + l..ao + l + h]) + Pow(h) * qh0 <= 2 * Val(tabs[so + l..so + l + h])
    modifies tabs, taba, tmp
    ensures OnlyChanges(tabs, so, l) && OnlyChanges(taba, ao, l + h) && rh <= 1
    ensures Val(taba[ao..ao + h]) + Pow(h) * rh < 2 * Val(tabs[so + l..so + l + h])
    ensures Pow(l) * (old(Val(taba[ao + l..ao + l + h])) + Pow(h) * qh0) + old(Val(taba[ao..ao + l]))
         == 2 * Val(tabs[so + l..so + l + h]) * (Val(tabs[so..so + l]) + Pow(l) * qh)
            + (Val(taba[ao..ao + h]) + Pow(h) * rh)
  {
    hide Val, Pow;
    ghost var d := tabs[so + l..so + l + h];
    DivideReduced(tabs, so + l, taba, ao, l, h, tmp, qh0);
    qh, rh := HalveQuotient(tabs, so, l, h, taba, ao, tmp, qh0 + tmp[l]);
    assert tabs[so + l..so + l + h] == d;
  }

  lemma DividedArith(a1: int, p: int, r1: int, r2: int, qh0: int, t: int, tl: int, th: int, d: int, u: int)
    requires r2 == r1 - d * qh0 && a1 + p * r2 == t * d + u && t == tl + p * th
    ensures p * r1 + a1 == (tl + p * (qh0 + th)) * d + u
  {
    Distribute(p, r1, d * qh0);
    Distribute(p, qh0, th);
    assert (t + p * qh0) * d == t * d + p * (d * qh0);
  }

  /** Subtracts the square of the quotient from the 2l low limbs and returns the borrow: B^(2l) is
      all borrow when the quotient is B^l, else the limbs are multiplied, above the number. */
  method SubtractSquareLow(tabs: array<Limb>, so: nat, taba: array<Limb>, ao: nat, l: nat, n: nat, qh: Limb)
    returns (c: Limb)
    requires 1 <= l && 2 * l <= n && tabs != taba && Fits(tabs, so, l) && Fits(taba, ao, n + n)
    requires qh == 0 || (qh == 1 && Val(tabs[so..so + l]) == 0)
    modifies taba
    ensures OnlyChanges(taba, ao, n + n) && c <= 1
    ensures forall j :: ao + (l + l) <= j < ao + n ==> taba[j] == old(taba[j])
    ensures Val(taba[ao..ao + (l + l)]) - Pow(l + l) * c
         == old(Val(taba[ao..ao + (l + l)]))
            - (Val(tabs[so..so + l]) + Pow(l) * qh) * (Val(tabs[so..so + l]) + Pow(l) * qh)
  {
    hide Val, Pow;
    if qh != 0 {
      c := qh;
      PowAdd(l, l);
    } else {
      ghost var w := taba[ao..ao + (l + l)];
      MpMul(taba, ao + n, tabs, so, l, tabs, so, l);
      assert taba[ao..ao + (l + l)] == w;
      c := MpSub(taba, ao, taba, ao, taba, ao + n, l + l, 0);
    }
  }

  /** Subtracts the square of the quotient. Returns the high limb of the remainder, wrapped where
      it is negative; exact is what it stands for. */
  method SubtractSquare(tabs: array<Limb>, so: nat, taba: array<Limb>, ao: nat, l: nat, n: nat, qh: Limb, rh0: Limb)
    returns (rh: Limb, ghost exact: int)
    requires 1 <= l && 2 * l <= n && tabs != taba && Fits(tabs, so, l) && Fits(taba, ao, n + n)
    requires rh0 <= 1 && (qh == 0 || (qh == 1 && Val(tabs[so..so + l]) == 0))
    modifies taba
    ensures OnlyChanges(taba, ao, n + n) && -1 <= exact <= 1 && rh == Wrap(exact)
    ensures Val(taba[ao..ao + n]) + Pow(n) * exact
         == old(Val(taba[ao..ao + n])) + Pow(n) * rh0
            - (Val(tabs[so..so + l]) + Pow(l) * qh) * (Val(tabs[so..so + l]) + Pow(l) * qh)
  {
    hide Val, Pow, Wrap;
    ghost var q, w := Val(tabs[so..so + l]), taba[ao..ao + n];
    var m := l + l;
    assert w[..m] == taba[ao..ao + m];
    var c := SubtractSquareLow(tabs, so, taba, ao, l, n, qh);
    ghost var low := taba[ao..ao + m];
    assert taba[ao + m..ao + m + (n - m)] == w[m..];
    var k := MpSubUi(taba, ao + m, c, n - m);
    ghost var high := taba[ao + m..ao + m + (n - m)];
    assert taba[ao..ao + n] == low + high;
    ValSplit(w, m);
    ValAppend(low, high);
    PowAdd(m, n - m);
    SquareArith(Pow(m), Pow(n - m), Pow(n), Val(low), Val(high), Val(w[..m]), Val(w[m..]), c, k, rh0,
                (q + Pow(l) * qh) * (q + Pow(l) * qh));
    assert k <= 1 by {
      if n == m {
        ValNil();
        assert high == [] && w[m..] == [];
      }
    }
    rh, exact := Wrap(rh0 - k), rh0 - k;
  }

  lemma SquareArith(p: int, m: int, pn: int, low: int, high: int, low0: int, high0: int, c: int, k: int, rh0: int,
                    sq: int)
    requires p * m == pn && low - p * c == low0 - sq && high - m * k == high0 - c
    ensures low + p * high + pn * (rh0 - k) == low0 + p * high0 + pn * rh0 - sq
  {
    Distribute(p, high0, c);
    Distribute(p, high, m * k);
    MulAssoc(p, m, k);
    Distribute(pn, rh0, k);
  }

  /** The sign bit tells a negative remainder: lowers the root by one and raises the remainder to match; the
      carry that the root may have lost comes back here. */
  method FinishSqrt(tabs: array<Limb>, so: nat, taba: array<Limb>, ao: nat, n: nat, rh0: Limb,
                    ghost exact: int, ghost a: int, ghost s: int, ghost lost: int)
    returns (rh: Limb)
    requires n >= 1 && tabs != taba && Fits(tabs, so, n) && Fits(taba, ao, n)
    requires 0 <= lost && Val(tabs[so..so + n]) + Pow(n) * lost == s <= Pow(n)
    requires -1 <= exact <= 1 && rh0 == Wrap(exact)
    requires NearRoot(a, s, Val(taba[ao..ao + n]) + Pow(n) * exact) && a < Pow(n) * Pow(n)
    modifies tabs, taba
    ensures OnlyChanges(tabs, so, n) && OnlyChanges(taba, ao, n)
    ensures IsRoot(a, Val(tabs[so..so + n]), Val(taba[ao..ao + n]) + Pow(n) * rh) && rh <= 1
  {
    hide Val, Pow, NearRoot, IsRoot;
    ghost var e, high := Val(taba[ao..ao + n]) + Pow(n) * exact, exact;
    ValBound(taba[ao..ao + n]);
    ValBound(tabs[so..so + n]);
    NearIsRoot(a, s, e);
    NearSize(a, s, e);
    SignOfHigh(Val(taba[ao..ao + n]), Pow(n), exact);
    SignBit(exact);
    rh := rh0;
    if rh >= HALF {
      var k := MpSubUi(tabs, so, 1, n);
      ValBound(tabs[so..so + n]);
      LostCarry(Val(tabs[so..so + n]), Pow(n), k, lost, s - 1);
      var h := MpAddMul1(taba, ao, tabs, so, n, 2);
      var c := MpAddUi(taba, ao, 1, n);
      RaisedRemainder(Pow(n), exact, h, c);
      high := exact + h + c;
      rh := Wrap(Wrap(rh as int + h) as int + c);
      WrapTwice(exact, h, c);
      ValBound(taba[ao..ao + n]);
      RootRange(a, s - 1, e + 2 * s - 1);
    } else {
      RootBelowLimit(a, s, e, Pow(n));
      RootRange(a, s, e);
      CarryZero(Val(tabs[so..so + n]), Pow(n), lost, s);
    }
    HighIsBit(Val(taba[ao..ao + n]), Pow(n), high, Val(tabs[so..so + n]));
    SignBit(high);
  }

  lemma SignBit(x: int)
    requires -1 <= x <= 1
    ensures Wrap(x) >= HALF <==> x < 0
    ensures x >= 0 ==> Wrap(x) == x
  {
  }

  lemma WrapTwice(x: int, h: int, c: int)
    ensures Wrap(Wrap(Wrap(x) + h) + c) == Wrap(x + h + c)
  {
  }

  lemma SignOfHigh(low: int, p: int, h: int)
    requires 0 <= low < p
    ensures low + p * h < 0 <==> h < 0
  {
    if h < 0 {
      MulMonotone(p, h, -1);
    } else {
      MulNonNegative(p, h);
    }
  }

  lemma LostCarry(v: int, p: int, k: int, lost: int, exact: int)
    requires v - p * k + p * lost == exact && 0 <= v < p && 0 <= exact < p
    ensures v == exact
  {
    Distribute(p, lost, k);
    SmallMultiple(v, p, lost - k);
  }

  lemma RaisedRemainder(p: int, rh0: int, h: int, c: int)
    ensures p * (rh0 + h + c) == p * rh0 + p * h + p * c
  {
    Distribute(p, rh0 + h, c);
    Distribute(p, rh0, h);
  }

  lemma HighIsBit(low: int, p: int, h: int, s: int)
    requires 0 <= low < p && 0 <= low + p * h <= 2 * s && s < p
    ensures 0 <= h <= 1
  {
    SignOfHigh(low, p, h);
    if h >= 2 {
      MulMonotone(p, 2, h);
    }
  }

  /** A quotient of at most B^l has either l limbs or the single high limb. */
  lemma QuotientShape(low: int, p: int, qh: int)
    requires 0 <= low && qh >= 0 && p >= 1 && low + p * qh <= p
    ensures qh == 0 || (qh == 1 && low == 0)
  {
    if qh >= 2 {
      MulMonotone(p, 2, qh);
    }
  }

  lemma JoinedRoot(low: int, p: int, s1: int, qh: int, high: int, ph: int, c: int, pn: int)
    requires high + ph * c == s1 + qh && p * ph == pn
    ensures low + p * high + pn * c == s1 * p + (low + p * qh)
  {
    assert p * (high + ph * c) == p * high + pn * c;
    Distribute(p, s1, qh);
  }

  lemma RootAtMostPower(s1: int, p: int, q: int, ph: int, pn: int)
    requires s1 < ph && q <= p && p >= 1 && p * ph == pn
    ensures s1 * p + q <= pn
  {
    MulMonotone(p, s1, ph - 1);
    Distribute(p, ph, 1);
  }

  /** Completes the root from its high part s1, still in place, and the quotient below it. */
  method CombineSqrt(tabs: array<Limb>, so: nat, taba: array<Limb>, ao: nat, l: nat, h: nat, qh: Limb, rh0: Limb,
                     ghost a: int, ghost q: int, ghost s: int, ghost e: int)
    returns (rh: Limb)
    requires 1 <= l <= h && tabs != taba && Fits(tabs, so, l + h) && Fits(taba, ao, l + h + (l + h))
    requires q == Val(tabs[so..so + l]) + Pow(l) * qh <= Pow(l) && s == Val(tabs[so + l..so + l + h]) * Pow(l) + q
    requires rh0 <= 1 && e == Val(taba[ao..ao + (l + h)]) + Pow(l + h) * rh0 - q * q && NearRoot(a, s, e)
    requires a < Pow(l + h + (l + h))
    modifies tabs, taba
    ensures OnlyChanges(tabs, so, l + h) && OnlyChanges(taba, ao, l + h + (l + h))
    ensures IsRoot(a, Val(tabs[so..so + (l + h)]), Val(taba[ao..ao + (l + h)]) + Pow(l + h) * rh) && rh <= 1
  {
    hide Val, Pow, NearRoot, IsRoot;
    var n := l + h;
    ghost var low, s1 := tabs[so..so + l], Val(tabs[so + l..so + l + h]);
    ValBound(low);
    ValBound(tabs[so + l..so + l + h]);
    QuotientShape(Val(low), Pow(l), qh);
    PowAdd(l, h);
    PowAdd(n, n);
    RootAtMostPower(s1, Pow(l), q, Pow(h), Pow(n));
    var c := MpAddUi(tabs, so + l, qh, h);
    ghost var high := tabs[so + l..so + l + h];
    assert tabs[so..so + l] == low && tabs[so..so + n] == low + high;
    ValAppend(low, high);
    JoinedRoot(Val(low), Pow(l), s1, qh, Val(high), Pow(h), c, Pow(n));
    var rhi, exact := SubtractSquare(tabs, so, taba, ao, l, n, qh, rh0);
    rh := FinishSqrt(tabs, so, taba, ao, n, rhi, exact, a, s, c);
  }

  /** Root and remainder of 2n limbs. The root goes to tabs, the remainder to the n low limbs of
      taba and the returned high limb. */
  method MpSqrtremRec(tabs: array<Limb>, so: nat, taba: array<Limb>, ao: nat, n: nat, tmp: array<Limb>)
    returns (rh: Limb)
    requires n >= 1 && tabs != taba && tmp != tabs && tmp != taba
    requires Fits(tabs, so, n) && Fits(taba, ao, n + n) && tmp.Length >= n / 2 + 1
    requires taba[ao + n + n - 1] >= B / 4
    modifies tabs, taba, tmp
    ensures OnlyChanges(tabs, so, n) && OnlyChanges(taba, ao, n + n)
    ensures IsRoot(old(Val(taba[ao..ao + (n + n)])), Val(tabs[so..so + n]), Val(taba[ao..ao + n]) + Pow(n) * rh)
    ensures rh <= 1
    decreases n, 1
  {
    hide Val, Pow, NearRoot, IsRoot;
    if n == 1 {
      rh := SqrtBase(tabs, so, taba, ao);
    } else {
      var l := n / 2;
      var h := n - l;
      ghost var a := taba[ao..ao + (n + n)];
      var qh := HighHalf(tabs, so, taba, ao, l, h, tmp, a);
      var rh1;
      qh, rh1 := LowHalf(tabs, so, taba, ao, l, h, tmp, qh, a);
      ghost var q := Val(tabs[so..so + l]) + Pow(l) * qh;
      PowAdd(n, n);
      rh := CombineSqrt(tabs, so, taba, ao, l, h, qh, rh1, Val(a), q, Val(tabs[so + l..so + l + h]) * Pow(l) + q,
                        Val(taba[ao..ao + (l + h)]) + Pow(l + h) * rh1 - q * q);
    }
  }

  method SqrtBase(tabs: array<Limb>, so: nat, taba: array<Limb>, ao: nat) returns (rh: Limb)
    requires tabs != taba && Fits(tabs, so, 1) && Fits(taba, ao, 2) && taba[ao + 1] >= B / 4
    modifies tabs, taba
    ensures OnlyChanges(tabs, so, 1) && OnlyChanges(taba, ao, 2)
    ensures IsRoot(old(Val(taba[ao..ao + 2])), Val(tabs[so..so + 1]), Val(taba[ao..ao + 1]) + Pow(1) * rh)
    ensures rh <= 1
  {
    hide Val, Pow, IsRoot;
    ghost var a0, a1 := taba[ao], taba[ao + 1];
    assert taba[ao..ao + 2] == [a0, a1];
    rh := MpSqrtrem2(tabs, so, taba, ao);
    BaseValues(a0, a1, tabs[so..so + 1], taba[ao..ao + 1]);
  }

  lemma BaseValues(a0: Limb, a1: Limb, s: seq<Limb>, r: seq<Limb>)
    requires |s| == 1 && |r| == 1
    ensures Val([a0, a1]) == a0 + B * a1 && Val(s) == s[0] && Val(r) == r[0] && Pow(1) == B
  {
    assert [a0, a1] == [a0] + [a1];
    ValCons(a0, [a1]);
    ValOne(a1);
    ValOne(s[0]);
    ValOne(r[0]);
    assert s == [s[0]] && r == [r[0]];
  }

  /** The recursive call on the 2h high limbs, whose root is normalized. */
  method HighHalf(tabs: array<Limb>, so: nat, taba: array<Limb>, ao: nat, l: nat, h: nat, tmp: array<Limb>,
                  ghost a: seq<Limb>)
    returns (qh: Limb)
    requires 1 <= l <= h <= l + 1 && tabs != taba && tmp != tabs && tmp != taba
    requires Fits(tabs, so, l + h) && Fits(taba, ao, l + h + (l + h)) && tmp.Length >= l + 1
    requires a == taba[ao..ao + (l + h + (l + h))] && taba[ao + l + h + (l + h) - 1] >= B / 4
    modifies tabs, taba, tmp
    ensures OnlyChanges(tabs, so + l, h) && OnlyChanges(taba, ao + 2 * l, h + h)
    ensures qh <= 1 && Normalized(tabs, so + l, h)
    ensures IsRoot(Val(a[2 * l..]), Val(tabs[so + l..so + l + h]),
                   Val(taba[ao + l + l..ao + l + l + h]) + Pow(h) * qh)
    decreases l + h, 0
  {
    hide Val, Pow, IsRoot;
    assert taba[ao + 2 * l..ao + 2 * l + (h + h)] == a[2 * l..];
    qh := MpSqrtremRec(tabs, so + l, taba, ao + 2 * l, h, tmp);
    HighRootNormalized(tabs[so + l..so + l + h], a[2 * l..], Val(taba[ao + 2 * l..ao + 2 * l + h]) + Pow(h) * qh);
  }

  /** The division by twice the high root, after which root and remainder are right up to the
      last correction. */
  method LowHalf(tabs: array<Limb>, so: nat, taba: array<Limb>, ao: nat, l: nat, h: nat, tmp: array<Limb>,
                 qh0: Limb, ghost a: seq<Limb>)
    returns (qh: Limb, rh: Limb)
    requires 1 <= l <= h && tabs != taba && tmp != tabs && tmp != taba
    requires Fits(tabs, so, l + h) && Fits(taba, ao, l + h + (l + h)) && tmp.Length >= l + 1
    requires Normalized(tabs, so + l, h) && qh0 <= 1 && |a| == l + h + (l + h)
    requires forall j :: ao <= j < ao + 2 * l ==> taba[j] == a[j - ao]
    requires IsRoot(Val(a[2 * l..]), Val(tabs[so + l..so + l + h]),
                    Val(taba[ao + l + l..ao + l + l + h]) + Pow(h) * qh0)
    modifies tabs, taba, tmp
    ensures OnlyChanges(tabs, so, l) && OnlyChanges(taba, ao + l, l + h) && rh <= 1
    ensures var q := Val(tabs[so..so + l]) + Pow(l) * qh;
      q <= Pow(l) && NearRoot(Val(a), Val(tabs[so + l..so + l + h]) * Pow(l) + q,
                              Val(taba[ao..ao + (l + h)]) + Pow(l + h) * rh - q * q)
    ensures Val(a) < Pow(l + h) * Pow(l + h)
  {
    hide Val, Pow, NearRoot, IsRoot;
    ghost var s1, r1 := tabs[so + l..so + l + h], Val(taba[ao + l + l..ao + l + l + h]) + Pow(h) * qh0;
    assert taba[ao + l..ao + l + l] == a[l..2 * l];
    RootRange(Val(a[2 * l..]), Val(s1), r1);
    qh, rh := DivideByRoot(tabs, so, taba, ao + l, l, h, tmp, qh0);
    ghost var u := taba[ao + l..ao + l + h];
    assert tabs[so + l..so + l + h] == s1;
    assert taba[ao..ao + (l + h)] == a[..l] + u;
    ValBound(tabs[so..so + l]);
    MulNonNegative(Pow(l), qh);
    ghost var hi, mid, lo, u2 := Val(a[2 * l..]), Val(a[l..2 * l]), Val(a[..l]), Val(u) + Pow(h) * rh;
    assert Val(a) < Pow(l + h) * Pow(l + h) by {
      ValBound(a);
      PowAdd(l + h, l + h);
    }
    assert Val(a) == (hi * Pow(l) + mid) * Pow(l) + lo by {
      ValSplit(a, l);
      ValSplit(a[l..], l);
      assert a[l..][..l] == a[l..2 * l] && a[l..][l..] == a[2 * l..];
      HornerArith(hi, mid, Pow(l), Val(a[l..]));
    }
    assert Val(a[..l] + u) + Pow(l + h) * rh == u2 * Pow(l) + lo by {
      ValAppend(a[..l], u);
      PowAdd(l, h);
      RemainderJoin(lo, Pow(l), Val(u), Pow(h), rh, Pow(l + h));
    }
    HalfOfPower(s1);
    PowMonotone(l, h);
    ValBound(a[..l]);
    ValBound(a[l..2 * l]);
    ValBound(u);
    MulNonNegative(Pow(h), rh);
    MulCommutes(Pow(l), r1);
    RootStep(hi, Val(s1), r1, Pow(l), mid, lo, Val(tabs[so..so + l]) + Pow(l) * qh, u2);
  }

  lemma RemainderJoin(y: int, p: int, u: int, ph: int, rh: int, pn: int)
    requires p * ph == pn
    ensures (u + ph * rh) * p + y == y + p * u + pn * rh
  {
    assert (u + ph * rh) * p == u * p + p * ph * rh;
  }

  lemma HornerArith(hi: int, mid: int, p: int, top: int)
    requires top == mid + p * hi
    ensures p * top == (hi * p + mid) * p
  {
  }

  /** Integer square root with remainder: s = floor(sqrt(a)), 0 <= a - s^2 <= 2s. */
  method MpSqrtrem(tabs: array<Limb>, so: nat, taba: array<Limb>, ao: nat, n: nat)
    requires n >= 1 && tabs != taba && Fits(tabs, so, n) && Fits(taba, ao, n + n)
    requires taba[ao + n + n - 1] >= B / 4
    modifies tabs, taba
    ensures OnlyChanges(tabs, so, n) && OnlyChanges(taba, ao, n + n)
    ensures IsRoot(old(Val(taba[ao..ao + (n + n)])), Val(tabs[so..so + n]), Val(taba[ao..ao + (n + 1)]))
  {
    hide Val, Pow, IsRoot;
    var tmp := new Limb[n / 2 + 1];
    var rh := MpSqrtremRec(tabs, so, taba, ao, n, tmp);
    ghost var r := taba[ao..ao + n];
    taba[ao + n] := rh;
    assert taba[ao..ao + (n + 1)] == r + [rh];
    ValSnoc(r, rh);
  }
}
