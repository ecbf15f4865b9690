/** The steps of the Newton reciprocal on limb arrays, each with its effect on the numbers held. */
module RecipSteps {
  import opened Arith
  import opened Limbs
  import opened LimbOps

  /** The top limb is zero exactly when the number is below its weight. */
  lemma TopLimbZero(s: seq<Limb>)
    requires |s| >= 1
    ensures s[|s| - 1] == 0 <==> Val(s) < Pow(|s| - 1)
    ensures Val(s) == Val(s[..|s| - 1]) + Pow(|s| - 1) * s[|s| - 1]
    ensures 0 <= Val(s[..|s| - 1]) < Pow(|s| - 1)
  {
    hide Val, Pow;
    var n := |s| - 1;
    ValExtend(s, n);
    assert s[..n + 1] == s;
    ValBound(s[..n]);
    if s[n] != 0 {
      MulMonotone(Pow(n), 1, s[n]);
    }
  }

  /** A number of n + 1 limbs from B^n up to 2 * B^n has top limb 1. */
  lemma TopLimbOne(s: seq<Limb>)
    requires |s| >= 1 && Pow(|s| - 1) <= Val(s) < 2 * Pow(|s| - 1)
    ensures s[|s| - 1] == 1
  {
    hide Val, Pow;
    TopLimbZero(s);
    if s[|s| - 1] >= 2 {
      MulMonotone(Pow(|s| - 1), 2, s[|s| - 1]);
    }
  }

  /** A difference that is not negative needs no borrow out of n limbs. */
  lemma BorrowZero(low: int, p: int, k: int, exact: int)
    requires low - p * k == exact && 0 <= low < p && exact >= 0 && k >= 0
    ensures k == 0 && low == exact
  {
    if k >= 1 {
      MulMonotone(p, 1, k);
    }
  }

  lemma CarryZero(low: int, p: int, k: int, exact: int)
    requires low + p * k == exact && 0 <= low && 0 <= exact < p && k >= 0
    ensures k == 0 && low == exact
  {
    if k >= 1 {
      MulMonotone(p, 1, k);
    }
  }

  /** Subtracts a number of n limbs from one of n + m limbs that is not smaller. */
  method SubtractLow(tabt: array<Limb>, taba: array<Limb>, ao: nat, n: nat, m: nat)
    requires m >= 1 && tabt != taba && Fits(tabt, 0, n + m) && Fits(taba, ao, n)
    requires Val(tabt[0..n + m]) >= Val(taba[ao..ao + n])
    modifies tabt
    ensures OnlyChanges(tabt, 0, n + m)
    ensures Val(tabt[0..n + m]) == old(Val(tabt[0..n + m])) - Val(taba[ao..ao + n])
  {
    hide Val, Pow;
    ghost var t := tabt[0..n + m];
    ValSplit(t, n);
    assert t[..n] == tabt[0..n] && t[n..] == tabt[n..n + m];
    var c := MpSub(tabt, 0, tabt, 0, taba, ao, n, 0);
    assert tabt[n..n + m] == t[n..];
    ghost var low := tabt[0..n];
    var k := MpSubUi(tabt, n, c, m);
    ghost var high := tabt[n..n + m];
    assert tabt[0..n + m] == low + high;
    ValAppend(low, high);
    ValBound(low + high);
    PowAdd(n, m);
    JoinBorrow(Pow(n), Pow(m), Val(low), Val(high), c, k, Val(t[..n]), Val(t[n..]), Val(taba[ao..ao + n]));
    BorrowZero(Val(low + high), Pow(n + m), k, Val(t) - Val(taba[ao..ao + n]));
  }

  lemma JoinBorrow(p: int, q: int, low: int, high: int, c: int, k: int, low0: int, high0: int, a: int)
    requires low - p * c == low0 - a && high - q * k == high0 - c
    ensures low + p * high - p * q * k == low0 + p * high0 - a
  {
    Distribute(p, high0, c);
    Distribute(p, high, q * k);
    MulAssoc(p, q, k);
  }

  /** Lowers the estimate X, and with it the product A * X, until the product is below B^(n+h). */
  method LowerEstimate(tabt: array<Limb>, n: nat, h: nat, taba: array<Limb>, ao: nat, tabr: array<Limb>, xo: nat)
    requires tabt != taba && tabt != tabr && tabr != taba
    requires Fits(tabt, 0, n + (h + 1)) && Fits(taba, ao, n) && Fits(tabr, xo, h + 1)
    requires Val(taba[ao..ao + n]) > 0 && Val(tabr[xo..xo + (h + 1)]) >= Pow(h)
    requires Val(tabt[0..n + (h + 1)]) == Val(taba[ao..ao + n]) * Val(tabr[xo..xo + (h + 1)])
    modifies tabt, tabr
    ensures OnlyChanges(tabr, xo, h + 1) && OnlyChanges(tabt, 0, n + (h + 1))
    ensures Pow(h) <= Val(tabr[xo..xo + (h + 1)]) <= old(Val(tabr[xo..xo + (h + 1)]))
    ensures Val(tabt[0..n + (h + 1)]) == Val(taba[ao..ao + n]) * Val(tabr[xo..xo + (h + 1)]) < Pow(n + h)
    ensures Val(tabr[xo..xo + (h + 1)]) == old(Val(tabr[xo..xo + (h + 1)]))
         || Pow(n + h) <= Val(taba[ao..ao + n]) * (Val(tabr[xo..xo + (h + 1)]) + 1)
  {
    hide Val, Pow;
    ghost var a, x0 := Val(taba[ao..ao + n]), Val(tabr[xo..xo + (h + 1)]);
    ghost var x := x0;
    ValBound(taba[ao..ao + n]);
    PowAdd(n, h);
    while tabt[n + h] != 0
      invariant OnlyChanges(tabr, xo, h + 1) && OnlyChanges(tabt, 0, n + (h + 1))
      invariant x == Val(tabr[xo..xo + (h + 1)]) && Pow(h) <= x <= x0
      invariant Val(tabt[0..n + (h + 1)]) == a * x
      invariant x == x0 || Pow(n + h) <= a * (x + 1)
      decreases x
    {
      TopLimbZero(tabt[0..n + (h + 1)]);
      LoweredStillLarge(a, x, Pow(n), Pow(h), Pow(n + h));
      var k := MpSubUi(tabr, xo, 1, h + 1);
      ValBound(tabr[xo..xo + (h + 1)]);
      BorrowZero(Val(tabr[xo..xo + (h + 1)]), Pow(h + 1), k, x - 1);
      SubtractLow(tabt, taba, ao, n, h + 1);
      x := x - 1;
    }
    TopLimbZero(tabt[0..n + (h + 1)]);
  }

  lemma LoweredStillLarge(a: int, x: int, bn: int, bh: int, bnh: int)
    requires 0 < a < bn && bn * bh == bnh && bnh <= a * x && bh >= 1
    ensures a * (x - 1) == a * x - a && a * x >= a && x - 1 >= bh
  {
    assert a * (x - 1) == a * x - a;
    assert bh * (bn - 1) == bn * bh - bh;
    MulMonotone(bh, a, bn - 1);
    if x - 1 < bh {
      MulMonotone(a, x, bh);
    }
    MulMonotone(a, 1, x);
  }

  /** Replaces T, with 0 < T < B^m in m + 1 limbs, by B^m - T. */
  method Complement(tabt: array<Limb>, m: nat)
    requires Fits(tabt, 0, m + 1) && 0 < Val(tabt[0..m + 1]) < Pow(m)
    modifies tabt
    ensures OnlyChanges(tabt, 0, m + 1)
    ensures Val(tabt[0..m + 1]) == Pow(m) - old(Val(tabt[0..m + 1]))
  {
    hide Val, Pow;
    ghost var t := Val(tabt[0..m + 1]);
    var k := MpNeg(tabt, 0, tabt, 0, m + 1, 0);
    ghost var s := tabt[0..m + 1];
    TopLimbZero(s);
    PowStep(m);
    ValBound(s);
    NegatedTop(Val(s[..m]), Pow(m), s[m], k, t);
    tabt[m] := Wrap(tabt[m] as int + 1);
    assert tabt[0..m + 1] == s[..m] + [0];
    ValSnoc(s[..m], 0);
  }

  lemma NegatedTop(low: int, p: int, top: Limb, k: int, t: int)
    requires low + p * top - B * p * k == 0 - t && 0 <= low < p && 0 < t < p && 0 <= k <= 1
    ensures top == B - 1 && low == p - t
  {
    MulNonNegative(p, top);
    if top <= B - 2 {
      MulMonotone(p, top, B - 2);
    }
  }

  /** Puts the high part of U below the estimate: its l lowest limbs are copied, the next h are
      added to the h low limbs of the estimate. Nothing is lost when the sum is below 2 * B^n. */
  method CombineHalves(tabr: array<Limb>, ro: nat, l: nat, h: nat, tabu: array<Limb>, k: nat)
    requires tabr != tabu && Fits(tabr, ro, l + h + 1) && Fits(tabu, k, l + h + 2)
    requires tabr[ro + l + h] == 1
    requires Val(tabr[ro + l..ro + l + (h + 1)]) * Pow(l) + Val(tabu[k..k + (l + h + 2)]) < 2 * Pow(l + h)
    modifies tabr
    ensures OnlyChanges(tabr, ro, l + h + 1)
    ensures Val(tabr[ro..ro + (l + h + 1)])
         == old(Val(tabr[ro + l..ro + l + (h + 1)])) * Pow(l) + Val(tabu[k..k + (l + h + 2)])
  {
    hide Val, Pow;
    ghost var x, v := tabr[ro + l..ro + l + (h + 1)], tabu[k..k + (l + h + 2)];
    CopyLimbs(tabr, ro, tabu, k, l);
    ghost var low := tabr[ro..ro + l];
    assert low == v[..l];
    assert tabr[ro + l..ro + l + h] == x[..h];
    assert tabu[k + l..k + l + h] == v[l..l + h];
    var c := MpAdd(tabr, ro + l, tabr, ro + l, tabu, k + l, h, 0);
    ghost var mid := tabr[ro + l..ro + l + h];
    assert tabr[ro..ro + (l + h + 1)] == low + (mid + [1]);
    assert x[h] == 1;
    ghost var vt := v[l..];
    ValExtend(x, h);
    assert x[..h + 1] == x;
    ValSplit(v, l);
    ValSplit(vt, h);
    assert vt[..h] == v[l..l + h];
    ValAppend(low, mid + [1]);
    ValSnoc(mid, 1);
    PowAdd(l, h);
    ValBound(low);
    ValBound(mid);
    ValBound(vt[h..]);
    CombinedArith(Pow(l), Pow(h), Pow(l + h), Val(low), Val(mid), c, Val(x[..h]), Val(vt[..h]), Val(vt[h..]),
                  Val(x), Val(v), Val(vt), Val(mid + [1]));
  }

  method CopyLimbs(tabr: array<Limb>, ro: nat, tabu: array<Limb>, k: nat, l: nat)
    requires tabr != tabu && Fits(tabr, ro, l) && Fits(tabu, k, l)
    modifies tabr
    ensures OnlyChanges(tabr, ro, l)
    ensures tabr[ro..ro + l] == tabu[k..k + l]
  {
    for i := 0 to l
      invariant OnlyChanges(tabr, ro, l)
      invariant forall j :: ro <= j < ro + i ==> tabr[j] == tabu[k + (j - ro)]
    {
      tabr[ro + i] := tabu[k + i];
    }
  }

  lemma CombinedArith(p: int, q: int, pq: int, low: int, mid: int, c: int, xl: int, vm: int, vh: int,
                      x: int, v: int, vt: int, top: int)
    requires p * q == pq && p >= 1 && q >= 1 && low >= 0 && mid >= 0 && c >= 0 && vh >= 0
    requires mid + q * c == xl + vm
    requires x == xl + q * 1 && v == low + p * vt && vt == vm + q * vh && top == mid + q * 1
    requires x * p + v < 2 * pq
    ensures low + p * top == x * p + v
  {
    var extra := c + vh;
    calc {
      x * p + v;
      low + p * (x + vt);
      { Distribute(q, c, vh); }
      low + p * (top + q * extra);
      low + p * top + pq * extra;
    }
    MulNonNegative(p, mid);
    Distribute(p, mid, q);
    MulNonNegative(p - 1, q - 1);
    if extra >= 1 {
      MulMonotone(pq, 1, extra);
    }
  }
}
