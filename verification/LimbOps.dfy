/** The carry and borrow loops over limb arrays. A pointer of the program is an
    array together with an offset; the operations overwrite the destination in
    place and may be given the destination as one of their sources. */
module LimbOps {
  import opened Arith
  import opened Limbs

  predicate Fits(a: array<Limb>, o: int, n: int) {
    0 <= o && 0 <= n && o + n <= a.Length
  }

  /** The `an` limbs at a+ao and the `bn` limbs at b+bo do not overlap. */
  predicate Apart(a: array<Limb>, ao: int, an: int, b: array<Limb>, bo: int, bn: int) {
    a != b || ao + an <= bo || bo + bn <= ao
  }

  predicate SameOrApart(a: array<Limb>, ao: int, b: array<Limb>, bo: int, n: int) {
    (a == b && ao == bo) || Apart(a, ao, n, b, bo, n)
  }

  /** Nothing outside the `n` limbs at a+o has changed. */
  twostate predicate OnlyChanges(a: array<Limb>, o: int, n: int)
    reads a
  {
    forall j :: 0 <= j < a.Length && !(o <= j < o + n) ==> a[j] == old(a[j])
  }

  /** One limb of an addition: the sum limb and the carry out, found by comparing wrapped sums. */
  function AddLimb(v: Limb, w: Limb, k: Limb): (r: (Limb, Limb))
    requires k <= 1
    ensures v + w + k == r.0 + B * r.1 && r.1 <= 1
  {
    var a := Wrap(v + w);
    var k1 := a < v;
    var a' := Wrap(a + k);
    (a', if a' < k || k1 then 1 else 0)
  }

  /** res = op1 + op2 + carry; returns the carry out. */
  method MpAdd(res: array<Limb>, ro: nat, op1: array<Limb>, o1: nat, op2: array<Limb>, o2: nat,
               n: nat, carry: Limb)
    returns (k: Limb)
    requires Fits(res, ro, n) && Fits(op1, o1, n) && Fits(op2, o2, n)
    requires SameOrApart(res, ro, op1, o1, n) && SameOrApart(res, ro, op2, o2, n)
    requires carry <= 1
    modifies res
    ensures OnlyChanges(res, ro, n)
    ensures k <= 1
    ensures Val(res[ro..ro + n]) + Pow(n) * k == old(Val(op1[o1..o1 + n])) + old(Val(op2[o2..o2 + n])) + carry
  {
    hide Val, Pow;
    ValNil();
    ghost var s1, s2 := op1[o1..o1 + n], op2[o2..o2 + n];
    ghost var done: seq<Limb> := [];
    k := carry;
    var i := 0;
    while i < n
      invariant 0 <= i <= n && k <= 1 && |done| == i
      invariant OnlyChanges(res, ro, i)
      invariant forall j :: 0 <= j < i ==> res[ro + j] == done[j]
      invariant forall j :: i <= j < n ==> op1[o1 + j] == s1[j]
      invariant forall j :: i <= j < n ==> op2[o2 + j] == s2[j]
      invariant Val(done) + Pow(i) * k == Val(s1[..i]) + Val(s2[..i]) + carry
    {
      var r := AddLimb(op1[o1 + i], op2[o2 + i], k);
      PowStep(i);
      ScaleSum(Pow(i), B, s1[i], s2[i], k, r.0, r.1);
      ValExtend(s1, i);
      ValExtend(s2, i);
      ValSnoc(done, r.0);
      res[ro + i] := r.0;
      k := r.1;
      done := done + [r.0];
      i := i + 1;
    }
    assert s1[..n] == s1 && s2[..n] == s2;
    assert res[ro..ro + n] == done;
  }

  /** tab += b; returns the carry out. The loop stops at the first limb that does not carry. */
  method MpAddUi(tab: array<Limb>, o: nat, b: Limb, n: nat) returns (k: Limb)
    requires Fits(tab, o, n)
    modifies tab
    ensures OnlyChanges(tab, o, n)
    ensures Val(tab[o..o + n]) + Pow(n) * k == old(Val(tab[o..o + n])) + b
    ensures n > 0 ==> k <= 1
  {
    hide Val, Pow;
    ValNil();
    ghost var s := tab[o..o + n];
    ghost var done: seq<Limb> := [];
    k := b;
    var i := 0;
    while i < n && k != 0
      invariant 0 <= i <= n && |done| == i && (i > 0 ==> k <= 1)
      invariant OnlyChanges(tab, o, i)
      invariant forall j :: 0 <= j < i ==> tab[o + j] == done[j]
      invariant forall j :: i <= j < n ==> tab[o + j] == s[j]
      invariant Val(done) + Pow(i) * k == Val(s[..i]) + b
    {
      var a := Wrap(tab[o + i] + k);
      var k' := if a < k then 1 else 0;
      PowStep(i);
      ScaleSum(Pow(i), B, s[i], 0, k, a, k');
      ValExtend(s, i);
      ValSnoc(done, a);
      tab[o + i] := a;
      k := k';
      done := done + [a];
      i := i + 1;
    }
    ValSplit(s, i);
    ValAppend(done, s[i..]);
    assert tab[o..o + n] == done + s[i..];
  }

  /** One limb of a subtraction: the difference limb and the borrow out. */
  function SubLimb(v: Limb, w: Limb, k: Limb): (r: (Limb, Limb))
    requires k <= 1
    ensures v - w - k == r.0 - B * r.1 && r.1 <= 1
  {
    var a := Wrap(v - w);
    var k1 := a > v;
    var a' := Wrap(a - k);
    (a', if a' > a || k1 then 1 else 0)
  }

  /** res = op1 - op2 - carry; returns the borrow out. */
  method MpSub(res: array<Limb>, ro: nat, op1: array<Limb>, o1: nat, op2: array<Limb>, o2: nat,
               n: nat, carry: Limb)
    returns (k: Limb)
    requires Fits(res, ro, n) && Fits(op1, o1, n) && Fits(op2, o2, n)
    requires SameOrApart(res, ro, op1, o1, n) && SameOrApart(res, ro, op2, o2, n)
    requires carry <= 1
    modifies res
    ensures OnlyChanges(res, ro, n)
    ensures k <= 1
    ensures Val(res[ro..ro + n]) - Pow(n) * k == old(Val(op1[o1..o1 + n])) - old(Val(op2[o2..o2 + n])) - carry
  {
    hide Val, Pow;
    ValNil();
    ghost var s1, s2 := op1[o1..o1 + n], op2[o2..o2 + n];
    ghost var done: seq<Limb> := [];
    k := carry;
    var i := 0;
    while i < n
      invariant 0 <= i <= n && k <= 1 && |done| == i
      invariant OnlyChanges(res, ro, i)
      invariant forall j :: 0 <= j < i ==> res[ro + j] == done[j]
      invariant forall j :: i <= j < n ==> op1[o1 + j] == s1[j]
      invariant forall j :: i <= j < n ==> op2[o2 + j] == s2[j]
      invariant Val(done) - Pow(i) * k == Val(s1[..i]) - Val(s2[..i]) - carry
    {
      var r := SubLimb(op1[o1 + i], op2[o2 + i], k);
      PowStep(i);
      ScaleDifference(Pow(i), B, s1[i], s2[i], k, r.0, r.1);
      ValExtend(s1, i);
      ValExtend(s2, i);
      ValSnoc(done, r.0);
      res[ro + i] := r.0;
      k := r.1;
      done := done + [r.0];
      i := i + 1;
    }
    assert s1[..n] == s1 && s2[..n] == s2;
    assert res[ro..ro + n] == done;
  }

  /** res = 0 - op2 - carry; returns the borrow out. */
  method MpNeg(res: array<Limb>, ro: nat, op2: array<Limb>, o2: nat, n: nat, carry: Limb)
    returns (k: Limb)
    requires Fits(res, ro, n) && Fits(op2, o2, n) && SameOrApart(res, ro, op2, o2, n)
    requires carry <= 1
    modifies res
    ensures OnlyChanges(res, ro, n)
    ensures k <= 1
    ensures Val(res[ro..ro + n]) - Pow(n) * k == 0 - old(Val(op2[o2..o2 + n])) - carry
  {
    hide Val, Pow;
    ValNil();
    ghost var s := op2[o2..o2 + n];
    ghost var done: seq<Limb> := [];
    k := carry;
    var i := 0;
    while i < n
      invariant 0 <= i <= n && k <= 1 && |done| == i
      invariant OnlyChanges(res, ro, i)
      invariant forall j :: 0 <= j < i ==> res[ro + j] == done[j]
      invariant forall j :: i <= j < n ==> op2[o2 + j] == s[j]
      invariant Val(done) - Pow(i) * k == 0 - Val(s[..i]) - carry
    {
      var r := SubLimb(0, op2[o2 + i], k);
      PowStep(i);
      ScaleDifference(Pow(i), B, 0, s[i], k, r.0, r.1);
      ValExtend(s, i);
      ValSnoc(done, r.0);
      res[ro + i] := r.0;
      k := r.1;
      done := done + [r.0];
      i := i + 1;
    }
    assert s[..n] == s;
    assert res[ro..ro + n] == done;
  }

  /** tab -= b; returns the borrow out. The loop stops after the first limb that does not borrow. */
  method MpSubUi(tab: array<Limb>, o: nat, b: Limb, n: nat) returns (k: Limb)
    requires Fits(tab, o, n)
    modifies tab
    ensures OnlyChanges(tab, o, n)
    ensures Val(tab[o..o + n]) - Pow(n) * k == old(Val(tab[o..o + n])) - b
    ensures n > 0 ==> k <= 1
  {
    hide Val, Pow;
    ValNil();
    ghost var s := tab[o..o + n];
    ghost var done: seq<Limb> := [];
    k := b;
    var i, go := 0, true;
    while i < n && go
      invariant 0 <= i <= n && |done| == i && (i > 0 ==> k <= 1) && (!go ==> k == 0)
      invariant OnlyChanges(tab, o, i)
      invariant forall j :: 0 <= j < i ==> tab[o + j] == done[j]
      invariant forall j :: i <= j < n ==> tab[o + j] == s[j]
      invariant Val(done) - Pow(i) * k == Val(s[..i]) - b
    {
      var v := tab[o + i];
      var a := Wrap(v - k);
      var k' := if a > v then 1 else 0;
      PowStep(i);
      ScaleDifference(Pow(i), B, s[i], 0, k, a, k');
      ValExtend(s, i);
      ValSnoc(done, a);
      tab[o + i] := a;
      k := k';
      done := done + [a];
      i := i + 1;
      go := k != 0;
    }
    ValSplit(s, i);
    ValAppend(done, s[i..]);
    assert tab[o..o + n] == done + s[i..];
  }

  /** tabr = taba * b + l; returns the high limb. */
  method MpMul1(tabr: array<Limb>, ro: nat, taba: array<Limb>, ao: nat, n: nat, b: Limb, l: Limb)
    returns (h: Limb)
    requires Fits(tabr, ro, n) && Fits(taba, ao, n) && SameOrApart(tabr, ro, taba, ao, n)
    modifies tabr
    ensures OnlyChanges(tabr, ro, n)
    ensures Val(tabr[ro..ro + n]) + Pow(n) * h == old(Val(taba[ao..ao + n])) * b + l
  {
    hide Val, Pow;
    ValNil();
    ghost var s := taba[ao..ao + n];
    ghost var done: seq<Limb> := [];
    h := l;
    var i := 0;
    while i < n
      invariant 0 <= i <= n && |done| == i
      invariant OnlyChanges(tabr, ro, i)
      invariant forall j :: 0 <= j < i ==> tabr[ro + j] == done[j]
      invariant forall j :: i <= j < n ==> taba[ao + j] == s[j]
      invariant Val(done) + Pow(i) * h == Val(s[..i]) * b + l
    {
      var t := taba[ao + i] * b + h;
      ProductLimb(taba[ao + i], b, h, 0);
      var a, h' := Wrap(t), t / B;
      PowStep(i);
      ScaleSum(Pow(i), B, s[i] * b, 0, h, a, h');
      ExtendTimes(Val(s[..i]), Pow(i), s[i], b);
      ValExtend(s, i);
      ValSnoc(done, a);
      tabr[ro + i] := a;
      h := h';
      done := done + [a];
      i := i + 1;
    }
    assert s[..n] == s;
    assert tabr[ro..ro + n] == done;
  }

  /** A limb product plus two limbs fits in two limbs. */
  lemma ProductLimb(x: Limb, y: Limb, l: Limb, w: Limb)
    ensures 0 <= x * y + l + w < B * B
    ensures 0 <= (x * y + l + w) / B < B
  {
    ProductBound(x, y);
  }

  lemma ProductBound(x: Limb, y: Limb)
    ensures 0 <= x * y <= (B - 1) * (B - 1)
  {
    MulMonotone(x, y, B - 1);
    MulMonotone(B - 1, x, B - 1);
    MulNonNegative(x, y);
  }

  /** tabr += taba * b; returns the high limb. */
  method MpAddMul1(tabr: array<Limb>, ro: nat, taba: array<Limb>, ao: nat, n: nat, b: Limb)
    returns (h: Limb)
    requires Fits(tabr, ro, n) && Fits(taba, ao, n) && Apart(tabr, ro, n, taba, ao, n)
    modifies tabr
    ensures OnlyChanges(tabr, ro, n)
    ensures Val(tabr[ro..ro + n]) + Pow(n) * h == old(Val(tabr[ro..ro + n])) + old(Val(taba[ao..ao + n])) * b
  {
    hide Val, Pow;
    ValNil();
    ghost var s, w := taba[ao..ao + n], tabr[ro..ro + n];
    ghost var done: seq<Limb> := [];
    h := 0;
    var i := 0;
    while i < n
      invariant 0 <= i <= n && |done| == i
      invariant OnlyChanges(tabr, ro, i)
      invariant forall j :: 0 <= j < i ==> tabr[ro + j] == done[j]
      invariant forall j :: i <= j < n ==> tabr[ro + j] == w[j]
      invariant forall j :: i <= j < n ==> taba[ao + j] == s[j]
      invariant Val(done) + Pow(i) * h == Val(w[..i]) + Val(s[..i]) * b
    {
      var t := taba[ao + i] * b + h + tabr[ro + i];
      ProductLimb(taba[ao + i], b, h, tabr[ro + i]);
      var a, h' := Wrap(t), t / B;
      PowStep(i);
      ScaleSum(Pow(i), B, w[i], s[i] * b, h, a, h');
      ExtendTimes(Val(s[..i]), Pow(i), s[i], b);
      ValExtend(s, i);
      ValExtend(w, i);
      ValSnoc(done, a);
      tabr[ro + i] := a;
      h := h';
      done := done + [a];
      i := i + 1;
    }
    assert s[..n] == s && w[..n] == w;
    assert tabr[ro..ro + n] == done;
  }

  /** tabr -= taba * b; returns the value to subtract from the next limb. */
  method MpSubMul1(tabr: array<Limb>, ro: nat, taba: array<Limb>, ao: nat, n: nat, b: Limb)
    returns (h: Limb)
    requires Fits(tabr, ro, n) && Fits(taba, ao, n) && Apart(tabr, ro, n, taba, ao, n)
    modifies tabr
    ensures OnlyChanges(tabr, ro, n)
    ensures Val(tabr[ro..ro + n]) - Pow(n) * h == old(Val(tabr[ro..ro + n])) - old(Val(taba[ao..ao + n])) * b
  {
    hide Val, Pow;
    ValNil();
    ghost var s, w := taba[ao..ao + n], tabr[ro..ro + n];
    ghost var done: seq<Limb> := [];
    h := 0;
    var i := 0;
    while i < n
      invariant 0 <= i <= n && |done| == i
      invariant OnlyChanges(tabr, ro, i)
      invariant forall j :: 0 <= j < i ==> tabr[ro + j] == done[j]
      invariant forall j :: i <= j < n ==> tabr[ro + j] == w[j]
      invariant forall j :: i <= j < n ==> taba[ao + j] == s[j]
      invariant Val(done) - Pow(i) * h == Val(w[..i]) - Val(s[..i]) * b
    {
      var r := SubProduct(tabr[ro + i], taba[ao + i], b, h);
      PowStep(i);
      ScaleDifference(Pow(i), B, w[i], s[i] * b, h, r.0, r.1);
      ExtendTimes(Val(s[..i]), Pow(i), s[i], b);
      ValExtend(s, i);
      ValExtend(w, i);
      ValSnoc(done, r.0);
      tabr[ro + i] := r.0;
      h := r.1;
      done := done + [r.0];
      i := i + 1;
    }
    assert s[..n] == s && w[..n] == w;
    assert tabr[ro..ro + n] == done;
  }

  /** One limb of w - x * b - l in double limbs that wrap: the low limb and the negated high limb. */
  function SubProduct(w: Limb, x: Limb, b: Limb, l: Limb): (r: (Limb, Limb))
    ensures w - x * b - l == r.0 - B * r.1
  {
    ProductBound(x, b);
    BorrowLimbs(w - x * b - l)
  }

  /** A difference that wraps in double limbs, as a limb and the value it borrows. */
  function BorrowLimbs(u: int): (r: (Limb, Limb))
    requires (1 - B) * B <= u < B
    ensures u == r.0 - B * r.1
  {
    var t := u % (B * B);
    assert t == if u >= 0 then u else u + B * B;
    (Wrap(t), Wrap(0 - t / B))
  }

  lemma RowArith(p: int, v1: int, v2: int, x: int)
    ensures v1 * v2 + p * (v1 * x) == v1 * (v2 + p * x)
  {
    calc {
      v1 * v2 + p * (v1 * x);
      v1 * v2 + v1 * (p * x);
      v1 * (v2 + p * x);
    }
  }

  /** Adds op1 * b into the n1 limbs at `ro` and stores the limb above them. */
  method MpMulRow(result: array<Limb>, ro: nat, op1: array<Limb>, o1: nat, n1: nat, b: Limb)
    returns (ghost row: seq<Limb>)
    requires Fits(result, ro, n1 + 1) && Fits(op1, o1, n1) && Apart(result, ro, n1 + 1, op1, o1, n1)
    modifies result
    ensures OnlyChanges(result, ro, n1 + 1)
    ensures |row| == n1 + 1 && forall j :: ro <= j <= ro + n1 ==> result[j] == row[j - ro]
    ensures Val(row) == old(Val(result[ro..ro + n1])) + old(Val(op1[o1..o1 + n1])) * b
  {
    hide Val, Pow;
    var r := MpAddMul1(result, ro, op1, o1, n1, b);
    ValSnoc(result[ro..ro + n1], r);
    row := result[ro..ro + n1] + [r];
    result[ro + n1] := r;
  }

  /** One more row of the product: the lowest limb of the row before is final. */
  method NextRow(result: array<Limb>, ro: nat, i: nat, op1: array<Limb>, o1: nat, n1: nat, b: Limb,
                 ghost d: seq<Limb>, ghost rest: seq<Limb>, ghost p: int)
    returns (ghost row: seq<Limb>)
    requires Fits(result, ro, i + n1 + 1) && Fits(op1, o1, n1) && result != op1
    requires |d| == i && |rest| == n1 && result[ro + i..ro + i + n1] == rest && Val(d + rest) == p
    modifies result
    ensures OnlyChanges(result, ro + i, n1 + 1)
    ensures |row| == n1 + 1 && forall j :: ro + i <= j <= ro + i + n1 ==> result[j] == row[j - (ro + i)]
    ensures Val(d + row) == p + Pow(i) * (Val(op1[o1..o1 + n1]) * b)
  {
    hide Val, Pow;
    row := MpMulRow(result, ro + i, op1, o1, n1, b);
    ValAppend(d, row);
    ValAppend(d, rest);
    Distribute(Pow(i), Val(rest), Val(op1[o1..o1 + n1]) * b);
  }

  method FirstRow(result: array<Limb>, ro: nat, op1: array<Limb>, o1: nat, n1: nat, b: Limb)
                  returns (ghost row: seq<Limb>)
    requires Fits(result, ro, n1 + 1) && Fits(op1, o1, n1) && result != op1
    modifies result
    ensures OnlyChanges(result, ro, n1 + 1)
    ensures |row| == n1 + 1 && forall j :: ro <= j <= ro + n1 ==> result[j] == row[j - ro]
    ensures Val(row) == Val(op1[o1..o1 + n1]) * b
  {
    hide Val, Pow;
    var r := MpMul1(result, ro, op1, o1, n1, b, 0);
    row := result[ro..ro + n1] + [r];
    ValSnoc(result[ro..ro + n1], r);
    result[ro + n1] := r;
  }

  /** Schoolbook product; `mp_mul` is this function as the FFT product is not compiled. */
  method MpMul(result: array<Limb>, ro: nat, op1: array<Limb>, o1: nat, n1: nat,
               op2: array<Limb>, o2: nat, n2: nat)
    requires n2 >= 1
    requires Fits(result, ro, n1 + n2) && Fits(op1, o1, n1) && Fits(op2, o2, n2)
    requires result != op1 && result != op2
    modifies result
    ensures OnlyChanges(result, ro, n1 + n2)
    ensures Val(result[ro..ro + n1 + n2]) == Val(op1[o1..o1 + n1]) * Val(op2[o2..o2 + n2])
  {
    hide Val, Pow;
    ghost var s2, v1 := op2[o2..o2 + n2], Val(op1[o1..o1 + n1]);
    ghost var done: seq<Limb> := [];
    ghost var row := FirstRow(result, ro, op1, o1, n1, op2[o2]);
    ValOne(s2[0]);
    assert s2[..1] == [s2[0]] && done + row == row;
    var i := 1;
    while i < n2
      invariant 1 <= i <= n2 && |done| == i - 1 && |row| == n1 + 1
      invariant OnlyChanges(result, ro, n1 + i)
      invariant forall j :: ro <= j < ro + i - 1 ==> result[j] == done[j - ro]
      invariant forall j :: ro + i - 1 <= j < ro + i + n1 ==> result[j] == row[j - (ro + i - 1)]
      invariant Val(done + row) == v1 * Val(s2[..i])
    {
      ghost var d, rest, v2 := done + [row[0]], row[1..], Val(s2[..i]);
      assert done + row == d + rest;
      row := NextRow(result, ro, i, op1, o1, n1, op2[o2 + i], d, rest, v1 * v2);
      ValExtend(s2, i);
      RowArith(Pow(i), v1, v2, s2[i]);
      done := d;
      i := i + 1;
    }
    assert s2[..n2] == s2;
    assert result[ro..ro + n1 + n2] == done + row;
  }

  /** Compares two runs of limbs: -1, 0 or 1. */
  method MpCmp(taba: array<Limb>, ao: nat, tabb: array<Limb>, bo: nat, n: nat) returns (c: int)
    requires Fits(taba, ao, n) && Fits(tabb, bo, n)
    ensures -1 <= c <= 1
    ensures c < 0 <==> Val(taba[ao..ao + n]) < Val(tabb[bo..bo + n])
    ensures c == 0 <==> Val(taba[ao..ao + n]) == Val(tabb[bo..bo + n])
  {
    ghost var s, t := taba[ao..ao + n], tabb[bo..bo + n];
    var i := n;
    while i > 0
      invariant 0 <= i <= n
      invariant s[i..] == t[i..]
    {
      i := i - 1;
      if taba[ao + i] != tabb[bo + i] {
        TopDiffers(s, t, i);
        return if taba[ao + i] < tabb[bo + i] then -1 else 1;
      }
      assert s[i..] == [s[i]] + s[i + 1..] && t[i..] == [t[i]] + t[i + 1..];
    }
    c := 0;
  }

  /** The highest limb at which two runs differ decides their order. */
  lemma TopDiffers(s: seq<Limb>, t: seq<Limb>, i: nat)
    requires i < |s| == |t| && s[i + 1..] == t[i + 1..] && s[i] != t[i]
    ensures Val(s) < Val(t) <==> s[i] < t[i]
    ensures Val(s) != Val(t)
  {
    hide Val, Pow;
    ValSplit(s, i + 1);
    ValSplit(t, i + 1);
    ValExtend(s, i);
    ValExtend(t, i);
    ValBound(s[..i]);
    ValBound(t[..i]);
    LeadingDigit(Pow(i), Val(s[..i]), s[i], Val(t[..i]), t[i]);
  }

  lemma LeadingDigit(p: int, x: int, a: int, y: int, b: int)
    requires 0 <= x < p && 0 <= y < p && a != b
    ensures x + p * a < y + p * b <==> a < b
    ensures x + p * a != y + p * b
  {
    if a < b {
      MulMonotone(p, a + 1, b);
    } else {
      MulMonotone(p, b + 1, a);
    }
  }

  /** Whether some limb is non-zero. */
  method MpScanNz(tab: array<Limb>, o: nat, n: nat) returns (nz: bool)
    requires Fits(tab, o, n)
    ensures nz <==> Val(tab[o..o + n]) != 0
  {
    ghost var s := tab[o..o + n];
    for i := 0 to n
      invariant forall j :: 0 <= j < i ==> s[j] == 0
    {
      if tab[o + i] != 0 {
        NonZero(s, i);
        return true;
      }
    }
    ValZeros(s);
    nz := false;
  }

  lemma NonZero(s: seq<Limb>, i: nat)
    requires i < |s| && s[i] != 0
    ensures Val(s) > 0
  {
    ValSplit(s, i);
    ValBound(s[..i]);
    ValBound(s[i + 1..]);
    assert Val(s[i..]) == s[i] + B * Val(s[i..][1..]);
    assert s[i..][1..] == s[i + 1..];
    MulMonotone(Pow(i), 1, Val(s[i..]));
  }
}
