/** Limbs and the natural number that a little-endian run of limbs stands for.
    A limb is a 64-bit unsigned word; every operation on limbs that can leave the
    range is written with an explicit wrap-around. */
module Limbs {
  import opened Arith

  const LIMB_BITS: nat := 64
  const B: int := 0x1_0000_0000_0000_0000
  const HALF: int := 0x8000_0000_0000_0000

  type Limb = x: int | 0 <= x < B

  /** Truncation of an integer to a limb, as an assignment to `limb_t` does. */
  function Wrap(x: int): Limb {
    x % B
  }

  /** B^n, the weight of limb n. */
  function Pow(n: nat): (p: int)
    ensures p >= 1
  {
    if n == 0 then 1 else B * Pow(n - 1)
  }

  /** The number held by `s`, least significant limb first. */
  function Val(s: seq<Limb>): int {
    if |s| == 0 then 0 else s[0] + B * Val(s[1..])
  }

  lemma ValNil()
    ensures Val([]) == 0 && Pow(0) == 1
  {
  }

  lemma PowStep(n: nat)
    ensures Pow(n + 1) == B * Pow(n)
  {
  }

  lemma {:induction false} PowAdd(m: nat, n: nat)
    ensures Pow(m + n) == Pow(m) * Pow(n)
  {
    if m > 0 {
      PowAdd(m - 1, n);
      MulAssoc(B, Pow(m - 1), Pow(n));
    }
  }

  lemma PowMonotone(m: nat, n: nat)
    requires m <= n
    ensures Pow(m) <= Pow(n)
  {
    PowAdd(m, n - m);
    MulMonotone(Pow(m), 1, Pow(n - m));
  }

  lemma {:induction false} ValBound(s: seq<Limb>)
    ensures 0 <= Val(s) < Pow(|s|)
  {
    if |s| > 0 {
      ValBound(s[1..]);
    }
  }

  lemma {:induction false} ValAppend(a: seq<Limb>, b: seq<Limb>)
    ensures Val(a + b) == Val(a) + Pow(|a|) * Val(b)
  {
    if |a| == 0 {
      assert a + b == b;
    } else {
      assert (a + b)[1..] == a[1..] + b;
      ValAppend(a[1..], b);
      MulAssoc(B, Pow(|a| - 1), Val(b));
    }
  }

  lemma ValSplit(s: seq<Limb>, i: nat)
    requires i <= |s|
    ensures Val(s) == Val(s[..i]) + Pow(i) * Val(s[i..])
  {
    assert s == s[..i] + s[i..];
    ValAppend(s[..i], s[i..]);
  }

  lemma ValOne(x: Limb)
    ensures Val([x]) == x
  {
    assert [x][1..] == [];
  }

  lemma ValCons(x: Limb, s: seq<Limb>)
    ensures Val([x] + s) == x + B * Val(s)
  {
    assert ([x] + s)[1..] == s;
  }

  lemma ValSnoc(s: seq<Limb>, x: Limb)
    ensures Val(s + [x]) == Val(s) + Pow(|s|) * x
  {
    ValAppend(s, [x]);
    ValOne(x);
  }

  /** Limb i contributes limb * B^i. */
  lemma ValExtend(s: seq<Limb>, i: nat)
    requires i < |s|
    ensures Val(s[..i + 1]) == Val(s[..i]) + Pow(i) * s[i]
  {
    assert s[..i + 1] == s[..i] + [s[i]];
    ValSnoc(s[..i], s[i]);
  }

  lemma {:induction false} ValZeros(s: seq<Limb>)
    requires forall i :: 0 <= i < |s| ==> s[i] == 0
    ensures Val(s) == 0
  {
    if |s| > 0 {
      ValZeros(s[1..]);
    }
  }

  /** A positional representation is unique. */
  lemma {:induction false} ValInjective(s: seq<Limb>, t: seq<Limb>)
    requires |s| == |t| && Val(s) == Val(t)
    ensures s == t
  {
    if |s| > 0 {
      assert (s[0] - t[0]) == B * (Val(t[1..]) - Val(s[1..]));
      ValInjective(s[1..], t[1..]);
      assert s == [s[0]] + s[1..] && t == [t[0]] + t[1..];
    }
  }
}
