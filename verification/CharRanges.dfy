// Character sets as sorted points (libunicode.c:428-534 and 1350-1384, libunicode.h:69-98).
module CharRanges {
  import opened ReCode
  import opened ReRange
  import QSort

  // The number of points not above c.
  function Below(s: seq<nat>, c: int): nat { if s == [] then 0 else (if s[0] <= c then 1 else 0) + Below(s[1..], c) }

  // c lies in the set whose border is crossed at each point.
  predicate In(s: seq<nat>, c: int) { Below(s, c) % 2 == 1 }

  lemma {:induction false} BelowAppend(a: seq<nat>, b: seq<nat>, c: int)
    ensures Below(a + b, c) == Below(a, c) + Below(b, c)
  {
    if a == [] { assert a + b == b; } else { assert (a + b)[1..] == a[1..] + b; BelowAppend(a[1..], b, c); }
  }

  lemma BelowOne(v: nat, c: int)
    ensures Below([v], c) == if v <= c then 1 else 0
  {
    assert [v][1..] == [];
  }

  lemma {:induction false} BelowAll(s: seq<nat>, c: int)
    requires forall k :: 0 <= k < |s| ==> s[k] <= c
    ensures Below(s, c) == |s|
  {
    if s != [] { BelowAll(s[1..], c); }
  }

  lemma {:induction false} BelowNone(s: seq<nat>, c: int)
    requires forall k :: 0 <= k < |s| ==> c < s[k]
    ensures Below(s, c) == 0
  {
    if s != [] { BelowNone(s[1..], c); }
  }

  ghost predicate NonDecreasing(s: seq<nat>) { forall i, j :: 0 <= i < j < |s| ==> s[i] <= s[j] }
  ghost predicate Increasing(s: seq<nat>) { forall i, j :: 0 <= i < j < |s| ==> s[i] < s[j] }

  // The union of the intervals [s[0], s[1]), [s[2], s[3]), ...
  predicate InUnion(s: seq<nat>, c: int) { |s| >= 2 && (s[0] <= c < s[1] || InUnion(s[2..], c)) }

  lemma {:induction false} UnionAppend(a: seq<nat>, b: seq<nat>, c: int)
    requires |a| % 2 == 0
    ensures InUnion(a + b, c) <==> InUnion(a, c) || InUnion(b, c)
  {
    if a == [] { assert a + b == b; } else { assert (a + b)[2..] == a[2..] + b; UnionAppend(a[2..], b, c); }
  }

  // On points in order the three readings of a set agree.
  lemma {:induction false} InIsUnion(s: seq<nat>, c: int)
    requires NonDecreasing(s) && |s| % 2 == 0
    ensures In(s, c) <==> InUnion(s, c)
  {
    if s != [] {
      InIsUnion(s[2..], c);
      assert s == [s[0]] + ([s[1]] + s[2..]);
      BelowAppend([s[0]], [s[1]] + s[2..], c);
      BelowAppend([s[1]], s[2..], c);
      BelowOne(s[0], c);
      BelowOne(s[1], c);
      if c < s[1] {
        forall k | 0 <= k < |s[2..]| ensures c < s[2..][k] { assert s[1] <= s[k + 2]; }
        BelowNone(s[2..], c);
      }
    }
  }

  lemma {:induction false} UnionIsRanges(s: seq<nat>, c: int)
    ensures InUnion(s, c) <==> InRanges(s, c)
  {
    if |s| >= 2 {
      UnionIsRanges(s[2..], c);
      forall k | 0 <= k < |s[2..]| / 2 ensures HitPair(s[2..], k, c) <==> HitPair(s, k + 1, c) {}
      if InRanges(s, c) {
        var k :| 0 <= k < |s| / 2 && HitPair(s, k, c);
        if k > 0 { assert HitPair(s[2..], k - 1, c); }
      }
      if s[0] <= c < s[1] { assert HitPair(s, 0, c); }
      if InRanges(s[2..], c) {
        var k :| 0 <= k < |s[2..]| / 2 && HitPair(s[2..], k, c);
        assert HitPair(s, k + 1, c);
      }
    }
  }

  datatype SetOp = Union | Inter | Xor

  predicate Combine(op: SetOp, a: bool, b: bool) {
    match op
    case Union => a || b
    case Inter => a && b
    case Xor => a != b
  }

  // Strictly increasing points are determined by the set they denote.
  lemma {:induction false} Canonical(a: seq<nat>, b: seq<nat>)
    requires Increasing(a) && Increasing(b) && |a| % 2 == |b| % 2
    requires forall k :: 0 <= k < |a| ==> a[k] <= UINT32_MAX
    requires forall k :: 0 <= k < |b| ==> b[k] <= UINT32_MAX
    requires forall c :: 0 <= c < UINT32_MAX ==> (In(a, c) <==> In(b, c))
    ensures a == b
    decreases |a|
  {
    if a == [] {
      if b != [] { FirstPoint(b, a); }
    } else if b == [] {
      FirstPoint(a, b);
    } else {
      if a[0] < b[0] { FirstPoint(a, b); }
      if b[0] < a[0] { FirstPoint(b, a); }
      forall c | 0 <= c < UINT32_MAX ensures In(a[1..], c) <==> In(b[1..], c) {
        assert In(a, c) <==> In(b, c);
      }
      Canonical(a[1..], b[1..]);
    }
  }

  // At its first point a set has begun, and one that begins later has not.
  lemma {:induction false} FirstPoint(a: seq<nat>, b: seq<nat>)
    requires Increasing(a) && Increasing(b) && |a| % 2 == |b| % 2 && a != [] && (b == [] || a[0] < b[0])
    requires forall k :: 0 <= k < |a| ==> a[k] <= UINT32_MAX
    requires forall k :: 0 <= k < |b| ==> b[k] <= UINT32_MAX
    ensures a[0] < UINT32_MAX && In(a, a[0]) && !In(b, a[0])
  {
    if b == [] { assert a[0] < a[1]; }
    forall k | 0 <= k < |a[1..]| ensures a[0] < a[1..][k] { assert a[0] < a[k + 1]; }
    BelowNone(a[1..], a[0]);
    forall k | 0 <= k < |b| ensures a[0] < b[k] { assert k > 0 ==> b[0] < b[k]; }
    BelowNone(b, a[0]);
  }

  // What cr_op has done with a[..i] and b[..j]: the points put out denote the combination so far, and
  // nothing put out lies above what is still to come.
  ghost predicate Merged(op: SetOp, a: seq<nat>, i: int, b: seq<nat>, j: int, out: seq<nat>, last: nat) {
    0 <= i <= |a| && 0 <= j <= |b|
    && NonDecreasing(out)
    && (forall c :: In(out, c) <==> Combine(op, In(a[..i], c), In(b[..j], c)))
    && (forall k :: 0 <= k < |out| ==> out[k] <= last)
    && (forall k :: 0 <= k < i ==> a[k] <= last) && (forall k :: 0 <= k < j ==> b[k] <= last)
    && (forall k :: i <= k < |a| ==> last <= a[k]) && (forall k :: j <= k < |b| ==> last <= b[k])
    && (|out| % 2 == 1 <==> Combine(op, i % 2 == 1, j % 2 == 1))
  }

  // One more point v, from a, from b or from both.
  lemma {:induction false} MergeStep(op: SetOp, a: seq<nat>, i: int, b: seq<nat>, j: int, out: seq<nat>, last: nat,
                                     v: nat, fromA: bool, fromB: bool)
    requires NonDecreasing(a) && NonDecreasing(b) && Merged(op, a, i, b, j, out, last) && (fromA || fromB)
    requires fromA ==> i < |a| && v == a[i]
    requires fromB ==> j < |b| && v == b[j]
    requires (i < |a| ==> v <= a[i]) && (j < |b| ==> v <= b[j])
    ensures var i2, j2 := if fromA then i + 1 else i, if fromB then j + 1 else j;
      var isIn := Combine(op, i2 % 2 == 1, j2 % 2 == 1);
      Merged(op, a, i2, b, j2, if isIn != (|out| % 2 == 1) then out + [v] else out, v)
  {
    var i2, j2 := if fromA then i + 1 else i, if fromB then j + 1 else j;
    var isIn := Combine(op, i2 % 2 == 1, j2 % 2 == 1);
    var out2 := if isIn != (|out| % 2 == 1) then out + [v] else out;
    hide In;
    assert last <= v;
    forall c ensures In(out2, c) <==> Combine(op, In(a[..i2], c), In(b[..j2], c)) {
      MergeAt(a, i, i2, v, last, c);
      MergeAt(b, j, j2, v, last, c);
      assert In(out, c) <==> Combine(op, In(a[..i], c), In(b[..j], c));
      PutOut(out, v, isIn, c);
    }
  }

  // The point is put out exactly where the combination turns.
  lemma {:induction false} PutOut(out: seq<nat>, v: nat, isIn: bool, c: int)
    requires forall k :: 0 <= k < |out| ==> out[k] <= v
    ensures var out2 := if isIn != (|out| % 2 == 1) then out + [v] else out;
      (c < v ==> (In(out2, c) <==> In(out, c))) && (v <= c ==> (In(out2, c) <==> isIn))
  {
    BelowAppend(out, [v], c);
    BelowOne(v, c);
    if v <= c { BelowAll(out, c); }
  }

  // Taking the next point v changes the set only from v on, where the count so far decides.
  lemma {:induction false} MergeAt(a: seq<nat>, i: int, i2: int, v: nat, last: nat, c: int)
    requires 0 <= i <= i2 <= i + 1 && i2 <= |a| && (i2 == i + 1 ==> a[i] == v) && last <= v
    requires forall k :: 0 <= k < i ==> a[k] <= last
    ensures c < v ==> (In(a[..i2], c) <==> In(a[..i], c))
    ensures v <= c ==> (In(a[..i2], c) <==> i2 % 2 == 1)
  {
    if i2 == i + 1 {
      assert a[..i2] == a[..i] + [v];
      BelowAppend(a[..i], [v], c);
      BelowOne(v, c);
    }
    if v <= c { BelowAll(a[..i], c); }
  }

  class CharRange {
    var points: seq<nat>

    constructor ()
      ensures points == []
    {
      points := [];
    }

    ghost predicate Valid()
      reads this
    {
      Normalized(points)
    }

    method AddPoint(v: nat)
      modifies this
      ensures points == old(points) + [v]
    {
      points := points + [v];
    }

    method AddInterval(c1: nat, c2: nat)
      modifies this
      ensures points == old(points) + [c1, c2]
      ensures forall c :: |old(points)| % 2 == 0 ==> (InUnion(points, c) <==> InUnion(old(points), c) || c1 <= c < c2)
    {
      points := points + [c1, c2];
      forall c | |old(points)| % 2 == 0 ensures InUnion(points, c) <==> InUnion(old(points), c) || c1 <= c < c2 {
        UnionAppend(old(points), [c1, c2], c);
      }
    }

    // cr_op into an empty range: the points are those of the combined set, strictly increasing.
    method Op(a: seq<nat>, b: seq<nat>, op: SetOp)
      requires points == [] && NonDecreasing(a) && NonDecreasing(b) && |a| % 2 == 0 && |b| % 2 == 0
      modifies this
      ensures Increasing(points) && |points| % 2 == 0
      ensures forall c :: In(points, c) <==> Combine(op, In(a, c), In(b, c))
      ensures op.Union? ==> forall c :: InUnion(points, c) <==> InUnion(a, c) || InUnion(b, c)
      ensures op.Inter? ==> forall c :: InUnion(points, c) <==> InUnion(a, c) && InUnion(b, c)
      ensures op.Xor? ==> forall c :: InUnion(points, c) <==> InUnion(a, c) != InUnion(b, c)
      ensures forall k :: 0 <= k < |points| ==> points[k] in a || points[k] in b
    {
      hide Merged, NonDecreasing, Increasing, Combine, In;
      var aIdx, bIdx := 0, 0;
      ghost var last := 0;
      MergeNone(op, a, b);
      while true
        invariant 0 <= aIdx <= |a| && 0 <= bIdx <= |b|
        invariant Merged(op, a, aIdx, b, bIdx, points, last)
        invariant forall k :: 0 <= k < |points| ==> points[k] in a || points[k] in b
        decreases |a| - aIdx + |b| - bIdx
      {
        var v: nat;
        ghost var i, j := aIdx, bIdx;
        if aIdx < |a| && (bIdx == |b| || a[aIdx] < b[bIdx]) {
          v := a[aIdx];
          aIdx := aIdx + 1;
        } else if aIdx < |a| && a[aIdx] == b[bIdx] {
          v := a[aIdx];
          aIdx := aIdx + 1;
          bIdx := bIdx + 1;
        } else if bIdx < |b| {
          v := b[bIdx];
          bIdx := bIdx + 1;
        } else {
          break;
        }
        MergeStep(op, a, i, b, j, points, last, v, aIdx > i, bIdx > j);
        var isIn := Combine(op, aIdx % 2 == 1, bIdx % 2 == 1);
        if isIn != (|points| % 2 == 1) {
          AddPoint(v);
        }
        last := v;
      }
      MergeAll(op, a, b, points, last);
      Compress();
      CombinedSets(op, a, b, points);
    }

    // cr_compress: empty intervals go, touching ones join, in place.
    method Compress()
      requires NonDecreasing(points) && |points| % 2 == 0
      modifies this
      ensures Increasing(points) && |points| % 2 == 0
      ensures forall c :: In(points, c) <==> In(old(points), c)
      ensures forall k :: 0 <= k < |points| ==> points[k] in old(points)
    {
      hide Packed, In;
      ghost var was := points;
      var len := |points|;
      var i, k := 0, 0;
      PackedNone(was);
      while i + 1 < len
        invariant |points| == len && 0 <= k <= i <= len && i % 2 == 0
        invariant Packed(was, points, i, k)
        decreases len - i
      {
        if points[i] == points[i + 1] {
          PackSkip(was, points, i, k);
          i := i + 2;
        } else {
          var j := i;
          while j + 3 < len && points[j + 1] == points[j + 2]
            invariant i <= j && j % 2 == 0 && j + 1 < len
            invariant forall x :: i < x <= j && x % 2 == 1 ==> points[x] == points[x + 1]
          {
            j := j + 2;
          }
          ghost var pt := points;
          points := points[k := points[i]];
          points := points[k + 1 := points[j + 1]];
          PackRun(was, pt, i, j, k);
          k := k + 2;
          i := j + 2;
        }
      }
      PackedAll(was, points, k);
      points := points[..k];
    }

    // cr_invert: the complement on [0, UINT32_MAX).
    method Invert()
      requires NonDecreasing(points) && |points| % 2 == 0 && forall k :: 0 <= k < |points| ==> points[k] <= UINT32_MAX
      modifies this
      ensures Valid()
      ensures forall c :: 0 <= c < UINT32_MAX ==> (In(points, c) <==> !In(old(points), c))
    {
      hide In;
      points := [0] + points + [UINT32_MAX];
      ghost var bordered := points;
      forall c | 0 <= c < UINT32_MAX ensures In(bordered, c) <==> !In(old(points), c) { Bordered(old(points), c); }
      Compress();
    }

    // cr_union1
    method Union1(b: seq<nat>)
      requires Valid() && NonDecreasing(b) && |b| % 2 == 0 && forall k :: 0 <= k < |b| ==> b[k] <= UINT32_MAX
      modifies this
      ensures Valid()
      ensures forall c :: In(points, c) <==> In(old(points), c) || In(b, c)
    {
      hide In;
      var a := points;
      points := [];
      Op(a, b, Union);
    }

    // cr_union_interval
    method UnionInterval(c1: nat, c2: nat)
      requires Valid() && c1 <= c2 < UINT32_MAX
      modifies this
      ensures Valid()
      ensures forall c :: In(points, c) <==> In(old(points), c) || c1 <= c <= c2
    {
      var b := [c1, c2 + 1];
      forall c ensures In(b, c) <==> c1 <= c <= c2 {
        assert b == [c1] + [c2 + 1];
        BelowAppend([c1], [c2 + 1], c);
        BelowOne(c1, c);
        BelowOne(c2 + 1, c);
      }
      hide In;
      Union1(b);
    }
  }

  lemma MergeNone(op: SetOp, a: seq<nat>, b: seq<nat>)
    ensures Merged(op, a, 0, b, 0, [], 0)
  {
  }

  lemma MergeAll(op: SetOp, a: seq<nat>, b: seq<nat>, out: seq<nat>, last: nat)
    requires |a| % 2 == 0 && |b| % 2 == 0 && Merged(op, a, |a|, b, |b|, out, last)
    ensures NonDecreasing(out) && |out| % 2 == 0
    ensures forall c :: In(out, c) <==> Combine(op, In(a, c), In(b, c))
  {
    assert a[..|a|] == a && b[..|b|] == b;
  }

  // The three operations, read over the intervals.
  lemma {:induction false} CombinedSets(op: SetOp, a: seq<nat>, b: seq<nat>, out: seq<nat>)
    requires NonDecreasing(a) && NonDecreasing(b) && Increasing(out) && |a| % 2 == 0 && |b| % 2 == 0 && |out| % 2 == 0
    requires forall c :: In(out, c) <==> Combine(op, In(a, c), In(b, c))
    ensures op.Union? ==> forall c :: InUnion(out, c) <==> InUnion(a, c) || InUnion(b, c)
    ensures op.Inter? ==> forall c :: InUnion(out, c) <==> InUnion(a, c) && InUnion(b, c)
    ensures op.Xor? ==> forall c :: InUnion(out, c) <==> InUnion(a, c) != InUnion(b, c)
  {
    hide In, InUnion;
    forall c ensures InUnion(out, c) <==> Combine(op, InUnion(a, c), InUnion(b, c)) {
      InIsUnion(a, c);
      InIsUnion(b, c);
      InIsUnion(out, c);
    }
  }

  lemma {:induction false} Bordered(s: seq<nat>, c: int)
    requires 0 <= c < UINT32_MAX
    ensures In([0] + s + [UINT32_MAX], c) <==> !In(s, c)
  {
    BelowAppend([0] + s, [UINT32_MAX], c);
    BelowAppend([0], s, c);
    BelowOne(0, c);
    BelowOne(UINT32_MAX, c);
  }

  // cr_compress after reading i points: the first k places hold the same set, strictly increasing and below
  // what is still to come, which has not been touched.
  ghost predicate Packed(was: seq<nat>, pt: seq<nat>, i: int, k: int) {
    NonDecreasing(was) && |pt| == |was| && 0 <= k <= i <= |was| && k % 2 == 0 && i % 2 == 0
    && pt[i..] == was[i..] && Increasing(pt[..k])
    && (forall c :: In(pt[..k], c) <==> In(was[..i], c))
    && (forall x :: 0 <= x < k ==> pt[x] in was)
    && (k > 0 && i < |was| ==> pt[k - 1] < was[i])
  }

  lemma PackedNone(was: seq<nat>)
    requires NonDecreasing(was)
    ensures Packed(was, was, 0, 0)
  {
  }

  lemma PackedAll(was: seq<nat>, pt: seq<nat>, k: int)
    requires |was| % 2 == 0 && Packed(was, pt, |was|, k)
    ensures Increasing(pt[..k]) && k % 2 == 0 && (forall c :: In(pt[..k], c) <==> In(was, c)) && 0 <= k <= |pt|
    ensures forall x :: 0 <= x < k ==> pt[x] in was
  {
    assert was[..|was|] == was;
  }

  // A pair of equal points changes nothing.
  lemma {:induction false} PackSkip(was: seq<nat>, pt: seq<nat>, i: int, k: int)
    requires Packed(was, pt, i, k) && i + 1 < |was| && pt[i] == pt[i + 1]
    ensures Packed(was, pt, i + 2, k)
  {
    assert was[i..][0] == pt[i..][0] && was[i..][1] == pt[i..][1];
    assert pt[i + 2..] == pt[i..][2..] && was[i + 2..] == was[i..][2..];
    forall c ensures In(was[..i + 2], c) <==> In(was[..i], c) {
      assert was[..i + 2] == was[..i] + ([was[i]] + [was[i + 1]]);
      BelowAppend(was[..i], [was[i]] + [was[i + 1]], c);
      BelowAppend([was[i]], [was[i + 1]], c);
    }
  }

  // Inside a run of touching intervals only the first and the last point count.
  lemma {:induction false} RunPoints(was: seq<nat>, i: int, j: int, c: int)
    requires 0 <= i <= j && j + 1 < |was| && i % 2 == 0 && j % 2 == 0
    requires forall x :: i < x <= j && x % 2 == 1 ==> was[x] == was[x + 1]
    ensures In(was[i..j + 2], c) <==> In([was[i], was[j + 1]], c)
    decreases j
  {
    hide Below;
    if i == j {
      assert was[i..j + 2] == [was[i], was[j + 1]];
    } else {
      RunPoints(was, i, j - 2, c);
      var two := [was[j]] + [was[j + 1]];
      assert was[i..j + 2] == was[i..j] + two;
      BelowAppend(was[i..j], two, c);
      BelowAppend([was[j]], [was[j + 1]], c);
      assert [was[i], was[j - 1]] == [was[i]] + [was[j - 1]] && [was[i], was[j + 1]] == [was[i]] + [was[j + 1]];
      BelowAppend([was[i]], [was[j - 1]], c);
      BelowAppend([was[i]], [was[j + 1]], c);
    }
  }

  lemma {:induction false} PackRun(was: seq<nat>, pt: seq<nat>, i: int, j: int, k: int)
    requires Packed(was, pt, i, k) && i <= j && j + 1 < |was| && j % 2 == 0 && |was| % 2 == 0 && pt[i] != pt[i + 1]
    requires forall x :: i < x <= j && x % 2 == 1 ==> pt[x] == pt[x + 1]
    requires j + 3 < |was| ==> pt[j + 1] != pt[j + 2]
    ensures Packed(was, pt[k := pt[i]][k + 1 := pt[j + 1]], j + 2, k + 2)
  {
    hide In;
    var qt := pt[k := pt[i]][k + 1 := pt[j + 1]];
    forall x | i <= x < |was| ensures pt[x] == was[x] { assert pt[i..][x - i] == was[i..][x - i]; }
    assert was[i] < was[i + 1] <= was[j + 1];
    var packed, read := qt[..k + 2], was[..j + 2];
    assert packed == pt[..k] + [was[i], was[j + 1]];
    assert qt[j + 2..] == was[j + 2..];
    forall c ensures In(packed, c) <==> In(read, c) { RunSame(was, pt, i, j, k, c); }
    if j + 2 < |was| { assert was[j + 1] < was[j + 2]; }
    forall x, y | 0 <= x < y < k + 2 ensures packed[x] < packed[y] {
      if x < k && y >= k {
        assert pt[..k][x] <= pt[..k][k - 1] by { if x < k - 1 { assert pt[..k][x] < pt[..k][k - 1]; } }
      } else if y < k {
        assert pt[..k][x] < pt[..k][y];
      }
    }
  }

  lemma {:induction false} RunSame(was: seq<nat>, pt: seq<nat>, i: int, j: int, k: int, c: int)
    requires 0 <= k <= i <= j && j + 1 < |was| && |pt| == |was| && i % 2 == 0 && j % 2 == 0
    requires forall x :: i < x <= j && x % 2 == 1 ==> was[x] == was[x + 1]
    requires In(pt[..k], c) <==> In(was[..i], c)
    ensures In(pt[..k] + [was[i], was[j + 1]], c) <==> In(was[..j + 2], c)
  {
    hide Below;
    RunPoints(was, i, j, c);
    assert was[..j + 2] == was[..i] + was[i..j + 2];
    BelowAppend(was[..i], was[i..j + 2], c);
    BelowAppend(pt[..k], [was[i], was[j + 1]], c);
  }

  // Inverting twice gives back the points themselves.
  lemma InvertTwice(s: seq<nat>, once: seq<nat>, twice: seq<nat>)
    requires Normalized(s) && Normalized(once) && Normalized(twice)
    requires forall c :: 0 <= c < UINT32_MAX ==> (In(once, c) <==> !In(s, c))
    requires forall c :: 0 <= c < UINT32_MAX ==> (In(twice, c) <==> !In(once, c))
    ensures twice == s
  {
    hide In;
    Canonical(twice, s);
  }

  // Sorting and merging arbitrary intervals.

  datatype Interval = Interval(start: nat, end: nat)

  function Flat(s: seq<Interval>): (r: seq<nat>)
    ensures |r| == 2 * |s|
  {
    if s == [] then [] else [s[0].start, s[0].end] + Flat(s[1..])
  }

  function Pairs(s: seq<nat>): (r: seq<Interval>)
    requires |s| % 2 == 0
    ensures |r| == |s| / 2
  {
    if s == [] then [] else [Interval(s[0], s[1])] + Pairs(s[2..])
  }

  lemma {:induction false} FlatPairs(s: seq<nat>)
    requires |s| % 2 == 0
    ensures Flat(Pairs(s)) == s
  {
    if s != [] {
      FlatPairs(s[2..]);
      assert Pairs(s)[1..] == Pairs(s[2..]);
    }
  }

  predicate Holds(x: Interval, c: int) { x.start <= c < x.end }

  predicate InAny(s: seq<Interval>, c: int) { exists x :: x in s && Holds(x, c) }

  lemma {:induction false} FlatUnion(s: seq<Interval>, c: int)
    ensures InUnion(Flat(s), c) <==> InAny(s, c)
  {
    if s != [] {
      FlatUnion(s[1..], c);
      assert Flat(s)[2..] == Flat(s[1..]);
      if Holds(s[0], c) { assert s[0] in s; }
      if InAny(s[1..], c) {
        var x :| x in s[1..] && Holds(x, c);
        assert x in s;
      }
      if InAny(s, c) {
        var x :| x in s && Holds(x, c);
        assert x == s[0] || x in s[1..];
      }
    }
  }

  ghost predicate Exactly(s: seq<Interval>, start: nat, end: nat) { forall c :: InAny(s, c) <==> start <= c < end }

  function PointCmp(x: Interval, y: Interval): int {
    (if x.start > y.start then 1 else 0) - (if x.start < y.start then 1 else 0)
  }

  lemma PointCmpOrders()
    ensures QSort.TotalPreorder(PointCmp)
  {
  }

  // Intervals apart, in order, and none of them upside down.
  ghost predicate Apart(s: seq<Interval>) {
    (forall k :: 0 <= k < |s| ==> s[k].start <= s[k].end)
    && (forall j, k :: 0 <= j < k < |s| ==> s[j].end < s[k].start)
  }

  // The merge loop of cr_sort_and_remove_overlap on intervals sorted by start.
  method MergeOverlaps(s: seq<Interval>) returns (r: seq<Interval>)
    requires forall j, k :: 0 <= j < k < |s| ==> s[j].start <= s[k].start
    requires forall k :: 0 <= k < |s| ==> s[k].start <= s[k].end
    ensures Apart(r) && forall c :: InAny(r, c) <==> InAny(s, c)
  {
    r := [];
    var i := 0;
    while i < |s|
      invariant 0 <= i <= |s| && Apart(r)
      invariant forall c :: InAny(r, c) <==> InAny(s[..i], c)
      invariant i < |s| && r != [] ==> r[|r| - 1].end < s[i].start
      decreases |s| - i
    {
      hide InAny;
      ghost var from := i;
      var start, end := s[i].start, s[i].end;
      i := i + 1;
      OneInterval(s, from);
      while i < |s|
        invariant from < i <= |s| && start <= end && start == s[from].start
        invariant Exactly(s[from..i], start, end)
        decreases |s| - i
      {
        var start1, end1 := s[i].start, s[i].end;
        if start1 > end { break; }
        MoreIntervals(s, from, i, start, end);
        if end1 > end { end := end1; }
        i := i + 1;
      }
      AddMerged(s, from, i, r, Interval(start, end));
      r := r + [Interval(start, end)];
    }
    assert s[..i] == s;
  }

  lemma InSplit(a: seq<Interval>, b: seq<Interval>, c: int)
    ensures InAny(a + b, c) <==> InAny(a, c) || InAny(b, c)
  {
    if InAny(a, c) { var x :| x in a && Holds(x, c); assert x in a + b; }
    if InAny(b, c) { var x :| x in b && Holds(x, c); assert x in a + b; }
    if InAny(a + b, c) { var x :| x in a + b && Holds(x, c); assert x in a || x in b; }
  }

  lemma InOne(x: Interval, c: int)
    ensures InAny([x], c) <==> Holds(x, c)
  {
    assert x in [x];
  }

  lemma OneInterval(s: seq<Interval>, i: int)
    requires 0 <= i < |s|
    ensures Exactly(s[i..i + 1], s[i].start, s[i].end)
  {
    hide InAny;
    var one := s[i..i + 1];
    assert one == [s[i]];
    forall c ensures InAny(one, c) <==> s[i].start <= c < s[i].end { InOne(s[i], c); }
  }

  // An interval that starts no later than end joins on.
  lemma MoreIntervals(s: seq<Interval>, from: int, i: int, start: nat, end: nat)
    requires 0 <= from < i < |s| && start <= s[i].start <= end && start <= end && s[i].start <= s[i].end
    requires Exactly(s[from..i], start, end)
    ensures Exactly(s[from..i + 1], start, if s[i].end > end then s[i].end else end)
  {
    hide InAny;
    var more, one := s[from..i + 1], [s[i]];
    assert more == s[from..i] + one;
    forall c ensures InAny(more, c) <==> start <= c < if s[i].end > end then s[i].end else end {
      InSplit(s[from..i], one, c);
      InOne(s[i], c);
    }
  }

  lemma AddMerged(s: seq<Interval>, from: int, i: int, r: seq<Interval>, x: Interval)
    requires 0 <= from < i <= |s|
    requires forall c :: InAny(r, c) <==> InAny(s[..from], c)
    requires Exactly(s[from..i], x.start, x.end)
    ensures forall c :: InAny(r + [x], c) <==> InAny(s[..i], c)
  {
    hide InAny;
    var all, read := r + [x], s[..i];
    assert read == s[..from] + s[from..i];
    forall c ensures InAny(all, c) <==> InAny(read, c) {
      InSplit(r, [x], c);
      InOne(x, c);
      InSplit(s[..from], s[from..i], c);
    }
  }

  // Every end point lies below the next start point.
  ghost predicate EndsBelowStarts(s: seq<nat>) {
    forall k :: 0 <= k < |s| && k % 2 == 1 && k + 1 < |s| ==> s[k] < s[k + 1]
  }

  lemma {:induction false} FlatApart(s: seq<Interval>)
    requires Apart(s)
    ensures NonDecreasing(Flat(s)) && EndsBelowStarts(Flat(s))
    ensures forall k :: 0 <= k < |Flat(s)| ==> s != [] && s[0].start <= Flat(s)[k]
  {
    hide NonDecreasing, EndsBelowStarts;
    if s != [] {
      forall k | 0 <= k < |s[1..]| ensures s[0].end < s[1..][k].start { assert s[0].end < s[k + 1].start; }
      FlatApart(s[1..]);
      assert forall k :: 0 <= k < |Flat(s[1..])| ==> s[0].end < Flat(s[1..])[k];
      PutBefore(s[0], Flat(s[1..]));
    } else {
      FlatNone();
    }
  }

  lemma FlatNone()
    ensures NonDecreasing(Flat([])) && EndsBelowStarts(Flat([]))
  {
  }

  lemma {:induction false} PutBefore(x: Interval, rest: seq<nat>)
    requires x.start <= x.end && NonDecreasing(rest) && EndsBelowStarts(rest)
    requires forall k :: 0 <= k < |rest| ==> x.end < rest[k]
    ensures var s := [x.start, x.end] + rest;
      NonDecreasing(s) && EndsBelowStarts(s) && forall k :: 0 <= k < |s| ==> x.start <= s[k]
  {
    var s := [x.start, x.end] + rest;
    assert forall k :: 2 <= k < |s| ==> s[k] == rest[k - 2];
  }

  // cr_sort_and_remove_overlap: the same union, as intervals in order that neither overlap nor touch.
  method SortAndRemoveOverlap(cr: CharRange)
    requires |cr.points| % 2 == 0 && forall x :: x in Pairs(cr.points) ==> x.start <= x.end
    modifies cr
    ensures NonDecreasing(cr.points) && |cr.points| % 2 == 0 && EndsBelowStarts(cr.points)
    ensures forall c :: InUnion(cr.points, c) <==> InUnion(old(cr.points), c)
  {
    ghost var was := cr.points;
    var pairs := Pairs(cr.points);
    var a := new Interval[|pairs|](k requires 0 <= k < |pairs| => pairs[k]);
    assert a[..] == pairs;
    PointCmpOrders();
    QSort.RQSort(a, PointCmp);
    var sorted := a[..];
    SortedPairs(pairs, sorted);
    var merged := MergeOverlaps(sorted);
    cr.points := Flat(merged);
    FlatApart(merged);
    forall c ensures InUnion(cr.points, c) <==> InUnion(was, c) {
      FlatUnion(merged, c);
      FlatUnion(pairs, c);
      FlatPairs(was);
    }
  }

  lemma SortedPairs(pairs: seq<Interval>, sorted: seq<Interval>)
    requires multiset(sorted) == multiset(pairs) && QSort.Sorted(sorted, PointCmp, 0, |sorted|)
    requires forall x :: x in pairs ==> x.start <= x.end
    ensures forall j, k :: 0 <= j < k < |sorted| ==> sorted[j].start <= sorted[k].start
    ensures forall k :: 0 <= k < |sorted| ==> sorted[k].start <= sorted[k].end
    ensures forall c :: InAny(sorted, c) <==> InAny(pairs, c)
  {
    forall x ensures x in sorted <==> x in pairs {
      assert x in sorted <==> x in multiset(sorted);
      assert x in pairs <==> x in multiset(pairs);
    }
    forall k | 0 <= k < |sorted| ensures sorted[k].start <= sorted[k].end { assert sorted[k] in sorted; }
    forall j, k | 0 <= j < k < |sorted| ensures sorted[j].start <= sorted[k].start {
      assert PointCmp(sorted[j], sorted[k]) <= 0;
    }
  }
}
