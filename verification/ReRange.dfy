// Character sets as sorted points, the range instructions emitted for them, and the
// binary search that runs them (libregexp.c:768-804 and 2286-2362).
module ReRange {
  import opened ReText
  import opened ReCode

  // points[0] <= c < points[1], or points[2] <= c < points[3], ...
  predicate InRanges(points: seq<nat>, c: int) {
    exists k :: 0 <= k < |points| / 2 && HitPair(points, k, c)
  }

  predicate HitPair(points: seq<nat>, k: int, c: int)
    requires 0 <= k && 2 * k + 1 < |points|
  {
    points[2 * k] <= c < points[2 * k + 1]
  }

  // What cr_compress leaves: even length, strictly increasing, 32 bits.
  ghost predicate Normalized(points: seq<nat>) {
    |points| % 2 == 0 && (forall i, j :: 0 <= i < j < |points| ==> points[i] < points[j])
    && (forall i :: 0 <= i < |points| ==> points[i] <= UINT32_MAX)
  }

  function Bound(points: seq<nat>, i: int, top: nat): nat
    requires 0 <= i < |points|
  {
    if i % 2 == 0 then points[i]
    else if points[i] == UINT32_MAX then top
    else if points[i] == 0 then UINT32_MAX else points[i] - 1
  }

  // The inclusive bounds written after the opcode; top stands for UINT32_MAX - 1.
  function Bounds(points: seq<nat>, top: nat): (r: seq<nat>)
    ensures |r| == |points|
  {
    seq(|points|, i requires 0 <= i < |points| => Bound(points, i, top))
  }

  function RangeInstr(points: seq<nat>): Instr {
    if |points| < 2 then Char32(UINT32_MAX)
    else
      var last := points[|points| - 1];
      var high := if last == UINT32_MAX then points[|points| - 2] else last;
      if high <= 0xFFFF then Range16(Bounds(points, 0xFFFF)) else Range32(Bounds(points, UINT32_MAX - 1))
  }

  // The search loop of both instructions, from idxMin to idxMax.
  function Search(b: seq<nat>, c: int, lo: int, hi: int): bool
    requires 0 <= lo && 2 * hi + 1 < |b|
    decreases hi - lo + 1
  {
    if lo > hi then false
    else
      var idx := (lo + hi) / 2;
      if c < b[2 * idx] then Search(b, c, lo, idx - 1)
      else if c > b[2 * idx + 1] then Search(b, c, idx + 1, hi)
      else true
  }

  function RangeHit(i: Instr, c: int): bool
    requires i.Range16? || i.Range32?
  {
    var b := i.bounds;
    if |b| < 2 || |b| % 2 != 0 then false
    else if c < b[0] then false
    else if i.Range16? && c >= 0xFFFF && b[|b| - 1] == 0xFFFF then true
    else if c > b[|b| - 1] then false
    else Search(b, c, 0, |b| / 2 - 1)
  }

  // lo <= hi in each pair, each pair above the one before.
  ghost predicate Ascending(b: seq<nat>) {
    forall i, j :: 0 <= i < j < |b| ==> b[i] <= b[j] && (i % 2 == 1 ==> b[i] < b[j])
  }

  predicate Within(b: seq<nat>, k: int, c: int)
    requires 0 <= k && 2 * k + 1 < |b|
  {
    b[2 * k] <= c <= b[2 * k + 1]
  }

  lemma PairsApart(b: seq<nat>, c: int, i: nat, j: nat)
    requires Ascending(b) && i < j && 2 * j + 1 < |b|
    ensures c < b[2 * i] ==> !Within(b, j, c)
    ensures c > b[2 * j + 1] ==> !Within(b, i, c)
  {
    assert b[2 * i] <= b[2 * j] && b[2 * i + 1] <= b[2 * j + 1];
  }

  ghost predicate Found(b: seq<nat>, c: int, lo: int, hi: int)
    requires 0 <= lo && 2 * hi + 1 < |b|
  {
    exists k :: lo <= k <= hi && Within(b, k, c)
  }

  // On ascending intervals the search finds c exactly when some interval in [lo, hi] holds it.
  lemma {:induction false} SearchFinds(b: seq<nat>, c: int, lo: int, hi: int)
    requires Ascending(b) && 0 <= lo && 2 * hi + 1 < |b|
    ensures Search(b, c, lo, hi) <==> Found(b, c, lo, hi)
    decreases hi - lo + 1
  {
    hide Ascending;
    if lo <= hi {
      var idx := (lo + hi) / 2;
      if c < b[2 * idx] {
        SearchFinds(b, c, lo, idx - 1);
        forall k | idx < k <= hi ensures !Within(b, k, c) { PairsApart(b, c, idx, k); }
      } else if c > b[2 * idx + 1] {
        SearchFinds(b, c, idx + 1, hi);
        forall k | lo <= k < idx ensures !Within(b, k, c) { PairsApart(b, c, k, idx); }
      } else {
        assert Within(b, idx, c);
      }
    }
  }

  lemma RangeInstrEncodable(points: seq<nat>)
    requires Normalized(points) && |points| / 2 < 65535
    ensures Encodable(RangeInstr(points))
  {
    if |points| >= 2 {
      var n := |points|;
      forall i | 0 <= i < n ensures Bound(points, i, 0xFFFF) <= UINT32_MAX
          && Bound(points, i, UINT32_MAX - 1) <= UINT32_MAX {}
      assert points[n - 2] < points[n - 1];
      if RangeInstr(points).Range16? {
        forall i | 0 <= i < n ensures Bound(points, i, 0xFFFF) < 0x1_0000 {
          if i < n - 2 { assert points[i] < points[n - 2]; }
          if i % 2 == 1 { assert points[i - 1] < points[i]; }
        }
      }
    }
  }

  // Matching the emitted instruction by binary search accepts exactly the set.
  lemma RangeAccepts(points: seq<nat>, c: CodePoint)
    requires Normalized(points)
    ensures RangeInstr(points).Char32? <==> points == []
    ensures points == [] ==> !InRanges(points, c) && RangeInstr(points).c != c
    ensures points != [] ==> (RangeHit(RangeInstr(points), c) <==> InRanges(points, c))
  {
    hide Search, Ascending, Bound;
    if points != [] {
      var n, i := |points|, RangeInstr(points);
      var top := if i.Range16? then 0xFFFF else UINT32_MAX - 1;
      assert points[n - 2] < points[n - 1];
      BoundsAscend(points, top);
      BoundAt(points, top, 0);
      BoundAt(points, top, n - 1);
      SearchFinds(i.bounds, c, 0, n / 2 - 1);
      if i.Range16? && c >= 0xFFFF && i.bounds[n - 1] == 0xFFFF { TopPair(points, c); }
          else { PairsAgree(points, top, c); }
    }
  }

  lemma BoundAt(points: seq<nat>, top: nat, i: nat)
    requires Normalized(points) && i < |points| && (|points| >= 2 ==> points[|points| - 2] <= top)
    ensures i % 2 == 0 ==> Bound(points, i, top) == points[i] <= top
    ensures i % 2 == 1 ==> Bound(points, i, top) as int == if points[i] == UINT32_MAX then top else points[i] as int - 1
    ensures i % 2 == 1 && points[i] == UINT32_MAX ==> i == |points| - 1
  {
    var n := |points|;
    if i % 2 == 1 { assert points[i - 1] < points[i]; }
    if i < n - 1 { assert points[i] < points[n - 1]; }
    if i < n - 2 { assert points[i] < points[n - 2]; }
  }

  lemma BoundsAscend(points: seq<nat>, top: nat)
    requires Normalized(points) && |points| >= 2 && points[|points| - 2] <= top
    ensures Ascending(Bounds(points, top))
  {
    hide Bound;
    var n, b := |points|, Bounds(points, top);
    forall i, j | 0 <= i < j < n ensures b[i] <= b[j] && (i % 2 == 1 ==> b[i] < b[j]) {
      BoundAt(points, top, i);
      BoundAt(points, top, j);
      assert points[i] < points[j];
    }
  }

  // Pair by pair the inclusive bounds hold the same characters, up to the meaning of top.
  lemma PairsAgree(points: seq<nat>, top: nat, c: CodePoint)
    requires Normalized(points) && |points| >= 2 && points[|points| - 2] <= top
    requires points[|points| - 1] == UINT32_MAX ==> c <= top
    ensures InRanges(points, c) <==> Found(Bounds(points, top), c, 0, |points| / 2 - 1)
    ensures InRanges(points, c) ==> Bounds(points, top)[0] <= c <= Bounds(points, top)[|points| - 1]
  {
    hide Bound;
    var n, b := |points|, Bounds(points, top);
    forall k | 0 <= k < n / 2 ensures HitPair(points, k, c) <==> Within(b, k, c) {
      BoundAt(points, top, 2 * k);
      BoundAt(points, top, 2 * k + 1);
    }
    if InRanges(points, c) {
      var k :| 0 <= k < n / 2 && HitPair(points, k, c);
      assert Within(b, k, c);
      BoundsAscend(points, top);
      assert 0 < 2 * k ==> b[0] <= b[2 * k];
      assert 2 * k + 1 < n - 1 ==> b[2 * k + 1] <= b[n - 1];
    }
  }

  lemma TopPair(points: seq<nat>, c: CodePoint)
    requires Normalized(points) && |points| >= 2 && RangeInstr(points).Range16?
    requires c >= 0xFFFF && Bounds(points, 0xFFFF)[|points| - 1] == 0xFFFF
    ensures InRanges(points, c)
    ensures Bounds(points, 0xFFFF)[0] <= c
  {
    var n := |points|;
    assert points[n - 2] < points[n - 1];
    assert HitPair(points, n / 2 - 1, c);
    assert 0 < n - 2 ==> points[0] < points[n - 2];
  }
}
