// rqsort: three-way quicksort on an explicit stack, with heapsort and insertion sort (cutils.c:470-629).
module QSort {
  // A comparison like that of qsort: the sign of cmp(x, y) orders x against y.
  ghost predicate TotalPreorder<T(!new)>(cmp: (T, T) -> int) {
    (forall x, y :: cmp(x, y) < 0 <==> cmp(y, x) > 0)
    && (forall x, y, z :: cmp(x, y) <= 0 && cmp(y, z) <= 0 ==> cmp(x, z) <= 0)
  }

  lemma Flip<T(!new)>(cmp: (T, T) -> int, x: T, y: T)
    requires TotalPreorder(cmp)
    ensures cmp(x, y) < 0 <==> cmp(y, x) > 0
    ensures cmp(x, y) > 0 <==> cmp(y, x) < 0
    ensures cmp(x, y) == 0 <==> cmp(y, x) == 0
  {
  }

  lemma Trans<T(!new)>(cmp: (T, T) -> int, x: T, y: T, z: T)
    requires TotalPreorder(cmp) && cmp(x, y) <= 0 && cmp(y, z) <= 0
    ensures cmp(x, z) <= 0
  {
  }

  ghost predicate Sorted<T>(s: seq<T>, cmp: (T, T) -> int, lo: int, hi: int)
    requires 0 <= lo && hi <= |s|
  {
    forall i, j :: lo <= i < j < hi ==> cmp(s[i], s[j]) <= 0
  }

  // t is s with the elements of [lo, hi) in another order.
  ghost predicate Rearranged<T>(s: seq<T>, t: seq<T>, lo: int, hi: int) {
    0 <= lo <= hi <= |s| && |t| == |s| && multiset(t[lo..hi]) == multiset(s[lo..hi])
    && (forall k :: 0 <= k < lo ==> t[k] == s[k]) && (forall k :: hi <= k < |s| ==> t[k] == s[k])
  }

  lemma RearrangedSame<T>(s: seq<T>, lo: int, hi: int)
    requires 0 <= lo <= hi <= |s|
    ensures Rearranged(s, s, lo, hi)
  {
  }

  lemma RearrangedTrans<T>(s: seq<T>, t: seq<T>, u: seq<T>, lo: int, hi: int)
    requires Rearranged(s, t, lo, hi) && Rearranged(t, u, lo, hi)
    ensures Rearranged(s, u, lo, hi)
  {
  }

  lemma RearrangedWider<T>(s: seq<T>, t: seq<T>, lo: int, hi: int, lo2: int, hi2: int)
    requires Rearranged(s, t, lo, hi) && 0 <= lo2 <= lo && hi <= hi2 <= |s|
    ensures Rearranged(s, t, lo2, hi2)
  {
    assert s[lo2..hi2] == s[lo2..lo] + s[lo..hi] + s[hi..hi2];
    assert t[lo2..hi2] == t[lo2..lo] + t[lo..hi] + t[hi..hi2];
    assert s[lo2..lo] == t[lo2..lo] && s[hi..hi2] == t[hi..hi2];
  }

  // Each element of the segment was there before.
  lemma RearrangedFrom<T>(s: seq<T>, t: seq<T>, lo: int, hi: int, k: int) returns (j: int)
    requires Rearranged(s, t, lo, hi) && lo <= k < hi
    ensures lo <= j < hi && s[j] == t[k]
  {
    assert t[lo..hi][k - lo] == t[k];
    assert t[k] in multiset(t[lo..hi]);
    assert t[k] in multiset(s[lo..hi]);
    assert t[k] in s[lo..hi];
    var i :| 0 <= i < hi - lo && s[lo..hi][i] == t[k];
    j := lo + i;
  }

  function Swapped<T>(s: seq<T>, i: int, j: int): (t: seq<T>)
    requires 0 <= i < |s| && 0 <= j < |s|
    ensures |t| == |s|
  {
    s[i := s[j]][j := s[i]]
  }

  lemma SwapRearranged<T>(s: seq<T>, i: int, j: int, lo: int, hi: int)
    requires 0 <= lo <= i < hi <= |s| && lo <= j < hi
    ensures Rearranged(s, Swapped(s, i, j), lo, hi)
  {
    var w := s[lo..hi];
    assert Swapped(s, i, j)[lo..hi] == w[i - lo := w[j - lo]][j - lo := w[i - lo]];
  }

  lemma SwapStep<T>(was: seq<T>, s: seq<T>, t: seq<T>, i: int, j: int, lo: int, hi: int)
    requires Rearranged(was, s, lo, hi) && lo <= i < hi && lo <= j < hi && t == Swapped(s, i, j)
    ensures Rearranged(was, t, lo, hi)
  {
    SwapRearranged(s, i, j, lo, hi);
    RearrangedTrans(was, s, t, lo, hi);
  }

  lemma StepWithin<T>(was: seq<T>, s: seq<T>, t: seq<T>, lo: int, hi: int, lo2: int, hi2: int)
    requires Rearranged(was, s, lo, hi) && Rearranged(s, t, lo2, hi2) && lo <= lo2 && hi2 <= hi
    ensures Rearranged(was, t, lo, hi)
  {
    RearrangedWider(s, t, lo2, hi2, lo, hi);
    RearrangedTrans(was, s, t, lo, hi);
  }

  method Swap<T>(a: array<T>, i: int, j: int)
    requires 0 <= i < a.Length && 0 <= j < a.Length
    modifies a
    ensures a[..] == Swapped(old(a[..]), i, j)
  {
    a[i], a[j] := a[j], a[i];
  }

  // Insertion sort of the n elements from ptr.
  method InsertionSort<T(!new)>(a: array<T>, cmp: (T, T) -> int, ptr: int, n: int)
    requires TotalPreorder(cmp) && 0 <= ptr && 0 <= n && ptr + n <= a.Length
    modifies a
    ensures Rearranged(old(a[..]), a[..], ptr, ptr + n) && Sorted(a[..], cmp, ptr, ptr + n)
  {
    hide TotalPreorder, Rearranged;
    var pi, top := ptr + 1, ptr + n;
    RearrangedSame(a[..], ptr, ptr + n);
    while pi < top
      invariant ptr < pi && (pi <= top || n == 0)
      invariant Rearranged(old(a[..]), a[..], ptr, ptr + n)
      invariant n > 0 ==> Sorted(a[..], cmp, ptr, pi)
    {
      Sink(a, cmp, ptr, pi, old(a[..]), top);
      pi := pi + 1;
    }
  }

  // The inner loop: a[pi] moves down to its place.
  method Sink<T(!new)>(a: array<T>, cmp: (T, T) -> int, ptr: int, pi: int, ghost was: seq<T>, ghost top: int)
    requires TotalPreorder(cmp) && 0 <= ptr < pi < top <= a.Length
    requires Rearranged(was, a[..], ptr, top) && Sorted(a[..], cmp, ptr, pi)
    modifies a
    ensures Rearranged(was, a[..], ptr, top) && Sorted(a[..], cmp, ptr, pi + 1)
  {
    hide TotalPreorder, Rearranged, AllButOne, Swapped;
    var pj := pi;
    AllButLast(a[..], cmp, ptr, pi);
    while pj > ptr && cmp(a[pj - 1], a[pj]) > 0
      invariant ptr <= pj <= pi && Rearranged(was, a[..], ptr, top)
      invariant AllButOne(a[..], cmp, ptr, pi, pj)
    {
      ghost var s := a[..];
      Swap(a, pj, pj - 1);
      SwapStep(was, s, a[..], pj, pj - 1, ptr, top);
      SinkStep(s, cmp, ptr, pi, pj);
      pj := pj - 1;
    }
    Sunk(a[..], cmp, ptr, pi, pj);
  }

  // In order but for what stands before pj.
  ghost predicate AllButOne<T>(s: seq<T>, cmp: (T, T) -> int, lo: int, pi: int, pj: int)
    requires 0 <= lo && pi < |s|
  {
    forall i, j :: lo <= i < j <= pi && j != pj ==> cmp(s[i], s[j]) <= 0
  }

  lemma AllButLast<T>(s: seq<T>, cmp: (T, T) -> int, lo: int, pi: int)
    requires 0 <= lo <= pi < |s| && Sorted(s, cmp, lo, pi)
    ensures AllButOne(s, cmp, lo, pi, pi)
  {
  }

  lemma SinkStep<T(!new)>(s: seq<T>, cmp: (T, T) -> int, lo: int, pi: int, pj: int)
    requires TotalPreorder(cmp) && 0 <= lo < pj <= pi < |s| && AllButOne(s, cmp, lo, pi, pj)
    requires cmp(s[pj - 1], s[pj]) > 0
    ensures AllButOne(Swapped(s, pj, pj - 1), cmp, lo, pi, pj - 1)
  {
    hide TotalPreorder;
    Flip(cmp, s[pj - 1], s[pj]);
  }

  lemma Sunk<T(!new)>(s: seq<T>, cmp: (T, T) -> int, lo: int, pi: int, pj: int)
    requires TotalPreorder(cmp) && 0 <= lo <= pj <= pi < |s| && AllButOne(s, cmp, lo, pi, pj)
    requires pj > lo ==> cmp(s[pj - 1], s[pj]) <= 0
    ensures Sorted(s, cmp, lo, pi + 1)
  {
    hide TotalPreorder;
    forall i | lo <= i < pj ensures cmp(s[i], s[pj]) <= 0 {
      if i < pj - 1 { Trans(cmp, s[i], s[pj - 1], s[pj]); }
    }
  }

  // Heapsort.

  function Parent(k: int): int { (k - 1) / 2 }

  predicate NotAbove<T>(s: seq<T>, cmp: (T, T) -> int, base: int, k: int, j: int)
    requires 0 <= base + k < |s| && 0 <= base + j < |s|
  {
    cmp(s[base + k], s[base + j]) <= 0
  }

  // Parents from position from on are not below their children, except perhaps at hole.
  ghost predicate Heap<T>(s: seq<T>, cmp: (T, T) -> int, base: int, from: int, n: int, hole: int)
    requires 0 <= base && 0 <= from && base + n <= |s|
  {
    forall k :: 0 < k < n && from <= Parent(k) && Parent(k) != hole ==> NotAbove(s, cmp, base, k, Parent(k))
  }

  // The parent of the hole is not below the children of the hole.
  ghost predicate Bridged<T>(s: seq<T>, cmp: (T, T) -> int, base: int, from: int, n: int, hole: int)
    requires 0 <= base && 0 <= from && 0 <= hole < n && base + n <= |s|
  {
    hole > from && Parent(hole) >= from ==>
      forall k :: 0 < k < n && Parent(k) == hole ==> NotAbove(s, cmp, base, k, Parent(hole))
  }

  // The element at start sinks until the heap is whole again.
  method SiftDown<T(!new)>(a: array<T>, cmp: (T, T) -> int, base: int, start: int, n: int)
    requires TotalPreorder(cmp) && 0 <= base && 0 <= start < n && base + n <= a.Length
    requires Heap(a[..], cmp, base, start, n, start)
    modifies a
    ensures Rearranged(old(a[..]), a[..], base, base + n) && Heap(a[..], cmp, base, start, n, -1)
  {
    hide TotalPreorder, Rearranged, Heap, TopChild, Swapped, Parent;
    var r := start;
    RearrangedSame(a[..], base, base + n);
    while 2 * r + 1 < n
      invariant start <= r < n && Rearranged(old(a[..]), a[..], base, base + n)
      invariant Heap(a[..], cmp, base, start, n, r) && Bridged(a[..], cmp, base, start, n, r)
      decreases n - r
    {
      hide Bridged;
      var c := 2 * r + 1;
      if c < n - 1 && cmp(a[base + c], a[base + c + 1]) <= 0 {
        c := c + 1;
      }
      BiggerChild(a[..], cmp, base, n, r, c);
      if cmp(a[base + r], a[base + c]) > 0 {
        HeapClosed(a[..], cmp, base, start, n, r, c);
        return;
      }
      ghost var s := a[..];
      Swap(a, base + r, base + c);
      SwapStep(old(a[..]), s, a[..], base + r, base + c, base, base + n);
      HeapSwap(s, cmp, base, start, n, r, c);
      r := c;
    }
    HeapLeaf(a[..], cmp, base, start, n, r);
  }

  lemma HeapLeaf<T>(s: seq<T>, cmp: (T, T) -> int, base: int, from: int, n: int, r: int)
    requires 0 <= base && 0 <= from && base + n <= |s| && 2 * r + 1 >= n && Heap(s, cmp, base, from, n, r)
    ensures Heap(s, cmp, base, from, n, -1)
  {
  }

  ghost predicate TopChild<T>(s: seq<T>, cmp: (T, T) -> int, base: int, n: int, r: int, c: int)
    requires 0 <= base && 0 <= r && base + n <= |s|
  {
    0 < c < n && Parent(c) == r && forall k :: 0 < k < n && Parent(k) == r ==> NotAbove(s, cmp, base, k, c)
  }

  lemma BiggerChild<T(!new)>(s: seq<T>, cmp: (T, T) -> int, base: int, n: int, r: int, c: int)
    requires TotalPreorder(cmp) && 0 <= base && 0 <= r && 2 * r + 1 < n && base + n <= |s|
    requires c == if 2 * r + 1 < n - 1 && cmp(s[base + 2 * r + 1], s[base + 2 * r + 2]) <= 0 then 2 * r + 2
      else 2 * r + 1
    ensures TopChild(s, cmp, base, n, r, c) && r < c
  {
    hide TotalPreorder;
    forall k | 0 < k < n && Parent(k) == r ensures NotAbove(s, cmp, base, k, c) {
      Flip(cmp, s[base + k], s[base + c]);
    }
  }

  lemma HeapClosed<T(!new)>(s: seq<T>, cmp: (T, T) -> int, base: int, from: int, n: int, r: int, c: int)
    requires TotalPreorder(cmp) && 0 <= base && 0 <= from <= r < n && base + n <= |s| && Heap(s, cmp, base, from, n, r)
    requires TopChild(s, cmp, base, n, r, c) && cmp(s[base + r], s[base + c]) > 0
    ensures Heap(s, cmp, base, from, n, -1)
  {
    hide TotalPreorder;
    Flip(cmp, s[base + r], s[base + c]);
    forall k | 0 < k < n && from <= Parent(k) ensures NotAbove(s, cmp, base, k, Parent(k)) {
      if Parent(k) == r {
        assert NotAbove(s, cmp, base, k, c);
        Trans(cmp, s[base + k], s[base + c], s[base + r]);
      }
    }
  }

  lemma HeapSwap<T(!new)>(s: seq<T>, cmp: (T, T) -> int, base: int, from: int, n: int, r: int, c: int)
    requires TotalPreorder(cmp) && 0 <= base && 0 <= from <= r < n && base + n <= |s|
    requires Heap(s, cmp, base, from, n, r) && Bridged(s, cmp, base, from, n, r)
    requires TopChild(s, cmp, base, n, r, c) && cmp(s[base + r], s[base + c]) <= 0
    ensures Heap(Swapped(s, base + r, base + c), cmp, base, from, n, c)
    ensures Bridged(Swapped(s, base + r, base + c), cmp, base, from, n, c)
  {
    hide TotalPreorder;
    var t := Swapped(s, base + r, base + c);
    forall k | 0 < k < n && from <= Parent(k) && Parent(k) != c ensures NotAbove(t, cmp, base, k, Parent(k)) {
      if k == r {
        assert NotAbove(s, cmp, base, c, Parent(r));
      } else if Parent(k) == r {
        assert NotAbove(s, cmp, base, k, c);
      } else {
        assert NotAbove(s, cmp, base, k, Parent(k));
      }
    }
    forall k | 0 < k < n && Parent(k) == c ensures NotAbove(t, cmp, base, k, r) {
      assert NotAbove(s, cmp, base, k, c);
    }
  }

  // The root of a heap is its greatest element.
  lemma {:induction false} HeapTop<T(!new)>(s: seq<T>, cmp: (T, T) -> int, base: int, n: int, k: int)
    requires TotalPreorder(cmp) && 0 <= base && 0 <= k < n && base + n <= |s| && Heap(s, cmp, base, 0, n, -1)
    ensures NotAbove(s, cmp, base, k, 0)
    decreases k
  {
    hide TotalPreorder;
    if k == 0 {
      Flip(cmp, s[base], s[base]);
    } else {
      HeapTop(s, cmp, base, n, Parent(k));
      assert NotAbove(s, cmp, base, k, Parent(k));
      Trans(cmp, s[base + k], s[base + Parent(k)], s[base]);
    }
  }

  // The last n - i elements are in place, above all the others.
  ghost predicate Settled<T>(s: seq<T>, cmp: (T, T) -> int, base: int, i: int, n: int)
    requires 0 <= base && 0 <= i <= n && base + n <= |s|
  {
    Sorted(s, cmp, base + i, base + n)
    && forall j, k :: base <= j < base + i <= k < base + n ==> cmp(s[j], s[k]) <= 0
  }

  // heapsortx
  method HeapSort<T(!new)>(a: array<T>, cmp: (T, T) -> int, base: int, nmemb: int)
    requires TotalPreorder(cmp) && 0 <= base && 0 <= nmemb && base + nmemb <= a.Length
    modifies a
    ensures Rearranged(old(a[..]), a[..], base, base + nmemb) && Sorted(a[..], cmp, base, base + nmemb)
  {
    hide TotalPreorder, Rearranged;
    RearrangedSame(a[..], base, base + nmemb);
    if nmemb > 1 {
      var i := nmemb / 2;
      while i > 0
        invariant 0 <= i <= nmemb / 2 && Rearranged(old(a[..]), a[..], base, base + nmemb)
        invariant Heap(a[..], cmp, base, i, nmemb, -1)
      {
        i := i - 1;
        ghost var s := a[..];
        SiftDown(a, cmp, base, i, nmemb);
        RearrangedTrans(old(a[..]), s, a[..], base, base + nmemb);
      }
      SortHeap(a, cmp, base, nmemb, old(a[..]));
    }
  }

  method SortHeap<T(!new)>(a: array<T>, cmp: (T, T) -> int, base: int, n: int, ghost was: seq<T>)
    requires TotalPreorder(cmp) && 0 <= base && 1 < n && base + n <= a.Length
    requires Rearranged(was, a[..], base, base + n) && Heap(a[..], cmp, base, 0, n, -1)
    modifies a
    ensures Rearranged(was, a[..], base, base + n) && Sorted(a[..], cmp, base, base + n)
  {
    hide TotalPreorder, Rearranged, Heap, Settled, Swapped, Sorted;
    var i := n - 1;
    SettledStart(a[..], cmp, base, n);
    while i > 0
      invariant 0 <= i < n && Rearranged(was, a[..], base, base + n)
      invariant Heap(a[..], cmp, base, 0, i + 1, -1) && Settled(a[..], cmp, base, i + 1, n)
    {
      ghost var s := a[..];
      Swap(a, base, base + i);
      ghost var t := a[..];
      SwapStep(was, s, t, base, base + i, base, base + n);
      TopOut(s, cmp, base, i, n);
      SiftDown(a, cmp, base, 0, i);
      StepWithin(was, t, a[..], base, base + n, base, base + i);
      SettledKept(t, a[..], cmp, base, i, n);
      i := i - 1;
    }
    SettledAll(a[..], cmp, base, n);
  }

  lemma SettledStart<T>(s: seq<T>, cmp: (T, T) -> int, base: int, n: int)
    requires 0 <= base && 0 <= n && base + n <= |s|
    ensures Settled(s, cmp, base, n, n)
  {
  }

  lemma SettledAll<T>(s: seq<T>, cmp: (T, T) -> int, base: int, n: int)
    requires 0 <= base && 1 <= n && base + n <= |s| && Settled(s, cmp, base, 1, n)
    ensures Sorted(s, cmp, base, base + n)
  {
  }

  // The root goes to the end of the heap, and the heap is left without its root.
  lemma TopOut<T(!new)>(s: seq<T>, cmp: (T, T) -> int, base: int, i: int, n: int)
    requires TotalPreorder(cmp) && 0 <= base && 0 < i < n && base + n <= |s|
    requires Heap(s, cmp, base, 0, i + 1, -1) && Settled(s, cmp, base, i + 1, n)
    ensures Heap(Swapped(s, base, base + i), cmp, base, 0, i, 0) && Settled(Swapped(s, base, base + i), cmp, base, i, n)
  {
    hide TotalPreorder;
    var t := Swapped(s, base, base + i);
    forall j | 0 <= j <= i ensures NotAbove(s, cmp, base, j, 0) { HeapTop(s, cmp, base, i + 1, j); }
    forall j, k | base <= j < base + i <= k < base + n ensures cmp(t[j], t[k]) <= 0 {
      if k == base + i { assert NotAbove(s, cmp, base, if j == base then i else j - base, 0); }
    }
    forall k | 0 < k < i && 0 <= Parent(k) && Parent(k) != 0 ensures NotAbove(t, cmp, base, k, Parent(k)) {
      assert NotAbove(s, cmp, base, k, Parent(k));
    }
    forall j, k | base + i <= j < k < base + n ensures cmp(t[j], t[k]) <= 0 {
      if j == base + i { assert cmp(s[base], s[k]) <= 0; }
    }
  }

  lemma SettledKept<T>(s: seq<T>, t: seq<T>, cmp: (T, T) -> int, base: int, i: int, n: int)
    requires 0 <= base && 0 <= i <= n && base + n <= |s| && Settled(s, cmp, base, i, n)
    requires Rearranged(s, t, base, base + i)
    ensures Settled(t, cmp, base, i, n)
  {
    forall j, k | base <= j < base + i <= k < base + n ensures cmp(t[j], t[k]) <= 0 {
      var j2 := RearrangedFrom(s, t, base, base + i, j);
    }
  }

  // Partition around the pivot v.

  ghost predicate Below<T>(s: seq<T>, cmp: (T, T) -> int, v: T, lo: int, hi: int) {
    forall k :: lo <= k < hi && 0 <= k < |s| ==> cmp(v, s[k]) > 0
  }

  ghost predicate Same<T>(s: seq<T>, cmp: (T, T) -> int, v: T, lo: int, hi: int) {
    forall k :: lo <= k < hi && 0 <= k < |s| ==> cmp(v, s[k]) == 0
  }

  ghost predicate Above<T>(s: seq<T>, cmp: (T, T) -> int, v: T, lo: int, hi: int) {
    forall k :: lo <= k < hi && 0 <= k < |s| ==> cmp(v, s[k]) < 0
  }

  // Same, below, not looked at yet, above, same.
  ghost predicate Parts<T>(s: seq<T>, cmp: (T, T) -> int, v: T, ptr: int, plt: int, pi: int, pj: int, pgt: int,
                           top: int) {
    0 <= ptr < plt <= pi && pi <= pgt && pj <= pgt <= top <= |s| && s[ptr] == v
    && Same(s, cmp, v, ptr, plt) && Below(s, cmp, v, plt, pi) && Above(s, cmp, v, pj, pgt) && Same(s, cmp, v, pgt, top)
  }

  // Below, same, above.
  ghost predicate Thirds<T>(s: seq<T>, cmp: (T, T) -> int, v: T, ptr: int, lt: int, gt: int, top: int) {
    0 <= ptr <= lt <= gt <= top <= |s|
    && Below(s, cmp, v, ptr, lt) && Same(s, cmp, v, lt, gt) && Above(s, cmp, v, gt, top)
  }

  method Med3<T>(a: array<T>, cmp: (T, T) -> int, x: int, y: int, z: int) returns (m: int)
    requires 0 <= x < a.Length && 0 <= y < a.Length && 0 <= z < a.Length
    ensures m in {x, y, z}
  {
    m := if cmp(a[x], a[y]) < 0 then (if cmp(a[y], a[z]) < 0 then y else if cmp(a[x], a[z]) < 0 then z else x)
         else (if cmp(a[y], a[z]) > 0 then y else if cmp(a[x], a[z]) < 0 then x else z);
  }

  // The first inner loop.
  method ScanUp<T>(a: array<T>, cmp: (T, T) -> int, ghost v: T, ptr: int, plt0: int, pi0: int, pj: int, ghost pgt: int,
                   ghost top: int, ghost was: seq<T>)
    returns (plt: int, pi: int)
    requires pi0 <= pj && top <= a.Length && Parts(a[..], cmp, v, ptr, plt0, pi0, pj, pgt, top)
    requires Rearranged(was, a[..], ptr, top)
    modifies a
    ensures pi0 <= pi <= pj && Parts(a[..], cmp, v, ptr, plt, pi, pj, pgt, top) && Rearranged(was, a[..], ptr, top)
    ensures pi < pj ==> cmp(v, a[pi]) < 0
    ensures plt - plt0 <= pi - pi0
  {
    hide Parts, Rearranged, Swapped;
    plt, pi := plt0, pi0;
    PartsBounds(a[..], cmp, v, ptr, plt, pi, pj, pgt, top);
    while pi < pj && cmp(a[ptr], a[pi]) >= 0
      invariant 0 <= ptr < plt <= pi && pi0 <= pi <= pj <= top && a[ptr] == v
      invariant Parts(a[..], cmp, v, ptr, plt, pi, pj, pgt, top) && Rearranged(was, a[..], ptr, top)
      invariant plt - plt0 <= pi - pi0
    {
      ghost var s := a[..];
      UpStep(s, cmp, v, ptr, plt, pi, pj, pgt, top);
      if cmp(a[ptr], a[pi]) == 0 {
        Swap(a, plt, pi);
        SwapStep(was, s, a[..], plt, pi, ptr, top);
        plt := plt + 1;
      }
      pi := pi + 1;
      PartsBounds(a[..], cmp, v, ptr, plt, pi, pj, pgt, top);
    }
  }

  lemma PartsBounds<T>(s: seq<T>, cmp: (T, T) -> int, v: T, ptr: int, plt: int, pi: int, pj: int, pgt: int, top: int)
    requires Parts(s, cmp, v, ptr, plt, pi, pj, pgt, top)
    ensures 0 <= ptr < plt <= pi && pi <= pgt && pj <= pgt <= top <= |s| && s[ptr] == v
  {
  }

  lemma UpStep<T>(s: seq<T>, cmp: (T, T) -> int, v: T, ptr: int, plt: int, pi: int, pj: int, pgt: int, top: int)
    requires Parts(s, cmp, v, ptr, plt, pi, pj, pgt, top) && pi < pj && cmp(v, s[pi]) >= 0
    ensures cmp(v, s[pi]) > 0 ==> Parts(s, cmp, v, ptr, plt, pi + 1, pj, pgt, top)
    ensures cmp(v, s[pi]) == 0 ==> Parts(Swapped(s, plt, pi), cmp, v, ptr, plt + 1, pi + 1, pj, pgt, top)
  {
  }

  // The second inner loop: pj is where it stops.
  method ScanDown<T>(a: array<T>, cmp: (T, T) -> int, ghost v: T, ptr: int, ghost plt: int, pi: int, pj0: int,
                     pgt0: int, ghost top: int, ghost was: seq<T>)
    returns (pj: int, pgt: int)
    requires pi <= pj0 && top <= a.Length && Parts(a[..], cmp, v, ptr, plt, pi, pj0, pgt0, top)
    requires Rearranged(was, a[..], ptr, top)
    requires pi < pj0 ==> cmp(v, a[pi]) < 0
    modifies a
    ensures pi - 1 <= pj < pj0 && Parts(a[..], cmp, v, ptr, plt, pi, pj + 1, pgt, top)
    ensures Rearranged(was, a[..], ptr, top)
    ensures pi < pj0 ==> a[pi] == old(a[pi])
    ensures pi < pj ==> cmp(v, a[pj]) > 0
  {
    hide Parts, Rearranged, Swapped;
    pgt := pgt0;
    pj := pj0 - 1;
    PartsBounds(a[..], cmp, v, ptr, plt, pi, pj0, pgt, top);
    while pi < pj && cmp(a[ptr], a[pj]) <= 0
      invariant pi - 1 <= pj < pj0 && 0 <= ptr < pi && pj < pgt <= top && a[ptr] == v
      invariant Parts(a[..], cmp, v, ptr, plt, pi, pj + 1, pgt, top) && Rearranged(was, a[..], ptr, top)
      invariant pi < pj0 ==> a[pi] == old(a[pi])
    {
      ghost var s := a[..];
      DownStep(s, cmp, v, ptr, plt, pi, pj, pgt, top);
      if cmp(a[ptr], a[pj]) == 0 {
        pgt := pgt - 1;
        Swap(a, pgt, pj);
        SwapStep(was, s, a[..], pgt, pj, ptr, top);
        SwappedElsewhere(s, pgt, pj, pi);
      }
      pj := pj - 1;
      PartsBounds(a[..], cmp, v, ptr, plt, pi, pj + 1, pgt, top);
    }
  }

  lemma SwappedElsewhere<T>(s: seq<T>, i: int, j: int, k: int)
    requires 0 <= i < |s| && 0 <= j < |s| && 0 <= k < |s| && k != i && k != j
    ensures Swapped(s, i, j)[k] == s[k]
  {
  }

  lemma DownStep<T>(s: seq<T>, cmp: (T, T) -> int, v: T, ptr: int, plt: int, pi: int, pj: int, pgt: int, top: int)
    requires Parts(s, cmp, v, ptr, plt, pi, pj + 1, pgt, top) && pi < pj && cmp(v, s[pj]) <= 0
    ensures cmp(v, s[pj]) < 0 ==> Parts(s, cmp, v, ptr, plt, pi, pj, pgt, top)
    ensures cmp(v, s[pj]) == 0 ==> Parts(Swapped(s, pgt - 1, pj), cmp, v, ptr, plt, pi, pj, pgt - 1, top)
  {
  }

  lemma CrossStep<T>(s: seq<T>, cmp: (T, T) -> int, v: T, ptr: int, plt: int, pi: int, pj: int, pgt: int, top: int)
    requires Parts(s, cmp, v, ptr, plt, pi, pj + 1, pgt, top) && pi < pj && cmp(v, s[pj]) > 0 && cmp(v, s[pi]) < 0
    ensures Parts(Swapped(s, pi, pj), cmp, v, ptr, plt, pi + 1, pj, pgt, top)
  {
  }

  lemma Crossed<T>(s: seq<T>, cmp: (T, T) -> int, v: T, ptr: int, plt: int, pi: int, pj: int, pgt: int, top: int)
    requires Parts(s, cmp, v, ptr, plt, pi, pj + 1, pgt, top) && pj <= pi
    requires (pj == pi && pi < pgt ==> cmp(v, s[pi]) < 0)
    ensures Parts(s, cmp, v, ptr, plt, pi, pi, pgt, top)
  {
  }

  // The four parts: everything looked at.
  method Split<T>(a: array<T>, cmp: (T, T) -> int, ghost v: T, ptr: int, top: int, ghost was: seq<T>) returns (plt: int,
                  pi: int, pgt: int)
    requires 0 <= ptr < top <= a.Length && a[ptr] == v && cmp(v, v) == 0 && Rearranged(was, a[..], ptr, top)
    modifies a
    ensures Parts(a[..], cmp, v, ptr, plt, pi, pi, pgt, top) && Rearranged(was, a[..], ptr, top)
  {
    hide Rearranged, Swapped;
    hide Parts;
    plt, pi := ptr + 1, ptr + 1;
    var pj := top;
    pgt := top;
    PartsStart(a[..], cmp, v, ptr, top);
    while true
      invariant ptr < pi <= pj <= pgt <= top
      invariant Parts(a[..], cmp, v, ptr, plt, pi, pj, pgt, top) && Rearranged(was, a[..], ptr, top)
      decreases pj - pi
    {
      plt, pi := ScanUp(a, cmp, v, ptr, plt, pi, pj, pgt, top, was);
      ghost var up := a[..];
      var stop := pj;
      pj, pgt := ScanDown(a, cmp, v, ptr, plt, pi, pj, pgt, top, was);
      PartsBounds(a[..], cmp, v, ptr, plt, pi, pj + 1, pgt, top);
      if pi >= pj {
        Crossed(a[..], cmp, v, ptr, plt, pi, pj, pgt, top);
        return;
      }
      ghost var s := a[..];
      Swap(a, pi, pj);
      SwapStep(was, s, a[..], pi, pj, ptr, top);
      CrossStep(s, cmp, v, ptr, plt, pi, pj, pgt, top);
      pi := pi + 1;
      PartsBounds(a[..], cmp, v, ptr, plt, pi, pj, pgt, top);
    }
  }

  lemma PartsStart<T>(s: seq<T>, cmp: (T, T) -> int, v: T, ptr: int, top: int)
    requires 0 <= ptr < top <= |s| && s[ptr] == v && cmp(v, v) == 0
    ensures Parts(s, cmp, v, ptr, ptr + 1, ptr + 1, top, top, top)
  {
  }

  function BlockSwapped<T>(s: seq<T>, x: int, y: int, n: int): (t: seq<T>)
    requires 0 <= x && x + n <= y && 0 <= n && y + n <= |s|
    ensures |t| == |s|
  {
    seq(|s|, k requires 0 <= k < |s| => if x <= k < x + n then s[y + k - x] else if y <= k < y + n then s[x + k - y]
        else s[k])
  }

  // swap_block: two blocks of n elements exchanged.
  method SwapBlock<T>(a: array<T>, x: int, y: int, n: int, ghost was: seq<T>, ghost lo: int, ghost hi: int)
    requires 0 <= lo <= x && x + n <= y && 0 <= n && y + n <= hi <= a.Length && Rearranged(was, a[..], lo, hi)
    modifies a
    ensures a[..] == BlockSwapped(old(a[..]), x, y, n) && Rearranged(was, a[..], lo, hi)
  {
    hide Rearranged, Swapped;
    var k := 0;
    assert a[..] == BlockSwapped(a[..], x, y, 0);
    while k < n
      invariant 0 <= k <= n && a[..] == BlockSwapped(old(a[..]), x, y, k) && Rearranged(was, a[..], lo, hi)
    {
      hide BlockSwapped;
      ghost var s := a[..];
      Swap(a, x + k, y + k);
      SwapStep(was, s, a[..], x + k, y + k, lo, hi);
      BlockStep(old(a[..]), x, y, k);
      k := k + 1;
    }
  }

  lemma BlockStep<T>(s: seq<T>, x: int, y: int, k: int)
    requires 0 <= x && x + k + 1 <= y && 0 <= k && y + k + 1 <= |s|
    ensures Swapped(BlockSwapped(s, x, y, k), x + k, y + k) == BlockSwapped(s, x, y, k + 1)
  {
  }

  lemma GatherLow<T>(s: seq<T>, cmp: (T, T) -> int, v: T, ptr: int, plt: int, pi: int, pgt: int, top: int, span: int)
    requires Parts(s, cmp, v, ptr, plt, pi, pi, pgt, top)
    requires span == if plt - ptr > pi - plt then pi - plt else plt - ptr
    ensures var t := BlockSwapped(s, ptr, pi - span, span);
      Below(t, cmp, v, ptr, ptr + (pi - plt)) && Same(t, cmp, v, ptr + (pi - plt), pi) && Above(t, cmp, v, pi, pgt)
          && Same(t, cmp, v, pgt, top)
  {
  }

  lemma GatherHigh<T>(s: seq<T>, cmp: (T, T) -> int, v: T, ptr: int, lt: int, pi: int, pgt: int, top: int, span: int)
    requires 0 <= ptr <= lt <= pi <= pgt <= top <= |s| && span == if top - pgt > pgt - pi then pgt - pi else top - pgt
    requires Below(s, cmp, v, ptr, lt) && Same(s, cmp, v, lt, pi) && Above(s, cmp, v, pi, pgt)
    requires Same(s, cmp, v, pgt, top)
    ensures Thirds(BlockSwapped(s, pi, top - span, span), cmp, v, ptr, lt, top - (pgt - pi), top)
  {
  }

  // Elements equal to the pivot are brought to the middle.
  method Gather<T>(a: array<T>, cmp: (T, T) -> int, ghost v: T, ptr: int, plt: int, pi: int, pgt: int, top: int,
                   ghost was: seq<T>)
    returns (lt: int, gt: int)
    requires top <= a.Length && Parts(a[..], cmp, v, ptr, plt, pi, pi, pgt, top) && Rearranged(was, a[..], ptr, top)
    modifies a
    ensures Thirds(a[..], cmp, v, ptr, ptr + lt, ptr + gt, top) && Rearranged(was, a[..], ptr, top)
    ensures lt < gt
  {
    hide Rearranged, BlockSwapped, Below, Same, Above;
    var span, span2 := plt - ptr, pi - plt;
    lt := span2;
    if span > span2 { span := span2; }
    GatherLow(a[..], cmp, v, ptr, plt, pi, pgt, top, span);
    SwapBlock(a, ptr, pi - span, span, was, ptr, top);
    span, span2 := top - pgt, pgt - pi;
    gt := (top - ptr) - span2;
    if span > span2 { span := span2; }
    GatherHigh(a[..], cmp, v, ptr, ptr + lt, pi, pgt, top, span);
    SwapBlock(a, pi, top - span, span, was, ptr, top);
  }

  // One partition of the n > 6 elements from ptr: lt below the pivot, n - gt above it, the rest equal to it.
  method Partition<T(!new)>(a: array<T>, cmp: (T, T) -> int, ptr: int, n: int) returns (lt: int, gt: int, ghost v: T)
    requires TotalPreorder(cmp) && 0 <= ptr && 6 < n && ptr + n <= a.Length
    modifies a
    ensures Rearranged(old(a[..]), a[..], ptr, ptr + n) && Thirds(a[..], cmp, v, ptr, ptr + lt, ptr + gt, ptr + n)
    ensures lt < gt
  {
    hide TotalPreorder, Rearranged, Parts, Thirds;
    var top := ptr + n;
    var m4 := n / 4;
    var m := Med3(a, cmp, ptr + m4, ptr + 2 * m4, ptr + 3 * m4);
    RearrangedSame(a[..], ptr, top);
    Swap(a, ptr, m);
    SwapStep(old(a[..]), old(a[..]), a[..], ptr, m, ptr, top);
    v := a[ptr];
    Flip(cmp, v, v);
    var plt, pi, pgt := Split(a, cmp, v, ptr, top, old(a[..]));
    lt, gt := Gather(a, cmp, v, ptr, plt, pi, pgt, top, old(a[..]));
  }

  // The explicit stack.

  datatype Segment = Segment(base: int, count: int, depth: int)

  // Positions that may still be out of order among themselves carry the same owner k >= 0; the others -1.
  ghost predicate Ordered<T>(s: seq<T>, cmp: (T, T) -> int, owner: seq<int>) {
    |owner| == |s|
    && forall i, j :: 0 <= i < j < |s| && !(owner[i] == owner[j] && owner[i] >= 0) ==> cmp(s[i], s[j]) <= 0
  }

  ghost predicate Owns(owner: seq<int>, k: int, base: int, count: int) {
    0 <= base && 0 <= count && base + count <= |owner|
    && forall x :: 0 <= x < |owner| ==> (owner[x] == k <==> base <= x < base + count)
  }

  ghost predicate OwnersBelow(owner: seq<int>, k: int) { forall x :: 0 <= x < |owner| ==> -1 <= owner[x] < k }

  // The stacked segments are apart, and their depths increase strictly, from 1 to 50 once the first is taken.
  ghost predicate Stacked(owner: seq<int>, stack: seq<Segment>) {
    (forall k :: 0 <= k < |stack| ==> Owns(owner, k, stack[k].base, stack[k].count))
    && (forall k :: 0 <= k < |stack| ==> k < stack[k].depth <= 50)
    && (forall j, k :: 0 <= j < k < |stack| ==> stack[j].depth < stack[k].depth)
  }

  // The segment being worked on is owned by the next number.
  ghost predicate Working(owner: seq<int>, stack: seq<Segment>, ptr: int, n: int, depth: int) {
    Stacked(owner, stack) && OwnersBelow(owner, |stack| + 1) && Owns(owner, |stack|, ptr, n)
    && 0 <= depth <= 51 && forall k :: 0 <= k < |stack| ==> stack[k].depth <= depth
  }

  function Released(owner: seq<int>, lo: int, hi: int): (r: seq<int>)
    ensures |r| == |owner|
  {
    seq(|owner|, x requires 0 <= x < |owner| => if lo <= x < hi then -1 else owner[x])
  }

  // After a partition: the segment set aside keeps the number, the one worked on takes the next.
  function Divided(owner: seq<int>, lo: int, lt: int, gt: int, hi: int, c: int, leftFirst: bool): (r: seq<int>)
    ensures |r| == |owner|
  {
    seq(|owner|, x requires 0 <= x < |owner| =>
      if lo <= x < lt then (if leftFirst then c else c + 1)
      else if lt <= x < gt then -1
      else if gt <= x < hi then (if leftFirst then c + 1 else c)
      else owner[x])
  }

  function Total(stack: seq<Segment>): int {
    if stack == [] then 0 else Total(stack[..|stack| - 1]) + stack[|stack| - 1].count
  }

  lemma TotalPush(stack: seq<Segment>, seg: Segment)
    ensures Total(stack + [seg]) == Total(stack) + seg.count
  {
    assert (stack + [seg])[..|stack|] == stack;
  }

  lemma {:induction false} TotalNat(owner: seq<int>, stack: seq<Segment>)
    requires forall k :: 0 <= k < |stack| ==> stack[k].count >= 0
    ensures Total(stack) >= 0
  {
    if stack != [] { TotalNat(owner, stack[..|stack| - 1]); }
  }

  lemma RearrangeOrdered<T>(s: seq<T>, t: seq<T>, cmp: (T, T) -> int, owner: seq<int>, k: int, lo: int, n: int)
    requires Ordered(s, cmp, owner) && k >= 0 && Owns(owner, k, lo, n) && Rearranged(s, t, lo, lo + n)
    ensures Ordered(t, cmp, owner)
  {
    forall i, j | 0 <= i < j < |t| && !(owner[i] == owner[j] && owner[i] >= 0) ensures cmp(t[i], t[j]) <= 0 {
      if lo <= i < lo + n {
        var i2 := RearrangedFrom(s, t, lo, lo + n, i);
      } else if lo <= j < lo + n {
        var j2 := RearrangedFrom(s, t, lo, lo + n, j);
      }
    }
  }

  lemma ReleaseOrdered<T>(s: seq<T>, cmp: (T, T) -> int, owner: seq<int>, k: int, lo: int, n: int)
    requires Ordered(s, cmp, owner) && Owns(owner, k, lo, n) && lo + n <= |s| && Sorted(s, cmp, lo, lo + n)
    ensures Ordered(s, cmp, Released(owner, lo, lo + n))
  {
  }

  lemma ReleaseWorking(owner: seq<int>, stack: seq<Segment>, ptr: int, n: int, depth: int)
    requires Working(owner, stack, ptr, n, depth)
    ensures Working(Released(owner, ptr, ptr + n), stack, ptr, 0, depth)
    ensures OwnersBelow(Released(owner, ptr, ptr + n), |stack|)
  {
    var r := Released(owner, ptr, ptr + n);
    forall k | 0 <= k < |stack| ensures Owns(r, k, stack[k].base, stack[k].count) {
      assert Owns(owner, k, stack[k].base, stack[k].count);
      OthersKept(owner, r, |stack|, ptr, n, k, stack[k].base, stack[k].count);
    }
  }

  // Owners other than the one whose segment is renumbered keep their segments.
  lemma OthersKept(owner: seq<int>, r: seq<int>, c: int, ptr: int, n: int, k: int, base: int, count: int)
    requires Owns(owner, c, ptr, n) && Owns(owner, k, base, count) && k != c && |r| == |owner|
    requires forall x :: 0 <= x < |owner| ==> if ptr <= x < ptr + n then r[x] != k else r[x] == owner[x]
    ensures Owns(r, k, base, count)
  {
    forall x | 0 <= x < |r| ensures r[x] == k <==> base <= x < base + count {
      assert owner[x] == c <==> ptr <= x < ptr + n;
      assert owner[x] == k <==> base <= x < base + count;
    }
  }

  lemma DivideOrdered<T(!new)>(s: seq<T>, cmp: (T, T) -> int, v: T, owner: seq<int>, c: int, ptr: int, lt: int, gt: int,
                        n: int, leftFirst: bool)
    requires TotalPreorder(cmp) && Ordered(s, cmp, owner) && c >= 0 && Owns(owner, c, ptr, n)
    requires OwnersBelow(owner, c + 1)
    requires Thirds(s, cmp, v, ptr, ptr + lt, ptr + gt, ptr + n)
    ensures Ordered(s, cmp, Divided(owner, ptr, ptr + lt, ptr + gt, ptr + n, c, leftFirst))
  {
    hide TotalPreorder;
    var d := Divided(owner, ptr, ptr + lt, ptr + gt, ptr + n, c, leftFirst);
    forall i, j | 0 <= i < j < |s| && !(d[i] == d[j] && d[i] >= 0) ensures cmp(s[i], s[j]) <= 0 {
      if ptr <= i < ptr + n && ptr <= j < ptr + n {
        Flip(cmp, v, s[i]);
        Trans(cmp, s[i], v, s[j]);
      }
    }
  }

  lemma DivideWorking(owner: seq<int>, stack: seq<Segment>, ptr: int, lt: int, gt: int, n: int, depth: int,
                      leftFirst: bool)
    requires Working(owner, stack, ptr, n, depth) && 0 <= lt <= gt <= n && 0 < depth <= 50
    requires forall k :: 0 <= k < |stack| ==> stack[k].depth < depth
    ensures |stack| < 50
    ensures var d := Divided(owner, ptr, ptr + lt, ptr + gt, ptr + n, |stack|, leftFirst);
      var aside := if leftFirst then Segment(ptr, lt, depth) else Segment(ptr + gt, n - gt, depth);
      if leftFirst then Working(d, stack + [aside], ptr + gt, n - gt, depth)
          else Working(d, stack + [aside], ptr, lt, depth)
  {
    hide Owns;
    var c := |stack|;
    var d := Divided(owner, ptr, ptr + lt, ptr + gt, ptr + n, c, leftFirst);
    var aside := if leftFirst then Segment(ptr, lt, depth) else Segment(ptr + gt, n - gt, depth);
    var all := stack + [aside];
    if c > 0 { assert c - 1 < stack[c - 1].depth < depth; }
    DividedOwners(owner, c, ptr, lt, gt, n, leftFirst);
    forall k | 0 <= k < c ensures Owns(d, k, all[k].base, all[k].count) {
      assert Owns(owner, k, stack[k].base, stack[k].count);
      DividedOthers(owner, c, ptr, lt, gt, n, leftFirst, k, stack[k].base, stack[k].count);
    }
  }

  lemma DividedOwners(owner: seq<int>, c: int, ptr: int, lt: int, gt: int, n: int, leftFirst: bool)
    requires Owns(owner, c, ptr, n) && OwnersBelow(owner, c + 1) && 0 <= lt <= gt <= n && c >= 0
    ensures var d := Divided(owner, ptr, ptr + lt, ptr + gt, ptr + n, c, leftFirst);
      OwnersBelow(d, c + 2)
      && Owns(d, if leftFirst then c else c + 1, ptr, lt) && Owns(d, if leftFirst then c + 1 else c, ptr + gt, n - gt)
  {
  }

  lemma DividedOthers(owner: seq<int>, c: int, ptr: int, lt: int, gt: int, n: int, leftFirst: bool, k: int, base: int,
                      count: int)
    requires Owns(owner, c, ptr, n) && Owns(owner, k, base, count) && 0 <= k < c && 0 <= lt <= gt <= n
    ensures Owns(Divided(owner, ptr, ptr + lt, ptr + gt, ptr + n, c, leftFirst), k, base, count)
  {
    OthersKept(owner, Divided(owner, ptr, ptr + lt, ptr + gt, ptr + n, c, leftFirst), c, ptr, n, k, base, count);
  }

  // Too deep: the segment is finished by heapsort.
  method FinishDeep<T(!new)>(a: array<T>, cmp: (T, T) -> int, ptr: int, n: int, depth: int, ghost owner0: seq<int>,
                      ghost st: seq<Segment>, ghost was: seq<T>)
    returns (ghost owner: seq<int>)
    requires TotalPreorder(cmp) && Ordered(a[..], cmp, owner0) && Working(owner0, st, ptr, n, depth)
    requires Rearranged(was, a[..], 0, a.Length)
    modifies a
    ensures Ordered(a[..], cmp, owner) && Working(owner, st, ptr, 0, depth) && Rearranged(was, a[..], 0, a.Length)
  {
    hide TotalPreorder, Rearranged, Ordered, Working, Released, Sorted;
    WorkingBounds(owner0, st, ptr, n, depth);
    OrderedLength(a[..], cmp, owner0);
    ghost var s := a[..];
    HeapSort(a, cmp, ptr, n);
    StepWithin(was, s, a[..], 0, a.Length, ptr, ptr + n);
    RearrangeOrdered(s, a[..], cmp, owner0, |st|, ptr, n);
    ReleaseOrdered(a[..], cmp, owner0, |st|, ptr, n);
    ReleaseWorking(owner0, st, ptr, n, depth);
    owner := Released(owner0, ptr, ptr + n);
  }

  // One partition: the larger side is to be set aside, the smaller one worked on.
  method Divide<T(!new)>(a: array<T>, cmp: (T, T) -> int, ptr: int, n: int, depth: int, ghost owner0: seq<int>,
                  ghost st: seq<Segment>, ghost was: seq<T>)
    returns (lt: int, gt: int, ghost owner: seq<int>)
    requires TotalPreorder(cmp) && n > 6 && 0 <= depth < 50
    requires Ordered(a[..], cmp, owner0) && Working(owner0, st, ptr, n, depth) && Rearranged(was, a[..], 0, a.Length)
    modifies a
    ensures Ordered(a[..], cmp, owner) && Rearranged(was, a[..], 0, a.Length) && 0 <= lt < gt <= n && |st| < 50
    ensures lt > n - gt ==> Working(owner, st + [Segment(ptr, lt, depth + 1)], ptr + gt, n - gt, depth + 1)
    ensures lt <= n - gt ==> Working(owner, st + [Segment(ptr + gt, n - gt, depth + 1)], ptr, lt, depth + 1)
  {
    hide TotalPreorder, Rearranged, Ordered, Working, Thirds, Divided;
    WorkingBounds(owner0, st, ptr, n, depth);
    OrderedLength(a[..], cmp, owner0);
    ghost var s := a[..];
    ghost var v;
    lt, gt, v := Partition(a, cmp, ptr, n);
    ThirdsBounds(a[..], cmp, v, ptr, ptr + lt, ptr + gt, ptr + n);
    StepWithin(was, s, a[..], 0, a.Length, ptr, ptr + n);
    RearrangeOrdered(s, a[..], cmp, owner0, |st|, ptr, n);
    DivideOrdered(a[..], cmp, v, owner0, |st|, ptr, lt, gt, n, lt > n - gt);
    WorkingDeeper(owner0, st, ptr, n, depth);
    DivideWorking(owner0, st, ptr, lt, gt, n, depth + 1, lt > n - gt);
    owner := Divided(owner0, ptr, ptr + lt, ptr + gt, ptr + n, |st|, lt > n - gt);
  }

  lemma WorkingDeeper(owner: seq<int>, stack: seq<Segment>, ptr: int, n: int, depth: int)
    requires Working(owner, stack, ptr, n, depth) && depth < 51
    ensures Working(owner, stack, ptr, n, depth + 1)
  {
  }

  // The inner loop: partitions until at most 6 elements are left.
  method Narrow<T(!new)>(a: array<T>, cmp: (T, T) -> int, stack: array<Segment>, sp0: int, ptr0: int, n0: int,
                  depth0: int,
                         ghost owner0: seq<int>, ghost was: seq<T>)
    returns (sp: int, ptr: int, n: int, ghost owner: seq<int>, ghost depth: int)
    requires TotalPreorder(cmp) && stack.Length == 50 && 0 <= sp0 <= 50 && a as object != stack as object
    requires Ordered(a[..], cmp, owner0) && Working(owner0, stack[..sp0], ptr0, n0, depth0) && depth0 <= 50
    requires Rearranged(was, a[..], 0, a.Length)
    modifies a, stack
    ensures sp0 <= sp <= 50 && n <= 6
    ensures Ordered(a[..], cmp, owner) && Working(owner, stack[..sp], ptr, n, depth)
    ensures Rearranged(was, a[..], 0, a.Length)
    ensures if sp == sp0 then Total(stack[..sp]) <= old(Total(stack[..sp0]))
      else Total(stack[..sp]) + n < old(Total(stack[..sp0])) + n0
  {
    hide TotalPreorder, Rearranged, Ordered, Working, Total;
    sp, ptr, n, owner := sp0, ptr0, n0, owner0;
    var d := depth0;
    WorkingBounds(owner, stack[..sp], ptr, n, d);
    while n > 6
      invariant sp0 <= sp <= 50 && 0 <= d <= 50
      invariant Ordered(a[..], cmp, owner) && Working(owner, stack[..sp], ptr, n, d)
      invariant Rearranged(was, a[..], 0, a.Length)
      invariant if sp == sp0 then Total(stack[..sp]) <= old(Total(stack[..sp0])) && n == n0
                else Total(stack[..sp]) + n < old(Total(stack[..sp0])) + n0
      decreases n
    {
      d := d + 1;
      if d > 50 {
        owner := FinishDeep(a, cmp, ptr, n, d - 1, owner, stack[..sp], was);
        d := d - 1;
        n := 0;
        break;
      }
      var lt, gt;
      ghost var below := stack[..sp];
      lt, gt, owner := Divide(a, cmp, ptr, n, d - 1, owner, below, was);
      if lt > n - gt {
        stack[sp] := Segment(ptr, lt, d);
        ptr := ptr + gt;
        n := n - gt;
      } else {
        stack[sp] := Segment(ptr + gt, n - gt, d);
        n := lt;
      }
      TotalPush(below, stack[sp]);
      assert stack[..sp + 1] == below + [stack[sp]];
      sp := sp + 1;
    }
    depth := d;
  }

  lemma WorkingPopped(owner: seq<int>, stack: seq<Segment>)
    requires stack != [] && Waiting(owner, stack)
    ensures var top := stack[|stack| - 1];
      Working(owner, stack[..|stack| - 1], top.base, top.count, top.depth) && top.depth <= 50
  {
  }

  // Between segments: only what is stacked is owned. The first segment has depth 0.
  ghost predicate Waiting(owner: seq<int>, stack: seq<Segment>) {
    OwnersBelow(owner, |stack|)
    && (Stacked(owner, stack) || (|stack| == 1 && stack[0].depth == 0 && Owns(owner, 0, stack[0].base, stack[0].count)))
  }

  // The rest of a segment is finished by insertion sort.
  method FinishSmall<T(!new)>(a: array<T>, cmp: (T, T) -> int, ptr: int, n: int, ghost depth: int,
                       ghost owner0: seq<int>, ghost st: seq<Segment>, ghost was: seq<T>)
    returns (ghost owner: seq<int>)
    requires TotalPreorder(cmp) && Ordered(a[..], cmp, owner0) && Working(owner0, st, ptr, n, depth)
    requires Rearranged(was, a[..], 0, a.Length)
    modifies a
    ensures Ordered(a[..], cmp, owner) && Waiting(owner, st) && Rearranged(was, a[..], 0, a.Length)
  {
    hide TotalPreorder, Rearranged, Ordered, Working, Waiting, Released, Sorted;
    WorkingBounds(owner0, st, ptr, n, depth);
    OrderedLength(a[..], cmp, owner0);
    ghost var s := a[..];
    InsertionSort(a, cmp, ptr, n);
    StepWithin(was, s, a[..], 0, a.Length, ptr, ptr + n);
    RearrangeOrdered(s, a[..], cmp, owner0, |st|, ptr, n);
    ReleaseOrdered(a[..], cmp, owner0, |st|, ptr, n);
    ReleaseWorking(owner0, st, ptr, n, depth);
    owner := Released(owner0, ptr, ptr + n);
    WorkingDone(owner, st, ptr, depth);
  }

  // rqsort
  method RQSort<T(!new)>(a: array<T>, cmp: (T, T) -> int)
    requires TotalPreorder(cmp)
    modifies a
    ensures Sorted(a[..], cmp, 0, a.Length) && multiset(a[..]) == multiset(old(a[..]))
  {
    hide TotalPreorder, Rearranged, Ordered, Working, Total, Waiting;
    RearrangedSame(a[..], 0, a.Length);
    RearrangedAll(old(a[..]), a[..]);
    if a.Length < 2 { return; }
    var stack := new Segment[50](_ => Segment(0, 0, 0));
    stack[0] := Segment(0, a.Length, 0);
    var sp := 1;
    ghost var owner := seq(a.Length, _ => 0);
    FirstSegment(a[..], cmp, stack[..1]);
    while sp > 0
      invariant 0 <= sp <= 50 && fresh(stack)
      invariant Ordered(a[..], cmp, owner) && Waiting(owner, stack[..sp]) && Rearranged(old(a[..]), a[..], 0, a.Length)
      decreases Total(stack[..sp]), sp
    {
      ghost var all := stack[..sp];
      sp := sp - 1;
      var seg := stack[sp];
      WorkingPopped(owner, all);
      assert all[..sp] == stack[..sp];
      TotalPush(stack[..sp], seg);
      assert all == stack[..sp] + [seg];
      WaitingTotal(owner, stack[..sp], seg.base, seg.count, seg.depth);
      var ptr, n;
      ghost var depth;
      sp, ptr, n, owner, depth := Narrow(a, cmp, stack, sp, seg.base, seg.count, seg.depth, owner, old(a[..]));
      WorkingBounds(owner, stack[..sp], ptr, n, depth);
      owner := FinishSmall(a, cmp, ptr, n, depth, owner, stack[..sp], old(a[..]));
    }
    AllSorted(a[..], cmp, owner);
    RearrangedAll(old(a[..]), a[..]);
  }

  lemma WaitingTotal(owner: seq<int>, stack: seq<Segment>, ptr: int, n: int, depth: int)
    requires Working(owner, stack, ptr, n, depth)
    ensures Total(stack) >= 0 && n >= 0
  {
    assert forall k :: 0 <= k < |stack| ==> Owns(owner, k, stack[k].base, stack[k].count);
    TotalNat(owner, stack);
  }

  lemma WorkingDone(owner: seq<int>, stack: seq<Segment>, ptr: int, depth: int)
    requires Working(owner, stack, ptr, 0, depth) && OwnersBelow(owner, |stack|)
    ensures Waiting(owner, stack)
  {
  }

  lemma FirstSegment<T>(s: seq<T>, cmp: (T, T) -> int, stack: seq<Segment>)
    requires stack == [Segment(0, |s|, 0)]
    ensures Ordered(s, cmp, seq(|s|, _ => 0)) && Waiting(seq(|s|, _ => 0), stack)
  {
    assert Owns(seq(|s|, _ => 0), 0, 0, |s|);
  }

  lemma AllSorted<T>(s: seq<T>, cmp: (T, T) -> int, owner: seq<int>)
    requires Ordered(s, cmp, owner) && Waiting(owner, [])
    ensures Sorted(s, cmp, 0, |s|)
  {
  }

  lemma RearrangedAll<T>(s: seq<T>, t: seq<T>)
    requires Rearranged(s, t, 0, |s|)
    ensures multiset(t) == multiset(s) && |t| == |s|
  {
    assert s[0..|s|] == s && t[0..|s|] == t;
  }

  lemma OrderedLength<T>(s: seq<T>, cmp: (T, T) -> int, owner: seq<int>)
    requires Ordered(s, cmp, owner)
    ensures |owner| == |s|
  {
  }

  lemma ThirdsBounds<T>(s: seq<T>, cmp: (T, T) -> int, v: T, ptr: int, lt: int, gt: int, top: int)
    requires Thirds(s, cmp, v, ptr, lt, gt, top)
    ensures 0 <= ptr <= lt <= gt <= top <= |s|
  {
  }

  lemma WorkingBounds(owner: seq<int>, stack: seq<Segment>, ptr: int, n: int, depth: int)
    requires Working(owner, stack, ptr, n, depth)
    ensures 0 <= ptr && 0 <= n && 0 <= depth && ptr + n <= |owner| && Owns(owner, |stack|, ptr, n)
    ensures OwnersBelow(owner, |stack| + 1)
    ensures forall k :: 0 <= k < |stack| ==> stack[k].depth <= depth && stack[k].count >= 0
  {
  }
}
