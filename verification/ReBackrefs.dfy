// What a back reference matches: the captured text, code point by code point, folded (libregexp.c:2242-2285).
module ReBackrefs {
  import opened ReText
  import opened ReChars

  // The code points of units[i..j] under the case folding in force.
  function Folded(t: Text, i: nat, j: nat): (r: seq<CodePoint>)
    requires j <= |t.units|
    ensures |r| == |Points(t, i, j)|
  {
    var cs := Points(t, i, j);
    seq(|cs|, k requires 0 <= k < |cs| => if cs[k] in t.canon then t.canon[cs[k]] else cs[k])
  }

  function FoldOne(t: Text, c: CodePoint): CodePoint { if c in t.canon then t.canon[c] else c }

  lemma {:induction false} FoldedHead(t: Text, i: nat, j: nat)
    requires i < j <= |t.units|
    ensures Folded(t, i, j) == [FoldOne(t, Char(t, i, j))] + Folded(t, After(t, i, j), j)
  {
    assert Points(t, i, j)[1..] == Points(t, After(t, i, j), j);
  }

  lemma {:induction false} FoldedLast(t: Text, i: nat, j: nat)
    requires i < j <= |t.units|
    ensures Folded(t, i, j) == Folded(t, i, Before(t, j, i)) + [FoldOne(t, CharBefore(t, j, i))]
  {
    PointsSnoc(t, i, j);
  }

  lemma FoldedNone(t: Text, i: nat, j: nat)
    requires j <= |t.units|
    ensures Folded(t, i, j) == [] <==> i >= j
  {
  }

  lemma ConsSame(a: CodePoint, b: CodePoint, x: seq<CodePoint>, y: seq<CodePoint>)
    ensures [a] + x == [b] + y <==> a == b && x == y
  {
    assert ([a] + x)[1..] == x && ([b] + y)[1..] == y;
    assert ([a] + x)[0] == a && ([b] + y)[0] == b;
  }

  lemma SnocSame(a: CodePoint, b: CodePoint, x: seq<CodePoint>, y: seq<CodePoint>)
    ensures x + [a] == y + [b] <==> a == b && x == y
  {
    assert (x + [a])[..|x|] == x && (y + [b])[..|y|] == y;
    assert (x + [a])[|x|] == a && (y + [b])[|y|] == b;
  }

  // The forward walk ends at r exactly when the text up to r repeats the captured text.
  lemma {:induction false} RepeatedIff(t: Text, from: nat, until: nat, at: nat, r: nat)
    requires until <= |t.units| && at <= |t.units| && r <= |t.units| && (Aligned(t, r) || r == at)
    ensures Repeated(t, from, until, at) == Some(r) <==> at <= r && Folded(t, from, until) == Folded(t, at, r)
    decreases if from < until then until - from else 0
  {
    hide Folded;
    FoldedNone(t, from, until);
    FoldedNone(t, at, r);
    if from < until {
      FoldedHead(t, from, until);
      if at < r {
        FoldedHead(t, at, r);
        assert Char(t, at, r) == Char(t, at, |t.units|) && After(t, at, r) == After(t, at, |t.units|);
        ConsSame(FoldOne(t, Char(t, from, until)), FoldOne(t, Char(t, at, r)),
                 Folded(t, After(t, from, until), until), Folded(t, After(t, at, r), r));
        RepeatedIff(t, After(t, from, until), until, After(t, at, r), r);
      }
    }
  }

  // The backward walk ends at r exactly when the text from r repeats the captured text.
  lemma {:induction false} RepeatedBackIff(t: Text, from: nat, until: nat, at: nat, r: nat)
    requires until <= |t.units| && at <= |t.units| && r <= |t.units| && (Aligned(t, r) || r == at)
    ensures RepeatedBack(t, from, until, at) == Some(r) <==> r <= at && Folded(t, from, until) == Folded(t, r, at)
    decreases until
  {
    hide Folded;
    FoldedNone(t, from, until);
    FoldedNone(t, r, at);
    if from < until {
      FoldedLast(t, from, until);
      if r < at {
        FoldedLast(t, r, at);
        assert CharBefore(t, at, r) == CharBefore(t, at, 0) && Before(t, at, r) == Before(t, at, 0);
        SnocSame(FoldOne(t, CharBefore(t, until, from)), FoldOne(t, CharBefore(t, at, r)),
                 Folded(t, from, Before(t, until, from)), Folded(t, r, Before(t, at, r)));
        RepeatedBackIff(t, from, Before(t, until, from), Before(t, at, r), r);
      }
    }
  }

  // Without surrogate pairs, unit by unit.
  predicate SameUnits(t: Text, a: seq<Unit>, b: seq<Unit>) {
    |a| == |b| && forall k :: 0 <= k < |a| ==> FoldOne(t, a[k]) == FoldOne(t, b[k])
  }

  lemma {:induction false} NarrowFolded(t: Text, i: nat, j: nat, x: nat, y: nat)
    requires !t.utf16 && i <= j <= |t.units| && x <= y <= |t.units|
    ensures Folded(t, i, j) == Folded(t, x, y) <==> SameUnits(t, t.units[i..j], t.units[x..y])
  {
    hide Points;
    NarrowPoints(t, i, j);
    NarrowPoints(t, x, y);
    var a, b := Folded(t, i, j), Folded(t, x, y);
    assert forall k :: 0 <= k < |a| ==> a[k] == FoldOne(t, t.units[i..j][k]);
    assert forall k :: 0 <= k < |b| ==> b[k] == FoldOne(t, t.units[x..y][k]);
  }

  lemma {:induction false} NarrowRepeatedIff(t: Text, from: nat, until: nat, at: nat, r: nat)
    requires !t.utf16 && from <= until <= |t.units| && at <= |t.units| && r <= |t.units|
    ensures Repeated(t, from, until, at) == Some(r) <==>
      at <= r && SameUnits(t, t.units[from..until], t.units[at..r])
    ensures RepeatedBack(t, from, until, at) == Some(r) <==>
      r <= at && SameUnits(t, t.units[from..until], t.units[r..at])
  {
    hide Repeated, RepeatedBack, Folded, SameUnits;
    RepeatedIff(t, from, until, at, r);
    RepeatedBackIff(t, from, until, at, r);
    if at <= r { NarrowFolded(t, from, until, at, r); }
    if r <= at { NarrowFolded(t, from, until, r, at); }
  }

  // Group k has taken part: both of its ends are set.
  predicate IsSet(p: Place, k: nat) { 2 * k + 1 < |p.caps| && p.caps[2 * k].Some? && p.caps[2 * k + 1].Some? }

  // A back reference to a group that is not there fails; to one that is unset it matches the empty text; else it
  // matches what repeats the captured text, after the place or, in a lookbehind, before it.
  lemma {:induction false} ReferencedIff(t: Text, dir: Direction, k: nat, p: Place, q: Place)
    requires Inside(t, p) && Aligned(t, p.at) && |p.caps| % 2 == 0
    ensures Referenced(t, dir, k, p) == Some(q) <==>
      2 * k < |p.caps| && q.caps == p.caps && q.at <= |t.units| && Aligned(t, q.at)
      && if !IsSet(p, k) then q.at == p.at
         else
           var group := Folded(t, p.caps[2 * k].value, p.caps[2 * k + 1].value);
           if dir.Forward? then p.at <= q.at && Folded(t, p.at, q.at) == group
           else q.at <= p.at && Folded(t, q.at, p.at) == group
  {
    hide Folded, Repeated, RepeatedBack, Aligned;
    if IsSet(p, k) {
      var from, until := p.caps[2 * k].value, p.caps[2 * k + 1].value;
      if q.at <= |t.units| && Aligned(t, q.at) {
        RepeatedIff(t, from, until, p.at, q.at);
        RepeatedBackIff(t, from, until, p.at, q.at);
      }
    }
    assert q == p.(at := q.at) <==> q.caps == p.caps;
  }
}
