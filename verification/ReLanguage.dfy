// What a pattern matches, said without lists, captures or directions: the spans of text it covers. The ends of
// RePattern are those spans, read forwards and, in a lookbehind, backwards (section 22.2.2 of ECMA-262).
module ReLanguage {
  import opened ReText
  import opened ReRange
  import opened RePattern
  import opened ReGen
  import opened ReLoops
  import opened ReCorrect
  import opened ReRules
  import opened ReChoice
  import opened ReVerdict
  import opened ReOutcome
  import opened ReChars
  import opened ReEdges
  import opened ReBackrefs

  // A place between code points of the text.
  predicate Between(t: Text, i: nat) {
    i <= |t.units|
    && !(t.utf16 && 0 < i < |t.units| && 0xD800 <= t.units[i - 1] < 0xDC00 && 0xDC00 <= t.units[i] < 0xE000)
  }

  lemma BetweenAligned(t: Text, i: nat)
    requires i <= |t.units|
    ensures Between(t, i) <==> Aligned(t, i)
  {
  }

  predicate CharFits(t: Text, p: Pattern, c: CodePoint)
    requires OneChar(p)
  {
    match p
    case Literal(v) => FoldOne(t, c) == v
    case AnyChar(newline) => newline || c !in LineTerminators
    case Class(points) => InIntervals(points, FoldOne(t, c))
  }

  // [s[0], s[1]), [s[2], s[3]), ...
  predicate InIntervals(s: seq<nat>, c: int) { |s| >= 2 && (s[0] <= c < s[1] || InIntervals(s[2..], c)) }

  // p matches exactly the units from i to j.
  ghost predicate Spans(t: Text, p: Pattern, i: nat, j: nat)
    decreases p, 0
  {
    i <= j <= |t.units|
    && match p
       case Empty => i == j
       case Test(e) => i == j && EdgeAt(t, e, i)
       case Reference(_) => false
       case Group(b) => Spans(t, b, i, j)
       case Look(negative, behind, b) =>
         i == j && negative != if behind then exists k :: Between(t, k) && Spans(t, b, k, i)
                               else exists k :: Between(t, k) && Spans(t, b, i, k)
       case Cat(a, b) => exists k :: Between(t, k) && Spans(t, a, i, k) && Spans(t, b, k, j)
       case Alt(a, b) => Spans(t, a, i, j) || Spans(t, b, i, j)
       case Quant(b, min, max, _) => exists n: nat :: min <= n && (max == INF || n <= max) && Chain(t, b, n, i, j)
       case _ => |Points(t, i, j)| == 1 && CharFits(t, p, Points(t, i, j)[0])
  }

  // n spans of p, one after the other.
  ghost predicate Chain(t: Text, p: Pattern, n: nat, i: nat, j: nat)
    decreases p, n + 1
  {
    i <= j <= |t.units|
    && if n == 0 then i == j else exists k :: Between(t, k) && Spans(t, p, i, k) && Chain(t, p, n - 1, k, j)
  }

  lemma SpanBounds(t: Text, p: Pattern, i: nat, j: nat)
    requires Spans(t, p, i, j)
    ensures i <= j <= |t.units|
  {
  }

  lemma NoChain(t: Text, p: Pattern, i: nat, j: nat)
    ensures Chain(t, p, 0, i, j) <==> i == j <= |t.units|
  {
  }

  lemma ChainFirst(t: Text, p: Pattern, n: nat, i: nat, j: nat)
    requires n > 0
    ensures Chain(t, p, n, i, j) <==>
      i <= j <= |t.units| && exists k :: Between(t, k) && Spans(t, p, i, k) && Chain(t, p, n - 1, k, j)
  {
    hide Between, Spans;
  }

  lemma ChainMore(t: Text, p: Pattern, n: nat, i: nat, k: nat, j: nat)
    requires n > 0 && Between(t, k) && Spans(t, p, i, k) && Chain(t, p, n - 1, k, j)
    ensures Chain(t, p, n, i, j)
  {
    hide Between, Spans;
    SpanBounds(t, p, i, k);
  }

  lemma ChainLess(t: Text, p: Pattern, n: nat, i: nat, j: nat) returns (k: nat)
    requires n > 0 && Chain(t, p, n, i, j)
    ensures Between(t, k) && Spans(t, p, i, k) && Chain(t, p, n - 1, k, j)
  {
    hide Between, Spans;
    k :| Between(t, k) && Spans(t, p, i, k) && Chain(t, p, n - 1, k, j);
  }

  // A chain may also be taken apart at its last span.
  lemma {:induction false} ToLast(t: Text, p: Pattern, n: nat, i: nat, j: nat) returns (k: nat)
    requires n > 0 && Between(t, i) && Chain(t, p, n, i, j)
    ensures Between(t, k) && Chain(t, p, n - 1, i, k) && Spans(t, p, k, j)
    decreases n
  {
    hide Between, Spans, Chain;
    var l := ChainLess(t, p, n, i, j);
    if n == 1 {
      NoChain(t, p, l, j);
      SpanBounds(t, p, i, l);
      NoChain(t, p, i, i);
      k := i;
    } else {
      k := ToLast(t, p, n - 1, l, j);
      ChainMore(t, p, n - 1, i, l, k);
    }
  }

  lemma {:induction false} FromLast(t: Text, p: Pattern, n: nat, i: nat, k: nat, j: nat)
    requires Between(t, j) && Chain(t, p, n, i, k) && Spans(t, p, k, j)
    ensures Chain(t, p, n + 1, i, j)
    decreases n
  {
    hide Between, Spans, Chain;
    if n == 0 {
      OneSpan(t, p, i, k, j);
    } else {
      var l := ChainLess(t, p, n, i, k);
      FromLast(t, p, n - 1, l, k, j);
      ChainMore(t, p, n + 1, i, l, j);
    }
  }

  lemma {:induction false} OneSpan(t: Text, p: Pattern, i: nat, k: nat, j: nat)
    requires Between(t, j) && Chain(t, p, 0, i, k) && Spans(t, p, k, j)
    ensures Chain(t, p, 1, i, j)
  {
    hide Between, Spans, Chain;
    SpanBounds(t, p, k, j);
    NoChain(t, p, i, k);
    NoChain(t, p, j, j);
    ChainMore(t, p, 1, i, j, j);
  }

  // Read in the direction of the match: from x to y, or in a lookbehind from y to x.
  ghost predicate Covers(t: Text, p: Pattern, dir: Direction, x: nat, y: nat) {
    if dir.Forward? then Spans(t, p, x, y) else Spans(t, p, y, x)
  }

  ghost predicate CoversChain(t: Text, p: Pattern, dir: Direction, n: nat, x: nat, y: nat) {
    if dir.Forward? then Chain(t, p, n, x, y) else Chain(t, p, n, y, x)
  }

  lemma {:induction false} FirstRound(t: Text, p: Pattern, dir: Direction, n: nat, x: nat, y: nat)
    requires n > 0 && Between(t, x) && Between(t, y)
    ensures CoversChain(t, p, dir, n, x, y) <==>
      exists k :: Between(t, k) && Covers(t, p, dir, x, k) && CoversChain(t, p, dir, n - 1, k, y)
  {
    hide Between, Spans, Chain;
    if dir.Forward? {
      ChainFirst(t, p, n, x, y);
      if k :| Between(t, k) && Spans(t, p, x, k) && Chain(t, p, n - 1, k, y) {
        ChainMore(t, p, n, x, k, y);
      }
    } else {
      if Chain(t, p, n, y, x) { var k := ToLast(t, p, n, y, x); }
      if k :| Between(t, k) && Spans(t, p, k, x) && Chain(t, p, n - 1, y, k) { FromLast(t, p, n - 1, y, k, x); }
    }
  }

  // Some end lies at x.
  ghost predicate EndsAt(ends: seq<Place>, x: nat) { exists k :: 0 <= k < |ends| && ends[k].at == x }

  lemma EndsAtAppend(a: seq<Place>, b: seq<Place>, x: nat)
    ensures EndsAt(a + b, x) <==> EndsAt(a, x) || EndsAt(b, x)
  {
    assert forall k :: 0 <= k < |a| ==> (a + b)[k] == a[k];
    assert forall k :: 0 <= k < |b| ==> (a + b)[|a| + k] == b[k];
    assert forall k :: |a| <= k < |a + b| ==> (a + b)[k] == b[k - |a|];
  }

  lemma EndsAtOne(q: Place, x: nat)
    ensures EndsAt([q], x) <==> q.at == x
  {
    assert [q][0] == q;
  }

  // The ends of a pattern without back references are where its spans end, of the code and of RepeatMatcher alike.
  lemma {:induction false} EndsAreSpans(rules: Rules, t: Text, p: Pattern, dir: Direction, cc: nat, s: Place, x: nat)
    requires Inside(t, s) && Between(t, s.at) && Between(t, x) && NoReferences(p) && Emittable(p, cc)
    ensures EndsAt(Ends(rules, t, p, dir, cc, s), x) <==> Covers(t, p, dir, s.at, x)
    decreases p, 0, 0, 0, 1
  {
    hide Inside, Between, Ends, EndsAt, Covers, NoReferences, Emittable;
    BetweenInside(t, x);
    if p.Group? {
      GroupSpans(rules, t, p, dir, cc, s, x);
    } else if p.Look? {
      LookSpans(rules, t, p, dir, cc, s, x);
    } else if p.Cat? {
      CatSpans(rules, t, p, dir, cc, s, x);
    } else if p.Alt? {
      AltSpans(rules, t, p, dir, cc, s, x);
    } else if p.Quant? {
      QuantSpans(rules, t, p, dir, cc, s, x);
    } else if OneChar(p) {
      CharSpans(rules, t, p, dir, cc, s, x);
    } else {
      LeafSpans(rules, t, p, dir, cc, s, x);
    }
  }

  lemma {:induction false} LeafSpans(rules: Rules, t: Text, p: Pattern, dir: Direction, cc: nat, s: Place, x: nat)
    requires Inside(t, s) && x <= |t.units| && NoReferences(p) && (p.Empty? || p.Test? || p.Reference?)
    ensures EndsAt(Ends(rules, t, p, dir, cc, s), x) <==> Covers(t, p, dir, s.at, x)
  {
    hide AtEdge, EdgeAt;
    EndsAtOne(s, x);
    if p.Test? { EdgeIs(t, p.edge, s.at); }
  }

  lemma {:induction false} FitsAccepts(t: Text, p: Pattern, c: CodePoint)
    requires OneChar(p)
    ensures Accepts(t, p, c) <==> CharFits(t, p, c)
  {
    if p.Class? { IntervalsAreRanges(p.points, Canon(t, c)); }
  }

  lemma {:induction false} IntervalsAreRanges(s: seq<nat>, c: int)
    ensures InIntervals(s, c) <==> InRanges(s, c)
  {
    if |s| >= 2 {
      IntervalsAreRanges(s[2..], c);
      forall k | 0 <= k < |s[2..]| / 2 ensures HitPair(s[2..], k, c) <==> HitPair(s, k + 1, c) {}
      if InRanges(s, c) {
        var k :| 0 <= k < |s| / 2 && HitPair(s, k, c);
        if k > 0 { assert HitPair(s[2..], k - 1, c); }
      }
      if s[0] <= c < s[1] { assert HitPair(s, 0, c); }
      if InRanges(s[2..], c) {
        var k :| 0 <= k < |s[2..]| / 2 && HitPair(s[2..], k, c);
        assert HitPair(s, k + 1, c);
      }
    }
  }

  // One code point is passed.
  lemma {:induction false} OnePoint(t: Text, i: nat, j: nat)
    requires i <= j <= |t.units| && Aligned(t, i) && Aligned(t, j)
    ensures |Points(t, i, j)| == 1 <==> i < j && After(t, i, |t.units|) == j
    ensures |Points(t, i, j)| == 1 <==> i < j && Before(t, j, 0) == i
    ensures |Points(t, i, j)| == 1 ==>
      Points(t, i, j)[0] == Char(t, i, |t.units|) == Char(t, Before(t, j, 0), |t.units|)
  {
    if i < j {
      assert Points(t, i, j) == [Char(t, i, j)] + Points(t, After(t, i, j), j);
      assert After(t, i, j) == After(t, i, |t.units|) && Char(t, i, j) == Char(t, i, |t.units|);
    }
  }

  lemma CharCovers(t: Text, p: Pattern, dir: Direction, x: nat, y: nat)
    requires OneChar(p) && x <= |t.units| && y <= |t.units|
    ensures Covers(t, p, dir, x, y) <==>
      var i, j := if dir.Forward? then x else y, if dir.Forward? then y else x;
      i <= j && |Points(t, i, j)| == 1 && CharFits(t, p, Points(t, i, j)[0])
  {
    hide CharFits, Points;
  }

  lemma CharEnds(rules: Rules, t: Text, p: Pattern, dir: Direction, cc: nat, s: Place, x: nat)
    requires Inside(t, s) && OneChar(p)
    ensures EndsAt(Ends(rules, t, p, dir, cc, s), x) <==>
      if dir.Forward? then
        s.at < |t.units| && Accepts(t, p, Char(t, s.at, |t.units|)) && x == After(t, s.at, |t.units|)
      else
        s.at > 0 && Accepts(t, p, Char(t, Before(t, s.at, 0), |t.units|)) && x == Before(t, s.at, 0)
  {
    hide Accepts, Char, After, Before, Ahead;
    var ends := Ends(rules, t, p, dir, cc, s);
    assert ends == OneEnd(t, p, dir, s);
    if ends != [] {
      EndsAtOne(ends[0], x);
      assert ends == [ends[0]];
    }
  }

  lemma {:induction false} CharSpans(rules: Rules, t: Text, p: Pattern, dir: Direction, cc: nat, s: Place, x: nat)
    requires Inside(t, s) && Between(t, s.at) && Between(t, x) && OneChar(p)
    ensures EndsAt(Ends(rules, t, p, dir, cc, s), x) <==> Covers(t, p, dir, s.at, x)
  {
    hide Inside, Ends, EndsAt, Covers, Accepts, CharFits, Points, After, Before, Char, OneChar;
    InsideAt(t, s);
    BetweenAligned(t, s.at);
    BetweenAligned(t, x);
    CharCovers(t, p, dir, s.at, x);
    CharEnds(rules, t, p, dir, cc, s, x);
    var i, j := if dir.Forward? then s.at else x, if dir.Forward? then x else s.at;
    if i <= j {
      OnePoint(t, i, j);
      if |Points(t, i, j)| == 1 { FitsAccepts(t, p, Points(t, i, j)[0]); }
    }
    if dir.Forward? {
      if s.at < |t.units| { BeyondAfter(t, s.at); }
    } else {
      if s.at > 0 { BeyondBefore(t, s.at); }
    }
  }

  lemma BeyondAfter(t: Text, i: nat)
    requires i < |t.units|
    ensures i < After(t, i, |t.units|) <= |t.units|
  {
  }

  lemma BeyondBefore(t: Text, i: nat)
    requires 0 < i <= |t.units|
    ensures Before(t, i, 0) < i
  {
  }

  lemma {:induction false} GroupSpans(rules: Rules, t: Text, p: Pattern, dir: Direction, cc: nat, s: Place, x: nat)
    requires Inside(t, s) && Between(t, s.at) && Between(t, x) && NoReferences(p) && Emittable(p, cc) && p.Group?
    ensures EndsAt(Ends(rules, t, p, dir, cc, s), x) <==> Covers(t, p, dir, s.at, x)
    decreases p, 0, 0, 0, 0
  {
    hide Inside, Between, Mark, Repeat, EndsFrom, OneEnd, AtEdge, Referenced, Ahead;
    var o, c := OpenSlot(dir, cc), CloseSlot(dir, cc);
    MarkInside(t, s, o);
    EndsAreSpans(rules, t, p.body, dir, cc + 1, Mark(s, o), x);
    var inner := Ends(rules, t, p.body, dir, cc + 1, Mark(s, o));
    assert Ends(rules, t, p, dir, cc, s) == MarkAll(inner, c);
    assert forall k :: 0 <= k < |inner| ==> MarkAll(inner, c)[k].at == inner[k].at;
  }

  lemma LookCovers(t: Text, p: Pattern, dir: Direction, x: nat, y: nat)
    requires p.Look? && x <= |t.units|
    ensures Covers(t, p, dir, x, y) <==>
      x == y && p.negative !=
        exists k :: Between(t, k) && Covers(t, p.body, if p.behind then Backward else Forward, x, k)
  {
    hide Between;
  }

  lemma LookEndsAt(rules: Rules, t: Text, p: Pattern, dir: Direction, cc: nat, s: Place, x: nat)
    requires p.Look? && Inside(t, s)
    ensures EndsAt(Ends(rules, t, p, dir, cc, s), x) <==>
      x == s.at && p.negative != (Ends(rules, t, p.body, if p.behind then Backward else Forward, cc, s) != [])
  {
    hide Ends, Ahead, Inside;
    var inner := Ends(rules, t, p.body, if p.behind then Backward else Forward, cc, s);
    var ends := if inner == [] then (if p.negative then [s] else []) else if p.negative then []
        else [s.(caps := inner[0].caps)];
    assert Ends(rules, t, p, dir, cc, s) == ends by { LookIs(rules, t, p, dir, cc, s); }
    if ends != [] {
      EndsAtOne(ends[0], x);
      assert ends == [ends[0]];
    }
  }

  lemma LookIs(rules: Rules, t: Text, p: Pattern, dir: Direction, cc: nat, s: Place)
    requires p.Look? && Inside(t, s)
    ensures var inner := Ends(rules, t, p.body, if p.behind then Backward else Forward, cc, s);
      Ends(rules, t, p, dir, cc, s)
      == if inner == [] then (if p.negative then [s] else []) else if p.negative then []
         else [s.(caps := inner[0].caps)]
  {
    hide Inside, Repeat, EndsFrom, OneEnd, AtEdge, Referenced, Ahead;
  }

  // Ends lie between code points.
  lemma {:induction false} EndBetween(t: Text, dir: Direction, s: Place, ends: seq<Place>, k: nat)
    requires Between(t, s.at) && AllAhead(t, dir, s, ends) && k < |ends|
    ensures Between(t, ends[k].at) && Inside(t, ends[k]) && EndsAt(ends, ends[k].at)
  {
    assert Ahead(t, dir, s, ends[k]);
    BetweenAligned(t, s.at);
    BetweenAligned(t, ends[k].at);
  }

  lemma {:induction false} LookSpans(rules: Rules, t: Text, p: Pattern, dir: Direction, cc: nat, s: Place, x: nat)
    requires Inside(t, s) && Between(t, s.at) && Between(t, x) && NoReferences(p) && Emittable(p, cc) && p.Look?
    ensures EndsAt(Ends(rules, t, p, dir, cc, s), x) <==> Covers(t, p, dir, s.at, x)
    decreases p, 0, 0, 0, 0
  {
    hide Inside, Between, Ends, Covers, EndsAt, AllAhead;
    InsideAt(t, s);
    var d := if p.behind then Backward else Forward;
    var inner := Ends(rules, t, p.body, d, cc, s);
    forall k | Between(t, k) ensures EndsAt(inner, k) <==> Covers(t, p.body, d, s.at, k) {
      EndsAreSpans(rules, t, p.body, d, cc, s, k);
    }
    LookCovers(t, p, dir, s.at, x);
    LookEndsAt(rules, t, p, dir, cc, s, x);
    if inner != [] { EndBetween(t, d, s, inner, 0); } else { NoEnds(); }
  }

  lemma NoEnds()
    ensures forall x :: !EndsAt([], x)
  {
  }

  lemma CatCovers(t: Text, p: Pattern, dir: Direction, cc: nat, x: nat, y: nat)
    requires p.Cat? && x <= |t.units| && y <= |t.units|
    ensures var a, b := FirstHalf(p, dir, cc), SecondHalf(p, dir, cc);
      Covers(t, p, dir, x, y) <==> exists k :: Between(t, k) && Covers(t, a.p, dir, x, k) && Covers(t, b.p, dir, k, y)
  {
    hide Between;
    if dir.Forward? {
      if k :| Between(t, k) && Spans(t, p.first, x, k) && Spans(t, p.second, k, y) {
        SpanBounds(t, p.first, x, k);
        SpanBounds(t, p.second, k, y);
      }
    } else {
      if k :| Between(t, k) && Spans(t, p.first, y, k) && Spans(t, p.second, k, x) {
        SpanBounds(t, p.first, y, k);
        SpanBounds(t, p.second, k, x);
      }
    }
  }

  lemma {:induction false} CatSpans(rules: Rules, t: Text, p: Pattern, dir: Direction, cc: nat, s: Place, x: nat)
    requires Inside(t, s) && Between(t, s.at) && Between(t, x) && NoReferences(p) && Emittable(p, cc) && p.Cat?
    ensures EndsAt(Ends(rules, t, p, dir, cc, s), x) <==> Covers(t, p, dir, s.at, x)
    decreases p, 0, 0, 0, 0
  {
    hide Inside, Between, Ends, Covers, EndsAt, AllAhead, EndsFrom;
    InsideAt(t, s);
    var a, b := FirstHalf(p, dir, cc), SecondHalf(p, dir, cc);
    CatEnds(rules, t, p, dir, cc, s);
    BetweenInside(t, x);
    CatCovers(t, p, dir, cc, s.at, x);
    var starts := Ends(rules, t, a.p, dir, a.cc, s);
    forall k | Between(t, k) ensures EndsAt(starts, k) <==> Covers(t, a.p, dir, s.at, k) {
      EndsAreSpans(rules, t, a.p, dir, a.cc, s, k);
    }
    FromSpans(rules, t, b.p, dir, b.cc, s, starts, x);
  }

  lemma BetweenInside(t: Text, x: nat)
    requires Between(t, x)
    ensures x <= |t.units|
  {
  }

  lemma {:induction false} FromSpans(rules: Rules, t: Text, p: Pattern, dir: Direction, cc: nat, s: Place,
                                     starts: seq<Place>, x: nat)
    requires Inside(t, s) && Between(t, s.at) && Between(t, x) && NoReferences(p) && Emittable(p, cc)
    requires AllAhead(t, dir, s, starts)
    ensures EndsAt(EndsFrom(rules, t, p, dir, cc, s, starts), x) <==>
      exists k :: Between(t, k) && EndsAt(starts, k) && Covers(t, p, dir, k, x)
    decreases p, 0, 0, 1, |starts|
  {
    hide Inside, Between, Ends, Covers, AllAhead, Ahead;
    if starts == [] {
      NoEnds();
    } else {
      var q := starts[0];
      AheadHead(t, dir, s, starts);
      EndBetween(t, dir, s, starts, 0);
      EndsAreSpans(rules, t, p, dir, cc, q, x);
      FromSpans(rules, t, p, dir, cc, s, starts[1..], x);
      EndsAtAppend(Ends(rules, t, p, dir, cc, q), EndsFrom(rules, t, p, dir, cc, s, starts[1..]), x);
      forall k ensures EndsAt(starts, k) <==> q.at == k || EndsAt(starts[1..], k) {
        assert starts == [q] + starts[1..];
        EndsAtAppend([q], starts[1..], k);
        EndsAtOne(q, k);
      }
    }
  }

  lemma {:induction false} AltSpans(rules: Rules, t: Text, p: Pattern, dir: Direction, cc: nat, s: Place, x: nat)
    requires Inside(t, s) && Between(t, s.at) && Between(t, x) && NoReferences(p) && Emittable(p, cc) && p.Alt?
    ensures EndsAt(Ends(rules, t, p, dir, cc, s), x) <==> Covers(t, p, dir, s.at, x)
    decreases p, 0, 0, 0, 0
  {
    hide Inside, Between, Ends, Covers, EndsAt;
    var cb := cc + Groups(p.left);
    AltEnds(rules, t, p, dir, cc, s);
    EndsAreSpans(rules, t, p.left, dir, cc, s, x);
    EndsAreSpans(rules, t, p.right, dir, cb, s, x);
    EndsAtAppend(Ends(rules, t, p.left, dir, cc, s), Ends(rules, t, p.right, dir, cb, s), x);
    InsideAt(t, s);
    BetweenInside(t, x);
    AltCovers(t, p, dir, s.at, x);
  }

  lemma AltCovers(t: Text, p: Pattern, dir: Direction, x: nat, y: nat)
    requires p.Alt? && x <= |t.units| && y <= |t.units|
    ensures Covers(t, p, dir, x, y) <==> Covers(t, p.left, dir, x, y) || Covers(t, p.right, dir, x, y)
  {
    if dir.Forward? {
      if Spans(t, p.left, x, y) { SpanBounds(t, p.left, x, y); }
      if Spans(t, p.right, x, y) { SpanBounds(t, p.right, x, y); }
    } else {
      if Spans(t, p.left, y, x) { SpanBounds(t, p.left, y, x); }
      if Spans(t, p.right, y, x) { SpanBounds(t, p.right, y, x); }
    }
  }

  // Some number of rounds from min to max.
  ghost predicate Many(t: Text, p: Pattern, dir: Direction, min: nat, max: nat, x: nat, y: nat) {
    exists n: nat :: min <= n && (max == INF || n <= max) && CoversChain(t, p, dir, n, x, y)
  }

  lemma {:induction false} QuantCovers(t: Text, p: Pattern, dir: Direction, x: nat, y: nat)
    requires p.Quant? && x <= |t.units| && y <= |t.units|
    ensures Covers(t, p, dir, x, y) <==> Many(t, p.body, dir, p.min, p.max, x, y)
  {
    hide Spans, Chain, Many;
    var i, j := if dir.Forward? then x else y, if dir.Forward? then y else x;
    if Many(t, p.body, dir, p.min, p.max, x, y) {
      var n := CountOf(t, p.body, dir, p.min, p.max, x, y);
      ChainBounds(t, p.body, n, i, j);
      QuantBy(t, p, n, i, j);
    }
    if Spans(t, p, i, j) {
      var n := QuantCount(t, p, i, j);
      ManyBy(t, p.body, dir, p.min, p.max, n, x, y);
    }
  }

  lemma QuantBy(t: Text, p: Pattern, n: nat, i: nat, j: nat)
    requires p.Quant? && p.min <= n && (p.max == INF || n <= p.max) && Chain(t, p.body, n, i, j)
    requires i <= j <= |t.units|
    ensures Spans(t, p, i, j)
  {
    hide Chain, Points, EdgeAt, CharFits, Between;
  }

  lemma QuantCount(t: Text, p: Pattern, i: nat, j: nat) returns (n: nat)
    requires p.Quant? && Spans(t, p, i, j)
    ensures p.min <= n && (p.max == INF || n <= p.max) && Chain(t, p.body, n, i, j)
  {
    hide Chain, Points, EdgeAt, CharFits, Between;
    n :| p.min <= n && (p.max == INF || n <= p.max) && Chain(t, p.body, n, i, j);
  }

  lemma ChainBounds(t: Text, p: Pattern, n: nat, i: nat, j: nat)
    requires Chain(t, p, n, i, j)
    ensures i <= j <= |t.units|
  {
  }

  lemma NoRound(t: Text, p: Pattern, dir: Direction, x: nat, y: nat)
    requires x <= |t.units|
    ensures CoversChain(t, p, dir, 0, x, y) <==> x == y
  {
    NoChain(t, p, x, y);
    NoChain(t, p, y, x);
  }

  lemma NoneMany(t: Text, p: Pattern, dir: Direction, x: nat, y: nat)
    requires x <= |t.units|
    ensures Many(t, p, dir, 0, 0, x, y) <==> x == y
  {
    hide CoversChain;
    NoRound(t, p, dir, x, y);
  }

  lemma ManyBy(t: Text, p: Pattern, dir: Direction, min: nat, max: nat, n: nat, x: nat, y: nat)
    requires min <= n && (max == INF || n <= max) && CoversChain(t, p, dir, n, x, y)
    ensures Many(t, p, dir, min, max, x, y)
  {
    hide CoversChain;
  }

  // Rounds begin with one round; one that may not be empty is left out where it is.
  lemma {:induction false} RoundOf(t: Text, p: Pattern, dir: Direction, min: nat, max: nat, must: bool, n: nat, x: nat,
                                   y: nat) returns (k: nat)
    requires Between(t, x) && Between(t, y) && min <= n && (max == INF || n <= max < INF) && (must ==> min == 0)
    requires CoversChain(t, p, dir, n, x, y) && (min == 0 ==> x != y)
    ensures Between(t, k) && Covers(t, p, dir, x, k) && (must ==> k != x)
    ensures Many(t, p, dir, if min > 0 then min - 1 else 0, Less(max), k, y)
    decreases n
  {
    hide Between, CoversChain, Covers, Many;
    BetweenInside(t, x);
    if n == 0 { NoRound(t, p, dir, x, y); }
    FirstRound(t, p, dir, n, x, y);
    k :| Between(t, k) && Covers(t, p, dir, x, k) && CoversChain(t, p, dir, n - 1, k, y);
    if must && k == x {
      k := RoundOf(t, p, dir, min, max, must, n - 1, x, y);
    } else {
      ManyBy(t, p, dir, if min > 0 then min - 1 else 0, Less(max), n - 1, k, y);
    }
  }

  lemma {:induction false} RoundMore(t: Text, p: Pattern, dir: Direction, min: nat, max: nat, x: nat, k: nat, y: nat)
    requires Between(t, x) && Between(t, y) && Between(t, k) && Covers(t, p, dir, x, k) && 0 < max <= INF
    requires Many(t, p, dir, if min > 0 then min - 1 else 0, Less(max), k, y)
    ensures Many(t, p, dir, min, max, x, y)
  {
    hide Between, CoversChain, Covers;
    var n: nat :| (if min > 0 then min - 1 else 0) <= n && (Less(max) == INF || n <= Less(max))
                  && CoversChain(t, p, dir, n, k, y);
    FirstRound(t, p, dir, n + 1, x, y);
    ManyBy(t, p, dir, min, max, n + 1, x, y);
  }

  lemma {:induction false} ManyStep(t: Text, p: Pattern, dir: Direction, min: nat, max: nat, must: bool, x: nat, y: nat)
    requires Between(t, x) && Between(t, y) && 0 < max <= INF && (must ==> min == 0)
    ensures Many(t, p, dir, min, max, x, y) <==>
      (min == 0 && x == y)
      || exists k :: Between(t, k) && Covers(t, p, dir, x, k) && (must ==> k != x)
                     && Many(t, p, dir, if min > 0 then min - 1 else 0, Less(max), k, y)
  {
    hide Between, CoversChain, Covers, Many;
    if min == 0 && x == y {
      BetweenInside(t, x);
      NoRound(t, p, dir, x, y);
      ManyBy(t, p, dir, min, max, 0, x, y);
    } else {
      if Many(t, p, dir, min, max, x, y) {
        var n := CountOf(t, p, dir, min, max, x, y);
        var k := RoundOf(t, p, dir, min, max, must, n, x, y);
      }
      if k :| Between(t, k) && Covers(t, p, dir, x, k) && (must ==> k != x)
              && Many(t, p, dir, if min > 0 then min - 1 else 0, Less(max), k, y) {
        RoundMore(t, p, dir, min, max, x, k, y);
      }
    }
  }

  lemma CountOf(t: Text, p: Pattern, dir: Direction, min: nat, max: nat, x: nat, y: nat) returns (n: nat)
    requires Many(t, p, dir, min, max, x, y)
    ensures min <= n && (max == INF || n <= max) && CoversChain(t, p, dir, n, x, y)
  {
    hide CoversChain;
    n :| min <= n && (max == INF || n <= max) && CoversChain(t, p, dir, n, x, y);
  }

  lemma {:induction false} QuantSpans(rules: Rules, t: Text, p: Pattern, dir: Direction, cc: nat, s: Place, x: nat)
    requires Inside(t, s) && Between(t, s.at) && Between(t, x) && NoReferences(p) && Emittable(p, cc) && p.Quant?
    ensures EndsAt(Ends(rules, t, p, dir, cc, s), x) <==> Covers(t, p, dir, s.at, x)
    decreases p, 0, 0, 0, 0
  {
    hide Inside, Between, Repeat, Ends, EndsAt, Covers, Many, Forget;
    var how := if rules.Ecma? then Standard else Listed;
    var q := FirstFrom(how, cc, Groups(p.body), p.min, s);
    InsideAt(t, s);
    BetweenInside(t, x);
    ForgetInside(t, s, cc, Groups(p.body));
    FirstThere(how, cc, Groups(p.body), p.min, s);
    QuantEndsIs(how, t, p, dir, cc, s, q);
    RepeatSpans(rules, t, p.body, dir, cc, p.min, p.max, p.greedy, q, x);
    QuantCovers(t, p, dir, s.at, x);
  }

  lemma FirstThere(how: Reading, cc: nat, n: nat, min: nat, s: Place)
    ensures FirstFrom(how, cc, n, min, s).at == RoundFrom(how, cc, n, s).at == s.at
  {
  }

  lemma {:induction false} RepeatSpans(rules: Rules, t: Text, p: Pattern, dir: Direction, cc: nat, min: nat, max: nat,
                                       greedy: bool, s: Place, x: nat)
    requires Inside(t, s) && Between(t, s.at) && Between(t, x) && NoReferences(p) && Emittable(p, cc)
    requires min <= max <= INF
    ensures EndsAt(Repeat(rules, t, p, dir, cc, min, max, greedy, s), x) <==> Many(t, p, dir, min, max, s.at, x)
    decreases p, Distance(t, dir, s) + 1, Rounds(min, max), 1, 0
  {
    hide Inside, Between, Repeat, RepeatFrom, Rounded, Ends, EndsAt, Covers, Many, MustMove, AllAhead, AllMove;
    InsideAt(t, s);
    if max == 0 {
      ZeroRounds(rules, t, p, dir, cc, min, greedy, s);
      EndsAtOne(s, x);
      NoneMany(t, p, dir, s.at, x);
    } else {
      var must := MustMove(rules, min, max, greedy);
      var kept := Rounded(rules, t, p, dir, cc, min, max, greedy, s);
      forall k | Between(t, k) ensures EndsAt(kept, k) <==> Covers(t, p, dir, s.at, k) && (must ==> k != s.at) {
        RoundedSpans(rules, t, p, dir, cc, min, max, greedy, s, k);
      }
      RepeatFromSpans(rules, t, p, dir, cc, min, max, greedy, s, kept, x);
      RepeatAt(rules, t, p, dir, cc, min, max, greedy, s, x);
      MustIsOptional(rules, min, max, greedy);
      ManyStep(t, p, dir, min, max, must, s.at, x);
    }
  }

  lemma MustIsOptional(rules: Rules, min: nat, max: nat, greedy: bool)
    ensures MustMove(rules, min, max, greedy) ==> min == 0
  {
  }

  lemma RepeatAt(rules: Rules, t: Text, p: Pattern, dir: Direction, cc: nat, min: nat, max: nat, greedy: bool, s: Place,
                 x: nat)
    requires Inside(t, s) && max > 0
    ensures EndsAt(Repeat(rules, t, p, dir, cc, min, max, greedy, s), x) <==>
      (min == 0 && s.at == x)
      || EndsAt(RepeatFrom(rules, t, p, dir, cc, min, max, greedy, s,
                           Rounded(rules, t, p, dir, cc, min, max, greedy, s)), x)
  {
    hide Inside, Repeat, RepeatFrom, Rounded, EndsAt, AllAhead;
    RepeatIsRounded(rules, t, p, dir, cc, min, max, greedy, s);
    var more := RepeatFrom(rules, t, p, dir, cc, min, max, greedy, s,
                           Rounded(rules, t, p, dir, cc, min, max, greedy, s));
    EndsAtOne(s, x);
    EndsAtAppend(more, [s], x);
    EndsAtAppend([s], more, x);
  }

  lemma {:induction false} RoundedSpans(rules: Rules, t: Text, p: Pattern, dir: Direction, cc: nat, min: nat, max: nat,
                                        greedy: bool, s: Place, k: nat)
    requires Inside(t, s) && Between(t, s.at) && Between(t, k) && NoReferences(p) && Emittable(p, cc)
    ensures EndsAt(Rounded(rules, t, p, dir, cc, min, max, greedy, s), k) <==>
      Covers(t, p, dir, s.at, k) && (MustMove(rules, min, max, greedy) ==> k != s.at)
    decreases p, Distance(t, dir, s) + 1, Rounds(min, max), 0, 0
  {
    hide Inside, Between, Ends, Covers, Forget, MustMove, AllAhead, AllMove, EndsAt;
    var n, how := Groups(p), if rules.Ecma? then Standard else Listed;
    var from := RoundFrom(how, cc, n, s);
    ForgetInside(t, s, cc, n);
    FirstThere(how, cc, n, min, s);
    RoundedReads(how, t, p, dir, cc, min, max, greedy, s);
    EndsAreSpans(rules, t, p, dir, cc, from, k);
    KeptAt(MustMove(rules, min, max, greedy), s, Ends(rules, t, p, dir, cc, from), k);
  }

  lemma {:induction false} KeptAt(must: bool, s: Place, ends: seq<Place>, x: nat)
    ensures EndsAt(Kept(must, s, ends), x) <==> EndsAt(ends, x) && (must ==> x != s.at)
  {
    var kept := Kept(must, s, ends);
    if i :| 0 <= i < |kept| && kept[i].at == x {
      var j :| 0 <= j < |ends| && ends[j] == kept[i];
    }
    if i :| 0 <= i < |ends| && ends[i].at == x && must && x != s.at {
      var j := KeptIndex(s, ends, i);
    }
  }

  lemma {:induction false} RepeatFromSpans(rules: Rules, t: Text, p: Pattern, dir: Direction, cc: nat, min: nat,
                                           max: nat, greedy: bool, s: Place, starts: seq<Place>, x: nat)
    requires Inside(t, s) && Between(t, s.at) && Between(t, x) && NoReferences(p) && Emittable(p, cc)
    requires min <= max <= INF && max > 0 && AllAhead(t, dir, s, starts)
    requires (MustMove(rules, min, max, greedy) ==> AllMove(s, starts))
    ensures EndsAt(RepeatFrom(rules, t, p, dir, cc, min, max, greedy, s, starts), x) <==>
      exists k :: Between(t, k) && EndsAt(starts, k)
                  && Many(t, p, dir, if min > 0 then min - 1 else 0, Less(max), k, x)
    decreases p, Distance(t, dir, s) + 1, Rounds(min, max), 0, |starts|
  {
    hide Inside, Between, Repeat, RepeatFrom, Ends, EndsAt, Covers, Many, AllAhead, Ahead, Positions;
    if starts == [] {
      NoEnds();
      RepeatFromNone(rules, t, p, dir, cc, min, max, greedy, s);
    } else {
      var q, min2, rest := starts[0], if min > 0 then min - 1 else 0, starts[1..];
      AheadHead(t, dir, s, starts);
      EndBetween(t, dir, s, starts, 0);
      RoundNearer(rules, t, dir, min, max, greedy, s, q);
      RepeatFromHead(rules, t, p, dir, cc, min, max, greedy, s, starts);
      RepeatSpans(rules, t, p, dir, cc, min2, Less(max), greedy, q, x);
      RepeatFromSpans(rules, t, p, dir, cc, min, max, greedy, s, rest, x);
      EndsAtAppend(Repeat(rules, t, p, dir, cc, min2, Less(max), greedy, q),
                   RepeatFrom(rules, t, p, dir, cc, min, max, greedy, s, rest), x);
      forall k ensures EndsAt(starts, k) <==> q.at == k || EndsAt(rest, k) {
        assert starts == [q] + rest;
        EndsAtAppend([q], rest, k);
        EndsAtOne(q, k);
      }
    }
  }
}
