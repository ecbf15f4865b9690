// Patterns, and the list of places where a pattern can end, in order of preference.
module RePattern {
  import opened ReText
  import opened ReCode
  import opened ReRange

  datatype Pattern =
    | Empty
    | Test(edge: Edge)
    | Literal(c: CodePoint)
    | AnyChar(newline: bool)
    | Class(points: seq<nat>)
    | Group(body: Pattern)
    | Reference(k: nat)
    | Look(negative: bool, behind: bool, body: Pattern)
    | Cat(first: Pattern, second: Pattern)
    | Alt(left: Pattern, right: Pattern)
    | Quant(body: Pattern, min: nat, max: nat, greedy: bool)

  // quant_max == INT32_MAX stands for no bound.
  const INF: nat := INT32_MAX

  // Groups opened by p: s->capture_count after minus before.
  function Groups(p: Pattern): nat {
    match p
    case Group(b) => 1 + Groups(b)
    case Look(_, _, b) => Groups(b)
    case Cat(a, b) => Groups(a) + Groups(b)
    case Alt(a, b) => Groups(a) + Groups(b)
    case Quant(b, _, _, _) => Groups(b)
    case _ => 0
  }

  // Two readings of a repetition. Code is what libregexp.c runs: captures are forgotten once before a
  // loop that may run zero times, and a bounded lazy loop accepts empty rounds. Ecma is RepeatMatcher
  // (section 22.2.2.3.1 of ECMA-262): captures are forgotten before every round, and once min rounds
  // have been done an empty round fails.
  datatype Rules = Code | Ecma

  predicate OneChar(p: Pattern) { p.Literal? || p.AnyChar? || p.Class? }

  predicate Accepts(t: Text, p: Pattern, c: CodePoint)
    requires OneChar(p)
  {
    match p
    case Literal(v) => Canon(t, c) == v
    case AnyChar(newline) => newline || !LineTerminator(c)
    case Class(points) => InRanges(points, Canon(t, c))
  }

  ghost predicate Ahead(t: Text, dir: Direction, p: Place, q: Place) {
    Inside(t, q) && |q.caps| == |p.caps| && (if dir.Forward? then p.at <= q.at else q.at <= p.at)
    && (Aligned(t, p.at) ==> Aligned(t, q.at))
  }

  ghost predicate AllAhead(t: Text, dir: Direction, p: Place, ends: seq<Place>) {
    forall k :: 0 <= k < |ends| ==> Ahead(t, dir, p, ends[k])
  }

  function OneEnd(t: Text, p: Pattern, dir: Direction, s: Place): (r: seq<Place>)
    requires OneChar(p) && Inside(t, s)
    ensures AllAhead(t, dir, s, r) && forall k :: 0 <= k < |r| ==> r[k].at != s.at
  {
    if dir.Forward? then
      if s.at < |t.units| && Accepts(t, p, Char(t, s.at, |t.units|)) then [s.(at := After(t, s.at, |t.units|))] else []
    else if s.at > 0 && Accepts(t, p, Char(t, Before(t, s.at, 0), |t.units|)) then [s.(at := Before(t, s.at, 0))]
    else []
  }

  function Mark(s: Place, k: nat): (r: Place)
    ensures r.at == s.at && |r.caps| == |s.caps|
  {
    s.(caps := SetCapture(s.caps, k, s.at))
  }

  function MarkAll(ends: seq<Place>, k: nat): (r: seq<Place>)
    ensures |r| == |ends|
  {
    seq(|ends|, i requires 0 <= i < |ends| => Mark(ends[i], k))
  }

  function Forget(s: Place, cc: nat, n: nat): Place { s.(caps := ResetCaptures(s.caps, cc, n)) }

  function OpenSlot(dir: Direction, cc: nat): nat { if dir.Forward? then 2 * cc else 2 * cc + 1 }
  function CloseSlot(dir: Direction, cc: nat): nat { if dir.Forward? then 2 * cc + 1 else 2 * cc }

  function Distance(t: Text, dir: Direction, s: Place): nat {
    if dir.Backward? then s.at else if s.at <= |t.units| then |t.units| - s.at else 0
  }

  // Rounds that may not be empty.
  predicate MustMove(rules: Rules, min: nat, max: nat, greedy: bool) {
    min == 0 && (rules.Ecma? || greedy || max == INF)
  }

  function Moved(s: Place, ends: seq<Place>): (r: seq<Place>)
    ensures forall k :: 0 <= k < |r| ==> r[k] in ends && r[k].at != s.at
  {
    if ends == [] then []
    else if ends[0].at == s.at then Moved(s, ends[1..])
    else [ends[0]] + Moved(s, ends[1..])
  }

  function Kept(must: bool, s: Place, ends: seq<Place>): (r: seq<Place>)
    ensures forall k :: 0 <= k < |r| ==> r[k] in ends && (must ==> r[k].at != s.at)
  {
    if must then Moved(s, ends) else ends
  }

  function Less(max: nat): nat { if max == 0 || max == INF then max else max - 1 }

  function Rounds(min: nat, max: nat): nat { if max == INF then min else min + max }

  // The ends of p from s. Groups of p are numbered from cc.
  function Ends(rules: Rules, t: Text, p: Pattern, dir: Direction, cc: nat, s: Place): (r: seq<Place>)
    requires Inside(t, s)
    ensures AllAhead(t, dir, s, r)
    decreases p, 0, 0, 0, 0
  {
    match p
    case Empty => [s]
    case Test(e) => if AtEdge(t, e, s.at) then [s] else []
    case Reference(k) => var q := Referenced(t, dir, k, s); ReferenceAhead(t, dir, k, s); if q.None? then []
        else [q.value]
    case Group(b) => MarkAll(Ends(rules, t, b, dir, cc + 1, Mark(s, OpenSlot(dir, cc))), CloseSlot(dir, cc))
    case Look(negative, behind, b) =>
      var inner := Ends(rules, t, b, if behind then Backward else Forward, cc, s);
      if inner == [] then (if negative then [s] else [])
      else if negative then [] else [s.(caps := inner[0].caps)]
    case Cat(a, b) =>
      if dir.Forward? then EndsFrom(rules, t, b, dir, cc + Groups(a), s, Ends(rules, t, a, dir, cc, s))
      else EndsFrom(rules, t, a, dir, cc, s, Ends(rules, t, b, dir, cc + Groups(a), s))
    case Alt(a, b) => Ends(rules, t, a, dir, cc, s) + Ends(rules, t, b, dir, cc + Groups(a), s)
    case Quant(b, min, max, greedy) =>
      Repeat(rules, t, b, dir, cc, min, max, greedy,
             if rules.Code? && min == 0 && Groups(b) > 0 then Forget(s, cc, Groups(b)) else s)
    case _ => OneEnd(t, p, dir, s)
  }

  // The ends of p from each of starts in turn.
  function EndsFrom(rules: Rules, t: Text, p: Pattern, dir: Direction, cc: nat, s: Place,
                    starts: seq<Place>): (r: seq<Place>)
    requires Inside(t, s) && AllAhead(t, dir, s, starts)
    ensures AllAhead(t, dir, s, r)
    decreases p, 0, 0, 1, |starts|
  {
    if starts == [] then []
    else
      assert Ahead(t, dir, s, starts[0]);
      Ends(rules, t, p, dir, cc, starts[0]) + EndsFrom(rules, t, p, dir, cc, s, starts[1..])
  }

  // RepeatMatcher.
  function Repeat(rules: Rules, t: Text, p: Pattern, dir: Direction, cc: nat, min: nat, max: nat, greedy: bool,
                  s: Place): (r: seq<Place>)
    requires Inside(t, s)
    ensures AllAhead(t, dir, s, r)
    decreases p, Distance(t, dir, s) + 1, Rounds(min, max), 1, 0
  {
    if max == 0 then [s]
    else
      var round := Ends(rules, t, p, dir, cc, if rules.Ecma? then Forget(s, cc, Groups(p)) else s);
      KeptAhead(t, dir, s, MustMove(rules, min, max, greedy), round);
      var more := RepeatFrom(rules, t, p, dir, cc, min, max, greedy, s,
                             Kept(MustMove(rules, min, max, greedy), s, round));
      if min > 0 then more else if greedy then more + [s] else [s] + more
  }

  // The repetitions that go on from each of starts after one round from s.
  function RepeatFrom(rules: Rules, t: Text, p: Pattern, dir: Direction, cc: nat, min: nat, max: nat, greedy: bool,
                      s: Place, starts: seq<Place>): (r: seq<Place>)
    requires Inside(t, s) && max > 0 && AllAhead(t, dir, s, starts)
    requires MustMove(rules, min, max, greedy) ==> forall k :: 0 <= k < |starts| ==> starts[k].at != s.at
    ensures AllAhead(t, dir, s, r)
    decreases p, Distance(t, dir, s) + 1, Rounds(min, max), 0, |starts|
  {
    if starts == [] then []
    else
      assert Ahead(t, dir, s, starts[0]);
      Repeat(rules, t, p, dir, cc, if min > 0 then min - 1 else 0, Less(max), greedy, starts[0])
      + RepeatFrom(rules, t, p, dir, cc, min, max, greedy, s, starts[1..])
  }

  lemma KeptAhead(t: Text, dir: Direction, s: Place, must: bool, ends: seq<Place>)
    requires forall k :: 0 <= k < |ends| ==> Ahead(t, dir, s, ends[k])
    ensures AllAhead(t, dir, s, Kept(must, s, ends))
  {
  }

  lemma ReferenceAhead(t: Text, dir: Direction, k: nat, s: Place)
    requires Inside(t, s)
    ensures Referenced(t, dir, k, s).Some? ==> Ahead(t, dir, s, Referenced(t, dir, k, s).value)
  {
  }

  // The two halves in the order they are laid out and run: lookbehind runs the second first.
  datatype Half = Half(p: Pattern, cc: nat)

  function FirstHalf(p: Pattern, dir: Direction, cc: nat): Half
    requires p.Cat?
  {
    if dir.Forward? then Half(p.first, cc) else Half(p.second, cc + Groups(p.first))
  }

  function SecondHalf(p: Pattern, dir: Direction, cc: nat): Half
    requires p.Cat?
  {
    if dir.Forward? then Half(p.second, cc + Groups(p.first)) else Half(p.first, cc)
  }

  lemma {:induction false} CatEnds(rules: Rules, t: Text, p: Pattern, dir: Direction, cc: nat, s: Place)
    requires p.Cat? && Inside(t, s)
    ensures var a, b := FirstHalf(p, dir, cc), SecondHalf(p, dir, cc);
      Ends(rules, t, p, dir, cc, s) == EndsFrom(rules, t, b.p, dir, b.cc, s, Ends(rules, t, a.p, dir, a.cc, s))
  {
    hide EndsFrom, Repeat, AllAhead;
  }
}
