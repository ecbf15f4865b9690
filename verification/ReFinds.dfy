// What a search finds: the leftmost span of text that the pattern matches, with the groups it caught.
module ReFinds {
  import opened ReText
  import opened RePattern
  import opened ReGen
  import opened ReCorrect
  import opened ReProgram
  import opened ReRules
  import opened ReChoice
  import opened ReVerdict
  import opened ReAgree
  import opened ReLanguage
  import opened ReCaptures

  ghost predicate Matches(t: Text, p: Pattern, i: nat) {
    Between(t, i) && exists x :: Between(t, x) && Spans(t, p, i, x)
  }

  // The whole match is in slots 0 and 1. No match begins further left.
  ghost predicate Finds(t: Text, p: Pattern, sticky: bool, at: nat, found: Option<Place>) {
    match found
    case None => forall i: nat :: Matches(t, p, i) ==> i < at || (sticky && i > at)
    case Some(q) =>
      Caught(t, Group(p), 0, q.caps) && q.caps[1] == Some(q.at)
      && at <= q.caps[0].value && (sticky ==> q.caps[0].value == at)
      && forall i: nat :: Matches(t, p, i) ==> i < at || q.caps[0].value <= i
  }

  lemma {:induction false} Here(t: Text, p: Pattern, s: Place)
    requires Inside(t, s) && Between(t, s.at) && NoReferences(p) && Emittable(p, 1) && Unset(p, s.caps)
    ensures var ends := Ends(Code, t, Group(p), Forward, 0, s);
      (ends != [] <==> Matches(t, p, s.at))
      && (ends != [] ==> Caught(t, Group(p), 0, ends[0].caps) && ends[0].caps[0] == Some(s.at)
                         && ends[0].caps[1] == Some(ends[0].at))
  {
    hide Inside, Between, Ends, AllAhead, AllCaught, Caught, EndsAt, Spans, Emittable;
    var w := Group(p);
    var ends := Ends(Code, t, w, Forward, 0, s);
    WholeGroup(p);
    UnsetIsCaught(t, p, s.caps);
    EndsAreCaught(Code, t, w, Forward, 0, s);
    if ends != [] {
      EndBetween(t, Forward, s, ends, 0);
      EndsAreSpans(Code, t, w, Forward, 0, s, ends[0].at);
      GroupSpan(t, w, s.at, ends[0].at);
      CaughtOne(t, w, 0, ends, 0);
      GroupRecords(Code, t, w, Forward, 0, s, 0);
    }
    if x :| Between(t, x) && Spans(t, p, s.at, x) {
      SpanGroup(t, p, s.at, x);
      EndsAreSpans(Code, t, w, Forward, 0, s, x);
      NoEnds();
    }
  }

  predicate Unset(p: Pattern, caps: Captures) {
    |caps| == 2 * (1 + Groups(p)) && forall k :: 0 <= k < |caps| ==> caps[k].None?
  }

  lemma UnsetIsCaught(t: Text, p: Pattern, caps: Captures)
    requires Unset(p, caps)
    ensures Caught(t, Group(p), 0, caps)
  {
    hide Caught;
    UnsetCaught(t, Group(p), 0, caps);
  }

  lemma WholeGroup(p: Pattern)
    ensures Emittable(Group(p), 0) <==> Emittable(p, 1)
    ensures NoReferences(Group(p)) <==> NoReferences(p)
    ensures Groups(Group(p)) == 1 + Groups(p)
  {
  }

  lemma SpanGroup(t: Text, p: Pattern, i: nat, j: nat)
    requires Spans(t, p, i, j)
    ensures Spans(t, Group(p), i, j)
  {
    SpanBounds(t, p, i, j);
  }

  // From left to right.
  lemma {:induction false} LeftmostFinds(t: Text, p: Pattern, s: Place)
    requires Inside(t, s) && Between(t, s.at) && NoReferences(p) && Emittable(p, 1) && Unset(p, s.caps)
    ensures Finds(t, p, false, s.at, Leftmost(t, p, s))
    decreases |t.units| - s.at
  {
    hide Between, Ends, Spans, Caught, Emittable, Char, After, Matches;
    Here(t, p, s);
    var ends := Ends(Code, t, Group(p), Forward, 0, s);
    if ends == [] {
      if s.at == |t.units| {
        NoneBeyond(t, p);
      } else {
        var q := s.(at := After(t, s.at, |t.units|));
        NextPlace(t, p, s.at);
        LeftmostFinds(t, p, q);
      }
    }
  }

  lemma NoneBeyond(t: Text, p: Pattern)
    ensures forall i: nat :: Matches(t, p, i) ==> i <= |t.units|
  {
    hide Spans;
  }

  // The next place between code points.
  lemma NextPlace(t: Text, p: Pattern, i: nat)
    requires Between(t, i) && i < |t.units|
    ensures i < After(t, i, |t.units|) <= |t.units| && Between(t, After(t, i, |t.units|))
    ensures forall k: nat :: Matches(t, p, k) ==> k <= i || After(t, i, |t.units|) <= k
  {
    hide Spans;
  }

  lemma {:induction false} ExpectedFinds(t: Text, p: Pattern, sticky: bool, s: Place)
    requires Inside(t, s) && Between(t, s.at) && NoReferences(p) && Emittable(p, 1) && Unset(p, s.caps)
    ensures Finds(t, p, sticky, s.at, First(Ends(Code, t, Whole(p, sticky), Forward, 0, s)))
  {
    hide Between, Ends, Spans, Caught, Emittable, Inside, Matches;
    if sticky {
      Here(t, p, s);
    } else {
      WholeIsLeftmost(t, p, s);
      LeftmostFinds(t, p, s);
    }
  }

  // The order of preference where an atom is one character: greedy rounds end further on first, lazy rounds last.
  ghost predicate InOrder(t: Text, dir: Direction, greedy: bool, ends: seq<Place>) {
    forall i, j :: 0 <= i < j < |ends| ==>
      if greedy then Distance(t, dir, ends[i]) < Distance(t, dir, ends[j])
      else Distance(t, dir, ends[j]) < Distance(t, dir, ends[i])
  }

  lemma {:induction false} CharRounds(rules: Rules, t: Text, p: Pattern, dir: Direction, cc: nat, min: nat, max: nat,
                                      greedy: bool, s: Place)
    requires Inside(t, s) && OneChar(p)
    ensures InOrder(t, dir, greedy, Repeat(rules, t, p, dir, cc, min, max, greedy, s))
    decreases Distance(t, dir, s)
  {
    hide Repeat, RepeatFrom, Rounded, Inside, Ahead, Positions, Distance;
    if max == 0 {
      ZeroRounds(rules, t, p, dir, cc, min, greedy, s);
    } else {
      var starts := Rounded(rules, t, p, dir, cc, min, max, greedy, s);
      var more := RepeatFrom(rules, t, p, dir, cc, min, max, greedy, s, starts);
      RepeatIsRounded(rules, t, p, dir, cc, min, max, greedy, s);
      RepeatFromNone(rules, t, p, dir, cc, min, max, greedy, s);
      CharRound(rules, t, p, dir, cc, min, max, greedy, s);
      if starts != [] {
        var q, min2 := starts[0], if min > 0 then min - 1 else 0;
        AheadHead(t, dir, s, starts);
        Nearer(t, dir, s, q);
        RepeatFromHead(rules, t, p, dir, cc, min, max, greedy, s, starts);
        CharRounds(rules, t, p, dir, cc, min2, Less(max), greedy, q);
        assert starts[1..] == [];
        assert more == Repeat(rules, t, p, dir, cc, min2, Less(max), greedy, q);
        forall k | 0 <= k < |more| ensures Distance(t, dir, more[k]) < Distance(t, dir, s) {
          Nearer(t, dir, q, more[k]);
        }
      }
    }
  }

  // An alternation prefers its left side wherever that matches at all.
  lemma {:induction false} LeftPreferred(rules: Rules, t: Text, p: Pattern, dir: Direction, cc: nat, s: Place)
    requires Inside(t, s) && Between(t, s.at) && NoReferences(p) && Emittable(p, cc) && p.Alt?
    requires exists x: nat :: Between(t, x) && Covers(t, p.left, dir, s.at, x)
    ensures var ends := Ends(rules, t, p, dir, cc, s);
      ends != [] && Covers(t, p.left, dir, s.at, ends[0].at)
  {
    hide Inside, Between, Ends, Covers, EndsAt, AllAhead;
    var x: nat :| Between(t, x) && Covers(t, p.left, dir, s.at, x);
    var left := Ends(rules, t, p.left, dir, cc, s);
    AltEnds(rules, t, p, dir, cc, s);
    EndsAreSpans(rules, t, p.left, dir, cc, s, x);
    NoEnds();
    EndBetween(t, dir, s, left, 0);
    EndsAreSpans(rules, t, p.left, dir, cc, s, left[0].at);
  }

  lemma Nearer(t: Text, dir: Direction, s: Place, q: Place)
    requires Inside(t, s) && Ahead(t, dir, s, q)
    ensures Distance(t, dir, q) <= Distance(t, dir, s)
    ensures q.at != s.at ==> Distance(t, dir, q) < Distance(t, dir, s)
  {
  }

  lemma {:induction false} CharRound(rules: Rules, t: Text, p: Pattern, dir: Direction, cc: nat, min: nat, max: nat,
                                     greedy: bool, s: Place)
    requires Inside(t, s) && OneChar(p)
    ensures var starts := Rounded(rules, t, p, dir, cc, min, max, greedy, s);
      |starts| <= 1 && AllMove(s, starts)
  {
    hide Accepts, Char, After, Before, Ahead, Inside;
    var from := if rules.Ecma? then Forget(s, cc, Groups(p)) else s;
    ForgetInside(t, s, cc, Groups(p));
    var ends := Ends(rules, t, p, dir, cc, from);
    assert ends == OneEnd(t, p, dir, from);
    assert |ends| <= 1;
    KeptLength(MustMove(rules, min, max, greedy), s, ends);
    assert AllMove(s, ends);
  }

  lemma KeptLength(must: bool, s: Place, ends: seq<Place>)
    ensures |Kept(must, s, ends)| <= |ends|
  {
    MovedLength(s, ends);
  }

  lemma MovedLength(s: Place, ends: seq<Place>)
    ensures |Moved(s, ends)| <= |ends|
  {
  }

  // An optional repetition may run no round: then its groups are unset and all else is as it was.
  lemma {:induction false} NoRoundForgets(t: Text, p: Pattern, dir: Direction, cc: nat, s: Place)
    requires Inside(t, s) && p.Quant? && p.min == 0
    ensures var ends := Ends(Code, t, p, dir, cc, s);
      ends != []
      && var q := ends[if p.greedy then |ends| - 1 else 0];
         q.at == s.at && |q.caps| == |s.caps|
         && forall k :: 0 <= k < |s.caps| ==> q.caps[k] == if InGroups(cc, Groups(p), k) then None else s.caps[k]
  {
    hide Inside, Repeat, RepeatFrom, Rounded, Ends, AllAhead;
    var q := FirstFrom(Listed, cc, Groups(p.body), 0, s);
    ForgetInside(t, s, cc, Groups(p.body));
    QuantEndsIs(Listed, t, p, dir, cc, s, q);
    if p.max == 0 {
      ZeroRounds(Code, t, p.body, dir, cc, 0, p.greedy, q);
    } else {
      RepeatIsRounded(Code, t, p.body, dir, cc, 0, p.max, p.greedy, q);
    }
  }
}
