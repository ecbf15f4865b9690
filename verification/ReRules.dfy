// How far the code's repetitions agree with RepeatMatcher, and what happens where they do not.
module ReRules {
  import opened ReText
  import opened RePattern
  import opened ReGen
  import opened ReLoops
  import opened ReCorrect

  predicate NoReferences(p: Pattern) {
    match p
    case Reference(_) => false
    case Group(b) => NoReferences(b)
    case Look(_, _, b) => NoReferences(b)
    case Cat(a, b) => NoReferences(a) && NoReferences(b)
    case Alt(a, b) => NoReferences(a) && NoReferences(b)
    case Quant(b, _, _, _) => NoReferences(b)
    case _ => true
  }

  // No lazily repeated atom with a bounded choice of rounds matches the empty text.
  ghost predicate LazyAtomsMove(t: Text, p: Pattern, dir: Direction, cc: nat) {
    match p
    case Group(b) => LazyAtomsMove(t, b, dir, cc + 1)
    case Look(_, behind, b) => LazyAtomsMove(t, b, if behind then Backward else Forward, cc)
    case Cat(a, b) => LazyAtomsMove(t, a, dir, cc) && LazyAtomsMove(t, b, dir, cc + Groups(a))
    case Alt(a, b) => LazyAtomsMove(t, a, dir, cc) && LazyAtomsMove(t, b, dir, cc + Groups(a))
    case Quant(b, min, max, greedy) =>
      LazyAtomsMove(t, b, dir, cc) && (!greedy && min < max != INF ==> AlwaysMoves(t, b, dir, cc))
    case _ => true
  }

  // One reading, or the code's against RepeatMatcher's.
  ghost predicate Comparable(r1: Rules, r2: Rules, t: Text, p: Pattern, dir: Direction, cc: nat) {
    r1 == r2 || (r1.Code? && LazyAtomsMove(t, p, dir, cc))
  }

  function Positions(ends: seq<Place>): (r: seq<nat>)
    ensures |r| == |ends|
  {
    seq(|ends|, k requires 0 <= k < |ends| => ends[k].at)
  }

  lemma {:induction false} PositionsTail(ends: seq<Place>)
    requires ends != []
    ensures Positions(ends) == [ends[0].at] + Positions(ends[1..])
  {
  }

  lemma {:induction false} PositionsAppend(a: seq<Place>, b: seq<Place>)
    ensures Positions(a + b) == Positions(a) + Positions(b)
  {
  }

  lemma {:induction false} MovedPositions(s: Place, s2: Place, ends: seq<Place>, ends2: seq<Place>)
    requires s.at == s2.at && Positions(ends) == Positions(ends2)
    ensures Positions(Moved(s, ends)) == Positions(Moved(s2, ends2))
    decreases |ends|
  {
    if ends != [] {
      PositionsTail(ends);
      PositionsTail(ends2);
      assert Positions(ends[1..]) == Positions(ends)[1..] && Positions(ends2[1..]) == Positions(ends2)[1..];
      assert ends[0].at == Positions(ends)[0] == ends2[0].at;
      MovedPositions(s, s2, ends[1..], ends2[1..]);
      PositionsAppend([ends[0]], Moved(s, ends[1..]));
      PositionsAppend([ends2[0]], Moved(s2, ends2[1..]));
      assert Positions([ends[0]]) == [ends[0].at] && Positions([ends2[0]]) == [ends2[0].at];
    }
  }

  // Without back references, what the captures hold does not matter to where a pattern can end.
  // Where also no lazily repeated atom matches the empty text, the code ends where RepeatMatcher does.
  lemma {:induction false} EndsAgree(r1: Rules, r2: Rules, t: Text, p: Pattern, dir: Direction, cc: nat, s: Place,
                                     s2: Place)
    requires Inside(t, s) && Inside(t, s2) && s.at == s2.at && NoReferences(p) && Comparable(r1, r2, t, p, dir, cc)
    ensures Positions(Ends(r1, t, p, dir, cc, s)) == Positions(Ends(r2, t, p, dir, cc, s2))
    decreases p, 0, 0, 0, 1
  {
    hide EndsFrom, Repeat, OneEnd, AlwaysMoves, Inside;
    match p
    case Group(_) => GroupAgree(r1, r2, t, p, dir, cc, s, s2);
    case Look(_, behind, b) =>
      EndsAgree(r1, r2, t, b, if behind then Backward else Forward, cc, s, s2);
    case Cat(a, b) =>
      var x, y := FirstHalf(p, dir, cc), SecondHalf(p, dir, cc);
      CatEnds(r1, t, p, dir, cc, s);
      CatEnds(r2, t, p, dir, cc, s2);
      EndsAgree(r1, r2, t, x.p, dir, x.cc, s, s2);
      EndsFromAgree(r1, r2, t, y.p, dir, y.cc, s, s2, Ends(r1, t, x.p, dir, x.cc, s), Ends(r2, t, x.p, dir, x.cc, s2));
    case Alt(a, b) =>
      EndsAgree(r1, r2, t, a, dir, cc, s, s2);
      EndsAgree(r1, r2, t, b, dir, cc + Groups(a), s, s2);
      PositionsAppend(Ends(r1, t, a, dir, cc, s), Ends(r1, t, b, dir, cc + Groups(a), s));
      PositionsAppend(Ends(r2, t, a, dir, cc, s2), Ends(r2, t, b, dir, cc + Groups(a), s2));
    case Quant(_, _, _, _) => QuantAgree(r1, r2, t, p, dir, cc, s, s2);
    case _ => LeafAgree(r1, r2, t, p, dir, cc, s, s2);
  }

  lemma {:induction false} GroupAgree(r1: Rules, r2: Rules, t: Text, p: Pattern, dir: Direction, cc: nat, s: Place,
                                      s2: Place)
    requires Inside(t, s) && Inside(t, s2) && s.at == s2.at && NoReferences(p) && Comparable(r1, r2, t, p, dir, cc)
    requires p.Group?
    ensures Positions(Ends(r1, t, p, dir, cc, s)) == Positions(Ends(r2, t, p, dir, cc, s2))
    decreases p, 0, 0, 0, 0
  {
    hide AlwaysMoves, Inside, Mark;
    var b, o := p.body, OpenSlot(dir, cc);
    MarkInside(t, s, o);
    MarkInside(t, s2, o);
    EndsAgree(r1, r2, t, b, dir, cc + 1, Mark(s, o), Mark(s2, o));
    MarkPositions(Ends(r1, t, b, dir, cc + 1, Mark(s, o)), CloseSlot(dir, cc));
    MarkPositions(Ends(r2, t, b, dir, cc + 1, Mark(s2, o)), CloseSlot(dir, cc));
  }

  lemma {:induction false} QuantAgree(r1: Rules, r2: Rules, t: Text, p: Pattern, dir: Direction, cc: nat, s: Place,
                                      s2: Place)
    requires Inside(t, s) && Inside(t, s2) && s.at == s2.at && NoReferences(p) && Comparable(r1, r2, t, p, dir, cc)
    requires p.Quant?
    ensures Positions(Ends(r1, t, p, dir, cc, s)) == Positions(Ends(r2, t, p, dir, cc, s2))
    decreases p, 0, 0, 0, 0
  {
    hide Repeat, AlwaysMoves, Inside, Forget;
    var n, forgets := Groups(p.body), p.min == 0 && Groups(p.body) > 0;
    ForgetInside(t, s, cc, n);
    ForgetInside(t, s2, cc, n);
    RepeatAgree(r1, r2, t, p.body, dir, cc, p.min, p.max, p.greedy, if r1.Code? && forgets then Forget(s, cc, n) else s,
                if r2.Code? && forgets then Forget(s2, cc, n) else s2);
  }

  lemma {:induction false} MarkPositions(ends: seq<Place>, slot: nat)
    ensures Positions(MarkAll(ends, slot)) == Positions(ends)
  {
  }

  lemma {:induction false} LeafAgree(r1: Rules, r2: Rules, t: Text, p: Pattern, dir: Direction, cc: nat, s: Place,
                                     s2: Place)
    requires Inside(t, s) && Inside(t, s2) && s.at == s2.at && (p.Empty? || p.Test? || OneChar(p))
    ensures Positions(Ends(r1, t, p, dir, cc, s)) == Positions(Ends(r2, t, p, dir, cc, s2))
  {
    hide Accepts, AtEdge;
  }

  lemma {:induction false} EndsFromAgree(r1: Rules, r2: Rules, t: Text, p: Pattern, dir: Direction, cc: nat, s: Place,
                                         s2: Place, starts: seq<Place>, starts2: seq<Place>)
    requires Inside(t, s) && Inside(t, s2) && AllAhead(t, dir, s, starts) && AllAhead(t, dir, s2, starts2)
    requires Positions(starts) == Positions(starts2) && NoReferences(p) && Comparable(r1, r2, t, p, dir, cc)
    ensures Positions(EndsFrom(r1, t, p, dir, cc, s, starts)) == Positions(EndsFrom(r2, t, p, dir, cc, s2, starts2))
    decreases p, 0, 0, 1, |starts|
  {
    hide Ends, Ahead, NoReferences, LazyAtomsMove;
    if starts != [] {
      PositionsTail(starts);
      PositionsTail(starts2);
      var q, q2 := starts[0], starts2[0];
      assert Ahead(t, dir, s, q) && Ahead(t, dir, s2, q2);
      assert q.at == Positions(starts)[0] == q2.at;
      assert Positions(starts[1..]) == Positions(starts)[1..] == Positions(starts2[1..]);
      InsideAhead(t, dir, s, q);
      InsideAhead(t, dir, s2, q2);
      EndsAgree(r1, r2, t, p, dir, cc, q, q2);
      EndsFromAgree(r1, r2, t, p, dir, cc, s, s2, starts[1..], starts2[1..]);
      PositionsAppend(Ends(r1, t, p, dir, cc, q), EndsFrom(r1, t, p, dir, cc, s, starts[1..]));
      PositionsAppend(Ends(r2, t, p, dir, cc, q2), EndsFrom(r2, t, p, dir, cc, s2, starts2[1..]));
    }
  }

  lemma InsideAhead(t: Text, dir: Direction, s: Place, q: Place)
    requires Ahead(t, dir, s, q)
    ensures Inside(t, q)
  {
  }

  lemma {:induction false} RepeatAgree(r1: Rules, r2: Rules, t: Text, p: Pattern, dir: Direction, cc: nat, min: nat,
                                       max: nat, greedy: bool, s: Place, s2: Place)
    requires Inside(t, s) && Inside(t, s2) && s.at == s2.at && NoReferences(p) && Comparable(r1, r2, t, p, dir, cc)
    requires r1 != r2 && !greedy && min < max != INF ==> AlwaysMoves(t, p, dir, cc)
    ensures Positions(Repeat(r1, t, p, dir, cc, min, max, greedy, s))
      == Positions(Repeat(r2, t, p, dir, cc, min, max, greedy, s2))
    decreases p, Distance(t, dir, s) + 1, Rounds(min, max), 1, 0
  {
    hide Ends, NoReferences, LazyAtomsMove, AlwaysMoves, RepeatFrom, Moved, Inside, Ahead;
    if max > 0 {
      var f1, f2 := if r1.Ecma? then Forget(s, cc, Groups(p)) else s, if r2.Ecma? then Forget(s2, cc, Groups(p))
          else s2;
      ForgetInside(t, s, cc, Groups(p));
      ForgetInside(t, s2, cc, Groups(p));
      var must, must2 := MustMove(r1, min, max, greedy), MustMove(r2, min, max, greedy);
      var round, round2 := Ends(r1, t, p, dir, cc, f1), Ends(r2, t, p, dir, cc, f2);
      EndsAgree(r1, r2, t, p, dir, cc, f1, f2);
      if must2 && !must { LazyKept(t, p, dir, cc, s); }
      MovedPositions(s, s2, round, round2);
      var kept, kept2 := Kept(must, s, round), Kept(must2, s2, round2);
      assert Positions(kept) == Positions(kept2);
      assert AllAhead(t, dir, s, round) by { AheadSame(t, dir, f1, s, round); }
      KeptAhead(t, dir, s, must, round);
      assert AllAhead(t, dir, s2, round2) by { AheadSame(t, dir, f2, s2, round2); }
      KeptAhead(t, dir, s2, must2, round2);
      RepeatFromAgree(r1, r2, t, p, dir, cc, min, max, greedy, s, s2, kept, kept2);
      var more, more2 := RepeatFrom(r1, t, p, dir, cc, min, max, greedy, s, kept),
                         RepeatFrom(r2, t, p, dir, cc, min, max, greedy, s2, kept2);
      PositionsAppend(more, [s]);
      PositionsAppend(more2, [s2]);
      PositionsAppend([s], more);
      PositionsAppend([s2], more2);
      assert Positions([s]) == Positions([s2]) == [s.at];
    }
  }

  lemma {:induction false} LazyKept(t: Text, p: Pattern, dir: Direction, cc: nat, s: Place)
    requires Inside(t, s) && AlwaysMoves(t, p, dir, cc)
    ensures Moved(s, Ends(Code, t, p, dir, cc, s)) == Ends(Code, t, p, dir, cc, s)
  {
    hide Ends;
    assert Moves(t, p, dir, cc, s);
    MovedAll(s, Ends(Code, t, p, dir, cc, s));
  }

  lemma {:induction false} ForgetInside(t: Text, s: Place, cc: nat, n: nat)
    requires Inside(t, s)
    ensures Inside(t, Forget(s, cc, n)) && Forget(s, cc, n).at == s.at && |Forget(s, cc, n).caps| == |s.caps|
  {
  }

  lemma {:induction false} AheadSame(t: Text, dir: Direction, a: Place, b: Place, ends: seq<Place>)
    requires a.at == b.at && |a.caps| == |b.caps| && AllAhead(t, dir, a, ends)
    ensures AllAhead(t, dir, b, ends)
  {
    forall k | 0 <= k < |ends| ensures Ahead(t, dir, b, ends[k]) { assert Ahead(t, dir, a, ends[k]); }
  }

  lemma {:induction false} AheadHead(t: Text, dir: Direction, s: Place, starts: seq<Place>)
    requires starts != [] && AllAhead(t, dir, s, starts)
    ensures Ahead(t, dir, s, starts[0]) && Inside(t, starts[0]) && starts[0].at <= |t.units|
    ensures AllAhead(t, dir, s, starts[1..])
  {
    assert Ahead(t, dir, s, starts[0]);
  }

  lemma {:induction false} RepeatFromAgree(r1: Rules, r2: Rules, t: Text, p: Pattern, dir: Direction, cc: nat, min: nat,
                                           max: nat, greedy: bool,
                                           s: Place, s2: Place, starts: seq<Place>, starts2: seq<Place>)
    requires Inside(t, s) && Inside(t, s2) && s.at == s2.at && max > 0 && NoReferences(p)
    requires Comparable(r1, r2, t, p, dir, cc)
    requires r1 != r2 && !greedy && min < max != INF ==> AlwaysMoves(t, p, dir, cc)
    requires AllAhead(t, dir, s, starts) && AllAhead(t, dir, s2, starts2) && Positions(starts) == Positions(starts2)
    requires MustMove(r1, min, max, greedy) ==> forall k :: 0 <= k < |starts| ==> starts[k].at != s.at
    requires MustMove(r2, min, max, greedy) ==> forall k :: 0 <= k < |starts2| ==> starts2[k].at != s2.at
    ensures Positions(RepeatFrom(r1, t, p, dir, cc, min, max, greedy, s, starts))
      == Positions(RepeatFrom(r2, t, p, dir, cc, min, max, greedy, s2, starts2))
    decreases p, Distance(t, dir, s) + 1, Rounds(min, max), 0, |starts|
  {
    hide Repeat, RepeatFrom, NoReferences, AlwaysMoves, Comparable, Positions, AllAhead, Inside;
    if starts != [] {
      PositionsTail(starts);
      PositionsTail(starts2);
      AheadHead(t, dir, s, starts);
      AheadHead(t, dir, s2, starts2);
      assert starts[0].at == Positions(starts)[0] == starts2[0].at;
      assert Positions(starts[1..]) == Positions(starts)[1..] == Positions(starts2[1..]);
      RepeatAgree(r1, r2, t, p, dir, cc, if min > 0 then min - 1 else 0, Less(max), greedy, starts[0], starts2[0]);
      RepeatFromAgree(r1, r2, t, p, dir, cc, min, max, greedy, s, s2, starts[1..], starts2[1..]);
      RepeatFromHead(r1, t, p, dir, cc, min, max, greedy, s, starts);
      RepeatFromHead(r2, t, p, dir, cc, min, max, greedy, s2, starts2);
    } else {
      RepeatFromNone(r1, t, p, dir, cc, min, max, greedy, s);
      RepeatFromNone(r2, t, p, dir, cc, min, max, greedy, s2);
      assert starts2 == [];
    }
  }

  lemma {:induction false} RepeatFromHead(rules: Rules, t: Text, p: Pattern, dir: Direction, cc: nat, min: nat,
                                          max: nat, greedy: bool,
                                          s: Place, starts: seq<Place>)
    requires Inside(t, s) && max > 0 && starts != [] && AllAhead(t, dir, s, starts) && Inside(t, starts[0])
    requires AllAhead(t, dir, s, starts[1..])
    requires MustMove(rules, min, max, greedy) ==> forall k :: 0 <= k < |starts| ==> starts[k].at != s.at
    ensures var now := Repeat(rules, t, p, dir, cc, if min > 0 then min - 1 else 0, Less(max), greedy, starts[0]);
      var rest := RepeatFrom(rules, t, p, dir, cc, min, max, greedy, s, starts[1..]);
      RepeatFrom(rules, t, p, dir, cc, min, max, greedy, s, starts) == now + rest
      && Positions(RepeatFrom(rules, t, p, dir, cc, min, max, greedy, s, starts)) == Positions(now) + Positions(rest)
  {
    hide Repeat, Positions, Ahead, Inside;
    PositionsAppend(Repeat(rules, t, p, dir, cc, if min > 0 then min - 1 else 0, Less(max), greedy, starts[0]),
                    RepeatFrom(rules, t, p, dir, cc, min, max, greedy, s, starts[1..]));
  }

  lemma RepeatFromNone(rules: Rules, t: Text, p: Pattern, dir: Direction, cc: nat, min: nat, max: nat, greedy: bool,
                       s: Place)
    requires Inside(t, s) && max > 0
    ensures RepeatFrom(rules, t, p, dir, cc, min, max, greedy, s, []) == []
  {
  }

  // A condition on the pattern alone.

  predicate CanBeEmpty(p: Pattern) {
    match p
    case Group(b) => CanBeEmpty(b)
    case Cat(a, b) => CanBeEmpty(a) && CanBeEmpty(b)
    case Alt(a, b) => CanBeEmpty(a) || CanBeEmpty(b)
    case Quant(b, min, max, _) => min == 0 || max == 0 || CanBeEmpty(b)
    case _ => !OneChar(p)
  }

  predicate LazyAtomsNonEmpty(p: Pattern, boundedToo: bool) {
    match p
    case Group(b) => LazyAtomsNonEmpty(b, boundedToo)
    case Look(_, _, b) => LazyAtomsNonEmpty(b, boundedToo)
    case Cat(a, b) => LazyAtomsNonEmpty(a, boundedToo) && LazyAtomsNonEmpty(b, boundedToo)
    case Alt(a, b) => LazyAtomsNonEmpty(a, boundedToo) && LazyAtomsNonEmpty(b, boundedToo)
    case Quant(b, _, max, greedy) => LazyAtomsNonEmpty(b, boundedToo)
        && (!greedy && (boundedToo || max == INF) ==> !CanBeEmpty(b))
    case _ => true
  }

  lemma {:induction false} NonEmptyMoves(t: Text, p: Pattern, dir: Direction, cc: nat, s: Place)
    requires Inside(t, s) && !CanBeEmpty(p)
    ensures Moves(t, p, dir, cc, s)
    decreases p, 1
  {
    hide Ends, Inside, Moves;
    if p.Group? {
      SaveInside(t, s, OpenSlot(dir, cc));
      NonEmptyMoves(t, p.body, dir, cc + 1, Mark(s, OpenSlot(dir, cc)));
      GroupMoves(t, p, dir, cc, s);
    } else if p.Cat? {
      if CanBeEmpty(p.first) {
        NonEmptyAlwaysMoves(t, p.second, dir, cc + Groups(p.first));
      } else {
        NonEmptyAlwaysMoves(t, p.first, dir, cc);
      }
      CatMoves(t, p, dir, cc, s);
    } else if p.Alt? {
      NonEmptyMoves(t, p.left, dir, cc, s);
      NonEmptyMoves(t, p.right, dir, cc + Groups(p.left), s);
      AltMoves(t, p, dir, cc, s);
    } else if p.Quant? {
      NonEmptyMoves(t, p.body, dir, cc, s);
      QuantMoves(t, p, dir, cc, s);
    } else {
      LeafMoves(t, p, dir, cc, s);
    }
  }

  lemma {:induction false} AltMoves(t: Text, p: Pattern, dir: Direction, cc: nat, s: Place)
    requires p.Alt? && Inside(t, s) && Moves(t, p.left, dir, cc, s) && Moves(t, p.right, dir, cc + Groups(p.left), s)
    ensures Moves(t, p, dir, cc, s)
  {
    AllMoveAppend(s, Ends(Code, t, p.left, dir, cc, s), Ends(Code, t, p.right, dir, cc + Groups(p.left), s));
  }

  lemma {:induction false} QuantMoves(t: Text, p: Pattern, dir: Direction, cc: nat, s: Place)
    requires p.Quant? && p.min > 0 && p.max > 0 && Inside(t, s) && Moves(t, p.body, dir, cc, s)
    ensures Moves(t, p, dir, cc, s)
  {
    hide Repeat, RepeatFrom;
    RepeatIsMore(t, p.body, dir, cc, p.min, p.max, p.greedy, s);
    RepeatFromMoves(t, p.body, dir, cc, p.min, p.max, p.greedy, s,
                    RoundEnds(t, p.body, dir, cc, p.min, p.max, p.greedy, s));
    assert Ends(Code, t, p, dir, cc, s) == Repeat(Code, t, p.body, dir, cc, p.min, p.max, p.greedy, s);
  }

  lemma {:induction false} RepeatFromMoves(t: Text, p: Pattern, dir: Direction, cc: nat, min: nat, max: nat,
                                           greedy: bool, s: Place, starts: seq<Place>)
    requires Inside(t, s) && max > 0 && AllAhead(t, dir, s, starts) && AllMove(s, starts)
    ensures AllMove(s, RepeatFrom(Code, t, p, dir, cc, min, max, greedy, s, starts))
    decreases |starts|
  {
    hide Repeat;
    if starts != [] {
      assert Ahead(t, dir, s, starts[0]);
      var now := Repeat(Code, t, p, dir, cc, if min > 0 then min - 1 else 0, Less(max), greedy, starts[0]);
      AwayFrom(t, dir, s, starts[0], now);
      RepeatFromMoves(t, p, dir, cc, min, max, greedy, s, starts[1..]);
      AllMoveAppend(s, now, RepeatFrom(Code, t, p, dir, cc, min, max, greedy, s, starts[1..]));
    }
  }

  lemma {:induction false} NonEmptyAlwaysMoves(t: Text, p: Pattern, dir: Direction, cc: nat)
    requires !CanBeEmpty(p)
    ensures AlwaysMoves(t, p, dir, cc)
    decreases p, 2
  {
    forall q | Inside(t, q) ensures Moves(t, p, dir, cc, q) { NonEmptyMoves(t, p, dir, cc, q); }
  }

  lemma {:induction false} NonEmptyLazyAtoms(t: Text, p: Pattern, dir: Direction, cc: nat)
    ensures LazyAtomsNonEmpty(p, true) ==> LazyAtomsMove(t, p, dir, cc)
    ensures LazyAtomsNonEmpty(p, false) ==> LazyLoopsMove(t, p, dir, cc)
  {
    hide AlwaysMoves, CanBeEmpty;
    match p
    case Group(b) => NonEmptyLazyAtoms(t, b, dir, cc + 1);
    case Look(_, behind, b) => NonEmptyLazyAtoms(t, b, if behind then Backward else Forward, cc);
    case Cat(a, b) => NonEmptyLazyAtoms(t, a, dir, cc); NonEmptyLazyAtoms(t, b, dir, cc + Groups(a));
    case Alt(a, b) => NonEmptyLazyAtoms(t, a, dir, cc); NonEmptyLazyAtoms(t, b, dir, cc + Groups(a));
    case Quant(b, _, _, _) =>
      NonEmptyLazyAtoms(t, b, dir, cc);
      if !CanBeEmpty(b) { NonEmptyAlwaysMoves(t, b, dir, cc); }
    case _ =>
  }

  // Code cleared by re_need_check_advance is that of a pattern that cannot be empty.
  lemma {:induction false} ClearedNonEmpty(p: Pattern, dir: Direction, cc: nat)
    requires Emittable(p, cc) && !NeedCheckAdvance(Gen(p, dir, cc))
    ensures !CanBeEmpty(p)
  {
    hide AllPlain, HasChar, Plain, QuantCode, AltCode;
    if p.Group? {
      var open, close := [SaveCode(OpenSlot(dir, cc))], [SaveCode(CloseSlot(dir, cc))];
      PlainAppend(open + Gen(p.body, dir, cc + 1), close);
      PlainAppend(open, Gen(p.body, dir, cc + 1));
      NotChar(open[0]);
      NotChar(close[0]);
      ClearedNonEmpty(p.body, dir, cc + 1);
    } else if p.Cat? {
      var cb := cc + Groups(p.first);
      PlainAppend(Gen(p.first, dir, cc), Gen(p.second, dir, cb));
      PlainAppend(Gen(p.second, dir, cb), Gen(p.first, dir, cc));
      if HasChar(Gen(p.first, dir, cc)) { ClearedNonEmpty(p.first, dir, cc); }
          else { ClearedNonEmpty(p.second, dir, cb); }
    } else if p.Quant? {
      QuantPlain(Gen(p.body, dir, cc), cc, Groups(p.body), p.min, p.max, p.greedy);
      ClearedNonEmpty(p.body, dir, cc);
    } else if !OneChar(p) {
      NeverPlain(p, dir, cc);
    }
  }

  predicate LoopsGreedy(p: Pattern) {
    match p
    case Group(b) => LoopsGreedy(b)
    case Look(_, _, b) => LoopsGreedy(b)
    case Cat(a, b) => LoopsGreedy(a) && LoopsGreedy(b)
    case Alt(a, b) => LoopsGreedy(a) && LoopsGreedy(b)
    case Quant(b, _, max, greedy) => LoopsGreedy(b) && (max == INF ==> greedy)
    case _ => true
  }

  lemma {:induction false} GreedyLoopsSafe(p: Pattern)
    requires LoopsGreedy(p)
    ensures LazyAtomsNonEmpty(p, false)
  {
    match p
    case Group(b) => GreedyLoopsSafe(b);
    case Look(_, _, b) => GreedyLoopsSafe(b);
    case Cat(a, b) => GreedyLoopsSafe(a); GreedyLoopsSafe(b);
    case Alt(a, b) => GreedyLoopsSafe(a); GreedyLoopsSafe(b);
    case Quant(b, _, _, _) => GreedyLoopsSafe(b);
    case _ =>
  }
}
