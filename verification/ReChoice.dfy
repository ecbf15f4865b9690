// What RepeatMatcher chooses, when empty rounds of bounded lazy loops do not show in it, and when they do not show
// in the places that are tried (libregexp.c:1524-1540).
module ReChoice {
  import opened ReText
  import opened RePattern
  import opened ReGen
  import opened ReProgram
  import opened ReRules

  // The empty ends come after all others.
  predicate EmptyLast(s: Place, ends: seq<Place>) {
    forall j, k :: 0 <= j < k < |ends| && ends[j].at == s.at ==> ends[k].at == s.at
  }

  ghost predicate EmptiesLast(t: Text, p: Pattern, dir: Direction, cc: nat) {
    forall q :: Inside(t, q) ==> EmptyLast(q, Ends(Code, t, p, dir, cc, q))
  }

  // Empty rounds do not show: there are none, or each comes when all else has been tried.
  ghost predicate EmptyIdle(t: Text, p: Pattern, dir: Direction, cc: nat) {
    AlwaysMoves(t, p, dir, cc) || EmptiesLast(t, p, dir, cc)
  }

  // Lazy quantifiers that leave a choice of two rounds or more repeat only atoms that move, or whose empty end,
  // if any, is the last.
  ghost predicate LazyRangesMove(t: Text, p: Pattern, dir: Direction, cc: nat) {
    match p
    case Group(b) => LazyRangesMove(t, b, dir, cc + 1)
    case Look(_, behind, b) => LazyRangesMove(t, b, if behind then Backward else Forward, cc)
    case Cat(a, b) => LazyRangesMove(t, a, dir, cc) && LazyRangesMove(t, b, dir, cc + Groups(a))
    case Alt(a, b) => LazyRangesMove(t, a, dir, cc) && LazyRangesMove(t, b, dir, cc + Groups(a))
    case Quant(b, min, max, greedy) =>
      LazyRangesMove(t, b, dir, cc) && (!greedy && min + 1 < max != INF ==> EmptyIdle(t, b, dir, cc))
    case _ => true
  }

  lemma {:induction false} AtomsMoveRanges(t: Text, p: Pattern, dir: Direction, cc: nat)
    requires LazyAtomsMove(t, p, dir, cc)
    ensures LazyRangesMove(t, p, dir, cc)
  {
    hide AlwaysMoves, EmptiesLast;
    match p
    case Group(b) => AtomsMoveRanges(t, b, dir, cc + 1);
    case Look(_, behind, b) => AtomsMoveRanges(t, b, if behind then Backward else Forward, cc);
    case Cat(a, b) => AtomsMoveRanges(t, a, dir, cc); AtomsMoveRanges(t, b, dir, cc + Groups(a));
    case Alt(a, b) => AtomsMoveRanges(t, a, dir, cc); AtomsMoveRanges(t, b, dir, cc + Groups(a));
    case Quant(b, _, _, _) => AtomsMoveRanges(t, b, dir, cc);
    case _ =>
  }

  // Something that moves, or else nothing.
  lemma {:induction false} EmptyAlternative(t: Text, p: Pattern, dir: Direction, cc: nat)
    requires AlwaysMoves(t, p, dir, cc)
    ensures EmptiesLast(t, Alt(p, Empty), dir, cc)
  {
    hide Ends, Inside;
    forall q | Inside(t, q) ensures EmptyLast(q, Ends(Code, t, Alt(p, Empty), dir, cc, q)) {
      assert Moves(t, p, dir, cc, q);
      AltEnds(Code, t, Alt(p, Empty), dir, cc, q);
      assert Ends(Code, t, Empty, dir, cc + Groups(p), q) == [q] by { EmptyEnds(Code, t, dir, cc + Groups(p), q); }
    }
  }

  lemma EmptyEnds(rules: Rules, t: Text, dir: Direction, cc: nat, s: Place)
    requires Inside(t, s)
    ensures Ends(rules, t, Empty, dir, cc, s) == [s]
  {
  }

  lemma {:induction false} AltEnds(rules: Rules, t: Text, p: Pattern, dir: Direction, cc: nat, s: Place)
    requires Inside(t, s) && p.Alt?
    ensures Ends(rules, t, p, dir, cc, s)
      == Ends(rules, t, p.left, dir, cc, s) + Ends(rules, t, p.right, dir, cc + Groups(p.left), s)
  {
    hide EndsFrom, Repeat, OneEnd, AllAhead, Ahead, Inside, Referenced, AtEdge, MarkAll, Mark, Groups, Forget;
    assert p == Alt(p.left, p.right);
  }

  // The ends of one round from which a repetition goes on.
  function Rounded(rules: Rules, t: Text, p: Pattern, dir: Direction, cc: nat, min: nat, max: nat, greedy: bool,
                   s: Place): (r: seq<Place>)
    requires Inside(t, s)
    ensures AllAhead(t, dir, s, r) && (MustMove(rules, min, max, greedy) ==> AllMove(s, r))
  {
    var f := if rules.Ecma? then Forget(s, cc, Groups(p)) else s;
    ForgetInside(t, s, cc, Groups(p));
    AheadSame(t, dir, f, s, Ends(rules, t, p, dir, cc, f));
    KeptAhead(t, dir, s, MustMove(rules, min, max, greedy), Ends(rules, t, p, dir, cc, f));
    Kept(MustMove(rules, min, max, greedy), s, Ends(rules, t, p, dir, cc, f))
  }

  lemma {:induction false} RepeatIsRounded(rules: Rules, t: Text, p: Pattern, dir: Direction, cc: nat, min: nat,
                                           max: nat, greedy: bool, s: Place)
    requires Inside(t, s) && max > 0
    ensures var more := RepeatFrom(rules, t, p, dir, cc, min, max, greedy, s,
                                   Rounded(rules, t, p, dir, cc, min, max, greedy, s));
      Repeat(rules, t, p, dir, cc, min, max, greedy, s) == if min > 0 then more else if greedy then more + [s]
          else [s] + more
  {
    hide Ends, RepeatFrom, Inside, Forget;
    ForgetInside(t, s, cc, Groups(p));
  }

  lemma {:induction false} KeptIndex(s: Place, ends: seq<Place>, k: nat) returns (j: nat)
    requires k < |ends| && ends[k].at != s.at
    ensures j < |Moved(s, ends)| && Moved(s, ends)[j] == ends[k]
  {
    if k == 0 {
      j := 0;
    } else {
      j := KeptIndex(s, ends[1..], k - 1);
      if ends[0].at != s.at { j := j + 1; }
    }
  }

  lemma {:induction false} MovedFirst(s: Place, ends: seq<Place>)
    requires EmptyLast(s, ends)
    ensures |Moved(s, ends)| <= |ends| && ends[..|Moved(s, ends)|] == Moved(s, ends)
    ensures forall k :: |Moved(s, ends)| <= k < |ends| ==> ends[k].at == s.at
  {
    if ends != [] {
      assert EmptyLast(s, ends[1..]) by { assert forall k :: 0 <= k < |ends[1..]| ==> ends[1..][k] == ends[k + 1]; }
      MovedFirst(s, ends[1..]);
      if ends[0].at == s.at {
        assert forall k :: 0 < k < |ends| ==> ends[k].at == s.at;
        NoneMoved(s, ends);
      } else {
        assert forall k :: 0 < k < |ends| ==> ends[k] == ends[1..][k - 1];
      }
    }
  }

  lemma {:induction false} NoneMoved(s: Place, ends: seq<Place>)
    requires forall k :: 0 <= k < |ends| ==> ends[k].at == s.at
    ensures Moved(s, ends) == []
  {
    if ends != [] {
      assert forall k :: 0 <= k < |ends[1..]| ==> ends[1..][k] == ends[k + 1];
      NoneMoved(s, ends[1..]);
    }
  }

  lemma {:induction false} OptionalRounds(rules: Rules, t: Text, p: Pattern, dir: Direction, cc: nat, s: Place)
    requires Inside(t, s) && Inside(t, Forget(s, cc, Groups(p)))
    ensures Repeat(rules, t, p, dir, cc, 0, 1, false, s)
         == [s] + if rules.Code? then Ends(Code, t, p, dir, cc, s)
            else Moved(s, Ends(Ecma, t, p, dir, cc, Forget(s, cc, Groups(p))))
  {
    hide Ends, RepeatFrom;
    RepeatIsRounded(rules, t, p, dir, cc, 0, 1, false, s);
    LastRounds(rules, t, p, dir, cc, s, Rounded(rules, t, p, dir, cc, 0, 1, false, s));
  }

  lemma {:induction false} LastRounds(rules: Rules, t: Text, p: Pattern, dir: Direction, cc: nat, s: Place,
                                      starts: seq<Place>)
    requires Inside(t, s) && AllAhead(t, dir, s, starts) && (rules.Ecma? ==> AllMove(s, starts))
    ensures RepeatFrom(rules, t, p, dir, cc, 0, 1, false, s, starts) == starts
    decreases |starts|
  {
    if starts != [] {
      assert Ahead(t, dir, s, starts[0]);
      LastRounds(rules, t, p, dir, cc, s, starts[1..]);
      assert Repeat(rules, t, p, dir, cc, 0, 0, false, starts[0]) == [starts[0]];
    }
  }

  function EndOf(found: Option<Place>): Option<nat> { if found.None? then None else Some(found.value.at) }

  // The end of RepeatMatcher's leftmost match.
  function LeftmostEcma(t: Text, p: Pattern, s: Place): Option<nat>
    requires Inside(t, s)
    decreases |t.units| - s.at
  {
    var ends := Ends(Ecma, t, Group(p), Forward, 0, s);
    if ends != [] then Some(ends[0].at)
    else if s.at == |t.units| then None
    else LeftmostEcma(t, p, s.(at := After(t, s.at, |t.units|)))
  }

  function FirstEnd(ends: seq<Place>): Option<nat> { EndOf(First(ends)) }

  lemma FirstEndSame(a: seq<Place>, b: seq<Place>)
    requires Positions(a) == Positions(b)
    ensures FirstEnd(a) == FirstEnd(b) && FirstEnd(a) == (if a == [] then None else Some(a[0].at))
  {
    if a != [] { assert Positions(a)[0] == Positions(b)[0]; }
  }

  // The group around a whole pattern ends where the pattern does.
  lemma {:induction false} GroupFirstEnd(rules: Rules, t: Text, w: Pattern, s: Place)
    requires Inside(t, s) && Inside(t, Mark(s, 0))
    ensures FirstEnd(Ends(rules, t, Group(w), Forward, 0, s)) == FirstEnd(Ends(rules, t, w, Forward, 1, Mark(s, 0)))
  {
    hide Mark, Inside, Ahead;
    var ends := Ends(rules, t, w, Forward, 1, Mark(s, 0));
    assert Ends(rules, t, Group(w), Forward, 0, s) == MarkAll(ends, 1) by { GroupIsMarked(rules, t, w, s); }
    MarkPositions(ends, 1);
    FirstEndSame(MarkAll(ends, 1), ends);
  }

  lemma GroupIsMarked(rules: Rules, t: Text, w: Pattern, s: Place)
    requires Inside(t, s) && Inside(t, Mark(s, 0))
    ensures Ends(rules, t, Group(w), Forward, 0, s) == MarkAll(Ends(rules, t, w, Forward, 1, Mark(s, 0)), 1)
  {
    hide Mark, Inside, Ahead, MarkAll, Repeat, EndsFrom, OneEnd, Referenced, AtEdge, Groups, Forget;
  }

  // Where RepeatMatcher's match ends: at s itself when sticky, else the leftmost one.
  function EcmaMatch(t: Text, p: Pattern, sticky: bool, s: Place): Option<nat>
    requires Inside(t, s)
  {
    if sticky then FirstEnd(Ends(Ecma, t, Group(p), Forward, 0, s)) else LeftmostEcma(t, p, s)
  }

  // A bounded lazy repetition, tried place by place.

  // No round that RepeatMatcher would refuse as empty can be reached.
  ghost predicate NoEmptyRound(t: Text, p: Pattern, dir: Direction, cc: nat, min: nat, max: nat, s: Place)
    requires Inside(t, s)
    decreases max, 2
  {
    max == 0 || RoundsMove(t, p, dir, cc, min, max, s, Ends(Code, t, p, dir, cc, s))
  }

  ghost predicate RoundsMove(t: Text, p: Pattern, dir: Direction, cc: nat, min: nat, max: nat, s: Place,
                             starts: seq<Place>)
    requires max > 0
    decreases max, 1
  {
    forall k :: 0 <= k < |starts| ==> RoundMoves(t, p, dir, cc, min, max, s, starts[k])
  }

  ghost predicate RoundMoves(t: Text, p: Pattern, dir: Direction, cc: nat, min: nat, max: nat, s: Place, q: Place)
    requires max > 0
    decreases max, 0
  {
    (min == 0 ==> q.at != s.at) && Inside(t, q)
        && NoEmptyRound(t, p, dir, cc, if min > 0 then min - 1 else 0, max - 1, q)
  }

  // RepeatMatcher tries no more places than the code, and as many exactly when it refuses no round.
  lemma {:induction false} LazyTries(t: Text, p: Pattern, dir: Direction, cc: nat, min: nat, max: nat, s: Place,
                                     s2: Place)
    requires Inside(t, s) && Inside(t, s2) && s.at == s2.at && NoReferences(p) && LazyAtomsMove(t, p, dir, cc)
    requires max < INF
    ensures var a, b := Repeat(Code, t, p, dir, cc, min, max, false, s),
        Repeat(Ecma, t, p, dir, cc, min, max, false, s2);
      |b| <= |a| && (NoEmptyRound(t, p, dir, cc, min, max, s) ==> Positions(a) == Positions(b))
      && (!NoEmptyRound(t, p, dir, cc, min, max, s) ==> |b| < |a|)
    decreases max, 1, 0
  {
    hide Inside, Ends, Repeat, RepeatFrom, Forget, NoReferences, LazyAtomsMove, RoundsMove, Ahead;
    if max == 0 {
      NoRounds(Code, t, p, dir, cc, min, s);
      NoRounds(Ecma, t, p, dir, cc, min, s2);
    } else {
      var from := Forget(s2, cc, Groups(p));
      ForgetInside(t, s2, cc, Groups(p));
      var ends, ends2 := Ends(Code, t, p, dir, cc, s), Ends(Ecma, t, p, dir, cc, from);
      EndsAgree(Code, Ecma, t, p, dir, cc, s, from);
      AheadSame(t, dir, from, s2, ends2);
      KeptAhead(t, dir, s2, min == 0, ends2);
      LazyTriesFrom(t, p, dir, cc, min, max, s, s2, ends, ends2);
      RepeatIsRounded(Code, t, p, dir, cc, min, max, false, s);
      RepeatIsRounded(Ecma, t, p, dir, cc, min, max, false, s2);
      var more, more2 := RepeatFrom(Code, t, p, dir, cc, min, max, false, s, ends),
                         RepeatFrom(Ecma, t, p, dir, cc, min, max, false, s2, Kept(min == 0, s2, ends2));
      PositionsAppend([s], more);
      PositionsAppend([s2], more2);
      assert Positions([s]) == Positions([s2]) == [s.at];
    }
  }

  lemma NoRounds(rules: Rules, t: Text, p: Pattern, dir: Direction, cc: nat, min: nat, s: Place)
    requires Inside(t, s)
    ensures Repeat(rules, t, p, dir, cc, min, 0, false, s) == [s]
  {
  }

  lemma {:induction false} LazyTriesFrom(t: Text, p: Pattern, dir: Direction, cc: nat, min: nat, max: nat, s: Place,
                                         s2: Place,
                                         starts: seq<Place>, starts2: seq<Place>)
    requires Inside(t, s) && Inside(t, s2) && s.at == s2.at && NoReferences(p) && LazyAtomsMove(t, p, dir, cc)
    requires 0 < max < INF
    requires AllAhead(t, dir, s, starts) && AllAhead(t, dir, s2, starts2) && Positions(starts) == Positions(starts2)
    requires AllAhead(t, dir, s2, Kept(min == 0, s2, starts2))
    ensures var a := RepeatFrom(Code, t, p, dir, cc, min, max, false, s, starts);
      var b := RepeatFrom(Ecma, t, p, dir, cc, min, max, false, s2, Kept(min == 0, s2, starts2));
      |b| <= |a| && (RoundsMove(t, p, dir, cc, min, max, s, starts) ==> Positions(a) == Positions(b))
      && (!RoundsMove(t, p, dir, cc, min, max, s, starts) ==> |b| < |a|)
    decreases max, 0, |starts|
  {
    hide Inside, Repeat, RepeatFrom, NoReferences, LazyAtomsMove, Ahead, AllAhead, NoEmptyRound, RoundsMove, Positions;
    if starts == [] {
      RepeatFromNone(Code, t, p, dir, cc, min, max, false, s);
      RepeatFromNone(Ecma, t, p, dir, cc, min, max, false, s2);
      assert RoundsMove(t, p, dir, cc, min, max, s, starts) by { RoundsMoveNone(t, p, dir, cc, min, max, s); }
    } else {
      var q, q2, must, min2 := starts[0], starts2[0], min == 0, if min > 0 then min - 1 else 0;
      AheadHead(t, dir, s, starts);
      AheadHead(t, dir, s2, starts2);
      PositionsTail(starts);
      PositionsTail(starts2);
      assert q.at == Positions(starts)[0] == q2.at;
      assert Positions(starts[1..]) == Positions(starts)[1..] == Positions(starts2[1..]);
      KeptHead(must, s2, starts2);
      KeptTailAhead(t, dir, must, s2, starts2);
      RoundsMoveHead(t, p, dir, cc, min, max, s, starts);
      RepeatFromHead(Code, t, p, dir, cc, min, max, false, s, starts);
      LazyTriesFrom(t, p, dir, cc, min, max, s, s2, starts[1..], starts2[1..]);
      if must && q2.at == s2.at {
        HereFirst(t, p, dir, cc, max - 1, q);
      } else {
        LazyTries(t, p, dir, cc, min2, max - 1, q, q2);
        RepeatFromHead(Ecma, t, p, dir, cc, min, max, false, s2, Kept(must, s2, starts2));
      }
    }
  }

  lemma RoundsMoveNone(t: Text, p: Pattern, dir: Direction, cc: nat, min: nat, max: nat, s: Place)
    requires max > 0
    ensures RoundsMove(t, p, dir, cc, min, max, s, [])
  {
  }

  lemma {:induction false} KeptHead(must: bool, s: Place, ends: seq<Place>)
    requires ends != []
    ensures var kept, rest := Kept(must, s, ends), Kept(must, s, ends[1..]);
      if must && ends[0].at == s.at then kept == rest else kept == [ends[0]] + rest && kept[1..] == rest
  {
    if must && ends[0].at != s.at { assert ([ends[0]] + Moved(s, ends[1..]))[1..] == Moved(s, ends[1..]); }
  }

  lemma {:induction false} KeptTailAhead(t: Text, dir: Direction, must: bool, s: Place, ends: seq<Place>)
    requires ends != [] && AllAhead(t, dir, s, ends)
    ensures AllAhead(t, dir, s, Kept(must, s, ends[1..])) && AllAhead(t, dir, s, Kept(must, s, ends))
  {
    hide Ahead;
    AheadHead(t, dir, s, ends);
    KeptAhead(t, dir, s, must, ends[1..]);
    KeptAhead(t, dir, s, must, ends);
  }

  lemma {:induction false} RoundsMoveHead(t: Text, p: Pattern, dir: Direction, cc: nat, min: nat, max: nat, s: Place,
                                          starts: seq<Place>)
    requires max > 0 && starts != [] && Inside(t, starts[0])
    ensures RoundsMove(t, p, dir, cc, min, max, s, starts) <==>
      (min == 0 ==> starts[0].at != s.at)
      && NoEmptyRound(t, p, dir, cc, if min > 0 then min - 1 else 0, max - 1, starts[0])
      && RoundsMove(t, p, dir, cc, min, max, s, starts[1..])
  {
    hide NoEmptyRound, Inside;
    assert forall k :: 0 < k < |starts| ==> starts[k] == starts[1..][k - 1];
    assert forall k :: 0 <= k < |starts[1..]| ==> starts[1..][k] == starts[k + 1];
  }

  lemma {:induction false} HereFirst(t: Text, p: Pattern, dir: Direction, cc: nat, max: nat, s: Place)
    requires Inside(t, s)
    ensures Repeat(Code, t, p, dir, cc, 0, max, false, s) != []
  {
    hide Ends, RepeatFrom;
  }

  // The code tries the places of RepeatMatcher, one by one and no more, exactly when no empty round can be reached.
  lemma {:induction false} LazyTriesAgreeIff(t: Text, p: Pattern, dir: Direction, cc: nat, min: nat, max: nat, s: Place)
    requires Inside(t, s) && NoReferences(p) && LazyAtomsMove(t, p, dir, cc) && max < INF
    ensures NoEmptyRound(t, p, dir, cc, min, max, s) <==>
      Positions(Repeat(Code, t, p, dir, cc, min, max, false, s))
      == Positions(Repeat(Ecma, t, p, dir, cc, min, max, false, s))
  {
    hide Repeat, NoEmptyRound, Inside, NoReferences, LazyAtomsMove;
    LazyTries(t, p, dir, cc, min, max, s, s);
  }
}
