// Patterns on which the code and RepeatMatcher part (libregexp.c:1524-1540).
module ReExamples {
  import opened ReText
  import opened ReCode
  import opened RePattern
  import opened ReGen
  import opened ReMachine
  import opened ReLoops
  import opened ReCorrect
  import opened ReProgram
  import opened ReRules
  import opened ReChoice
  import opened ReVerdict

  // Reading a sequence or a round off its parts.

  lemma {:induction false} FromOne(rules: Rules, t: Text, p: Pattern, dir: Direction, cc: nat, s: Place, q: Place)
    requires Inside(t, s) && Inside(t, q) && AllAhead(t, dir, s, [q])
    ensures EndsFrom(rules, t, p, dir, cc, s, [q]) == Ends(rules, t, p, dir, cc, q)
  {
    hide Ends, Inside, Ahead;
    assert [q][1..] == [];
    assert EndsFrom(rules, t, p, dir, cc, s, []) == [];
  }

  lemma {:induction false} RoundedIs(rules: Rules, t: Text, p: Pattern, cc: nat, min: nat, max: nat, greedy: bool,
                                     s: Place, from: Place, ends: seq<Place>)
    requires Inside(t, s) && from == (if rules.Ecma? then Forget(s, cc, Groups(p)) else s) && Inside(t, from)
    requires ends == Ends(rules, t, p, Forward, cc, from)
    ensures Rounded(rules, t, p, Forward, cc, min, max, greedy, s) == Kept(MustMove(rules, min, max, greedy), s, ends)
  {
    hide Ends, Inside, Kept, Forget;
  }

  // A sequence whose first half has at most one end.
  lemma {:induction false} CatOfOne(rules: Rules, t: Text, a: Pattern, b: Pattern, cc: nat, s: Place,
                                    starts: seq<Place>)
    requires Inside(t, s) && starts == Ends(rules, t, a, Forward, cc, s) && |starts| <= 1
    ensures starts == [] ==> Ends(rules, t, Cat(a, b), Forward, cc, s) == []
    ensures starts != [] ==>
      Inside(t, starts[0]) && Ends(rules, t, Cat(a, b), Forward, cc, s)
          == Ends(rules, t, b, Forward, cc + Groups(a), starts[0])
  {
    hide Ends, Inside, Ahead, EndsFrom;
    CatEnds(rules, t, Cat(a, b), Forward, cc, s);
    if starts == [] {
      NoStarts(rules, t, b, Forward, cc + Groups(a), s);
    } else {
      assert starts == [starts[0]];
      AheadHead(t, Forward, s, starts);
      FromOne(rules, t, b, Forward, cc + Groups(a), s, starts[0]);
    }
  }

  lemma NoStarts(rules: Rules, t: Text, p: Pattern, dir: Direction, cc: nat, s: Place)
    requires Inside(t, s)
    ensures EndsFrom(rules, t, p, dir, cc, s, []) == []
  {
  }

  // The program stops with a match that ends at x.
  ghost predicate EndsAt(m: Machine, s: Place, x: nat) {
    exists q: Place :: q.at == x && Reaches(m, Run(HEADER_LEN, s, [], []), Done(Some(q)))
  }

  lemma {:induction false} ProgramEnds(m: Machine, p: Pattern, sticky: bool, s: Place, x: nat)
    requires Emittable(p, 1) && LoopsGreedy(p) && CodeAt(m.code, HEADER_LEN, ProgramCode(p, sticky))
    requires Inside(m.t, s) && Aligned(m.t, s.at) && Inside(m.t, Mark(s, 0))
    requires FirstEnd(Ends(Code, m.t, p, Forward, 1, Mark(s, 0))) == Some(x)
    ensures EndsAt(m, s, x)
  {
    hide CodeAt, ProgramCode, Reaches, Ends, Inside, Mark, LazyLoopsMove, LoopsGreedy, LazyAtomsNonEmpty;
    GreedyLoopsSafe(p);
    NonEmptyLazyAtoms(m.t, p, Forward, 1);
    GroupFirstEnd(Code, m.t, p, s);
    if sticky { RunEnds(m, p, true, s); } else { SearchEnds(m, p, s); }
    var ends := Ends(Code, m.t, Group(p), Forward, 0, s);
    assert Reaches(m, Run(HEADER_LEN, s, [], []), Done(Some(ends[0])));
  }

  lemma {:induction false} EcmaEnds(t: Text, p: Pattern, sticky: bool, s: Place)
    requires Inside(t, s) && Inside(t, Mark(s, 0))
    ensures var end := FirstEnd(Ends(Ecma, t, p, Forward, 1, Mark(s, 0)));
      sticky || end.Some? ==> EcmaMatch(t, p, sticky, s) == end
  {
    hide Ends, Inside, Mark;
    GroupFirstEnd(Ecma, t, p, s);
  }

  // (?:|a|aaa){0,2}?(?=a$|aa$) on aaaa: the code accepts an empty round and then tries 3 before 2.

  function A(): Pattern { Literal(97) }
  function Three(): Pattern { Cat(A(), Cat(A(), A())) }
  function Step013(): Pattern { Alt(Alt(Empty, A()), Three()) }
  function LastOneOrTwo(): Pattern { Alt(Cat(A(), Test(LineEnd)), Cat(A(), Cat(A(), Test(LineEnd)))) }
  function LazyRange(): Pattern { Cat(Quant(Step013(), 0, 2, false), Look(false, false, LastOneOrTwo())) }
  function FourAs(): Text { Text([97, 97, 97, 97], false, false, map[]) }

  lemma {:induction false} LiteralEnds(rules: Rules, cc: nat, s: Place)
    requires Inside(FourAs(), s)
    ensures Ends(rules, FourAs(), A(), Forward, cc, s) == if s.at < 4 then [s.(at := s.at + 1)] else []
  {
    var t := FourAs();
    assert Ends(rules, t, A(), Forward, cc, s) == OneEnd(t, A(), Forward, s);
  }

  lemma AtInside(s: Place, x: nat)
    requires Inside(FourAs(), s) && x <= 4
    ensures Inside(FourAs(), s.(at := x))
  {
  }

  lemma {:induction false} StepEnds(rules: Rules, cc: nat, s: Place)
    requires Inside(FourAs(), s)
    ensures Ends(rules, FourAs(), Step013(), Forward, cc, s)
         == [s] + (if s.at < 4 then [s.(at := s.at + 1)] else []) + if s.at < 2 then [s.(at := s.at + 3)] else []
  {
    hide Ends, Inside;
    var t := FourAs();
    AltEnds(rules, t, Step013(), Forward, cc, s);
    AltEnds(rules, t, Alt(Empty, A()), Forward, cc, s);
    assert Ends(rules, t, Empty, Forward, cc, s) == [s] by { EmptyEnds(rules, t, Forward, cc, s); }
    LiteralEnds(rules, cc, s);
    ThreeEnds(rules, cc, s);
  }

  lemma {:induction false} ThreeEnds(rules: Rules, cc: nat, s: Place)
    requires Inside(FourAs(), s)
    ensures Ends(rules, FourAs(), Three(), Forward, cc, s) == if s.at < 2 then [s.(at := s.at + 3)] else []
  {
    hide Ends, Inside;
    var t, s1, s2 := FourAs(), s.(at := s.at + 1), s.(at := s.at + 2);
    InsideAt(t, s);
    LiteralEnds(rules, cc, s);
    CatOfOne(rules, t, A(), Cat(A(), A()), cc, s, Ends(rules, t, A(), Forward, cc, s));
    if s.at < 4 {
      LiteralEnds(rules, cc, s1);
      CatOfOne(rules, t, A(), A(), cc, s1, Ends(rules, t, A(), Forward, cc, s1));
      if s.at < 3 { LiteralEnds(rules, cc, s2); }
    }
  }

  // Just where one or two characters are left.
  lemma {:induction false} LastEnds(rules: Rules, cc: nat, s: Place)
    requires Inside(FourAs(), s)
    ensures Ends(rules, FourAs(), LastOneOrTwo(), Forward, cc, s) != [] <==> s.at == 2 || s.at == 3
  {
    hide Ends, Inside;
    var t, s1 := FourAs(), s.(at := s.at + 1);
    InsideAt(t, s);
    AltEnds(rules, t, LastOneOrTwo(), Forward, cc, s);
    LiteralEnds(rules, cc, s);
    CatOfOne(rules, t, A(), Test(LineEnd), cc, s, Ends(rules, t, A(), Forward, cc, s));
    CatOfOne(rules, t, A(), Cat(A(), Test(LineEnd)), cc, s, Ends(rules, t, A(), Forward, cc, s));
    if s.at < 4 {
      LiteralEnds(rules, cc, s1);
      TextEndEnds(rules, cc, s1);
      CatOfOne(rules, t, A(), Test(LineEnd), cc, s1, Ends(rules, t, A(), Forward, cc, s1));
      if s.at < 3 { TextEndEnds(rules, cc, s.(at := s.at + 2)); }
    }
  }

  lemma TextEndEnds(rules: Rules, cc: nat, s: Place)
    requires Inside(FourAs(), s)
    ensures Ends(rules, FourAs(), Test(LineEnd), Forward, cc, s) == if s.at == 4 then [s] else []
  {
  }

  lemma {:induction false} ForgetNone(s: Place, cc: nat)
    ensures Forget(s, cc, 0) == s
  {
    assert ResetCaptures(s.caps, cc, 0) == s.caps;
  }

  // What comes of a verdict, by position.
  function EndAt(v: Verdict): Option<nat> { if v.Wins? then Some(v.end.at) else None }

  lemma {:induction false} LookAt(how: Reading, cc: nat, s: Place)
    requires Inside(FourAs(), s) && !how.Running?
    ensures var v := Then(how, FourAs(), Look(false, false, LastOneOrTwo()), Forward, cc, Won())(s);
      !v.Never? && EndAt(v) == if s.at == 2 || s.at == 3 then Some(s.at) else None
  {
    hide Inside, Does;
    LastEnds(RulesOf(how), cc, s);
    LastFits(cc);
    DoesList(how, FourAs(), Look(false, false, LastOneOrTwo()), Forward, cc, s, Won(), true);
  }

  lemma {:induction false} LastFits(cc: nat)
    ensures Emittable(Look(false, false, LastOneOrTwo()), cc) && Emittable(Step013(), cc)
    ensures LoopsGreedy(LastOneOrTwo()) && LoopsGreedy(Step013())
  {
    var one, two := Cat(A(), Test(LineEnd)), Cat(A(), Cat(A(), Test(LineEnd)));
    assert Groups(A()) == 0 && Groups(one) == 0;
    assert Emittable(A(), cc) && Emittable(Test(LineEnd), cc) && Emittable(Empty, cc);
    assert Emittable(one, cc) && Emittable(two, cc) && LoopsGreedy(one) && LoopsGreedy(two);
    assert Emittable(LastOneOrTwo(), cc);
    assert Groups(Alt(Empty, A())) == 0;
    assert Emittable(Three(), cc) && Emittable(Alt(Empty, A()), cc) && LoopsGreedy(Three());
  }

  function LookNext(how: Reading, cc: nat): Exit {
    Then(how, FourAs(), Look(false, false, LastOneOrTwo()), Forward, cc, Won())
  }

  // A round, by its three ends.
  lemma {:induction false} RoundAt(how: Reading, cc: nat, max: nat, s: Place, out: Exit)
    requires Inside(FourAs(), s) && !how.Running? && 0 < max < INF
    ensures var next := Next(how, FourAs(), Step013(), Forward, cc, 0, max, false, s, out);
      RoundVerdict(how, FourAs(), Step013(), Forward, cc, 0, max, false, s, out)
      == Or(next(s), Or(if s.at < 4 then next(s.(at := s.at + 1)) else Fails, if s.at < 2 then next(s.(at := s.at + 3))
         else Fails))
  {
    hide Inside, Does, Next, Ends, Or;
    var t, p := FourAs(), Step013();
    var next := Next(how, t, p, Forward, cc, 0, max, false, s, out);
    assert Groups(p) == 0;
    ForgetNone(s, cc);
    LastFits(cc);
    StepEnds(RulesOf(how), cc, s);
    DoesList(how, t, p, Forward, cc, s, next, true);
    var one, two := if s.at < 4 then [s.(at := s.at + 1)] else [], if s.at < 2 then [s.(at := s.at + 3)] else [];
    FirstVerdictAppend(next, [s] + one, two);
    FirstVerdictAppend(next, [s], one);
    OneVerdict(next, s);
    OneVerdict(next, s.(at := s.at + 1));
    OneVerdict(next, s.(at := s.at + 3));
    OrOr3(next(s), FirstVerdict(next, one), FirstVerdict(next, two));
  }

  lemma OrOr3(a: Verdict, b: Verdict, c: Verdict)
    ensures Or(Or(a, b), c) == Or(a, Or(b, c))
  {
  }

  // After a round, with n more to come.
  lemma {:induction false} NextAt(how: Reading, cc: nat, n: nat, s: Place, q: Place, out: Exit)
    requires Inside(FourAs(), s) && Inside(FourAs(), q) && s.at <= q.at && !how.Running? && n + 1 < INF
    ensures Next(how, FourAs(), Step013(), Forward, cc, 0, n + 1, false, s, out)(q)
         == if q.at == s.at && how.Standard? then Fails
            else Repeats(how, FourAs(), Step013(), Forward, cc, 0, n, false, q, out)
  {
    hide Inside, Repeats, Next;
    NextCases(how, FourAs(), Step013(), Forward, cc, 0, n + 1, false, s, q, out);
    assert Onward(FourAs(), Forward, s, q);
  }

  lemma {:induction false} NoRoundAt(how: Reading, cc: nat, s: Place)
    requires Inside(FourAs(), s) && !how.Running?
    ensures Repeats(how, FourAs(), Step013(), Forward, cc, 0, 0, false, s, LookNext(how, cc)) == LookNext(how, cc)(s)
  {
  }

  // One optional round.
  lemma {:induction false} OneRoundAt(how: Reading, cc: nat, s: Place)
    requires Inside(FourAs(), s) && !how.Running?
    ensures var v := Repeats(how, FourAs(), Step013(), Forward, cc, 0, 1, false, s, LookNext(how, cc));
      !v.Never? && EndAt(v) == if s.at == 0 then Some(3) else if s.at == 1 || s.at == 2 then Some(2) else if s.at == 3
          then Some(3) else None
  {
    hide Inside, Repeats, Next, Then, RoundVerdict;
    InsideAt(FourAs(), s);
    RepeatsIs(how, FourAs(), Step013(), Forward, cc, 0, 1, false, s, LookNext(how, cc));
    RoundAt(how, cc, 1, s, LookNext(how, cc));
    LookAt(how, cc, s);
    OneRoundNext(how, cc, s, s.at);
    if s.at < 4 { OneRoundNext(how, cc, s, s.at + 1); }
    if s.at < 2 { OneRoundNext(how, cc, s, s.at + 3); }
  }

  lemma {:induction false} OneRoundNext(how: Reading, cc: nat, s: Place, x: nat)
    requires Inside(FourAs(), s) && !how.Running? && s.at <= x <= 4
    ensures var v := Next(how, FourAs(), Step013(), Forward, cc, 0, 1, false, s, LookNext(how, cc))(s.(at := x));
      !v.Never? && EndAt(v) == if x == s.at && how.Standard? then None else if x == 2 || x == 3 then Some(x) else None
  {
    hide Inside, Repeats, Next, Then;
    AtInside(s, x);
    NextAt(how, cc, 0, s, s.(at := x), LookNext(how, cc));
    NoRoundAt(how, cc, s.(at := x));
    LookAt(how, cc, s.(at := x));
  }

  // Two: after an empty one the code has another go.
  lemma {:induction false} TwoRoundsAt(how: Reading, cc: nat, s: Place)
    requires Inside(FourAs(), s) && s.at == 0 && !how.Running?
    ensures var v := Repeats(how, FourAs(), Step013(), Forward, cc, 0, 2, false, s, LookNext(how, cc));
      !v.Never? && EndAt(v) == Some(if how.Listed? then 3 else 2)
  {
    hide Inside, Repeats, Next, Then, RoundVerdict;
    var out := LookNext(how, cc);
    AtInside(s, 1);
    RepeatsIs(how, FourAs(), Step013(), Forward, cc, 0, 2, false, s, out);
    RoundAt(how, cc, 2, s, out);
    LookAt(how, cc, s);
    NextAt(how, cc, 1, s, s, out);
    NextAt(how, cc, 1, s, s.(at := 1), out);
    OneRoundAt(how, cc, s);
    OneRoundAt(how, cc, s.(at := 1));
  }

  lemma {:induction false} LazyRangeEnds(how: Reading, s: Place)
    requires Inside(FourAs(), s) && s.at == 0 && !how.Running?
    ensures FirstEnd(Ends(RulesOf(how), FourAs(), LazyRange(), Forward, 1, s)) == Some(if how.Listed? then 3 else 2)
  {
    hide Ends, Inside, Repeats, Then, Does, Emittable;
    var t, q := FourAs(), Quant(Step013(), 0, 2, false);
    TwoRoundsAt(how, 1, s);
    LazyRangeDoes(how, s);
    LazyRangeFits();
    DoesList(how, t, LazyRange(), Forward, 1, s, Won(), true);
  }

  lemma {:induction false} LazyRangeDoes(how: Reading, s: Place)
    requires Inside(FourAs(), s) && !how.Running?
    ensures Does(how, FourAs(), LazyRange(), Forward, 1, s, Won())
      == Repeats(how, FourAs(), Step013(), Forward, 1, 0, 2, false, s, LookNext(how, 1))
  {
    hide Inside, Repeats, Then;
    assert Groups(Step013()) == 0;
    CatDoes(how, FourAs(), LazyRange(), Forward, 1, s, Won());
  }

  lemma {:induction false} LazyRangeFits()
    ensures Emittable(LazyRange(), 1) && LoopsGreedy(LazyRange())
  {
    LastFits(1);
    assert Groups(Quant(Step013(), 0, 2, false)) == 0;
    assert LoopsGreedy(Look(false, false, LastOneOrTwo())) && LoopsGreedy(Quant(Step013(), 0, 2, false));
  }

  lemma {:induction false} LazyRangeReads()
    ensures NoReferences(LazyRange())
  {
  }

  // The program ends at 3 where RepeatMatcher's match ends at 2.
  lemma {:induction false} LazyRangeExample(m: Machine, sticky: bool)
    requires m.t == FourAs() && CodeAt(m.code, HEADER_LEN, ProgramCode(LazyRange(), sticky))
    ensures Emittable(LazyRange(), 1) && NoReferences(LazyRange()) && EndsAt(m, Start(0, 1), 3)
    ensures Inside(FourAs(), Start(0, 1)) && EcmaMatch(FourAs(), LazyRange(), sticky, Start(0, 1)) == Some(2)
  {
    hide Ends, ProgramCode, CodeAt, EndsAt, EcmaMatch, Inside, Mark, Emittable, LoopsGreedy, NoReferences;
    LazyRangeFits();
    LazyRangeReads();
    var t, s := FourAs(), Start(0, 1);
    StartInside(t, 0, 1);
    MarkInside(t, s, 0);
    LazyRangeEnds(Listed, Mark(s, 0));
    LazyRangeEnds(Standard, Mark(s, 0));
    ProgramEnds(m, LazyRange(), sticky, s, 3);
    EcmaEnds(t, LazyRange(), sticky, s);
  }

  // (?:(a)|b)*\1 on ab: the code keeps the group of the first round through the second.

  function AOrB(): Pattern { Alt(Group(Literal(97)), Literal(98)) }
  function KeptCapture(): Pattern { Cat(Quant(AOrB(), 0, INF, true), Reference(1)) }
  function AB(): Text { Text([97, 98], false, false, map[]) }
  function At(x: nat, a: Option<nat>, b: Option<nat>): Place { Place(x, [Some(0), None, a, b]) }

  lemma {:induction false} AOrBEnds(rules: Rules, x: nat, a: Option<nat>, b: Option<nat>)
    requires Inside(AB(), At(x, a, b))
    ensures Ends(rules, AB(), AOrB(), Forward, 1, At(x, a, b))
         == if x == 0 then [At(1, Some(0), Some(1))] else if x == 1 then [At(2, a, b)] else []
  {
    hide Ends, Inside;
    var t, s := AB(), At(x, a, b);
    InsideAt(t, s);
    AltEnds(rules, t, AOrB(), Forward, 1, s);
    GroupAEnds(rules, x, a, b);
    assert Ends(rules, t, Literal(98), Forward, 2, s) == if x == 1 then [At(2, a, b)] else [] by { BEnds(rules, s); }
  }

  lemma {:induction false} BEnds(rules: Rules, s: Place)
    requires Inside(AB(), s)
    ensures Ends(rules, AB(), Literal(98), Forward, 2, s) == if s.at == 1 then [s.(at := 2)] else []
  {
    assert Ends(rules, AB(), Literal(98), Forward, 2, s) == OneEnd(AB(), Literal(98), Forward, s);
  }

  lemma {:induction false} GroupAEnds(rules: Rules, x: nat, a: Option<nat>, b: Option<nat>)
    requires Inside(AB(), At(x, a, b))
    ensures Ends(rules, AB(), Group(Literal(97)), Forward, 1, At(x, a, b)) == if x == 0 then [At(1, Some(0), Some(1))]
      else []
  {
    hide OneEnd;
    var t, m := AB(), Mark(At(x, a, b), 2);
    assert Inside(t, m);
    assert Ends(rules, t, Literal(97), Forward, 2, m) == OneEnd(t, Literal(97), Forward, m);
    assert m.caps == [Some(0), None, Some(x), b];
    OneA(m);
    if x == 0 { assert Mark(m.(at := 1), 3).caps == [Some(0), None, Some(0), Some(1)]; }
  }

  lemma OneA(s: Place)
    requires Inside(AB(), s)
    ensures OneEnd(AB(), Literal(97), Forward, s) == if s.at == 0 then [s.(at := 1)] else []
  {
  }

  lemma {:induction false} LoopFrom(rules: Rules, s: Place, q: Place, from: Place)
    requires Inside(AB(), s) && Inside(AB(), q) && q.at != s.at
    requires from == (if rules.Ecma? then Forget(s, 1, 1) else s) && Inside(AB(), from)
    requires Ends(rules, AB(), AOrB(), Forward, 1, from) == [q]
    ensures Repeat(rules, AB(), AOrB(), Forward, 1, 0, INF, true, s)
      == Repeat(rules, AB(), AOrB(), Forward, 1, 0, INF, true, q) + [s]
  {
    hide Ends, RepeatFrom, Repeat, Inside, Rounded, Forget;
    var t := AB();
    assert Groups(AOrB()) == 1;
    RoundedIs(rules, t, AOrB(), 1, 0, INF, true, s, from, [q]);
    MovedAll(s, [q]);
    RepeatIsRounded(rules, t, AOrB(), Forward, 1, 0, INF, true, s);
    assert [q][1..] == [];
    RepeatFromHead(rules, t, AOrB(), Forward, 1, 0, INF, true, s, [q]);
    RepeatFromNone(rules, t, AOrB(), Forward, 1, 0, INF, true, s);
  }

  lemma {:induction false} LoopEnds(rules: Rules, s: Place, from: Place)
    requires Inside(AB(), s) && from == (if rules.Ecma? then Forget(s, 1, 1) else s) && Inside(AB(), from)
    requires Ends(rules, AB(), AOrB(), Forward, 1, from) == []
    ensures Repeat(rules, AB(), AOrB(), Forward, 1, 0, INF, true, s) == [s]
  {
    hide Ends, RepeatFrom, Repeat, Inside, Rounded, Forget;
    var t := AB();
    assert Groups(AOrB()) == 1;
    RoundedIs(rules, t, AOrB(), 1, 0, INF, true, s, from, []);
    RepeatIsRounded(rules, t, AOrB(), Forward, 1, 0, INF, true, s);
    RepeatFromNone(rules, t, AOrB(), Forward, 1, 0, INF, true, s);
  }

  lemma ForgetOne(x: nat, a: Option<nat>, b: Option<nat>)
    ensures Forget(At(x, a, b), 1, 1) == At(x, None, None)
  {
    assert ResetCaptures([Some(0), None, a, b], 1, 1) == [Some(0), None, None, None];
  }

  // Where the loop can stop, latest first.
  lemma {:induction false} Loops(rules: Rules)
    ensures var none, one := At(0, None, None), At(1, Some(0), Some(1));
      var two := if rules.Code? then At(2, Some(0), Some(1)) else At(2, None, None);
      Inside(AB(), none) && Inside(AB(), one) && Inside(AB(), two)
      && Repeat(rules, AB(), AOrB(), Forward, 1, 0, INF, true, none) == [two, one, none]
  {
    hide Ends, Repeat, RepeatFrom;
    var none, one := At(0, None, None), At(1, Some(0), Some(1));
    var two := if rules.Code? then At(2, Some(0), Some(1)) else At(2, None, None);
    ForgetOne(0, None, None);
    ForgetOne(1, Some(0), Some(1));
    ForgetOne(2, None, None);
    AOrBEnds(rules, 0, None, None);
    AOrBEnds(rules, 1, if rules.Code? then Some(0) else None, if rules.Code? then Some(1) else None);
    AOrBEnds(rules, 2, if rules.Code? then Some(0) else None, if rules.Code? then Some(1) else None);
    LoopFrom(rules, none, one, none);
    LoopFrom(rules, one, two, if rules.Code? then one else At(1, None, None));
    LoopEnds(rules, two, two);
  }

  // At each of them, the back reference: the group a does not follow, an unset group matches empty.
  lemma {:induction false} ReferenceEnds(rules: Rules, s: Place)
    requires Inside(AB(), s)
    requires s == At(0, None, None) || s == At(2, None, None) || s == At(1, Some(0), Some(1))
      || s == At(2, Some(0), Some(1))
    ensures Ends(rules, AB(), Reference(1), Forward, 2, s) == if s.caps[2].None? then [s] else []
  {
    if s.caps[2].Some? { assert Repeated(AB(), 0, 1, s.at) == None; }
  }

  lemma {:induction false} KeptCaptureFits()
    ensures Emittable(KeptCapture(), 1) && LoopsGreedy(KeptCapture())
  {
    hide Groups;
  }

  // The program ends at 0, where RepeatMatcher's match ends at 2.
  lemma {:induction false} CaptureResetExample(m: Machine, sticky: bool)
    requires m.t == AB() && CodeAt(m.code, HEADER_LEN, ProgramCode(KeptCapture(), sticky))
    ensures Emittable(KeptCapture(), 1) && EndsAt(m, Start(0, 2), 0)
    ensures Inside(AB(), Start(0, 2)) && EcmaMatch(AB(), KeptCapture(), sticky, Start(0, 2)) == Some(2)
  {
    hide Ends, ProgramCode, CodeAt, EndsAt, EcmaMatch, Inside, Mark, Emittable, LoopsGreedy, NoReferences;
    KeptCaptureFits();
    Begins();
    KeptCaptureEnds(Code);
    KeptCaptureEnds(Ecma);
    ProgramEnds(m, KeptCapture(), sticky, Start(0, 2), 0);
    EcmaEnds(AB(), KeptCapture(), sticky, Start(0, 2));
  }

  lemma {:induction false} Begins()
    ensures Inside(AB(), Start(0, 2)) && Mark(Start(0, 2), 0) == At(0, None, None) && Inside(AB(), At(0, None, None))
  {
    StartInside(AB(), 0, 2);
    MarkInside(AB(), Start(0, 2), 0);
    assert SetCapture([None, None, None, None], 0, 0) == [Some(0), None, None, None];
    assert Start(0, 2).caps == [None, None, None, None];
  }

  lemma {:induction false} KeptCaptureEnds(rules: Rules)
    ensures Inside(AB(), At(0, None, None))
    ensures FirstEnd(Ends(rules, AB(), KeptCapture(), Forward, 1, At(0, None, None)))
      == Some(if rules.Code? then 0 else 2)
  {
    hide Ends, EndsFrom, Repeat;
    var t, s := AB(), At(0, None, None);
    Loops(rules);
    var starts := Repeat(rules, t, AOrB(), Forward, 1, 0, INF, true, s);
    KeptCaptureStarts(rules);
    FromTail(rules, t, Reference(1), 2, s, starts);
    FromTail(rules, t, Reference(1), 2, s, starts[1..]);
    FromTail(rules, t, Reference(1), 2, s, starts[1..][1..]);
    ReferenceEnds(rules, starts[0]);
    ReferenceEnds(rules, starts[1]);
    ReferenceEnds(rules, starts[2]);
    NoStarts(rules, t, Reference(1), Forward, 2, s);
  }

  lemma {:induction false} FromTail(rules: Rules, t: Text, p: Pattern, cc: nat, s: Place, starts: seq<Place>)
    requires Inside(t, s) && starts != [] && AllAhead(t, Forward, s, starts)
    ensures AllAhead(t, Forward, s, starts[1..]) && Inside(t, starts[0])
    ensures EndsFrom(rules, t, p, Forward, cc, s, starts)
      == Ends(rules, t, p, Forward, cc, starts[0]) + EndsFrom(rules, t, p, Forward, cc, s, starts[1..])
  {
    hide Ends, Inside, Ahead;
    AheadHead(t, Forward, s, starts);
  }

  lemma {:induction false} KeptCaptureStarts(rules: Rules)
    ensures var s := At(0, None, None);
      Inside(AB(), s)
      && Ends(rules, AB(), KeptCapture(), Forward, 1, s)
         == EndsFrom(rules, AB(), Reference(1), Forward, 2, s, Repeat(rules, AB(), AOrB(), Forward, 1, 0, INF, true, s))
  {
    hide Repeat, EndsFrom;
    var s := At(0, None, None);
    assert Groups(AOrB()) == 1;
    ForgetOne(0, None, None);
    CatEnds(rules, AB(), KeptCapture(), Forward, 1, s);
    assert Ends(rules, AB(), Quant(AOrB(), 0, INF, true), Forward, 1, s)
        == Repeat(rules, AB(), AOrB(), Forward, 1, 0, INF, true, s);
  }

  // (?:(?=(a)))??\1b on ab: the code accepts the empty round, which sets the group.

  function EmptySets(): Pattern { Cat(Quant(SeesA(), 0, 1, false), RefThenB()) }
  function SeesA(): Pattern { Look(false, false, Group(Literal(97))) }
  function RefThenB(): Pattern { Cat(Reference(1), Literal(98)) }

  lemma {:induction false} SeesAEnds(rules: Rules)
    ensures Inside(AB(), At(0, None, None))
    ensures Ends(rules, AB(), SeesA(), Forward, 1, At(0, None, None)) == [At(0, Some(0), Some(1))]
  {
    hide Inside, Repeat, EndsFrom, OneEnd, Referenced, Mark, Groups;
    Begins();
    GroupAEnds(rules, 0, None, None);
  }

  lemma {:induction false} RefThenBEnds(rules: Rules, s: Place)
    requires Inside(AB(), s) && (s == At(0, None, None) || s == At(0, Some(0), Some(1)))
    ensures Ends(rules, AB(), RefThenB(), Forward, 2, s) == if s.caps[2].None? then [] else [s.(at := 2)]
  {
    hide Ends, Inside;
    var t := AB();
    var starts := Ends(rules, t, Reference(1), Forward, 2, s);
    ReferenceAtZero(rules, s);
    assert Groups(Reference(1)) == 0;
    CatOfOne(rules, t, Reference(1), Literal(98), 2, s, starts);
    BEnds(rules, starts[0]);
  }

  lemma {:induction false} ReferenceAtZero(rules: Rules, s: Place)
    requires Inside(AB(), s) && (s == At(0, None, None) || s == At(0, Some(0), Some(1)))
    ensures Ends(rules, AB(), Reference(1), Forward, 2, s) == [if s.caps[2].None? then s else s.(at := 1)]
  {
    if s.caps[2].Some? { assert Repeated(AB(), 1, 1, 1) == Some(1); assert Repeated(AB(), 0, 1, 0) == Some(1); }
  }

  lemma {:induction false} EmptySetsStarts(rules: Rules)
    ensures var s := At(0, None, None);
      Inside(AB(), s)
      && Ends(rules, AB(), Quant(SeesA(), 0, 1, false), Forward, 1, s) == [s] + if rules.Code?
         then [At(0, Some(0), Some(1))] else []
  {
    hide Ends, Inside, Repeat;
    var t, s := AB(), At(0, None, None);
    Begins();
    assert Groups(SeesA()) == 1;
    ForgetOne(0, None, None);
    SeesAEnds(rules);
    OptionalRounds(rules, t, SeesA(), Forward, 1, s);
    assert Ends(rules, t, Quant(SeesA(), 0, 1, false), Forward, 1, s)
        == Repeat(rules, t, SeesA(), Forward, 1, 0, 1, false, s) by {
      OptionalSees(rules, s);
    }
    if rules.Ecma? { OneMoved(s, At(0, Some(0), Some(1))); }
  }

  lemma OneMoved(s: Place, q: Place)
    requires q.at == s.at
    ensures Moved(s, [q]) == []
  {
    assert [q][1..] == [];
  }

  lemma OptionalSees(rules: Rules, s: Place)
    requires Inside(AB(), s) && Forget(s, 1, 1) == s && Groups(SeesA()) == 1
    ensures Ends(rules, AB(), Quant(SeesA(), 0, 1, false), Forward, 1, s)
      == Repeat(rules, AB(), SeesA(), Forward, 1, 0, 1, false, s)
  {
    hide Repeat, Forget;
  }

  lemma {:induction false} EmptySetsEnds(rules: Rules)
    ensures Inside(AB(), At(0, None, None))
    ensures FirstEnd(Ends(rules, AB(), EmptySets(), Forward, 1, At(0, None, None))) == if rules.Code? then Some(2)
      else None
  {
    hide Ends, EndsFrom, Inside;
    var t, s := AB(), At(0, None, None);
    EmptySetsStarts(rules);
    var starts := Ends(rules, t, Quant(SeesA(), 0, 1, false), Forward, 1, s);
    assert Groups(Quant(SeesA(), 0, 1, false)) == 1;
    CatEnds(rules, t, EmptySets(), Forward, 1, s);
    FromTail(rules, t, RefThenB(), 2, s, starts);
    RefThenBEnds(rules, s);
    if rules.Code? {
      FromTail(rules, t, RefThenB(), 2, s, starts[1..]);
      RefThenBEnds(rules, starts[1]);
      assert starts[1..][1..] == [];
    } else {
      assert starts[1..] == [];
    }
    NoStarts(rules, t, RefThenB(), Forward, 2, s);
  }

  lemma {:induction false} EmptySetsFits()
    ensures Emittable(EmptySets(), 1) && LoopsGreedy(EmptySets())
  {
    hide Groups;
  }

  // One optional round, and no capture to reset: the sticky program ends at 2, where RepeatMatcher finds no match.
  lemma {:induction false} EmptyCaptureExample(m: Machine)
    requires m.t == AB() && CodeAt(m.code, HEADER_LEN, ProgramCode(EmptySets(), true))
    ensures Emittable(EmptySets(), 1) && EndsAt(m, Start(0, 2), 2)
    ensures Inside(AB(), Start(0, 2)) && EcmaMatch(AB(), EmptySets(), true, Start(0, 2)) == None
  {
    hide Ends, ProgramCode, CodeAt, EndsAt, EcmaMatch, Inside, Mark, Emittable, LoopsGreedy, NoReferences;
    EmptySetsFits();
    Begins();
    EmptySetsEnds(Code);
    EmptySetsEnds(Ecma);
    ProgramEnds(m, EmptySets(), true, Start(0, 2), 2);
    EcmaEnds(AB(), EmptySets(), true, Start(0, 2));
  }
}
