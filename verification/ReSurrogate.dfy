// A search from between the halves of a surrogate pair (libregexp.c:1852-1933, 2058-2080).
module ReSurrogate {
  import opened ReText
  import opened ReCode
  import opened RePattern
  import opened ReGen
  import opened ReMachine
  import opened ReLoops
  import opened ReProgram
  import opened ReRules
  import opened ReChoice
  import opened ReExamples

  // .*(?!$) on one surrogate pair, from its second half.

  function OnePair(): Text { Text([0xD83D, 0xDE00], true, false, map[]) }
  function DotsNotLast(): Pattern { Cat(Quant(AnyChar(false), 0, INF, true), NotLast()) }
  function NotLast(): Pattern { Look(true, false, Test(LineEnd)) }
  function Dots(): Instr { SimpleGreedyQuant(2, 0, INF, 1) }

  lemma {:induction false} LoopCode()
    ensures Gen(Quant(AnyChar(false), 0, INF, true), Forward, 1) == [Dots()] + [Dot] + [Match]
  {
    BytesOne(Dot);
    assert Gen(AnyChar(false), Forward, 1) == [Dot];
    assert SimpleLength([Dot]) == 1 by { assert [Dot][1..] == []; }
  }

  lemma {:induction false} NotLastCode()
    ensures Gen(NotLast(), Forward, 1) == [NegativeLookahead(2)] + [TestLineEnd] + [Match]
  {
    BytesOne(TestLineEnd);
    assert Gen(Test(LineEnd), Forward, 1) == [TestLineEnd];
  }

  lemma {:induction false} DotsCode()
    ensures ProgramCode(DotsNotLast(), true)
         == [SaveStart(0)] + ([Dots()]
            + ([Dot] + ([Match] + ([NegativeLookahead(2)] + ([TestLineEnd] + ([Match] + ([SaveEnd(0)] + [Match])))))))
  {
    hide Gen;
    LoopCode();
    NotLastCode();
    CatCode(DotsNotLast(), Forward, 1);
    assert Groups(Quant(AnyChar(false), 0, INF, true)) == 0;
    GroupIsCode(DotsNotLast());
  }

  lemma {:induction false} HeadAt(m: Machine, pc: int, i: Instr, rest: seq<Instr>)
    requires CodeAt(m.code, pc, [i] + rest)
    ensures CodeAt(m.code, pc, [i]) && CodeAt(m.code, pc + Size(i), rest)
  {
    hide CodeAt, Length, Bytes;
    CodeAtAppend(m.code, pc, [i], rest);
    BytesOne(i);
  }

  ghost predicate DotsThere(m: Machine) {
    CodeAt(m.code, 7, [SaveStart(0)]) && CodeAt(m.code, 9, [Dots()]) && CodeAt(m.code, 26, [Dot])
        && CodeAt(m.code, 27, [Match])
    && CodeAt(m.code, 28, [NegativeLookahead(2)]) && CodeAt(m.code, 33, [TestLineEnd]) && CodeAt(m.code, 34, [Match])
    && CodeAt(m.code, 35, [SaveEnd(0)]) && CodeAt(m.code, 37, [Match])
  }

  lemma {:induction false} DotsParts(m: Machine)
    requires CodeAt(m.code, HEADER_LEN, ProgramCode(DotsNotLast(), true))
    ensures DotsThere(m)
  {
    hide CodeAt, ProgramCode;
    DotsCode();
    var c8 := [SaveEnd(0)] + [Match];
    var c7 := [Match] + c8;
    var c6 := [TestLineEnd] + c7;
    var c5 := [NegativeLookahead(2)] + c6;
    var c4 := [Match] + c5;
    var c3 := [Dot] + c4;
    var c2 := [Dots()] + c3;
    HeadAt(m, 7, SaveStart(0), c2);
    HeadAt(m, 9, Dots(), c3);
    HeadAt(m, 26, Dot, c4);
    HeadAt(m, 27, Match, c5);
    HeadAt(m, 28, NegativeLookahead(2), c6);
    HeadAt(m, 33, TestLineEnd, c7);
    HeadAt(m, 34, Match, c8);
    HeadAt(m, 35, SaveEnd(0), [Match]);
  }

  // The optimised loop runs to 2 and gives back to 0, before its start.
  lemma {:induction false} DotsRun(m: Machine)
    requires m.t == OnePair() && DotsThere(m)
    ensures GreedyRun(m, 26, INF, 0, 1) == Some(Count(1, 2))
  {
    hide CodeAt, Fetch;
    FetchAt(m.code, 26, Dot);
    FetchAt(m.code, 27, Match);
    assert Nested(m, 27, 2) == Reached(2);
    assert Nested(m, 26, 1) == Reached(2);
    assert Nested(m, 26, 2) == Blocked;
  }

  function Here(x: nat): Place { Place(x, [Some(1), None]) }
  function Rest1(): Saved { Saved(GreedyKind, 10, 2, [Some(1), None], [], 1) }

  lemma {:induction false} StepReaches(m: Machine, pc: int, i: Instr, s: Place, states: seq<Saved>, u: State)
    requires CodeAt(m.code, pc, [i]) && s.at <= |m.t.units| && StepInstr(m, Run(pc, s, [], states), i) == u
    ensures Reaches(m, Run(pc, s, [], states), u)
  {
    hide CodeAt, Reaches, StepInstr, Step;
    StepAt(m, pc, i, s, [], states);
    ReachesStep(m, Run(pc, s, [], states), u);
  }

  lemma {:induction false} ToTwo(m: Machine)
    requires m.t == OnePair() && DotsThere(m)
    ensures Reaches(m, Run(7, Start(1, 1), [], []), Run(28, Here(2), [], [Rest1()]))
  {
    hide CodeAt, Reaches, GreedyRun;
    assert Start(1, 1).caps == [None, None];
    assert SetCapture([None, None], 0, 1) == [Some(1), None];
    StepReaches(m, 7, SaveStart(0), Start(1, 1), [], Run(9, Here(1), [], []));
    DotsRun(m);
    assert [] + [Rest1()] == [Rest1()];
    StepReaches(m, 9, Dots(), Here(1), [], Run(28, Here(2), [], [Rest1()]));
    ReachesTrans(m, Run(7, Start(1, 1), [], []), Run(9, Here(1), [], []), Run(28, Here(2), [], [Rest1()]));
  }

  // At 2 the text has ended: back with PREV_CHAR, over both halves.
  lemma {:induction false} ToZero(m: Machine)
    requires m.t == OnePair() && DotsThere(m)
    ensures Reaches(m, Run(28, Here(2), [], [Rest1()]), Run(28, Here(0), [], []))
  {
    hide CodeAt, Reaches, Fail, Fetch;
    var look := Saved(NegativeLookaheadKind, 35, 2, [Some(1), None], [], 0);
    var both := [Rest1()] + [look];
    StepReaches(m, 28, NegativeLookahead(2), Here(2), [Rest1()], Run(33, Here(2), [], both));
    StepReaches(m, 33, TestLineEnd, Here(2), both, Run(34, Here(2), [], both));
    assert both[..|both| - 1] == [Rest1()];
    GivenBack(m);
    StepReaches(m, 34, Match, Here(2), both, Run(28, Here(0), [], []));
    ReachesTrans(m, Run(28, Here(2), [], [Rest1()]), Run(33, Here(2), [], both), Run(34, Here(2), [], both));
    ReachesTrans(m, Run(28, Here(2), [], [Rest1()]), Run(34, Here(2), [], both), Run(28, Here(0), [], []));
  }

  lemma {:induction false} GivenBack(m: Machine)
    requires m.t == OnePair() && DotsThere(m)
    ensures Fail(m, [Rest1()]) == Run(28, Here(0), [], [])
  {
    hide CodeAt, Fetch;
    FetchAt(m.code, 9, Dots());
    assert [Rest1()][..0] == [];
    assert Backwards(m.t, 2, 1) == Backwards(m.t, 0, 0) == 0;
  }

  lemma {:induction false} FromZero(m: Machine)
    requires m.t == OnePair() && DotsThere(m)
    ensures Reaches(m, Run(28, Here(0), [], []), Done(Some(Place(0, [Some(1), Some(0)]))))
  {
    hide CodeAt, Reaches;
    var look := [Saved(NegativeLookaheadKind, 35, 0, [Some(1), None], [], 0)];
    var last := Place(0, [Some(1), Some(0)]);
    StepReaches(m, 28, NegativeLookahead(2), Here(0), [], Run(33, Here(0), [], look));
    assert look[..|look| - 1] == [];
    StepReaches(m, 33, TestLineEnd, Here(0), look, Run(35, Here(0), [], []));
    assert SetCapture([Some(1), None], 1, 0) == [Some(1), Some(0)];
    StepReaches(m, 35, SaveEnd(0), Here(0), [], Run(37, last, [], []));
    StepReaches(m, 37, Match, last, [], Done(Some(last)));
    ReachesTrans(m, Run(28, Here(0), [], []), Run(33, Here(0), [], look), Run(35, Here(0), [], []));
    ReachesTrans(m, Run(28, Here(0), [], []), Run(35, Here(0), [], []), Run(37, last, [], []));
    ReachesTrans(m, Run(28, Here(0), [], []), Run(37, last, [], []), Done(Some(last)));
  }

  // RepeatMatcher tries 2 and then its start.
  lemma {:induction false} DotsEnds()
    ensures Inside(OnePair(), Here(1))
    ensures FirstEnd(Ends(Ecma, OnePair(), DotsNotLast(), Forward, 1, Here(1))) == Some(1)
  {
    hide Ends, Repeat, EndsFrom;
    var t, s := OnePair(), Here(1);
    DotRounds();
    var starts := [Here(2), Here(1)];
    CatEnds(Ecma, t, DotsNotLast(), Forward, 1, s);
    assert Ends(Ecma, t, Quant(AnyChar(false), 0, INF, true), Forward, 1, s) == starts by { DotsAreRepeated(s); }
    assert Groups(Quant(AnyChar(false), 0, INF, true)) == 0;
    FromTail(Ecma, t, NotLast(), 1, s, starts);
    FromTail(Ecma, t, NotLast(), 1, s, starts[1..]);
    NotLastEnds(Here(2));
    NotLastEnds(Here(1));
  }

  lemma DotsAreRepeated(s: Place)
    requires Inside(OnePair(), s)
    ensures Ends(Ecma, OnePair(), Quant(AnyChar(false), 0, INF, true), Forward, 1, s)
      == Repeat(Ecma, OnePair(), AnyChar(false), Forward, 1, 0, INF, true, s)
  {
    hide Repeat;
  }

  lemma NotLastEnds(s: Place)
    requires Inside(OnePair(), s)
    ensures Ends(Ecma, OnePair(), NotLast(), Forward, 1, s) == if s.at == 2 then [] else [s]
  {
    assert Ends(Ecma, OnePair(), Test(LineEnd), Forward, 1, s) == if s.at == 2 then [s] else [];
  }

  lemma {:induction false} DotRounds()
    ensures Repeat(Ecma, OnePair(), AnyChar(false), Forward, 1, 0, INF, true, Here(1)) == [Here(2), Here(1)]
  {
    hide Ends, Repeat, RepeatFrom;
    var t, p := OnePair(), AnyChar(false);
    DotEnds(Here(1));
    DotEnds(Here(2));
    ForgetNone(Here(1), 1);
    ForgetNone(Here(2), 1);
    RoundedIs(Ecma, t, p, 1, 0, INF, true, Here(2), Here(2), []);
    RepeatIsRounded(Ecma, t, p, Forward, 1, 0, INF, true, Here(2));
    RepeatFromNone(Ecma, t, p, Forward, 1, 0, INF, true, Here(2));
    assert Repeat(Ecma, t, p, Forward, 1, 0, INF, true, Here(2)) == [Here(2)];
    RoundedIs(Ecma, t, p, 1, 0, INF, true, Here(1), Here(1), [Here(2)]);
    assert Moved(Here(1), [Here(2)]) == [Here(2)] by { assert [Here(2)][1..] == []; }
    RepeatIsRounded(Ecma, t, p, Forward, 1, 0, INF, true, Here(1));
    assert [Here(2)][1..] == [];
    RepeatFromHead(Ecma, t, p, Forward, 1, 0, INF, true, Here(1), [Here(2)]);
    RepeatFromNone(Ecma, t, p, Forward, 1, 0, INF, true, Here(1));
  }

  lemma DotEnds(s: Place)
    requires Inside(OnePair(), s) && s.at != 0
    ensures Ends(Ecma, OnePair(), AnyChar(false), Forward, 1, s) == if s.at == 1 then [s.(at := 2)] else []
  {
    assert Ends(Ecma, OnePair(), AnyChar(false), Forward, 1, s) == OneEnd(OnePair(), AnyChar(false), Forward, s);
  }

  // The sticky program's match ends at 0, before its start; RepeatMatcher's ends where it starts.
  lemma {:induction false} UnalignedExample(m: Machine)
    requires m.t == OnePair() && CodeAt(m.code, HEADER_LEN, ProgramCode(DotsNotLast(), true))
    ensures Emittable(DotsNotLast(), 1) && Inside(OnePair(), Start(1, 1)) && !Aligned(OnePair(), 1)
    ensures EndsAt(m, Start(1, 1), 0) && EcmaMatch(OnePair(), DotsNotLast(), true, Start(1, 1)) == Some(1)
  {
    hide CodeAt, ProgramCode, Reaches, Ends, EcmaMatch;
    var s, last := Start(1, 1), Place(0, [Some(1), Some(0)]);
    DotsParts(m);
    ToTwo(m);
    ToZero(m);
    FromZero(m);
    ReachesTrans(m, Run(7, s, [], []), Run(28, Here(2), [], [Rest1()]), Run(28, Here(0), [], []));
    ReachesTrans(m, Run(7, s, [], []), Run(28, Here(0), [], []), Done(Some(last)));
    assert s.caps == [None, None];
    assert SetCapture([None, None], 0, 1) == [Some(1), None];
    assert Mark(s, 0) == Here(1);
    DotsEnds();
    EcmaEnds(OnePair(), DotsNotLast(), true, s);
  }
}
