// Programs that the compiler accepts and that run forever (libregexp.c:1524-1526).
module ReHangs {
  import opened ReText
  import opened ReCode
  import opened RePattern
  import opened ReGen
  import opened ReMachine
  import opened ReCorrect
  import opened ReProgram
  import opened ReRules
  import opened ReChoice
  import opened ReLazy
  import opened ReVerdict
  import opened ReAgree
  import opened ReSearch
  import opened ReExamples
  import opened ReDepth
  import opened ReCompile

  lemma {:induction false} StarSize(atom: seq<Instr>)
    ensures Length(StarCode(atom, false, false)) == Length(atom) + 10
  {
    hide Length;
    var split, back := SplitCode(false, Length(atom) + 5), Goto(-(Length(atom) + 10));
    BytesAppend([split] + atom, [back]);
    BytesAppend([split], atom);
    BytesOne(split);
    BytesOne(back);
  }

  lemma {:induction false} FlatDepth(s: seq<Instr>)
    requires forall k :: 0 <= k < |s| ==> Effect(s[k]) == 0
    ensures MaxDepth(s) == 0
  {
    hide Sum;
    forall k | 0 <= k <= |s| ensures Sum(s[..k]) == 0 { FlatSum(s[..k]); }
    FlatMax(s, |s|);
  }

  lemma {:induction false} FlatSum(s: seq<Instr>)
    requires forall k :: 0 <= k < |s| ==> Effect(s[k]) == 0
    ensures Sum(s) == 0
  {
    if s != [] {
      assert forall k :: 0 <= k < |s[1..]| ==> s[1..][k] == s[k + 1];
      FlatSum(s[1..]);
    }
  }

  lemma {:induction false} FlatMax(s: seq<Instr>, k: nat)
    requires k <= |s| && forall j :: 0 <= j <= |s| ==> Sum(s[..j]) == 0
    ensures MaxUpTo(s, k) == 0
  {
    hide Sum;
    if k > 0 { FlatMax(s, k - 1); }
  }

  // Code that neither pushes nor pops.
  ghost predicate FlatCode(s: seq<Instr>) { forall k :: 0 <= k < |s| ==> Effect(s[k]) == 0 }

  lemma FlatAppend(a: seq<Instr>, b: seq<Instr>)
    requires FlatCode(a) && FlatCode(b)
    ensures FlatCode(a + b)
  {
    hide Effect;
  }

  lemma FlatOne(i: Instr)
    requires Effect(i) == 0
    ensures FlatCode([i])
  {
  }

  lemma {:induction false} FlatStar(atom: seq<Instr>)
    requires FlatCode(atom)
    ensures FlatCode(StarCode(atom, false, false))
  {
    hide FlatCode, Length;
    var split, back := SplitCode(false, Length(atom) + 5), Goto(-(Length(atom) + 10));
    FlatOne(split);
    FlatOne(back);
    FlatAppend([split], atom);
    FlatAppend([split] + atom, [back]);
  }

  // The parts of group 0 of p*?r.
  function GroupCode(p: Pattern, r: Pattern): seq<Instr> {
    [SaveStart(0)] + (ResetCode(1, Groups(p)) + (StarCode(Gen(p, Forward, 1), false, false)
      + (Gen(r, Forward, 1 + Groups(p)) + ([SaveEnd(0)] + [Match]))))
  }

  lemma {:induction false} LazyThenCode(p: Pattern, r: Pattern, sticky: bool)
    ensures ProgramCode(LazyThen(p, r), sticky)
      == (if sticky then [] else StarCode([Any], false, false)) + GroupCode(p, r)
  {
    hide StarCode, ResetCode, Gen, QuantCode;
    var w, n, skip := LazyThen(p, r), Groups(p), if sticky then [] else StarCode([Any], false, false);
    var atom, rest := Gen(p, Forward, 1), Gen(r, Forward, 1 + n);
    var reset, star := ResetCode(1, n), StarCode(atom, false, false);
    ProgramParts(w, sticky);
    CatCode(w, Forward, 1);
    assert Gen(Quant(p, 0, INF, false), Forward, 1) == reset + star by { LazyStarCode(p); }
    assert [SaveStart(0)] + (reset + star + rest) + [SaveEnd(0)] + [Match] == GroupCode(p, r);
  }

  lemma {:induction false} LazyStarCode(p: Pattern)
    ensures Gen(Quant(p, 0, INF, false), Forward, 1)
      == ResetCode(1, Groups(p)) + StarCode(Gen(p, Forward, 1), false, false)
  {
    hide StarCode, ResetCode;
  }

  lemma {:induction false} ProgramParts(w: Pattern, sticky: bool)
    ensures ProgramCode(w, sticky)
         == (if sticky then [] else StarCode([Any], false, false))
            + ([SaveStart(0)] + Gen(w, Forward, 1) + [SaveEnd(0)] + [Match])
  {
    hide StarCode, Gen;
    assert Gen(Group(w), Forward, 0) == [SaveStart(0)] + Gen(w, Forward, 1) + [SaveEnd(0)] by { GroupIsCode(w); }
    if !sticky {
      CatCode(Whole(w, sticky), Forward, 0);
      assert Gen(Skip(), Forward, 0) == StarCode([Any], false, false) by { SkipIsStar(); }
    }
  }

  lemma SkipIsStar()
    ensures Gen(Skip(), Forward, 0) == StarCode([Any], false, false) && Groups(Skip()) == 0
  {
    hide StarCode;
    assert Gen(AnyChar(true), Forward, 0) == [Any];
    assert [] + StarCode([Any], false, false) == StarCode([Any], false, false);
  }

  // The program for p*?r, of a loop without groups and flat code.
  lemma {:induction false} FlatProgram(p: Pattern, r: Pattern, sticky: bool)
    requires Groups(p) == 0 && FlatCode(Gen(p, Forward, 1)) && FlatCode(Gen(r, Forward, 1))
    ensures MaxDepth(ProgramCode(LazyThen(p, r), sticky)) == 0
    ensures Length(ProgramCode(LazyThen(p, r), sticky))
         == (if sticky then 15 else 26) + Length(Gen(p, Forward, 1)) + Length(Gen(r, Forward, 1))
  {
    hide Length, MaxDepth, ProgramCode, StarCode, Gen, Effect, FlatCode, Bytes;
    var x, y, last := Gen(p, Forward, 1), Gen(r, Forward, 1), [SaveEnd(0)] + [Match];
    var skip, star := if sticky then [] else StarCode([Any], false, false), StarCode(x, false, false);
    LazyThenCode(p, r, sticky);
    Pieces();
    FlatPieces();
    StarSize([Any]);
    StarSize(x);
    BytesAppend([SaveEnd(0)], [Match]);
    BytesAppend(y, last);
    BytesAppend(star, y + last);
    BytesAppend([SaveStart(0)], star + (y + last));
    BytesAppend(skip, [SaveStart(0)] + (star + (y + last)));
    assert ResetCode(1, 0) + (star + (y + last)) == star + (y + last);
    FlatStar([Any]);
    FlatStar(x);
    FlatAppend([SaveEnd(0)], [Match]);
    FlatAppend(y, last);
    FlatAppend(star, y + last);
    FlatAppend([SaveStart(0)], star + (y + last));
    FlatAppend(skip, [SaveStart(0)] + (star + (y + last)));
    FlatIsFlat(ProgramCode(LazyThen(p, r), sticky));
  }

  lemma {:induction false} Pieces()
    ensures Length([SaveStart(0)]) == 2 && Length([SaveEnd(0)]) == 2 && Length([Match]) == 1 && Length([Any]) == 1
    ensures Length([]) == 0
  {
    BytesOne(SaveStart(0));
    BytesOne(SaveEnd(0));
    BytesOne(Match);
    BytesOne(Any);
  }

  lemma {:induction false} FlatPieces()
    ensures FlatCode([SaveStart(0)]) && FlatCode([SaveEnd(0)]) && FlatCode([Match]) && FlatCode([Any]) && FlatCode([])
  {
  }

  lemma FlatIsFlat(s: seq<Instr>)
    requires FlatCode(s)
    ensures MaxDepth(s) == 0
  {
    FlatDepth(s);
  }

  // Where the first round is empty and r does not follow at once, the search never ends.
  lemma {:induction false} StaysPut(t: Text, p: Pattern, r: Pattern, sticky: bool, s: Place)
    requires Inside(t, s) && Inside(t, Entered(p, s)) && Emittable(p, 1) && Emittable(r, 1 + Groups(p))
    requires Finite(t, p, Forward, 1) && Finite(t, r, Forward, 1 + Groups(p))
    requires var q := Entered(p, s);
      Ends(Code, t, p, Forward, 1, q) != [] && Ends(Code, t, p, Forward, 1, q)[0].at == q.at
          && Ends(Code, t, r, Forward, 1 + Groups(p), q) == []
    ensures SearchDoes(0, t, LazyThen(p, r), sticky, s).Never?
  {
    hide Ends, Inside, Tried, TriedFrom, EmptyAhead, Then, FirstVerdict, Entered, Repeats, SearchDoes, Finite;
    hide Emittable;
    var q, cc := Entered(p, s), 1 + Groups(p);
    var out := Then(Running(0), t, r, Forward, cc, Closing(1, Won()));
    OnlyHere(t, p, q);
    EmptyHere(t, p, q);
    FollowFails(t, r, cc, q);
    OneVerdict(out, q);
    LoopIsTried(t, p, Forward, 1, q, out);
    LazyThenDoes(0, t, p, r, s);
    if !sticky { SearchFromLeft(0, t, LazyThen(p, r), s); }
  }

  lemma {:induction false} EmptyHere(t: Text, p: Pattern, s: Place)
    requires Inside(t, s) && Ends(Code, t, p, Forward, 1, s) != [] && Ends(Code, t, p, Forward, 1, s)[0].at == s.at
    ensures EmptyAhead(t, p, Forward, 1, s)
  {
    hide Ends, Inside;
    assert Ahead(t, Forward, s, Ends(Code, t, p, Forward, 1, s)[0]);
  }

  lemma {:induction false} OnlyHere(t: Text, p: Pattern, s: Place)
    requires Inside(t, s) && Ends(Code, t, p, Forward, 1, s) != [] && Ends(Code, t, p, Forward, 1, s)[0].at == s.at
    ensures Tried(t, p, Forward, 1, s) == [s]
  {
    hide Ends, Inside, TriedFrom;
    NoneTriedFrom(t, p, Forward, 1, s, Ends(Code, t, p, Forward, 1, s));
  }

  lemma {:induction false} ProgramHangs(code: seq<Byte>, flags: Byte, p: Pattern, r: Pattern, sticky: bool, t: Text,
                                        s: Place)
    requires IsProgram(code, LazyThen(p, r), flags, sticky) && Emittable(LazyThen(p, r), 1)
    requires Groups(p) == 0 && FlatCode(Gen(p, Forward, 1)) && FlatCode(Gen(r, Forward, 1))
    requires Length(Gen(p, Forward, 1)) + Length(Gen(r, Forward, 1)) <= 1000
    requires NamesLasting(LazyThen(p, r)) && Inside(t, s) && Aligned(t, s.at)
    requires SearchDoes(0, t, LazyThen(p, r), sticky, s).Never?
    ensures MaxDepth(ProgramCode(LazyThen(p, r), sticky)) <= STACK_SIZE_MAX
    ensures Hangs(Machine(t, code), Run(HEADER_LEN, s, [], []))
  {
    hide CodeAt, Length, Bytes, U32, MaxDepth, ProgramCode, Gen, FlatCode, Inside, Aligned, SearchDoes, Hangs;
    FlatProgram(p, r, sticky);
    ProgramIsThere(code, LazyThen(p, r), flags, sticky);
    PlainHangsIff(Machine(t, code), LazyThen(p, r), sticky, s);
  }

  // (?:)*?b on the text a, where there is no match.

  function OneLetter(): Text { Text([97], false, false, map[]) }

  lemma {:induction false} LazyEmptyExample(code: seq<Byte>, flags: Byte, sticky: bool)
    requires IsProgram(code, LazyThen(Empty, Literal(98)), flags, sticky)
    ensures Emittable(LazyThen(Empty, Literal(98)), 1)
    ensures MaxDepth(ProgramCode(LazyThen(Empty, Literal(98)), sticky)) <= STACK_SIZE_MAX
    ensures Hangs(Machine(OneLetter(), code), Run(HEADER_LEN, Start(0, 1), [], []))
    ensures Inside(OneLetter(), Start(0, 1))
    ensures EcmaMatch(OneLetter(), LazyThen(Empty, Literal(98)), sticky, Start(0, 1)) == None
  {
    hide Ends, MaxDepth, ProgramCode, Hangs, IsProgram, Length, FlatCode, SearchDoes, Mark, Inside;
    var t, s, b := OneLetter(), Start(0, 1), Literal(98);
    StartInside(t, 0, 1);
    MarkInside(t, s, 0);
    assert Entered(Empty, s) == Mark(s, 0);
    EmptyEnds(Code, t, Forward, 1, Mark(s, 0));
    NoB(Code, 1, Mark(s, 0));
    StaysPut(t, Empty, b, sticky, s);
    LettersFlat();
    ProgramHangs(code, flags, Empty, b, sticky, t, s);
    GroupNone(s);
    NextInside(t, s);
    GroupNone(s.(at := 1));
  }

  lemma {:induction false} LettersFlat()
    ensures Gen(Empty, Forward, 1) == [] && Gen(Literal(98), Forward, 1) == [Char16(98)]
    ensures FlatCode([]) && FlatCode([Char16(98)]) && Length([]) == 0 && Length([Char16(98)]) == 3
  {
    BytesOne(Char16(98));
  }

  lemma NoB(rules: Rules, cc: nat, s: Place)
    requires Inside(OneLetter(), s)
    ensures Ends(rules, OneLetter(), Literal(98), Forward, cc, s) == []
  {
    assert Ends(rules, OneLetter(), Literal(98), Forward, cc, s) == OneEnd(OneLetter(), Literal(98), Forward, s);
  }

  lemma {:induction false} EmptyRounds(t: Text, cc: nat, s: Place)
    requires Inside(t, s)
    ensures Repeat(Ecma, t, Empty, Forward, cc, 0, INF, false, s) == [s]
  {
    var f := Forget(s, cc, 0);
    ForgetInside(t, s, cc, 0);
    assert Moved(s, [f]) == Moved(s, [f][1..]) == [];
  }

  lemma {:induction false} GroupNone(s: Place)
    requires Inside(OneLetter(), s)
    ensures Ends(Ecma, OneLetter(), Group(LazyThen(Empty, Literal(98))), Forward, 0, s) == []
  {
    hide Inside, Repeat, Ends;
    var t, q, star := OneLetter(), Mark(s, 0), Quant(Empty, 0, INF, false);
    MarkInside(t, s, 0);
    EmptyRounds(t, 1, q);
    assert Ends(Ecma, t, star, Forward, 1, q) == [q] by { EcmaStar(t, Empty, q); }
    CatOfOne(Ecma, t, star, Literal(98), 1, q, [q]);
    NoB(Ecma, 1, q);
    EcmaGroup(t, LazyThen(Empty, Literal(98)), s);
  }

  lemma EcmaStar(t: Text, p: Pattern, s: Place)
    requires Inside(t, s)
    ensures Ends(Ecma, t, Quant(p, 0, INF, false), Forward, 1, s) == Repeat(Ecma, t, p, Forward, 1, 0, INF, false, s)
  {
    hide Repeat;
  }

  lemma EcmaGroup(t: Text, w: Pattern, s: Place)
    requires Inside(t, s) && Inside(t, Mark(s, 0)) && Ends(Ecma, t, w, Forward, 1, Mark(s, 0)) == []
    ensures Ends(Ecma, t, Group(w), Forward, 0, s) == []
  {
    hide Mark, Inside, Ahead, Repeat, EndsFrom, OneEnd, Referenced, AtEdge, Groups, Forget;
  }

  // (?:|a)*?b on ab, where RepeatMatcher's match ends at 2: the empty round keeps the loop from ever trying 1.

  function NothingOrA(): Pattern { Alt(Empty, Literal(97)) }

  lemma {:induction false} LazyMissExample(code: seq<Byte>, flags: Byte, sticky: bool)
    requires IsProgram(code, LazyThen(NothingOrA(), Literal(98)), flags, sticky)
    ensures Emittable(LazyThen(NothingOrA(), Literal(98)), 1)
    ensures MaxDepth(ProgramCode(LazyThen(NothingOrA(), Literal(98)), sticky)) <= STACK_SIZE_MAX
    ensures Hangs(Machine(AB(), code), Run(HEADER_LEN, Start(0, 1), [], []))
    ensures Inside(AB(), Start(0, 1))
    ensures EcmaMatch(AB(), LazyThen(NothingOrA(), Literal(98)), sticky, Start(0, 1)) == Some(2)
  {
    hide Ends, MaxDepth, ProgramCode, Hangs, IsProgram, Length, FlatCode, SearchDoes, Gen, Mark, Inside;
    var t, s, p, b := AB(), Start(0, 1), NothingOrA(), Literal(98);
    StartInside(t, 0, 1);
    MarkInside(t, s, 0);
    assert Groups(NothingOrA()) == 0 && Entered(p, s) == Mark(s, 0);
    NothingOrAEnds(Mark(s, 0));
    BInAB(Mark(s, 0));
    StaysPut(t, p, b, sticky, s);
    LettersFlat();
    NothingOrAFlat();
    ProgramHangs(code, flags, p, b, sticky, t, s);
    MissedMatch(s);
  }

  lemma {:induction false} NothingOrAFlat()
    ensures FlatCode(Gen(NothingOrA(), Forward, 1)) && Length(Gen(NothingOrA(), Forward, 1)) == 13
    ensures Groups(NothingOrA()) == 0
  {
    hide Length;
    var split, goto := SplitNextFirst(5), Goto(3);
    NoCode();
    BytesOne(Char16(97));
    assert Gen(Literal(97), Forward, 1) == [Char16(97)] && Gen(Empty, Forward, 1) == [];
    assert Gen(NothingOrA(), Forward, 1) == [split] + ([goto] + [Char16(97)]);
    BytesOne(split);
    BytesOne(goto);
    BytesAppend([goto], [Char16(97)]);
    BytesAppend([split], [goto] + [Char16(97)]);
  }

  lemma {:induction false} NothingOrAEnds(s: Place)
    requires Inside(AB(), s)
    ensures Ends(Code, AB(), NothingOrA(), Forward, 1, s) == [s] + if s.at == 0 then [s.(at := 1)] else []
  {
    hide Ends, Inside;
    AltEnds(Code, AB(), NothingOrA(), Forward, 1, s);
    EmptyEnds(Code, AB(), Forward, 1, s);
    assert Ends(Code, AB(), Literal(97), Forward, 1, s) == if s.at == 0 then [s.(at := 1)] else [] by { AInAB(s); }
  }

  lemma AInAB(s: Place)
    requires Inside(AB(), s)
    ensures Ends(Code, AB(), Literal(97), Forward, 1, s) == if s.at == 0 then [s.(at := 1)] else []
  {
    assert Ends(Code, AB(), Literal(97), Forward, 1, s) == OneEnd(AB(), Literal(97), Forward, s);
  }

  lemma BInAB(s: Place)
    requires Inside(AB(), s)
    ensures Ends(Code, AB(), Literal(98), Forward, 1, s) == if s.at == 1 then [s.(at := 2)] else []
  {
    assert Ends(Code, AB(), Literal(98), Forward, 1, s) == OneEnd(AB(), Literal(98), Forward, s);
  }

  // The list of the loop goes on from 0 to 1, where b follows.
  lemma {:induction false} MissedMatch(s: Place)
    requires Inside(AB(), s) && s.at == 0
    ensures FirstEnd(Ends(Ecma, AB(), Group(LazyThen(NothingOrA(), Literal(98))), Forward, 0, s)) == Some(2)
  {
    hide Ends, Inside, Repeat, RepeatFrom, EndsFrom, Mark;
    var t, p, b, q := AB(), NothingOrA(), Literal(98), Mark(s, 0);
    var w, one := LazyThen(p, b), q.(at := 1);
    assert Groups(p) == 0;
    MarkInside(t, s, 0);
    GroupAgrees(t, w, s);
    GroupFirstEnd(Code, t, w, s);
    LoopStarts(q);
    RepeatIsRounded(Code, t, p, Forward, 1, 0, INF, false, one);
    var starts := Repeat(Code, t, p, Forward, 1, 0, INF, false, q);
    CatEnds(Code, t, w, Forward, 1, q);
    assert Ends(Code, t, Quant(p, 0, INF, false), Forward, 1, q) == starts by {
      QuantEnds(t, Quant(p, 0, INF, false), Forward, 1, q);
    }
    FromTail(Code, t, b, 1, q, starts);
    FromTail(Code, t, b, 1, q, starts[1..]);
    BInAB(q);
    BInAB(one);
  }

  lemma {:induction false} LoopStarts(q: Place)
    requires Inside(AB(), q) && q.at == 0
    ensures Inside(AB(), q.(at := 1))
    ensures Repeat(Code, AB(), NothingOrA(), Forward, 1, 0, INF, false, q)
      == [q] + Repeat(Code, AB(), NothingOrA(), Forward, 1, 0, INF, false, q.(at := 1))
  {
    hide Ends, Inside, Repeat, RepeatFrom;
    var t, p, one := AB(), NothingOrA(), q.(at := 1);
    InAB(q);
    NothingOrAEnds(q);
    var ends := [q] + [one];
    assert Moved(q, ends) == Moved(q, ends[1..]) == [one];
    RoundedIs(Code, t, p, 1, 0, INF, false, q, q, ends);
    RepeatIsRounded(Code, t, p, Forward, 1, 0, INF, false, q);
    assert [one][1..] == [];
    RepeatFromHead(Code, t, p, Forward, 1, 0, INF, false, q, [one]);
    RepeatFromNone(Code, t, p, Forward, 1, 0, INF, false, q);
  }

  lemma InAB(q: Place)
    requires Inside(AB(), q)
    ensures Inside(AB(), q.(at := 1))
  {
  }

  // (?:(?=(a)))*?\1b on ab: the empty round sets the group, and what follows then matches; RepeatMatcher refuses it.

  function EmptyWins(): Pattern { LazyThen(SeesA(), RefThenB()) }

  lemma {:induction false} EmptyWinsFits()
    ensures Emittable(EmptyWins(), 1) && Finite(AB(), SeesA(), Forward, 1) && Finite(AB(), RefThenB(), Forward, 2)
    ensures Groups(SeesA()) == 1
    ensures Entered(SeesA(), Start(0, 2)) == At(0, None, None)
  {
    hide AlwaysMoves;
    Begins();
    ForgetOne(0, None, None);
  }

  // What follows fails while the group is unset.
  lemma {:induction false} RefThenBComes(s: Place)
    requires Inside(AB(), s) && (s == At(0, None, None) || s == At(0, Some(0), Some(1)))
    ensures Then(Running(1), AB(), RefThenB(), Forward, 2, Closing(1, Won()))(s) == if s.caps[2].None? then Fails
      else Wins(Mark(s.(at := 2), 1))
  {
    hide Ends, Inside, Does, Finite, Emittable, Mark;
    EmptyWinsFits();
    assert Emittable(RefThenB(), 2) by { PartsFit(); }
    RefThenBEnds(Code, s);
    DoesList(Running(1), AB(), RefThenB(), Forward, 2, s, Closing(1, Won()), true);
    OneVerdict(Closing(1, Won()), s.(at := 2));
  }

  lemma PartsFit()
    ensures Emittable(RefThenB(), 2) && Emittable(SeesA(), 1)
  {
  }

  lemma {:induction false} EmptyWinsRead()
    ensures Inside(AB(), Start(0, 2))
    ensures SearchDoes(1, AB(), EmptyWins(), true, Start(0, 2)) == Wins(Mark(At(2, Some(0), Some(1)), 1))
  {
    hide Ends, Inside, Does, Then, Next, Entered, Finite, Emittable, Mark, SearchDoes, FirstVerdict;
    var t, p, q, r := AB(), SeesA(), At(0, None, None), At(0, Some(0), Some(1));
    var out := Then(Running(1), t, RefThenB(), Forward, 2, Closing(1, Won()));
    Begins();
    var next := Next(Running(1), t, p, Forward, 1, 0, INF, false, q, out);
    EmptyWinsFits();
    PartsFit();
    LazyThenDoes(1, t, p, RefThenB(), Start(0, 2));
    RefThenBComes(q);
    SeesAEnds(Code);
    DoesList(Running(1), t, p, Forward, 1, q, next, true);
    assert Inside(t, r) by { InsideAhead(t, Forward, q, Ends(Code, t, p, Forward, 1, q)[0]); }
    OneVerdict(next, r);
    NextCases(Running(1), t, p, Forward, 1, 0, INF, false, q, r, out);
    RefThenBComes(r);
    assert Onward(t, Forward, q, r);
  }

  // The sticky program ends at 2, by way of the empty round; RepeatMatcher finds no match.
  lemma {:induction false} EmptyRoundWins(m: Machine)
    requires m.t == AB() && CodeAt(m.code, HEADER_LEN, ProgramCode(EmptyWins(), true))
    ensures Emittable(EmptyWins(), 1) && EndsAt(m, Start(0, 2), 2)
    ensures Inside(AB(), Start(0, 2)) && EcmaMatch(AB(), EmptyWins(), true, Start(0, 2)) == None
  {
    hide Ends, ProgramCode, CodeAt, Reaches, EcmaMatch, Inside, Mark, Emittable, SearchDoes, Finite;
    var q := Mark(At(2, Some(0), Some(1)), 1);
    Begins();
    EmptyWinsFits();
    EmptyWinsRead();
    assert q.at == 2 by { MarkInside(AB(), At(2, Some(0), Some(1)), 1); }
    assert Aligned(AB(), 0);
    SearchComes(1, m, EmptyWins(), true, Start(0, 2));
    assert Reaches(m, Run(HEADER_LEN, Start(0, 2), [], []), Done(Some(q)));
    EmptyWinsEcma();
    EcmaEnds(AB(), EmptyWins(), true, Start(0, 2));
  }

  lemma {:induction false} EmptyWinsEcma()
    ensures Inside(AB(), At(0, None, None)) && Ends(Ecma, AB(), EmptyWins(), Forward, 1, At(0, None, None)) == []
  {
    hide Ends, EndsFrom, Inside, Repeat, RepeatFrom, Rounded;
    var t, p, q, r := AB(), SeesA(), At(0, None, None), At(0, Some(0), Some(1));
    Begins();
    EmptyWinsFits();
    ForgetOne(0, None, None);
    SeesAEnds(Ecma);
    RoundedIs(Ecma, t, p, 1, 0, INF, false, q, q, [r]);
    OneMoved(q, r);
    RepeatIsRounded(Ecma, t, p, Forward, 1, 0, INF, false, q);
    RepeatFromNone(Ecma, t, p, Forward, 1, 0, INF, false, q);
    assert Ends(Ecma, t, Quant(p, 0, INF, false), Forward, 1, q) == [q] by { EcmaStar(t, p, q); }
    CatOfOne(Ecma, t, Quant(p, 0, INF, false), RefThenB(), 1, q, [q]);
    RefThenBEnds(Ecma, q);
  }
}
