// Compilation preserves meaning: the emitted code yields the ends of the pattern, in order.
module ReCorrect {
  import opened ReText
  import opened ReCode
  import opened RePattern
  import opened ReGen
  import opened ReMachine
  import opened ReLoops
  import opened ReSimple

  // Lazy loops carry no zero-advance check: an unbounded one is only safe around an atom that moves.
  ghost predicate LazyLoopsMove(t: Text, p: Pattern, dir: Direction, cc: nat) {
    match p
    case Group(b) => LazyLoopsMove(t, b, dir, cc + 1)
    case Look(_, behind, b) => LazyLoopsMove(t, b, if behind then Backward else Forward, cc)
    case Cat(a, b) => LazyLoopsMove(t, a, dir, cc) && LazyLoopsMove(t, b, dir, cc + Groups(a))
    case Alt(a, b) => LazyLoopsMove(t, a, dir, cc) && LazyLoopsMove(t, b, dir, cc + Groups(a))
    case Quant(b, min, max, greedy) =>
      LazyLoopsMove(t, b, dir, cc) && (!greedy && max == INF ==> AlwaysMoves(t, b, dir, cc))
    case _ => true
  }

  // + over an atom that always moves: the split after the atom jumps back to it.
  lemma {:induction false} BackYields(m: Machine, p: Pattern, dir: Direction, cc: nat, greedy: bool, pc: int, s: Place,
                                      stack: seq<int>)
    requires Inside(m.t, s) && Aligned(m.t, s.at) && AlwaysMoves(m.t, p, dir, cc) && Implements(m, p, dir, cc, pc)
    requires CodeAt(m.code, pc + Length(Gen(p, dir, cc)), [SplitCode(!greedy, -(Length(Gen(p, dir, cc)) + 5))])
    ensures var split := pc + Length(Gen(p, dir, cc));
      YieldsEverywhere(m, split, s, stack, split + 5, stack, Repeat(Code, m.t, p, dir, cc, 0, INF, greedy, s))
    decreases Distance(m.t, dir, s)
  {
    hide Ends, Gen, Repeat, More, Yields, Aligned, Inside, RoundEnds, CodeAt, Length, AlwaysMoves, Implements;
    InsideAt(m.t, s);
    var l: int := Length(Gen(p, dir, cc));
    var split := pc + l;
    var ends := RoundEnds(m.t, p, dir, cc, 0, INF, greedy, s);
    forall k | 0 <= k < |ends|
      ensures YieldsEverywhere(m, split, ends[k], stack, split
        + 5, stack, Repeat(Code, m.t, p, dir, cc, 0, INF, greedy, ends[k]))
    {
      assert Ahead(m.t, dir, s, ends[k]);
      NearerThan(m.t, dir, s, ends[k]);
      BackYields(m, p, dir, cc, greedy, pc, ends[k], stack);
    }
    var more := More(m.t, p, dir, cc, 0, INF, greedy, s);
    forall base ensures Yields(m, Run(pc, s, stack, base), split + 5, stack, base, more) {
      ImplementsHere(m, p, dir, cc, pc, s, stack);
      RoundsMove(m, p, dir, cc, greedy, s);
      RoundThenRest(m, p, dir, cc, 0, INF, greedy, s, Run(pc, s, stack, base), split, stack, split + 5, stack, base);
    }
    YieldsHere(m, split + 5, s, stack);
    forall base
      ensures Yields(m, Run(split, s, stack, base), split
        + 5, stack, base, Repeat(Code, m.t, p, dir, cc, 0, INF, greedy, s))
    {
      SplitYields(m, split, !greedy, -(l + 5), s, stack, base, split + 5, stack, [s], more);
      RepeatIsMore(m.t, p, dir, cc, 0, INF, greedy, s);
    }
  }

  lemma {:induction false} RoundsMove(m: Machine, p: Pattern, dir: Direction, cc: nat, greedy: bool, s: Place)
    requires Inside(m.t, s) && AlwaysMoves(m.t, p, dir, cc)
    ensures RoundEnds(m.t, p, dir, cc, 0, INF, greedy, s) == Ends(Code, m.t, p, dir, cc, s)
  {
    hide Ends, AlwaysMoves;
    KeptFits(m, p, dir, cc, false, true, s);
  }

  lemma {:induction false} PlusYields(m: Machine, p: Pattern, dir: Direction, cc: nat, greedy: bool, pc: int, s: Place,
                                      stack: seq<int>)
    requires Inside(m.t, s) && Aligned(m.t, s.at) && AlwaysMoves(m.t, p, dir, cc) && Implements(m, p, dir, cc, pc)
    requires CodeAt(m.code, pc, Gen(p, dir, cc) + [SplitCode(!greedy, -(Length(Gen(p, dir, cc)) + 5))])
    ensures YieldsEverywhere(m, pc, s, stack, pc
      + Length(Gen(p, dir, cc) + [SplitCode(!greedy, -(Length(Gen(p, dir, cc)) + 5))]), stack,
                             Repeat(Code, m.t, p, dir, cc, 1, INF, greedy, s))
  {
    hide Ends, Gen, Repeat, YieldsEverywhere, Aligned, Inside, CodeAt, Length, Bytes, AlwaysMoves, Implements;
    var split := SplitCode(!greedy, -(Length(Gen(p, dir, cc)) + 5));
    CodeAtAppend(m.code, pc, Gen(p, dir, cc), [split]);
    BytesOne(split);
    forall q | Inside(m.t, q) && Aligned(m.t, q.at)
      ensures YieldsEverywhere(m, pc + Length(Gen(p, dir, cc)), q, stack, pc + Length(Gen(p, dir, cc))
        + 5, stack, Repeat(Code, m.t, p, dir, cc, 0, INF, greedy, q))
    {
      BackYields(m, p, dir, cc, greedy, pc, q, stack);
    }
    MandatoryYields(m, p, dir, cc, 1, INF, greedy, pc, s, stack, pc + Length(Gen(p, dir, cc)) + 5, stack);
  }

  // Wherever the code of p is written, it yields the ends of p.
  ghost predicate Sound(m: Machine, p: Pattern, dir: Direction, cc: nat) {
    forall pc :: CodeAt(m.code, pc, Gen(p, dir, cc)) ==> Implements(m, p, dir, cc, pc)
  }

  lemma {:induction false} RoundAtom(m: Machine, p: Pattern, dir: Direction, cc: nat, check: bool, pc: int)
    requires Sound(m, p, dir, cc) && CodeAt(m.code, pc, RoundCode(Gen(p, dir, cc), check))
    ensures Implements(m, p, dir, cc, if check then pc + 1 else pc)
  {
    hide CodeAt, Gen, Implements, Length, Bytes;
    if check {
      CodeAtAppend(m.code, pc, [PushCharPos] + Gen(p, dir, cc), [CheckAdvance]);
      CodeAtAppend(m.code, pc, [PushCharPos], Gen(p, dir, cc));
      BytesOne(PushCharPos);
    }
  }

  lemma {:induction false} TailCodeYields(m: Machine, p: Pattern, dir: Direction, cc: nat, check: bool, max: nat,
                                          greedy: bool,
                                          pc: int, s: Place, stack: seq<int>)
    requires Inside(m.t, s) && Aligned(m.t, s.at) && max <= INF && Sound(m, p, dir, cc)
    requires max > 0 ==> CheckFits(m, p, dir, cc, check, max, greedy)
    requires CodeAt(m.code, pc, TailCode(Gen(p, dir, cc), check, max, greedy))
    ensures YieldsEverywhere(m, pc, s, stack, pc + Length(TailCode(Gen(p, dir, cc), check, max, greedy)), stack,
                             Repeat(Code, m.t, p, dir, cc, 0, max, greedy, s))
  {
    hide CodeAt, Gen, Implements, Sound, CheckFits, YieldsEverywhere, Inside, Aligned, RoundCode, RoundLength, StarCode;
    hide CountedCode, Bytes, Length, Repeat;
    var atom := Gen(p, dir, cc);
    if max == 0 {
      YieldsHere(m, pc, s, stack);
      NoMore(m.t, p, dir, cc, greedy, s);
      NoCode();
    } else if max == INF {
      StarParts(m, pc, atom, check, greedy);
      RoundAtom(m, p, dir, cc, check, pc + 5);
      StarYields(m, p, dir, cc, check, greedy, pc, s, stack);
    } else {
      CountedHead(m, pc, atom, check, greedy, max);
      CountedParts(m, pc + 5, atom, check, greedy);
      RoundAtom(m, p, dir, cc, check, pc + 10);
      CountedYields(m, p, dir, cc, check, greedy, max, pc, s, stack);
    }
  }

  lemma {:induction false} CountedHead(m: Machine, pc: int, atom: seq<Instr>, check: bool, greedy: bool, n: nat)
    requires CodeAt(m.code, pc, CountedCode(atom, check, greedy, n))
    ensures CodeAt(m.code, pc + 5, CountedLoop(atom, check, greedy))
  {
    hide CodeAt, CountedLoop, Length, Bytes;
    CodeAtAppend(m.code, pc, [PushI32(n)], CountedLoop(atom, check, greedy));
    BytesOne(PushI32(n));
  }

  lemma {:induction false} OptionalPart(m: Machine, p: Pattern, dir: Direction, cc: nat, check: bool, greedy: bool,
                                        pc: int, s: Place, stack: seq<int>)
    requires Inside(m.t, s) && Aligned(m.t, s.at) && Sound(m, p, dir, cc) && CheckFits(m, p, dir, cc, check, 1, greedy)
    requires CodeAt(m.code, pc, OptionalCode(Gen(p, dir, cc), check, greedy))
    ensures YieldsEverywhere(m, pc, s, stack, pc + Length(OptionalCode(Gen(p, dir, cc), check, greedy)), stack,
                             Repeat(Code, m.t, p, dir, cc, 0, 1, greedy, s))
  {
    hide CodeAt, Gen, Implements, Sound, CheckFits, YieldsEverywhere, Inside, Aligned, RoundCode, RoundLength, Length;
    hide Bytes, Repeat;
    var split := SplitCode(greedy, RoundLength(Gen(p, dir, cc), check));
    CodeAtAppend(m.code, pc, [split], RoundCode(Gen(p, dir, cc), check));
    BytesOne(split);
    RoundAtom(m, p, dir, cc, check, pc + 5);
    OptionalYields(m, p, dir, cc, check, greedy, pc, s, stack);
  }

  // The check is left out only where it could not fail.
  lemma {:induction false} CheckChoiceFits(m: Machine, p: Pattern, dir: Direction, cc: nat, max: nat, greedy: bool)
    requires Emittable(p, cc) && (!greedy && max == INF ==> AlwaysMoves(m.t, p, dir, cc))
    ensures CheckFits(m, p, dir, cc, greedy && NeedCheckAdvance(Gen(p, dir, cc)), max, greedy)
    ensures (greedy ==> !NeedCheckAdvance(Gen(p, dir, cc))) && (greedy || max == INF) ==> AlwaysMoves(m.t, p, dir, cc)
  {
    hide Moves, Gen, NeedCheckAdvance, Inside;
    if !NeedCheckAdvance(Gen(p, dir, cc)) {
      forall q | Inside(m.t, q) ensures Moves(m.t, p, dir, cc, q) { CheckAdvanceSound(m.t, p, dir, cc, q); }
    }
  }

  function Reset(s: Place, cc: nat, n: nat): Place { if n == 0 then s else Forget(s, cc, n) }

  lemma {:induction false} ResetYields(m: Machine, cc: nat, n: nat, pc: int, s: Place, stack: seq<int>, e: int,
                                       ends: seq<Place>)
    requires s.at <= |m.t.units| && CodeAt(m.code, pc, ResetCode(cc, n))
    requires YieldsEverywhere(m, pc + Length(ResetCode(cc, n)), Reset(s, cc, n), stack, e, stack, ends)
    ensures YieldsEverywhere(m, pc, s, stack, e, stack, ends)
  {
    hide CodeAt, YieldsEverywhere, Bytes;
    if n > 0 {
      BytesOne(SaveReset(cc, cc + n - 1));
      StepEverywhere(m, pc, SaveReset(cc, cc + n - 1), s, stack, pc + 3, Forget(s, cc, n), stack, e, stack, ends);
    }
  }

  lemma {:induction false} ResetInside(t: Text, s: Place, cc: nat, n: nat)
    requires Inside(t, s)
    ensures Inside(t, Reset(s, cc, n)) && Reset(s, cc, n).at == s.at
  {
  }

  // A simple atom opens no group.
  lemma {:induction false} SimpleNoGroups(p: Pattern, dir: Direction, cc: nat)
    requires Emittable(p, cc) && SimpleLength(Gen(p, dir, cc)) >= 0
    ensures Groups(p) == 0
  {
    if p.Cat? {
      CatCode(p, dir, cc);
      var a, b := FirstHalf(p, dir, cc), SecondHalf(p, dir, cc);
      SimpleAppend(Gen(a.p, dir, a.cc), Gen(b.p, dir, b.cc));
      SimpleNoGroups(a.p, dir, a.cc);
      SimpleNoGroups(b.p, dir, b.cc);
    } else if p.Quant? {
      QuantSimple(Gen(p.body, dir, cc), cc, Groups(p.body), p.min, p.max, p.greedy);
      if p.max == 1 { SimpleNoGroups(p.body, dir, cc); }
    } else if p.Group? || p.Look? || p.Alt? {
      NotSimple(p, dir, cc);
    }
  }

  lemma {:induction false} QuantEnds(t: Text, p: Pattern, dir: Direction, cc: nat, s: Place)
    requires Inside(t, s) && p.Quant?
    ensures Inside(t, Reset(s, cc, Groups(p.body)))
    ensures Ends(Code, t, p, dir, cc, s)
         == Repeat(Code, t, p.body, dir, cc, p.min, p.max, p.greedy, if p.min == 0 then Reset(s, cc, Groups(p.body))
            else s)
  {
    hide Repeat, Ahead, EndsFrom;
    ResetInside(t, s, cc, Groups(p.body));
  }

  lemma {:induction false} QuantYields(m: Machine, p: Pattern, dir: Direction, cc: nat, pc: int, s: Place,
                                       stack: seq<int>)
    requires Inside(m.t, s) && Aligned(m.t, s.at) && p.Quant? && Emittable(p, cc) && Sound(m, p.body, dir, cc)
    requires !p.greedy && p.max == INF ==> AlwaysMoves(m.t, p.body, dir, cc)
    requires CodeAt(m.code, pc, QuantCode(Gen(p.body, dir, cc), cc, Groups(p.body), p.min, p.max, p.greedy))
    ensures YieldsEverywhere(m, pc, s, stack, pc
      + Length(QuantCode(Gen(p.body, dir, cc), cc, Groups(p.body), p.min, p.max, p.greedy)), stack,
                             Ends(Code, m.t, p, dir, cc, s))
  {
    hide CodeAt, Gen, Ends, Sound, YieldsEverywhere, Inside, Aligned, SimpleLength, AlwaysMoves, Length, Bytes, Repeat;
    hide NeedCheckAdvance;
    hide SimpleCode, OptionalCode, TailCode, ExactCode, ResetCode, CheckFits;
    var b, n := p.body, Groups(p.body);
    var atom := Gen(b, dir, cc);
    var check := p.greedy && NeedCheckAdvance(atom);
    QuantEnds(m.t, p, dir, cc, s);
    if p.greedy && p.max > 0 && SimpleLength(atom) > 0 {
      SimpleNoGroups(b, dir, cc);
      SimpleYields(m, b, dir, cc, p.min, p.max, pc, s, stack);
    } else if p.min == 0 {
      QuantFromZero(m, p, dir, cc, check, pc, s, stack);
    } else {
      CheckChoiceFits(m, b, dir, cc, p.max, p.greedy);
      QuantFromSome(m, p, dir, cc, check, pc, s, stack);
    }
  }

  lemma {:induction false} QuantFromZero(m: Machine, p: Pattern, dir: Direction, cc: nat, check: bool, pc: int,
                                         s: Place, stack: seq<int>)
    requires Inside(m.t, s) && Aligned(m.t, s.at) && p.Quant? && Emittable(p, cc) && Sound(m, p.body, dir, cc)
    requires p.min == 0
    requires !p.greedy && p.max == INF ==> AlwaysMoves(m.t, p.body, dir, cc)
    requires check == (p.greedy && NeedCheckAdvance(Gen(p.body, dir, cc)))
    requires CodeAt(m.code, pc, ResetCode(cc, Groups(p.body)) +
               (if p.max == 1 then OptionalCode(Gen(p.body, dir, cc), check, p.greedy)
                   else TailCode(Gen(p.body, dir, cc), check, p.max, p.greedy)))
    ensures YieldsEverywhere(m, pc, s, stack, pc + Length(ResetCode(cc, Groups(p.body)) +
               (if p.max == 1 then OptionalCode(Gen(p.body, dir, cc), check, p.greedy)
                   else TailCode(Gen(p.body, dir, cc), check, p.max, p.greedy))),
               stack, Repeat(Code, m.t, p.body, dir, cc, 0, p.max, p.greedy, Reset(s, cc, Groups(p.body))))
  {
    hide CodeAt, Gen, Sound, YieldsEverywhere, Inside, Aligned, AlwaysMoves, Length, Bytes, Repeat, NeedCheckAdvance;
    hide OptionalCode, TailCode, ResetCode, CheckFits, Reset;
    InsideAt(m.t, s);
    var b, n := p.body, Groups(p.body);
    var atom := Gen(b, dir, cc);
    var tail := if p.max == 1 then OptionalCode(atom, check, p.greedy) else TailCode(atom, check, p.max, p.greedy);
    var q, pc2 := Reset(s, cc, n), pc + Length(ResetCode(cc, n));
    CodeAtAppend(m.code, pc, ResetCode(cc, n), tail);
    ResetInside(m.t, s, cc, n);
    CheckChoiceFits(m, b, dir, cc, p.max, p.greedy);
    if p.max == 1 {
      OptionalPart(m, b, dir, cc, check, p.greedy, pc2, q, stack);
    } else {
      TailCodeYields(m, b, dir, cc, check, p.max, p.greedy, pc2, q, stack);
    }
    ResetYields(m, cc, n, pc, s, stack, pc2 + Length(tail), Repeat(Code, m.t, b, dir, cc, 0, p.max, p.greedy, q));
  }

  lemma {:induction false} QuantFromSome(m: Machine, p: Pattern, dir: Direction, cc: nat, check: bool, pc: int,
                                         s: Place, stack: seq<int>)
    requires Inside(m.t, s) && Aligned(m.t, s.at) && p.Quant? && Emittable(p, cc) && Sound(m, p.body, dir, cc)
    requires p.min > 0
    requires CheckFits(m, p.body, dir, cc, check, p.max, p.greedy)
    requires !check && (p.greedy || p.max == INF) ==> AlwaysMoves(m.t, p.body, dir, cc)
    requires CodeAt(m.code, pc, if p.min == 1 && p.max == INF && !check
               then Gen(p.body, dir, cc) + [SplitCode(!p.greedy, -(Length(Gen(p.body, dir, cc)) + 5))]
               else
                 ExactCode(Gen(p.body, dir, cc), p.min)
                 + TailCode(Gen(p.body, dir, cc), check, Rest(p.min, p.max), p.greedy))
    ensures YieldsEverywhere(m, pc, s, stack, pc + Length(if p.min == 1 && p.max == INF && !check
               then Gen(p.body, dir, cc) + [SplitCode(!p.greedy, -(Length(Gen(p.body, dir, cc)) + 5))]
               else
                 ExactCode(Gen(p.body, dir, cc), p.min)
                 + TailCode(Gen(p.body, dir, cc), check, Rest(p.min, p.max), p.greedy)),
               stack, Repeat(Code, m.t, p.body, dir, cc, p.min, p.max, p.greedy, s))
  {
    hide CodeAt, Gen, YieldsEverywhere, Inside, Aligned, AlwaysMoves, Length, Bytes, Repeat, ExactLoop, TailCode;
    hide Implements;
    var b := p.body;
    var atom := Gen(b, dir, cc);
    if p.min == 1 && p.max == INF && !check {
      CodeAtAppend(m.code, pc, atom, [SplitCode(!p.greedy, -(Length(atom) + 5))]);
      PlusYields(m, b, dir, cc, p.greedy, pc, s, stack);
    } else {
      var first, rest := ExactCode(atom, p.min), Rest(p.min, p.max);
      var tail := TailCode(atom, check, rest, p.greedy);
      CodeAtAppend(m.code, pc, first, tail);
      var mid := pc + Length(first);
      var e := mid + Length(tail);
      ExactAtom(m, b, dir, cc, p.min, pc);
      forall q, over | Inside(m.t, q) && Aligned(m.t, q.at)
        ensures YieldsEverywhere(m, mid, q, over, e, over, Repeat(Code, m.t, b, dir, cc, 0, rest, p.greedy, q))
      {
        TailCodeYields(m, b, dir, cc, check, rest, p.greedy, mid, q, over);
      }
      ExactYields(m, b, dir, cc, p.min, rest, p.greedy, pc, s, stack, e);
    }
  }

  lemma {:induction false} ExactAtom(m: Machine, p: Pattern, dir: Direction, cc: nat, min: nat, pc: int)
    requires Sound(m, p, dir, cc) && CodeAt(m.code, pc, ExactCode(Gen(p, dir, cc), min))
    ensures Implements(m, p, dir, cc, if min == 1 then pc else pc + 5)
  {
    hide CodeAt, Gen, Implements, Length, Bytes, ExactLoop;
    if min != 1 {
      CodeAtAppend(m.code, pc, [PushI32(min)], ExactLoop(Gen(p, dir, cc)));
      BytesOne(PushI32(min));
      ExactParts(m, pc + 5, Gen(p, dir, cc));
    }
  }

  // One character forward, and one character back by PREV, the test, PREV.
  lemma {:induction false} CharYields(m: Machine, p: Pattern, pc: int, s: Place, stack: seq<int>)
    requires OneChar(p) && Emittable(p, 0) && Inside(m.t, s) && CodeAt(m.code, pc, [CharCode(p)])
    ensures YieldsEverywhere(m, pc, s, stack, pc + Size(CharCode(p)), stack, OneEnd(m.t, p, Forward, s))
  {
    hide CodeAt, Fetch, Yields, CharCode, CharHit, Accepts, Fail;
    var i, e := CharCode(p), pc + Size(CharCode(p));
    if s.at < |m.t.units| { CharCodeHits(m.t, p, Char(m.t, s.at, |m.t.units|)); }
    forall base ensures Yields(m, Run(pc, s, stack, base), e, stack, base, OneEnd(m.t, p, Forward, s)) {
      if OneEnd(m.t, p, Forward, s) == [] {
        YieldsNone(m, Fail(m, base), e, stack, base);
        StepYields(m, pc, i, s, stack, base, Fail(m, base), e, stack, []);
      } else {
        var q := OneEnd(m.t, p, Forward, s)[0];
        YieldsHere(m, e, q, stack);
        StepYields(m, pc, i, s, stack, base, Run(e, q, stack, base), e, stack, [q]);
      }
    }
  }

  lemma {:induction false} PrevYields(m: Machine, pc: int, s: Place, stack: seq<int>, e: int, ends: seq<Place>)
    requires s.at <= |m.t.units| && CodeAt(m.code, pc, [Prev])
    requires s.at == 0 ==> ends == []
    requires s.at > 0 ==> YieldsEverywhere(m, pc + 1, s.(at := Before(m.t, s.at, 0)), stack, e, stack, ends)
    ensures YieldsEverywhere(m, pc, s, stack, e, stack, ends)
  {
    hide CodeAt, Yields, Fail;
    forall base ensures Yields(m, Run(pc, s, stack, base), e, stack, base, ends) {
      if s.at == 0 {
        YieldsNone(m, Fail(m, base), e, stack, base);
        StepYields(m, pc, Prev, s, stack, base, Fail(m, base), e, stack, []);
      } else {
        StepYields(m, pc, Prev, s, stack, base, Run(pc + 1, s.(at := Before(m.t, s.at, 0)), stack, base), e, stack,
                   ends);
      }
    }
  }

  lemma {:induction false} BindOne(m: Machine, pc: int, s: Place, stack: seq<int>, mid: int, e: int, starts: seq<Place>,
                                   ends: seq<Place>)
    requires |starts| <= 1 && YieldsEverywhere(m, pc, s, stack, mid, stack, starts)
    requires starts == [] ==> ends == []
    requires starts != [] ==> YieldsEverywhere(m, mid, starts[0], stack, e, stack, ends)
    ensures YieldsEverywhere(m, pc, s, stack, e, stack, ends)
  {
    hide Yields;
    forall base ensures Yields(m, Run(pc, s, stack, base), e, stack, base, ends) {
      var lists := if starts == [] then [] else [ends];
      YieldsBind(m, Run(pc, s, stack, base), mid, stack, e, stack, base, starts, lists);
      assert Flatten(lists) == ends by { if starts != [] { assert lists[1..] == [] && Flatten(lists[1..]) == []; } }
    }
  }

  // Backward, the character tested is the one PREV moved over, and PREV undoes the test.
  lemma {:induction false} BackOne(t: Text, p: Pattern, s: Place)
    requires OneChar(p) && Inside(t, s)
    ensures s.at == 0 ==> OneEnd(t, p, Backward, s) == []
    ensures s.at > 0 ==>
      var q := s.(at := Before(t, s.at, 0));
      var starts := OneEnd(t, p, Forward, q);
      Inside(t, q) && |starts| <= 1 && OneEnd(t, p, Backward, s) == (if starts == [] then [] else [q])
      && (starts != [] ==> 0 < starts[0].at <= |t.units| && starts[0].(at := Before(t, starts[0].at, 0)) == q)
  {
    hide Accepts;
    if s.at > 0 { BeforeAfter(t, s.at); }
  }

  lemma {:induction false} CharBackYields(m: Machine, p: Pattern, pc: int, s: Place, stack: seq<int>)
    requires OneChar(p) && Emittable(p, 0) && Inside(m.t, s) && CodeAt(m.code, pc, [Prev] + [CharCode(p)] + [Prev])
    ensures YieldsEverywhere(m, pc, s, stack, pc
      + Length([Prev] + [CharCode(p)] + [Prev]), stack, OneEnd(m.t, p, Backward, s))
  {
    hide CodeAt, YieldsEverywhere, CharCode, Length, Bytes, OneEnd;
    var i, ends := CharCode(p), OneEnd(m.t, p, Backward, s);
    var mid := pc + 1 + Size(i);
    CodeAtAppend(m.code, pc, [Prev] + [i], [Prev]);
    CodeAtAppend(m.code, pc, [Prev], [i]);
    BytesOne(Prev);
    BytesOne(i);
    BackOne(m.t, p, s);
    if s.at > 0 {
      var q := s.(at := Before(m.t, s.at, 0));
      var starts := OneEnd(m.t, p, Forward, q);
      CharYields(m, p, pc + 1, q, stack);
      if starts != [] {
        YieldsHere(m, mid + 1, q, stack);
        PrevYields(m, mid, starts[0], stack, mid + 1, [q]);
      }
      BindOne(m, pc + 1, q, stack, mid, mid + 1, starts, ends);
    }
    PrevYields(m, pc, s, stack, mid + 1, ends);
  }

  lemma {:induction false} TestYields(m: Machine, e: Edge, pc: int, s: Place, stack: seq<int>)
    requires Inside(m.t, s) && CodeAt(m.code, pc, [TestCode(e)])
    ensures YieldsEverywhere(m, pc, s, stack, pc + 1, stack, if AtEdge(m.t, e, s.at) then [s] else [])
  {
    hide CodeAt, Fetch, Yields, AtEdge, Fail;
    var i, ends := TestCode(e), if AtEdge(m.t, e, s.at) then [s] else [];
    forall base ensures Yields(m, Run(pc, s, stack, base), pc + 1, stack, base, ends) {
      if AtEdge(m.t, e, s.at) {
        YieldsHere(m, pc + 1, s, stack);
        StepYields(m, pc, i, s, stack, base, Run(pc + 1, s, stack, base), pc + 1, stack, ends);
      } else {
        YieldsNone(m, Fail(m, base), pc + 1, stack, base);
        StepYields(m, pc, i, s, stack, base, Fail(m, base), pc + 1, stack, ends);
      }
    }
  }

  lemma {:induction false} ReferenceYields(m: Machine, dir: Direction, k: nat, pc: int, s: Place, stack: seq<int>)
    requires Inside(m.t, s) && CodeAt(m.code, pc, [if dir.Forward? then BackReference(k) else BackwardBackReference(k)])
    ensures YieldsEverywhere(m, pc, s, stack, pc + 2, stack,
                             var q := Referenced(m.t, dir, k, s); if q.None? then [] else [q.value])
  {
    hide CodeAt, Fetch, Yields, Referenced, Fail;
    var i := if dir.Forward? then BackReference(k) else BackwardBackReference(k);
    var q := Referenced(m.t, dir, k, s);
    forall base ensures Yields(m, Run(pc, s, stack, base), pc + 2, stack, base, if q.None? then [] else [q.value]) {
      if q.None? {
        YieldsNone(m, Fail(m, base), pc + 2, stack, base);
        StepYields(m, pc, i, s, stack, base, Fail(m, base), pc + 2, stack, []);
      } else {
        YieldsHere(m, pc + 2, q.value, stack);
        StepYields(m, pc, i, s, stack, base, Run(pc + 2, q.value, stack, base), pc + 2, stack, [q.value]);
      }
    }
  }

  function Singles(ends: seq<Place>): (r: seq<seq<Place>>)
    ensures |r| == |ends|
  {
    seq(|ends|, k requires 0 <= k < |ends| => [ends[k]])
  }

  lemma {:induction false} FlattenSingles(ends: seq<Place>)
    ensures Flatten(Singles(ends)) == ends
  {
    if ends != [] {
      FlattenSingles(ends[1..]);
      assert Singles(ends)[1..] == Singles(ends[1..]);
    }
  }

  // Each place goes on to one image.
  lemma {:induction false} MapYields(m: Machine, pc: int, s: Place, stack: seq<int>, mid: int, e: int, ends: seq<Place>,
                                     images: seq<Place>)
    requires YieldsEverywhere(m, pc, s, stack, mid, stack, ends) && |images| == |ends|
    requires forall k :: 0 <= k < |ends| ==> YieldsEverywhere(m, mid, ends[k], stack, e, stack, [images[k]])
    ensures YieldsEverywhere(m, pc, s, stack, e, stack, images)
  {
    hide Yields;
    forall base ensures Yields(m, Run(pc, s, stack, base), e, stack, base, images) {
      forall k, over | 0 <= k < |ends|
        ensures Yields(m, Run(mid, ends[k], stack, over), e, stack, over, Singles(images)[k])
      {
        assert YieldsEverywhere(m, mid, ends[k], stack, e, stack, [images[k]]);
      }
      YieldsBind(m, Run(pc, s, stack, base), mid, stack, e, stack, base, ends, Singles(images));
      FlattenSingles(images);
    }
  }

  lemma {:induction false} SaveYields(m: Machine, slot: nat, pc: int, s: Place, stack: seq<int>, e: int,
                                      ends: seq<Place>)
    requires s.at <= |m.t.units| && CodeAt(m.code, pc, [SaveCode(slot)])
    requires YieldsEverywhere(m, pc + 2, Mark(s, slot), stack, e, stack, ends)
    ensures YieldsEverywhere(m, pc, s, stack, e, stack, ends)
  {
    hide CodeAt, YieldsEverywhere;
    StepEverywhere(m, pc, SaveCode(slot), s, stack, pc + 2, Mark(s, slot), stack, e, stack, ends);
  }

  lemma {:induction false} MarkInside(t: Text, s: Place, slot: nat)
    requires Inside(t, s)
    ensures Inside(t, Mark(s, slot)) && Mark(s, slot).at == s.at
  {
  }

  lemma {:induction false} GroupYields(m: Machine, p: Pattern, dir: Direction, cc: nat, pc: int, s: Place,
                                       stack: seq<int>)
    requires Inside(m.t, s) && Aligned(m.t, s.at) && p.Group? && Sound(m, p.body, dir, cc + 1)
    requires CodeAt(m.code, pc, [SaveCode(OpenSlot(dir, cc))] + Gen(p.body, dir, cc + 1)
      + [SaveCode(CloseSlot(dir, cc))])
    ensures YieldsEverywhere(m, pc, s, stack,
                             pc + Length([SaveCode(OpenSlot(dir, cc))] + Gen(p.body, dir, cc + 1)
                                 + [SaveCode(CloseSlot(dir, cc))]), stack,
                             MarkAll(Ends(Code, m.t, p.body, dir, cc + 1, Mark(s, OpenSlot(dir, cc))),
                                     CloseSlot(dir, cc)))
  {
    hide CodeAt, YieldsEverywhere, Gen, Ends, Length, Bytes, Implements, Inside, Aligned, Mark, SaveCode, OpenSlot;
    hide CloseSlot;
    InsideAt(m.t, s);
    var open, close, inner, q := SaveCode(OpenSlot(dir, cc)), SaveCode(CloseSlot(dir, cc)), Gen(p.body, dir, cc + 1),
                                 Mark(s, OpenSlot(dir, cc));
    var mid := pc + 2 + Length(inner);
    SaveSize(OpenSlot(dir, cc));
    SaveSize(CloseSlot(dir, cc));
    CodeAtAppend(m.code, pc, [open] + inner, [close]);
    CodeAtAppend(m.code, pc, [open], inner);
    MarkInside(m.t, s, OpenSlot(dir, cc));
    ImplementsHere(m, p.body, dir, cc + 1, pc + 2, q, stack);
    var ends := Ends(Code, m.t, p.body, dir, cc + 1, q);
    var images := MarkAll(ends, CloseSlot(dir, cc));
    forall k | 0 <= k < |ends| ensures YieldsEverywhere(m, mid, ends[k], stack, mid + 2, stack, [images[k]]) {
      assert Ahead(m.t, dir, q, ends[k]);
      InsideAt(m.t, ends[k]);
      YieldsHere(m, mid + 2, images[k], stack);
      SaveYields(m, CloseSlot(dir, cc), mid, ends[k], stack, mid + 2, [images[k]]);
    }
    MapYields(m, pc + 2, q, stack, mid, mid + 2, ends, images);
    SaveYields(m, OpenSlot(dir, cc), pc, s, stack, mid + 2, images);
  }

  lemma SaveSize(slot: nat)
    ensures Length([SaveCode(slot)]) == 2
  {
    BytesOne(SaveCode(slot));
  }

  // Lookaround.

  lemma {:induction false} SucceedPops(m: Machine, here: Place, states: seq<Saved>, extra: seq<Saved>)
    requires Harmless(extra)
    ensures Succeed(m, here, states + extra) == Succeed(m, here, states)
    decreases |extra|
  {
    if extra == [] {
      assert states + extra == states;
    } else {
      var all := states + extra;
      assert all[..|all| - 1] == states + extra[..|extra| - 1];
      assert all[|all| - 1] == extra[|extra| - 1];
      SucceedPops(m, here, states, extra[..|extra| - 1]);
    }
  }

  // The final match, outside lookaround.
  lemma {:induction false} MatchEnds(m: Machine, e: int, q: Place, extra: seq<Saved>)
    requires q.at <= |m.t.units| && CodeAt(m.code, e, [Match]) && Harmless(extra)
    ensures Reaches(m, Run(e, q, [], extra), Done(Some(q)))
  {
    hide CodeAt, Reaches, Step, Fetch;
    assert [] + extra == extra;
    SucceedPops(m, q, [], extra);
    StepAt(m, e, Match, q, [], extra);
    assert StepInstr(m, Run(e, q, [], extra), Match) == Succeed(m, q, extra);
    assert Succeed(m, q, []) == Done(Some(q));
    ReachesStep(m, Run(e, q, [], extra), Done(Some(q)));
  }

  lemma {:induction false} LookStates(m: Machine, negative: bool, e: int, s: Place, q: Place, stack: seq<int>,
                                      base: seq<Saved>, extra: seq<Saved>)
    requires Harmless(extra)
    ensures var saved := Saved(if negative then NegativeLookaheadKind else LookaheadKind, e, s.at, s.caps, stack, 0);
      Fail(m, base + [saved]) == (if negative then Run(e, s, stack, base) else Fail(m, base))
      && Succeed(m, q, base + [saved] + extra)
         == (if negative then Fail(m, base) else Run(e, s.(caps := q.caps), stack, base))
  {
    var saved := Saved(if negative then NegativeLookaheadKind else LookaheadKind, e, s.at, s.caps, stack, 0);
    var all := base + [saved];
    assert all[..|all| - 1] == base;
    assert Place(s.at, s.caps) == s && Place(s.at, q.caps) == s.(caps := q.caps);
    SucceedPops(m, q, all, extra);
  }

  function LookEnds(negative: bool, s: Place, inner: seq<Place>): seq<Place> {
    if inner == [] then (if negative then [s] else []) else if negative then [] else [s.(caps := inner[0].caps)]
  }

  lemma {:induction false} LookReaches(m: Machine, negative: bool, mid: int, e: int, s: Place, stack: seq<int>,
                                       base: seq<Saved>, u: State, inner: seq<Place>)
    requires forall k :: 0 <= k < |inner| ==> inner[k].at <= |m.t.units|
    requires CodeAt(m.code, mid, [Match])
    requires Yields(m, u, mid, stack, base
      + [Saved(if negative then NegativeLookaheadKind else LookaheadKind, e, s.at, s.caps, stack, 0)], inner)
    ensures Yields(m, u, e, stack, base, LookEnds(negative, s, inner))
  {
    hide CodeAt, Fail, Succeed, Reaches, Fetch;
    var saved := Saved(if negative then NegativeLookaheadKind else LookaheadKind, e, s.at, s.caps, stack, 0);
    var v, extra: seq<Saved> := Fail(m, base + [saved]), [];
    if inner != [] {
      extra :| YieldsNext(m, u, mid, stack, base + [saved], inner, extra);
      v := Succeed(m, inner[0], base + [saved] + extra);
      StepAt(m, mid, Match, inner[0], stack, base + [saved] + extra);
      ReachesStep(m, Run(mid, inner[0], stack, base + [saved] + extra), v);
      ReachesTrans(m, u, Run(mid, inner[0], stack, base + [saved] + extra), v);
    }
    assert Reaches(m, u, v);
    LookStates(m, negative, e, s, if inner == [] then s else inner[0], stack, base, extra);
    if LookEnds(negative, s, inner) != [] {
      YieldsOne(m, u, e, LookEnds(negative, s, inner)[0], stack, base);
    }
  }

  // The lookaround instruction, what lies in it, and the match that ends it.
  lemma {:induction false} LookFrom(m: Machine, negative: bool, pc: int, mid: int, s: Place, stack: seq<int>,
                                    inner: seq<Place>)
    requires s.at <= |m.t.units| && forall k :: 0 <= k < |inner| ==> inner[k].at <= |m.t.units|
    requires CodeAt(m.code, pc, [LookInstr(negative, mid - (pc + 4))]) && CodeAt(m.code, mid, [Match])
    requires YieldsEverywhere(m, pc + 5, s, stack, mid, stack, inner)
    ensures YieldsEverywhere(m, pc, s, stack, mid + 1, stack, LookEnds(negative, s, inner))
  {
    hide CodeAt, Yields, LookEnds;
    forall base ensures Yields(m, Run(pc, s, stack, base), mid + 1, stack, base, LookEnds(negative, s, inner)) {
      var saved := Saved(if negative then NegativeLookaheadKind else LookaheadKind, mid + 1, s.at, s.caps, stack, 0);
      var u := Run(pc + 5, s, stack, base + [saved]);
      LookReaches(m, negative, mid, mid + 1, s, stack, base, u, inner);
      StepYields(m, pc, LookInstr(negative, mid - (pc + 4)), s, stack, base, u, mid
          + 1, stack, LookEnds(negative, s, inner));
    }
  }

  lemma {:induction false} LookYields(m: Machine, negative: bool, p: Pattern, dir: Direction, cc: nat, pc: int,
                                      s: Place, stack: seq<int>)
    requires Inside(m.t, s) && Aligned(m.t, s.at) && Sound(m, p, dir, cc)
    requires CodeAt(m.code, pc, [LookInstr(negative, Length(Gen(p, dir, cc)) + 1)] + Gen(p, dir, cc) + [Match])
    ensures YieldsEverywhere(m, pc, s, stack, pc
      + Length([LookInstr(negative, Length(Gen(p, dir, cc)) + 1)] + Gen(p, dir, cc) + [Match]), stack,
                             LookEnds(negative, s, Ends(Code, m.t, p, dir, cc, s)))
  {
    hide CodeAt, Yields, Gen, Ends, Length, Bytes, Implements, Inside, Aligned, LookEnds;
    InsideAt(m.t, s);
    var atom, inner := Gen(p, dir, cc), Ends(Code, m.t, p, dir, cc, s);
    var i := LookInstr(negative, Length(atom) + 1);
    var mid := pc + 5 + Length(atom);
    CodeAtAppend(m.code, pc, [i] + atom, [Match]);
    CodeAtAppend(m.code, pc, [i], atom);
    BytesOne(i);
    BytesOne(Match);
    ImplementsHere(m, p, dir, cc, pc + 5, s, stack);
    forall k | 0 <= k < |inner| ensures inner[k].at <= |m.t.units| {
      assert Ahead(m.t, dir, s, inner[k]);
      InsideAt(m.t, inner[k]);
    }
    LookFrom(m, negative, pc, mid, s, stack, inner);
  }

  // Sequence and alternation.

  function EndsLists(t: Text, p: Pattern, dir: Direction, cc: nat, starts: seq<Place>): (r: seq<seq<Place>>)
    requires forall k :: 0 <= k < |starts| ==> Inside(t, starts[k])
    ensures |r| == |starts|
  {
    seq(|starts|, k requires 0 <= k < |starts| => Ends(Code, t, p, dir, cc, starts[k]))
  }

  lemma {:induction false} FlattenEnds(t: Text, p: Pattern, dir: Direction, cc: nat, s: Place, starts: seq<Place>)
    requires Inside(t, s) && AllAhead(t, dir, s, starts)
    requires forall k :: 0 <= k < |starts| ==> Inside(t, starts[k])
    ensures Flatten(EndsLists(t, p, dir, cc, starts)) == EndsFrom(Code, t, p, dir, cc, s, starts)
    decreases |starts|
  {
    hide Ends, Ahead;
    if starts != [] {
      assert Ahead(t, dir, s, starts[0]);
      FlattenEnds(t, p, dir, cc, s, starts[1..]);
      assert EndsLists(t, p, dir, cc, starts)[1..] == EndsLists(t, p, dir, cc, starts[1..]);
    }
  }

  lemma {:induction false} CatYields(m: Machine, a: Half, b: Half, dir: Direction, pc: int, s: Place, stack: seq<int>)
    requires Inside(m.t, s) && Aligned(m.t, s.at) && Sound(m, a.p, dir, a.cc) && Sound(m, b.p, dir, b.cc)
    requires CodeAt(m.code, pc, Gen(a.p, dir, a.cc) + Gen(b.p, dir, b.cc))
    ensures YieldsEverywhere(m, pc, s, stack, pc + Length(Gen(a.p, dir, a.cc) + Gen(b.p, dir, b.cc)), stack,
                             EndsFrom(Code, m.t, b.p, dir, b.cc, s, Ends(Code, m.t, a.p, dir, a.cc, s)))
  {
    hide CodeAt, Yields, Gen, Ends, EndsFrom, Length, Bytes, Implements, Inside, Aligned;
    var x, y, starts := Gen(a.p, dir, a.cc), Gen(b.p, dir, b.cc), Ends(Code, m.t, a.p, dir, a.cc, s);
    var mid := pc + Length(x);
    var e := mid + Length(y);
    CodeAtAppend(m.code, pc, x, y);
    ImplementsHere(m, a.p, dir, a.cc, pc, s, stack);
    forall k | 0 <= k < |starts| ensures Inside(m.t, starts[k]) && Aligned(m.t, starts[k].at) {
      assert Ahead(m.t, dir, s, starts[k]);
    }
    var lists := EndsLists(m.t, b.p, dir, b.cc, starts);
    forall k, over | 0 <= k < |starts| ensures Yields(m, Run(mid, starts[k], stack, over), e, stack, over, lists[k]) {
      ImplementsHere(m, b.p, dir, b.cc, mid, starts[k], stack);
    }
    forall base
      ensures Yields(m, Run(pc, s, stack, base), e, stack, base, EndsFrom(Code, m.t, b.p, dir, b.cc, s, starts))
    {
      YieldsBind(m, Run(pc, s, stack, base), mid, stack, e, stack, base, starts, lists);
      FlattenEnds(m.t, b.p, dir, b.cc, s, starts);
    }
  }

  lemma {:induction false} AltYields(m: Machine, a: Half, b: Half, dir: Direction, pc: int, s: Place, stack: seq<int>)
    requires Inside(m.t, s) && Aligned(m.t, s.at) && Sound(m, a.p, dir, a.cc) && Sound(m, b.p, dir, b.cc)
    requires CodeAt(m.code, pc, AltCode(Gen(a.p, dir, a.cc), Gen(b.p, dir, b.cc)))
    ensures YieldsEverywhere(m, pc, s, stack, pc + Length(AltCode(Gen(a.p, dir, a.cc), Gen(b.p, dir, b.cc))), stack,
                             Ends(Code, m.t, a.p, dir, a.cc, s) + Ends(Code, m.t, b.p, dir, b.cc, s))
  {
    hide CodeAt, Yields, Gen, Ends, Length, Bytes, Implements, Inside, Aligned, AltCode;
    InsideAt(m.t, s);
    var x, y := Gen(a.p, dir, a.cc), Gen(b.p, dir, b.cc);
    var ends := Ends(Code, m.t, a.p, dir, a.cc, s);
    var lx: int, ly: int := Length(x), Length(y);
    var mid := pc + 5 + lx;
    var e := mid + 5 + ly;
    AltParts(m, pc, x, y);
    ImplementsHere(m, a.p, dir, a.cc, pc + 5, s, stack);
    ImplementsHere(m, b.p, dir, b.cc, mid + 5, s, stack);
    forall k | 0 <= k < |ends| ensures YieldsEverywhere(m, mid, ends[k], stack, e, stack, [ends[k]]) {
      assert Ahead(m.t, dir, s, ends[k]);
      InsideAt(m.t, ends[k]);
      YieldsHere(m, e, ends[k], stack);
      StepEverywhere(m, mid, Goto(ly), ends[k], stack, e, ends[k], stack, e, stack, [ends[k]]);
    }
    MapYields(m, pc + 5, s, stack, mid, e, ends, ends);
    forall base ensures Yields(m, Run(pc, s, stack, base), e, stack, base, ends + Ends(Code, m.t, b.p, dir, b.cc, s)) {
      SplitYields(m, pc, true, lx + 5, s, stack, base, e, stack, ends, Ends(Code, m.t, b.p, dir, b.cc, s));
    }
  }

  lemma {:induction false} AltParts(m: Machine, pc: int, x: seq<Instr>, y: seq<Instr>)
    requires CodeAt(m.code, pc, AltCode(x, y))
    ensures CodeAt(m.code, pc, [SplitCode(true, Length(x) + 5)]) && CodeAt(m.code, pc + 5, x)
    ensures CodeAt(m.code, pc + 5 + Length(x), [Goto(Length(y))]) && CodeAt(m.code, pc + 10 + Length(x), y)
    ensures Length(AltCode(x, y)) == 10 + Length(x) + Length(y)
  {
    hide CodeAt, Length, Bytes;
    var split, goto := [SplitNextFirst(Length(x) + 5)], [Goto(Length(y))];
    CodeAtAppend(m.code, pc, split + x + goto, y);
    CodeAtAppend(m.code, pc, split + x, goto);
    CodeAtAppend(m.code, pc, split, x);
    BytesOne(SplitNextFirst(Length(x) + 5));
    BytesOne(Goto(Length(y)));
  }

  // Compilation preserves meaning.
  lemma {:induction false} Compiled(m: Machine, p: Pattern, dir: Direction, cc: nat)
    requires Emittable(p, cc) && LazyLoopsMove(m.t, p, dir, cc)
    ensures Sound(m, p, dir, cc)
  {
    hide Sound, Implements;
    match p {
      case Group(b) => Compiled(m, b, dir, cc + 1);
      case Look(_, behind, b) => Compiled(m, b, if behind then Backward else Forward, cc);
      case Cat(a, b) => Compiled(m, a, dir, cc); Compiled(m, b, dir, cc + Groups(a));
      case Alt(a, b) => Compiled(m, a, dir, cc); Compiled(m, b, dir, cc + Groups(a));
      case Quant(b, _, _, _) => Compiled(m, b, dir, cc);
      case _ =>
    }
    CompiledNode(m, p, dir, cc);
  }

  // The parts of p that the code of p relies on.
  ghost predicate PartsSound(m: Machine, p: Pattern, dir: Direction, cc: nat) {
    match p
    case Group(b) => Sound(m, b, dir, cc + 1)
    case Look(_, behind, b) => Sound(m, b, if behind then Backward else Forward, cc)
    case Cat(a, b) => Sound(m, a, dir, cc) && Sound(m, b, dir, cc + Groups(a))
    case Alt(a, b) => Sound(m, a, dir, cc) && Sound(m, b, dir, cc + Groups(a))
    case Quant(b, _, max, greedy) => Sound(m, b, dir, cc) && (!greedy && max == INF ==> AlwaysMoves(m.t, b, dir, cc))
    case _ => true
  }

  lemma {:induction false} CompiledNode(m: Machine, p: Pattern, dir: Direction, cc: nat)
    requires Emittable(p, cc) && PartsSound(m, p, dir, cc)
    ensures Sound(m, p, dir, cc)
  {
    hide CodeAt, Inside, Aligned, PartsSound, Yields, Gen, Ends;
    forall pc | CodeAt(m.code, pc, Gen(p, dir, cc)) ensures Implements(m, p, dir, cc, pc) {
      forall s, stack, base | Inside(m.t, s) && Aligned(m.t, s.at)
        ensures Yields(m, Run(pc, s, stack, base), pc
          + Length(Gen(p, dir, cc)), stack, base, Ends(Code, m.t, p, dir, cc, s))
      {
        NodeYields(m, p, dir, cc, pc, s, stack);
      }
    }
  }

  lemma {:induction false} NodeYields(m: Machine, p: Pattern, dir: Direction, cc: nat, pc: int, s: Place,
                                      stack: seq<int>)
    requires Emittable(p, cc) && PartsSound(m, p, dir, cc) && Inside(m.t, s) && Aligned(m.t, s.at)
    requires CodeAt(m.code, pc, Gen(p, dir, cc))
    ensures YieldsEverywhere(m, pc, s, stack, pc + Length(Gen(p, dir, cc)), stack, Ends(Code, m.t, p, dir, cc, s))
  {
    hide CodeAt, Inside, Aligned, YieldsEverywhere, PartsSound, Emittable, Gen, Ends;
    if p.Group? {
      GroupNode(m, p, dir, cc, pc, s, stack);
    } else if p.Look? {
      LookNode(m, p, dir, cc, pc, s, stack);
    } else if p.Cat? {
      CatNode(m, p, dir, cc, pc, s, stack);
    } else if p.Alt? {
      AltNode(m, p, dir, cc, pc, s, stack);
    } else if p.Quant? {
      QuantNode(m, p, dir, cc, pc, s, stack);
    } else {
      LeafYields(m, p, dir, cc, pc, s, stack);
    }
  }

  lemma {:induction false} GroupNode(m: Machine, p: Pattern, dir: Direction, cc: nat, pc: int, s: Place,
                                     stack: seq<int>)
    requires Emittable(p, cc) && PartsSound(m, p, dir, cc) && Inside(m.t, s) && Aligned(m.t, s.at)
    requires CodeAt(m.code, pc, Gen(p, dir, cc)) && p.Group?
    ensures YieldsEverywhere(m, pc, s, stack, pc + Length(Gen(p, dir, cc)), stack, Ends(Code, m.t, p, dir, cc, s))
  {
    hide CodeAt, Inside, Aligned, YieldsEverywhere, Sound, QuantCode, EndsFrom, Repeat, AltCode, Length, Bytes;
    GroupYields(m, p, dir, cc, pc, s, stack);
  }

  lemma {:induction false} LookNode(m: Machine, p: Pattern, dir: Direction, cc: nat, pc: int, s: Place, stack: seq<int>)
    requires Emittable(p, cc) && PartsSound(m, p, dir, cc) && Inside(m.t, s) && Aligned(m.t, s.at)
    requires CodeAt(m.code, pc, Gen(p, dir, cc)) && p.Look?
    ensures YieldsEverywhere(m, pc, s, stack, pc + Length(Gen(p, dir, cc)), stack, Ends(Code, m.t, p, dir, cc, s))
  {
    hide CodeAt, Inside, Aligned, YieldsEverywhere, Sound, QuantCode, EndsFrom, Repeat, AltCode, Length, Bytes;
    LookYields(m, p.negative, p.body, if p.behind then Backward else Forward, cc, pc, s, stack);
  }

  lemma {:induction false} CatNode(m: Machine, p: Pattern, dir: Direction, cc: nat, pc: int, s: Place, stack: seq<int>)
    requires Emittable(p, cc) && PartsSound(m, p, dir, cc) && Inside(m.t, s) && Aligned(m.t, s.at)
    requires CodeAt(m.code, pc, Gen(p, dir, cc)) && p.Cat?
    ensures YieldsEverywhere(m, pc, s, stack, pc + Length(Gen(p, dir, cc)), stack, Ends(Code, m.t, p, dir, cc, s))
  {
    hide CodeAt, Inside, Aligned, YieldsEverywhere, Sound, QuantCode, EndsFrom, Repeat, AltCode, Length, Bytes;
    CatCode(p, dir, cc);
    CatEnds(Code, m.t, p, dir, cc, s);
    CatYields(m, FirstHalf(p, dir, cc), SecondHalf(p, dir, cc), dir, pc, s, stack);
  }

  lemma {:induction false} AltNode(m: Machine, p: Pattern, dir: Direction, cc: nat, pc: int, s: Place, stack: seq<int>)
    requires Emittable(p, cc) && PartsSound(m, p, dir, cc) && Inside(m.t, s) && Aligned(m.t, s.at)
    requires CodeAt(m.code, pc, Gen(p, dir, cc)) && p.Alt?
    ensures YieldsEverywhere(m, pc, s, stack, pc + Length(Gen(p, dir, cc)), stack, Ends(Code, m.t, p, dir, cc, s))
  {
    hide CodeAt, Inside, Aligned, YieldsEverywhere, Sound, QuantCode, EndsFrom, Repeat, AltCode, Length, Bytes;
    AltYields(m, Half(p.left, cc), Half(p.right, cc + Groups(p.left)), dir, pc, s, stack);
  }

  lemma {:induction false} QuantNode(m: Machine, p: Pattern, dir: Direction, cc: nat, pc: int, s: Place,
                                     stack: seq<int>)
    requires Emittable(p, cc) && PartsSound(m, p, dir, cc) && Inside(m.t, s) && Aligned(m.t, s.at)
    requires CodeAt(m.code, pc, Gen(p, dir, cc)) && p.Quant?
    ensures YieldsEverywhere(m, pc, s, stack, pc + Length(Gen(p, dir, cc)), stack, Ends(Code, m.t, p, dir, cc, s))
  {
    hide CodeAt, Inside, Aligned, YieldsEverywhere, Sound, QuantCode, EndsFrom, Repeat, AltCode, Length, Bytes;
    QuantYields(m, p, dir, cc, pc, s, stack);
  }

  lemma {:induction false} LeafYields(m: Machine, p: Pattern, dir: Direction, cc: nat, pc: int, s: Place,
                                      stack: seq<int>)
    requires p.Empty? || p.Test? || p.Reference? || OneChar(p)
    requires Emittable(p, cc) && Inside(m.t, s) && CodeAt(m.code, pc, Gen(p, dir, cc))
    ensures YieldsEverywhere(m, pc, s, stack, pc + Length(Gen(p, dir, cc)), stack, Ends(Code, m.t, p, dir, cc, s))
  {
    hide CodeAt, YieldsEverywhere, OneEnd, Length, Bytes, Inside, QuantCode, AltCode, Repeat, EndsFrom, Referenced;
    hide AtEdge, CharCode, MarkAll, Groups;
    if p.Empty? {
      YieldsHere(m, pc, s, stack);
      NoCode();
    } else if p.Test? {
      TestYields(m, p.edge, pc, s, stack);
      BytesOne(TestCode(p.edge));
    } else if p.Reference? {
      ReferenceYields(m, dir, p.k, pc, s, stack);
      BytesOne(if dir.Forward? then BackReference(p.k) else BackwardBackReference(p.k));
    } else if dir.Forward? {
      CharYields(m, p, pc, s, stack);
      BytesOne(CharCode(p));
    } else {
      CharBackYields(m, p, pc, s, stack);
    }
  }

  lemma NoCode()
    ensures Length([]) == 0
  {
  }
}
