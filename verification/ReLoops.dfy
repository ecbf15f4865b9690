// The emitted loops do what RepeatMatcher says (libregexp.c:1481-1618 against 2008-2413).
module ReLoops {
  import opened ReText
  import opened ReCode
  import opened RePattern
  import opened ReGen
  import opened ReMachine

  // The code at pc yields the ends of p, whatever lies on the stacks.
  ghost predicate Implements(m: Machine, p: Pattern, dir: Direction, cc: nat, pc: int) {
    forall s, stack, base :: Inside(m.t, s) && Aligned(m.t, s.at) ==>
      Yields(m, Run(pc, s, stack, base), pc + Length(Gen(p, dir, cc)), stack, base, Ends(Code, m.t, p, dir, cc, s))
  }

  lemma InsideAt(t: Text, s: Place)
    requires Inside(t, s)
    ensures s.at <= |t.units|
  {
  }

  // What one step does on an instruction that is known to be there.
  lemma {:induction false} StepAt(m: Machine, pc: int, i: Instr, s: Place, stack: seq<int>, states: seq<Saved>)
    requires CodeAt(m.code, pc, [i]) && s.at <= |m.t.units|
    ensures Step(m, Run(pc, s, stack, states)) == StepInstr(m, Run(pc, s, stack, states), i)
  {
    FetchAt(m.code, pc, i);
  }

  lemma {:induction false} FailSplit(m: Machine, states: seq<Saved>, pc: int, s: Place, stack: seq<int>)
    ensures Fail(m, states + [Saved(SplitKind, pc, s.at, s.caps, stack, 0)]) == Run(pc, s, stack, states)
  {
    var all := states + [Saved(SplitKind, pc, s.at, s.caps, stack, 0)];
    assert all[..|all| - 1] == states;
    assert Place(s.at, s.caps) == s;
  }

  ghost predicate YieldsEverywhere(m: Machine, pc: int, s: Place, stack: seq<int>, e: int, stack2: seq<int>,
                                   ends: seq<Place>) {
    forall base :: Yields(m, Run(pc, s, stack, base), e, stack2, base, ends)
  }

  // A split tries one branch, then the other.
  lemma {:induction false} SplitYields(m: Machine, pc: int, next: bool, off: int, s: Place, stack: seq<int>,
                                       base: seq<Saved>, e: int, stack2: seq<int>,
                    body: seq<Place>, jump: seq<Place>)
    requires s.at <= |m.t.units| && CodeAt(m.code, pc, [SplitCode(next, off)])
    requires YieldsEverywhere(m, pc + 5, s, stack, e, stack2, body)
    requires YieldsEverywhere(m, pc + 5 + off, s, stack, e, stack2, jump)
    ensures Yields(m, Run(pc, s, stack, base), e, stack2, base, if next then body + jump else jump + body)
  {
    hide Yields, Reaches, Fail, CodeAt;
    var i := SplitCode(next, off);
    StepAt(m, pc, i, s, stack, base);
    var first, second := if next then pc + 5 else pc + 5 + off, if next then pc + 5 + off else pc + 5;
    var saved := Saved(SplitKind, second, s.at, s.caps, stack, 0);
    var go := Run(first, s, stack, base + [saved]);
    assert StepInstr(m, Run(pc, s, stack, base), i) == go;
    ReachesStep(m, Run(pc, s, stack, base), go);
    FailSplit(m, base, second, s, stack);
    YieldsAppend(m, go, e, stack2, base, [saved], if next then body else jump, if next then jump else body);
    YieldsAfter(m, Run(pc, s, stack, base), go, e, stack2, base, if next then body + jump else jump + body);
  }

  // One deterministic step, then the rest.
  lemma {:induction false} StepYields(m: Machine, pc: int, i: Instr, s: Place, stack: seq<int>, base: seq<Saved>,
                                      u: State, e: int, stack2: seq<int>, ends: seq<Place>)
    requires s.at <= |m.t.units| && CodeAt(m.code, pc, [i])
    requires StepInstr(m, Run(pc, s, stack, base), i) == u && Yields(m, u, e, stack2, base, ends)
    ensures Yields(m, Run(pc, s, stack, base), e, stack2, base, ends)
  {
    hide Yields, Reaches, StepInstr, CodeAt;
    StepAt(m, pc, i, s, stack, base);
    ReachesStep(m, Run(pc, s, stack, base), u);
    YieldsAfter(m, Run(pc, s, stack, base), u, e, stack2, base, ends);
  }

  lemma {:induction false} YieldsHere(m: Machine, pc: int, s: Place, stack: seq<int>)
    ensures YieldsEverywhere(m, pc, s, stack, pc, stack, [s])
  {
    hide Yields, Reaches;
    forall base ensures Yields(m, Run(pc, s, stack, base), pc, stack, base, [s]) {
      ReachesSelf(m, Run(pc, s, stack, base));
      YieldsOne(m, Run(pc, s, stack, base), pc, s, stack, base);
    }
  }

  // One round of a loop.

  function KeptLists(s: Place, ends: seq<Place>): (r: seq<seq<Place>>)
    ensures |r| == |ends|
  {
    seq(|ends|, k requires 0 <= k < |ends| => if ends[k].at == s.at then [] else [ends[k]])
  }

  lemma {:induction false} FlattenKept(s: Place, ends: seq<Place>)
    ensures Flatten(KeptLists(s, ends)) == Moved(s, ends)
  {
    if ends != [] {
      FlattenKept(s, ends[1..]);
      assert KeptLists(s, ends)[1..] == KeptLists(s, ends[1..]);
    }
  }

  lemma {:induction false} CheckYields(m: Machine, pc: int, s: Place, q: Place, stack: seq<int>, over: seq<Saved>)
    requires CodeAt(m.code, pc, [CheckAdvance]) && q.at <= |m.t.units|
    ensures Yields(m, Run(pc, q, stack + [s.at], over), pc + 1, stack, over, if q.at == s.at then [] else [q])
  {
    hide CodeAt, Fail, Fetch, Reaches;
    var full := stack + [s.at];
    assert full[..|full| - 1] == stack;
    StepAt(m, pc, CheckAdvance, q, full, over);
    if q.at == s.at {
      ReachesStep(m, Run(pc, q, full, over), Fail(m, over));
    } else {
      ReachesStep(m, Run(pc, q, full, over), Run(pc + 1, q, stack, over));
      YieldsOne(m, Run(pc, q, full, over), pc + 1, q, stack, over);
    }
  }

  lemma {:induction false} CheckedYields(m: Machine, pc: int, mid: int, s: Place, stack: seq<int>, base: seq<Saved>,
                                         ends: seq<Place>)
    requires s.at <= |m.t.units| && forall k :: 0 <= k < |ends| ==> ends[k].at <= |m.t.units|
    requires CodeAt(m.code, pc, [PushCharPos]) && CodeAt(m.code, mid, [CheckAdvance])
    requires YieldsEverywhere(m, pc + 1, s, stack + [s.at], mid, stack + [s.at], ends)
    ensures Yields(m, Run(pc, s, stack, base), mid + 1, stack, base, Moved(s, ends))
  {
    hide Yields, Fail, CodeAt, Aligned;
    forall k, over | 0 <= k < |ends|
      ensures Yields(m, Run(mid, ends[k], stack + [s.at], over), mid + 1, stack, over, KeptLists(s, ends)[k])
    {
      CheckYields(m, mid, s, ends[k], stack, over);
    }
    YieldsBind(m, Run(pc + 1, s, stack + [s.at], base), mid, stack + [s.at], mid
        + 1, stack, base, ends, KeptLists(s, ends));
    FlattenKept(s, ends);
    StepYields(m, pc, PushCharPos, s, stack, base, Run(pc + 1, s, stack + [s.at], base), mid
        + 1, stack, Moved(s, ends));
  }

  lemma {:induction false} RoundYields(m: Machine, p: Pattern, dir: Direction, cc: nat, check: bool, pc: int, s: Place,
                                       stack: seq<int>, base: seq<Saved>)
    requires Inside(m.t, s) && Aligned(m.t, s.at)
    requires CodeAt(m.code, pc, RoundCode(Gen(p, dir, cc), check))
    requires Implements(m, p, dir, cc, if check then pc + 1 else pc)
    ensures Yields(m, Run(pc, s, stack, base), pc + RoundLength(Gen(p, dir, cc), check), stack, base,
                   Kept(check, s, Ends(Code, m.t, p, dir, cc, s)))
  {
    hide Yields, CodeAt, Ends, Gen, Aligned, YieldsEverywhere, Length, Bytes;
    if check {
      var atom := Gen(p, dir, cc);
      CodeAtAppend(m.code, pc, [PushCharPos] + atom, [CheckAdvance]);
      CodeAtAppend(m.code, pc, [PushCharPos], atom);
      BytesOne(PushCharPos);
      ImplementsHere(m, p, dir, cc, pc + 1, s, stack + [s.at]);
      var ends := Ends(Code, m.t, p, dir, cc, s);
      forall k | 0 <= k < |ends| ensures ends[k].at <= |m.t.units| { assert Ahead(m.t, dir, s, ends[k]); }
      CheckedYields(m, pc, pc + 1 + Length(atom), s, stack, base, ends);
    }
  }

  lemma {:induction false} ImplementsHere(m: Machine, p: Pattern, dir: Direction, cc: nat, pc: int, s: Place,
                                          stack: seq<int>)
    requires Inside(m.t, s) && Aligned(m.t, s.at) && Implements(m, p, dir, cc, pc)
    ensures YieldsEverywhere(m, pc, s, stack, pc + Length(Gen(p, dir, cc)), stack, Ends(Code, m.t, p, dir, cc, s))
  {
    hide Yields, Ends, Gen, Inside, Aligned;
  }

  lemma {:induction false} MovedAll(s: Place, ends: seq<Place>)
    requires forall k :: 0 <= k < |ends| ==> ends[k].at != s.at
    ensures Moved(s, ends) == ends
  {
    if ends != [] { MovedAll(s, ends[1..]); }
  }

  // The check may be left out where no round is empty.
  lemma {:induction false} KeptFits(m: Machine, p: Pattern, dir: Direction, cc: nat, check: bool, must: bool, s: Place)
    requires Inside(m.t, s) && (check ==> must) && (must && !check ==> AlwaysMoves(m.t, p, dir, cc))
    ensures Kept(check, s, Ends(Code, m.t, p, dir, cc, s)) == Kept(must, s, Ends(Code, m.t, p, dir, cc, s))
  {
    hide Ends;
    if must && !check {
      assert Moves(m.t, p, dir, cc, s);
      MovedAll(s, Ends(Code, m.t, p, dir, cc, s));
    }
  }

  // The lists that the starts of further rounds go on to.
  function RepeatLists(t: Text, p: Pattern, dir: Direction, cc: nat, min: nat, max: nat, greedy: bool,
                       starts: seq<Place>): (r: seq<seq<Place>>)
    requires forall k :: 0 <= k < |starts| ==> Inside(t, starts[k])
    ensures |r| == |starts|
  {
    seq(|starts|, k requires 0 <= k < |starts| => Repeat(Code, t, p, dir, cc, min, max, greedy, starts[k]))
  }

  lemma {:induction false} FlattenRepeat(t: Text, p: Pattern, dir: Direction, cc: nat, min: nat, max: nat, greedy: bool,
                                         s: Place, starts: seq<Place>)
    requires Inside(t, s) && max > 0 && AllAhead(t, dir, s, starts)
    requires MustMove(Code, min, max, greedy) ==> forall k :: 0 <= k < |starts| ==> starts[k].at != s.at
    requires forall k :: 0 <= k < |starts| ==> Inside(t, starts[k])
    ensures Flatten(RepeatLists(t, p, dir, cc, if min > 0 then min - 1 else 0, Less(max), greedy, starts))
         == RepeatFrom(Code, t, p, dir, cc, min, max, greedy, s, starts)
    decreases |starts|
  {
    hide Repeat, Ahead;
    if starts != [] {
      var min2 := if min > 0 then min - 1 else 0;
      assert Ahead(t, dir, s, starts[0]);
      FlattenRepeat(t, p, dir, cc, min, max, greedy, s, starts[1..]);
      assert RepeatLists(t, p, dir, cc, min2, Less(max), greedy, starts)[1..]
          == RepeatLists(t, p, dir, cc, min2, Less(max), greedy, starts[1..]);
    }
  }

  // The ends of one round, and what follows from them.
  function RoundEnds(t: Text, p: Pattern, dir: Direction, cc: nat, min: nat, max: nat, greedy: bool,
                     s: Place): (r: seq<Place>)
    requires Inside(t, s)
    ensures AllAhead(t, dir, s, r)
    ensures forall k :: 0 <= k < |r| ==> Inside(t, r[k]) && (MustMove(Code, min, max, greedy) ==> r[k].at != s.at)
  {
    KeptAhead(t, dir, s, MustMove(Code, min, max, greedy), Ends(Code, t, p, dir, cc, s));
    Kept(MustMove(Code, min, max, greedy), s, Ends(Code, t, p, dir, cc, s))
  }

  function More(t: Text, p: Pattern, dir: Direction, cc: nat, min: nat, max: nat, greedy: bool, s: Place): seq<Place>
    requires Inside(t, s) && max > 0
  {
    RepeatFrom(Code, t, p, dir, cc, min, max, greedy, s, RoundEnds(t, p, dir, cc, min, max, greedy, s))
  }

  lemma {:induction false} RepeatIsMore(t: Text, p: Pattern, dir: Direction, cc: nat, min: nat, max: nat, greedy: bool,
                                        s: Place)
    requires Inside(t, s) && max > 0
    ensures Repeat(Code, t, p, dir, cc, min, max, greedy, s)
         == var more := More(t, p, dir, cc, min, max, greedy, s); if min > 0 then more else if greedy then more + [s]
            else [s] + more
  {
    hide Ends;
  }

  // After one round ending at mid, the rest of the rounds.
  lemma {:induction false} RoundThenRest(m: Machine, p: Pattern, dir: Direction, cc: nat, min: nat, max: nat,
                                         greedy: bool, s: Place,
                      u: State, mid: int, stack: seq<int>, e: int, stack2: seq<int>, base: seq<Saved>)
    requires Inside(m.t, s) && max > 0
    requires Yields(m, u, mid, stack, base, RoundEnds(m.t, p, dir, cc, min, max, greedy, s))
    requires forall k :: 0 <= k < |RoundEnds(m.t, p, dir, cc, min, max, greedy, s)| ==>
      YieldsEverywhere(m, mid, RoundEnds(m.t, p, dir, cc, min, max, greedy, s)[k], stack, e, stack2,
        Repeat(Code, m.t, p, dir, cc, if min > 0 then min - 1
            else 0, Less(max), greedy, RoundEnds(m.t, p, dir, cc, min, max, greedy, s)[k]))
    ensures Yields(m, u, e, stack2, base, More(m.t, p, dir, cc, min, max, greedy, s))
  {
    hide Yields, Repeat, RoundEnds;
    var min2 := if min > 0 then min - 1 else 0;
    var ends := RoundEnds(m.t, p, dir, cc, min, max, greedy, s);
    var lists := RepeatLists(m.t, p, dir, cc, min2, Less(max), greedy, ends);
    forall k, over | 0 <= k < |ends| ensures Yields(m, Run(mid, ends[k], stack, over), e, stack2, over, lists[k]) {
      assert YieldsEverywhere(m, mid, ends[k], stack, e, stack2,
                              Repeat(Code, m.t, p, dir, cc, min2, Less(max), greedy, ends[k]));
    }
    YieldsBind(m, u, mid, stack, e, stack2, base, ends, lists);
    FlattenRepeat(m.t, p, dir, cc, min, max, greedy, s, ends);
  }

  // The check is emitted, or no round is empty.
  ghost predicate CheckFits(m: Machine, p: Pattern, dir: Direction, cc: nat, check: bool, max: nat, greedy: bool) {
    (check ==> greedy) && (!check && MustMove(Code, 0, max, greedy) ==> AlwaysMoves(m.t, p, dir, cc))
  }

  lemma {:induction false} RoundOfLoop(m: Machine, p: Pattern, dir: Direction, cc: nat, check: bool, max: nat,
                                       greedy: bool,
                    pc: int, s: Place, stack: seq<int>, base: seq<Saved>)
    requires Inside(m.t, s) && Aligned(m.t, s.at)
    requires CodeAt(m.code, pc, RoundCode(Gen(p, dir, cc), check))
    requires Implements(m, p, dir, cc, if check then pc + 1 else pc) && CheckFits(m, p, dir, cc, check, max, greedy)
    ensures Yields(m, Run(pc, s, stack, base), pc + RoundLength(Gen(p, dir, cc), check), stack, base,
                   RoundEnds(m.t, p, dir, cc, 0, max, greedy, s))
  {
    hide Yields, Implements, Ends, Gen, CodeAt, RoundCode, RoundLength, AlwaysMoves;
    RoundYields(m, p, dir, cc, check, pc, s, stack, base);
    KeptFits(m, p, dir, cc, check, MustMove(Code, 0, max, greedy), s);
  }

  // A split around a round, given what the round goes on to and what lies at the exit.
  lemma {:induction false} LoopYields(m: Machine, p: Pattern, dir: Direction, cc: nat, check: bool, max: nat,
                                      greedy: bool,
                   pc: int, off: int, s: Place, stack: seq<int>, e: int, stack2: seq<int>)
    requires Inside(m.t, s) && Aligned(m.t, s.at) && max > 0
    requires CodeAt(m.code, pc, [SplitCode(greedy, off)]) && CodeAt(m.code, pc + 5, RoundCode(Gen(p, dir, cc), check))
    requires Implements(m, p, dir, cc, if check then pc + 6 else pc + 5) && CheckFits(m, p, dir, cc, check, max, greedy)
    requires forall k :: 0 <= k < |RoundEnds(m.t, p, dir, cc, 0, max, greedy, s)| ==>
      YieldsEverywhere(m, pc + 5 + RoundLength(Gen(p, dir, cc), check),
                       RoundEnds(m.t, p, dir, cc, 0, max, greedy, s)[k], stack, e, stack2,
        Repeat(Code, m.t, p, dir, cc, 0, Less(max), greedy, RoundEnds(m.t, p, dir, cc, 0, max, greedy, s)[k]))
    requires YieldsEverywhere(m, pc + 5 + off, s, stack, e, stack2, [s])
    ensures YieldsEverywhere(m, pc, s, stack, e, stack2, Repeat(Code, m.t, p, dir, cc, 0, max, greedy, s))
  {
    hide Yields, Implements, Ends, Gen, CodeAt, RoundCode, RoundLength, AlwaysMoves, CheckFits, More, RoundEnds, Repeat;
    var more, body := More(m.t, p, dir, cc, 0, max, greedy, s), pc + 5;
    forall base ensures Yields(m, Run(body, s, stack, base), e, stack2, base, more) {
      RoundOfLoop(m, p, dir, cc, check, max, greedy, body, s, stack, base);
      RoundThenRest(m, p, dir, cc, 0, max, greedy, s, Run(body, s, stack, base),
                    body + RoundLength(Gen(p, dir, cc), check), stack, e, stack2, base);
    }
    forall base
      ensures Yields(m, Run(pc, s, stack, base), e, stack2, base, Repeat(Code, m.t, p, dir, cc, 0, max, greedy, s))
    {
      SplitYields(m, pc, greedy, off, s, stack, base, e, stack2, more, [s]);
      RepeatIsMore(m.t, p, dir, cc, 0, max, greedy, s);
    }
  }

  lemma {:induction false} StepEverywhere(m: Machine, pc: int, i: Instr, s: Place, stack: seq<int>, pc2: int, q: Place,
                                          stack2: seq<int>,
                       e: int, stack3: seq<int>, ends: seq<Place>)
    requires s.at <= |m.t.units| && CodeAt(m.code, pc, [i])
    requires forall base :: StepInstr(m, Run(pc, s, stack, base), i) == Run(pc2, q, stack2, base)
    requires YieldsEverywhere(m, pc2, q, stack2, e, stack3, ends)
    ensures YieldsEverywhere(m, pc, s, stack, e, stack3, ends)
  {
    hide Yields, CodeAt;
    forall base ensures Yields(m, Run(pc, s, stack, base), e, stack3, base, ends) {
      StepYields(m, pc, i, s, stack, base, Run(pc2, q, stack2, base), e, stack3, ends);
    }
  }

  lemma {:induction false} NearerThan(t: Text, dir: Direction, s: Place, q: Place)
    requires Inside(t, s) && Ahead(t, dir, s, q) && q.at != s.at
    ensures Distance(t, dir, q) < Distance(t, dir, s)
  {
  }

  // * and the tail of {n,}
  lemma {:induction false} StarYields(m: Machine, p: Pattern, dir: Direction, cc: nat, check: bool, greedy: bool,
                                      pc: int, s: Place, stack: seq<int>)
    requires Inside(m.t, s) && Aligned(m.t, s.at)
    requires CodeAt(m.code, pc, StarCode(Gen(p, dir, cc), check, greedy))
    requires Implements(m, p, dir, cc, if check then pc + 6 else pc + 5) && CheckFits(m, p, dir, cc, check, INF, greedy)
    ensures YieldsEverywhere(m, pc, s, stack, pc + 10 + RoundLength(Gen(p, dir, cc), check), stack,
                             Repeat(Code, m.t, p, dir, cc, 0, INF, greedy, s))
    decreases Distance(m.t, dir, s)
  {
    hide Implements, Gen, CodeAt, CheckFits, RoundEnds, Repeat, YieldsEverywhere, Aligned, RoundCode, RoundLength;
    var atom := Gen(p, dir, cc);
    var r := RoundLength(atom, check);
    var g := pc + 5 + r;
    StarParts(m, pc, atom, check, greedy);
    var ends := RoundEnds(m.t, p, dir, cc, 0, INF, greedy, s);
    forall k | 0 <= k < |ends|
      ensures YieldsEverywhere(m, g, ends[k], stack, g
        + 5, stack, Repeat(Code, m.t, p, dir, cc, 0, INF, greedy, ends[k]))
    {
      assert Ahead(m.t, dir, s, ends[k]);
      NearerThan(m.t, dir, s, ends[k]);
      StarYields(m, p, dir, cc, check, greedy, pc, ends[k], stack);
      StepEverywhere(m, g, Goto(-(r + 10)), ends[k], stack, pc, ends[k], stack, g
          + 5, stack, Repeat(Code, m.t, p, dir, cc, 0, INF, greedy, ends[k]));
    }
    YieldsHere(m, g + 5, s, stack);
    LoopYields(m, p, dir, cc, check, INF, greedy, pc, r + 5, s, stack, g + 5, stack);
  }

  lemma {:induction false} RoundSize(atom: seq<Instr>, check: bool)
    ensures Length(RoundCode(atom, check)) == RoundLength(atom, check)
  {
    BytesAppend([PushCharPos] + atom, [CheckAdvance]);
    BytesAppend([PushCharPos], atom);
    BytesOne(PushCharPos);
    BytesOne(CheckAdvance);
  }

  lemma {:induction false} StarParts(m: Machine, pc: int, atom: seq<Instr>, check: bool, greedy: bool)
    requires CodeAt(m.code, pc, StarCode(atom, check, greedy))
    ensures var r := RoundLength(atom, check);
      CodeAt(m.code, pc, [SplitCode(greedy, r + 5)]) && CodeAt(m.code, pc + 5, RoundCode(atom, check))
      && CodeAt(m.code, pc + 5 + r, [Goto(-(r + 10))])
    ensures Length(StarCode(atom, check, greedy)) == RoundLength(atom, check) + 10
  {
    hide CodeAt, RoundCode, RoundLength, Length, Bytes;
    var r := RoundLength(atom, check);
    var split, round, back := [SplitCode(greedy, r + 5)], RoundCode(atom, check), [Goto(-(r + 10))];
    CodeAtAppend(m.code, pc, split + round, back);
    CodeAtAppend(m.code, pc, split, round);
    BytesOne(SplitCode(greedy, r + 5));
    BytesOne(Goto(-(r + 10)));
    RoundSize(atom, check);
  }

  // ?
  lemma {:induction false} OptionalYields(m: Machine, p: Pattern, dir: Direction, cc: nat, check: bool, greedy: bool,
                                          pc: int, s: Place, stack: seq<int>)
    requires Inside(m.t, s) && Aligned(m.t, s.at)
    requires CodeAt(m.code, pc, OptionalCode(Gen(p, dir, cc), check, greedy))
    requires Implements(m, p, dir, cc, if check then pc + 6 else pc + 5) && CheckFits(m, p, dir, cc, check, 1, greedy)
    ensures YieldsEverywhere(m, pc, s, stack, pc + 5 + RoundLength(Gen(p, dir, cc), check), stack,
                             Repeat(Code, m.t, p, dir, cc, 0, 1, greedy, s))
    ensures Length(OptionalCode(Gen(p, dir, cc), check, greedy)) == 5 + RoundLength(Gen(p, dir, cc), check)
  {
    hide Implements, Gen, CodeAt, CheckFits, RoundEnds, YieldsEverywhere, Aligned, RoundCode, RoundLength, Repeat;
    hide Inside, Length, Bytes;
    var atom := Gen(p, dir, cc);
    var r := RoundLength(atom, check);
    CodeAtAppend(m.code, pc, [SplitCode(greedy, r)], RoundCode(atom, check));
    BytesOne(SplitCode(greedy, r));
    RoundSize(atom, check);
    var ends := RoundEnds(m.t, p, dir, cc, 0, 1, greedy, s);
    forall k | 0 <= k < |ends|
      ensures YieldsEverywhere(m, pc + 5 + r, ends[k], stack, pc + 5
        + r, stack, Repeat(Code, m.t, p, dir, cc, 0, 0, greedy, ends[k]))
    {
      YieldsHere(m, pc + 5 + r, ends[k], stack);
      NoMore(m.t, p, dir, cc, greedy, ends[k]);
    }
    YieldsHere(m, pc + 5 + r, s, stack);
    LoopYields(m, p, dir, cc, check, 1, greedy, pc, r, s, stack, pc + 5 + r, stack);
  }

  lemma NoMore(t: Text, p: Pattern, dir: Direction, cc: nat, greedy: bool, s: Place)
    requires Inside(t, s)
    ensures Repeat(Code, t, p, dir, cc, 0, 0, greedy, s) == [s]
  {
  }

  lemma {:induction false} LoopStep(m: Machine, pc: int, off: int, s: Place, stack: seq<int>, n: nat, over: seq<Saved>)
    requires 0 < n && s.at <= |m.t.units|
    ensures StepInstr(m, Run(pc, s, stack + [n], over), Loop(off))
      == Run(if n > 1 then pc + 5 + off else pc + 5, s, stack + [n - 1], over)
  {
    var full := stack + [n];
    assert full[..|full| - 1] == stack;
  }

  lemma {:induction false} DropStep(m: Machine, pc: int, s: Place, stack: seq<int>, n: int, over: seq<Saved>)
    requires s.at <= |m.t.units|
    ensures StepInstr(m, Run(pc, s, stack + [n], over), Drop) == Run(pc + 1, s, stack, over)
  {
    var full := stack + [n];
    assert full[..|full| - 1] == stack;
  }

  lemma {:induction false} DropYields(m: Machine, pc: int, s: Place, stack: seq<int>, n: int, e: int, ends: seq<Place>)
    requires s.at <= |m.t.units| && CodeAt(m.code, pc, [Drop])
    requires YieldsEverywhere(m, pc + 1, s, stack, e, stack, ends)
    ensures YieldsEverywhere(m, pc, s, stack + [n], e, stack, ends)
  {
    hide CodeAt, YieldsEverywhere, StepInstr;
    forall base ensures StepInstr(m, Run(pc, s, stack + [n], base), Drop) == Run(pc + 1, s, stack, base) {
      DropStep(m, pc, s, stack, n, base);
    }
    StepEverywhere(m, pc, Drop, s, stack + [n], pc + 1, s, stack, e, stack, ends);
  }

  // The loop instruction with n rounds to go: back while some remain.
  lemma {:induction false} CountYields(m: Machine, pc: int, off: int, s: Place, stack: seq<int>, n: nat, e: int,
                                       ends: seq<Place>)
    requires s.at <= |m.t.units| && 0 < n && CodeAt(m.code, pc, [Loop(off)]) && CodeAt(m.code, pc + 5, [Drop])
    requires n > 1 ==> YieldsEverywhere(m, pc + 5 + off, s, stack + [n - 1], e, stack, ends)
    requires n == 1 ==> YieldsEverywhere(m, pc + 6, s, stack, e, stack, ends)
    ensures YieldsEverywhere(m, pc, s, stack + [n], e, stack, ends)
  {
    hide CodeAt, YieldsEverywhere, StepInstr;
    var pc2 := if n > 1 then pc + 5 + off else pc + 5;
    if n == 1 { DropYields(m, pc + 5, s, stack, 0, e, ends); }
    forall base ensures StepInstr(m, Run(pc, s, stack + [n], base), Loop(off)) == Run(pc2, s, stack + [n - 1], base) {
      LoopStep(m, pc, off, s, stack, n, base);
    }
    StepEverywhere(m, pc, Loop(off), s, stack + [n], pc2, s, stack + [n - 1], e, stack, ends);
  }

  // {,n} and the tail of {m,n}, with n rounds left on the stack.
  lemma {:induction false} CountedLoopYields(m: Machine, p: Pattern, dir: Direction, cc: nat, check: bool, greedy: bool,
                                             n: nat,
                                             pc: int, s: Place, stack: seq<int>)
    requires Inside(m.t, s) && Aligned(m.t, s.at) && 0 < n < INF
    requires CodeAt(m.code, pc, CountedLoop(Gen(p, dir, cc), check, greedy))
    requires Implements(m, p, dir, cc, if check then pc + 6 else pc + 5) && CheckFits(m, p, dir, cc, check, n, greedy)
    ensures YieldsEverywhere(m, pc, s, stack + [n], pc + 11 + RoundLength(Gen(p, dir, cc), check), stack,
                             Repeat(Code, m.t, p, dir, cc, 0, n, greedy, s))
    decreases n, 1
  {
    hide Implements, Gen, CodeAt, RoundEnds, YieldsEverywhere, Aligned, RoundCode, RoundLength, CountedLoop, CheckFits;
    hide Inside, Repeat;
    InsideAt(m.t, s);
    var r := RoundLength(Gen(p, dir, cc), check);
    var g := pc + 5 + r;
    CountedParts(m, pc, Gen(p, dir, cc), check, greedy);
    var ends := RoundEnds(m.t, p, dir, cc, 0, n, greedy, s);
    forall k | 0 <= k < |ends|
      ensures YieldsEverywhere(m, g, ends[k], stack + [n], g
        + 6, stack, Repeat(Code, m.t, p, dir, cc, 0, n - 1, greedy, ends[k]))
    {
      assert Ahead(m.t, dir, s, ends[k]);
      CountedLoopRest(m, p, dir, cc, check, greedy, n, pc, ends[k], stack);
    }
    YieldsHere(m, g + 6, s, stack);
    DropYields(m, g + 5, s, stack, n, g + 6, [s]);
    LoopYields(m, p, dir, cc, check, n, greedy, pc, r + 5, s, stack + [n], g + 6, stack);
  }

  lemma {:induction false} CountedLoopRest(m: Machine, p: Pattern, dir: Direction, cc: nat, check: bool, greedy: bool,
                                           n: nat,
                                           pc: int, q: Place, stack: seq<int>)
    requires Inside(m.t, q) && Aligned(m.t, q.at) && 0 < n < INF
    requires CodeAt(m.code, pc, CountedLoop(Gen(p, dir, cc), check, greedy))
    requires Implements(m, p, dir, cc, if check then pc + 6 else pc + 5) && CheckFits(m, p, dir, cc, check, n, greedy)
    ensures var g := pc + 5 + RoundLength(Gen(p, dir, cc), check);
      YieldsEverywhere(m, g, q, stack + [n], g + 6, stack, Repeat(Code, m.t, p, dir, cc, 0, n - 1, greedy, q))
    decreases n, 0
  {
    hide Implements, Gen, CodeAt, YieldsEverywhere, Aligned, RoundLength, CountedLoop, AlwaysMoves, Inside;
    InsideAt(m.t, q);
    var r := RoundLength(Gen(p, dir, cc), check);
    var g := pc + 5 + r;
    CountedParts(m, pc, Gen(p, dir, cc), check, greedy);
    if n > 1 {
      CountedLoopYields(m, p, dir, cc, check, greedy, n - 1, pc, q, stack);
    } else {
      YieldsHere(m, g + 6, q, stack);
    }
    CountYields(m, g, -(r + 10), q, stack, n, g + 6, Repeat(Code, m.t, p, dir, cc, 0, n - 1, greedy, q));
  }

  lemma {:induction false} CountedParts(m: Machine, pc: int, atom: seq<Instr>, check: bool, greedy: bool)
    requires CodeAt(m.code, pc, CountedLoop(atom, check, greedy))
    ensures var r := RoundLength(atom, check);
      CodeAt(m.code, pc, [SplitCode(greedy, r + 5)]) && CodeAt(m.code, pc + 5, RoundCode(atom, check))
      && CodeAt(m.code, pc + 5 + r, [Loop(-(r + 10))]) && CodeAt(m.code, pc + 10 + r, [Drop])
    ensures Length(CountedLoop(atom, check, greedy)) == RoundLength(atom, check) + 11
  {
    hide CodeAt, RoundCode, RoundLength, Length, Bytes;
    var r := RoundLength(atom, check);
    var split, round, loop := [SplitCode(greedy, r + 5)], RoundCode(atom, check), [Loop(-(r + 10))];
    CodeAtAppend(m.code, pc, split + round + loop, [Drop]);
    CodeAtAppend(m.code, pc, split + round, loop);
    CodeAtAppend(m.code, pc, split, round);
    BytesOne(SplitCode(greedy, r + 5));
    BytesOne(Loop(-(r + 10)));
    BytesOne(Drop);
    RoundSize(atom, check);
  }

  lemma {:induction false} CountedYields(m: Machine, p: Pattern, dir: Direction, cc: nat, check: bool, greedy: bool,
                                         n: nat,
                      pc: int, s: Place, stack: seq<int>)
    requires Inside(m.t, s) && Aligned(m.t, s.at) && 0 < n < INF
    requires CodeAt(m.code, pc, CountedCode(Gen(p, dir, cc), check, greedy, n))
    requires Implements(m, p, dir, cc, if check then pc + 11 else pc + 10) && CheckFits(m, p, dir, cc, check, n, greedy)
    ensures YieldsEverywhere(m, pc, s, stack, pc + 16 + RoundLength(Gen(p, dir, cc), check), stack,
                             Repeat(Code, m.t, p, dir, cc, 0, n, greedy, s))
    ensures Length(CountedCode(Gen(p, dir, cc), check, greedy, n)) == RoundLength(Gen(p, dir, cc), check) + 16
  {
    hide Implements, Gen, CodeAt, YieldsEverywhere, Aligned, RoundLength, CountedLoop, CheckFits;
    var loop := CountedLoop(Gen(p, dir, cc), check, greedy);
    CodeAtAppend(m.code, pc, [PushI32(n)], loop);
    BytesOne(PushI32(n));
    CountedParts(m, pc + 5, Gen(p, dir, cc), check, greedy);
    CountedLoopYields(m, p, dir, cc, check, greedy, n, pc + 5, s, stack);
    StepEverywhere(m, pc, PushI32(n), s, stack, pc + 5, s, stack + [n], pc + 16
        + RoundLength(Gen(p, dir, cc), check), stack,
                   Repeat(Code, m.t, p, dir, cc, 0, n, greedy, s));
  }

  // The mandatory rounds.

  // What follows the mandatory rounds, with rest rounds allowed (INF: any number).
  ghost predicate TailYields(m: Machine, p: Pattern, dir: Direction, cc: nat, rest: nat, greedy: bool, pc: int,
                             e: int) {
    forall s, stack :: Inside(m.t, s) && Aligned(m.t, s.at) ==>
      YieldsEverywhere(m, pc, s, stack, e, stack, Repeat(Code, m.t, p, dir, cc, 0, rest, greedy, s))
  }

  lemma {:induction false} TailHere(m: Machine, p: Pattern, dir: Direction, cc: nat, rest: nat, greedy: bool, pc: int,
                                    q: Place, stack: seq<int>, e: int)
    requires Inside(m.t, q) && Aligned(m.t, q.at) && TailYields(m, p, dir, cc, rest, greedy, pc, e)
    ensures YieldsEverywhere(m, pc, q, stack, e, stack, Repeat(Code, m.t, p, dir, cc, 0, rest, greedy, q))
  {
    hide YieldsEverywhere, Repeat, Inside, Aligned;
  }

  function Total(c: nat, rest: nat): nat { if rest == INF then INF else c + rest }

  // One mandatory round out of c, going on at mid.
  lemma {:induction false} MandatoryYields(m: Machine, p: Pattern, dir: Direction, cc: nat, c: nat, max: nat,
                                           greedy: bool, pc: int, s: Place,
                        stack: seq<int>, e: int, stack2: seq<int>)
    requires Inside(m.t, s) && Aligned(m.t, s.at) && c > 0 && max > 0 && Implements(m, p, dir, cc, pc)
    requires forall q | Inside(m.t, q) && Aligned(m.t, q.at) ::
      YieldsEverywhere(m, pc + Length(Gen(p, dir, cc)), q, stack, e, stack2,
                       Repeat(Code, m.t, p, dir, cc, c - 1, Less(max), greedy, q))
    ensures YieldsEverywhere(m, pc, s, stack, e, stack2, Repeat(Code, m.t, p, dir, cc, c, max, greedy, s))
  {
    hide Ends, Gen, Repeat, More, Yields, Aligned, Inside;
    var ends := RoundEnds(m.t, p, dir, cc, c, max, greedy, s);
    assert ends == Ends(Code, m.t, p, dir, cc, s);
    assert forall k :: 0 <= k < |ends| ==> Ahead(m.t, dir, s, ends[k]);
    forall base
      ensures Yields(m, Run(pc, s, stack, base), e, stack2, base, Repeat(Code, m.t, p, dir, cc, c, max, greedy, s))
    {
      ImplementsHere(m, p, dir, cc, pc, s, stack);
      RoundThenRest(m, p, dir, cc, c, max, greedy, s, Run(pc, s, stack, base), pc
          + Length(Gen(p, dir, cc)), stack, e, stack2, base);
      RepeatIsMore(m.t, p, dir, cc, c, max, greedy, s);
    }
  }

  // {n} with c rounds left on the stack.
  lemma {:induction false} ExactLoopYields(m: Machine, p: Pattern, dir: Direction, cc: nat, c: nat, rest: nat,
                                           greedy: bool,
                                           pc: int, s: Place, stack: seq<int>, e: int)
    requires Inside(m.t, s) && Aligned(m.t, s.at) && c > 0 && (rest == INF || c + rest < INF)
    requires CodeAt(m.code, pc, ExactLoop(Gen(p, dir, cc))) && Implements(m, p, dir, cc, pc)
    requires TailYields(m, p, dir, cc, rest, greedy, pc + 6 + Length(Gen(p, dir, cc)), e)
    ensures YieldsEverywhere(m, pc, s, stack
      + [c], e, stack, Repeat(Code, m.t, p, dir, cc, c, Total(c, rest), greedy, s))
    decreases c, 1
  {
    hide Implements, Gen, CodeAt, YieldsEverywhere, Aligned, Repeat, Inside, Length, TailYields, ExactLoop;
    forall q | Inside(m.t, q) && Aligned(m.t, q.at)
      ensures YieldsEverywhere(m, pc + Length(Gen(p, dir, cc)), q, stack
        + [c], e, stack, Repeat(Code, m.t, p, dir, cc, c - 1, Total(c - 1, rest), greedy, q))
    {
      ExactLoopRest(m, p, dir, cc, c, rest, greedy, pc, q, stack, e);
    }
    MandatoryYields(m, p, dir, cc, c, Total(c, rest), greedy, pc, s, stack + [c], e, stack);
  }

  lemma {:induction false} ExactLoopRest(m: Machine, p: Pattern, dir: Direction, cc: nat, c: nat, rest: nat,
                                         greedy: bool,
                                         pc: int, q: Place, stack: seq<int>, e: int)
    requires Inside(m.t, q) && Aligned(m.t, q.at) && c > 0 && (rest == INF || c + rest < INF)
    requires CodeAt(m.code, pc, ExactLoop(Gen(p, dir, cc))) && Implements(m, p, dir, cc, pc)
    requires TailYields(m, p, dir, cc, rest, greedy, pc + 6 + Length(Gen(p, dir, cc)), e)
    ensures YieldsEverywhere(m, pc + Length(Gen(p, dir, cc)), q, stack
      + [c], e, stack, Repeat(Code, m.t, p, dir, cc, c - 1, Total(c - 1, rest), greedy, q))
    decreases c, 0
  {
    hide Implements, Gen, CodeAt, YieldsEverywhere, Aligned, Repeat, Inside, Length, ExactLoop, TailYields;
    InsideAt(m.t, q);
    var l: int := Length(Gen(p, dir, cc));
    ExactParts(m, pc, Gen(p, dir, cc));
    if c > 1 {
      ExactLoopYields(m, p, dir, cc, c - 1, rest, greedy, pc, q, stack, e);
    } else {
      TailHere(m, p, dir, cc, rest, greedy, pc + 6 + l, q, stack, e);
    }
    CountYields(m, pc + l, -(l + 5), q, stack, c, e,
                Repeat(Code, m.t, p, dir, cc, c - 1, Total(c - 1, rest), greedy, q));
  }

  lemma {:induction false} ExactParts(m: Machine, pc: int, atom: seq<Instr>)
    requires CodeAt(m.code, pc, ExactLoop(atom))
    ensures CodeAt(m.code, pc, atom) && CodeAt(m.code, pc + Length(atom), [Loop(-(Length(atom) + 5))])
    ensures CodeAt(m.code, pc + Length(atom) + 5, [Drop])
    ensures Length(ExactLoop(atom)) == Length(atom) + 6
  {
    hide CodeAt, Length, Bytes;
    var loop := [Loop(-(Length(atom) + 5))];
    CodeAtAppend(m.code, pc, atom + loop, [Drop]);
    CodeAtAppend(m.code, pc, atom, loop);
    BytesOne(Loop(-(Length(atom) + 5)));
    BytesOne(Drop);
  }

  lemma {:induction false} ExactYields(m: Machine, p: Pattern, dir: Direction, cc: nat, min: nat, rest: nat,
                                       greedy: bool,
                    pc: int, s: Place, stack: seq<int>, e: int)
    requires Inside(m.t, s) && Aligned(m.t, s.at) && min > 0 && (rest == INF || min + rest < INF)
    requires CodeAt(m.code, pc, ExactCode(Gen(p, dir, cc), min))
    requires Implements(m, p, dir, cc, if min == 1 then pc else pc + 5)
    requires TailYields(m, p, dir, cc, rest, greedy, pc + Length(ExactCode(Gen(p, dir, cc), min)), e)
    ensures YieldsEverywhere(m, pc, s, stack, e, stack, Repeat(Code, m.t, p, dir, cc, min, Total(min, rest), greedy, s))
  {
    hide Implements, Gen, CodeAt, YieldsEverywhere, Aligned, Repeat, Inside, ExactLoop, Length, Bytes, TailYields;
    InsideAt(m.t, s);
    if min == 1 {
      forall q | Inside(m.t, q) && Aligned(m.t, q.at)
        ensures YieldsEverywhere(m, pc
          + Length(Gen(p, dir, cc)), q, stack, e, stack, Repeat(Code, m.t, p, dir, cc, 0, rest, greedy, q))
      {
        TailHere(m, p, dir, cc, rest, greedy, pc + Length(Gen(p, dir, cc)), q, stack, e);
      }
      MandatoryYields(m, p, dir, cc, 1, Total(1, rest), greedy, pc, s, stack, e, stack);
    } else {
      CodeAtAppend(m.code, pc, [PushI32(min)], ExactLoop(Gen(p, dir, cc)));
      BytesOne(PushI32(min));
      ExactParts(m, pc + 5, Gen(p, dir, cc));
      ExactLoopYields(m, p, dir, cc, min, rest, greedy, pc + 5, s, stack, e);
      StepEverywhere(m, pc, PushI32(min), s, stack, pc + 5, s, stack + [min], e, stack,
                     Repeat(Code, m.t, p, dir, cc, min, Total(min, rest), greedy, s));
    }
  }
}
