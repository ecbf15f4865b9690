// The machine does what ReVerdict says: it matches, fails, or runs forever (libregexp.c:1139-1697 against 2008-2413).
module ReOutcome {
  import opened ReText
  import opened ReCode
  import opened RePattern
  import opened ReGen
  import opened ReMachine
  import opened ReLoops
  import opened ReSimple
  import opened ReCorrect
  import opened ReRules
  import opened ReVerdict

  // Where a match is to be reached: at pc, with stack, over the states saved in base. A run that never ends is
  // followed for n steps. Places have slots captures.
  datatype Goal = Goal(pc: int, stack: seq<int>, base: seq<Saved>, n: nat, slots: nat)

  ghost predicate WonAt(m: Machine, g: Goal, u: State, q: Place, extra: seq<Saved>) {
    Inside(m.t, q) && |q.caps| == g.slots && Harmless(extra) && Reaches(m, u, Run(g.pc, q, g.stack, g.base + extra))
  }

  // What a run from u comes to; to fail is to fall back to base.
  ghost predicate Comes(m: Machine, g: Goal, u: State, base: seq<Saved>, v: Verdict) {
    match v
    case Never => Steps(m, g.n, u).Run?
    case Fails => Reaches(m, u, Fail(m, base))
    case Wins(q) => exists extra :: WonAt(m, g, u, q, extra)
  }

  lemma {:induction false} StaysRun(m: Machine, j: nat, n: nat, u: State)
    requires j <= n && Steps(m, n, u).Run?
    ensures Steps(m, j, u).Run?
  {
    StepsAdd(m, j, n - j, u);
    if !Steps(m, j, u).Run? { Stays(m, n - j, Steps(m, j, u)); }
  }

  lemma {:induction false} Stays(m: Machine, n: nat, u: State)
    requires !u.Run?
    ensures Steps(m, n, u) == u
  {
    if n > 0 { Stays(m, n - 1, u); }
  }

  lemma {:induction false} ComesAfter(m: Machine, g: Goal, u: State, w: State, base: seq<Saved>, v: Verdict)
    requires Reaches(m, u, w) && Comes(m, g, w, base, v)
    ensures Comes(m, g, u, base, v)
  {
    hide Reaches, Fail, Step, Inside;
    match v
    case Never =>
      var j := StepsTo(m, u, w);
      StepsAdd(m, j, g.n, u);
      StaysRun(m, g.n, j + g.n, u);
    case Fails => ReachesTrans(m, u, w, Fail(m, base));
    case Wins(q) =>
      var extra :| WonAt(m, g, w, q, extra);
      ReachesTrans(m, u, w, Run(g.pc, q, g.stack, g.base + extra));
      assert WonAt(m, g, u, q, extra);
  }

  // A run that ends is not followed; one that does not is followed for fewer steps.
  lemma {:induction false} ComesFor(m: Machine, g: Goal, n: nat, u: State, base: seq<Saved>, v: Verdict)
    requires Comes(m, g, u, base, v) && (v.Never? ==> n <= g.n)
    ensures Comes(m, g.(n := n), u, base, v)
  {
    hide Reaches, Fail, Step, Inside;
    match v
    case Never => StaysRun(m, n, g.n, u);
    case Fails =>
    case Wins(q) =>
      var extra :| WonAt(m, g, u, q, extra);
      assert WonAt(m, g.(n := n), u, q, extra);
  }

  // One step more.
  lemma {:induction false} ComesStep(m: Machine, g: Goal, u: State, base: seq<Saved>, v: Verdict)
    requires u.Run? && Comes(m, g, Step(m, u), base, v)
    ensures Comes(m, g.(n := g.n + 1), u, base, v)
  {
    hide Reaches, Fail, Step, Inside;
    ReachesStep(m, u, Step(m, u));
    if v.Never? {
      assert Steps(m, g.n + 1, u) == Steps(m, g.n, Step(m, u));
    } else {
      ComesAfter(m, g, u, Step(m, u), base, v);
      ComesFor(m, g, g.n + 1, u, base, v);
    }
  }

  // The first, and when it fails what lies under it.
  lemma {:induction false} ComesOr(m: Machine, g: Goal, u: State, base: seq<Saved>, under: seq<Saved>, v: Verdict,
                                   v2: Verdict)
    requires Comes(m, g, u, base, v) && Comes(m, g, Fail(m, base), under, v2)
    ensures Comes(m, g, u, under, Or(v, v2))
  {
    hide Reaches, Fail, WonAt, Steps;
    if v.Fails? { ComesAfter(m, g, u, Fail(m, base), under, v2); }
  }

  ghost predicate From(m: Machine, g: Goal, pc: int, s: Place, stack: seq<int>, over: seq<Saved>, v: Verdict) {
    Comes(m, g, Run(pc, s, stack, g.base + over), g.base + over, v)
  }

  // From a place at pc, whatever has been saved since the goal was set.
  ghost predicate Everywhere(m: Machine, g: Goal, pc: int, s: Place, stack: seq<int>, v: Verdict) {
    forall over :: Harmless(over) ==> From(m, g, pc, s, stack, over, v)
  }

  // What is done at e, at every place ahead of s, or only at those that have moved.
  ghost predicate ExitComes(m: Machine, g: Goal, dir: Direction, s: Place, e: int, stack: seq<int>, must: bool,
                            out: Exit) {
    forall q :: Ahead(m.t, dir, s, q) && (must ==> q.at != s.at) ==> Everywhere(m, g, e, q, stack, out(q))
  }

  lemma ExitAt(m: Machine, g: Goal, dir: Direction, s: Place, e: int, stack: seq<int>, must: bool, out: Exit, q: Place)
    requires ExitComes(m, g, dir, s, e, stack, must, out) && Ahead(m.t, dir, s, q) && (must ==> q.at != s.at)
    ensures Everywhere(m, g, e, q, stack, out(q))
  {
    hide Everywhere, Ahead;
  }

  // Asked of fewer places, or followed for fewer steps.
  lemma {:induction false} ExitAhead(m: Machine, g: Goal, dir: Direction, s: Place, e: int, stack: seq<int>, must: bool,
                                     out: Exit, q: Place, must2: bool)
    requires ExitComes(m, g, dir, s, e, stack, must, out) && Ahead(m.t, dir, s, q) && (must ==> must2 || q.at != s.at)
    ensures ExitComes(m, g, dir, q, e, stack, must2, out)
  {
    hide Everywhere;
    forall r | Ahead(m.t, dir, q, r) && (must2 ==> r.at != q.at) ensures Everywhere(m, g, e, r, stack, out(r)) {
      FurtherAhead(m.t, dir, s, q, r);
    }
  }

  lemma FurtherAhead(t: Text, dir: Direction, s: Place, q: Place, r: Place)
    requires Ahead(t, dir, s, q) && Ahead(t, dir, q, r)
    ensures Ahead(t, dir, s, r) && (q.at != s.at || r.at != q.at ==> r.at != s.at)
  {
  }

  lemma {:induction false} EverywhereFor(m: Machine, g: Goal, n: nat, pc: int, s: Place, stack: seq<int>, v: Verdict)
    requires Everywhere(m, g, pc, s, stack, v) && (v.Never? ==> n <= g.n)
    ensures Everywhere(m, g.(n := n), pc, s, stack, v)
  {
    hide Comes, Harmless;
    forall over | Harmless(over) ensures From(m, g.(n := n), pc, s, stack, over, v) {
      assert From(m, g, pc, s, stack, over, v);
      ComesFor(m, g, n, Run(pc, s, stack, g.base + over), g.base + over, v);
    }
  }

  lemma {:induction false} ExitFor(m: Machine, g: Goal, n: nat, dir: Direction, s: Place, e: int, stack: seq<int>,
                                   must: bool, out: Exit)
    requires ExitComes(m, g, dir, s, e, stack, must, out) && n <= g.n
    ensures ExitComes(m, g.(n := n), dir, s, e, stack, must, out)
  {
    hide Everywhere, Ahead;
    forall q | Ahead(m.t, dir, s, q) && (must ==> q.at != s.at) ensures Everywhere(m, g.(n := n), e, q, stack, out(q)) {
      EverywhereFor(m, g, n, e, q, stack, out(q));
    }
  }

  lemma {:induction false} StepGoes(m: Machine, g: Goal, pc: int, i: Instr, s: Place, stack: seq<int>, pc2: int,
                                    q: Place, stack2: seq<int>, v: Verdict)
    requires s.at <= |m.t.units| && CodeAt(m.code, pc, [i])
    requires forall base :: StepInstr(m, Run(pc, s, stack, base), i) == Run(pc2, q, stack2, base)
    requires Everywhere(m, g, pc2, q, stack2, v)
    ensures Everywhere(m, g, pc, s, stack, v)
  {
    hide Comes, CodeAt, Reaches, StepInstr, Step, Harmless;
    forall over | Harmless(over) ensures From(m, g, pc, s, stack, over, v) {
      var base := g.base + over;
      StepAt(m, pc, i, s, stack, base);
      ReachesStep(m, Run(pc, s, stack, base), Run(pc2, q, stack2, base));
      assert From(m, g, pc2, q, stack2, over, v);
      ComesAfter(m, g, Run(pc, s, stack, base), Run(pc2, q, stack2, base), base, v);
    }
  }

  // A split whose two branches are known: one step more than both are followed for.
  lemma {:induction false} SplitGoes(m: Machine, g: Goal, pc: int, next: bool, off: int, s: Place, stack: seq<int>,
                                     v: Verdict, v2: Verdict)
    requires s.at <= |m.t.units| && CodeAt(m.code, pc, [SplitCode(next, off)])
    requires Everywhere(m, g, if next then pc + 5 else pc + 5 + off, s, stack, v)
    requires Everywhere(m, g, if next then pc + 5 + off else pc + 5, s, stack, v2)
    ensures Everywhere(m, g.(n := g.n + 1), pc, s, stack, Or(v, v2))
  {
    hide Comes, CodeAt, Fail, Or, Step, SplitCode;
    var first, second := if next then pc + 5 else pc + 5 + off, if next then pc + 5 + off else pc + 5;
    var saved := Saved(SplitKind, second, s.at, s.caps, stack, 0);
    forall over | Harmless(over) ensures From(m, g.(n := g.n + 1), pc, s, stack, over, Or(v, v2)) {
      var u, base := Run(pc, s, stack, g.base + over), g.base + over;
      assert base + [saved] == g.base + (over + [saved]);
      SplitStep(m, pc, next, off, s, stack, base);
      FailSplit(m, base, second, s, stack);
      assert From(m, g, first, s, stack, over + [saved], v);
      assert From(m, g, second, s, stack, over, v2);
      ComesOr(m, g, Run(first, s, stack, base + [saved]), base + [saved], base, v, v2);
      ComesStep(m, g, u, base, Or(v, v2));
    }
  }

  lemma {:induction false} SplitStep(m: Machine, pc: int, next: bool, off: int, s: Place, stack: seq<int>,
                                     base: seq<Saved>)
    requires s.at <= |m.t.units| && CodeAt(m.code, pc, [SplitCode(next, off)])
    ensures var first, second := if next then pc + 5 else pc + 5 + off, if next then pc + 5 + off else pc + 5;
      Step(m, Run(pc, s, stack, base))
          == Run(first, s, stack, base + [Saved(SplitKind, second, s.at, s.caps, stack, 0)])
  {
    hide CodeAt, Step;
    StepAt(m, pc, SplitCode(next, off), s, stack, base);
  }

  // A finite list, from what each of its places comes to.
  lemma {:induction false} ComesList(m: Machine, g: Goal, dir: Direction, s: Place, u: State, e: int, stack: seq<int>,
                                     over: seq<Saved>, must: bool, out: Exit, ends: seq<Place>)
    requires Yields(m, u, e, stack, g.base + over, ends) && AllAhead(m.t, dir, s, ends) && (must ==> AllMove(s, ends))
    requires Harmless(over)
    requires ExitComes(m, g, dir, s, e, stack, must, out)
    ensures Comes(m, g, u, g.base + over, FirstVerdict(out, ends))
    decreases |ends|
  {
    hide Reaches, Fail, Comes, ExitComes, Or, Ahead;
    var base := g.base + over;
    if ends == [] {
      ComesFails(m, g, u, base);
    } else {
      var extra :| YieldsNext(m, u, e, stack, base, ends, extra);
      assert base + extra == g.base + (over + extra);
      AheadHead(m.t, dir, s, ends);
      ExitAt(m, g, dir, s, e, stack, must, out, ends[0]);
      assert From(m, g, e, ends[0], stack, over + extra, out(ends[0]));
      ComesAfter(m, g, u, Run(e, ends[0], stack, base + extra), base + extra, out(ends[0]));
      if must { MoveTail(s, ends); }
      ComesList(m, g, dir, s, Fail(m, base + extra), e, stack, over, must, out, ends[1..]);
      ComesOr(m, g, u, base + extra, base, out(ends[0]), FirstVerdict(out, ends[1..]));
    }
  }

  lemma ComesFails(m: Machine, g: Goal, u: State, base: seq<Saved>)
    requires Reaches(m, u, Fail(m, base))
    ensures Comes(m, g, u, base, Fails)
  {
  }

  lemma {:induction false} ListGoes(m: Machine, g: Goal, dir: Direction, pc: int, s: Place, e: int, stack: seq<int>,
                                    must: bool, out: Exit, ends: seq<Place>)
    requires YieldsEverywhere(m, pc, s, stack, e, stack, ends) && AllAhead(m.t, dir, s, ends)
    requires (must ==> AllMove(s, ends))
    requires ExitComes(m, g, dir, s, e, stack, must, out)
    ensures Everywhere(m, g, pc, s, stack, FirstVerdict(out, ends))
  {
    hide Yields, Comes, ExitComes, AllAhead, AllMove, Harmless;
    forall over | Harmless(over) ensures From(m, g, pc, s, stack, over, FirstVerdict(out, ends)) {
      ComesList(m, g, dir, s, Run(pc, s, stack, g.base + over), e, stack, over, must, out, ends);
    }
  }

  // The code of p at pc, at a place between code points.
  ghost predicate Ready(m: Machine, p: Pattern, dir: Direction, cc: nat, pc: int, s: Place) {
    CodeAt(m.code, pc, Gen(p, dir, cc)) && Emittable(p, cc) && Inside(m.t, s) && Aligned(m.t, s.at)
  }

  function CodeEnd(p: Pattern, dir: Direction, cc: nat, pc: int): int { pc + Length(Gen(p, dir, cc)) }

  // The code of p does what p does.
  lemma {:induction false} Goes(f: nat, m: Machine, p: Pattern, dir: Direction, cc: nat, pc: int, s: Place,
                                stack: seq<int>, g: Goal, out: Exit)
    requires g.n <= f && Ready(m, p, dir, cc, pc, s) && Inside(m.t, s)
    requires ExitComes(m, g, dir, s, CodeEnd(p, dir, cc, pc), stack, !CanBeEmpty(p), out)
    ensures Everywhere(m, g, pc, s, stack, Does(Running(f), m.t, p, dir, cc, s, out))
    decreases p, 0, 1, 0, 0
  {
    hide Ready, Everywhere, ExitComes, Does, CanBeEmpty, CodeEnd;
    if p.Group? {
      GroupGoes(f, m, p, dir, cc, pc, s, stack, g, out);
    } else if p.Look? {
      LookGoes(f, m, p, dir, cc, pc, s, stack, g, out);
    } else if p.Cat? {
      CatGoes(f, m, p, dir, cc, pc, s, stack, g, out);
    } else if p.Alt? {
      AltGoes(f, m, p, dir, cc, pc, s, stack, g, out);
    } else if p.Quant? {
      QuantGoes(f, m, p, dir, cc, pc, s, stack, g, out);
    } else {
      LeafGoes(f, m, p, dir, cc, pc, s, stack, g, out);
    }
  }

  lemma {:induction false} LeafGoes(f: nat, m: Machine, p: Pattern, dir: Direction, cc: nat, pc: int, s: Place,
                                    stack: seq<int>, g: Goal, out: Exit)
    requires Ready(m, p, dir, cc, pc, s) && Inside(m.t, s)
    requires ExitComes(m, g, dir, s, CodeEnd(p, dir, cc, pc), stack, !CanBeEmpty(p), out)
    requires p.Empty? || p.Test? || p.Reference? || OneChar(p)
    ensures Everywhere(m, g, pc, s, stack, Does(Running(f), m.t, p, dir, cc, s, out))
  {
    hide CodeAt, Everywhere, ExitComes, Does, CanBeEmpty, YieldsEverywhere, Gen, Ends, Inside, Aligned, Length, Bytes;
    hide Ahead;
    var ends := Ends(Code, m.t, p, dir, cc, s);
    LeafYields(m, p, dir, cc, pc, s, stack);
    DoesList(Running(f), m.t, p, dir, cc, s, out, true);
    if !CanBeEmpty(p) { MovesNow(m.t, p, dir, cc, s); }
    ListGoes(m, g, dir, pc, s, CodeEnd(p, dir, cc, pc), stack, !CanBeEmpty(p), out, ends);
  }

  lemma MovesNow(t: Text, p: Pattern, dir: Direction, cc: nat, s: Place)
    requires Inside(t, s) && !CanBeEmpty(p)
    ensures AllMove(s, Ends(Code, t, p, dir, cc, s))
  {
    hide Ends, Inside, CanBeEmpty;
    NonEmptyMoves(t, p, dir, cc, s);
  }

  lemma {:induction false} GroupGoes(f: nat, m: Machine, p: Pattern, dir: Direction, cc: nat, pc: int, s: Place,
                                     stack: seq<int>, g: Goal, out: Exit)
    requires g.n <= f && Ready(m, p, dir, cc, pc, s) && Inside(m.t, s)
    requires ExitComes(m, g, dir, s, CodeEnd(p, dir, cc, pc), stack, !CanBeEmpty(p), out)
    requires p.Group?
    ensures Everywhere(m, g, pc, s, stack, Does(Running(f), m.t, p, dir, cc, s, out))
    decreases p, 0, 0, 0, 0
  {
    hide CodeAt, Everywhere, ExitComes, Inside, Aligned, Length, Bytes, Mark, SaveCode, OpenSlot, CloseSlot, QuantCode;
    hide AltCode, Then, Repeats;
    InsideAt(m.t, s);
    var b, o, c := p.body, OpenSlot(dir, cc), CloseSlot(dir, cc);
    var inner, q := Gen(b, dir, cc + 1), Mark(s, o);
    var mid := pc + 2 + Length(inner);
    SaveSize(o);
    SaveSize(c);
    CodeAtAppend(m.code, pc, [SaveCode(o)] + inner, [SaveCode(c)]);
    CodeAtAppend(m.code, pc, [SaveCode(o)], inner);
    MarkInside(m.t, s, o);
    GroupExit(m, g, dir, s, q, mid, stack, !CanBeEmpty(b), c, out);
    Goes(f, m, b, dir, cc + 1, pc + 2, q, stack, g, Closing(c, out));
    SaveGoes(m, g, pc, o, s, stack, Does(Running(f), m.t, b, dir, cc + 1, q, Closing(c, out)));
  }

  lemma {:induction false} SaveGoes(m: Machine, g: Goal, pc: int, slot: nat, s: Place, stack: seq<int>, v: Verdict)
    requires s.at <= |m.t.units| && CodeAt(m.code, pc, [SaveCode(slot)])
    requires Everywhere(m, g, pc + 2, Mark(s, slot), stack, v)
    ensures Everywhere(m, g, pc, s, stack, v)
  {
    hide CodeAt, Everywhere, Mark;
    StepGoes(m, g, pc, SaveCode(slot), s, stack, pc + 2, Mark(s, slot), stack, v);
  }

  lemma {:induction false} GroupExit(m: Machine, g: Goal, dir: Direction, s: Place, s2: Place, mid: int,
                                     stack: seq<int>, must: bool, slot: nat, out: Exit)
    requires s.at == s2.at && |s.caps| == |s2.caps| && CodeAt(m.code, mid, [SaveCode(slot)])
    requires ExitComes(m, g, dir, s, mid + 2, stack, must, out)
    ensures ExitComes(m, g, dir, s2, mid, stack, must, Closing(slot, out))
  {
    hide CodeAt, Everywhere, Inside, Aligned, Mark, SaveCode;
    forall q | Ahead(m.t, dir, s2, q) && (must ==> q.at != s2.at)
      ensures Everywhere(m, g, mid, q, stack, Closing(slot, out)(q))
    {
      InsideAt(m.t, q);
      MarkInside(m.t, q, slot);
      assert Ahead(m.t, dir, s, Mark(q, slot));
      SaveGoes(m, g, mid, slot, q, stack, out(Mark(q, slot)));
    }
  }

  lemma {:induction false} CatGoes(f: nat, m: Machine, p: Pattern, dir: Direction, cc: nat, pc: int, s: Place,
                                   stack: seq<int>, g: Goal, out: Exit)
    requires g.n <= f && Ready(m, p, dir, cc, pc, s) && Inside(m.t, s)
    requires ExitComes(m, g, dir, s, CodeEnd(p, dir, cc, pc), stack, !CanBeEmpty(p), out)
    requires p.Cat?
    ensures Everywhere(m, g, pc, s, stack, Does(Running(f), m.t, p, dir, cc, s, out))
    decreases p, 0, 0, 0, 0
  {
    hide CodeAt, Everywhere, ExitComes, Inside, Aligned, Length, Bytes, Gen, Repeats;
    var a, b := FirstHalf(p, dir, cc), SecondHalf(p, dir, cc);
    CatCode(p, dir, cc);
    CodeAtAppend(m.code, pc, Gen(a.p, dir, a.cc), Gen(b.p, dir, b.cc));
    var mid, e := CodeEnd(a.p, dir, a.cc, pc), CodeEnd(p, dir, cc, pc);
    var next := Then(Running(f), m.t, b.p, dir, b.cc, out);
    forall q | Ahead(m.t, dir, s, q) && (!CanBeEmpty(a.p) ==> q.at != s.at)
      ensures Everywhere(m, g, mid, q, stack, next(q))
    {
      InsideAhead(m.t, dir, s, q);
      InsideAt(m.t, q);
      ExitAhead(m, g, dir, s, e, stack, !CanBeEmpty(p), out, q, !CanBeEmpty(b.p));
      Goes(f, m, b.p, dir, b.cc, mid, q, stack, g, out);
    }
    ExitBy(m, g, dir, s, mid, stack, !CanBeEmpty(a.p), next);
    Goes(f, m, a.p, dir, a.cc, pc, s, stack, g, next);
  }

  lemma ExitBy(m: Machine, g: Goal, dir: Direction, s: Place, e: int, stack: seq<int>, must: bool, out: Exit)
    requires forall q :: Ahead(m.t, dir, s, q) && (must ==> q.at != s.at) ==> Everywhere(m, g, e, q, stack, out(q))
    ensures ExitComes(m, g, dir, s, e, stack, must, out)
  {
    hide Everywhere, Ahead;
  }

  lemma {:induction false} AltGoes(f: nat, m: Machine, p: Pattern, dir: Direction, cc: nat, pc: int, s: Place,
                                   stack: seq<int>, g: Goal, out: Exit)
    requires g.n <= f && Ready(m, p, dir, cc, pc, s) && Inside(m.t, s)
    requires ExitComes(m, g, dir, s, CodeEnd(p, dir, cc, pc), stack, !CanBeEmpty(p), out)
    requires p.Alt?
    ensures Everywhere(m, g, pc, s, stack, Does(Running(f), m.t, p, dir, cc, s, out))
    decreases p, 0, 0, 0, 0
  {
    hide CodeAt, Everywhere, ExitComes, Inside, Aligned, Length, Bytes, Repeats, Then, AltCode, QuantCode;
    InsideAt(m.t, s);
    var cb := cc + Groups(p.left);
    var x, y := Gen(p.left, dir, cc), Gen(p.right, dir, cb);
    var lx: int, ly: int := Length(x), Length(y);
    var mid, e := pc + 5 + lx, pc + 10 + lx + ly;
    AltParts(m, pc, x, y);
    SameAhead(m, dir, s);
    ExitAhead(m, g, dir, s, e, stack, !CanBeEmpty(p), out, s, !CanBeEmpty(p.left));
    ExitAhead(m, g, dir, s, e, stack, !CanBeEmpty(p), out, s, !CanBeEmpty(p.right));
    GotoExit(m, g, dir, s, mid, ly, stack, !CanBeEmpty(p.left), out);
    Goes(f, m, p.left, dir, cc, pc + 5, s, stack, g, out);
    Goes(f, m, p.right, dir, cb, mid + 5, s, stack, g, out);
    var v := Does(Running(f), m.t, p, dir, cc, s, out);
    SplitGoes(m, g, pc, true, lx + 5, s, stack, Does(Running(f), m.t, p.left, dir, cc, s, out),
              Does(Running(f), m.t, p.right, dir, cb, s, out));
    EverywhereFor(m, g.(n := g.n + 1), g.n, pc, s, stack, v);
    assert g.(n := g.n + 1).(n := g.n) == g;
  }

  lemma SameAhead(m: Machine, dir: Direction, s: Place)
    requires Inside(m.t, s)
    ensures Ahead(m.t, dir, s, s)
  {
  }

  lemma {:induction false} GotoExit(m: Machine, g: Goal, dir: Direction, s: Place, pc: int, off: int, stack: seq<int>,
                                    must: bool, out: Exit)
    requires CodeAt(m.code, pc, [Goto(off)]) && ExitComes(m, g, dir, s, pc + 5 + off, stack, must, out)
    ensures ExitComes(m, g, dir, s, pc, stack, must, out)
  {
    hide CodeAt, Everywhere, Inside, Aligned;
    forall q | Ahead(m.t, dir, s, q) && (must ==> q.at != s.at) ensures Everywhere(m, g, pc, q, stack, out(q)) {
      InsideAt(m.t, q);
      StepGoes(m, g, pc, Goto(off), q, stack, pc + 5 + off, q, stack, out(q));
    }
  }

  // Lookaround: the run inside has a goal of its own.
  lemma {:induction false} LookGoes(f: nat, m: Machine, p: Pattern, dir: Direction, cc: nat, pc: int, s: Place,
                                    stack: seq<int>, g: Goal, out: Exit)
    requires g.n <= f && Ready(m, p, dir, cc, pc, s) && Inside(m.t, s)
    requires ExitComes(m, g, dir, s, CodeEnd(p, dir, cc, pc), stack, !CanBeEmpty(p), out)
    requires p.Look?
    ensures Everywhere(m, g, pc, s, stack, Does(Running(f), m.t, p, dir, cc, s, out))
    decreases p, 0, 0, 0, 0
  {
    hide CodeAt, Comes, ExitComes, Inside, Aligned, Length, Bytes, Repeats, Then, AltCode, QuantCode;
    InsideAt(m.t, s);
    var d := if p.behind then Backward else Forward;
    var atom, i := Gen(p.body, d, cc), LookInstr(p.negative, Length(Gen(p.body, d, cc)) + 1);
    var mid := pc + 5 + Length(atom);
    CodeAtAppend(m.code, pc, [i] + atom, [Match]);
    CodeAtAppend(m.code, pc, [i], atom);
    BytesOne(i);
    BytesOne(Match);
    var won := Won();
    var inner := Does(Running(f), m.t, p.body, d, cc, s, won);
    forall over | Harmless(over) ensures From(m, g, pc, s, stack, over, Does(Running(f), m.t, p, dir, cc, s, out)) {
      var base := g.base + over;
      var saved := Saved(if p.negative then NegativeLookaheadKind else LookaheadKind, mid + 1, s.at, s.caps, stack, 0);
      var g2 := Goal(mid, stack, base + [saved], g.n, |s.caps|);
      WonHere(m, g2, d, s);
      Goes(f, m, p.body, d, cc, pc + 5, s, stack, g2, won);
      LookComes(m, p.negative, dir, pc, mid, s, stack, g, over, inner, out);
    }
  }

  lemma {:induction false} WonHere(m: Machine, g: Goal, dir: Direction, s: Place)
    requires g.slots == |s.caps|
    ensures forall must :: ExitComes(m, g, dir, s, g.pc, g.stack, must, Won())
  {
    hide Reaches, Aligned;
    forall q, over | Ahead(m.t, dir, s, q) && Harmless(over) ensures From(m, g, g.pc, q, g.stack, over, Won()(q)) {
      ReachesSelf(m, Run(g.pc, q, g.stack, g.base + over));
      assert WonAt(m, g, Run(g.pc, q, g.stack, g.base + over), q, over);
    }
  }

  // After the run inside.
  lemma {:induction false} LookComes(m: Machine, negative: bool, dir: Direction, pc: int, mid: int, s: Place,
                                     stack: seq<int>, g: Goal, over: seq<Saved>, inner: Verdict, out: Exit)
    requires Inside(m.t, s) && CodeAt(m.code, pc, [LookInstr(negative, mid - (pc + 4))]) && CodeAt(m.code, mid, [Match])
    requires Harmless(over)
    requires ExitComes(m, g, dir, s, mid + 1, stack, false, out)
    requires var saved := Saved(if negative then NegativeLookaheadKind
      else LookaheadKind, mid + 1, s.at, s.caps, stack, 0);
      Everywhere(m, Goal(mid, stack, g.base + over + [saved], g.n, |s.caps|), pc + 5, s, stack, inner)
    ensures From(m, g, pc, s, stack, over,
                 match inner case Never => Never case Fails => if negative then out(s)
                     else Fails case Wins(q) => if negative then Fails else out(s.(caps := q.caps)))
  {
    hide CodeAt, Reaches, Fail, Succeed, Ahead, Inside, Step;
    var base := g.base + over;
    var saved := Saved(if negative then NegativeLookaheadKind else LookaheadKind, mid + 1, s.at, s.caps, stack, 0);
    var g2, u, u0 := Goal(mid, stack, base + [saved], g.n, |s.caps|), Run(pc + 5, s, stack, base + [saved]),
                     Run(pc, s, stack, base);
    assert From(m, g2, pc + 5, s, stack, [], inner);
    assert base + [saved] + [] == base + [saved];
    InsideAt(m.t, s);
    LookStep(m, negative, pc, mid, s, stack, base);
    ReachesStep(m, u0, u);
    LookEndsIn(m, negative, dir, mid, s, stack, g, over, u, inner, out);
    ComesAfter(m, g, u0, u, base, match inner case Never => Never case Fails => if negative then out(s)
        else Fails case Wins(q) => if negative then Fails else out(s.(caps := q.caps)));
  }

  lemma {:induction false} LookStep(m: Machine, negative: bool, pc: int, mid: int, s: Place, stack: seq<int>,
                                    base: seq<Saved>)
    requires s.at <= |m.t.units| && CodeAt(m.code, pc, [LookInstr(negative, mid - (pc + 4))])
    ensures Step(m, Run(pc, s, stack, base))
         == Run(pc + 5, s, stack, base
            + [Saved(if negative then NegativeLookaheadKind else LookaheadKind, mid + 1, s.at, s.caps, stack, 0)])
  {
    hide CodeAt, Step;
    StepAt(m, pc, LookInstr(negative, mid - (pc + 4)), s, stack, base);
  }

  lemma {:induction false} LookEndsIn(m: Machine, negative: bool, dir: Direction, mid: int, s: Place, stack: seq<int>,
                                      g: Goal, over: seq<Saved>, u: State, inner: Verdict, out: Exit)
    requires Inside(m.t, s) && CodeAt(m.code, mid, [Match]) && Harmless(over)
    requires ExitComes(m, g, dir, s, mid + 1, stack, false, out)
    requires var saved := Saved(if negative then NegativeLookaheadKind
      else LookaheadKind, mid + 1, s.at, s.caps, stack, 0);
      Comes(m, Goal(mid, stack, g.base + over + [saved], g.n, |s.caps|), u, g.base + over + [saved], inner)
    ensures Comes(m, g, u, g.base + over,
                  match inner case Never => Never case Fails => if negative then out(s)
                      else Fails case Wins(q) => if negative then Fails else out(s.(caps := q.caps)))
  {
    hide CodeAt, Reaches, Fail, Succeed, Ahead, Inside, Step, ExitComes, Everywhere;
    var base := g.base + over;
    var saved := Saved(if negative then NegativeLookaheadKind else LookaheadKind, mid + 1, s.at, s.caps, stack, 0);
    var g2 := Goal(mid, stack, base + [saved], g.n, |s.caps|);
    match inner
    case Never =>
    case Fails =>
      LookStates(m, negative, mid + 1, s, s, stack, base, []);
      if negative { LookExit(m, g, dir, s, s, mid + 1, stack, over, u, out); }
    case Wins(q) =>
      var extra :| WonAt(m, g2, u, q, extra);
      LookStates(m, negative, mid + 1, s, q, stack, base, extra);
      var at := Run(mid, q, stack, base + [saved] + extra);
      InsideAt(m.t, q);
      StepAt(m, mid, Match, q, stack, base + [saved] + extra);
      ReachesStep(m, at, Succeed(m, q, base + [saved] + extra));
      ReachesTrans(m, u, at, Succeed(m, q, base + [saved] + extra));
      if !negative { LookExit(m, g, dir, s, q, mid + 1, stack, over, u, out); }
  }

  lemma {:induction false} LookExit(m: Machine, g: Goal, dir: Direction, s: Place, q: Place, e: int, stack: seq<int>,
                                    over: seq<Saved>, u: State, out: Exit)
    requires Inside(m.t, s) && Inside(m.t, q) && |q.caps| == |s.caps| && Harmless(over)
    requires ExitComes(m, g, dir, s, e, stack, false, out)
    requires Reaches(m, u, Run(e, s.(caps := q.caps), stack, g.base + over))
    ensures Comes(m, g, u, g.base + over, out(s.(caps := q.caps)))
  {
    hide Reaches, Comes, Aligned;
    var r := s.(caps := q.caps);
    assert Ahead(m.t, dir, s, r);
    ExitAt(m, g, dir, s, e, stack, false, out, r);
    assert From(m, g, e, r, stack, over, out(r));
    ComesAfter(m, g, u, Run(e, r, stack, g.base + over), g.base + over, out(r));
  }

  // Repetition.

  // What comes of one round, checked or not, told what comes after it.
  lemma {:induction false} RoundGoes(f: nat, m: Machine, p: Pattern, dir: Direction, cc: nat, check: bool, pc: int,
                                     s: Place, stack: seq<int>, g: Goal, next: Exit)
    requires g.n <= f && CodeAt(m.code, pc, RoundCode(Gen(p, dir, cc), check)) && Emittable(p, cc) && Inside(m.t, s)
    requires Aligned(m.t, s.at)
    requires ExitComes(m, g, dir, s, pc + RoundLength(Gen(p, dir, cc), check), stack, check || !CanBeEmpty(p), next)
    requires (check ==> forall q: Place :: q.at == s.at ==> next(q).Fails?)
    ensures Everywhere(m, g, pc, s, stack, Does(Running(f), m.t, p, dir, cc, s, next))
    decreases p, 0, 2, 0, 0
  {
    hide CodeAt, Everywhere, ExitComes, Inside, Aligned, Length, Bytes, Gen, Does, Emittable, CanBeEmpty;
    InsideAt(m.t, s);
    if check {
      var atom := Gen(p, dir, cc);
      var mid := pc + 1 + Length(atom);
      CodeAtAppend(m.code, pc, [PushCharPos] + atom, [CheckAdvance]);
      CodeAtAppend(m.code, pc, [PushCharPos], atom);
      BytesOne(PushCharPos);
      CheckExit(m, g, dir, s, mid, stack, !CanBeEmpty(p), next);
      Goes(f, m, p, dir, cc, pc + 1, s, stack + [s.at], g, next);
      StepGoes(m, g, pc, PushCharPos, s, stack, pc + 1, s, stack + [s.at], Does(Running(f), m.t, p, dir, cc, s, next));
    } else {
      Goes(f, m, p, dir, cc, pc, s, stack, g, next);
    }
  }

  lemma {:induction false} CheckExit(m: Machine, g: Goal, dir: Direction, s: Place, mid: int, stack: seq<int>,
                                     must: bool, next: Exit)
    requires CodeAt(m.code, mid, [CheckAdvance]) && ExitComes(m, g, dir, s, mid + 1, stack, true, next)
    requires forall q: Place :: q.at == s.at ==> next(q).Fails?
    ensures ExitComes(m, g, dir, s, mid, stack + [s.at], must, next)
  {
    hide CodeAt, Everywhere, Inside, Aligned;
    forall q | Ahead(m.t, dir, s, q) && (must ==> q.at != s.at)
      ensures Everywhere(m, g, mid, q, stack + [s.at], next(q))
    {
      InsideAt(m.t, q);
      CheckGoes(m, g, mid, s, q, stack, next(q));
    }
  }

  lemma {:induction false} CheckGoes(m: Machine, g: Goal, pc: int, s: Place, q: Place, stack: seq<int>, v: Verdict)
    requires CodeAt(m.code, pc, [CheckAdvance]) && q.at <= |m.t.units|
    requires if q.at == s.at then v.Fails? else Everywhere(m, g, pc + 1, q, stack, v)
    ensures Everywhere(m, g, pc, q, stack + [s.at], v)
  {
    hide CodeAt, Fail, Fetch, Reaches;
    var full := stack + [s.at];
    assert full[..|full| - 1] == stack;
    if q.at == s.at {
      forall over | Harmless(over) ensures From(m, g, pc, q, full, over, v) {
        StepAt(m, pc, CheckAdvance, q, full, g.base + over);
        ReachesStep(m, Run(pc, q, full, g.base + over), Fail(m, g.base + over));
      }
    } else {
      hide Comes;
      StepGoes(m, g, pc, CheckAdvance, q, full, pc + 1, q, stack, v);
    }
  }

  // An unbounded loop: a split at head, one of whose branches is a round that leads back to head.
  datatype Cycle = Cycle(p: Pattern, dir: Direction, cc: nat, check: bool, greedy: bool, head: int, next: bool,
                         off: int)

  function Branch(c: Cycle, first: bool): int { if c.next == first then c.head + 5 else c.head + 5 + c.off }
  function Round(c: Cycle): int { Branch(c, c.greedy) }
  function Leaves(c: Cycle): int { Branch(c, !c.greedy) }
  function RoundEnd(c: Cycle): int { Round(c) + RoundLength(Gen(c.p, c.dir, c.cc), c.check) }

  // The check is there, or not needed, or the quantifier is lazy.
  predicate Guarded(p: Pattern, check: bool, greedy: bool) {
    (check ==> greedy) && (greedy && !check ==> !CanBeEmpty(p))
  }

  ghost predicate CycleThere(m: Machine, c: Cycle) {
    CodeAt(m.code, c.head, [SplitCode(c.next, c.off)])
        && CodeAt(m.code, Round(c), RoundCode(Gen(c.p, c.dir, c.cc), c.check))
    && (RoundEnd(c) == c.head || CodeAt(m.code, RoundEnd(c), [Goto(c.head - RoundEnd(c) - 5)]))
    && Emittable(c.p, c.cc) && Guarded(c.p, c.check, c.greedy)
  }

  lemma {:induction false} CycleGoes(f: nat, m: Machine, c: Cycle, s: Place, stack: seq<int>, g: Goal, out: Exit)
    requires g.n <= f && CycleThere(m, c) && Inside(m.t, s) && Aligned(m.t, s.at)
    requires ExitComes(m, g, c.dir, s, Leaves(c), stack, false, out)
    ensures Everywhere(m, g, c.head, s, stack, Repeats(Running(f), m.t, c.p, c.dir, c.cc, 0, INF, c.greedy, s, out))
    decreases c.p, 1, Distance(m.t, c.dir, s), f, 1
  {
    hide CodeAt, Everywhere, ExitComes, Inside, Aligned, Gen, Does, Emittable, CanBeEmpty, RoundCode, RoundLength, Next;
    hide Or, SplitCode;
    InsideAt(m.t, s);
    var v := Repeats(Running(f), m.t, c.p, c.dir, c.cc, 0, INF, c.greedy, s, out);
    var n := if g.n > 0 then g.n - 1 else 0;
    var g1, next := g.(n := n), Next(Running(f), m.t, c.p, c.dir, c.cc, 0, INF, c.greedy, s, out);
    forall q | Ahead(m.t, c.dir, s, q) && (c.check || !CanBeEmpty(c.p) ==> q.at != s.at)
      ensures Everywhere(m, g1, RoundEnd(c), q, stack, next(q))
    {
      CycleBack(f, m, c, s, q, stack, g, n, out);
    }
    ExitBy(m, g1, c.dir, s, RoundEnd(c), stack, c.check || !CanBeEmpty(c.p), next);
    NextSame(f, m.t, c.p, c.dir, c.cc, INF, c.greedy, s, out);
    RoundGoes(f, m, c.p, c.dir, c.cc, c.check, Round(c), s, stack, g1, next);
    var w := Does(Running(f), m.t, c.p, c.dir, c.cc, s, next);
    ExitFor(m, g, n, c.dir, s, Leaves(c), stack, false, out);
    SameAhead(m, c.dir, s);
    ExitAt(m, g1, c.dir, s, Leaves(c), stack, false, out, s);
    SplitGoes(m, g1, c.head, c.next, c.off, s, stack, if c.greedy then w else out(s), if c.greedy then out(s) else w);
    EverywhereFor(m, g1.(n := n + 1), g.n, c.head, s, stack, v);
    assert g1.(n := n + 1).(n := g.n) == g;
  }

  lemma NextSame(f: nat, t: Text, p: Pattern, dir: Direction, cc: nat, max: nat, greedy: bool, s: Place, out: Exit)
    requires Inside(t, s) && max > 0
    ensures greedy ==> forall q: Place :: q.at == s.at ==>
      Next(Running(f), t, p, dir, cc, 0, max, greedy, s, out)(q) == Fails
  {
    hide Repeats, Inside;
  }

  // After a round.
  lemma {:induction false} CycleBack(f: nat, m: Machine, c: Cycle, s: Place, q: Place, stack: seq<int>, g: Goal, n: nat,
                                     out: Exit)
    requires g.n <= f && CycleThere(m, c) && Inside(m.t, s) && Aligned(m.t, s.at)
    requires ExitComes(m, g, c.dir, s, Leaves(c), stack, false, out)
    requires Ahead(m.t, c.dir, s, q) && (c.check || !CanBeEmpty(c.p) ==> q.at != s.at)
    requires n == if g.n > 0 then g.n - 1 else 0
    ensures Everywhere(m, g.(n := n), RoundEnd(c), q, stack,
                       Next(Running(f), m.t, c.p, c.dir, c.cc, 0, INF, c.greedy, s, out)(q))
    decreases c.p, 1, Distance(m.t, c.dir, s), f, 0
  {
    hide CodeAt, Everywhere, ExitComes, Inside, Aligned, Gen, Does, Emittable, CanBeEmpty, RoundCode, RoundLength;
    hide Repeats;
    var g1, v := g.(n := n), Next(Running(f), m.t, c.p, c.dir, c.cc, 0, INF, c.greedy, s, out)(q);
    InsideAhead(m.t, c.dir, s, q);
    InsideAt(m.t, q);
    NextIs(Running(f), m.t, c.p, c.dir, c.cc, 0, INF, c.greedy, s, q, out);
    if q.at == s.at && f == 0 {
      RunsNow(m, g1, RoundEnd(c), q, stack);
    } else {
      if q.at != s.at { NearerThan(m.t, c.dir, s, q); }
      ExitAhead(m, g, c.dir, s, Leaves(c), stack, false, out, q, false);
      ExitFor(m, g, n, c.dir, q, Leaves(c), stack, false, out);
      CycleGoes(if q.at == s.at then f - 1 else f, m, c, q, stack, g1, out);
      if RoundEnd(c) != c.head {
        StepGoes(m, g1, RoundEnd(c), Goto(c.head - RoundEnd(c) - 5), q, stack, c.head, q, stack, v);
      }
    }
  }

  lemma RunsNow(m: Machine, g: Goal, pc: int, s: Place, stack: seq<int>)
    requires g.n == 0
    ensures Everywhere(m, g, pc, s, stack, Never)
  {
    hide Step;
  }

  lemma {:induction false} DropGoes(m: Machine, g: Goal, pc: int, s: Place, stack: seq<int>, n: int, v: Verdict)
    requires s.at <= |m.t.units| && CodeAt(m.code, pc, [Drop]) && Everywhere(m, g, pc + 1, s, stack, v)
    ensures Everywhere(m, g, pc, s, stack + [n], v)
  {
    hide CodeAt, Everywhere, StepInstr;
    forall base ensures StepInstr(m, Run(pc, s, stack + [n], base), Drop) == Run(pc + 1, s, stack, base) {
      DropStep(m, pc, s, stack, n, base);
    }
    StepGoes(m, g, pc, Drop, s, stack + [n], pc + 1, s, stack, v);
  }

  lemma {:induction false} CountGoes(m: Machine, g: Goal, pc: int, off: int, s: Place, stack: seq<int>, n: nat,
                                     v: Verdict)
    requires s.at <= |m.t.units| && 0 < n && CodeAt(m.code, pc, [Loop(off)]) && CodeAt(m.code, pc + 5, [Drop])
    requires if n > 1 then Everywhere(m, g, pc + 5 + off, s, stack + [n - 1], v)
      else Everywhere(m, g, pc + 6, s, stack, v)
    ensures Everywhere(m, g, pc, s, stack + [n], v)
  {
    hide CodeAt, Everywhere, StepInstr;
    var pc2 := if n > 1 then pc + 5 + off else pc + 5;
    if n == 1 { DropGoes(m, g, pc + 5, s, stack, 0, v); }
    forall base ensures StepInstr(m, Run(pc, s, stack + [n], base), Loop(off)) == Run(pc2, s, stack + [n - 1], base) {
      LoopStep(m, pc, off, s, stack, n, base);
    }
    StepGoes(m, g, pc, Loop(off), s, stack + [n], pc2, s, stack + [n - 1], v);
  }

  // {,n} and the tail of {m,n}, with k rounds left on the stack.
  lemma {:induction false} CountedGoes(f: nat, m: Machine, p: Pattern, dir: Direction, cc: nat, check: bool,
                                       greedy: bool, k: nat, pc: int, s: Place, stack: seq<int>, g: Goal, out: Exit)
    requires g.n <= f && CodeAt(m.code, pc, CountedLoop(Gen(p, dir, cc), check, greedy)) && Emittable(p, cc)
    requires Guarded(p, check, greedy)
    requires 0 < k < INF && Inside(m.t, s) && Aligned(m.t, s.at)
    requires ExitComes(m, g, dir, s, pc + 11 + RoundLength(Gen(p, dir, cc), check), stack, false, out)
    ensures Everywhere(m, g, pc, s, stack + [k], Repeats(Running(f), m.t, p, dir, cc, 0, k, greedy, s, out))
    decreases p, 1, k, 0, 1
  {
    hide CodeAt, Everywhere, ExitComes, Inside, Aligned, Gen, Does, Emittable, CanBeEmpty, RoundCode, RoundLength, Next;
    hide Or, SplitCode, CountedLoop;
    InsideAt(m.t, s);
    var r := RoundLength(Gen(p, dir, cc), check);
    var past, next, v := pc + 5 + r, Next(Running(f), m.t, p, dir, cc, 0, k, greedy, s, out),
                         Repeats(Running(f), m.t, p, dir, cc, 0, k, greedy, s, out);
    CountedParts(m, pc, Gen(p, dir, cc), check, greedy);
    forall q | Ahead(m.t, dir, s, q) && (check || !CanBeEmpty(p) ==> q.at != s.at)
      ensures Everywhere(m, g, past, q, stack + [k], next(q))
    {
      CountedBack(f, m, p, dir, cc, check, greedy, k, pc, s, q, stack, g, out);
    }
    ExitBy(m, g, dir, s, past, stack + [k], check || !CanBeEmpty(p), next);
    NextSame(f, m.t, p, dir, cc, k, greedy, s, out);
    RoundGoes(f, m, p, dir, cc, check, pc + 5, s, stack + [k], g, next);
    var w := Does(Running(f), m.t, p, dir, cc, s, next);
    SameAhead(m, dir, s);
    ExitAt(m, g, dir, s, past + 6, stack, false, out, s);
    DropGoes(m, g, past + 5, s, stack, k, out(s));
    SplitGoes(m, g, pc, greedy, r + 5, s, stack + [k], if greedy then w else out(s), if greedy then out(s) else w);
    EverywhereFor(m, g.(n := g.n + 1), g.n, pc, s, stack + [k], v);
    assert g.(n := g.n + 1).(n := g.n) == g;
  }

  lemma {:induction false} CountedBack(f: nat, m: Machine, p: Pattern, dir: Direction, cc: nat, check: bool,
                                       greedy: bool, k: nat, pc: int, s: Place, q: Place, stack: seq<int>, g: Goal,
                                       out: Exit)
    requires g.n <= f && CodeAt(m.code, pc, CountedLoop(Gen(p, dir, cc), check, greedy)) && Emittable(p, cc)
    requires Guarded(p, check, greedy)
    requires 0 < k < INF && Inside(m.t, s) && Aligned(m.t, s.at)
    requires ExitComes(m, g, dir, s, pc + 11 + RoundLength(Gen(p, dir, cc), check), stack, false, out)
    requires Ahead(m.t, dir, s, q) && (check || !CanBeEmpty(p) ==> q.at != s.at)
    ensures Everywhere(m, g, pc + 5 + RoundLength(Gen(p, dir, cc), check), q, stack
      + [k], Next(Running(f), m.t, p, dir, cc, 0, k, greedy, s, out)(q))
    decreases p, 1, k, 0, 0
  {
    hide CodeAt, Everywhere, ExitComes, Inside, Aligned, Gen, Does, Emittable, CanBeEmpty, RoundCode, RoundLength;
    hide Repeats, Next, CountedLoop;
    var r := RoundLength(Gen(p, dir, cc), check);
    var e, v := pc + 11 + r, Next(Running(f), m.t, p, dir, cc, 0, k, greedy, s, out)(q);
    CountedParts(m, pc, Gen(p, dir, cc), check, greedy);
    InsideAhead(m.t, dir, s, q);
    InsideAt(m.t, q);
    NextIs(Running(f), m.t, p, dir, cc, 0, k, greedy, s, q, out);
    if k > 1 {
      ExitAhead(m, g, dir, s, e, stack, false, out, q, false);
      CountedGoes(f, m, p, dir, cc, check, greedy, k - 1, pc, q, stack, g, out);
    } else {
      ExitAt(m, g, dir, s, e, stack, false, out, q);
      NoRepeats(f, m.t, p, dir, cc, 0, greedy, q, out);
    }
    CountGoes(m, g, pc + 5 + r, -(r + 10), q, stack, k, v);
  }

  lemma NoRepeats(f: nat, t: Text, p: Pattern, dir: Direction, cc: nat, min: nat, greedy: bool, s: Place, out: Exit)
    requires Inside(t, s)
    ensures Repeats(Running(f), t, p, dir, cc, min, 0, greedy, s, out) == out(s)
  {
  }

  // The rounds allowed after the mandatory ones.
  function Tail(f: nat, t: Text, p: Pattern, dir: Direction, cc: nat, rest: nat, greedy: bool, out: Exit): Exit {
    (q: Place) => if Inside(t, q) then Repeats(Running(f), t, p, dir, cc, 0, rest, greedy, q, out) else Fails
  }

  // {n} with c rounds left on the stack.
  lemma {:induction false} ExactGoes(f: nat, m: Machine, p: Pattern, dir: Direction, cc: nat, c: nat, rest: nat,
                                     greedy: bool, pc: int, s: Place, stack: seq<int>, g: Goal, out: Exit)
    requires g.n <= f && CodeAt(m.code, pc, ExactLoop(Gen(p, dir, cc))) && Emittable(p, cc) && c > 0
    requires (rest == INF || c + rest < INF)
    requires Inside(m.t, s) && Aligned(m.t, s.at)
    requires ExitComes(m, g, dir, s, pc + 6
      + Length(Gen(p, dir, cc)), stack, !CanBeEmpty(p), Tail(f, m.t, p, dir, cc, rest, greedy, out))
    ensures Everywhere(m, g, pc, s, stack
      + [c], Repeats(Running(f), m.t, p, dir, cc, c, Total(c, rest), greedy, s, out))
    decreases p, 1, c, 0, 1
  {
    hide CodeAt, Everywhere, ExitComes, Inside, Aligned, Gen, Does, Emittable, CanBeEmpty, Next, ExactLoop, Length;
    var mid, next := CodeEnd(p, dir, cc, pc), Next(Running(f), m.t, p, dir, cc, c, Total(c, rest), greedy, s, out);
    ExactParts(m, pc, Gen(p, dir, cc));
    forall q | Ahead(m.t, dir, s, q) && (!CanBeEmpty(p) ==> q.at != s.at)
      ensures Everywhere(m, g, mid, q, stack + [c], next(q))
    {
      ExactBack(f, m, p, dir, cc, c, rest, greedy, pc, s, q, stack, g, out);
    }
    ExitBy(m, g, dir, s, mid, stack + [c], !CanBeEmpty(p), next);
    Goes(f, m, p, dir, cc, pc, s, stack + [c], g, next);
  }

  lemma {:induction false} ExactBack(f: nat, m: Machine, p: Pattern, dir: Direction, cc: nat, c: nat, rest: nat,
                                     greedy: bool, pc: int, s: Place, q: Place, stack: seq<int>, g: Goal, out: Exit)
    requires g.n <= f && CodeAt(m.code, pc, ExactLoop(Gen(p, dir, cc))) && Emittable(p, cc) && c > 0
    requires (rest == INF || c + rest < INF)
    requires Inside(m.t, s) && Aligned(m.t, s.at) && Ahead(m.t, dir, s, q) && (!CanBeEmpty(p) ==> q.at != s.at)
    requires ExitComes(m, g, dir, s, pc + 6
      + Length(Gen(p, dir, cc)), stack, !CanBeEmpty(p), Tail(f, m.t, p, dir, cc, rest, greedy, out))
    ensures Everywhere(m, g, pc + Length(Gen(p, dir, cc)), q, stack
      + [c], Next(Running(f), m.t, p, dir, cc, c, Total(c, rest), greedy, s, out)(q))
    decreases p, 1, c, 0, 0
  {
    hide CodeAt, Everywhere, ExitComes, Inside, Aligned, Gen, Does, Emittable, CanBeEmpty, Next, ExactLoop, Length;
    hide Repeats;
    var l: int := Length(Gen(p, dir, cc));
    var tail, v := Tail(f, m.t, p, dir, cc, rest, greedy, out),
                   Next(Running(f), m.t, p, dir, cc, c, Total(c, rest), greedy, s, out)(q);
    ExactParts(m, pc, Gen(p, dir, cc));
    InsideAhead(m.t, dir, s, q);
    InsideAt(m.t, q);
    NextIs(Running(f), m.t, p, dir, cc, c, Total(c, rest), greedy, s, q, out);
    if c > 1 {
      ExitAhead(m, g, dir, s, pc + 6 + l, stack, !CanBeEmpty(p), tail, q, !CanBeEmpty(p));
      ExactGoes(f, m, p, dir, cc, c - 1, rest, greedy, pc, q, stack, g, out);
    } else {
      ExitAt(m, g, dir, s, pc + 6 + l, stack, !CanBeEmpty(p), tail, q);
    }
    CountGoes(m, g, pc + l, -(l + 5), q, stack, c, v);
  }

  lemma {:induction false} OptionalGoes(f: nat, m: Machine, p: Pattern, dir: Direction, cc: nat, check: bool,
                                        greedy: bool, pc: int, s: Place, stack: seq<int>, g: Goal, out: Exit)
    requires g.n <= f && CodeAt(m.code, pc, OptionalCode(Gen(p, dir, cc), check, greedy)) && Emittable(p, cc)
    requires Guarded(p, check, greedy)
    requires Inside(m.t, s) && Aligned(m.t, s.at)
    requires ExitComes(m, g, dir, s, pc + Length(OptionalCode(Gen(p, dir, cc), check, greedy)), stack, false, out)
    ensures Everywhere(m, g, pc, s, stack, Repeats(Running(f), m.t, p, dir, cc, 0, 1, greedy, s, out))
    decreases p, 1, 0, 0, 0
  {
    hide CodeAt, Everywhere, ExitComes, Inside, Aligned, Gen, Does, Emittable, CanBeEmpty, RoundCode, RoundLength, Next;
    hide Or, SplitCode, Length, Bytes;
    InsideAt(m.t, s);
    var atom := Gen(p, dir, cc);
    var r := RoundLength(atom, check);
    var e, next, v := pc + 5 + r, Next(Running(f), m.t, p, dir, cc, 0, 1, greedy, s, out),
                      Repeats(Running(f), m.t, p, dir, cc, 0, 1, greedy, s, out);
    CodeAtAppend(m.code, pc, [SplitCode(greedy, r)], RoundCode(atom, check));
    BytesOne(SplitCode(greedy, r));
    SplitSize(greedy, r);
    RoundSize(atom, check);
    var must := check || !CanBeEmpty(p);
    forall q | Ahead(m.t, dir, s, q) && (must ==> q.at != s.at) ensures Everywhere(m, g, e, q, stack, next(q)) {
      NextIs(Running(f), m.t, p, dir, cc, 0, 1, greedy, s, q, out);
      NoRepeats(f, m.t, p, dir, cc, 0, greedy, q, out);
      ExitAt(m, g, dir, s, e, stack, false, out, q);
    }
    ExitBy(m, g, dir, s, e, stack, must, next);
    NextSame(f, m.t, p, dir, cc, 1, greedy, s, out);
    RoundGoes(f, m, p, dir, cc, check, pc + 5, s, stack, g, next);
    var w := Does(Running(f), m.t, p, dir, cc, s, next);
    SameAhead(m, dir, s);
    ExitAt(m, g, dir, s, e, stack, false, out, s);
    SplitGoes(m, g, pc, greedy, r, s, stack, if greedy then w else out(s), if greedy then out(s) else w);
    EverywhereFor(m, g.(n := g.n + 1), g.n, pc, s, stack, v);
    assert g.(n := g.n + 1).(n := g.n) == g;
  }

  lemma SplitSize(greedy: bool, off: int)
    ensures Size(SplitCode(greedy, off)) == 5
  {
  }

  // The rounds after the mandatory ones.
  lemma {:induction false} TailGoes(f: nat, m: Machine, p: Pattern, dir: Direction, cc: nat, check: bool, max: nat,
                                    greedy: bool, pc: int, s: Place, stack: seq<int>, g: Goal, out: Exit)
    requires g.n <= f && CodeAt(m.code, pc, TailCode(Gen(p, dir, cc), check, max, greedy)) && Emittable(p, cc)
    requires max <= INF
    requires Guarded(p, check, greedy) && Inside(m.t, s) && Aligned(m.t, s.at)
    requires ExitComes(m, g, dir, s, pc + Length(TailCode(Gen(p, dir, cc), check, max, greedy)), stack, false, out)
    ensures Everywhere(m, g, pc, s, stack, Repeats(Running(f), m.t, p, dir, cc, 0, max, greedy, s, out))
    decreases p, 2, 0, 0, 0
  {
    hide CodeAt, Everywhere, ExitComes, Inside, Aligned, Gen, Emittable, CanBeEmpty, RoundLength, RoundCode, Repeats;
    hide StarCode, CountedCode, Length, Bytes;
    InsideAt(m.t, s);
    var atom := Gen(p, dir, cc);
    var r := RoundLength(atom, check);
    if max == 0 {
      NoCode();
      SameAhead(m, dir, s);
      ExitAt(m, g, dir, s, pc, stack, false, out, s);
      NoRepeats(f, m.t, p, dir, cc, 0, greedy, s, out);
    } else if max == INF {
      StarParts(m, pc, atom, check, greedy);
      CycleGoes(f, m, StarCycle(p, dir, cc, check, greedy, pc), s, stack, g, out);
    } else {
      PushedGoes(f, m, p, dir, cc, check, max, greedy, pc, s, stack, g, out);
    }
  }

  lemma {:induction false} PushedGoes(f: nat, m: Machine, p: Pattern, dir: Direction, cc: nat, check: bool, n: nat,
                                      greedy: bool, pc: int, s: Place, stack: seq<int>, g: Goal, out: Exit)
    requires g.n <= f && CodeAt(m.code, pc, CountedCode(Gen(p, dir, cc), check, greedy, n)) && Emittable(p, cc)
    requires 0 < n < INF
    requires Guarded(p, check, greedy) && Inside(m.t, s) && Aligned(m.t, s.at)
    requires ExitComes(m, g, dir, s, pc + Length(CountedCode(Gen(p, dir, cc), check, greedy, n)), stack, false, out)
    ensures Everywhere(m, g, pc, s, stack, Repeats(Running(f), m.t, p, dir, cc, 0, n, greedy, s, out))
    decreases p, 1, n, 0, 2
  {
    hide CodeAt, Everywhere, ExitComes, Inside, Aligned, Gen, Emittable, CanBeEmpty, RoundLength, Repeats, CountedLoop;
    hide Length, Bytes;
    InsideAt(m.t, s);
    var atom := Gen(p, dir, cc);
    CodeAtAppend(m.code, pc, [PushI32(n)], CountedLoop(atom, check, greedy));
    BytesOne(PushI32(n));
    CountedParts(m, pc + 5, atom, check, greedy);
    CountedGoes(f, m, p, dir, cc, check, greedy, n, pc + 5, s, stack, g, out);
    StepGoes(m, g, pc, PushI32(n), s, stack, pc + 5, s, stack
        + [n], Repeats(Running(f), m.t, p, dir, cc, 0, n, greedy, s, out));
  }

  function StarCycle(p: Pattern, dir: Direction, cc: nat, check: bool, greedy: bool, pc: int): Cycle {
    Cycle(p, dir, cc, check, greedy, pc, greedy, RoundLength(Gen(p, dir, cc), check) + 5)
  }

  // + whose split jumps back to its atom.
  lemma {:induction false} PlusGoes(f: nat, m: Machine, p: Pattern, dir: Direction, cc: nat, greedy: bool, pc: int,
                                    s: Place, stack: seq<int>, g: Goal, out: Exit)
    requires g.n <= f && CodeAt(m.code, pc, Gen(p, dir, cc) + [SplitCode(!greedy, -(Length(Gen(p, dir, cc)) + 5))])
    requires Emittable(p, cc)
    requires Guarded(p, false, greedy) && Inside(m.t, s) && Aligned(m.t, s.at)
    requires ExitComes(m, g, dir, s, pc + Length(Gen(p, dir, cc)) + 5, stack, !CanBeEmpty(p), out)
    ensures Everywhere(m, g, pc, s, stack, Repeats(Running(f), m.t, p, dir, cc, 1, INF, greedy, s, out))
    decreases p, 2, 0, 0, 0
  {
    hide CodeAt, Everywhere, ExitComes, Inside, Aligned, Gen, Emittable, CanBeEmpty, Does, Next, Length, Bytes;
    hide SplitCode;
    var l: int := Length(Gen(p, dir, cc));
    var head, next := pc + l, Next(Running(f), m.t, p, dir, cc, 1, INF, greedy, s, out);
    CodeAtAppend(m.code, pc, Gen(p, dir, cc), [SplitCode(!greedy, -(l + 5))]);
    var c := Cycle(p, dir, cc, false, greedy, head, !greedy, -(l + 5));
    forall q | Ahead(m.t, dir, s, q) && (!CanBeEmpty(p) ==> q.at != s.at)
      ensures Everywhere(m, g, head, q, stack, next(q))
    {
      InsideAhead(m.t, dir, s, q);
      InsideAt(m.t, q);
      NextIs(Running(f), m.t, p, dir, cc, 1, INF, greedy, s, q, out);
      ExitAhead(m, g, dir, s, head + 5, stack, !CanBeEmpty(p), out, q, false);
      CycleGoes(f, m, c, q, stack, g, out);
    }
    ExitBy(m, g, dir, s, head, stack, !CanBeEmpty(p), next);
    Goes(f, m, p, dir, cc, pc, s, stack, g, next);
  }

  lemma {:induction false} QuantGoes(f: nat, m: Machine, p: Pattern, dir: Direction, cc: nat, pc: int, s: Place,
                                     stack: seq<int>, g: Goal, out: Exit)
    requires g.n <= f && Ready(m, p, dir, cc, pc, s) && Inside(m.t, s)
    requires ExitComes(m, g, dir, s, CodeEnd(p, dir, cc, pc), stack, !CanBeEmpty(p), out)
    requires p.Quant?
    ensures Everywhere(m, g, pc, s, stack, Does(Running(f), m.t, p, dir, cc, s, out))
    decreases p, 0, 0, 0, 0
  {
    hide CodeAt, Everywhere, ExitComes, Inside, Aligned, Length, Bytes, Repeats, Then, AltCode, SimpleCode;
    hide OptionalCode, TailCode, ExactCode, ResetCode, NeedCheckAdvance, SimpleLength;
    var b, n := p.body, Groups(p.body);
    var atom := Gen(b, dir, cc);
    var check := p.greedy && NeedCheckAdvance(atom);
    if p.greedy && !check { ClearedNonEmpty(b, dir, cc); }
    if p.greedy && p.max > 0 && SimpleLength(atom) > 0 {
      SimpleGoes(f, m, p, dir, cc, pc, s, stack, g, out);
    } else if p.min == 0 {
      ZeroGoes(f, m, p, dir, cc, check, pc, s, stack, g, out);
    } else if p.min == 1 && p.max == INF && !check {
      CodeAtAppend(m.code, pc, atom, [SplitCode(!p.greedy, -(Length(atom) + 5))]);
      BytesOne(SplitCode(!p.greedy, -(Length(atom) + 5)));
      PlusGoes(f, m, b, dir, cc, p.greedy, pc, s, stack, g, out);
    } else {
      SomeGoes(f, m, p, dir, cc, check, pc, s, stack, g, out);
    }
  }

  // The optimised greedy loop, by its list.
  lemma {:induction false} SimpleGoes(f: nat, m: Machine, p: Pattern, dir: Direction, cc: nat, pc: int, s: Place,
                                      stack: seq<int>, g: Goal, out: Exit)
    requires Ready(m, p, dir, cc, pc, s) && Inside(m.t, s)
    requires ExitComes(m, g, dir, s, CodeEnd(p, dir, cc, pc), stack, !CanBeEmpty(p), out)
    requires p.Quant? && p.greedy && p.max > 0 && SimpleLength(Gen(p.body, dir, cc)) > 0
    ensures Everywhere(m, g, pc, s, stack, Does(Running(f), m.t, p, dir, cc, s, out))
  {
    hide CodeAt, Everywhere, ExitComes, Inside, Aligned, Length, Bytes, Repeats, Then, AltCode, SimpleCode;
    hide SimpleLength, YieldsEverywhere, Repeat, Ends, CanBeEmpty;
    var b := p.body;
    SimpleNoGroups(b, dir, cc);
    SimpleFinite(m.t, b, dir, cc);
    SimpleYields(m, b, dir, cc, p.min, p.max, pc, s, stack);
    RepeatsList(Running(f), m.t, b, dir, cc, p.min, p.max, true, s, out, true);
    var ends := Repeat(Code, m.t, b, dir, cc, p.min, p.max, true, s);
    QuantEnds(m.t, p, dir, cc, s);
    if !CanBeEmpty(p) { MovesNow(m.t, p, dir, cc, s); }
    ListGoes(m, g, dir, pc, s, CodeEnd(p, dir, cc, pc), stack, !CanBeEmpty(p), out, ends);
  }

  lemma {:induction false} SimpleFinite(t: Text, p: Pattern, dir: Direction, cc: nat)
    requires Emittable(p, cc) && SimpleLength(Gen(p, dir, cc)) >= 0
    ensures Finite(t, p, dir, cc)
  {
    hide QuantCode, AlwaysMoves;
    if p.Cat? {
      CatCode(p, dir, cc);
      var a, b := FirstHalf(p, dir, cc), SecondHalf(p, dir, cc);
      SimpleAppend(Gen(a.p, dir, a.cc), Gen(b.p, dir, b.cc));
      SimpleFinite(t, a.p, dir, a.cc);
      SimpleFinite(t, b.p, dir, b.cc);
    } else if p.Quant? {
      QuantSimple(Gen(p.body, dir, cc), cc, Groups(p.body), p.min, p.max, p.greedy);
      if p.max == 1 { SimpleFinite(t, p.body, dir, cc); }
    } else if p.Group? || p.Look? || p.Alt? {
      NotSimple(p, dir, cc);
    }
  }

  // No mandatory round: the groups of the atom are forgotten first.
  lemma {:induction false} ZeroGoes(f: nat, m: Machine, p: Pattern, dir: Direction, cc: nat, check: bool, pc: int,
                                    s: Place, stack: seq<int>, g: Goal, out: Exit)
    requires g.n <= f && Emittable(p, cc) && Inside(m.t, s) && Aligned(m.t, s.at)
    requires p.Quant? && p.min == 0 && Guarded(p.body, check, p.greedy)
    requires var atom := Gen(p.body, dir, cc);
      var code := ResetCode(cc, Groups(p.body)) + if p.max == 1 then OptionalCode(atom, check, p.greedy)
          else TailCode(atom, check, p.max, p.greedy);
      CodeAt(m.code, pc, code) && ExitComes(m, g, dir, s, pc + Length(code), stack, false, out)
    ensures Inside(m.t, Reset(s, cc, Groups(p.body)))
    ensures Everywhere(m, g, pc, s, stack,
                       Repeats(Running(f), m.t, p.body, dir, cc, 0, p.max, p.greedy, Reset(s, cc, Groups(p.body)), out))
    decreases p.body, 3, 0, 0, 0
  {
    hide CodeAt, Gen, Everywhere, Inside, Aligned, Length, Bytes, Repeats, OptionalCode, TailCode, ResetCode, Reset;
    hide CanBeEmpty, ExitComes;
    InsideAt(m.t, s);
    var b, n, atom := p.body, Groups(p.body), Gen(p.body, dir, cc);
    var tail := if p.max == 1 then OptionalCode(atom, check, p.greedy) else TailCode(atom, check, p.max, p.greedy);
    var q, pc2 := Reset(s, cc, n), pc + Length(ResetCode(cc, n));
    CodeAtAppend(m.code, pc, ResetCode(cc, n), tail);
    ResetAhead(m.t, dir, s, cc, n);
    ExitAhead(m, g, dir, s, pc2 + Length(tail), stack, false, out, q, false);
    if p.max == 1 {
      OptionalGoes(f, m, b, dir, cc, check, p.greedy, pc2, q, stack, g, out);
    } else {
      TailGoes(f, m, b, dir, cc, check, p.max, p.greedy, pc2, q, stack, g, out);
    }
    ResetGoes(m, g, cc, n, pc, s, stack, Repeats(Running(f), m.t, b, dir, cc, 0, p.max, p.greedy, q, out));
  }

  lemma ResetAhead(t: Text, dir: Direction, s: Place, cc: nat, n: nat)
    requires Inside(t, s)
    ensures Inside(t, Reset(s, cc, n)) && Reset(s, cc, n).at == s.at && Ahead(t, dir, s, Reset(s, cc, n))
  {
  }

  lemma {:induction false} ResetGoes(m: Machine, g: Goal, cc: nat, n: nat, pc: int, s: Place, stack: seq<int>,
                                     v: Verdict)
    requires s.at <= |m.t.units| && CodeAt(m.code, pc, ResetCode(cc, n))
    requires Everywhere(m, g, pc + Length(ResetCode(cc, n)), Reset(s, cc, n), stack, v)
    ensures Everywhere(m, g, pc, s, stack, v)
  {
    hide CodeAt, Everywhere, Bytes;
    if n > 0 {
      BytesOne(SaveReset(cc, cc + n - 1));
      StepGoes(m, g, pc, SaveReset(cc, cc + n - 1), s, stack, pc + 3, Forget(s, cc, n), stack, v);
    }
  }

  // The mandatory rounds and those after them.
  lemma {:induction false} SomeGoes(f: nat, m: Machine, p: Pattern, dir: Direction, cc: nat, check: bool, pc: int,
                                    s: Place, stack: seq<int>, g: Goal, out: Exit)
    requires g.n <= f && Emittable(p, cc) && Inside(m.t, s) && Aligned(m.t, s.at)
    requires p.Quant? && p.min > 0 && Guarded(p.body, check, p.greedy)
    requires var atom := Gen(p.body, dir, cc);
      var code := ExactCode(atom, p.min) + TailCode(atom, check, Rest(p.min, p.max), p.greedy);
      CodeAt(m.code, pc, code) && ExitComes(m, g, dir, s, pc + Length(code), stack, !CanBeEmpty(p), out)
    ensures Everywhere(m, g, pc, s, stack, Repeats(Running(f), m.t, p.body, dir, cc, p.min, p.max, p.greedy, s, out))
    decreases p.body, 3, 0, 0, 0
  {
    hide CodeAt, Gen, Everywhere, Inside, Aligned, Length, Bytes, Repeats, TailCode, ExactLoop, ExitComes, Does, Next;
    var b, atom, rest := p.body, Gen(p.body, dir, cc), Rest(p.min, p.max);
    var first, last := ExactCode(atom, p.min), TailCode(atom, check, rest, p.greedy);
    CodeAtAppend(m.code, pc, first, last);
    var mid := pc + Length(first);
    var tail, must := Tail(f, m.t, b, dir, cc, rest, p.greedy, out), !CanBeEmpty(b);
    forall q | Ahead(m.t, dir, s, q) && (must ==> q.at != s.at) ensures Everywhere(m, g, mid, q, stack, tail(q)) {
      InsideAhead(m.t, dir, s, q);
      InsideAt(m.t, q);
      ExitAhead(m, g, dir, s, mid + Length(last), stack, !CanBeEmpty(p), out, q, false);
      TailGoes(f, m, b, dir, cc, check, rest, p.greedy, mid, q, stack, g, out);
    }
    ExitBy(m, g, dir, s, mid, stack, must, tail);
    FirstRounds(f, m, p, dir, cc, pc, s, stack, g, out);
  }

  lemma {:induction false} FirstRounds(f: nat, m: Machine, p: Pattern, dir: Direction, cc: nat, pc: int, s: Place,
                                       stack: seq<int>, g: Goal, out: Exit)
    requires g.n <= f && Emittable(p, cc) && Inside(m.t, s) && Aligned(m.t, s.at) && p.Quant? && p.min > 0
    requires CodeAt(m.code, pc, ExactCode(Gen(p.body, dir, cc), p.min))
    requires ExitComes(m, g, dir, s, pc + Length(ExactCode(Gen(p.body, dir, cc), p.min)), stack, !CanBeEmpty(p.body),
                      Tail(f, m.t, p.body, dir, cc, Rest(p.min, p.max), p.greedy, out))
    ensures Everywhere(m, g, pc, s, stack, Repeats(Running(f), m.t, p.body, dir, cc, p.min, p.max, p.greedy, s, out))
    decreases p.body, 2, 0, 0, 0
  {
    hide CodeAt, Gen, Everywhere, Inside, Aligned, Length, Bytes, ExactLoop, ExitComes, Does, CanBeEmpty, Next, Tail;
    InsideAt(m.t, s);
    var b, atom, rest := p.body, Gen(p.body, dir, cc), Rest(p.min, p.max);
    var tail, must := Tail(f, m.t, b, dir, cc, rest, p.greedy, out), !CanBeEmpty(b);
    assert Total(p.min, rest) == p.max;
    if p.min == 1 {
      var next := Next(Running(f), m.t, b, dir, cc, 1, p.max, p.greedy, s, out);
      forall q | Ahead(m.t, dir, s, q) && (must ==> q.at != s.at)
        ensures Everywhere(m, g, CodeEnd(b, dir, cc, pc), q, stack, next(q))
      {
        FirstRound(f, m.t, b, dir, cc, p.max, p.greedy, s, q, out);
        ExitAt(m, g, dir, s, CodeEnd(b, dir, cc, pc), stack, must, tail, q);
      }
      ExitBy(m, g, dir, s, CodeEnd(b, dir, cc, pc), stack, must, next);
      Goes(f, m, b, dir, cc, pc, s, stack, g, next);
    } else {
      CodeAtAppend(m.code, pc, [PushI32(p.min)], ExactLoop(atom));
      BytesOne(PushI32(p.min));
      ExactParts(m, pc + 5, atom);
      ExactGoes(f, m, b, dir, cc, p.min, rest, p.greedy, pc + 5, s, stack, g, out);
      StepGoes(m, g, pc, PushI32(p.min), s, stack, pc + 5, s, stack
          + [p.min], Repeats(Running(f), m.t, b, dir, cc, p.min, p.max, p.greedy, s, out));
    }
  }

  lemma FirstRound(f: nat, t: Text, p: Pattern, dir: Direction, cc: nat, max: nat, greedy: bool, s: Place, q: Place,
                   out: Exit)
    requires Inside(t, s) && 0 < max <= INF && Ahead(t, dir, s, q)
    ensures Next(Running(f), t, p, dir, cc, 1, max, greedy, s, out)(q)
      == Tail(f, t, p, dir, cc, Rest(1, max), greedy, out)(q)
  {
    hide Repeats;
    NextIs(Running(f), t, p, dir, cc, 1, max, greedy, s, q, out);
  }
}
