// The optimised greedy loop over a simple atom refines the general one (libregexp.c:952-989,
// 1490-1513, 2058-2080 and 2369-2408).
module ReSimple {
  import opened ReText
  import opened ReCode
  import opened ReRange
  import opened RePattern
  import opened ReGen
  import opened ReMachine
  import opened ReLoops

  lemma {:induction false} BackwardsAdd(t: Text, at: nat, a: nat, b: nat)
    requires at <= |t.units|
    ensures Backwards(t, at, a + b) == Backwards(t, Backwards(t, at, a), b)
    decreases a
  {
    if a > 0 && at > 0 {
      BackwardsAdd(t, Before(t, at, 0), a - 1, b);
    }
  }

  // A simple atom runs straight to one end, undone by n times PREV_CHAR, or to none.
  ghost predicate RunsStraight(m: Machine, ends: seq<Place>, pc: int, until: int, s: Place, n: int) {
    s.at <= |m.t.units| && n >= 0 && |ends| <= 1
    && (|ends| == 0 ==> Nested(m, pc, s.at) == Blocked)
    && (|ends| == 1 ==>
          ends[0].caps == s.caps && s.at <= ends[0].at <= |m.t.units|
              && Nested(m, pc, s.at) == Nested(m, until, ends[0].at)
          && Backwards(m.t, ends[0].at, n) == s.at)
  }

  lemma {:induction false} CharRuns(m: Machine, p: Pattern, pc: int, s: Place)
    requires OneChar(p) && Emittable(p, 0) && CodeAt(m.code, pc, [CharCode(p)]) && Inside(m.t, s) && Aligned(m.t, s.at)
    ensures RunsStraight(m, OneEnd(m.t, p, Forward, s), pc, pc + Size(CharCode(p)), s, 1)
  {
    hide CharCode, CharHit, Accepts, CodeAt, Fetch;
    FetchAt(m.code, pc, CharCode(p));
    if s.at < |m.t.units| {
      CharCodeHits(m.t, p, Char(m.t, s.at, |m.t.units|));
      AfterBefore(m.t, s.at);
      var next := After(m.t, s.at, |m.t.units|);
      assert Backwards(m.t, next, 1) == Backwards(m.t, Before(m.t, next, 0), 0);
    }
  }

  // The character instruction tests what the pattern asks.
  lemma {:induction false} CharCodeHits(t: Text, p: Pattern, c: CodePoint)
    requires OneChar(p) && Emittable(p, 0)
    ensures CharHit(t, CharCode(p), c) == Accepts(t, p, c)
  {
    if p.Class? { RangeAccepts(p.points, Canon(t, c)); }
  }

  lemma {:induction false} TestRuns(m: Machine, e: Edge, pc: int, s: Place)
    requires CodeAt(m.code, pc, [TestCode(e)]) && Inside(m.t, s)
    ensures RunsStraight(m, if AtEdge(m.t, e, s.at) then [s] else [], pc, pc + 1, s, 0)
  {
    FetchAt(m.code, pc, TestCode(e));
  }

  lemma {:induction false} EndsFromOne(t: Text, p: Pattern, dir: Direction, cc: nat, s: Place, starts: seq<Place>)
    requires Inside(t, s) && AllAhead(t, dir, s, starts) && |starts| <= 1
    requires |starts| == 1 ==> Inside(t, starts[0])
    ensures EndsFrom(Code, t, p, dir, cc, s, starts) == if starts == [] then []
      else Ends(Code, t, p, dir, cc, starts[0])
  {
    hide Ends;
    if |starts| == 1 {
      assert starts[1..] == [];
      assert EndsFrom(Code, t, p, dir, cc, s, []) == [];
    }
  }

  lemma {:induction false} StraightThen(m: Machine, first: seq<Place>, second: seq<Place>, pc: int, mid: int,
                                        until: int, s: Place, a: nat, b: nat)
    requires RunsStraight(m, first, pc, mid, s, a)
    requires first == [] ==> second == []
    requires first != [] ==> RunsStraight(m, second, mid, until, first[0], b)
    ensures RunsStraight(m, second, pc, until, s, a + b)
  {
    if second != [] { BackwardsAdd(m.t, second[0].at, b, a); }
  }

  lemma {:induction false} SimpleRuns(m: Machine, p: Pattern, dir: Direction, cc: nat, pc: int, s: Place)
    requires Inside(m.t, s) && Aligned(m.t, s.at) && Emittable(p, cc)
    requires CodeAt(m.code, pc, Gen(p, dir, cc)) && SimpleLength(Gen(p, dir, cc)) >= 0
    ensures RunsStraight(m, Ends(Code, m.t, p, dir, cc, s), pc, pc
      + Length(Gen(p, dir, cc)), s, SimpleLength(Gen(p, dir, cc)))
    decreases p, 1
  {
    hide CodeAt, RunsStraight, QuantCode, EndsFrom, Repeat, OneEnd, CharCode, AtEdge, Length, Bytes, AltCode, Inside;
    hide Aligned;
    if OneChar(p) && dir.Forward? {
      CharRuns(m, p, pc, s);
      BytesOne(CharCode(p));
    } else if p.Empty? {
      EmptyRuns(m, pc, s);
      SimpleNone();
    } else if p.Test? {
      TestRuns(m, p.edge, pc, s);
      BytesOne(TestCode(p.edge));
    } else if p.Cat? {
      SimpleRunsCat(m, p, dir, cc, pc, s);
    } else if p.Quant? {
      SimpleRunsQuant(m, p, dir, cc, pc, s);
    } else {
      NotSimple(p, dir, cc);
    }
  }

  lemma EmptyRuns(m: Machine, pc: int, s: Place)
    requires Inside(m.t, s)
    ensures RunsStraight(m, [s], pc, pc, s, 0)
  {
  }

  lemma {:induction false} NotSimple(p: Pattern, dir: Direction, cc: nat)
    requires p.Group? || p.Reference? || p.Look? || p.Alt? || (OneChar(p) && dir.Backward?)
    ensures SimpleLength(Gen(p, dir, cc)) == -1
  {
    var s := Gen(p, dir, cc);
    assert !CharInstr(s[0]) && !TestInstr(s[0]);
  }

  lemma {:induction false} SimpleRunsQuant(m: Machine, p: Pattern, dir: Direction, cc: nat, pc: int, s: Place)
    requires Inside(m.t, s) && Aligned(m.t, s.at) && Emittable(p, cc) && p.Quant?
    requires CodeAt(m.code, pc, Gen(p, dir, cc)) && SimpleLength(Gen(p, dir, cc)) >= 0
    ensures RunsStraight(m, Ends(Code, m.t, p, dir, cc, s), pc, pc
      + Length(Gen(p, dir, cc)), s, SimpleLength(Gen(p, dir, cc)))
    decreases p, 0
  {
    hide CodeAt, RunsStraight, Ends, Length, SimpleLength;
    QuantSimple(Gen(p.body, dir, cc), cc, Groups(p.body), p.min, p.max, p.greedy);
    if p.max == 1 {
      OnceEnds(m.t, p.body, dir, cc, p.greedy, s);
      SimpleRuns(m, p.body, dir, cc, pc, s);
    } else {
      NeverEnds(m.t, p.body, dir, cc, p.greedy, s);
      SimpleNone();
      EmptyRuns(m, pc, s);
    }
  }

  lemma SimpleNone()
    ensures SimpleLength([]) == 0 && Length([]) == 0
  {
  }

  lemma {:induction false} NeverEnds(t: Text, p: Pattern, dir: Direction, cc: nat, greedy: bool, s: Place)
    requires Inside(t, s) && Groups(p) == 0
    ensures Ends(Code, t, Quant(p, 0, 0, greedy), dir, cc, s) == [s]
  {
  }

  lemma {:induction false} SimpleRunsCat(m: Machine, whole: Pattern, dir: Direction, cc: nat, pc: int, s: Place)
    requires Inside(m.t, s) && Aligned(m.t, s.at) && Emittable(whole, cc) && whole.Cat?
    requires CodeAt(m.code, pc, Gen(whole, dir, cc)) && SimpleLength(Gen(whole, dir, cc)) >= 0
    ensures RunsStraight(m, Ends(Code, m.t, whole, dir, cc, s), pc, pc
      + Length(Gen(whole, dir, cc)), s, SimpleLength(Gen(whole, dir, cc)))
    decreases whole, 0
  {
    hide CodeAt, SimpleLength, RunsStraight, Length, Bytes, EndsFrom, Ends, Gen;
    CatEnds(Code, m.t, whole, dir, cc, s);
    CatCode(whole, dir, cc);
    var a, b := FirstHalf(whole, dir, cc), SecondHalf(whole, dir, cc);
    var x, y, ends := Gen(a.p, dir, a.cc), Gen(b.p, dir, b.cc), Ends(Code, m.t, a.p, dir, a.cc, s);
    SimpleAppend(x, y);
    CodeAtAppend(m.code, pc, x, y);
    SimpleRuns(m, a.p, dir, a.cc, pc, s);
    StraightIsShort(m, ends, pc, pc + Length(x), s, SimpleLength(x));
    if ends != [] {
      assert Ahead(m.t, dir, s, ends[0]);
      SimpleRuns(m, b.p, dir, b.cc, pc + Length(x), ends[0]);
    }
    EndsFromOne(m.t, b.p, dir, b.cc, s, ends);
    StraightThen(m, ends, EndsFrom(Code, m.t, b.p, dir, b.cc, s, ends), pc, pc + Length(x), pc + Length(x)
        + Length(y), s, SimpleLength(x), SimpleLength(y));
  }

  lemma StraightIsShort(m: Machine, ends: seq<Place>, pc: int, until: int, s: Place, n: int)
    requires RunsStraight(m, ends, pc, until, s, n)
    ensures |ends| <= 1
  {
  }

  // A repetition is simple only when it repeats nothing or once.
  lemma {:induction false} QuantSimple(atom: seq<Instr>, cc: nat, n: nat, min: nat, max: nat, greedy: bool)
    requires min <= max <= INF && SimpleLength(QuantCode(atom, cc, n, min, max, greedy)) >= 0
    ensures (max == 0 && n == 0 && QuantCode(atom, cc, n, min, max, greedy) == [])
      || (min == 1 && max == 1 && QuantCode(atom, cc, n, min, max, greedy) == atom)
  {
    hide CharInstr, TestInstr, Length, RoundCode, RoundLength, NeedCheckAdvance, TailCode;
    var check := greedy && NeedCheckAdvance(atom);
    NotSimpleInstr();
    if greedy && max > 0 && SimpleLength(atom) > 0 {
      SimpleHead([], SimpleCode(atom, min, max));
    } else if min == 0 && max == 1 {
      SimpleHead(ResetCode(cc, n), OptionalCode(atom, check, greedy));
    } else if min == 0 {
      TailSimple(ResetCode(cc, n), atom, check, max, greedy);
      if n > 0 { SimpleHead([], ResetCode(cc, n)); }
    } else if min == 1 && max == INF && !check {
      SimpleHead(atom, [SplitCode(!greedy, -(Length(atom) + 5))]);
    } else {
      TailSimple(ExactCode(atom, min), atom, check, Rest(min, max), greedy);
      if min > 1 { SimpleHead([], [PushI32(min)] + ExactLoop(atom)); }
    }
  }

  lemma {:induction false} TailSimple(a: seq<Instr>, atom: seq<Instr>, check: bool, max: nat, greedy: bool)
    requires SimpleLength(a + TailCode(atom, check, max, greedy)) >= 0
    ensures max == 0 && a + TailCode(atom, check, max, greedy) == a
  {
    hide SimpleLength, RoundCode, RoundLength;
    if max == INF {
      SimpleHead(a, StarCode(atom, check, greedy));
    } else if max > 0 {
      SimpleHead(a, CountedCode(atom, check, greedy, max));
    }
  }

  lemma NotSimpleInstr()
    ensures forall i: Instr :: CharInstr(i) || TestInstr(i) ==>
      !i.SimpleGreedyQuant? && !i.SplitGotoFirst? && !i.SplitNextFirst? && !i.PushI32? && !i.SaveReset?
  {
  }

  lemma {:induction false} SimpleHead(a: seq<Instr>, b: seq<Instr>)
    requires b != [] && SimpleLength(a + b) >= 0
    ensures CharInstr(b[0]) || TestInstr(b[0])
  {
    SimpleAppend(a, b);
  }

  // A simple atom of positive length never matches the empty text.
  lemma {:induction false} SimplePlain(s: seq<Instr>)
    requires SimpleLength(s) >= 0
    ensures AllPlain(s) && (SimpleLength(s) > 0 ==> HasChar(s))
  {
    if s != [] {
      SimplePlain(s[1..]);
      assert s == [s[0]] + s[1..];
      PlainAppend([s[0]], s[1..]);
      if CharInstr(s[0]) { assert CharInstr([s[0]][0]); }
    }
  }

  // Going back k rounds of len characters.
  function Rewind(t: Text, at: nat, len: nat, k: nat): (r: nat)
    ensures r <= at
  {
    if k == 0 then at else Backwards(t, Rewind(t, at, len, k - 1), len)
  }

  // The places tried in turn: s, one round back, ..., k rounds back.
  function Retries(t: Text, s: Place, len: nat, k: nat): (r: seq<Place>)
    ensures |r| == k + 1
  {
    if k == 0 then [s] else Retries(t, s, len, k - 1) + [s.(at := Rewind(t, s.at, len, k))]
  }

  lemma {:induction false} RetriesShift(t: Text, s: Place, len: nat, k: nat)
    requires k > 0
    ensures Retries(t, s, len, k) == [s] + Retries(t, s.(at := Backwards(t, s.at, len)), len, k - 1)
    ensures Rewind(t, s.at, len, k) == Rewind(t, Backwards(t, s.at, len), len, k - 1)
  {
    var q := s.(at := Backwards(t, s.at, len));
    if k > 1 {
      RetriesShift(t, s, len, k - 1);
      assert [s] + (Retries(t, q, len, k - 2) + [s.(at := Rewind(t, s.at, len, k))])
          == [s] + Retries(t, q, len, k - 2) + [s.(at := Rewind(t, s.at, len, k))];
    } else {
      assert Rewind(t, s.at, len, 0) == s.at;
      assert Retries(t, s, len, 0) == [s] && Retries(t, q, len, 0) == [q];
    }
  }

  // A saved greedy state with k rounds to give back yields each place once, nearest first.
  function GreedyStates(pc: int, s: Place, stack: seq<int>, k: nat): seq<Saved> {
    if k == 0 then [] else [Saved(GreedyKind, pc + 1, s.at, s.caps, stack, k)]
  }

  lemma {:induction false} FailGreedy(m: Machine, pc: int, i: Instr, s: Place, stack: seq<int>, k: nat,
                                      base: seq<Saved>)
    requires k > 0 && i.SimpleGreedyQuant? && Fetch(m.code, pc) == Some(i)
    ensures var q := s.(at := Backwards(m.t, s.at, i.len));
      Fail(m, base + GreedyStates(pc, s, stack, k))
          == Run(pc + 17 + i.next, q, stack, base + GreedyStates(pc, q, stack, k - 1))
  {
    hide Fetch;
    var all := base + GreedyStates(pc, s, stack, k);
    assert all[..|all| - 1] == base;
    assert base + [] == base;
  }

  lemma {:induction false} RetriesYield(m: Machine, pc: int, i: Instr, s: Place, stack: seq<int>, k: nat,
                                        base: seq<Saved>)
    requires i.SimpleGreedyQuant? && Fetch(m.code, pc) == Some(i)
    ensures Yields(m, Run(pc + 17 + i.next, s, stack, base + GreedyStates(pc, s, stack, k)), pc + 17
      + i.next, stack, base,
                   Retries(m.t, s, i.len, k))
    decreases k
  {
    hide Fetch, Reaches, Fail, Retries;
    var e, over := pc + 17 + i.next, GreedyStates(pc, s, stack, k);
    ReachesSelf(m, Run(e, s, stack, base + over));
    if k == 0 {
      assert base + [] == base;
      YieldsOne(m, Run(e, s, stack, base), e, s, stack, base);
      RetriesNone(m.t, s, i.len);
    } else {
      var q := s.(at := Backwards(m.t, s.at, i.len));
      FailGreedy(m, pc, i, s, stack, k, base);
      RetriesYield(m, pc, i, q, stack, k - 1, base);
      RetriesShift(m.t, s, i.len, k);
      assert Retries(m.t, s, i.len, k)[1..] == Retries(m.t, q, i.len, k - 1);
      assert YieldsNext(m, Run(e, s, stack, base + over), e, stack, base, Retries(m.t, s, i.len, k), over);
    }
  }

  lemma RetriesNone(t: Text, s: Place, len: nat)
    ensures Retries(t, s, len, 0) == [s]
  {
  }

  // What the counting loop finds, against RepeatMatcher: c rounds can be done from s, ending at last.
  ghost predicate CountsRepeat(t: Text, s: Place, last: nat, k: nat, min: nat, len: nat, ends: seq<Place>) {
    Rewind(t, last, len, k) == s.at && ends == if k < min then [] else Retries(t, s.(at := last), len, k - min)
  }

  lemma {:induction false} LastRound(t: Text, p: Pattern, dir: Direction, cc: nat, min: nat, max: nat, s: Place,
                                     q: Place, len: nat)
    requires Inside(t, s) && min <= 1 && max == 1 && Ends(Code, t, p, dir, cc, s) == [q] && q.at != s.at
    requires Ahead(t, dir, s, q)
    requires Backwards(t, q.at, len) == s.at && q.caps == s.caps
    ensures CountsRepeat(t, s, q.at, 1, min, len, Repeat(Code, t, p, dir, cc, min, 1, true, s))
  {
    OneRound(t, p, dir, cc, min, 1, s, q);
    assert Repeat(Code, t, p, dir, cc, 0, 0, true, q) == [q];
    assert Rewind(t, q.at, len, 0) == q.at;
    assert s.(at := q.at) == q;
    assert Retries(t, q, len, 0) == [q] && q.(at := s.at) == s;
    assert Retries(t, q, len, 1) == [q] + [s];
  }

  // With one way through the atom, one round is followed by the rest.
  lemma {:induction false} OneRound(t: Text, p: Pattern, dir: Direction, cc: nat, min: nat, max: nat, s: Place,
                                    q: Place)
    requires Inside(t, s) && max > 0 && Ends(Code, t, p, dir, cc, s) == [q] && q.at != s.at && Inside(t, q)
    ensures var rest := Repeat(Code, t, p, dir, cc, if min > 0 then min - 1 else 0, Less(max), true, q);
      Repeat(Code, t, p, dir, cc, min, max, true, s) == if min > 0 then rest else rest + [s]
  {
    hide Repeat;
    var ends := RoundEnds(t, p, dir, cc, min, max, true, s);
    assert ends == [q] by { MovedAll(s, [q]); }
    RepeatIsMore(t, p, dir, cc, min, max, true, s);
    FlattenRepeat(t, p, dir, cc, min, max, true, s, ends);
    var lists := RepeatLists(t, p, dir, cc, if min > 0 then min - 1 else 0, Less(max), true, ends);
    assert lists == [lists[0]] && lists[1..] == [];
    assert Flatten(lists[1..]) == [];
  }

  lemma {:induction false} NoRound(t: Text, p: Pattern, dir: Direction, cc: nat, min: nat, max: nat, s: Place)
    requires Inside(t, s) && max > 0 && Ends(Code, t, p, dir, cc, s) == []
    ensures Repeat(Code, t, p, dir, cc, min, max, true, s) == if min > 0 then [] else [s]
  {
    assert RoundEnds(t, p, dir, cc, min, max, true, s) == [];
    RepeatIsMore(t, p, dir, cc, min, max, true, s);
    assert More(t, p, dir, cc, min, max, true, s) == [];
  }

  lemma {:induction false} MoreRounds(t: Text, s: Place, q: Place, last: nat, k: nat, min: nat, len: nat,
                                      rest: seq<Place>)
    requires Backwards(t, q.at, len) == s.at && q.caps == s.caps
    requires CountsRepeat(t, q, last, k, if min > 0 then min - 1 else 0, len, rest)
    ensures CountsRepeat(t, s, last, k + 1, min, len, if min > 0 then rest else rest + [s])
  {
    assert s.(at := last) == q.(at := last);
    if min == 0 {
      assert s.(at := last).(at := s.at) == s;
    }
  }

  // The counting loop stops with the longest run, from which the rounds given back are those of RepeatMatcher.
  lemma {:induction false} GreedyCounts(m: Machine, p: Pattern, dir: Direction, cc: nat, pc: int, min: nat, max: nat,
                                        q0: nat, limit: nat, s: Place)
    requires Inside(m.t, s) && Aligned(m.t, s.at) && Emittable(p, cc) && min <= max <= INF && max > 0
    requires CodeAt(m.code, pc, Gen(p, dir, cc) + [Match]) && SimpleLength(Gen(p, dir, cc)) > 0
    requires if max == INF then limit == INF else limit == q0 + max && limit != INF
    ensures var r := GreedyRun(m, pc, limit, q0, s.at);
      r.Some? && r.value.q >= q0
      && CountsRepeat(m.t, s, r.value.at, r.value.q - q0, min, SimpleLength(Gen(p, dir, cc)),
                      Repeat(Code, m.t, p, dir, cc, min, max, true, s))
    decreases |m.t.units| - s.at
  {
    hide CodeAt, Fetch, Ends, Repeat, Gen, SimpleLength, CountsRepeat, GreedyRun, Nested, Ahead, Backwards;
    var atom := Gen(p, dir, cc);
    var len := SimpleLength(atom);
    AtomRun(m, p, dir, cc, pc, s);
    var ends := Ends(Code, m.t, p, dir, cc, s);
    GreedyRunStep(m, pc, limit, q0, s.at);
    if ends == [] {
      NoRound(m.t, p, dir, cc, min, max, s);
      CountsNone(m.t, s, min, len, Repeat(Code, m.t, p, dir, cc, min, max, true, s));
    } else {
      var q := ends[0];
      if max == 1 {
        LastRound(m.t, p, dir, cc, min, max, s, q, len);
      } else {
        var min2 := if min > 0 then min - 1 else 0;
        GreedyCounts(m, p, dir, cc, pc, min2, Less(max), q0 + 1, limit, q);
        OneRound(m.t, p, dir, cc, min, max, s, q);
        var r := GreedyRun(m, pc, limit, q0 + 1, q.at).value;
        MoreRounds(m.t, s, q, r.at, r.q - q0 - 1, min, len, Repeat(Code, m.t, p, dir, cc, min2, Less(max), true, q));
      }
    }
  }

  lemma {:induction false} GreedyRunStep(m: Machine, pc: int, max: nat, q: nat, at: nat)
    requires at <= |m.t.units|
    ensures Nested(m, pc, at).Blocked? ==> GreedyRun(m, pc, max, q, at) == Some(Count(q, at))
    ensures Nested(m, pc, at).Reached? && Nested(m, pc, at).at != at ==>
      GreedyRun(m, pc, max, q, at)
      == if q + 1 >= max && max != INF then Some(Count(q + 1, Nested(m, pc, at).at))
         else GreedyRun(m, pc, max, q + 1, Nested(m, pc, at).at)
  {
    hide Nested;
  }

  lemma CountsNone(t: Text, s: Place, min: nat, len: nat, ends: seq<Place>)
    requires ends == if min > 0 then [] else [s]
    ensures CountsRepeat(t, s, s.at, 0, min, len, ends)
  {
  }

  // One nested run of the atom.
  lemma {:induction false} AtomRun(m: Machine, p: Pattern, dir: Direction, cc: nat, pc: int, s: Place)
    requires Inside(m.t, s) && Aligned(m.t, s.at) && Emittable(p, cc)
    requires CodeAt(m.code, pc, Gen(p, dir, cc) + [Match]) && SimpleLength(Gen(p, dir, cc)) > 0
    ensures var ends := Ends(Code, m.t, p, dir, cc, s);
      |ends| <= 1 && (ends == [] ==> Nested(m, pc, s.at) == Blocked)
      && (ends != [] ==>
            ends == [ends[0]] && Nested(m, pc, s.at) == Reached(ends[0].at) && ends[0].at > s.at
                && ends[0].caps == s.caps
            && Ahead(m.t, dir, s, ends[0]) && Inside(m.t, ends[0]) && Aligned(m.t, ends[0].at)
            && Backwards(m.t, ends[0].at, SimpleLength(Gen(p, dir, cc))) == s.at)
  {
    hide CodeAt, Fetch, Ends, Gen, SimpleLength, Length, Bytes;
    var atom, ends := Gen(p, dir, cc), Ends(Code, m.t, p, dir, cc, s);
    CodeAtAppend(m.code, pc, atom, [Match]);
    SimpleRuns(m, p, dir, cc, pc, s);
    FetchAt(m.code, pc + Length(atom), Match);
    SimplePlain(atom);
    CheckAdvanceSound(m.t, p, dir, cc, s);
    if ends != [] { assert Ahead(m.t, dir, s, ends[0]); }
  }

  // The opcode's step: the places it then offers in turn, nearest to the last first.
  lemma {:induction false} SimpleFrom(m: Machine, pc: int, i: Instr, c: Count, s: Place, stack: seq<int>,
                                      base: seq<Saved>)
    requires s.at <= |m.t.units| && i.SimpleGreedyQuant? && CodeAt(m.code, pc, [i])
    requires GreedyRun(m, pc + 17, i.max, 0, s.at) == Some(c)
    ensures Yields(m, Run(pc, s, stack, base), pc + 17 + i.next, stack, base,
                   if c.q < i.min then [] else Retries(m.t, s.(at := c.at), i.len, c.q - i.min))
  {
    hide CodeAt, Yields, Retries, GreedyRun, Fetch;
    var e, last := pc + 17 + i.next, s.(at := c.at);
    FetchAt(m.code, pc, i);
    if c.q < i.min {
      YieldsNone(m, Fail(m, base), e, stack, base);
      StepYields(m, pc, i, s, stack, base, Fail(m, base), e, stack, []);
    } else {
      assert base + [] == base;
      RetriesYield(m, pc, i, last, stack, c.q - i.min, base);
      StepYields(m, pc, i, s, stack, base, Run(e, last, stack, base + GreedyStates(pc, last, stack, c.q - i.min)), e,
                 stack,
                 Retries(m.t, last, i.len, c.q - i.min));
    }
  }

  lemma {:induction false} SimpleYields(m: Machine, p: Pattern, dir: Direction, cc: nat, min: nat, max: nat, pc: int,
                                        s: Place, stack: seq<int>)
    requires Inside(m.t, s) && Aligned(m.t, s.at) && Emittable(p, cc) && min <= max <= INF && max > 0
    requires SimpleLength(Gen(p, dir, cc)) > 0 && CodeAt(m.code, pc, SimpleCode(Gen(p, dir, cc), min, max))
    ensures YieldsEverywhere(m, pc, s, stack, pc + Length(SimpleCode(Gen(p, dir, cc), min, max)), stack,
                             Repeat(Code, m.t, p, dir, cc, min, max, true, s))
  {
    hide CodeAt, Fetch, Repeat, Gen, SimpleLength, Yields, Length, Bytes, Retries, Rewind, Nested, GreedyRun;
    InsideAt(m.t, s);
    var atom := Gen(p, dir, cc);
    var len := SimpleLength(atom);
    var i := SimpleGreedyQuant(Length(atom) + 1, min, max, len);
    SimpleParts(m, pc, atom, min, max);
    GreedyCounts(m, p, dir, cc, pc + 17, min, max, 0, max, s);
    var c := GreedyRun(m, pc + 17, max, 0, s.at).value;
    var e := pc + 18 + Length(atom);
    forall base
      ensures Yields(m, Run(pc, s, stack, base), e, stack, base, Repeat(Code, m.t, p, dir, cc, min, max, true, s))
    {
      SimpleFrom(m, pc, i, c, s, stack, base);
    }
  }

  lemma YieldsNone(m: Machine, s: State, e: int, stack: seq<int>, base: seq<Saved>)
    requires s == Fail(m, base)
    ensures Yields(m, s, e, stack, base, [])
  {
    ReachesSelf(m, s);
  }

  lemma SimpleParts(m: Machine, pc: int, atom: seq<Instr>, min: nat, max: nat)
    requires SimpleLength(atom) > 0 && CodeAt(m.code, pc, SimpleCode(atom, min, max))
    ensures CodeAt(m.code, pc, [SimpleGreedyQuant(Length(atom) + 1, min, max, SimpleLength(atom))])
    ensures CodeAt(m.code, pc + 17, atom + [Match])
    ensures Length(SimpleCode(atom, min, max)) == 18 + Length(atom)
  {
    hide CodeAt, Length, Bytes, SimpleLength;
    var i := SimpleGreedyQuant(Length(atom) + 1, min, max, SimpleLength(atom));
    assert SimpleCode(atom, min, max) == [i] + (atom + [Match]);
    CodeAtAppend(m.code, pc, [i], atom + [Match]);
    CodeAtAppend(m.code, pc + 17, atom, [Match]);
    BytesOne(i);
    BytesOne(Match);
  }
}
