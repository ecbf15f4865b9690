// Whole programs: what lre_compile wraps around a pattern, and what lre_exec finds (libregexp.c:1747-1839 and
// 2418-2456).
module ReProgram {
  import opened ReText
  import opened ReCode
  import opened ReRange
  import opened RePattern
  import opened ReGen
  import opened ReMachine
  import opened ReLoops
  import opened ReCorrect

  // The code of an emittable pattern is encodable as long as it is shorter than 2^31 bytes.

  lemma {:induction false} EncodableOne(i: Instr)
    requires Encodable(i)
    ensures AllEncodable([i])
  {
  }

  lemma {:induction false} EncodableParts(a: seq<Instr>, b: seq<Instr>)
    requires AllEncodable(a) && AllEncodable(b)
    ensures AllEncodable(a + b)
  {
    EncodableAppend(a, b);
  }

  lemma {:induction false} RoundEncodable(atom: seq<Instr>, check: bool)
    requires AllEncodable(atom)
    ensures AllEncodable(RoundCode(atom, check)) && Length(RoundCode(atom, check)) == RoundLength(atom, check)
  {
    hide AllEncodable, RoundLength;
    RoundSize(atom, check);
    if check {
      EncodableOne(PushCharPos);
      EncodableOne(CheckAdvance);
      EncodableParts([PushCharPos], atom);
      EncodableParts([PushCharPos] + atom, [CheckAdvance]);
    }
  }

  lemma {:induction false} ExactEncodable(atom: seq<Instr>, min: nat)
    requires AllEncodable(atom) && 0 < min <= INF && (min > 1 ==> Length(atom) + 5 <= INT32_MAX)
    ensures AllEncodable(ExactCode(atom, min))
  {
    hide AllEncodable, Length;
    if min != 1 {
      EncodableOne(Loop(-(Length(atom) + 5)));
      EncodableOne(Drop);
      EncodableOne(PushI32(min));
      EncodableParts(atom, [Loop(-(Length(atom) + 5))]);
      EncodableParts(atom + [Loop(-(Length(atom) + 5))], [Drop]);
      EncodableParts([PushI32(min)], ExactLoop(atom));
    }
  }

  lemma {:induction false} OptionalEncodable(atom: seq<Instr>, check: bool, greedy: bool)
    requires AllEncodable(atom) && RoundLength(atom, check) <= INT32_MAX
    ensures AllEncodable(OptionalCode(atom, check, greedy))
  {
    hide AllEncodable, Length;
    RoundEncodable(atom, check);
    EncodableOne(SplitCode(greedy, RoundLength(atom, check)));
    EncodableParts([SplitCode(greedy, RoundLength(atom, check))], RoundCode(atom, check));
  }

  lemma {:induction false} TailEncodable(atom: seq<Instr>, check: bool, max: nat, greedy: bool)
    requires AllEncodable(atom) && max <= INF && (max > 0 ==> RoundLength(atom, check) + 10 <= INT32_MAX)
    ensures AllEncodable(TailCode(atom, check, max, greedy))
  {
    hide AllEncodable, Length, RoundCode, RoundLength;
    var r := RoundLength(atom, check);
    var round, head := RoundCode(atom, check), [SplitCode(greedy, r + 5)] + RoundCode(atom, check);
    RoundEncodable(atom, check);
    if max == 0 {
      EncodableNone();
    } else {
      EncodableOne(SplitCode(greedy, r + 5));
      EncodableParts([SplitCode(greedy, r + 5)], round);
      EncodableOne(Goto(-(r + 10)));
      EncodableParts(head, [Goto(-(r + 10))]);
      EncodableOne(Loop(-(r + 10)));
      EncodableOne(Drop);
      EncodableOne(PushI32(max));
      EncodableParts(head, [Loop(-(r + 10))]);
      EncodableParts(head + [Loop(-(r + 10))], [Drop]);
      EncodableParts([PushI32(max)], CountedLoop(atom, check, greedy));
    }
  }

  lemma EncodableNone()
    ensures AllEncodable([])
  {
  }

  lemma {:induction false} SimpleEncodable(atom: seq<Instr>, min: nat, max: nat)
    requires AllEncodable(atom) && min <= max <= INF && SimpleLength(atom) > 0 && Length(atom) + 1 <= INT32_MAX
    ensures AllEncodable(SimpleCode(atom, min, max))
  {
    hide AllEncodable, Length, Bytes, SimpleLength;
    SimpleShort(atom);
    var i := SimpleGreedyQuant(Length(atom) + 1, min, max, SimpleLength(atom));
    EncodableOne(i);
    EncodableOne(Match);
    EncodableParts([i], atom);
    EncodableParts([i] + atom, [Match]);
  }

  lemma {:induction false} SimpleShort(s: seq<Instr>)
    ensures SimpleLength(s) <= Length(s)
  {
    if s != [] { SimpleShort(s[1..]); }
  }

  lemma {:induction false} QuantEncodable(atom: seq<Instr>, cc: nat, n: nat, min: nat, max: nat, greedy: bool)
    requires (max > 0 ==> AllEncodable(atom)) && min <= max <= INF && (n > 0 ==> cc + n <= 255)
    requires Length(QuantCode(atom, cc, n, min, max, greedy)) <= INT32_MAX
    ensures AllEncodable(QuantCode(atom, cc, n, min, max, greedy))
  {
    hide AllEncodable, Length, RoundCode, RoundLength, SimpleLength, NeedCheckAdvance, TailCode, OptionalCode;
    hide ExactCode, SimpleCode, Bytes;
    var check := greedy && NeedCheckAdvance(atom);
    if greedy && max > 0 && SimpleLength(atom) > 0 {
      SimpleSize(atom, min, max);
      SimpleEncodable(atom, min, max);
    } else if min == 0 {
      ResetEncodable(cc, n);
      var tail := if max == 1 then OptionalCode(atom, check, greedy) else TailCode(atom, check, max, greedy);
      BytesAppend(ResetCode(cc, n), tail);
      TailSize(atom, check, max, greedy);
      if max == 0 { NoTail(atom, check, greedy); } else if max == 1 { OptionalEncodable(atom, check, greedy); }
          else { TailEncodable(atom, check, max, greedy); }
      EncodableParts(ResetCode(cc, n), tail);
    } else if min == 1 && max == INF && !check {
      var split := SplitCode(!greedy, -(Length(atom) + 5));
      BytesAppend(atom, [split]);
      BytesOne(split);
      EncodableOne(split);
      EncodableParts(atom, [split]);
    } else {
      var tail := TailCode(atom, check, Rest(min, max), greedy);
      BytesAppend(ExactCode(atom, min), tail);
      ExactSize(atom, min);
      TailSize(atom, check, Rest(min, max), greedy);
      ExactEncodable(atom, min);
      TailEncodable(atom, check, Rest(min, max), greedy);
      EncodableParts(ExactCode(atom, min), tail);
    }
  }

  lemma {:induction false} NoTail(atom: seq<Instr>, check: bool, greedy: bool)
    ensures AllEncodable(TailCode(atom, check, 0, greedy))
  {
  }

  lemma {:induction false} ResetEncodable(cc: nat, n: nat)
    requires n > 0 ==> cc + n <= 255
    ensures AllEncodable(ResetCode(cc, n))
  {
  }

  lemma {:induction false} SimpleSize(atom: seq<Instr>, min: nat, max: nat)
    ensures Length(SimpleCode(atom, min, max)) == Length(atom) + 18
  {
    hide Length, Bytes, SimpleLength;
    var i := SimpleGreedyQuant(Length(atom) + 1, min, max, if SimpleLength(atom) > 0 then SimpleLength(atom) else 0);
    BytesAppend([i] + atom, [Match]);
    BytesAppend([i], atom);
    BytesOne(i);
    BytesOne(Match);
  }

  lemma {:induction false} TailSize(atom: seq<Instr>, check: bool, max: nat, greedy: bool)
    ensures Length(TailCode(atom, check, max, greedy))
         == if max == 0 then 0 else if max == INF then RoundLength(atom, check) + 10 else RoundLength(atom, check) + 16
    ensures Length(OptionalCode(atom, check, greedy)) == RoundLength(atom, check) + 5
  {
    hide Length, Bytes, RoundCode, RoundLength;
    var r, round := RoundLength(atom, check), RoundCode(atom, check);
    RoundSize(atom, check);
    NoCode();
    BytesOne(SplitCode(greedy, r));
    BytesAppend([SplitCode(greedy, r)], round);
    BytesOne(SplitCode(greedy, r + 5));
    BytesAppend([SplitCode(greedy, r + 5)], round);
    BytesOne(Goto(-(r + 10)));
    BytesAppend([SplitCode(greedy, r + 5)] + round, [Goto(-(r + 10))]);
    BytesOne(Loop(-(r + 10)));
    BytesAppend([SplitCode(greedy, r + 5)] + round, [Loop(-(r + 10))]);
    BytesOne(Drop);
    BytesAppend([SplitCode(greedy, r + 5)] + round + [Loop(-(r + 10))], [Drop]);
    BytesOne(PushI32(max));
    BytesAppend([PushI32(max)], CountedLoop(atom, check, greedy));
  }

  lemma {:induction false} ExactSize(atom: seq<Instr>, min: nat)
    ensures Length(ExactCode(atom, min)) == if min == 1 then Length(atom) else Length(atom) + 11
  {
    hide Length, Bytes;
    var loop := Loop(-(Length(atom) + 5));
    BytesOne(loop);
    BytesOne(Drop);
    BytesOne(PushI32(min));
    BytesAppend(atom, [loop]);
    BytesAppend(atom + [loop], [Drop]);
    BytesAppend([PushI32(min)], ExactLoop(atom));
  }

  // Every operand of the emitted code fits its field.
  lemma {:induction false} GenEncodable(p: Pattern, dir: Direction, cc: nat)
    requires Emittable(p, cc) && Length(Gen(p, dir, cc)) <= INT32_MAX
    ensures AllEncodable(Gen(p, dir, cc))
    decreases p, 1
  {
    hide AllEncodable, Length, Bytes, QuantCode, RangeInstr, Encodable;
    match p
    case Empty => EncodableNone();
    case Group(b) => GroupEncodable(p, dir, cc);
    case Look(negative, behind, b) => LookEncodable(p, dir, cc);
    case Cat(a, b) => CatEncodable(p, dir, cc);
    case Alt(a, b) => AltEncodable(p, dir, cc);
    case Quant(b, min, max, greedy) => RepeatEncodable(p, dir, cc);
    case _ => LeafEncodable(p, dir, cc);
  }

  lemma {:induction false} LeafEncodable(p: Pattern, dir: Direction, cc: nat)
    requires Emittable(p, cc) && (p.Test? || p.Reference? || OneChar(p))
    ensures AllEncodable(Gen(p, dir, cc))
  {
    hide RangeInstr;
    if p.Class? { RangeInstrEncodable(p.points); }
  }

  lemma {:induction false} GroupEncodable(p: Pattern, dir: Direction, cc: nat)
    requires Emittable(p, cc) && Length(Gen(p, dir, cc)) <= INT32_MAX && p.Group?
    ensures AllEncodable(Gen(p, dir, cc))
    decreases p, 0
  {
    hide AllEncodable, Length, Bytes;
    var open, inner, close := SaveCode(OpenSlot(dir, cc)), Gen(p.body, dir, cc + 1), SaveCode(CloseSlot(dir, cc));
    BytesAppend([open] + inner, [close]);
    BytesAppend([open], inner);
    GenEncodable(p.body, dir, cc + 1);
    EncodableOne(open);
    EncodableOne(close);
    EncodableParts([open], inner);
    EncodableParts([open] + inner, [close]);
  }

  lemma {:induction false} LookEncodable(p: Pattern, dir: Direction, cc: nat)
    requires Emittable(p, cc) && Length(Gen(p, dir, cc)) <= INT32_MAX && p.Look?
    ensures AllEncodable(Gen(p, dir, cc))
    decreases p, 0
  {
    hide AllEncodable, Length, Bytes;
    var d := if p.behind then Backward else Forward;
    var inner := Gen(p.body, d, cc);
    var i := LookInstr(p.negative, Length(inner) + 1);
    BytesAppend([i] + inner, [Match]);
    BytesAppend([i], inner);
    BytesOne(i);
    GenEncodable(p.body, d, cc);
    EncodableOne(i);
    EncodableOne(Match);
    EncodableParts([i], inner);
    EncodableParts([i] + inner, [Match]);
  }

  lemma {:induction false} CatEncodable(p: Pattern, dir: Direction, cc: nat)
    requires Emittable(p, cc) && Length(Gen(p, dir, cc)) <= INT32_MAX && p.Cat?
    ensures AllEncodable(Gen(p, dir, cc))
    decreases p, 0
  {
    hide AllEncodable, Length, Bytes, Gen;
    var a, b := FirstHalf(p, dir, cc), SecondHalf(p, dir, cc);
    CatCode(p, dir, cc);
    BytesAppend(Gen(a.p, dir, a.cc), Gen(b.p, dir, b.cc));
    GenEncodable(a.p, dir, a.cc);
    GenEncodable(b.p, dir, b.cc);
    EncodableParts(Gen(a.p, dir, a.cc), Gen(b.p, dir, b.cc));
  }

  lemma {:induction false} AltEncodable(p: Pattern, dir: Direction, cc: nat)
    requires Emittable(p, cc) && Length(Gen(p, dir, cc)) <= INT32_MAX && p.Alt?
    ensures AllEncodable(Gen(p, dir, cc))
    decreases p, 0
  {
    hide AllEncodable, Length, Bytes;
    var x, y := Gen(p.left, dir, cc), Gen(p.right, dir, cc + Groups(p.left));
    var split, goto := SplitNextFirst(Length(x) + 5), Goto(Length(y));
    assert Gen(p, dir, cc) == [split] + x + [goto] + y;
    BytesAppend([split] + x + [goto], y);
    BytesAppend([split] + x, [goto]);
    BytesAppend([split], x);
    BytesOne(split);
    BytesOne(goto);
    GenEncodable(p.left, dir, cc);
    GenEncodable(p.right, dir, cc + Groups(p.left));
    EncodableOne(split);
    EncodableOne(goto);
    EncodableParts([split], x);
    EncodableParts([split] + x, [goto]);
    EncodableParts([split] + x + [goto], y);
  }

  lemma {:induction false} RepeatEncodable(p: Pattern, dir: Direction, cc: nat)
    requires Emittable(p, cc) && Length(Gen(p, dir, cc)) <= INT32_MAX && p.Quant?
    ensures AllEncodable(Gen(p, dir, cc))
    decreases p, 0
  {
    hide AllEncodable, Length, Bytes, QuantCode;
    var atom := Gen(p.body, dir, cc);
    GroupBound(p.body, cc);
    if p.max > 0 {
      AtomFits(atom, cc, Groups(p.body), p.min, p.max, p.greedy);
      GenEncodable(p.body, dir, cc);
    }
    QuantEncodable(atom, cc, Groups(p.body), p.min, p.max, p.greedy);
  }

  lemma {:induction false} AtomFits(atom: seq<Instr>, cc: nat, n: nat, min: nat, max: nat, greedy: bool)
    requires 0 < max && min <= max
    ensures Length(atom) <= Length(QuantCode(atom, cc, n, min, max, greedy))
  {
    hide Length, RoundCode, SimpleLength, NeedCheckAdvance, TailCode, OptionalCode, ExactCode, SimpleCode, Bytes;
    var check := greedy && NeedCheckAdvance(atom);
    SimpleSize(atom, min, max);
    TailSize(atom, check, max, greedy);
    ExactSize(atom, min);
    BytesAppend(ResetCode(cc, n), OptionalCode(atom, check, greedy));
    BytesAppend(ResetCode(cc, n), TailCode(atom, check, max, greedy));
    BytesAppend(atom, [SplitCode(!greedy, -(Length(atom) + 5))]);
    BytesAppend(ExactCode(atom, min), TailCode(atom, check, Rest(min, max), greedy));
  }

  // The program of lre_compile: unless sticky, any character is skipped lazily before group 0.
  const HEADER_LEN := 7

  function Skip(): Pattern { Quant(AnyChar(true), 0, INF, false) }

  function Whole(p: Pattern, sticky: bool): Pattern { if sticky then Group(p) else Cat(Skip(), Group(p)) }

  function ProgramCode(p: Pattern, sticky: bool): seq<Instr> { Gen(Whole(p, sticky), Forward, 0) + [Match] }

  lemma GroupIsCode(w: Pattern)
    ensures Gen(Group(w), Forward, 0) == [SaveStart(0)] + Gen(w, Forward, 1) + [SaveEnd(0)]
  {
    hide QuantCode, AltCode, Length, Groups, CharCode;
  }

  function Start(at: nat, groups: nat): Place { Place(at, seq(2 * groups, _ => None)) }

  function First(ends: seq<Place>): Option<Place> { if ends == [] then None else Some(ends[0]) }

  lemma {:induction false} StartInside(t: Text, at: nat, groups: nat)
    requires at <= |t.units|
    ensures Inside(t, Start(at, groups))
  {
  }

  lemma {:induction false} WholeFits(t: Text, p: Pattern, sticky: bool)
    requires Emittable(p, 1) && LazyLoopsMove(t, p, Forward, 1)
    ensures Emittable(Whole(p, sticky), 0) && LazyLoopsMove(t, Whole(p, sticky), Forward, 0)
  {
    assert Groups(Skip()) == 0;
    assert AlwaysMoves(t, AnyChar(true), Forward, 0);
  }

  // The machine stops on the whole program, with the preferred end of the pattern or with none.
  lemma {:induction false} RunEnds(m: Machine, p: Pattern, sticky: bool, s: Place)
    requires Emittable(p, 1) && LazyLoopsMove(m.t, p, Forward, 1)
    requires CodeAt(m.code, HEADER_LEN, ProgramCode(p, sticky)) && Inside(m.t, s) && Aligned(m.t, s.at)
    ensures Reaches(m, Run(HEADER_LEN, s, [], []), Done(First(Ends(Code, m.t, Whole(p, sticky), Forward, 0, s))))
  {
    hide CodeAt, Gen, Ends, Reaches, Length, Bytes, Implements, Inside, Aligned, Whole, LazyLoopsMove, AllAhead, Yields;
    var w := Whole(p, sticky);
    var e := HEADER_LEN + Length(Gen(w, Forward, 0));
    CodeAtAppend(m.code, HEADER_LEN, Gen(w, Forward, 0), [Match]);
    WholeFits(m.t, p, sticky);
    Compiled(m, w, Forward, 0);
    ImplementsHere(m, w, Forward, 0, HEADER_LEN, s, []);
    var ends := Ends(Code, m.t, w, Forward, 0, s);
    assert Yields(m, Run(HEADER_LEN, s, [], []), e, [], [], ends);
    ListEnds(m, Run(HEADER_LEN, s, [], []), e, s, ends);
  }

  // The first place of a list at the final match ends the run.
  lemma {:induction false} ListEnds(m: Machine, u: State, e: int, s: Place, ends: seq<Place>)
    requires Yields(m, u, e, [], [], ends) && AllAhead(m.t, Forward, s, ends) && CodeAt(m.code, e, [Match])
    ensures Reaches(m, u, Done(First(ends)))
  {
    hide CodeAt, Reaches, Inside, Aligned;
    if ends != [] {
      var extra :| YieldsNext(m, u, e, [], [], ends, extra);
      assert [] + extra == extra;
      assert Ahead(m.t, Forward, s, ends[0]);
      InsideAt(m.t, ends[0]);
      MatchEnds(m, e, ends[0], extra);
      ReachesTrans(m, u, Run(e, ends[0], [], extra), Done(Some(ends[0])));
    }
  }

  // The preferred end at the leftmost position that has one.
  function Leftmost(t: Text, p: Pattern, s: Place): Option<Place>
    requires Inside(t, s)
    decreases |t.units| - s.at
  {
    var ends := Ends(Code, t, Group(p), Forward, 0, s);
    if ends != [] then Some(ends[0])
    else if s.at == |t.units| then None
    else Leftmost(t, p, s.(at := After(t, s.at, |t.units|)))
  }

  // The lazy skip tries the positions from left to right.
  lemma {:induction false} SkipIsLeftmost(t: Text, p: Pattern, anchor: Place, s: Place)
    requires Inside(t, s) && Inside(t, anchor) && Ahead(t, Forward, anchor, s)
    requires AllAhead(t, Forward, anchor, Repeat(Code, t, AnyChar(true), Forward, 0, 0, INF, false, s))
    ensures First(EndsFrom(Code, t, Group(p), Forward, 0, anchor,
                           Repeat(Code, t, AnyChar(true), Forward, 0, 0, INF, false, s)))
         == Leftmost(t, p, s)
    decreases |t.units| - s.at
  {
    hide Ends;
    var starts := Repeat(Code, t, AnyChar(true), Forward, 0, 0, INF, false, s);
    SkipStep(t, s);
    var rest := starts[1..];
    var here, later := Ends(Code, t, Group(p), Forward, 0, s), EndsFrom(Code, t, Group(p), Forward, 0, anchor, rest);
    assert EndsFrom(Code, t, Group(p), Forward, 0, anchor, starts) == here + later;
    if s.at < |t.units| {
      var q := s.(at := After(t, s.at, |t.units|));
      AfterBefore(t, s.at);
      assert rest == Repeat(Code, t, AnyChar(true), Forward, 0, 0, INF, false, q);
      SkipIsLeftmost(t, p, anchor, q);
    }
  }

  lemma {:induction false} SkipStep(t: Text, s: Place)
    requires Inside(t, s)
    ensures var starts := Repeat(Code, t, AnyChar(true), Forward, 0, 0, INF, false, s);
      |starts| > 0 && starts[0] == s
      && (s.at == |t.units| ==> starts[1..] == [])
      && (s.at < |t.units| ==>
            var q := s.(at := After(t, s.at, |t.units|));
            Inside(t, q) && starts[1..] == Repeat(Code, t, AnyChar(true), Forward, 0, 0, INF, false, q))
  {
    hide Repeat;
    RepeatIsMore(t, AnyChar(true), Forward, 0, 0, INF, false, s);
    var ends := RoundEnds(t, AnyChar(true), Forward, 0, 0, INF, false, s);
    assert Ends(Code, t, AnyChar(true), Forward, 0, s) == OneEnd(t, AnyChar(true), Forward, s);
    if s.at < |t.units| {
      var q := s.(at := After(t, s.at, |t.units|));
      MovedAll(s, [q]);
      assert ends == [q];
      FlattenRepeat(t, AnyChar(true), Forward, 0, 0, INF, false, s, ends);
      var lists := RepeatLists(t, AnyChar(true), Forward, 0, 0, INF, false, ends);
      assert lists[1..] == [] && Flatten(lists[1..]) == [];
      assert Flatten(lists) == lists[0] == Repeat(Code, t, AnyChar(true), Forward, 0, 0, INF, false, q);
    } else {
      assert ends == [];
    }
  }

  // lre_exec on a program that is not sticky finds the leftmost match, and stops.
  lemma {:induction false} SearchEnds(m: Machine, p: Pattern, s: Place)
    requires Emittable(p, 1) && LazyLoopsMove(m.t, p, Forward, 1)
    requires CodeAt(m.code, HEADER_LEN, ProgramCode(p, false)) && Inside(m.t, s) && Aligned(m.t, s.at)
    ensures Reaches(m, Run(HEADER_LEN, s, [], []), Done(Leftmost(m.t, p, s)))
  {
    hide CodeAt, Ends, Reaches, ProgramCode, LazyLoopsMove;
    RunEnds(m, p, false, s);
    WholeIsLeftmost(m.t, p, s);
  }

  lemma {:induction false} WholeIsLeftmost(t: Text, p: Pattern, s: Place)
    requires Inside(t, s)
    ensures First(Ends(Code, t, Whole(p, false), Forward, 0, s)) == Leftmost(t, p, s)
  {
    hide Ends, EndsFrom, Repeat;
    var w := Whole(p, false);
    CatEnds(Code, t, w, Forward, 0, s);
    SkipEnds(t, s);
    SkipIsLeftmost(t, p, s, s);
  }

  lemma {:induction false} SkipEnds(t: Text, s: Place)
    requires Inside(t, s)
    ensures Ends(Code, t, Skip(), Forward, 0, s) == Repeat(Code, t, AnyChar(true), Forward, 0, 0, INF, false, s)
  {
    hide Repeat;
  }
}
