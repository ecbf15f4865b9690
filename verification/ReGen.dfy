// The code emitted for each pattern, as a function of the pattern (libregexp.c:768-804, 898-989, 1139-1697).
module ReGen {
  import opened ReText
  import opened ReCode
  import opened ReRange
  import opened RePattern

  predicate CharInstr(i: Instr) { i.Char16? || i.Char32? || i.Dot? || i.Any? || i.Range16? || i.Range32? }

  predicate TestInstr(i: Instr) { i.TestLineStart? || i.TestLineEnd? || i.WordBoundary? || i.NotWordBoundary? }

  // The opcodes whose effect on the position re_need_check_advance can predict.
  predicate Plain(i: Instr) {
    CharInstr(i) || TestInstr(i) || i.PushI32? || i.PushCharPos? || i.Drop? || i.Prev?
    || i.SaveStart? || i.SaveEnd? || i.SaveReset? || i.BackReference? || i.BackwardBackReference?
  }

  predicate AllPlain(s: seq<Instr>) { forall k :: 0 <= k < |s| ==> Plain(s[k]) }
  predicate HasChar(s: seq<Instr>) { exists k :: 0 <= k < |s| && CharInstr(s[k]) }

  // re_need_check_advance
  predicate NeedCheckAdvance(s: seq<Instr>) { !(AllPlain(s) && HasChar(s)) }

  // re_is_simple_quantifier
  function SimpleLength(s: seq<Instr>): (r: int)
    ensures -1 <= r <= |s|
  {
    if s == [] then 0
    else
      var rest := SimpleLength(s[1..]);
      if CharInstr(s[0]) then (if rest < 0 then -1 else rest + 1) else if TestInstr(s[0]) then rest else -1
  }

  function TestCode(e: Edge): Instr {
    match e
    case LineStart => TestLineStart
    case LineEnd => TestLineEnd
    case WordEdge => WordBoundary
    case NotWordEdge => NotWordBoundary
  }

  function CharCode(p: Pattern): (r: Instr)
    requires OneChar(p)
    ensures CharInstr(r)
  {
    match p
    case Literal(c) => if c <= 0xFFFF then Char16(c) else Char32(c)
    case AnyChar(newline) => if newline then Any else Dot
    case Class(points) => RangeInstr(points)
  }

  function SaveCode(slot: nat): Instr { if slot % 2 == 0 then SaveStart(slot / 2) else SaveEnd(slot / 2) }

  // Preferring to go on into the loop when greedy.
  function SplitCode(greedy: bool, off: int): Instr { if greedy then SplitNextFirst(off) else SplitGotoFirst(off) }

  function RoundCode(atom: seq<Instr>, check: bool): seq<Instr> {
    if check then [PushCharPos] + atom + [CheckAdvance] else atom
  }

  function RoundLength(atom: seq<Instr>, check: bool): int { Length(atom) + if check then 2 else 0 }

  function OptionalCode(atom: seq<Instr>, check: bool, greedy: bool): seq<Instr> {
    [SplitCode(greedy, RoundLength(atom, check))] + RoundCode(atom, check)
  }

  function StarCode(atom: seq<Instr>, check: bool, greedy: bool): seq<Instr> {
    [SplitCode(greedy, RoundLength(atom, check) + 5)] + RoundCode(atom, check)
        + [Goto(-(RoundLength(atom, check) + 10))]
  }

  function CountedCode(atom: seq<Instr>, check: bool, greedy: bool, n: nat): seq<Instr> {
    [PushI32(n)] + CountedLoop(atom, check, greedy)
  }

  function CountedLoop(atom: seq<Instr>, check: bool, greedy: bool): seq<Instr> {
    [SplitCode(greedy, RoundLength(atom, check) + 5)] + RoundCode(atom, check)
    + [Loop(-(RoundLength(atom, check) + 10))] + [Drop]
  }

  function ExactLoop(atom: seq<Instr>): seq<Instr> { atom + [Loop(-(Length(atom) + 5))] + [Drop] }

  // The rounds that must be done.
  function ExactCode(atom: seq<Instr>, min: nat): seq<Instr> {
    if min == 1 then atom else [PushI32(min)] + ExactLoop(atom)
  }

  function SimpleCode(atom: seq<Instr>, min: nat, max: nat): seq<Instr> {
    [SimpleGreedyQuant(Length(atom) + 1, min, max, if SimpleLength(atom) > 0 then SimpleLength(atom) else 0)] + atom
        + [Match]
  }

  function ResetCode(cc: nat, n: nat): seq<Instr> { if n == 0 then [] else [SaveReset(cc, cc + n - 1)] }

  // The optional rounds after the mandatory ones.
  function TailCode(atom: seq<Instr>, check: bool, max: nat, greedy: bool): seq<Instr> {
    if max == 0 then [] else if max == INF then StarCode(atom, check, greedy) else CountedCode(atom, check, greedy, max)
  }

  function QuantCode(atom: seq<Instr>, cc: nat, n: nat, min: nat, max: nat, greedy: bool): seq<Instr> {
    var check := greedy && NeedCheckAdvance(atom);
    if greedy && max > 0 && SimpleLength(atom) > 0 then SimpleCode(atom, min, max)
    else if min == 0 then
      ResetCode(cc, n) + (if max == 1 then OptionalCode(atom, check, greedy) else TailCode(atom, check, max, greedy))
    else if min == 1 && max == INF && !check then
      atom + [SplitCode(!greedy, -(Length(atom) + 5))]
    else
      ExactCode(atom, min) + TailCode(atom, check, Rest(min, max), greedy)
  }

  // The rounds left once the mandatory ones are done.
  function Rest(min: nat, max: nat): nat { if max == INF then INF else if max > min then max - min else 0 }

  function AltCode(x: seq<Instr>, y: seq<Instr>): seq<Instr> {
    [SplitNextFirst(Length(x) + 5)] + x + [Goto(Length(y))] + y
  }

  function LookInstr(negative: bool, off: int): Instr { if negative then NegativeLookahead(off) else Lookahead(off) }

  function Gen(p: Pattern, dir: Direction, cc: nat): seq<Instr> {
    match p
    case Empty => []
    case Test(e) => [TestCode(e)]
    case Reference(k) => [if dir.Forward? then BackReference(k) else BackwardBackReference(k)]
    case Group(b) => [SaveCode(OpenSlot(dir, cc))] + Gen(b, dir, cc + 1) + [SaveCode(CloseSlot(dir, cc))]
    case Look(negative, behind, b) =>
      var inner := Gen(b, if behind then Backward else Forward, cc);
      [LookInstr(negative, Length(inner) + 1)] + inner + [Match]
    case Cat(a, b) =>
      if dir.Forward? then Gen(a, dir, cc) + Gen(b, dir, cc + Groups(a))
      else Gen(b, dir, cc + Groups(a)) + Gen(a, dir, cc)
    case Alt(a, b) =>
      AltCode(Gen(a, dir, cc), Gen(b, dir, cc + Groups(a)))
    case Quant(b, min, max, greedy) => QuantCode(Gen(b, dir, cc), cc, Groups(b), min, max, greedy)
    case _ => if dir.Forward? then [CharCode(p)] else [Prev] + [CharCode(p)] + [Prev]
  }

  lemma {:induction false} CatCode(p: Pattern, dir: Direction, cc: nat)
    requires p.Cat?
    ensures var a, b := FirstHalf(p, dir, cc), SecondHalf(p, dir, cc);
      Gen(p, dir, cc) == Gen(a.p, dir, a.cc) + Gen(b.p, dir, b.cc)
  {
    hide QuantCode, Length, Groups;
  }

  // The patterns the parser accepts: counts in order, at most 255 groups and 65534 intervals.
  ghost predicate Emittable(p: Pattern, cc: nat) {
    match p
    case Class(points) => Normalized(points) && |points| / 2 < 65535
    case Group(b) => cc < 255 && Emittable(b, cc + 1)
    case Reference(k) => k < 255
    case Look(_, _, b) => Emittable(b, cc)
    case Cat(a, b) => Emittable(a, cc) && Emittable(b, cc + Groups(a))
    case Alt(a, b) => Emittable(a, cc) && Emittable(b, cc + Groups(a))
    case Quant(b, min, max, _) => min <= max <= INF && Emittable(b, cc)
    case _ => true
  }

  lemma GroupBound(p: Pattern, cc: nat)
    requires Emittable(p, cc)
    ensures Groups(p) > 0 ==> cc + Groups(p) <= 255
  {
  }

  lemma PlainAppend(a: seq<Instr>, b: seq<Instr>)
    ensures AllPlain(a + b) <==> AllPlain(a) && AllPlain(b)
    ensures HasChar(a + b) <==> HasChar(a) || HasChar(b)
  {
    if AllPlain(a + b) {
      assert forall k :: 0 <= k < |a| ==> (a + b)[k] == a[k];
      assert forall k :: 0 <= k < |b| ==> (a + b)[|a| + k] == b[k];
    }
    if HasChar(a) { var k :| 0 <= k < |a| && CharInstr(a[k]); assert (a + b)[k] == a[k]; }
    if HasChar(b) { var k :| 0 <= k < |b| && CharInstr(b[k]); assert (a + b)[|a| + k] == b[k]; }
  }

  lemma {:induction false} SimpleAppend(a: seq<Instr>, b: seq<Instr>)
    ensures SimpleLength(a + b) ==
      if SimpleLength(a) < 0 || SimpleLength(b) < 0 then -1 else SimpleLength(a) + SimpleLength(b)
  {
    if a == [] { assert a + b == b; } else { assert (a + b)[1..] == a[1..] + b; SimpleAppend(a[1..], b); }
  }

  predicate AllMove(s: Place, ends: seq<Place>) { forall k :: 0 <= k < |ends| ==> ends[k].at != s.at }

  // No empty match.
  ghost predicate Moves(t: Text, p: Pattern, dir: Direction, cc: nat, s: Place)
    requires Inside(t, s)
  {
    AllMove(s, Ends(Code, t, p, dir, cc, s))
  }

  // Once away from s, never back.
  lemma AwayFrom(t: Text, dir: Direction, s: Place, q: Place, ends: seq<Place>)
    requires Ahead(t, dir, s, q) && AllAhead(t, dir, q, ends) && (q.at != s.at || AllMove(q, ends))
    ensures AllMove(s, ends)
  {
    forall k | 0 <= k < |ends| ensures ends[k].at != s.at { assert Ahead(t, dir, q, ends[k]); }
  }

  lemma AllMoveAppend(s: Place, a: seq<Place>, b: seq<Place>)
    requires AllMove(s, a) && AllMove(s, b)
    ensures AllMove(s, a + b)
  {
  }

  lemma {:induction false} EndsFromMove(t: Text, p: Pattern, dir: Direction, cc: nat, s: Place, starts: seq<Place>)
    requires Inside(t, s) && AllAhead(t, dir, s, starts)
    requires AllMove(s, starts) || (forall q :: Inside(t, q) ==> Moves(t, p, dir, cc, q))
    ensures AllMove(s, EndsFrom(Code, t, p, dir, cc, s, starts))
    decreases |starts|
  {
    hide Ends;
    if starts != [] {
      var q := starts[0];
      var now, rest := Ends(Code, t, p, dir, cc, q), EndsFrom(Code, t, p, dir, cc, s, starts[1..]);
      assert Ahead(t, dir, s, q);
      if q.at == s.at { assert Moves(t, p, dir, cc, q); }
      AwayFrom(t, dir, s, q, now);
      EndsFromMove(t, p, dir, cc, s, starts[1..]);
      AllMoveAppend(s, now, rest);
    }
  }

  // Where a pattern moves because its parts do.
  lemma {:induction false} GroupMoves(t: Text, p: Pattern, dir: Direction, cc: nat, s: Place)
    requires p.Group? && Inside(t, s) && Inside(t, Mark(s, OpenSlot(dir, cc)))
    requires Moves(t, p.body, dir, cc + 1, Mark(s, OpenSlot(dir, cc)))
    ensures Moves(t, p, dir, cc, s)
  {
    var ends := Ends(Code, t, p.body, dir, cc + 1, Mark(s, OpenSlot(dir, cc)));
    assert Ends(Code, t, p, dir, cc, s) == MarkAll(ends, CloseSlot(dir, cc));
  }

  lemma {:induction false} LeafMoves(t: Text, p: Pattern, dir: Direction, cc: nat, s: Place)
    requires OneChar(p) && Inside(t, s)
    ensures Moves(t, p, dir, cc, s)
  {
    assert Ends(Code, t, p, dir, cc, s) == OneEnd(t, p, dir, s);
  }

  lemma {:induction false} SaveInside(t: Text, s: Place, slot: nat)
    requires Inside(t, s)
    ensures Inside(t, Mark(s, slot))
  {
  }

  // What re_need_check_advance promises: code it clears never matches the empty text.
  lemma {:induction false} CheckAdvanceSound(t: Text, p: Pattern, dir: Direction, cc: nat, s: Place)
    requires Inside(t, s) && Emittable(p, cc) && !NeedCheckAdvance(Gen(p, dir, cc))
    ensures Moves(t, p, dir, cc, s)
    decreases p, 1
  {
    hide Ends, Inside, AllPlain, HasChar, Plain, QuantCode, AltCode, Length;
    if p.Group? {
      var open, close := [SaveCode(OpenSlot(dir, cc))], [SaveCode(CloseSlot(dir, cc))];
      PlainAppend(open + Gen(p.body, dir, cc + 1), close);
      PlainAppend(open, Gen(p.body, dir, cc + 1));
      NotChar(open[0]);
      NotChar(close[0]);
      SaveInside(t, s, OpenSlot(dir, cc));
      CheckAdvanceSound(t, p.body, dir, cc + 1, Mark(s, OpenSlot(dir, cc)));
      GroupMoves(t, p, dir, cc, s);
    } else if p.Cat? {
      CheckAdvanceCat(t, p, dir, cc, s);
    } else if p.Quant? {
      QuantPlain(Gen(p.body, dir, cc), cc, Groups(p.body), p.min, p.max, p.greedy);
      CheckAdvanceSound(t, p.body, dir, cc, s);
      OnceEnds(t, p.body, dir, cc, p.greedy, s);
    } else if OneChar(p) {
      LeafMoves(t, p, dir, cc, s);
    } else {
      NeverPlain(p, dir, cc);
    }
  }

  lemma NotChar(i: Instr)
    requires i.SaveStart? || i.SaveEnd?
    ensures !HasChar([i])
  {
  }

  lemma {:induction false} NeverPlain(p: Pattern, dir: Direction, cc: nat)
    requires p.Empty? || p.Test? || p.Reference? || p.Look? || p.Alt?
    ensures NeedCheckAdvance(Gen(p, dir, cc))
  {
    var s := Gen(p, dir, cc);
    if p.Look? || p.Alt? { assert !Plain(s[0]); }
  }

  ghost predicate AlwaysMoves(t: Text, p: Pattern, dir: Direction, cc: nat) {
    forall q :: Inside(t, q) ==> Moves(t, p, dir, cc, q)
  }

  lemma {:induction false} CheckAdvanceCat(t: Text, p: Pattern, dir: Direction, cc: nat, s: Place)
    requires Inside(t, s) && p.Cat? && Emittable(p, cc) && !NeedCheckAdvance(Gen(p, dir, cc))
    ensures Moves(t, p, dir, cc, s)
    decreases p, 0
  {
    hide Moves, EndsFrom, AllPlain, HasChar;
    var a, b, cb := p.first, p.second, cc + Groups(p.first);
    var x, y := Gen(a, dir, cc), Gen(b, dir, cb);
    PlainAppend(x, y);
    PlainAppend(y, x);
    if HasChar(x) { forall q | Inside(t, q) ensures Moves(t, a, dir, cc, q) { CheckAdvanceSound(t, a, dir, cc, q); } }
    if HasChar(y) { forall q | Inside(t, q) ensures Moves(t, b, dir, cb, q) { CheckAdvanceSound(t, b, dir, cb, q); } }
    CatMoves(t, p, dir, cc, s);
  }

  lemma {:induction false} CatMoves(t: Text, p: Pattern, dir: Direction, cc: nat, s: Place)
    requires Inside(t, s) && p.Cat?
    requires AlwaysMoves(t, p.first, dir, cc) || AlwaysMoves(t, p.second, dir, cc + Groups(p.first))
    ensures Moves(t, p, dir, cc, s)
  {
    hide EndsFrom, Ends;
    var a, b := FirstHalf(p, dir, cc), SecondHalf(p, dir, cc);
    assert AlwaysMoves(t, a.p, dir, a.cc) ==> Moves(t, a.p, dir, a.cc, s);
    EndsFromMove(t, b.p, dir, b.cc, s, Ends(Code, t, a.p, dir, a.cc, s));
    CatEnds(Code, t, p, dir, cc, s);
  }

  lemma PlainHead(a: seq<Instr>, b: seq<Instr>)
    requires b != [] && AllPlain(a + b)
    ensures Plain(b[0])
  {
    assert (a + b)[|a|] == b[0];
  }

  // Only {1} repeats an atom without a jump.
  lemma QuantPlain(atom: seq<Instr>, cc: nat, n: nat, min: nat, max: nat, greedy: bool)
    requires min <= max && !NeedCheckAdvance(QuantCode(atom, cc, n, min, max, greedy))
    ensures min == 1 && max == 1 && QuantCode(atom, cc, n, min, max, greedy) == atom
  {
    hide SimpleLength, Plain, CharInstr, Length, RoundCode, RoundLength, NeedCheckAdvance, TailCode;
    PlainCode(QuantCode(atom, cc, n, min, max, greedy));
    var check := greedy && NeedCheckAdvance(atom);
    if greedy && max > 0 && SimpleLength(atom) > 0 {
      PlainHead([], SimpleCode(atom, min, max));
    } else if min == 0 && max == 1 {
      PlainHead(ResetCode(cc, n), OptionalCode(atom, check, greedy));
    } else if min == 0 {
      TailPlain(ResetCode(cc, n), atom, check, max, greedy);
    } else if min == 1 && max == INF && !check {
      PlainHead(atom, [SplitCode(!greedy, -(Length(atom) + 5))]);
    } else {
      TailPlain(ExactCode(atom, min), atom, check, Rest(min, max), greedy);
      if min > 1 {
        assert QuantCode(atom, cc, n, min, max, greedy) == [PushI32(min)] + atom + [Loop(-(Length(atom) + 5)), Drop];
        PlainHead([PushI32(min)] + atom, [Loop(-(Length(atom) + 5)), Drop]);
      }
    }
  }

  lemma TailPlain(a: seq<Instr>, atom: seq<Instr>, check: bool, max: nat, greedy: bool)
    requires AllPlain(a + TailCode(atom, check, max, greedy))
    ensures max == 0 && a + TailCode(atom, check, max, greedy) == a
  {
    if max == INF {
      PlainHead(a, StarCode(atom, check, greedy));
    } else if max > 0 {
      CountedPlain(a, atom, check, greedy, max);
    }
  }

  lemma PlainCode(s: seq<Instr>)
    requires !NeedCheckAdvance(s)
    ensures AllPlain(s) && HasChar(s)
    ensures forall i: Instr :: Plain(i) ==>
      !i.SimpleGreedyQuant? && !i.SplitGotoFirst? && !i.SplitNextFirst? && !i.Loop?
    ensures forall i: Instr :: CharInstr(i) ==> !i.SaveReset?
  {
  }

  lemma CountedPlain(a: seq<Instr>, atom: seq<Instr>, check: bool, greedy: bool, n: nat)
    ensures !AllPlain(a + CountedCode(atom, check, greedy, n))
  {
    var loop := CountedLoop(atom, check, greedy);
    assert a + CountedCode(atom, check, greedy, n) == a + [PushI32(n)] + loop;
    if AllPlain(a + [PushI32(n)] + loop) { PlainHead(a + [PushI32(n)], loop); }
  }

  lemma OnceEnds(t: Text, p: Pattern, dir: Direction, cc: nat, greedy: bool, s: Place)
    requires Inside(t, s)
    ensures Ends(Code, t, Quant(p, 1, 1, greedy), dir, cc, s) == Ends(Code, t, p, dir, cc, s)
  {
    RepeatOnce(t, p, dir, cc, greedy, s, Ends(Code, t, p, dir, cc, s));
  }

  lemma {:induction false} RepeatOnce(t: Text, p: Pattern, dir: Direction, cc: nat, greedy: bool, s: Place,
                                      starts: seq<Place>)
    requires Inside(t, s) && AllAhead(t, dir, s, starts)
    ensures RepeatFrom(Code, t, p, dir, cc, 1, 1, greedy, s, starts) == starts
    decreases |starts|
  {
    if starts != [] {
      assert Ahead(t, dir, s, starts[0]);
      RepeatOnce(t, p, dir, cc, greedy, s, starts[1..]);
      assert Repeat(Code, t, p, dir, cc, 0, 0, greedy, starts[0]) == [starts[0]];
      assert starts == [starts[0]] + starts[1..];
    }
  }
}
