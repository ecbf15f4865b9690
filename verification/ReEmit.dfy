// The emitter, in place on the byte code (libregexp.c:333-391, 768-804, 898-989 and 1139-1697).
module ReEmit {
  import opened ReText
  import opened ReCode
  import opened ReRange
  import opened RePattern
  import opened ReGen

  // What parsing alone guarantees about a pattern, before the limits of the emitter.
  ghost predicate WellFormed(p: Pattern) {
    match p
    case Class(points) => Normalized(points)
    case Group(b) => WellFormed(b)
    case Reference(k) => k < 255
    case Look(_, _, b) => WellFormed(b)
    case Cat(a, b) => WellFormed(a) && WellFormed(b)
    case Alt(a, b) => WellFormed(a) && WellFormed(b)
    case Quant(b, min, max, _) => min <= INF && max <= INF && WellFormed(b)
    case _ => true
  }

  // A scan over the code can read how long each instruction is.
  predicate Measurable(i: Instr) { i.Range16? || i.Range32? ==> |i.bounds| % 2 == 0 && |i.bounds| / 2 < 0x1_0000 }

  predicate AllMeasurable(s: seq<Instr>) { forall i :: i in s ==> Measurable(i) }

  lemma {:induction false} GenMeasurable(p: Pattern, dir: Direction, cc: nat)
    requires Emittable(p, cc)
    ensures AllMeasurable(Gen(p, dir, cc))
  {
    hide RangeInstr, QuantCode, AllMeasurable, Length;
    match p
    case Empty => NoneMeasurable();
    case Group(b) =>
      GenMeasurable(b, dir, cc + 1);
      MeasurableThree(SaveCode(OpenSlot(dir, cc)), Gen(b, dir, cc + 1), SaveCode(CloseSlot(dir, cc)));
    case Look(negative, behind, b) =>
      var d := if behind then Backward else Forward;
      GenMeasurable(b, d, cc);
      MeasurableThree(LookInstr(negative, Length(Gen(b, d, cc)) + 1), Gen(b, d, cc), Match);
    case Cat(a, b) =>
      GenMeasurable(a, dir, cc);
      GenMeasurable(b, dir, cc + Groups(a));
      MeasurableAppend(Gen(a, dir, cc), Gen(b, dir, cc + Groups(a)));
      MeasurableAppend(Gen(b, dir, cc + Groups(a)), Gen(a, dir, cc));
    case Alt(a, b) =>
      var x, y := Gen(a, dir, cc), Gen(b, dir, cc + Groups(a));
      GenMeasurable(a, dir, cc);
      GenMeasurable(b, dir, cc + Groups(a));
      MeasurableThree(SplitNextFirst(Length(x) + 5), x, Goto(Length(y)));
      MeasurableAppend([SplitNextFirst(Length(x) + 5)] + x + [Goto(Length(y))], y);
    case Quant(b, min, max, greedy) =>
      GenMeasurable(b, dir, cc);
      QuantMeasurable(Gen(b, dir, cc), cc, Groups(b), min, max, greedy);
    case _ => LeafMeasurable(p, dir, cc);
  }

  lemma NoneMeasurable()
    ensures AllMeasurable([])
  {
  }

  lemma MeasurableThree(a: Instr, s: seq<Instr>, b: Instr)
    requires AllMeasurable(s) && !a.Range16? && !a.Range32? && !b.Range16? && !b.Range32?
    ensures AllMeasurable([a] + s + [b])
  {
  }

  lemma {:induction false} LeafMeasurable(p: Pattern, dir: Direction, cc: nat)
    requires Emittable(p, cc) && (p.Test? || p.Reference? || OneChar(p))
    ensures AllMeasurable(Gen(p, dir, cc))
  {
    hide RangeInstr;
    if p.Class? { RangeInstrEncodable(p.points); }
  }

  lemma {:induction false} QuantMeasurable(atom: seq<Instr>, cc: nat, n: nat, min: nat, max: nat, greedy: bool)
    requires AllMeasurable(atom)
    ensures AllMeasurable(QuantCode(atom, cc, n, min, max, greedy))
  {
    hide SimpleLength, NeedCheckAdvance, TailCode, ExactCode, OptionalCode, SimpleCode, AllMeasurable, Measurable;
    var check := greedy && NeedCheckAdvance(atom);
    TailMeasurable(atom, check, max, greedy);
    TailMeasurable(atom, check, Rest(min, max), greedy);
    HeadMeasurable(atom, cc, n, min, max);
    MeasurableAppend(ResetCode(cc, n), OptionalCode(atom, check, greedy));
    MeasurableAppend(ResetCode(cc, n), TailCode(atom, check, max, greedy));
    MeasurableAppend(ExactCode(atom, min), TailCode(atom, check, Rest(min, max), greedy));
    var split := [SplitCode(!greedy, -(Length(atom) + 5))];
    assert AllMeasurable(split) by { OneMeasurable(split[0]); }
    MeasurableAppend(atom, split);
  }

  lemma OneMeasurable(i: Instr)
    requires !i.Range16? && !i.Range32?
    ensures AllMeasurable([i])
  {
  }

  lemma MeasurableAppend(a: seq<Instr>, b: seq<Instr>)
    ensures AllMeasurable(a) && AllMeasurable(b) ==> AllMeasurable(a + b)
  {
  }

  lemma {:induction false} TailMeasurable(atom: seq<Instr>, check: bool, max: nat, greedy: bool)
    requires AllMeasurable(atom)
    ensures AllMeasurable(TailCode(atom, check, max, greedy)) && AllMeasurable(OptionalCode(atom, check, greedy))
  {
    hide AllMeasurable, Measurable, RoundLength;
    var r, round := RoundLength(atom, check), RoundCode(atom, check);
    NoneMeasurable();
    MeasurableThree(PushCharPos, atom, CheckAdvance);
    OneMeasurable(SplitCode(greedy, r));
    MeasurableAppend([SplitCode(greedy, r)], round);
    MeasurableThree(SplitCode(greedy, r + 5), round, Goto(-(r + 10)));
    MeasurableThree(SplitCode(greedy, r + 5), round, Loop(-(r + 10)));
    OneMeasurable(Drop);
    MeasurableAppend([SplitCode(greedy, r + 5)] + round + [Loop(-(r + 10))], [Drop]);
    OneMeasurable(PushI32(max));
    MeasurableAppend([PushI32(max)], CountedLoop(atom, check, greedy));
  }

  lemma {:induction false} HeadMeasurable(atom: seq<Instr>, cc: nat, n: nat, min: nat, max: nat)
    requires AllMeasurable(atom)
    ensures AllMeasurable(ResetCode(cc, n)) && AllMeasurable(ExactCode(atom, min))
    ensures AllMeasurable(SimpleCode(atom, min, max))
  {
  }

  // Reading one instruction of a known fragment.

  lemma {:induction false} FragmentAt(code: seq<Byte>, start: nat, s: seq<Instr>, k: nat)
    requires start <= |code| && code[start..] == Bytes(s) && k < |s| && AllMeasurable(s)
    ensures var pos := start + Length(s[..k]);
      pos + Size(s[k]) <= |code| && code[pos] == Opcode(s[k]) && Length(s[..k + 1]) == Length(s[..k]) + Size(s[k])
      && (s[k].Range16? || s[k].Range32? ==> Get16(code, pos + 1) == |s[k].bounds| / 2)
  {
    hide Bytes, Length, Size, Opcode, Operands, Encode, Measurable, Holds;
    var pos, i := start + Length(s[..k]), s[k];
    assert s == s[..k] + ([i] + s[k + 1..]);
    BytesAppend(s[..k], [i] + s[k + 1..]);
    BytesAppend([i], s[k + 1..]);
    BytesOne(i);
    assert s[..k + 1] == s[..k] + [i];
    BytesAppend(s[..k], [i]);
    HoldsTail(code, start, Bytes(s[..k]), Encode(i), Bytes(s[k + 1..]));
    assert i in s;
    EncodedAt(code, pos, i);
  }

  lemma {:induction false} EncodedAt(code: seq<Byte>, pos: nat, i: Instr)
    requires Holds(code, pos, Encode(i)) && Measurable(i)
    ensures pos + Size(i) <= |code| && code[pos] == Opcode(i)
    ensures i.Range16? || i.Range32? ==> Get16(code, pos + 1) == |i.bounds| / 2
  {
    hide U16, Get16, Words16, Words32, U32, Opcode;
    HoldsSplit(code, pos, [Opcode(i)], Operands(i));
    assert code[pos] == code[pos..pos + 1][0];
    if i.Range16? || i.Range32? {
      HoldsSplit(code, pos + 1, U16(|i.bounds| / 2), if i.Range16? then Words16(i.bounds) else Words32(i.bounds));
      Held16(code, pos + 1, |i.bounds| / 2);
      U16Read(|i.bounds| / 2);
    }
  }

  lemma {:induction false} HoldsTail(code: seq<Byte>, start: nat, a: seq<Byte>, b: seq<Byte>, c: seq<Byte>)
    requires start <= |code| && code[start..] == a + (b + c)
    ensures Holds(code, start + |a|, b) && |code| == start + |a| + |b| + |c|
  {
    assert code[start..start + |a + (b + c)|] == a + (b + c);
    HoldsSplit(code, start, a, b + c);
    HoldsSplit(code, start + |a|, b, c);
  }

  function SizeOf(op: Byte): nat {
    if op in {1, 13, 21, 22} then 3 else if op in {2, 7, 8, 9, 14, 15, 23, 24} then 5
    else if op in {11, 12, 19, 20} then 2 else if op == 28 then 17 else 1
  }

  lemma SizeOfInstr(i: Instr)
    ensures Size(i) == SizeOf(Opcode(i)) + if i.Range16? then 2 * |i.bounds| else if i.Range32? then 4 * |i.bounds|
      else 0
    ensures CharInstr(i) <==> Opcode(i) in {1, 2, 3, 4, 21, 22}
    ensures TestInstr(i) <==> Opcode(i) in {5, 6, 17, 18}
    ensures Plain(i) <==> Opcode(i) in {1, 2, 3, 4, 5, 6, 11, 12, 13, 15, 16, 17, 18, 19, 20, 21, 22, 25, 27}
  {
  }

  lemma {:induction false} PlainSoFar(s: seq<Instr>, k: nat)
    requires k < |s|
    ensures AllPlain(s[..k + 1]) <==> AllPlain(s[..k]) && Plain(s[k])
    ensures HasChar(s[..k + 1]) <==> HasChar(s[..k]) || CharInstr(s[k])
    ensures AllPlain(s) ==> Plain(s[k])
  {
    assert s[..k + 1] == s[..k] + [s[k]];
    PlainAppend(s[..k], [s[k]]);
    assert [s[k]][0] == s[k];
  }

  lemma {:induction false} SimpleSoFar(s: seq<Instr>, k: nat)
    requires k < |s|
    ensures SimpleLength(s[..k + 1]) == if SimpleLength(s[..k]) < 0 then -1
            else if CharInstr(s[k]) then SimpleLength(s[..k]) + 1 else if TestInstr(s[k]) then SimpleLength(s[..k])
                else -1
    ensures SimpleLength(s) >= 0 ==> SimpleLength(s[..k + 1]) >= 0
  {
    assert s[..k + 1] == s[..k] + [s[k]];
    SimpleAppend(s[..k], [s[k]]);
    assert [s[k]][1..] == [];
    assert s == s[..k + 1] + s[k + 1..];
    SimpleAppend(s[..k + 1], s[k + 1..]);
  }

  // The bytes from pos to the next instruction, as the scanners compute them.
  function Stride(code: seq<Byte>, pos: nat): nat
    requires pos < |code| && (code[pos] in {21, 22} ==> pos + 3 <= |code|)
  {
    var op := code[pos];
    if op == 21 then 3 + 4 * Get16(code, pos + 1) else if op == 22 then 3 + 8 * Get16(code, pos + 1) else SizeOf(op)
  }

  ghost predicate AtInstr(code: seq<Byte>, start: nat, s: seq<Instr>, k: nat, pos: nat) {
    start <= |code| && code[start..] == Bytes(s) && AllMeasurable(s) && k <= |s| && pos == start + Length(s[..k])
        && pos <= |code|
  }

  lemma {:induction false} ScanStart(code: seq<Byte>, start: nat, s: seq<Instr>)
    requires start <= |code| && code[start..] == Bytes(s) && AllMeasurable(s)
    ensures AtInstr(code, start, s, 0, start)
  {
  }

  // One move of a scanner.
  lemma {:induction false} ScanStep(code: seq<Byte>, start: nat, s: seq<Instr>, k: nat, pos: nat)
    requires AtInstr(code, start, s, k, pos)
    ensures pos < |code| <==> k < |s|
    ensures k < |s| ==> code[pos] == Opcode(s[k]) && (code[pos] in {21, 22} ==> pos + 3 <= |code|)
    ensures k < |s| ==> AtInstr(code, start, s, k + 1, pos + Stride(code, pos))
  {
    hide Measurable, Opcode, Size, Get16, Bytes, Length;
    if k < |s| {
      FragmentAt(code, start, s, k);
      SizeOfInstr(s[k]);
      assert s[k] in s;
      MeasurableRange(s[k]);
    } else {
      assert s[..k] == s;
    }
  }

  lemma MeasurableRange(i: Instr)
    requires Measurable(i)
    ensures i.Range16? || i.Range32? ==> |i.bounds| == 2 * (|i.bounds| / 2)
    ensures Opcode(i) == 21 <==> i.Range16?
    ensures Opcode(i) == 22 <==> i.Range32?
    ensures SizeOf(21) == 3 && SizeOf(22) == 3
  {
  }

  // re_need_check_advance
  method NeedCheck(code: seq<Byte>, start: nat, ghost s: seq<Instr>) returns (r: bool)
    requires start <= |code| && code[start..] == Bytes(s) && AllMeasurable(s)
    ensures r == NeedCheckAdvance(s)
  {
    hide AllPlain, HasChar, Plain, CharInstr, AtInstr, Opcode, Stride, Bytes, Length, Size, SizeOf, AllMeasurable;
    hide SimpleLength;
    r := true;
    var pos: nat := start;
    ghost var k: nat := 0;
    ScanStart(code, start, s);
    NoneYet(s);
    while pos < |code|
      invariant k <= |s| && AtInstr(code, start, s, k, pos)
      invariant AllPlain(s[..k]) && (r <==> !HasChar(s[..k]))
      decreases |s| - k
    {
      ScanStep(code, start, s, k, pos);
      SizeOfInstr(s[k]);
      PlainSoFar(s, k);
      var opcode := code[pos];
      if opcode in {1, 2, 3, 4, 21, 22} {
        r := false;
      } else if opcode !in {5, 6, 11, 12, 13, 15, 16, 17, 18, 19, 20, 25, 27} {
        return true;
      }
      pos := pos + Stride(code, pos);
      k := k + 1;
    }
    ScanStep(code, start, s, k, pos);
    assert s[..k] == s;
  }

  lemma NoneYet(s: seq<Instr>)
    ensures AllPlain(s[..0]) && !HasChar(s[..0]) && SimpleLength(s[..0]) == 0
  {
  }

  // re_is_simple_quantifier
  method IsSimpleQuantifier(code: seq<Byte>, start: nat, ghost s: seq<Instr>) returns (count: int)
    requires start <= |code| && code[start..] == Bytes(s) && AllMeasurable(s)
    ensures count == SimpleLength(s)
  {
    hide SimpleLength, Plain, CharInstr, TestInstr, AtInstr, Opcode, Stride, Bytes, Length, Size, SizeOf, AllMeasurable;
    hide HasChar, AllPlain;
    count := 0;
    var pos: nat := start;
    ghost var k: nat := 0;
    ScanStart(code, start, s);
    NoneYet(s);
    while pos < |code|
      invariant k <= |s| && AtInstr(code, start, s, k, pos)
      invariant count >= 0 && SimpleLength(s[..k]) == count
      decreases |s| - k
    {
      ScanStep(code, start, s, k, pos);
      SizeOfInstr(s[k]);
      SimpleSoFar(s, k);
      SimpleFloor(s);
      var opcode := code[pos];
      if opcode in {1, 2, 3, 4, 21, 22} {
        count := count + 1;
      } else if opcode !in {5, 6, 17, 18} {
        return -1;
      }
      pos := pos + Stride(code, pos);
      k := k + 1;
    }
    ScanStep(code, start, s, k, pos);
    assert s[..k] == s;
  }

  lemma SimpleFloor(s: seq<Instr>)
    ensures SimpleLength(s) >= -1
  {
  }

  // The bytes of each shape of loop, after head.

  lemma Assoc(a: seq<Byte>, b: seq<Byte>, c: seq<Byte>)
    ensures a + (b + c) == a + b + c
  {
  }

  lemma Assoc4(a: seq<Byte>, b: seq<Byte>, c: seq<Byte>, d: seq<Byte>)
    ensures a + (b + c + d) == a + b + c + d
  {
    Assoc(a, b + c, d);
    Assoc(a, b, c);
  }

  lemma Assoc5(a: seq<Byte>, b: seq<Byte>, c: seq<Byte>, d: seq<Byte>, e: seq<Byte>)
    ensures a + (b + c + d + e) == a + b + c + d + e
  {
    Assoc(a, b + c + d, e);
    Assoc4(a, b, c, d);
  }

  function Op32(op: Byte, v: int): (r: seq<Byte>)
    ensures |r| == 5
  {
    [op] + U32(v)
  }

  function SplitOp(greedy: bool): Byte { if greedy then 9 else 8 }

  function RoundBytes(atom: seq<Byte>, check: bool): (r: seq<Byte>)
    ensures |r| == |atom| + if check then 2 else 0
  {
    if check then [25] + atom + [26] else atom
  }

  lemma {:induction false} BytesOfRound(atom: seq<Instr>, check: bool)
    ensures Bytes(RoundCode(atom, check)) == RoundBytes(Bytes(atom), check)
    ensures RoundLength(atom, check) == |RoundBytes(Bytes(atom), check)|
  {
    hide Bytes, Length;
    BytesAppend([PushCharPos] + atom, [CheckAdvance]);
    BytesAppend([PushCharPos], atom);
    BytesOne(PushCharPos);
    BytesOne(CheckAdvance);
  }

  lemma {:induction false} BytesOfSplit(atom: seq<Instr>, check: bool, greedy: bool, off: int)
    ensures Bytes([SplitCode(greedy, off)] + RoundCode(atom, check))
      == Op32(SplitOp(greedy), off) + RoundBytes(Bytes(atom), check)
  {
    hide RoundCode, RoundBytes, RoundLength, Bytes, U32, Length;
    BytesAppend([SplitCode(greedy, off)], RoundCode(atom, check));
    BytesOne(SplitCode(greedy, off));
    BytesOfRound(atom, check);
  }

  lemma {:induction false} BytesOfOptional(head: seq<Byte>, atom: seq<Instr>, check: bool, greedy: bool)
    ensures head + Bytes(OptionalCode(atom, check, greedy))
         == head + Op32(SplitOp(greedy), |RoundBytes(Bytes(atom), check)|) + RoundBytes(Bytes(atom), check)
  {
    hide Bytes, Op32, RoundCode, RoundBytes, RoundLength, Length;
    BytesOfRound(atom, check);
    BytesOfSplit(atom, check, greedy, RoundLength(atom, check));
    Assoc(head, Op32(SplitOp(greedy), |RoundBytes(Bytes(atom), check)|), RoundBytes(Bytes(atom), check));
  }

  lemma {:induction false} BytesOfStar(head: seq<Byte>, atom: seq<Instr>, check: bool, greedy: bool)
    ensures var r := |RoundBytes(Bytes(atom), check)|;
      head + Bytes(StarCode(atom, check, greedy))
          == head + Op32(SplitOp(greedy), r + 5) + RoundBytes(Bytes(atom), check) + Op32(7, -(r + 10))
  {
    hide RoundCode, RoundBytes, Bytes, Length, RoundLength, Op32;
    BytesOfRound(atom, check);
    var r := RoundLength(atom, check);
    BytesOfSplit(atom, check, greedy, r + 5);
    BytesAppend([SplitCode(greedy, r + 5)] + RoundCode(atom, check), [Goto(-(r + 10))]);
    BytesOfGoto(-(r + 10));
    Assoc4(head, Op32(SplitOp(greedy), r + 5), RoundBytes(Bytes(atom), check), Op32(7, -(r + 10)));
  }

  lemma {:induction false} BytesOfCounted(head: seq<Byte>, atom: seq<Instr>, check: bool, greedy: bool, n: nat)
    ensures var r := |RoundBytes(Bytes(atom), check)|;
      head + Bytes(CountedCode(atom, check, greedy, n))
      == head + Op32(15, n) + Op32(SplitOp(greedy), r + 5) + RoundBytes(Bytes(atom), check) + Op32(14, -(r + 10)) + [16]
  {
    hide Bytes, Length, RoundCode, RoundBytes, RoundLength, U32, Op32, CountedLoop;
    var r := RoundLength(atom, check);
    BytesOfRound(atom, check);
    BytesOfCountedLoop(atom, check, greedy);
    BytesAppend([PushI32(n)], CountedLoop(atom, check, greedy));
    BytesOfPush(n);
    Assoc(head, Op32(15, n), Bytes(CountedLoop(atom, check, greedy)));
    Assoc5(head + Op32(15, n), Op32(SplitOp(greedy), r + 5), RoundBytes(Bytes(atom), check), Op32(14, -(r + 10)), [16]);
  }

  lemma BytesOfPush(n: nat)
    ensures Bytes([PushI32(n)]) == Op32(15, n)
  {
    BytesOne(PushI32(n));
  }

  lemma BytesOfGoto(off: int)
    ensures Bytes([Goto(off)]) == Op32(7, off)
  {
    BytesOne(Goto(off));
  }

  lemma BytesOfLoop(off: int)
    ensures Bytes([Loop(off)]) == Op32(14, off) && Bytes([Drop]) == [16]
  {
    BytesOne(Loop(off));
    BytesOne(Drop);
  }

  lemma {:induction false} BytesOfCountedLoop(atom: seq<Instr>, check: bool, greedy: bool)
    ensures var r := |RoundBytes(Bytes(atom), check)|;
      Bytes(CountedLoop(atom, check, greedy))
      == Op32(SplitOp(greedy), r + 5) + RoundBytes(Bytes(atom), check) + Op32(14, -(r + 10)) + [16]
  {
    hide RoundCode, RoundBytes, RoundLength, Bytes, Length, Op32;
    BytesOfRound(atom, check);
    var r := RoundLength(atom, check);
    var head, loop := [SplitCode(greedy, r + 5)] + RoundCode(atom, check), [Loop(-(r + 10))];
    BytesOfSplit(atom, check, greedy, r + 5);
    BytesAppend(head + loop, [Drop]);
    BytesAppend(head, loop);
    BytesOfLoop(-(r + 10));
  }

  lemma {:induction false} BytesOfSimple(head: seq<Byte>, atom: seq<Instr>, min: nat, max: nat)
    requires SimpleLength(atom) > 0
    ensures head + Bytes(SimpleCode(atom, min, max))
         == head + [28] + U32(|Bytes(atom)| + 1) + U32(min) + U32(max) + U32(SimpleLength(atom)) + Bytes(atom) + [10]
  {
    hide Bytes, Length, U32, SimpleLength;
    var i := SimpleGreedyQuant(Length(atom) + 1, min, max, SimpleLength(atom));
    BytesAppend([i] + atom, [Match]);
    BytesAppend([i], atom);
    BytesOne(i);
    BytesOne(Match);
    assert Encode(i) == [28] + U32(i.next) + U32(min) + U32(max) + U32(i.len) by { SimpleEncoded(i); }
    Assoc4(head, Encode(i), Bytes(atom), [10]);
    Assoc5(head, [28] + U32(i.next), U32(min), U32(max), U32(i.len));
    Assoc(head, [28], U32(i.next));
  }

  lemma SimpleEncoded(i: Instr)
    requires i.SimpleGreedyQuant?
    ensures Encode(i) == [28] + U32(i.next) + U32(i.min) + U32(i.max) + U32(i.len)
  {
    Assoc5([28], U32(i.next), U32(i.min), U32(i.max), U32(i.len));
  }

  lemma {:induction false} BytesOfExactLoop(atom: seq<Instr>)
    ensures Bytes(ExactLoop(atom)) == Bytes(atom) + Op32(14, -(|Bytes(atom)| + 5)) + [16]
  {
    hide Bytes, Length, Op32;
    var loop := [Loop(-(Length(atom) + 5))];
    BytesAppend(atom + loop, [Drop]);
    BytesAppend(atom, loop);
    BytesOfLoop(-(Length(atom) + 5));
  }

  lemma {:induction false} BytesOfExact(head: seq<Byte>, atom: seq<Instr>, min: nat)
    ensures min == 1 ==> head + Bytes(ExactCode(atom, min)) == head + Bytes(atom)
    ensures min != 1 ==>
      head + Bytes(ExactCode(atom, min)) == head + Op32(15, min) + Bytes(atom) + Op32(14, -(|Bytes(atom)| + 5)) + [16]
  {
    hide Bytes, Length, Op32, ExactLoop;
    BytesAppend([PushI32(min)], ExactLoop(atom));
    BytesOfPush(min);
    BytesOfExactLoop(atom);
    Assoc(head, Op32(15, min), Bytes(ExactLoop(atom)));
    Assoc4(head + Op32(15, min), Bytes(atom), Op32(14, -(|Bytes(atom)| + 5)), [16]);
  }

  function Zeros(n: nat): (r: seq<Byte>)
    ensures |r| == n
  {
    seq(n, _ => 0)
  }

  // REParseState, as far as emission uses it.
  class Emitter {
    var byteCode: seq<Byte>
    var captureCount: nat

    constructor ()
      ensures byteCode == [] && captureCount == 1
    {
      byteCode := [];
      captureCount := 1;
    }

    method PutByte(v: Byte)
      modifies this
      ensures byteCode == old(byteCode) + [v] && captureCount == old(captureCount)
    {
      byteCode := byteCode + [v];
    }

    method Put16(v: int)
      modifies this
      ensures byteCode == old(byteCode) + U16(v) && captureCount == old(captureCount)
    {
      byteCode := byteCode + U16(v);
    }

    method Put32(v: int)
      modifies this
      ensures byteCode == old(byteCode) + U32(v) && captureCount == old(captureCount)
    {
      byteCode := byteCode + U32(v);
    }

    method EmitOp(op: Byte)
      modifies this
      ensures byteCode == old(byteCode) + [op] && captureCount == old(captureCount)
    {
      PutByte(op);
    }

    method EmitOpU8(op: Byte, v: nat)
      modifies this
      ensures byteCode == old(byteCode) + [op, v % 0x100] && captureCount == old(captureCount)
    {
      PutByte(op);
      PutByte(v % 0x100);
    }

    method EmitOpU16(op: Byte, v: int)
      modifies this
      ensures byteCode == old(byteCode) + ([op] + U16(v)) && captureCount == old(captureCount)
    {
      PutByte(op);
      Put16(v);
    }

    // Returns the place of the operand.
    method EmitOpU32(op: Byte, v: int) returns (pos: nat)
      modifies this
      ensures byteCode == old(byteCode) + Op32(op, v) && captureCount == old(captureCount)
      ensures pos == |old(byteCode)| + 1
    {
      PutByte(op);
      pos := |byteCode|;
      Put32(v);
      Assoc(old(byteCode), [op], U32(v));
    }

    // A jump to target, which is off bytes from the next instruction.
    method EmitGoto(op: Byte, target: int, ghost off: int)
      requires off == target - (|byteCode| + 5)
      modifies this
      ensures byteCode == old(byteCode) + Op32(op, off) && captureCount == old(captureCount)
    {
      PutByte(op);
      var pos: int := |byteCode|;
      Put32(target - (pos + 4));
      Assoc(old(byteCode), [op], U32(off));
    }

    // dbuf_insert: len bytes of room at pos.
    method Insert(pos: nat, len: nat, ghost before: seq<Byte>, ghost after: seq<Byte>)
      requires byteCode == before + after && |before| == pos
      modifies this
      ensures byteCode == before + Zeros(len) + after && captureCount == old(captureCount)
    {
      byteCode := byteCode[..pos] + Zeros(len) + byteCode[pos..];
    }

    // Writing over what is at pos.
    method Overwrite(pos: nat, bytes: seq<Byte>, ghost before: seq<Byte>, ghost room: seq<Byte>, ghost after: seq<Byte>)
      requires byteCode == before + room + after && |before| == pos && |room| == |bytes|
      modifies this
      ensures byteCode == before + bytes + after && captureCount == old(captureCount)
    {
      byteCode := byteCode[..pos] + bytes + byteCode[pos + |bytes|..];
    }

    // The quantifier after the atom that starts at start (libregexp.c:1481-1618).
    method EmitQuantifier(start: nat, lastCaptureCount: nat, min: nat, max: nat, greedy: bool, ghost before: seq<Byte>,
                          ghost atom: seq<Instr>)
      requires byteCode == before + Bytes(atom) && |before| == start && AllMeasurable(atom)
      requires lastCaptureCount <= captureCount && min <= max <= INF
      modifies this
      ensures captureCount == old(captureCount)
      ensures byteCode == before + Bytes(QuantCode(atom, lastCaptureCount, captureCount - lastCaptureCount, min, max,
                                                   greedy))
    {
      hide Bytes, SimpleLength, NeedCheckAdvance, AllMeasurable, SimpleCode, TailCode, OptionalCode, ExactCode;
      hide ResetCode;
      assert byteCode[start..] == Bytes(atom);
      var check := false;
      if greedy {
        if max > 0 {
          var len := IsSimpleQuantifier(byteCode, start, atom);
          if len > 0 {
            EmitSimple(start, min, max, len, before, atom);
            return;
          }
        }
        check := NeedCheck(byteCode, start, atom);
      }
      if min == 0 {
        EmitFromZero(start, lastCaptureCount, max, check, greedy, before, atom);
      } else {
        EmitFromSome(start, min, max, check, greedy, before, atom);
      }
    }

    method EmitSimple(start: nat, min: nat, max: nat, len: nat, ghost before: seq<Byte>, ghost atom: seq<Instr>)
      requires byteCode == before + Bytes(atom) && |before| == start && len == SimpleLength(atom) > 0
      modifies this
      ensures byteCode == before + Bytes(SimpleCode(atom, min, max)) && captureCount == old(captureCount)
    {
      hide Bytes, SimpleLength, SimpleCode, U32;
      ghost var rest := Bytes(atom) + [10];
      EmitOp(10);
      Assoc(before, Bytes(atom), [10]);
      Insert(start, 17, before, rest);
      var pos := start;
      Fill(pos, [28], before, 17, rest);
      pos := pos + 1;
      ghost var done := before + [28];
      Fill(pos, U32(|byteCode| - start - 17), done, 16, rest);
      pos := pos + 4;
      done := done + U32(|Bytes(atom)| + 1);
      Fill(pos, U32(min), done, 12, rest);
      pos := pos + 4;
      done := done + U32(min);
      Fill(pos, U32(max), done, 8, rest);
      pos := pos + 4;
      done := done + U32(max);
      Fill(pos, U32(len), done, 4, rest);
      done := done + U32(len);
      assert byteCode == done + rest;
      Assoc(done, Bytes(atom), [10]);
      BytesOfSimple(before, atom, min, max);
    }

    // Filling the front of the room left by Insert.
    method Fill(pos: nat, bytes: seq<Byte>, ghost done: seq<Byte>, ghost room: nat, ghost after: seq<Byte>)
      requires byteCode == done + Zeros(room) + after && |done| == pos && |bytes| <= room
      modifies this
      ensures byteCode == done + bytes + Zeros(room - |bytes|) + after && captureCount == old(captureCount)
      ensures room == |bytes| ==> byteCode == done + bytes + after
    {
      ghost var z := Zeros(room - |bytes|);
      assert Zeros(room) == Zeros(|bytes|) + z;
      Overwrite(pos, bytes, done, Zeros(|bytes|), z + after);
    }

    method EmitFromZero(start: nat, lastCaptureCount: nat, max: nat, check: bool, greedy: bool, ghost before: seq<Byte>,
                        ghost atom: seq<Instr>)
      requires byteCode == before + Bytes(atom) && |before| == start && lastCaptureCount <= captureCount
      modifies this
      ensures captureCount == old(captureCount)
      ensures byteCode == before + Bytes(ResetCode(lastCaptureCount, captureCount - lastCaptureCount)
                + (if max == 1 then OptionalCode(atom, check, greedy) else TailCode(atom, check, max, greedy)))
    {
      hide Bytes, TailCode, OptionalCode, ResetCode, StarCode, CountedCode;
      var len := |byteCode| - start;
      ghost var reset := ResetCode(lastCaptureCount, captureCount - lastCaptureCount);
      ghost var tail := if max == 1 then OptionalCode(atom, check, greedy) else TailCode(atom, check, max, greedy);
      BytesAppend(reset, tail);
      Assoc(before, Bytes(reset), Bytes(tail));
      ghost var head := before + Bytes(reset);
      var at := EmitReset(start, lastCaptureCount, before, atom, reset);
      EmitTail(at, len, max, check, greedy, head, atom);
    }

    method EmitTail(at: nat, len: nat, max: nat, check: bool, greedy: bool, ghost head: seq<Byte>,
                    ghost atom: seq<Instr>)
      requires byteCode == head + Bytes(atom) && |head| == at && len == |Bytes(atom)|
      modifies this
      ensures byteCode == head + Bytes(if max == 1 then OptionalCode(atom, check, greedy)
        else TailCode(atom, check, max, greedy))
      ensures captureCount == old(captureCount)
    {
      hide Bytes, TailCode, OptionalCode, StarCode, CountedCode;
      NoTailBytes(atom, check, max, greedy);
      if max == 0 {
        byteCode := byteCode[..at];
        assert byteCode == head + [];
      } else if max == 1 || max == INF {
        EmitSkipLoop(at, len, max == INF, check, greedy, head, atom);
      } else {
        EmitCountedLoop(at, len, max, check, greedy, head, atom);
      }
    }

    // Captures of an atom that may not run are forgotten first.
    method EmitReset(start: nat, lastCaptureCount: nat, ghost before: seq<Byte>, ghost atom: seq<Instr>,
                     ghost reset: seq<Instr>) returns (at: nat)
      requires lastCaptureCount <= captureCount && reset == ResetCode(lastCaptureCount, captureCount - lastCaptureCount)
      requires byteCode == before + Bytes(atom) && |before| == start && lastCaptureCount <= captureCount
      modifies this
      ensures captureCount == old(captureCount)
      ensures byteCode == before + Bytes(reset) + Bytes(atom) && at == |before + Bytes(reset)|
    {
      hide Bytes, ResetCode;
      at := start;
      BytesOfReset(before, lastCaptureCount, captureCount - lastCaptureCount);
      if lastCaptureCount != captureCount {
        Insert(at, 3, before, Bytes(atom));
        Fill(at, [13], before, 3, Bytes(atom));
        at := at + 1;
        Fill(at, [lastCaptureCount % 0x100], before + [13], 2, Bytes(atom));
        at := at + 1;
        Fill(at, [(captureCount - 1) % 0x100], before + [13] + [lastCaptureCount % 0x100], 1, Bytes(atom));
        at := at + 1;
      }
    }

    // ? and *
    method EmitSkipLoop(at: nat, len: nat, hasGoto: bool, check: bool, greedy: bool, ghost head: seq<Byte>,
                        ghost atom: seq<Instr>)
      requires byteCode == head + Bytes(atom) && |head| == at && len == |Bytes(atom)|
      modifies this
      ensures byteCode == head + Bytes(if hasGoto then StarCode(atom, check, greedy)
        else OptionalCode(atom, check, greedy))
      ensures captureCount == old(captureCount)
    {
      hide Bytes, StarCode, OptionalCode, Op32, RoundBytes, U32;
      var extra := if check then 1 else 0;
      Insert(at, 5 + extra, head, Bytes(atom));
      var off := len + (if hasGoto then 5 else 0) + extra * 2;
      FillSplit(at, check, SplitOp(greedy), off, head, atom, |RoundBytes(Bytes(atom), check)| + if hasGoto then 5
          else 0);
      if hasGoto {
        EmitGoto(7, at, -(|RoundBytes(Bytes(atom), check)| + 10));
        BytesOfStar(head, atom, check, greedy);
      } else {
        BytesOfOptional(head, atom, check, greedy);
      }
    }

    // The split, and push_char_pos, in the room before the atom; check_advance after it.
    method FillSplit(at: nat, check: bool, op: Byte, off: int, ghost head: seq<Byte>, ghost atom: seq<Instr>,
                     ghost off2: int)
      requires off == off2 && byteCode == head + Zeros(if check then 6 else 5) + Bytes(atom) && |head| == at
      modifies this
      ensures byteCode == head + Op32(op, off2) + RoundBytes(Bytes(atom), check) && captureCount == old(captureCount)
    {
      hide Bytes, U32;
      ghost var room := if check then 6 else 5;
      Fill(at, [op], head, room, Bytes(atom));
      Fill(at + 1, U32(off), head + [op], room - 1, Bytes(atom));
      Assoc(head, [op], U32(off));
      if check {
        Fill(at + 5, [25], head + Op32(op, off), 1, Bytes(atom));
        EmitOp(26);
        Assoc4(head + Op32(op, off), [25], Bytes(atom), [26]);
      }
    }

    // {,n}
    method EmitCountedLoop(at: nat, len: nat, max: nat, check: bool, greedy: bool, ghost head: seq<Byte>,
                           ghost atom: seq<Instr>)
      requires byteCode == head + Bytes(atom) && |head| == at && len == |Bytes(atom)|
      modifies this
      ensures byteCode == head + Bytes(CountedCode(atom, check, greedy, max)) && captureCount == old(captureCount)
    {
      hide Bytes, CountedCode, U32, RoundBytes;
      var extra := if check then 1 else 0;
      Insert(at, 10 + extra, head, Bytes(atom));
      var pos := at;
      Fill(pos, [15], head, 10 + extra, Bytes(atom));
      pos := pos + 1;
      Fill(pos, U32(max), head + [15], 9 + extra, Bytes(atom));
      pos := pos + 4;
      Assoc(head, [15], U32(max));
      FillSplit(pos, check, SplitOp(greedy), len + 5 + extra * 2, head
          + Op32(15, max), atom, |RoundBytes(Bytes(atom), check)| + 5);
      EmitGoto(14, at + 5, -(|RoundBytes(Bytes(atom), check)| + 10));
      EmitOp(16);
      BytesOfCounted(head, atom, check, greedy, max);
    }

    method EmitFromSome(start: nat, min: nat, max: nat, check: bool, greedy: bool, ghost before: seq<Byte>,
                        ghost atom: seq<Instr>)
      requires byteCode == before + Bytes(atom) && |before| == start && 0 < min <= max <= INF
      modifies this
      ensures byteCode == before + Bytes(if min == 1 && max == INF && !check
        then atom + [SplitCode(!greedy, -(Length(atom) + 5))]
                else ExactCode(atom, min) + TailCode(atom, check, Rest(min, max), greedy))
      ensures captureCount == old(captureCount)
    {
      hide Bytes, TailCode, ExactCode, Length, U32;
      var len := |byteCode| - start;
      if min == 1 && max == INF && !check {
        EmitGoto(SplitOp(!greedy), start, -(|Bytes(atom)| + 5));
        BytesAppend(atom, [SplitCode(!greedy, -(Length(atom) + 5))]);
        BytesOne(SplitCode(!greedy, -(Length(atom) + 5)));
        Assoc(before, Bytes(atom), Op32(SplitOp(!greedy), -(|Bytes(atom)| + 5)));
      } else {
        var at := start;
        ghost var head := before + Bytes(ExactCode(atom, min));
        BytesOfExact(before, atom, min);
        if min != 1 {
          Insert(at, 5, before, Bytes(atom));
          Fill(at, [15], before, 5, Bytes(atom));
          Fill(at + 1, U32(min), before + [15], 4, Bytes(atom));
          Assoc(before, [15], U32(min));
          at := at + 5;
          EmitGoto(14, at, -(|Bytes(atom)| + 5));
          EmitOp(16);
        }
        assert byteCode == head;
        assert byteCode[at..at + len] == Bytes(atom);
        EmitRest(at, len, min, max, check, greedy, head, atom);
        BytesAppend(ExactCode(atom, min), TailCode(atom, check, Rest(min, max), greedy));
        Assoc(before, Bytes(ExactCode(atom, min)), Bytes(TailCode(atom, check, Rest(min, max), greedy)));
      }
    }

    // The optional rounds, on a copy of the atom.
    method EmitRest(at: nat, len: nat, min: nat, max: nat, check: bool, greedy: bool, ghost head: seq<Byte>,
                    ghost atom: seq<Instr>)
      requires byteCode == head && at + len <= |byteCode| && byteCode[at..at + len] == Bytes(atom) && min <= max <= INF
      modifies this
      ensures byteCode == head + Bytes(TailCode(atom, check, Rest(min, max), greedy))
      ensures captureCount == old(captureCount)
    {
      hide Bytes, StarCode, CountedCode, TailCode;
      NoTailBytes(atom, check, Rest(min, max), greedy);
      if max == INF {
        EmitRestStar(at, len, check, greedy, head, atom);
      } else if max > min {
        EmitRestCounted(at, len, max - min, check, greedy, head, atom);
      }
    }

    method EmitRestStar(at: nat, len: nat, check: bool, greedy: bool, ghost head: seq<Byte>, ghost atom: seq<Instr>)
      requires byteCode == head && at + len <= |byteCode| && byteCode[at..at + len] == Bytes(atom)
      modifies this
      ensures byteCode == head + Bytes(StarCode(atom, check, greedy)) && captureCount == old(captureCount)
    {
      hide Bytes, U32, StarCode, RoundBytes, Op32, SplitOp;
      var pos := |byteCode|;
      EmitCopy(at, len, check, greedy, len + 5 + if check then 2
          else 0, head, atom, |RoundBytes(Bytes(atom), check)| + 5);
      EmitGoto(7, pos, -(|RoundBytes(Bytes(atom), check)| + 10));
      BytesOfStar(head, atom, check, greedy);
    }

    method EmitRestCounted(at: nat, len: nat, n: nat, check: bool, greedy: bool, ghost head: seq<Byte>,
                           ghost atom: seq<Instr>)
      requires byteCode == head && at + len <= |byteCode| && byteCode[at..at + len] == Bytes(atom)
      modifies this
      ensures byteCode == head + Bytes(CountedCode(atom, check, greedy, n)) && captureCount == old(captureCount)
    {
      hide Bytes, U32, CountedCode, RoundBytes, Op32;
      var _ := EmitOpU32(15, n);
      var pos := |byteCode|;
      StillThere(head, byteCode, at, len);
      EmitCopy(at, len, check, greedy, len + 5 + if check then 2
          else 0, head + Op32(15, n), atom, |RoundBytes(Bytes(atom), check)| + 5);
      EmitGoto(14, pos, -(|RoundBytes(Bytes(atom), check)| + 10));
      EmitOp(16);
      BytesOfCounted(head, atom, check, greedy, n);
    }

    // A split and a copy of the atom, which stands earlier at at.
    method EmitCopy(at: nat, len: nat, check: bool, greedy: bool, off: int, ghost head: seq<Byte>,
                    ghost atom: seq<Instr>, ghost off2: int)
      requires off == off2 && byteCode == head && at + len <= |byteCode| && byteCode[at..at + len] == Bytes(atom)
      modifies this
      ensures byteCode == head + Op32(SplitOp(greedy), off2) + RoundBytes(Bytes(atom), check)
      ensures captureCount == old(captureCount)
    {
      hide Bytes, U32;
      var _ := EmitOpU32(SplitOp(greedy), off);
      ghost var split := head + Op32(SplitOp(greedy), off);
      if check { EmitOp(25); }
      StillThere(head, byteCode, at, len);
      byteCode := byteCode + byteCode[at..at + len];
      if check {
        EmitOp(26);
        Assoc4(split, [25], Bytes(atom), [26]);
      }
    }

    // re_emit_range
    method EmitRange(points: seq<nat>) returns (ok: bool)
      requires Normalized(points)
      modifies this
      ensures ok <==> |points| / 2 < 65535
      ensures ok ==> byteCode == old(byteCode) + Bytes([RangeInstr(points)]) && captureCount == old(captureCount)
    {
      hide Bytes, RangeInstr, Normalized, U16, U32;
      var len := |points| / 2;
      if len >= 65535 { return false; }
      ok := true;
      RangeShape(points);
      if len == 0 {
        var _ := EmitOpU32(2, UINT32_MAX);
      } else {
        var high := points[|points| - 1];
        if high == UINT32_MAX { high := points[|points| - 2]; }
        if high <= 0xFFFF {
          EmitOpU16(21, len);
          EmitWords16(points);
          Assoc(old(byteCode), [21] + U16(len), Words16(Bounds(points, 0xFFFF)));
        } else {
          EmitOpU16(22, len);
          EmitWords32(points);
          Assoc(old(byteCode), [22] + U16(len), Words32(Bounds(points, UINT32_MAX - 1)));
        }
      }
    }

    method EmitWords16(points: seq<nat>)
      requires Normalized(points)
      modifies this
      ensures byteCode == old(byteCode) + Words16(Bounds(points, 0xFFFF)) && captureCount == old(captureCount)
    {
      hide Words16, Normalized, U16;
      ghost var bounds := Bounds(points, 0xFFFF);
      var i := 0;
      WordsNone();
      EvenLength(points);
      while i < |points|
        invariant 0 <= i <= |points| && i % 2 == 0 && captureCount == old(captureCount)
        invariant byteCode == old(byteCode) + Words16(bounds[..i])
      {
        Put16(points[i]);
        var high := if points[i + 1] == 0 then UINT32_MAX else points[i + 1] - 1;
        if high == UINT32_MAX - 1 { high := 0xFFFF; }
        Put16(high);
        WordsStep(bounds, i);
        Assoc(old(byteCode), Words16(bounds[..i]), U16(points[i]));
        Assoc(old(byteCode), Words16(bounds[..i]) + U16(points[i]), U16(high));
        i := i + 2;
      }
      assert bounds[..i] == bounds;
    }

    method EmitWords32(points: seq<nat>)
      requires Normalized(points)
      modifies this
      ensures byteCode == old(byteCode) + Words32(Bounds(points, UINT32_MAX - 1)) && captureCount == old(captureCount)
    {
      hide Words32, Normalized, U32;
      ghost var bounds := Bounds(points, UINT32_MAX - 1);
      var i := 0;
      WordsNone();
      EvenLength(points);
      while i < |points|
        invariant 0 <= i <= |points| && i % 2 == 0 && captureCount == old(captureCount)
        invariant byteCode == old(byteCode) + Words32(bounds[..i])
      {
        Put32(points[i]);
        Put32(if points[i + 1] == 0 then UINT32_MAX else points[i + 1] - 1);
        WordsStep(bounds, i);
        Assoc(old(byteCode), Words32(bounds[..i]), U32(points[i]));
        Assoc(old(byteCode), Words32(bounds[..i]) + U32(points[i]), U32(bounds[i + 1]));
        i := i + 2;
      }
      assert bounds[..i] == bounds;
    }

    // One pattern: re_parse_term, re_parse_alternative and re_parse_disjunction, over the parsed pattern.
    method EmitPattern(p: Pattern, dir: Direction) returns (ok: bool)
      requires WellFormed(p)
      modifies this
      ensures ok <==> Emittable(p, old(captureCount))
      ensures ok ==> captureCount == old(captureCount) + Groups(p)
      ensures ok ==> byteCode == old(byteCode) + Bytes(Gen(p, dir, old(captureCount)))
      decreases p, 1
    {
      hide Bytes, Normalized, Gen;
      if OneChar(p) {
        ok := EmitChar(p, dir);
      } else if p.Group? {
        ok := EmitGroup(p, dir);
      } else if p.Look? {
        ok := EmitLook(p, dir);
      } else if p.Cat? {
        ok := EmitAlternative(p, dir);
      } else if p.Alt? {
        ok := EmitDisjunction(p, dir);
      } else if p.Quant? {
        ok := EmitRepetition(p, dir);
      } else {
        EmitTest(p, dir);
        ok := true;
      }
    }

    method EmitTest(p: Pattern, dir: Direction)
      requires p.Empty? || p.Test? || p.Reference?
      modifies this
      ensures captureCount == old(captureCount)
      ensures byteCode == old(byteCode) + Bytes(Gen(p, dir, captureCount))
    {
      if p.Test? {
        EmitOp(match p.edge case LineStart => 5 case LineEnd => 6 case WordEdge => 17 case NotWordEdge => 18);
        BytesOne(TestCode(p.edge));
      } else if p.Reference? {
        EmitOpU8(if dir.Forward? then 19 else 20, p.k);
        BytesOne(if dir.Forward? then BackReference(p.k) else BackwardBackReference(p.k));
      }
    }

    method EmitChar(p: Pattern, dir: Direction) returns (ok: bool)
      requires OneChar(p) && WellFormed(p)
      modifies this
      ensures ok <==> Emittable(p, old(captureCount))
      ensures ok ==> captureCount == old(captureCount)
      ensures ok ==> byteCode == old(byteCode) + Bytes(Gen(p, dir, old(captureCount)))
    {
      hide Bytes, Normalized, Gen, CharCode, Op32;
      CharGen(p, dir, captureCount);
      if dir.Backward? { EmitOp(27); }
      ok := EmitCharOp(p);
      if !ok { return; }
      if dir.Backward? {
        EmitOp(27);
        Assoc4(old(byteCode), [27], Bytes([CharCode(p)]), [27]);
      }
    }

    method EmitCharOp(p: Pattern) returns (ok: bool)
      requires OneChar(p) && WellFormed(p)
      modifies this
      ensures ok <==> Emittable(p, old(captureCount))
      ensures ok ==> captureCount == old(captureCount) && byteCode == old(byteCode) + Bytes([CharCode(p)])
    {
      hide Bytes, Normalized, RangeInstr, U16, U32;
      ok := true;
      BytesOne(CharCode(p));
      match p {
        case Literal(c) => if c <= 0xFFFF { EmitOpU16(1, c); } else { var _ := EmitOpU32(2, c); }
        case AnyChar(newline) => EmitOp(if newline then 4 else 3);
        case Class(points) => ok := EmitRange(points);
      }
    }

    method EmitGroup(p: Pattern, dir: Direction) returns (ok: bool)
      requires WellFormed(p) && p.Group?
      modifies this
      ensures ok <==> Emittable(p, old(captureCount))
      ensures ok ==> captureCount == old(captureCount) + Groups(p)
      ensures ok ==> byteCode == old(byteCode) + Bytes(Gen(p, dir, old(captureCount)))
      decreases p, 0
    {
      hide Bytes, Normalized;
      if captureCount >= 255 { return false; }
      var index := captureCount;
      captureCount := captureCount + 1;
      EmitOpU8(if dir.Forward? then 11 else 12, index);
      ok := EmitPattern(p.body, dir);
      if !ok { return; }
      EmitOpU8(if dir.Forward? then 12 else 11, index);
      ghost var open, inner, close := SaveCode(OpenSlot(dir, index)), Gen(p.body, dir, index + 1),
                                      SaveCode(CloseSlot(dir, index));
      BytesAppend([open] + inner, [close]);
      BytesAppend([open], inner);
      BytesOfSave(dir, index);
      Assoc4(old(byteCode), Bytes([open]), Bytes(inner), Bytes([close]));
    }

    method EmitLook(p: Pattern, dir: Direction) returns (ok: bool)
      requires WellFormed(p) && p.Look?
      modifies this
      ensures ok <==> Emittable(p, old(captureCount))
      ensures ok ==> captureCount == old(captureCount) + Groups(p)
      ensures ok ==> byteCode == old(byteCode) + Bytes(Gen(p, dir, old(captureCount)))
      decreases p, 0
    {
      hide Bytes, Normalized, U32, Op32, Gen, LookInstr, Length;
      LookGen(p, dir, captureCount);
      ghost var cc := captureCount;
      var op := if p.negative then 24 else 23;
      var pos := EmitOpU32(op, 0);
      ghost var before := old(byteCode);
      var d := if p.behind then Backward else Forward;
      ok := EmitPattern(p.body, d);
      if !ok { return; }
      EmitOp(10);
      ghost var inner := Gen(p.body, d, cc);
      Assoc(before + Op32(op, 0), Bytes(inner), [10]);
      Patch(pos, op, 0, |byteCode| - (pos + 4), before, Bytes(inner) + [10], |Bytes(inner)| + 1);
      BytesOfLook(before, p.negative, inner);
    }

    // put_u32 over the operand at pos.
    method Patch(pos: nat, op: Byte, v: int, w: int, ghost before: seq<Byte>, ghost after: seq<Byte>, ghost w2: int)
      requires w == w2 && byteCode == before + Op32(op, v) + after && pos == |before| + 1
      modifies this
      ensures byteCode == before + Op32(op, w2) + after && captureCount == old(captureCount)
    {
      hide U32;
      Assoc(before, [op], U32(v));
      Overwrite(pos, U32(w), before + [op], U32(v), after);
      Assoc(before, [op], U32(w));
    }

    // Terms in order; in a lookbehind the new term is moved before the earlier ones.
    method EmitAlternative(p: Pattern, dir: Direction) returns (ok: bool)
      requires WellFormed(p) && p.Cat?
      modifies this
      ensures ok <==> Emittable(p, old(captureCount))
      ensures ok ==> captureCount == old(captureCount) + Groups(p)
      ensures ok ==> byteCode == old(byteCode) + Bytes(Gen(p, dir, old(captureCount)))
      decreases p, 0
    {
      hide Bytes, Normalized, Gen;
      ghost var cc, before := captureCount, byteCode;
      ghost var x, y := Gen(p.first, dir, cc), Gen(p.second, dir, cc + Groups(p.first));
      CatGen(p, dir, cc);
      BytesAppend(x, y);
      BytesAppend(y, x);
      Assoc(before, Bytes(x), Bytes(y));
      var start := |byteCode|;
      ok := EmitPattern(p.first, dir);
      if !ok { return; }
      var termStart := |byteCode|;
      ok := EmitPattern(p.second, dir);
      if !ok { return; }
      if dir.Backward? { MoveLastFirst(start, termStart, before, Bytes(x), Bytes(y)); }
    }

    method MoveLastFirst(start: nat, termStart: nat, ghost before: seq<Byte>, ghost terms: seq<Byte>,
                         ghost term: seq<Byte>)
      requires byteCode == before + (terms + term) && start == |before| && termStart == |before| + |terms|
      modifies this
      ensures byteCode == before + (term + terms) && captureCount == old(captureCount)
    {
      var end := |byteCode|;
      var termSize := end - termStart;
      // memmove up by termSize, then memcpy of what now lies above end
      var moved := byteCode[..start] + Zeros(termSize) + byteCode[start..end];
      assert moved == before + Zeros(termSize) + terms + term;
      assert moved[end..end + termSize] == term;
      byteCode := moved[..start] + moved[end..end + termSize] + moved[start + termSize..end];
      assert moved[start + termSize..end] == terms;
    }

    method EmitDisjunction(p: Pattern, dir: Direction) returns (ok: bool)
      requires WellFormed(p) && p.Alt?
      modifies this
      ensures ok <==> Emittable(p, old(captureCount))
      ensures ok ==> captureCount == old(captureCount) + Groups(p)
      ensures ok ==> byteCode == old(byteCode) + Bytes(Gen(p, dir, old(captureCount)))
      decreases p, 0
    {
      hide Bytes, Normalized, U32, Op32, Gen, AltCode;
      AltGen(p, dir, captureCount);
      ghost var cc, before := captureCount, byteCode;
      var start := |byteCode|;
      ok := EmitPattern(p.left, dir);
      if !ok { return; }
      ghost var x := Gen(p.left, dir, cc);
      var len := |byteCode| - start;
      OpenSplit(start, len + 5, before, Bytes(x), |Bytes(x)| + 5);
      var pos := EmitOpU32(7, 0);
      ghost var head := before + Op32(9, |Bytes(x)| + 5) + Bytes(x);
      ok := EmitPattern(p.right, dir);
      if !ok { return; }
      ghost var y := Gen(p.right, dir, cc + Groups(p.left));
      Patch(pos, 7, 0, |byteCode| - (pos + 4), head, Bytes(y), |Bytes(y)|);
      BytesOfAlt(before, x, y);
    }

    // A split inserted before the first alternative.
    method OpenSplit(start: nat, off: int, ghost before: seq<Byte>, ghost after: seq<Byte>, ghost off2: int)
      requires off == off2 && byteCode == before + after && |before| == start
      modifies this
      ensures byteCode == before + Op32(9, off2) + after && captureCount == old(captureCount)
    {
      hide U32;
      Insert(start, 5, before, after);
      Fill(start, [9], before, 5, after);
      Fill(start + 1, U32(off), before + [9], 4, after);
      Assoc(before, [9], U32(off));
    }

    method EmitRepetition(p: Pattern, dir: Direction) returns (ok: bool)
      requires WellFormed(p) && p.Quant?
      modifies this
      ensures ok <==> Emittable(p, old(captureCount))
      ensures ok ==> captureCount == old(captureCount) + Groups(p)
      ensures ok ==> byteCode == old(byteCode) + Bytes(Gen(p, dir, old(captureCount)))
      decreases p, 0
    {
      hide Bytes, Normalized, QuantCode;
      var start, lastCaptureCount := |byteCode|, captureCount;
      ok := EmitPattern(p.body, dir);
      if !ok { return; }
      if p.max < p.min { return false; }
      GenMeasurable(p.body, dir, lastCaptureCount);
      EmitQuantifier(start, lastCaptureCount, p.min, p.max, p.greedy, old(byteCode),
                     Gen(p.body, dir, lastCaptureCount));
    }
  }

  lemma {:induction false} CharGen(p: Pattern, dir: Direction, cc: nat)
    requires OneChar(p)
    ensures Bytes(Gen(p, dir, cc)) == if dir.Forward? then Bytes([CharCode(p)]) else [27] + Bytes([CharCode(p)]) + [27]
  {
    hide Bytes, Length;
    BytesAppend([Prev] + [CharCode(p)], [Prev]);
    BytesAppend([Prev], [CharCode(p)]);
    BytesOne(Prev);
  }

  lemma {:induction false} CatGen(p: Pattern, dir: Direction, cc: nat)
    requires p.Cat?
    ensures var x, y := Gen(p.first, dir, cc), Gen(p.second, dir, cc + Groups(p.first));
      Gen(p, dir, cc) == if dir.Forward? then x + y else y + x
  {
    hide QuantCode, Length;
  }

  lemma {:induction false} AltGen(p: Pattern, dir: Direction, cc: nat)
    requires p.Alt?
    ensures Gen(p, dir, cc) == AltCode(Gen(p.left, dir, cc), Gen(p.right, dir, cc + Groups(p.left)))
  {
    hide QuantCode, AltCode;
  }

  lemma {:induction false} LookGen(p: Pattern, dir: Direction, cc: nat)
    requires p.Look?
    ensures var inner := Gen(p.body, if p.behind then Backward else Forward, cc);
      Gen(p, dir, cc) == [LookInstr(p.negative, Length(inner) + 1)] + inner + [Match]
  {
    hide QuantCode, Length;
  }

  lemma {:induction false} BytesOfSave(dir: Direction, k: nat)
    ensures Bytes([SaveCode(OpenSlot(dir, k))]) == [if dir.Forward? then 11 else 12, k % 0x100]
    ensures Bytes([SaveCode(CloseSlot(dir, k))]) == [if dir.Forward? then 12 else 11, k % 0x100]
  {
    BytesOne(SaveCode(OpenSlot(dir, k)));
    BytesOne(SaveCode(CloseSlot(dir, k)));
  }

  lemma {:induction false} BytesOfLook(head: seq<Byte>, negative: bool, inner: seq<Instr>)
    ensures head + Bytes([LookInstr(negative, Length(inner) + 1)] + inner + [Match])
         == head + Op32(if negative then 24 else 23, |Bytes(inner)| + 1) + (Bytes(inner) + [10])
  {
    hide Bytes, Length, U32;
    var i := LookInstr(negative, Length(inner) + 1);
    BytesAppend([i] + inner, [Match]);
    BytesAppend([i], inner);
    BytesOne(i);
    BytesOne(Match);
    Assoc4(head, Encode(i), Bytes(inner), [10]);
    Assoc(head + Encode(i), Bytes(inner), [10]);
  }

  lemma {:induction false} BytesOfAlt(head: seq<Byte>, x: seq<Instr>, y: seq<Instr>)
    ensures head + Bytes(AltCode(x, y)) == head + Op32(9, |Bytes(x)| + 5) + Bytes(x) + Op32(7, |Bytes(y)|) + Bytes(y)
  {
    hide Bytes, Length, Op32;
    var split, goto := [SplitNextFirst(Length(x) + 5)], [Goto(Length(y))];
    BytesAppend(split + x + goto, y);
    BytesAppend(split + x, goto);
    BytesAppend(split, x);
    BytesOfGoto(Length(y));
    assert Bytes(split) == Op32(9, Length(x) + 5) by { BytesOfNext(Length(x) + 5); }
    Assoc5(head, Bytes(split), Bytes(x), Bytes(goto), Bytes(y));
  }

  lemma BytesOfNext(off: int)
    ensures Bytes([SplitNextFirst(off)]) == Op32(9, off)
  {
    BytesOne(SplitNextFirst(off));
  }

  lemma EvenLength(points: seq<nat>)
    requires Normalized(points)
    ensures |points| % 2 == 0
  {
  }

  lemma RangeShape(points: seq<nat>)
    requires Normalized(points)
    ensures var i := RangeInstr(points); var n := |points|;
      n % 2 == 0
      && (n == 0 ==> Bytes([i]) == Op32(2, UINT32_MAX))
      && (n >= 2 ==>
            var high := if points[n - 1] == UINT32_MAX then points[n - 2] else points[n - 1];
            Bytes([i]) == if high <= 0xFFFF then [21] + U16(n / 2) + Words16(Bounds(points, 0xFFFF))
                          else [22] + U16(n / 2) + Words32(Bounds(points, UINT32_MAX - 1)))
  {
    BytesOne(RangeInstr(points));
  }

  lemma WordsNone()
    ensures Words16([]) == [] && Words32([]) == []
  {
  }

  lemma {:induction false} WordsAppend(a: seq<nat>, v: nat)
    ensures Words16(a + [v]) == Words16(a) + U16(v) && Words32(a + [v]) == Words32(a) + U32(v)
  {
    hide U16, U32;
    if a == [] {
      assert a + [v] == [v] && [v][1..] == [];
    } else {
      assert (a + [v])[1..] == a[1..] + [v];
      WordsAppend(a[1..], v);
      Assoc(U16(a[0]), Words16(a[1..]), U16(v));
      Assoc(U32(a[0]), Words32(a[1..]), U32(v));
    }
  }

  lemma {:induction false} WordsStep(s: seq<nat>, i: nat)
    requires i + 1 < |s|
    ensures Words16(s[..i + 2]) == Words16(s[..i]) + U16(s[i]) + U16(s[i + 1])
    ensures Words32(s[..i + 2]) == Words32(s[..i]) + U32(s[i]) + U32(s[i + 1])
  {
    assert s[..i + 1] == s[..i] + [s[i]] && s[..i + 2] == s[..i + 1] + [s[i + 1]];
    WordsAppend(s[..i], s[i]);
    WordsAppend(s[..i + 1], s[i + 1]);
  }

  lemma StillThere(was: seq<Byte>, now: seq<Byte>, at: nat, len: nat)
    requires at + len <= |was| <= |now| && now[..|was|] == was
    ensures now[at..at + len] == was[at..at + len]
  {
    assert forall k :: 0 <= k < |was| ==> now[k] == now[..|was|][k];
  }

  lemma {:induction false} BytesOfReset(head: seq<Byte>, cc: nat, n: nat)
    ensures head + Bytes(ResetCode(cc, n)) == if n == 0 then head
      else head + [13] + [cc % 0x100] + [(cc + n - 1) % 0x100]
  {
    if n > 0 { BytesOne(SaveReset(cc, cc + n - 1)); }
  }

  lemma {:induction false} NoTailBytes(atom: seq<Instr>, check: bool, max: nat, greedy: bool)
    ensures max == 0 ==> Bytes(TailCode(atom, check, max, greedy)) == []
    ensures max == INF ==> TailCode(atom, check, max, greedy) == StarCode(atom, check, greedy)
    ensures max != 0 && max != INF ==> TailCode(atom, check, max, greedy) == CountedCode(atom, check, greedy, max)
  {
  }
}
