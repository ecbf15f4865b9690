// Compiling and running a pattern, end to end (libregexp.c:1699-1839 and 2418-2456).
module ReCompile {
  import opened ReText
  import opened ReCode
  import opened RePattern
  import opened ReGen
  import opened ReMachine
  import opened ReCorrect
  import opened ReProgram
  import opened ReRules
  import opened ReSearch
  import opened ReStops
  import opened ReDepth
  import opened ReEmit
  import opened ReAccept
  import opened ReLanguage
  import opened ReFinds
  import opened ReExec

  const STACK_SIZE_MAX := 255

  // compute_stack_size: the greatest linear count, or -1 when the header cannot hold it.
  method ComputeStackSize(code: seq<Byte>, ghost s: seq<Instr>) returns (r: int)
    requires |code| >= HEADER_LEN && code[HEADER_LEN..] == Bytes(s) && AllMeasurable(s) && ProgramFits(s)
    ensures r == if MaxDepth(s) > STACK_SIZE_MAX then -1 else MaxDepth(s)
  {
    hide AtInstr, Bytes, Length, AllMeasurable, InstrFits, StaysInside, Depth, Stride, ProgramFits, Opcode;
    var stackSize, stackSizeMax := 0, 0;
    var pos: nat := HEADER_LEN;
    ghost var k: nat := 0;
    ScanStart(code, HEADER_LEN, s);
    DepthStart(s);
    while pos < |code|
      invariant k <= |s| && AtInstr(code, HEADER_LEN, s, k, pos)
      invariant stackSize == Depth(s, k) && stackSizeMax == MaxUpTo(s, k) && 0 <= stackSizeMax <= STACK_SIZE_MAX
      decreases |s| - k
    {
      ScanStep(code, HEADER_LEN, s, k, pos);
      EffectOf(s, k);
      MaxGrows(s, k + 1, |s|);
      var opcode := code[pos];
      if opcode == 15 || opcode == 25 {
        stackSize := stackSize + 1;
        if stackSize > stackSizeMax {
          if stackSize > STACK_SIZE_MAX { return -1; }
          stackSizeMax := stackSize;
        }
      } else if opcode == 16 || opcode == 26 {
        assert stackSize > 0;
        stackSize := stackSize - 1;
      }
      pos := pos + Stride(code, pos);
      k := k + 1;
    }
    ScanStep(code, HEADER_LEN, s, k, pos);
    return stackSizeMax;
  }

  lemma DepthStart(s: seq<Instr>)
    ensures Depth(s, 0) == 0 && MaxUpTo(s, 0) == 0
  {
    assert s[..0] == [];
  }

  lemma {:induction false} EffectOf(s: seq<Instr>, k: nat)
    requires k < |s| && ProgramFits(s)
    ensures Depth(s, k + 1) == Depth(s, k)
      + (if Opcode(s[k]) in {15, 25} then 1 else if Opcode(s[k]) in {16, 26} then -1 else 0)
    ensures Opcode(s[k]) in {16, 26} ==> Depth(s, k) > 0
    ensures MaxUpTo(s, k + 1) == if Depth(s, k + 1) > MaxUpTo(s, k) then Depth(s, k + 1) else MaxUpTo(s, k)
    ensures Depth(s, k) <= MaxUpTo(s, k)
  {
    hide Depth, Offset, MaxUpTo, StaysInside, ProgramFits;
    DepthStep(s, k);
    FitsAt(s, k);
    DepthAtMost(s, k, k);
    MaxStep(s, k);
  }

  lemma MaxStep(s: seq<Instr>, k: nat)
    requires k < |s|
    ensures MaxUpTo(s, k + 1) == if Depth(s, k + 1) > MaxUpTo(s, k) then Depth(s, k + 1) else MaxUpTo(s, k)
  {
  }

  lemma {:induction false} MaxGrows(s: seq<Instr>, j: nat, k: nat)
    requires j <= k <= |s|
    ensures MaxUpTo(s, j) <= MaxUpTo(s, k)
    decreases k
  {
    if j < k { MaxGrows(s, j, k - 1); }
  }

  datatype Outcome = Accepted(bytes: seq<Byte>) | Refused

  // What lre_compile leaves for a pattern it accepts.
  ghost predicate IsProgram(code: seq<Byte>, p: Pattern, flags: Byte, sticky: bool) {
    var s := ProgramCode(p, sticky);
    code == [flags, (1 + Groups(p)) % 0x100, MaxDepth(s) % 0x100] + U32(Length(s)) + Bytes(s)
  }

  // lre_compile, on a parsed pattern.
  method Compile(p: Pattern, flags: Byte, sticky: bool) returns (r: Outcome)
    requires WellFormed(p)
    ensures r.Refused? <==> !Emittable(p, 1) || MaxDepth(ProgramCode(p, sticky)) > STACK_SIZE_MAX
    ensures r.Accepted? <==>
      CountGroups(Parts(p)) <= 254 && MaxDepth(ProgramCode(p, sticky)) <= 255
      && forall q :: q in Parts(p) ==> (q.Class? ==> |q.points| / 2 < 65535) && (q.Quant? ==> q.min <= q.max)
    ensures r.Accepted? ==> IsProgram(r.bytes, p, flags, sticky)
  {
    hide Bytes, Length, ProgramCode, U32, AllMeasurable, ProgramFits, MaxDepth, WellFormed;
    hide Emittable, CountGroups, Parts;
    EmittableIff(p, 1);
    var s := new Emitter();
    s.PutByte(flags);
    s.PutByte(0);
    s.PutByte(0);
    s.Put32(0);
    ghost var code := ProgramCode(p, sticky);
    var header: seq<Byte> := [flags, 0, 0] + U32(0);
    assert s.byteCode == header;
    var ok := EmitProgram(s, p, sticky, header);
    if !ok { return Refused; }
    ProgramShape(p, sticky);
    assert s.byteCode[HEADER_LEN..] == Bytes(code);
    var stackSize := ComputeStackSize(s.byteCode, code);
    if stackSize < 0 { return Refused; }
    var bytes := FillHeader(s.byteCode, s.captureCount, stackSize, flags, Bytes(code));
    return Accepted(bytes);
  }

  method EmitProgram(s: Emitter, p: Pattern, sticky: bool, header: seq<Byte>) returns (ok: bool)
    requires WellFormed(p) && s.byteCode == header && s.captureCount == 1
    modifies s
    ensures ok <==> Emittable(p, 1)
    ensures ok ==> s.byteCode == header + Bytes(ProgramCode(p, sticky)) && s.captureCount == 1 + Groups(p)
  {
    hide Bytes, Length, Gen, U32, Op32, ProgramCode;
    if !sticky {
      var _ := s.EmitOpU32(8, 6);
      s.EmitOp(4);
      var _ := s.EmitOpU32(7, -11);
    }
    s.EmitOpU8(11, 0);
    ok := s.EmitPattern(p, Forward);
    if !ok { return; }
    s.EmitOpU8(12, 0);
    s.EmitOp(10);
    ProgramBytes(header, p, sticky);
  }

  method FillHeader(code: seq<Byte>, captureCount: nat, stackSize: nat, flags: Byte, ghost body: seq<Byte>)
                    returns (r: seq<Byte>)
    requires code == [flags, 0, 0] + U32(0) + body
    ensures r == [flags, captureCount % 0x100, stackSize % 0x100] + U32(|body|) + body
  {
    hide U32;
    r := code[1 := captureCount % 0x100];
    r := r[2 := stackSize % 0x100];
    r := r[..3] + U32(|r| - HEADER_LEN) + r[7..];
    assert code[7..] == body;
  }

  lemma {:induction false} ProgramShape(p: Pattern, sticky: bool)
    requires Emittable(p, 1)
    ensures AllMeasurable(ProgramCode(p, sticky)) && ProgramFits(ProgramCode(p, sticky))
  {
    hide Gen, ProgramFits, AllMeasurable;
    var w := Whole(p, sticky);
    assert Groups(Skip()) == 0;
    assert Emittable(w, 0);
    GenMeasurable(w, Forward, 0);
    OneMeasurable(Match);
    MeasurableAppend(Gen(w, Forward, 0), [Match]);
    GenClosed(w, Forward, 0);
    BodyFits(Gen(w, Forward, 0));
  }

  lemma {:induction false} ProgramBytes(header: seq<Byte>, p: Pattern, sticky: bool)
    ensures var skip := if sticky then header else header + Op32(8, 6) + [4] + Op32(7, -11);
      header + Bytes(ProgramCode(p, sticky)) == skip + [11, 0] + Bytes(Gen(p, Forward, 1)) + [12, 0] + [10]
  {
    hide Bytes, Length, Op32;
    var skip := if sticky then [] else Gen(Skip(), Forward, 0);
    var group := Gen(Group(p), Forward, 0);
    WholeParts(p, sticky);
    BytesAppend(skip + group, [Match]);
    BytesAppend(skip, group);
    BytesOne(Match);
    GroupBytes(p);
    SkipBytes(header);
    NoCode();
    var skipped := header + Bytes(skip);
    assert skipped == if sticky then header else header + Op32(8, 6) + [4] + Op32(7, -11) by {
      assert Bytes([]) == [];
      assert header + [] == header;
    }
    Assoc4(header, Bytes(skip), Bytes(group), [10]);
    Assoc4(skipped, [11, 0], Bytes(Gen(p, Forward, 1)), [12, 0]);
  }

  lemma {:induction false} WholeParts(p: Pattern, sticky: bool)
    ensures ProgramCode(p, sticky)
      == (if sticky then [] else Gen(Skip(), Forward, 0)) + Gen(Group(p), Forward, 0) + [Match]
  {
    hide QuantCode, Length;
    if !sticky { CatCode(Whole(p, sticky), Forward, 0); }
  }

  lemma {:induction false} GroupBytes(p: Pattern)
    ensures Bytes(Gen(Group(p), Forward, 0)) == [11, 0] + Bytes(Gen(p, Forward, 1)) + [12, 0]
  {
    hide Bytes, Length;
    var inner := Gen(p, Forward, 1);
    assert Gen(Group(p), Forward, 0) == [SaveStart(0)] + inner + [SaveEnd(0)];
    BytesAppend([SaveStart(0)] + inner, [SaveEnd(0)]);
    BytesAppend([SaveStart(0)], inner);
    BytesOne(SaveStart(0));
    BytesOne(SaveEnd(0));
  }

  lemma {:induction false} SkipBytes(header: seq<Byte>)
    ensures header + Bytes(Gen(Skip(), Forward, 0)) == header + Op32(8, 6) + [4] + Op32(7, -11)
  {
    hide Bytes, Length, Op32, StarCode;
    assert Gen(Skip(), Forward, 0) == StarCode([Any], false, false) by { SkipCode(); }
    BytesOfStar(header, [Any], false, false);
    BytesOne(Any);
  }

  lemma SkipCode()
    ensures Gen(Skip(), Forward, 0) == StarCode([Any], false, false)
  {
    hide StarCode;
    assert Gen(AnyChar(true), Forward, 0) == [Any];
    assert [] + StarCode([Any], false, false) == StarCode([Any], false, false);
  }

  // The accepted program, read back: the header counts, and the code where the machine starts.
  lemma {:induction false} ProgramIsThere(code: seq<Byte>, p: Pattern, flags: Byte, sticky: bool)
    requires IsProgram(code, p, flags, sticky) && Emittable(p, 1) && MaxDepth(ProgramCode(p, sticky)) <= STACK_SIZE_MAX
    requires |code| <= INT32_MAX
    ensures CodeAt(code, HEADER_LEN, ProgramCode(p, sticky))
    ensures code[1] as int == 1 + Groups(p) && code[2] as int == MaxDepth(ProgramCode(p, sticky))
    ensures Get32(code, 3) == |code| - HEADER_LEN
  {
    hide Bytes, Length, ProgramCode, U32, Get32, MaxDepth, AllEncodable;
    var s := ProgramCode(p, sticky);
    GroupBound(p, 1);
    ProgramEncodable(p, sticky);
    HeaderRead(code, [flags, (1 + Groups(p)) % 0x100, MaxDepth(s) % 0x100], Length(s), Bytes(s));
  }

  lemma {:induction false} HeaderRead(code: seq<Byte>, head: seq<Byte>, n: nat, body: seq<Byte>)
    requires |head| == 3 && n <= UINT32_MAX && code == head + U32(n) + body
    ensures Holds(code, 7, body) && Get32(code, 3) == n && code[1] == head[1] && code[2] == head[2]
  {
    hide U32, Get32;
    assert code[0..] == head + (U32(n) + body);
    HoldsTail(code, 0, head, U32(n), body);
    Held32(code, 3, n);
    U32Read(n);
    assert code[7..7 + |body|] == body;
  }

  lemma {:induction false} ProgramEncodable(p: Pattern, sticky: bool)
    requires Emittable(p, 1) && Length(ProgramCode(p, sticky)) <= INT32_MAX
    ensures AllEncodable(ProgramCode(p, sticky))
  {
    hide Bytes, Length, Gen, AllEncodable;
    var w := Whole(p, sticky);
    assert Groups(Skip()) == 0;
    assert Emittable(w, 0);
    BytesAppend(Gen(w, Forward, 0), [Match]);
    GenEncodable(w, Forward, 0);
    EncodableOne(Match);
    EncodableParts(Gen(w, Forward, 0), [Match]);
  }

  // Where a search that starts at at ends.
  ghost function Expected(t: Text, p: Pattern, sticky: bool, at: nat): Option<Place>
    requires at <= |t.units|
  {
    StartInside(t, at, 1 + Groups(p));
    First(Ends(Code, t, Whole(p, sticky), Forward, 0, Start(at, 1 + Groups(p))))
  }

  // The reading from at comes to an end.
  ghost predicate Reaching(t: Text, p: Pattern, sticky: bool, at: nat) {
    Inside(t, Start(at, 1 + Groups(p))) && ReadingEnds(t, p, sticky, Start(at, 1 + Groups(p)))
  }

  lemma {:induction false} ReadsOnce(t: Text, p: Pattern, sticky: bool, at: nat, found: Option<Place>)
    requires at <= |t.units| && Emittable(p, 1) && Inside(t, Start(at, 1 + Groups(p)))
    requires Reads(t, p, sticky, Start(at, 1 + Groups(p)), found)
    ensures LazyLoopsMove(t, p, Forward, 1) ==> found == Expected(t, p, sticky, at)
  {
    hide SearchDoes, LazyLoopsMove, Ends, Whole, Inside;
    var s := Start(at, 1 + Groups(p));
    if LazyLoopsMove(t, p, Forward, 1) {
      MovingReads(t, p, sticky, s);
      var f: nat :| !SearchDoes(f, t, p, sticky, s).Never?;
    }
  }

  lemma {:induction false} ExpectedSpan(t: Text, p: Pattern, sticky: bool, at: nat)
    requires at <= |t.units| && Aligned(t, at) && Emittable(p, 1) && NoReferences(p)
    ensures Finds(t, p, sticky, at, Expected(t, p, sticky, at))
  {
    hide Finds, Ends, Whole, Inside, Between, Emittable;
    StartInside(t, at, 1 + Groups(p));
    BetweenAligned(t, at);
    ExpectedFinds(t, p, sticky, Start(at, 1 + Groups(p)));
  }

  // lre_exec on a program of lre_compile stops; from between code points, with what the program is read to come to:
  // the preferred leftmost match, or none, where no unbounded lazy loop has empty rounds.
  method Execute(code: seq<Byte>, t: Text, at: nat, ghost p: Pattern, ghost flags: Byte, ghost sticky: bool)
                 returns (found: Option<Place>)
    requires IsProgram(code, p, flags, sticky) && Emittable(p, 1) && MaxDepth(ProgramCode(p, sticky)) <= STACK_SIZE_MAX
    requires |code| <= INT32_MAX && at <= |t.units|
    requires LazyAtomsNonEmpty(p, false) || (Aligned(t, at) && Reaching(t, p, sticky, at))
    ensures Aligned(t, at) ==>
      Inside(t, Start(at, 1 + Groups(p))) && Reads(t, p, sticky, Start(at, 1 + Groups(p)), found)
    ensures Aligned(t, at) && LazyLoopsMove(t, p, Forward, 1) ==> found == Expected(t, p, sticky, at)
    ensures Aligned(t, at) && LazyLoopsMove(t, p, Forward, 1) && NoReferences(p) ==> Finds(t, p, sticky, at, found)
  {
    hide Bytes, Length, ProgramCode, U32, Get32, MaxDepth, LazyLoopsMove, LazyAtomsNonEmpty, Ends, Steps, CodeAt;
    hide IsProgram, Aligned, ReadingEnds, Reads, Inside, Finds, NoReferences;
    ProgramIsThere(code, p, flags, sticky);
    assert |code| >= 7 by { ProgramLong(code, p, flags, sticky); }
    var groups := code[1];
    var m := Machine(t, code);
    ghost var start := Run(HEADER_LEN, Start(at, groups), [], []);
    ghost var limit: nat;
    StartInside(t, at, groups);
    if Aligned(t, at) {
      NonEmptyLazyAtoms(t, p, Forward, 1);
      if LazyLoopsMove(t, p, Forward, 1) { MovingReads(t, p, sticky, Start(at, groups)); }
      ghost var result := ReadingStops(m, p, sticky, Start(at, groups));
      ReadsOnce(t, p, sticky, at, result);
      if LazyLoopsMove(t, p, Forward, 1) && NoReferences(p) { ExpectedSpan(t, p, sticky, at); }
      limit := StepsTo(m, start, Done(result));
    } else {
      SearchStops(m, p, sticky, at, groups);
      limit :| Steps(m, limit, start).Done?;
    }
    var matcher := new Matcher(m, at, groups);
    found := matcher.Backtrack(limit);
  }

  lemma ProgramLong(code: seq<Byte>, p: Pattern, flags: Byte, sticky: bool)
    requires IsProgram(code, p, flags, sticky)
    ensures |code| >= 7
  {
  }
}
