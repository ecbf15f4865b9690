// The byte code of libregexp-opcode.h: instructions, their bytes, and reading them back.
module ReCode {
  import opened ReText

  type Byte = x: int | 0 <= x < 0x100

  const INT32_MAX: int := 0x7FFF_FFFF
  const UINT32_MAX: int := 0xFFFF_FFFF

  datatype Instr =
    | Char16(c: nat)
    | Char32(c: nat)
    | Dot
    | Any
    | TestLineStart
    | TestLineEnd
    | Goto(off: int)
    | SplitGotoFirst(off: int)
    | SplitNextFirst(off: int)
    | Match
    | SaveStart(k: nat)
    | SaveEnd(k: nat)
    | SaveReset(lo: nat, hi: nat)
    | Loop(off: int)
    | PushI32(n: nat)
    | Drop
    | WordBoundary
    | NotWordBoundary
    | BackReference(k: nat)
    | BackwardBackReference(k: nat)
    | Range16(bounds: seq<nat>)
    | Range32(bounds: seq<nat>)
    | Lookahead(off: int)
    | NegativeLookahead(off: int)
    | PushCharPos
    | CheckAdvance
    | Prev
    | SimpleGreedyQuant(next: int, min: nat, max: nat, len: nat)

  function U16(v: int): (r: seq<Byte>)
    ensures |r| == 2
  {
    [v % 0x100, v / 0x100 % 0x100]
  }

  // put_u32: the low 32 bits, least significant byte first.
  function U32(v: int): (r: seq<Byte>)
    ensures |r| == 4
  {
    var w := if v < 0 then v + 0x1_0000_0000 else v;
    [w % 0x100, w / 0x100 % 0x100, w / 0x1_0000 % 0x100, w / 0x100_0000 % 0x100]
  }

  function Get16(b: seq<Byte>, i: int): (r: nat)
    requires 0 <= i && i + 2 <= |b|
    ensures r < 0x1_0000
  {
    b[i] as int + 0x100 * (b[i + 1] as int)
  }

  function Get32(b: seq<Byte>, i: int): (r: nat)
    requires 0 <= i && i + 4 <= |b|
    ensures r <= UINT32_MAX
  {
    b[i] as int + 0x100 * (b[i + 1] as int) + 0x1_0000 * (b[i + 2] as int) + 0x100_0000 * (b[i + 3] as int)
  }

  // (int)get_u32(...)
  function Signed(v: nat): int { if v > INT32_MAX then v - 0x1_0000_0000 else v }

  lemma U16Read(v: nat)
    requires v < 0x1_0000
    ensures Get16(U16(v), 0) == v
  {
  }

  lemma U32Read(v: int)
    requires -0x8000_0000 <= v <= UINT32_MAX
    ensures Get32(U32(v), 0) == (if v < 0 then v + 0x1_0000_0000 else v)
    ensures v <= INT32_MAX ==> Signed(Get32(U32(v), 0)) == v
  {
    if v < 0 { U32Nat(v + 0x1_0000_0000); } else { U32Nat(v); }
  }

  lemma U32Nat(v: nat)
    requires v <= UINT32_MAX
    ensures Get32(U32(v), 0) == v
  {
    var a := v / 0x100;
    var b := a / 0x100;
    var c := b / 0x100;
    assert v / 0x1_0000 == b && v / 0x100_0000 == c;
  }

  function Words16(s: seq<nat>): (r: seq<Byte>)
    ensures |r| == 2 * |s|
  {
    if s == [] then [] else U16(s[0]) + Words16(s[1..])
  }

  function Words32(s: seq<nat>): (r: seq<Byte>)
    ensures |r| == 4 * |s|
  {
    if s == [] then [] else U32(s[0]) + Words32(s[1..])
  }

  function Read16(b: seq<Byte>, at: nat, n: nat): (r: seq<nat>)
    requires at + 2 * n <= |b|
    ensures |r| == n
    decreases n
  {
    if n == 0 then [] else [Get16(b, at)] + Read16(b, at + 2, n - 1)
  }

  function Read32(b: seq<Byte>, at: nat, n: nat): (r: seq<nat>)
    requires at + 4 * n <= |b|
    ensures |r| == n
    decreases n
  {
    if n == 0 then [] else [Get32(b, at)] + Read32(b, at + 4, n - 1)
  }

  lemma {:induction false} Words16Read(b: seq<Byte>, at: nat, s: seq<nat>)
    requires at + 2 * |s| <= |b| && b[at..at + 2 * |s|] == Words16(s)
    requires forall i :: 0 <= i < |s| ==> s[i] < 0x1_0000
    ensures Read16(b, at, |s|) == s
    decreases |s|
  {
    if s != [] {
      U16Read(s[0]);
      HoldsSplit(b, at, U16(s[0]), Words16(s[1..]));
      Held16(b, at, s[0]);
      Words16Read(b, at + 2, s[1..]);
    }
  }

  lemma {:induction false} Words32Read(b: seq<Byte>, at: nat, s: seq<nat>)
    requires at + 4 * |s| <= |b| && b[at..at + 4 * |s|] == Words32(s)
    requires forall i :: 0 <= i < |s| ==> s[i] <= UINT32_MAX
    ensures Read32(b, at, |s|) == s
    decreases |s|
  {
    if s != [] {
      U32Read(s[0]);
      HoldsSplit(b, at, U32(s[0]), Words32(s[1..]));
      Held32(b, at, s[0]);
      Words32Read(b, at + 4, s[1..]);
    }
  }

  function Opcode(i: Instr): (r: Byte)
    ensures 1 <= r <= 28
  {
    match i
    case Char16(_) => 1 case Char32(_) => 2 case Dot => 3 case Any => 4
    case TestLineStart => 5 case TestLineEnd => 6 case Goto(_) => 7
    case SplitGotoFirst(_) => 8 case SplitNextFirst(_) => 9 case Match => 10
    case SaveStart(_) => 11 case SaveEnd(_) => 12 case SaveReset(_, _) => 13
    case Loop(_) => 14 case PushI32(_) => 15 case Drop => 16
    case WordBoundary => 17 case NotWordBoundary => 18
    case BackReference(_) => 19 case BackwardBackReference(_) => 20
    case Range16(_) => 21 case Range32(_) => 22
    case Lookahead(_) => 23 case NegativeLookahead(_) => 24
    case PushCharPos => 25 case CheckAdvance => 26 case Prev => 27
    case SimpleGreedyQuant(_, _, _, _) => 28
  }

  function Operands(i: Instr): seq<Byte> {
    match i
    case Char16(c) => U16(c)
    case Char32(c) => U32(c)
    case Goto(off) => U32(off)
    case SplitGotoFirst(off) => U32(off)
    case SplitNextFirst(off) => U32(off)
    case Loop(off) => U32(off)
    case Lookahead(off) => U32(off)
    case NegativeLookahead(off) => U32(off)
    case PushI32(n) => U32(n)
    case SaveStart(k) => [k % 0x100]
    case SaveEnd(k) => [k % 0x100]
    case SaveReset(lo, hi) => [lo % 0x100, hi % 0x100]
    case BackReference(k) => [k % 0x100]
    case BackwardBackReference(k) => [k % 0x100]
    case Range16(bounds) => U16(|bounds| / 2) + Words16(bounds)
    case Range32(bounds) => U16(|bounds| / 2) + Words32(bounds)
    case SimpleGreedyQuant(next, min, max, len) => U32(next) + U32(min) + U32(max) + U32(len)
    case _ => []
  }

  function Encode(i: Instr): seq<Byte> { [Opcode(i)] + Operands(i) }

  function Size(i: Instr): (r: nat)
    ensures r == |Encode(i)| && r >= 1
  {
    match i
    case Char16(_) => 3
    case SaveStart(_) => 2
    case SaveEnd(_) => 2
    case BackReference(_) => 2
    case BackwardBackReference(_) => 2
    case SaveReset(_, _) => 3
    case Range16(bounds) => 3 + 2 * |bounds|
    case Range32(bounds) => 3 + 4 * |bounds|
    case SimpleGreedyQuant(_, _, _, _) => 17
    case Char32(_) => 5
    case Goto(_) => 5 case SplitGotoFirst(_) => 5 case SplitNextFirst(_) => 5 case Loop(_) => 5
    case PushI32(_) => 5 case Lookahead(_) => 5 case NegativeLookahead(_) => 5
    case _ => 1
  }

  predicate IsInt32(v: int) { -0x8000_0000 <= v <= INT32_MAX }

  // Each operand fits the field it is written to.
  predicate Encodable(i: Instr) {
    match i
    case Char16(c) => c < 0x1_0000
    case Char32(c) => c <= UINT32_MAX
    case Goto(off) => IsInt32(off)
    case SplitGotoFirst(off) => IsInt32(off)
    case SplitNextFirst(off) => IsInt32(off)
    case Loop(off) => IsInt32(off)
    case Lookahead(off) => IsInt32(off)
    case NegativeLookahead(off) => IsInt32(off)
    case PushI32(n) => n <= INT32_MAX
    case SaveStart(k) => k < 0x100
    case SaveEnd(k) => k < 0x100
    case SaveReset(lo, hi) => lo < 0x100 && hi < 0x100
    case BackReference(k) => k < 0x100
    case BackwardBackReference(k) => k < 0x100
    case Range16(bounds) => |bounds| % 2 == 0 && |bounds| / 2 < 0x1_0000 && forall j :: 0 <= j < |bounds| ==>
        bounds[j] < 0x1_0000
    case Range32(bounds) => |bounds| % 2 == 0 && |bounds| / 2 < 0x1_0000 && forall j :: 0 <= j < |bounds| ==>
        bounds[j] <= UINT32_MAX
    case SimpleGreedyQuant(next, min, max, len) => IsInt32(next) && min <= INT32_MAX && max <= INT32_MAX
        && len <= UINT32_MAX
    case _ => true
  }

  // The instruction at pc, as the switches of the scanners and of the machine read it.
  function Fetch(code: seq<Byte>, pc: int): Option<Instr> {
    if !(0 <= pc < |code|) then None
    else
      var op, room := code[pc], |code| - pc - 1;
      if op == 3 then Some(Dot)
      else if op == 4 then Some(Any)
      else if op == 5 then Some(TestLineStart)
      else if op == 6 then Some(TestLineEnd)
      else if op == 10 then Some(Match)
      else if op == 16 then Some(Drop)
      else if op == 17 then Some(WordBoundary)
      else if op == 18 then Some(NotWordBoundary)
      else if op == 25 then Some(PushCharPos)
      else if op == 26 then Some(CheckAdvance)
      else if op == 27 then Some(Prev)
      else if op in {11, 12, 19, 20} then
        if room < 1 then None
        else
          var k := code[pc + 1];
          Some(if op == 11 then SaveStart(k) else if op == 12 then SaveEnd(k)
               else if op == 19 then BackReference(k) else BackwardBackReference(k))
      else if op == 13 then if room < 2 then None else Some(SaveReset(code[pc + 1], code[pc + 2]))
      else if op == 1 then if room < 2 then None else Some(Char16(Get16(code, pc + 1)))
      else if op in {21, 22} then FetchRange(code, pc)
      else if op == 28 then
        if room < 16 then None
        else Some(SimpleGreedyQuant(Signed(Get32(code, pc + 1)), Get32(code, pc + 5), Get32(code, pc + 9),
                                    Get32(code, pc + 13)))
      else if room < 4 then None
      else FetchWord(op, Get32(code, pc + 1))
  }

  function FetchRange(code: seq<Byte>, pc: int): Option<Instr>
    requires 0 <= pc < |code|
  {
    if |code| < pc + 3 then None
    else
      var n := Get16(code, pc + 1);
      if code[pc] == 21 then
        if |code| < pc + 3 + 4 * n then None else Some(Range16(Read16(code, pc + 3, 2 * n)))
      else if |code| < pc + 3 + 8 * n then None
      else Some(Range32(Read32(code, pc + 3, 2 * n)))
  }

  function FetchWord(op: Byte, v: nat): Option<Instr> {
    if op == 2 then Some(Char32(v))
    else if op == 7 then Some(Goto(Signed(v)))
    else if op == 8 then Some(SplitGotoFirst(Signed(v)))
    else if op == 9 then Some(SplitNextFirst(Signed(v)))
    else if op == 14 then Some(Loop(Signed(v)))
    else if op == 15 then Some(PushI32(v))
    else if op == 23 then Some(Lookahead(Signed(v)))
    else if op == 24 then Some(NegativeLookahead(Signed(v)))
    else None
  }

  predicate Holds(code: seq<Byte>, pc: int, bytes: seq<Byte>) {
    0 <= pc && pc + |bytes| <= |code| && code[pc..pc + |bytes|] == bytes
  }

  lemma HoldsSplit(code: seq<Byte>, pc: int, a: seq<Byte>, b: seq<Byte>)
    ensures Holds(code, pc, a + b) <==> Holds(code, pc, a) && Holds(code, pc + |a|, b)
  {
    if Holds(code, pc, a + b) {
      assert code[pc..pc + |a|] == code[pc..pc + |a + b|][..|a|] == a;
      assert code[pc + |a|..pc + |a| + |b|] == code[pc..pc + |a + b|][|a|..] == b;
    }
    if Holds(code, pc, a) && Holds(code, pc + |a|, b) {
      assert code[pc..pc + |a + b|] == code[pc..pc + |a|] + code[pc + |a|..pc + |a| + |b|];
    }
  }

  lemma Held32(code: seq<Byte>, pc: int, v: int)
    requires Holds(code, pc, U32(v))
    ensures Get32(code, pc) == Get32(U32(v), 0)
  {
    var w := code[pc..pc + 4];
    assert forall k :: 0 <= k < 4 ==> code[pc + k] == w[k];
  }

  lemma Held16(code: seq<Byte>, pc: int, v: int)
    requires Holds(code, pc, U16(v))
    ensures Get16(code, pc) == Get16(U16(v), 0)
  {
    var w := code[pc..pc + 2];
    assert forall k :: 0 <= k < 2 ==> code[pc + k] == w[k];
  }

  // Reading back what was written: every instruction is recovered exactly.
  lemma FetchEncoded(code: seq<Byte>, pc: int, i: Instr)
    requires Encodable(i) && Holds(code, pc, Encode(i))
    ensures Fetch(code, pc) == Some(i)
  {
    HoldsSplit(code, pc, [Opcode(i)], Operands(i));
    assert code[pc] == code[pc..pc + 1][0] == Opcode(i);
    if i.Range16? || i.Range32? {
      FetchEncodedRange(code, pc, i);
    } else if i.SimpleGreedyQuant? {
      FetchEncodedQuant(code, pc, i);
    } else if |Operands(i)| == 4 {
      FetchEncodedWord(code, pc, i);
    } else {
      FetchEncodedShort(code, pc, i);
    }
  }

  lemma FetchEncodedShort(code: seq<Byte>, pc: int, i: Instr)
    requires Encodable(i) && |Operands(i)| < 4 && !i.Range16? && !i.Range32?
    requires 0 <= pc < |code| && code[pc] == Opcode(i) && Holds(code, pc + 1, Operands(i))
    ensures Fetch(code, pc) == Some(i)
  {
    hide U16, U32, Get16, Get32, FetchRange, FetchWord;
    var w := code[pc + 1..pc + 1 + |Operands(i)|];
    assert forall k :: 0 <= k < |w| ==> code[pc + 1 + k] == Operands(i)[k];
    if i.Char16? {
      Held16(code, pc + 1, i.c);
      U16Read(i.c);
    }
  }

  lemma FetchEncodedWord(code: seq<Byte>, pc: int, i: Instr)
    requires Encodable(i) && |Operands(i)| == 4 && !i.Range16? && !i.Range32?
    requires 0 <= pc < |code| && code[pc] == Opcode(i) && Holds(code, pc + 1, Operands(i))
    ensures Fetch(code, pc) == Some(i)
  {
    hide U16, U32, Get16, Get32, FetchRange;
    var v := match i
      case Char32(c) => c
      case PushI32(n) => n
      case Goto(off) => off
      case SplitGotoFirst(off) => off
      case SplitNextFirst(off) => off
      case Loop(off) => off
      case Lookahead(off) => off
      case NegativeLookahead(off) => off
      case _ => 0;
    assert Operands(i) == U32(v);
    Held32(code, pc + 1, v);
    U32Read(v);
  }

  lemma FetchEncodedRange(code: seq<Byte>, pc: int, i: Instr)
    requires Encodable(i) && (i.Range16? || i.Range32?)
    requires 0 <= pc < |code| && code[pc] == Opcode(i) && Holds(code, pc + 1, Operands(i))
    ensures Fetch(code, pc) == Some(i)
  {
    hide U16, U32, Get16, Get32, Words16, Words32, Read16, Read32;
    var n := |i.bounds| / 2;
    var words := if i.Range16? then Words16(i.bounds) else Words32(i.bounds);
    assert Operands(i) == U16(n) + words;
    HoldsSplit(code, pc + 1, U16(n), words);
    Held16(code, pc + 1, n);
    U16Read(n);
    if i.Range16? { Words16Read(code, pc + 3, i.bounds); } else { Words32Read(code, pc + 3, i.bounds); }
  }

  lemma FetchEncodedQuant(code: seq<Byte>, pc: int, i: Instr)
    requires Encodable(i) && i.SimpleGreedyQuant?
    requires 0 <= pc < |code| && code[pc] == Opcode(i) && Holds(code, pc + 1, Operands(i))
    ensures Fetch(code, pc) == Some(i)
  {
    HoldsSplit(code, pc + 1, U32(i.next) + U32(i.min) + U32(i.max), U32(i.len));
    HoldsSplit(code, pc + 1, U32(i.next) + U32(i.min), U32(i.max));
    HoldsSplit(code, pc + 1, U32(i.next), U32(i.min));
    Held32(code, pc + 1, i.next);
    Held32(code, pc + 5, i.min);
    Held32(code, pc + 9, i.max);
    Held32(code, pc + 13, i.len);
    U32Read(i.next);
    U32Read(i.min);
    U32Read(i.max);
    U32Read(i.len);
  }

  // A fragment of code.
  function Bytes(s: seq<Instr>): (r: seq<Byte>)
    ensures |r| == Length(s)
  {
    if s == [] then [] else Encode(s[0]) + Bytes(s[1..])
  }

  function Length(s: seq<Instr>): nat { if s == [] then 0 else Size(s[0]) + Length(s[1..]) }

  lemma {:induction false} BytesAppend(a: seq<Instr>, b: seq<Instr>)
    ensures Bytes(a + b) == Bytes(a) + Bytes(b)
    ensures Length(a + b) == Length(a) + Length(b)
  {
    if a == [] {
      assert a + b == b;
    } else {
      assert (a + b)[1..] == a[1..] + b;
      BytesAppend(a[1..], b);
      assert Encode(a[0]) + (Bytes(a[1..]) + Bytes(b)) == Encode(a[0]) + Bytes(a[1..]) + Bytes(b);
    }
  }

  lemma BytesOne(i: Instr)
    ensures Bytes([i]) == Encode(i) && Length([i]) == Size(i)
  {
  }

  predicate AllEncodable(s: seq<Instr>) { forall k :: 0 <= k < |s| ==> Encodable(s[k]) }

  lemma EncodableAppend(a: seq<Instr>, b: seq<Instr>)
    ensures AllEncodable(a + b) <==> AllEncodable(a) && AllEncodable(b)
  {
    hide Encodable;
    if AllEncodable(a + b) {
      assert forall k :: 0 <= k < |a| ==> (a + b)[k] == a[k];
      assert forall k :: 0 <= k < |b| ==> (a + b)[|a| + k] == b[k];
    }
  }

  // The fragment s is written at pc.
  ghost predicate CodeAt(code: seq<Byte>, pc: int, s: seq<Instr>) { Holds(code, pc, Bytes(s)) && AllEncodable(s) }

  lemma CodeAtAppend(code: seq<Byte>, pc: int, a: seq<Instr>, b: seq<Instr>)
    ensures CodeAt(code, pc, a + b) <==> CodeAt(code, pc, a) && CodeAt(code, pc + Length(a), b)
    ensures Length(a + b) == Length(a) + Length(b)
  {
    hide Holds, AllEncodable, Bytes, Length;
    BytesAppend(a, b);
    EncodableAppend(a, b);
    HoldsSplit(code, pc, Bytes(a), Bytes(b));
  }

  lemma FetchAt(code: seq<Byte>, pc: int, i: Instr)
    requires CodeAt(code, pc, [i])
    ensures Fetch(code, pc) == Some(i) && Length([i]) == Size(i)
  {
    BytesOne(i);
    assert Encodable([i][0]);
    FetchEncoded(code, pc, i);
  }
}
