// The operand stack of compiled programs: its depth is a function of pc (libregexp.c:1699-1742 and 1971-2219).
module ReDepth {
  import opened ReText
  import opened ReCode
  import opened RePattern
  import opened ReGen
  import opened ReMachine
  import opened ReLoops
  import opened ReProgram

  function Effect(i: Instr): int {
    if i.PushI32? || i.PushCharPos? then 1 else if i.Drop? || i.CheckAdvance? then -1 else 0
  }

  // The linear count: pushes minus pops among the instructions of s.
  function Sum(s: seq<Instr>): int { if s == [] then 0 else Effect(s[0]) + Sum(s[1..]) }

  function Depth(s: seq<Instr>, k: nat): int
    requires k <= |s|
  {
    Sum(s[..k])
  }

  function Offset(s: seq<Instr>, k: nat): nat
    requires k <= |s|
  {
    Length(s[..k])
  }

  lemma {:induction false} SumAppend(a: seq<Instr>, b: seq<Instr>)
    ensures Sum(a + b) == Sum(a) + Sum(b)
  {
    if a == [] { assert a + b == b; } else { assert (a + b)[1..] == a[1..] + b; SumAppend(a[1..], b); }
  }

  lemma {:induction false} DepthStep(s: seq<Instr>, k: nat)
    requires k < |s|
    ensures Depth(s, k + 1) == Depth(s, k) + Effect(s[k]) && Offset(s, k + 1) == Offset(s, k) + Size(s[k])
  {
    assert s[..k + 1] == s[..k] + [s[k]];
    SumAppend(s[..k], [s[k]]);
    BytesAppend(s[..k], [s[k]]);
    BytesOne(s[k]);
    assert [s[k]][1..] == [];
  }

  // A jump from the end of s[..k] by off lands on an instruction, with the depth it started from.
  ghost predicate JumpFits(s: seq<Instr>, k: nat, off: int)
    requires k <= |s|
  {
    exists j: nat :: Lands(s, k, off, j)
  }

  ghost predicate Lands(s: seq<Instr>, k: nat, off: int, j: nat)
    requires k <= |s|
  {
    j <= |s| && Offset(s, j) == Offset(s, k) + off && Depth(s, j) == Depth(s, k)
  }

  function JumpOf(i: Instr): Option<int> {
    match i
    case Goto(off) => Some(off)
    case SplitGotoFirst(off) => Some(off)
    case SplitNextFirst(off) => Some(off)
    case Loop(off) => Some(off)
    case Lookahead(off) => Some(off)
    case NegativeLookahead(off) => Some(off)
    case SimpleGreedyQuant(next, _, _, _) => Some(next)
    case _ => None
  }

  // A simple atom and its match follow.
  ghost predicate AtomFollows(s: seq<Instr>, k: nat) {
    exists n: nat :: AtomOf(s, k, n)
  }

  ghost predicate AtomOf(s: seq<Instr>, k: nat, n: nat) {
    k + n < |s| && s[k + n] == Match && SimpleLength(s[k..k + n]) > 0
  }

  ghost predicate InstrFits(s: seq<Instr>, k: nat)
    requires k < |s|
  {
    Depth(s, k) >= 0
    && (s[k].Drop? || s[k].CheckAdvance? || s[k].Loop? ==> Depth(s, k) >= 1)
    && (JumpOf(s[k]).Some? ==> JumpFits(s, k + 1, JumpOf(s[k]).value))
    && (s[k].SimpleGreedyQuant? ==> AtomFollows(s, k + 1))
  }

  // A fragment that leaves the stack as it found it and jumps only within itself.
  ghost predicate Closed(s: seq<Instr>) { Sum(s) == 0 && forall k :: 0 <= k < |s| ==> InstrFits(s, k) }

  lemma {:induction false} Embed(pre: seq<Instr>, a: seq<Instr>, post: seq<Instr>, k: nat)
    requires k <= |a|
    ensures var s := pre + a + post;
      Depth(s, |pre| + k) == Sum(pre) + Depth(a, k) && Offset(s, |pre| + k) == Length(pre) + Offset(a, k)
  {
    var s := pre + a + post;
    assert s[..|pre| + k] == pre + a[..k];
    SumAppend(pre, a[..k]);
    BytesAppend(pre, a[..k]);
  }

  lemma {:induction false} EmbedFits(pre: seq<Instr>, a: seq<Instr>, post: seq<Instr>, k: nat)
    requires k < |a| && InstrFits(a, k) && Sum(pre) >= 0
    ensures InstrFits(pre + a + post, |pre| + k)
  {
    hide Sum, Length, SimpleLength;
    var s := pre + a + post;
    assert s[|pre| + k] == a[k];
    Embed(pre, a, post, k);
    Embed(pre, a, post, k + 1);
    if JumpOf(a[k]).Some? {
      var off := JumpOf(a[k]).value;
      var j: nat :| Lands(a, k + 1, off, j);
      Embed(pre, a, post, j);
      assert Lands(s, |pre| + k + 1, off, |pre| + j);
    }
    if a[k].SimpleGreedyQuant? {
      var n: nat :| AtomOf(a, k + 1, n);
      assert s[|pre| + k + 1..|pre| + k + 1 + n] == a[k + 1..k + 1 + n];
      assert AtomOf(s, |pre| + k + 1, n);
    }
  }

  lemma {:induction false} ClosedAppend(a: seq<Instr>, b: seq<Instr>)
    requires Closed(a) && Closed(b)
    ensures Closed(a + b)
  {
    hide Sum, InstrFits;
    var s := a + b;
    SumAppend(a, b);
    SumNone();
    forall k | 0 <= k < |s| ensures InstrFits(s, k) {
      if k < |a| {
        assert [] + a + b == s;
        EmbedFits([], a, b, k);
      } else {
        assert a + b + [] == s;
        EmbedFits(a, b, [], k - |a|);
      }
    }
  }

  lemma SumNone()
    ensures Sum([]) == 0 && Length([]) == 0
  {
  }

  lemma SumOne(i: Instr)
    ensures Sum([i]) == Effect(i) && Length([i]) == Size(i)
  {
    assert [i][1..] == [];
    BytesOne(i);
  }

  // A closed fragment between a head and a tail.
  lemma {:induction false} ClosedWrap(pre: seq<Instr>, s: seq<Instr>, post: seq<Instr>)
    requires Closed(s) && Sum(pre) + Sum(post) == 0 && Sum(pre) >= 0
    requires forall k :: 0 <= k < |pre| ==> InstrFits(pre + s + post, k)
    requires forall k :: |pre| + |s| <= k < |pre + s + post| ==> InstrFits(pre + s + post, k)
    ensures Closed(pre + s + post)
  {
    hide Sum, InstrFits;
    var all := pre + s + post;
    SumAppend(pre + s, post);
    SumAppend(pre, s);
    forall k | 0 <= k < |all| ensures InstrFits(all, k) {
      if |pre| <= k < |pre| + |s| {
        EmbedFits(pre, s, post, k - |pre|);
      }
    }
  }

  // Depth and offset in the head and in the tail.
  lemma {:induction false} HeadMark(pre: seq<Instr>, s: seq<Instr>, post: seq<Instr>, k: nat)
    requires k <= |pre|
    ensures Depth(pre + s + post, k) == Sum(pre[..k]) && Offset(pre + s + post, k) == Length(pre[..k])
  {
    assert (pre + s + post)[..k] == pre[..k];
  }

  lemma {:induction false} TailMark(pre: seq<Instr>, s: seq<Instr>, post: seq<Instr>, k: nat)
    requires Closed(s) && k <= |post|
    ensures Depth(pre + s + post, |pre| + |s| + k) == Sum(pre) + Sum(post[..k])
    ensures Offset(pre + s + post, |pre| + |s| + k) == Length(pre) + Length(s) + Length(post[..k])
  {
    hide Sum, Length, InstrFits;
    assert (pre + s + post)[..|pre| + |s| + k] == pre + s + post[..k];
    SumAppend(pre + s, post[..k]);
    SumAppend(pre, s);
    BytesAppend(pre + s, post[..k]);
    BytesAppend(pre, s);
  }

  lemma SumTwo(a: Instr, b: Instr)
    ensures Sum([a, b]) == Effect(a) + Effect(b) && Length([a, b]) == Size(a) + Size(b)
    ensures [a, b][..0] == [] && [a, b][..1] == [a] && [a, b][..2] == [a, b]
    ensures [a][..0] == [] && [a][..1] == [a] && [b][..0] == [] && [b][..1] == [b]
  {
    assert [a, b] == [a] + [b];
    SumAppend([a], [b]);
    BytesAppend([a], [b]);
    SumOne(a);
    SumOne(b);
  }

  lemma {:induction false} RoundClosed(atom: seq<Instr>, check: bool)
    requires Closed(atom)
    ensures Closed(RoundCode(atom, check))
  {
    hide Sum, Length, Closed;
    if check {
      var pre, post := [PushCharPos], [CheckAdvance];
      SumNone();
      SumTwo(PushCharPos, CheckAdvance);
      SumOne(PushCharPos);
      SumOne(CheckAdvance);
      HeadMark(pre, atom, post, 0);
      TailMark(pre, atom, post, 0);
      ClosedWrap(pre, atom, post);
    }
  }

  lemma {:induction false} OptionalClosed(atom: seq<Instr>, check: bool, greedy: bool)
    requires Closed(atom)
    ensures Closed(OptionalCode(atom, check, greedy))
  {
    hide Sum, Length, Closed, RoundCode, RoundLength;
    var r, round := RoundLength(atom, check), RoundCode(atom, check);
    var split := SplitCode(greedy, r);
    RoundClosed(atom, check);
    RoundSize(atom, check);
    SumNone();
    SumTwo(split, split);
    SumOne(split);
    assert [split] + round + [] == OptionalCode(atom, check, greedy);
    HeadMark([split], round, [], 0);
    HeadMark([split], round, [], 1);
    TailMark([split], round, [], 0);
    assert Lands([split] + round + [], 1, r, 1 + |round|);
    ClosedWrap([split], round, []);
  }

  lemma {:induction false} StarClosed(atom: seq<Instr>, check: bool, greedy: bool)
    requires Closed(atom)
    ensures Closed(StarCode(atom, check, greedy))
  {
    hide Sum, Length, Closed, RoundCode, RoundLength;
    var r, round := RoundLength(atom, check), RoundCode(atom, check);
    var pre, post := [SplitCode(greedy, r + 5)], [Goto(-(r + 10))];
    var all := pre + round + post;
    RoundClosed(atom, check);
    RoundSize(atom, check);
    SumNone();
    SumTwo(pre[0], post[0]);
    SumOne(pre[0]);
    SumOne(post[0]);
    HeadMark(pre, round, post, 0);
    HeadMark(pre, round, post, 1);
    TailMark(pre, round, post, 0);
    TailMark(pre, round, post, 1);
    assert Lands(all, 1, r + 5, |all|);
    assert Lands(all, |all|, -(r + 10), 0);
    ClosedWrap(pre, round, post);
  }

  lemma {:induction false} CountedMarks(round: seq<Instr>, r: nat, greedy: bool, n: nat)
    requires Closed(round) && Length(round) == r
    ensures var all := [PushI32(n), SplitCode(greedy, r + 5)] + round + [Loop(-(r + 10)), Drop];
      |all| == |round| + 4
      && Depth(all, 0) == 0 && Depth(all, 1) == 1 && Depth(all, 2) == 1 && Depth(all, |round| + 2) == 1
         && Depth(all, |round| + 3) == 1
      && Offset(all, 1) == 5 && Offset(all, 2) == 10 && Offset(all, |round| + 3) == 15 + r
  {
    hide Sum, Length, Closed, InstrFits;
    var pre, post := [PushI32(n), SplitCode(greedy, r + 5)], [Loop(-(r + 10)), Drop];
    SumNone();
    SumTwo(pre[0], pre[1]);
    SumTwo(post[0], post[1]);
    SumOne(pre[0]);
    SumOne(post[0]);
    HeadMark(pre, round, post, 0);
    HeadMark(pre, round, post, 1);
    HeadMark(pre, round, post, 2);
    TailMark(pre, round, post, 0);
    TailMark(pre, round, post, 1);
  }

  lemma {:induction false} CountedClosed(atom: seq<Instr>, check: bool, greedy: bool, n: nat)
    requires Closed(atom)
    ensures Closed(CountedCode(atom, check, greedy, n))
  {
    hide Sum, Length, Closed, RoundCode, RoundLength, Depth, Offset;
    var r, round := RoundLength(atom, check), RoundCode(atom, check);
    RoundClosed(atom, check);
    RoundSize(atom, check);
    var pre, post := [PushI32(n), SplitCode(greedy, r + 5)], [Loop(-(r + 10)), Drop];
    var all := pre + round + post;
    assert all == CountedCode(atom, check, greedy, n);
    CountedMarks(round, r, greedy, n);
    SumTwo(pre[0], pre[1]);
    SumTwo(post[0], post[1]);
    assert Lands(all, 2, r + 5, |round| + 3);
    assert Lands(all, |round| + 3, -(r + 10), 1);
    ClosedWrap(pre, round, post);
  }

  lemma {:induction false} ExactMarks(atom: seq<Instr>, l: nat, min: nat)
    requires Closed(atom) && Length(atom) == l
    ensures var all := [PushI32(min)] + atom + [Loop(-(l + 5)), Drop];
      |all| == |atom| + 3
      && Depth(all, 0) == 0 && Depth(all, 1) == 1 && Depth(all, |atom| + 1) == 1 && Depth(all, |atom| + 2) == 1
      && Offset(all, 1) == 5 && Offset(all, |atom| + 2) == 10 + l
  {
    hide Sum, Length, Closed, InstrFits;
    var pre, post := [PushI32(min)], [Loop(-(l + 5)), Drop];
    SumNone();
    SumTwo(pre[0], pre[0]);
    SumTwo(post[0], post[1]);
    SumOne(pre[0]);
    SumOne(post[0]);
    HeadMark(pre, atom, post, 0);
    HeadMark(pre, atom, post, 1);
    TailMark(pre, atom, post, 0);
    TailMark(pre, atom, post, 1);
  }

  lemma {:induction false} ExactClosed(atom: seq<Instr>, min: nat)
    requires Closed(atom)
    ensures Closed(ExactCode(atom, min))
  {
    hide Sum, Length, Closed, Depth, Offset;
    if min != 1 {
      var l: int := Length(atom);
      var pre, post := [PushI32(min)], [Loop(-(l + 5)), Drop];
      var all := pre + atom + post;
      assert all == ExactCode(atom, min);
      ExactMarks(atom, l, min);
      SumOne(pre[0]);
      SumTwo(post[0], post[1]);
      assert Lands(all, |atom| + 2, -(l + 5), 1);
      ClosedWrap(pre, atom, post);
    }
  }

  lemma {:induction false} SimpleClosed(atom: seq<Instr>, min: nat, max: nat)
    requires Closed(atom) && SimpleLength(atom) > 0
    ensures Closed(SimpleCode(atom, min, max))
  {
    hide Sum, Length, Closed, SimpleLength;
    var i := SimpleGreedyQuant(Length(atom) + 1, min, max, SimpleLength(atom));
    var pre, post := [i], [Match];
    var all := pre + atom + post;
    SumNone();
    SumTwo(i, Match);
    SumOne(i);
    SumOne(Match);
    HeadMark(pre, atom, post, 0);
    HeadMark(pre, atom, post, 1);
    TailMark(pre, atom, post, 0);
    TailMark(pre, atom, post, 1);
    assert Lands(all, 1, Length(atom) + 1, |all|);
    assert all[1..1 + |atom|] == atom;
    assert AtomOf(all, 1, |atom|);
    ClosedWrap(pre, atom, post);
  }

  lemma {:induction false} BackClosed(atom: seq<Instr>, greedy: bool)
    requires Closed(atom)
    ensures Closed(atom + [SplitCode(greedy, -(Length(atom) + 5))])
  {
    hide Sum, Length, Closed;
    var split := SplitCode(greedy, -(Length(atom) + 5));
    var all := [] + atom + [split];
    assert all == atom + [split];
    SumNone();
    SumTwo(split, split);
    SumOne(split);
    HeadMark([], atom, [split], 0);
    TailMark([], atom, [split], 0);
    TailMark([], atom, [split], 1);
    assert Lands(all, |atom| + 1, -(Length(atom) + 5), 0);
    ClosedWrap([], atom, [split]);
  }

  lemma {:induction false} LookClosed(negative: bool, inner: seq<Instr>)
    requires Closed(inner)
    ensures Closed([LookInstr(negative, Length(inner) + 1)] + inner + [Match])
  {
    hide Sum, Length, Closed;
    var pre, post := [LookInstr(negative, Length(inner) + 1)], [Match];
    var all := pre + inner + post;
    SumNone();
    SumTwo(pre[0], Match);
    SumOne(pre[0]);
    SumOne(Match);
    HeadMark(pre, inner, post, 0);
    HeadMark(pre, inner, post, 1);
    TailMark(pre, inner, post, 0);
    TailMark(pre, inner, post, 1);
    assert Lands(all, 1, Length(inner) + 1, |all|);
    ClosedWrap(pre, inner, post);
  }

  lemma {:induction false} FlatClosed(i: Instr)
    requires Effect(i) == 0 && !i.Loop? && JumpOf(i).None? && !i.SimpleGreedyQuant?
    ensures Closed([i])
  {
    SumOne(i);
    SumNone();
    assert [i][..0] == [];
  }

  lemma {:induction false} AltClosed(x: seq<Instr>, y: seq<Instr>)
    requires Closed(x) && Closed(y)
    ensures Closed(AltCode(x, y))
  {
    hide Sum, Length, Closed;
    var split, goto := [SplitNextFirst(Length(x) + 5)], [Goto(Length(y))];
    // the goto with what it jumps over
    SumNone();
    SumTwo(split[0], goto[0]);
    SumOne(split[0]);
    SumOne(goto[0]);
    var tail := goto + y;
    assert goto + y + [] == tail;
    HeadMark(goto, y, [], 0);
    HeadMark(goto, y, [], 1);
    TailMark(goto, y, [], 0);
    assert Lands(tail, 1, Length(y), |tail|);
    ClosedWrap(goto, y, []);
    SumClosed(tail);
    var all := split + x + tail;
    assert all == AltCode(x, y);
    HeadMark(split, x, tail, 0);
    HeadMark(split, x, tail, 1);
    TailMark(split, x, tail, 1);
    assert tail[..1] == goto;
    assert Lands(all, 1, Length(x) + 5, 1 + |x| + 1);
    forall k | |split| + |x| <= k < |all| ensures InstrFits(all, k) { TailFits(split, x, tail, k - 1 - |x|); }
    ClosedWrap(split, x, tail);
  }

  lemma SumClosed(s: seq<Instr>)
    requires Closed(s)
    ensures Sum(s) == 0
  {
  }

  lemma {:induction false} TailFits(pre: seq<Instr>, s: seq<Instr>, tail: seq<Instr>, k: nat)
    requires Closed(s) && Closed(tail) && k < |tail| && Sum(pre) >= 0
    ensures InstrFits(pre + s + tail, |pre| + |s| + k)
  {
    hide InstrFits, Sum;
    SumAppend(pre, s);
    EmbedFits(pre + s, tail, [], k);
    assert pre + s + tail + [] == pre + s + tail;
  }

  lemma {:induction false} QuantClosed(atom: seq<Instr>, cc: nat, n: nat, min: nat, max: nat, greedy: bool)
    requires Closed(atom)
    ensures Closed(QuantCode(atom, cc, n, min, max, greedy))
  {
    hide Closed, SimpleLength, NeedCheckAdvance, OptionalCode, StarCode, CountedCode, ExactCode, SimpleCode, Length;
    var check := greedy && NeedCheckAdvance(atom);
    var tail := TailCode(atom, check, if min == 0 then max else Rest(min, max), greedy);
    NoneClosed();
    StarClosed(atom, check, greedy);
    OptionalClosed(atom, check, greedy);
    CountedClosed(atom, check, greedy, if min == 0 then max else Rest(min, max));
    ExactClosed(atom, min);
    BackClosed(atom, !greedy);
    if n > 0 { FlatClosed(SaveReset(cc, cc + n - 1)); }
    ClosedAppend(ResetCode(cc, n), OptionalCode(atom, check, greedy));
    ClosedAppend(ResetCode(cc, n), tail);
    ClosedAppend(ExactCode(atom, min), tail);
    if SimpleLength(atom) > 0 { SimpleClosed(atom, min, max); }
  }

  lemma NoneClosed()
    ensures Closed([])
  {
  }

  lemma {:induction false} GenClosed(p: Pattern, dir: Direction, cc: nat)
    ensures Closed(Gen(p, dir, cc))
  {
    hide Closed, QuantCode, AltCode, Length;
    match p
    case Empty => NoneClosed();
    case Test(e) => FlatClosed(TestCode(e));
    case Reference(k) => FlatClosed(if dir.Forward? then BackReference(k) else BackwardBackReference(k));
    case Group(b) =>
      GenClosed(b, dir, cc + 1);
      FlatClosed(SaveCode(OpenSlot(dir, cc)));
      FlatClosed(SaveCode(CloseSlot(dir, cc)));
      ClosedAppend([SaveCode(OpenSlot(dir, cc))], Gen(b, dir, cc + 1));
      ClosedAppend([SaveCode(OpenSlot(dir, cc))] + Gen(b, dir, cc + 1), [SaveCode(CloseSlot(dir, cc))]);
    case Look(negative, behind, b) =>
      GenClosed(b, if behind then Backward else Forward, cc);
      LookClosed(negative, Gen(b, if behind then Backward else Forward, cc));
    case Cat(a, b) =>
      GenClosed(a, dir, cc);
      GenClosed(b, dir, cc + Groups(a));
      ClosedAppend(Gen(a, dir, cc), Gen(b, dir, cc + Groups(a)));
      ClosedAppend(Gen(b, dir, cc + Groups(a)), Gen(a, dir, cc));
    case Alt(a, b) =>
      GenClosed(a, dir, cc);
      GenClosed(b, dir, cc + Groups(a));
      AltClosed(Gen(a, dir, cc), Gen(b, dir, cc + Groups(a)));
    case Quant(b, min, max, greedy) =>
      GenClosed(b, dir, cc);
      QuantClosed(Gen(b, dir, cc), cc, Groups(b), min, max, greedy);
    case _ =>
      FlatClosed(Prev);
      FlatClosed(CharCode(p));
      ClosedAppend([Prev], [CharCode(p)]);
      ClosedAppend([Prev] + [CharCode(p)], [Prev]);
  }

  // Whole programs.

  // Every instruction fits, lands inside, and only match is last.
  ghost predicate ProgramFits(s: seq<Instr>) {
    forall k :: 0 <= k < |s| ==> InstrFits(s, k) && StaysInside(s, k)
  }

  ghost predicate LandsInside(s: seq<Instr>, k: nat, off: int, j: nat)
    requires k <= |s|
  {
    j < |s| && Lands(s, k, off, j)
  }

  ghost predicate JumpsInside(s: seq<Instr>, k: nat, off: int)
    requires k <= |s|
  {
    exists j: nat :: LandsInside(s, k, off, j)
  }

  ghost predicate StaysInside(s: seq<Instr>, k: nat)
    requires k < |s|
  {
    (JumpOf(s[k]).Some? ==> JumpsInside(s, k + 1, JumpOf(s[k]).value))
    && (s[k] != Match ==> k + 1 < |s|)
  }

  lemma {:induction false} BodyFits(body: seq<Instr>)
    requires Closed(body)
    ensures ProgramFits(body + [Match])
  {
    hide Sum, Length, SimpleLength, InstrFits;
    var s := body + [Match];
    FlatClosed(Match);
    ClosedAppend(body, [Match]);
    forall k | 0 <= k < |s| ensures InstrFits(s, k) && StaysInside(s, k) {
      FitsOfClosed(s, k);
      if k < |body| {
        FitsOfClosed(body, k);
        BodyStays(body, k);
      }
    }
  }

  lemma FitsOfClosed(s: seq<Instr>, k: nat)
    requires Closed(s) && k < |s|
    ensures InstrFits(s, k)
  {
  }

  lemma {:induction false} BodyStays(body: seq<Instr>, k: nat)
    requires k < |body| && InstrFits(body, k)
    ensures StaysInside(body + [Match], k)
  {
    hide Sum, Length, SimpleLength;
    var s := body + [Match];
    assert s[k] == body[k];
    if JumpOf(body[k]).Some? {
      var j: nat :| Lands(body, k + 1, JumpOf(body[k]).value, j);
      SumNone();
      assert [] + body + [Match] == s;
      Embed([], body, [Match], k + 1);
      Embed([], body, [Match], j);
      assert LandsInside(s, k + 1, JumpOf(s[k]).value, j);
    }
  }

  ghost predicate SavedAt(s: seq<Instr>, x: Saved, k: nat) {
    k < |s| && |x.stack| == Depth(s, k)
    && if x.kind.GreedyKind? then s[k].SimpleGreedyQuant? && x.pc == HEADER_LEN + Offset(s, k) + 1
       else x.pc == HEADER_LEN + Offset(s, k)
  }

  ghost predicate SavedFits(t: Text, s: seq<Instr>, x: Saved) {
    Inside(t, Place(x.at, x.caps)) && exists k: nat :: SavedAt(s, x, k)
  }

  ghost predicate RunAt(s: seq<Instr>, pc: int, depth: nat, k: nat) {
    k < |s| && pc == HEADER_LEN + Offset(s, k) && depth == Depth(s, k)
  }

  ghost predicate AllSaved(t: Text, s: seq<Instr>, states: seq<Saved>) {
    forall i :: 0 <= i < |states| ==> SavedFits(t, s, states[i])
  }

  // The machine is at an instruction, with the depth counted there, and so is everything saved.
  ghost predicate StateFits(t: Text, s: seq<Instr>, st: State) {
    match st
    case Done(_) => true
    case Stuck => false
    case Run(pc, here, stack, states) =>
      Inside(t, here) && AllSaved(t, s, states) && exists k: nat :: RunAt(s, pc, |stack|, k)
  }

  lemma {:induction false} InstrThere(code: seq<Byte>, s: seq<Instr>, k: nat)
    requires CodeAt(code, HEADER_LEN, s) && k < |s|
    ensures Fetch(code, HEADER_LEN + Offset(s, k)) == Some(s[k])
    ensures CodeAt(code, HEADER_LEN + Offset(s, k), s[k..])
  {
    hide CodeAt, Fetch, Length, Bytes;
    assert s == s[..k] + s[k..];
    CodeAtAppend(code, HEADER_LEN, s[..k], s[k..]);
    assert s[k..] == [s[k]] + s[k + 1..];
    CodeAtAppend(code, HEADER_LEN + Offset(s, k), [s[k]], s[k + 1..]);
    FetchAt(code, HEADER_LEN + Offset(s, k), s[k]);
  }

  lemma {:induction false} FailFits(m: Machine, s: seq<Instr>, states: seq<Saved>)
    requires CodeAt(m.code, HEADER_LEN, s) && ProgramFits(s) && AllSaved(m.t, s, states)
    ensures StateFits(m.t, s, Fail(m, states))
    decreases |states|
  {
    hide CodeAt, Fetch, Inside, Depth, Offset, InstrFits;
    if states != [] {
      var top, rest := states[|states| - 1], states[..|states| - 1];
      assert SavedFits(m.t, s, top);
      var k: nat :| SavedAt(s, top, k);
      if top.kind.LookaheadKind? {
        FailFits(m, s, rest);
      } else if top.kind.GreedyKind? {
        FailGreedyFits(m, s, rest, top, k);
      } else {
        assert RunAt(s, top.pc, |top.stack|, k);
      }
    }
  }

  lemma {:induction false} FailGreedyFits(m: Machine, s: seq<Instr>, rest: seq<Saved>, top: Saved, k: nat)
    requires CodeAt(m.code, HEADER_LEN, s) && ProgramFits(s) && AllSaved(m.t, s, rest)
    requires top.kind.GreedyKind? && SavedAt(s, top, k) && Inside(m.t, Place(top.at, top.caps))
    ensures StateFits(m.t, s, Fail(m, rest + [top]))
  {
    hide CodeAt, Fetch, Depth, Offset;
    var all := rest + [top];
    assert all[..|all| - 1] == rest;
    InstrThere(m.code, s, k);
    DepthStep(s, k);
    assert InstrFits(s, k) && StaysInside(s, k);
    var j: nat :| LandsInside(s, k + 1, s[k].next, j);
    assert RunAt(s, top.pc + 16 + s[k].next, |top.stack|, j);
    var at := Backwards(m.t, top.at, s[k].len);
    var back := top.(at := at, count := if top.count <= 1 then 0 else top.count - 1);
    assert SavedAt(s, back, k);
  }

  lemma {:induction false} SucceedFits(m: Machine, s: seq<Instr>, here: Place, states: seq<Saved>)
    requires CodeAt(m.code, HEADER_LEN, s) && ProgramFits(s) && AllSaved(m.t, s, states) && Inside(m.t, here)
    ensures StateFits(m.t, s, Succeed(m, here, states))
    decreases |states|
  {
    hide CodeAt, Fetch, Depth, Offset, Fail, ProgramFits;
    if states != [] {
      var top, rest := states[|states| - 1], states[..|states| - 1];
      assert SavedFits(m.t, s, top);
      var k: nat :| SavedAt(s, top, k);
      if top.kind.LookaheadKind? {
        assert RunAt(s, top.pc, |top.stack|, k);
      } else if top.kind.NegativeLookaheadKind? {
        FailFits(m, s, rest);
      } else {
        SucceedFits(m, s, here, rest);
      }
    }
  }

  // A nested run of a simple atom never leaves it, and moves when the atom has a character.
  lemma {:induction false} NestedFits(m: Machine, pc: int, atom: seq<Instr>, at: nat)
    requires at <= |m.t.units| && SimpleLength(atom) >= 0 && CodeAt(m.code, pc, atom + [Match])
    ensures var r := Nested(m, pc, at);
      !r.Broken? && (r.Reached? && SimpleLength(atom) > 0 ==> r.at > at)
    decreases |atom|
  {
    hide CodeAt, Nested, Consume;
    if atom == [] {
      assert atom + [Match] == [Match];
      NestedStep(m, pc, Match, at);
    } else {
      assert atom + [Match] == [atom[0]] + (atom[1..] + [Match]);
      CodeAtAppend(m.code, pc, [atom[0]], atom[1..] + [Match]);
      BytesOne(atom[0]);
      NestedStep(m, pc, atom[0], at);
      if CharInstr(atom[0]) {
        var next := Consume(m.t, atom[0], at);
        if next.Some? { NestedFits(m, pc + Size(atom[0]), atom[1..], next.value); }
      } else {
        NestedFits(m, pc + Size(atom[0]), atom[1..], at);
      }
    }
  }

  lemma {:induction false} NestedStep(m: Machine, pc: int, i: Instr, at: nat)
    requires at <= |m.t.units| && CodeAt(m.code, pc, [i])
    ensures i.Match? ==> Nested(m, pc, at) == Reached(at)
    ensures CharInstr(i) && Consume(m.t, i, at).None? ==> Nested(m, pc, at) == Blocked
    ensures CharInstr(i) && Consume(m.t, i, at).Some? ==>
      Nested(m, pc, at) == Nested(m, pc + Size(i), Consume(m.t, i, at).value)
    ensures TestInstr(i) ==> Nested(m, pc, at) == Blocked || Nested(m, pc, at) == Nested(m, pc + Size(i), at)
  {
    hide CodeAt, Fetch, TestHit, Consume;
    FetchAt(m.code, pc, i);
  }

  lemma {:induction false} GreedyFits(m: Machine, pc: int, atom: seq<Instr>, max: nat, q: nat, at: nat)
    requires at <= |m.t.units| && SimpleLength(atom) > 0 && CodeAt(m.code, pc, atom + [Match])
    ensures GreedyRun(m, pc, max, q, at).Some?
    decreases |m.t.units| - at
  {
    hide CodeAt, Nested, SimpleLength;
    NestedFits(m, pc, atom, at);
    var r := Nested(m, pc, at);
    if r.Reached? && r.at > at { GreedyFits(m, pc, atom, max, q + 1, r.at); }
  }

  lemma {:induction false} StepFits(m: Machine, s: seq<Instr>, st: State)
    requires CodeAt(m.code, HEADER_LEN, s) && ProgramFits(s) && StateFits(m.t, s, st)
    ensures StateFits(m.t, s, Step(m, st))
  {
    hide CodeAt, Fetch, StepInstr, Depth, Offset, InstrFits;
    if st.Run? {
      var k: nat :| RunAt(s, st.pc, |st.stack|, k);
      InstrThere(m.code, s, k);
      InsideAt(m.t, st.here);
      InstrStepFits(m, s, st, k);
    }
  }

  lemma {:induction false} InstrStepFits(m: Machine, s: seq<Instr>, st: State, k: nat)
    requires CodeAt(m.code, HEADER_LEN, s) && ProgramFits(s) && StateFits(m.t, s, st)
    requires st.Run? && st.here.at <= |m.t.units| && RunAt(s, st.pc, |st.stack|, k)
    ensures StateFits(m.t, s, StepInstr(m, st, s[k]))
  {
    hide CodeAt, Fetch, Depth, Offset, InstrFits, ProgramFits, StateFits, StaysInside, StepInstr;
    var i := s[k];
    FitsAt(s, k);
    if i.Match? {
      MatchStepFits(m, s, st, k);
    } else if i.SimpleGreedyQuant? {
      QuantStepFits(m, s, st, k);
    } else if JumpOf(i).Some? {
      JumpStepFits(m, s, st, k);
    } else if i.PushI32? || i.PushCharPos? || i.Drop? || i.CheckAdvance? {
      StackStepFits(m, s, st, k);
    } else {
      MoveStepFits(m, s, st, k);
    }
  }

  lemma FitsAt(s: seq<Instr>, k: nat)
    requires ProgramFits(s) && k < |s|
    ensures InstrFits(s, k) && StaysInside(s, k)
  {
  }

  // On to the next instruction, or to where it jumps.
  lemma {:induction false} NextFits(t: Text, s: seq<Instr>, k: nat, pc: int, here: Place, stack: seq<int>,
                                    states: seq<Saved>)
    requires k + 1 < |s| && pc == HEADER_LEN + Offset(s, k) + Size(s[k]) && |stack| == Depth(s, k) + Effect(s[k])
    requires Inside(t, here) && AllSaved(t, s, states)
    ensures StateFits(t, s, Run(pc, here, stack, states))
  {
    hide Depth, Offset, Inside, SavedFits;
    DepthStep(s, k);
    assert RunAt(s, pc, |stack|, k + 1);
  }

  lemma {:induction false} LandFits(t: Text, s: seq<Instr>, k: nat, pc: int, here: Place, stack: seq<int>,
                                    states: seq<Saved>)
    requires k < |s| && JumpOf(s[k]).Some? && StaysInside(s, k)
    requires pc == HEADER_LEN + Offset(s, k) + Size(s[k]) + JumpOf(s[k]).value && |stack| == Depth(s, k) + Effect(s[k])
    requires Inside(t, here) && AllSaved(t, s, states)
    ensures StateFits(t, s, Run(pc, here, stack, states))
  {
    hide Depth, Offset, Inside, SavedFits;
    DepthStep(s, k);
    var j: nat :| LandsInside(s, k + 1, JumpOf(s[k]).value, j);
    assert RunAt(s, pc, |stack|, j);
  }

  lemma {:induction false} PushFits(t: Text, s: seq<Instr>, states: seq<Saved>, x: Saved)
    requires AllSaved(t, s, states) && !x.kind.GreedyKind?
    requires StateFits(t, s, Run(x.pc, Place(x.at, x.caps), x.stack, states))
    ensures AllSaved(t, s, states + [x])
  {
    hide Depth, Offset, Inside;
    var k: nat :| RunAt(s, x.pc, |x.stack|, k);
    assert SavedAt(s, x, k);
    assert SavedFits(t, s, x);
  }

  lemma {:induction false} MatchStepFits(m: Machine, s: seq<Instr>, st: State, k: nat)
    requires CodeAt(m.code, HEADER_LEN, s) && ProgramFits(s) && StateFits(m.t, s, st)
    requires st.Run? && st.here.at <= |m.t.units| && k < |s| && s[k].Match?
    ensures StateFits(m.t, s, StepInstr(m, st, s[k]))
  {
    hide CodeAt, ProgramFits, Depth, Offset, Succeed;
    SucceedFits(m, s, st.here, st.states);
  }

  lemma {:induction false} QuantStepFits(m: Machine, s: seq<Instr>, st: State, k: nat)
    requires CodeAt(m.code, HEADER_LEN, s) && ProgramFits(s) && StateFits(m.t, s, st)
    requires st.Run? && st.here.at <= |m.t.units| && RunAt(s, st.pc, |st.stack|, k) && s[k].SimpleGreedyQuant?
    requires InstrFits(s, k) && StaysInside(s, k)
    ensures StateFits(m.t, s, StepInstr(m, st, s[k]))
  {
    hide CodeAt, ProgramFits, Depth, Offset, Fail, GreedyRun, SavedFits, SimpleLength, StaysInside, Length, Bytes;
    var i := s[k];
    AtomCounts(m, s, k, st);
    var c := GreedyRun(m, st.pc + 17, i.max, 0, st.here.at).value;
    if c.q < i.min {
      FailFits(m, s, st.states);
    } else {
      var here := st.here.(at := c.at);
      var x := Saved(GreedyKind, st.pc + 1, c.at, st.here.caps, st.stack, if c.q > i.min then c.q - i.min else 0);
      assert Place(x.at, x.caps) == here && Inside(m.t, here);
      assert SavedAt(s, x, k);
      SavedHere(m.t, s, x, k);
      LandFits(m.t, s, k, st.pc + 17 + i.next, here, st.stack, st.states);
      LandFits(m.t, s, k, st.pc + 17 + i.next, here, st.stack, st.states + [x]);
    }
  }

  lemma {:induction false} AtomCounts(m: Machine, s: seq<Instr>, k: nat, st: State)
    requires CodeAt(m.code, HEADER_LEN, s) && st.Run? && st.here.at <= |m.t.units| && RunAt(s, st.pc, |st.stack|, k)
    requires s[k].SimpleGreedyQuant? && AtomFollows(s, k + 1)
    ensures GreedyRun(m, st.pc + 17, s[k].max, 0, st.here.at).Some?
  {
    hide CodeAt, Depth, Offset, GreedyRun, SimpleLength, Length, Bytes;
    var n: nat :| AtomOf(s, k + 1, n);
    var atom := s[k + 1..k + 1 + n];
    InstrThere(m.code, s, k + 1);
    DepthStep(s, k);
    assert s[k + 1..] == (atom + [Match]) + s[k + 1 + n + 1..];
    CodeAtAppend(m.code, st.pc + 17, atom + [Match], s[k + 1 + n + 1..]);
    GreedyFits(m, st.pc + 17, atom, s[k].max, 0, st.here.at);
  }

  lemma SavedHere(t: Text, s: seq<Instr>, x: Saved, k: nat)
    requires SavedAt(s, x, k) && Inside(t, Place(x.at, x.caps))
    ensures SavedFits(t, s, x)
  {
  }

  lemma {:induction false} JumpStepFits(m: Machine, s: seq<Instr>, st: State, k: nat)
    requires StateFits(m.t, s, st)
    requires st.Run? && st.here.at <= |m.t.units| && RunAt(s, st.pc, |st.stack|, k)
    requires JumpOf(s[k]).Some? && !s[k].SimpleGreedyQuant? && InstrFits(s, k) && StaysInside(s, k)
    ensures StateFits(m.t, s, StepInstr(m, st, s[k]))
  {
    hide Depth, Offset, SavedFits;
    var i := s[k];
    var next, over := st.pc + 5, st.pc + 5 + JumpOf(i).value;
    var stack := if i.Loop? then Pop(st.stack) + [Decrement(st.stack[|st.stack| - 1])] else st.stack;
    NextFits(m.t, s, k, next, st.here, stack, st.states);
    LandFits(m.t, s, k, over, st.here, stack, st.states);
    if !i.Goto? && !i.Loop? {
      var kind := if i.Lookahead? then LookaheadKind else if i.NegativeLookahead? then NegativeLookaheadKind
          else SplitKind;
      assert Place(st.here.at, st.here.caps) == st.here;
      PushFits(m.t, s, st.states, Saved(kind, over, st.here.at, st.here.caps, stack, 0));
      PushFits(m.t, s, st.states, Saved(kind, next, st.here.at, st.here.caps, stack, 0));
      NextFits(m.t, s, k, next, st.here, stack, st.states + [Saved(kind, over, st.here.at, st.here.caps, stack, 0)]);
      LandFits(m.t, s, k, over, st.here, stack, st.states + [Saved(kind, next, st.here.at, st.here.caps, stack, 0)]);
    }
  }

  lemma {:induction false} StackStepFits(m: Machine, s: seq<Instr>, st: State, k: nat)
    requires CodeAt(m.code, HEADER_LEN, s) && ProgramFits(s) && StateFits(m.t, s, st)
    requires st.Run? && st.here.at <= |m.t.units| && RunAt(s, st.pc, |st.stack|, k)
    requires (s[k].PushI32? || s[k].PushCharPos? || s[k].Drop? || s[k].CheckAdvance?) && InstrFits(s, k)
    requires StaysInside(s, k)
    ensures StateFits(m.t, s, StepInstr(m, st, s[k]))
  {
    hide CodeAt, ProgramFits, Depth, Offset, SavedFits, Fail;
    var i := s[k];
    var stack := if i.PushI32? then st.stack + [i.n] else if i.PushCharPos? then st.stack + [st.here.at]
        else Pop(st.stack);
    NextFits(m.t, s, k, st.pc + Size(i), st.here, stack, st.states);
    FailFits(m, s, st.states);
  }

  lemma {:induction false} MoveStepFits(m: Machine, s: seq<Instr>, st: State, k: nat)
    requires CodeAt(m.code, HEADER_LEN, s) && ProgramFits(s) && StateFits(m.t, s, st)
    requires st.Run? && st.here.at <= |m.t.units| && RunAt(s, st.pc, |st.stack|, k)
    requires JumpOf(s[k]).None? && !s[k].Match? && !s[k].PushI32? && !s[k].PushCharPos? && !s[k].Drop?
    requires !s[k].CheckAdvance?
    requires StaysInside(s, k)
    ensures StateFits(m.t, s, StepInstr(m, st, s[k]))
  {
    hide CodeAt, ProgramFits, Depth, Offset, SavedFits, Fail, TestHit, CharHit, Referenced, Inside;
    var i := s[k];
    FailFits(m, s, st.states);
    var next := st.pc + Size(i);
    forall q | Inside(m.t, q) ensures StateFits(m.t, s, Run(next, q, st.stack, st.states)) {
      NextFits(m.t, s, k, next, q, st.stack, st.states);
    }
    MoveInside(m, st, i);
  }

  lemma {:induction false} MoveInside(m: Machine, st: State, i: Instr)
    requires st.Run? && Inside(m.t, st.here)
    ensures CharInstr(i) && Consume(m.t, i, st.here.at).Some? ==>
      Inside(m.t, st.here.(at := Consume(m.t, i, st.here.at).value))
    ensures i.SaveStart? ==> Inside(m.t, Mark(st.here, 2 * i.k))
    ensures i.SaveEnd? ==> Inside(m.t, Mark(st.here, 2 * i.k + 1))
    ensures i.SaveReset? ==> Inside(m.t, Forget(st.here, i.lo, if i.lo <= i.hi then i.hi - i.lo + 1 else 0))
    ensures st.here.at > 0 ==> Inside(m.t, st.here.(at := Before(m.t, st.here.at, 0)))
  {
  }

  // Over any number of steps from a fitting state.
  lemma {:induction false} StepsFit(m: Machine, s: seq<Instr>, st: State, n: nat)
    requires CodeAt(m.code, HEADER_LEN, s) && ProgramFits(s) && StateFits(m.t, s, st)
    ensures StateFits(m.t, s, Steps(m, n, st))
    decreases n
  {
    hide CodeAt, ProgramFits, StateFits, Step;
    if n > 0 {
      StepFits(m, s, st);
      StepsFit(m, s, Step(m, st), n - 1);
    }
  }

  function MaxUpTo(s: seq<Instr>, k: nat): (r: int)
    requires k <= |s|
    ensures r >= 0
  {
    if k == 0 then 0 else var r := MaxUpTo(s, k - 1); if Depth(s, k) > r then Depth(s, k) else r
  }

  function MaxDepth(s: seq<Instr>): nat { MaxUpTo(s, |s|) }

  lemma {:induction false} DepthAtMost(s: seq<Instr>, j: nat, k: nat)
    requires j <= k <= |s|
    ensures Depth(s, j) <= MaxUpTo(s, k)
    decreases k
  {
    SumNone();
    assert s[..0] == [];
    if k > 0 && j < k { DepthAtMost(s, j, k - 1); }
  }

  // In every run of a compiled program, whatever the text: the machine never leaves the code or empties the
  // operand stack, and the depth is the linear count at pc, at most what the header announces.
  lemma {:induction false} DepthIsLinear(m: Machine, p: Pattern, sticky: bool, s: Place, n: nat)
    requires CodeAt(m.code, HEADER_LEN, ProgramCode(p, sticky)) && Inside(m.t, s)
    ensures var code := ProgramCode(p, sticky);
      var st := Steps(m, n, Run(HEADER_LEN, s, [], []));
      !st.Stuck?
      && (st.Run? ==> |st.stack| <= MaxDepth(code) && exists k: nat :: RunAt(code, st.pc, |st.stack|, k))
  {
    hide CodeAt, Inside, AllSaved, Depth, Offset, ProgramFits, MaxUpTo, Gen;
    var code := ProgramCode(p, sticky);
    GenClosed(Whole(p, sticky), Forward, 0);
    BodyFits(Gen(Whole(p, sticky), Forward, 0));
    StartFits(m.t, code, s);
    StepsFit(m, code, Run(HEADER_LEN, s, [], []), n);
    var st := Steps(m, n, Run(HEADER_LEN, s, [], []));
    if st.Run? {
      var k: nat :| RunAt(code, st.pc, |st.stack|, k);
      DepthAtMost(code, k, |code|);
    }
  }

  lemma StartFits(t: Text, code: seq<Instr>, s: Place)
    requires code != [] && Inside(t, s)
    ensures StateFits(t, code, Run(HEADER_LEN, s, [], []))
  {
    SumNone();
    assert code[..0] == [];
    assert RunAt(code, HEADER_LEN, 0, 0);
  }
}
