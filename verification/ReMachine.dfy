// The backtracking machine, one step at a time (libregexp.c:1935-2413).
module ReMachine {
  import opened ReText
  import opened ReCode
  import opened ReRange
  import opened RePattern
  import opened ReGen

  datatype Kind = SplitKind | LookaheadKind | NegativeLookaheadKind | GreedyKind

  // REExecState
  datatype Saved = Saved(kind: Kind, pc: int, at: nat, caps: Captures, stack: seq<int>, count: nat)

  datatype Machine = Machine(t: Text, code: seq<Byte>)

  // Stuck stands for what the C leaves undefined: a jump out of the code, an empty operand stack.
  datatype State =
    | Run(pc: int, here: Place, stack: seq<int>, states: seq<Saved>)
    | Done(result: Option<Place>)
    | Stuck

  // PREV_CHAR n times.
  function Backwards(t: Text, at: nat, n: nat): (r: nat)
    ensures r <= at
  {
    if n == 0 || at == 0 || at > |t.units| then at else Backwards(t, Before(t, at, 0), n - 1)
  }

  // The no_match path: back to the newest saved state.
  function Fail(m: Machine, states: seq<Saved>): State
    decreases |states|
  {
    if states == [] then Done(None)
    else
      var rest, top := states[..|states| - 1], states[|states| - 1];
      match top.kind
      case LookaheadKind => Fail(m, rest)
      case GreedyKind =>
        (match Fetch(m.code, top.pc - 1)
         case Some(SimpleGreedyQuant(next, _, _, len)) =>
           var at := Backwards(m.t, top.at, len);
           Run(top.pc + 16 + next, Place(at, top.caps), top.stack,
               if top.count <= 1 then rest else rest + [top.(at := at, count := top.count - 1)])
         case _ => Stuck)
      case _ => Run(top.pc, Place(top.at, top.caps), top.stack, rest)
  }

  // REOP_match: back to the innermost lookaround, if any.
  function Succeed(m: Machine, here: Place, states: seq<Saved>): State
    decreases |states|
  {
    if states == [] then Done(Some(here))
    else
      var rest, top := states[..|states| - 1], states[|states| - 1];
      match top.kind
      case LookaheadKind => Run(top.pc, Place(top.at, here.caps), top.stack, rest)
      case NegativeLookaheadKind => Fail(m, rest)
      case _ => Succeed(m, here, rest)
  }

  predicate CharHit(t: Text, i: Instr, c: CodePoint)
    requires CharInstr(i)
  {
    match i
    case Char16(v) => Canon(t, c) == v
    case Char32(v) => Canon(t, c) == v
    case Dot => !LineTerminator(c)
    case Any => true
    case _ => RangeHit(i, Canon(t, c))
  }

  predicate TestHit(t: Text, i: Instr, at: nat)
    requires TestInstr(i) && at <= |t.units|
  {
    match i
    case TestLineStart => AtEdge(t, LineStart, at)
    case TestLineEnd => AtEdge(t, LineEnd, at)
    case WordBoundary => AtEdge(t, WordEdge, at)
    case NotWordBoundary => AtEdge(t, NotWordEdge, at)
  }

  // One character, or nothing.
  function Consume(t: Text, i: Instr, at: nat): (r: Option<nat>)
    requires CharInstr(i) && at <= |t.units|
    ensures r.Some? ==> at < r.value <= |t.units|
  {
    if at < |t.units| && CharHit(t, i, Char(t, at, |t.units|)) then Some(After(t, at, |t.units|)) else None
  }

  // The nested run of an atom under REOP_simple_greedy_quant (no_recurse).
  datatype Inner = Reached(at: nat) | Blocked | Broken

  function Nested(m: Machine, pc: int, at: nat): (r: Inner)
    requires at <= |m.t.units|
    ensures r.Reached? ==> at <= r.at <= |m.t.units|
    decreases |m.code| - pc
  {
    match Fetch(m.code, pc)
    case None => Broken
    case Some(i) =>
      if i.Match? then Reached(at)
      else if CharInstr(i) then
        (match Consume(m.t, i, at) case None => Blocked case Some(next) => Nested(m, pc + Size(i), next))
      else if TestInstr(i) then (if TestHit(m.t, i, at) then Nested(m, pc + Size(i), at) else Blocked)
      else Broken
  }

  datatype Count = Count(q: nat, at: nat)

  // The counting loop of REOP_simple_greedy_quant, after q rounds.
  function GreedyRun(m: Machine, pc: int, max: nat, q: nat, at: nat): (r: Option<Count>)
    requires at <= |m.t.units|
    ensures r.Some? ==> q <= r.value.q && at <= r.value.at <= |m.t.units|
    decreases |m.t.units| - at
  {
    match Nested(m, pc, at)
    case Broken => None
    case Blocked => Some(Count(q, at))
    case Reached(next) =>
      if next == at then None
      else if q + 1 >= max && max != INF then Some(Count(q + 1, next))
      else GreedyRun(m, pc, max, q + 1, next)
  }

  function Push(s: State, kind: Kind, pc: int): seq<Saved>
    requires s.Run?
  {
    s.states + [Saved(kind, pc, s.here.at, s.here.caps, s.stack, 0)]
  }

  function Pop(stack: seq<int>): (r: seq<int>)
    requires stack != []
  {
    stack[..|stack| - 1]
  }

  // --stack[stack_len - 1] on an unsigned word.
  function Decrement(v: int): int { if v == 0 then 0xFFFF_FFFF_FFFF_FFFF else v - 1 }

  function StepQuant(m: Machine, s: State, i: Instr): State
    requires s.Run? && i.SimpleGreedyQuant? && s.here.at <= |m.t.units|
  {
    var pc1 := s.pc + 17;
    match GreedyRun(m, pc1, i.max, 0, s.here.at)
    case None => Stuck
    case Some(c) =>
      if c.q < i.min then Fail(m, s.states)
      else
        Run(pc1 + i.next, s.here.(at := c.at), s.stack,
            if c.q > i.min then s.states + [Saved(GreedyKind, s.pc + 1, c.at, s.here.caps, s.stack, c.q - i.min)]
                else s.states)
  }

  function Step(m: Machine, s: State): State {
    if !s.Run? then s
    else if s.here.at > |m.t.units| then Stuck
    else match Fetch(m.code, s.pc) case None => Stuck case Some(i) => StepInstr(m, s, i)
  }

  function StepInstr(m: Machine, s: State, i: Instr): State
    requires s.Run? && s.here.at <= |m.t.units|
  {
    var next := s.pc + Size(i);
    if CharInstr(i) then
      (match Consume(m.t, i, s.here.at) case None => Fail(m, s.states) case Some(at) => s.(pc := next,
          here := s.here.(at := at)))
    else if TestInstr(i) then (if TestHit(m.t, i, s.here.at) then s.(pc := next) else Fail(m, s.states))
    else match i
      case Match => Succeed(m, s.here, s.states)
      case Goto(off) => s.(pc := next + off)
      case SplitGotoFirst(off) => s.(pc := next + off, states := Push(s, SplitKind, next))
      case SplitNextFirst(off) => s.(pc := next, states := Push(s, SplitKind, next + off))
      case Lookahead(off) => s.(pc := next, states := Push(s, LookaheadKind, next + off))
      case NegativeLookahead(off) => s.(pc := next, states := Push(s, NegativeLookaheadKind, next + off))
      case SaveStart(k) => s.(pc := next, here := Mark(s.here, 2 * k))
      case SaveEnd(k) => s.(pc := next, here := Mark(s.here, 2 * k + 1))
      case SaveReset(lo, hi) => s.(pc := next, here := Forget(s.here, lo, if lo <= hi then hi - lo + 1 else 0))
      case PushI32(n) => s.(pc := next, stack := s.stack + [n])
      case PushCharPos => s.(pc := next, stack := s.stack + [s.here.at])
      case Drop => if s.stack == [] then Stuck else s.(pc := next, stack := Pop(s.stack))
      case CheckAdvance =>
        if s.stack == [] then Stuck
        else if s.stack[|s.stack| - 1] == s.here.at then Fail(m, s.states)
        else s.(pc := next, stack := Pop(s.stack))
      case Loop(off) =>
        if s.stack == [] then Stuck
        else
          var v := Decrement(s.stack[|s.stack| - 1]);
          s.(pc := if v != 0 then next + off else next, stack := Pop(s.stack) + [v])
      case Prev => if s.here.at == 0 then Fail(m, s.states)
          else s.(pc := next, here := s.here.(at := Before(m.t, s.here.at, 0)))
      case SimpleGreedyQuant(_, _, _, _) => StepQuant(m, s, i)
      case _ => StepReference(m, s, i)
  }

  function StepReference(m: Machine, s: State, i: Instr): State
    requires s.Run? && s.here.at <= |m.t.units|
  {
    if !(i.BackReference? || i.BackwardBackReference?) || !Inside(m.t, s.here) then Stuck
    else
      match Referenced(m.t, if i.BackReference? then Forward else Backward, i.k, s.here)
      case None => Fail(m, s.states)
      case Some(q) => s.(pc := s.pc + Size(i), here := q)
  }

  function Steps(m: Machine, n: nat, s: State): State { if n == 0 then s else Steps(m, n - 1, Step(m, s)) }

  lemma {:induction false} StepsAdd(m: Machine, a: nat, b: nat, s: State)
    ensures Steps(m, a + b, s) == Steps(m, b, Steps(m, a, s))
  {
    if a > 0 { StepsAdd(m, a - 1, b, Step(m, s)); }
  }

  // The machine gets from s to u.
  ghost predicate Reaches(m: Machine, s: State, u: State) { exists n: nat :: Steps(m, n, s) == u }

  lemma {:induction false} ReachesSelf(m: Machine, s: State)
    ensures Reaches(m, s, s)
  {
    assert Steps(m, 0, s) == s;
  }

  lemma {:induction false} ReachesStep(m: Machine, s: State, u: State)
    requires Step(m, s) == u
    ensures Reaches(m, s, u)
  {
    hide Step;
    assert Steps(m, 0, u) == u;
    assert Steps(m, 1, s) == u;
  }

  lemma {:induction false} ReachesTrans(m: Machine, s: State, u: State, v: State)
    requires Reaches(m, s, u) && Reaches(m, u, v)
    ensures Reaches(m, s, v)
  {
    var a: nat :| Steps(m, a, s) == u;
    var b: nat :| Steps(m, b, u) == v;
    StepsAdd(m, a, b, s);
  }

  lemma {:induction false} StepsTo(m: Machine, u: State, w: State) returns (j: nat)
    requires Reaches(m, u, w)
    ensures Steps(m, j, u) == w
  {
    j :| Steps(m, j, u) == w;
  }

  // States a success pops without effect.
  predicate Harmless(states: seq<Saved>) {
    forall k :: 0 <= k < |states| ==> states[k].kind.SplitKind? || states[k].kind.GreedyKind?
  }

  // From s the machine arrives at pc e with each place of ends in turn, the next one whenever what follows
  // fails, and fails back to base after the last.
  ghost predicate Yields(m: Machine, s: State, e: int, stack: seq<int>, base: seq<Saved>, ends: seq<Place>)
    decreases |ends|
  {
    if ends == [] then Reaches(m, s, Fail(m, base))
    else exists extra :: YieldsNext(m, s, e, stack, base, ends, extra)
  }

  ghost predicate YieldsNext(m: Machine, s: State, e: int, stack: seq<int>, base: seq<Saved>, ends: seq<Place>,
                             extra: seq<Saved>)
    requires ends != []
    decreases |ends|, 0
  {
    Harmless(extra) && Reaches(m, s, Run(e, ends[0], stack, base + extra))
    && Yields(m, Fail(m, base + extra), e, stack, base, ends[1..])
  }

  lemma {:induction false} YieldsAfter(m: Machine, s: State, u: State, e: int, stack: seq<int>, base: seq<Saved>,
                                       ends: seq<Place>)
    requires Reaches(m, s, u) && Yields(m, u, e, stack, base, ends)
    ensures Yields(m, s, e, stack, base, ends)
  {
    hide Reaches;
    if ends == [] {
      ReachesTrans(m, s, u, Fail(m, base));
    } else {
      var extra :| YieldsNext(m, u, e, stack, base, ends, extra);
      ReachesTrans(m, s, u, Run(e, ends[0], stack, base + extra));
      assert YieldsNext(m, s, e, stack, base, ends, extra);
    }
  }

  lemma {:induction false} YieldsOne(m: Machine, s: State, e: int, q: Place, stack: seq<int>, base: seq<Saved>)
    requires Reaches(m, s, Run(e, q, stack, base))
    ensures Yields(m, s, e, stack, base, [q])
  {
    hide Reaches;
    assert base + [] == base;
    ReachesSelf(m, Fail(m, base));
    assert YieldsNext(m, s, e, stack, base, [q], []);
  }

  // What is yielded over a larger base, then what is yielded by failing into the difference.
  lemma {:induction false} YieldsAppend(m: Machine, s: State, e: int, stack: seq<int>, base: seq<Saved>,
                                        extra: seq<Saved>,
                                        first: seq<Place>, second: seq<Place>)
    requires Harmless(extra)
    requires Yields(m, s, e, stack, base + extra, first)
    requires Yields(m, Fail(m, base + extra), e, stack, base, second)
    ensures Yields(m, s, e, stack, base, first + second)
    decreases |first|
  {
    hide Reaches, Fail;
    if first == [] {
      assert first + second == second;
      YieldsAfter(m, s, Fail(m, base + extra), e, stack, base, second);
    } else {
      var more :| YieldsNext(m, s, e, stack, base + extra, first, more);
      assert base + extra + more == base + (extra + more);
      YieldsAppend(m, Fail(m, base + extra + more), e, stack, base, extra, first[1..], second);
      assert (first + second)[1..] == first[1..] + second;
      assert YieldsNext(m, s, e, stack, base, first + second, extra + more);
    }
  }

  function Flatten(lists: seq<seq<Place>>): seq<Place> { if lists == [] then [] else lists[0] + Flatten(lists[1..]) }

  // Each place yielded at mid yields its own list at e.
  lemma {:induction false} YieldsBind(m: Machine, s: State, mid: int, stack: seq<int>, e: int, stack2: seq<int>,
                                      base: seq<Saved>,
                                      ends: seq<Place>, lists: seq<seq<Place>>)
    requires Yields(m, s, mid, stack, base, ends) && |lists| == |ends|
    requires forall k, over :: 0 <= k < |ends| ==> Yields(m, Run(mid, ends[k], stack, over), e, stack2, over, lists[k])
    ensures Yields(m, s, e, stack2, base, Flatten(lists))
    decreases |ends|
  {
    hide Reaches, Fail;
    if ends != [] {
      var extra :| YieldsNext(m, s, mid, stack, base, ends, extra);
      YieldsBind(m, Fail(m, base + extra), mid, stack, e, stack2, base, ends[1..], lists[1..]);
      YieldsAfter(m, s, Run(mid, ends[0], stack, base + extra), e, stack2, base + extra, lists[0]);
      YieldsAppend(m, s, e, stack2, base, extra, lists[0], Flatten(lists[1..]));
    }
  }
}
