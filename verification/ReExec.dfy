// The matcher as it runs: a loop over the byte code, in place on its stacks (libregexp.c:1971-2456).
module ReExec {
  import opened ReText
  import opened ReCode
  import opened ReRange
  import opened RePattern
  import opened ReGen
  import opened ReMachine
  import opened ReProgram

  // The search loop of range and range32, on unsigned bounds.
  method SearchRange(b: seq<nat>, c: nat) returns (hit: bool)
    requires |b| >= 2 && |b| % 2 == 0 && b[0] <= c
    ensures hit == Search(b, c, 0, |b| / 2 - 1)
  {
    var idxMin: nat, idxMax: nat := 0, |b| / 2 - 1;
    while idxMin <= idxMax
      invariant 2 * idxMax + 1 < |b|
      invariant Search(b, c, 0, |b| / 2 - 1) == Search(b, c, idxMin, idxMax)
      decreases idxMax + 1 - idxMin
    {
      var idx := (idxMin + idxMax) / 2;
      if c < b[2 * idx] {
        // c >= b[0], so idx is not 0 and idxMax does not wrap
        idxMax := idx - 1;
      } else if c > b[2 * idx + 1] {
        idxMin := idx + 1;
      } else {
        return true;
      }
    }
    return false;
  }

  method MatchRange(i: Instr, c: nat) returns (hit: bool)
    requires (i.Range16? || i.Range32?) && |i.bounds| >= 2 && |i.bounds| % 2 == 0
    ensures hit == RangeHit(i, c)
  {
    var b := i.bounds;
    if c < b[0] { return false; }
    var high := b[|b| - 1];
    if i.Range16? && c >= 0xFFFF && high == 0xFFFF { return true; }
    if c > high { return false; }
    hit := SearchRange(b, c);
  }

  method MatchChar(t: Text, i: Instr, c: CodePoint) returns (hit: bool)
    requires CharInstr(i) && (i.Range16? || i.Range32? ==> |i.bounds| % 2 == 0)
    ensures hit == CharHit(t, i, c)
  {
    if i.Dot? {
      hit := !LineTerminator(c);
    } else if i.Any? {
      hit := true;
    } else if i.Char16? || i.Char32? {
      hit := i.c == Canon(t, c);
    } else if |i.bounds| < 2 {
      hit := false;
    } else {
      hit := MatchRange(i, Canon(t, c));
    }
  }

  // PREV_CHAR n times; at the start of the text it stays.
  method GoBack(t: Text, at: nat, n: nat) returns (r: nat)
    requires at <= |t.units|
    ensures r == Backwards(t, at, n)
  {
    r := at;
    var i := 0;
    while i < n
      invariant 0 <= i <= n && r <= |t.units|
      invariant Backwards(t, at, n) == Backwards(t, r, n - i)
    {
      if r > 0 { r := Before(t, r, 0); }
      i := i + 1;
    }
  }

  // The comparison loops of the two back references.
  method CompareForward(t: Text, from: nat, until: nat, start: nat) returns (r: Option<nat>)
    requires until <= |t.units| && start <= |t.units|
    ensures r == Repeated(t, from, until, start)
  {
    var cptr1: nat, cptr: nat := from, start;
    while cptr1 < until
      invariant cptr <= |t.units| && (cptr1 <= until || cptr1 == from)
      invariant Repeated(t, from, until, start) == Repeated(t, cptr1, until, cptr)
      decreases if cptr1 < until then until - cptr1 else 0
    {
      if cptr >= |t.units| { return None; }
      var c1, c2 := Char(t, cptr1, until), Char(t, cptr, |t.units|);
      cptr1, cptr := After(t, cptr1, until), After(t, cptr, |t.units|);
      if Canon(t, c1) != Canon(t, c2) { return None; }
    }
    return Some(cptr);
  }

  method CompareBackward(t: Text, from: nat, until: nat, start: nat) returns (r: Option<nat>)
    requires until <= |t.units| && start <= |t.units|
    ensures r == RepeatedBack(t, from, until, start)
  {
    var cptr1: nat, cptr: nat := until, start;
    while cptr1 > from
      invariant cptr <= |t.units| && cptr1 <= |t.units|
      invariant RepeatedBack(t, from, until, start) == RepeatedBack(t, from, cptr1, cptr)
      decreases cptr1
    {
      if cptr == 0 { return None; }
      var c1, c2 := CharBefore(t, cptr1, from), CharBefore(t, cptr, 0);
      cptr1, cptr := Before(t, cptr1, from), Before(t, cptr, 0);
      if Canon(t, c1) != Canon(t, c2) { return None; }
    }
    return Some(cptr);
  }

  method MatchReference(t: Text, dir: Direction, k: nat, here: Place) returns (r: Option<Place>)
    requires Inside(t, here)
    ensures r == Referenced(t, dir, k, here)
  {
    if 2 * k >= |here.caps| { return None; }
    var from, until := Capture(here.caps, 2 * k), Capture(here.caps, 2 * k + 1);
    if from.None? || until.None? { return Some(here); }
    var end;
    if dir.Forward? {
      end := CompareForward(t, from.value, until.value, here.at);
    } else {
      end := CompareBackward(t, from.value, until.value, here.at);
    }
    r := if end.None? then None else Some(here.(at := end.value));
  }

  // lre_exec_backtrack with no_recurse, over a simple atom.
  method RunNested(m: Machine, start: int, from: nat) returns (r: Inner)
    requires from <= |m.t.units|
    ensures r == Nested(m, start, from)
  {
    hide Fetch, CharHit, TestHit;
    var pc: int, cptr: nat := start, from;
    while true
      invariant cptr <= |m.t.units|
      invariant Nested(m, start, from) == Nested(m, pc, cptr)
      decreases |m.code| - pc
    {
      var opcode := Fetch(m.code, pc);
      FetchInside(m.code, pc);
      if opcode.None? { return Broken; }
      var i := opcode.value;
      if i.Match? { return Reached(cptr); }
      if CharInstr(i) {
        if cptr >= |m.t.units| { return Blocked; }
        var hit := MatchChar(m.t, i, Char(m.t, cptr, |m.t.units|));
        if !hit { return Blocked; }
        cptr := After(m.t, cptr, |m.t.units|);
      } else if TestInstr(i) {
        if !TestHit(m.t, i, cptr) { return Blocked; }
      } else {
        return Broken;
      }
      pc := pc + Size(i);
    }
  }

  lemma {:induction false} FetchInside(code: seq<Byte>, pc: int)
    ensures Fetch(code, pc).Some? ==> 0 <= pc < |code|
    ensures Fetch(code, pc).Some? && (Fetch(code, pc).value.Range16? || Fetch(code, pc).value.Range32?) ==>
      |Fetch(code, pc).value.bounds| % 2 == 0
  {
    hide Get16, Get32, Read16, Read32;
  }

  // The counting loop of simple_greedy_quant.
  method CountGreedy(m: Machine, pc1: int, max: nat, from: nat) returns (r: Option<Count>)
    requires from <= |m.t.units|
    ensures r == GreedyRun(m, pc1, max, 0, from)
  {
    hide Nested;
    var q: nat, cptr: nat := 0, from;
    while true
      invariant cptr <= |m.t.units| && q >= 0
      invariant GreedyRun(m, pc1, max, 0, from) == GreedyRun(m, pc1, max, q, cptr)
      decreases |m.t.units| - cptr
    {
      var res := RunNested(m, pc1, cptr);
      if res.Broken? { return None; }
      if res.Blocked? { break; }
      if res.at == cptr { return None; }
      cptr := res.at;
      q := q + 1;
      if q >= max && max != INF { return Some(Count(q, cptr)); }
    }
    return Some(Count(q, cptr));
  }

  // REExecContext and the variables of lre_exec_backtrack.
  class Matcher {
    const m: Machine
    var pc: int
    var here: Place
    var stack: seq<int>
    var states: seq<Saved>

    constructor (m: Machine, at: nat, groups: nat)
      ensures this.m == m && Now() == Run(HEADER_LEN, Start(at, groups), [], [])
    {
      this.m := m;
      pc := HEADER_LEN;
      here := Place(at, seq(2 * groups, _ => None));
      stack := [];
      states := [];
    }

    ghost function Now(): State
      reads this
    {
      Run(pc, here, stack, states)
    }

    // The recurse loop: back to a saved state, or out.
    method Resume(matched: bool) returns (found: Option<Option<Place>>)
      requires !(if matched then Succeed(m, here, states) else Fail(m, states)).Stuck?
      modifies this
      ensures var u := if matched then Succeed(m, old(here), old(states)) else Fail(m, old(states));
        if found.Some? then u == Done(found.value) else u == Now()
    {
      hide Fetch, Backwards;
      var ret := matched;
      while true
        invariant here == old(here)
        invariant (if matched then Succeed(m, here, old(states)) else Fail(m, old(states)))
               == (if ret then Succeed(m, here, states) else Fail(m, states))
        decreases |states|
      {
        if |states| == 0 { return Some(if ret then Some(here) else None); }
        var rs := states[|states| - 1];
        if rs.kind.SplitKind? {
          if !ret {
            Restore(rs, true);
            return None;
          }
        } else if rs.kind.GreedyKind? {
          if !ret {
            GiveBack(rs);
            return None;
          }
        } else {
          var was := ret;
          ret := (rs.kind.LookaheadKind? && ret) || (rs.kind.NegativeLookaheadKind? && !ret);
          if ret {
            // captures are kept by a positive lookaround
            Restore(rs, rs.kind.NegativeLookaheadKind?);
            return None;
          }
        }
        states := states[..|states| - 1];
      }
    }

    // pop_state and pop_state1
    method Restore(rs: Saved, captures: bool)
      requires states != [] && rs == states[|states| - 1]
      modifies this
      ensures Now() == Run(rs.pc, Place(rs.at, if captures then rs.caps else old(here).caps), rs.stack,
                           old(states)[..|old(states)| - 1])
    {
      pc := rs.pc;
      here := Place(rs.at, if captures then rs.caps else here.caps);
      stack := rs.stack;
      states := states[..|states| - 1];
    }

    // One round of a greedy loop given back; the saved state is updated in place.
    method GiveBack(rs: Saved)
      requires states != [] && rs == states[|states| - 1] && rs.kind.GreedyKind? && !Fail(m, states).Stuck?
      modifies this
      ensures Now() == Fail(m, old(states))
    {
      hide Fetch, Backwards;
      var i := Fetch(m.code, rs.pc - 1).value;
      var at := rs.at;
      if at <= |m.t.units| {
        at := GoBack(m.t, at, i.len);
      } else {
        BackwardsOut(m.t, at, i.len);
      }
      pc := rs.pc + 16 + i.next;
      here := Place(at, rs.caps);
      stack := rs.stack;
      if rs.count <= 1 {
        states := states[..|states| - 1];
      } else {
        states := states[..|states| - 1] + [rs.(at := at, count := rs.count - 1)];
      }
    }

    // push_state
    method PushState(kind: Kind, target: int, count: nat)
      modifies this
      ensures Now() == Run(old(pc), old(here), old(stack), old(states)
        + [Saved(kind, target, old(here).at, old(here).caps, old(stack), count)])
    {
      states := states + [Saved(kind, target, here.at, here.caps, stack, count)];
    }

    // One turn of the main loop: outcome is None to go on, Some(matched) to look for a saved state.
    method Turn(i: Instr) returns (outcome: Option<bool>)
      requires Fetch(m.code, pc) == Some(i) && here.at <= |m.t.units| && !Step(m, Now()).Stuck?
      modifies this
      ensures outcome.None? ==> Now() == Step(m, old(Now()))
      ensures outcome == Some(true) ==> Step(m, old(Now())) == Succeed(m, here, states)
      ensures outcome == Some(false) ==> Step(m, old(Now())) == Fail(m, states)
    {
      hide Fetch;
      assert Step(m, Now()) == StepInstr(m, Now(), i);
      if CharInstr(i) || TestInstr(i) {
        outcome := TurnTest(i);
      } else if i.SimpleGreedyQuant? {
        outcome := TurnQuant(i);
      } else if i.BackReference? || i.BackwardBackReference? {
        outcome := TurnReference(i);
      } else if i.Match? {
        outcome := Some(true);
      } else {
        outcome := TurnPlain(i);
      }
    }

    method TurnTest(i: Instr) returns (outcome: Option<bool>)
      requires here.at <= |m.t.units| && (CharInstr(i) || TestInstr(i)) && Fetch(m.code, pc) == Some(i)
      modifies this
      ensures outcome.None? ==> Now() == StepInstr(m, old(Now()), i)
      ensures outcome == Some(false) ==> StepInstr(m, old(Now()), i) == Fail(m, states)
      ensures outcome != Some(true)
    {
      hide Fetch, Fail, TestHit, CharHit, RangeHit;
      FetchInside(m.code, pc);
      if CharInstr(i) {
        if here.at >= |m.t.units| { return Some(false); }
        var hit := MatchChar(m.t, i, Char(m.t, here.at, |m.t.units|));
        if !hit { return Some(false); }
        here := here.(at := After(m.t, here.at, |m.t.units|));
      } else if !TestHit(m.t, i, here.at) {
        return Some(false);
      }
      pc := pc + Size(i);
      return None;
    }

    method TurnQuant(i: Instr) returns (outcome: Option<bool>)
      requires here.at <= |m.t.units| && i.SimpleGreedyQuant? && !StepInstr(m, Now(), i).Stuck?
      modifies this
      ensures outcome.None? ==> Now() == StepInstr(m, old(Now()), i)
      ensures outcome == Some(false) ==> StepInstr(m, old(Now()), i) == Fail(m, states)
      ensures outcome != Some(true)
    {
      hide Fail, GreedyRun;
      var pc1 := pc + 17;
      var c := CountGreedy(m, pc1, i.max, here.at);
      if c.value.q < i.min { return Some(false); }
      here := here.(at := c.value.at);
      if c.value.q > i.min { PushState(GreedyKind, pc1 - 16, c.value.q - i.min); }
      pc := pc1 + i.next;
      return None;
    }

    method TurnReference(i: Instr) returns (outcome: Option<bool>)
      requires here.at <= |m.t.units| && (i.BackReference? || i.BackwardBackReference?)
      requires !StepInstr(m, Now(), i).Stuck?
      modifies this
      ensures outcome.None? ==> Now() == StepInstr(m, old(Now()), i)
      ensures outcome == Some(false) ==> StepInstr(m, old(Now()), i) == Fail(m, states)
      ensures outcome != Some(true)
    {
      hide Fail, Referenced;
      var r := MatchReference(m.t, if i.BackReference? then Forward else Backward, i.k, here);
      if r.None? { return Some(false); }
      here := r.value;
      pc := pc + 2;
      return None;
    }

    method TurnPlain(i: Instr) returns (outcome: Option<bool>)
      requires here.at <= |m.t.units| && !StepInstr(m, Now(), i).Stuck?
      requires !CharInstr(i) && !TestInstr(i) && !i.SimpleGreedyQuant? && !i.BackReference? && !i.BackwardBackReference?
      requires !i.Match?
      modifies this
      ensures outcome.None? ==> Now() == StepInstr(m, old(Now()), i)
      ensures outcome == Some(false) ==> StepInstr(m, old(Now()), i) == Fail(m, states)
      ensures outcome != Some(true)
    {
      hide Fail;
      var next := pc + Size(i);
      outcome := None;
      match i {
        case Goto(off) => next := next + off;
        case SplitGotoFirst(off) => PushState(SplitKind, next, 0); next := next + off;
        case SplitNextFirst(off) => PushState(SplitKind, next + off, 0);
        case Lookahead(off) => PushState(LookaheadKind, next + off, 0);
        case NegativeLookahead(off) => PushState(NegativeLookaheadKind, next + off, 0);
        case SaveStart(k) => here := here.(caps := SetCapture(here.caps, 2 * k, here.at));
        case SaveEnd(k) => here := here.(caps := SetCapture(here.caps, 2 * k + 1, here.at));
        case SaveReset(lo, hi) => ResetRange(lo, hi);
        case PushI32(n) => stack := stack + [n];
        case PushCharPos => stack := stack + [here.at];
        case Drop => stack := stack[..|stack| - 1];
        case CheckAdvance =>
          var top := stack[|stack| - 1];
          if top == here.at { return Some(false); }
          stack := stack[..|stack| - 1];
        case Loop(off) =>
          var v := Decrement(stack[|stack| - 1]);
          stack := stack[..|stack| - 1] + [v];
          if v != 0 { next := next + off; }
        case Prev =>
          if here.at == 0 { return Some(false); }
          here := here.(at := Before(m.t, here.at, 0));
        case _ =>
      }
      pc := next;
    }

    // capture[2 val] and capture[2 val + 1] cleared for val = lo, ..., hi.
    method ResetRange(lo: nat, hi: nat)
      modifies this`here
      ensures here == Forget(old(here), lo, if lo <= hi then hi - lo + 1 else 0)
    {
      var val := lo;
      ghost var caps := here.caps;
      while val <= hi
        invariant lo <= val && (val <= hi + 1 || val == lo)
        invariant here.at == old(here.at) && |here.caps| == |caps|
        invariant forall k :: 0 <= k < |caps| ==> here.caps[k] == if 2 * lo <= k < 2 * val then None else caps[k]
      {
        var c := here.caps;
        if 2 * val < |c| { c := c[2 * val := None]; }
        if 2 * val + 1 < |c| { c := c[2 * val + 1 := None]; }
        here := here.(caps := c);
        val := val + 1;
      }
      assert here.caps == Forget(old(here), lo, if lo <= hi then hi - lo + 1 else 0).caps;
    }

    // lre_exec_backtrack: it returns where the machine stops, if it stops within limit steps.
    method Backtrack(ghost limit: nat) returns (found: Option<Place>)
      requires Steps(m, limit, Now()).Done?
      modifies this
      ensures Steps(m, limit, old(Now())) == Done(found)
    {
      hide Fetch, StepInstr, Fail, Succeed;
      ghost var left := limit;
      while true
        invariant Steps(m, limit, old(Now())) == Steps(m, left, Now()) && Steps(m, left, Now()).Done?
        decreases left
      {
        NotStuck(m, left, Now());
        var i := Fetch(m.code, pc).value;
        var outcome := Turn(i);
        left := left - 1;
        if outcome.Some? {
          var stop := Resume(outcome.value);
          if stop.Some? {
            DoneStaysDone(m, left, Done(stop.value));
            return stop.value;
          }
        }
      }
    }
  }

  lemma {:induction false} BackwardsOut(t: Text, at: nat, n: nat)
    requires at > |t.units|
    ensures Backwards(t, at, n) == at
  {
  }

  lemma {:induction false} DoneStaysDone(m: Machine, n: nat, s: State)
    requires !s.Run?
    ensures Steps(m, n, s) == s
  {
    if n > 0 { DoneStaysDone(m, n - 1, s); }
  }

  // A run that stops has not got stuck.
  lemma {:induction false} NotStuck(m: Machine, n: nat, s: State)
    requires s.Run? && Steps(m, n, s).Done?
    ensures n > 0 && !Step(m, s).Stuck? && s.here.at <= |m.t.units| && Fetch(m.code, s.pc).Some?
  {
    hide Fetch, StepInstr;
    if Step(m, s).Stuck? { DoneStaysDone(m, n - 1, Stuck); }
  }
}
