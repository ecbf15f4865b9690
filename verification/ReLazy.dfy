// Unbounded lazy loops, which carry no zero-advance check: the places they offer to what follows, and when
// they run forever (libregexp.c:1524-1526 against 2008-2413).
module ReLazy {
  import opened ReText
  import opened ReCode
  import opened RePattern
  import opened ReGen
  import opened ReMachine
  import opened ReLoops
  import opened ReCorrect
  import opened ReRules

  // Some round from s, or from a place that rounds from s lead to, ends where it began.
  ghost predicate EmptyAhead(t: Text, p: Pattern, dir: Direction, cc: nat, s: Place)
    requires Inside(t, s)
    decreases Distance(t, dir, s)
  {
    exists k :: 0 <= k < |Ends(Code, t, p, dir, cc, s)|
      && Ahead(t, dir, s, Ends(Code, t, p, dir, cc, s)[k])
      && (Ends(Code, t, p, dir, cc, s)[k].at == s.at || EmptyAhead(t, p, dir, cc, Ends(Code, t, p, dir, cc, s)[k]))
  }

  // Without back references only the position decides.
  lemma {:induction false} EmptyAheadAt(t: Text, p: Pattern, dir: Direction, cc: nat, s: Place, s2: Place)
    requires Inside(t, s) && Inside(t, s2) && s.at == s2.at && NoReferences(p) && EmptyAhead(t, p, dir, cc, s)
    ensures EmptyAhead(t, p, dir, cc, s2)
    decreases Distance(t, dir, s)
  {
    hide Ends, NoReferences;
    EndsAgree(Code, Code, t, p, dir, cc, s, s2);
    var ends, ends2 := Ends(Code, t, p, dir, cc, s), Ends(Code, t, p, dir, cc, s2);
    var k :| 0 <= k < |ends| && Ahead(t, dir, s, ends[k]) && (ends[k].at == s.at || EmptyAhead(t, p, dir, cc, ends[k]));
    assert ends[k].at == Positions(ends)[k] == Positions(ends2)[k] == ends2[k].at;
    assert Ahead(t, dir, s2, ends2[k]);
    if ends[k].at != s.at { EmptyAheadAt(t, p, dir, cc, ends[k], ends2[k]); }
  }

  lemma AheadTrans(t: Text, dir: Direction, a: Place, b: Place, c: Place)
    requires Ahead(t, dir, a, b) && Ahead(t, dir, b, c)
    ensures Ahead(t, dir, a, c)
  {
  }

  // The places the loop offers to what follows, in order: where it stands, then what each end of a round leads
  // to, as far as an end that is empty, or that leads to an empty round.
  ghost function Tried(t: Text, p: Pattern, dir: Direction, cc: nat, s: Place): (r: seq<Place>)
    requires Inside(t, s)
    ensures r != [] && r[0] == s && AllAhead(t, dir, s, r)
    decreases Distance(t, dir, s), 1, 0
  {
    [s] + TriedFrom(t, p, dir, cc, s, Ends(Code, t, p, dir, cc, s))
  }

  ghost function TriedFrom(t: Text, p: Pattern, dir: Direction, cc: nat, s: Place, ends: seq<Place>): (r: seq<Place>)
    requires Inside(t, s) && AllAhead(t, dir, s, ends)
    ensures AllAhead(t, dir, s, r)
    decreases Distance(t, dir, s), 0, |ends|
  {
    if ends == [] || ends[0].at == s.at then []
    else
      AheadHead(t, dir, s, ends);
      NearerThan(t, dir, s, ends[0]);
      var now := Tried(t, p, dir, cc, ends[0]);
      AllAheadFrom(t, dir, s, ends[0], now);
      if EmptyAhead(t, p, dir, cc, ends[0]) then now else now + TriedFrom(t, p, dir, cc, s, ends[1..])
  }

  lemma {:induction false} AllAheadFrom(t: Text, dir: Direction, s: Place, q: Place, ends: seq<Place>)
    requires Ahead(t, dir, s, q) && AllAhead(t, dir, q, ends)
    ensures AllAhead(t, dir, s, ends)
  {
    forall k | 0 <= k < |ends| ensures Ahead(t, dir, s, ends[k]) { AheadTrans(t, dir, s, q, ends[k]); }
  }

  // Without back references only the position decides where the loop tries.
  lemma {:induction false} TriedSame(t: Text, p: Pattern, dir: Direction, cc: nat, s: Place, s2: Place)
    requires Inside(t, s) && Inside(t, s2) && s.at == s2.at && NoReferences(p)
    ensures Positions(Tried(t, p, dir, cc, s)) == Positions(Tried(t, p, dir, cc, s2))
    decreases Distance(t, dir, s), 1, 0
  {
    hide Ends, NoReferences, TriedFrom;
    var ends, ends2 := Ends(Code, t, p, dir, cc, s), Ends(Code, t, p, dir, cc, s2);
    EndsAgree(Code, Code, t, p, dir, cc, s, s2);
    TriedFromSame(t, p, dir, cc, s, s2, ends, ends2);
    PositionsAppend([s], TriedFrom(t, p, dir, cc, s, ends));
    PositionsAppend([s2], TriedFrom(t, p, dir, cc, s2, ends2));
    assert Positions([s]) == [s.at] == Positions([s2]);
  }

  lemma {:induction false} TriedFromSame(t: Text, p: Pattern, dir: Direction, cc: nat, s: Place, s2: Place,
                                         ends: seq<Place>, ends2: seq<Place>)
    requires Inside(t, s) && Inside(t, s2) && s.at == s2.at && NoReferences(p)
    requires AllAhead(t, dir, s, ends) && AllAhead(t, dir, s2, ends2) && Positions(ends) == Positions(ends2)
    ensures Positions(TriedFrom(t, p, dir, cc, s, ends)) == Positions(TriedFrom(t, p, dir, cc, s2, ends2))
    decreases Distance(t, dir, s), 0, |ends|
  {
    hide Ends, NoReferences, EmptyAhead, Tried, AllAhead, Inside;
    if ends != [] {
      PositionsTail(ends);
      PositionsTail(ends2);
      AheadHead(t, dir, s, ends);
      AheadHead(t, dir, s2, ends2);
      var q, q2 := ends[0], ends2[0];
      assert q.at == Positions(ends)[0] == q2.at;
      assert Positions(ends[1..]) == Positions(ends)[1..] == Positions(ends2[1..]);
      if q.at != s.at {
        NearerThan(t, dir, s, q);
        TriedSame(t, p, dir, cc, q, q2);
        if EmptyAhead(t, p, dir, cc, q) { EmptyAheadAt(t, p, dir, cc, q, q2); }
            else if EmptyAhead(t, p, dir, cc, q2) { EmptyAheadAt(t, p, dir, cc, q2, q); }
        TriedFromSame(t, p, dir, cc, s, s2, ends[1..], ends2[1..]);
        AllAheadFrom(t, dir, s, q, Tried(t, p, dir, cc, q));
        AllAheadFrom(t, dir, s2, q2, Tried(t, p, dir, cc, q2));
        PositionsAppend(Tried(t, p, dir, cc, q), TriedFrom(t, p, dir, cc, s, ends[1..]));
        PositionsAppend(Tried(t, p, dir, cc, q2), TriedFrom(t, p, dir, cc, s2, ends2[1..]));
      }
    }
  }

  // A lazy loop in the code: head is its split, atom the code of p, exit what follows.
  datatype Loop = Loop(p: Pattern, dir: Direction, cc: nat, head: int, atom: int, exit: int)

  function Past(lp: Loop): int { lp.atom + Length(Gen(lp.p, lp.dir, lp.cc)) }

  // At head the exit is tried first and the atom saved; past the atom the loop is at head again.
  ghost predicate Turns(m: Machine, lp: Loop, q: Place, stack: seq<int>, base: seq<Saved>) {
    Step(m, Run(lp.head, q, stack, base))
        == Run(lp.exit, q, stack, base + [Saved(SplitKind, lp.atom, q.at, q.caps, stack, 0)])
    && Reaches(m, Run(Past(lp), q, stack, base), Run(lp.head, q, stack, base))
  }

  ghost predicate LazyLoop(m: Machine, lp: Loop, s: Place, stack: seq<int>) {
    Inside(m.t, s) && Aligned(m.t, s.at) && Implements(m, lp.p, lp.dir, lp.cc, lp.atom)
    && forall q, base :: Ahead(m.t, lp.dir, s, q) ==> Turns(m, lp, q, stack, base)
  }

  lemma {:induction false} LoopAhead(m: Machine, lp: Loop, s: Place, q: Place, stack: seq<int>)
    requires LazyLoop(m, lp, s, stack) && Ahead(m.t, lp.dir, s, q)
    ensures LazyLoop(m, lp, q, stack)
  {
    hide Turns, Implements, Inside, Aligned;
    assert Inside(m.t, q) && Aligned(m.t, q.at);
    forall r, base | Ahead(m.t, lp.dir, q, r) ensures Turns(m, lp, r, stack, base) { AheadTrans(m.t, lp.dir, s, q, r); }
  }

  lemma LoopInside(m: Machine, lp: Loop, s: Place, stack: seq<int>)
    requires LazyLoop(m, lp, s, stack)
    ensures Inside(m.t, s) && Ahead(m.t, lp.dir, s, s)
  {
  }

  lemma {:induction false} LoopTurns(m: Machine, lp: Loop, s: Place, stack: seq<int>, base: seq<Saved>)
    requires LazyLoop(m, lp, s, stack)
    ensures Turns(m, lp, s, stack, base)
  {
    hide Turns, Implements;
    LoopInside(m, lp, s, stack);
  }

  lemma {:induction false} AtomYields(m: Machine, lp: Loop, s: Place, stack: seq<int>, base: seq<Saved>)
    requires LazyLoop(m, lp, s, stack) && Inside(m.t, s)
    ensures Yields(m, Run(lp.atom, s, stack, base), Past(lp), stack, base, Ends(Code, m.t, lp.p, lp.dir, lp.cc, s))
  {
    hide Ends, Gen, Length, Implements, Yields, Turns;
    ImplementsHere(m, lp.p, lp.dir, lp.cc, lp.atom, s, stack);
  }

  // At head the place itself is offered first; what comes next is what the atom then goes through.
  lemma {:induction false} HeadYields(m: Machine, lp: Loop, s: Place, stack: seq<int>, base: seq<Saved>,
                                      rest: seq<Place>)
    requires LazyLoop(m, lp, s, stack) && Yields(m, Run(lp.atom, s, stack, base), lp.exit, stack, base, rest)
    ensures Yields(m, Run(lp.head, s, stack, base), lp.exit, stack, base, [s] + rest)
  {
    hide Fail, Reaches, LazyLoop, Step, Gen, Length;
    var saved := Saved(SplitKind, lp.atom, s.at, s.caps, stack, 0);
    var at := Run(lp.exit, s, stack, base + [saved]);
    LoopTurns(m, lp, s, stack, base);
    FailSplit(m, base, lp.atom, s, stack);
    ReachesSelf(m, at);
    YieldsOne(m, at, lp.exit, s, stack, base + [saved]);
    YieldsAppend(m, at, lp.exit, stack, base, [saved], [s], rest);
    ReachesStep(m, Run(lp.head, s, stack, base), at);
    YieldsAfter(m, Run(lp.head, s, stack, base), at, lp.exit, stack, base, [s] + rest);
  }

  // Where no empty round lies ahead, the loop offers the tried places in turn and then fails.
  lemma {:induction false} LoopYields(m: Machine, lp: Loop, s: Place, stack: seq<int>)
    requires LazyLoop(m, lp, s, stack) && Inside(m.t, s) && !EmptyAhead(m.t, lp.p, lp.dir, lp.cc, s)
    ensures YieldsEverywhere(m, lp.head, s, stack, lp.exit, stack, Tried(m.t, lp.p, lp.dir, lp.cc, s))
    decreases Distance(m.t, lp.dir, s), 0
  {
    hide Ends, Yields, LazyLoop, Past, TriedFrom, Aligned, Inside;
    var ends := Ends(Code, m.t, lp.p, lp.dir, lp.cc, s);
    forall k | 0 <= k < |ends|
      ensures ends[k].at != s.at && Inside(m.t, ends[k]) && !EmptyAhead(m.t, lp.p, lp.dir, lp.cc, ends[k])
    {
      InsideAhead(m.t, lp.dir, s, ends[k]);
    }
    var lists := TriedLists(m.t, lp.p, lp.dir, lp.cc, ends);
    forall k, over | 0 <= k < |ends|
      ensures Yields(m, Run(Past(lp), ends[k], stack, over), lp.exit, stack, over, lists[k])
    {
      assert Ahead(m.t, lp.dir, s, ends[k]);
      NearerThan(m.t, lp.dir, s, ends[k]);
      NextYields(m, lp, s, ends[k], stack, over);
    }
    FlattenTried(m.t, lp.p, lp.dir, lp.cc, s, ends);
    forall base
      ensures Yields(m, Run(lp.head, s, stack, base), lp.exit, stack, base, Tried(m.t, lp.p, lp.dir, lp.cc, s))
    {
      AtomYields(m, lp, s, stack, base);
      YieldsBind(m, Run(lp.atom, s, stack, base), Past(lp), stack, lp.exit, stack, base, ends, lists);
      HeadYields(m, lp, s, stack, base, Flatten(lists));
    }
  }

  lemma {:induction false} NextYields(m: Machine, lp: Loop, s: Place, q: Place, stack: seq<int>, over: seq<Saved>)
    requires LazyLoop(m, lp, s, stack) && Inside(m.t, s) && Ahead(m.t, lp.dir, s, q) && q.at != s.at
    requires Inside(m.t, q) && !EmptyAhead(m.t, lp.p, lp.dir, lp.cc, q)
    ensures Yields(m, Run(Past(lp), q, stack, over), lp.exit, stack, over, Tried(m.t, lp.p, lp.dir, lp.cc, q))
    decreases Distance(m.t, lp.dir, q), 1
  {
    hide Ends, Yields, LazyLoop, Past, Tried, EmptyAhead, Reaches, Step;
    NearerThan(m.t, lp.dir, s, q);
    LoopAhead(m, lp, s, q, stack);
    LoopYields(m, lp, q, stack);
    LoopTurns(m, lp, q, stack, over);
    YieldsAfter(m, Run(Past(lp), q, stack, over), Run(lp.head, q, stack, over), lp.exit, stack, over,
                Tried(m.t, lp.p, lp.dir, lp.cc, q));
  }

  ghost function TriedLists(t: Text, p: Pattern, dir: Direction, cc: nat, ends: seq<Place>): (r: seq<seq<Place>>)
    requires forall k :: 0 <= k < |ends| ==> Inside(t, ends[k])
    ensures |r| == |ends|
  {
    seq(|ends|, k requires 0 <= k < |ends| => Tried(t, p, dir, cc, ends[k]))
  }

  lemma {:induction false} FlattenTried(t: Text, p: Pattern, dir: Direction, cc: nat, s: Place, ends: seq<Place>)
    requires Inside(t, s) && AllAhead(t, dir, s, ends)
    requires forall k :: 0 <= k < |ends| ==>
      ends[k].at != s.at && Inside(t, ends[k]) && !EmptyAhead(t, p, dir, cc, ends[k])
    ensures Flatten(TriedLists(t, p, dir, cc, ends)) == TriedFrom(t, p, dir, cc, s, ends)
    decreases |ends|
  {
    hide Tried, EmptyAhead, Inside, AllAhead;
    if ends != [] {
      AheadHead(t, dir, s, ends);
      assert forall k :: 0 <= k < |ends[1..]| ==> ends[1..][k] == ends[k + 1];
      FlattenTried(t, p, dir, cc, s, ends[1..]);
      assert TriedLists(t, p, dir, cc, ends)[1..] == TriedLists(t, p, dir, cc, ends[1..]);
    }
  }

  // Where an empty round lies ahead, the loop offers the tried places and is then at head again.

  ghost predicate TriedAt(t: Text, lp: Loop, s: Place, x: nat) {
    Inside(t, s) && x in Positions(Tried(t, lp.p, lp.dir, lp.cc, s))
  }

  ghost predicate Spins(t: Text, lp: Loop, s: Place) { Inside(t, s) && EmptyAhead(t, lp.p, lp.dir, lp.cc, s) }

  // From q the loop goes on as from s: to an empty round, trying no new position.
  ghost predicate Again(t: Text, lp: Loop, s: Place, q: Place) {
    Ahead(t, lp.dir, s, q) && Spins(t, lp, q) && forall x :: TriedAt(t, lp, q, x) ==> TriedAt(t, lp, s, x)
  }

  // From u the exit is reached with each place of ends in turn, and when all have failed head is reached again.
  ghost predicate Circles(m: Machine, lp: Loop, s: Place, u: State, stack: seq<int>, base: seq<Saved>, ends: seq<Place>)
    decreases |ends|
  {
    if ends == [] then exists q, extra :: CirclesBack(m, lp, s, u, stack, base, q, extra)
    else exists extra :: CirclesNext(m, lp, s, u, stack, base, ends, extra)
  }

  ghost predicate CirclesBack(m: Machine, lp: Loop, s: Place, u: State, stack: seq<int>, base: seq<Saved>, q: Place,
                              extra: seq<Saved>) {
    Harmless(extra) && Again(m.t, lp, s, q) && Reaches(m, u, Run(lp.head, q, stack, base + extra))
  }

  ghost predicate CirclesNext(m: Machine, lp: Loop, s: Place, u: State, stack: seq<int>, base: seq<Saved>,
                              ends: seq<Place>, extra: seq<Saved>)
    requires ends != []
    decreases |ends|, 0
  {
    Harmless(extra) && Reaches(m, u, Run(lp.exit, ends[0], stack, base + extra))
    && Circles(m, lp, s, Fail(m, base + extra), stack, base, ends[1..])
  }

  lemma {:induction false} CirclesAfter(m: Machine, lp: Loop, s: Place, u: State, v: State, stack: seq<int>,
                                        base: seq<Saved>, ends: seq<Place>)
    requires Reaches(m, u, v) && Circles(m, lp, s, v, stack, base, ends)
    ensures Circles(m, lp, s, u, stack, base, ends)
  {
    hide Reaches, Again;
    if ends == [] {
      var q, extra :| CirclesBack(m, lp, s, v, stack, base, q, extra);
      ReachesTrans(m, u, v, Run(lp.head, q, stack, base + extra));
      assert CirclesBack(m, lp, s, u, stack, base, q, extra);
    } else {
      var extra :| CirclesNext(m, lp, s, v, stack, base, ends, extra);
      ReachesTrans(m, u, v, Run(lp.exit, ends[0], stack, base + extra));
      assert CirclesNext(m, lp, s, u, stack, base, ends, extra);
    }
  }

  // Over fewer saved states, and from a place before.
  lemma {:induction false} CirclesUnder(m: Machine, lp: Loop, s: Place, q: Place, u: State, stack: seq<int>,
                                        base: seq<Saved>, over: seq<Saved>, ends: seq<Place>)
    requires Harmless(over) && Again(m.t, lp, s, q) && Circles(m, lp, q, u, stack, base + over, ends)
    ensures Circles(m, lp, s, u, stack, base, ends)
    decreases |ends|
  {
    hide Reaches, Again, Fail;
    if ends == [] {
      var r, extra :| CirclesBack(m, lp, q, u, stack, base + over, r, extra);
      assert base + over + extra == base + (over + extra);
      AgainTrans(m.t, lp, s, q, r);
      assert CirclesBack(m, lp, s, u, stack, base, r, over + extra);
    } else {
      var extra :| CirclesNext(m, lp, q, u, stack, base + over, ends, extra);
      assert base + over + extra == base + (over + extra);
      CirclesUnder(m, lp, s, q, Fail(m, base + over + extra), stack, base, over, ends[1..]);
      assert CirclesNext(m, lp, s, u, stack, base, ends, over + extra);
    }
  }

  lemma {:induction false} AgainTrans(t: Text, lp: Loop, a: Place, b: Place, c: Place)
    requires Again(t, lp, a, b) && Again(t, lp, b, c)
    ensures Again(t, lp, a, c)
  {
    hide Ahead, TriedAt, Spins;
    AheadTrans(t, lp.dir, a, b, c);
  }

  // Some places that fail back, then a circle.
  lemma {:induction false} YieldsThenCircles(m: Machine, lp: Loop, s: Place, u: State, stack: seq<int>,
                                             base: seq<Saved>, extra: seq<Saved>,
                                             first: seq<Place>, second: seq<Place>)
    requires Harmless(extra) && Yields(m, u, lp.exit, stack, base + extra, first)
    requires Circles(m, lp, s, Fail(m, base + extra), stack, base, second)
    ensures Circles(m, lp, s, u, stack, base, first + second)
    decreases |first|
  {
    hide Reaches, Fail, Again;
    if first == [] {
      assert first + second == second;
      CirclesAfter(m, lp, s, u, Fail(m, base + extra), stack, base, second);
    } else {
      var more :| YieldsNext(m, u, lp.exit, stack, base + extra, first, more);
      assert base + extra + more == base + (extra + more);
      YieldsThenCircles(m, lp, s, Fail(m, base + extra + more), stack, base, extra, first[1..], second);
      assert (first + second)[1..] == first[1..] + second;
      assert CirclesNext(m, lp, s, u, stack, base, first + second, extra + more);
    }
  }

  lemma {:induction false} AgainHere(t: Text, lp: Loop, s: Place, q: Place)
    requires Spins(t, lp, s) && NoReferences(lp.p) && Ahead(t, lp.dir, s, q) && q.at == s.at
    ensures Again(t, lp, s, q)
  {
    hide EmptyAhead, Tried, NoReferences, Inside, Aligned;
    InsideAhead(t, lp.dir, s, q);
    EmptyAheadAt(t, lp.p, lp.dir, lp.cc, s, q);
    TriedSame(t, lp.p, lp.dir, lp.cc, s, q);
  }

  lemma {:induction false} LoopCircles(m: Machine, lp: Loop, s: Place, stack: seq<int>, base: seq<Saved>)
    requires LazyLoop(m, lp, s, stack) && NoReferences(lp.p) && Spins(m.t, lp, s)
    ensures Circles(m, lp, s, Step(m, Run(lp.head, s, stack, base)), stack, base, Tried(m.t, lp.p, lp.dir, lp.cc, s))
    decreases Distance(m.t, lp.dir, s), 1, 0
  {
    hide Ends, Yields, LazyLoop, Past, TriedFrom, Aligned, Inside, NoReferences, Reaches, Fail, Circles, Step;
    var saved := Saved(SplitKind, lp.atom, s.at, s.caps, stack, 0);
    var at, ends := Run(lp.exit, s, stack, base + [saved]), Ends(Code, m.t, lp.p, lp.dir, lp.cc, s);
    LoopTurns(m, lp, s, stack, base);
    FailSplit(m, base, lp.atom, s, stack);
    AtomYields(m, lp, s, stack, base);
    BadEnd(m.t, lp, s);
    TriedTail(m.t, lp, s);
    WalkCircles(m, lp, s, Run(lp.atom, s, stack, base), stack, base, ends);
    ReachesSelf(m, at);
    YieldsOne(m, at, lp.exit, s, stack, base + [saved]);
    YieldsThenCircles(m, lp, s, at, stack, base, [saved], [s], TriedFrom(m.t, lp.p, lp.dir, lp.cc, s, ends));
  }

  // An end that is empty, or leads to an empty round.
  ghost predicate Bad(t: Text, lp: Loop, s: Place, q: Place) { q.at == s.at || Spins(t, lp, q) }

  lemma {:induction false} BadEnd(t: Text, lp: Loop, s: Place)
    requires Spins(t, lp, s)
    ensures exists k ::
      0 <= k < |Ends(Code, t, lp.p, lp.dir, lp.cc, s)| && Bad(t, lp, s, Ends(Code, t, lp.p, lp.dir, lp.cc, s)[k])
  {
    hide Ends;
    var ends := Ends(Code, t, lp.p, lp.dir, lp.cc, s);
    var k :| 0 <= k < |ends| && Ahead(t, lp.dir, s, ends[k])
        && (ends[k].at == s.at || EmptyAhead(t, lp.p, lp.dir, lp.cc, ends[k]));
    assert Bad(t, lp, s, ends[k]);
  }

  lemma {:induction false} TriedTail(t: Text, lp: Loop, s: Place)
    requires Inside(t, s)
    ensures AllTriedAt(t, lp, s, TriedFrom(t, lp.p, lp.dir, lp.cc, s, Ends(Code, t, lp.p, lp.dir, lp.cc, s)))
  {
    hide Ends, TriedFrom, Inside;
    var rest := TriedFrom(t, lp.p, lp.dir, lp.cc, s, Ends(Code, t, lp.p, lp.dir, lp.cc, s));
    PositionsAppend([s], rest);
  }

  ghost predicate AllTriedAt(t: Text, lp: Loop, s: Place, ends: seq<Place>) {
    forall x :: x in Positions(ends) ==> TriedAt(t, lp, s, x)
  }

  // The ends of a round in turn: those with nothing empty ahead fail, the first other one closes the circle.
  lemma {:induction false} WalkCircles(m: Machine, lp: Loop, s: Place, u: State, stack: seq<int>, base: seq<Saved>,
                                       ends: seq<Place>)
    requires LazyLoop(m, lp, s, stack) && NoReferences(lp.p) && Spins(m.t, lp, s)
    requires Yields(m, u, Past(lp), stack, base, ends) && AllAhead(m.t, lp.dir, s, ends)
    requires exists k :: 0 <= k < |ends| && Bad(m.t, lp, s, ends[k])
    requires AllTriedAt(m.t, lp, s, TriedFrom(m.t, lp.p, lp.dir, lp.cc, s, ends))
    ensures Circles(m, lp, s, u, stack, base, TriedFrom(m.t, lp.p, lp.dir, lp.cc, s, ends))
    decreases Distance(m.t, lp.dir, s), 0, |ends|
  {
    hide Ends, LazyLoop, Past, TriedFrom, Aligned, Inside, NoReferences, Reaches, Fail, Circles, Step, AllAhead, Tried;
    hide TriedAt, EmptyAhead, Ahead, Again;
    var q := ends[0];
    AheadHead(m.t, lp.dir, s, ends);
    LoopAhead(m, lp, s, q, stack);
    var extra :| YieldsNext(m, u, Past(lp), stack, base, ends, extra);
    var over := base + extra;
    var back := Run(lp.head, q, stack, over);
    LoopTurns(m, lp, q, stack, over);
    ReachesTrans(m, u, Run(Past(lp), q, stack, over), back);
    TriedHead(m.t, lp, s, ends);
    if q.at == s.at {
      AgainHere(m.t, lp, s, q);
      CircleHere(m, lp, s, u, stack, base, q, extra);
    } else if Spins(m.t, lp, q) {
      NearerThan(m.t, lp.dir, s, q);
      LoopCircles(m, lp, q, stack, over);
      ReachesStep(m, back, Step(m, back));
      CirclesAfter(m, lp, q, back, Step(m, back), stack, over, Tried(m.t, lp.p, lp.dir, lp.cc, q));
      CirclesAfter(m, lp, q, u, back, stack, over, Tried(m.t, lp.p, lp.dir, lp.cc, q));
      AgainAhead(m.t, lp, s, q);
      CirclesUnder(m, lp, s, q, u, stack, base, extra, Tried(m.t, lp.p, lp.dir, lp.cc, q));
    } else {
      LoopYields(m, lp, q, stack);
      LaterBad(m.t, lp, s, ends);
      WalkCircles(m, lp, s, Fail(m, over), stack, base, ends[1..]);
      YieldsAfter(m, u, back, lp.exit, stack, over, Tried(m.t, lp.p, lp.dir, lp.cc, q));
      YieldsThenCircles(m, lp, s, u, stack, base, extra, Tried(m.t, lp.p, lp.dir, lp.cc, q),
                        TriedFrom(m.t, lp.p, lp.dir, lp.cc, s, ends[1..]));
    }
  }

  lemma CircleHere(m: Machine, lp: Loop, s: Place, u: State, stack: seq<int>, base: seq<Saved>, q: Place,
                   extra: seq<Saved>)
    requires Harmless(extra) && Again(m.t, lp, s, q) && Reaches(m, u, Run(lp.head, q, stack, base + extra))
    ensures Circles(m, lp, s, u, stack, base, [])
  {
    hide Reaches, Again;
    assert CirclesBack(m, lp, s, u, stack, base, q, extra);
  }

  lemma {:induction false} LaterBad(t: Text, lp: Loop, s: Place, ends: seq<Place>)
    requires ends != [] && !Bad(t, lp, s, ends[0]) && exists k :: 0 <= k < |ends| && Bad(t, lp, s, ends[k])
    ensures exists k :: 0 <= k < |ends[1..]| && Bad(t, lp, s, ends[1..][k])
  {
    hide Bad;
    var k :| 0 <= k < |ends| && Bad(t, lp, s, ends[k]);
    assert ends[1..][k - 1] == ends[k];
  }

  lemma {:induction false} TriedHead(t: Text, lp: Loop, s: Place, ends: seq<Place>)
    requires ends != [] && Inside(t, s) && AllAhead(t, lp.dir, s, ends) && AllAhead(t, lp.dir, s, ends[1..])
    requires Inside(t, ends[0])
    requires AllTriedAt(t, lp, s, TriedFrom(t, lp.p, lp.dir, lp.cc, s, ends))
    ensures ends[0].at == s.at ==> TriedFrom(t, lp.p, lp.dir, lp.cc, s, ends) == []
    ensures ends[0].at != s.at && Spins(t, lp, ends[0]) ==>
      TriedFrom(t, lp.p, lp.dir, lp.cc, s, ends) == Tried(t, lp.p, lp.dir, lp.cc, ends[0])
    ensures ends[0].at != s.at && !Spins(t, lp, ends[0]) ==>
      TriedFrom(t, lp.p, lp.dir, lp.cc, s, ends)
          == Tried(t, lp.p, lp.dir, lp.cc, ends[0]) + TriedFrom(t, lp.p, lp.dir, lp.cc, s, ends[1..])
    ensures ends[0].at != s.at && !Spins(t, lp, ends[0]) ==>
      AllTriedAt(t, lp, s, TriedFrom(t, lp.p, lp.dir, lp.cc, s, ends[1..]))
  {
    hide Ends, Tried, EmptyAhead, Inside, AllAhead, TriedAt;
    AheadHead(t, lp.dir, s, ends);
    if ends[0].at != s.at && !Spins(t, lp, ends[0]) {
      PositionsAppend(Tried(t, lp.p, lp.dir, lp.cc, ends[0]), TriedFrom(t, lp.p, lp.dir, lp.cc, s, ends[1..]));
    }
  }

  lemma {:induction false} AgainAhead(t: Text, lp: Loop, s: Place, q: Place)
    requires Ahead(t, lp.dir, s, q) && Spins(t, lp, q) && AllTriedAt(t, lp, s, Tried(t, lp.p, lp.dir, lp.cc, q))
    ensures Again(t, lp, s, q)
  {
    hide Tried, EmptyAhead, Ahead;
  }

  // What follows the loop, at one position: it fails, or it ends the run.

  // From s at pc the machine fails, whatever was saved before.
  ghost predicate FailsFrom(m: Machine, pc: int, s: Place, stack: seq<int>) {
    forall base :: Reaches(m, Run(pc, s, stack, base), Fail(m, base))
  }

  // The run ends with a match that ends at y.
  ghost predicate Wins(m: Machine, u: State, y: nat) { exists n: nat :: WinsIn(m, u, y, n) }

  ghost predicate WinsIn(m: Machine, u: State, y: nat, n: nat) {
    var v := Steps(m, n, u);
    v.Done? && v.result.Some? && v.result.value.at == y
  }

  // From s at pc the run ends with a match at y, outside lookaround.
  ghost predicate WinsFrom(m: Machine, pc: int, s: Place, stack: seq<int>, y: nat) {
    forall base :: Harmless(base) ==> Wins(m, Run(pc, s, stack, base), y)
  }

  ghost predicate ExitFails(m: Machine, lp: Loop, s: Place, stack: seq<int>, x: nat) {
    forall q :: Ahead(m.t, lp.dir, s, q) && q.at == x ==> FailsFrom(m, lp.exit, q, stack)
  }

  ghost predicate ExitWins(m: Machine, lp: Loop, s: Place, stack: seq<int>, x: nat, y: nat) {
    forall q :: Ahead(m.t, lp.dir, s, q) && q.at == x ==> WinsFrom(m, lp.exit, q, stack, y)
  }

  // What follows fails wherever the loop tries it.
  ghost predicate TriedFail(m: Machine, lp: Loop, s: Place, stack: seq<int>) {
    forall x :: TriedAt(m.t, lp, s, x) ==> ExitFails(m, lp, s, stack, x)
  }

  lemma {:induction false} ExitAhead(m: Machine, lp: Loop, s: Place, q: Place, stack: seq<int>, x: nat)
    requires Ahead(m.t, lp.dir, s, q)
    ensures ExitFails(m, lp, s, stack, x) ==> ExitFails(m, lp, q, stack, x)
  {
    hide FailsFrom, Inside, Aligned;
    forall r | Ahead(m.t, lp.dir, q, r) && r.at == x && ExitFails(m, lp, s, stack, x)
      ensures FailsFrom(m, lp.exit, r, stack)
    {
      AheadTrans(m.t, lp.dir, s, q, r);
    }
  }

  lemma {:induction false} TriedFailAgain(m: Machine, lp: Loop, s: Place, q: Place, stack: seq<int>)
    requires TriedFail(m, lp, s, stack) && Again(m.t, lp, s, q)
    ensures TriedFail(m, lp, q, stack)
  {
    hide TriedAt, ExitFails, Spins, Ahead;
    forall x | TriedAt(m.t, lp, q, x) ensures ExitFails(m, lp, q, stack, x) { ExitAhead(m, lp, s, q, stack, x); }
  }

  lemma {:induction false} DoneStays(m: Machine, n: nat, s: State)
    requires s.Done?
    ensures Steps(m, n, s) == s
  {
    if n > 0 { DoneStays(m, n - 1, s); }
  }

  // Not done after k steps, so not done before.
  lemma {:induction false} NotDoneBefore(m: Machine, n: nat, k: nat, s: State)
    requires n <= k && !Steps(m, k, s).Done?
    ensures !Steps(m, n, s).Done?
  {
    StepsAdd(m, n, k - n, s);
    if Steps(m, n, s).Done? { DoneStays(m, k - n, Steps(m, n, s)); }
  }

  lemma FailsOver(m: Machine, pc: int, s: Place, stack: seq<int>, base: seq<Saved>)
    requires FailsFrom(m, pc, s, stack)
    ensures Reaches(m, Run(pc, s, stack, base), Fail(m, base))
  {
  }

  // All tried places fail: head is reached again.
  lemma {:induction false} CircleRuns(m: Machine, lp: Loop, s: Place, u: State, stack: seq<int>, base: seq<Saved>,
                                      ends: seq<Place>)
    returns (q: Place, extra: seq<Saved>)
    requires Circles(m, lp, s, u, stack, base, ends) && AllAhead(m.t, lp.dir, s, ends)
    requires forall k :: 0 <= k < |ends| ==> ExitFails(m, lp, s, stack, ends[k].at)
    ensures CirclesBack(m, lp, s, u, stack, base, q, extra)
    decreases |ends|
  {
    hide Reaches, Again, Fail, ExitFails;
    if ends == [] {
      q, extra :| CirclesBack(m, lp, s, u, stack, base, q, extra);
    } else {
      var more :| CirclesNext(m, lp, s, u, stack, base, ends, more);
      AheadHead(m.t, lp.dir, s, ends);
      assert ExitFails(m, lp, s, stack, ends[0].at);
      ExitFailsHere(m, lp, s, stack, ends[0]);
      FailsOver(m, lp.exit, ends[0], stack, base + more);
      ReachesTrans(m, u, Run(lp.exit, ends[0], stack, base + more), Fail(m, base + more));
      assert forall k :: 0 <= k < |ends[1..]| ==> ends[1..][k] == ends[k + 1];
      q, extra := CircleRuns(m, lp, s, Fail(m, base + more), stack, base, ends[1..]);
      ReachesTrans(m, u, Fail(m, base + more), Run(lp.head, q, stack, base + extra));
    }
  }

  lemma ExitFailsHere(m: Machine, lp: Loop, s: Place, stack: seq<int>, q: Place)
    requires ExitFails(m, lp, s, stack, q.at) && Ahead(m.t, lp.dir, s, q)
    ensures FailsFrom(m, lp.exit, q, stack)
  {
    hide FailsFrom;
  }

  lemma {:induction false} TriedFailEach(m: Machine, lp: Loop, s: Place, stack: seq<int>)
    requires TriedFail(m, lp, s, stack) && Inside(m.t, s)
    ensures forall k :: 0 <= k < |Tried(m.t, lp.p, lp.dir, lp.cc, s)| ==>
      ExitFails(m, lp, s, stack, Tried(m.t, lp.p, lp.dir, lp.cc, s)[k].at)
  {
    hide ExitFails, Tried;
    var tried := Tried(m.t, lp.p, lp.dir, lp.cc, s);
    forall k | 0 <= k < |tried| ensures ExitFails(m, lp, s, stack, tried[k].at) {
      assert Positions(tried)[k] == tried[k].at;
      assert TriedAt(m.t, lp, s, tried[k].at);
    }
  }

  // An empty round ahead, and failure wherever the loop tries: it never stops, not in n steps for any n.
  lemma {:induction false} LoopDiverges(m: Machine, lp: Loop, s: Place, stack: seq<int>, base: seq<Saved>, n: nat)
    requires LazyLoop(m, lp, s, stack) && NoReferences(lp.p) && Spins(m.t, lp, s) && TriedFail(m, lp, s, stack)
    ensures !Steps(m, n, Run(lp.head, s, stack, base)).Done?
    decreases n
  {
    hide LazyLoop, NoReferences, EmptyAhead, Tried, Step, Reaches, Again, TriedFail, Inside, AllAhead;
    if n > 0 {
      var u := Step(m, Run(lp.head, s, stack, base));
      LoopCircles(m, lp, s, stack, base);
      TriedFailEach(m, lp, s, stack);
      var q, extra := CircleRuns(m, lp, s, u, stack, base, Tried(m.t, lp.p, lp.dir, lp.cc, s));
      var back := Run(lp.head, q, stack, base + extra);
      var j := StepsTo(m, u, back);
      AgainLoop(m, lp, s, q, stack);
      if j <= n - 1 {
        StepsAdd(m, j, n - 1 - j, u);
        LoopDiverges(m, lp, q, stack, base + extra, n - 1 - j);
      } else {
        NotDoneBefore(m, n - 1, j, u);
      }
    }
  }

  lemma {:induction false} AgainLoop(m: Machine, lp: Loop, s: Place, q: Place, stack: seq<int>)
    requires LazyLoop(m, lp, s, stack) && Again(m.t, lp, s, q) && TriedFail(m, lp, s, stack)
    ensures LazyLoop(m, lp, q, stack) && Spins(m.t, lp, q) && TriedFail(m, lp, q, stack)
  {
    hide LazyLoop, TriedFail, TriedAt, Spins, Ahead;
    LoopAhead(m, lp, s, q, stack);
    TriedFailAgain(m, lp, s, q, stack);
  }

  // No empty round ahead, and failure wherever the loop tries: it fails.
  lemma {:induction false} LoopFails(m: Machine, lp: Loop, s: Place, stack: seq<int>)
    requires LazyLoop(m, lp, s, stack) && Inside(m.t, s) && !Spins(m.t, lp, s) && TriedFail(m, lp, s, stack)
    ensures FailsFrom(m, lp.head, s, stack)
  {
    hide LazyLoop, EmptyAhead, Tried, Reaches, TriedFail, Inside, AllAhead, Yields;
    var tried := Tried(m.t, lp.p, lp.dir, lp.cc, s);
    LoopYields(m, lp, s, stack);
    TriedFailEach(m, lp, s, stack);
    forall base ensures Reaches(m, Run(lp.head, s, stack, base), Fail(m, base)) {
      AllFail(m, lp, s, Run(lp.head, s, stack, base), stack, base, tried);
    }
  }

  lemma {:induction false} AllFail(m: Machine, lp: Loop, s: Place, u: State, stack: seq<int>, base: seq<Saved>,
                                   ends: seq<Place>)
    requires Yields(m, u, lp.exit, stack, base, ends) && AllAhead(m.t, lp.dir, s, ends)
    requires forall k :: 0 <= k < |ends| ==> ExitFails(m, lp, s, stack, ends[k].at)
    ensures Reaches(m, u, Fail(m, base))
    decreases |ends|
  {
    hide Reaches, Fail, ExitFails;
    if ends != [] {
      var more :| YieldsNext(m, u, lp.exit, stack, base, ends, more);
      AheadHead(m.t, lp.dir, s, ends);
      ExitFailsHere(m, lp, s, stack, ends[0]);
      FailsOver(m, lp.exit, ends[0], stack, base + more);
      ReachesTrans(m, u, Run(lp.exit, ends[0], stack, base + more), Fail(m, base + more));
      assert forall k :: 0 <= k < |ends[1..]| ==> ends[1..][k] == ends[k + 1];
      AllFail(m, lp, s, Fail(m, base + more), stack, base, ends[1..]);
      ReachesTrans(m, u, Fail(m, base + more), Fail(m, base));
    }
  }

  // From u the exit is reached with each place of ends in turn, the next one whenever what follows fails.
  ghost predicate Offers(m: Machine, u: State, e: int, stack: seq<int>, base: seq<Saved>, ends: seq<Place>)
    decreases |ends|
  {
    ends == [] || exists extra :: OffersNext(m, u, e, stack, base, ends, extra)
  }

  ghost predicate OffersNext(m: Machine, u: State, e: int, stack: seq<int>, base: seq<Saved>, ends: seq<Place>,
                             extra: seq<Saved>)
    requires ends != []
    decreases |ends|, 0
  {
    Harmless(extra) && Reaches(m, u, Run(e, ends[0], stack, base + extra))
        && Offers(m, Fail(m, base + extra), e, stack, base, ends[1..])
  }

  lemma {:induction false} YieldsOffers(m: Machine, u: State, e: int, stack: seq<int>, base: seq<Saved>,
                                        ends: seq<Place>)
    requires Yields(m, u, e, stack, base, ends)
    ensures Offers(m, u, e, stack, base, ends)
    decreases |ends|
  {
    hide Reaches, Fail;
    if ends != [] {
      var extra :| YieldsNext(m, u, e, stack, base, ends, extra);
      YieldsOffers(m, Fail(m, base + extra), e, stack, base, ends[1..]);
      assert OffersNext(m, u, e, stack, base, ends, extra);
    }
  }

  lemma {:induction false} CirclesOffers(m: Machine, lp: Loop, s: Place, u: State, stack: seq<int>, base: seq<Saved>,
                                         ends: seq<Place>)
    requires Circles(m, lp, s, u, stack, base, ends)
    ensures Offers(m, u, lp.exit, stack, base, ends)
    decreases |ends|
  {
    hide Reaches, Fail, Again;
    if ends != [] {
      var extra :| CirclesNext(m, lp, s, u, stack, base, ends, extra);
      CirclesOffers(m, lp, s, Fail(m, base + extra), stack, base, ends[1..]);
      assert OffersNext(m, u, lp.exit, stack, base, ends, extra);
    }
  }

  // Empty round ahead or not, the loop offers the tried places to what follows, in order.
  lemma {:induction false} LoopOffers(m: Machine, lp: Loop, s: Place, stack: seq<int>, base: seq<Saved>)
    requires LazyLoop(m, lp, s, stack) && NoReferences(lp.p) && Inside(m.t, s)
    ensures Offers(m, Run(lp.head, s, stack, base), lp.exit, stack, base, Tried(m.t, lp.p, lp.dir, lp.cc, s))
  {
    hide LazyLoop, EmptyAhead, Tried, Reaches, Inside, AllAhead, Yields, NoReferences, Circles, Offers, Step;
    var u, tried := Run(lp.head, s, stack, base), Tried(m.t, lp.p, lp.dir, lp.cc, s);
    if Spins(m.t, lp, s) {
      LoopCircles(m, lp, s, stack, base);
      ReachesStep(m, u, Step(m, u));
      CirclesAfter(m, lp, s, u, Step(m, u), stack, base, tried);
      CirclesOffers(m, lp, s, u, stack, base, tried);
    } else {
      LoopYields(m, lp, s, stack);
      YieldsOffers(m, u, lp.exit, stack, base, tried);
    }
  }

  // What follows the loop, by position: no match, or a match that ends somewhere.
  type Ending = nat -> Option<nat>

  ghost predicate ExitDoes(m: Machine, lp: Loop, s: Place, stack: seq<int>, x: nat, y: Option<nat>) {
    if y.None? then ExitFails(m, lp, s, stack, x) else ExitWins(m, lp, s, stack, x, y.value)
  }

  // At every tried position what follows does as out says.
  ghost predicate TriedDo(m: Machine, lp: Loop, s: Place, stack: seq<int>, out: Ending) {
    forall x :: TriedAt(m.t, lp, s, x) ==> ExitDoes(m, lp, s, stack, x, out(x))
  }

  function FirstOf(out: Ending, ends: seq<Place>): Option<nat> {
    if ends == [] then None else if out(ends[0].at).Some? then out(ends[0].at) else FirstOf(out, ends[1..])
  }

  lemma {:induction false} FirstOfNone(out: Ending, ends: seq<Place>, k: nat)
    requires FirstOf(out, ends).None? && k < |ends|
    ensures out(ends[k].at).None?
  {
    if k > 0 { FirstOfNone(out, ends[1..], k - 1); }
  }

  lemma {:induction false} WinsAfter(m: Machine, u: State, v: State, y: nat)
    requires Reaches(m, u, v) && Wins(m, v, y)
    ensures Wins(m, u, y)
  {
    var j := StepsTo(m, u, v);
    var n: nat :| WinsIn(m, v, y, n);
    StepsAdd(m, j, n, u);
    assert WinsIn(m, u, y, j + n);
  }

  lemma ExitWinsHere(m: Machine, lp: Loop, s: Place, stack: seq<int>, q: Place, base: seq<Saved>, y: nat)
    requires ExitWins(m, lp, s, stack, q.at, y) && Ahead(m.t, lp.dir, s, q) && Harmless(base)
    ensures Wins(m, Run(lp.exit, q, stack, base), y)
  {
    hide Wins;
    assert WinsFrom(m, lp.exit, q, stack, y);
  }

  // The first tried place from which what follows matches ends the run.
  lemma {:induction false} OffersWin(m: Machine, lp: Loop, s: Place, u: State, stack: seq<int>, base: seq<Saved>,
                                     ends: seq<Place>, out: Ending)
    requires Offers(m, u, lp.exit, stack, base, ends) && AllAhead(m.t, lp.dir, s, ends) && Harmless(base)
    requires forall k :: 0 <= k < |ends| ==> ExitDoes(m, lp, s, stack, ends[k].at, out(ends[k].at))
    requires FirstOf(out, ends).Some?
    ensures Wins(m, u, FirstOf(out, ends).value)
    decreases |ends|
  {
    hide Reaches, Fail, ExitFails, ExitWins, Wins;
    var q := ends[0];
    var extra :| OffersNext(m, u, lp.exit, stack, base, ends, extra);
    AheadHead(m.t, lp.dir, s, ends);
    assert ExitDoes(m, lp, s, stack, q.at, out(q.at));
    if out(q.at).None? {
      assert forall j :: 0 <= j < |ends[1..]| ==> ends[1..][j] == ends[j + 1];
      ExitFailsHere(m, lp, s, stack, q);
      FailsOver(m, lp.exit, q, stack, base + extra);
      ReachesTrans(m, u, Run(lp.exit, q, stack, base + extra), Fail(m, base + extra));
      OffersWin(m, lp, s, Fail(m, base + extra), stack, base, ends[1..], out);
      WinsAfter(m, u, Fail(m, base + extra), FirstOf(out, ends).value);
    } else {
      ExitWinsHere(m, lp, s, stack, q, base + extra, out(q.at).value);
      WinsAfter(m, u, Run(lp.exit, q, stack, base + extra), out(q.at).value);
    }
  }

  lemma {:induction false} TriedDoEach(m: Machine, lp: Loop, s: Place, stack: seq<int>, out: Ending)
    requires TriedDo(m, lp, s, stack, out) && Inside(m.t, s)
    ensures forall k :: 0 <= k < |Tried(m.t, lp.p, lp.dir, lp.cc, s)| ==>
      ExitDoes(m, lp, s, stack, Tried(m.t, lp.p, lp.dir, lp.cc, s)[k].at, out(Tried(m.t, lp.p, lp.dir, lp.cc, s)[k].at))
  {
    hide ExitDoes, Tried;
    var tried := Tried(m.t, lp.p, lp.dir, lp.cc, s);
    forall k | 0 <= k < |tried| ensures ExitDoes(m, lp, s, stack, tried[k].at, out(tried[k].at)) {
      assert Positions(tried)[k] == tried[k].at;
      assert TriedAt(m.t, lp, s, tried[k].at);
    }
  }

  lemma {:induction false} LoopWins(m: Machine, lp: Loop, s: Place, stack: seq<int>, out: Ending)
    requires LazyLoop(m, lp, s, stack) && NoReferences(lp.p) && Inside(m.t, s) && TriedDo(m, lp, s, stack, out)
    requires FirstOf(out, Tried(m.t, lp.p, lp.dir, lp.cc, s)).Some?
    ensures WinsFrom(m, lp.head, s, stack, FirstOf(out, Tried(m.t, lp.p, lp.dir, lp.cc, s)).value)
  {
    hide LazyLoop, Tried, AllAhead, NoReferences, Offers, ExitDoes, Wins, TriedDo;
    var tried := Tried(m.t, lp.p, lp.dir, lp.cc, s);
    TriedDoEach(m, lp, s, stack, out);
    forall base | Harmless(base) ensures Wins(m, Run(lp.head, s, stack, base), FirstOf(out, tried).value) {
      LoopOffers(m, lp, s, stack, base);
      OffersWin(m, lp, s, Run(lp.head, s, stack, base), stack, base, tried, out);
    }
  }

  lemma {:induction false} NoneTried(m: Machine, lp: Loop, s: Place, stack: seq<int>, out: Ending)
    requires TriedDo(m, lp, s, stack, out) && Inside(m.t, s) && FirstOf(out, Tried(m.t, lp.p, lp.dir, lp.cc, s)).None?
    ensures TriedFail(m, lp, s, stack)
  {
    hide ExitFails, ExitWins, Tried;
    var tried := Tried(m.t, lp.p, lp.dir, lp.cc, s);
    forall x | TriedAt(m.t, lp, s, x) ensures ExitFails(m, lp, s, stack, x) {
      var k :| 0 <= k < |tried| && Positions(tried)[k] == x;
      FirstOfNone(out, tried, k);
      assert ExitDoes(m, lp, s, stack, x, out(x));
    }
  }

  // What the loop does, told what follows it at the tried places: the first match that follows ends the run;
  // if there is none it fails, or runs forever where an empty round lies ahead, and only then.
  lemma {:induction false} LoopOutcome(m: Machine, lp: Loop, s: Place, stack: seq<int>, out: Ending)
    requires LazyLoop(m, lp, s, stack) && NoReferences(lp.p) && Inside(m.t, s) && TriedDo(m, lp, s, stack, out)
    ensures var r := FirstOf(out, Tried(m.t, lp.p, lp.dir, lp.cc, s));
      (r.Some? ==> WinsFrom(m, lp.head, s, stack, r.value))
      && (r.None? && !Spins(m.t, lp, s) ==> FailsFrom(m, lp.head, s, stack))
      && (r.None? && Spins(m.t, lp, s) ==> HangsFrom(m, lp.head, s, stack))
      && (Hangs(m, Run(lp.head, s, stack, [])) <==> r.None? && Spins(m.t, lp, s))
  {
    hide LazyLoop, NoReferences, Inside, TriedDo, TriedFail, Spins, Tried, FirstOf;
    var r := FirstOf(out, Tried(m.t, lp.p, lp.dir, lp.cc, s));
    if r.Some? {
      LoopWins(m, lp, s, stack, out);
      assert Wins(m, Run(lp.head, s, stack, []), r.value);
    } else {
      NoneTried(m, lp, s, stack, out);
      if Spins(m.t, lp, s) {
        forall base ensures Hangs(m, Run(lp.head, s, stack, base)) {
          forall n: nat ensures !Steps(m, n, Run(lp.head, s, stack, base)).Done? {
            LoopDiverges(m, lp, s, stack, base, n);
          }
        }
      } else {
        LoopFails(m, lp, s, stack);
        FailsOver(m, lp.head, s, stack, []);
        var n := StepsTo(m, Run(lp.head, s, stack, []), Fail(m, []));
      }
    }
  }

  // Never done, over the saved states at hand or over any.
  ghost predicate Hangs(m: Machine, u: State) { forall n: nat :: !Steps(m, n, u).Done? }
  ghost predicate HangsFrom(m: Machine, pc: int, s: Place, stack: seq<int>) {
    forall base :: Hangs(m, Run(pc, s, stack, base))
  }

  // The two forms of the loop in the code.

  // A split that prefers the exit.
  predicate ExitsFirst(i: Instr, pc: int, e: int, atom: int) {
    (i == SplitGotoFirst(e - (pc + 5)) && atom == pc + 5) || (i == SplitNextFirst(atom - (pc + 5)) && e == pc + 5)
  }

  lemma {:induction false} ExitStep(m: Machine, pc: int, i: Instr, e: int, atom: int, q: Place, stack: seq<int>,
                                    base: seq<Saved>)
    requires ExitsFirst(i, pc, e, atom) && q.at <= |m.t.units|
    ensures StepInstr(m, Run(pc, q, stack, base), i)
      == Run(e, q, stack, base + [Saved(SplitKind, atom, q.at, q.caps, stack, 0)])
  {
  }

  // *? and the tail of {n,}?
  function StarLoop(p: Pattern, dir: Direction, cc: nat, pc: int): Loop {
    Loop.Loop(p, dir, cc, pc, pc + 5, pc + 10 + Length(Gen(p, dir, cc)))
  }

  lemma {:induction false} StarIsLoop(m: Machine, p: Pattern, dir: Direction, cc: nat, pc: int, s: Place,
                                      stack: seq<int>)
    requires Sound(m, p, dir, cc) && CodeAt(m.code, pc, StarCode(Gen(p, dir, cc), false, false)) && Inside(m.t, s)
    requires Aligned(m.t, s.at)
    ensures LazyLoop(m, StarLoop(p, dir, cc, pc), s, stack)
  {
    hide CodeAt, Reaches, Gen, Length, Implements, Inside, Aligned, Bytes, Step, StepInstr, Ahead, RoundCode, Sound;
    var l: int := Length(Gen(p, dir, cc));
    var lp := StarLoop(p, dir, cc, pc);
    StarParts(m, pc, Gen(p, dir, cc), false, false);
    RoundAtom(m, p, dir, cc, false, pc + 5);
    forall q, base | Ahead(m.t, dir, s, q) ensures Turns(m, lp, q, stack, base) {
      InsideAhead(m.t, dir, s, q);
      InsideAt(m.t, q);
      StepAt(m, pc, SplitGotoFirst(l + 5), q, stack, base);
      ExitStep(m, pc, SplitGotoFirst(l + 5), lp.exit, lp.atom, q, stack, base);
      BackStep(m, pc + 5 + l, -(l + 10), q, stack, base);
    }
  }

  lemma {:induction false} BackStep(m: Machine, pc: int, off: int, q: Place, stack: seq<int>, base: seq<Saved>)
    requires q.at <= |m.t.units| && CodeAt(m.code, pc, [Goto(off)])
    ensures Reaches(m, Run(pc, q, stack, base), Run(pc + 5 + off, q, stack, base))
  {
    hide CodeAt, Reaches;
    StepAt(m, pc, Goto(off), q, stack, base);
    ReachesStep(m, Run(pc, q, stack, base), Run(pc + 5 + off, q, stack, base));
  }

  // +? once the mandatory round is done
  function PlusLoop(p: Pattern, dir: Direction, cc: nat, pc: int): Loop {
    var split := pc + Length(Gen(p, dir, cc));
    Loop.Loop(p, dir, cc, split, pc, split + 5)
  }

  lemma {:induction false} PlusIsLoop(m: Machine, p: Pattern, dir: Direction, cc: nat, pc: int, s: Place,
                                      stack: seq<int>)
    requires Sound(m, p, dir, cc) && Inside(m.t, s) && Aligned(m.t, s.at)
    requires CodeAt(m.code, pc, Gen(p, dir, cc) + [SplitCode(true, -(Length(Gen(p, dir, cc)) + 5))])
    ensures LazyLoop(m, PlusLoop(p, dir, cc, pc), s, stack)
  {
    hide CodeAt, Reaches, Gen, Length, Implements, Inside, Aligned, Bytes, Step, StepInstr, Ahead;
    var l: int := Length(Gen(p, dir, cc));
    var lp, i := PlusLoop(p, dir, cc, pc), SplitNextFirst(-(l + 5));
    CodeAtAppend(m.code, pc, Gen(p, dir, cc), [SplitCode(true, -(l + 5))]);
    forall q, base | Ahead(m.t, dir, s, q) ensures Turns(m, lp, q, stack, base) {
      InsideAhead(m.t, dir, s, q);
      InsideAt(m.t, q);
      StepAt(m, lp.head, i, q, stack, base);
      ExitStep(m, lp.head, i, lp.exit, lp.atom, q, stack, base);
      ReachesSelf(m, Run(lp.head, q, stack, base));
    }
  }

  lemma {:induction false} LazyStarHangsIff(m: Machine, p: Pattern, dir: Direction, cc: nat, pc: int, s: Place,
                                            stack: seq<int>, out: Ending)
    requires Sound(m, p, dir, cc) && CodeAt(m.code, pc, StarCode(Gen(p, dir, cc), false, false)) && NoReferences(p)
    requires Inside(m.t, s) && Aligned(m.t, s.at) && TriedDo(m, StarLoop(p, dir, cc, pc), s, stack, out)
    ensures Hangs(m, Run(pc, s, stack, [])) <==>
      EmptyAhead(m.t, p, dir, cc, s) && FirstOf(out, Tried(m.t, p, dir, cc, s)).None?
  {
    hide Sound, CodeAt, EmptyAhead, LazyLoop, Gen, Length, Steps, StarCode, NoReferences, Inside, TriedDo, Hangs, Tried;
    hide FirstOf;
    StarIsLoop(m, p, dir, cc, pc, s, stack);
    LoopOutcome(m, StarLoop(p, dir, cc, pc), s, stack, out);
  }

  lemma {:induction false} LazyPlusHangsIff(m: Machine, p: Pattern, dir: Direction, cc: nat, pc: int, s: Place,
                                            stack: seq<int>, out: Ending)
    requires Sound(m, p, dir, cc) && Inside(m.t, s) && Aligned(m.t, s.at) && NoReferences(p)
    requires CodeAt(m.code, pc, Gen(p, dir, cc) + [SplitCode(true, -(Length(Gen(p, dir, cc)) + 5))])
    requires TriedDo(m, PlusLoop(p, dir, cc, pc), s, stack, out)
    ensures Hangs(m, Run(pc + Length(Gen(p, dir, cc)), s, stack, []))
       <==> EmptyAhead(m.t, p, dir, cc, s) && FirstOf(out, Tried(m.t, p, dir, cc, s)).None?
  {
    hide Sound, CodeAt, EmptyAhead, LazyLoop, Gen, Length, Steps, NoReferences, Inside, TriedDo, Hangs, Tried, FirstOf;
    PlusIsLoop(m, p, dir, cc, pc, s, stack);
    LoopOutcome(m, PlusLoop(p, dir, cc, pc), s, stack, out);
  }
}
