// A search stops from every position, between the halves of a surrogate pair too, where a greedy run is
// given back past its own start (libregexp.c:1852-1933 and 2008-2413).
module ReStops {
  import opened ReText
  import opened ReCode
  import opened RePattern
  import opened ReGen
  import opened ReMachine
  import opened ReLoops
  import opened ReSimple
  import opened ReCorrect
  import opened ReProgram
  import opened ReRules

  // Every move of the machine lands between code points.

  lemma AfterLands(t: Text, i: nat)
    requires i < |t.units|
    ensures Aligned(t, After(t, i, |t.units|))
  {
  }

  lemma {:induction false} RepeatedLands(t: Text, from: nat, until: nat, at: nat)
    requires until <= |t.units| && at <= |t.units|
    ensures var r := Repeated(t, from, until, at); r.Some? ==> r.value == at || Aligned(t, r.value)
    decreases if from < until then until - from else 0
  {
    if from < until && at < |t.units| && Canon(t, Char(t, from, until)) == Canon(t, Char(t, at, |t.units|)) {
      AfterLands(t, at);
      RepeatedLands(t, After(t, from, until), until, After(t, at, |t.units|));
    }
  }

  lemma {:induction false} RepeatedBackLands(t: Text, from: nat, until: nat, at: nat)
    requires until <= |t.units| && at <= |t.units|
    ensures var r := RepeatedBack(t, from, until, at); r.Some? ==> r.value == at || Aligned(t, r.value)
    decreases until
  {
    if from < until && at > 0 && Canon(t, CharBefore(t, until, from)) == Canon(t, CharBefore(t, at, 0)) {
      BeforeAfter(t, at);
      RepeatedBackLands(t, from, Before(t, until, from), Before(t, at, 0));
    }
  }

  lemma {:induction false} BackwardsLands(t: Text, at: nat, n: nat)
    requires at <= |t.units| && Aligned(t, at)
    ensures Aligned(t, Backwards(t, at, n))
    decreases n
  {
    if n > 0 && at > 0 {
      BeforeAfter(t, at);
      BackwardsLands(t, Before(t, at, 0), n - 1);
    }
  }

  lemma {:induction false} RewindLands(t: Text, at: nat, len: nat, k: nat)
    requires at <= |t.units| && Aligned(t, at)
    ensures Aligned(t, Rewind(t, at, len, k))
    decreases k
  {
    if k > 0 {
      RewindLands(t, at, len, k - 1);
      BackwardsLands(t, Rewind(t, at, len, k - 1), len);
    }
  }

  // Where a run from s can arrive: where it began, or between code points.
  ghost predicate Lands(t: Text, s: Place, q: Place) {
    Inside(t, q) && |q.caps| == |s.caps| && (q.at == s.at || Aligned(t, q.at))
  }

  ghost predicate AllLand(t: Text, s: Place, ends: seq<Place>) { forall k :: 0 <= k < |ends| ==> Lands(t, s, ends[k]) }

  // Whatever was saved before, the machine goes through the same finite list of arrivals at e and then fails.
  ghost predicate Arrives(m: Machine, pc: int, s: Place, stack: seq<int>, e: int, stack2: seq<int>, must: bool) {
    exists ends :: ArrivesAt(m, pc, s, stack, e, stack2, must, ends)
  }

  ghost predicate ArrivesAt(m: Machine, pc: int, s: Place, stack: seq<int>, e: int, stack2: seq<int>, must: bool,
                            ends: seq<Place>) {
    AllLand(m.t, s, ends) && (must ==> AllMove(s, ends)) && YieldsEverywhere(m, pc, s, stack, e, stack2, ends)
  }

  ghost predicate Unaligned(t: Text, s: Place) { Inside(t, s) && !Aligned(t, s.at) }

  // The code of p at pc, from between the halves of a pair.
  ghost predicate Stops(m: Machine, p: Pattern, dir: Direction, cc: nat, pc: int) {
    forall s, stack :: Unaligned(m.t, s) ==> StopsFrom(m, p, dir, cc, pc, s, stack)
  }

  ghost predicate StopsFrom(m: Machine, p: Pattern, dir: Direction, cc: nat, pc: int, s: Place, stack: seq<int>) {
    Arrives(m, pc, s, stack, pc + Length(Gen(p, dir, cc)), stack, !CanBeEmpty(p))
  }

  lemma {:induction false} ArrivesList(m: Machine, pc: int, s: Place, stack: seq<int>, e: int, stack2: seq<int>,
                                       must: bool) returns (ends: seq<Place>)
    requires Arrives(m, pc, s, stack, e, stack2, must)
    ensures ArrivesAt(m, pc, s, stack, e, stack2, must, ends)
  {
    ends :| ArrivesAt(m, pc, s, stack, e, stack2, must, ends);
  }

  lemma {:induction false} ArrivesHere(m: Machine, pc: int, s: Place, stack: seq<int>)
    requires Inside(m.t, s)
    ensures Arrives(m, pc, s, stack, pc, stack, false)
  {
    hide YieldsEverywhere;
    YieldsHere(m, pc, s, stack);
    assert ArrivesAt(m, pc, s, stack, pc, stack, false, [s]);
  }

  // From between code points what is yielded stays there.
  lemma {:induction false} AheadArrives(m: Machine, dir: Direction, pc: int, s: Place, stack: seq<int>, e: int,
                                        stack2: seq<int>, ends: seq<Place>)
    requires Aligned(m.t, s.at) && AllAhead(m.t, dir, s, ends) && YieldsEverywhere(m, pc, s, stack, e, stack2, ends)
    ensures Arrives(m, pc, s, stack, e, stack2, false)
  {
    hide YieldsEverywhere;
    forall k | 0 <= k < |ends| ensures Lands(m.t, s, ends[k]) { assert Ahead(m.t, dir, s, ends[k]); }
    assert ArrivesAt(m, pc, s, stack, e, stack2, false, ends);
  }

  // A step that keeps the position.
  lemma {:induction false} ArrivesStep(m: Machine, pc: int, i: Instr, s: Place, stack: seq<int>, pc2: int, q: Place,
                                       stack2: seq<int>,
                                       e: int, stack3: seq<int>, must: bool)
    requires s.at <= |m.t.units| && CodeAt(m.code, pc, [i]) && q.at == s.at && |q.caps| == |s.caps|
    requires forall base :: StepInstr(m, Run(pc, s, stack, base), i) == Run(pc2, q, stack2, base)
    requires Arrives(m, pc2, q, stack2, e, stack3, must)
    ensures Arrives(m, pc, s, stack, e, stack3, must)
  {
    hide YieldsEverywhere, CodeAt, StepInstr, Inside, Aligned;
    var ends := ArrivesList(m, pc2, q, stack2, e, stack3, must);
    StepEverywhere(m, pc, i, s, stack, pc2, q, stack2, e, stack3, ends);
    assert ArrivesAt(m, pc, s, stack, e, stack3, must, ends) by { SameLands(m.t, q, s, ends); }
  }

  lemma SameLands(t: Text, q: Place, s: Place, ends: seq<Place>)
    requires q.at == s.at && |q.caps| == |s.caps|
    ensures AllLand(t, q, ends) <==> AllLand(t, s, ends)
    ensures AllMove(q, ends) <==> AllMove(s, ends)
  {
    hide Inside, Aligned;
    if AllLand(t, q, ends) { forall k | 0 <= k < |ends| ensures Lands(t, s, ends[k]) { assert Lands(t, q, ends[k]); } }
    if AllLand(t, s, ends) { forall k | 0 <= k < |ends| ensures Lands(t, q, ends[k]) { assert Lands(t, s, ends[k]); } }
  }

  // What the arrivals in turn go on to, as one list of lists.
  lemma {:induction false} OnwardLists(m: Machine, s: Place, mid: int, stack: seq<int>, e: int, stack2: seq<int>,
                                       must: bool, must2: bool, ends: seq<Place>)
    returns (lists: seq<seq<Place>>)
    requires Unaligned(m.t, s) && AllLand(m.t, s, ends) && (must ==> AllMove(s, ends))
    requires forall k :: 0 <= k < |ends| ==> Arrives(m, mid, ends[k], stack, e, stack2, must2)
    ensures |lists| == |ends| && AllLand(m.t, s, Flatten(lists)) && (must || must2 ==> AllMove(s, Flatten(lists)))
    ensures forall k, over :: 0 <= k < |ends| ==> Yields(m, Run(mid, ends[k], stack, over), e, stack2, over, lists[k])
    decreases |ends|
  {
    hide Yields, Inside, Aligned;
    if ends == [] {
      lists := [];
    } else {
      var q := ends[0];
      assert Lands(m.t, s, q);
      var first := ArrivesList(m, mid, q, stack, e, stack2, must2);
      OnwardLand(m.t, s, q, first, must, must2);
      assert forall k :: 0 <= k < |ends[1..]| ==> ends[1..][k] == ends[k + 1];
      var rest := OnwardLists(m, s, mid, stack, e, stack2, must, must2, ends[1..]);
      lists := [first] + rest;
      assert lists[1..] == rest;
      AllLandAppend(m.t, s, first, Flatten(rest));
      if must || must2 { AllMoveAppend(s, first, Flatten(rest)); }
      forall k, over | 0 <= k < |ends| ensures Yields(m, Run(mid, ends[k], stack, over), e, stack2, over, lists[k]) {
        if k > 0 { assert ends[k] == ends[1..][k - 1] && lists[k] == rest[k - 1]; }
      }
    }
  }

  lemma {:induction false} OnwardLand(t: Text, s: Place, q: Place, ends: seq<Place>, must: bool, must2: bool)
    requires Unaligned(t, s) && Lands(t, s, q) && AllLand(t, q, ends) && (must2 ==> AllMove(q, ends))
    requires (must ==> q.at != s.at)
    ensures AllLand(t, s, ends) && (must || must2 ==> AllMove(s, ends))
  {
    forall k | 0 <= k < |ends| ensures Lands(t, s, ends[k]) && (must || must2 ==> ends[k].at != s.at) {
      assert Lands(t, q, ends[k]);
    }
  }

  lemma AllLandAppend(t: Text, s: Place, a: seq<Place>, b: seq<Place>)
    requires AllLand(t, s, a) && AllLand(t, s, b)
    ensures AllLand(t, s, a + b)
  {
    hide Lands;
  }

  // One part, then the next from wherever the first arrives.
  lemma {:induction false} ArrivesThen(m: Machine, pc: int, s: Place, stack: seq<int>, mid: int, stackMid: seq<int>,
                                       e: int, stack2: seq<int>, must: bool, must2: bool)
    requires Unaligned(m.t, s) && Arrives(m, pc, s, stack, mid, stackMid, must)
    requires forall q :: Lands(m.t, s, q) && (must ==> q.at != s.at) ==> Arrives(m, mid, q, stackMid, e, stack2, must2)
    ensures Arrives(m, pc, s, stack, e, stack2, must || must2)
  {
    hide Yields, Lands, Arrives, Unaligned;
    var ends := ArrivesList(m, pc, s, stack, mid, stackMid, must);
    forall k | 0 <= k < |ends| ensures Arrives(m, mid, ends[k], stackMid, e, stack2, must2) {
      assert Lands(m.t, s, ends[k]);
    }
    var lists := OnwardLists(m, s, mid, stackMid, e, stack2, must, must2, ends);
    forall base ensures Yields(m, Run(pc, s, stack, base), e, stack2, base, Flatten(lists)) {
      YieldsBind(m, Run(pc, s, stack, base), mid, stackMid, e, stack2, base, ends, lists);
    }
    ArrivesBy(m, pc, s, stack, e, stack2, must || must2, Flatten(lists));
  }

  lemma ArrivesBy(m: Machine, pc: int, s: Place, stack: seq<int>, e: int, stack2: seq<int>, must: bool,
                  ends: seq<Place>)
    requires ArrivesAt(m, pc, s, stack, e, stack2, must, ends)
    ensures Arrives(m, pc, s, stack, e, stack2, must)
  {
  }

  // Asking less.
  lemma {:induction false} ArrivesWeaker(m: Machine, pc: int, s: Place, stack: seq<int>, e: int, stack2: seq<int>,
                                         must: bool, must2: bool)
    requires Arrives(m, pc, s, stack, e, stack2, must) && (must2 ==> must)
    ensures Arrives(m, pc, s, stack, e, stack2, must2)
  {
    var ends := ArrivesList(m, pc, s, stack, e, stack2, must);
    assert ArrivesAt(m, pc, s, stack, e, stack2, must2, ends);
  }

  lemma {:induction false} ArrivesSplit(m: Machine, pc: int, next: bool, off: int, s: Place, stack: seq<int>, e: int,
                                        stack2: seq<int>, must: bool)
    requires s.at <= |m.t.units| && CodeAt(m.code, pc, [SplitCode(next, off)])
    requires Arrives(m, pc + 5, s, stack, e, stack2, must) && Arrives(m, pc + 5 + off, s, stack, e, stack2, must)
    ensures Arrives(m, pc, s, stack, e, stack2, must)
  {
    hide Yields, CodeAt, Lands;
    var body := ArrivesList(m, pc + 5, s, stack, e, stack2, must);
    var jump := ArrivesList(m, pc + 5 + off, s, stack, e, stack2, must);
    var ends := if next then body + jump else jump + body;
    forall base ensures Yields(m, Run(pc, s, stack, base), e, stack2, base, ends) {
      SplitYields(m, pc, next, off, s, stack, base, e, stack2, body, jump);
    }
    AllLandAppend(m.t, s, body, jump);
    AllLandAppend(m.t, s, jump, body);
    if must {
      AllMoveAppend(s, body, jump);
      AllMoveAppend(s, jump, body);
    }
    ArrivesBy(m, pc, s, stack, e, stack2, must, ends);
  }

  // One part of a pattern: exact from between code points, finite from anywhere.
  ghost predicate Ready(m: Machine, p: Pattern, dir: Direction, cc: nat) {
    Sound(m, p, dir, cc) && forall pc :: CodeAt(m.code, pc, Gen(p, dir, cc)) ==> Stops(m, p, dir, cc, pc)
  }

  lemma {:induction false} PartArrives(m: Machine, p: Pattern, dir: Direction, cc: nat, pc: int, s: Place,
                                       stack: seq<int>)
    requires Ready(m, p, dir, cc) && CodeAt(m.code, pc, Gen(p, dir, cc)) && Inside(m.t, s)
    ensures Arrives(m, pc, s, stack, pc + Length(Gen(p, dir, cc)), stack, !CanBeEmpty(p))
  {
    hide CodeAt, Gen, Arrives, Ends, Implements, Length, YieldsEverywhere, Inside, Aligned, Lands;
    if Aligned(m.t, s.at) {
      var ends := Ends(Code, m.t, p, dir, cc, s);
      ImplementsHere(m, p, dir, cc, pc, s, stack);
      AheadLand(m.t, dir, s, ends);
      if !CanBeEmpty(p) { NonEmptyMoves(m.t, p, dir, cc, s); }
      ArrivesBy(m, pc, s, stack, pc + Length(Gen(p, dir, cc)), stack, !CanBeEmpty(p), ends);
    } else {
      assert StopsFrom(m, p, dir, cc, pc, s, stack);
    }
  }

  lemma {:induction false} AheadLand(t: Text, dir: Direction, s: Place, ends: seq<Place>)
    requires Aligned(t, s.at) && AllAhead(t, dir, s, ends)
    ensures AllLand(t, s, ends)
  {
    forall k | 0 <= k < |ends| ensures Lands(t, s, ends[k]) { assert Ahead(t, dir, s, ends[k]); }
  }

  // Leaves.

  lemma {:induction false} LeafLands(t: Text, p: Pattern, dir: Direction, cc: nat, s: Place)
    requires Inside(t, s) && (p.Empty? || p.Test? || p.Reference? || OneChar(p))
    ensures AllLand(t, s, Ends(Code, t, p, dir, cc, s)) && (!CanBeEmpty(p) ==> AllMove(s, Ends(Code, t, p, dir, cc, s)))
  {
    hide Accepts, AtEdge, Repeated, RepeatedBack;
    if p.Reference? {
      ReferenceLands(t, dir, p.k, s);
    } else if OneChar(p) {
      assert Ends(Code, t, p, dir, cc, s) == OneEnd(t, p, dir, s);
      if dir.Forward? && s.at < |t.units| { AfterLands(t, s.at); }
      if dir.Backward? && s.at > 0 { BeforeAfter(t, s.at); }
    }
  }

  lemma {:induction false} ReferenceLands(t: Text, dir: Direction, k: nat, s: Place)
    requires Inside(t, s)
    ensures Referenced(t, dir, k, s).Some? ==> Lands(t, s, Referenced(t, dir, k, s).value)
  {
    var from, until := Capture(s.caps, 2 * k), Capture(s.caps, 2 * k + 1);
    if 2 * k < |s.caps| && from.Some? && until.Some? {
      RepeatedLands(t, from.value, until.value, s.at);
      RepeatedBackLands(t, from.value, until.value, s.at);
    }
  }

  lemma {:induction false} LeafStops(m: Machine, p: Pattern, dir: Direction, cc: nat, pc: int, s: Place,
                                     stack: seq<int>)
    requires (p.Empty? || p.Test? || p.Reference? || OneChar(p)) && Emittable(p, cc) && Unaligned(m.t, s)
    requires CodeAt(m.code, pc, Gen(p, dir, cc))
    ensures StopsFrom(m, p, dir, cc, pc, s, stack)
  {
    hide CodeAt, Gen, Arrives, Ends, Length, YieldsEverywhere, Inside, Aligned, AllLand;
    LeafYields(m, p, dir, cc, pc, s, stack);
    LeafLands(m.t, p, dir, cc, s);
    ArrivesBy(m, pc, s, stack, pc + Length(Gen(p, dir, cc)), stack, !CanBeEmpty(p), Ends(Code, m.t, p, dir, cc, s));
  }

  // Groups and lookaround.

  lemma {:induction false} SaveArrives(m: Machine, slot: nat, pc: int, s: Place, stack: seq<int>, e: int, must: bool)
    requires s.at <= |m.t.units| && CodeAt(m.code, pc, [SaveCode(slot)])
    requires Arrives(m, pc + 2, Mark(s, slot), stack, e, stack, must)
    ensures Arrives(m, pc, s, stack, e, stack, must)
  {
    hide CodeAt, Arrives;
    ArrivesStep(m, pc, SaveCode(slot), s, stack, pc + 2, Mark(s, slot), stack, e, stack, must);
  }

  lemma {:induction false} GroupStops(m: Machine, p: Pattern, dir: Direction, cc: nat, pc: int, s: Place,
                                      stack: seq<int>)
    requires p.Group? && Ready(m, p.body, dir, cc + 1) && Unaligned(m.t, s) && CodeAt(m.code, pc, Gen(p, dir, cc))
    ensures StopsFrom(m, p, dir, cc, pc, s, stack)
  {
    hide CodeAt, Arrives, Ready, Length, Bytes, Inside, Aligned, Lands, Mark, SaveCode, OpenSlot, CloseSlot;
    InsideAt(m.t, s);
    var open, close, inner, q := SaveCode(OpenSlot(dir, cc)), SaveCode(CloseSlot(dir, cc)), Gen(p.body, dir, cc + 1),
                                 Mark(s, OpenSlot(dir, cc));
    var mid, must := pc + 2 + Length(inner), !CanBeEmpty(p.body);
    SaveSize(OpenSlot(dir, cc));
    SaveSize(CloseSlot(dir, cc));
    CodeAtAppend(m.code, pc, [open] + inner, [close]);
    CodeAtAppend(m.code, pc, [open], inner);
    MarkInside(m.t, s, OpenSlot(dir, cc));
    PartArrives(m, p.body, dir, cc + 1, pc + 2, q, stack);
    forall r | Lands(m.t, q, r) ensures Arrives(m, mid, r, stack, mid + 2, stack, false) {
      LandsInside(m.t, q, r);
      MarkInside(m.t, r, CloseSlot(dir, cc));
      ArrivesHere(m, mid + 2, Mark(r, CloseSlot(dir, cc)), stack);
      SaveArrives(m, CloseSlot(dir, cc), mid, r, stack, mid + 2, false);
    }
    ArrivesThen(m, pc + 2, q, stack, mid, stack, mid + 2, stack, must, false);
    SaveArrives(m, OpenSlot(dir, cc), pc, s, stack, mid + 2, must);
  }

  lemma LandsInside(t: Text, s: Place, q: Place)
    requires Lands(t, s, q)
    ensures Inside(t, q) && q.at <= |t.units|
  {
  }

  lemma {:induction false} LookStops(m: Machine, p: Pattern, dir: Direction, cc: nat, pc: int, s: Place,
                                     stack: seq<int>)
    requires p.Look? && Ready(m, p.body, if p.behind then Backward else Forward, cc) && Unaligned(m.t, s)
    requires CodeAt(m.code, pc, Gen(p, dir, cc))
    ensures StopsFrom(m, p, dir, cc, pc, s, stack)
  {
    hide CodeAt, Arrives, Ready, Length, Bytes, Inside, Aligned, Lands, Yields, LookEnds;
    InsideAt(m.t, s);
    var d := if p.behind then Backward else Forward;
    var atom := Gen(p.body, d, cc);
    var i, mid := LookInstr(p.negative, Length(atom) + 1), pc + 5 + Length(atom);
    CodeAtAppend(m.code, pc, [i] + atom, [Match]);
    CodeAtAppend(m.code, pc, [i], atom);
    BytesOne(i);
    BytesOne(Match);
    PartArrives(m, p.body, d, cc, pc + 5, s, stack);
    var inner := ArrivesList(m, pc + 5, s, stack, mid, stack, !CanBeEmpty(p.body));
    forall k | 0 <= k < |inner| ensures inner[k].at <= |m.t.units| { LandsInside(m.t, s, inner[k]); }
    LookFrom(m, p.negative, pc, mid, s, stack, inner);
    LookLands(m.t, p.negative, s, inner);
    ArrivesBy(m, pc, s, stack, mid + 1, stack, false, LookEnds(p.negative, s, inner));
  }

  lemma LookLands(t: Text, negative: bool, s: Place, inner: seq<Place>)
    requires Inside(t, s) && AllLand(t, s, inner)
    ensures AllLand(t, s, LookEnds(negative, s, inner))
  {
    if inner != [] { assert Lands(t, s, inner[0]); }
  }

  // Sequence and alternation.

  lemma {:induction false} CatStops(m: Machine, p: Pattern, dir: Direction, cc: nat, pc: int, s: Place, stack: seq<int>)
    requires p.Cat? && Unaligned(m.t, s) && CodeAt(m.code, pc, Gen(p, dir, cc))
    requires Ready(m, p.first, dir, cc) && Ready(m, p.second, dir, cc + Groups(p.first))
    ensures StopsFrom(m, p, dir, cc, pc, s, stack)
  {
    hide CodeAt, Arrives, Ready, Length, Bytes, Inside, Aligned, Lands, Gen;
    var a, b := FirstHalf(p, dir, cc), SecondHalf(p, dir, cc);
    var x, y := Gen(a.p, dir, a.cc), Gen(b.p, dir, b.cc);
    var mid := pc + Length(x);
    CatCode(p, dir, cc);
    CodeAtAppend(m.code, pc, x, y);
    PartArrives(m, a.p, dir, a.cc, pc, s, stack);
    forall q | Lands(m.t, s, q) ensures Arrives(m, mid, q, stack, mid + Length(y), stack, !CanBeEmpty(b.p)) {
      LandsInside(m.t, s, q);
      PartArrives(m, b.p, dir, b.cc, mid, q, stack);
    }
    ArrivesThen(m, pc, s, stack, mid, stack, mid + Length(y), stack, !CanBeEmpty(a.p), !CanBeEmpty(b.p));
  }

  lemma {:induction false} AltStops(m: Machine, p: Pattern, dir: Direction, cc: nat, pc: int, s: Place, stack: seq<int>)
    requires p.Alt? && Unaligned(m.t, s) && CodeAt(m.code, pc, Gen(p, dir, cc))
    requires Ready(m, p.left, dir, cc) && Ready(m, p.right, dir, cc + Groups(p.left))
    ensures StopsFrom(m, p, dir, cc, pc, s, stack)
  {
    hide CodeAt, Arrives, Ready, Length, Bytes, Inside, Aligned, Lands, AltCode;
    InsideAt(m.t, s);
    var x, y := Gen(p.left, dir, cc), Gen(p.right, dir, cc + Groups(p.left));
    var lx: int, ly: int, must := Length(x), Length(y), !CanBeEmpty(p);
    var mid := pc + 5 + lx;
    var e := mid + 5 + ly;
    AltParts(m, pc, x, y);
    PartArrives(m, p.left, dir, cc, pc + 5, s, stack);
    PartArrives(m, p.right, dir, cc + Groups(p.left), mid + 5, s, stack);
    forall q | Lands(m.t, s, q) ensures Arrives(m, mid, q, stack, e, stack, false) {
      LandsInside(m.t, s, q);
      ArrivesHere(m, e, q, stack);
      ArrivesStep(m, mid, Goto(ly), q, stack, e, q, stack, e, stack, false);
    }
    ArrivesThen(m, pc + 5, s, stack, mid, stack, e, stack, !CanBeEmpty(p.left), false);
    ArrivesWeaker(m, pc + 5, s, stack, e, stack, !CanBeEmpty(p.left), must);
    ArrivesWeaker(m, mid + 5, s, stack, e, stack, !CanBeEmpty(p.right), must);
    ArrivesSplit(m, pc, true, lx + 5, s, stack, e, stack, must);
  }

  // Repetition.

  lemma {:induction false} RoundArrives(m: Machine, p: Pattern, dir: Direction, cc: nat, check: bool, pc: int, s: Place,
                                        stack: seq<int>)
    requires Ready(m, p, dir, cc) && Unaligned(m.t, s) && CodeAt(m.code, pc, RoundCode(Gen(p, dir, cc), check))
    ensures Arrives(m, pc, s, stack, pc + RoundLength(Gen(p, dir, cc), check), stack, check || !CanBeEmpty(p))
  {
    hide CodeAt, Arrives, Ready, Length, Bytes, Inside, Aligned, Lands, Gen, Yields;
    InsideAt(m.t, s);
    if check {
      var atom := Gen(p, dir, cc);
      var mid := pc + 1 + Length(atom);
      CodeAtAppend(m.code, pc, [PushCharPos] + atom, [CheckAdvance]);
      CodeAtAppend(m.code, pc, [PushCharPos], atom);
      BytesOne(PushCharPos);
      PartArrives(m, p, dir, cc, pc + 1, s, stack + [s.at]);
      var ends := ArrivesList(m, pc + 1, s, stack + [s.at], mid, stack + [s.at], !CanBeEmpty(p));
      forall k | 0 <= k < |ends| ensures ends[k].at <= |m.t.units| { LandsInside(m.t, s, ends[k]); }
      forall base ensures Yields(m, Run(pc, s, stack, base), mid + 1, stack, base, Moved(s, ends)) {
        CheckedYields(m, pc, mid, s, stack, base, ends);
      }
      MovedLand(m.t, s, ends);
      ArrivesBy(m, pc, s, stack, mid + 1, stack, true, Moved(s, ends));
    } else {
      PartArrives(m, p, dir, cc, pc, s, stack);
    }
  }

  lemma {:induction false} MovedLand(t: Text, s: Place, ends: seq<Place>)
    requires AllLand(t, s, ends)
    ensures AllLand(t, s, Moved(s, ends)) && AllMove(s, Moved(s, ends))
  {
    hide Lands;
    var r := Moved(s, ends);
    forall k | 0 <= k < |r| ensures Lands(t, s, r[k]) {
      var j :| 0 <= j < |ends| && ends[j] == r[k];
      assert Lands(t, s, ends[j]);
    }
  }

  // Moved from between the halves of a pair: between code points, where all is exact.
  lemma MovedAligned(t: Text, s: Place, q: Place)
    requires Unaligned(t, s) && Lands(t, s, q)
    ensures Inside(t, q) && q.at <= |t.units| && (q.at != s.at ==> Aligned(t, q.at))
    ensures (q.at == s.at ==> Unaligned(t, q))
  {
  }

  lemma {:induction false} RepeatArrives(m: Machine, p: Pattern, dir: Direction, cc: nat, min: nat, max: nat,
                                         greedy: bool,
                                         pc: int, s: Place, stack: seq<int>, e: int, stack2: seq<int>)
    requires Inside(m.t, s) && Aligned(m.t, s.at)
    requires YieldsEverywhere(m, pc, s, stack, e, stack2, Repeat(Code, m.t, p, dir, cc, min, max, greedy, s))
    ensures Arrives(m, pc, s, stack, e, stack2, false)
  {
    hide Repeat, YieldsEverywhere, Arrives;
    AheadArrives(m, dir, pc, s, stack, e, stack2, Repeat(Code, m.t, p, dir, cc, min, max, greedy, s));
  }

  lemma {:induction false} StarArrives(m: Machine, p: Pattern, dir: Direction, cc: nat, check: bool, greedy: bool,
                                       pc: int, s: Place, stack: seq<int>)
    requires Ready(m, p, dir, cc) && Unaligned(m.t, s) && CodeAt(m.code, pc, StarCode(Gen(p, dir, cc), check, greedy))
    requires CheckFits(m, p, dir, cc, check, INF, greedy) && (check || !CanBeEmpty(p))
    ensures Arrives(m, pc, s, stack, pc + 10 + RoundLength(Gen(p, dir, cc), check), stack, false)
  {
    hide CodeAt, Arrives, Sound, Length, Bytes, Inside, Aligned, Lands, Gen, YieldsEverywhere, CheckFits, RoundCode;
    hide RoundLength, Implements, Repeat, Stops, Unaligned, StarCode;
    var atom := Gen(p, dir, cc);
    var r := RoundLength(atom, check);
    var g := pc + 5 + r;
    StarParts(m, pc, atom, check, greedy);
    RoundAtom(m, p, dir, cc, check, pc + 5);
    RoundArrives(m, p, dir, cc, check, pc + 5, s, stack);
    forall q | Lands(m.t, s, q) && q.at != s.at ensures Arrives(m, g, q, stack, g + 5, stack, false) {
      MovedAligned(m.t, s, q);
      StarYields(m, p, dir, cc, check, greedy, pc, q, stack);
      RepeatArrives(m, p, dir, cc, 0, INF, greedy, pc, q, stack, g + 5, stack);
      ArrivesStep(m, g, Goto(-(r + 10)), q, stack, pc, q, stack, g + 5, stack, false);
    }
    ArrivesThen(m, pc + 5, s, stack, g, stack, g + 5, stack, true, false);
    LeavesOrLoops(m, pc, greedy, r + 5, s, stack, g + 5, stack, true);
  }

  // A split around a loop whose exit is at e.
  lemma {:induction false} LeavesOrLoops(m: Machine, pc: int, next: bool, off: int, s: Place, stack: seq<int>, e: int,
                                         stack2: seq<int>, must: bool)
    requires Unaligned(m.t, s) && CodeAt(m.code, pc, [SplitCode(next, off)])
    requires Arrives(m, pc + 5, s, stack, e, stack2, must)
    requires (pc + 5 + off == e && stack == stack2) || Arrives(m, pc + 5 + off, s, stack, e, stack2, false)
    ensures Arrives(m, pc, s, stack, e, stack2, false)
  {
    hide CodeAt, Arrives, Inside, Aligned;
    InsideAt(m.t, s);
    ArrivesWeaker(m, pc + 5, s, stack, e, stack2, must, false);
    if pc + 5 + off == e && stack == stack2 { ArrivesHere(m, e, s, stack); }
    ArrivesSplit(m, pc, next, off, s, stack, e, stack2, false);
  }

  lemma {:induction false} CountArrives(m: Machine, pc: int, off: int, s: Place, stack: seq<int>, n: nat, e: int,
                                        must: bool)
    requires s.at <= |m.t.units| && 0 < n && CodeAt(m.code, pc, [Loop(off)]) && CodeAt(m.code, pc + 5, [Drop])
    requires n > 1 ==> Arrives(m, pc + 5 + off, s, stack + [n - 1], e, stack, must)
    requires n == 1 ==> Arrives(m, pc + 6, s, stack, e, stack, must)
    ensures Arrives(m, pc, s, stack + [n], e, stack, must)
  {
    hide CodeAt, YieldsEverywhere, AllLand;
    var ends;
    if n > 1 {
      ends := ArrivesList(m, pc + 5 + off, s, stack + [n - 1], e, stack, must);
    } else {
      ends := ArrivesList(m, pc + 6, s, stack, e, stack, must);
    }
    CountYields(m, pc, off, s, stack, n, e, ends);
    ArrivesBy(m, pc, s, stack + [n], e, stack, must, ends);
  }

  lemma {:induction false} DropArrives(m: Machine, pc: int, s: Place, stack: seq<int>, n: int)
    requires Inside(m.t, s) && CodeAt(m.code, pc, [Drop])
    ensures Arrives(m, pc, s, stack + [n], pc + 1, stack, false)
  {
    hide CodeAt, YieldsEverywhere;
    InsideAt(m.t, s);
    YieldsHere(m, pc + 1, s, stack);
    DropYields(m, pc, s, stack, n, pc + 1, [s]);
    ArrivesBy(m, pc, s, stack + [n], pc + 1, stack, false, [s]);
  }

  lemma {:induction false} CountedArrives(m: Machine, p: Pattern, dir: Direction, cc: nat, check: bool, greedy: bool,
                                          n: nat, pc: int, s: Place, stack: seq<int>)
    requires Ready(m, p, dir, cc) && Unaligned(m.t, s) && 0 < n < INF
    requires CodeAt(m.code, pc, CountedLoop(Gen(p, dir, cc), check, greedy))
    requires CheckFits(m, p, dir, cc, check, n, greedy)
    ensures Arrives(m, pc, s, stack + [n], pc + 11 + RoundLength(Gen(p, dir, cc), check), stack, false)
    decreases n, 1
  {
    hide CodeAt, Arrives, Ready, Length, Bytes, Inside, Aligned, Lands, Gen, CheckFits, RoundCode, RoundLength;
    hide CountedLoop, Unaligned;
    var atom := Gen(p, dir, cc);
    var r := RoundLength(atom, check);
    var g := pc + 5 + r;
    CountedParts(m, pc, atom, check, greedy);
    RoundArrives(m, p, dir, cc, check, pc + 5, s, stack + [n]);
    forall q | Lands(m.t, s, q) ensures Arrives(m, g, q, stack + [n], g + 6, stack, false) {
      CountedRest(m, p, dir, cc, check, greedy, n, pc, s, q, stack);
    }
    ArrivesWeaker(m, pc + 5, s, stack + [n], g, stack + [n], check || !CanBeEmpty(p), false);
    ArrivesThen(m, pc + 5, s, stack + [n], g, stack + [n], g + 6, stack, false, false);
    assert Inside(m.t, s) by { UnalignedInside(m.t, s); }
    DropArrives(m, g + 5, s, stack, n);
    LeavesOrLoops(m, pc, greedy, r + 5, s, stack + [n], g + 6, stack, false);
  }

  lemma UnalignedInside(t: Text, s: Place)
    requires Unaligned(t, s)
    ensures Inside(t, s)
  {
  }

  lemma {:induction false} CountedRest(m: Machine, p: Pattern, dir: Direction, cc: nat, check: bool, greedy: bool,
                                       n: nat, pc: int, s: Place, q: Place, stack: seq<int>)
    requires Ready(m, p, dir, cc) && Unaligned(m.t, s) && 0 < n < INF
    requires CodeAt(m.code, pc, CountedLoop(Gen(p, dir, cc), check, greedy))
    requires CheckFits(m, p, dir, cc, check, n, greedy) && Lands(m.t, s, q)
    ensures var g := pc + 5 + RoundLength(Gen(p, dir, cc), check); Arrives(m, g, q, stack + [n], g + 6, stack, false)
    decreases n, 0
  {
    hide CodeAt, Arrives, Sound, Length, Bytes, Inside, Aligned, Lands, Gen, RoundCode, RoundLength, CountedLoop;
    hide Unaligned, YieldsEverywhere, Repeat, AlwaysMoves, Implements, Stops;
    var r := RoundLength(Gen(p, dir, cc), check);
    var g := pc + 5 + r;
    CountedParts(m, pc, Gen(p, dir, cc), check, greedy);
    MovedAligned(m.t, s, q);
    if q.at != s.at {
      RoundAtom(m, p, dir, cc, check, pc + 5);
      CountedLoopRest(m, p, dir, cc, check, greedy, n, pc, q, stack);
      RepeatArrives(m, p, dir, cc, 0, n - 1, greedy, g, q, stack + [n], g + 6, stack);
    } else {
      if n > 1 {
        CountedArrives(m, p, dir, cc, check, greedy, n - 1, pc, q, stack);
      } else {
        ArrivesHere(m, g + 6, q, stack);
      }
      CountArrives(m, g, -(r + 10), q, stack, n, g + 6, false);
    }
  }

  lemma {:induction false} OptionalArrives(m: Machine, p: Pattern, dir: Direction, cc: nat, check: bool, greedy: bool,
                                           pc: int, s: Place, stack: seq<int>)
    requires Ready(m, p, dir, cc) && Unaligned(m.t, s)
    requires CodeAt(m.code, pc, OptionalCode(Gen(p, dir, cc), check, greedy))
    ensures Arrives(m, pc, s, stack, pc + Length(OptionalCode(Gen(p, dir, cc), check, greedy)), stack, false)
  {
    hide CodeAt, Arrives, Ready, Length, Bytes, Gen, RoundCode, RoundLength, Unaligned;
    var atom := Gen(p, dir, cc);
    var r := RoundLength(atom, check);
    CodeAtAppend(m.code, pc, [SplitCode(greedy, r)], RoundCode(atom, check));
    BytesOne(SplitCode(greedy, r));
    RoundSize(atom, check);
    RoundArrives(m, p, dir, cc, check, pc + 5, s, stack);
    LeavesOrLoops(m, pc, greedy, r, s, stack, pc + 5 + r, stack, check || !CanBeEmpty(p));
  }

  // The rounds that are left after the mandatory ones, from anywhere.
  lemma {:induction false} TailArrives(m: Machine, p: Pattern, dir: Direction, cc: nat, check: bool, max: nat,
                                       greedy: bool, pc: int, s: Place, stack: seq<int>)
    requires Ready(m, p, dir, cc) && Inside(m.t, s) && max <= INF
    requires CodeAt(m.code, pc, TailCode(Gen(p, dir, cc), check, max, greedy))
    requires max > 0 ==> CheckFits(m, p, dir, cc, check, max, greedy)
    requires max == INF ==> check || !CanBeEmpty(p)
    ensures Arrives(m, pc, s, stack, pc + Length(TailCode(Gen(p, dir, cc), check, max, greedy)), stack, false)
  {
    hide CodeAt, Arrives, Sound, Length, Bytes, Gen, RoundCode, RoundLength, Inside, Aligned, CheckFits, Stops;
    hide CountedLoop, StarCode, YieldsEverywhere, Repeat;
    var atom := Gen(p, dir, cc);
    if Aligned(m.t, s.at) {
      TailCodeYields(m, p, dir, cc, check, max, greedy, pc, s, stack);
      RepeatArrives(m, p, dir, cc, 0, max, greedy, pc, s, stack, pc
          + Length(TailCode(atom, check, max, greedy)), stack);
    } else if max == 0 {
      ArrivesHere(m, pc, s, stack);
      NoCode();
    } else if max == INF {
      StarParts(m, pc, atom, check, greedy);
      StarArrives(m, p, dir, cc, check, greedy, pc, s, stack);
    } else {
      CountedTail(m, p, dir, cc, check, greedy, max, pc, s, stack);
    }
  }

  lemma {:induction false} CountedTail(m: Machine, p: Pattern, dir: Direction, cc: nat, check: bool, greedy: bool,
                                       n: nat, pc: int, s: Place, stack: seq<int>)
    requires Ready(m, p, dir, cc) && Unaligned(m.t, s) && 0 < n < INF
    requires CodeAt(m.code, pc, CountedCode(Gen(p, dir, cc), check, greedy, n))
    requires CheckFits(m, p, dir, cc, check, n, greedy)
    ensures Arrives(m, pc, s, stack, pc + Length(CountedCode(Gen(p, dir, cc), check, greedy, n)), stack, false)
  {
    hide CodeAt, Arrives, Ready, Length, Bytes, Gen, RoundLength, Inside, Aligned, CheckFits, CountedLoop;
    InsideAt(m.t, s);
    CountedHead(m, pc, Gen(p, dir, cc), check, greedy, n);
    CodeAtAppend(m.code, pc, [PushI32(n)], CountedLoop(Gen(p, dir, cc), check, greedy));
    BytesOne(PushI32(n));
    CountedParts(m, pc + 5, Gen(p, dir, cc), check, greedy);
    CountedArrives(m, p, dir, cc, check, greedy, n, pc + 5, s, stack);
    ArrivesStep(m, pc, PushI32(n), s, stack, pc + 5, s, stack + [n], pc + 16
        + RoundLength(Gen(p, dir, cc), check), stack, false);
  }

  // The mandatory rounds and the tail after them: exact from between code points, finite from anywhere.
  ghost predicate TailReady(m: Machine, p: Pattern, dir: Direction, cc: nat, rest: nat, greedy: bool, pc: int, e: int) {
    TailYields(m, p, dir, cc, rest, greedy, pc, e) && forall q, over :: Inside(m.t, q) ==>
        Arrives(m, pc, q, over, e, over, false)
  }

  lemma {:induction false} TailFrom(m: Machine, p: Pattern, dir: Direction, cc: nat, rest: nat, greedy: bool, pc: int,
                                    e: int, q: Place, over: seq<int>)
    requires TailReady(m, p, dir, cc, rest, greedy, pc, e) && Inside(m.t, q)
    ensures Arrives(m, pc, q, over, e, over, false)
  {
    hide Arrives, Inside, TailYields;
  }

  lemma {:induction false} ExactLoopArrives(m: Machine, p: Pattern, dir: Direction, cc: nat, c: nat, rest: nat,
                                            greedy: bool, pc: int, s: Place, stack: seq<int>, e: int)
    requires Ready(m, p, dir, cc) && Unaligned(m.t, s) && c > 0 && (rest == INF || c + rest < INF)
    requires CodeAt(m.code, pc, ExactLoop(Gen(p, dir, cc)))
    requires TailReady(m, p, dir, cc, rest, greedy, pc + 6 + Length(Gen(p, dir, cc)), e)
    ensures Arrives(m, pc, s, stack + [c], e, stack, !CanBeEmpty(p))
    decreases c, 1
  {
    hide CodeAt, Arrives, Ready, Length, Bytes, Gen, Inside, Aligned, Lands, ExactLoop, TailReady, Unaligned;
    var mid := pc + Length(Gen(p, dir, cc));
    ExactParts(m, pc, Gen(p, dir, cc));
    UnalignedInside(m.t, s);
    PartArrives(m, p, dir, cc, pc, s, stack + [c]);
    forall q | Lands(m.t, s, q) ensures Arrives(m, mid, q, stack + [c], e, stack, false) {
      ExactRest(m, p, dir, cc, c, rest, greedy, pc, s, q, stack, e);
    }
    ArrivesThen(m, pc, s, stack + [c], mid, stack + [c], e, stack, !CanBeEmpty(p), false);
  }

  lemma {:induction false} ExactRest(m: Machine, p: Pattern, dir: Direction, cc: nat, c: nat, rest: nat, greedy: bool,
                                     pc: int, s: Place, q: Place, stack: seq<int>, e: int)
    requires Ready(m, p, dir, cc) && Unaligned(m.t, s) && c > 0 && (rest == INF || c + rest < INF) && Lands(m.t, s, q)
    requires CodeAt(m.code, pc, ExactLoop(Gen(p, dir, cc)))
    requires TailReady(m, p, dir, cc, rest, greedy, pc + 6 + Length(Gen(p, dir, cc)), e)
    ensures Arrives(m, pc + Length(Gen(p, dir, cc)), q, stack + [c], e, stack, false)
    decreases c, 0
  {
    hide CodeAt, Arrives, Length, Bytes, Gen, Inside, Aligned, Lands, ExactLoop, Unaligned, TailYields;
    hide YieldsEverywhere, Repeat, Implements, Stops;
    var l: int := Length(Gen(p, dir, cc));
    ExactParts(m, pc, Gen(p, dir, cc));
    MovedAligned(m.t, s, q);
    if q.at != s.at {
      ExactLoopRest(m, p, dir, cc, c, rest, greedy, pc, q, stack, e);
      RepeatArrives(m, p, dir, cc, c - 1, Total(c - 1, rest), greedy, pc + l, q, stack + [c], e, stack);
    } else {
      if c > 1 {
        ExactLoopArrives(m, p, dir, cc, c - 1, rest, greedy, pc, q, stack, e);
        ArrivesWeaker(m, pc, q, stack + [c - 1], e, stack, !CanBeEmpty(p), false);
      } else {
        TailFrom(m, p, dir, cc, rest, greedy, pc + 6 + l, e, q, stack);
      }
      CountArrives(m, pc + l, -(l + 5), q, stack, c, e, false);
    }
  }

  lemma {:induction false} ExactArrives(m: Machine, p: Pattern, dir: Direction, cc: nat, min: nat, rest: nat,
                                        greedy: bool, pc: int, s: Place, stack: seq<int>, e: int)
    requires Ready(m, p, dir, cc) && Unaligned(m.t, s) && min > 0 && (rest == INF || min + rest < INF)
    requires CodeAt(m.code, pc, ExactCode(Gen(p, dir, cc), min))
    requires TailReady(m, p, dir, cc, rest, greedy, pc + Length(ExactCode(Gen(p, dir, cc), min)), e)
    ensures Arrives(m, pc, s, stack, e, stack, !CanBeEmpty(p))
  {
    hide CodeAt, Arrives, Ready, Length, Bytes, Gen, Inside, Aligned, Lands, ExactLoop, TailReady, Unaligned;
    var mid := pc + Length(Gen(p, dir, cc));
    UnalignedInside(m.t, s);
    InsideAt(m.t, s);
    if min == 1 {
      PartArrives(m, p, dir, cc, pc, s, stack);
      forall q | Lands(m.t, s, q) ensures Arrives(m, mid, q, stack, e, stack, false) {
        LandsInside(m.t, s, q);
        TailFrom(m, p, dir, cc, rest, greedy, mid, e, q, stack);
      }
      ArrivesThen(m, pc, s, stack, mid, stack, e, stack, !CanBeEmpty(p), false);
    } else {
      CodeAtAppend(m.code, pc, [PushI32(min)], ExactLoop(Gen(p, dir, cc)));
      BytesOne(PushI32(min));
      ExactParts(m, pc + 5, Gen(p, dir, cc));
      ExactLoopArrives(m, p, dir, cc, min, rest, greedy, pc + 5, s, stack, e);
      ArrivesStep(m, pc, PushI32(min), s, stack, pc + 5, s, stack + [min], e, stack, !CanBeEmpty(p));
    }
  }

  // + over an atom that cannot be empty.
  lemma {:induction false} PlusArrives(m: Machine, p: Pattern, dir: Direction, cc: nat, greedy: bool, pc: int, s: Place,
                                       stack: seq<int>)
    requires Ready(m, p, dir, cc) && Unaligned(m.t, s) && !CanBeEmpty(p)
    requires CodeAt(m.code, pc, Gen(p, dir, cc) + [SplitCode(!greedy, -(Length(Gen(p, dir, cc)) + 5))])
    ensures Arrives(m, pc, s, stack, pc
      + Length(Gen(p, dir, cc) + [SplitCode(!greedy, -(Length(Gen(p, dir, cc)) + 5))]), stack, true)
  {
    hide CodeAt, Arrives, Stops, Length, Bytes, Gen, Inside, Aligned, Lands, Unaligned, Repeat, YieldsEverywhere;
    hide Implements, AlwaysMoves, CanBeEmpty;
    var split := SplitCode(!greedy, -(Length(Gen(p, dir, cc)) + 5));
    var mid := pc + Length(Gen(p, dir, cc));
    CodeAtAppend(m.code, pc, Gen(p, dir, cc), [split]);
    BytesOne(split);
    UnalignedInside(m.t, s);
    NonEmptyAlwaysMoves(m.t, p, dir, cc);
    PartArrives(m, p, dir, cc, pc, s, stack);
    forall q | Lands(m.t, s, q) && q.at != s.at ensures Arrives(m, mid, q, stack, mid + 5, stack, false) {
      MovedAligned(m.t, s, q);
      BackYields(m, p, dir, cc, greedy, pc, q, stack);
      RepeatArrives(m, p, dir, cc, 0, INF, greedy, mid, q, stack, mid + 5, stack);
    }
    ArrivesThen(m, pc, s, stack, mid, stack, mid + 5, stack, true, false);
  }

  // The optimised greedy loop.

  // One nested run of a simple atom: blocked, or moved and between code points.
  lemma {:induction false} SimpleNested(m: Machine, code: seq<Instr>, pc: int, at: nat)
    requires at <= |m.t.units| && CodeAt(m.code, pc, code + [Match]) && SimpleLength(code) >= 0
    ensures var r := Nested(m, pc, at);
      r.Blocked? || (r.Reached? && if SimpleLength(code) > 0 then at < r.at && Aligned(m.t, r.at) else r.at == at)
    decreases |code|
  {
    hide CodeAt, Fetch, Nested, Consume, CharInstr, TestInstr, Size, Aligned, Length, Bytes;
    if code == [] {
      assert code + [Match] == [Match];
      NestedMatch(m, pc, at);
    } else {
      var i, rest := code[0], code[1..];
      assert code + [Match] == [i] + (rest + [Match]);
      CodeAtAppend(m.code, pc, [i], rest + [Match]);
      BytesOne(i);
      FetchAt(m.code, pc, i);
      NestedStep(m, pc, at, i);
      var next := if CharInstr(i) then Consume(m.t, i, at) else Some(at);
      if next.Some? { SimpleNested(m, rest, pc + Size(i), next.value); }
    }
  }

  lemma {:induction false} NestedMatch(m: Machine, pc: int, at: nat)
    requires at <= |m.t.units| && CodeAt(m.code, pc, [Match])
    ensures Nested(m, pc, at) == Reached(at)
  {
    hide CodeAt, Fetch;
    FetchAt(m.code, pc, Match);
  }

  lemma {:induction false} NestedStep(m: Machine, pc: int, at: nat, i: Instr)
    requires at <= |m.t.units| && Fetch(m.code, pc) == Some(i) && (CharInstr(i) || TestInstr(i))
    ensures CharInstr(i) && Consume(m.t, i, at).None? ==> Nested(m, pc, at) == Blocked
    ensures CharInstr(i) && Consume(m.t, i, at).Some? ==>
      Nested(m, pc, at) == Nested(m, pc + Size(i), Consume(m.t, i, at).value)
    ensures CharInstr(i) && Consume(m.t, i, at).Some? ==> Aligned(m.t, Consume(m.t, i, at).value)
    ensures TestInstr(i) ==> Nested(m, pc, at) == Blocked || Nested(m, pc, at) == Nested(m, pc + Size(i), at)
  {
    hide Fetch, CharHit, TestHit;
    if at < |m.t.units| { AfterLands(m.t, at); }
  }

  lemma {:induction false} GreedyLands(m: Machine, code: seq<Instr>, pc: int, max: nat, q: nat, at: nat)
    requires at <= |m.t.units| && CodeAt(m.code, pc, code + [Match]) && SimpleLength(code) > 0
    ensures var r := GreedyRun(m, pc, max, q, at);
      r.Some? && r.value.q >= q && (if r.value.q == q then r.value.at == at else Aligned(m.t, r.value.at))
    decreases |m.t.units| - at
  {
    hide CodeAt, Nested, Aligned, SimpleLength;
    SimpleNested(m, code, pc, at);
    if Nested(m, pc, at).Reached? && !(q + 1 >= max && max != INF) {
      GreedyLands(m, code, pc, max, q + 1, Nested(m, pc, at).at);
    }
  }

  lemma {:induction false} RetriesLand(t: Text, s: Place, last: Place, len: nat, k: nat)
    requires Unaligned(t, s) && Inside(t, last) && Aligned(t, last.at) && |last.caps| == |s.caps|
    ensures AllLand(t, s, Retries(t, last, len, k)) && AllMove(s, Retries(t, last, len, k))
    decreases k
  {
    hide Aligned;
    RewindLands(t, last.at, len, k);
    var q := last.(at := Rewind(t, last.at, len, k));
    assert Lands(t, s, q) && q.at != s.at;
    if k > 0 {
      RetriesLand(t, s, last, len, k - 1);
      AllLandAppend(t, s, Retries(t, last, len, k - 1), [q]);
      AllMoveAppend(s, Retries(t, last, len, k - 1), [q]);
    } else {
      assert q == last;
    }
  }

  lemma {:induction false} SimpleArrives(m: Machine, atom: seq<Instr>, min: nat, max: nat, pc: int, s: Place,
                                         stack: seq<int>)
    requires Unaligned(m.t, s) && SimpleLength(atom) > 0 && CodeAt(m.code, pc, SimpleCode(atom, min, max))
    ensures Arrives(m, pc, s, stack, pc + Length(SimpleCode(atom, min, max)), stack, min > 0)
  {
    hide CodeAt, SimpleLength, Yields, Length, Bytes, Retries, Rewind, Nested, GreedyRun, Aligned, Lands, Fetch;
    UnalignedInside(m.t, s);
    InsideAt(m.t, s);
    var len := SimpleLength(atom);
    var i := SimpleGreedyQuant(Length(atom) + 1, min, max, len);
    SimpleParts(m, pc, atom, min, max);
    GreedyLands(m, atom, pc + 17, max, 0, s.at);
    var c := GreedyRun(m, pc + 17, max, 0, s.at).value;
    var e, last, k := pc + 18 + Length(atom), s.(at := c.at), if c.q < min then 0 else c.q - min;
    var ends := if c.q < min then [] else Retries(m.t, last, len, k);
    forall base ensures Yields(m, Run(pc, s, stack, base), e, stack, base, ends) {
      SimpleFrom(m, pc, i, c, s, stack, base);
    }
    if c.q > 0 {
      AtPlaceInside(m.t, s, c.at);
      RetriesLand(m.t, s, last, len, k);
    } else {
      RetriesNone(m.t, last, len);
      assert last == s && (c.q >= min ==> ends == [s]);
      assert Lands(m.t, s, s) by { LandsSelf(m.t, s); }
    }
    ArrivesBy(m, pc, s, stack, e, stack, min > 0, ends);
  }

  lemma LandsSelf(t: Text, s: Place)
    requires Inside(t, s)
    ensures Lands(t, s, s)
  {
  }

  lemma AtPlaceInside(t: Text, s: Place, x: nat)
    requires Inside(t, s) && x <= |t.units|
    ensures Inside(t, s.(at := x))
  {
  }

  lemma {:induction false} ResetArrives(m: Machine, cc: nat, n: nat, pc: int, s: Place, stack: seq<int>, e: int,
                                        must: bool)
    requires s.at <= |m.t.units| && CodeAt(m.code, pc, ResetCode(cc, n))
    requires Arrives(m, pc + Length(ResetCode(cc, n)), Reset(s, cc, n), stack, e, stack, must)
    ensures Arrives(m, pc, s, stack, e, stack, must)
  {
    hide CodeAt, Arrives, Bytes;
    if n > 0 {
      BytesOne(SaveReset(cc, cc + n - 1));
      ArrivesStep(m, pc, SaveReset(cc, cc + n - 1), s, stack, pc + 3, Forget(s, cc, n), stack, e, stack, must);
    }
  }

  lemma {:induction false} ZeroArrives(m: Machine, p: Pattern, dir: Direction, cc: nat, check: bool, max: nat,
                                       greedy: bool, pc: int, s: Place, stack: seq<int>)
    requires Ready(m, p, dir, cc) && Unaligned(m.t, s) && max <= INF && CheckFits(m, p, dir, cc, check, max, greedy)
    requires max == INF ==> check || !CanBeEmpty(p)
    requires CodeAt(m.code, pc, ResetCode(cc, Groups(p)) + ZeroCode(Gen(p, dir, cc), check, max, greedy))
    ensures Arrives(m, pc, s, stack, pc
      + Length(ResetCode(cc, Groups(p)) + ZeroCode(Gen(p, dir, cc), check, max, greedy)), stack, false)
  {
    hide CodeAt, Arrives, Ready, Length, Bytes, Gen, Inside, Aligned, CheckFits, OptionalCode, TailCode, ResetCode;
    hide Reset;
    InsideAt(m.t, s);
    var n, tail := Groups(p), ZeroCode(Gen(p, dir, cc), check, max, greedy);
    var q, pc2 := Reset(s, cc, n), pc + Length(ResetCode(cc, n));
    CodeAtAppend(m.code, pc, ResetCode(cc, n), tail);
    ResetInside(m.t, s, cc, n);
    if max == 1 {
      OptionalArrives(m, p, dir, cc, check, greedy, pc2, q, stack);
    } else {
      TailArrives(m, p, dir, cc, check, max, greedy, pc2, q, stack);
    }
    ResetArrives(m, cc, n, pc, s, stack, pc2 + Length(tail), false);
  }

  // What follows the reset when no round is mandatory.
  function ZeroCode(atom: seq<Instr>, check: bool, max: nat, greedy: bool): seq<Instr> {
    if max == 1 then OptionalCode(atom, check, greedy) else TailCode(atom, check, max, greedy)
  }

  lemma {:induction false} SomeArrives(m: Machine, p: Pattern, dir: Direction, cc: nat, check: bool, min: nat, max: nat,
                                       greedy: bool, pc: int, s: Place, stack: seq<int>)
    requires Ready(m, p, dir, cc) && Unaligned(m.t, s) && 0 < min <= max <= INF
    requires CheckFits(m, p, dir, cc, check, max, greedy)
    requires max == INF ==> check || !CanBeEmpty(p)
    requires CodeAt(m.code, pc, ExactCode(Gen(p, dir, cc), min)
      + TailCode(Gen(p, dir, cc), check, Rest(min, max), greedy))
    ensures Arrives(m, pc, s, stack, pc
      + Length(ExactCode(Gen(p, dir, cc), min) + TailCode(Gen(p, dir, cc), check, Rest(min, max), greedy)), stack,
          !CanBeEmpty(p))
  {
    hide CodeAt, Arrives, Sound, Stops, Length, Bytes, Gen, Inside, Aligned, AlwaysMoves, ExactLoop, TailCode;
    hide YieldsEverywhere, Repeat, Unaligned;
    var first, rest := ExactCode(Gen(p, dir, cc), min), Rest(min, max);
    var tail := TailCode(Gen(p, dir, cc), check, rest, greedy);
    CodeAtAppend(m.code, pc, first, tail);
    var mid := pc + Length(first);
    var e := mid + Length(tail);
    forall q, over | Inside(m.t, q) && Aligned(m.t, q.at)
      ensures YieldsEverywhere(m, mid, q, over, e, over, Repeat(Code, m.t, p, dir, cc, 0, rest, greedy, q))
    {
      TailCodeYields(m, p, dir, cc, check, rest, greedy, mid, q, over);
    }
    forall q, over | Inside(m.t, q) ensures Arrives(m, mid, q, over, e, over, false) {
      TailArrives(m, p, dir, cc, check, rest, greedy, mid, q, over);
    }
    ExactArrives(m, p, dir, cc, min, rest, greedy, pc, s, stack, e);
  }

  lemma {:induction false} QuantStops(m: Machine, p: Pattern, dir: Direction, cc: nat, pc: int, s: Place,
                                      stack: seq<int>)
    requires p.Quant? && Emittable(p, cc) && Ready(m, p.body, dir, cc) && Unaligned(m.t, s)
    requires !p.greedy && p.max == INF ==> !CanBeEmpty(p.body)
    requires CodeAt(m.code, pc, Gen(p, dir, cc))
    ensures StopsFrom(m, p, dir, cc, pc, s, stack)
  {
    hide CodeAt, Arrives, Ready, Length, Bytes, Unaligned, SimpleLength, NeedCheckAdvance, AlwaysMoves, CheckFits;
    hide ExactCode, TailCode, SimpleCode, OptionalCode, ResetCode;
    var b, atom := p.body, Gen(p.body, dir, cc);
    var check := p.greedy && NeedCheckAdvance(atom);
    var e := pc + Length(Gen(p, dir, cc));
    if !CanBeEmpty(b) { NonEmptyAlwaysMoves(m.t, b, dir, cc); }
    CheckChoiceFits(m, b, dir, cc, p.max, p.greedy);
    if !NeedCheckAdvance(atom) { ClearedNonEmpty(b, dir, cc); }
    if p.greedy && p.max > 0 && SimpleLength(atom) > 0 {
      SimpleArrives(m, atom, p.min, p.max, pc, s, stack);
      ArrivesWeaker(m, pc, s, stack, e, stack, p.min > 0, !CanBeEmpty(p));
    } else if p.min == 0 {
      ZeroArrives(m, b, dir, cc, check, p.max, p.greedy, pc, s, stack);
    } else if p.min == 1 && p.max == INF && !check {
      PlusArrives(m, b, dir, cc, p.greedy, pc, s, stack);
      ArrivesWeaker(m, pc, s, stack, e, stack, true, !CanBeEmpty(p));
    } else {
      SomeArrives(m, b, dir, cc, check, p.min, p.max, p.greedy, pc, s, stack);
    }
  }

  // The code of every pattern whose unbounded lazy atoms cannot be empty.
  lemma {:induction false} AllReady(m: Machine, p: Pattern, dir: Direction, cc: nat)
    requires Emittable(p, cc) && LazyAtomsNonEmpty(p, false)
    ensures Ready(m, p, dir, cc)
    decreases p
  {
    hide Ready, CanBeEmpty;
    if p.Group? {
      AllReady(m, p.body, dir, cc + 1);
    } else if p.Look? {
      AllReady(m, p.body, if p.behind then Backward else Forward, cc);
    } else if p.Cat? {
      AllReady(m, p.first, dir, cc);
      AllReady(m, p.second, dir, cc + Groups(p.first));
    } else if p.Alt? {
      AllReady(m, p.left, dir, cc);
      AllReady(m, p.right, dir, cc + Groups(p.left));
    } else if p.Quant? {
      AllReady(m, p.body, dir, cc);
    }
    NodeReady(m, p, dir, cc);
  }

  ghost predicate PartsReady(m: Machine, p: Pattern, dir: Direction, cc: nat) {
    match p
    case Group(b) => Ready(m, b, dir, cc + 1)
    case Look(_, behind, b) => Ready(m, b, if behind then Backward else Forward, cc)
    case Cat(a, b) => Ready(m, a, dir, cc) && Ready(m, b, dir, cc + Groups(a))
    case Alt(a, b) => Ready(m, a, dir, cc) && Ready(m, b, dir, cc + Groups(a))
    case Quant(b, _, max, greedy) => Ready(m, b, dir, cc) && (!greedy && max == INF ==> !CanBeEmpty(b))
    case _ => true
  }

  lemma {:induction false} NodeReady(m: Machine, p: Pattern, dir: Direction, cc: nat)
    requires Emittable(p, cc) && LazyAtomsNonEmpty(p, false) && PartsReady(m, p, dir, cc)
    ensures Ready(m, p, dir, cc)
  {
    hide Sound, Unaligned, CodeAt, Gen, PartsReady, StopsFrom, Emittable, LazyAtomsNonEmpty;
    NonEmptyLazyAtoms(m.t, p, dir, cc);
    Compiled(m, p, dir, cc);
    forall pc | CodeAt(m.code, pc, Gen(p, dir, cc)) ensures Stops(m, p, dir, cc, pc) {
      forall s, stack | Unaligned(m.t, s) ensures StopsFrom(m, p, dir, cc, pc, s, stack) {
        NodeStops(m, p, dir, cc, pc, s, stack);
      }
    }
  }

  lemma {:induction false} NodeStops(m: Machine, p: Pattern, dir: Direction, cc: nat, pc: int, s: Place,
                                     stack: seq<int>)
    requires Emittable(p, cc) && PartsReady(m, p, dir, cc) && Unaligned(m.t, s) && CodeAt(m.code, pc, Gen(p, dir, cc))
    ensures StopsFrom(m, p, dir, cc, pc, s, stack)
  {
    hide CodeAt, Unaligned, StopsFrom, Ready, Emittable, Gen, CanBeEmpty;
    if p.Group? {
      GroupStops(m, p, dir, cc, pc, s, stack);
    } else if p.Look? {
      LookStops(m, p, dir, cc, pc, s, stack);
    } else if p.Cat? {
      CatStops(m, p, dir, cc, pc, s, stack);
    } else if p.Alt? {
      AltStops(m, p, dir, cc, pc, s, stack);
    } else if p.Quant? {
      QuantStops(m, p, dir, cc, pc, s, stack);
    } else {
      LeafStops(m, p, dir, cc, pc, s, stack);
    }
  }

  // A search stops from every position of every text, when no unbounded lazy loop repeats an atom that can be empty.
  lemma {:induction false} SearchStops(m: Machine, p: Pattern, sticky: bool, at: nat, groups: nat)
    requires Emittable(p, 1) && LazyAtomsNonEmpty(p, false) && CodeAt(m.code, HEADER_LEN, ProgramCode(p, sticky))
    requires at <= |m.t.units|
    ensures exists n: nat :: Steps(m, n, Run(HEADER_LEN, Start(at, groups), [], [])).Done?
  {
    hide CodeAt, Gen, Reaches, Length, Bytes, Ready, Inside, Aligned, Whole, LazyAtomsNonEmpty, CanBeEmpty, Arrives;
    hide Emittable, Fail;
    var w, s := Whole(p, sticky), Start(at, groups);
    var e := HEADER_LEN + Length(Gen(w, Forward, 0));
    CodeAtAppend(m.code, HEADER_LEN, Gen(w, Forward, 0), [Match]);
    WholeSafe(p, sticky);
    AllReady(m, w, Forward, 0);
    StartInside(m.t, at, groups);
    PartArrives(m, w, Forward, 0, HEADER_LEN, s, []);
    var ends := ArrivesList(m, HEADER_LEN, s, [], e, [], !CanBeEmpty(w));
    assert Yields(m, Run(HEADER_LEN, s, [], []), e, [], [], ends);
    ListStops(m, Run(HEADER_LEN, s, [], []), e, s, ends);
  }

  lemma WholeSafe(p: Pattern, sticky: bool)
    requires Emittable(p, 1) && LazyAtomsNonEmpty(p, false)
    ensures Emittable(Whole(p, sticky), 0) && LazyAtomsNonEmpty(Whole(p, sticky), false)
  {
    assert Groups(Skip()) == 0;
  }

  // At the final match the first arrival ends the run; with no arrival the run has failed.
  lemma {:induction false} ListStops(m: Machine, u: State, e: int, s: Place, ends: seq<Place>)
    requires Yields(m, u, e, [], [], ends) && AllLand(m.t, s, ends) && CodeAt(m.code, e, [Match])
    ensures exists n: nat :: Steps(m, n, u).Done?
  {
    hide CodeAt, Inside, Aligned, Reaches;
    var v: State;
    if ends == [] {
      v := Fail(m, []);
    } else {
      var extra :| YieldsNext(m, u, e, [], [], ends, extra);
      assert [] + extra == extra;
      assert Lands(m.t, s, ends[0]);
      LandsInside(m.t, s, ends[0]);
      v := Done(Some(ends[0]));
      MatchEnds(m, e, ends[0], extra);
      ReachesTrans(m, u, Run(e, ends[0], [], extra), v);
    }
    var n := StepsTo(m, u, v);
  }

  // So when every unbounded quantifier is greedy.
  lemma {:induction false} GreedySearchStops(m: Machine, p: Pattern, sticky: bool, at: nat, groups: nat)
    requires Emittable(p, 1) && LoopsGreedy(p) && CodeAt(m.code, HEADER_LEN, ProgramCode(p, sticky))
    requires at <= |m.t.units|
    ensures exists n: nat :: Steps(m, n, Run(HEADER_LEN, Start(at, groups), [], [])).Done?
  {
    hide CodeAt, ProgramCode, Steps;
    GreedyLoopsSafe(p);
    SearchStops(m, p, sticky, at, groups);
  }
}
