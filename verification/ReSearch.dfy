// What a compiled search comes to, for every pattern the compiler accepts: a match, none, or a run without end
// (libregexp.c:2418-2456).
module ReSearch {
  import opened ReText
  import opened ReCode
  import opened RePattern
  import opened ReGen
  import opened ReMachine
  import opened ReLoops
  import opened ReCorrect
  import opened ReProgram
  import opened ReRules
  import opened ReChoice
  import opened ReLazy
  import opened ReVerdict
  import opened ReOutcome
  import opened ReAgree

  // The reading of a whole program.
  function SearchDoes(f: nat, t: Text, p: Pattern, sticky: bool, s: Place): Verdict
    requires Inside(t, s)
  {
    Does(Running(f), t, Whole(p, sticky), Forward, 0, s, Won())
  }

  // The run stops with the match that is read, or with none; or it goes on for f steps at least.
  lemma {:induction false} SearchComes(f: nat, m: Machine, p: Pattern, sticky: bool, s: Place)
    requires Emittable(p, 1) && CodeAt(m.code, HEADER_LEN, ProgramCode(p, sticky)) && Inside(m.t, s)
    requires Aligned(m.t, s.at)
    ensures var u, v := Run(HEADER_LEN, s, [], []), SearchDoes(f, m.t, p, sticky, s);
      match v case Never => Steps(m, f, u).Run? case Fails => Reaches(m, u, Done(None)) case Wins(q) => Reaches(m, u,
          Done(Some(q)))
  {
    hide CodeAt, Gen, Does, Reaches, Length, Bytes, Inside, Aligned, Whole, ExitComes, Steps, CanBeEmpty, Step;
    var w, u, v := Whole(p, sticky), Run(HEADER_LEN, s, [], []), SearchDoes(f, m.t, p, sticky, s);
    var e := CodeEnd(w, Forward, 0, HEADER_LEN);
    var g := Goal(e, [], [], f, |s.caps|);
    CodeAtAppend(m.code, HEADER_LEN, Gen(w, Forward, 0), [Match]);
    WholeEmittable(p, sticky);
    WonHere(m, g, Forward, s);
    Goes(f, m, w, Forward, 0, HEADER_LEN, s, [], g, Won());
    assert From(m, g, HEADER_LEN, s, [], [], v);
    assert [] + [] == g.base;
    if v.Wins? {
      var extra :| WonAt(m, g, u, v.end, extra);
      assert [] + extra == extra;
      InsideAt(m.t, v.end);
      MatchEnds(m, e, v.end, extra);
      ReachesTrans(m, u, Run(e, v.end, [], extra), Done(Some(v.end)));
    }
  }

  lemma WholeEmittable(p: Pattern, sticky: bool)
    requires Emittable(p, 1)
    ensures Emittable(Whole(p, sticky), 0)
  {
    assert Groups(Skip()) == 0;
  }

  lemma {:induction false} DoneIsNoHang(m: Machine, u: State, w: State)
    requires Reaches(m, u, w) && w.Done?
    ensures !Hangs(m, u)
  {
    var n := StepsTo(m, u, w);
  }

  // The run has no end if and only if the reading has none, however many empty rounds it follows.
  lemma {:induction false} SearchHangsIff(m: Machine, p: Pattern, sticky: bool, s: Place)
    requires Emittable(p, 1) && CodeAt(m.code, HEADER_LEN, ProgramCode(p, sticky)) && Inside(m.t, s)
    requires Aligned(m.t, s.at)
    ensures Hangs(m, Run(HEADER_LEN, s, [], [])) <==> forall f: nat :: SearchDoes(f, m.t, p, sticky, s).Never?
  {
    hide CodeAt, ProgramCode, SearchDoes, Steps, Reaches, Emittable;
    var u := Run(HEADER_LEN, s, [], []);
    forall f: nat ensures SearchDoes(f, m.t, p, sticky, s).Never? ==> !Steps(m, f, u).Done? {
      SearchComes(f, m, p, sticky, s);
    }
    forall f: nat ensures Hangs(m, u) ==> SearchDoes(f, m.t, p, sticky, s).Never? {
      var v := SearchDoes(f, m.t, p, sticky, s);
      SearchComes(f, m, p, sticky, s);
      if !v.Never? { DoneIsNoHang(m, u, Done(if v.Fails? then None else Some(v.end))); }
    }
  }

  // The reading comes to an end once enough empty rounds are followed.
  ghost predicate ReadingEnds(t: Text, p: Pattern, sticky: bool, s: Place)
    requires Inside(t, s)
  {
    exists f: nat :: !SearchDoes(f, t, p, sticky, s).Never?
  }

  // found is what it comes to.
  ghost predicate Reads(t: Text, p: Pattern, sticky: bool, s: Place, found: Option<Place>)
    requires Inside(t, s)
  {
    forall f: nat :: var v := SearchDoes(f, t, p, sticky, s); !v.Never? ==>
        found == if v.Fails? then None else Some(v.end)
  }

  lemma {:induction false} OneResult(m: Machine, u: State, w: State, w2: State)
    requires Reaches(m, u, w) && Reaches(m, u, w2) && w.Done? && w2.Done?
    ensures w == w2
  {
    var n := StepsTo(m, u, w);
    var n2 := StepsTo(m, u, w2);
    if n <= n2 { StepsAdd(m, n, n2 - n, u); DoneStays(m, n2 - n, w); }
        else { StepsAdd(m, n2, n - n2, u); DoneStays(m, n - n2, w2); }
  }

  // Where the reading ends, the run stops with what it comes to.
  lemma {:induction false} ReadingStops(m: Machine, p: Pattern, sticky: bool, s: Place) returns (found: Option<Place>)
    requires Emittable(p, 1) && CodeAt(m.code, HEADER_LEN, ProgramCode(p, sticky)) && Inside(m.t, s)
    requires Aligned(m.t, s.at)
    requires ReadingEnds(m.t, p, sticky, s)
    ensures Reaches(m, Run(HEADER_LEN, s, [], []), Done(found)) && Reads(m.t, p, sticky, s, found)
  {
    hide CodeAt, ProgramCode, SearchDoes, Steps, Reaches, Emittable;
    var u := Run(HEADER_LEN, s, [], []);
    var f: nat :| !SearchDoes(f, m.t, p, sticky, s).Never?;
    var v := SearchDoes(f, m.t, p, sticky, s);
    found := if v.Fails? then None else Some(v.end);
    SearchComes(f, m, p, sticky, s);
    forall f2: nat
      ensures var v2 := SearchDoes(f2, m.t, p, sticky, s); !v2.Never? ==>
        found == if v2.Fails? then None else Some(v2.end)
    {
      var v2 := SearchDoes(f2, m.t, p, sticky, s);
      SearchComes(f2, m, p, sticky, s);
      if !v2.Never? { OneResult(m, u, Done(found), Done(if v2.Fails? then None else Some(v2.end))); }
    }
  }

  // Where no unbounded lazy loop has empty rounds it always does, with the first end of the whole pattern.
  lemma {:induction false} MovingReads(t: Text, p: Pattern, sticky: bool, s: Place)
    requires Emittable(p, 1) && LazyLoopsMove(t, p, Forward, 1) && Inside(t, s)
    ensures ReadingEnds(t, p, sticky, s)
    ensures Reads(t, p, sticky, s, First(Ends(Code, t, Whole(p, sticky), Forward, 0, s)))
  {
    hide Does, Ends, Whole, Emittable, LazyLoopsMove, Finite, Inside;
    var w := Whole(p, sticky);
    WholeFits(t, p, sticky);
    LoopsMoveFinite(t, w, Forward, 0);
    forall f: nat ensures var v := SearchDoes(f, t, p, sticky, s);
      !v.Never? && First(Ends(Code, t, w, Forward, 0, s)) == if v.Fails? then None else Some(v.end)
    {
      DoesList(Running(f), t, w, Forward, 0, s, Won(), true);
    }
    assert !SearchDoes(0, t, p, sticky, s).Never?;
  }

  // Where back references, if any, name groups outside every repetition, one reading decides.
  lemma {:induction false} PlainHangsIff(m: Machine, p: Pattern, sticky: bool, s: Place)
    requires Emittable(p, 1) && CodeAt(m.code, HEADER_LEN, ProgramCode(p, sticky)) && Inside(m.t, s)
    requires Aligned(m.t, s.at) && NamesLasting(p)
    ensures Hangs(m, Run(HEADER_LEN, s, [], [])) <==> SearchDoes(0, m.t, p, sticky, s).Never?
  {
    hide CodeAt, ProgramCode, Does, Hangs, Lasting, Known, Names, Emittable;
    SearchHangsIff(m, p, sticky, s);
    WholeKnown(p, sticky);
    WholeEmittable(p, sticky);
    forall f: nat ensures SearchDoes(f, m.t, p, sticky, s).Never? <==> SearchDoes(0, m.t, p, sticky, s).Never? {
      FuelDoesNotMatter(Lasting(p, 1), f, m.t, Whole(p, sticky), Forward, 0, s);
    }
  }

  lemma WholeKnown(p: Pattern, sticky: bool)
    requires NamesLasting(p)
    ensures Known(Lasting(p, 1), Whole(p, sticky), 0)
  {
    LastingKnown(Lasting(p, 1), p, 1);
    assert Groups(Skip()) == 0;
  }

  // Right or endless.

  ghost predicate Right(m: Machine, p: Pattern, sticky: bool, s: Place)
    requires Inside(m.t, s)
  {
    exists found :: Reaches(m, Run(HEADER_LEN, s, [], []), Done(found)) && EcmaMatch(m.t, p, sticky, s) == EndOf(found)
  }

  lemma {:induction false} ReadIsEcma(t: Text, p: Pattern, sticky: bool, s: Place)
    requires Inside(t, s) && Emittable(p, 1) && NamesLasting(p) && LazyRangesMove(t, p, Forward, 1)
    ensures match SearchDoes(0, t, p, sticky, s)
      case Never => true
      case Fails => EcmaMatch(t, p, sticky, s) == None
      case Wins(q) => EcmaMatch(t, p, sticky, s) == Some(q.at)
  {
    hide Does, Ends, NamesLasting, LazyRangesMove, Emittable, Inside;
    var w := Whole(p, sticky);
    var ends := Ends(Code, t, w, Forward, 0, s);
    WholeEmittable(p, sticky);
    DoesList(Running(0), t, w, Forward, 0, s, Won(), false);
    if sticky {
      GroupAgrees(t, p, s);
    } else {
      WholeIsLeftmost(t, p, s);
      LeftmostAgrees(t, p, s);
    }
  }

  // The compiled search agrees with RepeatMatcher if and only if its reading comes to an end.
  lemma {:induction false} SearchRightIff(m: Machine, p: Pattern, sticky: bool, s: Place)
    requires Emittable(p, 1) && CodeAt(m.code, HEADER_LEN, ProgramCode(p, sticky)) && Inside(m.t, s)
    requires Aligned(m.t, s.at)
    requires NamesLasting(p) && LazyRangesMove(m.t, p, Forward, 1)
    ensures Right(m, p, sticky, s) <==> !SearchDoes(0, m.t, p, sticky, s).Never?
  {
    hide CodeAt, ProgramCode, SearchDoes, Steps, Reaches, Hangs, NamesLasting, LazyRangesMove, EcmaMatch, Inside;
    hide Emittable;
    var u, v := Run(HEADER_LEN, s, [], []), SearchDoes(0, m.t, p, sticky, s);
    if v.Never? {
      PlainHangsIff(m, p, sticky, s);
      if Right(m, p, sticky, s) {
        var found :| Reaches(m, u, Done(found)) && EcmaMatch(m.t, p, sticky, s) == EndOf(found);
        DoneIsNoHang(m, u, Done(found));
      }
    } else {
      SearchComes(0, m, p, sticky, s);
      ReadIsEcma(m.t, p, sticky, s);
      var found := if v.Fails? then None else Some(v.end);
      assert Reaches(m, u, Done(found)) && EcmaMatch(m.t, p, sticky, s) == EndOf(found);
    }
  }

  // A search that is not sticky is the sticky one at each position in turn; one that has no end hides all that follow.
  lemma {:induction false} SearchFromLeft(f: nat, t: Text, p: Pattern, s: Place)
    requires Inside(t, s)
    ensures s.at < |t.units| ==> Inside(t, s.(at := After(t, s.at, |t.units|)))
    ensures SearchDoes(f, t, p, false, s)
         == Or(SearchDoes(f, t, p, true, s), if s.at < |t.units|
            then SearchDoes(f, t, p, false, s.(at := After(t, s.at, |t.units|))) else Fails)
  {
    hide Does, Repeats, Inside, Then, Or;
    var out := Then(Running(f), t, Group(p), Forward, 0, Won());
    SkipDoes(f, t, p, s);
    assert out(s) == SearchDoes(f, t, p, true, s) by { ThenHere(f, t, Group(p), Forward, 0, s, Won()); }
    SkipRepeats(f, t, s, out);
    if s.at < |t.units| {
      NextInside(t, s);
      SkipDoes(f, t, p, s.(at := After(t, s.at, |t.units|)));
    }
  }

  lemma NextInside(t: Text, s: Place)
    requires Inside(t, s) && s.at < |t.units|
    ensures Inside(t, s.(at := After(t, s.at, |t.units|)))
  {
  }

  lemma ThenHere(f: nat, t: Text, p: Pattern, dir: Direction, cc: nat, s: Place, out: Exit)
    requires Inside(t, s)
    ensures Then(Running(f), t, p, dir, cc, out)(s) == Does(Running(f), t, p, dir, cc, s, out)
  {
    hide Does, Inside;
  }

  lemma {:induction false} SkipDoes(f: nat, t: Text, p: Pattern, s: Place)
    requires Inside(t, s)
    ensures SearchDoes(f, t, p, false, s)
      == Repeats(Running(f), t, AnyChar(true), Forward, 0, 0, INF, false, s,
                 Then(Running(f), t, Group(p), Forward, 0, Won()))
  {
    hide Repeats, Then, Inside;
    assert Groups(Skip()) == 0;
    CatDoes(Running(f), t, Whole(p, false), Forward, 0, s, Won());
  }

  lemma {:induction false} SkipRepeats(f: nat, t: Text, s: Place, out: Exit)
    requires Inside(t, s)
    ensures s.at < |t.units| ==> Inside(t, s.(at := After(t, s.at, |t.units|)))
    ensures Repeats(Running(f), t, AnyChar(true), Forward, 0, 0, INF, false, s, out)
         == Or(out(s), if s.at < |t.units|
            then Repeats(Running(f), t, AnyChar(true), Forward, 0, 0, INF, false, s.(at := After(t, s.at, |t.units|)),
                         out) else Fails)
  {
    hide Inside, Next, Or;
    var p := AnyChar(true);
    var next := Next(Running(f), t, p, Forward, 0, 0, INF, false, s, out);
    assert Does(Running(f), t, p, Forward, 0, s, next) == if s.at < |t.units|
        then next(s.(at := After(t, s.at, |t.units|))) else Fails;
    if s.at < |t.units| {
      NextInside(t, s);
      NextCases(Running(f), t, p, Forward, 0, 0, INF, false, s, s.(at := After(t, s.at, |t.units|)), out);
    }
  }

  // One unbounded lazy loop, whose rounds end in a list: it comes to what the first tried place comes to that does
  // not fail; if all fail, it has no end where an empty round lies ahead, and fails elsewhere.
  lemma {:induction false} LoopIsTried(t: Text, p: Pattern, dir: Direction, cc: nat, s: Place, out: Exit)
    requires Inside(t, s) && Emittable(p, cc) && Finite(t, p, dir, cc)
    ensures Repeats(Running(0), t, p, dir, cc, 0, INF, false, s, out)
         == Or(FirstVerdict(out, Tried(t, p, dir, cc, s)), if EmptyAhead(t, p, dir, cc, s) then Never else Fails)
    decreases Distance(t, dir, s), 1, 0
  {
    hide Inside, Ends, Does, Next, Finite, Emittable, TriedFrom, FirstVerdict, Or;
    var ends, next := Ends(Code, t, p, dir, cc, s), Next(Running(0), t, p, dir, cc, 0, INF, false, s, out);
    DoesList(Running(0), t, p, dir, cc, s, next, true);
    RoundsTried(t, p, dir, cc, s, ends, out);
    FirstVerdictAppend(out, [s], TriedFrom(t, p, dir, cc, s, ends));
    OneVerdict(out, s);
    SomeBad(t, p, dir, cc, s);
    OrOr(out(s), FirstVerdict(out, TriedFrom(t, p, dir, cc, s, ends)), if EmptyAhead(t, p, dir, cc, s) then Never
        else Fails);
  }

  lemma OrOr(a: Verdict, b: Verdict, c: Verdict)
    ensures Or(Or(a, b), c) == Or(a, Or(b, c))
  {
  }

  // An end that is empty, or from which an empty round lies ahead.
  ghost predicate BadEnd(t: Text, p: Pattern, dir: Direction, cc: nat, s: Place, q: Place) {
    q.at == s.at || (Inside(t, q) && EmptyAhead(t, p, dir, cc, q))
  }

  ghost predicate AnyBad(t: Text, p: Pattern, dir: Direction, cc: nat, s: Place, ends: seq<Place>) {
    exists k :: 0 <= k < |ends| && BadEnd(t, p, dir, cc, s, ends[k])
  }

  lemma {:induction false} SomeBad(t: Text, p: Pattern, dir: Direction, cc: nat, s: Place)
    requires Inside(t, s)
    ensures EmptyAhead(t, p, dir, cc, s) <==> AnyBad(t, p, dir, cc, s, Ends(Code, t, p, dir, cc, s))
  {
    hide Ends, Inside;
    var ends := Ends(Code, t, p, dir, cc, s);
    if EmptyAhead(t, p, dir, cc, s) {
      var k :| 0 <= k < |ends| && Ahead(t, dir, s, ends[k])
          && (ends[k].at == s.at || EmptyAhead(t, p, dir, cc, ends[k]));
      assert BadEnd(t, p, dir, cc, s, ends[k]);
    }
    if AnyBad(t, p, dir, cc, s, ends) {
      var k :| 0 <= k < |ends| && BadEnd(t, p, dir, cc, s, ends[k]);
      assert Ahead(t, dir, s, ends[k]);
    }
  }

  lemma {:induction false} RoundsTried(t: Text, p: Pattern, dir: Direction, cc: nat, s: Place, ends: seq<Place>,
                                       out: Exit)
    requires Inside(t, s) && Emittable(p, cc) && Finite(t, p, dir, cc) && AllAhead(t, dir, s, ends)
    ensures FirstVerdict(Next(Running(0), t, p, dir, cc, 0, INF, false, s, out), ends)
         == Or(FirstVerdict(out, TriedFrom(t, p, dir, cc, s, ends)), if AnyBad(t, p, dir, cc, s, ends) then Never
            else Fails)
    decreases Distance(t, dir, s), 0, |ends|
  {
    hide Inside, Next, Finite, Emittable, TriedFrom, Tried, EmptyAhead, AllAhead, Repeats, BadEnd, Or, Ahead;
    var next := Next(Running(0), t, p, dir, cc, 0, INF, false, s, out);
    if ends == [] {
      NoneTriedFrom(t, p, dir, cc, s, ends);
      OrFails();
    } else {
      var q, bad := ends[0], BadEnd(t, p, dir, cc, s, ends[0]);
      AheadHead(t, dir, s, ends);
      NextCases(Running(0), t, p, dir, cc, 0, INF, false, s, q, out);
      AheadOnward(t, dir, s, q);
      AnyBadHead(t, p, dir, cc, s, ends);
      BadIs(t, p, dir, cc, s, q);
      if q.at == s.at {
        NoneTriedFrom(t, p, dir, cc, s, ends);
        OrNever(FirstVerdict(next, ends[1..]));
      } else {
        NearerThan(t, dir, s, q);
        LoopIsTried(t, p, dir, cc, q, out);
        RoundsTried(t, p, dir, cc, s, ends[1..], out);
        TriedFromHead(t, p, dir, cc, s, ends);
        if !bad { FirstVerdictAppend(out, Tried(t, p, dir, cc, q), TriedFrom(t, p, dir, cc, s, ends[1..])); }
        OrCases(FirstVerdict(out, Tried(t, p, dir, cc, q)), FirstVerdict(out, TriedFrom(t, p, dir, cc, s, ends[1..])),
                bad, AnyBad(t, p, dir, cc, s, ends[1..]));
      }
    }
  }

  lemma OrFails()
    ensures Or(Fails, Fails) == Fails
  {
  }

  lemma OrNever(v: Verdict)
    ensures Or(Never, v) == Never == Or(Fails, Never)
  {
  }

  lemma OrCases(a: Verdict, b: Verdict, bad: bool, later: bool)
    ensures Or(Or(a, if bad then Never else Fails), Or(b, if later then Never else Fails))
         == Or(if bad then a else Or(a, b), if bad || later then Never else Fails)
  {
  }

  lemma AheadOnward(t: Text, dir: Direction, s: Place, q: Place)
    requires Ahead(t, dir, s, q)
    ensures Onward(t, dir, s, q)
  {
  }

  lemma BadIs(t: Text, p: Pattern, dir: Direction, cc: nat, s: Place, q: Place)
    requires Inside(t, q)
    ensures BadEnd(t, p, dir, cc, s, q) <==> q.at == s.at || EmptyAhead(t, p, dir, cc, q)
  {
    hide EmptyAhead;
  }

  lemma {:induction false} AnyBadHead(t: Text, p: Pattern, dir: Direction, cc: nat, s: Place, ends: seq<Place>)
    requires ends != []
    ensures AnyBad(t, p, dir, cc, s, ends) <==> BadEnd(t, p, dir, cc, s, ends[0]) || AnyBad(t, p, dir, cc, s, ends[1..])
  {
    hide BadEnd;
    if k :| 0 <= k < |ends| && BadEnd(t, p, dir, cc, s, ends[k]) {
      if k > 0 { assert ends[1..][k - 1] == ends[k]; }
    }
    if k :| 0 <= k < |ends[1..]| && BadEnd(t, p, dir, cc, s, ends[1..][k]) { assert ends[k + 1] == ends[1..][k]; }
  }

  lemma NoneTriedFrom(t: Text, p: Pattern, dir: Direction, cc: nat, s: Place, ends: seq<Place>)
    requires Inside(t, s) && AllAhead(t, dir, s, ends) && (ends == [] || ends[0].at == s.at)
    ensures TriedFrom(t, p, dir, cc, s, ends) == []
  {
    hide Tried, EmptyAhead;
  }

  lemma TriedFromHead(t: Text, p: Pattern, dir: Direction, cc: nat, s: Place, ends: seq<Place>)
    requires Inside(t, s) && AllAhead(t, dir, s, ends) && ends != [] && ends[0].at != s.at && Inside(t, ends[0])
    requires AllAhead(t, dir, s, ends[1..])
    ensures TriedFrom(t, p, dir, cc, s, ends)
         == if EmptyAhead(t, p, dir, cc, ends[0]) then Tried(t, p, dir, cc, ends[0])
            else Tried(t, p, dir, cc, ends[0]) + TriedFrom(t, p, dir, cc, s, ends[1..])
  {
    hide Tried, Inside, AllAhead, EmptyAhead;
  }

  // p*?r
  function LazyThen(p: Pattern, r: Pattern): Pattern { Cat(Quant(p, 0, INF, false), r) }

  // r has no end at any place that the loop tries.
  ghost predicate NothingFollows(t: Text, r: Pattern, cc: nat, tried: seq<Place>) {
    forall k :: 0 <= k < |tried| ==> Inside(t, tried[k]) && Ends(Code, t, r, Forward, cc, tried[k]) == []
  }

  lemma {:induction false} FollowFails(t: Text, r: Pattern, cc: nat, q: Place)
    requires Inside(t, q) && Emittable(r, cc) && Finite(t, r, Forward, cc)
    ensures var v := Then(Running(0), t, r, Forward, cc, Closing(1, Won()))(q);
      !v.Never? && (v.Fails? <==> Ends(Code, t, r, Forward, cc, q) == [])
  {
    hide Does, Ends, Inside, Finite, Emittable;
    DoesList(Running(0), t, r, Forward, cc, q, Closing(1, Won()), true);
  }

  lemma {:induction false} NothingIsFails(t: Text, r: Pattern, cc: nat, s: Place, tried: seq<Place>)
    requires Emittable(r, cc) && Finite(t, r, Forward, cc) && AllAhead(t, Forward, s, tried)
    ensures var v := FirstVerdict(Then(Running(0), t, r, Forward, cc, Closing(1, Won())), tried);
      !v.Never? && (v.Fails? <==> NothingFollows(t, r, cc, tried))
    decreases |tried|
  {
    hide Then, Ends, Inside, Finite, Emittable, AllAhead;
    if tried != [] {
      AheadHead(t, Forward, s, tried);
      FollowFails(t, r, cc, tried[0]);
      NothingIsFails(t, r, cc, s, tried[1..]);
      NothingHead(t, r, cc, tried);
    }
  }

  lemma {:induction false} NothingHead(t: Text, r: Pattern, cc: nat, tried: seq<Place>)
    requires tried != [] && Inside(t, tried[0])
    ensures NothingFollows(t, r, cc, tried) <==>
      Ends(Code, t, r, Forward, cc, tried[0]) == [] && NothingFollows(t, r, cc, tried[1..])
  {
    hide Ends, Inside;
    assert forall k :: 0 <= k < |tried[1..]| ==> tried[1..][k] == tried[k + 1];
    assert forall k :: 0 < k < |tried| ==> tried[k] == tried[1..][k - 1];
  }

  // Group 0 opened, and the groups of the loop forgotten.
  function Entered(p: Pattern, s: Place): Place { Reset(Mark(s, 0), 1, Groups(p)) }

  lemma {:induction false} LazyThenDoes(f: nat, t: Text, p: Pattern, r: Pattern, s: Place)
    requires Inside(t, s)
    ensures Inside(t, Entered(p, s))
    ensures SearchDoes(f, t, LazyThen(p, r), true, s)
         == Repeats(Running(f), t, p, Forward, 1, 0, INF, false, Entered(p, s),
                    Then(Running(f), t, r, Forward, 1 + Groups(p), Closing(1, Won())))
  {
    hide Inside, Mark, Repeats, Then, Reset, Closing, Does;
    var w, out := LazyThen(p, r), Closing(1, Won());
    MarkInside(t, s, 0);
    ResetInside(t, Mark(s, 0), 1, Groups(p));
    assert SearchDoes(f, t, w, true, s) == Does(Running(f), t, w, Forward, 1, Mark(s, 0), out) by {
      GroupDoes(f, t, w, s);
    }
    CatDoes(Running(f), t, w, Forward, 1, Mark(s, 0), out);
    StarDoes(f, t, p, 1, Mark(s, 0), Then(Running(f), t, r, Forward, 1 + Groups(p), out));
  }

  lemma GroupDoes(f: nat, t: Text, w: Pattern, s: Place)
    requires Inside(t, s) && Inside(t, Mark(s, 0))
    ensures SearchDoes(f, t, w, true, s) == Does(Running(f), t, w, Forward, 1, Mark(s, 0), Closing(1, Won()))
  {
    hide Inside, Mark, Repeats, Then, Closing;
    assert Whole(w, true) == Group(w);
  }

  lemma StarDoes(f: nat, t: Text, p: Pattern, cc: nat, s: Place, out: Exit)
    requires Inside(t, s) && Inside(t, Reset(s, cc, Groups(p)))
    ensures Does(Running(f), t, Quant(p, 0, INF, false), Forward, cc, s, out)
      == Repeats(Running(f), t, p, Forward, cc, 0, INF, false, Reset(s, cc, Groups(p)), out)
  {
    hide Inside, Forget, Repeats;
  }

  // The sticky program for p*?r runs forever if and only if an empty round lies ahead and r follows at no place
  // that the loop tries.
  lemma {:induction false} LazyThenHangsIff(m: Machine, p: Pattern, r: Pattern, s: Place)
    requires Emittable(LazyThen(p, r), 1) && NamesLasting(LazyThen(p, r))
    requires Finite(m.t, p, Forward, 1) && Finite(m.t, r, Forward, 1 + Groups(p))
    requires Inside(m.t, s) && Aligned(m.t, s.at) && CodeAt(m.code, HEADER_LEN, ProgramCode(LazyThen(p, r), true))
    ensures Inside(m.t, Entered(p, s))
    ensures Hangs(m, Run(HEADER_LEN, s, [], [])) <==>
      EmptyAhead(m.t, p, Forward, 1, Entered(p, s))
      && NothingFollows(m.t, r, 1 + Groups(p), Tried(m.t, p, Forward, 1, Entered(p, s)))
  {
    hide CodeAt, ProgramCode, Hangs, Inside, Aligned, SearchDoes, EmptyAhead, Tried, Finite, Entered, NothingFollows;
    hide NamesLasting;
    PlainHangsIff(m, LazyThen(p, r), true, s);
    LazyThenReads(m.t, p, r, s);
  }

  lemma {:induction false} LazyThenReads(t: Text, p: Pattern, r: Pattern, s: Place)
    requires Emittable(LazyThen(p, r), 1) && Inside(t, s) && Finite(t, p, Forward, 1)
    requires Finite(t, r, Forward, 1 + Groups(p))
    ensures Inside(t, Entered(p, s))
    ensures SearchDoes(0, t, LazyThen(p, r), true, s).Never? <==>
      EmptyAhead(t, p, Forward, 1, Entered(p, s))
      && NothingFollows(t, r, 1 + Groups(p), Tried(t, p, Forward, 1, Entered(p, s)))
  {
    hide Inside, SearchDoes, EmptyAhead, Tried, Finite, Then, Entered, FirstVerdict, NothingFollows, Repeats;
    var q, cc := Entered(p, s), 1 + Groups(p);
    LazyThenDoes(0, t, p, r, s);
    var out, tried := Then(Running(0), t, r, Forward, cc, Closing(1, Won())), Tried(t, p, Forward, 1, q);
    LoopIsTried(t, p, Forward, 1, q, out);
    NothingIsFails(t, r, cc, q, tried);
  }
}
