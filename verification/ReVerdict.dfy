// Patterns read as what comes of them: a match, a failure, or a run without end. The code's reading and
// RepeatMatcher's are two of one kind (libregexp.c:1524-1540).
module ReVerdict {
  import opened ReText
  import opened RePattern
  import opened ReGen
  import opened ReLoops
  import opened ReCorrect
  import opened ReRules
  import opened ReChoice

  datatype Verdict = Never | Fails | Wins(end: Place)

  // What comes of going on from a place.
  type Exit = Place -> Verdict

  // The first, and on failure the second.
  function Or(a: Verdict, b: Verdict): Verdict { if a.Fails? then b else a }

  predicate Onward(t: Text, dir: Direction, s: Place, q: Place) {
    Inside(t, q) && if dir.Forward? then s.at <= q.at else q.at <= s.at
  }

  // Three readings: of the code as it runs, giving up a loop that has gone round in f + 1 empty rounds; of the
  // code by its list of ends, which drops the empty rounds of an unbounded lazy loop; and of RepeatMatcher.
  datatype Reading = Running(f: nat) | Listed | Standard

  function RulesOf(how: Reading): Rules { if how.Standard? then Ecma else Code }
  function Fuel(how: Reading): nat { if how.Running? then how.f else 0 }

  // Where a repetition begins, and each of its rounds.
  function FirstFrom(how: Reading, cc: nat, n: nat, min: nat, s: Place): Place {
    if !how.Standard? && min == 0 && n > 0 then Forget(s, cc, n) else s
  }

  function RoundFrom(how: Reading, cc: nat, n: nat, s: Place): Place { if how.Standard? then Forget(s, cc, n) else s }

  // What comes of p from s when what follows p comes to out.
  function Does(how: Reading, t: Text, p: Pattern, dir: Direction, cc: nat, s: Place, out: Exit): Verdict
    requires Inside(t, s)
    decreases p, 0, 0, 0, 0
  {
    ForgetInside(t, s, cc, Groups(p));
    match p
    case Empty => out(s)
    case Test(e) => if AtEdge(t, e, s.at) then out(s) else Fails
    case Reference(k) => var q := Referenced(t, dir, k, s); if q.None? then Fails else out(q.value)
    case Group(b) => Does(how, t, b, dir, cc + 1, Mark(s, OpenSlot(dir, cc)), Closing(CloseSlot(dir, cc), out))
    case Look(negative, behind, b) =>
      (match Does(how, t, b, if behind then Backward else Forward, cc, s, Won())
       case Never => Never
       case Fails => if negative then out(s) else Fails
       case Wins(q) => if negative then Fails else out(s.(caps := q.caps)))
    case Cat(a, b) =>
      if dir.Forward? then Does(how, t, a, dir, cc, s, Then(how, t, b, dir, cc + Groups(a), out))
      else Does(how, t, b, dir, cc + Groups(a), s, Then(how, t, a, dir, cc, out))
    case Alt(a, b) => Or(Does(how, t, a, dir, cc, s, out), Does(how, t, b, dir, cc + Groups(a), s, out))
    case Quant(b, min, max, greedy) =>
      Repeats(how, t, b, dir, cc, min, max, greedy, FirstFrom(how, cc, Groups(b), min, s), out)
    case _ => var ends := OneEnd(t, p, dir, s); if ends == [] then Fails else out(ends[0])
  }

  function Closing(slot: nat, out: Exit): Exit { (q: Place) => out(Mark(q, slot)) }

  function Won(): Exit { (q: Place) => Wins(q) }

  function Then(how: Reading, t: Text, p: Pattern, dir: Direction, cc: nat, out: Exit): Exit
    decreases p, 0, 0, 0, 1
  {
    (q: Place) => if Inside(t, q) then Does(how, t, p, dir, cc, q, out) else Fails
  }

  function Repeats(how: Reading, t: Text, p: Pattern, dir: Direction, cc: nat, min: nat, max: nat, greedy: bool,
                   s: Place, out: Exit): Verdict
    requires Inside(t, s)
    decreases p, Distance(t, dir, s) + 1, Rounds(min, max), Fuel(how), 1
  {
    if max == 0 then out(s)
    else
      ForgetInside(t, s, cc, Groups(p));
      var more := Does(how, t, p, dir, cc, RoundFrom(how, cc, Groups(p), s),
                       Next(how, t, p, dir, cc, min, max, greedy, s, out));
      if min > 0 then more else if greedy then Or(more, out(s)) else Or(out(s), more)
  }

  // After one round from s. An empty round that is not mandatory fails when the quantifier is greedy, is counted
  // in the code when it is lazy and bounded, and leads back to the loop when it is lazy and unbounded; in
  // RepeatMatcher it fails.
  function Next(how: Reading, t: Text, p: Pattern, dir: Direction, cc: nat, min: nat, max: nat, greedy: bool, s: Place,
                out: Exit): Exit
    requires Inside(t, s) && max > 0
    decreases p, Distance(t, dir, s) + 1, Rounds(min, max), Fuel(how), 0
  {
    (q: Place) =>
      if !Onward(t, dir, s, q) then Fails
      else if min > 0 then Repeats(how, t, p, dir, cc, min - 1, Less(max), greedy, q, out)
      else if q.at != s.at then Repeats(how, t, p, dir, cc, 0, Less(max), greedy, q, out)
      else if greedy || how.Standard? then Fails
      else if max != INF then Repeats(how, t, p, dir, cc, 0, max - 1, greedy, q, out)
      else if how.Listed? then Fails
      else if how.f > 0 then Repeats(Running(how.f - 1), t, p, dir, cc, 0, max, greedy, q, out)
      else Never
  }

  // Against the list of ends.

  function FirstVerdict(out: Exit, ends: seq<Place>): Verdict {
    if ends == [] then Fails else Or(out(ends[0]), FirstVerdict(out, ends[1..]))
  }

  lemma {:induction false} FirstVerdictAppend(out: Exit, a: seq<Place>, b: seq<Place>)
    ensures FirstVerdict(out, a + b) == Or(FirstVerdict(out, a), FirstVerdict(out, b))
  {
    if a == [] {
      assert a + b == b;
    } else {
      assert (a + b)[1..] == a[1..] + b;
      FirstVerdictAppend(out, a[1..], b);
    }
  }

  // The same, or, unless it must be exact, an endless run in its place.
  predicate Near(exact: bool, u: Verdict, v: Verdict) { u == v || (!exact && u.Never?) }

  lemma NearOr(exact: bool, u: Verdict, u2: Verdict, v: Verdict, v2: Verdict)
    requires Near(exact, u, u2) && Near(exact, v, v2)
    ensures Near(exact, Or(u, v), Or(u2, v2))
  {
  }

  // No unbounded lazy loop that is run at all repeats an atom that can be empty.
  ghost predicate Finite(t: Text, p: Pattern, dir: Direction, cc: nat) {
    match p
    case Group(b) => Finite(t, b, dir, cc + 1)
    case Look(_, behind, b) => Finite(t, b, if behind then Backward else Forward, cc)
    case Cat(a, b) => Finite(t, a, dir, cc) && Finite(t, b, dir, cc + Groups(a))
    case Alt(a, b) => Finite(t, a, dir, cc) && Finite(t, b, dir, cc + Groups(a))
    case Quant(b, min, max, greedy) =>
      max == 0 || (Finite(t, b, dir, cc) && (!greedy && max == INF ==> AlwaysMoves(t, b, dir, cc)))
    case _ => true
  }

  // The reading is of lists, or the run is sure to have one, or one is asked for only when it ends.
  ghost predicate Listable(how: Reading, exact: bool, t: Text, p: Pattern, dir: Direction, cc: nat) {
    how.Running? ==> if exact then Finite(t, p, dir, cc) else how.f == 0
  }

  ghost predicate LoopListable(how: Reading, exact: bool, t: Text, p: Pattern, dir: Direction, cc: nat, max: nat,
                               greedy: bool) {
    how.Running? ==> if exact then max > 0 ==>
        Finite(t, p, dir, cc) && (!greedy && max == INF ==> AlwaysMoves(t, p, dir, cc)) else how.f == 0
  }

  lemma {:induction false} LoopsMoveFinite(t: Text, p: Pattern, dir: Direction, cc: nat)
    requires LazyLoopsMove(t, p, dir, cc)
    ensures Finite(t, p, dir, cc)
  {
    hide AlwaysMoves;
    match p
    case Group(b) => LoopsMoveFinite(t, b, dir, cc + 1);
    case Look(_, behind, b) => LoopsMoveFinite(t, b, if behind then Backward else Forward, cc);
    case Cat(a, b) => LoopsMoveFinite(t, a, dir, cc); LoopsMoveFinite(t, b, dir, cc + Groups(a));
    case Alt(a, b) => LoopsMoveFinite(t, a, dir, cc); LoopsMoveFinite(t, b, dir, cc + Groups(a));
    case Quant(b, _, _, _) => LoopsMoveFinite(t, b, dir, cc);
    case _ =>
  }

  // p comes to what the first of its ends comes to, or, where an unbounded lazy loop has empty rounds, to nothing.
  lemma {:induction false} DoesList(how: Reading, t: Text, p: Pattern, dir: Direction, cc: nat, s: Place, out: Exit,
                                    exact: bool)
    requires Inside(t, s) && Emittable(p, cc) && Listable(how, exact, t, p, dir, cc)
    ensures Near(exact, Does(how, t, p, dir, cc, s, out), FirstVerdict(out, Ends(RulesOf(how), t, p, dir, cc, s)))
    decreases p, 0, 0, 1, 0
  {
    hide Inside, Ends, Does, Finite, FirstVerdict, Near, Emittable;
    if p.Group? {
      GroupList(how, t, p, dir, cc, s, out, exact);
    } else if p.Look? {
      LookList(how, t, p, dir, cc, s, out, exact);
    } else if p.Cat? {
      CatList(how, t, p, dir, cc, s, out, exact);
    } else if p.Alt? {
      AltList(how, t, p, dir, cc, s, out, exact);
    } else if p.Quant? {
      QuantList(how, t, p, dir, cc, s, out, exact);
    } else {
      LeafList(how, t, p, dir, cc, s, out, exact);
    }
  }

  lemma {:induction false} LeafList(how: Reading, t: Text, p: Pattern, dir: Direction, cc: nat, s: Place, out: Exit,
                                    exact: bool)
    requires Inside(t, s) && (p.Empty? || p.Test? || p.Reference? || OneChar(p))
    ensures Near(exact, Does(how, t, p, dir, cc, s, out), FirstVerdict(out, Ends(RulesOf(how), t, p, dir, cc, s)))
  {
    hide Accepts, AtEdge, Repeats, Then, Ahead;
    var ends := Ends(RulesOf(how), t, p, dir, cc, s);
    if OneChar(p) {
      assert ends == OneEnd(t, p, dir, s);
      assert ends != [] ==> ends[1..] == [];
    } else {
      assert ends != [] ==> ends[1..] == [];
    }
  }

  lemma {:induction false} GroupList(how: Reading, t: Text, p: Pattern, dir: Direction, cc: nat, s: Place, out: Exit,
                                     exact: bool)
    requires Inside(t, s) && Emittable(p, cc) && Listable(how, exact, t, p, dir, cc) && p.Group?
    ensures Near(exact, Does(how, t, p, dir, cc, s, out), FirstVerdict(out, Ends(RulesOf(how), t, p, dir, cc, s)))
    decreases p, 0, 0, 0, 0
  {
    hide Inside, Mark, Repeat, Repeats, Then, EndsFrom, MarkAll, FirstVerdict, Near;
    var o := OpenSlot(dir, cc);
    MarkInside(t, s, o);
    var ends := Ends(RulesOf(how), t, p.body, dir, cc + 1, Mark(s, o));
    DoesList(how, t, p.body, dir, cc + 1, Mark(s, o), Closing(CloseSlot(dir, cc), out), exact);
    ClosedFirst(out, CloseSlot(dir, cc), ends);
  }

  lemma {:induction false} ClosedFirst(out: Exit, slot: nat, ends: seq<Place>)
    ensures FirstVerdict(Closing(slot, out), ends) == FirstVerdict(out, MarkAll(ends, slot))
  {
    if ends != [] {
      assert MarkAll(ends, slot)[1..] == MarkAll(ends[1..], slot);
      ClosedFirst(out, slot, ends[1..]);
    }
  }

  lemma {:induction false} LookList(how: Reading, t: Text, p: Pattern, dir: Direction, cc: nat, s: Place, out: Exit,
                                    exact: bool)
    requires Inside(t, s) && Emittable(p, cc) && Listable(how, exact, t, p, dir, cc) && p.Look?
    ensures Near(exact, Does(how, t, p, dir, cc, s, out), FirstVerdict(out, Ends(RulesOf(how), t, p, dir, cc, s)))
    decreases p, 0, 0, 0, 0
  {
    hide Inside, Repeat, Repeats, Then, EndsFrom;
    var d := if p.behind then Backward else Forward;
    var won := Won();
    DoesList(how, t, p.body, d, cc, s, won, exact);
    var inner := Ends(RulesOf(how), t, p.body, d, cc, s);
    var ends := Ends(RulesOf(how), t, p, dir, cc, s);
    assert FirstVerdict(won, inner) == if inner == [] then Fails else Wins(inner[0]);
    assert ends == [] || ends[1..] == [];
  }

  lemma {:induction false} CatList(how: Reading, t: Text, p: Pattern, dir: Direction, cc: nat, s: Place, out: Exit,
                                   exact: bool)
    requires Inside(t, s) && Emittable(p, cc) && Listable(how, exact, t, p, dir, cc) && p.Cat?
    ensures Near(exact, Does(how, t, p, dir, cc, s, out), FirstVerdict(out, Ends(RulesOf(how), t, p, dir, cc, s)))
    decreases p, 0, 0, 0, 0
  {
    hide Inside, Repeat, Repeats, Then, EndsFrom, Ends, FirstVerdict, Near, Does, Emittable, Finite;
    var a, b := FirstHalf(p, dir, cc), SecondHalf(p, dir, cc);
    CatDoes(how, t, p, dir, cc, s, out);
    HalvesFit(t, p, dir, cc);
    CatEnds(RulesOf(how), t, p, dir, cc, s);
    var starts := Ends(RulesOf(how), t, a.p, dir, a.cc, s);
    DoesList(how, t, a.p, dir, a.cc, s, Then(how, t, b.p, dir, b.cc, out), exact);
    FromList(how, t, b.p, dir, b.cc, s, starts, out, exact);
    NearTrans(exact, Does(how, t, p, dir, cc, s, out), FirstVerdict(Then(how, t, b.p, dir, b.cc, out), starts),
              FirstVerdict(out, Ends(RulesOf(how), t, p, dir, cc, s)));
  }

  lemma CatDoes(how: Reading, t: Text, p: Pattern, dir: Direction, cc: nat, s: Place, out: Exit)
    requires Inside(t, s) && p.Cat?
    ensures var a, b := FirstHalf(p, dir, cc), SecondHalf(p, dir, cc);
      Does(how, t, p, dir, cc, s, out) == Does(how, t, a.p, dir, a.cc, s, Then(how, t, b.p, dir, b.cc, out))
  {
    hide Inside, Then, Repeats, OneEnd, Referenced, AtEdge;
  }

  lemma HalvesFit(t: Text, p: Pattern, dir: Direction, cc: nat)
    requires p.Cat?
    ensures var a, b := FirstHalf(p, dir, cc), SecondHalf(p, dir, cc);
      (Emittable(p, cc) ==> Emittable(a.p, a.cc) && Emittable(b.p, b.cc))
          && (Finite(t, p, dir, cc) ==> Finite(t, a.p, dir, a.cc) && Finite(t, b.p, dir, b.cc))
  {
  }

  lemma NearTrans(exact: bool, u: Verdict, v: Verdict, w: Verdict)
    requires Near(exact, u, v) && Near(exact, v, w)
    ensures Near(exact, u, w)
  {
  }

  lemma {:induction false} FromList(how: Reading, t: Text, p: Pattern, dir: Direction, cc: nat, s: Place,
                                    starts: seq<Place>, out: Exit, exact: bool)
    requires Inside(t, s) && Emittable(p, cc) && Listable(how, exact, t, p, dir, cc) && AllAhead(t, dir, s, starts)
    ensures Near(exact, FirstVerdict(Then(how, t, p, dir, cc, out), starts),
                 FirstVerdict(out, EndsFrom(RulesOf(how), t, p, dir, cc, s, starts)))
    decreases p, 0, 0, 2, |starts|
  {
    hide Inside, Ends, Does, Finite, Emittable, Near, AllAhead, Ahead, Repeat, Or;
    if starts != [] {
      AheadHead(t, dir, s, starts);
      DoesList(how, t, p, dir, cc, starts[0], out, exact);
      FromList(how, t, p, dir, cc, s, starts[1..], out, exact);
      var now, rest := Ends(RulesOf(how), t, p, dir, cc, starts[0]),
                       EndsFrom(RulesOf(how), t, p, dir, cc, s, starts[1..]);
      FirstVerdictAppend(out, now, rest);
      NearOr(exact, Does(how, t, p, dir, cc, starts[0], out), FirstVerdict(out, now),
             FirstVerdict(Then(how, t, p, dir, cc, out), starts[1..]), FirstVerdict(out, rest));
    } else {
      NearSame(exact, Fails);
    }
  }

  lemma NearSame(exact: bool, v: Verdict)
    ensures Near(exact, v, v)
  {
  }

  lemma {:induction false} AltList(how: Reading, t: Text, p: Pattern, dir: Direction, cc: nat, s: Place, out: Exit,
                                   exact: bool)
    requires Inside(t, s) && Emittable(p, cc) && Listable(how, exact, t, p, dir, cc) && p.Alt?
    ensures Near(exact, Does(how, t, p, dir, cc, s, out), FirstVerdict(out, Ends(RulesOf(how), t, p, dir, cc, s)))
    decreases p, 0, 0, 0, 0
  {
    hide Inside, Repeat, Repeats, Then, EndsFrom, FirstVerdict, Near, Or, Ends;
    InsideAt(t, s);
    var cb := cc + Groups(p.left);
    DoesList(how, t, p.left, dir, cc, s, out, exact);
    DoesList(how, t, p.right, dir, cb, s, out, exact);
    var a, b := Ends(RulesOf(how), t, p.left, dir, cc, s), Ends(RulesOf(how), t, p.right, dir, cb, s);
    AltEnds(RulesOf(how), t, p, dir, cc, s);
    FirstVerdictAppend(out, a, b);
    NearOr(exact, Does(how, t, p.left, dir, cc, s, out), FirstVerdict(out, a), Does(how, t, p.right, dir, cb, s, out),
           FirstVerdict(out, b));
  }

  lemma {:induction false} QuantList(how: Reading, t: Text, p: Pattern, dir: Direction, cc: nat, s: Place, out: Exit,
                                     exact: bool)
    requires Inside(t, s) && Emittable(p, cc) && Listable(how, exact, t, p, dir, cc) && p.Quant?
    ensures Near(exact, Does(how, t, p, dir, cc, s, out), FirstVerdict(out, Ends(RulesOf(how), t, p, dir, cc, s)))
    decreases p, 0, 0, 0, 0
  {
    hide Inside, Repeat, Repeats, Then, EndsFrom, FirstVerdict, Near, AlwaysMoves, Forget, Ends;
    var q := FirstFrom(how, cc, Groups(p.body), p.min, s);
    ForgetInside(t, s, cc, Groups(p.body));
    RepeatsList(how, t, p.body, dir, cc, p.min, p.max, p.greedy, q, out, exact);
    assert Ends(RulesOf(how), t, p, dir, cc, s)
        == Repeat(RulesOf(how), t, p.body, dir, cc, p.min, p.max, p.greedy, q) by {
      QuantEndsIs(how, t, p, dir, cc, s, q);
    }
  }

  lemma QuantEndsIs(how: Reading, t: Text, p: Pattern, dir: Direction, cc: nat, s: Place, q: Place)
    requires p.Quant? && Inside(t, s) && Inside(t, q) && q == FirstFrom(how, cc, Groups(p.body), p.min, s)
    ensures Ends(RulesOf(how), t, p, dir, cc, s) == Repeat(RulesOf(how), t, p.body, dir, cc, p.min, p.max, p.greedy, q)
  {
    hide Repeat, Forget, Inside;
  }

  lemma {:induction false} RepeatsList(how: Reading, t: Text, p: Pattern, dir: Direction, cc: nat, min: nat, max: nat,
                                       greedy: bool, s: Place, out: Exit, exact: bool)
    requires Inside(t, s) && Emittable(p, cc) && max <= INF
    requires LoopListable(how, exact, t, p, dir, cc, max, greedy)
    ensures Near(exact, Repeats(how, t, p, dir, cc, min, max, greedy, s, out),
                 FirstVerdict(out, Repeat(RulesOf(how), t, p, dir, cc, min, max, greedy, s)))
    decreases p, Distance(t, dir, s) + 1, Rounds(min, max), 3, 0
  {
    hide Repeats, Inside, Finite, Emittable, AlwaysMoves, RepeatFrom, Repeat, RoundVerdict, Near, Rounded, Or;
    hide LoopListable, FirstVerdict;
    OneVerdict(out, s);
    RepeatsIs(how, t, p, dir, cc, min, max, greedy, s, out);
    if max == 0 {
      assert Repeat(RulesOf(how), t, p, dir, cc, min, 0, greedy, s) == [s] by {
        ZeroRounds(RulesOf(how), t, p, dir, cc, min, greedy, s);
      }
      NearSame(exact, out(s));
    } else {
      var kept := Rounded(RulesOf(how), t, p, dir, cc, min, max, greedy, s);
      var more := RepeatFrom(RulesOf(how), t, p, dir, cc, min, max, greedy, s, kept);
      var w := RoundVerdict(how, t, p, dir, cc, min, max, greedy, s, out);
      RoundList(how, t, p, dir, cc, min, max, greedy, s, out, exact);
      RepeatIsRounded(RulesOf(how), t, p, dir, cc, min, max, greedy, s);
      FirstVerdictAppend(out, [s], more);
      FirstVerdictAppend(out, more, [s]);
      NearSame(exact, out(s));
      NearOr(exact, out(s), out(s), w, FirstVerdict(out, more));
      NearOr(exact, w, FirstVerdict(out, more), out(s), out(s));
    }
  }

  lemma ZeroRounds(rules: Rules, t: Text, p: Pattern, dir: Direction, cc: nat, min: nat, greedy: bool, s: Place)
    requires Inside(t, s)
    ensures Repeat(rules, t, p, dir, cc, min, 0, greedy, s) == [s]
  {
  }

  // What comes of one round and what follows it.
  function RoundVerdict(how: Reading, t: Text, p: Pattern, dir: Direction, cc: nat, min: nat, max: nat, greedy: bool,
                        s: Place, out: Exit): Verdict
    requires Inside(t, s) && max > 0
  {
    ForgetInside(t, s, cc, Groups(p));
    Does(how, t, p, dir, cc, RoundFrom(how, cc, Groups(p), s), Next(how, t, p, dir, cc, min, max, greedy, s, out))
  }

  lemma RepeatsIs(how: Reading, t: Text, p: Pattern, dir: Direction, cc: nat, min: nat, max: nat, greedy: bool,
                  s: Place, out: Exit)
    requires Inside(t, s)
    ensures Repeats(how, t, p, dir, cc, min, max, greedy, s, out)
         == if max == 0 then out(s)
            else var w := RoundVerdict(how, t, p, dir, cc, min, max, greedy, s, out);
              if min > 0 then w else if greedy then Or(w, out(s)) else Or(out(s), w)
  {
    hide Does, Next, Inside;
  }

  lemma {:induction false} RoundList(how: Reading, t: Text, p: Pattern, dir: Direction, cc: nat, min: nat, max: nat,
                                     greedy: bool, s: Place, out: Exit, exact: bool)
    requires Inside(t, s) && Emittable(p, cc) && 0 < max <= INF && LoopListable(how, exact, t, p, dir, cc, max, greedy)
    ensures Near(exact, RoundVerdict(how, t, p, dir, cc, min, max, greedy, s, out),
                 FirstVerdict(out, RepeatFrom(RulesOf(how), t, p, dir, cc, min, max, greedy, s,
                                              Rounded(RulesOf(how), t, p, dir, cc, min, max, greedy, s))))
    decreases p, Distance(t, dir, s) + 1, Rounds(min, max), 2, 0
  {
    hide Inside, Finite, Emittable, AlwaysMoves, RepeatFrom, Next, Ends, Does, Near, Rounded, FirstVerdict, Kept;
    hide AllAhead, AllMove;
    var from, next := RoundFrom(how, cc, Groups(p), s), Next(how, t, p, dir, cc, min, max, greedy, s, out);
    ForgetInside(t, s, cc, Groups(p));
    var ends := Ends(RulesOf(how), t, p, dir, cc, from);
    AheadSame(t, dir, from, s, ends);
    RoundedReads(how, t, p, dir, cc, min, max, greedy, s);
    if how.Running? && exact && !greedy && max == INF { MovesHere(t, p, dir, cc, s); }
    DoesList(how, t, p, dir, cc, from, next, exact);
    RoundsList(how, t, p, dir, cc, min, max, greedy, s, ends, out, exact);
    var more := RepeatFrom(RulesOf(how), t, p, dir, cc, min, max, greedy, s,
                           Rounded(RulesOf(how), t, p, dir, cc, min, max, greedy, s));
    NearTrans(exact, Does(how, t, p, dir, cc, from, next), FirstVerdict(next, ends), FirstVerdict(out, more));
  }

  lemma OneVerdict(out: Exit, s: Place)
    ensures FirstVerdict(out, [s]) == out(s)
  {
    assert [s][1..] == [];
  }

  lemma RoundedReads(how: Reading, t: Text, p: Pattern, dir: Direction, cc: nat, min: nat, max: nat, greedy: bool,
                     s: Place)
    requires Inside(t, s)
    ensures Inside(t, RoundFrom(how, cc, Groups(p), s))
    ensures Rounded(RulesOf(how), t, p, dir, cc, min, max, greedy, s)
         == Kept(MustMove(RulesOf(how), min, max, greedy), s,
                 Ends(RulesOf(how), t, p, dir, cc, RoundFrom(how, cc, Groups(p), s)))
  {
    hide Ends, Kept, Inside, Forget;
    ForgetInside(t, s, cc, Groups(p));
  }

  lemma MovesHere(t: Text, p: Pattern, dir: Direction, cc: nat, s: Place)
    requires Inside(t, s) && AlwaysMoves(t, p, dir, cc)
    ensures AllMove(s, Ends(Code, t, p, dir, cc, s))
  {
    hide Ends, Inside;
    assert Moves(t, p, dir, cc, s);
  }

  lemma {:induction false} RoundsList(how: Reading, t: Text, p: Pattern, dir: Direction, cc: nat, min: nat, max: nat,
                                      greedy: bool, s: Place, ends: seq<Place>, out: Exit, exact: bool)
    requires Inside(t, s) && Emittable(p, cc) && 0 < max <= INF && AllAhead(t, dir, s, ends)
    requires LoopListable(how, exact, t, p, dir, cc, max, greedy)
    requires (how.Running? && exact && !greedy && max == INF ==> AllMove(s, ends))
    ensures var must := MustMove(RulesOf(how), min, max, greedy);
      AllAhead(t, dir, s, Kept(must, s, ends))
      && Near(exact, FirstVerdict(Next(how, t, p, dir, cc, min, max, greedy, s, out), ends),
              FirstVerdict(out, RepeatFrom(RulesOf(how), t, p, dir, cc, min, max, greedy, s, Kept(must, s, ends))))
    decreases p, Distance(t, dir, s) + 1, Rounds(min, max), 1, |ends|
  {
    hide Inside, Finite, Emittable, AlwaysMoves, Repeat, RepeatFrom, Next, Ends, Does, Near, AllAhead, Ahead, Or;
    hide Repeats, AllMove, Kept, LoopListable, MustMove;
    InsideAt(t, s);
    var must := MustMove(RulesOf(how), min, max, greedy);
    KeptRounds(t, dir, s, must, ends);
    var next := Next(how, t, p, dir, cc, min, max, greedy, s, out);
    if ends == [] {
      assert Kept(must, s, ends) == [] by { NoneKept(must, s); }
      RepeatFromNone(RulesOf(how), t, p, dir, cc, min, max, greedy, s);
      NearSame(exact, Fails);
    } else {
      var q, rest := ends[0], Kept(must, s, ends[1..]);
      AheadHead(t, dir, s, ends);
      if how.Running? && exact && !greedy && max == INF { MoveTail(s, ends); }
      RoundsList(how, t, p, dir, cc, min, max, greedy, s, ends[1..], out, exact);
      NextReads(how, exact, t, p, dir, cc, min, max, greedy, s, q, out);
      KeptHead(must, s, ends);
      if must && q.at == s.at {
        NearLeave(exact, next(q), FirstVerdict(next, ends[1..]),
                  FirstVerdict(out, RepeatFrom(RulesOf(how), t, p, dir, cc, min, max, greedy, s, rest)));
      } else {
        var kept, min2 := Kept(must, s, ends), if min > 0 then min - 1 else 0;
        RoundNearer(RulesOf(how), t, dir, min, max, greedy, s, q);
        ListableLess(how, exact, t, p, dir, cc, max, greedy);
        RepeatsList(how, t, p, dir, cc, min2, Less(max), greedy, q, out, exact);
        RoundMore(RulesOf(how), t, p, dir, cc, min, max, greedy, s, kept, out, exact, next(q),
                  FirstVerdict(next, ends[1..]));
      }
    }
  }

  lemma {:induction false} RoundMore(rules: Rules, t: Text, p: Pattern, dir: Direction, cc: nat, min: nat, max: nat,
                                     greedy: bool, s: Place, starts: seq<Place>, out: Exit,
                                     exact: bool, u: Verdict, v: Verdict)
    requires Inside(t, s) && max > 0 && AllAhead(t, dir, s, starts) && starts != []
    requires (MustMove(rules, min, max, greedy) ==> AllMove(s, starts))
    requires Inside(t, starts[0]) && AllAhead(t, dir, s, starts[1..])
    requires Near(exact, u, FirstVerdict(out, Repeat(rules, t, p, dir, cc, if min > 0 then min - 1
      else 0, Less(max), greedy, starts[0])))
    requires Near(exact, v, FirstVerdict(out, RepeatFrom(rules, t, p, dir, cc, min, max, greedy, s, starts[1..])))
    ensures Near(exact, Or(u, v), FirstVerdict(out, RepeatFrom(rules, t, p, dir, cc, min, max, greedy, s, starts)))
  {
    hide Inside, Repeat, RepeatFrom, Or, AllAhead, Near, FirstVerdict;
    RoundsVerdict(rules, t, p, dir, cc, min, max, greedy, s, starts, out);
    NearOr(exact, u, FirstVerdict(out, Repeat(rules, t, p, dir, cc, if min > 0 then min - 1
        else 0, Less(max), greedy, starts[0])),
           v, FirstVerdict(out, RepeatFrom(rules, t, p, dir, cc, min, max, greedy, s, starts[1..])));
  }

  lemma {:induction false} RoundsVerdict(rules: Rules, t: Text, p: Pattern, dir: Direction, cc: nat, min: nat, max: nat,
                                         greedy: bool, s: Place, starts: seq<Place>, out: Exit)
    requires Inside(t, s) && max > 0 && AllAhead(t, dir, s, starts) && starts != []
    requires (MustMove(rules, min, max, greedy) ==> AllMove(s, starts))
    ensures Inside(t, starts[0]) && AllAhead(t, dir, s, starts[1..])
    ensures FirstVerdict(out, RepeatFrom(rules, t, p, dir, cc, min, max, greedy, s, starts))
         == Or(FirstVerdict(out,
                            Repeat(rules, t, p, dir, cc, if min > 0 then min - 1 else 0, Less(max), greedy, starts[0])),
               FirstVerdict(out, RepeatFrom(rules, t, p, dir, cc, min, max, greedy, s, starts[1..])))
  {
    hide Inside, Repeat, RepeatFrom, Or, AllAhead, Positions;
    AheadHead(t, dir, s, starts);
    RepeatFromHead(rules, t, p, dir, cc, min, max, greedy, s, starts);
    FirstVerdictAppend(out, Repeat(rules, t, p, dir, cc, if min > 0 then min - 1 else 0, Less(max), greedy, starts[0]),
                       RepeatFrom(rules, t, p, dir, cc, min, max, greedy, s, starts[1..]));
  }

  lemma ListableLess(how: Reading, exact: bool, t: Text, p: Pattern, dir: Direction, cc: nat, max: nat, greedy: bool)
    requires 0 < max <= INF && LoopListable(how, exact, t, p, dir, cc, max, greedy)
    ensures LoopListable(how, exact, t, p, dir, cc, Less(max), greedy) && Less(max) <= INF
  {
    hide Finite, AlwaysMoves;
  }

  // An end that may not be empty leaves the reading where it was, or may be left out.
  lemma {:induction false} NextReads(how: Reading, exact: bool, t: Text, p: Pattern, dir: Direction, cc: nat, min: nat,
                                     max: nat, greedy: bool, s: Place, q: Place, out: Exit)
    requires Inside(t, s) && 0 < max <= INF && Ahead(t, dir, s, q)
    requires LoopListable(how, exact, t, p, dir, cc, max, greedy)
    requires how.Running? && exact && !greedy && max == INF ==> q.at != s.at
    ensures Inside(t, q)
    ensures var r := Next(how, t, p, dir, cc, min, max, greedy, s, out)(q);
      if MustMove(RulesOf(how), min, max, greedy) && q.at == s.at then r.Fails? || (!exact && r.Never?)
      else r == Repeats(how, t, p, dir, cc, if min > 0 then min - 1 else 0, Less(max), greedy, q, out)
  {
    hide Inside, Next, Finite, AlwaysMoves, Repeats;
    NextIs(how, t, p, dir, cc, min, max, greedy, s, q, out);
  }

  lemma NoneKept(must: bool, s: Place)
    ensures Kept(must, s, []) == []
  {
  }

  lemma {:induction false} KeptRounds(t: Text, dir: Direction, s: Place, must: bool, ends: seq<Place>)
    requires AllAhead(t, dir, s, ends)
    ensures AllAhead(t, dir, s, Kept(must, s, ends)) && (must ==> AllMove(s, Kept(must, s, ends)))
  {
    hide Ahead;
    KeptAhead(t, dir, s, must, ends);
  }

  lemma MoveTail(s: Place, ends: seq<Place>)
    requires AllMove(s, ends) && ends != []
    ensures AllMove(s, ends[1..]) && ends[0].at != s.at
  {
  }

  lemma NearLeave(exact: bool, u: Verdict, v: Verdict, w: Verdict)
    requires u.Fails? || (!exact && u.Never?)
    requires Near(exact, v, w)
    ensures Near(exact, Or(u, v), w)
  {
  }

  lemma RoundNearer(rules: Rules, t: Text, dir: Direction, min: nat, max: nat, greedy: bool, s: Place, q: Place)
    requires Inside(t, s) && Ahead(t, dir, s, q) && max > 0 && (MustMove(rules, min, max, greedy) ==> q.at != s.at)
    ensures Distance(t, dir, q) <= Distance(t, dir, s)
    ensures Distance(t, dir, q) < Distance(t, dir, s)
      || Rounds(if min > 0 then min - 1 else 0, Less(max)) < Rounds(min, max)
  {
  }

  lemma NextCases(how: Reading, t: Text, p: Pattern, dir: Direction, cc: nat, min: nat, max: nat, greedy: bool,
                  s: Place, q: Place, out: Exit)
    requires Inside(t, s) && Inside(t, q) && max > 0
    ensures var r := Next(how, t, p, dir, cc, min, max, greedy, s, out)(q);
      if !Onward(t, dir, s, q) then r == Fails
      else if min == 0 && q.at == s.at && (greedy || how.Standard?) then r == Fails
      else if min == 0 && q.at == s.at && max == INF then
        r == if how.Listed? then Fails else if how.f > 0
            then Repeats(Running(how.f - 1), t, p, dir, cc, 0, INF, greedy, q, out) else Never
      else r == Repeats(how, t, p, dir, cc, if min > 0 then min - 1 else 0, Less(max), greedy, q, out)
  {
    hide Repeats, Inside, Onward, Next, Less;
    if Onward(t, dir, s, q) {
      NextOn(how, t, p, dir, cc, min, max, greedy, s, q, out);
    } else {
      NextOff(how, t, p, dir, cc, min, max, greedy, s, q, out);
    }
  }

  lemma NextOff(how: Reading, t: Text, p: Pattern, dir: Direction, cc: nat, min: nat, max: nat, greedy: bool, s: Place,
                q: Place, out: Exit)
    requires Inside(t, s) && max > 0 && !Onward(t, dir, s, q)
    ensures Next(how, t, p, dir, cc, min, max, greedy, s, out)(q) == Fails
  {
    hide Repeats, Inside, Onward;
  }

  lemma NextOn(how: Reading, t: Text, p: Pattern, dir: Direction, cc: nat, min: nat, max: nat, greedy: bool, s: Place,
               q: Place, out: Exit)
    requires Inside(t, s) && Inside(t, q) && max > 0 && Onward(t, dir, s, q)
    ensures var r := Next(how, t, p, dir, cc, min, max, greedy, s, out)(q);
      if min == 0 && q.at == s.at && (greedy || how.Standard?) then r == Fails
      else if min == 0 && q.at == s.at && max == INF then
        r == if how.Listed? then Fails else if how.f > 0
            then Repeats(Running(how.f - 1), t, p, dir, cc, 0, INF, greedy, q, out) else Never
      else r == Repeats(how, t, p, dir, cc, if min > 0 then min - 1 else 0, Less(max), greedy, q, out)
  {
    hide Repeats, Inside, Onward;
  }

  lemma OnwardNearer(t: Text, dir: Direction, min: nat, max: nat, s: Place, q: Place)
    requires Inside(t, s) && Onward(t, dir, s, q) && max > 0 && (min == 0 && max == INF ==> q.at != s.at)
    ensures Distance(t, dir, q) <= Distance(t, dir, s)
    ensures Distance(t, dir, q) < Distance(t, dir, s)
      || Rounds(if min > 0 then min - 1 else 0, Less(max)) < Rounds(min, max)
  {
  }

  lemma AheadOn(t: Text, dir: Direction, s: Place, q: Place)
    requires Ahead(t, dir, s, q)
    ensures Onward(t, dir, s, q)
  {
  }

  lemma NextIs(how: Reading, t: Text, p: Pattern, dir: Direction, cc: nat, min: nat, max: nat, greedy: bool, s: Place,
               q: Place, out: Exit)
    requires Inside(t, s) && max > 0 && Ahead(t, dir, s, q)
    ensures Inside(t, q)
    ensures var r := Next(how, t, p, dir, cc, min, max, greedy, s, out)(q);
      if min == 0 && q.at == s.at && (greedy || how.Standard?) then r == Fails
      else if min == 0 && q.at == s.at && max == INF then
        r == if how.Listed? then Fails else if how.f > 0
            then Repeats(Running(how.f - 1), t, p, dir, cc, 0, INF, greedy, q, out) else Never
      else r == Repeats(how, t, p, dir, cc, if min > 0 then min - 1 else 0, Less(max), greedy, q, out)
  {
    hide Repeats, Next, Inside;
    AheadOn(t, dir, s, q);
    NextOn(how, t, p, dir, cc, min, max, greedy, s, q, out);
  }
}
