// What the groups of a pattern hold: nothing, or a span of text that the group's own body matches.
module ReCaptures {
  import opened ReText
  import opened RePattern
  import opened ReGen
  import opened ReLoops
  import opened ReCorrect
  import opened ReRules
  import opened ReChoice
  import opened ReVerdict
  import opened ReAgree
  import opened ReLanguage

  // Group k is unset, or its slots are the start and the end of a span of b.
  ghost predicate Holding(t: Text, b: Pattern, k: nat, caps: Captures) {
    2 * k + 1 < |caps|
    && match (caps[2 * k], caps[2 * k + 1])
       case (None, None) => true
       case (Some(i), Some(j)) => Between(t, i) && Between(t, j) && Spans(t, b, i, j)
       case _ => false
  }

  // Every group of p, numbered from cc by its opening bracket.
  ghost predicate Caught(t: Text, p: Pattern, cc: nat, caps: Captures) {
    match p
    case Group(b) => Holding(t, b, cc, caps) && Caught(t, b, cc + 1, caps)
    case Look(_, _, b) => Caught(t, b, cc, caps)
    case Cat(a, b) => Caught(t, a, cc, caps) && Caught(t, b, cc + Groups(a), caps)
    case Alt(a, b) => Caught(t, a, cc, caps) && Caught(t, b, cc + Groups(a), caps)
    case Quant(b, _, _, _) => Caught(t, b, cc, caps)
    case _ => true
  }

  ghost predicate AllCaught(t: Text, p: Pattern, cc: nat, ends: seq<Place>) {
    forall k :: 0 <= k < |ends| ==> Caught(t, p, cc, ends[k].caps)
  }

  // Only the slots of the pattern's own groups matter.
  lemma {:induction false} CaughtSame(t: Text, p: Pattern, cc: nat, a: Captures, b: Captures)
    requires |a| == |b| && forall k :: 0 <= k < |a| && InGroups(cc, Groups(p), k) ==> a[k] == b[k]
    ensures Caught(t, p, cc, a) <==> Caught(t, p, cc, b)
  {
    hide Spans, Between;
    match p
    case Group(x) =>
      CaughtSame(t, x, cc + 1, a, b);
      assert InGroups(cc, Groups(p), 2 * cc) && InGroups(cc, Groups(p), 2 * cc + 1);
    case Look(_, _, x) => CaughtSame(t, x, cc, a, b);
    case Cat(x, y) =>
      CaughtSame(t, x, cc, a, b);
      CaughtSame(t, y, cc + Groups(x), a, b);
    case Alt(x, y) =>
      CaughtSame(t, x, cc, a, b);
      CaughtSame(t, y, cc + Groups(x), a, b);
    case Quant(x, _, _, _) => CaughtSame(t, x, cc, a, b);
    case _ =>
  }

  lemma {:induction false} UnsetCaught(t: Text, p: Pattern, cc: nat, caps: Captures)
    requires 2 * (cc + Groups(p)) <= |caps|
    requires forall k :: 0 <= k < |caps| && InGroups(cc, Groups(p), k) ==> caps[k].None?
    ensures Caught(t, p, cc, caps)
  {
    hide Spans, Between;
    match p
    case Group(x) =>
      UnsetCaught(t, x, cc + 1, caps);
      assert InGroups(cc, Groups(p), 2 * cc) && InGroups(cc, Groups(p), 2 * cc + 1);
    case Look(_, _, x) => UnsetCaught(t, x, cc, caps);
    case Cat(x, y) =>
      UnsetCaught(t, x, cc, caps);
      UnsetCaught(t, y, cc + Groups(x), caps);
    case Alt(x, y) =>
      UnsetCaught(t, x, cc, caps);
      UnsetCaught(t, y, cc + Groups(x), caps);
    case Quant(x, _, _, _) => UnsetCaught(t, x, cc, caps);
    case _ =>
  }

  function Slots(n: nat): (r: set<nat>)
    ensures forall k: nat :: k in r <==> k < n
  {
    if n == 0 then {} else Slots(n - 1) + {n - 1}
  }

  // What other groups hold stays.
  lemma {:induction false} CaughtStays(t: Text, p: Pattern, lo: nat, cc: nat, n: nat, s: Place, q: Place)
    requires Holds(Slots(|s.caps|), cc, n, s, q) && (lo + Groups(p) <= cc || cc + n <= lo)
    ensures Caught(t, p, lo, s.caps) <==> Caught(t, p, lo, q.caps)
  {
    CaughtSame(t, p, lo, s.caps, q.caps);
  }

  // After every run of a pattern, as before it, each of its groups is unset or holds a span of its body.
  lemma {:induction false} EndsAreCaught(rules: Rules, t: Text, p: Pattern, dir: Direction, cc: nat, s: Place)
    requires Inside(t, s) && Between(t, s.at) && NoReferences(p) && Emittable(p, cc) && 2 * (cc + Groups(p)) <= |s.caps|
    requires Caught(t, p, cc, s.caps)
    ensures AllCaught(t, p, cc, Ends(rules, t, p, dir, cc, s))
    decreases p, 0, 0, 0, 1
  {
    hide Inside, Between, Ends, Caught, AllCaught, Emittable;
    if p.Group? {
      GroupCaught(rules, t, p, dir, cc, s);
    } else if p.Look? {
      LookCaught(rules, t, p, dir, cc, s);
    } else if p.Cat? {
      CatCaught(rules, t, p, dir, cc, s);
    } else if p.Alt? {
      AltCaught(rules, t, p, dir, cc, s);
    } else if p.Quant? {
      QuantCaught(rules, t, p, dir, cc, s);
    } else {
      LeafCaught(t, p, cc, Ends(rules, t, p, dir, cc, s));
    }
  }

  lemma LeafCaught(t: Text, p: Pattern, cc: nat, ends: seq<Place>)
    requires p.Empty? || p.Test? || p.Reference? || OneChar(p)
    ensures AllCaught(t, p, cc, ends)
  {
  }

  // Where a group ends it holds the text from one end of its run to the other.
  lemma {:induction false} GroupRecords(rules: Rules, t: Text, p: Pattern, dir: Direction, cc: nat, s: Place, k: nat)
    requires Inside(t, s) && p.Group? && 2 * cc + 1 < |s.caps| && k < |Ends(rules, t, p, dir, cc, s)|
    ensures var q := Ends(rules, t, p, dir, cc, s)[k];
      |q.caps| == |s.caps|
      && q.caps[2 * cc] == Some(if dir.Forward? then s.at else q.at)
      && q.caps[2 * cc + 1] == Some(if dir.Forward? then q.at else s.at)
  {
    hide Inside, Mark, Repeat, EndsFrom, OneEnd, AtEdge, Referenced, Ahead;
    var o, c := OpenSlot(dir, cc), CloseSlot(dir, cc);
    MarkInside(t, s, o);
    var m := Mark(s, o);
    var inner := Ends(rules, t, p.body, dir, cc + 1, m);
    EndsHold(Slots(|s.caps|), rules, t, p.body, dir, cc + 1, m);
    assert Ends(rules, t, p, dir, cc, s) == MarkAll(inner, c);
    MarkSlots(s, o);
    MarkSlots(inner[k], c);
    assert Holds(Slots(|s.caps|), cc + 1, Groups(p.body), m, inner[k]);
  }

  lemma MarkSlots(s: Place, k: nat)
    requires k < |s.caps|
    ensures |Mark(s, k).caps| == |s.caps| && Mark(s, k).at == s.at && Mark(s, k).caps[k] == Some(s.at)
    ensures forall i :: 0 <= i < |s.caps| && i != k ==> Mark(s, k).caps[i] == s.caps[i]
  {
  }

  lemma {:induction false} GroupCaught(rules: Rules, t: Text, p: Pattern, dir: Direction, cc: nat, s: Place)
    requires Inside(t, s) && Between(t, s.at) && NoReferences(p) && Emittable(p, cc) && 2 * (cc + Groups(p)) <= |s.caps|
    requires Caught(t, p, cc, s.caps) && p.Group?
    ensures AllCaught(t, p, cc, Ends(rules, t, p, dir, cc, s))
    decreases p, 0, 0, 0, 0
  {
    hide Inside, Between, Ends, Mark, AllCaught, AllAhead, Spans;
    var o, c := OpenSlot(dir, cc), CloseSlot(dir, cc);
    var m := Mark(s, o);
    MarkInside(t, s, o);
    MarkSlots(s, o);
    CaughtSame(t, p.body, cc + 1, s.caps, m.caps);
    EndsAreCaught(rules, t, p.body, dir, cc + 1, m);
    var inner, ends := Ends(rules, t, p.body, dir, cc + 1, m), Ends(rules, t, p, dir, cc, s);
    assert ends == MarkAll(inner, c) by { GroupList(rules, t, p, dir, cc, s); }
    forall k | 0 <= k < |ends| ensures Caught(t, p, cc, ends[k].caps) {
      CaughtOne(t, p.body, cc + 1, inner, k);
      EndCaps(rules, t, p.body, dir, cc + 1, m, k);
      MarkSlots(inner[k], c);
      CaughtSame(t, p.body, cc + 1, inner[k].caps, ends[k].caps);
      GroupHolding(rules, t, p, dir, cc, s, k);
    }
    CaughtAll(t, p, cc, ends);
  }

  lemma GroupList(rules: Rules, t: Text, p: Pattern, dir: Direction, cc: nat, s: Place)
    requires Inside(t, s) && p.Group?
    ensures Inside(t, Mark(s, OpenSlot(dir, cc)))
    ensures Ends(rules, t, p, dir, cc, s)
         == MarkAll(Ends(rules, t, p.body, dir, cc + 1, Mark(s, OpenSlot(dir, cc))), CloseSlot(dir, cc))
  {
    hide Mark, Repeat, EndsFrom, OneEnd, AtEdge, Referenced, Ahead, Inside;
    MarkInside(t, s, OpenSlot(dir, cc));
  }

  lemma CaughtOne(t: Text, p: Pattern, cc: nat, ends: seq<Place>, k: nat)
    requires AllCaught(t, p, cc, ends) && k < |ends|
    ensures Caught(t, p, cc, ends[k].caps)
  {
    hide Caught;
  }

  lemma CaughtAll(t: Text, p: Pattern, cc: nat, ends: seq<Place>)
    requires forall k :: 0 <= k < |ends| ==> Caught(t, p, cc, ends[k].caps)
    ensures AllCaught(t, p, cc, ends)
  {
    hide Caught;
  }

  lemma EndCaps(rules: Rules, t: Text, p: Pattern, dir: Direction, cc: nat, s: Place, k: nat)
    requires Inside(t, s) && k < |Ends(rules, t, p, dir, cc, s)|
    ensures |Ends(rules, t, p, dir, cc, s)[k].caps| == |s.caps|
  {
    hide Ends, Inside;
    assert Ahead(t, dir, s, Ends(rules, t, p, dir, cc, s)[k]);
  }

  lemma {:induction false} GroupHolding(rules: Rules, t: Text, p: Pattern, dir: Direction, cc: nat, s: Place, k: nat)
    requires Inside(t, s) && Between(t, s.at) && NoReferences(p) && Emittable(p, cc) && p.Group?
    requires 2 * cc + 1 < |s.caps| && k < |Ends(rules, t, p, dir, cc, s)|
    ensures Holding(t, p.body, cc, Ends(rules, t, p, dir, cc, s)[k].caps)
  {
    hide Inside, Between, Ends, AllAhead, Spans, EndsAt;
    var ends := Ends(rules, t, p, dir, cc, s);
    GroupRecords(rules, t, p, dir, cc, s, k);
    EndBetween(t, dir, s, ends, k);
    EndsAreSpans(rules, t, p, dir, cc, s, ends[k].at);
    GroupSpan(t, p, if dir.Forward? then s.at else ends[k].at, if dir.Forward? then ends[k].at else s.at);
  }

  lemma GroupSpan(t: Text, p: Pattern, i: nat, j: nat)
    requires p.Group? && Spans(t, p, i, j)
    ensures Spans(t, p.body, i, j)
  {
  }

  lemma {:induction false} LookCaught(rules: Rules, t: Text, p: Pattern, dir: Direction, cc: nat, s: Place)
    requires Inside(t, s) && Between(t, s.at) && NoReferences(p) && Emittable(p, cc) && 2 * (cc + Groups(p)) <= |s.caps|
    requires Caught(t, p, cc, s.caps) && p.Look?
    ensures AllCaught(t, p, cc, Ends(rules, t, p, dir, cc, s))
    decreases p, 0, 0, 0, 0
  {
    hide Inside, Between, Ends, Ahead;
    LookIs(rules, t, p, dir, cc, s);
    EndsAreCaught(rules, t, p.body, if p.behind then Backward else Forward, cc, s);
  }

  // A lookaround has at most one end, where it began. A positive one keeps what its groups hold; a negative one keeps
  // what they held.
  lemma {:induction false} LookRecords(rules: Rules, t: Text, p: Pattern, dir: Direction, cc: nat, s: Place)
    requires Inside(t, s) && p.Look? && p.body.Group? && 2 * cc + 1 < |s.caps|
    ensures var ends := Ends(rules, t, p, dir, cc, s);
      |ends| <= 1
      && (ends != [] ==>
            ends[0].at == s.at
            && if p.negative then ends[0].caps == s.caps
               else |ends[0].caps| == |s.caps| && ends[0].caps[2 * cc].Some? && ends[0].caps[2 * cc + 1].Some?
                    && ends[0].caps[if p.behind then 2 * cc + 1 else 2 * cc] == Some(s.at))
  {
    hide Inside, Ends, AllAhead;
    LookIs(rules, t, p, dir, cc, s);
    var d := if p.behind then Backward else Forward;
    if Ends(rules, t, p.body, d, cc, s) != [] { GroupRecords(rules, t, p.body, d, cc, s, 0); }
  }

  ghost predicate BothCaught(t: Text, p: Pattern, dir: Direction, cc: nat, caps: Captures)
    requires p.Cat?
  {
    var a, b := FirstHalf(p, dir, cc), SecondHalf(p, dir, cc);
    Caught(t, a.p, a.cc, caps) && Caught(t, b.p, b.cc, caps)
  }

  lemma CatBoth(t: Text, p: Pattern, dir: Direction, cc: nat, caps: Captures)
    requires p.Cat?
    ensures Caught(t, p, cc, caps) <==> BothCaught(t, p, dir, cc, caps)
  {
    hide Holding, Groups;
  }

  lemma {:induction false} CatCaught(rules: Rules, t: Text, p: Pattern, dir: Direction, cc: nat, s: Place)
    requires Inside(t, s) && Between(t, s.at) && NoReferences(p) && Emittable(p, cc) && 2 * (cc + Groups(p)) <= |s.caps|
    requires Caught(t, p, cc, s.caps) && p.Cat?
    ensures AllCaught(t, p, cc, Ends(rules, t, p, dir, cc, s))
    decreases p, 0, 0, 0, 0
  {
    hide Inside, Between, Ends, EndsFrom, AllAhead, Holds, Caught, AllCaught;
    var a, b := FirstHalf(p, dir, cc), SecondHalf(p, dir, cc);
    CatEnds(rules, t, p, dir, cc, s);
    CatBoth(t, p, dir, cc, s.caps);
    EndsAreCaught(rules, t, a.p, dir, a.cc, s);
    EndsHold(Slots(|s.caps|), rules, t, a.p, dir, a.cc, s);
    var starts := Ends(rules, t, a.p, dir, a.cc, s);
    forall k | 0 <= k < |starts| ensures BothCaught(t, p, dir, cc, starts[k].caps) {
      CaughtOne(t, a.p, a.cc, starts, k);
      CaughtStays(t, b.p, b.cc, a.cc, Groups(a.p), s, starts[k]);
    }
    FromCaught(rules, t, p, dir, cc, s, starts);
  }

  lemma {:induction false} FromCaught(rules: Rules, t: Text, p: Pattern, dir: Direction, cc: nat, s: Place,
                                      starts: seq<Place>)
    requires Inside(t, s) && Between(t, s.at) && p.Cat? && NoReferences(p) && Emittable(p, cc)
    requires 2 * (cc + Groups(p)) <= |s.caps| && AllAhead(t, dir, s, starts)
    requires forall k :: 0 <= k < |starts| ==> BothCaught(t, p, dir, cc, starts[k].caps)
    ensures var b := SecondHalf(p, dir, cc);
      AllCaught(t, p, cc, EndsFrom(rules, t, b.p, dir, b.cc, s, starts))
    decreases p, 0, 0, 0, 0, |starts|
  {
    hide Inside, Between, Ends, AllAhead, Ahead, Holds, Caught, AllCaught, BothCaught;
    var a, b := FirstHalf(p, dir, cc), SecondHalf(p, dir, cc);
    if starts == [] {
      LeafCaught(t, Empty, cc, []);
      NoneCaught(t, p, cc);
    } else {
      var q := starts[0];
      AheadHead(t, dir, s, starts);
      EndBetween(t, dir, s, starts, 0);
      assert |q.caps| == |s.caps| by { AheadCaps(t, dir, s, q); }
      CatHalves(t, p, dir, cc, q.caps);
      EndsAreCaught(rules, t, b.p, dir, b.cc, q);
      EndsHold(Slots(|q.caps|), rules, t, b.p, dir, b.cc, q);
      var ends := Ends(rules, t, b.p, dir, b.cc, q);
      forall k | 0 <= k < |ends| ensures Caught(t, p, cc, ends[k].caps) {
        CaughtOne(t, b.p, b.cc, ends, k);
        CaughtStays(t, a.p, a.cc, b.cc, Groups(b.p), q, ends[k]);
        CatHalves(t, p, dir, cc, ends[k].caps);
        CatBoth(t, p, dir, cc, ends[k].caps);
      }
      CaughtAll(t, p, cc, ends);
      FromCaught(rules, t, p, dir, cc, s, starts[1..]);
      CaughtAppend(t, p, cc, ends, EndsFrom(rules, t, b.p, dir, b.cc, s, starts[1..]));
    }
  }

  lemma CatHalves(t: Text, p: Pattern, dir: Direction, cc: nat, caps: Captures)
    requires p.Cat?
    ensures var a, b := FirstHalf(p, dir, cc), SecondHalf(p, dir, cc);
      BothCaught(t, p, dir, cc, caps) <==> Caught(t, a.p, a.cc, caps) && Caught(t, b.p, b.cc, caps)
  {
    hide Caught;
  }

  lemma NoneCaught(t: Text, p: Pattern, cc: nat)
    ensures AllCaught(t, p, cc, [])
  {
  }

  lemma AheadCaps(t: Text, dir: Direction, s: Place, q: Place)
    requires Ahead(t, dir, s, q)
    ensures |q.caps| == |s.caps|
  {
  }

  lemma CaughtAppend(t: Text, p: Pattern, cc: nat, a: seq<Place>, b: seq<Place>)
    requires AllCaught(t, p, cc, a) && AllCaught(t, p, cc, b)
    ensures AllCaught(t, p, cc, a + b)
  {
    hide Caught;
  }

  lemma {:induction false} AltCaught(rules: Rules, t: Text, p: Pattern, dir: Direction, cc: nat, s: Place)
    requires Inside(t, s) && Between(t, s.at) && NoReferences(p) && Emittable(p, cc) && 2 * (cc + Groups(p)) <= |s.caps|
    requires Caught(t, p, cc, s.caps) && p.Alt?
    ensures AllCaught(t, p, cc, Ends(rules, t, p, dir, cc, s))
    decreases p, 0, 0, 0, 0
  {
    hide Inside, Between, Ends, AllAhead, Holds, Caught, AllCaught;
    var a, b, cb := p.left, p.right, cc + Groups(p.left);
    AltEnds(rules, t, p, dir, cc, s);
    SidesCaught(t, p, cc, s.caps);
    EndsAreCaught(rules, t, a, dir, cc, s);
    EndsAreCaught(rules, t, b, dir, cb, s);
    EndsHold(Slots(|s.caps|), rules, t, a, dir, cc, s);
    EndsHold(Slots(|s.caps|), rules, t, b, dir, cb, s);
    var x, y := Ends(rules, t, a, dir, cc, s), Ends(rules, t, b, dir, cb, s);
    forall k | 0 <= k < |x| ensures Caught(t, p, cc, x[k].caps) {
      CaughtOne(t, a, cc, x, k);
      CaughtStays(t, b, cb, cc, Groups(a), s, x[k]);
      SidesCaught(t, p, cc, x[k].caps);
    }
    forall k | 0 <= k < |y| ensures Caught(t, p, cc, y[k].caps) {
      CaughtOne(t, b, cb, y, k);
      CaughtStays(t, a, cc, cb, Groups(b), s, y[k]);
      SidesCaught(t, p, cc, y[k].caps);
    }
    CaughtAll(t, p, cc, x);
    CaughtAll(t, p, cc, y);
    CaughtAppend(t, p, cc, x, y);
  }

  lemma SidesCaught(t: Text, p: Pattern, cc: nat, caps: Captures)
    requires p.Alt?
    ensures Caught(t, p, cc, caps) <==>
      Caught(t, p.left, cc, caps) && Caught(t, p.right, cc + Groups(p.left), caps)
  {
    hide Holding, Groups;
  }

  lemma {:induction false} ForgottenCaught(t: Text, p: Pattern, cc: nat, s: Place)
    requires 2 * (cc + Groups(p)) <= |s.caps|
    ensures Caught(t, p, cc, Forget(s, cc, Groups(p)).caps)
  {
    hide Caught;
    UnsetCaught(t, p, cc, Forget(s, cc, Groups(p)).caps);
  }

  lemma {:induction false} QuantCaught(rules: Rules, t: Text, p: Pattern, dir: Direction, cc: nat, s: Place)
    requires Inside(t, s) && Between(t, s.at) && NoReferences(p) && Emittable(p, cc) && 2 * (cc + Groups(p)) <= |s.caps|
    requires Caught(t, p, cc, s.caps) && p.Quant?
    ensures AllCaught(t, p, cc, Ends(rules, t, p, dir, cc, s))
    decreases p, 0, 0, 0, 0
  {
    hide Inside, Between, Repeat, Ends, Forget, AllCaught;
    var b, how := p.body, if rules.Ecma? then Standard else Listed;
    var q := FirstFrom(how, cc, Groups(b), p.min, s);
    ForgetInside(t, s, cc, Groups(b));
    FirstThere(how, cc, Groups(b), p.min, s);
    ForgottenCaught(t, b, cc, s);
    QuantEndsIs(how, t, p, dir, cc, s, q);
    RepeatCaught(rules, t, b, dir, cc, p.min, p.max, p.greedy, q);
    forall k | 0 <= k < |Ends(rules, t, p, dir, cc, s)|
      ensures Caught(t, p, cc, Ends(rules, t, p, dir, cc, s)[k].caps)
    {
      CaughtOne(t, b, cc, Repeat(rules, t, b, dir, cc, p.min, p.max, p.greedy, q), k);
    }
    CaughtAll(t, p, cc, Ends(rules, t, p, dir, cc, s));
  }

  lemma {:induction false} RepeatCaught(rules: Rules, t: Text, p: Pattern, dir: Direction, cc: nat, min: nat, max: nat,
                                        greedy: bool, s: Place)
    requires Inside(t, s) && Between(t, s.at) && NoReferences(p) && Emittable(p, cc) && 2 * (cc + Groups(p)) <= |s.caps|
    requires Caught(t, p, cc, s.caps)
    ensures AllCaught(t, p, cc, Repeat(rules, t, p, dir, cc, min, max, greedy, s))
    decreases p, Distance(t, dir, s) + 1, Rounds(min, max), 1, 0
  {
    hide Inside, Between, Repeat, RepeatFrom, Rounded, Ends, Forget, Caught, AllCaught;
    CaughtAll(t, p, cc, [s]);
    if max == 0 {
      ZeroRounds(rules, t, p, dir, cc, min, greedy, s);
    } else {
      var kept := Rounded(rules, t, p, dir, cc, min, max, greedy, s);
      RoundedCaught(rules, t, p, dir, cc, min, max, greedy, s);
      RepeatFromCaught(rules, t, p, dir, cc, min, max, greedy, s, kept);
      RepeatIsRounded(rules, t, p, dir, cc, min, max, greedy, s);
      var more := RepeatFrom(rules, t, p, dir, cc, min, max, greedy, s, kept);
      CaughtAppend(t, p, cc, [s], more);
      CaughtAppend(t, p, cc, more, [s]);
    }
  }

  lemma {:induction false} RoundedCaught(rules: Rules, t: Text, p: Pattern, dir: Direction, cc: nat, min: nat, max: nat,
                                         greedy: bool, s: Place)
    requires Inside(t, s) && Between(t, s.at) && NoReferences(p) && Emittable(p, cc) && 2 * (cc + Groups(p)) <= |s.caps|
    requires Caught(t, p, cc, s.caps)
    ensures AllCaught(t, p, cc, Rounded(rules, t, p, dir, cc, min, max, greedy, s))
    decreases p, Distance(t, dir, s) + 1, Rounds(min, max), 0, 0
  {
    hide Inside, Between, Ends, Forget, Caught, AllCaught, Kept;
    var n, how := Groups(p), if rules.Ecma? then Standard else Listed;
    var from := RoundFrom(how, cc, n, s);
    ForgetInside(t, s, cc, n);
    ForgottenCaught(t, p, cc, s);
    FirstThere(how, cc, n, min, s);
    EndsAreCaught(rules, t, p, dir, cc, from);
    RoundedReads(how, t, p, dir, cc, min, max, greedy, s);
    var ends, kept := Ends(rules, t, p, dir, cc, from), Rounded(rules, t, p, dir, cc, min, max, greedy, s);
    forall k | 0 <= k < |kept| ensures Caught(t, p, cc, kept[k].caps) {
      assert kept[k] in ends;
      var j :| 0 <= j < |ends| && ends[j] == kept[k];
      CaughtOne(t, p, cc, ends, j);
    }
    CaughtAll(t, p, cc, kept);
  }

  lemma {:induction false} RepeatFromCaught(rules: Rules, t: Text, p: Pattern, dir: Direction, cc: nat, min: nat,
                                            max: nat, greedy: bool, s: Place, starts: seq<Place>)
    requires Inside(t, s) && Between(t, s.at) && NoReferences(p) && Emittable(p, cc) && 2 * (cc + Groups(p)) <= |s.caps|
    requires max > 0 && AllAhead(t, dir, s, starts) && (MustMove(rules, min, max, greedy) ==> AllMove(s, starts))
    requires AllCaught(t, p, cc, starts)
    ensures AllCaught(t, p, cc, RepeatFrom(rules, t, p, dir, cc, min, max, greedy, s, starts))
    decreases p, Distance(t, dir, s) + 1, Rounds(min, max), 0, |starts|
  {
    hide Inside, Between, Repeat, RepeatFrom, Ahead, AllAhead, Positions, Caught;
    if starts == [] {
      RepeatFromNone(rules, t, p, dir, cc, min, max, greedy, s);
    } else {
      var q, min2 := starts[0], if min > 0 then min - 1 else 0;
      AheadHead(t, dir, s, starts);
      EndBetween(t, dir, s, starts, 0);
      AheadCaps(t, dir, s, q);
      RoundNearer(rules, t, dir, min, max, greedy, s, q);
      RepeatFromHead(rules, t, p, dir, cc, min, max, greedy, s, starts);
      RepeatCaught(rules, t, p, dir, cc, min2, Less(max), greedy, q);
      RepeatFromCaught(rules, t, p, dir, cc, min, max, greedy, s, starts[1..]);
      CaughtAppend(t, p, cc, Repeat(rules, t, p, dir, cc, min2, Less(max), greedy, q),
                   RepeatFrom(rules, t, p, dir, cc, min, max, greedy, s, starts[1..]));
    }
  }
}
