// Two readings of a pattern against one another: what they come to is alike where places count by their position
// and by the captures that back references name, and those groups lie outside every repetition.
module ReAgree {
  import opened ReText
  import opened RePattern
  import opened ReCode
  import opened ReGen
  import opened ReMachine
  import opened ReLoops
  import opened ReCorrect
  import opened ReProgram
  import opened ReRules
  import opened ReChoice
  import opened ReVerdict

  // The slots of n groups from cc.
  predicate InGroups(cc: nat, n: nat, k: nat) { 2 * cc <= k < 2 * (cc + n) }

  // Alike in position and in the slots of known.
  predicate Twin(known: set<nat>, q: Place, q2: Place) {
    q.at == q2.at && |q.caps| == |q2.caps| && forall k :: k in known && k < |q.caps| ==> q.caps[k] == q2.caps[k]
  }

  // Between s and q only the slots of n groups from cc have changed, of those in known.
  predicate Holds(known: set<nat>, cc: nat, n: nat, s: Place, q: Place) {
    |q.caps| == |s.caps| && forall k :: k in known && k < |s.caps| && !InGroups(cc, n, k) ==> q.caps[k] == s.caps[k]
  }

  predicate Outside(known: set<nat>, cc: nat, n: nat) { forall k :: k in known ==> !InGroups(cc, n, k) }

  // Back references name groups in known, which are outside every repetition.
  predicate Known(known: set<nat>, p: Pattern, cc: nat) {
    match p
    case Reference(k) => 2 * k in known && 2 * k + 1 in known
    case Group(b) => Known(known, b, cc + 1)
    case Look(_, _, b) => Known(known, b, cc)
    case Cat(a, b) => Known(known, a, cc) && Known(known, b, cc + Groups(a))
    case Alt(a, b) => Known(known, a, cc) && Known(known, b, cc + Groups(a))
    case Quant(b, _, _, _) => Known(known, b, cc) && Outside(known, cc, Groups(b))
    case _ => true
  }

  // How verdicts are compared: exactly, or letting an endless run stand for anything on the left; matches by their
  // places, which are good ones.
  datatype Like = Like(exact: bool, known: set<nat>, good: Place -> bool)

  predicate Same(t: Text, w: Like, u: Verdict, v: Verdict) {
    match u
    case Never => v.Never?
    case Fails => v.Fails?
    case Wins(q) => v.Wins? && Twin(w.known, q, v.end) && Inside(t, q) && Inside(t, v.end) && w.good(q) && w.good(v.end)
  }

  predicate Alike(t: Text, w: Like, u: Verdict, v: Verdict) { Same(t, w, u, v) || (!w.exact && u.Never?) }

  // After n groups from cc have been passed since s.
  ghost predicate ExitsAlike(t: Text, w: Like, cc: nat, n: nat, s: Place, out: Exit, out2: Exit) {
    forall q, q2 :: Inside(t, q) && Inside(t, q2) && Twin(w.known, q, q2) && Holds(w.known, cc, n, s, q) ==>
        Alike(t, w, out(q), out2(q2))
  }

  lemma ExitAlike(t: Text, w: Like, cc: nat, n: nat, s: Place, out: Exit, out2: Exit, q: Place, q2: Place)
    requires ExitsAlike(t, w, cc, n, s, out, out2) && Inside(t, q) && Inside(t, q2) && Twin(w.known, q, q2)
    requires Holds(w.known, cc, n, s, q)
    ensures Alike(t, w, out(q), out2(q2))
  {
    hide Alike, Inside, Twin, Holds;
  }

  lemma ExitsBy(t: Text, w: Like, cc: nat, n: nat, s: Place, out: Exit, out2: Exit)
    requires forall q, q2 :: Inside(t, q) && Inside(t, q2) && Twin(w.known, q, q2) && Holds(w.known, cc, n, s, q) ==>
      Alike(t, w, out(q), out2(q2))
    ensures ExitsAlike(t, w, cc, n, s, out, out2)
  {
    hide Alike, Inside, Twin, Holds;
  }

  // After fewer groups, or from a place on the way.
  lemma {:induction false} ExitsFrom(t: Text, w: Like, cc: nat, n: nat, s: Place, out: Exit, out2: Exit, lo: nat,
                                     m: nat, q: Place)
    requires ExitsAlike(t, w, cc, n, s, out, out2) && Holds(w.known, cc, n, s, q) && cc <= lo && lo + m <= cc + n
    ensures ExitsAlike(t, w, lo, m, q, out, out2)
  {
    hide Alike, Inside, Twin;
    forall r, r2 | Inside(t, r) && Inside(t, r2) && Twin(w.known, r, r2) && Holds(w.known, lo, m, q, r)
      ensures Alike(t, w, out(r), out2(r2))
    {
      assert Holds(w.known, cc, n, s, r);
    }
  }

  lemma AlikeOr(t: Text, w: Like, u: Verdict, u2: Verdict, v: Verdict, v2: Verdict)
    requires Alike(t, w, u, u2) && Alike(t, w, v, v2)
    ensures Alike(t, w, Or(u, v), Or(u2, v2))
  {
    hide Twin, Inside;
  }

  lemma FailsAlike(t: Text, w: Like)
    ensures Alike(t, w, Fails, Fails)
  {
  }

  lemma NeverAlike(t: Text, w: Like, v: Verdict)
    ensures Alike(t, w, Never, Never) && (!w.exact ==> Alike(t, w, Never, v))
  {
  }

  // Which two readings: the same one; runs that follow empty rounds, against none, or from none; the code's list
  // against RepeatMatcher.
  ghost predicate Pair(w: Like, how: Reading, how2: Reading, t: Text, p: Pattern, dir: Direction, cc: nat) {
    (w.exact && how == how2)
    || (w.exact && how.Running? && how2 == Running(0))
    || (!w.exact && how == Running(0) && how2.Running?)
    || (w.exact && how.Listed? && how2.Standard? && LazyRangesMove(t, p, dir, cc))
  }

  ghost predicate Matched(t: Text, w: Like, p: Pattern, cc: nat, s: Place, s2: Place) {
    Inside(t, s) && Inside(t, s2) && Twin(w.known, s, s2) && Known(w.known, p, cc)
  }

  lemma {:induction false} DoesAlike(t: Text, w: Like, how: Reading, how2: Reading, p: Pattern, dir: Direction, cc: nat,
                                     s: Place, s2: Place, out: Exit, out2: Exit)
    requires Matched(t, w, p, cc, s, s2) && ExitsAlike(t, w, cc, Groups(p), s, out, out2)
    requires Pair(w, how, how2, t, p, dir, cc) && Emittable(p, cc)
    ensures Alike(t, w, Does(how, t, p, dir, cc, s, out), Does(how2, t, p, dir, cc, s2, out2))
    decreases p, 0, 0, 1, 0
  {
    hide Matched, Does, Alike, ExitsAlike, Pair, Emittable;
    if p.Group? {
      GroupAlike(t, w, how, how2, p, dir, cc, s, s2, out, out2);
    } else if p.Look? {
      LookAlike(t, w, how, how2, p, dir, cc, s, s2, out, out2);
    } else if p.Cat? {
      CatAlike(t, w, how, how2, p, dir, cc, s, s2, out, out2);
    } else if p.Alt? {
      AltAlike(t, w, how, how2, p, dir, cc, s, s2, out, out2);
    } else if p.Quant? {
      QuantAlike(t, w, how, how2, p, dir, cc, s, s2, out, out2);
    } else {
      LeafAlike(t, w, how, how2, p, dir, cc, s, s2, out, out2);
    }
  }

  lemma {:induction false} LeafAlike(t: Text, w: Like, how: Reading, how2: Reading, p: Pattern, dir: Direction, cc: nat,
                                     s: Place, s2: Place, out: Exit, out2: Exit)
    requires Matched(t, w, p, cc, s, s2) && ExitsAlike(t, w, cc, Groups(p), s, out, out2)
    requires p.Empty? || p.Test? || p.Reference? || OneChar(p)
    ensures Alike(t, w, Does(how, t, p, dir, cc, s, out), Does(how2, t, p, dir, cc, s2, out2))
  {
    hide Alike, Accepts, AtEdge, Repeats, Then, ExitsAlike, Inside, Repeated, RepeatedBack;
    InsideAt(t, s);
    FailsAlike(t, w);
    if OneChar(p) {
      var ends, ends2 := OneEnd(t, p, dir, s), OneEnd(t, p, dir, s2);
      if ends != [] {
        AheadHead(t, dir, s, ends);
        AheadHead(t, dir, s2, ends2);
        ExitAlike(t, w, cc, Groups(p), s, out, out2, ends[0], ends2[0]);
      }
    } else if p.Reference? {
      var q, q2 := Referenced(t, dir, p.k, s), Referenced(t, dir, p.k, s2);
      if q.Some? { ExitAlike(t, w, cc, Groups(p), s, out, out2, q.value, q2.value); }
    } else {
      ExitAlike(t, w, cc, Groups(p), s, out, out2, s, s2);
    }
  }

  lemma {:induction false} GroupAlike(t: Text, w: Like, how: Reading, how2: Reading, p: Pattern, dir: Direction,
                                      cc: nat, s: Place, s2: Place, out: Exit, out2: Exit)
    requires Matched(t, w, p, cc, s, s2) && ExitsAlike(t, w, cc, Groups(p), s, out, out2)
    requires Pair(w, how, how2, t, p, dir, cc) && Emittable(p, cc)
    requires p.Group?
    ensures Alike(t, w, Does(how, t, p, dir, cc, s, out), Does(how2, t, p, dir, cc, s2, out2))
    decreases p, 0, 0, 0, 0
  {
    hide Alike, Repeats, Then, Inside, ExitsAlike, Mark;
    var o, c, n := OpenSlot(dir, cc), CloseSlot(dir, cc), Groups(p.body);
    var q0, q02 := Mark(s, o), Mark(s2, o);
    MarkTwin(t, w.known, s, s2, o);
    forall q, q2 | Inside(t, q) && Inside(t, q2) && Twin(w.known, q, q2) && Holds(w.known, cc + 1, n, q0, q)
      ensures Alike(t, w, Closing(c, out)(q), Closing(c, out2)(q2))
    {
      MarkTwin(t, w.known, q, q2, c);
      MarkHolds(w.known, dir, cc, n, s, q);
      ExitAlike(t, w, cc, Groups(p), s, out, out2, Mark(q, c), Mark(q2, c));
    }
    ExitsBy(t, w, cc + 1, n, q0, Closing(c, out), Closing(c, out2));
    DoesAlike(t, w, how, how2, p.body, dir, cc + 1, q0, q02, Closing(c, out), Closing(c, out2));
  }

  lemma MarkTwin(t: Text, known: set<nat>, q: Place, q2: Place, slot: nat)
    requires Inside(t, q) && Inside(t, q2) && Twin(known, q, q2)
    ensures Inside(t, Mark(q, slot)) && Inside(t, Mark(q2, slot)) && Twin(known, Mark(q, slot), Mark(q2, slot))
  {
  }

  lemma MarkHolds(known: set<nat>, dir: Direction, cc: nat, n: nat, s: Place, q: Place)
    requires Holds(known, cc + 1, n, Mark(s, OpenSlot(dir, cc)), q)
    ensures Holds(known, cc, n + 1, s, Mark(q, CloseSlot(dir, cc)))
  {
  }

  lemma {:induction false} LookAlike(t: Text, w: Like, how: Reading, how2: Reading, p: Pattern, dir: Direction, cc: nat,
                                     s: Place, s2: Place, out: Exit, out2: Exit)
    requires Matched(t, w, p, cc, s, s2) && ExitsAlike(t, w, cc, Groups(p), s, out, out2)
    requires Pair(w, how, how2, t, p, dir, cc) && Emittable(p, cc)
    requires p.Look?
    ensures Alike(t, w, Does(how, t, p, dir, cc, s, out), Does(how2, t, p, dir, cc, s2, out2))
    decreases p, 0, 0, 0, 0
  {
    hide Repeats, Then, Inside, ExitsAlike, Twin, Holds;
    var d, n := if p.behind then Backward else Forward, Groups(p.body);
    var w2 := Like(w.exact, w.known, (q: Place) => Holds(w.known, cc, n, s, q));
    WonAlike(t, w2, cc, n, s);
    DoesAlike(t, w2, how, how2, p.body, d, cc, s, s2, Won(), Won());
    var u, u2 := Does(how, t, p.body, d, cc, s, Won()), Does(how2, t, p.body, d, cc, s2, Won());
    HoldsHere(w.known, cc, n, s);
    ExitAlike(t, w, cc, n, s, out, out2, s, s2);
    if u.Wins? && u2.Wins? {
      LookTwin(t, w.known, cc, n, s, s2, u.end, u2.end);
      ExitAlike(t, w, cc, n, s, out, out2, s.(caps := u.end.caps), s2.(caps := u2.end.caps));
    }
  }

  lemma WonAlike(t: Text, w: Like, cc: nat, n: nat, s: Place)
    requires forall q: Place :: Holds(w.known, cc, n, s, q) ==> w.good(q)
    ensures ExitsAlike(t, w, cc, n, s, Won(), Won())
  {
    hide Inside;
    forall q, q2 | Inside(t, q) && Inside(t, q2) && Twin(w.known, q, q2) && Holds(w.known, cc, n, s, q)
      ensures Alike(t, w, Won()(q), Won()(q2))
    {
      assert Holds(w.known, cc, n, s, q2);
    }
  }

  lemma HoldsHere(known: set<nat>, cc: nat, n: nat, s: Place)
    ensures Holds(known, cc, n, s, s)
  {
  }

  lemma LookTwin(t: Text, known: set<nat>, cc: nat, n: nat, s: Place, s2: Place, q: Place, q2: Place)
    requires Inside(t, s) && Inside(t, s2) && Inside(t, q) && Inside(t, q2) && Twin(known, s, s2) && Twin(known, q, q2)
    requires Holds(known, cc, n, s, q)
    ensures Inside(t, s.(caps := q.caps)) && Inside(t, s2.(caps := q2.caps))
    ensures Twin(known, s.(caps := q.caps), s2.(caps := q2.caps))
    ensures Holds(known, cc, n, s, s.(caps := q.caps))
  {
  }

  lemma {:induction false} CatAlike(t: Text, w: Like, how: Reading, how2: Reading, p: Pattern, dir: Direction, cc: nat,
                                    s: Place, s2: Place, out: Exit, out2: Exit)
    requires Matched(t, w, p, cc, s, s2) && ExitsAlike(t, w, cc, Groups(p), s, out, out2)
    requires Pair(w, how, how2, t, p, dir, cc) && Emittable(p, cc)
    requires p.Cat?
    ensures Alike(t, w, Does(how, t, p, dir, cc, s, out), Does(how2, t, p, dir, cc, s2, out2))
    decreases p, 0, 0, 0, 0
  {
    hide Alike, Repeats, Inside, Does, Twin, Holds, ExitsAlike;
    var a, b := FirstHalf(p, dir, cc), SecondHalf(p, dir, cc);
    CatDoes(how, t, p, dir, cc, s, out);
    CatDoes(how2, t, p, dir, cc, s2, out2);
    var next, next2 := Then(how, t, b.p, dir, b.cc, out), Then(how2, t, b.p, dir, b.cc, out2);
    forall q, q2 | Inside(t, q) && Inside(t, q2) && Twin(w.known, q, q2) && Holds(w.known, a.cc, Groups(a.p), s, q)
      ensures Alike(t, w, next(q), next2(q2))
    {
      HoldsMore(w.known, a.cc, Groups(a.p), cc, Groups(p), s, q);
      ExitsFrom(t, w, cc, Groups(p), s, out, out2, b.cc, Groups(b.p), q);
      DoesAlike(t, w, how, how2, b.p, dir, b.cc, q, q2, out, out2);
    }
    ExitsBy(t, w, a.cc, Groups(a.p), s, next, next2);
    DoesAlike(t, w, how, how2, a.p, dir, a.cc, s, s2, next, next2);
  }

  lemma HoldsMore(known: set<nat>, lo: nat, m: nat, cc: nat, n: nat, s: Place, q: Place)
    requires Holds(known, lo, m, s, q) && cc <= lo && lo + m <= cc + n
    ensures Holds(known, cc, n, s, q)
  {
  }

  lemma {:induction false} AltAlike(t: Text, w: Like, how: Reading, how2: Reading, p: Pattern, dir: Direction, cc: nat,
                                    s: Place, s2: Place, out: Exit, out2: Exit)
    requires Matched(t, w, p, cc, s, s2) && ExitsAlike(t, w, cc, Groups(p), s, out, out2)
    requires Pair(w, how, how2, t, p, dir, cc) && Emittable(p, cc)
    requires p.Alt?
    ensures Alike(t, w, Does(how, t, p, dir, cc, s, out), Does(how2, t, p, dir, cc, s2, out2))
    decreases p, 0, 0, 0, 0
  {
    hide Alike, Repeats, Inside, Then, Or, Twin, Holds, ExitsAlike;
    var cb := cc + Groups(p.left);
    HoldsHere(w.known, cc, Groups(p), s);
    ExitsFrom(t, w, cc, Groups(p), s, out, out2, cc, Groups(p.left), s);
    ExitsFrom(t, w, cc, Groups(p), s, out, out2, cb, Groups(p.right), s);
    DoesAlike(t, w, how, how2, p.left, dir, cc, s, s2, out, out2);
    DoesAlike(t, w, how, how2, p.right, dir, cb, s, s2, out, out2);
    AlikeOr(t, w, Does(how, t, p.left, dir, cc, s, out), Does(how2, t, p.left, dir, cc, s2, out2),
            Does(how, t, p.right, dir, cb, s, out), Does(how2, t, p.right, dir, cb, s2, out2));
  }

  // Repetition.

  ghost predicate LoopPair(w: Like, how: Reading, how2: Reading, t: Text, p: Pattern, dir: Direction, cc: nat, min: nat,
                           max: nat, greedy: bool) {
    Pair(w, how, how2, t, p, dir, cc) && Outside(w.known, cc, Groups(p)) && Emittable(p, cc) && max <= INF
    && (how != how2 && how2.Standard? && !greedy && min + 1 < max != INF ==> EmptyIdle(t, p, dir, cc))
  }

  lemma {:induction false} QuantAlike(t: Text, w: Like, how: Reading, how2: Reading, p: Pattern, dir: Direction,
                                      cc: nat, s: Place, s2: Place, out: Exit, out2: Exit)
    requires Matched(t, w, p, cc, s, s2) && ExitsAlike(t, w, cc, Groups(p), s, out, out2)
    requires Pair(w, how, how2, t, p, dir, cc) && Emittable(p, cc)
    requires p.Quant?
    ensures Alike(t, w, Does(how, t, p, dir, cc, s, out), Does(how2, t, p, dir, cc, s2, out2))
    decreases p, 0, 0, 0, 0
  {
    hide Alike, Repeats, Inside, Then, Twin, Holds, ExitsAlike, Forget, Outside, AlwaysMoves, EmptyIdle;
    var n := Groups(p.body);
    var q, q2 := FirstFrom(how, cc, n, p.min, s), FirstFrom(how2, cc, n, p.min, s2);
    ForgetTwin(t, w.known, cc, n, s, s2);
    ForgetHolds(w.known, cc, n, s, s);
    HoldsHere(w.known, cc, n, s);
    ExitsFrom(t, w, cc, n, s, out, out2, cc, n, q);
    RepeatsAlike(t, w, how, how2, p.body, dir, cc, p.min, p.max, p.greedy, q, q2, out, out2);
  }

  // Forgetting the groups of an atom does not show outside it.
  lemma ForgetTwin(t: Text, known: set<nat>, cc: nat, n: nat, s: Place, s2: Place)
    requires Inside(t, s) && Inside(t, s2) && Twin(known, s, s2) && Outside(known, cc, n)
    ensures Inside(t, Forget(s, cc, n)) && Inside(t, Forget(s2, cc, n))
    ensures Twin(known, Forget(s, cc, n), s2) && Twin(known, s, Forget(s2, cc, n))
    ensures Twin(known, Forget(s, cc, n), Forget(s2, cc, n))
  {
  }

  lemma ForgetHolds(known: set<nat>, cc: nat, n: nat, s: Place, q: Place)
    ensures Holds(known, cc, n, s, Forget(s, cc, n))
    ensures (Holds(known, cc, n, Forget(s, cc, n), q) <==> Holds(known, cc, n, s, q))
  {
  }

  lemma {:induction false} RepeatsAlike(t: Text, w: Like, how: Reading, how2: Reading, p: Pattern, dir: Direction,
                                        cc: nat, min: nat, max: nat, greedy: bool,
                                        s: Place, s2: Place, out: Exit, out2: Exit)
    requires Matched(t, w, p, cc, s, s2) && ExitsAlike(t, w, cc, Groups(p), s, out, out2)
    requires LoopPair(w, how, how2, t, p, dir, cc, min, max, greedy)
    ensures Alike(t, w, Repeats(how, t, p, dir, cc, min, max, greedy, s, out),
                  Repeats(how2, t, p, dir, cc, min, max, greedy, s2, out2))
    decreases p, Distance(t, dir, s) + 1, Rounds(min, max), Fuel(how) + Fuel(how2), 4
  {
    hide Inside, Twin, Known, Holds, Next, RoundVerdict, Repeats, Alike, ExitsAlike, Or, LoopPair;
    var n := Groups(p);
    HoldsHere(w.known, cc, n, s);
    ExitAlike(t, w, cc, n, s, out, out2, s, s2);
    RepeatsIs(how, t, p, dir, cc, min, max, greedy, s, out);
    RepeatsIs(how2, t, p, dir, cc, min, max, greedy, s2, out2);
    if max > 0 {
      if how != how2 && w.exact && min == 0 && !greedy {
        if how2.Standard? && max != INF {
          RangePair(w, how, how2, t, p, dir, cc, min, max, greedy);
          RangeAlike(t, w, how, how2, p, dir, cc, max, s, s2, out, out2);
        } else if max == INF {
          LoopAlike(t, w, how, how2, p, dir, cc, s, s2, out, out2);
        } else {
          RoundAlike(t, w, how, how2, p, dir, cc, min, max, greedy, s, s2, out, out2);
        }
      } else {
        RoundAlike(t, w, how, how2, p, dir, cc, min, max, greedy, s, s2, out, out2);
      }
    }
  }

  lemma RangePair(w: Like, how: Reading, how2: Reading, t: Text, p: Pattern, dir: Direction, cc: nat, min: nat,
                  max: nat, greedy: bool)
    requires LoopPair(w, how, how2, t, p, dir, cc, min, max, greedy)
    ensures max <= INF && (how != how2 && how2.Standard? && w.exact ==> how.Listed?)
  {
    hide LazyRangesMove, Emittable, EmptyIdle, Outside;
  }

  // A round, where what comes after an empty one is alike, too.
  lemma {:induction false} RoundAlike(t: Text, w: Like, how: Reading, how2: Reading, p: Pattern, dir: Direction,
                                      cc: nat, min: nat, max: nat, greedy: bool,
                                      s: Place, s2: Place, out: Exit, out2: Exit)
    requires Matched(t, w, p, cc, s, s2) && ExitsAlike(t, w, cc, Groups(p), s, out, out2)
    requires LoopPair(w, how, how2, t, p, dir, cc, min, max, greedy)
    requires max > 0 && EmptyAlike(t, w, how, how2, p, dir, cc, min, max, greedy, s2, out2)
    ensures Alike(t, w, Repeats(how, t, p, dir, cc, min, max, greedy, s, out),
                  Repeats(how2, t, p, dir, cc, min, max, greedy, s2, out2))
    decreases p, Distance(t, dir, s) + 1, Rounds(min, max), Fuel(how) + Fuel(how2), 2
  {
    hide Inside, Twin, Known, Holds, Next, Repeats, RoundVerdict, Alike, ExitsAlike, Or, LoopPair, EmptyAlike;
    var n := Groups(p);
    HoldsHere(w.known, cc, n, s);
    ExitAlike(t, w, cc, n, s, out, out2, s, s2);
    RepeatsIs(how, t, p, dir, cc, min, max, greedy, s, out);
    RepeatsIs(how2, t, p, dir, cc, min, max, greedy, s2, out2);
    RoundsAlike(t, w, how, how2, p, dir, cc, min, max, greedy, s, s2, out, out2);
    var v, v2 := RoundVerdict(how, t, p, dir, cc, min, max, greedy, s, out),
                 RoundVerdict(how2, t, p, dir, cc, min, max, greedy, s2, out2);
    AlikeOr(t, w, v, v2, out(s), out2(s2));
    AlikeOr(t, w, out(s), out2(s2), v, v2);
  }

  // Empty rounds that are not mandatory: refused by both readings, counted by both, or endless in the second and,
  // when the first follows them, leading it to a place from where the second has been found endless.
  ghost predicate EmptyAlike(t: Text, w: Like, how: Reading, how2: Reading, p: Pattern, dir: Direction, cc: nat,
                             min: nat, max: nat, greedy: bool, s2: Place, out2: Exit)
    requires Inside(t, s2)
  {
    how == how2 || min > 0 || greedy || !w.exact
    || (if how2.Standard? then max == INF else max == INF && Fuel(how) > 0 ==>
        Repeats(how2, t, p, dir, cc, 0, INF, false, s2, out2).Never?)
  }

  lemma {:induction false} RoundsAlike(t: Text, w: Like, how: Reading, how2: Reading, p: Pattern, dir: Direction,
                                       cc: nat, min: nat, max: nat, greedy: bool,
                                       s: Place, s2: Place, out: Exit, out2: Exit)
    requires Matched(t, w, p, cc, s, s2) && ExitsAlike(t, w, cc, Groups(p), s, out, out2)
    requires LoopPair(w, how, how2, t, p, dir, cc, min, max, greedy)
    requires max > 0 && EmptyAlike(t, w, how, how2, p, dir, cc, min, max, greedy, s2, out2)
    ensures Alike(t, w, RoundVerdict(how, t, p, dir, cc, min, max, greedy, s, out),
                  RoundVerdict(how2, t, p, dir, cc, min, max, greedy, s2, out2))
    decreases p, Distance(t, dir, s) + 1, Rounds(min, max), Fuel(how) + Fuel(how2), 1
  {
    hide Inside, Twin, Known, Holds, Next, Does, Alike, ExitsAlike, Forget, EmptyAlike, Pair, Emittable, EmptyIdle;
    var n := Groups(p);
    var from, from2 := RoundFrom(how, cc, n, s), RoundFrom(how2, cc, n, s2);
    var next, next2 := Next(how, t, p, dir, cc, min, max, greedy, s, out),
                       Next(how2, t, p, dir, cc, min, max, greedy, s2, out2);
    ForgetTwin(t, w.known, cc, n, s, s2);
    forall q, q2 | Inside(t, q) && Inside(t, q2) && Twin(w.known, q, q2) && Holds(w.known, cc, n, from, q)
      ensures Alike(t, w, next(q), next2(q2))
    {
      ForgetHolds(w.known, cc, n, s, q);
      NextAlike(t, w, how, how2, p, dir, cc, min, max, greedy, s, s2, q, q2, out, out2);
    }
    ExitsBy(t, w, cc, n, from, next, next2);
    DoesAlike(t, w, how, how2, p, dir, cc, from, from2, next, next2);
  }

  lemma {:induction false} NextAlike(t: Text, w: Like, how: Reading, how2: Reading, p: Pattern, dir: Direction, cc: nat,
                                     min: nat, max: nat, greedy: bool,
                                     s: Place, s2: Place, q: Place, q2: Place, out: Exit, out2: Exit)
    requires Matched(t, w, p, cc, s, s2) && ExitsAlike(t, w, cc, Groups(p), s, out, out2)
    requires LoopPair(w, how, how2, t, p, dir, cc, min, max, greedy)
    requires max > 0 && EmptyAlike(t, w, how, how2, p, dir, cc, min, max, greedy, s2, out2)
    requires Inside(t, q) && Inside(t, q2) && Twin(w.known, q, q2) && Holds(w.known, cc, Groups(p), s, q)
    ensures Alike(t, w, Next(how, t, p, dir, cc, min, max, greedy, s, out)(q),
                  Next(how2, t, p, dir, cc, min, max, greedy, s2, out2)(q2))
    decreases p, Distance(t, dir, s) + 1, Rounds(min, max), Fuel(how) + Fuel(how2), 0
  {
    hide Inside, Known, Holds, Next, Alike, ExitsAlike, Repeats, Emittable, EmptyIdle, LazyRangesMove;
    var next, next2 := Next(how, t, p, dir, cc, min, max, greedy, s, out),
                       Next(how2, t, p, dir, cc, min, max, greedy, s2, out2);
    FailsAlike(t, w);
    NeverAlike(t, w, next2(q2));
    NextCases(how, t, p, dir, cc, min, max, greedy, s, q, out);
    NextCases(how2, t, p, dir, cc, min, max, greedy, s2, q2, out2);
    if Onward(t, dir, s, q) {
      ExitsFrom(t, w, cc, Groups(p), s, out, out2, cc, Groups(p), q);
      if !(min == 0 && q.at == s.at && (greedy || how.Standard? || max == INF)) {
        OnwardNearer(t, dir, min, max, s, q);
        LoopPairLess(w, how, how2, t, p, dir, cc, min, max, greedy);
        RepeatsAlike(t, w, how, how2, p, dir, cc, if min > 0 then min - 1 else 0, Less(max), greedy, q, q2, out, out2);
      } else if max == INF && !greedy && how.Running? && how.f > 0 {
        if how == how2 {
          RepeatsAlike(t, w, Running(how.f - 1), Running(how.f - 1), p, dir, cc, 0, INF, false, q, q2, out, out2);
        } else {
          TwinStays(w.known, cc, Groups(p), s, s2, q);
          RepeatsAlike(t, w, Running(how.f - 1), how2, p, dir, cc, 0, INF, false, q, s2, out, out2);
          NeverLike(t, w, next(q), Repeats(how2, t, p, dir, cc, 0, INF, false, s2, out2));
        }
      }
    }
  }

  lemma LoopPairLess(w: Like, how: Reading, how2: Reading, t: Text, p: Pattern, dir: Direction, cc: nat, min: nat,
                     max: nat, greedy: bool)
    requires max > 0 && LoopPair(w, how, how2, t, p, dir, cc, min, max, greedy)
    ensures LoopPair(w, how, how2, t, p, dir, cc, if min > 0 then min - 1 else 0, Less(max), greedy)
  {
    hide Pair, AlwaysMoves, EmptiesLast, Outside, Emittable;
  }

  lemma NeverLike(t: Text, w: Like, u: Verdict, v: Verdict)
    requires w.exact && Alike(t, w, u, v) && v.Never?
    ensures u.Never?
  {
  }

  // An empty round changes nothing outside its atom.
  lemma TwinStays(known: set<nat>, cc: nat, n: nat, s: Place, s2: Place, q: Place)
    requires Twin(known, s, s2) && Outside(known, cc, n) && Holds(known, cc, n, s, q) && q.at == s.at
    ensures Twin(known, q, s2) && Twin(known, q, s)
  {
  }

  // The unbounded lazy loop.
  lemma {:induction false} LoopAlike(t: Text, w: Like, how: Reading, how2: Reading, p: Pattern, dir: Direction, cc: nat,
                                     s: Place, s2: Place, out: Exit, out2: Exit)
    requires Matched(t, w, p, cc, s, s2) && ExitsAlike(t, w, cc, Groups(p), s, out, out2)
    requires LoopPair(w, how, how2, t, p, dir, cc, 0, INF, false)
    requires w.exact && how != how2
    ensures Alike(t, w, Repeats(how, t, p, dir, cc, 0, INF, false, s, out),
                  Repeats(how2, t, p, dir, cc, 0, INF, false, s2, out2))
    decreases p, Distance(t, dir, s) + 1, Rounds(0, INF), Fuel(how) + Fuel(how2), 3
  {
    hide Inside, Twin, Known, Holds, Next, Repeats, RoundVerdict, Alike, ExitsAlike, Or, LazyRangesMove, Emittable;
    hide EmptyIdle;
    if how2.Standard? || Repeats(how2, t, p, dir, cc, 0, INF, false, s2, out2).Never? {
      RoundAlike(t, w, how, how2, p, dir, cc, 0, INF, false, s, s2, out, out2);
    } else {
      var n := Groups(p);
      HoldsHere(w.known, cc, n, s);
      ExitAlike(t, w, cc, n, s, out, out2, s, s2);
      RepeatsIs(how, t, p, dir, cc, 0, INF, false, s, out);
      RepeatsIs(how2, t, p, dir, cc, 0, INF, false, s2, out2);
      LoopBack(t, w, how, how2, p, dir, cc, s, s2, out, out2);
    }
  }

  // Left without going round in an empty round, however often it may.
  lemma {:induction false} LoopBack(t: Text, w: Like, how: Reading, how2: Reading, p: Pattern, dir: Direction, cc: nat,
                                    s: Place, s2: Place, out: Exit, out2: Exit)
    requires Matched(t, w, p, cc, s, s2) && ExitsAlike(t, w, cc, Groups(p), s, out, out2)
    requires LoopPair(w, how, how2, t, p, dir, cc, 0, INF, false)
    requires w.exact && how != how2 && !how2.Standard? && Alike(t, w, out(s), out2(s2))
    requires !Or(out2(s2), RoundVerdict(how2, t, p, dir, cc, 0, INF, false, s2, out2)).Never?
    ensures Alike(t, w, Or(out(s), RoundVerdict(how, t, p, dir, cc, 0, INF, false, s, out)),
                  Or(out2(s2), RoundVerdict(how2, t, p, dir, cc, 0, INF, false, s2, out2)))
    decreases p, Distance(t, dir, s) + 1, Rounds(0, INF), Fuel(how) + Fuel(how2), 2
  {
    hide Inside, Known, Holds, Next, Repeats, RoundVerdict, Alike, ExitsAlike, Or, LazyRangesMove, Emittable, EmptyIdle;
    hide Outside;
    var w2 := Like(false, w.known, w.good);
    ExitsBack(t, w, cc, Groups(p), s, s2, out, out2);
    TwinBack(w.known, s, s2);
    RoundsAlike(t, w2, how2, how, p, dir, cc, 0, INF, false, s2, s, out2, out);
    LeftAlike(t, w, out(s), out2(s2), RoundVerdict(how, t, p, dir, cc, 0, INF, false, s, out),
              RoundVerdict(how2, t, p, dir, cc, 0, INF, false, s2, out2));
  }

  lemma TwinBack(known: set<nat>, q: Place, q2: Place)
    requires Twin(known, q, q2)
    ensures Twin(known, q2, q)
  {
  }

  lemma LeftAlike(t: Text, w: Like, u: Verdict, u2: Verdict, v: Verdict, v2: Verdict)
    requires w.exact && Alike(t, w, u, u2) && Alike(t, Like(false, w.known, w.good), v2, v) && !Or(u2, v2).Never?
    ensures Alike(t, w, Or(u, v), Or(u2, v2))
  {
  }

  lemma {:induction false} ExitsBack(t: Text, w: Like, cc: nat, n: nat, s: Place, s2: Place, out: Exit, out2: Exit)
    requires w.exact && ExitsAlike(t, w, cc, n, s, out, out2) && Twin(w.known, s, s2)
    ensures ExitsAlike(t, Like(false, w.known, w.good), cc, n, s2, out2, out)
  {
    hide Inside, ExitsAlike;
    var w2 := Like(false, w.known, w.good);
    forall q2, q | Inside(t, q2) && Inside(t, q) && Twin(w.known, q2, q) && Holds(w.known, cc, n, s2, q2)
      ensures Alike(t, w2, out2(q2), out(q))
    {
      assert Holds(w.known, cc, n, s, q);
      ExitAlike(t, w, cc, n, s, out, out2, q, q2);
    }
    ExitsBy(t, w2, cc, n, s2, out2, out);
  }

  // What comes of a place does not hang on slots outside known.
  lemma {:induction false} ExitsSelf(t: Text, w: Like, cc: nat, n: nat, s: Place, out: Exit, out2: Exit)
    requires w.exact && ExitsAlike(t, w, cc, n, s, out, out2)
    ensures ExitsAlike(t, w, cc, n, s, out, out)
  {
    hide Inside, ExitsAlike;
    forall q, r | Inside(t, q) && Inside(t, r) && Twin(w.known, q, r) && Holds(w.known, cc, n, s, q)
      ensures Alike(t, w, out(q), out(r))
    {
      assert Holds(w.known, cc, n, s, r) && Twin(w.known, r, r);
      ExitAlike(t, w, cc, n, s, out, out2, q, r);
      ExitAlike(t, w, cc, n, s, out, out2, r, r);
    }
    ExitsBy(t, w, cc, n, s, out, out);
  }

  // A pattern changes no captures but those of its groups.

  ghost predicate AllHold(known: set<nat>, cc: nat, n: nat, s: Place, ends: seq<Place>) {
    forall k :: 0 <= k < |ends| ==> Holds(known, cc, n, s, ends[k])
  }

  lemma AllHoldAppend(known: set<nat>, cc: nat, n: nat, s: Place, a: seq<Place>, b: seq<Place>)
    requires AllHold(known, cc, n, s, a) && AllHold(known, cc, n, s, b)
    ensures AllHold(known, cc, n, s, a + b)
  {
    hide Holds;
  }

  // From a place on the way, and through fewer groups.
  lemma {:induction false} AllHoldFrom(known: set<nat>, cc: nat, n: nat, s: Place, lo: nat, m: nat, q: Place,
                                       ends: seq<Place>)
    requires Holds(known, cc, n, s, q) && AllHold(known, lo, m, q, ends) && cc <= lo && lo + m <= cc + n
    ensures AllHold(known, cc, n, s, ends)
  {
    forall k | 0 <= k < |ends| ensures Holds(known, cc, n, s, ends[k]) { assert Holds(known, lo, m, q, ends[k]); }
  }

  lemma {:induction false} EndsHold(known: set<nat>, rules: Rules, t: Text, p: Pattern, dir: Direction, cc: nat,
                                    s: Place)
    requires Inside(t, s)
    ensures AllHold(known, cc, Groups(p), s, Ends(rules, t, p, dir, cc, s))
    decreases p, 0, 0, 1, 0
  {
    hide Ends, Inside, AllHold, Holds;
    var n := Groups(p);
    HoldsHere(known, cc, n, s);
    if p.Group? {
      GroupHolds(known, rules, t, p, dir, cc, s);
    } else if p.Look? {
      var d := if p.behind then Backward else Forward;
      EndsHold(known, rules, t, p.body, d, cc, s);
      LookHolds(known, rules, t, p, dir, cc, s);
    } else if p.Cat? {
      var a, b := FirstHalf(p, dir, cc), SecondHalf(p, dir, cc);
      CatEnds(rules, t, p, dir, cc, s);
      EndsHold(known, rules, t, a.p, dir, a.cc, s);
      var starts := Ends(rules, t, a.p, dir, a.cc, s);
      AllHoldFrom(known, cc, n, s, a.cc, Groups(a.p), s, starts);
      FromHold(known, rules, t, b.p, dir, b.cc, cc, n, s, starts);
    } else if p.Alt? {
      var cb := cc + Groups(p.left);
      AltEnds(rules, t, p, dir, cc, s);
      EndsHold(known, rules, t, p.left, dir, cc, s);
      EndsHold(known, rules, t, p.right, dir, cb, s);
      AllHoldFrom(known, cc, n, s, cc, Groups(p.left), s, Ends(rules, t, p.left, dir, cc, s));
      AllHoldFrom(known, cc, n, s, cb, Groups(p.right), s, Ends(rules, t, p.right, dir, cb, s));
      AllHoldAppend(known, cc, n, s, Ends(rules, t, p.left, dir, cc, s), Ends(rules, t, p.right, dir, cb, s));
    } else if p.Quant? {
      QuantHolds(known, rules, t, p, dir, cc, s);
    } else {
      LeafHolds(known, rules, t, p, dir, cc, s);
    }
  }

  lemma {:induction false} LeafHolds(known: set<nat>, rules: Rules, t: Text, p: Pattern, dir: Direction, cc: nat,
                                     s: Place)
    requires Inside(t, s) && (p.Empty? || p.Test? || p.Reference? || OneChar(p))
    ensures AllHold(known, cc, Groups(p), s, Ends(rules, t, p, dir, cc, s))
  {
    hide Accepts, AtEdge, Repeated, RepeatedBack, Inside, Ahead;
    var ends := Ends(rules, t, p, dir, cc, s);
    if OneChar(p) { assert ends == OneEnd(t, p, dir, s); }
    assert forall k :: 0 <= k < |ends| ==> ends[k].caps == s.caps;
  }

  lemma {:induction false} GroupHolds(known: set<nat>, rules: Rules, t: Text, p: Pattern, dir: Direction, cc: nat,
                                      s: Place)
    requires Inside(t, s) && p.Group?
    ensures AllHold(known, cc, Groups(p), s, Ends(rules, t, p, dir, cc, s))
    decreases p, 0, 0, 0, 0
  {
    hide Inside, Holds, Mark, Repeat, EndsFrom, OneEnd, Referenced, Ahead;
    var o, c, n := OpenSlot(dir, cc), CloseSlot(dir, cc), Groups(p.body);
    MarkInside(t, s, o);
    EndsHold(known, rules, t, p.body, dir, cc + 1, Mark(s, o));
    var inner := Ends(rules, t, p.body, dir, cc + 1, Mark(s, o));
    assert Ends(rules, t, p, dir, cc, s) == MarkAll(inner, c);
    forall k | 0 <= k < |inner| ensures Holds(known, cc, n + 1, s, Mark(inner[k], c)) {
      MarkHolds(known, dir, cc, n, s, inner[k]);
    }
  }

  lemma {:induction false} LookHolds(known: set<nat>, rules: Rules, t: Text, p: Pattern, dir: Direction, cc: nat,
                                     s: Place)
    requires Inside(t, s) && p.Look?
    requires AllHold(known, cc, Groups(p), s, Ends(rules, t, p.body, if p.behind then Backward else Forward, cc, s))
    ensures AllHold(known, cc, Groups(p), s, Ends(rules, t, p, dir, cc, s))
  {
    hide Inside, Repeat, EndsFrom, OneEnd, Referenced, Ahead;
    HoldsHere(known, cc, Groups(p), s);
  }

  lemma {:induction false} FromHold(known: set<nat>, rules: Rules, t: Text, p: Pattern, dir: Direction, lo: nat,
                                    cc: nat, n: nat, s: Place, starts: seq<Place>)
    requires Inside(t, s) && AllAhead(t, dir, s, starts) && AllHold(known, cc, n, s, starts) && cc <= lo
    requires lo + Groups(p) <= cc + n
    ensures AllHold(known, cc, n, s, EndsFrom(rules, t, p, dir, lo, s, starts))
    decreases p, 0, 0, 2, |starts|
  {
    hide Ends, Inside, Ahead, Holds;
    if starts != [] {
      AheadHead(t, dir, s, starts);
      EndsHold(known, rules, t, p, dir, lo, starts[0]);
      AllHoldFrom(known, cc, n, s, lo, Groups(p), starts[0], Ends(rules, t, p, dir, lo, starts[0]));
      FromHold(known, rules, t, p, dir, lo, cc, n, s, starts[1..]);
      AllHoldAppend(known, cc, n, s, Ends(rules, t, p, dir, lo, starts[0]),
                    EndsFrom(rules, t, p, dir, lo, s, starts[1..]));
    }
  }

  lemma {:induction false} QuantHolds(known: set<nat>, rules: Rules, t: Text, p: Pattern, dir: Direction, cc: nat,
                                      s: Place)
    requires Inside(t, s) && p.Quant?
    ensures AllHold(known, cc, Groups(p), s, Ends(rules, t, p, dir, cc, s))
    decreases p, 0, 0, 0, 0
  {
    hide Inside, Repeat, Ends, AllHold, Holds, Forget;
    var n, how := Groups(p.body), if rules.Ecma? then Standard else Listed;
    var q := FirstFrom(how, cc, n, p.min, s);
    ForgetInside(t, s, cc, n);
    HoldsHere(known, cc, n, s);
    ForgetHolds(known, cc, n, s, s);
    QuantEndsIs(how, t, p, dir, cc, s, q);
    RepeatHolds(known, rules, t, p.body, dir, cc, p.min, p.max, p.greedy, q);
    AllHoldFrom(known, cc, n, s, cc, n, q, Repeat(rules, t, p.body, dir, cc, p.min, p.max, p.greedy, q));
  }

  lemma {:induction false} RepeatHolds(known: set<nat>, rules: Rules, t: Text, p: Pattern, dir: Direction, cc: nat,
                                       min: nat, max: nat, greedy: bool, s: Place)
    requires Inside(t, s)
    ensures AllHold(known, cc, Groups(p), s, Repeat(rules, t, p, dir, cc, min, max, greedy, s))
    decreases p, Distance(t, dir, s) + 1, Rounds(min, max), 1, 0
  {
    hide Inside, Repeat, RepeatFrom, Ends, Holds, Forget, Rounded;
    var n := Groups(p);
    HoldsHere(known, cc, n, s);
    if max == 0 {
      assert Repeat(rules, t, p, dir, cc, min, 0, greedy, s) == [s] by {
        ZeroRounds(rules, t, p, dir, cc, min, greedy, s);
      }
    } else {
      var kept := Rounded(rules, t, p, dir, cc, min, max, greedy, s);
      RoundedHold(known, rules, t, p, dir, cc, min, max, greedy, s);
      RepeatFromHolds(known, rules, t, p, dir, cc, min, max, greedy, s, kept);
      RepeatIsRounded(rules, t, p, dir, cc, min, max, greedy, s);
      var more := RepeatFrom(rules, t, p, dir, cc, min, max, greedy, s, kept);
      AllHoldAppend(known, cc, n, s, [s], more);
      AllHoldAppend(known, cc, n, s, more, [s]);
    }
  }

  lemma {:induction false} RoundedHold(known: set<nat>, rules: Rules, t: Text, p: Pattern, dir: Direction, cc: nat,
                                       min: nat, max: nat, greedy: bool, s: Place)
    requires Inside(t, s)
    ensures AllHold(known, cc, Groups(p), s, Rounded(rules, t, p, dir, cc, min, max, greedy, s))
    decreases p, Distance(t, dir, s) + 1, Rounds(min, max), 0, 0
  {
    hide Inside, Ends, Holds, Forget, Kept;
    var n, how := Groups(p), if rules.Ecma? then Standard else Listed;
    var from := RoundFrom(how, cc, n, s);
    ForgetInside(t, s, cc, n);
    EndsHold(known, rules, t, p, dir, cc, from);
    RoundedReads(how, t, p, dir, cc, min, max, greedy, s);
    var ends, kept := Ends(rules, t, p, dir, cc, from), Rounded(rules, t, p, dir, cc, min, max, greedy, s);
    forall k | 0 <= k < |kept| ensures Holds(known, cc, n, s, kept[k]) {
      var j :| 0 <= j < |ends| && ends[j] == kept[k];
      assert Holds(known, cc, n, from, ends[j]);
      ForgetHolds(known, cc, n, s, kept[k]);
    }
  }

  lemma {:induction false} RepeatFromHolds(known: set<nat>, rules: Rules, t: Text, p: Pattern, dir: Direction, cc: nat,
                                           min: nat, max: nat, greedy: bool, s: Place, starts: seq<Place>)
    requires Inside(t, s) && max > 0 && AllAhead(t, dir, s, starts)
    requires (MustMove(rules, min, max, greedy) ==> AllMove(s, starts))
    requires AllHold(known, cc, Groups(p), s, starts)
    ensures AllHold(known, cc, Groups(p), s, RepeatFrom(rules, t, p, dir, cc, min, max, greedy, s, starts))
    decreases p, Distance(t, dir, s) + 1, Rounds(min, max), 0, |starts|
  {
    hide Inside, Repeat, RepeatFrom, Ahead, Holds, AllAhead, Positions;
    var n := Groups(p);
    if starts == [] {
      RepeatFromNone(rules, t, p, dir, cc, min, max, greedy, s);
    } else {
      var q, min2 := starts[0], if min > 0 then min - 1 else 0;
      AheadHead(t, dir, s, starts);
      RoundNearer(rules, t, dir, min, max, greedy, s, q);
      RepeatFromHead(rules, t, p, dir, cc, min, max, greedy, s, starts);
      RepeatHolds(known, rules, t, p, dir, cc, min2, Less(max), greedy, q);
      AllHoldFrom(known, cc, n, s, cc, n, q, Repeat(rules, t, p, dir, cc, min2, Less(max), greedy, q));
      RepeatFromHolds(known, rules, t, p, dir, cc, min, max, greedy, s, starts[1..]);
      AllHoldAppend(known, cc, n, s, Repeat(rules, t, p, dir, cc, min2, Less(max), greedy, q),
                    RepeatFrom(rules, t, p, dir, cc, min, max, greedy, s, starts[1..]));
    }
  }

  // A bounded lazy loop: the code counts empty rounds, RepeatMatcher refuses them.

  // Leaving out the places at x.
  function Leaving(x: nat, out: Exit): Exit { (q: Place) => if q.at == x then Fails else out(q) }

  lemma {:induction false} RangeAlike(t: Text, w: Like, how: Reading, how2: Reading, p: Pattern, dir: Direction,
                                      cc: nat, max: nat, s: Place, s2: Place, out: Exit, out2: Exit)
    requires Matched(t, w, p, cc, s, s2) && ExitsAlike(t, w, cc, Groups(p), s, out, out2)
    requires LoopPair(w, how, how2, t, p, dir, cc, 0, max, false)
    requires w.exact && how.Listed? && how2.Standard? && 0 < max < INF
    ensures Alike(t, w, Repeats(how, t, p, dir, cc, 0, max, false, s, out),
                  Repeats(how2, t, p, dir, cc, 0, max, false, s2, out2))
    decreases p, Distance(t, dir, s) + 1, Rounds(0, max), Fuel(how) + Fuel(how2), 3
  {
    hide Inside, Twin, Known, Holds, Next, Does, Repeats, Alike, ExitsAlike, Or, LazyRangesMove, Emittable, EmptyIdle;
    hide Outside, Forget;
    var n := Groups(p);
    var from2 := RoundFrom(how2, cc, n, s2);
    var next, next2 := Next(how, t, p, dir, cc, 0, max, false, s, out),
                       Next(how2, t, p, dir, cc, 0, max, false, s2, out2);
    HoldsHere(w.known, cc, n, s);
    ExitAlike(t, w, cc, n, s, out, out2, s, s2);
    RepeatsIs(how, t, p, dir, cc, 0, max, false, s, out);
    RepeatsIs(how2, t, p, dir, cc, 0, max, false, s2, out2);
    if out(s).Fails? {
      ForgetTwin(t, w.known, cc, n, s, s2);
      ExitsSelf(t, w, cc, n, s, out, out2);
      assert Twin(w.known, s, s) by { TwinSelf(w.known, s); }
      EmptiesLeft(t, w, p, dir, cc, max, s, out);
      forall q, q2 | Inside(t, q) && Inside(t, q2) && Twin(w.known, q, q2) && Holds(w.known, cc, n, s, q)
        ensures Alike(t, w, Leaving(s.at, next)(q), next2(q2))
      {
        LeavingAlike(t, w, p, dir, cc, max, s, s2, q, q2, out, out2);
      }
      ExitsBy(t, w, cc, n, s, Leaving(s.at, next), next2);
      DoesAlike(t, w, how, how2, p, dir, cc, s, from2, Leaving(s.at, next), next2);
      AlikeOr(t, w, out(s), out2(s2), Does(how, t, p, dir, cc, s, next), Does(how2, t, p, dir, cc, from2, next2));
    } else {
      SettledAlike(t, w, out(s), out2(s2), RoundVerdict(how, t, p, dir, cc, 0, max, false, s, out),
                   RoundVerdict(how2, t, p, dir, cc, 0, max, false, s2, out2));
    }
  }

  lemma TwinSelf(known: set<nat>, s: Place)
    ensures Twin(known, s, s)
  {
  }

  lemma SettledAlike(t: Text, w: Like, u: Verdict, u2: Verdict, v: Verdict, v2: Verdict)
    requires w.exact && Alike(t, w, u, u2) && !u.Fails?
    ensures Alike(t, w, Or(u, v), Or(u2, v2))
  {
  }

  lemma {:induction false} LeavingAlike(t: Text, w: Like, p: Pattern, dir: Direction, cc: nat, max: nat, s: Place,
                                        s2: Place, q: Place, q2: Place, out: Exit, out2: Exit)
    requires Matched(t, w, p, cc, s, s2) && ExitsAlike(t, w, cc, Groups(p), s, out, out2)
    requires LoopPair(w, Listed, Standard, t, p, dir, cc, 0, max, false)
    requires 0 < max < INF && Inside(t, q) && Inside(t, q2) && Twin(w.known, q, q2)
    requires Holds(w.known, cc, Groups(p), s, q)
    ensures Alike(t, w, Leaving(s.at, Next(Listed, t, p, dir, cc, 0, max, false, s, out))(q),
                  Next(Standard, t, p, dir, cc, 0, max, false, s2, out2)(q2))
    decreases p, Distance(t, dir, s) + 1, Rounds(0, max), 0, 1
  {
    hide Inside, Known, Holds, Next, Repeats, Alike, ExitsAlike, Emittable, EmptyIdle, LazyRangesMove;
    FailsAlike(t, w);
    NextCases(Listed, t, p, dir, cc, 0, max, false, s, q, out);
    NextCases(Standard, t, p, dir, cc, 0, max, false, s2, q2, out2);
    if Onward(t, dir, s, q) && q.at != s.at {
      ExitsFrom(t, w, cc, Groups(p), s, out, out2, cc, Groups(p), q);
      OnwardNearer(t, dir, 0, max, s, q);
      LoopPairLess(w, Listed, Standard, t, p, dir, cc, 0, max, false);
      RepeatsAlike(t, w, Listed, Standard, p, dir, cc, 0, max - 1, false, q, q2, out, out2);
    }
  }

  // The rounds from x fail, n of them at most.
  ghost predicate RoundsFail(t: Text, p: Pattern, dir: Direction, cc: nat, n: nat, x: Place, out: Exit) {
    Inside(t, x) && Repeats(Listed, t, p, dir, cc, 0, n, false, x, out).Fails?
  }

  ghost predicate EachFails(t: Text, p: Pattern, dir: Direction, cc: nat, n: nat, ends: seq<Place>, out: Exit) {
    forall k :: 0 <= k < |ends| ==> RoundsFail(t, p, dir, cc, n, ends[k], out)
  }

  lemma {:induction false} NextsFail(t: Text, p: Pattern, dir: Direction, cc: nat, n: nat, s: Place, ends: seq<Place>,
                                     out: Exit)
    requires Inside(t, s) && 0 < n < INF && AllAhead(t, dir, s, ends)
    ensures FirstVerdict(Next(Listed, t, p, dir, cc, 0, n, false, s, out), ends).Fails? <==>
      EachFails(t, p, dir, cc, n - 1, ends, out)
    decreases |ends|
  {
    hide Inside, Next, Repeats, AllAhead, Ahead;
    if ends != [] {
      AheadHead(t, dir, s, ends);
      AheadOn(t, dir, s, ends[0]);
      NextCases(Listed, t, p, dir, cc, 0, n, false, s, ends[0], out);
      NextsFail(t, p, dir, cc, n, s, ends[1..], out);
      assert forall k :: 0 <= k < |ends[1..]| ==> ends[1..][k] == ends[k + 1];
      assert forall k :: 0 < k < |ends| ==> ends[k] == ends[1..][k - 1];
    }
  }

  lemma {:induction false} RoundsFailIff(t: Text, p: Pattern, dir: Direction, cc: nat, n: nat, s: Place, out: Exit)
    requires Inside(t, s) && 0 < n < INF && Emittable(p, cc)
    ensures RoundsFail(t, p, dir, cc, n, s, out) <==>
      out(s).Fails? && EachFails(t, p, dir, cc, n - 1, Ends(Code, t, p, dir, cc, s), out)
  {
    hide Inside, Next, Repeats, Ends, Does, Emittable, FirstVerdict;
    var next := Next(Listed, t, p, dir, cc, 0, n, false, s, out);
    RepeatsIs(Listed, t, p, dir, cc, 0, n, false, s, out);
    DoesList(Listed, t, p, dir, cc, s, next, true);
    NextsFail(t, p, dir, cc, n, s, Ends(Code, t, p, dir, cc, s), out);
  }

  // Fewer rounds fail, too.
  lemma {:induction false} FewerFail(t: Text, p: Pattern, dir: Direction, cc: nat, k: nat, n: nat, s: Place, out: Exit)
    requires k <= n < INF && Emittable(p, cc) && RoundsFail(t, p, dir, cc, n, s, out)
    ensures RoundsFail(t, p, dir, cc, k, s, out)
    decreases k
  {
    hide Inside, Repeats, Ends, Emittable;
    if n > 0 { RoundsFailIff(t, p, dir, cc, n, s, out); }
    if k == 0 {
      RepeatsIs(Listed, t, p, dir, cc, 0, 0, false, s, out);
      RepeatsIs(Listed, t, p, dir, cc, 0, n, false, s, out);
    } else {
      var ends := Ends(Code, t, p, dir, cc, s);
      forall j | 0 <= j < |ends| ensures RoundsFail(t, p, dir, cc, k - 1, ends[j], out) {
        assert RoundsFail(t, p, dir, cc, n - 1, ends[j], out);
        FewerFail(t, p, dir, cc, k - 1, n - 1, ends[j], out);
      }
      RoundsFailIff(t, p, dir, cc, k, s, out);
    }
  }

  // Nothing from the ends that have moved, so nothing from the place itself in fewer rounds.
  lemma {:induction false} StillFail(t: Text, w: Like, p: Pattern, dir: Direction, cc: nat, k: nat, max: nat, s: Place,
                                     out: Exit)
    requires Matched(t, w, p, cc, s, s) && ExitsAlike(t, w, cc, Groups(p), s, out, out)
    requires LoopPair(w, Listed, Standard, t, p, dir, cc, 0, max, false)
    requires w.exact && k < max < INF && out(s).Fails?
    requires EachFails(t, p, dir, cc, max - 1, Moved(s, Ends(Code, t, p, dir, cc, s)), out)
    ensures RoundsFail(t, p, dir, cc, k, s, out)
    decreases p, Distance(t, dir, s) + 1, k, 0, 6
  {
    hide Inside, Repeats, Ends, Emittable, ExitsAlike, Known, Holds, Twin, LazyRangesMove, EmptyIdle, Outside, Moved;
    if k == 0 {
      RepeatsIs(Listed, t, p, dir, cc, 0, 0, false, s, out);
    } else {
      var ends := Ends(Code, t, p, dir, cc, s);
      StillFail(t, w, p, dir, cc, k - 1, max, s, out);
      forall j | 0 <= j < |ends| ensures RoundsFail(t, p, dir, cc, k - 1, ends[j], out) {
        if ends[j].at == s.at {
          TwinFails(t, w, p, dir, cc, k - 1, s, j, out);
        } else {
          var i := KeptIndex(s, ends, j);
          assert RoundsFail(t, p, dir, cc, max - 1, ends[j], out);
          FewerFail(t, p, dir, cc, k - 1, max - 1, ends[j], out);
        }
      }
      RoundsFailIff(t, p, dir, cc, k, s, out);
    }
  }

  // Nothing from the place, so nothing from an empty end.
  lemma {:induction false} TwinFails(t: Text, w: Like, p: Pattern, dir: Direction, cc: nat, k: nat, s: Place, j: nat,
                                     out: Exit)
    requires Matched(t, w, p, cc, s, s) && ExitsAlike(t, w, cc, Groups(p), s, out, out)
    requires Outside(w.known, cc, Groups(p)) && Emittable(p, cc)
    requires w.exact && k < INF && j < |Ends(Code, t, p, dir, cc, s)| && Ends(Code, t, p, dir, cc, s)[j].at == s.at
    requires RoundsFail(t, p, dir, cc, k, s, out)
    ensures RoundsFail(t, p, dir, cc, k, Ends(Code, t, p, dir, cc, s)[j], out)
    decreases p, Distance(t, dir, s) + 1, k, 0, 5
  {
    hide Inside, Repeats, Ends, Emittable, ExitsAlike, Known, LazyRangesMove, Outside, Holds;
    var n, e := Groups(p), Ends(Code, t, p, dir, cc, s)[j];
    InsideAhead(t, dir, s, e);
    EndsHold(w.known, Code, t, p, dir, cc, s);
    assert Holds(w.known, cc, n, s, e);
    assert Twin(w.known, s, s);
    TwinStays(w.known, cc, n, s, s, e);
    ExitsFrom(t, w, cc, n, s, out, out, cc, n, e);
    RepeatsAlike(t, w, Listed, Listed, p, dir, cc, 0, k, false, e, s, out, out);
  }

  // So the empty ends may be left out.
  lemma {:induction false} EmptiesLeft(t: Text, w: Like, p: Pattern, dir: Direction, cc: nat, max: nat, s: Place,
                                       out: Exit)
    requires Matched(t, w, p, cc, s, s) && ExitsAlike(t, w, cc, Groups(p), s, out, out)
    requires LoopPair(w, Listed, Standard, t, p, dir, cc, 0, max, false)
    requires w.exact && 0 < max < INF && out(s).Fails?
    ensures var next := Next(Listed, t, p, dir, cc, 0, max, false, s, out);
      Does(Listed, t, p, dir, cc, s, next) == Does(Listed, t, p, dir, cc, s, Leaving(s.at, next))
    decreases p, Distance(t, dir, s) + 1, Rounds(0, max), 0, 2
  {
    hide Inside, Repeats, Ends, Does, Emittable, ExitsAlike, Known, Holds, Twin, LazyRangesMove, EmptyIdle, Outside;
    hide Next, FirstVerdict, Leaving;
    var next, ends := Next(Listed, t, p, dir, cc, 0, max, false, s, out), Ends(Code, t, p, dir, cc, s);
    DoesList(Listed, t, p, dir, cc, s, next, true);
    DoesList(Listed, t, p, dir, cc, s, Leaving(s.at, next), true);
    if max == 1 || EachFails(t, p, dir, cc, max - 1, Moved(s, ends), out) {
      if max == 1 { RepeatsIs(Listed, t, p, dir, cc, 0, 0, false, s, out); }
          else { StillFail(t, w, p, dir, cc, max - 1, max, s, out); }
      forall j | 0 <= j < |ends| && ends[j].at == s.at ensures next(ends[j]).Fails? {
        TwinFails(t, w, p, dir, cc, max - 1, s, j, out);
        EndOn(t, dir, s, ends, j);
        NextCases(Listed, t, p, dir, cc, 0, max, false, s, ends[j], out);
      }
      LeavingFails(next, s.at, ends);
    } else {
      LastEmpty(t, p, dir, cc, max, s);
      KeptRounds(t, dir, s, true, ends);
      NextsFail(t, p, dir, cc, max, s, Moved(s, ends), out);
      LeavingLast(next, s, ends);
    }
  }

  lemma EndOn(t: Text, dir: Direction, s: Place, ends: seq<Place>, j: nat)
    requires AllAhead(t, dir, s, ends) && j < |ends|
    ensures Inside(t, ends[j]) && Onward(t, dir, s, ends[j])
  {
    assert Ahead(t, dir, s, ends[j]);
  }

  lemma LastEmpty(t: Text, p: Pattern, dir: Direction, cc: nat, max: nat, s: Place)
    requires Inside(t, s) && EmptyIdle(t, p, dir, cc)
    ensures EmptyLast(s, Ends(Code, t, p, dir, cc, s))
  {
    hide Ends, Inside;
    if AlwaysMoves(t, p, dir, cc) { assert Moves(t, p, dir, cc, s); }
  }

  lemma {:induction false} LeavingFails(out: Exit, x: nat, ends: seq<Place>)
    requires forall j :: 0 <= j < |ends| && ends[j].at == x ==> out(ends[j]).Fails?
    ensures FirstVerdict(Leaving(x, out), ends) == FirstVerdict(out, ends)
  {
    if ends != [] {
      assert forall j :: 0 <= j < |ends[1..]| ==> ends[1..][j] == ends[j + 1];
      LeavingFails(out, x, ends[1..]);
    }
  }

  lemma {:induction false} LeavingLast(out: Exit, s: Place, ends: seq<Place>)
    requires EmptyLast(s, ends) && !FirstVerdict(out, Moved(s, ends)).Fails?
    ensures FirstVerdict(Leaving(s.at, out), ends) == FirstVerdict(out, ends)
  {
    hide FirstVerdict, Moved;
    MovedFirst(s, ends);
    var moved := Moved(s, ends);
    var rest := ends[|moved|..];
    assert ends == moved + rest;
    FirstVerdictAppend(out, moved, rest);
    FirstVerdictAppend(Leaving(s.at, out), moved, rest);
    LeavingFails(out, s.at, moved);
  }

  // Without groups to tell apart, a loop that has gone round in one empty round goes round for ever.
  lemma {:induction false} FuelDoesNotMatter(known: set<nat>, f: nat, t: Text, p: Pattern, dir: Direction, cc: nat,
                                             s: Place)
    requires Inside(t, s) && Known(known, p, cc) && Emittable(p, cc)
    ensures Does(Running(f), t, p, dir, cc, s, Won()).Never? <==> Does(Running(0), t, p, dir, cc, s, Won()).Never?
  {
    hide Inside, Does, Known, Emittable;
    var w := Like(true, known, (q: Place) => true);
    TwinSelf(known, s);
    WonAlike(t, w, cc, Groups(p), s);
    DoesAlike(t, w, Running(f), Running(0), p, dir, cc, s, s, Won(), Won());
  }

  // The first end that passes a test.
  function FirstThat(f: Place -> bool, ends: seq<Place>): Option<Place> {
    if ends == [] then None else if f(ends[0]) then Some(ends[0]) else FirstThat(f, ends[1..])
  }

  function Tested(f: Place -> bool): Exit { (q: Place) => if f(q) then Wins(q) else Fails }

  lemma {:induction false} FirstTested(f: Place -> bool, ends: seq<Place>)
    ensures FirstVerdict(Tested(f), ends) == var r := FirstThat(f, ends); if r.None? then Fails else Wins(r.value)
  {
    if ends != [] { FirstTested(f, ends[1..]); }
  }

  ghost predicate TwinOption(known: set<nat>, a: Option<Place>, b: Option<Place>) {
    if a.None? then b.None? else b.Some? && Twin(known, a.value, b.value)
  }

  // The code and RepeatMatcher choose the same end, by position and by the captures that back references name,
  // whatever is asked of those, where these groups lie outside every repetition and lazy quantifiers that leave a
  // choice of two rounds or more repeat atoms that move, or whose empty end is the last.
  lemma {:induction false} SameChoice(known: set<nat>, t: Text, p: Pattern, dir: Direction, cc: nat, s: Place,
                                      s2: Place, f: Place -> bool)
    requires Inside(t, s) && Inside(t, s2) && Twin(known, s, s2) && Known(known, p, cc) && Emittable(p, cc)
    requires LazyRangesMove(t, p, dir, cc)
    requires forall q, q2 :: Twin(known, q, q2) ==> f(q) == f(q2)
    ensures TwinOption(known, FirstThat(f, Ends(Code, t, p, dir, cc, s)), FirstThat(f, Ends(Ecma, t, p, dir, cc, s2)))
  {
    hide Inside, Does, Known, Emittable, Ends, LazyRangesMove, FirstVerdict, FirstThat, Twin, Holds;
    var w, out := Like(true, known, (q: Place) => true), Tested(f);
    forall q, q2 | Inside(t, q) && Inside(t, q2) && Twin(known, q, q2)
        && Holds(known, cc, Groups(p), s, q) ensures Alike(t, w, out(q), out(q2)) {}
    ExitsBy(t, w, cc, Groups(p), s, out, out);
    DoesAlike(t, w, Listed, Standard, p, dir, cc, s, s2, out, out);
    DoesList(Listed, t, p, dir, cc, s, out, true);
    DoesList(Standard, t, p, dir, cc, s2, out, true);
    FirstTested(f, Ends(Code, t, p, dir, cc, s));
    FirstTested(f, Ends(Ecma, t, p, dir, cc, s2));
  }

  // The slots of the groups outside every repetition.
  function Lasting(p: Pattern, cc: nat): set<nat> {
    match p
    case Group(b) => {2 * cc, 2 * cc + 1} + Lasting(b, cc + 1)
    case Look(_, _, b) => Lasting(b, cc)
    case Cat(a, b) => Lasting(a, cc) + Lasting(b, cc + Groups(a))
    case Alt(a, b) => Lasting(a, cc) + Lasting(b, cc + Groups(a))
    case _ => {}
  }

  predicate Names(known: set<nat>, p: Pattern) {
    match p
    case Reference(k) => 2 * k in known && 2 * k + 1 in known
    case Group(b) => Names(known, b)
    case Look(_, _, b) => Names(known, b)
    case Cat(a, b) => Names(known, a) && Names(known, b)
    case Alt(a, b) => Names(known, a) && Names(known, b)
    case Quant(b, _, _, _) => Names(known, b)
    case _ => true
  }

  // Back references, if any, name groups outside every repetition.
  predicate NamesLasting(p: Pattern) { Names(Lasting(p, 1), p) }

  lemma {:induction false} LastingIn(p: Pattern, cc: nat)
    ensures forall k :: k in Lasting(p, cc) ==> InGroups(cc, Groups(p), k)
  {
    match p
    case Group(b) => LastingIn(b, cc + 1);
    case Look(_, _, b) => LastingIn(b, cc);
    case Cat(a, b) => LastingIn(a, cc); LastingIn(b, cc + Groups(a));
    case Alt(a, b) => LastingIn(a, cc); LastingIn(b, cc + Groups(a));
    case _ =>
  }

  lemma {:induction false} LastingKnown(known: set<nat>, p: Pattern, cc: nat)
    requires Names(known, p) && forall k :: k in known && InGroups(cc, Groups(p), k) ==> k in Lasting(p, cc)
    ensures Known(known, p, cc)
    decreases p
  {
    match p
    case Group(b) =>
      LastingGroup(known, b, cc);
      LastingKnown(known, b, cc + 1);
    case Look(_, _, b) => LastingKnown(known, b, cc);
    case Cat(a, b) =>
      LastingHalves(known, a, b, cc);
      LastingKnown(known, a, cc);
      LastingKnown(known, b, cc + Groups(a));
    case Alt(a, b) =>
      LastingHalves(known, a, b, cc);
      LastingKnown(known, a, cc);
      LastingKnown(known, b, cc + Groups(a));
    case Quant(b, _, _, _) => LastingKnown(known, b, cc);
    case _ =>
  }

  lemma LastingGroup(known: set<nat>, b: Pattern, cc: nat)
    requires forall k :: k in known && InGroups(cc, 1 + Groups(b), k) ==> k in Lasting(Group(b), cc)
    ensures forall k :: k in known && InGroups(cc + 1, Groups(b), k) ==> k in Lasting(b, cc + 1)
  {
    forall k | k in known && InGroups(cc + 1, Groups(b), k) ensures k in Lasting(b, cc + 1) {
      assert InGroups(cc, 1 + Groups(b), k);
    }
  }

  lemma {:induction false} LastingHalves(known: set<nat>, a: Pattern, b: Pattern, cc: nat)
    requires forall k :: k in known && InGroups(cc, Groups(a) + Groups(b), k) ==>
      k in Lasting(a, cc) + Lasting(b, cc + Groups(a))
    ensures forall k :: k in known && InGroups(cc, Groups(a), k) ==> k in Lasting(a, cc)
    ensures forall k :: k in known && InGroups(cc + Groups(a), Groups(b), k) ==> k in Lasting(b, cc + Groups(a))
  {
    LastingIn(a, cc);
    LastingIn(b, cc + Groups(a));
    forall k | k in known && InGroups(cc, Groups(a), k) ensures k in Lasting(a, cc) {
      assert InGroups(cc, Groups(a) + Groups(b), k);
    }
    forall k | k in known && InGroups(cc + Groups(a), Groups(b), k) ensures k in Lasting(b, cc + Groups(a)) {
      assert InGroups(cc, Groups(a) + Groups(b), k);
    }
  }

  lemma {:induction false} PlainNames(known: set<nat>, p: Pattern)
    requires NoReferences(p)
    ensures Names(known, p)
  {
    match p
    case Group(b) => PlainNames(known, b);
    case Look(_, _, b) => PlainNames(known, b);
    case Cat(a, b) => PlainNames(known, a); PlainNames(known, b);
    case Alt(a, b) => PlainNames(known, a); PlainNames(known, b);
    case Quant(b, _, _, _) => PlainNames(known, b);
    case _ =>
  }

  // Whole programs.

  lemma {:induction false} GroupAgrees(t: Text, p: Pattern, s: Place)
    requires Inside(t, s) && Emittable(p, 1) && NamesLasting(p) && LazyRangesMove(t, p, Forward, 1)
    ensures FirstEnd(Ends(Code, t, Group(p), Forward, 0, s)) == FirstEnd(Ends(Ecma, t, Group(p), Forward, 0, s))
  {
    hide Ends, Inside, LazyRangesMove, Lasting, Names, Known, Emittable;
    var known, g, any := Lasting(p, 1), Group(p), (q: Place) => true;
    LastingKnown(known, p, 1);
    assert Known(known, g, 0) && Emittable(g, 0) && LazyRangesMove(t, g, Forward, 0) by { GroupFits(known, t, p); }
    TwinSelf(known, s);
    SameChoice(known, t, g, Forward, 0, s, s, any);
    FirstOfAny(any, Ends(Code, t, g, Forward, 0, s));
    FirstOfAny(any, Ends(Ecma, t, g, Forward, 0, s));
  }

  lemma GroupFits(known: set<nat>, t: Text, p: Pattern)
    requires Known(known, p, 1) && Emittable(p, 1) && LazyRangesMove(t, p, Forward, 1)
    ensures Known(known, Group(p), 0) && Emittable(Group(p), 0) && LazyRangesMove(t, Group(p), Forward, 0)
  {
  }

  lemma FirstOfAny(any: Place -> bool, ends: seq<Place>)
    requires forall q: Place :: any(q)
    ensures FirstThat(any, ends) == First(ends)
  {
  }

  lemma {:induction false} LeftmostAgrees(t: Text, p: Pattern, s: Place)
    requires Inside(t, s) && Emittable(p, 1) && NamesLasting(p) && LazyRangesMove(t, p, Forward, 1)
    ensures LeftmostEcma(t, p, s) == EndOf(Leftmost(t, p, s))
    decreases |t.units| - s.at
  {
    hide LazyRangesMove, NamesLasting, Ends, Emittable;
    GroupAgrees(t, p, s);
    if Ends(Code, t, Group(p), Forward, 0, s) == [] && s.at < |t.units| {
      LeftmostAgrees(t, p, s.(at := After(t, s.at, |t.units|)));
    }
  }

  // The compiled program ends where RepeatMatcher's match ends.
  lemma {:induction false} SearchIsEcma(m: Machine, p: Pattern, sticky: bool, s: Place)
    requires Emittable(p, 1) && NamesLasting(p) && LazyLoopsMove(m.t, p, Forward, 1)
    requires LazyRangesMove(m.t, p, Forward, 1)
    requires CodeAt(m.code, HEADER_LEN, ProgramCode(p, sticky)) && Inside(m.t, s) && Aligned(m.t, s.at)
    ensures exists found ::
      Reaches(m, Run(HEADER_LEN, s, [], []), Done(found)) && EcmaMatch(m.t, p, sticky, s) == EndOf(found)
  {
    hide CodeAt, ProgramCode, Reaches, Ends;
    var found := if sticky then First(Ends(Code, m.t, Group(p), Forward, 0, s)) else Leftmost(m.t, p, s);
    if sticky {
      RunEnds(m, p, true, s);
      GroupAgrees(m.t, p, s);
    } else {
      SearchEnds(m, p, s);
      LeftmostAgrees(m.t, p, s);
    }
    assert Reaches(m, Run(HEADER_LEN, s, [], []), Done(found));
  }
}
