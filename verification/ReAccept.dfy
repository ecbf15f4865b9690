// Which patterns the compiler accepts, told from the parts of the pattern (libregexp.c:56, 773-804 and 1255-1279).
module ReAccept {
  import opened RePattern
  import opened ReGen
  import opened ReEmit

  // The pattern and all of its parts.
  function Parts(p: Pattern): seq<Pattern> {
    [p] + match p
          case Group(b) => Parts(b)
          case Look(_, _, b) => Parts(b)
          case Cat(a, b) => Parts(a) + Parts(b)
          case Alt(a, b) => Parts(a) + Parts(b)
          case Quant(b, _, _, _) => Parts(b)
          case _ => []
  }

  function CountGroups(ps: seq<Pattern>): nat {
    if ps == [] then 0 else (if ps[0].Group? then 1 else 0) + CountGroups(ps[1..])
  }

  lemma {:induction false} CountAppend(a: seq<Pattern>, b: seq<Pattern>)
    ensures CountGroups(a + b) == CountGroups(a) + CountGroups(b)
  {
    if a == [] { assert a + b == b; } else { assert (a + b)[1..] == a[1..] + b; CountAppend(a[1..], b); }
  }

  // Every class has fewer than 65535 intervals, and every quantifier its counts in order.
  predicate ClassFits(q: Pattern) { q.Class? ==> |q.points| / 2 < 65535 }
  predicate CountsInOrder(q: Pattern) { q.Quant? ==> q.min <= q.max }
  ghost predicate AllFit(ps: seq<Pattern>) { forall k :: 0 <= k < |ps| ==> ClassFits(ps[k]) && CountsInOrder(ps[k]) }

  lemma AllFitAppend(a: seq<Pattern>, b: seq<Pattern>)
    ensures AllFit(a + b) <==> AllFit(a) && AllFit(b)
  {
    hide ClassFits, CountsInOrder;
    assert forall k :: 0 <= k < |a| ==> (a + b)[k] == a[k];
    assert forall k :: 0 <= k < |b| ==> (a + b)[|a| + k] == b[k];
  }

  lemma AllFitOne(p: Pattern)
    ensures AllFit([p]) <==> ClassFits(p) && CountsInOrder(p)
  {
    hide ClassFits, CountsInOrder;
    assert [p][0] == p;
  }

  lemma {:induction false} GroupsAreCounted(p: Pattern)
    ensures Groups(p) == CountGroups(Parts(p))
  {
    match p
    case Group(b) => GroupsAreCounted(b); CountAppend([p], Parts(b));
    case Look(_, _, b) => GroupsAreCounted(b); CountAppend([p], Parts(b));
    case Cat(a, b) =>
      GroupsAreCounted(a);
      GroupsAreCounted(b);
      CountAppend(Parts(a), Parts(b));
      CountAppend([p], Parts(a) + Parts(b));
    case Alt(a, b) =>
      GroupsAreCounted(a);
      GroupsAreCounted(b);
      CountAppend(Parts(a), Parts(b));
      CountAppend([p], Parts(a) + Parts(b));
    case Quant(b, _, _, _) => GroupsAreCounted(b); CountAppend([p], Parts(b));
    case _ => CountAppend([p], []);
  }

  lemma {:induction false} PartsFit(p: Pattern)
    ensures AllFit(Parts(p)) <==>
      ClassFits(p) && CountsInOrder(p)
      && match p
         case Group(b) => AllFit(Parts(b))
         case Look(_, _, b) => AllFit(Parts(b))
         case Cat(a, b) => AllFit(Parts(a)) && AllFit(Parts(b))
         case Alt(a, b) => AllFit(Parts(a)) && AllFit(Parts(b))
         case Quant(b, _, _, _) => AllFit(Parts(b))
         case _ => true
  {
    hide AllFit, ClassFits, CountsInOrder;
    AllFitOne(p);
    AllFitNone();
    match p
    case Group(b) => AllFitAppend([p], Parts(b));
    case Look(_, _, b) => AllFitAppend([p], Parts(b));
    case Cat(a, b) => AllFitAppend(Parts(a), Parts(b)); AllFitAppend([p], Parts(a) + Parts(b));
    case Alt(a, b) => AllFitAppend(Parts(a), Parts(b)); AllFitAppend([p], Parts(a) + Parts(b));
    case Quant(b, _, _, _) => AllFitAppend([p], Parts(b));
    case _ => AllFitAppend([p], []);
  }

  lemma AllFitNone()
    ensures AllFit([])
  {
  }

  // A pattern is emitted exactly when its groups get numbers below 255, its classes fit and its counts are in order.
  lemma {:induction false} EmittableIff(p: Pattern, cc: nat)
    requires WellFormed(p)
    ensures Emittable(p, cc) <==>
      (CountGroups(Parts(p)) == 0 || cc + CountGroups(Parts(p)) <= 255)
      && forall q :: q in Parts(p) ==> (q.Class? ==> |q.points| / 2 < 65535) && (q.Quant? ==> q.min <= q.max)
  {
    hide CountGroups, Emittable, AllFit, Parts, WellFormed;
    GroupsAreCounted(p);
    EmittableFits(p, cc);
    EachPart(Parts(p));
  }

  lemma EachPart(ps: seq<Pattern>)
    ensures AllFit(ps) <==> forall q :: q in ps ==>
      (q.Class? ==> |q.points| / 2 < 65535) && (q.Quant? ==> q.min <= q.max)
  {
  }

  lemma {:induction false} EmittableFits(p: Pattern, cc: nat)
    requires WellFormed(p)
    ensures Emittable(p, cc) <==> (Groups(p) == 0 || cc + Groups(p) <= 255) && AllFit(Parts(p))
  {
    hide AllFit, Parts;
    PartsFit(p);
    match p
    case Group(b) => EmittableFits(b, cc + 1);
    case Look(_, _, b) => EmittableFits(b, cc);
    case Cat(a, b) => EmittableFits(a, cc); EmittableFits(b, cc + Groups(a));
    case Alt(a, b) => EmittableFits(a, cc); EmittableFits(b, cc + Groups(a));
    case Quant(b, _, _, _) => EmittableFits(b, cc);
    case _ =>
  }
}
