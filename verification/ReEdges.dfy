// Where the zero-width tests hold (libregexp.c:2148-2165 and 2220-2239).
module ReEdges {
  import opened ReText
  import opened ReChars
  import opened ReCode
  import opened RePattern
  import opened ReGen
  import opened ReMachine

  const FirstLetters: set<char> := {'a', 'b', 'c', 'd', 'e', 'f', 'g', 'h', 'i', 'j', 'k', 'l', 'm'}
  const LastLetters: set<char> := {'n', 'o', 'p', 'q', 'r', 's', 't', 'u', 'v', 'w', 'x', 'y', 'z'}
  const FirstCapitals: set<char> := {'A', 'B', 'C', 'D', 'E', 'F', 'G', 'H', 'I', 'J', 'K', 'L', 'M'}
  const LastCapitals: set<char> := {'N', 'O', 'P', 'Q', 'R', 'S', 'T', 'U', 'V', 'W', 'X', 'Y', 'Z'}
  const DigitsAndLine: set<char> := {'0', '1', '2', '3', '4', '5', '6', '7', '8', '9', '_'}

  // LF, CR, the line separator and the paragraph separator.
  const LineTerminators: set<int> := {0x0A, 0x0D, 0x2028, 0x2029}

  ghost predicate IsWord(c: int) { exists ch :: ch in WordCharacters() && ch as int == c }

  function WordCharacters(): set<char> { FirstLetters + LastLetters + FirstCapitals + LastCapitals + DigitsAndLine }

  lemma FirstHalves(ch: char)
    ensures ch in FirstLetters ==> 'a' <= ch <= 'm'
    ensures ch in FirstCapitals ==> 'A' <= ch <= 'M'
  {
  }

  lemma LastHalves(ch: char)
    ensures ch in LastLetters ==> 'n' <= ch <= 'z'
    ensures ch in LastCapitals ==> 'N' <= ch <= 'Z'
  {
  }

  lemma Others(ch: char)
    ensures ch in DigitsAndLine ==> '0' <= ch <= '9' || ch == '_'
  {
  }

  lemma WordCharIs(ch: char)
    requires ch in WordCharacters()
    ensures WordChar(ch as int)
  {
    hide FirstLetters, LastLetters, FirstCapitals, LastCapitals, DigitsAndLine;
    FirstHalves(ch);
    LastHalves(ch);
    Others(ch);
  }

  lemma {:induction false} WordIs(c: int)
    ensures IsWord(c) <==> WordChar(c)
  {
    if IsWord(c) {
      var ch :| ch in WordCharacters() && ch as int == c;
      WordCharIs(ch);
    }
    if WordChar(c) { assert (c as char) in WordCharacters() && (c as char) as int == c; }
  }

  // Unit i is a word character; the halves of surrogate pairs are none.
  ghost predicate WordAt(t: Text, i: int) { 0 <= i < |t.units| && IsWord(t.units[i]) }

  // A longest run of word characters.
  ghost predicate WordRun(t: Text, i: int, j: int) {
    0 <= i < j <= |t.units| && (forall k :: i <= k < j ==> WordAt(t, k)) && !WordAt(t, i - 1) && !WordAt(t, j)
  }

  lemma {:induction false} RunStart(t: Text, j: int) returns (i: int)
    requires WordAt(t, j - 1)
    ensures 0 <= i < j && (forall k :: i <= k < j ==> WordAt(t, k)) && !WordAt(t, i - 1)
    decreases j
  {
    hide IsWord;
    i := j - 1;
    if WordAt(t, j - 2) { i := RunStart(t, j - 1); }
  }

  lemma {:induction false} RunEnd(t: Text, i: int) returns (j: int)
    requires WordAt(t, i)
    ensures i < j <= |t.units| && (forall k :: i <= k < j ==> WordAt(t, k)) && !WordAt(t, j)
    decreases |t.units| - i
  {
    hide IsWord;
    j := i + 1;
    if WordAt(t, i + 1) { j := RunEnd(t, i + 1); }
  }

  lemma {:induction false} WordSides(t: Text, at: nat)
    requires at <= |t.units|
    ensures WordBefore(t, at) <==> WordAt(t, at - 1)
    ensures WordAfter(t, at) <==> WordAt(t, at)
  {
    hide IsWord;
    if at > 0 { WordIs(t.units[at - 1]); }
    if at < |t.units| { WordIs(t.units[at]); }
  }

  ghost predicate RunEdge(t: Text, at: int) { exists i, j :: WordRun(t, i, j) && (at == i || at == j) }

  lemma {:induction false} WordEdges(t: Text, at: nat)
    requires at <= |t.units|
    ensures AtEdge(t, WordEdge, at) <==> RunEdge(t, at)
    ensures AtEdge(t, NotWordEdge, at) <==> !RunEdge(t, at)
  {
    hide WordAt, WordBefore, WordAfter;
    WordSides(t, at);
    if WordAt(t, at - 1) && !WordAt(t, at) {
      var i := RunStart(t, at);
      assert at <= |t.units|;
      assert WordRun(t, i, at);
    }
    if !WordAt(t, at - 1) && WordAt(t, at) {
      var j := RunEnd(t, at);
      assert WordRun(t, at, j);
    }
    forall i, j | WordRun(t, i, j) && (at == i || at == j) ensures WordAt(t, at - 1) != WordAt(t, at) {}
  }

  lemma {:induction false} LineStarts(t: Text, at: nat)
    requires at <= |t.units|
    ensures AtEdge(t, LineStart, at) <==> at == 0 || (t.multiline && t.units[at - 1] in LineTerminators)
  {
  }

  lemma {:induction false} LineEnds(t: Text, at: nat)
    requires at <= |t.units|
    ensures AtEdge(t, LineEnd, at) <==> at == |t.units| || (t.multiline && t.units[at] in LineTerminators)
  {
  }

  // The same over the code points before and after a place between two of them.
  lemma {:induction false} EdgesOfPoints(t: Text, at: nat)
    requires at <= |t.units| && Aligned(t, at)
    ensures var before, after := Points(t, 0, at), Points(t, at, |t.units|);
      Points(t, 0, |t.units|) == before + after
      && (AtEdge(t, WordEdge, at) <==>
            (before != [] && IsWord(before[|before| - 1])) != (after != [] && IsWord(after[0])))
      && (AtEdge(t, LineStart, at) <==> before == [] || (t.multiline && before[|before| - 1] in LineTerminators))
      && (AtEdge(t, LineEnd, at) <==> after == [] || (t.multiline && after[0] in LineTerminators))
  {
    hide IsWord, Points;
    PointsSplit(t, 0, at, |t.units|);
    BeforeIs(t, at);
    AfterIs(t, at);
    if at > 0 { WordIs(CharBefore(t, at, 0)); }
    if at < |t.units| { WordIs(Char(t, at, |t.units|)); }
  }

  lemma BeforeIs(t: Text, at: nat)
    requires at <= |t.units|
    ensures var before := Points(t, 0, at);
      if at == 0 then before == [] else before != [] && before[|before| - 1] == CharBefore(t, at, 0)
  {
    if at > 0 { PointsSnoc(t, 0, at); }
  }

  lemma AfterIs(t: Text, at: nat)
    requires at <= |t.units|
    ensures var after := Points(t, at, |t.units|);
      if at == |t.units| then after == [] else after != [] && after[0] == Char(t, at, |t.units|)
  {
  }

  // Where each of the tests holds.
  ghost predicate EdgeAt(t: Text, e: Edge, at: nat) {
    at <= |t.units|
    && match e
       case LineStart => at == 0 || (t.multiline && t.units[at - 1] in LineTerminators)
       case LineEnd => at == |t.units| || (t.multiline && t.units[at] in LineTerminators)
       case WordEdge => RunEdge(t, at)
       case NotWordEdge => !RunEdge(t, at)
  }

  lemma {:induction false} EdgeIs(t: Text, e: Edge, at: nat)
    requires at <= |t.units|
    ensures AtEdge(t, e, at) <==> EdgeAt(t, e, at)
  {
    hide AtEdge, RunEdge;
    WordEdges(t, at);
    LineStarts(t, at);
    LineEnds(t, at);
  }

  // In a pattern, ^ holds at the start and, in multiline mode, just after a line terminator; $ at the end and, in
  // multiline mode, just before one; \b at the two ends of every longest run of word characters, \B elsewhere.
  lemma {:induction false} TestsHold(rules: Rules, t: Text, dir: Direction, cc: nat, s: Place)
    requires Inside(t, s)
    ensures Ends(rules, t, Test(LineStart), dir, cc, s)
      == if s.at == 0 || (t.multiline && t.units[s.at - 1] in LineTerminators) then [s] else []
    ensures Ends(rules, t, Test(LineEnd), dir, cc, s)
      == if s.at == |t.units| || (t.multiline && t.units[s.at] in LineTerminators) then [s] else []
    ensures Ends(rules, t, Test(WordEdge), dir, cc, s) == if RunEdge(t, s.at) then [s] else []
    ensures Ends(rules, t, Test(NotWordEdge), dir, cc, s) == if RunEdge(t, s.at) then [] else [s]
  {
    hide AtEdge, RunEdge;
    EdgeIs(t, LineStart, s.at);
    EdgeIs(t, LineEnd, s.at);
    EdgeIs(t, WordEdge, s.at);
    EdgeIs(t, NotWordEdge, s.at);
  }

  // And in the machine.
  lemma {:induction false} TestsRun(m: Machine, pc: int, s: Place, stack: seq<int>, states: seq<Saved>)
    requires s.at <= |m.t.units|
    ensures var u, go := Run(pc, s, stack, states), Run(pc + 1, s, stack, states);
      StepInstr(m, u, TestLineStart) == (if EdgeAt(m.t, LineStart, s.at) then go else Fail(m, states))
      && StepInstr(m, u, TestLineEnd) == (if EdgeAt(m.t, LineEnd, s.at) then go else Fail(m, states))
      && StepInstr(m, u, WordBoundary) == (if EdgeAt(m.t, WordEdge, s.at) then go else Fail(m, states))
      && StepInstr(m, u, NotWordBoundary) == (if EdgeAt(m.t, NotWordEdge, s.at) then go else Fail(m, states))
  {
    hide AtEdge, EdgeAt, Fail;
    EdgeIs(m.t, LineStart, s.at);
    EdgeIs(m.t, LineEnd, s.at);
    EdgeIs(m.t, WordEdge, s.at);
    EdgeIs(m.t, NotWordEdge, s.at);
  }
}
