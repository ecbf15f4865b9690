// The subject of a match: code units, code points and the moves between them (libregexp.c:1841-1933).
module ReText {
  type Unit = x: int | 0 <= x < 0x10000
  type CodePoint = x: int | 0 <= x < 0x110000

  // utf16 is cbuf_type == 2; canon is the case folding in force (empty unless ignore_case).
  datatype Text = Text(units: seq<Unit>, utf16: bool, multiline: bool, canon: map<CodePoint, CodePoint>)

  datatype Option<T> = None | Some(value: T)

  // capture[2k] and capture[2k + 1] delimit group k.
  type Captures = seq<Option<nat>>
  datatype Place = Place(at: nat, caps: Captures)

  datatype Direction = Forward | Backward

  predicate IsHigh(c: int) { 0xD800 <= c <= 0xDBFF }
  predicate IsLow(c: int) { 0xDC00 <= c <= 0xDFFF }

  function FromSurrogate(hi: Unit, lo: Unit): CodePoint
    requires IsHigh(hi) && IsLow(lo)
  {
    0x10000 + 0x400 * (hi - 0xD800) + (lo - 0xDC00)
  }

  predicate PairAt(t: Text, i: int) {
    t.utf16 && 0 <= i && i + 1 < |t.units| && IsHigh(t.units[i]) && IsLow(t.units[i + 1])
  }

  // GET_CHAR, reading no further than limit.
  function Char(t: Text, i: nat, limit: nat): CodePoint
    requires i < limit <= |t.units|
  {
    if PairAt(t, i) && i + 1 < limit then FromSurrogate(t.units[i], t.units[i + 1]) else t.units[i]
  }

  function After(t: Text, i: nat, limit: nat): (r: nat)
    requires i < limit <= |t.units|
    ensures i < r <= limit
  {
    if PairAt(t, i) && i + 1 < limit then i + 2 else i + 1
  }

  // PREV_CHAR, reading back no further than start.
  function Before(t: Text, i: nat, start: nat): (r: nat)
    requires start < i <= |t.units|
    ensures start <= r < i
  {
    if i - 1 > start && PairAt(t, i - 2) then i - 2 else i - 1
  }

  // GET_PREV_CHAR and PEEK_PREV_CHAR.
  function CharBefore(t: Text, i: nat, start: nat): CodePoint
    requires start < i <= |t.units|
  {
    if i - 1 > start && PairAt(t, i - 2) then FromSurrogate(t.units[i - 2], t.units[i - 1]) else t.units[i - 1]
  }

  // Not between the two halves of a surrogate pair.
  predicate Aligned(t: Text, i: int) { !PairAt(t, i - 1) }

  function Canon(t: Text, c: CodePoint): CodePoint { if c in t.canon then t.canon[c] else c }

  predicate LineTerminator(c: int) { c == 0x0A || c == 0x0D || c == 0x2028 || c == 0x2029 }

  predicate WordChar(c: int) { 0x30 <= c <= 0x39 || 0x61 <= c <= 0x7A || 0x41 <= c <= 0x5A || c == 0x5F }

  // At the edges of an aligned text PREV_CHAR undoes GET_CHAR and GET_CHAR undoes PREV_CHAR.
  lemma AfterBefore(t: Text, i: nat)
    requires i < |t.units|
    ensures Aligned(t, i) ==> Aligned(t, After(t, i, |t.units|))
    ensures Before(t, After(t, i, |t.units|), 0) == i <==> Aligned(t, i) || PairAt(t, i)
    ensures Aligned(t, i) ==> CharBefore(t, After(t, i, |t.units|), 0) == Char(t, i, |t.units|)
  {
  }

  lemma BeforeAfter(t: Text, i: nat)
    requires 0 < i <= |t.units|
    ensures Aligned(t, Before(t, i, 0))
    ensures Aligned(t, i) ==> After(t, Before(t, i, 0), |t.units|) == i
    ensures Before(t, After(t, Before(t, i, 0), |t.units|), 0) == Before(t, i, 0)
    ensures Aligned(t, i) ==> CharBefore(t, i, 0) == Char(t, Before(t, i, 0), |t.units|)
  {
  }

  // What the four zero-width tests ask.
  datatype Edge = LineStart | LineEnd | WordEdge | NotWordEdge

  predicate WordBefore(t: Text, at: nat)
    requires at <= |t.units|
  {
    at != 0 && WordChar(CharBefore(t, at, 0))
  }

  predicate WordAfter(t: Text, at: nat)
    requires at <= |t.units|
  {
    at < |t.units| && WordChar(Char(t, at, |t.units|))
  }

  predicate AtEdge(t: Text, e: Edge, at: nat)
    requires at <= |t.units|
  {
    match e
    case LineStart => at == 0 || (t.multiline && LineTerminator(CharBefore(t, at, 0)))
    case LineEnd => at == |t.units| || (t.multiline && LineTerminator(Char(t, at, |t.units|)))
    case WordEdge => WordBefore(t, at) != WordAfter(t, at)
    case NotWordEdge => WordBefore(t, at) == WordAfter(t, at)
  }

  // The walk of a back reference over units[from..to], comparing with the text at at.
  function Repeated(t: Text, from: nat, until: nat, at: nat): (r: Option<nat>)
    requires until <= |t.units| && at <= |t.units|
    ensures r.Some? ==> at <= r.value <= |t.units|
    ensures r.Some? && Aligned(t, at) ==> Aligned(t, r.value)
    decreases if from < until then until - from else 0
  {
    if from >= until then Some(at)
    else if at >= |t.units| then None
    else if Canon(t, Char(t, from, until)) != Canon(t, Char(t, at, |t.units|)) then None
    else Repeated(t, After(t, from, until), until, After(t, at, |t.units|))
  }

  function RepeatedBack(t: Text, from: nat, until: nat, at: nat): (r: Option<nat>)
    requires until <= |t.units| && at <= |t.units|
    ensures r.Some? ==> r.value <= at
    ensures r.Some? && Aligned(t, at) ==> Aligned(t, r.value)
    decreases until
  {
    if until <= from then Some(at)
    else if at == 0 then None
    else if Canon(t, CharBefore(t, until, from)) != Canon(t, CharBefore(t, at, 0)) then None
    else RepeatedBack(t, from, Before(t, until, from), Before(t, at, 0))
  }

  function Capture(caps: Captures, k: int): Option<nat> { if 0 <= k < |caps| then caps[k] else None }

  function SetCapture(caps: Captures, k: nat, v: nat): (r: Captures)
    ensures |r| == |caps|
  {
    if k < |caps| then caps[k := Some(v)] else caps
  }

  // Groups lo, ..., lo + n - 1 forgotten.
  function ResetCaptures(caps: Captures, lo: nat, n: nat): (r: Captures)
    ensures |r| == |caps|
  {
    seq(|caps|, k requires 0 <= k < |caps| => if 2 * lo <= k < 2 * (lo + n) then None else caps[k])
  }

  // Every captured position lies in the text.
  predicate Inside(t: Text, p: Place) {
    p.at <= |t.units| && forall k :: 0 <= k < |p.caps| && p.caps[k].Some? ==> p.caps[k].value <= |t.units|
  }

  // A back reference to group k: an unset group matches the empty text, a missing one nothing.
  function Referenced(t: Text, dir: Direction, k: nat, p: Place): (r: Option<Place>)
    requires Inside(t, p)
    ensures r.Some? ==> Inside(t, r.value) && |r.value.caps| == |p.caps|
  {
    if 2 * k >= |p.caps| then None
    else
      var from, until := Capture(p.caps, 2 * k), Capture(p.caps, 2 * k + 1);
      if from.None? || until.None? then Some(p)
      else
        var r := if dir.Forward? then Repeated(t, from.value, until.value, p.at)
                 else RepeatedBack(t, from.value, until.value, p.at);
        if r.None? then None else Some(p.(at := r.value))
  }
}
