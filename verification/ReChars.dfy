// Which code points the moves of ReText read: the text as it was encoded (cutils.h:317-330, libregexp.c:1841-1933).
module ReChars {
  import opened ReText

  // The encoder: a code point above 0xFFFF becomes two units.
  function EncodePoint(c: CodePoint): seq<Unit> {
    if c >= 0x10000 then [0xD7C0 + c / 0x400, 0xDC00 + c % 0x400] else [c]
  }

  function Encode(cs: seq<CodePoint>): seq<Unit> { if cs == [] then [] else EncodePoint(cs[0]) + Encode(cs[1..]) }

  // The code points of units[i..j], walked by GET_CHAR.
  function Points(t: Text, i: nat, j: nat): seq<CodePoint>
    requires j <= |t.units|
    decreases j - i
  {
    if i >= j then [] else [Char(t, i, j)] + Points(t, After(t, i, j), j)
  }

  // And walked from the end by PREV_CHAR.
  function PointsBack(t: Text, i: nat, j: nat): seq<CodePoint>
    requires j <= |t.units|
    decreases j
  {
    if i >= j then [] else [CharBefore(t, j, i)] + PointsBack(t, i, Before(t, j, i))
  }

  function Reverse(cs: seq<CodePoint>): (r: seq<CodePoint>)
    ensures |r| == |cs|
  {
    if cs == [] then [] else Reverse(cs[1..]) + [cs[0]]
  }

  lemma {:induction false} ReverseSnoc(cs: seq<CodePoint>, c: CodePoint)
    ensures Reverse(cs + [c]) == [c] + Reverse(cs)
  {
    if cs != [] {
      assert (cs + [c])[1..] == cs[1..] + [c];
      ReverseSnoc(cs[1..], c);
    }
  }

  // No first half of a pair is followed by a second half, both on their own.
  ghost predicate Unsplit(cs: seq<CodePoint>) {
    forall k :: 0 <= k && k + 1 < |cs| ==> !(0xD800 <= cs[k] < 0xDC00 && 0xDC00 <= cs[k + 1] < 0xE000)
  }

  lemma NoSurrogates(cs: seq<CodePoint>)
    requires forall k :: 0 <= k < |cs| ==> !(0xD800 <= cs[k] < 0xE000)
    ensures Unsplit(cs)
  {
  }

  // One code point, where it is encoded.
  lemma {:induction false} ReadsPoint(t: Text, i: nat, j: nat, c: CodePoint, rest: seq<Unit>)
    requires t.utf16 && i <= j <= |t.units| && t.units[i..j] == EncodePoint(c) + rest
    requires 0xD800 <= c < 0xDC00 && rest != [] ==> !(0xDC00 <= rest[0] < 0xE000)
    ensures i < j && Char(t, i, j) == c && After(t, i, j) == i + |EncodePoint(c)| && t.units[After(t, i, j)..j] == rest
  {
    var e := EncodePoint(c);
    assert t.units[i..j][0] == t.units[i] == e[0];
    assert t.units[i + |e|..j] == t.units[i..j][|e|..] == rest;
    if c >= 0x10000 {
      assert t.units[i..j][1] == t.units[i + 1] == e[1];
    } else if i + 1 < j {
      assert t.units[i..j][1] == t.units[i + 1] == rest[0];
    }
  }

  lemma {:induction false} EncodedFirst(cs: seq<CodePoint>)
    requires cs != []
    ensures Encode(cs) != [] && (0xDC00 <= Encode(cs)[0] < 0xE000 <==> 0xDC00 <= cs[0] < 0xE000)
  {
  }

  // What has been encoded is read back, from the start.
  lemma {:induction false} ReadForward(t: Text, i: nat, j: nat, cs: seq<CodePoint>)
    requires t.utf16 && i <= j <= |t.units| && t.units[i..j] == Encode(cs) && Unsplit(cs)
    ensures Points(t, i, j) == cs
    decreases |cs|
  {
    if cs != [] {
      if |cs| > 1 {
        EncodedFirst(cs[1..]);
        assert cs[1..][0] == cs[0 + 1];
      }
      ReadsPoint(t, i, j, cs[0], Encode(cs[1..]));
      assert Unsplit(cs[1..]) by { assert forall k :: 0 <= k < |cs[1..]| ==> cs[1..][k] == cs[k + 1]; }
      ReadForward(t, After(t, i, j), j, cs[1..]);
    }
  }

  // And from the end, backwards.
  lemma {:induction false} ReadBackward(t: Text, i: nat, j: nat, cs: seq<CodePoint>)
    requires t.utf16 && i <= j <= |t.units| && t.units[i..j] == Encode(cs) && Unsplit(cs)
    ensures PointsBack(t, i, j) == Reverse(cs)
  {
    ReadForward(t, i, j, cs);
    BothWays(t, i, j);
  }

  // Whatever the text, the code points read are those it encodes.
  lemma {:induction false} EncodedAgain(t: Text, i: nat, j: nat)
    requires t.utf16 && i <= j <= |t.units|
    ensures Encode(Points(t, i, j)) == t.units[i..j]
    decreases j - i
  {
    if i < j {
      var c, next := Char(t, i, j), After(t, i, j);
      EncodedAgain(t, next, j);
      assert EncodePoint(c) == t.units[i..next];
      assert Points(t, i, j)[1..] == Points(t, next, j);
      assert t.units[i..j] == t.units[i..next] + t.units[next..j];
    }
  }

  // Without surrogate pairs each unit is a code point.
  lemma {:induction false} NarrowPoints(t: Text, i: nat, j: nat)
    requires !t.utf16 && i <= j <= |t.units|
    ensures Points(t, i, j) == t.units[i..j]
    decreases j - i
  {
    if i < j {
      NarrowPoints(t, i + 1, j);
      assert t.units[i..j] == [t.units[i]] + t.units[i + 1..j];
    }
  }

  // The last code point, split off by PREV_CHAR.
  lemma {:induction false} PointsSnoc(t: Text, i: nat, j: nat)
    requires i < j <= |t.units|
    ensures Points(t, i, j) == Points(t, i, Before(t, j, i)) + [CharBefore(t, j, i)]
    decreases j - i
  {
    var next, last := After(t, i, j), Before(t, j, i);
    if next < j {
      PointsSnoc(t, next, j);
      assert Before(t, j, next) == last && CharBefore(t, j, next) == CharBefore(t, j, i);
      assert Char(t, i, last) == Char(t, i, j) && After(t, i, last) == next;
    } else {
      assert last == i;
    }
  }

  // The two walks meet the same code points.
  lemma {:induction false} BothWays(t: Text, i: nat, j: nat)
    requires j <= |t.units|
    ensures PointsBack(t, i, j) == Reverse(Points(t, i, j))
    decreases j
  {
    if i < j {
      PointsSnoc(t, i, j);
      BothWays(t, i, Before(t, j, i));
      ReverseSnoc(Points(t, i, Before(t, j, i)), CharBefore(t, j, i));
    }
  }

  // A text is split between code points, and only there, without breaking any.
  lemma {:induction false} PointsSplit(t: Text, i: nat, k: nat, j: nat)
    requires i <= k <= j <= |t.units| && (Aligned(t, k) || k == i)
    ensures Points(t, i, j) == Points(t, i, k) + Points(t, k, j)
    decreases k - i
  {
    if i < k {
      assert After(t, i, j) == After(t, i, k) <= k && Char(t, i, j) == Char(t, i, k);
      PointsSplit(t, After(t, i, k), k, j);
    }
  }
}
