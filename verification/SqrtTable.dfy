/** The table of 16-bit to 8-bit square roots. */
module SqrtTable {

  /** The table as a list of rows of eight entries. */
  datatype Rows = End | Row(e0: int, e1: int, e2: int, e3: int, e4: int, e5: int, e6: int, e7: int, rest: Rows)

  /** The entry for the high byte v is near enough to the root of every 16-bit number starting with v. */
  predicate GoodEntry(v: int, s: int) {
    128 <= s <= 255 && s * s <= v * 256 && v * 256 + 255 < (s + 2) * (s + 2)
  }

  predicate GoodRows(t: Rows, v: int) {
    match t
    case End => v == 256
    case Row(e0, e1, e2, e3, e4, e5, e6, e7, rest) =>
      && GoodEntry(v, e0) && GoodEntry(v + 1, e1) && GoodEntry(v + 2, e2) && GoodEntry(v + 3, e3)
      && GoodEntry(v + 4, e4) && GoodEntry(v + 5, e5) && GoodEntry(v + 6, e6) && GoodEntry(v + 7, e7)
      && GoodRows(rest, v + 8)
  }

  /** Entry i of the table, 0 past its end. */
  function Lookup(t: Rows, i: nat): int {
    match t
    case End => 0
    case Row(e0, e1, e2, e3, e4, e5, e6, e7, rest) =>
      if i >= 8 then Lookup(rest, i - 8)
      else if i < 4 then (if i < 2 then (if i == 0 then e0 else e1) else (if i == 2 then e2 else e3))
      else (if i < 6 then (if i == 4 then e4 else e5) else (if i == 6 then e6 else e7))
  }

  lemma {:induction false} LookupGood(t: Rows, v: int, i: nat)
    requires GoodRows(t, v) && v + i < 256
    ensures GoodEntry(v + i, Lookup(t, i))
  {
    if i >= 8 {
      LookupGood(t.rest, v + 8, i - 8);
    }
  }

  function EntriesFrom240(): (t: Rows)
    ensures GoodRows(t, 240)
  {
    Row(247, 248, 248, 249, 249, 250, 250, 251,
        Row(251, 252, 252, 253, 253, 254, 254, 255, End))
  }

  function EntriesFrom224(): (t: Rows)
    ensures GoodRows(t, 224)
  {
    Row(239, 240, 240, 241, 241, 242, 242, 243,
        Row(243, 244, 244, 245, 245, 246, 246, 247, EntriesFrom240()))
  }

  function EntriesFrom208(): (t: Rows)
    ensures GoodRows(t, 208)
  {
    Row(230, 231, 231, 232, 232, 233, 234, 234,
        Row(235, 235, 236, 236, 237, 237, 238, 238, EntriesFrom224()))
  }

  function EntriesFrom192(): (t: Rows)
    ensures GoodRows(t, 192)
  {
    Row(221, 222, 222, 223, 224, 224, 225, 225,
        Row(226, 226, 227, 227, 228, 229, 229, 230, EntriesFrom208()))
  }

  function EntriesFrom176(): (t: Rows)
    ensures GoodRows(t, 176)
  {
    Row(212, 212, 213, 214, 214, 215, 215, 216,
        Row(217, 217, 218, 218, 219, 219, 220, 221, EntriesFrom192()))
  }

  function EntriesFrom160(): (t: Rows)
    ensures GoodRows(t, 160)
  {
    Row(202, 203, 203, 204, 204, 205, 206, 206,
        Row(207, 208, 208, 209, 209, 210, 211, 211, EntriesFrom176()))
  }

  function EntriesFrom144(): (t: Rows)
    ensures GoodRows(t, 144)
  {
    Row(192, 192, 193, 193, 194, 195, 195, 196,
        Row(197, 197, 198, 199, 199, 200, 201, 201, EntriesFrom160()))
  }

  function EntriesFrom128(): (t: Rows)
    ensures GoodRows(t, 128)
  {
    Row(181, 181, 182, 183, 183, 184, 185, 185,
        Row(186, 187, 187, 188, 189, 189, 190, 191, EntriesFrom144()))
  }

  function EntriesFrom112(): (t: Rows)
    ensures GoodRows(t, 112)
  {
    Row(169, 170, 170, 171, 172, 173, 173, 174,
        Row(175, 176, 176, 177, 178, 178, 179, 180, EntriesFrom128()))
  }

  function EntriesFrom96(): (t: Rows)
    ensures GoodRows(t, 96)
  {
    Row(156, 157, 158, 159, 160, 160, 161, 162,
        Row(163, 163, 164, 165, 166, 167, 167, 168, EntriesFrom112()))
  }

  function EntriesFrom80(): (t: Rows)
    ensures GoodRows(t, 80)
  {
    Row(143, 144, 144, 145, 146, 147, 148, 149,
        Row(150, 150, 151, 152, 153, 154, 155, 155, EntriesFrom96()))
  }

  function EntriesFrom64(): (t: Rows)
    ensures GoodRows(t, 64)
  {
    Row(128, 128, 129, 130, 131, 132, 133, 134,
        Row(135, 136, 137, 138, 139, 140, 141, 142, EntriesFrom80()))
  }

  /** The root of the 16-bit numbers with high byte v, or one less. */
  function TableRoot(v: int): (s: int)
    requires 64 <= v < 256
    ensures GoodEntry(v, s)
  {
    LookupGood(EntriesFrom64(), 64, v - 64);
    Lookup(EntriesFrom64(), v - 64)
  }
}
