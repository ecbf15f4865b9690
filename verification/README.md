# QuickJS arithmetic, regular expressions, sorting and character sets

Models of four parts of the QuickJS engine, with proofs of what they compute.

**Limb arithmetic (libbf).** Numbers are little-endian arrays of 64-bit limbs, rewritten in place. `Limbs.Val` is the
number an array denotes. `LimbOps` has the carry and borrow loops and schoolbook multiplication; `UDiv` the division of
two limbs by one through a precomputed inverse; `LongDiv` schoolbook division; `BigDiv` the Newton reciprocal, the
division through a truncated reciprocal and the choice between the paths, which call one another; `SqrtTable`,
`SmallSqrt` and `BigSqrt` the Karatsuba square root. Wrap-around is written out (`Limbs.Wrap`), and every dropped carry
is shown to be zero or to be made up for.

**Regular expressions (libregexp).** `RePattern` gives the meaning of a pattern: the list of places where it can end, in
order of preference, as RepeatMatcher orders repetition. `ReChars`, `ReEdges` and `ReBackrefs` say what the parts of
that meaning are: which code points are read, where the zero-width tests hold, what a back reference matches.
`ReLanguage` defines, with neither lists nor captures nor direction, the spans of text a pattern covers, and proves that
the ends are those spans; `ReCaptures` does the same for what groups hold, and `ReFinds` for what a search finds.
`ReCode` has the instructions and their bytes, `ReGen` the code of each pattern, `ReMachine` the backtracking machine
one step at a time on those bytes. `ReLoops`, `ReSimple` and `ReCorrect` prove that the code of a pattern presents
exactly the ends of the pattern, in order, over any stacks, where there is a finite list of them; `ReProgram` lifts this
to whole programs. `ReVerdict` reads a pattern as what comes of it, told what comes of going on from each of its ends: a
match, a failure, or a run without end; it has a reading of the code as it runs, one of its lists, and one of
RepeatMatcher. `ReOutcome` proves that the code of every pattern does what is read, loops that go round in empty rounds
and back references included. `ReAgree` compares the readings with one another, `ReRules` and `ReChoice` the lists;
`ReSearch` draws the conclusions for whole programs. `ReLazy` looks at one unbounded lazy loop, and at the places it
offers to what follows. `ReExamples`, `ReHangs` and `ReSurrogate` have programs that go wrong. `ReStops` proves that a
search stops wherever it starts. `ReDepth` bounds the operand stack over all runs. `ReEmit` is the emitter as it works,
inserting and patching bytes, `ReAccept` says which patterns it accepts; `ReExec` the matcher as it runs; `ReCompile`
puts compiling and running together.

**Sorting (cutils).** `QSort` is the three-way quicksort on an explicit stack of 50 segments with its heapsort and
insertion sort.

**Character sets (libunicode).** `CharRanges` is the algebra of sorted points, and `ReRange` the range instructions and
their binary search.

Where code and comments differ, the code is followed:

- The comment at libbf.c:1361 bounds the reciprocal by `a*r + 2`; the bound of the algorithm is `a*(r+2)`, and that is
  what is proved.
- Lazy quantifiers get no zero-advance check (libregexp.c:1524-1526). An unbounded lazy loop offers to what follows the
  places it stands at, up to the first empty round; it runs forever exactly when an empty round lies ahead
  (`ReLazy.EmptyAhead`) and what follows fails at every place offered (`ReLazy.LoopOutcome`; for programs p*?r,
  `ReSearch.LazyThenHangsIff`). `ReHangs.LazyEmptyExample` runs forever where there is no match, `ReHangs.LazyMissExample`
  where there is one at a place the loop never gets to. A program runs forever exactly when its reading has no end
  (`ReSearch.SearchHangsIff`), and, under the conditions of `ReSearch.SearchRightIff`, is right exactly when it does not.
  `ReRules.LazyAtomsNonEmpty` is a test on the pattern alone under which no program runs forever.
- A lazy loop over a bounded range accepts empty rounds. Where back references, if any, name groups outside every
  repetition (`ReAgree.NamesLasting`), that is never seen with at most one optional round, or where an empty round is the
  last that the atom offers (`ReAgree.SameChoice`); else it can change the match (`ReExamples.LazyRangeExample`). With a
  back reference to a group of the atom the empty round can be seen in what it captures
  (`ReExamples.EmptyCaptureExample`, and `ReHangs.EmptyRoundWins` for an unbounded loop).
- Captures are reset once before a loop, not before every round (libregexp.c:1531-1540). `RePattern.Rules` has both
  readings; where back references name groups outside every repetition the difference does not show in where a match ends
  nor in what those groups hold (`ReAgree.SameChoice`), else it can (`ReExamples.CaptureResetExample`).
- A greedy loop over a simple atom goes back with PREV_CHAR, which does not undo GET_CHAR from between the halves of a
  surrogate pair (`ReText.AfterBefore`). `ReSimple.SimpleFrom` has the places it visits from any start,
  `ReSurrogate.UnalignedExample` a match that ends before it begins. The theorems on what a match is assume that it does
  not start there; that a search stops does not (`ReStops.SearchStops`).

## Model

| member | source | states |
|---|---|---|
| Limbs.ValInjective | Sources/CQuickJS/quickjs/libbf.c:1039-1055 | a limb array of given length denotes its number uniquely, so a contract that fixes the number fixes every limb |
| LimbOps.MpAdd | Sources/CQuickJS/quickjs/libbf.c:1039-1055 | the n-limb sum plus carry out times B^n equals the sum of the operands and the carry in, in place or not; nothing else is written |
| LimbOps.MpAddUi | Sources/CQuickJS/quickjs/libbf.c:1057-1071 | adding one limb, with the early stop once the carry dies |
| LimbOps.MpSub | Sources/CQuickJS/quickjs/libbf.c:1073-1089 | difference and borrow: result - borrow * B^n equals op1 - op2 - carry |
| LimbOps.MpNeg | Sources/CQuickJS/quickjs/libbf.c:1092-1107 | negation modulo B^n with its borrow |
| LimbOps.MpSubUi | Sources/CQuickJS/quickjs/libbf.c:1109-1124 | subtracting one limb, with the early stop once the borrow dies |
| LimbOps.MpMul1 | Sources/CQuickJS/quickjs/libbf.c:1145-1157 | limb times array plus carry in, exact with the returned high limb |
| LimbOps.MpAddMul1 | Sources/CQuickJS/quickjs/libbf.c:1160-1173 | multiply-accumulate, exact with the returned high limb |
| LimbOps.MpSubMul1 | Sources/CQuickJS/quickjs/libbf.c:1213-1226 | multiply-subtract, exact with the returned high limb |
| LimbOps.MpMul | Sources/CQuickJS/quickjs/libbf.c:1176-1209 | schoolbook product of two arrays of any lengths is the product of the numbers |
| LimbOps.MpCmp | Sources/CQuickJS/quickjs/libbf.c:1429-1442 | the sign returned is that of the difference of the numbers |
| LimbOps.TopDiffers | Sources/CQuickJS/quickjs/libbf.c:1429-1442 | the highest differing limb decides the order of two numbers |
| LimbOps.MpScanNz | Sources/CQuickJS/quickjs/libbf.c:377-385 | nonzero exactly when the number is nonzero |
| UDiv.InverseFits | Sources/CQuickJS/quickjs/libbf.c:1229-1236 | the precomputed inverse of a normalized limb fits one limb |
| UDiv.UDiv1Norm | Sources/CQuickJS/quickjs/libbf.c:1239-1257 | the exact quotient and remainder of a1 * B + a0 by a normalized limb for every a1 below it, through the wrapped adjustment and the wrapped trial remainder |
| UDiv.TrialQuotient | Sources/CQuickJS/quickjs/libbf.c:1239-1257 | the trial quotient is the true one or one too small |
| UDiv.MpDiv1Norm | Sources/CQuickJS/quickjs/libbf.c:1260-1280 | division of an array of any length by a normalized limb is exact, with and without the inverse |
| LongDiv.EstimateNotTooSmall | Sources/CQuickJS/quickjs/libbf.c:1325-1333 | the digit estimated from the top two limbs is never too small |
| LongDiv.AddBack | Sources/CQuickJS/quickjs/libbf.c:1338-1352 | adding the divisor back until the high limb turns to zero ends, with the exact digit and a remainder below the divisor |
| LongDiv.DivStep | Sources/CQuickJS/quickjs/libbf.c:1324-1356 | one digit of the schoolbook loop: dividend = digit * divisor + remainder, remainder below the divisor |
| LongDiv.SchoolDivision | Sources/CQuickJS/quickjs/libbf.c:1304-1359 | schoolbook division of any lengths: A = Q * D + R with R < D and the top quotient limb at most 1 |
| RecipMath.NewtonError | Sources/CQuickJS/quickjs/libbf.c:1361-1427 | the Newton step: from a half-length reciprocal within its bound, the corrected value is within the bound at full length |
| RecipMath.ReciprocalRange | Sources/CQuickJS/quickjs/libbf.c:1361-1427 | a value with A * X < B^(2n) < A * (X + 2) has top limb 1 |
| RecipMath.TruncatedEstimate | Sources/CQuickJS/quickjs/libbf.c:1448-1505 | a quotient estimated through the reciprocal of a truncated divisor never exceeds the true one and leaves a remainder of at most nb + 1 limbs |
| BigDiv.MpRecip | Sources/CQuickJS/quickjs/libbf.c:1366-1427 | for every n >= 1 and normalized A the recursive reciprocal X has n + 1 limbs with top limb 1 and A * X < B^(2n) < A * (X + 2) |
| BigDiv.RecipError | Sources/CQuickJS/quickjs/libbf.c:1400-1411 | the downward adjustment ends with a positive error below 2A |
| BigDiv.RecipCorrect | Sources/CQuickJS/quickjs/libbf.c:1412-1424 | the correction is added without a carry out of the array |
| BigDiv.MpDivNorm | Sources/CQuickJS/quickjs/libbf.c:1290-1359 | on all paths A = Q * D + R with 0 <= R < D and top quotient limb at most 1 |
| BigDiv.LargeQuotient | Sources/CQuickJS/quickjs/libbf.c:1448-1505 | the quotient read off the product with the reciprocal, of the padded or the truncated divisor, is never too large, and leaves a remainder below B^(nb+1) |
| BigDiv.LargeRemainder | Sources/CQuickJS/quickjs/libbf.c:1506-1512 | the first remainder of the large path fits nb + 1 limbs |
| BigDiv.LargeAdjustAll | Sources/CQuickJS/quickjs/libbf.c:1513-1525 | the correction loop of the large path ends with the exact quotient and remainder |
| BigDiv.MpDivNormLarge | Sources/CQuickJS/quickjs/libbf.c:1448-1537 | division through the truncated reciprocal is exact |
| SqrtTable.TableRoot | Sources/CQuickJS/quickjs/libbf.c:1898-1900 | every table entry is within one below the 16-bit root |
| SmallSqrt.RootIsUnique | Sources/CQuickJS/quickjs/libbf.c:1902-1904 | an integer square root and its remainder are unique |
| SmallSqrt.MpSqrtrem1 | Sources/CQuickJS/quickjs/libbf.c:1902-1945 | one-limb root: a = s * s + r with 0 <= r <= 2s |
| SmallSqrt.MpSqrtrem2 | Sources/CQuickJS/quickjs/libbf.c:1961-1987 | two-limb root, including the quotient 2^32 special case and the lowering step |
| SmallSqrt.RootStep | Sources/CQuickJS/quickjs/libbf.c:1993-2059 | a high root extended by one division is the root of the whole or one more |
| BigSqrt.MpShr | Sources/CQuickJS/quickjs/libbf.c:1128-1142 | shift right of an array, in place, with the bits shifted out |
| BigSqrt.LostCarry | Sources/CQuickJS/quickjs/libbf.c:2034-2057 | the carry of the addition of the high quotient limb that the code drops is accounted for |
| BigSqrt.QuotientShape | Sources/CQuickJS/quickjs/libbf.c:2018-2047 | a quotient of at most B^l has its high limb only when it is B^l, and its low limbs are then zero |
| BigSqrt.MpSqrtremRec | Sources/CQuickJS/quickjs/libbf.c:1993-2059 | the recursive step keeps A = S^2 + R and 0 <= R <= 2S with a single correction |
| BigSqrt.MpSqrtrem | Sources/CQuickJS/quickjs/libbf.c:2062-2085 | for every n >= 1 and every 2n-limb A with top limb at least B/4: A = S^2 + R with 0 <= R <= 2S |
| ReText.AfterBefore | Sources/CQuickJS/quickjs/libregexp.c:1852-1933 | PREV_CHAR undoes GET_CHAR exactly when the position is not between the halves of a surrogate pair |
| ReText.BeforeAfter | Sources/CQuickJS/quickjs/libregexp.c:1852-1933 | PREV_CHAR always lands between code points, and GET_CHAR undoes it from such a position |
| ReChars.ReadForward | Sources/CQuickJS/quickjs/libregexp.c:1852-1867 | code points, none of which is half a pair, are encoded by a writer that knows nothing of the reader; read forwards by GET_CHAR they are the code points again |
| ReChars.ReadBackward | Sources/CQuickJS/quickjs/libregexp.c:1901-1933 | read backwards by GET_PREV_CHAR and PREV_CHAR they are the same code points, last first |
| ReChars.EncodedAgain | Sources/CQuickJS/quickjs/libregexp.c:1852-1867 | whatever the units, halves of pairs on their own included, encoding what is read gives the units back |
| ReChars.BothWays | Sources/CQuickJS/quickjs/libregexp.c:1852-1933 | from either end of any range of units the same code points are read, in opposite order |
| ReEdges.TestsHold | Sources/CQuickJS/quickjs/libregexp.c:2148-2239 | ^ and $ hold at the ends of the text and, in multiline mode, just after and just before U+000A, U+000D, U+2028 and U+2029; word boundaries are the two ends of every longest run of the 63 word characters, and non-boundaries all other places |
| ReEdges.TestsRun | Sources/CQuickJS/quickjs/libregexp.c:2148-2241 | the four instructions go on exactly there and fail elsewhere |
| ReEdges.EdgesOfPoints | Sources/CQuickJS/quickjs/libregexp.c:2148-2239 | the same over the code points before and after a place |
| ReBackrefs.RepeatedIff | Sources/CQuickJS/quickjs/libregexp.c:2255-2268 | the forward walk of a back reference ends at r exactly when the code points up to r equal the captured ones after folding |
| ReBackrefs.RepeatedBackIff | Sources/CQuickJS/quickjs/libregexp.c:2269-2283 | the backward walk ends at r exactly when the code points from r equal the captured ones after folding |
| ReBackrefs.NarrowRepeatedIff | Sources/CQuickJS/quickjs/libregexp.c:2255-2283 | without surrogate pairs, unit by unit |
| ReBackrefs.ReferencedIff | Sources/CQuickJS/quickjs/libregexp.c:2242-2285 | a back reference fails where the group is missing, matches the empty text where it is unset, and else matches exactly what repeats the captured text, after or, in a lookbehind, before the place |
| ReCode.FetchEncoded | Sources/CQuickJS/quickjs/libregexp-opcode.h:26-57 | every instruction read back from its bytes is the one written, operands included |
| ReCode.U32Read | Sources/CQuickJS/quickjs/libregexp.c:347-355 | a 32-bit operand, signed or not, survives its four bytes |
| ReCode.CodeAtAppend | Sources/CQuickJS/quickjs/libregexp.c:1516-1616 | code laid out in pieces is laid out as a whole, and conversely |
| ReRange.SearchFinds | Sources/CQuickJS/quickjs/libregexp.c:2310-2321 | on ascending intervals the binary search answers membership |
| ReRange.RangeAccepts | Sources/CQuickJS/quickjs/libregexp.c:773-804 | the emitted range or range32 accepts exactly the code points of the set, the 0xffff-as-infinity form and the empty set included |
| ReRange.RangeInstrEncodable | Sources/CQuickJS/quickjs/libregexp.c:773-804 | the bounds of a normalized set with fewer than 65535 intervals fit their fields |
| RePattern.Ends | Sources/CQuickJS/quickjs/libregexp.c:1139-1697 | the ends of a pattern in order of preference: each lies in the text, in the direction of the match, between code points if the start does |
| RePattern.Repeat | Sources/CQuickJS/quickjs/libregexp.c:1516-1616 | RepeatMatcher (section 22.2.2.3.1 of ECMA-262): well founded on distance and rounds, ends ahead of the start |
| ReLanguage.EndsAreSpans | Sources/CQuickJS/quickjs/libregexp.c:1139-1697 | a pattern without back references has an end at x exactly when it covers the text from the start to x, or in a lookbehind from x to the start: the spans are defined by concatenation, choice and repetition of spans alone, in both readings of loops |
| ReLanguage.ManyStep | Sources/CQuickJS/quickjs/libregexp.c:1516-1616 | between min and max rounds are none, or one round that may be asked to be non-empty and then the rest: leaving out empty rounds loses no span |
| ReLanguage.FirstRound | Sources/CQuickJS/quickjs/libregexp.c:1139-1697 | a chain of spans taken apart at its first span, from either end |
| ReCaptures.EndsAreCaught | Sources/CQuickJS/quickjs/libregexp.c:2178-2197 | after every run of a pattern without back references each of its groups is unset or holds a span that the body of the group covers |
| ReCaptures.GroupRecords | Sources/CQuickJS/quickjs/libregexp.c:2178-2183 | where a group ends its two slots are the start and the end of its run, in text order in a lookbehind too |
| ReCaptures.LookRecords | Sources/CQuickJS/quickjs/libregexp.c:2081-2094 | a lookaround ends at most once, where it began, and keeps captures only if it is positive |
| ReFinds.NoRoundForgets | Sources/CQuickJS/quickjs/libregexp.c:1531-1540 | the end of an optional repetition without a round, last if greedy and first if lazy, has exactly its own groups unset |
| ReFinds.CharRounds | Sources/CQuickJS/quickjs/libregexp.c:1516-1616 | rounds of one character end further on first if greedy, and last if lazy |
| ReFinds.LeftPreferred | Sources/CQuickJS/quickjs/libregexp.c:1655-1697 | an alternation prefers its left side wherever that matches at all |
| ReFinds.ExpectedFinds | Sources/CQuickJS/quickjs/libregexp.c:1778-1791 | for a pattern without back references the search finds a span the pattern covers, its start and end in slots 0 and 1 and every group unset or holding a span of its body, and none begins further left; or there is no span |
| ReGen.CheckAdvanceSound | Sources/CQuickJS/quickjs/libregexp.c:898-948 | code cleared by re_need_check_advance never matches the empty text |
| ReGen.QuantPlain | Sources/CQuickJS/quickjs/libregexp.c:1516-1616 | a repetition whose code re_need_check_advance clears is {1}, and its code is that of the atom |
| ReMachine.YieldsAppend | Sources/CQuickJS/quickjs/libregexp.c:2022-2094 | what a run presents over a larger backtrack stack, then what failing into the difference presents |
| ReMachine.YieldsBind | Sources/CQuickJS/quickjs/libregexp.c:2022-2094 | a run that presents places in turn, each of which leads on to its own list, presents the concatenation |
| ReMachine.StepsAdd | Sources/CQuickJS/quickjs/libregexp.c:2008-2413 | runs compose |
| ReLoops.SplitYields | Sources/CQuickJS/quickjs/libregexp.c:2113-2131 | a split presents one branch and then, on failure, the other |
| ReLoops.CheckYields | Sources/CQuickJS/quickjs/libregexp.c:2216-2219 | check_advance lets a round through exactly when the position changed |
| ReLoops.RoundYields | Sources/CQuickJS/quickjs/libregexp.c:1547-1555 | a round with push_char_pos and check_advance presents the nonempty rounds of the atom |
| ReLoops.StarYields | Sources/CQuickJS/quickjs/libregexp.c:1543-1558 | the emitted * loop presents RepeatMatcher(0, infinity), greedy or lazy |
| ReLoops.OptionalYields | Sources/CQuickJS/quickjs/libregexp.c:1543-1558 | the emitted ? presents RepeatMatcher(0, 1) |
| ReLoops.CountedYields | Sources/CQuickJS/quickjs/libregexp.c:1559-1573 | the counted loop, its count on the operand stack, presents RepeatMatcher(0, n) |
| ReLoops.ExactYields | Sources/CQuickJS/quickjs/libregexp.c:1579-1590 | the mandatory rounds followed by any sound tail present RepeatMatcher(n, ...) |
| ReSimple.SimpleRuns | Sources/CQuickJS/quickjs/libregexp.c:952-989 | an atom accepted by re_is_simple_quantifier runs straight to one end, undone by as many PREV_CHAR as counted, or to none |
| ReSimple.QuantSimple | Sources/CQuickJS/quickjs/libregexp.c:952-989 | a repetition is simple only when it repeats nothing or once |
| ReSimple.GreedyCounts | Sources/CQuickJS/quickjs/libregexp.c:2369-2408 | the counting loop stops after the longest run, and giving rounds back visits what RepeatMatcher lists |
| ReSimple.RetriesYield | Sources/CQuickJS/quickjs/libregexp.c:2058-2080 | a saved greedy state presents its places nearest first, down to the minimum |
| ReSimple.SimpleFrom | Sources/CQuickJS/quickjs/libregexp.c:2369-2408 | from any start, between the halves of a surrogate pair too, the optimised opcode presents the end of its longest run and then what as many PREV_CHAR give back as rounds exceed the minimum, or nothing |
| ReSimple.SimpleYields | Sources/CQuickJS/quickjs/libregexp.c:1485-1513 | the optimised opcode presents exactly what the general greedy loop presents |
| ReCorrect.BackYields | Sources/CQuickJS/quickjs/libregexp.c:1574-1578 | the + loop that jumps back to its atom presents RepeatMatcher once the atom has run |
| ReCorrect.CheckChoiceFits | Sources/CQuickJS/quickjs/libregexp.c:1516-1526 | the zero-advance check is left out only where it could not fail |
| ReCorrect.QuantYields | Sources/CQuickJS/quickjs/libregexp.c:1426-1616 | every form of quantifier code presents the ends of the repetition |
| ReCorrect.GroupYields | Sources/CQuickJS/quickjs/libregexp.c:1255-1279 | a capture records both of its ends, in the order of the direction |
| ReCorrect.LookYields | Sources/CQuickJS/quickjs/libregexp.c:1207-1237 | lookaround restores position and operand stack; only a positive one keeps captures |
| ReCorrect.SucceedPops | Sources/CQuickJS/quickjs/libregexp.c:2025-2094 | success discards split and greedy states down to the innermost lookaround |
| ReCorrect.CharBackYields | Sources/CQuickJS/quickjs/libregexp.c:1401-1423 | PREV, test, PREV moves back over one accepted character |
| ReCorrect.AltYields | Sources/CQuickJS/quickjs/libregexp.c:1655-1697 | alternation: the inserted split and the patched goto present left, then right |
| ReCorrect.Compiled | Sources/CQuickJS/quickjs/libregexp.c:1139-1697 | compilation preserves meaning: wherever the code of a pattern lies, it presents exactly the ends of the pattern, in order, over any stacks |
| ReProgram.GenEncodable | Sources/CQuickJS/quickjs/libregexp.c:1139-1697 | every operand of code shorter than 2^31 bytes fits its field |
| ReProgram.RunEnds | Sources/CQuickJS/quickjs/libregexp.c:2418-2456 | the machine stops on a whole program with the preferred end or with none |
| ReProgram.SkipIsLeftmost | Sources/CQuickJS/quickjs/libregexp.c:1778-1786 | the lazy skip before group 0 tries positions from left to right |
| ReProgram.SearchEnds | Sources/CQuickJS/quickjs/libregexp.c:2418-2456 | a search that is not sticky finds the leftmost match |
| ReRules.EndsAgree | Sources/CQuickJS/quickjs/libregexp.c:1524-1540 | without back references what the captures hold does not matter to where a pattern can end; and the code tries the places of RepeatMatcher, one by one, where no lazy {n,m} with n < m repeats an atom that can be empty |
| ReRules.NonEmptyLazyAtoms | Sources/CQuickJS/quickjs/libregexp.c:1524-1526 | a test on the pattern text implies the conditions on lazy atoms, on every text |
| ReAgree.DoesAlike | Sources/CQuickJS/quickjs/libregexp.c:1516-1616 | two readings of a pattern come to the same, from places alike in position and in the groups that back references name, when what follows comes to the same from such places: the code's list and RepeatMatcher's, and a run that follows empty rounds and one that follows none |
| ReAgree.SameChoice | Sources/CQuickJS/quickjs/libregexp.c:1524-1540 | where back references name groups outside every repetition, and lazy quantifiers that leave a choice of two rounds or more repeat atoms that move or have their empty end last, the first end that passes any test on positions and on those groups is alike in the code and in RepeatMatcher, although captures are reset once, not per round, and lazy ranges accept empty rounds |
| ReAgree.LastingKnown | Sources/CQuickJS/quickjs/libregexp.c:1531-1540 | a test on the pattern text, that back references name only slots of groups outside every repetition, implies the condition of DoesAlike |
| ReAgree.PlainNames | Sources/CQuickJS/quickjs/libregexp.c:1531-1540 | a pattern without back references meets it |
| ReAgree.EndsHold | Sources/CQuickJS/quickjs/libregexp.c:1255-1279 | a pattern changes no captures but those of its own groups |
| ReAgree.EmptiesLeft | Sources/CQuickJS/quickjs/libregexp.c:1524-1526 | in a bounded lazy loop empty rounds that come last change nothing: from the place itself fewer rounds find nothing that has not failed before |
| ReChoice.EmptyAlternative | Sources/CQuickJS/quickjs/libregexp.c:1524-1526 | an atom that moves, or else nothing, has its empty end last |
| ReChoice.AtomsMoveRanges | Sources/CQuickJS/quickjs/libregexp.c:1524-1526 | the condition on atoms of ReRules, which a test on the pattern text implies, implies that of SameChoice |
| ReAgree.LeftmostAgrees | Sources/CQuickJS/quickjs/libregexp.c:2418-2456 | so the leftmost match ends at the same place in both |
| ReAgree.SearchIsEcma | Sources/CQuickJS/quickjs/libregexp.c:2418-2456 | the compiled program, sticky or not, stops with a match that ends where RepeatMatcher's ends, or with none where it has none |
| ReChoice.LazyTriesAgreeIff | Sources/CQuickJS/quickjs/libregexp.c:1524-1526 | without back references, a bounded lazy repetition, whose atom holds no other over an atom that can be empty, tries the places of RepeatMatcher, repetitions counted, if and only if no empty round can be reached within its bounds |
| ReLazy.LoopYields | Sources/CQuickJS/quickjs/libregexp.c:1524-1526 | where no empty round lies ahead, an unbounded lazy loop presents the tried places in turn and then fails, back references or not |
| ReLazy.LoopOffers | Sources/CQuickJS/quickjs/libregexp.c:1524-1526 | empty round ahead or not, it offers the tried places to what follows, in order |
| ReLazy.LoopFails | Sources/CQuickJS/quickjs/libregexp.c:1524-1526 | it fails where no empty round lies ahead and what follows fails at every tried place, back references or not |
| ReLazy.LoopDiverges | Sources/CQuickJS/quickjs/libregexp.c:1524-1526 | it never stops where an empty round lies ahead and what follows fails at every tried place |
| ReLazy.LoopOutcome | Sources/CQuickJS/quickjs/libregexp.c:1524-1526 | told what follows at the tried places alone: the first match that follows ends the run; if there is none the loop fails, or runs forever where an empty round lies ahead, and only then |
| ReLazy.LazyStarHangsIff | Sources/CQuickJS/quickjs/libregexp.c:1524-1558 | the *? loop in the code never stops if and only if an empty round lies ahead and what follows matches from no tried place |
| ReLazy.LazyPlusHangsIff | Sources/CQuickJS/quickjs/libregexp.c:1574-1578 | the same for the +? that jumps back to its atom |
| ReVerdict.DoesList | Sources/CQuickJS/quickjs/libregexp.c:1139-1697 | each reading of a pattern is what the first of its ends comes to that does not fail, the ends of the code or of RepeatMatcher; for the code as it runs, where unbounded lazy loops have empty rounds and none is followed, it is that or has no end |
| ReOutcome.Goes | Sources/CQuickJS/quickjs/libregexp.c:1139-1697 | the code of every pattern, empty lazy loops and back references included, does what is read: it reaches a match, fails back to what was saved, or goes on for as many steps as empty rounds are followed |
| ReOutcome.CycleGoes | Sources/CQuickJS/quickjs/libregexp.c:1543-1578 | both forms of the unbounded loop, greedy or lazy, checked or not, do what their repetition is read to do |
| ReAgree.FuelDoesNotMatter | Sources/CQuickJS/quickjs/libregexp.c:1524-1526 | where back references name groups outside every repetition, a loop that has gone round in one empty round goes round for ever, so the reading that follows none decides |
| ReSearch.SearchComes | Sources/CQuickJS/quickjs/libregexp.c:2418-2456 | the compiled program, sticky or not, stops with the match or the failure that is read, captures included, or goes on for as many steps as empty rounds are followed |
| ReSearch.SearchHangsIff | Sources/CQuickJS/quickjs/libregexp.c:2418-2456 | it never stops if and only if the reading has no end however many empty rounds are followed, for every pattern the compiler accepts |
| ReSearch.PlainHangsIff | Sources/CQuickJS/quickjs/libregexp.c:2418-2456 | where back references name groups outside every repetition, if and only if the reading that follows no empty round has none |
| ReSearch.SearchRightIff | Sources/CQuickJS/quickjs/libregexp.c:2418-2456 | under the conditions of SameChoice, whatever the unbounded lazy loops repeat, the compiled program agrees with RepeatMatcher if and only if its reading has an end |
| ReSearch.SearchFromLeft | Sources/CQuickJS/quickjs/libregexp.c:1778-1786 | a search that is not sticky is the sticky one at each position in turn, and one that has no end hides all that follow |
| ReSearch.LoopIsTried | Sources/CQuickJS/quickjs/libregexp.c:1524-1526 | the reading of an unbounded lazy loop is what the first tried place comes to that does not fail; if all fail, it has no end where an empty round lies ahead and fails elsewhere |
| ReSearch.LazyThenHangsIff | Sources/CQuickJS/quickjs/libregexp.c:1524-1526 | the sticky program for p*?r never stops if and only if an empty round of p lies ahead and r has no end at any tried place |
| ReExamples.LazyRangeExample | Sources/CQuickJS/quickjs/libregexp.c:1524-1526 | the program for a lazy {0,2} over nothing, a or aaa, followed by a lookahead for the last one or two characters, on aaaa ends at 3, where RepeatMatcher's match ends at 2 |
| ReExamples.CaptureResetExample | Sources/CQuickJS/quickjs/libregexp.c:1531-1540 | the program for a greedy star over the group (a) or b, followed by a back reference to the group, on ab ends at 0, where RepeatMatcher's match ends at 2 |
| ReExamples.EmptyCaptureExample | Sources/CQuickJS/quickjs/libregexp.c:1524-1526 | the sticky program for (?:(?=(a)))??\1b on ab ends at 2, where RepeatMatcher, which refuses the empty round, finds no match |
| ReHangs.LazyEmptyExample | Sources/CQuickJS/quickjs/libregexp.c:1524-1526 | (?:)*?b is accepted by the compiler, and its program, sticky or not, runs forever on the text a, where RepeatMatcher finds no match |
| ReHangs.LazyMissExample | Sources/CQuickJS/quickjs/libregexp.c:1524-1526 | a lazy star over nothing or a, followed by b, is accepted too, and its program, sticky or not, runs forever on ab, where RepeatMatcher's match ends at 2 |
| ReHangs.EmptyRoundWins | Sources/CQuickJS/quickjs/libregexp.c:1524-1526 | the sticky program for (?:(?=(a)))*?\1b on ab ends at 2 by way of an empty round, where RepeatMatcher finds no match |
| ReSurrogate.UnalignedExample | Sources/CQuickJS/quickjs/libregexp.c:1852-1933 | the sticky program for .*(?!$) on one surrogate pair, started between its halves, ends at 0, before its start, where RepeatMatcher's match ends at the start |
| ReStops.GreedyLands | Sources/CQuickJS/quickjs/libregexp.c:2369-2408 | the counting loop of the optimised opcode stops from any position, and a round that moves ends between code points |
| ReStops.RetriesLand | Sources/CQuickJS/quickjs/libregexp.c:2058-2080 | from between the halves of a surrogate pair rounds are given back to positions between code points, the start itself never among them |
| ReStops.AllReady | Sources/CQuickJS/quickjs/libregexp.c:1516-1618 | from any position, between the halves of a pair too, the code of a pattern in which no unbounded lazy loop repeats an atom that can be empty goes through a finite list of arrivals, each at its start or between code points, and then fails |
| ReStops.SearchStops | Sources/CQuickJS/quickjs/libregexp.c:2008-2413 | a search stops from every position of every text when no unbounded lazy loop repeats an atom that can be empty |
| ReStops.GreedySearchStops | Sources/CQuickJS/quickjs/libregexp.c:2008-2413 | so when every unbounded quantifier is greedy |
| ReDepth.GenClosed | Sources/CQuickJS/quickjs/libregexp.c:1699-1742 | every fragment leaves the operand stack as it found it, and every jump lands on an instruction at the depth it left |
| ReDepth.StepFits | Sources/CQuickJS/quickjs/libregexp.c:1971-2413 | one step, backtracking and lookaround included, keeps: an instruction at pc, the depth counted there, the same for every saved state |
| ReDepth.DepthIsLinear | Sources/CQuickJS/quickjs/libregexp.c:1699-1742 | in every run of a compiled program the machine never leaves the code, and the operand depth is the linear count at pc and at most the header value |
| ReDepth.NestedFits | Sources/CQuickJS/quickjs/libregexp.c:2383-2395 | the nested run of a simple atom never leaves it and moves |
| ReEmit.NeedCheck | Sources/CQuickJS/quickjs/libregexp.c:898-948 | the scan over the bytes decides re_need_check_advance on the instructions |
| ReEmit.IsSimpleQuantifier | Sources/CQuickJS/quickjs/libregexp.c:952-989 | the scan over the bytes counts the characters of a simple atom or refuses |
| ReEmit.FragmentAt | Sources/CQuickJS/quickjs/libregexp.c:898-989 | walking by instruction sizes meets each instruction of a fragment |
| ReEmit.Emitter.EmitQuantifier | Sources/CQuickJS/quickjs/libregexp.c:1426-1616 | insertion, patching and atom copying leave exactly the quantifier code after what was there |
| ReEmit.Emitter.EmitRange | Sources/CQuickJS/quickjs/libregexp.c:773-804 | the bytes of the range instruction are appended, or the set is refused for too many intervals |
| ReEmit.Emitter.EmitAlternative | Sources/CQuickJS/quickjs/libregexp.c:1631-1662 | in a lookbehind the block moves reverse the terms |
| ReEmit.Emitter.EmitDisjunction | Sources/CQuickJS/quickjs/libregexp.c:1655-1697 | split inserted before and goto patched after |
| ReEmit.Emitter.EmitPattern | Sources/CQuickJS/quickjs/libregexp.c:1139-1697 | the emitter accepts exactly the emittable patterns, those of ReAccept.EmittableIff, and appends exactly their code |
| ReAccept.EmittableIff | Sources/CQuickJS/quickjs/libregexp.c:1255-1279 | a pattern is accepted from group number cc on exactly when its groups end at 255 or before, every class in it has fewer than 65535 intervals and every quantifier its counts in order |
| ReAccept.GroupsAreCounted | Sources/CQuickJS/quickjs/libregexp.c:1255-1279 | capture_count advances by the number of groups among the parts of the pattern |
| ReExec.SearchRange | Sources/CQuickJS/quickjs/libregexp.c:2310-2321 | the unsigned binary search computes Search, and idx_max never wraps |
| ReExec.RunNested | Sources/CQuickJS/quickjs/libregexp.c:2383-2395 | the nested run computes Nested |
| ReExec.CountGreedy | Sources/CQuickJS/quickjs/libregexp.c:2383-2398 | the counting loop computes GreedyRun |
| ReExec.MatchReference | Sources/CQuickJS/quickjs/libregexp.c:2242-2285 | the comparison loops compute Referenced, which ReBackrefs.ReferencedIff characterises |
| ReExec.Matcher.Resume | Sources/CQuickJS/quickjs/libregexp.c:2025-2094 | the recurse loop leaves the state Fail or Succeed describe, or the result |
| ReExec.Matcher.Turn | Sources/CQuickJS/quickjs/libregexp.c:2022-2411 | one turn of the switch is one step of the machine |
| ReExec.Matcher.Backtrack | Sources/CQuickJS/quickjs/libregexp.c:2008-2413 | the loop returns what the machine stops with |
| ReCompile.ComputeStackSize | Sources/CQuickJS/quickjs/libregexp.c:1699-1742 | the greatest linear count, or -1 above 255 |
| ReCompile.Compile | Sources/CQuickJS/quickjs/libregexp.c:1744-1839 | a pattern is accepted exactly when it has at most 254 groups of its own, every class in it has fewer than 65535 intervals, every quantifier its counts in order, and the stack it needs is at most 255 deep; then header and code are those of the pattern |
| ReCompile.ProgramIsThere | Sources/CQuickJS/quickjs/libregexp.c:1744-1839 | the header of an accepted program reads back the group count, the stack size and the code length, and the code lies after it |
| ReCompile.Execute | Sources/CQuickJS/quickjs/libregexp.c:2418-2456 | running an accepted program stops, from between code points wherever its reading has an end and from every position where no unbounded lazy loop repeats an atom that can be empty; from between code points it returns what is read, which in the latter case is the preferred leftmost match or none; for a pattern without back references that is the leftmost span the pattern covers, with its groups |
| QSort.InsertionSort | Sources/CQuickJS/quickjs/cutils.c:623-627 | small segments end sorted, a rearrangement of themselves |
| QSort.HeapTop | Sources/CQuickJS/quickjs/cutils.c:470-502 | the root of a heap is not below any element |
| QSort.HeapSort | Sources/CQuickJS/quickjs/cutils.c:470-502 | heapsortx sorts any segment and touches nothing else |
| QSort.Split | Sources/CQuickJS/quickjs/cutils.c:547-573 | the partition loop ends with parts same, below, above, same as the pivot |
| QSort.Gather | Sources/CQuickJS/quickjs/cutils.c:584-599 | the two span swaps bring the equal elements to the middle |
| QSort.DivideWorking | Sources/CQuickJS/quickjs/cutils.c:606-621 | after a partition the segment set aside has a depth above all stacked ones, so that at most 50 are ever stacked |
| QSort.RQSort | Sources/CQuickJS/quickjs/cutils.c:511-629 | the array ends sorted and a permutation of itself for every total preorder, through all three algorithms |
| CharRanges.InIsUnion | Sources/CQuickJS/quickjs/libunicode.c:428-429 | on points in order, border parity and union of intervals agree |
| CharRanges.UnionIsRanges | Sources/CQuickJS/quickjs/libunicode.c:428-429 | the union of the intervals is the set the regexp class tests |
| CharRanges.Canonical | Sources/CQuickJS/quickjs/libunicode.c:428-454 | strictly increasing points are determined by the set they denote |
| CharRanges.MergeStep | Sources/CQuickJS/quickjs/libunicode.c:463-505 | one point of the merge keeps: what is put out denotes the combination so far |
| CharRanges.CombinedSets | Sources/CQuickJS/quickjs/libunicode.c:457-508 | points that denote a combination denote the union, the intersection, or what lies in exactly one of the two sets |
| CharRanges.CharRange.Op | Sources/CQuickJS/quickjs/libunicode.c:457-508 | a point is in the result of cr_op exactly when it is in either set, in both, or in exactly one, by operation; the points are strictly increasing |
| CharRanges.CharRange.Compress | Sources/CQuickJS/quickjs/libunicode.c:428-454 | cr_compress keeps the set and leaves strictly increasing points |
| CharRanges.CharRange.Invert | Sources/CQuickJS/quickjs/libunicode.c:522-534 | cr_invert is the complement on [0, UINT32_MAX) |
| CharRanges.InvertTwice | Sources/CQuickJS/quickjs/libunicode.c:522-534 | inverting twice gives back the points themselves |
| CharRanges.CharRange.UnionInterval | Sources/CQuickJS/quickjs/libunicode.h:92-98 | an inclusive interval joins the set |
| CharRanges.CharRange.AddInterval | Sources/CQuickJS/quickjs/libunicode.h:79-88 | an interval appended joins the union |
| CharRanges.MergeOverlaps | Sources/CQuickJS/quickjs/libunicode.c:1356-1383 | merging intervals sorted by start keeps their union and leaves them apart |
| CharRanges.SortAndRemoveOverlap | Sources/CQuickJS/quickjs/libunicode.c:1350-1384 | sorting and merging keeps the union of arbitrary overlapping intervals and leaves points in order, each end point below the next start point |

## Left out

- Allocation: it is taken to succeed; buffers that grow are sequences.
- Limb width: fixed at 64 bits; the 32-bit configuration is not modelled.
- Aliasing of products: `mp_mul` and the divisions are modelled with a result array distinct from their operands, as at every call site.
- NTT multiplication: it is compiled only under `USE_FFT_MUL`, which is not set.
- The number layer above the limbs of libbf.c (rounding, signed and scaled numbers, radix conversion, decimal and transcendental functions).
- Regular expression text: patterns are trees; lexing, escapes, group names and error messages are not modelled, and a literal is taken after canonicalization.
- Case folding: a map from code points to code points is a parameter.
- The test of a zero-length program (`RE_HEADER_LEN` bytes only) and of byte code not made by the compiler: the machine is Stuck where the C is undefined.
- The trailing group names of a compiled program and the flag that announces them.
- ReMachine.Nested: the nested run of `REOP_simple_greedy_quant` is modelled for the opcodes `re_is_simple_quantifier` admits; `ReDepth.DepthIsLinear` shows that a compiled program never needs another.
- ReCorrect.Compiled: leaves out unbounded lazy loops whose atom can match empty, for which the code has no finite list of ends to present (`ReOutcome.Goes` says what it does), and starts inside a surrogate pair, from which `ReStops.AllReady` proves a finite list but not which.
- ReCorrect.QuantYields: the same two cases.
- ReProgram.RunEnds: the same two cases; for the first, `ReSearch.SearchComes`.
- ReProgram.SearchEnds: the same two cases; for the first, `ReSearch.SearchComes`.
- ReOutcome.Goes: starts inside a surrogate pair.
- ReAgree.SearchIsEcma: the same two cases, the first of which `ReSearch.SearchRightIff` includes; back references to groups inside a repetition, where `ReExamples.CaptureResetExample` and `ReExamples.EmptyCaptureExample` show it false; and lazy ranges over atoms that offer an empty round before others, where `ReExamples.LazyRangeExample` shows it false.
- ReSearch.SearchRightIff: the same, but for unbounded lazy loops.
- ReChoice.LazyTriesAgreeIff: patterns with back references, and atoms that hold lazy ranges over atoms that can be empty.
- ReSearch.LazyThenHangsIff: back references to groups inside a repetition, with which rounds depend on what earlier rounds captured (`ReSearch.SearchHangsIff` includes them), and the search that is not sticky, which `ReSearch.SearchFromLeft` takes apart.
- ReLanguage.EndsAreSpans: patterns with back references, whose spans depend on what was captured (`ReBackrefs.ReferencedIff` has each reference).
- ReCaptures.EndsAreCaught: the same.
- ReFinds.ExpectedFinds: the same, and unbounded lazy loops whose atom can match empty, for which `ReSearch.SearchComes`.
- ReCompile.Execute: code longer than 2^31 - 1 bytes, whose length the header cannot hold; what is found from inside a surrogate pair.
- CharRanges.CharRange.UnionInterval: c2 at most UINT32_MAX - 1; above it c2 + 1 wraps to 0 in the C and leaves points out of order. Callers pass code points.
- CharRanges.SortAndRemoveOverlap: sorts and merges pairs taken from the points and writes them back at the end, where the C does both on the points themselves.
- QSort.SwapBlock: an exchange of blocks, element by element; the exchange functions specialised by width are not modelled.
- Case closure of character sets and the generated Unicode tables.
- Swift wrappers and the engine outside these files.
