# ReverseRegex.NET core, modelled in Dafny

ReverseRegex.NET turns a regular expression into random strings that the
expression matches. This project models the core of that library:

- **The parse state.** `RegexParseState` is a cursor over the pattern's code
  points. It has single-step moves, "require" helpers that raise a
  `RegexParseException`, and readers for octal, hexadecimal and decimal
  numbers. It also has snapshots and `BeginMatch`/`EndRequirement` brackets.
- **The parser in `Regex.cs`.** It covers alternatives, sequences, escapes,
  the `\Q…\E` literal, the `*` `+` `?` postfix quantifiers and `{min,max}`
  bounds. Each thing the parser does not support raises
  `NotImplementedException`.
- **The syntax-tree nodes.** These are `CharNode`, `EmptyNode`,
  `SequenceNode`, `AlternatesNode`, `OptionalNode`, `RepeatNode` and
  `StringNode`, plus the possessive/lazy flags of `QuantifierNode`. Each node
  generates a random sample of (code point, case-sensitive) pairs.
- **`Regex.GenerateSample`.** It renders those pairs into text, flipping the
  case of each case-insensitive code point with a coin.
- **`RangeList`.** A sorted list of disjoint, non-adjacent integer ranges with
  binary-search lookup, insertion of a value or a range, indexing and count.
- **The helpers.** The digit classifiers of `IntExtensions` and the UTF-16
  decoding of `StringExtensions.ToCodePoints`.

The Dafny modules follow the C# files:

| Module | File | Contents |
|---|---|---|
| `Errors` | `errors.dfy` | error kinds and messages, `Result`/`Option`/`Outcome` |
| `IntExtensions` | `int_extensions.dfy` | digit classifiers |
| `StringExtensions` | `string_extensions.dfy` | UTF-16 decoding, with an encoder as its inverse |
| `Containers` | `range_list.dfy` | class `RangeList` and the range-list lemmas |
| `ParseState` | `parse_state.dfy` | class `RegexParseState`, `Snapshot`, `EndRequirement`, and the digit-run arithmetic |
| `RegexNodes` | `regex_nodes.dfy` | the node tree, generation, the language of a node, `StringNode` |
| `Regex` | `regex.dfy` | the parser and class `Regex` |
| `PatternShapes` | `pattern_shapes.dfy` | the reference parse worked out for a few patterns |

An exception thrown by the C# code becomes an `Err` value in the model. Its
kind and its message appear as datatype values, along with the index and
pattern it reports. Code that mutates objects is modelled as Dafny classes:

- `RegexParseState`: its cursor `Index` and `CaseSensitive` flag;
- `RangeList`: its `Ranges` list, a `seq` the methods reassign;
- `QuantifierNode`: its modifier flags;
- snapshots and end requirements.

The loops of the source are methods with loop invariants, proved against
specification functions:

- the digit readers, against `Positional` and `ShiftOr`;
- `RequireAll`, against `MatchedFrom`, the first code point that differs;
- the binary search `Index` and the indexer, against `Covered` and `ItemOf`;
- `ParseLiteral`, against `LiteralEnd` and `CharNodes`;
- the item loop of `ParseSequence` and the alternatives loop of
  `ParseAlternatives`, against `ItemsFrom` and `AlternativesFrom`. These give
  the shape of the tree (see below);
- the sampling loops of `RepeatNode`, `StringNode` and `Regex.GenerateSample`,
  against `Gen` and `Render`;
- `ToCodePoints`, against `Decode`.

Random draws come from an explicit stream `Rng = nat -> nat`. Generation
threads the position of the next unused draw through it:

- `NextBool` is an odd draw;
- `Next(n)` is a draw modulo `n`.

### The main results

- **Generation is sound and complete.**
  - `GenSound`: every sample `Gen` produces is in the node's language
    `Matches`.
  - `EveryOutputIsGenerated`: every word in that language is produced by some
    random stream.
- **RangeList keeps its invariant.** Every insertion keeps the ranges sorted,
  disjoint and non-adjacent, and the covered set grows by exactly the
  inserted values. The indexer enumerates the covered set in increasing
  order.
- **The parser agrees with a reference parse.** The reference parse is a set
  of recursive functions over the pattern. `Erase` drops the quantifier
  objects from a node, which leaves a `Shape`.
  - `ItemResult` gives what one code point adds to a sequence.
  - `ItemsFrom` gives the items up to the next terminator.
  - `AlternativesFrom` gives the `|`-separated sequences, in order.
  - `PatternShape` gives the whole tree.
  - `ParseItem`, `ParseSequence`, `ParseAlternatives` and `Regex.Build`
    succeed exactly when the reference parse does. On success the erased
    result and the final cursor are the reference parse's.
  - The escapes give exactly the node and cursor of `BackslashResult`.
  - `PatternShapes` works out the reference parse for `a*`, `ab*`, `a|b`,
    `a{2,3}` and `a\n`, and for every pattern of two plain runs around one
    `|` (`TwoPlainAlternatives`).
  - A pattern without special characters parses to one character node per
    code point, stated on the nodes themselves.
  - On failure, the exception raised is stated for the escapes, for a quantifier
    with nothing before it, and for an unsupported code point that starts a
    sequence. For other failures only the fact of failing is stated.
- **UTF-16 decoding round-trips.** Decoding and encoding are mutual inverses.

### Where the code was followed over its documentation

The model does what the code does where the two differ:

- **Back references.** `\7` is a back reference (rejected as not
  implemented), because the test at `Regex.cs:338` rejects every value below
  10. `\18` is read as the octal escape `\1` followed by a literal `8`.
- **Hex letters.** The readers accumulate `value << 4 | (c - '0')`, so the
  letters `a`–`f` and `A`–`F` are combined by their distance from `'0'`, not by
  their hex value. `HexLetterMisread` states the difference for `a`. Hex
  escapes therefore give their documented value only when they are made of
  decimal digits (`HexEscapeValue`).
- **Bounds.**
  - `a{2}` is `{2, int.MaxValue}`, not exactly two.
  - `a{2,}` is accepted.
  - `a{}}` is accepted, because the closing brace is required after the
    character that the empty minimum left in place.
- **`\x` before a non-hex character.** `\x` followed by a character that is
  not a hex digit consumes that character and yields code point 0.
- **Quantifier modifiers.** `+` or `?` after a quantified node sets that node's
  possessive or lazy flag and then raises "Invalid repetition" anyway. The
  flag change is kept in the model.

## Model

| member | source | states |
|---|---|---|
| IntExtensions.DigitClasses | ReverseRegex.NET/Extensions/IntExtensions.cs:12-19 | a code point is an octal digit exactly when it is one of `0`–`7`, an ASCII digit exactly when it is one of `0`–`9`, and a hex digit exactly when it is a decimal digit or one of `a`–`f`, `A`–`F`; octal digits are decimal digits and decimal digits are hex digits |
| StringExtensions.CombineSurrogates | ReverseRegex.NET/Extensions/StringExtensions.cs:19 | a high and a low surrogate stand for a supplementary-plane scalar value (0x10000–0x10FFFF) |
| StringExtensions.Decode | ReverseRegex.NET/Extensions/StringExtensions.cs:9-26 | decoding yields scalar values only, no more of them than code units, and a failure names the index of a lone surrogate inside the input |
| StringExtensions.ConvertToUtf32 | ReverseRegex.NET/Extensions/StringExtensions.cs:19 | converting at index i fails exactly when decoding from i fails at i itself; a success is a scalar value |
| StringExtensions.ToCodePoints | ReverseRegex.NET/Extensions/StringExtensions.cs:9-26 | the loop that skips the low half of each surrogate pair returns exactly the decoding of the whole string |
| StringExtensions.DecodeStep | ReverseRegex.NET/Extensions/StringExtensions.cs:17-23 | one step of decoding consumes two code units after a high surrogate and one otherwise |
| StringExtensions.DecodeEncode | ReverseRegex.NET/Extensions/StringExtensions.cs:9-26 | decoding the UTF-16 encoding of scalar values gives them back |
| StringExtensions.EncodeDecode | ReverseRegex.NET/Extensions/StringExtensions.cs:9-26 | encoding what a successful decoding returns gives back the original code units |
| StringExtensions.NonSurrogatesDecodeToThemselves | ReverseRegex.NET/Extensions/StringExtensions.cs:9-26 | text without surrogates decodes to its own code units |
| Containers.SpanSize | ReverseRegex.NET/Containers/RangeList.cs:200 | the range lo..hi holds hi - lo + 1 integers |
| Containers.ValidIffSeparated | ReverseRegex.NET/Containers/RangeList.cs:12 | the adjacent-pair form of the range-list invariant is equivalent to the all-pairs form (every range before another ends at least two below its start) |
| Containers.CoveredMember | ReverseRegex.NET/Containers/RangeList.cs:12 | an integer is covered exactly when some range holds it |
| Containers.GapBridge | ReverseRegex.NET/Containers/RangeList.cs:46-91 | a value in a gap is not covered, and the only neighbours it can join are the two around that gap |
| Containers.JoinNeighbours | ReverseRegex.NET/Containers/RangeList.cs:72-76 | a value that touches both neighbours merges them into one range; the list stays valid and gains exactly that value |
| Containers.GrowLeftNeighbour | ReverseRegex.NET/Containers/RangeList.cs:59-85 | a value one above the left neighbour's end extends it; the list stays valid and gains exactly that value |
| Containers.GrowRightNeighbour | ReverseRegex.NET/Containers/RangeList.cs:77-80 | a value one below the right neighbour's start extends it; the list stays valid and gains exactly that value |
| Containers.InsertAlone | ReverseRegex.NET/Containers/RangeList.cs:59-89 | a value touching neither neighbour is inserted as its own range; the list stays valid and gains exactly that value |
| Containers.HitBridgesNothing | ReverseRegex.NET/Containers/RangeList.cs:54-90 | a value already inside a range is covered and bridges no gap |
| Containers.GapNotCovered | ReverseRegex.NET/Containers/RangeList.cs:41 | a value between two ranges (the search's complement result) is not covered |
| Containers.InsideMeansSameHit | ReverseRegex.NET/Containers/RangeList.cs:112-132 | when one range encloses [start, end], both binary searches land on it |
| Containers.HitAbsorbs | ReverseRegex.NET/Containers/RangeList.cs:127-131 | adding a sub-range of an existing range changes nothing |
| Containers.EdgesEncloseARange | ReverseRegex.NET/Containers/RangeList.cs:134-170 | in the general case the widened range starts at an index before the one it ends at |
| Containers.MergeAcrossAdds | ReverseRegex.NET/Containers/RangeList.cs:134-175 | widening [start, end] to the ranges it overlaps or touches, writing it over the first and removing the rest keeps the list valid and adds exactly start..end |
| Containers.MergeBetweenEdges | ReverseRegex.NET/Containers/RangeList.cs:134-175 | the same, stated for the widened edges |
| Containers.MergeSplice | ReverseRegex.NET/Containers/RangeList.cs:119-124 | replacing the absorbed ranges (none, for a range alone in its gap) by one range that spans them and the new one keeps the list valid and adds exactly the new span |
| Containers.CoveredBounds | ReverseRegex.NET/Containers/RangeList.cs:12 | every covered value lies between the first range's start and the last range's end |
| Containers.TotalLengthIsCardinality | ReverseRegex.NET/Containers/RangeList.cs:200 | the sum of range lengths is the number of covered integers |
| Containers.TotalLengthPositive | ReverseRegex.NET/Containers/RangeList.cs:200 | a valid list covers at least as many integers as it has ranges |
| Containers.ItemOfInBounds | ReverseRegex.NET/Containers/RangeList.cs:182-197 | the indexer finds a value exactly for indices below the count, and that value is covered |
| Containers.ItemOfIncreasing | ReverseRegex.NET/Containers/RangeList.cs:182-197 | the indexer is strictly increasing: it enumerates the covered integers in order |
| Containers.ItemOfRank | ReverseRegex.NET/Containers/RangeList.cs:182-197 | every covered integer is returned by the indexer at its rank, which is below the count |
| Containers.NegativeIndexIsNotRejected | ReverseRegex.NET/Containers/RangeList.cs:182-197 | a negative index is not rejected: it returns a value below the first range, which is not covered |
| Containers.ItemFacts | ReverseRegex.NET/Containers/RangeList.cs:182-197 | an index below the count finds a covered value; one at or above it is out of range |
| Containers.RangeList.constructor | ReverseRegex.NET/Containers/RangeList.cs:12 | a new list is empty |
| Containers.RangeList.Index | ReverseRegex.NET/Containers/RangeList.cs:19-42 | the binary search returns the index of the range holding the value, or the complement of the index of the gap it falls in |
| Containers.RangeList.Contains | ReverseRegex.NET/Containers/RangeList.cs:44 | true exactly when the value is covered |
| Containers.RangeList.Add | ReverseRegex.NET/Containers/RangeList.cs:46-91 | the list stays valid and covers exactly one more value; a covered value leaves it unchanged; a value bridging two ranges leaves one range fewer |
| Containers.RangeList.AddRange | ReverseRegex.NET/Containers/RangeList.cs:93-176 | on a non-empty list the list stays valid and gains exactly the integers between start and end in either order; a range inside an existing one changes nothing; an empty list stores the pair as given |
| Containers.RangeList.MergeAcross | ReverseRegex.NET/Containers/RangeList.cs:134-175 | widening, overwriting and removing keeps the list valid and adds exactly lo..hi |
| Containers.RangeList.Item | ReverseRegex.NET/Containers/RangeList.cs:182-197 | the walk over the ranges returns the reference lookup: a covered value for indices below the count, out-of-range at or above it |
| Containers.RangeList.Count | ReverseRegex.NET/Containers/RangeList.cs:200 | on a valid list the sum of the range lengths is the number of covered code points |
| ParseState.Pow2 | ReverseRegex.NET/RegexParseState.cs:86 | the shift factor is positive |
| ParseState.OrIntoZeroBits | ReverseRegex.NET/RegexParseState.cs:86 | OR-ing a digit smaller than 2^k into a value shifted by k bits is addition |
| ParseState.ShiftOrIsPositional | ReverseRegex.NET/RegexParseState.cs:81-87 | shift-and-OR accumulation of digits below 2^k is the positional value in base 2^k |
| ParseState.OctalEscapeValue | ReverseRegex.NET/RegexParseState.cs:81-87 | for octal digits the shift-and-OR loop computes the base-8 value |
| ParseState.HexEscapeValue | ReverseRegex.NET/RegexParseState.cs:110-116 | for decimal digits the hex loop computes the base-16 value |
| ParseState.HexLetterMisread | ReverseRegex.NET/RegexParseState.cs:110-116 | the hex loop reads `a` as 49, where its hex value is 10 |
| ParseState.MatchedFrom | ReverseRegex.NET/RegexParseState.cs:191-197 | the first index from i on at which the expected code points stop matching the pattern: every one before it matches, and the one there is missing or differs |
| ParseState.MatchedFromAll | ReverseRegex.NET/RegexParseState.cs:191-197 | no expected code point fails to match exactly when the pattern continues with all of them |
| ParseState.RunEndOf | ReverseRegex.NET/RegexParseState.cs:83 | a digit run stops where `RunEnd`, the first non-digit up to the limit, says |
| ParseState.ShortOctalRun | ReverseRegex.NET/Regex.cs:329 | a run of at most three octal digits ends where `RunEnd` says and makes a scalar value |
| ParseState.ShortOctalBelow512 | ReverseRegex.NET/Regex.cs:212-213 | at most three octal digits give a value below 512 |
| ParseState.ShortOctalIsScalar | ReverseRegex.NET/RegexParseState.cs:70-97 | at most three octal digits give a value below 512, always a Unicode scalar value |
| ParseState.ShortHexIsScalar | ReverseRegex.NET/RegexParseState.cs:99-126 | at most two hex digits always give a Unicode scalar value |
| ParseState.BitOrAtMostSum | ReverseRegex.NET/RegexParseState.cs:115 | a bitwise OR is at most the sum of its operands |
| ParseState.PositionalAgrees | ReverseRegex.NET/RegexParseState.cs:110-116 | digit strings whose digits have the same values have the same positional value |
| ParseState.ShiftOrAtSlice | ReverseRegex.NET/RegexParseState.cs:83-87 | accumulating in place over s[start..end] equals accumulating over the slice |
| ParseState.OctalRun | ReverseRegex.NET/RegexParseState.cs:83-87 | the octal loop's stopping state is the longest octal run up to the length limit, and its value is that run's base-8 value |
| ParseState.HexRun | ReverseRegex.NET/RegexParseState.cs:112-116 | the hex loop's stopping state is the longest hex run up to the length limit, and its value is the shift-and-OR of that run |
| ParseState.DigitRunUnique | ReverseRegex.NET/RegexParseState.cs:83 | the run a digit loop stops at is unique |
| ParseState.DigitsEnd | ReverseRegex.NET/RegexParseState.cs:155 | the end of a digit run: all digits before it and none at it |
| ParseState.DigitRunIsMaximal | ReverseRegex.NET/RegexParseState.cs:155 | a run shorter than its limit ends at the first non-digit |
| ParseState.RunDigits | ReverseRegex.NET/RegexParseState.cs:155 | the slice of a run is all digits |
| ParseState.DecimalNonNegative | ReverseRegex.NET/RegexParseState.cs:153-159 | a decimal number read from digits is non-negative |
| ParseState.DecimalMagnitude | ReverseRegex.NET/Regex.cs:338 | one digit is below 10; two or more digits without a leading zero are at least 10 |
| ParseState.RegexParseState.constructor | ReverseRegex.NET/RegexParseState.cs:11-18 | a new state is before the first code point (Index = -1) |
| ParseState.RegexParseState.Char | ReverseRegex.NET/RegexParseState.cs:20 | the code point under the cursor, defined only while the cursor is on one |
| ParseState.RegexParseState.TryPeekNext | ReverseRegex.NET/RegexParseState.cs:24-34 | yields a code point exactly when one follows the cursor, and then it is the next one; the cursor does not move |
| ParseState.RegexParseState.HasNext | ReverseRegex.NET/Regex.cs:45 | a code point follows the cursor |
| ParseState.RegexParseState.Error | ReverseRegex.NET/Regex.cs:87 | a parse error with the given message at the current index and pattern |
| ParseState.RegexParseState.MoveNext | ReverseRegex.NET/RegexParseState.cs:36-46 | advances when a code point follows, otherwise rests on the last one and reports false |
| ParseState.RegexParseState.MoveNextIfAny | ReverseRegex.NET/RegexParseState.cs:48-57 | advances exactly when a next code point exists and its membership in the set equals the flag |
| ParseState.RegexParseState.MoveNextIf | ReverseRegex.NET/RegexParseState.cs:59-68 | advances exactly when a next code point exists and its equality with ch equals the flag |
| ParseState.RegexParseState.RequireNext | ReverseRegex.NET/Regex.cs:182 | advances or fails with "unexpected end of pattern" at the last index |
| ParseState.RegexParseState.ValidateEscape | ReverseRegex.NET/RegexParseState.cs:128-140 | a non-negative value passes exactly when it is a Unicode scalar value; above 0x10FFFF and surrogates fail with their own messages |
| ParseState.RegexParseState.ReadOctalRun | ReverseRegex.NET/RegexParseState.cs:81-87 | the loop consumes octal digits up to the limit and stops at the first non-octal; the value is their shift-and-OR |
| ParseState.RegexParseState.ReadOctalEscape | ReverseRegex.NET/RegexParseState.cs:70-97 | no octal digit: 0 or "expected octal digit" by the minimum; otherwise the maximal run, too short is an error, and the base-8 value passes exactly when it is a scalar value |
| ParseState.RegexParseState.ReadHexRun | ReverseRegex.NET/RegexParseState.cs:110-116 | the loop consumes hex digits up to the limit and stops at the first non-hex; the value is their shift-and-OR |
| ParseState.RegexParseState.ReadHexEscape | ReverseRegex.NET/RegexParseState.cs:99-126 | no hex digit: 0 or "expected hex digit" by the minimum; otherwise the maximal run, too short is an error, and the shift-and-OR value passes exactly when it is a scalar value |
| ParseState.RegexParseState.ReadAsciiNumber | ReverseRegex.NET/RegexParseState.cs:142-167 | no digit: 0 or "expected decimal digit" by the minimum; otherwise the maximal run's base-10 value, or an error if the run is too short |
| ParseState.RegexParseState.Snapshot | ReverseRegex.NET/RegexParseState.cs:169 | the snapshot records this state's index and case sensitivity |
| ParseState.RegexParseState.Require | ReverseRegex.NET/RegexParseState.cs:171-177 | advances (or rests on the last code point) and passes exactly when the next code point is c; otherwise "expected character c" |
| ParseState.RegexParseState.RequireRange | ReverseRegex.NET/RegexParseState.cs:179-189 | passes exactly when a next code point exists in [start, end]; an end of pattern and an out-of-range code point fail with their own messages |
| ParseState.RegexParseState.RequireAll | ReverseRegex.NET/RegexParseState.cs:191-197 | passes exactly when the next code points are the expected ones, then stands on the last. Otherwise it fails at the first expected code point k that is missing or differs, with "expected character" for it. The cursor and the error's index are then old + k + 1, or the last index if that is past the end |
| ParseState.RegexParseState.BeginMatch | ReverseRegex.NET/RegexParseState.cs:199-208 | succeeds exactly when the opening sequence follows and returns a fresh, undisposed requirement for the closing sequence; a failure is `RequireAll`'s, at the first mismatch |
| ParseState.Snapshot.constructor | ReverseRegex.NET/RegexParseState.cs:216-221 | copies the state's index and case sensitivity |
| ParseState.Snapshot.Restore | ReverseRegex.NET/RegexParseState.cs:223-227 | puts the recorded index and case sensitivity back |
| ParseState.EndRequirement.constructor | ReverseRegex.NET/RegexParseState.cs:241-245 | a new requirement is not disposed |
| ParseState.EndRequirement.Dispose | ReverseRegex.NET/RegexParseState.cs:247-254 | the first disposal without an exception in flight requires the closing sequence, failing as `RequireAll` does at the first mismatch; later disposals, or one during an exception, do nothing |
| RegexNodes.Choose | ReverseRegex.NET/RegexNodes/AlternatesNode.cs:16 | the chosen alternative is a valid index |
| RegexNodes.AllowsRepetition | ReverseRegex.NET/RegexNodes/CharNode.cs:25 | only a character node (and the empty node, which the parser never quantifies) takes `*`, `+`, `?` or bounds; optional and repeat nodes refuse them (OptionalNode.cs:15, RepeatNode.cs:41) |
| RegexNodes.RepeatableOutputs | ReverseRegex.NET/RegexNodes/CharNode.cs:20-25 | a node that takes a quantifier directly produces at most one (code point, case-sensitive) pair |
| RegexNodes.QuantifierNode.constructor | ReverseRegex.NET/RegexNodes/QuantifierNode.cs:10-12 | a new quantifier has no modifier |
| RegexNodes.QuantifierNode.SetPossesive | ReverseRegex.NET/RegexNodes/QuantifierNode.cs:14-18 | sets the possessive flag on a node with no modifier; at most one flag is then set |
| RegexNodes.QuantifierNode.SetLazy | ReverseRegex.NET/RegexNodes/QuantifierNode.cs:20-24 | sets the lazy flag on a node with no modifier; at most one flag is then set |
| RegexNodes.Gen | ReverseRegex.NET/RegexNodes/AlternatesNode.cs:15-16 | a sample never moves the draw position backwards |
| RegexNodes.GenFrom | ReverseRegex.NET/RegexNodes/SequenceNode.cs:14 | a sequence samples its nodes from the i-th on, left to right, each continuing the draw stream where the previous stopped; the draw position never goes back |
| RegexNodes.GenTimes | ReverseRegex.NET/RegexNodes/RepeatNode.cs:25-30 | the k mandatory copies of a repetition, each sampled afresh; the draw position never goes back |
| RegexNodes.GenExtra | ReverseRegex.NET/RegexNodes/RepeatNode.cs:32-38 | from copy i on, one coin per further copy while below Max, stopping at the first failed coin; the draw position never goes back |
| RegexNodes.Matches | ReverseRegex.NET/RegexNodes/IRegexNode.cs:9 | the language of a node: the (code point, case-sensitive) pair sequences its GenerateSample can yield, defined without reference to draws |
| RegexNodes.MatchesFrom | ReverseRegex.NET/RegexNodes/SequenceNode.cs:14 | a concatenation of words of the sequence's nodes from the i-th on |
| RegexNodes.MatchesTimes | ReverseRegex.NET/RegexNodes/RepeatNode.cs:22-39 | a concatenation of exactly k words of the repeated node |
| RegexNodes.SampleRepeat | ReverseRegex.NET/RegexNodes/RepeatNode.cs:22-39 | the two sampling loops (Min mandatory copies, then more while below Max and a coin succeeds) produce exactly the reference sample and draw position |
| RegexNodes.MatchesTimesAppend | ReverseRegex.NET/RegexNodes/RepeatNode.cs:25-38 | a copies followed by b copies are a + b copies |
| RegexNodes.GenSound | ReverseRegex.NET/RegexNodes/CharNode.cs:20-23 | every sample any node generates is in that node's language (char, empty, sequence, one alternative, optional, Min to Max copies) |
| RegexNodes.GenFromSound | ReverseRegex.NET/RegexNodes/SequenceNode.cs:14 | the concatenated samples of a sequence's children are in the sequence's language |
| RegexNodes.GenTimesSound | ReverseRegex.NET/RegexNodes/RepeatNode.cs:25-31 | the mandatory loop produces k copies of the child's language |
| RegexNodes.GenExtraSound | ReverseRegex.NET/RegexNodes/RepeatNode.cs:32-38 | the coin loop produces a number of copies that keeps the total at most Max |
| RegexNodes.GenFrame | ReverseRegex.NET/RegexNodes/OptionalNode.cs:17-26 | a sample depends only on the draws between its start and end positions |
| RegexNodes.GenFromFrame | ReverseRegex.NET/RegexNodes/SequenceNode.cs:14 | the same for the rest of a sequence |
| RegexNodes.GenTimesFrame | ReverseRegex.NET/RegexNodes/RepeatNode.cs:25-31 | the same for the mandatory copies |
| RegexNodes.GenExtraFrame | ReverseRegex.NET/RegexNodes/RepeatNode.cs:32-38 | the same for the optional copies |
| RegexNodes.AgreesSplit | ReverseRegex.NET/RegexNodes/SequenceNode.cs:14 | a stream agreeing with a + b agrees with a and then with b |
| RegexNodes.MatchesTimesSplit | ReverseRegex.NET/RegexNodes/RepeatNode.cs:22-39 | a + b copies split into a copies followed by b copies |
| RegexNodes.Complete | ReverseRegex.NET/RegexNodes/AlternatesNode.cs:15-16 | for every word in a node's language there are draws that make the node generate exactly that word |
| RegexNodes.CompleteAlternates | ReverseRegex.NET/RegexNodes/AlternatesNode.cs:15-16 | the same for an alternation: the first draw picks the alternative |
| RegexNodes.CompleteOptional | ReverseRegex.NET/RegexNodes/OptionalNode.cs:17-26 | the same for an optional node: the coin decides presence |
| RegexNodes.CompleteRepeat | ReverseRegex.NET/RegexNodes/RepeatNode.cs:22-39 | the same for a repetition |
| RegexNodes.CompleteFrom | ReverseRegex.NET/RegexNodes/SequenceNode.cs:14 | the same for the rest of a sequence |
| RegexNodes.CompleteTimes | ReverseRegex.NET/RegexNodes/RepeatNode.cs:25-31 | the same for the mandatory copies |
| RegexNodes.CompleteExtra | ReverseRegex.NET/RegexNodes/RepeatNode.cs:32-38 | the same for the optional copies, ending with a failed coin or at Max |
| RegexNodes.EveryOutputIsGenerated | ReverseRegex.NET/RegexNodes/AlternatesNode.cs:15-16 | every word in a node's language is generated by some random stream |
| RegexNodes.Uncased | ReverseRegex.NET/Regex.cs:24-27 | at most one coin per generated pair is needed for casing |
| RegexNodes.RenderDraws | ReverseRegex.NET/Regex.cs:19-30 | rendering draws exactly one coin per case-insensitive pair |
| RegexNodes.RenderKept | ReverseRegex.NET/Regex.cs:22-25 | case-sensitive pairs are rendered as their own code points, drawing nothing |
| RegexNodes.RenderAppend | ReverseRegex.NET/Regex.cs:19-30 | rendering a concatenation is rendering the first part, then the second from where the first stopped drawing |
| RegexNodes.Piece | ReverseRegex.NET/Regex.cs:21-29 | one pair as text: a case-sensitive code point as is without a draw; otherwise one coin picks its upper or lower case |
| RegexNodes.Render | ReverseRegex.NET/Regex.cs:18-31 | the pairs rendered one after the other, each continuing the draw stream where the previous stopped |
| RegexNodes.StringNode.constructor | ReverseRegex.NET/RegexNodes/StringNode.cs:15-19 | keeps the code points and the state's case sensitivity |
| RegexNodes.StringNode.OfCodePoint | ReverseRegex.NET/RegexNodes/StringNode.cs:21-25 | a single code point with the state's case sensitivity |
| RegexNodes.StringNode.GenerateSample | ReverseRegex.NET/RegexNodes/StringNode.cs:27-41 | case-sensitive text is returned unchanged without draws; otherwise one coin per code point picks upper or lower case, as the reference rendering does |
| RegexNodes.RenderCaseSensitive | ReverseRegex.NET/RegexNodes/StringNode.cs:29-32 | case-sensitive code points render as themselves |
| RegexNodes.RenderStep | ReverseRegex.NET/RegexNodes/StringNode.cs:35-39 | one case-insensitive step appends the coin's casing and advances one draw |
| RegexNodes.AsPairs | ReverseRegex.NET/RegexNodes/StringNode.cs:27-41 | every code point is paired with the node's case sensitivity |
| Regex.CharNodes | ReverseRegex.NET/Regex.cs:172 | plain text becomes one character node per code point, in order |
| Regex.LiteralEnd | ReverseRegex.NET/Regex.cs:361-366 | the literal ends at the first `\E` or at the end of the pattern |
| Regex.LiteralEndAt | ReverseRegex.NET/Regex.cs:361-366 | the first `\E` after i is where the literal ends |
| Regex.CharNodesSnoc | ReverseRegex.NET/Regex.cs:368 | adding one code point adds one character node at the end |
| Regex.ParseLiteral | ReverseRegex.NET/Regex.cs:358-372 | `\Q` yields one character node per code point up to `\E` (or the end) and stands after `\E` |
| Regex.ControlCode | ReverseRegex.NET/Regex.cs:199 | the control code is an ASCII value |
| Regex.ControlCodes | ReverseRegex.NET/Regex.cs:199 | `@`–`_` map to 0–31, `a`–`z` to the same code as their upper case (1–26), `?` to 0x7F |
| Regex.ParseControlEscape | ReverseRegex.NET/Regex.cs:195-201 | `\c` needs a next code point in space–tilde, with a distinct error for each failure, and yields its control code |
| Regex.BracedEnd | ReverseRegex.NET/RegexParseState.cs:83 | the braced digits run from q to their first non-digit |
| Regex.ReadBracedDigits | ReverseRegex.NET/Regex.cs:256-262 | the braced digit run succeeds exactly when it is non-empty and its value is a scalar value, then stands on its last digit |
| Regex.ReadBracedRun | ReverseRegex.NET/Regex.cs:220 | the same, from the current code point |
| Regex.CloseBraced | ReverseRegex.NET/Regex.cs:217-223 | under the guard for `}`: succeeds exactly when a non-empty digit run with a scalar value is followed by `}`, with that value and the cursor on the brace |
| Regex.ParseBraced | ReverseRegex.NET/Regex.cs:214-271 | `\o{…}`, `\x{…}` and `\N{U+…}` succeed exactly when the opening follows, then a non-empty digit run with a scalar value, then `}`; the value is that of the run |
| Regex.ReadShortHex | ReverseRegex.NET/Regex.cs:245-246 | a non-hex character gives 0 in place; otherwise the longest run of at most two hex digits, by shift-and-OR |
| Regex.ParseHexEscape | ReverseRegex.NET/Regex.cs:225-248 | `\x` at the end gives 0; `\x{…}` succeeds exactly when the braced form is well formed, with its value and the cursor on `}`; otherwise the next code point is consumed and up to two hex digits are read, 0 when it is not one |
| Regex.BackReferenceTest | ReverseRegex.NET/Regex.cs:335-338 | the source's test (value below 10 or first digit above 7) is rejected exactly unless the digit is at most 7 and another digit follows |
| Regex.ReadShortOctal | ReverseRegex.NET/Regex.cs:329 | the longest run of at most three octal digits and its base-8 value |
| Regex.ReadsBackReference | ReverseRegex.NET/Regex.cs:333-346 | a back reference exactly unless the digit is at most 7 and another digit follows; in that case the cursor is restored |
| Regex.ParseDigitEscape | ReverseRegex.NET/Regex.cs:319-351 | in a class `8`/`9` are themselves and other digits are octal; outside, a back reference is not implemented, otherwise up to three octal digits |
| Regex.ParseZeroCode | ReverseRegex.NET/Regex.cs:212-213 | `\0` gives the character of the base-8 value of the longest run of at most three octal digits, with the cursor on its last digit |
| Regex.ParseOctalCode | ReverseRegex.NET/Regex.cs:214-224 | `\o{…}` succeeds exactly when the braced octal form is well formed, giving the character of its value with the cursor on `}` |
| Regex.ParseHexCode | ReverseRegex.NET/Regex.cs:225-248 | `\x` gives the character of `ReadingResult`: 0 at the end, the braced value, 0 before a non-hex code point, or up to two hex digits, each with its cursor |
| Regex.ParseNamedCode | ReverseRegex.NET/Regex.cs:249-271 | `\N{U+…}` gives the character of its hex value with the cursor on `}`; `\N` without a brace is "character classes not implemented" |
| Regex.ParseDigitCode | ReverseRegex.NET/Regex.cs:319-351 | `\1`–`\9` give the character of `ReadingResult`: `8`/`9` themselves in a class, otherwise an octal run of up to three digits; outside a class a back reference is not implemented |
| Regex.ReadingResult | ReverseRegex.NET/Regex.cs:191-271 | an escape that reads further yields a literal node, and the cursor stops at or after the escape code, inside the pattern |
| Regex.EscapeResult | ReverseRegex.NET/Regex.cs:189-355 | the node of any escape is a literal node, and the cursor stops inside the pattern, not before the escape code |
| Regex.BackslashResult | ReverseRegex.NET/Regex.cs:180-356 | a backslash yields a literal node, and the cursor stops after the backslash, inside the pattern |
| Regex.FixedEscape | ReverseRegex.NET/Regex.cs:189-355 | escapes read no further: control characters, `\b` in a class, not-implemented features and invalid escapes each with their result |
| Regex.ParseZeroEscape | ReverseRegex.NET/Regex.cs:212-213 | `\0` reads the longest run of at most three octal digits from the `0` on, and its value is their base-8 value, below 512 |
| Regex.ParseReadingEscape | ReverseRegex.NET/Regex.cs:191-271 | escapes that read further (`Q`, `c`, `0`, `o`, `x`, `N`, digits) succeed exactly when `ReadingResult` does, with its node and cursor; the failures of `\c`, `\N` and back references carry their own exceptions |
| Regex.ParseEscapeCode | ReverseRegex.NET/Regex.cs:189-355 | the escape letter gives `FixedEscape`'s result in place, or the node and cursor of `ReadingResult` |
| Regex.ParseEscape | ReverseRegex.NET/Regex.cs:180-356 | a backslash at the end is an error; a non-letter-or-digit is itself; otherwise the escape's outcome. It succeeds exactly when `BackslashResult` does, with its node and cursor, and a success always advances |
| Regex.ApplyPostfix | ReverseRegex.NET/Regex.cs:84-140 | `*`, `+`, `?` on nothing, on an unrepeatable node, and on a quantified node with or without a modifier each give their error or flag change; on a repeatable node the last node is wrapped with a fresh quantifier |
| Regex.PostfixWrapsLast | ReverseRegex.NET/Regex.cs:84-137 | `*`, `+` and `?` succeed exactly on a non-empty item list whose last item is repeatable; the result wraps that item in a repetition or an optional and keeps the items before it |
| Regex.ReadMinimum | ReverseRegex.NET/Regex.cs:158 | the minimum is the value of the decimal run after `{`, 0 if there is none |
| Regex.Bounds | ReverseRegex.NET/Regex.cs:152-167 | well-formed braces end in a `}` after the opening brace, and their counts are those `Counts` reads up to the code point before it |
| Regex.Counts | ReverseRegex.NET/Regex.cs:157-166 | the counts end after the opening brace; they fail only at the end of the pattern or when the largest count fails |
| Regex.MaxPart | ReverseRegex.NET/Regex.cs:159-166 | the largest count fails exactly when a comma is followed by something other than `}` that is not a decimal number of at least the minimum; a found largest count is no smaller than the minimum unless unbounded |
| Regex.UpperPart | ReverseRegex.NET/Regex.cs:161-165 | fails exactly at the end, at a non-digit, or on a decimal number below the minimum; otherwise the number is at least the minimum |
| Regex.ReadUpper | ReverseRegex.NET/Regex.cs:161-165 | succeeds exactly as the reference upper-bound reading, with its value and cursor |
| Regex.ReadMaximum | ReverseRegex.NET/Regex.cs:159-166 | a comma not followed by `}` requires a maximum at least the minimum; otherwise the maximum is int.MaxValue |
| Regex.ReadCounts | ReverseRegex.NET/Regex.cs:157-166 | the minimum and maximum read inside the braces, as the reference reading gives them |
| Regex.BoundsAfterCounts | ReverseRegex.NET/Regex.cs:155-167 | the bounds are accepted exactly when the code point after the counts is `}` |
| Regex.ParseBounds | ReverseRegex.NET/Regex.cs:155-167 | `{min,max}` succeeds exactly as the reference bounds reading, with its value and cursor |
| Regex.ApplyBounds | ReverseRegex.NET/Regex.cs:141-170 | `{` on nothing and on an unrepeatable node is an error; otherwise the last node becomes a fresh repetition with the parsed bounds |
| Regex.BoundsWrapLast | ReverseRegex.NET/Regex.cs:141-170 | bounds succeed exactly on a repeatable last item and well-formed braces; the last item becomes a repetition with the counts read, the items before it are kept, and the cursor stops on the closing `}` |
| Regex.ApplyQuantifier | ReverseRegex.NET/Regex.cs:84-170 | a quantifier on nothing is "cannot repeat nothing" or "cannot make nothing optional"; otherwise it succeeds exactly when the reference (`PostfixResult`, `BoundsResult`) does, with its shapes and cursor; a result keeps every node fit for a sequence |
| Regex.ParseItem | ReverseRegex.NET/Regex.cs:69-174 | a plain code point becomes a character node; unsupported syntax is not implemented; a quantifier on nothing is an error; in every case it succeeds exactly when `ItemResult` does, with its shapes and cursor |
| Regex.PlainEnd | ReverseRegex.NET/Regex.cs:67-173 | the first special code point or terminator after i |
| Regex.Erase | ReverseRegex.NET/Regex.cs:69-174 | the parsed node with its quantifier objects dropped, the view the reference parse is stated in |
| Regex.ItemResult | ReverseRegex.NET/Regex.cs:69-174 | one item never moves the cursor backwards or past the end |
| Regex.ItemsFrom | ReverseRegex.NET/Regex.cs:63-178 | the items up to the next terminator stop with the cursor inside the pattern, not before where they began |
| Regex.ItemsAt | ReverseRegex.NET/Regex.cs:67-175 | the same, from the first code point of the next item |
| Regex.AlternativesFrom | ReverseRegex.NET/Regex.cs:39-61 | the sequences to the end of the pattern add at least one alternative, keep the alternatives collected so far in order, and each added alternative is a sequence |
| Regex.PatternShape | ReverseRegex.NET/Regex.cs:39-60 | a pattern parses exactly when its alternatives do; the result is a single sequence or an alternation of at least two |
| Regex.EraseAll | ReverseRegex.NET/Regex.cs:177 | the shapes of nodes are, in order, the shapes of each node |
| Regex.EraseAppend | ReverseRegex.NET/Regex.cs:72 | adding a node adds its shape at the end |
| Regex.EraseReplaceLast | ReverseRegex.NET/Regex.cs:95 | replacing the last node replaces only the last shape |
| Regex.CharShapes | ReverseRegex.NET/Regex.cs:172 | one character shape per code point, in order |
| Regex.PlainItem | ReverseRegex.NET/Regex.cs:170-173 | a code point without a meaning of its own adds its character and stays under the cursor |
| Regex.PlainItems | ReverseRegex.NET/Regex.cs:67-175 | plain text up to a terminator or the end gives one character per code point, with the cursor on its last one |
| Regex.PlainSequence | ReverseRegex.NET/Regex.cs:63-178 | the same for a whole sequence |
| Regex.ErasedChars | ReverseRegex.NET/Regex.cs:172 | nodes with the shapes of character nodes are those character nodes |
| Regex.ErasedSequences | ReverseRegex.NET/Regex.cs:44 | nodes with the shape of one plain sequence are that sequence |
| Regex.ItemsFromStep | ReverseRegex.NET/Regex.cs:67-175 | after a successful item the sequence goes on from where the item left the cursor |
| Regex.ItemsFromStop | ReverseRegex.NET/Regex.cs:67 | at the end or before a terminator the sequence stops with the items so far |
| Regex.ItemsFromFail | ReverseRegex.NET/Regex.cs:67-175 | a failing item makes the sequence fail |
| Regex.ParseNextItem | ReverseRegex.NET/Regex.cs:67-175 | one round of the loop stops exactly at the end or a terminator, and otherwise parses the next item; the rest of the sequence then goes on from the new cursor as `ItemsFrom` does |
| Regex.ParseItems | ReverseRegex.NET/Regex.cs:65-175 | the loop succeeds exactly when `ItemsFrom` does, and then its nodes' shapes and its cursor are `ItemsFrom`'s; the first item's errors are stated |
| Regex.ParseSequence | ReverseRegex.NET/Regex.cs:63-178 | succeeds exactly when `ItemsFrom` does, and the sequence's shape and the cursor are its; an empty sequence, a leading unsupported code point or quantifier each give their result; plain text gives one character node per code point |
| Regex.ItemsWellFormed | ReverseRegex.NET/Regex.cs:177 | a sequence of parsed items has an alternative at every choice |
| Regex.AlternativesFromNext | ReverseRegex.NET/Regex.cs:42-53 | the alternatives fail with their first sequence, end with it at the end of the pattern, or go on after its `|` |
| Regex.PlainAlternatives | ReverseRegex.NET/Regex.cs:39-61 | plain text without `|` is one sequence of one character per code point |
| Regex.ParseNextSequence | ReverseRegex.NET/Regex.cs:44-52 | one round parses a well-formed sequence and steps over the `|` after it; the alternatives go on from there exactly as `AlternativesFrom` does |
| Regex.ParseSequences | ReverseRegex.NET/Regex.cs:41-53 | the loop consumes the pattern and succeeds exactly when `AlternativesFrom` does; the sequences' shapes are its alternatives, in order |
| Regex.ParseAlternatives | ReverseRegex.NET/Regex.cs:39-61 | the whole pattern is consumed; succeeds exactly when `PatternShape` does, and the tree's shape is its: one sequence, or at least two sequences in pattern order; a pattern without the alternation bar or other special code points gives its character nodes |
| PatternShapes.StarShape | ReverseRegex.NET/Regex.cs:84-96 | `a*` parses to a sequence of one repetition of `a`, from 0 to int.MaxValue times |
| PatternShapes.TrailingStarShape | ReverseRegex.NET/Regex.cs:84-96 | in `ab*` the star takes only the `b`: a sequence of `a` and a repetition of `b` |
| PatternShapes.ChoiceShape | ReverseRegex.NET/Regex.cs:39-60 | the choice between `a` and `b` parses to the alternatives `a` and `b`, each a sequence, in that order |
| PatternShapes.PlainLastAlternative | ReverseRegex.NET/Regex.cs:42-53 | plain code points after the cursor up to the end make one last sequence, one character each, appended to the alternatives so far |
| PatternShapes.PlainFirstAlternative | ReverseRegex.NET/Regex.cs:42-53 | plain code points up to a `|` make the first sequence, and the alternatives continue after the `|` |
| PatternShapes.TwoPlainAlternatives | ReverseRegex.NET/Regex.cs:39-60 | any two runs of plain code points around one `|`, either possibly empty, parse to an alternation of exactly those two sequences, in source order |
| PatternShapes.BoundsShape | ReverseRegex.NET/Regex.cs:141-170 | `a{2,3}` parses to a sequence of one repetition of `a` from 2 to 3 times |
| PatternShapes.EscapeShape | ReverseRegex.NET/Regex.cs:206-207 | `a\n` parses to a sequence of `a` and a line feed |
| Regex.Regex.constructor | ReverseRegex.NET/Regex.cs:13 | keeps the tree |
| Regex.Regex.Build | ReverseRegex.NET/Regex.cs:36-37 | a lone surrogate in the pattern is an error; otherwise it succeeds exactly when `PatternShape` of the decoded pattern does, with that shape, and the tree is well formed |
| Regex.Regex.GenerateSample | ReverseRegex.NET/Regex.cs:15-33 | the text is the rendering of a sample the tree generates, and that sample is in the tree's language |

## Left out

- Int32 arithmetic: integers are unbounded. Overflow is not modelled: the
  value of a very long octal, hex or decimal run, the `int.MaxValue` bound of
  `*`, `+` and `{n}`, `RangeList.Count`, and the indexer's range length
  `end - start + 1` (RangeList.cs:188), which wraps for the range
  (`int.MinValue`, `int.MaxValue`). The adjacency tests `end + 1` and
  `start - 1` in `Add` and `AddRange` are taken unbounded too; they cannot
  wrap, because the neighbour tested always ends below, or starts above, the
  uncovered value it is compared with. The parser assumes the pattern is shorter than
  `int.MaxValue` code points.
- `string.Normalize` in `Regex.Build` is not modelled: the pattern is taken as
  already normalised.
- Unicode tables are parameters of the model:
  - `IsLetterOrDigit` is a predicate that agrees with ASCII on ASCII code
    points;
  - `ToUpper`/`ToLower` are the `Casing` functions;
  - ASCII casing is assumed for `\c`. The source upper-cases with the
    current culture's `ToUpper`. Under a Turkish culture that maps `i` to
    U+0130, so `\ci` would give 0x170 rather than 0x09.
- Output strings stay as code points. `CodePointAsString`, `CodePointsToString`
  and the UTF-16 `StringBuilder` output are not modelled; `Encode` is the
  UTF-16 encoding used for the decoding round trip.
- `IsPrintableNotSpace`, `CodePointAsPrintingString`, `ConsoleHelper.cs` and
  `Program.cs` are not part of this model. Error messages are datatype values
  that carry the same parameters as the source's text.
- `System.Random` is an explicit stream of draws, as described above.
  - `Regex.GenerateSample` takes its casing coins after all of the tree's
    draws; the source interleaves them lazily. Each draw is independent, so
    the distribution of samples is the same, but a given seed yields a
    different string.
  - `NextDouble() >= 0.5` is an odd draw.
- `Marshal.GetExceptionPointers` becomes the `exceptionInFlight` parameter of
  `EndRequirement.Dispose`.
- `HasNext`, `RequireNext`, `Error` and the two-argument constructor of
  `RegexParseState` are used by `Regex.cs` but not defined in
  `RegexParseState.cs`. The model defines them:
  - `HasNext` as a successful peek;
  - `RequireNext` as a `MoveNext` that fails with "unexpected end of
    pattern";
  - `Error` as a parse exception at the current index;
  - the constructor as taking the case sensitivity.
- `SequenceNode.From` is likewise missing and is taken as the `SequenceNode`
  constructor. `SequenceNode.GenerateSample` as written joins the children's
  enumerables into a string; the model concatenates their pairs, as every
  other node does.
- The source gives no `AllowsRepetition` for `EmptyNode` and `SequenceNode`.
  The model treats an empty node as repeatable and a sequence as not.
- `ParseAlternatives`' case of zero alternatives cannot happen (the loop
  always adds one) and has no counterpart in the model.
- `IsLetterOrDigit` and `IsPrintableNotSpace` in `IntExtensions.cs` have no
  Dafny counterpart (see the Unicode tables above); `CodePoints` only spells
  out digit strings for the classifier lemmas.
- Containers.RangeList.AddRange: on an empty list the pair is stored as given,
  so `AddRange(5, 3)` stores the reversed range (5, 3). The contract states
  this and promises validity only for a non-empty list.
- Containers.RangeList.Item: a negative index is not rejected by the source;
  the contract describes its result through `ItemOf`, and
  `NegativeIndexIsNotRejected` states what it returns.
- Regex.ParseBraced and Regex.ParseBounds: state exactly when they succeed and
  what they return, but not which message each failure carries.
- Regex.ApplyQuantifier and Regex.ParseItem: state exactly when they succeed,
  with the shape of the result and the cursor, through the reference parse.
  The exception is stated only for a quantifier on nothing and for
  unsupported syntax. `ApplyPostfix` and `ApplyBounds` state the other
  messages.
- Regex.ParseSequence, Regex.ParseAlternatives and Regex.Regex.Build: state
  the result up to `Erase`, so not which quantifier object each node holds.
  A successful parse leaves no modifier flag set. On failure they state the
  message only in the cases listed under "The main results".
