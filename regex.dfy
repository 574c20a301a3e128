/** The recursive-descent parser that turns a pattern into a tree of nodes,
    and the Regex object that renders a random sample of the tree. */
module Regex {
  import opened Errors
  import opened IntExtensions
  import opened ParseState
  import opened RegexNodes
  import opened StringExtensions

  // ---------------------------------------------------------------------------
  // Character classes the parser relies on

  /** ASCII letters and decimal digits. */
  predicate IsAsciiLetterOrDigit(c: int) {
    IsAsciiDigit(c) || 'a' as int <= c <= 'z' as int || 'A' as int <= c <= 'Z' as int
  }

  /** The Unicode letter-or-digit test is a parameter of the parser; on ASCII it
      agrees with the letters and decimal digits. */
  predicate ClassifiesAscii(isLetterOrDigit: int -> bool) {
    forall c :: 0 <= c < 128 ==> (isLetterOrDigit(c) <==> IsAsciiLetterOrDigit(c))
  }

  /** Nodes an escape produces: a character, or the characters of a \Q...\E
      quotation in sequence. */
  predicate LiteralNode(n: Node) {
    n.Char? || (n.Sequence? && forall k :: 0 <= k < |n.nodes| ==> n.nodes[k].Char?)
  }

  /** One character node per code point, all with the same case flag. */
  function CharNodes(chars: seq<int>, caseSensitive: bool): (ns: seq<Node>)
    ensures |ns| == |chars|
    ensures forall k :: 0 <= k < |chars| ==> ns[k] == Char(chars[k], caseSensitive)
  {
    seq(|chars|, k requires 0 <= k < |chars| => Char(chars[k], caseSensitive))
  }

  // ---------------------------------------------------------------------------
  // \Q...\E

  /** A backslash followed by 'E' starts at j. */
  predicate QuoteEnd(s: seq<int>, j: int) {
    0 <= j && j + 1 < |s| && s[j] == '\\' as int && s[j + 1] == 'E' as int
  }

  /** The first \E at or after i, or the end of the pattern. */
  function LiteralEnd(s: seq<int>, i: int): (k: int)
    requires 0 <= i <= |s|
    ensures i <= k <= |s|
    ensures forall j :: i <= j < k ==> !QuoteEnd(s, j)
    ensures k < |s| ==> QuoteEnd(s, k)
    decreases |s| - i
  {
    if i == |s| then |s| else if QuoteEnd(s, i) then i else LiteralEnd(s, i + 1)
  }

  /** Everything after \Q up to the next \E (or the end of the pattern) is taken
      literally; the cursor is left on the 'E', or on the last code point. */
  method ParseLiteral(state: RegexParseState) returns (n: Node)
    requires state.Valid() && 0 <= state.Index
    modifies state
    ensures state.Valid() && state.CaseSensitive == old(state.CaseSensitive)
    ensures var stop := LiteralEnd(state.Regex, old(state.Index) + 1);
            && n == Sequence(CharNodes(state.Regex[old(state.Index) + 1..stop], state.CaseSensitive))
            && state.Index == if stop < |state.Regex| then stop + 1 else |state.Regex| - 1
  {
    var s := state.Regex;
    ghost var start := state.Index + 1;
    ghost var k := start;
    var nodes: seq<Node> := [];
    var moved := state.MoveNext();
    while moved
      invariant state.Valid() && state.CaseSensitive == old(state.CaseSensitive)
      invariant moved ==> start <= state.Index < |s| && k == state.Index
      invariant !moved ==> state.Index == |s| - 1 && k == |s|
      invariant start <= k <= |s|
      invariant forall j :: start <= j < k ==> !QuoteEnd(s, j)
      invariant nodes == CharNodes(s[start..k], state.CaseSensitive)
      decreases |s| - state.Index, moved
    {
      if state.Char() == '\\' as int {
        var closing := state.MoveNextIf('E' as int, true);
        if closing {
          LiteralEndAt(s, start, k);
          return Sequence(nodes);
        }
      }
      assert !QuoteEnd(s, k);
      CharNodesSnoc(s, start, k, state.CaseSensitive);
      nodes := nodes + [Char(state.Char(), state.CaseSensitive)];
      moved := state.MoveNext();
      k := k + 1;
    }
    LiteralEndAt(s, start, |s|);
    return Sequence(nodes);
  }

  /** The first \E found by scanning is the one LiteralEnd finds. */
  lemma {:induction false} LiteralEndAt(s: seq<int>, i: int, k: int)
    requires 0 <= i <= k <= |s|
    requires forall j :: i <= j < k ==> !QuoteEnd(s, j)
    requires k == |s| || QuoteEnd(s, k)
    ensures LiteralEnd(s, i) == k
    decreases k - i
  {
    if i < k {
      LiteralEndAt(s, i + 1, k);
    }
  }

  lemma CharNodesSnoc(s: seq<int>, i: int, k: int, caseSensitive: bool)
    requires 0 <= i <= k < |s|
    ensures CharNodes(s[i..k + 1], caseSensitive) == CharNodes(s[i..k], caseSensitive) + [Char(s[k], caseSensitive)]
  {
    assert s[i..k + 1] == s[i..k] + [s[k]];
  }

  // ---------------------------------------------------------------------------
  // Escapes that read further code points

  /** ASCII upper-casing. */
  function AsciiUpper(c: int): int {
    if 'a' as int <= c <= 'z' as int then c - 32 else c
  }

  /** The \c escape's value: the upper-cased character with bit 6 inverted. */
  function ControlCode(c: int): (v: int)
    requires 0x20 <= c <= 0x7E
    ensures 0 <= v < 128
  {
    var u := AsciiUpper(c);
    if u >= 64 then u - 64 else u + 64
  }

  /** \c maps '@' to '_' onto the C0 controls, a letter of either case to its
      position in the alphabet, and '?' to DEL. */
  lemma ControlCodes(c: int)
    requires 0x20 <= c <= 0x7E
    ensures '@' as int <= c <= '_' as int ==> ControlCode(c) == c - '@' as int
    ensures 'a' as int <= c <= 'z' as int ==> ControlCode(c) == ControlCode(c - 32) == c - 'a' as int + 1
    ensures c == '?' as int ==> ControlCode(c) == 0x7F
  {
  }

  /** \c followed by a printable ASCII character. */
  method ParseControlEscape(state: RegexParseState) returns (r: Result<Node>)
    requires state.Valid()
    modifies state
    ensures state.Valid() && state.CaseSensitive == old(state.CaseSensitive)
    ensures var s := state.Regex; var p := old(state.Index);
            && (p + 1 >= |s| ==> r == Err(RegexParseException(ExpectedCharacterInRange(' ' as int, '~' as int), |s| - 1, s)))
            && (p + 1 < |s| ==> state.Index == p + 1)
            && (p + 1 < |s| && !(0x20 <= s[p + 1] <= 0x7E) ==>
                  r == Err(RegexParseException(CharacterNotInRange(' ' as int, '~' as int), p + 1, s)))
            && (p + 1 < |s| && 0x20 <= s[p + 1] <= 0x7E ==> r == Ok(Char(ControlCode(s[p + 1]), state.CaseSensitive)))
  {
    var o := state.RequireRange(' ' as int, '~' as int);
    if o.Fail? {
      return Err(o.error);
    }
    return Ok(Char(ControlCode(state.Char()), state.CaseSensitive));
  }

  /** Where the digits of a braced escape end: octal or hexadecimal. */
  function BracedEnd(s: seq<int>, q: int, hex: bool): (e: int)
    requires 0 <= q <= |s|
    ensures q <= e <= |s|
    ensures forall k :: q <= k < e ==> IsOctalDigit(s[k]) || (hex && IsHexDigit(s[k]))
  {
    if hex then DigitsEnd(s, q, IsHexDigit) else DigitsEnd(s, q, IsOctalDigit)
  }

  /** What the digits of a braced escape are worth, as the readers accumulate them. */
  function BracedValue(ds: seq<int>, hex: bool): int
    requires forall k :: 0 <= k < |ds| ==> 0 <= DigitOffset(ds[k])
  {
    if hex then ShiftOr(ds, 16) else Positional(ds, 8, DigitOffset)
  }

  /** After position p the pattern holds the opening sequence, then at least one
      digit, then '}', and the digits name a Unicode scalar value. */
  predicate BracedOk(s: seq<int>, p: int, opening: seq<int>, hex: bool) {
    var q := p + |opening| + 1;
    && 0 <= p && q < |s| && s[p + 1..q] == opening
    && var e := BracedEnd(s, q, hex);
       q < e < |s| && s[e] == '}' as int && IsScalarValue(BracedValue(s[q..e], hex))
  }

  /** The digits of a braced escape, read from the code point after the cursor
      up to the first one that is not a digit. \N{U+...} checks the first digit
      itself, with its own message. */
  method ReadBracedDigits(state: RegexParseState, hex: bool, named: bool) returns (r: Result<int>)
    requires state.Valid() && |state.Regex| < MaxInt
    requires named ==> hex
    modifies state
    ensures state.Valid() && state.CaseSensitive == old(state.CaseSensitive)
    ensures var s := state.Regex; var q := old(state.Index) + 1;
            r.Ok? <==> q < |s| && q < BracedEnd(s, q, hex) && IsScalarValue(BracedValue(s[q..BracedEnd(s, q, hex)], hex))
    ensures r.Ok? ==>
              var q := old(state.Index) + 1;
              var e := BracedEnd(state.Regex, q, hex);
              r.value == BracedValue(state.Regex[q..e], hex) && state.Index == e - 1
  {
    var o := state.RequireNext();
    if o.Fail? {
      return Err(o.error);
    }
    if named && !IsHexDigit(state.Char()) {
      return Err(state.Error(ExpectedHexDigits));
    }
    r := ReadBracedRun(state, hex);
  }

  /** The whole run of digits from the cursor on, as ReadBracedDigits reads it. */
  method ReadBracedRun(state: RegexParseState, hex: bool) returns (r: Result<int>)
    requires state.Valid() && 0 <= state.Index && |state.Regex| < MaxInt
    modifies state
    ensures state.Valid() && state.CaseSensitive == old(state.CaseSensitive)
    ensures var s := state.Regex; var q := old(state.Index); var e := BracedEnd(s, q, hex);
            && (r.Ok? <==> q < e && IsScalarValue(BracedValue(s[q..e], hex)))
            && (r.Ok? ==> r.value == BracedValue(s[q..e], hex) && state.Index == e - 1)
  {
    ghost var s := state.Regex;
    ghost var q := state.Index;
    if hex {
      r := state.ReadHexEscape(1, MaxInt);
      if IsHexDigit(s[q]) {
        DigitRunIsMaximal(s, q, state.Index - q + 1, IsHexDigit, MaxInt);
      }
    } else {
      r := state.ReadOctalEscape(1, MaxInt);
      if IsOctalDigit(s[q]) {
        DigitRunIsMaximal(s, q, state.Index - q + 1, IsOctalDigit, MaxInt);
      }
    }
  }

  /** \o{...}, \x{...} and \N{U+...}: the opening sequence, the digits and the
      closing brace, the brace being required only when nothing failed before. */
  method ParseBraced(state: RegexParseState, opening: seq<int>, hex: bool, named: bool) returns (r: Result<int>)
    requires state.Valid() && 0 <= state.Index && |state.Regex| < MaxInt
    requires named ==> hex
    modifies state
    ensures state.Valid() && state.CaseSensitive == old(state.CaseSensitive)
    ensures r.Ok? <==> BracedOk(state.Regex, old(state.Index), opening, hex)
    ensures r.Ok? ==>
              var q := old(state.Index) + |opening| + 1;
              var e := BracedEnd(state.Regex, q, hex);
              r.value == BracedValue(state.Regex[q..e], hex) && state.Index == e
  {
    var began := state.BeginMatch(opening, ['}' as int]);
    if began.Err? {
      return Err(began.error);
    }
    r := CloseBraced(state, began.value, hex, named);
  }

  /** The digits of a braced escape and its closing brace, under the guard that
      requires the brace: an error in the digits leaves the guard undisposed of
      its requirement. */
  method CloseBraced(state: RegexParseState, guard: EndRequirement, hex: bool, named: bool) returns (r: Result<int>)
    requires state.Valid() && |state.Regex| < MaxInt
    requires named ==> hex
    requires guard.State == state && guard.Ending == ['}' as int] && !guard.disposed
    modifies state, guard
    ensures state.Valid() && state.CaseSensitive == old(state.CaseSensitive)
    ensures var s := state.Regex; var q := old(state.Index) + 1; var e := BracedEnd(s, q, hex);
            r.Ok? <==> q < e < |s| && s[e] == '}' as int && IsScalarValue(BracedValue(s[q..e], hex))
    ensures r.Ok? ==>
              var q := old(state.Index) + 1;
              var e := BracedEnd(state.Regex, q, hex);
              r.value == BracedValue(state.Regex[q..e], hex) && state.Index == e
  {
    r := ReadBracedDigits(state, hex, named);
    if r.Err? {
      var _ := guard.Dispose(true);
      return;
    }
    ghost var e := state.Index + 1;
    assert e < |state.Regex| ==> (state.Regex[e..e + 1] == ['}' as int] <==> state.Regex[e] == '}' as int);
    var d := guard.Dispose(false);
    if d.Fail? {
      return Err(d.error);
    }
  }

  /** Up to two hexadecimal digits from the cursor on; a code point that is no
      hexadecimal digit reads as 0 and stays under the cursor. */
  method ReadShortHex(state: RegexParseState) returns (v: int)
    requires state.Valid() && 0 <= state.Index
    modifies state
    ensures state.Valid() && state.CaseSensitive == old(state.CaseSensitive)
    ensures old(state.Index) <= state.Index && IsScalarValue(v)
    ensures !IsHexDigit(old(state.Char())) ==> v == 0 && state.Index == old(state.Index)
    ensures IsHexDigit(old(state.Char())) ==>
              && state.Index == RunEnd(state.Regex, old(state.Index), IsHexDigit, 2) - 1
              && v == ShiftOr(state.Regex[old(state.Index)..state.Index + 1], 16)
  {
    ghost var q := state.Index;
    var r := state.ReadHexEscape(0, 2);
    if IsHexDigit(state.Regex[q]) {
      RunEndOf(state.Regex, q, state.Index - q + 1, IsHexDigit, 2);
      RunDigits(state.Regex, q, state.Index - q + 1, IsHexDigit, 2);
      ShortHexIsScalar(state.Regex[q..state.Index + 1]);
    }
    return r.value;
  }

  /** \x: nothing after it is the code point 0; '{' starts the braced form;
      otherwise up to two hexadecimal digits follow, and a first code point that
      is not one is consumed all the same, leaving the value 0. */
  method ParseHexEscape(state: RegexParseState) returns (r: Result<int>)
    requires state.Valid() && 0 <= state.Index && |state.Regex| < MaxInt
    modifies state
    ensures state.Valid() && state.CaseSensitive == old(state.CaseSensitive)
    ensures var s := state.Regex; var p := old(state.Index);
            && (p + 1 == |s| ==> r == Ok(0) && state.Index == p)
            && (p + 1 < |s| && s[p + 1] == '{' as int ==> (r.Ok? <==> BracedOk(s, p, ['{' as int], true)))
            && (p + 1 < |s| && s[p + 1] == '{' as int && r.Ok? ==>
                  var e := BracedEnd(s, p + 2, true);
                  r.value == BracedValue(s[p + 2..e], true) && state.Index == e)
            && (p + 1 < |s| && s[p + 1] != '{' as int ==> r.Ok? && p < state.Index)
            && (p + 1 < |s| && s[p + 1] != '{' as int && !IsHexDigit(s[p + 1]) ==> r.value == 0 && state.Index == p + 1)
            && (p + 1 < |s| && s[p + 1] != '{' as int && IsHexDigit(s[p + 1]) ==>
                  && state.Index == RunEnd(s, p + 1, IsHexDigit, 2) - 1
                  && r.value == ShiftOr(s[p + 1..state.Index + 1], 16))
    ensures r.Ok? ==> old(state.Index) <= state.Index && IsScalarValue(r.value)
  {
    var next := state.TryPeekNext();
    if next.None? {
      return Ok(0);
    }
    if next.value == '{' as int {
      r := ParseBraced(state, ['{' as int], true, false);
      return;
    }
    var moved := state.MoveNext();
    var v := ReadShortHex(state);
    return Ok(v);
  }

  /** The whole decimal number after a backslash is below ten exactly when it
      is a single digit. */
  lemma BackReferenceTest(s: seq<int>, p: int, n: int)
    requires DigitRun(s, p, n, IsAsciiDigit, MaxInt) && |s| < MaxInt && s[p] != '0' as int
    ensures (Positional(s[p..p + n], 10, DigitOffset) < 10 || s[p] > '7' as int)
            <==> !(s[p] <= '7' as int && p + 1 < |s| && IsAsciiDigit(s[p + 1]))
  {
    RunDigits(s, p, n, IsAsciiDigit, MaxInt);
    DecimalMagnitude(s[p..p + n]);
  }

  /** One to three octal digits, which always make a scalar value. */
  method ReadShortOctal(state: RegexParseState) returns (v: int)
    requires state.Valid() && 0 <= state.Index && IsOctalDigit(state.Char())
    modifies state
    ensures state.Valid() && state.CaseSensitive == old(state.CaseSensitive)
    ensures state.Index == RunEnd(state.Regex, old(state.Index), IsOctalDigit, 3) - 1
    ensures v == Positional(state.Regex[old(state.Index)..state.Index + 1], 8, DigitOffset) && IsScalarValue(v)
  {
    ghost var p := state.Index;
    var r := state.ReadOctalEscape(1, 3);
    ShortOctalRun(state.Regex, p, state.Index - p + 1);
    return r.value;
  }

  /** Outside a character class a backslash and a digit other than 0 begin a
      back-reference when the whole decimal number there is a single digit or
      starts with 8 or 9; otherwise the cursor is put back. */
  method ReadsBackReference(state: RegexParseState) returns (b: bool)
    requires state.Valid() && 0 <= state.Index && |state.Regex| < MaxInt
    requires IsAsciiDigit(state.Char()) && state.Char() != '0' as int
    modifies state
    ensures state.Valid() && state.CaseSensitive == old(state.CaseSensitive)
    ensures var s := state.Regex; var p := old(state.Index);
            b <==> !(s[p] <= '7' as int && p + 1 < |s| && IsAsciiDigit(s[p + 1]))
    ensures !b ==> state.Index == old(state.Index)
  {
    ghost var p := state.Index;
    var snapshot := state.Snapshot();
    var firstDigit := state.Char() - '0' as int;
    var number := state.ReadAsciiNumber(1, MaxInt);
    BackReferenceTest(state.Regex, p, state.Index - p + 1);
    if number.value < 10 || firstDigit > 7 || number.value < state.CapturesCount {
      return true;
    }
    snapshot.Restore();
    return false;
  }

  /** A backslash and a decimal digit other than 0. In a character class 8 and 9
      stand for themselves and the rest start an octal escape of up to three
      digits. Elsewhere the whole decimal number is read first: a single digit,
      or a number that starts with 8 or 9, is a back-reference, which is not
      supported; otherwise the cursor is put back and up to three octal digits
      are read. */
  method ParseDigitEscape(state: RegexParseState, inCharacterClass: bool) returns (r: Result<int>)
    requires state.Valid() && 0 <= state.Index && |state.Regex| < MaxInt
    requires IsAsciiDigit(state.Char()) && state.Char() != '0' as int
    modifies state
    ensures state.Valid() && state.CaseSensitive == old(state.CaseSensitive)
    ensures var s := state.Regex; var p := old(state.Index);
            && (inCharacterClass && s[p] >= '8' as int ==> r == Ok(s[p]) && state.Index == p)
            && (!inCharacterClass ==> (r.Ok? <==> s[p] <= '7' as int && p + 1 < |s| && IsAsciiDigit(s[p + 1])))
            && (!inCharacterClass && r.Err? ==> r.error == NotImplementedException(BackReferences))
            && ((inCharacterClass && s[p] <= '7' as int) || (!inCharacterClass && r.Ok?) ==>
                  && r.Ok?
                  && state.Index == RunEnd(s, p, IsOctalDigit, 3) - 1
                  && r.value == Positional(s[p..state.Index + 1], 8, DigitOffset))
    ensures r.Ok? ==> old(state.Index) <= state.Index && IsScalarValue(r.value)
  {
    var c := state.Char();
    if !inCharacterClass {
      var backReference := ReadsBackReference(state);
      if backReference {
        return Err(NotImplementedException(BackReferences));
      }
    } else if c == '8' as int || c == '9' as int {
      return Ok(c);
    }
    var v := ReadShortOctal(state);
    return Ok(v);
  }

  // ---------------------------------------------------------------------------
  // Escapes

  /** The escapes that stand for one fixed control character. */
  function SimpleEscape(c: int): Option<int> {
    if c == 'a' as int then Some(0x07)
    else if c == 'e' as int then Some(0x1B)
    else if c == 'f' as int then Some(0x0C)
    else if c == 'n' as int then Some(0x0A)
    else if c == 'r' as int then Some(0x0D)
    else if c == 't' as int then Some(0x09)
    else None
  }

  /** \d \D \h \H \s \S \v \V \w \W and \C: shorthand character classes. */
  predicate IsClassEscape(c: int) {
    c == 'd' as int || c == 'D' as int || c == 'h' as int || c == 'H' as int || c == 's' as int || c == 'S' as int || c == 'v' as int || c == 'V' as int || c == 'w' as int || c == 'W' as int || c == 'C' as int
  }

  /** \B \A \Z \z and \G: assertions outside a character class. */
  predicate IsAssertionEscape(c: int) {
    c == 'B' as int || c == 'A' as int || c == 'Z' as int || c == 'z' as int || c == 'G' as int
  }

  /** The feature an escape letter stands for when the parser does not support
      it; \N, which depends on what follows it, is not listed. */
  function UnsupportedEscape(c: int, inCharacterClass: bool): Option<Feature> {
    if c == 'g' as int then Some(BackReferences)
    else if IsClassEscape(c) then Some(CharacterClasses)
    else if c == 'R' as int && inCharacterClass then Some(CharacterClasses)
    else if c == 'p' as int || c == 'P' as int then Some(UnicodeProperties)
    else if c == 'X' as int then Some(GraphemeClusters)
    else if (c == 'b' as int || IsAssertionEscape(c)) && !inCharacterClass then Some(Assertions)
    else None
  }

  /** The letters the parser knows as escapes, in or out of a character class. */
  predicate IsKnownEscape(c: int) {
    || SimpleEscape(c).Some? || IsClassEscape(c) || IsAssertionEscape(c)
    || c == 'Q' as int || c == 'c' as int || c == 'o' as int || c == 'x' as int || c == 'N' as int || c == 'b' as int || c == 'g' as int || c == 'R' as int || c == 'p' as int || c == 'P' as int || c == 'X' as int
  }

  /** Letters and digits that make no escape: R outside a character class, the
      assertion letters inside one, and anything the parser does not know. */
  predicate InvalidEscape(c: int, inCharacterClass: bool) {
    || (c == 'R' as int && !inCharacterClass)
    || (IsAssertionEscape(c) && inCharacterClass)
    || (!IsKnownEscape(c) && !IsAsciiDigit(c))
  }

  /** Escapes that read code points after their letter or digit. */
  predicate ReadsFurther(c: int) {
    || c == 'Q' as int || c == 'c' as int || c == '0' as int || c == 'o' as int || c == 'x' as int || c == 'N' as int
    || ('1' as int <= c <= '9' as int)
  }

  /** The outcome of an escape whose letter alone decides it; p is the position
      of the letter, where an invalid escape is reported. */
  function FixedEscape(c: int, inCharacterClass: bool, caseSensitive: bool, p: int, s: seq<int>): (r: Result<Node>)
    requires !ReadsFurther(c)
    ensures SimpleEscape(c).Some? ==> r == Ok(Char(SimpleEscape(c).value, caseSensitive))
    ensures c == 'b' as int && inCharacterClass ==> r == Ok(Char(0x08, caseSensitive))
    ensures UnsupportedEscape(c, inCharacterClass).Some? ==> r == Err(NotImplementedException(UnsupportedEscape(c, inCharacterClass).value))
    ensures InvalidEscape(c, inCharacterClass) ==> r == Err(RegexParseException(InvalidEscapeCharacter(c), p, s))
    ensures r.Ok? ==> r.value.Char?
  {
    if c == 'a' as int then Ok(Char(0x07, caseSensitive))
    else if c == 'e' as int then Ok(Char(0x1B, caseSensitive))
    else if c == 'f' as int then Ok(Char(0x0C, caseSensitive))
    else if c == 'n' as int then Ok(Char(0x0A, caseSensitive))
    else if c == 'r' as int then Ok(Char(0x0D, caseSensitive))
    else if c == 't' as int then Ok(Char(0x09, caseSensitive))
    else if c == 'b' as int && inCharacterClass then Ok(Char(0x08, caseSensitive))
    else if c == 'b' as int then Err(NotImplementedException(Assertions))
    else if c == 'g' as int then Err(NotImplementedException(BackReferences))
    else if IsClassEscape(c) then Err(NotImplementedException(CharacterClasses))
    else if c == 'R' as int && inCharacterClass then Err(NotImplementedException(CharacterClasses))
    else if c == 'p' as int || c == 'P' as int then Err(NotImplementedException(UnicodeProperties))
    else if c == 'X' as int then Err(NotImplementedException(GraphemeClusters))
    else if IsAssertionEscape(c) && !inCharacterClass then Err(NotImplementedException(Assertions))
    else Err(RegexParseException(InvalidEscapeCharacter(c), p, s))
  }

  /** `\0` starts an octal escape of at most three digits, the zero included;
      three octal digits never exceed 511, so the escape never fails. */
  method ParseZeroEscape(state: RegexParseState) returns (v: int)
    requires state.Valid() && 0 <= state.Index && state.Char() == '0' as int
    modifies state
    ensures state.Valid() && state.CaseSensitive == old(state.CaseSensitive)
    ensures state.Index == RunEnd(state.Regex, old(state.Index), IsOctalDigit, 3) - 1
    ensures v == Positional(state.Regex[old(state.Index)..state.Index + 1], 8, DigitOffset) && 0 <= v < 512
  {
    var p := state.Index;
    var o := state.ReadOctalEscape(0, 3);
    RunEndOf(state.Regex, p, state.Index - p + 1, IsOctalDigit, 3);
    ghost var ds := state.Regex[p..state.Index + 1];
    RunDigits(state.Regex, p, state.Index - p + 1, IsOctalDigit, 3);
    ShortOctalBelow512(ds);
    return o.value;
  }

  /** \0 and the octal digits after it, as a character node. */
  method ParseZeroCode(state: RegexParseState, inCharacterClass: bool) returns (r: Result<Node>)
    requires state.Valid() && 0 <= state.Index && |state.Regex| < MaxInt && state.Char() == '0' as int
    modifies state
    ensures state.Valid() && state.CaseSensitive == old(state.CaseSensitive)
    ensures r.Ok? ==> old(state.Index) <= state.Index && LiteralNode(r.value)
    ensures ReadingOutcome(state.Regex, old(state.Index), inCharacterClass, state.CaseSensitive, r, state.Index)
  {
    var v := ParseZeroEscape(state);
    return Ok(Char(v, state.CaseSensitive));
  }

  /** \o{...}, as a character node. */
  method ParseOctalCode(state: RegexParseState, inCharacterClass: bool) returns (r: Result<Node>)
    requires state.Valid() && 0 <= state.Index && |state.Regex| < MaxInt && state.Char() == 'o' as int
    modifies state
    ensures state.Valid() && state.CaseSensitive == old(state.CaseSensitive)
    ensures r.Ok? ==> old(state.Index) <= state.Index && LiteralNode(r.value)
    ensures ReadingOutcome(state.Regex, old(state.Index), inCharacterClass, state.CaseSensitive, r, state.Index)
  {
    var v :- ParseBraced(state, ['{' as int], false, false);
    return Ok(Char(v, state.CaseSensitive));
  }

  /** \x, as a character node. */
  method ParseHexCode(state: RegexParseState, inCharacterClass: bool) returns (r: Result<Node>)
    requires state.Valid() && 0 <= state.Index && |state.Regex| < MaxInt && state.Char() == 'x' as int
    modifies state
    ensures state.Valid() && state.CaseSensitive == old(state.CaseSensitive)
    ensures r.Ok? ==> old(state.Index) <= state.Index && LiteralNode(r.value)
    ensures ReadingOutcome(state.Regex, old(state.Index), inCharacterClass, state.CaseSensitive, r, state.Index)
  {
    var v :- ParseHexEscape(state);
    return Ok(Char(v, state.CaseSensitive));
  }

  /** \N: only the braced form \N{U+...} names a code point; \N alone, any
      character but a newline, is not supported. */
  method ParseNamedCode(state: RegexParseState, inCharacterClass: bool) returns (r: Result<Node>)
    requires state.Valid() && 0 <= state.Index && |state.Regex| < MaxInt && state.Char() == 'N' as int
    modifies state
    ensures state.Valid() && state.CaseSensitive == old(state.CaseSensitive)
    ensures r.Ok? ==> old(state.Index) <= state.Index && LiteralNode(r.value)
    ensures ReadingOutcome(state.Regex, old(state.Index), inCharacterClass, state.CaseSensitive, r, state.Index)
  {
    var next := state.TryPeekNext();
    if next.Some? && next.value == '{' as int {
      var v :- ParseBraced(state, CodePoints("{U+"), true, true);
      return Ok(Char(v, state.CaseSensitive));
    }
    return Err(NotImplementedException(CharacterClasses));
  }

  /** A backslash and a digit other than 0, as a character node. */
  method ParseDigitCode(state: RegexParseState, inCharacterClass: bool) returns (r: Result<Node>)
    requires state.Valid() && 0 <= state.Index && |state.Regex| < MaxInt && '1' as int <= state.Char() <= '9' as int
    modifies state
    ensures state.Valid() && state.CaseSensitive == old(state.CaseSensitive)
    ensures r.Ok? ==> old(state.Index) <= state.Index && LiteralNode(r.value)
    ensures ReadingOutcome(state.Regex, old(state.Index), inCharacterClass, state.CaseSensitive, r, state.Index)
  {
    var v :- ParseDigitEscape(state, inCharacterClass);
    return Ok(Char(v, state.CaseSensitive));
  }

  /** The escapes that read further: \Q, \c, \0, \o, \x, \N and the other digits. */
  method ParseReadingEscape(state: RegexParseState, inCharacterClass: bool) returns (r: Result<Node>)
    requires state.Valid() && 0 <= state.Index && |state.Regex| < MaxInt && ReadsFurther(state.Char())
    modifies state
    ensures state.Valid() && state.CaseSensitive == old(state.CaseSensitive)
    ensures r.Ok? ==> old(state.Index) <= state.Index && LiteralNode(r.value)
    ensures ReadingOutcome(state.Regex, old(state.Index), inCharacterClass, state.CaseSensitive, r, state.Index)
  {
    var c := state.Char();
    if c == 'Q' as int {
      var n := ParseLiteral(state);
      return Ok(n);
    } else if c == 'c' as int {
      r := ParseControlEscape(state);
    } else if c == '0' as int {
      r := ParseZeroCode(state, inCharacterClass);
    } else if c == 'o' as int {
      r := ParseOctalCode(state, inCharacterClass);
    } else if c == 'x' as int {
      r := ParseHexCode(state, inCharacterClass);
    } else if c == 'N' as int {
      r := ParseNamedCode(state, inCharacterClass);
    } else {
      r := ParseDigitCode(state, inCharacterClass);
    }
  }

  /** The node a braced escape yields and the position of its closing brace,
      or None when the escape fails. */
  function BracedResult(s: seq<int>, p: int, opening: seq<int>, hex: bool, cs: bool): Option<(Node, int)> {
    if BracedOk(s, p, opening, hex) then
      var q := p + |opening| + 1;
      var e := BracedEnd(s, q, hex);
      Some((Char(BracedValue(s[q..e], hex), cs), e))
    else None
  }

  /** The node an octal escape of at most three digits from i yields, and the
      position of its last digit. */
  function OctalResult(s: seq<int>, i: int, cs: bool): (Node, int)
    requires 0 <= i < |s| && IsOctalDigit(s[i])
  {
    var e := RunEnd(s, i, IsOctalDigit, 3);
    (Char(Positional(s[i..e], 8, DigitOffset), cs), e - 1)
  }

  /** The node an escape that reads further than its letter or digit at p
      yields, and the position where the cursor stops; None when it fails. */
  function ReadingResult(s: seq<int>, p: int, inCharacterClass: bool, cs: bool): (r: Option<(Node, int)>)
    requires 0 <= p < |s|
    ensures r.Some? ==> p <= r.value.1 < |s| && LiteralNode(r.value.0)
  {
    var c := s[p];
    if c == 'Q' as int then
      var stop := LiteralEnd(s, p + 1);
      Some((Sequence(CharNodes(s[p + 1..stop], cs)), if stop < |s| then stop + 1 else |s| - 1))
    else if c == 'c' as int then
      if p + 1 < |s| && 0x20 <= s[p + 1] <= 0x7E then Some((Char(ControlCode(s[p + 1]), cs), p + 1)) else None
    else if c == '0' as int then Some(OctalResult(s, p, cs))
    else if c == 'o' as int then BracedResult(s, p, ['{' as int], false, cs)
    else if c == 'x' as int then
      if p + 1 == |s| then Some((Char(0, cs), p))
      else if s[p + 1] == '{' as int then BracedResult(s, p, ['{' as int], true, cs)
      else if !IsHexDigit(s[p + 1]) then Some((Char(0, cs), p + 1))
      else
        var e := RunEnd(s, p + 1, IsHexDigit, 2);
        Some((Char(ShiftOr(s[p + 1..e], 16), cs), e - 1))
    else if c == 'N' as int then BracedResult(s, p, CodePoints("{U+"), true, cs)
    else if '1' as int <= c <= '9' as int then
      if inCharacterClass && c >= '8' as int then Some((Char(c, cs), p))
      else if inCharacterClass || (c <= '7' as int && p + 1 < |s| && IsAsciiDigit(s[p + 1])) then Some(OctalResult(s, p, cs))
      else None
    else None
  }

  /** The node the escape letter or digit at p yields and the position where
      the cursor stops; None when the escape fails. */
  function EscapeResult(s: seq<int>, p: int, inCharacterClass: bool, cs: bool): (r: Option<(Node, int)>)
    requires 0 <= p < |s|
    ensures r.Some? ==> p <= r.value.1 < |s| && LiteralNode(r.value.0)
  {
    if ReadsFurther(s[p]) then ReadingResult(s, p, inCharacterClass, cs)
    else
      var f := FixedEscape(s[p], inCharacterClass, cs, p, s);
      if f.Ok? then Some((f.value, p)) else None
  }

  /** What the escape letter or digit at p of s yields: r is the result and
      index where the cursor stops. */
  predicate EscapeOutcome(s: seq<int>, p: int, inCharacterClass: bool, cs: bool, r: Result<Node>, index: int)
    requires 0 <= p < |s|
  {
    && (r.Ok? ==> p <= index && LiteralNode(r.value))
    && (!ReadsFurther(s[p]) ==> r == FixedEscape(s[p], inCharacterClass, cs, p, s) && (r.Ok? ==> index == p))
    && ReadingOutcome(s, p, inCharacterClass, cs, r, index)
  }

  /** What an escape that reads further than its own letter or digit yields:
      r is the result and index where the cursor stops when the escape code is
      at p of s. Its success is ReadingResult's; some failures are pinned down
      to their exception. */
  predicate ReadingOutcome(s: seq<int>, p: int, inCharacterClass: bool, cs: bool, r: Result<Node>, index: int)
    requires 0 <= p < |s|
  {
    var c := s[p];
    var spec := ReadingResult(s, p, inCharacterClass, cs);
    && (ReadsFurther(c) ==> (r.Ok? <==> spec.Some?) && (r.Ok? ==> r.value == spec.value.0 && index == spec.value.1))
    && (c == 'c' as int && p + 1 >= |s| ==>
          r == Err(RegexParseException(ExpectedCharacterInRange(' ' as int, '~' as int), |s| - 1, s)))
    && (c == 'c' as int && p + 1 < |s| && !(0x20 <= s[p + 1] <= 0x7E) ==>
          r == Err(RegexParseException(CharacterNotInRange(' ' as int, '~' as int), p + 1, s)))
    && (c == 'N' as int && !(p + 1 < |s| && s[p + 1] == '{' as int) ==> r == Err(NotImplementedException(CharacterClasses)))
    && ('1' as int <= c <= '9' as int && !inCharacterClass && r.Err? ==> r.error == NotImplementedException(BackReferences))
  }

  /** The escape whose letter or digit is under the cursor. */
  method ParseEscapeCode(state: RegexParseState, inCharacterClass: bool) returns (r: Result<Node>)
    requires state.Valid() && 0 <= state.Index && |state.Regex| < MaxInt
    modifies state
    ensures state.Valid() && state.CaseSensitive == old(state.CaseSensitive)
    ensures EscapeOutcome(state.Regex, old(state.Index), inCharacterClass, state.CaseSensitive, r, state.Index)
  {
    if ReadsFurther(state.Char()) {
      r := ParseReadingEscape(state, inCharacterClass);
    } else {
      r := FixedEscape(state.Char(), inCharacterClass, state.CaseSensitive, state.Index, state.Regex);
    }
  }

  /** What a backslash at k and what follows it yield, and where the cursor
      stops; None when the escape fails. */
  function BackslashResult(s: seq<int>, k: int, inCharacterClass: bool, cs: bool, isLetterOrDigit: int -> bool): (r: Option<(Node, int)>)
    requires -1 <= k
    ensures r.Some? ==> k < r.value.1 < |s| && LiteralNode(r.value.0)
  {
    var p := k + 1;
    if p >= |s| then None
    else if !isLetterOrDigit(s[p]) then Some((Char(s[p], cs), p))
    else EscapeResult(s, p, inCharacterClass, cs)
  }

  /** A backslash and what follows it. A code point that is no letter or digit
      stands for itself; letters and digits are escapes. */
  method ParseEscape(state: RegexParseState, inCharacterClass: bool, isLetterOrDigit: int -> bool) returns (r: Result<Node>)
    requires state.Valid() && |state.Regex| < MaxInt && ClassifiesAscii(isLetterOrDigit)
    modifies state
    ensures state.Valid() && state.CaseSensitive == old(state.CaseSensitive)
    ensures r.Ok? ==> old(state.Index) < state.Index && LiteralNode(r.value)
    ensures var s := state.Regex; var p := old(state.Index) + 1; var cs := state.CaseSensitive;
            && (p >= |s| ==> r == Err(RegexParseException(UnexpectedEndOfPattern, |s| - 1, s)))
            && (p < |s| && !isLetterOrDigit(s[p]) ==> r == Ok(Char(s[p], cs)) && state.Index == p)
            && (p < |s| && 0 <= s[p] < 128 && !IsAsciiLetterOrDigit(s[p]) ==> r == Ok(Char(s[p], cs)) && state.Index == p)
            && (p < |s| && isLetterOrDigit(s[p]) ==> EscapeOutcome(s, p, inCharacterClass, cs, r, state.Index))
            && (p < |s| && IsAsciiLetterOrDigit(s[p]) ==> EscapeOutcome(s, p, inCharacterClass, cs, r, state.Index))
    ensures var spec := BackslashResult(state.Regex, old(state.Index), inCharacterClass, state.CaseSensitive, isLetterOrDigit);
            && (r.Ok? <==> spec.Some?)
            && (r.Ok? ==> r.value == spec.value.0 && state.Index == spec.value.1)
  {
    var o := state.RequireNext();
    if o.Fail? {
      return Err(o.error);
    }
    if !isLetterOrDigit(state.Char()) {
      return Ok(Char(state.Char(), state.CaseSensitive));
    }
    r := ParseEscapeCode(state, inCharacterClass);
  }

  // ---------------------------------------------------------------------------
  // Quantifiers

  /** Repeat and Optional nodes carry modifier flags. */
  predicate Quantified(n: Node) {
    n.Repeat? || n.Optional?
  }

  /** The modifier flags of the last node, when it is quantified. */
  function LastQuantifier(nodes: seq<Node>): set<QuantifierNode> {
    if |nodes| > 0 && Quantified(nodes[|nodes| - 1]) then {nodes[|nodes| - 1].q} else {}
  }

  /** What `*`, `+` and `?` make of the node they follow, with the given flags. */
  function Postfixed(n: Node, op: int, q: QuantifierNode): Node {
    if op == '*' as int then Repeat(n, 0, MaxInt, q)
    else if op == '+' as int then Repeat(n, 1, MaxInt, q)
    else Optional(n, q)
  }

  /** `*`, `+` or `?` after the nodes parsed so far: it quantifies the last node
      when that node allows repetition. After a quantified node `+` and `?` are
      modifiers, which this parser records on the node and then rejects all the
      same. */
  method ApplyPostfix(state: RegexParseState, nodes: seq<Node>, op: int) returns (r: Result<seq<Node>>)
    requires op == '*' as int || op == '+' as int || op == '?' as int
    modifies LastQuantifier(nodes)
    ensures nodes == [] ==>
              r == Err(state.Error(if op == '?' as int then CannotMakeNothingOptional else CannotRepeatNothing))
    ensures nodes != [] && AllowsRepetition(nodes[|nodes| - 1]) ==>
              && r.Ok? && |r.value| == |nodes| && r.value[..|nodes| - 1] == nodes[..|nodes| - 1]
              && Quantified(r.value[|nodes| - 1])
              && var q := r.value[|nodes| - 1].q;
                 r.value[|nodes| - 1] == Postfixed(nodes[|nodes| - 1], op, q) && fresh(q) && !q.HasModifier()
    ensures nodes != [] && !AllowsRepetition(nodes[|nodes| - 1]) && (op == '*' as int || !Quantified(nodes[|nodes| - 1])) ==>
              r == Err(state.Error(InvalidRepetition))
    ensures nodes != [] && op != '*' as int && Quantified(nodes[|nodes| - 1]) ==>
              var q := nodes[|nodes| - 1].q;
              && (old(q.HasModifier()) ==> r == Err(state.Error(MultipleQuantifierModifiers)) && unchanged(q))
              && (!old(q.HasModifier()) ==> r == Err(state.Error(InvalidRepetition)))
              && (!old(q.HasModifier()) && op == '+' as int ==> q.Possesive && !q.Lazy)
              && (!old(q.HasModifier()) && op == '?' as int ==> q.Lazy && !q.Possesive)
    ensures var spec := PostfixResult(EraseAll(nodes), op);
            && (r.Ok? <==> spec.Some?)
            && (r.Ok? ==> EraseAll(r.value) == spec.value)
  {
    if |nodes| == 0 {
      if op == '?' as int {
        return Err(state.Error(CannotMakeNothingOptional));
      }
      return Err(state.Error(CannotRepeatNothing));
    }
    var last := nodes[|nodes| - 1];
    if !AllowsRepetition(last) {
      if op != '*' as int && Quantified(last) {
        if last.q.HasModifier() {
          return Err(state.Error(MultipleQuantifierModifiers));
        }
        if op == '+' as int {
          last.q.SetPossesive();
        } else {
          last.q.SetLazy();
        }
      }
      return Err(state.Error(InvalidRepetition));
    }
    var q := new QuantifierNode();
    EraseReplaceLast(nodes, nodes[..|nodes| - 1] + [Postfixed(last, op, q)]);
    return Ok(nodes[..|nodes| - 1] + [Postfixed(last, op, q)]);
  }

  /** What a bound quantifier accepts in the braces that open at p: the least
      and the largest count and the position of the closing brace, which must
      follow the counts. */
  function Bounds(s: seq<int>, p: int): (r: Option<(int, int, int)>)
    requires 0 <= p < |s|
    ensures r.Some? ==> p < r.value.2 < |s| && s[r.value.2] == '}' as int
    ensures r.Some? ==> Counts(s, p) == Some((r.value.0, r.value.1, r.value.2 - 1))
  {
    var counts := Counts(s, p);
    if counts.Some? && counts.value.2 + 1 < |s| && s[counts.value.2 + 1] == '}' as int then
      Some((counts.value.0, counts.value.1, counts.value.2 + 1))
    else None
  }

  /** The counts in the braces that open at p, and the position of the last code
      point they take up. The least count is the decimal number right after the
      brace, 0 when there is none; a code point that is not a digit there is
      skipped all the same. MaxPart reads the largest count. */
  function Counts(s: seq<int>, p: int): (r: Option<(int, int, int)>)
    requires 0 <= p < |s|
    ensures r.Some? ==> p < r.value.2 < |s|
    ensures r.None? ==> p + 1 == |s| || MaxPart(s, if DigitsEnd(s, p + 1, IsAsciiDigit) > p + 1 then DigitsEnd(s, p + 1, IsAsciiDigit) else p + 2,
                                                 Positional(s[p + 1..DigitsEnd(s, p + 1, IsAsciiDigit)], 10, DigitOffset)).None?
  {
    if p + 1 == |s| then None
    else
      var a := DigitsEnd(s, p + 1, IsAsciiDigit);
      var min := Positional(s[p + 1..a], 10, DigitOffset);
      var rest := MaxPart(s, if a > p + 1 then a else p + 2, min);
      if rest.Some? then Some((min, rest.value.0, rest.value.1)) else None
  }

  /** The largest count, read at i, and the position of its last code point: a
      comma followed by anything but '}' must continue with the count; a comma
      alone, or no comma, leaves the count without upper limit. */
  function MaxPart(s: seq<int>, i: int, min: int): (r: Option<(int, int)>)
    requires 1 <= i <= |s|
    ensures r.Some? ==> i - 1 <= r.value.1 < |s|
    ensures r.None? ==> i + 1 < |s| && s[i] == ',' as int && s[i + 1] != '}' as int
    ensures r.Some? && r.value.0 != MaxInt ==> min <= r.value.0
  {
    if i < |s| && s[i] == ',' as int && i + 1 < |s| && s[i + 1] != '}' as int then UpperPart(s, i + 1, min)
    else if i < |s| && s[i] == ',' as int then Some((MaxInt, i))
    else Some((MaxInt, i - 1))
  }

  /** A decimal number at j no less than min, and the position of its last digit. */
  function UpperPart(s: seq<int>, j: int, min: int): (r: Option<(int, int)>)
    requires 0 <= j <= |s|
    ensures r.Some? ==> j <= r.value.1 < |s| && min <= r.value.0
    ensures r.None? <==> j == |s| || !IsAsciiDigit(s[j]) || Positional(s[j..DigitsEnd(s, j, IsAsciiDigit)], 10, DigitOffset) < min
  {
    var b := DigitsEnd(s, j, IsAsciiDigit);
    var max := Positional(s[j..b], 10, DigitOffset);
    if j < b && min <= max then Some((max, b - 1)) else None
  }

  /** The least count of a bound quantifier, read from the cursor on: a decimal
      number, or 0 when the cursor is on some other code point. */
  method ReadMinimum(state: RegexParseState) returns (min: nat)
    requires state.Valid() && 0 <= state.Index && |state.Regex| < MaxInt
    modifies state
    ensures state.Valid() && state.CaseSensitive == old(state.CaseSensitive)
    ensures var s := state.Regex; var q := old(state.Index); var a := DigitsEnd(s, q, IsAsciiDigit);
            && min == Positional(s[q..a], 10, DigitOffset)
            && state.Index == if a > q then a - 1 else q
  {
    ghost var s := state.Regex;
    ghost var q := state.Index;
    var low := state.ReadAsciiNumber(0, MaxInt);
    if IsAsciiDigit(s[q]) {
      DigitRunIsMaximal(s, q, state.Index - q + 1, IsAsciiDigit, MaxInt);
    } else {
      assert s[q..q] == [];
    }
    return low.value;
  }

  /** The largest count of a bound quantifier, read from the cursor on. */
  method ReadUpper(state: RegexParseState, min: nat) returns (r: Result<nat>)
    requires state.Valid() && 0 <= state.Index && |state.Regex| < MaxInt
    modifies state
    ensures state.Valid() && state.CaseSensitive == old(state.CaseSensitive)
    ensures r.Ok? <==> UpperPart(state.Regex, old(state.Index), min).Some?
    ensures r.Ok? ==> (r.value, state.Index) == UpperPart(state.Regex, old(state.Index), min).value
  {
    ghost var s := state.Regex;
    ghost var j := state.Index;
    var high := state.ReadAsciiNumber(1, MaxInt);
    if IsAsciiDigit(s[j]) {
      DigitRunIsMaximal(s, j, state.Index - j + 1, IsAsciiDigit, MaxInt);
    } else {
      assert DigitsEnd(s, j, IsAsciiDigit) == j;
    }
    if high.Err? {
      return Err(high.error);
    }
    if high.value < min {
      return Err(state.Error(MaxLessThanMin));
    }
    return Ok(high.value);
  }

  /** What follows the least count of a bound quantifier, as MaxPart says. */
  method ReadMaximum(state: RegexParseState, min: nat) returns (r: Result<nat>)
    requires state.Valid() && 0 <= state.Index && |state.Regex| < MaxInt
    modifies state
    ensures state.Valid() && state.CaseSensitive == old(state.CaseSensitive)
    ensures r.Ok? <==> MaxPart(state.Regex, old(state.Index) + 1, min).Some?
    ensures r.Ok? ==> (r.value, state.Index) == MaxPart(state.Regex, old(state.Index) + 1, min).value
  {
    var comma := state.MoveNextIf(',' as int, true);
    if comma {
      var open := state.MoveNextIf('}' as int, false);
      if open {
        r := ReadUpper(state, min);
        return;
      }
    }
    return Ok(MaxInt);
  }

  /** The counts of a bound quantifier, with the cursor on '{'. */
  method ReadCounts(state: RegexParseState) returns (r: Result<(nat, nat)>)
    requires state.Valid() && 0 <= state.Index && |state.Regex| < MaxInt
    modifies state
    ensures state.Valid() && state.CaseSensitive == old(state.CaseSensitive)
    ensures r.Ok? <==> Counts(state.Regex, old(state.Index)).Some?
    ensures r.Ok? ==>
              var c := Counts(state.Regex, old(state.Index)).value;
              r.value == (c.0, c.1) && state.Index == c.2
  {
    var o := state.RequireNext();
    if o.Fail? {
      return Err(o.error);
    }
    var min := ReadMinimum(state);
    var max :- ReadMaximum(state, min);
    return Ok((min, max));
  }

  /** Once the counts end just before e, the bounds are there exactly when the
      closing brace follows at e, as the one-code-point slice there. */
  lemma BoundsAfterCounts(s: seq<int>, p: int, e: int)
    requires 0 <= p < |s| && Counts(s, p).Some? && e == Counts(s, p).value.2 + 1
    ensures Bounds(s, p).Some? <==> e < |s| && s[e..e + 1] == ['}' as int]
    ensures Bounds(s, p).Some? ==> Bounds(s, p).value == (Counts(s, p).value.0, Counts(s, p).value.1, e)
  {
    if e < |s| {
      assert s[e..e + 1] == [s[e]];
    }
  }

  /** The closing brace of bounds lies after their opening one. */
  lemma BoundsEnd(s: seq<int>, p: int)
    requires 0 <= p < |s|
    ensures Bounds(s, p).Some? ==> p < Bounds(s, p).value.2 < |s|
  {
  }

  /** The braces of a bound quantifier, with the cursor on '{'. The closing
      brace is required only when nothing failed before it. */
  method ParseBounds(state: RegexParseState) returns (r: Result<(nat, nat)>)
    requires state.Valid() && 0 <= state.Index && |state.Regex| < MaxInt
    modifies state
    ensures state.Valid() && state.CaseSensitive == old(state.CaseSensitive)
    ensures r.Ok? <==> Bounds(state.Regex, old(state.Index)).Some?
    ensures r.Ok? ==>
              var b := Bounds(state.Regex, old(state.Index)).value;
              r.value == (b.0, b.1) && state.Index == b.2
  {
    ghost var s := state.Regex;
    ghost var p := state.Index;
    var began := state.BeginMatch([], ['}' as int]);
    assert s[p + 1..p + 1] == [];
    var guard := began.value;
    r := ReadCounts(state);
    if r.Err? {
      var _ := guard.Dispose(true);
      return;
    }
    ghost var e := state.Index + 1;
    BoundsAfterCounts(s, p, e);
    var d := guard.Dispose(false);
    if d.Fail? {
      return Err(d.error);
    }
  }

  /** `{...}` after the nodes parsed so far: the last node, when it allows
      repetition, is repeated between the counts the braces give. */
  method ApplyBounds(state: RegexParseState, nodes: seq<Node>) returns (r: Result<seq<Node>>)
    requires state.Valid() && 0 <= state.Index && |state.Regex| < MaxInt
    modifies state
    ensures state.Valid() && state.CaseSensitive == old(state.CaseSensitive)
    ensures nodes == [] ==> r == Err(RegexParseException(CannotRepeatNothing, old(state.Index), state.Regex))
    ensures nodes != [] && !AllowsRepetition(nodes[|nodes| - 1]) ==>
              r == Err(RegexParseException(InvalidRepetition, old(state.Index), state.Regex))
    ensures nodes != [] && AllowsRepetition(nodes[|nodes| - 1]) ==>
              (r.Ok? <==> Bounds(state.Regex, old(state.Index)).Some?)
    ensures r.Ok? ==>
              var b := Bounds(state.Regex, old(state.Index)).value;
              && nodes != [] && |r.value| == |nodes| && r.value[..|nodes| - 1] == nodes[..|nodes| - 1]
              && var last := r.value[|nodes| - 1];
                 && last.Repeat? && last.child == nodes[|nodes| - 1] && last.min == b.0 && last.max == b.1
                 && fresh(last.q) && !last.q.HasModifier()
                 && state.Index == b.2
    ensures var spec := BoundsResult(state.Regex, old(state.Index), EraseAll(nodes));
            && (r.Ok? <==> spec.Some?)
            && (r.Ok? ==> EraseAll(r.value) == spec.value.0 && state.Index == spec.value.1)
  {
    if |nodes| == 0 {
      return Err(state.Error(CannotRepeatNothing));
    }
    var last := nodes[|nodes| - 1];
    if !AllowsRepetition(last) {
      return Err(state.Error(InvalidRepetition));
    }
    var counts :- ParseBounds(state);
    var q := new QuantifierNode();
    EraseReplaceLast(nodes, nodes[..|nodes| - 1] + [Repeat(last, counts.0, counts.1, q)]);
    return Ok(nodes[..|nodes| - 1] + [Repeat(last, counts.0, counts.1, q)]);
  }

  // ---------------------------------------------------------------------------
  // Sequences and alternatives

  /** Code points with a meaning of their own in a sequence. */
  predicate IsSpecial(c: int) {
    || c == '\\' as int || c == '^' as int || c == '$' as int || c == '.' as int || c == '[' as int
    || c == '(' as int || c == '*' as int || c == '+' as int || c == '?' as int || c == '{' as int
  }

  /** The syntax a sequence rejects as not supported: anchors, the dot,
      character classes and groups. */
  function UnsupportedSyntax(c: int): Option<Feature> {
    if c == '^' as int then Some(StartAssertion)
    else if c == '$' as int then Some(EndAssertion)
    else if c == '.' as int then Some(DotMatching)
    else if c == '[' as int then Some(CharacterClasses)
    else if c == '(' as int then Some(Groups)
    else None
  }

  /** What a sequence holds: literal nodes, and characters under a quantifier. */
  predicate SequenceItem(n: Node) {
    LiteralNode(n) || (Quantified(n) && n.child.Char?)
  }

  // ---------------------------------------------------------------------------
  // What the parser makes of a pattern, node by node

  /** A node without the modifier flags of its quantifiers: what the pattern
      alone determines of a parsed node. */
  datatype Shape =
    | CharShape(c: int, caseSensitive: bool)
    | EmptyShape
    | SequenceShape(items: seq<Shape>)
    | AlternatesShape(items: seq<Shape>)
    | OptionalShape(child: Shape)
    | RepeatShape(child: Shape, min: int, max: int)

  /** The shape of a node: the node with its modifier flags dropped. */
  function Erase(n: Node): Shape
    decreases n, 1
  {
    match n
    case Char(c, cs) => CharShape(c, cs)
    case Empty => EmptyShape
    case Sequence(ns) => SequenceShape(EraseAll(ns))
    case Alternates(ns) => AlternatesShape(EraseAll(ns))
    case Optional(child, _) => OptionalShape(Erase(child))
    case Repeat(child, min, max, _) => RepeatShape(Erase(child), min, max)
  }

  /** The shapes of a sequence of nodes, in order. */
  function EraseAll(ns: seq<Node>): (ts: seq<Shape>)
    decreases ns, 0
    ensures |ts| == |ns| && forall k :: 0 <= k < |ns| ==> ts[k] == Erase(ns[k])
  {
    seq(|ns|, k requires 0 <= k < |ns| => Erase(ns[k]))
  }

  /** Shapes a postfix quantifier may follow, as AllowsRepetition says of nodes. */
  predicate Repeatable(t: Shape) {
    t.CharShape? || t.EmptyShape?
  }

  /** What `*`, `+` and `?` make of the shape they follow. */
  function PostfixShape(t: Shape, op: int): Shape {
    if op == '*' as int then RepeatShape(t, 0, MaxInt)
    else if op == '+' as int then RepeatShape(t, 1, MaxInt)
    else OptionalShape(t)
  }

  /** What `*`, `+` or `?` makes of the items so far; None when there is
      nothing to quantify or the last item does not allow repetition. */
  function PostfixResult(items: seq<Shape>, op: int): Option<seq<Shape>> {
    if items == [] || !Repeatable(items[|items| - 1]) then None
    else Some(items[..|items| - 1] + [PostfixShape(items[|items| - 1], op)])
  }

  /** `*`, `+` and `?` succeed exactly on a repeatable last item, wrap that
      item and leave the items before it alone. */
  lemma PostfixWrapsLast(items: seq<Shape>, op: int)
    ensures var r := PostfixResult(items, op);
            && (r.Some? <==> items != [] && Repeatable(items[|items| - 1]))
            && (r.Some? ==> |r.value| == |items| && r.value[..|items| - 1] == items[..|items| - 1])
            && (r.Some? ==> var last := r.value[|items| - 1];
                            (last.RepeatShape? || last.OptionalShape?) && last.child == items[|items| - 1])
  {
  }

  /** What bounds in braces that open at k make of the items so far, and the
      position of the closing brace; None when there is nothing to quantify,
      the last item does not allow repetition, or the bounds are malformed. */
  function BoundsResult(s: seq<int>, k: int, items: seq<Shape>): Option<(seq<Shape>, int)>
    requires 0 <= k < |s|
  {
    if items == [] || !Repeatable(items[|items| - 1]) then None
    else
      var b := Bounds(s, k);
      if b.Some? then Some((items[..|items| - 1] + [RepeatShape(items[|items| - 1], b.value.0, b.value.1)], b.value.2))
      else None
  }

  /** Bounds succeed exactly on a repeatable last item and well-formed braces;
      they wrap that item with the counts read, leave the items before it
      alone and stop the cursor on the closing brace. */
  lemma BoundsWrapLast(s: seq<int>, k: int, items: seq<Shape>)
    requires 0 <= k < |s|
    ensures var r := BoundsResult(s, k, items);
            && (r.Some? <==> items != [] && Repeatable(items[|items| - 1]) && Bounds(s, k).Some?)
            && (r.Some? ==> |r.value.0| == |items| && r.value.0[..|items| - 1] == items[..|items| - 1])
            && (r.Some? ==> r.value.0[|items| - 1] == RepeatShape(items[|items| - 1], Bounds(s, k).value.0, Bounds(s, k).value.1))
            && (r.Some? ==> k < r.value.1 < |s| && s[r.value.1] == '}' as int)
  {
  }

  /** What the code point at k adds to the items of a sequence so far, and
      where the cursor stops; None when parsing fails there. */
  function ItemResult(s: seq<int>, k: int, items: seq<Shape>, cs: bool, isLetterOrDigit: int -> bool): (r: Option<(seq<Shape>, int)>)
    requires 0 <= k < |s|
    ensures r.Some? ==> k <= r.value.1 < |s|
  {
    var c := s[k];
    if c == '\\' as int then
      var e := BackslashResult(s, k, false, cs, isLetterOrDigit);
      if e.Some? then Some((items + [Erase(e.value.0)], e.value.1)) else None
    else if UnsupportedSyntax(c).Some? then None
    else if c == '{' as int then
      BoundsEnd(s, k);
      BoundsResult(s, k, items)
    else if c == '*' as int || c == '+' as int || c == '?' as int then
      var q := PostfixResult(items, c);
      if q.Some? then Some((q.value, k)) else None
    else Some((items + [CharShape(c, cs)], k))
  }

  /** The items of a sequence from the code point after the cursor i on, given
      the items so far, up to the next terminator or the end of the pattern; and
      where the cursor stops, before that terminator. */
  function ItemsFrom(s: seq<int>, i: int, items: seq<Shape>, ends: set<int>, cs: bool, isLetterOrDigit: int -> bool): (r: Option<(seq<Shape>, int)>)
    requires -1 <= i < |s|
    ensures r.Some? ==> i <= r.value.1 < |s|
    decreases |s| - i, 0
  {
    if i + 1 == |s| || s[i + 1] in ends then Some((items, i))
    else ItemsAt(s, i + 1, items, ends, cs, isLetterOrDigit)
  }

  /** The items of a sequence from the item whose first code point is at k on,
      given the items so far, as ItemsFrom; None when an item fails. */
  function ItemsAt(s: seq<int>, k: int, items: seq<Shape>, ends: set<int>, cs: bool, isLetterOrDigit: int -> bool): (r: Option<(seq<Shape>, int)>)
    requires 0 <= k < |s|
    ensures r.Some? ==> k <= r.value.1 < |s|
    decreases |s| - k, 1
  {
    var next := ItemResult(s, k, items, cs, isLetterOrDigit);
    if next.None? then None else ItemsFrom(s, next.value.1, next.value.0, ends, cs, isLetterOrDigit)
  }

  /** The sequences separated by '|' from the code point after the cursor i to
      the end of the pattern, after the alternatives so far, in order. */
  function AlternativesFrom(s: seq<int>, i: int, alternatives: seq<Shape>, cs: bool, isLetterOrDigit: int -> bool): (r: Option<seq<Shape>>)
    requires -1 <= i < |s|
    ensures r.Some? ==> |r.value| > |alternatives| && r.value[..|alternatives|] == alternatives
    ensures r.Some? ==> forall k :: |alternatives| <= k < |r.value| ==> r.value[k].SequenceShape?
    decreases |s| - i
  {
    var sequence := ItemsFrom(s, i, [], {'|' as int}, cs, isLetterOrDigit);
    if sequence.None? then None
    else
      var more := alternatives + [SequenceShape(sequence.value.0)];
      var j := sequence.value.1;
      if j + 1 < |s| then AlternativesFrom(s, j + 1, more, cs, isLetterOrDigit) else Some(more)
  }

  /** The shape of what the parser makes of the pattern from the code point
      after the cursor i on: one sequence stands alone, two or more are the
      alternatives of one node. */
  function PatternShape(s: seq<int>, i: int, cs: bool, isLetterOrDigit: int -> bool): (r: Option<Shape>)
    requires -1 <= i < |s|
    ensures r.Some? <==> AlternativesFrom(s, i, [], cs, isLetterOrDigit).Some?
    ensures r.Some? ==> r.value.SequenceShape? || (r.value.AlternatesShape? && |r.value.items| >= 2)
  {
    var alternatives := AlternativesFrom(s, i, [], cs, isLetterOrDigit);
    if alternatives.None? then None
    else if |alternatives.value| == 1 then Some(alternatives.value[0])
    else Some(AlternatesShape(alternatives.value))
  }

  /** The shapes of the nodes so far and one more node. */
  lemma EraseAppend(nodes: seq<Node>, n: Node)
    ensures EraseAll(nodes + [n]) == EraseAll(nodes) + [Erase(n)]
  {
  }

  /** The shapes of the nodes so far with the last one replaced. */
  lemma EraseReplaceLast(nodes: seq<Node>, next: seq<Node>)
    requires |next| == |nodes| > 0 && next[..|nodes| - 1] == nodes[..|nodes| - 1]
    ensures EraseAll(next) == EraseAll(nodes)[..|nodes| - 1] + [Erase(next[|nodes| - 1])]
  {
    var before := EraseAll(nodes)[..|nodes| - 1];
    forall k | 0 <= k < |nodes| - 1
      ensures EraseAll(next)[k] == before[k]
    {
      assert next[k] == next[..|nodes| - 1][k];
    }
  }

  /** Quantifying the last item, a character, keeps every item fit for a sequence. */
  lemma QuantifiedLast(nodes: seq<Node>, next: seq<Node>)
    requires |next| == |nodes| > 0 && next[..|nodes| - 1] == nodes[..|nodes| - 1]
    requires forall k :: 0 <= k < |nodes| ==> SequenceItem(nodes[k])
    requires Quantified(next[|nodes| - 1]) && next[|nodes| - 1].child == nodes[|nodes| - 1]
    requires AllowsRepetition(nodes[|nodes| - 1])
    ensures forall k :: 0 <= k < |next| ==> SequenceItem(next[k])
  {
    forall k | 0 <= k < |next|
      ensures SequenceItem(next[k])
    {
      if k < |nodes| - 1 {
        assert next[k] == next[..|nodes| - 1][k];
      }
    }
  }

  /** A quantifier under the cursor, applied to the last of the nodes parsed so far. */
  method ApplyQuantifier(state: RegexParseState, nodes: seq<Node>, c: int) returns (r: Result<seq<Node>>)
    requires state.Valid() && 0 <= state.Index && |state.Regex| < MaxInt
    requires c == '*' as int || c == '+' as int || c == '?' as int || c == '{' as int
    modifies state, LastQuantifier(nodes)
    ensures state.Valid() && state.CaseSensitive == old(state.CaseSensitive)
    ensures r.Ok? ==> old(state.Index) <= state.Index
    ensures r.Ok? && (forall k :: 0 <= k < |nodes| ==> SequenceItem(nodes[k])) ==>
              forall k :: 0 <= k < |r.value| ==> SequenceItem(r.value[k])
    ensures r.Ok? ==>
              forall k :: 0 <= k < |r.value| && Quantified(r.value[k]) ==>
                fresh(r.value[k].q) || (k < |nodes| && r.value[k] == nodes[k])
    ensures var s := state.Regex; var p := old(state.Index);
            && (nodes == [] && (c == '*' as int || c == '+' as int || c == '{' as int) ==>
                  r == Err(RegexParseException(CannotRepeatNothing, p, s)))
            && (nodes == [] && c == '?' as int ==> r == Err(RegexParseException(CannotMakeNothingOptional, p, s)))
    ensures c == '{' as int ==>
              var spec := BoundsResult(state.Regex, old(state.Index), EraseAll(nodes));
              && (r.Ok? <==> spec.Some?)
              && (r.Ok? ==> EraseAll(r.value) == spec.value.0 && state.Index == spec.value.1)
    ensures c != '{' as int ==>
              var spec := PostfixResult(EraseAll(nodes), c);
              && (r.Ok? <==> spec.Some?)
              && (r.Ok? ==> EraseAll(r.value) == spec.value && state.Index == old(state.Index))
  {
    if c == '{' as int {
      r := ApplyBounds(state, nodes);
    } else {
      r := ApplyPostfix(state, nodes, c);
    }
    if r.Ok? {
      if forall k :: 0 <= k < |nodes| ==> SequenceItem(nodes[k]) {
        QuantifiedLast(nodes, r.value);
      }
      forall k | 0 <= k < |nodes| - 1
        ensures r.value[k] == nodes[k]
      {
        assert r.value[k] == r.value[..|nodes| - 1][k];
      }
    }
  }

  /** The code point under the cursor, added to the nodes parsed so far. */
  method ParseItem(state: RegexParseState, nodes: seq<Node>, isLetterOrDigit: int -> bool) returns (r: Result<seq<Node>>)
    requires state.Valid() && 0 <= state.Index && |state.Regex| < MaxInt && ClassifiesAscii(isLetterOrDigit)
    modifies state, LastQuantifier(nodes)
    ensures state.Valid() && state.CaseSensitive == old(state.CaseSensitive)
    ensures r.Ok? ==> old(state.Index) <= state.Index
    ensures r.Ok? && (forall k :: 0 <= k < |nodes| ==> SequenceItem(nodes[k])) ==>
              forall k :: 0 <= k < |r.value| ==> SequenceItem(r.value[k])
    ensures r.Ok? ==>
              forall k :: 0 <= k < |r.value| && Quantified(r.value[k]) ==>
                fresh(r.value[k].q) || (k < |nodes| && r.value[k] == nodes[k])
    ensures var s := state.Regex; var p := old(state.Index); var c := s[p];
            && (!IsSpecial(c) ==> r == Ok(nodes + [Char(c, state.CaseSensitive)]) && state.Index == p)
            && (UnsupportedSyntax(c).Some? ==> r == Err(NotImplementedException(UnsupportedSyntax(c).value)))
            && (nodes == [] && (c == '*' as int || c == '+' as int || c == '{' as int) ==>
                  r == Err(RegexParseException(CannotRepeatNothing, p, s)))
            && (nodes == [] && c == '?' as int ==> r == Err(RegexParseException(CannotMakeNothingOptional, p, s)))
    ensures var spec := ItemResult(state.Regex, old(state.Index), EraseAll(nodes), state.CaseSensitive, isLetterOrDigit);
            && (r.Ok? <==> spec.Some?)
            && (r.Ok? ==> EraseAll(r.value) == spec.value.0 && state.Index == spec.value.1)
  {
    var c := state.Char();
    if c == '\\' as int {
      var escaped :- ParseEscape(state, false, isLetterOrDigit);
      EraseAppend(nodes, escaped);
      return Ok(nodes + [escaped]);
    } else if UnsupportedSyntax(c).Some? {
      return Err(NotImplementedException(UnsupportedSyntax(c).value));
    } else if c == '*' as int || c == '+' as int || c == '?' as int || c == '{' as int {
      r := ApplyQuantifier(state, nodes, c);
    } else {
      EraseAppend(nodes, Char(c, state.CaseSensitive));
      return Ok(nodes + [Char(c, state.CaseSensitive)]);
    }
  }

  /** The first position at or after i that holds a special code point or one
      of the terminators, or the end of the pattern. */
  function PlainEnd(s: seq<int>, i: int, ends: set<int>): (e: int)
    requires 0 <= i <= |s|
    ensures i <= e <= |s|
    ensures forall k :: i <= k < e ==> !IsSpecial(s[k]) && s[k] !in ends
    ensures e < |s| ==> IsSpecial(s[e]) || s[e] in ends
    decreases |s| - i
  {
    if i == |s| || IsSpecial(s[i]) || s[i] in ends then i else PlainEnd(s, i + 1, ends)
  }

  /** What the items parsed so far from position p satisfy while the cursor
      stands on `index`: every item fits a sequence, and a first code point that
      is a terminator, unsupported or a quantifier was never passed. */
  ghost predicate ItemsSoFar(s: seq<int>, p: int, ends: set<int>, index: int, nodes: seq<Node>)
    requires 0 <= p <= |s|
  {
    && p - 1 <= index < |s|
    && (index == p - 1 ==> nodes == [])
    && (forall k :: 0 <= k < |nodes| ==> SequenceItem(nodes[k]))
    && (p <= index ==>
          && s[p] !in ends && UnsupportedSyntax(s[p]).None?
          && !(s[p] in {'*' as int, '+' as int, '?' as int, '{' as int}))
  }

  /** A code point without a meaning of its own is an item of its own. */
  lemma PlainItem(s: seq<int>, k: int, items: seq<Shape>, cs: bool, isLetterOrDigit: int -> bool)
    requires 0 <= k < |s| && !IsSpecial(s[k])
    ensures ItemResult(s, k, items, cs, isLetterOrDigit) == Some((items + [CharShape(s[k], cs)], k))
  {
  }

  /** The shapes of the character nodes for some code points. */
  function CharShapes(chars: seq<int>, cs: bool): (ts: seq<Shape>)
    ensures |ts| == |chars| && forall k :: 0 <= k < |chars| ==> ts[k] == CharShape(chars[k], cs)
  {
    seq(|chars|, k requires 0 <= k < |chars| => CharShape(chars[k], cs))
  }

  /** Text without special code points after the cursor i, up to the end of
      the pattern or a terminator at e, is parsed one character per code point. */
  lemma {:induction false} PlainItems(s: seq<int>, i: int, e: int, items: seq<Shape>, ends: set<int>, cs: bool,
                                      isLetterOrDigit: int -> bool)
    requires -1 <= i < e <= |s| && (e == |s| || s[e] in ends)
    requires forall k :: i < k < e ==> !IsSpecial(s[k]) && s[k] !in ends
    ensures ItemsFrom(s, i, items, ends, cs, isLetterOrDigit) == Some((items + CharShapes(s[i + 1..e], cs), e - 1))
    decreases e - i
  {
    if i + 1 < e {
      var next := items + [CharShape(s[i + 1], cs)];
      PlainItem(s, i + 1, items, cs, isLetterOrDigit);
      ItemsFromStep(s, i, items, ends, cs, isLetterOrDigit, next, i + 1);
      PlainItems(s, i + 1, e, next, ends, cs, isLetterOrDigit);
      assert next + CharShapes(s[i + 2..e], cs) == items + CharShapes(s[i + 1..e], cs);
    } else {
      ItemsFromStop(s, i, items, ends, cs, isLetterOrDigit);
      assert items + CharShapes(s[i + 1..e], cs) == items;
    }
  }

  /** A sequence of text without special code points is one character per code point. */
  lemma PlainSequence(s: seq<int>, p: int, ends: set<int>, cs: bool, isLetterOrDigit: int -> bool)
    requires 0 <= p <= |s|
    requires var e := PlainEnd(s, p, ends); e == |s| || s[e] in ends
    ensures var e := PlainEnd(s, p, ends);
            ItemsFrom(s, p - 1, [], ends, cs, isLetterOrDigit) == Some((CharShapes(s[p..e], cs), e - 1))
  {
    var e := PlainEnd(s, p, ends);
    PlainItems(s, p - 1, e, [], ends, cs, isLetterOrDigit);
    assert [] + CharShapes(s[p..e], cs) == CharShapes(s[p..e], cs);
  }

  /** Nodes whose shapes are those of character nodes are those character nodes. */
  lemma ErasedChars(nodes: seq<Node>, chars: seq<int>, cs: bool)
    requires EraseAll(nodes) == CharShapes(chars, cs)
    ensures nodes == CharNodes(chars, cs)
  {
    forall k | 0 <= k < |nodes|
      ensures nodes[k] == Char(chars[k], cs)
    {
      assert Erase(nodes[k]) == EraseAll(nodes)[k];
    }
  }

  /** Past an item the sequence goes on as from the cursor after that item. */
  lemma ItemsFromStep(s: seq<int>, i: int, items: seq<Shape>, ends: set<int>, cs: bool, isLetterOrDigit: int -> bool,
                      next: seq<Shape>, j: int)
    requires -1 <= i && i + 1 < |s| && s[i + 1] !in ends
    requires ItemResult(s, i + 1, items, cs, isLetterOrDigit) == Some((next, j))
    ensures ItemsFrom(s, i, items, ends, cs, isLetterOrDigit) == ItemsFrom(s, j, next, ends, cs, isLetterOrDigit)
  {
  }

  /** Before the end of the pattern or a terminator the sequence stops. */
  lemma ItemsFromStop(s: seq<int>, i: int, items: seq<Shape>, ends: set<int>, cs: bool, isLetterOrDigit: int -> bool)
    requires -1 <= i < |s| && (i + 1 == |s| || s[i + 1] in ends)
    ensures ItemsFrom(s, i, items, ends, cs, isLetterOrDigit) == Some((items, i))
  {
  }

  /** Where an item fails, so does the sequence. */
  lemma ItemsFromFail(s: seq<int>, i: int, items: seq<Shape>, ends: set<int>, cs: bool, isLetterOrDigit: int -> bool)
    requires -1 <= i && i + 1 < |s| && s[i + 1] !in ends
    requires ItemResult(s, i + 1, items, cs, isLetterOrDigit).None?
    ensures ItemsFrom(s, i, items, ends, cs, isLetterOrDigit).None?
  {
  }

  /** One round of the sequence loop: stops before the end of the pattern or a
      terminator, and otherwise parses the next item onto the nodes so far. */
  method ParseNextItem(state: RegexParseState, ends: set<int>, isLetterOrDigit: int -> bool, nodes: seq<Node>, ghost p: int)
    returns (r: Result<seq<Node>>, more: bool)
    requires state.Valid() && |state.Regex| < MaxInt && ClassifiesAscii(isLetterOrDigit)
    requires 0 <= p <= |state.Regex| && ItemsSoFar(state.Regex, p, ends, state.Index, nodes)
    modifies state, LastQuantifier(nodes)
    ensures state.Valid() && state.CaseSensitive == old(state.CaseSensitive)
    ensures !more ==> r == Ok(nodes) && state.Index == old(state.Index)
    ensures !more ==> state.Index + 1 == |state.Regex| || state.Regex[state.Index + 1] in ends
    ensures more && r.Ok? ==> old(state.Index) < state.Index
    ensures more && r.Ok? ==> ItemsSoFar(state.Regex, p, ends, state.Index, r.value)
    ensures more && r.Ok? ==>
              forall k :: 0 <= k < |r.value| && Quantified(r.value[k]) ==>
                fresh(r.value[k].q) || (k < |nodes| && r.value[k] == nodes[k])
    ensures var s := state.Regex; old(state.Index) == p - 1 && p < |s| && s[p] !in ends ==>
            && (UnsupportedSyntax(s[p]).Some? ==> r == Err(NotImplementedException(UnsupportedSyntax(s[p]).value)))
            && ((s[p] == '*' as int || s[p] == '+' as int || s[p] == '{' as int) ==>
                  r == Err(RegexParseException(CannotRepeatNothing, p, s)))
            && (s[p] == '?' as int ==> r == Err(RegexParseException(CannotMakeNothingOptional, p, s)))
    ensures var rest := ItemsFrom(state.Regex, old(state.Index), EraseAll(nodes), ends, state.CaseSensitive, isLetterOrDigit);
            && (!more ==> rest == Some((EraseAll(nodes), old(state.Index))))
            && (r.Err? ==> rest.None?)
            && (more && r.Ok? ==> rest == ItemsFrom(state.Regex, state.Index, EraseAll(r.value), ends, state.CaseSensitive, isLetterOrDigit))
  {
    ghost var s := state.Regex;
    ghost var cs := state.CaseSensitive;
    more := state.MoveNextIfAny(ends, false);
    if !more {
      ItemsFromStop(s, state.Index, EraseAll(nodes), ends, cs, isLetterOrDigit);
      return Ok(nodes), false;
    }
    ghost var k := state.Index;
    r := ParseItem(state, nodes, isLetterOrDigit);
    if r.Ok? {
      ItemsFromStep(s, k - 1, EraseAll(nodes), ends, cs, isLetterOrDigit, EraseAll(r.value), state.Index);
    } else {
      ItemsFromFail(s, k - 1, EraseAll(nodes), ends, cs, isLetterOrDigit);
    }
  }

  /** The loop of ParseSequence: items up to, not including, the next
      terminator or the end of the pattern, as ItemsFrom gives their shapes. */
  method ParseItems(state: RegexParseState, ends: set<int>, isLetterOrDigit: int -> bool) returns (r: Result<seq<Node>>)
    requires state.Valid() && |state.Regex| < MaxInt && ClassifiesAscii(isLetterOrDigit)
    modifies state
    ensures state.Valid() && state.CaseSensitive == old(state.CaseSensitive)
    ensures r.Ok? ==> ItemsSoFar(state.Regex, old(state.Index) + 1, ends, state.Index, r.value)
    ensures r.Ok? ==> state.Index + 1 == |state.Regex| || state.Regex[state.Index + 1] in ends
    ensures r.Ok? ==> forall k :: 0 <= k < |r.value| && Quantified(r.value[k]) ==> fresh(r.value[k].q)
    ensures var s := state.Regex; var p := old(state.Index) + 1; p < |s| && s[p] !in ends ==>
            && (UnsupportedSyntax(s[p]).Some? ==> r == Err(NotImplementedException(UnsupportedSyntax(s[p]).value)))
            && ((s[p] == '*' as int || s[p] == '+' as int || s[p] == '{' as int) ==>
                  r == Err(RegexParseException(CannotRepeatNothing, p, s)))
            && (s[p] == '?' as int ==> r == Err(RegexParseException(CannotMakeNothingOptional, p, s)))
    ensures var spec := ItemsFrom(state.Regex, old(state.Index), [], ends, state.CaseSensitive, isLetterOrDigit);
            && (r.Ok? <==> spec.Some?)
            && (r.Ok? ==> EraseAll(r.value) == spec.value.0 && state.Index == spec.value.1)
  {
    ghost var s := state.Regex;
    ghost var p := state.Index + 1;
    ghost var cs := state.CaseSensitive;
    var nodes: seq<Node> := [];
    while true
      invariant state.Valid() && state.CaseSensitive == cs
      invariant ItemsSoFar(s, p, ends, state.Index, nodes)
      invariant forall k :: 0 <= k < |nodes| && Quantified(nodes[k]) ==> fresh(nodes[k].q)
      invariant ItemsFrom(s, p - 1, [], ends, cs, isLetterOrDigit) == ItemsFrom(s, state.Index, EraseAll(nodes), ends, cs, isLetterOrDigit)
      decreases |s| - state.Index
    {
      var next, more := ParseNextItem(state, ends, isLetterOrDigit, nodes, p);
      if !more {
        return Ok(nodes);
      }
      if next.Err? {
        return Err(next.error);
      }
      nodes := next.value;
    }
  }

  /** Items up to, not including, the next terminator or the end of the pattern,
      as ItemsFrom gives their shapes. Text without special code points becomes
      one character node per code point. */
  method ParseSequence(state: RegexParseState, ends: set<int>, isLetterOrDigit: int -> bool) returns (r: Result<Node>)
    requires state.Valid() && |state.Regex| < MaxInt && ClassifiesAscii(isLetterOrDigit)
    modifies state
    ensures state.Valid() && state.CaseSensitive == old(state.CaseSensitive)
    ensures r.Ok? ==> old(state.Index) <= state.Index
    ensures r.Ok? ==> state.Index + 1 == |state.Regex| || state.Regex[state.Index + 1] in ends
    ensures r.Ok? ==> r.value.Sequence? && forall k :: 0 <= k < |r.value.nodes| ==> SequenceItem(r.value.nodes[k])
    ensures r.Ok? ==>
              forall k :: 0 <= k < |r.value.nodes| && Quantified(r.value.nodes[k]) ==> fresh(r.value.nodes[k].q)
    ensures var s := state.Regex; var p := old(state.Index) + 1;
            && (p == |s| || (p < |s| && s[p] in ends) ==> r == Ok(Sequence([])) && state.Index == p - 1)
            && (p < |s| && s[p] !in ends && UnsupportedSyntax(s[p]).Some? ==>
                  r == Err(NotImplementedException(UnsupportedSyntax(s[p]).value)))
            && (p < |s| && s[p] !in ends && (s[p] == '*' as int || s[p] == '+' as int || s[p] == '{' as int) ==>
                  r == Err(RegexParseException(CannotRepeatNothing, p, s)))
            && (p < |s| && s[p] !in ends && s[p] == '?' as int ==>
                  r == Err(RegexParseException(CannotMakeNothingOptional, p, s)))
    ensures var spec := ItemsFrom(state.Regex, old(state.Index), [], ends, state.CaseSensitive, isLetterOrDigit);
            && (r.Ok? <==> spec.Some?)
            && (r.Ok? ==> Erase(r.value) == SequenceShape(spec.value.0) && state.Index == spec.value.1)
    ensures var s := state.Regex; var p := old(state.Index) + 1; var e := PlainEnd(s, p, ends);
            e == |s| || s[e] in ends ==> r == Ok(Sequence(CharNodes(s[p..e], state.CaseSensitive))) && state.Index == e - 1
  {
    ghost var s := state.Regex;
    ghost var p := state.Index + 1;
    ghost var cs := state.CaseSensitive;
    ghost var e := PlainEnd(s, p, ends);
    if e == |s| || s[e] in ends {
      PlainSequence(s, p, ends, cs, isLetterOrDigit);
    }
    if p == |s| || s[p] in ends {
      ItemsFromStop(s, p - 1, [], ends, cs, isLetterOrDigit);
    }
    var nodes :- ParseItems(state, ends, isLetterOrDigit);
    if e == |s| || s[e] in ends {
      ErasedChars(nodes, s[p..e], cs);
    }
    return Ok(Sequence(nodes));
  }

  /** A sequence of parsed items has something to choose from at every choice. */
  lemma ItemsWellFormed(nodes: seq<Node>)
    requires forall k :: 0 <= k < |nodes| ==> SequenceItem(nodes[k])
    ensures WellFormed(Sequence(nodes))
  {
    forall k | 0 <= k < |nodes|
      ensures WellFormed(nodes[k])
    {
      var n := nodes[k];
      if n.Sequence? {
        assert forall j :: 0 <= j < |n.nodes| ==> WellFormed(n.nodes[j]);
      }
    }
  }

  /** One step of the alternatives: the sequence after the cursor i fails, is
      the last one, or is followed by a '|' from which the alternatives go on. */
  lemma AlternativesFromNext(s: seq<int>, i: int, alternatives: seq<Shape>, cs: bool, isLetterOrDigit: int -> bool)
    requires -1 <= i < |s|
    ensures var sequence := ItemsFrom(s, i, [], {'|' as int}, cs, isLetterOrDigit);
            && (sequence.None? ==> AlternativesFrom(s, i, alternatives, cs, isLetterOrDigit).None?)
            && (sequence.Some? && sequence.value.1 + 1 < |s| ==>
                  AlternativesFrom(s, i, alternatives, cs, isLetterOrDigit)
                    == AlternativesFrom(s, sequence.value.1 + 1, alternatives + [SequenceShape(sequence.value.0)], cs, isLetterOrDigit))
            && (sequence.Some? && sequence.value.1 + 1 == |s| ==>
                  AlternativesFrom(s, i, alternatives, cs, isLetterOrDigit) == Some(alternatives + [SequenceShape(sequence.value.0)]))
  {
  }

  /** A pattern without special code points or '|' after p is one sequence of
      one character per code point. */
  lemma PlainAlternatives(s: seq<int>, p: int, cs: bool, isLetterOrDigit: int -> bool)
    requires 0 <= p <= |s| && PlainEnd(s, p, {'|' as int}) == |s|
    ensures AlternativesFrom(s, p - 1, [], cs, isLetterOrDigit) == Some([SequenceShape(CharShapes(s[p..|s|], cs))])
  {
    PlainSequence(s, p, {'|' as int}, cs, isLetterOrDigit);
    AlternativesFromNext(s, p - 1, [], cs, isLetterOrDigit);
    assert [] + [SequenceShape(CharShapes(s[p..|s|], cs))] == [SequenceShape(CharShapes(s[p..|s|], cs))];
  }

  /** Nodes whose shapes are one sequence of character shapes are one sequence
      of those character nodes. */
  lemma ErasedSequences(nodes: seq<Node>, chars: seq<int>, cs: bool)
    requires EraseAll(nodes) == [SequenceShape(CharShapes(chars, cs))]
    ensures nodes == [Sequence(CharNodes(chars, cs))]
  {
    assert Erase(nodes[0]) == SequenceShape(CharShapes(chars, cs));
    ErasedChars(nodes[0].nodes, chars, cs);
  }

  /** One round of the alternatives loop: parses the sequence that follows the
      alternatives so far and steps over the '|' after it, if any. */
  method ParseNextSequence(state: RegexParseState, isLetterOrDigit: int -> bool, alternatives: seq<Node>)
    returns (r: Result<Node>, more: bool)
    requires state.Valid() && |state.Regex| < MaxInt && ClassifiesAscii(isLetterOrDigit)
    modifies state
    ensures state.Valid() && state.CaseSensitive == old(state.CaseSensitive)
    ensures r.Ok? ==> r.value.Sequence? && WellFormed(r.value)
    ensures r.Ok? && more ==> old(state.Index) < state.Index
    ensures r.Ok? && !more ==> state.Index == |state.Regex| - 1
    ensures var rest := AlternativesFrom(state.Regex, old(state.Index), EraseAll(alternatives), state.CaseSensitive, isLetterOrDigit);
            && (r.Err? ==> rest.None?)
            && (r.Ok? && more ==>
                  rest == AlternativesFrom(state.Regex, state.Index, EraseAll(alternatives + [r.value]), state.CaseSensitive, isLetterOrDigit))
            && (r.Ok? && !more ==> rest == Some(EraseAll(alternatives + [r.value])))
  {
    ghost var s := state.Regex;
    ghost var cs := state.CaseSensitive;
    ghost var i := state.Index;
    ghost var before := EraseAll(alternatives);
    AlternativesFromNext(s, i, before, cs, isLetterOrDigit);
    var parsed := ParseSequence(state, {'|' as int}, isLetterOrDigit);
    if parsed.Err? {
      return Err(parsed.error), false;
    }
    var sequence := parsed.value;
    ItemsWellFormed(sequence.nodes);
    EraseAppend(alternatives, sequence);
    r := Ok(sequence);
    if state.HasNext() {
      var o := state.Require('|' as int);
      assert o.Pass?;
      more := true;
    } else {
      more := false;
    }
  }

  /** The loop of ParseAlternatives: the sequences separated by '|' up to the
      end of the pattern, in order, as AlternativesFrom gives their shapes. */
  method ParseSequences(state: RegexParseState, isLetterOrDigit: int -> bool) returns (r: Result<seq<Node>>)
    requires state.Valid() && |state.Regex| < MaxInt && ClassifiesAscii(isLetterOrDigit)
    modifies state
    ensures state.Valid() && state.CaseSensitive == old(state.CaseSensitive)
    ensures r.Ok? ==> state.Index == |state.Regex| - 1 && |r.value| >= 1
    ensures r.Ok? ==> forall k :: 0 <= k < |r.value| ==> r.value[k].Sequence? && WellFormed(r.value[k])
    ensures var s := state.Regex; var p := old(state.Index) + 1;
            PlainEnd(s, p, {'|' as int}) == |s| ==> r == Ok([Sequence(CharNodes(s[p..|s|], state.CaseSensitive))])
    ensures var spec := AlternativesFrom(state.Regex, old(state.Index), [], state.CaseSensitive, isLetterOrDigit);
            && (r.Ok? <==> spec.Some?)
            && (r.Ok? ==> EraseAll(r.value) == spec.value)
  {
    ghost var s := state.Regex;
    ghost var p := state.Index + 1;
    ghost var cs := state.CaseSensitive;
    if PlainEnd(s, p, {'|' as int}) == |s| {
      PlainAlternatives(s, p, cs, isLetterOrDigit);
    }
    var alternatives: seq<Node> := [];
    while true
      invariant state.Valid() && state.CaseSensitive == cs
      invariant forall k :: 0 <= k < |alternatives| ==> alternatives[k].Sequence? && WellFormed(alternatives[k])
      invariant alternatives == [] ==> state.Index == p - 1
      invariant AlternativesFrom(s, p - 1, [], cs, isLetterOrDigit)
                  == AlternativesFrom(s, state.Index, EraseAll(alternatives), cs, isLetterOrDigit)
      decreases |state.Regex| - state.Index
    {
      var sequence, more := ParseNextSequence(state, isLetterOrDigit, alternatives);
      if sequence.Err? {
        return Err(sequence.error);
      }
      alternatives := alternatives + [sequence.value];
      if !more {
        break;
      }
    }
    if PlainEnd(s, p, {'|' as int}) == |s| {
      ErasedSequences(alternatives, s[p..|s|], cs);
    }
    return Ok(alternatives);
  }

  /** Sequences separated by '|' up to the end of the pattern: one sequence
      stands alone, two or more become the alternatives of one node, as
      PatternShape gives their shape. */
  method ParseAlternatives(state: RegexParseState, isLetterOrDigit: int -> bool) returns (r: Result<Node>)
    requires state.Valid() && |state.Regex| < MaxInt && ClassifiesAscii(isLetterOrDigit)
    modifies state
    ensures state.Valid() && state.CaseSensitive == old(state.CaseSensitive)
    ensures r.Ok? ==> state.Index == |state.Regex| - 1
    ensures r.Ok? ==> WellFormed(r.value)
    ensures r.Ok? ==>
              || r.value.Sequence?
              || (r.value.Alternates? && |r.value.nodes| >= 2 && forall k :: 0 <= k < |r.value.nodes| ==> r.value.nodes[k].Sequence?)
    ensures var s := state.Regex; var p := old(state.Index) + 1;
            PlainEnd(s, p, {'|' as int}) == |s| ==> r == Ok(Sequence(CharNodes(s[p..], state.CaseSensitive)))
    ensures var spec := PatternShape(state.Regex, old(state.Index), state.CaseSensitive, isLetterOrDigit);
            && (r.Ok? <==> spec.Some?)
            && (r.Ok? ==> Erase(r.value) == spec.value)
  {
    ghost var s := state.Regex;
    ghost var p := state.Index + 1;
    var alternatives :- ParseSequences(state, isLetterOrDigit);
    if |alternatives| == 1 {
      assert s[p..|s|] == s[p..];
      return Ok(alternatives[0]);
    }
    return Ok(Alternates(alternatives));
  }

  // ---------------------------------------------------------------------------
  // The regex object

  /** A parsed pattern, ready to generate samples. */
  class Regex {
    const RootNode: Node

    /** The tree has something to choose from at every choice. */
    predicate Valid() {
      WellFormed(RootNode)
    }

    constructor(node: Node)
      requires WellFormed(node)
      ensures RootNode == node && Valid()
    {
      RootNode := node;
    }

    /** Decodes the UTF-16 pattern into code points and parses all of it. */
    static method Build(pattern: seq<CodeUnit>, caseSensitive: bool, isLetterOrDigit: int -> bool) returns (r: Result<Regex>)
      requires |pattern| < MaxInt && ClassifiesAscii(isLetterOrDigit)
      ensures Decode(pattern, 0).Err? ==> r == Err(Decode(pattern, 0).error)
      ensures r.Ok? ==> fresh(r.value) && r.value.Valid()
      ensures r.Ok? ==>
                || r.value.RootNode.Sequence?
                || (r.value.RootNode.Alternates? && |r.value.RootNode.nodes| >= 2)
      ensures Decode(pattern, 0).Ok? && PlainEnd(Decode(pattern, 0).value, 0, {'|' as int}) == |Decode(pattern, 0).value| ==>
                r.Ok? && r.value.RootNode == Sequence(CharNodes(Decode(pattern, 0).value, caseSensitive))
      ensures Decode(pattern, 0).Ok? ==>
                var spec := PatternShape(Decode(pattern, 0).value, -1, caseSensitive, isLetterOrDigit);
                && (r.Ok? <==> spec.Some?)
                && (r.Ok? ==> Erase(r.value.RootNode) == spec.value)
    {
      var codePoints :- ToCodePoints(pattern);
      var state := new RegexParseState(codePoints, caseSensitive);
      var root :- ParseAlternatives(state, isLetterOrDigit);
      var regex := new Regex(root);
      return Ok(regex);
    }

    /** A random sample: the tree's pairs, each whose case is free upper- or
        lower-cased by a coin drawn after the tree's own draws. Before casing,
        every sample is an output of the tree. */
    method GenerateSample(casing: Casing, rng: Rng) returns (text: seq<int>)
      requires Valid()
      ensures var sample := Gen(RootNode, rng, 0);
              && Matches(RootNode, sample.out)
              && text == Render(sample.out, casing, rng, sample.next).chars
    {
      var sample := Gen(RootNode, rng, 0);
      GenSound(RootNode, rng, 0);
      var pairs := sample.out;
      var next := sample.next;
      text := [];
      var i := 0;
      TextThenNothing([], next);
      while i < |pairs|
        invariant 0 <= i <= |pairs|
        invariant Render(pairs, casing, rng, sample.next) == TextThen(text, Render(pairs[i..], casing, rng, next))
      {
        var (c, caseSensitive) := pairs[i];
        var piece: seq<int>;
        if caseSensitive {
          piece := [c];
        } else {
          piece := if Coin(rng, next) then casing.toUpper(c) else casing.toLower(c);
        }
        assert pairs[i..][0] == pairs[i] && pairs[i..][1..] == pairs[i + 1..];
        var after := if caseSensitive then next else next + 1;
        TextThenAssoc(text, piece, Render(pairs[i + 1..], casing, rng, after));
        text := text + piece;
        next := after;
        i := i + 1;
      }
      assert pairs[i..] == [];
      TextThenNothing(text, next);
    }
  }
}
