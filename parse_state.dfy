/** The cursor the parser moves over the decoded pattern: the code points, the
    index of the current one (-1 before the first move) and the case-sensitivity
    flag that new character nodes copy, with the digit readers, the
    requirement helpers and value snapshots. */
module ParseState {
  import opened Errors
  import opened IntExtensions

  /** The source's int.MaxValue, the "no upper bound" of the readers and quantifiers. */
  const MaxInt := 0x7FFF_FFFF

  // ---------------------------------------------------------------------------
  // Digit values

  function Pow2(k: nat): (p: nat)
    ensures p >= 1
  {
    if k == 0 then 1 else 2 * Pow2(k - 1)
  }

  /** Bitwise OR of two non-negative integers. */
  function BitOr(a: nat, b: nat): nat
    decreases a + b
  {
    if a == 0 then b
    else if b == 0 then a
    else 2 * BitOr(a / 2, b / 2) + (if a % 2 == 1 || b % 2 == 1 then 1 else 0)
  }

  /** OR-ing a value into bits that are known to be zero is addition. */
  lemma {:induction false} OrIntoZeroBits(v: nat, d: nat, k: nat)
    requires d < Pow2(k)
    ensures BitOr(v * Pow2(k), d) == v * Pow2(k) + d
    decreases k
  {
    if k > 0 && v != 0 && d != 0 {
      var a := v * Pow2(k);
      assert a == 2 * (v * Pow2(k - 1));
      assert a / 2 == v * Pow2(k - 1) && a % 2 == 0;
      OrIntoZeroBits(v, d / 2, k - 1);
    }
  }

  /** The offset of a character from '0': the digit value the readers use for
      every digit, letters included. */
  function DigitOffset(c: int): int {
    c - '0' as int
  }

  /** The value of a hexadecimal digit character. */
  function HexDigitValue(c: int): int {
    if 'a' as int <= c <= 'f' as int then c - 'a' as int + 10
    else if 'A' as int <= c <= 'F' as int then c - 'A' as int + 10
    else c - '0' as int
  }

  predicate AllDigits(ds: seq<int>, isDigit: int -> bool) {
    forall k :: 0 <= k < |ds| ==> isDigit(ds[k])
  }

  /** The positional value of a digit string in the given base. */
  function Positional(ds: seq<int>, base: int, digit: int -> int): int
    decreases |ds|
  {
    if ds == [] then 0 else Positional(ds[..|ds| - 1], base, digit) * base + digit(ds[|ds| - 1])
  }

  /** What the octal and hexadecimal readers accumulate: each new digit's offset
      from '0' is OR-ed into the value so far shifted left, that is multiplied by
      `scale` (8 for octal, 16 for hexadecimal). */
  function ShiftOr(ds: seq<int>, scale: nat): nat
    requires forall k :: 0 <= k < |ds| ==> 0 <= DigitOffset(ds[k])
    decreases |ds|
  {
    if ds == [] then 0 else BitOr(ShiftOr(ds[..|ds| - 1], scale) * scale, DigitOffset(ds[|ds| - 1]))
  }

  /** When every digit's offset fits below the shifted-in bits, shift-or
      accumulation is the positional value. */
  lemma {:induction false} ShiftOrIsPositional(ds: seq<int>, k: nat)
    requires forall i :: 0 <= i < |ds| ==> 0 <= DigitOffset(ds[i]) < Pow2(k)
    ensures ShiftOr(ds, Pow2(k)) == Positional(ds, Pow2(k), DigitOffset)
    decreases |ds|
  {
    if ds != [] {
      var front := ds[..|ds| - 1];
      ShiftOrIsPositional(front, k);
      OrIntoZeroBits(ShiftOr(front, Pow2(k)), DigitOffset(ds[|ds| - 1]), k);
    }
  }

  /** The octal reader yields the base-8 value of the digits it reads. */
  lemma OctalEscapeValue(ds: seq<int>)
    requires AllDigits(ds, IsOctalDigit)
    ensures ShiftOr(ds, 8) == Positional(ds, 8, DigitOffset)
  {
    assert Pow2(3) == 8;
    ShiftOrIsPositional(ds, 3);
  }

  /** The hexadecimal reader yields the base-16 value of the digits it reads when
      they are all decimal digits. */
  lemma HexEscapeValue(ds: seq<int>)
    requires AllDigits(ds, IsAsciiDigit)
    ensures ShiftOr(ds, 16) == Positional(ds, 16, HexDigitValue)
  {
    assert Pow2(4) == 16;
    ShiftOrIsPositional(ds, 4);
    PositionalAgrees(ds, 16, DigitOffset, HexDigitValue);
  }

  lemma {:induction false} PositionalAgrees(ds: seq<int>, base: int, f: int -> int, g: int -> int)
    requires forall k :: 0 <= k < |ds| ==> f(ds[k]) == g(ds[k])
    ensures Positional(ds, base, f) == Positional(ds, base, g)
    decreases |ds|
  {
    if ds != [] {
      PositionalAgrees(ds[..|ds| - 1], base, f, g);
    }
  }

  /** A hexadecimal letter is not read as its value: "a" reads as 49, not 10. */
  lemma HexLetterMisread()
    ensures ShiftOr(['a' as int], 16) == 49
    ensures Positional(['a' as int], 16, HexDigitValue) == 10
  {
    assert ['a' as int][..0] == [];
  }

  /** At most three octal digits never exceed 511, so they always pass the
      code-point check. */
  lemma {:induction false} ShortOctalIsScalar(ds: seq<int>)
    requires AllDigits(ds, IsOctalDigit) && |ds| <= 3
    ensures 0 <= Positional(ds, 8, DigitOffset) < Pow2(3 * |ds|)
    ensures IsScalarValue(Positional(ds, 8, DigitOffset))
    decreases |ds|
  {
    if ds != [] {
      var front := ds[..|ds| - 1];
      ShortOctalIsScalar(front);
      var j := 3 * |front|;
      assert Pow2(j + 3) == 2 * Pow2(j + 2) == 4 * Pow2(j + 1) == 8 * Pow2(j);
    }
    assert Pow2(9) == 512;
    assert Pow2(3 * |ds|) <= 512 by {
      PowMonotone(3 * |ds|, 9);
    }
  }

  /** At most three octal digits are below 512. */
  lemma ShortOctalBelow512(ds: seq<int>)
    requires AllDigits(ds, IsOctalDigit) && |ds| <= 3
    ensures 0 <= Positional(ds, 8, DigitOffset) < 512
  {
    ShortOctalIsScalar(ds);
    assert Pow2(9) == 512;
    PowMonotone(3 * |ds|, 9);
  }

  /** ShiftOr of the digits s[start..end), read in place. */
  function ShiftOrAt(s: seq<int>, start: int, end: int, scale: nat): nat
    requires 0 <= start <= end <= |s|
    requires forall k :: start <= k < end ==> 0 <= DigitOffset(s[k])
    decreases end - start
  {
    if end == start then 0 else BitOr(ShiftOrAt(s, start, end - 1, scale) * scale, DigitOffset(s[end - 1]))
  }

  lemma {:induction false} ShiftOrAtSlice(s: seq<int>, start: int, end: int, scale: nat)
    requires 0 <= start <= end <= |s|
    requires forall k :: start <= k < end ==> 0 <= DigitOffset(s[k])
    ensures forall k :: 0 <= k < |s[start..end]| ==> 0 <= DigitOffset(s[start..end][k])
    ensures ShiftOrAt(s, start, end, scale) == ShiftOr(s[start..end], scale)
    decreases end - start
  {
    if end > start {
      ShiftOrAtSlice(s, start, end - 1, scale);
      assert s[start..end][..end - 1 - start] == s[start..end - 1];
    }
  }

  /** What the octal reader's loop establishes is a run of octal digits whose
      shifted value is their base-8 value. */
  lemma OctalRun(s: seq<int>, start: int, n: int, maxLength: int, value: nat)
    requires 0 <= start && 1 <= n && start + n <= |s|
    requires forall k :: start <= k < start + n ==> IsOctalDigit(s[k])
    requires forall k :: start <= k < start + n ==> 0 <= DigitOffset(s[k])
    requires n == 1 || n <= maxLength
    requires n < maxLength ==> start + n == |s| || !IsOctalDigit(s[start + n])
    requires value == ShiftOrAt(s, start, start + n, 8)
    ensures DigitRun(s, start, n, IsOctalDigit, maxLength)
    ensures value == Positional(s[start..start + n], 8, DigitOffset)
  {
    ShiftOrAtSlice(s, start, start + n, 8);
    RunDigits(s, start, n, IsOctalDigit, maxLength);
    OctalEscapeValue(s[start..start + n]);
  }

  /** What the hexadecimal reader's loop establishes is a run of hexadecimal
      digits whose value is ShiftOr's. */
  lemma HexRun(s: seq<int>, start: int, n: int, maxLength: int, value: nat)
    requires 0 <= start && 1 <= n && start + n <= |s|
    requires forall k :: start <= k < start + n ==> IsHexDigit(s[k])
    requires forall k :: start <= k < start + n ==> 0 <= DigitOffset(s[k])
    requires n == 1 || n <= maxLength
    requires n < maxLength ==> start + n == |s| || !IsHexDigit(s[start + n])
    requires value == ShiftOrAt(s, start, start + n, 16)
    ensures DigitRun(s, start, n, IsHexDigit, maxLength)
    ensures value == ShiftOr(s[start..start + n], 16)
  {
    ShiftOrAtSlice(s, start, start + n, 16);
  }

  /** OR-ing never yields more than adding. */
  lemma {:induction false} BitOrAtMostSum(a: nat, b: nat)
    ensures BitOr(a, b) <= a + b
    decreases a + b
  {
    if a != 0 && b != 0 {
      BitOrAtMostSum(a / 2, b / 2);
    }
  }

  /** At most two hexadecimal digits, letters read by their offset from '0'
      included, stay far below the surrogates, so they always pass the
      code-point check. */
  lemma ShortHexIsScalar(ds: seq<int>)
    requires AllDigits(ds, IsHexDigit) && |ds| <= 2
    ensures IsScalarValue(ShiftOr(ds, 16))
  {
    if |ds| == 1 {
      assert ds[..0] == [];
      BitOrAtMostSum(0, DigitOffset(ds[0]));
    } else if |ds| == 2 {
      var front := ds[..1];
      assert front[..0] == [];
      BitOrAtMostSum(0, DigitOffset(ds[0]));
      BitOrAtMostSum(ShiftOr(front, 16) * 16, DigitOffset(ds[1]));
    }
  }

  lemma {:induction false} PowMonotone(a: nat, b: nat)
    requires a <= b
    ensures Pow2(a) <= Pow2(b)
    decreases b
  {
    if a < b {
      PowMonotone(a, b - 1);
    }
  }

  /** The digits a reader consumes: starting with the current character, a run of
      n >= 1 digits that stops at maxLength digits (the first one is read in any
      case), at the end of the pattern or before a character that is no digit. */
  predicate DigitRun(s: seq<int>, start: int, n: int, isDigit: int -> bool, maxLength: int) {
    && 0 <= start && 1 <= n && start + n <= |s|
    && (forall k :: start <= k < start + n ==> isDigit(s[k]))
    && (n == 1 || n <= maxLength)
    && (n < maxLength ==> start + n == |s| || !isDigit(s[start + n]))
  }

  /** The run a reader consumes is determined by the pattern, the start and maxLength. */
  lemma DigitRunUnique(s: seq<int>, start: int, n: int, m: int, isDigit: int -> bool, maxLength: int)
    requires DigitRun(s, start, n, isDigit, maxLength) && DigitRun(s, start, m, isDigit, maxLength)
    ensures n == m
  {
  }

  /** The end of the run of digits that starts at i: the first index at or after i
      that holds no digit, or the length of s. */
  function DigitsEnd(s: seq<int>, i: int, isDigit: int -> bool): (e: int)
    requires 0 <= i <= |s|
    ensures i <= e <= |s|
    ensures forall k :: i <= k < e ==> isDigit(s[k])
    ensures e == |s| || !isDigit(s[e])
    decreases |s| - i
  {
    if i == |s| || !isDigit(s[i]) then i else DigitsEnd(s, i + 1, isDigit)
  }

  /** A reader's run that stops short of maxLength is the whole run of digits. */
  lemma DigitRunIsMaximal(s: seq<int>, start: int, n: int, isDigit: int -> bool, maxLength: int)
    requires DigitRun(s, start, n, isDigit, maxLength) && n < maxLength
    ensures start + n == DigitsEnd(s, start, isDigit)
  {
  }

  /** Where the run a reader consumes from start ends: the whole run of digits,
      cut at maxLength digits. */
  function RunEnd(s: seq<int>, start: int, isDigit: int -> bool, maxLength: int): (e: int)
    requires 0 <= start < |s| && isDigit(s[start]) && 1 <= maxLength
    ensures DigitRun(s, start, e - start, isDigit, maxLength)
  {
    var d := DigitsEnd(s, start, isDigit);
    if d - start <= maxLength then d else start + maxLength
  }

  /** A reader's run ends where RunEnd says. */
  lemma RunEndOf(s: seq<int>, start: int, n: int, isDigit: int -> bool, maxLength: int)
    requires DigitRun(s, start, n, isDigit, maxLength) && 1 <= maxLength
    ensures start + n == RunEnd(s, start, isDigit, maxLength)
  {
    DigitRunUnique(s, start, n, RunEnd(s, start, isDigit, maxLength) - start, isDigit, maxLength);
  }

  /** A run of at most three octal digits ends where the run ends and makes a
      scalar value. */
  lemma ShortOctalRun(s: seq<int>, start: int, n: int)
    requires DigitRun(s, start, n, IsOctalDigit, 3)
    ensures start + n == RunEnd(s, start, IsOctalDigit, 3)
    ensures IsScalarValue(Positional(s[start..start + n], 8, DigitOffset))
  {
    RunEndOf(s, start, n, IsOctalDigit, 3);
    RunDigits(s, start, n, IsOctalDigit, 3);
    ShortOctalIsScalar(s[start..start + n]);
  }

  /** The digits of a run, as a sequence of their own. */
  lemma RunDigits(s: seq<int>, start: int, n: int, isDigit: int -> bool, maxLength: int)
    requires DigitRun(s, start, n, isDigit, maxLength)
    ensures AllDigits(s[start..start + n], isDigit)
  {
    var ds := s[start..start + n];
    forall k | 0 <= k < |ds|
      ensures isDigit(ds[k])
    {
      assert ds[k] == s[start + k];
    }
  }

  /** Decimal digits never make a negative number. */
  lemma {:induction false} DecimalNonNegative(ds: seq<int>)
    requires AllDigits(ds, IsAsciiDigit)
    ensures Positional(ds, 10, DigitOffset) >= 0
    decreases |ds|
  {
    if ds != [] {
      assert AllDigits(ds[..|ds| - 1], IsAsciiDigit);
      DecimalNonNegative(ds[..|ds| - 1]);
    }
  }

  /** One decimal digit is below ten; two or more that do not start with '0' are not. */
  lemma {:induction false} DecimalMagnitude(ds: seq<int>)
    requires AllDigits(ds, IsAsciiDigit) && |ds| >= 1
    ensures |ds| == 1 ==> Positional(ds, 10, DigitOffset) == DigitOffset(ds[0]) < 10
    ensures |ds| >= 2 && ds[0] != '0' as int ==> Positional(ds, 10, DigitOffset) >= 10
    decreases |ds|
  {
    var front := ds[..|ds| - 1];
    assert 0 <= DigitOffset(ds[|ds| - 1]);
    if |ds| == 1 {
      assert front == [];
    } else {
      assert AllDigits(front, IsAsciiDigit) && front[0] == ds[0];
      DecimalMagnitude(front);
      if |ds| == 2 {
        assert Positional(front, 10, DigitOffset) == DigitOffset(ds[0]) >= 0;
      }
    }
  }

  /** Where, from its i-th code point on, `expected` first stops matching the
      pattern s after position `start`: the first k that is missing or differs,
      or |expected| when the pattern continues with all of it. */
  function MatchedFrom(s: seq<int>, start: int, expected: seq<int>, i: int): (k: int)
    requires 0 <= i <= |expected|
    ensures i <= k <= |expected|
    ensures i < k ==> 0 <= start + 1 + i && start + k < |s|
    ensures forall j :: i <= j < k ==> s[start + 1 + j] == expected[j]
    ensures k < |expected| ==> !(0 <= start + 1 + k < |s|) || s[start + 1 + k] != expected[k]
    decreases |expected| - i
  {
    if i < |expected| && 0 <= start + 1 + i < |s| && s[start + 1 + i] == expected[i] then
      MatchedFrom(s, start, expected, i + 1)
    else i
  }

  /** The whole of `expected` follows `start` exactly when no code point of it is
      missing or differs. */
  lemma MatchedFromAll(s: seq<int>, start: int, expected: seq<int>)
    requires -1 <= start < |s|
    ensures (MatchedFrom(s, start, expected, 0) == |expected|)
              == (start + |expected| < |s| && s[start + 1..start + 1 + |expected|] == expected)
  {
    var k := MatchedFrom(s, start, expected, 0);
    if k == |expected| {
      var window := s[start + 1..start + 1 + |expected|];
      forall j | 0 <= j < |expected|
        ensures window[j] == expected[j]
      {
        assert window[j] == s[start + 1 + j];
      }
    } else if start + |expected| < |s| {
      assert s[start + 1..start + 1 + |expected|][k] == s[start + 1 + k];
    }
  }

  // ---------------------------------------------------------------------------

  /** The parser's cursor over the pattern. */
  class RegexParseState {
    const Regex: seq<int>
    var Index: int
    var CaseSensitive: bool

    /** Back references accepted by the escape parser: only the whole match. */
    const CapturesCount := 1

    /** A new cursor stands before the first code point; case sensitivity comes
        from the options. */
    constructor(regex: seq<int>, caseSensitive: bool)
      ensures Regex == regex && Index == -1 && CaseSensitive == caseSensitive
      ensures Valid()
    {
      Regex := regex;
      Index := -1;
      CaseSensitive := caseSensitive;
    }

    /** The index never leaves [-1, Length - 1]. */
    predicate Valid()
      reads this
    {
      -1 <= Index < |Regex|
    }

    /** The current code point. */
    function Char(): int
      reads this
      requires 0 <= Index < |Regex|
    {
      Regex[Index]
    }

    /** The next code point, when there is one; the cursor stays where it is. */
    function TryPeekNext(): (r: Option<int>)
      reads this
      requires Valid()
      ensures r.Some? <==> HasNext()
      ensures r.Some? ==> r.value == Regex[Index + 1]
    {
      if Index + 1 < |Regex| then Some(Regex[Index + 1]) else None
    }

    /** A code point follows the cursor. */
    predicate HasNext()
      reads this
    {
      Index + 1 < |Regex|
    }

    /** A parse error at the current index. */
    function Error(message: Message): Exception
      reads this
    {
      RegexParseException(message, Index, Regex)
    }

    /** Advances by one; at the end the cursor is pinned on the last code point. */
    method MoveNext() returns (moved: bool)
      requires Valid()
      modifies this
      ensures Valid() && CaseSensitive == old(CaseSensitive)
      ensures moved <==> old(Index) + 1 < |Regex|
      ensures Index == if moved then old(Index) + 1 else |Regex| - 1
    {
      Index := Index + 1;
      if Index < |Regex| {
        return true;
      }
      Index := |Regex| - 1;
      return false;
    }

    /** Advances only when there is a next code point whose membership in `chars`
        equals `including`. */
    method MoveNextIfAny(chars: set<int>, including: bool) returns (moved: bool)
      requires Valid()
      modifies this
      ensures Valid() && CaseSensitive == old(CaseSensitive)
      ensures moved <==> old(Index) + 1 < |Regex| && (Regex[old(Index) + 1] in chars) == including
      ensures Index == if moved then old(Index) + 1 else old(Index)
    {
      var next := TryPeekNext();
      if next.Some? && (next.value in chars) == including {
        moved := MoveNext();
        return true;
      }
      return false;
    }

    /** Advances only when there is a next code point whose equality with `ch`
        equals `including`. */
    method MoveNextIf(ch: int, including: bool) returns (moved: bool)
      requires Valid()
      modifies this
      ensures Valid() && CaseSensitive == old(CaseSensitive)
      ensures moved <==> old(Index) + 1 < |Regex| && (Regex[old(Index) + 1] == ch) == including
      ensures Index == if moved then old(Index) + 1 else old(Index)
    {
      var next := TryPeekNext();
      if next.Some? && (ch == next.value) == including {
        moved := MoveNext();
        return true;
      }
      return false;
    }

    /** Advances, failing at the end of the pattern. */
    method RequireNext() returns (o: Outcome)
      requires Valid()
      modifies this
      ensures Valid() && CaseSensitive == old(CaseSensitive)
      ensures o.Pass? <==> old(Index) + 1 < |Regex|
      ensures o.Pass? ==> Index == old(Index) + 1
      ensures o.Fail? ==> Index == |Regex| - 1 && o.error == Error(UnexpectedEndOfPattern)
    {
      var moved := MoveNext();
      if !moved {
        return Fail(Error(UnexpectedEndOfPattern));
      }
      return Pass;
    }

    /** Rejects values that are no Unicode scalar value: above 0x10FFFF or a surrogate. */
    function ValidateEscape(value: int): (o: Outcome)
      reads this
      ensures value >= 0 ==> (o.Pass? <==> IsScalarValue(value))
      ensures value > 0x10FFFF ==> o == Fail(Error(NotValidUnicode(value)))
      ensures 0xD800 <= value <= 0xDFFF ==> o == Fail(Error(SurrogateEscapesNotAllowed))
    {
      if value > 0x10FFFF then Fail(Error(NotValidUnicode(value)))
      else if 0xD800 <= value <= 0xDFFF then Fail(Error(SurrogateEscapesNotAllowed))
      else Pass
    }

    /** The octal digits from the current character on, at most maxLength
        of them (but always the first), shifted and OR-ed together. */
    method ReadOctalRun(maxLength: int) returns (value: nat, i: int)
      requires Valid() && 0 <= Index && IsOctalDigit(Char())
      modifies this
      ensures Valid() && CaseSensitive == old(CaseSensitive)
      ensures i == Index - old(Index) + 1 && 1 <= i && (i == 1 || i <= maxLength)
      ensures forall k :: old(Index) <= k < Index + 1 ==> IsOctalDigit(Regex[k])
      ensures i < maxLength ==> Index + 1 == |Regex| || !IsOctalDigit(Regex[Index + 1])
      ensures forall k :: old(Index) <= k < Index + 1 ==> 0 <= DigitOffset(Regex[k])
      ensures value == ShiftOrAt(Regex, old(Index), Index + 1, 8)
    {
      ghost var start := Index;
      value := DigitOffset(Char());
      i := 1;
      while i < maxLength && TryPeekNext().Some? && IsOctalDigit(TryPeekNext().value)
        invariant Valid() && CaseSensitive == old(CaseSensitive)
        invariant Index == start + i - 1 && 1 <= i && (i == 1 || i <= maxLength)
        invariant forall k :: start <= k < start + i ==> IsOctalDigit(Regex[k])
        invariant value == ShiftOrAt(Regex, start, start + i, 8)
        decreases |Regex| - Index
      {
        var c := TryPeekNext().value;
        var _ := MoveNext();
        value := BitOr(value * 8, DigitOffset(c));
        i := i + 1;
      }
    }

    /** Reads an octal escape that starts at the current character: at least
        minLength and at most maxLength digits, then the code-point check. */
    method ReadOctalEscape(minLength: int, maxLength: int) returns (r: Result<int>)
      requires Valid() && 0 <= Index
      modifies this
      ensures Valid() && CaseSensitive == old(CaseSensitive)
      ensures !IsOctalDigit(old(Char())) ==> Index == old(Index)
      ensures !IsOctalDigit(old(Char())) ==> r == if minLength > 0 then Err(Error(ExpectedOctalDigit)) else Ok(0)
      ensures IsOctalDigit(old(Char())) ==> DigitRun(Regex, old(Index), Index - old(Index) + 1, IsOctalDigit, maxLength)
      ensures IsOctalDigit(old(Char())) && Index - old(Index) + 1 < minLength ==> r == Err(Error(ExpectedOctalDigit))
      ensures IsOctalDigit(old(Char())) && Index - old(Index) + 1 >= minLength ==>
                && (r.Ok? <==> IsScalarValue(Positional(Regex[old(Index)..Index + 1], 8, DigitOffset)))
                && (r.Ok? ==> r.value == Positional(Regex[old(Index)..Index + 1], 8, DigitOffset))
                && (r.Err? ==> ValidateEscape(Positional(Regex[old(Index)..Index + 1], 8, DigitOffset)) == Fail(r.error))
    {
      if !IsOctalDigit(Char()) {
        if minLength > 0 {
          return Err(Error(ExpectedOctalDigit));
        }
        return Ok(0);
      }

      ghost var start := Index;
      var value, i := ReadOctalRun(maxLength);
      OctalRun(Regex, start, i, maxLength, value);

      if i < minLength {
        return Err(Error(ExpectedOctalDigit));
      }

      var o := ValidateEscape(value);
      if o.Fail? {
        return Err(o.error);
      }
      return Ok(value);
    }

    /** The hex digits from the current character on, at most maxLength
        of them (but always the first), shifted and OR-ed together. */
    method ReadHexRun(maxLength: int) returns (value: nat, i: int)
      requires Valid() && 0 <= Index && IsHexDigit(Char())
      modifies this
      ensures Valid() && CaseSensitive == old(CaseSensitive)
      ensures i == Index - old(Index) + 1 && 1 <= i && (i == 1 || i <= maxLength)
      ensures forall k :: old(Index) <= k < Index + 1 ==> IsHexDigit(Regex[k])
      ensures i < maxLength ==> Index + 1 == |Regex| || !IsHexDigit(Regex[Index + 1])
      ensures forall k :: old(Index) <= k < Index + 1 ==> 0 <= DigitOffset(Regex[k])
      ensures value == ShiftOrAt(Regex, old(Index), Index + 1, 16)
    {
      ghost var start := Index;
      value := DigitOffset(Char());
      i := 1;
      while i < maxLength && TryPeekNext().Some? && IsHexDigit(TryPeekNext().value)
        invariant Valid() && CaseSensitive == old(CaseSensitive)
        invariant Index == start + i - 1 && 1 <= i && (i == 1 || i <= maxLength)
        invariant forall k :: start <= k < start + i ==> IsHexDigit(Regex[k])
        invariant value == ShiftOrAt(Regex, start, start + i, 16)
        decreases |Regex| - Index
      {
        var c := TryPeekNext().value;
        var _ := MoveNext();
        value := BitOr(value * 16, DigitOffset(c));
        i := i + 1;
      }
    }

    /** Reads a hexadecimal escape that starts at the current character, as the
        octal reader does but shifting by four bits per digit. */
    method ReadHexEscape(minLength: int, maxLength: int) returns (r: Result<int>)
      requires Valid() && 0 <= Index
      modifies this
      ensures Valid() && CaseSensitive == old(CaseSensitive)
      ensures !IsHexDigit(old(Char())) ==> Index == old(Index)
      ensures !IsHexDigit(old(Char())) ==> r == if minLength > 0 then Err(Error(ExpectedHexDigit)) else Ok(0)
      ensures IsHexDigit(old(Char())) ==> DigitRun(Regex, old(Index), Index - old(Index) + 1, IsHexDigit, maxLength)
      ensures IsHexDigit(old(Char())) && Index - old(Index) + 1 < minLength ==> r == Err(Error(ExpectedHexDigit))
      ensures IsHexDigit(old(Char())) && Index - old(Index) + 1 >= minLength ==>
                && (r.Ok? <==> IsScalarValue(ShiftOr(Regex[old(Index)..Index + 1], 16)))
                && (r.Ok? ==> r.value == ShiftOr(Regex[old(Index)..Index + 1], 16))
                && (r.Err? ==> ValidateEscape(ShiftOr(Regex[old(Index)..Index + 1], 16)) == Fail(r.error))
    {
      if !IsHexDigit(Char()) {
        if minLength > 0 {
          return Err(Error(ExpectedHexDigit));
        }
        return Ok(0);
      }

      ghost var start := Index;
      var value, i := ReadHexRun(maxLength);
      HexRun(Regex, start, i, maxLength, value);

      if i < minLength {
        return Err(Error(ExpectedHexDigit));
      }

      var o := ValidateEscape(value);
      if o.Fail? {
        return Err(o.error);
      }
      return Ok(value);
    }

    /** Reads a decimal number that starts at the current character: at least
        minLength and at most maxLength digits, with no code-point check. */
    method ReadAsciiNumber(minLength: int, maxLength: int) returns (r: Result<int>)
      requires Valid() && 0 <= Index
      modifies this
      ensures Valid() && CaseSensitive == old(CaseSensitive)
      ensures !IsAsciiDigit(old(Char())) ==> Index == old(Index)
      ensures !IsAsciiDigit(old(Char())) ==> r == if minLength > 0 then Err(Error(ExpectedDecimalDigit)) else Ok(0)
      ensures IsAsciiDigit(old(Char())) ==> DigitRun(Regex, old(Index), Index - old(Index) + 1, IsAsciiDigit, maxLength)
      ensures IsAsciiDigit(old(Char())) && Index - old(Index) + 1 < minLength ==> r == Err(Error(ExpectedDecimalDigit))
      ensures IsAsciiDigit(old(Char())) && Index - old(Index) + 1 >= minLength ==>
                r == Ok(Positional(Regex[old(Index)..Index + 1], 10, DigitOffset))
      ensures r.Ok? ==> r.value >= 0
    {
      if !IsAsciiDigit(Char()) {
        if minLength > 0 {
          return Err(Error(ExpectedDecimalDigit));
        }
        return Ok(0);
      }

      ghost var start := Index;
      var value := DigitOffset(Char());
      var i := 1;
      assert Regex[start..Index + 1] == [Regex[start]];
      while i < maxLength && TryPeekNext().Some? && IsAsciiDigit(TryPeekNext().value)
        invariant Valid() && CaseSensitive == old(CaseSensitive)
        invariant Index == start + i - 1 && 1 <= i && (i == 1 || i <= maxLength)
        invariant forall k :: start <= k <= Index ==> IsAsciiDigit(Regex[k])
        invariant value == Positional(Regex[start..Index + 1], 10, DigitOffset) && value >= 0
        decreases |Regex| - Index
      {
        var c := TryPeekNext().value;
        var _ := MoveNext();
        assert Regex[start..Index + 1][..i] == Regex[start..Index];
        value := value * 10 + DigitOffset(c);
        i := i + 1;
      }

      if i < minLength {
        return Err(Error(ExpectedDecimalDigit));
      }
      return Ok(value);
    }

    /** Records the index and the case-sensitivity flag. */
    method Snapshot() returns (s: Snapshot)
      ensures s.State == this && s.Index == Index && s.CaseSensitive == CaseSensitive
    {
      s := new Snapshot(this);
    }

    /** Advances onto the next code point, which must be c. */
    method Require(c: int) returns (o: Outcome)
      requires Valid()
      modifies this
      ensures Valid() && CaseSensitive == old(CaseSensitive)
      ensures Index == if old(Index) + 1 < |Regex| then old(Index) + 1 else |Regex| - 1
      ensures o.Pass? <==> old(Index) + 1 < |Regex| && Regex[old(Index) + 1] == c
      ensures o.Fail? ==> o.error == Error(ExpectedCharacter(c))
    {
      var moved := MoveNext();
      if !moved || Char() != c {
        return Fail(Error(ExpectedCharacter(c)));
      }
      return Pass;
    }

    /** Advances onto the next code point, which must lie in [start, end]. */
    method RequireRange(start: int, end: int) returns (o: Outcome)
      requires Valid()
      modifies this
      ensures Valid() && CaseSensitive == old(CaseSensitive)
      ensures Index == if old(Index) + 1 < |Regex| then old(Index) + 1 else |Regex| - 1
      ensures o.Pass? <==> old(Index) + 1 < |Regex| && start <= Regex[old(Index) + 1] <= end
      ensures old(Index) + 1 >= |Regex| ==> o == Fail(Error(ExpectedCharacterInRange(start, end)))
      ensures old(Index) + 1 < |Regex| && o.Fail? ==> o == Fail(Error(CharacterNotInRange(start, end)))
    {
      var moved := MoveNext();
      if !moved {
        return Fail(Error(ExpectedCharacterInRange(start, end)));
      }
      if Char() < start || Char() > end {
        return Fail(Error(CharacterNotInRange(start, end)));
      }
      return Pass;
    }

    /** Requires each code point of `expected` in turn: succeeds exactly when the
        pattern continues with `expected`, and then stands on its last code point.
        Otherwise it fails on the first code point k that is missing or differs,
        with the cursor moved on by k + 1 but no further than the last code point. */
    method RequireAll(expected: seq<int>) returns (o: Outcome)
      requires Valid()
      modifies this
      ensures Valid() && CaseSensitive == old(CaseSensitive)
      ensures o.Pass? <==> old(Index) + |expected| < |Regex| && Regex[old(Index) + 1..old(Index) + 1 + |expected|] == expected
      ensures o.Pass? ==> Index == old(Index) + |expected|
      ensures var k := MatchedFrom(Regex, old(Index), expected, 0);
              && (o.Pass? <==> k == |expected|)
              && (o.Fail? ==> k < |expected| && Index == (if old(Index) + k + 1 < |Regex| then old(Index) + k + 1 else |Regex| - 1))
              && (o.Fail? ==> o.error == RegexParseException(ExpectedCharacter(expected[k]), Index, Regex))
    {
      MatchedFromAll(Regex, Index, expected);
      var i := 0;
      while i < |expected|
        invariant 0 <= i <= |expected|
        invariant Valid() && CaseSensitive == old(CaseSensitive)
        invariant Index == old(Index) + i
        invariant 0 < i ==> old(Index) + i < |Regex|
        invariant forall j :: 0 <= j < i ==> Regex[old(Index) + 1 + j] == expected[j]
      {
        o := Require(expected[i]);
        if o.Fail? {
          return;
        }
        i := i + 1;
      }
      return Pass;
    }

    /** Requires the opening sequence now and returns the guard that requires the
        closing one when the block it opens is left normally. */
    method BeginMatch(start: seq<int>, end: seq<int>) returns (r: Result<EndRequirement>)
      requires Valid()
      modifies this
      ensures Valid() && CaseSensitive == old(CaseSensitive)
      ensures r.Ok? <==> old(Index) + |start| < |Regex| && Regex[old(Index) + 1..old(Index) + 1 + |start|] == start
      ensures r.Ok? ==> Index == old(Index) + |start|
      ensures r.Ok? ==> fresh(r.value) && r.value.Ending == end && r.value.State == this && !r.value.disposed
      ensures r.Err? ==> var k := MatchedFrom(Regex, old(Index), start, 0);
                && k < |start|
                && Index == (if old(Index) + k + 1 < |Regex| then old(Index) + k + 1 else |Regex| - 1)
                && r.error == RegexParseException(ExpectedCharacter(start[k]), Index, Regex)
    {
      var o := RequireAll(start);
      if o.Fail? {
        return Err(o.error);
      }
      var guard := new EndRequirement(end, this);
      return Ok(guard);
    }
  }

  /** The saved index and case-sensitivity flag of a cursor. */
  class Snapshot {
    const State: RegexParseState
    const Index: int
    const CaseSensitive: bool

    constructor(state: RegexParseState)
      ensures State == state && Index == state.Index && CaseSensitive == state.CaseSensitive
    {
      State := state;
      Index := state.Index;
      CaseSensitive := state.CaseSensitive;
    }

    /** Puts back exactly the saved index and flag; the pattern is a constant. */
    method Restore()
      modifies State
      ensures State.Index == Index && State.CaseSensitive == CaseSensitive
    {
      State.Index := Index;
      State.CaseSensitive := CaseSensitive;
    }
  }

  /** The guard BeginMatch returns: disposing of it requires the closing sequence,
      once, and only when no exception is on its way out of the block. */
  class EndRequirement {
    const Ending: seq<int>
    const State: RegexParseState
    var disposed: bool

    constructor(ending: seq<int>, state: RegexParseState)
      ensures Ending == ending && State == state && !disposed
    {
      Ending := ending;
      State := state;
      disposed := false;
    }

    /** Leaving the block: `exceptionInFlight` says whether it is left by an exception. */
    method Dispose(exceptionInFlight: bool) returns (o: Outcome)
      requires State.Valid()
      modifies this, State
      ensures State.Valid() && State.CaseSensitive == old(State.CaseSensitive)
      ensures old(disposed) || exceptionInFlight ==> o == Pass && disposed == old(disposed) && State.Index == old(State.Index)
      ensures !old(disposed) && !exceptionInFlight ==> disposed
      ensures !old(disposed) && !exceptionInFlight ==>
                (o.Pass? <==> old(State.Index) + |Ending| < |State.Regex|
                              && State.Regex[old(State.Index) + 1..old(State.Index) + 1 + |Ending|] == Ending)
      ensures !old(disposed) && !exceptionInFlight && o.Pass? ==> State.Index == old(State.Index) + |Ending|
      ensures !old(disposed) && !exceptionInFlight && o.Fail? ==>
                var k := MatchedFrom(State.Regex, old(State.Index), Ending, 0);
                && k < |Ending|
                && State.Index == (if old(State.Index) + k + 1 < |State.Regex| then old(State.Index) + k + 1 else |State.Regex| - 1)
                && o.error == RegexParseException(ExpectedCharacter(Ending[k]), State.Index, State.Regex)
    {
      if !disposed && !exceptionInFlight {
        disposed := true;
        o := State.RequireAll(Ending);
      } else {
        o := Pass;
      }
    }
  }
}
