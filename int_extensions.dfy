/** Classification of code points used by the digit readers and the escape parser. */
module IntExtensions {

  /** '0' to '7'. */
  predicate IsOctalDigit(c: int) {
    '0' as int <= c <= '7' as int
  }

  /** '0' to '9'. */
  predicate IsAsciiDigit(c: int) {
    '0' as int <= c <= '9' as int
  }

  /** '0' to '9', 'a' to 'f' or 'A' to 'F'. */
  predicate IsHexDigit(c: int) {
    || ('0' as int <= c <= '9' as int)
    || ('a' as int <= c <= 'f' as int)
    || ('A' as int <= c <= 'F' as int)
  }

  /** A Unicode scalar value: at most 0x10FFFF and not a surrogate. */
  predicate IsScalarValue(v: int) {
    0 <= v <= 0x10FFFF && !(0xD800 <= v <= 0xDFFF)
  }

  /** The code points of a Dafny string literal. */
  function CodePoints(s: string): (r: seq<int>)
    ensures |r| == |s|
    ensures forall i :: 0 <= i < |s| ==> r[i] == s[i] as int
  {
    seq(|s|, i requires 0 <= i < |s| => s[i] as int)
  }

  /** The three digit classes are exactly the characters of the digit strings
      the source tests against, and they nest: octal within decimal within hex. */
  lemma DigitClasses(c: int)
    ensures IsOctalDigit(c) <==> c in CodePoints("01234567")
    ensures IsAsciiDigit(c) <==> c in CodePoints("0123456789")
    ensures IsHexDigit(c) <==> c in CodePoints("0123456789") || c in CodePoints("abcdef") || c in CodePoints("ABCDEF")
    ensures IsOctalDigit(c) ==> IsAsciiDigit(c)
    ensures IsAsciiDigit(c) ==> IsHexDigit(c)
  {
    var octal, decimal := CodePoints("01234567"), CodePoints("0123456789");
    var lower, upper := CodePoints("abcdef"), CodePoints("ABCDEF");
    if IsOctalDigit(c) {
      assert octal[c - '0' as int] == c;
    }
    if IsAsciiDigit(c) {
      assert decimal[c - '0' as int] == c;
    } else if 'a' as int <= c <= 'f' as int {
      assert lower[c - 'a' as int] == c;
    } else if 'A' as int <= c <= 'F' as int {
      assert upper[c - 'A' as int] == c;
    }
  }
}
