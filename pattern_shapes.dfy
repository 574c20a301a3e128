/** What the parser makes of a few small patterns, worked out from the
    shapes the reference parse gives them. */
module PatternShapes {
  import opened Errors
  import opened IntExtensions
  import opened ParseState
  import opened Regex
  import opened RegexNodes

  /** `a*`: one character repeated any number of times. */
  lemma StarShape(cs: bool, isLetterOrDigit: int -> bool)
    ensures PatternShape(['a' as int, '*' as int], -1, cs, isLetterOrDigit)
              == Some(SequenceShape([RepeatShape(CharShape('a' as int, cs), 0, MaxInt)]))
  {
    var s := ['a' as int, '*' as int];
    var a := [CharShape('a' as int, cs)];
    var star := [RepeatShape(CharShape('a' as int, cs), 0, MaxInt)];
    PlainItem(s, 0, [], cs, isLetterOrDigit);
    assert [] + [CharShape(s[0], cs)] == a;
    ItemsFromStep(s, -1, [], {'|' as int}, cs, isLetterOrDigit, a, 0);
    assert PostfixResult(a, '*' as int) == Some([] + star);
    assert [] + star == star;
    assert ItemResult(s, 1, a, cs, isLetterOrDigit) == Some((star, 1));
    ItemsFromStep(s, 0, a, {'|' as int}, cs, isLetterOrDigit, star, 1);
    ItemsFromStop(s, 1, star, {'|' as int}, cs, isLetterOrDigit);
    AlternativesFromNext(s, -1, [], cs, isLetterOrDigit);
  }

  /** `ab*`: the star takes the last character only. */
  lemma TrailingStarShape(cs: bool, isLetterOrDigit: int -> bool)
    ensures PatternShape(['a' as int, 'b' as int, '*' as int], -1, cs, isLetterOrDigit)
              == Some(SequenceShape([CharShape('a' as int, cs), RepeatShape(CharShape('b' as int, cs), 0, MaxInt)]))
  {
    var s := ['a' as int, 'b' as int, '*' as int];
    var a := [CharShape('a' as int, cs)];
    var ab := a + [CharShape('b' as int, cs)];
    var star := a + [RepeatShape(CharShape('b' as int, cs), 0, MaxInt)];
    PlainItem(s, 0, [], cs, isLetterOrDigit);
    assert [] + [CharShape(s[0], cs)] == a;
    ItemsFromStep(s, -1, [], {'|' as int}, cs, isLetterOrDigit, a, 0);
    PlainItem(s, 1, a, cs, isLetterOrDigit);
    assert a + [CharShape(s[1], cs)] == ab;
    ItemsFromStep(s, 0, a, {'|' as int}, cs, isLetterOrDigit, ab, 1);
    assert PostfixResult(ab, '*' as int) == Some(ab[..1] + [RepeatShape(CharShape('b' as int, cs), 0, MaxInt)]);
    assert ab[..1] == a;
    assert ItemResult(s, 2, ab, cs, isLetterOrDigit) == Some((star, 2));
    ItemsFromStep(s, 1, ab, {'|' as int}, cs, isLetterOrDigit, star, 2);
    ItemsFromStop(s, 2, star, {'|' as int}, cs, isLetterOrDigit);
    AlternativesFromNext(s, -1, [], cs, isLetterOrDigit);
    assert [] + [SequenceShape(star)] == [SequenceShape(star)];
    assert ItemsFrom(s, -1, [], {'|' as int}, cs, isLetterOrDigit) == Some((star, 2));
    assert AlternativesFrom(s, -1, [], cs, isLetterOrDigit) == Some([SequenceShape(star)]);
    assert star == [CharShape('a' as int, cs), RepeatShape(CharShape('b' as int, cs), 0, MaxInt)];
  }

  /** `a|b`: two alternatives of one character each, in order. */
  lemma ChoiceShape(cs: bool, isLetterOrDigit: int -> bool)
    ensures PatternShape(['a' as int, '|' as int, 'b' as int], -1, cs, isLetterOrDigit)
              == Some(AlternatesShape([SequenceShape([CharShape('a' as int, cs)]), SequenceShape([CharShape('b' as int, cs)])]))
  {
    var s := ['a' as int, '|' as int, 'b' as int];
    var a := [CharShape('a' as int, cs)];
    var b := [CharShape('b' as int, cs)];
    PlainItem(s, 0, [], cs, isLetterOrDigit);
    assert [] + [CharShape(s[0], cs)] == a;
    ItemsFromStep(s, -1, [], {'|' as int}, cs, isLetterOrDigit, a, 0);
    ItemsFromStop(s, 0, a, {'|' as int}, cs, isLetterOrDigit);
    AlternativesFromNext(s, -1, [], cs, isLetterOrDigit);
    assert [] + [SequenceShape(a)] == [SequenceShape(a)];
    PlainItem(s, 2, [], cs, isLetterOrDigit);
    assert [] + [CharShape(s[2], cs)] == b;
    ItemsFromStep(s, 1, [], {'|' as int}, cs, isLetterOrDigit, b, 2);
    ItemsFromStop(s, 2, b, {'|' as int}, cs, isLetterOrDigit);
    AlternativesFromNext(s, 1, [SequenceShape(a)], cs, isLetterOrDigit);
    assert ItemsFrom(s, -1, [], {'|' as int}, cs, isLetterOrDigit) == Some((a, 0));
    assert ItemsFrom(s, 1, [], {'|' as int}, cs, isLetterOrDigit) == Some((b, 2));
    assert [SequenceShape(a)] + [SequenceShape(b)] == [SequenceShape(a), SequenceShape(b)];
    assert AlternativesFrom(s, -1, [], cs, isLetterOrDigit) == Some([SequenceShape(a), SequenceShape(b)]);
  }

  /** Plain code points from after the cursor j up to the end make one more
      sequence, one character per code point, and end the alternatives. */
  lemma PlainLastAlternative(s: seq<int>, j: int, alternatives: seq<Shape>, cs: bool, isLetterOrDigit: int -> bool)
    requires -1 <= j < |s|
    requires forall k :: j < k < |s| ==> !IsSpecial(s[k]) && s[k] != '|' as int
    ensures AlternativesFrom(s, j, alternatives, cs, isLetterOrDigit)
              == Some(alternatives + [SequenceShape(CharShapes(s[j + 1..], cs))])
  {
    PlainItems(s, j, |s|, [], {'|' as int}, cs, isLetterOrDigit);
    assert [] + CharShapes(s[j + 1..|s|], cs) == CharShapes(s[j + 1..], cs);
    AlternativesFromNext(s, j, alternatives, cs, isLetterOrDigit);
  }

  /** Plain code points up to a `|` at e make the first sequence, and the
      alternatives go on after the `|`. */
  lemma PlainFirstAlternative(s: seq<int>, e: int, cs: bool, isLetterOrDigit: int -> bool)
    requires 0 <= e < |s| && s[e] == '|' as int
    requires forall k :: 0 <= k < e ==> !IsSpecial(s[k]) && s[k] != '|' as int
    ensures AlternativesFrom(s, -1, [], cs, isLetterOrDigit)
              == AlternativesFrom(s, e, [SequenceShape(CharShapes(s[..e], cs))], cs, isLetterOrDigit)
  {
    var first := CharShapes(s[..e], cs);
    assert ItemsFrom(s, -1, [], {'|' as int}, cs, isLetterOrDigit) == Some((first, e - 1)) by {
      PlainItems(s, -1, e, [], {'|' as int}, cs, isLetterOrDigit);
      assert [] + CharShapes(s[0..e], cs) == first;
    }
    assert [] + [SequenceShape(first)] == [SequenceShape(first)];
    assert AlternativesFrom(s, -1, [], cs, isLetterOrDigit)
             == AlternativesFrom(s, e, [] + [SequenceShape(first)], cs, isLetterOrDigit) by {
      AlternativesFromNext(s, -1, [], cs, isLetterOrDigit);
    }
  }

  /** Two runs of plain code points around one `|`, each possibly empty: two
      alternatives in source order, each one character per code point. */
  lemma TwoPlainAlternatives(x: seq<int>, y: seq<int>, cs: bool, isLetterOrDigit: int -> bool)
    requires forall k :: 0 <= k < |x| ==> !IsSpecial(x[k]) && x[k] != '|' as int
    requires forall k :: 0 <= k < |y| ==> !IsSpecial(y[k]) && y[k] != '|' as int
    ensures PatternShape(x + ['|' as int] + y, -1, cs, isLetterOrDigit)
              == Some(AlternatesShape([SequenceShape(CharShapes(x, cs)), SequenceShape(CharShapes(y, cs))]))
  {
    var s := x + ['|' as int] + y;
    var a, b := SequenceShape(CharShapes(x, cs)), SequenceShape(CharShapes(y, cs));
    assert s[..|x|] == x && s[|x| + 1..] == y;
    PlainFirstAlternative(s, |x|, cs, isLetterOrDigit);
    PlainLastAlternative(s, |x|, [a], cs, isLetterOrDigit);
    assert [a] + [b] == [a, b];
  }

  /** `a{2,3}`: one character repeated two or three times. */
  lemma BoundsShape(cs: bool, isLetterOrDigit: int -> bool)
    ensures PatternShape(['a' as int, '{' as int, '2' as int, ',' as int, '3' as int, '}' as int], -1, cs, isLetterOrDigit)
              == Some(SequenceShape([RepeatShape(CharShape('a' as int, cs), 2, 3)]))
  {
    var s := ['a' as int, '{' as int, '2' as int, ',' as int, '3' as int, '}' as int];
    var a := [CharShape('a' as int, cs)];
    var bounded := [RepeatShape(CharShape('a' as int, cs), 2, 3)];
    PlainItem(s, 0, [], cs, isLetterOrDigit);
    assert [] + [CharShape(s[0], cs)] == a;
    ItemsFromStep(s, -1, [], {'|' as int}, cs, isLetterOrDigit, a, 0);
    assert DigitsEnd(s, 2, IsAsciiDigit) == 3 && DigitsEnd(s, 4, IsAsciiDigit) == 5;
    assert Positional(s[2..3], 10, DigitOffset) == 2 && Positional(s[4..5], 10, DigitOffset) == 3;
    assert Bounds(s, 1) == Some((2, 3, 5));
    assert BoundsResult(s, 1, a) == Some(([] + bounded, 5));
    assert [] + bounded == bounded;
    assert ItemResult(s, 1, a, cs, isLetterOrDigit) == Some((bounded, 5));
    ItemsFromStep(s, 0, a, {'|' as int}, cs, isLetterOrDigit, bounded, 5);
    ItemsFromStop(s, 5, bounded, {'|' as int}, cs, isLetterOrDigit);
    AlternativesFromNext(s, -1, [], cs, isLetterOrDigit);
  }

  /** `a\n`: a character, then the line feed the escape stands for. */
  lemma EscapeShape(cs: bool, isLetterOrDigit: int -> bool)
    requires ClassifiesAscii(isLetterOrDigit)
    ensures PatternShape(['a' as int, '\\' as int, 'n' as int], -1, cs, isLetterOrDigit)
              == Some(SequenceShape([CharShape('a' as int, cs), CharShape(0x0A, cs)]))
  {
    var s := ['a' as int, '\\' as int, 'n' as int];
    var a := [CharShape('a' as int, cs)];
    var an := a + [CharShape(0x0A, cs)];
    PlainItem(s, 0, [], cs, isLetterOrDigit);
    assert [] + [CharShape(s[0], cs)] == a;
    ItemsFromStep(s, -1, [], {'|' as int}, cs, isLetterOrDigit, a, 0);
    assert isLetterOrDigit('n' as int);
    assert BackslashResult(s, 1, false, cs, isLetterOrDigit) == Some((Char(0x0A, cs), 2));
    assert Erase(Char(0x0A, cs)) == CharShape(0x0A, cs);
    assert ItemResult(s, 1, a, cs, isLetterOrDigit) == Some((an, 2));
    ItemsFromStep(s, 0, a, {'|' as int}, cs, isLetterOrDigit, an, 2);
    ItemsFromStop(s, 2, an, {'|' as int}, cs, isLetterOrDigit);
    AlternativesFromNext(s, -1, [], cs, isLetterOrDigit);
    assert [] + [SequenceShape(an)] == [SequenceShape(an)];
    assert ItemsFrom(s, -1, [], {'|' as int}, cs, isLetterOrDigit) == Some((an, 2));
    assert AlternativesFrom(s, -1, [], cs, isLetterOrDigit) == Some([SequenceShape(an)]);
    assert an == [CharShape('a' as int, cs), CharShape(0x0A, cs)];
  }
}
