/** Decoding of a UTF-16 string into Unicode scalar values (section 2.2 of
    RFC 2781), as the pattern is decoded before it is parsed. */
module StringExtensions {
  import opened Errors
  import opened IntExtensions

  /** A UTF-16 code unit. */
  type CodeUnit = u: int | 0 <= u <= 0xFFFF

  predicate IsHighSurrogate(u: int) { 0xD800 <= u <= 0xDBFF }

  predicate IsLowSurrogate(u: int) { 0xDC00 <= u <= 0xDFFF }

  /** The scalar value a high and a low surrogate stand for together. */
  function CombineSurrogates(hi: int, lo: int): (v: int)
    requires IsHighSurrogate(hi) && IsLowSurrogate(lo)
    ensures 0x10000 <= v <= 0x10FFFF
  {
    0x10000 + (hi - 0xD800) * 0x400 + (lo - 0xDC00)
  }

  /** The reference decoder: the code points of `units`, whose first unit sits
      at `offset` in the whole string; a lone surrogate is reported at its index. */
  function Decode(units: seq<CodeUnit>, offset: nat): (r: Result<seq<int>>)
    ensures r.Ok? ==> |r.value| <= |units|
    ensures r.Ok? ==> forall k :: 0 <= k < |r.value| ==> IsScalarValue(r.value[k])
    ensures r.Err? ==> r.error.InvalidSurrogate? && offset <= r.error.unitIndex < offset + |units|
    decreases |units|
  {
    if units == [] then Ok([])
    else if IsHighSurrogate(units[0]) then
      if |units| >= 2 && IsLowSurrogate(units[1]) then
        var rest :- Decode(units[2..], offset + 2);
        Ok([CombineSurrogates(units[0], units[1])] + rest)
      else Err(InvalidSurrogate(offset))
    else if IsLowSurrogate(units[0]) then Err(InvalidSurrogate(offset))
    else
      var rest :- Decode(units[1..], offset + 1);
      Ok([units[0] as int] + rest)
  }

  /** What char.ConvertToUtf32 reads at index i: the unit itself, the scalar of a
      surrogate pair starting there, or an error for a lone surrogate. */
  function ConvertToUtf32(s: seq<CodeUnit>, i: nat): (r: Result<int>)
    requires i < |s|
    ensures r.Ok? ==> IsScalarValue(r.value)
    ensures r.Err? <==> Decode(s[i..], i).Err? && Decode(s[i..], i).error.unitIndex == i
  {
    assert s[i..][0] == s[i];
    if IsHighSurrogate(s[i]) then
      if i + 1 < |s| && IsLowSurrogate(s[i + 1]) then
        assert s[i..][1] == s[i + 1];
        assert s[i..][2..] == s[i + 2..];
        Ok(CombineSurrogates(s[i], s[i + 1]))
      else Err(InvalidSurrogate(i))
    else if IsLowSurrogate(s[i]) then Err(InvalidSurrogate(i))
    else
      assert s[i..][1..] == s[i + 1..];
      Ok(s[i])
  }

  /** Decodes a UTF-16 string into code points, unit by unit; a unit that starts
      a surrogate pair is consumed together with its partner. */
  method ToCodePoints(str: seq<CodeUnit>) returns (r: Result<seq<int>>)
    ensures r == Decode(str, 0)
  {
    if |str| == 0 {
      return Ok([]);
    }
    var chars: seq<int> := [];
    var i := 0;
    assert str[0..] == str;
    PrependNothing(Decode(str, 0));
    while i < |str|
      invariant 0 <= i <= |str|
      invariant Decode(str, 0) == Prepend(chars, Decode(str[i..], i))
    {
      var c :- ConvertToUtf32(str, i);
      var width := if IsHighSurrogate(str[i]) then 2 else 1;
      DecodeStep(str, i);
      PrependTwice(chars, [c], Decode(str[i + width..], i + width));
      chars := chars + [c];
      i := i + width;
    }
    assert str[i..] == [] && chars + [] == chars;
    return Ok(chars);
  }

  /** One step of the decoder: the code point read at index i, then the rest. */
  lemma DecodeStep(s: seq<CodeUnit>, i: nat)
    requires i < |s| && ConvertToUtf32(s, i).Ok?
    ensures var width := if IsHighSurrogate(s[i]) then 2 else 1;
      i + width <= |s| &&
      Decode(s[i..], i) == Prepend([ConvertToUtf32(s, i).value], Decode(s[i + width..], i + width))
  {
    assert s[i..][0] == s[i];
    if IsHighSurrogate(s[i]) {
      assert s[i..][1] == s[i + 1];
      assert s[i..][2..] == s[i + 2..];
    } else {
      assert s[i..][1..] == s[i + 1..];
    }
  }

  /** A decoding result with `prefix` put in front of its code points. */
  function Prepend(prefix: seq<int>, r: Result<seq<int>>): Result<seq<int>> {
    match r
    case Ok(rest) => Ok(prefix + rest)
    case Err(e) => Err(e)
  }

  lemma PrependNothing(r: Result<seq<int>>)
    ensures Prepend([], r) == r
  {
    if r.Ok? {
      assert [] + r.value == r.value;
    }
  }

  lemma PrependTwice(a: seq<int>, b: seq<int>, r: Result<seq<int>>)
    ensures Prepend(a, Prepend(b, r)) == Prepend(a + b, r)
  {
    if r.Ok? {
      assert a + (b + r.value) == (a + b) + r.value;
    }
  }

  /** The UTF-16 encoding of one scalar value (the inverse direction of section 2.2 of RFC 2781). */
  function EncodeScalar(v: int): (units: seq<CodeUnit>)
    requires IsScalarValue(v)
    ensures 1 <= |units| <= 2
  {
    if v < 0x10000 then [v]
    else [0xD800 + (v - 0x10000) / 0x400, 0xDC00 + (v - 0x10000) % 0x400]
  }

  /** The UTF-16 encoding of a sequence of scalar values. */
  function Encode(cps: seq<int>): seq<CodeUnit>
    requires forall k :: 0 <= k < |cps| ==> IsScalarValue(cps[k])
  {
    if cps == [] then [] else EncodeScalar(cps[0]) + Encode(cps[1..])
  }

  /** Decoding undoes encoding: every sequence of scalar values survives the round trip. */
  lemma {:induction false} DecodeEncode(cps: seq<int>, offset: nat)
    requires forall k :: 0 <= k < |cps| ==> IsScalarValue(cps[k])
    ensures Decode(Encode(cps), offset) == Ok(cps)
  {
    if cps != [] {
      var v, units := cps[0], Encode(cps);
      var head := EncodeScalar(v);
      DecodeEncode(cps[1..], offset + |head|);
      assert units[|head|..] == Encode(cps[1..]);
      assert units[0] == head[0];
      if v >= 0x10000 {
        var w := v - 0x10000;
        assert w == (w / 0x400) * 0x400 + w % 0x400;
        assert w / 0x400 < 0x400;
        assert units[1] == head[1];
        assert IsHighSurrogate(units[0]) && IsLowSurrogate(units[1]);
        assert CombineSurrogates(head[0], head[1]) == v;
        assert units[2..] == Encode(cps[1..]);
        assert Decode(units, offset) == Ok([v] + cps[1..]);
      } else {
        assert !IsHighSurrogate(units[0]) && !IsLowSurrogate(units[0]);
        assert units[1..] == Encode(cps[1..]);
        assert Decode(units, offset) == Ok([v] + cps[1..]);
      }
      assert cps == [v] + cps[1..];
    }
  }

  /** Encoding undoes decoding: a string that decodes is the encoding of its code points. */
  lemma {:induction false} EncodeDecode(units: seq<CodeUnit>, offset: nat)
    requires Decode(units, offset).Ok?
    ensures Encode(Decode(units, offset).value) == units
  {
    if units != [] {
      var cps := Decode(units, offset).value;
      if IsHighSurrogate(units[0]) {
        EncodeDecode(units[2..], offset + 2);
        assert cps[1..] == Decode(units[2..], offset + 2).value;
        assert units == units[..2] + units[2..];
      } else {
        EncodeDecode(units[1..], offset + 1);
        assert cps[1..] == Decode(units[1..], offset + 1).value;
        assert units == [units[0]] + units[1..];
      }
    }
  }

  /** A string without surrogates decodes to its own code units, one to one. */
  lemma {:induction false} NonSurrogatesDecodeToThemselves(units: seq<CodeUnit>, offset: nat)
    requires forall k :: 0 <= k < |units| ==> !IsHighSurrogate(units[k]) && !IsLowSurrogate(units[k])
    ensures Decode(units, offset) == Ok(units)
  {
    if units != [] {
      NonSurrogatesDecodeToThemselves(units[1..], offset + 1);
      assert units == [units[0]] + units[1..];
    }
  }
}
