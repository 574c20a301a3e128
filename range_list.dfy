/** An ordered set of integers kept as a list of closed ranges that are sorted,
    disjoint and never adjacent, with binary-search lookup and merging insertion. */
module Containers {

  /** A closed range (start, end). */
  type Range = (int, int)

  /** The integers from lo to hi inclusive; there are hi - lo + 1 of them. */
  function Span(lo: int, hi: int): (s: set<int>)
    ensures forall x :: x in s <==> lo <= x <= hi
    decreases hi - lo
  {
    if hi < lo then {} else Span(lo, hi - 1) + {hi}
  }

  lemma {:induction false} SpanSize(lo: int, hi: int)
    requires lo <= hi + 1
    ensures |Span(lo, hi)| == hi - lo + 1
    decreases hi - lo
  {
    if lo <= hi {
      SpanSize(lo, hi - 1);
    }
  }

  /** The integers covered by a list of ranges. */
  function Covered(rs: seq<Range>): set<int>
    decreases |rs|
  {
    if rs == [] then {} else Span(rs[0].0, rs[0].1) + Covered(rs[1..])
  }

  /** The invariant of the list: every range is non-empty and each one ends at
      least two below the start of the next (sorted, disjoint, non-adjacent). */
  predicate ValidRanges(rs: seq<Range>)
    decreases |rs|
  {
    rs == [] || (rs[0].0 <= rs[0].1 && (|rs| == 1 || rs[0].1 + 1 < rs[1].0) && ValidRanges(rs[1..]))
  }

  /** The same invariant stated over all pairs: any two ranges, in list order, are
      separated by at least one uncovered integer. */
  predicate Separated(rs: seq<Range>) {
    && (forall i :: 0 <= i < |rs| ==> rs[i].0 <= rs[i].1)
    && (forall i, j :: 0 <= i < j < |rs| ==> rs[i].1 + 1 < rs[j].0)
  }

  /** Checking neighbours is enough: the invariant holds for every pair. */
  lemma {:induction false} ValidIffSeparated(rs: seq<Range>)
    ensures ValidRanges(rs) <==> Separated(rs)
    decreases |rs|
  {
    if rs != [] {
      var tail := rs[1..];
      ValidIffSeparated(tail);
      assert forall k :: 0 <= k < |tail| ==> tail[k] == rs[k + 1];
      if ValidRanges(rs) {
        forall i, j | 0 <= i < j < |rs|
          ensures rs[i].1 + 1 < rs[j].0
        {
          if i == 0 && j > 1 {
            assert tail[0].1 + 1 < tail[j - 1].0;
          } else if i > 0 {
            assert tail[i - 1].1 + 1 < tail[j - 1].0;
          }
        }
      }
      if Separated(rs) {
        assert Separated(tail);
      }
    }
  }

  /** The last range of a valid list is non-empty and apart from the one before it. */
  lemma ValidLast(rs: seq<Range>)
    requires ValidRanges(rs) && rs != []
    ensures rs[|rs| - 1].0 <= rs[|rs| - 1].1
    ensures |rs| > 1 ==> rs[|rs| - 2].1 + 1 < rs[|rs| - 1].0
  {
    ValidIffSeparated(rs);
  }

  /** A slice of a valid list is valid. */
  lemma ValidSlice(rs: seq<Range>, lo: int, hi: int)
    requires ValidRanges(rs) && 0 <= lo <= hi <= |rs|
    ensures ValidRanges(rs[lo..hi])
  {
    ValidIffSeparated(rs);
    ValidIffSeparated(rs[lo..hi]);
  }

  /** The number of integers a range spans, as the source computes it. */
  function Length(r: Range): int {
    r.1 - r.0 + 1
  }

  /** The left fold that sums the range lengths. */
  function TotalLength(rs: seq<Range>): int
    decreases |rs|
  {
    if rs == [] then 0 else TotalLength(rs[..|rs| - 1]) + Length(rs[|rs| - 1])
  }

  /** The bitwise complement of a two's-complement integer. */
  function Complement(x: int): int {
    -x - 1
  }

  /** What the indexer yields. */
  datatype Lookup = Found(value: int) | IndexOutOfRange

  /** The walk the indexer makes: skip whole ranges while i is past them. */
  function ItemOf(rs: seq<Range>, i: int): Lookup
    decreases |rs|
  {
    if rs == [] then IndexOutOfRange
    else if i < Length(rs[0]) then Found(rs[0].0 + i)
    else ItemOf(rs[1..], i - Length(rs[0]))
  }

  /** The position of a covered integer in ascending order: the inverse of ItemOf. */
  function Rank(rs: seq<Range>, x: int): int
    requires x in Covered(rs)
    decreases |rs|
  {
    if rs[0].0 <= x <= rs[0].1 then x - rs[0].0 else Length(rs[0]) + Rank(rs[1..], x)
  }

  // ---------------------------------------------------------------------------
  // Facts about Covered

  lemma {:induction false} CoveredAppend(a: seq<Range>, b: seq<Range>)
    ensures Covered(a + b) == Covered(a) + Covered(b)
    decreases |a|
  {
    if a == [] {
      assert a + b == b;
    } else {
      CoveredAppend(a[1..], b);
      assert (a + b)[0] == a[0];
      assert (a + b)[1..] == a[1..] + b;
      calc {
        Covered(a + b);
        Span(a[0].0, a[0].1) + Covered(a[1..] + b);
        Span(a[0].0, a[0].1) + (Covered(a[1..]) + Covered(b));
        Covered(a) + Covered(b);
      }
    }
  }

  lemma {:induction false} CoveredMember(rs: seq<Range>, x: int)
    ensures x in Covered(rs) <==> exists k :: 0 <= k < |rs| && rs[k].0 <= x <= rs[k].1
    decreases |rs|
  {
    if rs != [] {
      CoveredMember(rs[1..], x);
      if x in Covered(rs[1..]) {
        var k :| 0 <= k < |rs[1..]| && rs[1..][k].0 <= x <= rs[1..][k].1;
        assert rs[k + 1] == rs[1..][k];
      }
      if exists k :: 0 <= k < |rs| && rs[k].0 <= x <= rs[k].1 {
        var k :| 0 <= k < |rs| && rs[k].0 <= x <= rs[k].1;
        if k > 0 {
          assert rs[1..][k - 1] == rs[k];
        }
      }
    }
  }

  /** Covered of a list in which the slice [lo, hi) is replaced by one range. */
  lemma SpliceCovered(rs: seq<Range>, lo: int, hi: int, r: Range)
    requires 0 <= lo <= hi <= |rs|
    ensures Covered(rs[..lo] + [r] + rs[hi..]) == Covered(rs[..lo]) + Span(r.0, r.1) + Covered(rs[hi..])
  {
    CoveredAppend(rs[..lo] + [r], rs[hi..]);
    CoveredAppend(rs[..lo], [r]);
    assert Covered([r]) == Span(r.0, r.1) + Covered([]);
  }

  /** Covered of a list cut into three slices. */
  lemma CoveredThirds(rs: seq<Range>, lo: int, hi: int)
    requires 0 <= lo <= hi <= |rs|
    ensures Covered(rs) == Covered(rs[..lo]) + Covered(rs[lo..hi]) + Covered(rs[hi..])
  {
    var a, b, c := rs[..lo], rs[lo..hi], rs[hi..];
    SliceThirds(rs, lo, hi);
    calc {
      Covered(rs);
      Covered((a + b) + c);
      { CoveredAppend(a + b, c); }
      Covered(a + b) + Covered(c);
      { CoveredAppend(a, b); }
      Covered(a) + Covered(b) + Covered(c);
    }
  }

  /** A list is the concatenation of its three slices. */
  lemma SliceThirds(rs: seq<Range>, lo: int, hi: int)
    requires 0 <= lo <= hi <= |rs|
    ensures rs == (rs[..lo] + rs[lo..hi]) + rs[hi..]
  {
  }

  /** Replacing the slice [lo, hi) of a valid list by one range that keeps its
      distance from both neighbours yields a valid list. */
  lemma SpliceValid(rs: seq<Range>, lo: int, hi: int, r: Range)
    requires ValidRanges(rs) && 0 <= lo <= hi <= |rs| && r.0 <= r.1
    requires lo > 0 ==> rs[lo - 1].1 + 1 < r.0
    requires hi < |rs| ==> r.1 + 1 < rs[hi].0
    ensures ValidRanges(rs[..lo] + [r] + rs[hi..])
  {
    ValidIffSeparated(rs);
    SpliceSeparated(rs, lo, hi, r);
    ValidIffSeparated(rs[..lo] + [r] + rs[hi..]);
  }

  lemma SpliceSeparated(rs: seq<Range>, lo: int, hi: int, r: Range)
    requires Separated(rs) && 0 <= lo <= hi <= |rs| && r.0 <= r.1
    requires lo > 0 ==> rs[lo - 1].1 + 1 < r.0
    requires hi < |rs| ==> r.1 + 1 < rs[hi].0
    ensures Separated(rs[..lo] + [r] + rs[hi..])
  {
    SeparatedSlice(rs, 0, lo);
    SeparatedSlice(rs, hi, |rs|);
    assert rs[0..lo] == rs[..lo] && rs[hi..|rs|] == rs[hi..];
    SeparatedConcat(rs[..lo], [r]);
    var front := rs[..lo] + [r];
    assert front[|front| - 1] == r;
    SeparatedConcat(front, rs[hi..]);
  }

  lemma SeparatedSlice(rs: seq<Range>, i: int, j: int)
    requires Separated(rs) && 0 <= i <= j <= |rs|
    ensures Separated(rs[i..j])
  {
    var t := rs[i..j];
    assert forall k :: 0 <= k < |t| ==> t[k] == rs[i + k];
  }

  /** Two separated lists stay separated side by side when the last range of the
      first ends well before the first range of the second. */
  lemma SeparatedConcat(a: seq<Range>, b: seq<Range>)
    requires Separated(a) && Separated(b)
    requires |a| > 0 && |b| > 0 ==> a[|a| - 1].1 + 1 < b[0].0
    ensures Separated(a + b)
  {
    var t := a + b;
    forall i, j | 0 <= i < j < |t|
      ensures t[i].1 + 1 < t[j].0
    {
      if j < |a| {
        assert t[i] == a[i] && t[j] == a[j];
      } else if i >= |a| {
        assert t[i] == b[i - |a|] && t[j] == b[j - |a|];
      } else {
        assert t[i] == a[i] && t[j] == b[j - |a|];
        assert a[i].1 <= a[|a| - 1].1;
        assert b[0].0 <= b[j - |a|].0;
      }
    }
  }

  /** The ranges rs[s..e) together with [lo, hi] fill the merged range r exactly,
      when r starts at rs[s] or at lo and ends at rs[e - 1] or at hi, and lo and hi
      reach (or touch) rs[s] and rs[e - 1] whenever r extends past them. */
  lemma MergeFills(rs: seq<Range>, s: int, e: int, lo: int, hi: int, r: Range)
    requires ValidRanges(rs) && 0 <= s <= e <= |rs| && lo <= hi
    requires r.0 <= lo && hi <= r.1
    requires s < e ==> r.0 <= rs[s].0 && rs[e - 1].1 <= r.1
    requires r.0 < lo ==> s < e && r.0 == rs[s].0 && lo <= rs[s].1 + 1
    requires hi < r.1 ==> s < e && r.1 == rs[e - 1].1 && rs[e - 1].0 - 1 <= hi
    ensures Span(r.0, r.1) == Covered(rs[s..e]) + Span(lo, hi)
  {
    SliceWithin(rs, s, e, r);
    var mid := rs[s..e];
    forall x | r.0 <= x <= r.1
      ensures x in Covered(mid) + Span(lo, hi)
    {
      if x < lo {
        assert mid[0] == rs[s];
        CoveredMember(mid, x);
      } else if x > hi {
        assert mid[e - s - 1] == rs[e - 1];
        CoveredMember(mid, x);
      }
    }
  }

  /** On a valid list, the ranges rs[s..e) lie between the start of rs[s] and the
      end of rs[e - 1]. */
  lemma SliceWithin(rs: seq<Range>, s: int, e: int, r: Range)
    requires ValidRanges(rs) && 0 <= s <= e <= |rs|
    requires s < e ==> r.0 <= rs[s].0 && rs[e - 1].1 <= r.1
    ensures forall x :: x in Covered(rs[s..e]) ==> r.0 <= x <= r.1
  {
    ValidIffSeparated(rs);
    var mid := rs[s..e];
    forall x | x in Covered(mid)
      ensures r.0 <= x <= r.1
    {
      CoveredMember(mid, x);
      var k :| 0 <= k < |mid| && mid[k].0 <= x <= mid[k].1;
      assert mid[k] == rs[s + k];
      if k > 0 {
        assert rs[s].1 + 1 < rs[s + k].0;
      }
      if s + k < e - 1 {
        assert rs[s + k].1 + 1 < rs[e - 1].0;
      }
    }
  }

  /** Merging [lo, hi] into a valid list: the slice rs[s..e) that r absorbs is
      replaced by r, which keeps its distance from both neighbours. The result is
      valid and covers the old integers and [lo, hi]. */
  lemma MergeSplice(rs: seq<Range>, s: int, e: int, lo: int, hi: int, r: Range)
    requires ValidRanges(rs) && 0 <= s <= e <= |rs| && lo <= hi
    requires r.0 <= lo && hi <= r.1
    requires s < e ==> r.0 <= rs[s].0 && rs[e - 1].1 <= r.1
    requires r.0 < lo ==> s < e && r.0 == rs[s].0 && lo <= rs[s].1 + 1
    requires hi < r.1 ==> s < e && r.1 == rs[e - 1].1 && rs[e - 1].0 - 1 <= hi
    requires s > 0 ==> rs[s - 1].1 + 1 < r.0
    requires e < |rs| ==> r.1 + 1 < rs[e].0
    ensures ValidRanges(rs[..s] + [r] + rs[e..])
    ensures Covered(rs[..s] + [r] + rs[e..]) == Covered(rs) + Span(lo, hi)
  {
    SpliceValid(rs, s, e, r);
    MergeCovered(rs, s, e, lo, hi, r);
  }

  lemma MergeCovered(rs: seq<Range>, s: int, e: int, lo: int, hi: int, r: Range)
    requires ValidRanges(rs) && 0 <= s <= e <= |rs| && lo <= hi
    requires r.0 <= lo && hi <= r.1
    requires s < e ==> r.0 <= rs[s].0 && rs[e - 1].1 <= r.1
    requires r.0 < lo ==> s < e && r.0 == rs[s].0 && lo <= rs[s].1 + 1
    requires hi < r.1 ==> s < e && r.1 == rs[e - 1].1 && rs[e - 1].0 - 1 <= hi
    ensures Covered(rs[..s] + [r] + rs[e..]) == Covered(rs) + Span(lo, hi)
  {
    var before, mid, after := Covered(rs[..s]), Covered(rs[s..e]), Covered(rs[e..]);
    calc {
      Covered(rs[..s] + [r] + rs[e..]);
      { SpliceCovered(rs, s, e, r); }
      before + Span(r.0, r.1) + after;
      { MergeFills(rs, s, e, lo, hi, r); }
      before + (mid + Span(lo, hi)) + after;
      { SetUnionShuffle(before, mid, Span(lo, hi), after); }
      before + mid + after + Span(lo, hi);
      { CoveredThirds(rs, s, e); }
      Covered(rs) + Span(lo, hi);
    }
  }

  lemma SetUnionShuffle(a: set<int>, b: set<int>, c: set<int>, d: set<int>)
    ensures a + (b + c) + d == a + b + d + c
  {
  }

  /** `value` falls in the gap before rs[g]: the range in front of the gap ends
      below it and the range after the gap starts above it. */
  predicate InGap(rs: seq<Range>, g: int, value: int) {
    && 0 <= g <= |rs|
    && (0 < g ==> rs[g - 1].1 < value)
    && (g < |rs| ==> value < rs[g].0)
  }

  /** On a valid list, a gap separates `value` from every range. */
  lemma GapSeparates(rs: seq<Range>, g: int, value: int)
    requires ValidRanges(rs) && InGap(rs, g, value)
    ensures forall j :: 0 <= j < g ==> rs[j].1 < value
    ensures forall j :: g <= j < |rs| ==> value < rs[j].0
  {
    ValidIffSeparated(rs);
    forall j | 0 <= j < g
      ensures rs[j].1 < value
    {
      assert rs[j].1 <= rs[g - 1].1;
    }
    forall j | g <= j < |rs|
      ensures value < rs[j].0
    {
      assert rs[g].0 <= rs[j].0;
    }
  }

  /** A value that closes the gap between rs[g - 1] and rs[g] joins them: rs[g - 1]
      is widened to the end of rs[g], which is then removed. */
  lemma JoinNeighbours(rs: seq<Range>, g: int, value: int)
    requires ValidRanges(rs) && InGap(rs, g, value) && 0 < g < |rs|
    requires rs[g - 1].1 + 1 == value == rs[g].0 - 1
    ensures var t := rs[g - 1 := (rs[g - 1].0, rs[g].1)];
      ValidRanges(t[..g] + t[g + 1..]) && Covered(t[..g] + t[g + 1..]) == Covered(rs) + {value}
  {
    ValidIffSeparated(rs);
    UpdateThenRemove(rs, g - 1, g + 1, (rs[g - 1].0, rs[g].1));
    MergeSplice(rs, g - 1, g + 1, value, value, (rs[g - 1].0, rs[g].1));
    assert Span(value, value) == {value};
  }

  /** A value just after rs[g - 1], and not just before rs[g], extends rs[g - 1]. */
  lemma GrowLeftNeighbour(rs: seq<Range>, g: int, value: int)
    requires ValidRanges(rs) && InGap(rs, g, value) && 0 < g
    requires rs[g - 1].1 + 1 == value && (g == |rs| || rs[g].0 - 1 != value)
    ensures var t := rs[g - 1 := (rs[g - 1].0, value)];
      ValidRanges(t) && Covered(t) == Covered(rs) + {value}
  {
    ValidIffSeparated(rs);
    UpdateIsSplice(rs, g - 1, (rs[g - 1].0, value));
    MergeSplice(rs, g - 1, g, value, value, (rs[g - 1].0, value));
    assert Span(value, value) == {value};
  }

  /** A value just before rs[g], and not just after rs[g - 1], extends rs[g]. */
  lemma GrowRightNeighbour(rs: seq<Range>, g: int, value: int)
    requires ValidRanges(rs) && InGap(rs, g, value) && g < |rs|
    requires rs[g].0 - 1 == value && (g == 0 || rs[g - 1].1 + 1 != value)
    ensures var t := rs[g := (value, rs[g].1)];
      ValidRanges(t) && Covered(t) == Covered(rs) + {value}
  {
    ValidIffSeparated(rs);
    UpdateIsSplice(rs, g, (value, rs[g].1));
    MergeSplice(rs, g, g + 1, value, value, (value, rs[g].1));
    assert Span(value, value) == {value};
  }

  /** A value that touches neither neighbour becomes a range of its own, inserted
      before rs[g] (appended when g is the end of the list). */
  lemma InsertAlone(rs: seq<Range>, g: int, value: int)
    requires ValidRanges(rs) && InGap(rs, g, value)
    requires (g == |rs| || rs[g].0 - 1 != value) && (g == 0 || rs[g - 1].1 + 1 != value)
    ensures var t := rs[..g] + [(value, value)] + rs[g..];
      ValidRanges(t) && Covered(t) == Covered(rs) + {value} && (g == |rs| ==> t == rs + [(value, value)])
  {
    MergeSplice(rs, g, g, value, value, (value, value));
    assert Span(value, value) == {value};
  }

  /** An integer that closes the gap between two neighbouring ranges falls in
      the gap before the second of them. */
  lemma GapBridge(rs: seq<Range>, g: int, value: int)
    requires ValidRanges(rs) && InGap(rs, g, value)
    ensures forall k :: 0 < k < |rs| && rs[k - 1].1 + 1 == value == rs[k].0 - 1 ==> k == g
    ensures value !in Covered(rs)
  {
    ValidIffSeparated(rs);
    GapNotCovered(rs, g, value);
  }

  /** An integer held by a range of a valid list is covered and closes no gap. */
  lemma HitBridgesNothing(rs: seq<Range>, h: int, value: int)
    requires ValidRanges(rs) && 0 <= h < |rs| && rs[h].0 <= value <= rs[h].1
    ensures value in Covered(rs)
    ensures forall k :: 0 < k < |rs| ==> !(rs[k - 1].1 + 1 == value == rs[k].0 - 1)
  {
    ValidIffSeparated(rs);
    CoveredMember(rs, value);
  }

  /** An integer in a gap of the list is not covered. */
  lemma GapNotCovered(rs: seq<Range>, g: int, value: int)
    requires ValidRanges(rs) && InGap(rs, g, value)
    ensures value !in Covered(rs)
  {
    GapSeparates(rs, g, value);
    CoveredMember(rs, value);
  }

  /** What the binary search reports for `value`: r >= 0 is the index of the range
      holding it; r < 0 is the complement of the gap it falls in, the index of the
      first range that starts above it. */
  predicate Located(rs: seq<Range>, value: int, r: int) {
    && (0 <= r ==> r < |rs| && rs[r].0 <= value <= rs[r].1)
    && (r < 0 ==> InGap(rs, Complement(r), value))
  }

  /** On a valid list the search finds the one range that holds both ends of
      [lo, hi] whenever there is such a range. */
  lemma InsideMeansSameHit(rs: seq<Range>, lo: int, hi: int, a: int, b: int)
    requires ValidRanges(rs) && lo <= hi && Located(rs, lo, a) && Located(rs, hi, b)
    ensures forall k :: 0 <= k < |rs| && rs[k].0 <= lo && hi <= rs[k].1 ==> a == k && b == k
  {
    ValidIffSeparated(rs);
  }

  /** A range of the list that holds [lo, hi] leaves nothing to add. */
  lemma HitAbsorbs(rs: seq<Range>, k: int, lo: int, hi: int)
    requires 0 <= k < |rs| && rs[k].0 <= lo && hi <= rs[k].1
    ensures Covered(rs) + Span(lo, hi) == Covered(rs)
  {
    forall x | lo <= x <= hi
      ensures x in Covered(rs)
    {
      CoveredMember(rs, x);
    }
  }

  /** The left end of a merge: rs[..s] stays in front of the merged range, which
      starts at lo, either at lo0 itself or at the start of rs[s] when that range
      holds or touches lo0. */
  predicate StartEdge(rs: seq<Range>, lo0: int, s: int, lo: int) {
    && 0 <= s <= |rs| && lo <= lo0
    && (s > 0 ==> rs[s - 1].1 + 1 < lo)
    && (s < |rs| ==> lo <= rs[s].0 && lo0 <= rs[s].1 + 1)
    && (lo < lo0 ==> s < |rs| && lo == rs[s].0)
  }

  /** The right end of a merge: rs[e..] stays behind the merged range, which ends
      at hi, either at hi0 itself or at the end of rs[e - 1] when that range holds
      or touches hi0. */
  predicate EndEdge(rs: seq<Range>, hi0: int, e: int, hi: int) {
    && 0 <= e <= |rs| && hi0 <= hi
    && (e < |rs| ==> hi + 1 < rs[e].0)
    && (e > 0 ==> rs[e - 1].1 <= hi && rs[e - 1].0 - 1 <= hi0)
    && (hi0 < hi ==> 0 < e && hi == rs[e - 1].1)
  }

  /** The left edge when lo0 lies in the gap before rs[g]: the merge starts at
      rs[g - 1] if that range touches lo0, and at lo0 before rs[g] otherwise. */
  lemma StartInGap(rs: seq<Range>, lo0: int, g: int)
    requires ValidRanges(rs) && InGap(rs, g, lo0)
    ensures g > 0 && rs[g - 1].1 + 1 == lo0 ==> StartEdge(rs, lo0, g - 1, rs[g - 1].0)
    ensures !(g > 0 && rs[g - 1].1 + 1 == lo0) ==> StartEdge(rs, lo0, g, lo0)
  {
    ValidIffSeparated(rs);
  }

  /** The left edge when rs[h] holds lo0: the merge starts where rs[h] does. */
  lemma StartInRange(rs: seq<Range>, lo0: int, h: int)
    requires ValidRanges(rs) && 0 <= h < |rs| && rs[h].0 <= lo0 <= rs[h].1
    ensures StartEdge(rs, lo0, h, rs[h].0)
  {
    ValidIffSeparated(rs);
  }

  /** The right edge when hi0 lies in the gap before rs[g]: the merge ends with
      rs[g] if that range touches hi0, and at hi0 after rs[g - 1] otherwise. */
  lemma EndInGap(rs: seq<Range>, hi0: int, g: int)
    requires ValidRanges(rs) && InGap(rs, g, hi0)
    ensures g < |rs| && rs[g].0 - 1 == hi0 ==> EndEdge(rs, hi0, g + 1, rs[g].1)
    ensures !(g < |rs| && rs[g].0 - 1 == hi0) ==> EndEdge(rs, hi0, g, hi0)
  {
    ValidIffSeparated(rs);
  }

  /** The right edge when rs[h] holds hi0: the merge ends where rs[h] does. */
  lemma EndInRange(rs: seq<Range>, hi0: int, h: int)
    requires ValidRanges(rs) && 0 <= h < |rs| && rs[h].0 <= hi0 <= rs[h].1
    ensures EndEdge(rs, hi0, h + 1, rs[h].1)
  {
    ValidIffSeparated(rs);
  }

  /** Once the early exits are passed (no single range holds [lo0, hi0], and it
      does not sit alone in a gap), the two edges enclose at least one range. */
  lemma EdgesEncloseARange(rs: seq<Range>, lo0: int, hi0: int, a: int, b: int)
    requires ValidRanges(rs) && lo0 <= hi0
    requires Located(rs, lo0, a) && Located(rs, hi0, b)
    requires a == b ==> a < 0 && !IsolatedInGap(rs, Complement(a), lo0, hi0)
    ensures MergeStart(rs, lo0, a) < MergeEnd(rs, hi0, b)
  {
    ValidIffSeparated(rs);
  }

  /** The index of the first range a merge absorbs, from what the search reported
      for its low end a: the range holding it, the range before its gap when that
      one touches it, or else the range after its gap. */
  function MergeStart(rs: seq<Range>, lo0: int, a: int): int {
    if a >= 0 then a
    else
      var g := Complement(a);
      if 0 < g <= |rs| && rs[g - 1].1 + 1 == lo0 then g - 1 else g
  }

  /** The start of the merged range: that of the range holding lo0 or touching it
      from below, or lo0 itself. */
  function MergeLow(rs: seq<Range>, lo0: int, a: int): int
    requires Located(rs, lo0, a)
  {
    if a >= 0 then rs[a].0
    else
      var g := Complement(a);
      if 0 < g && rs[g - 1].1 + 1 == lo0 then rs[g - 1].0 else lo0
  }

  /** The end of the merged range: that of the range holding hi0 or touching it
      from above, or hi0 itself. */
  function MergeHigh(rs: seq<Range>, hi0: int, b: int): int
    requires Located(rs, hi0, b)
  {
    if b >= 0 then rs[b].1
    else
      var g := Complement(b);
      if g < |rs| && rs[g].0 - 1 == hi0 then rs[g].1 else hi0
  }

  /** The general merge adds exactly [lo0, hi0]: the merged range overwrites the
      first absorbed range and the other absorbed ranges are removed, leaving a
      valid list. */
  lemma MergeAcrossAdds(rs: seq<Range>, lo0: int, hi0: int, a: int, b: int, s: int, e: int, lo: int, hi: int)
    requires ValidRanges(rs) && lo0 <= hi0
    requires Located(rs, lo0, a) && Located(rs, hi0, b)
    requires a == b ==> a < 0 && !IsolatedInGap(rs, Complement(a), lo0, hi0)
    requires s == MergeStart(rs, lo0, a) && lo == MergeLow(rs, lo0, a)
    requires e == MergeEnd(rs, hi0, b) && hi == MergeHigh(rs, hi0, b)
    ensures 0 <= s < e <= |rs|
    ensures s + 1 < e ==> ValidRanges(rs[s := (lo, hi)][..s + 1] + rs[s := (lo, hi)][e..])
    ensures s + 1 < e ==> Covered(rs[s := (lo, hi)][..s + 1] + rs[s := (lo, hi)][e..]) == Covered(rs) + Span(lo0, hi0)
    ensures s + 1 == e ==> ValidRanges(rs[s := (lo, hi)]) && Covered(rs[s := (lo, hi)]) == Covered(rs) + Span(lo0, hi0)
  {
    if a >= 0 {
      StartInRange(rs, lo0, a);
    } else {
      StartInGap(rs, lo0, Complement(a));
    }
    if b >= 0 {
      EndInRange(rs, hi0, b);
    } else {
      EndInGap(rs, hi0, Complement(b));
    }
    EdgesEncloseARange(rs, lo0, hi0, a, b);
    MergeBetweenEdges(rs, lo0, hi0, s, e, lo, hi);
  }

  /** One past the index of the last range a merge absorbs, from what the search
      reported for its high end b. */
  function MergeEnd(rs: seq<Range>, hi0: int, b: int): int {
    if b >= 0 then b + 1
    else
      var g := Complement(b);
      if 0 <= g < |rs| && rs[g].0 - 1 == hi0 then g + 1 else g
  }

  /** Overwriting rs[s] with [lo, hi] and removing the ranges after it up to the
      right edge adds exactly [lo0, hi0]. */
  lemma MergeBetweenEdges(rs: seq<Range>, lo0: int, hi0: int, s: int, e: int, lo: int, hi: int)
    requires ValidRanges(rs) && lo0 <= hi0 && s < e
    requires StartEdge(rs, lo0, s, lo) && EndEdge(rs, hi0, e, hi)
    ensures var t := rs[s := (lo, hi)];
      s + 1 < e ==> ValidRanges(t[..s + 1] + t[e..]) && Covered(t[..s + 1] + t[e..]) == Covered(rs) + Span(lo0, hi0)
    ensures s + 1 == e ==> ValidRanges(rs[s := (lo, hi)]) && Covered(rs[s := (lo, hi)]) == Covered(rs) + Span(lo0, hi0)
  {
    if s + 1 < e {
      UpdateThenRemove(rs, s, e, (lo, hi));
    } else {
      UpdateIsSplice(rs, s, (lo, hi));
    }
    MergeSplice(rs, s, e, lo0, hi0, (lo, hi));
  }

  /** [lo, hi] lies in the gap before rs[g] and touches neither neighbour. */
  predicate IsolatedInGap(rs: seq<Range>, g: int, lo: int, hi: int)
    requires 0 <= g <= |rs|
  {
    (g == |rs| || rs[g].0 - 1 != hi) && (g == 0 || rs[g - 1].1 + 1 != lo)
  }

  /** Overwriting one element is a splice of length one. */
  lemma UpdateIsSplice(rs: seq<Range>, s: int, r: Range)
    requires 0 <= s < |rs|
    ensures rs[s := r] == rs[..s] + [r] + rs[s + 1..]
  {
  }

  /** Overwriting rs[s] and then removing the elements after it up to e is a splice. */
  lemma UpdateThenRemove(rs: seq<Range>, s: int, e: int, r: Range)
    requires 0 <= s < e <= |rs|
    ensures rs[s := r][..s + 1] + rs[s := r][e..] == rs[..s] + [r] + rs[e..]
  {
  }

  /** Integers covered by a valid list lie between its first start and last end. */
  lemma {:induction false} CoveredBounds(rs: seq<Range>, x: int)
    requires ValidRanges(rs) && x in Covered(rs)
    ensures rs[0].0 <= x <= rs[|rs| - 1].1
  {
    ValidIffSeparated(rs);
    CoveredMember(rs, x);
    var k :| 0 <= k < |rs| && rs[k].0 <= x <= rs[k].1;
    assert rs[0].0 <= rs[k].0 && rs[k].1 <= rs[|rs| - 1].1;
  }

  /** For a valid list the summed lengths equal the number of covered integers:
      Count counts each covered integer exactly once. */
  lemma {:induction false} TotalLengthIsCardinality(rs: seq<Range>)
    requires ValidRanges(rs)
    ensures TotalLength(rs) == |Covered(rs)|
    decreases |rs|
  {
    if rs != [] {
      var n := |rs|;
      var front, last := rs[..n - 1], rs[n - 1];
      ValidSlice(rs, 0, n - 1);
      TotalLengthIsCardinality(front);
      CoveredLast(rs);
      FrontBeforeLast(rs);
      SpanSize(last.0, last.1);
      DisjointUnionSize(Covered(front), Span(last.0, last.1));
    }
  }

  /** Disjoint sets: the union's size is the sum of the sizes. */
  lemma DisjointUnionSize(a: set<int>, b: set<int>)
    requires a !! b
    ensures |a + b| == |a| + |b|
  {
  }

  /** Covered of a non-empty list: that of all but the last range, and the last range. */
  lemma CoveredLast(rs: seq<Range>)
    requires rs != []
    ensures Covered(rs) == Covered(rs[..|rs| - 1]) + Span(rs[|rs| - 1].0, rs[|rs| - 1].1)
  {
    var n := |rs|;
    CoveredAppend(rs[..n - 1], [rs[n - 1]]);
    assert rs == rs[..n - 1] + [rs[n - 1]];
    assert Covered([rs[n - 1]]) == Span(rs[n - 1].0, rs[n - 1].1) + Covered([]);
  }

  /** On a valid list, the last range is non-empty and shares no integer with
      the others. */
  lemma FrontBeforeLast(rs: seq<Range>)
    requires ValidRanges(rs) && rs != []
    ensures rs[|rs| - 1].0 <= rs[|rs| - 1].1
    ensures Covered(rs[..|rs| - 1]) !! Span(rs[|rs| - 1].0, rs[|rs| - 1].1)
  {
    var n := |rs|;
    var front := rs[..n - 1];
    ValidSlice(rs, 0, n - 1);
    ValidLast(rs);
    forall x | x in Covered(front)
      ensures x < rs[n - 1].0
    {
      CoveredBounds(front, x);
      assert front[n - 2] == rs[n - 2];
    }
  }

  lemma {:induction false} TotalLengthFront(rs: seq<Range>)
    requires rs != []
    ensures TotalLength(rs) == Length(rs[0]) + TotalLength(rs[1..])
    decreases |rs|
  {
    if |rs| > 1 {
      TotalLengthFront(rs[..|rs| - 1]);
      assert rs[..|rs| - 1][1..] == rs[1..][..|rs| - 2];
      assert rs[..|rs| - 1][0] == rs[0];
    } else {
      assert rs[..0] == [] && rs[1..] == [];
    }
  }

  lemma {:induction false} TotalLengthPositive(rs: seq<Range>)
    requires ValidRanges(rs)
    ensures TotalLength(rs) >= |rs|
    decreases |rs|
  {
    if rs != [] {
      ValidLast(rs);
      ValidSlice(rs, 0, |rs| - 1);
      TotalLengthPositive(rs[..|rs| - 1]);
    }
  }

  // ---------------------------------------------------------------------------
  // The indexer enumerates the covered integers in ascending order

  /** Within 0 <= i < Count the indexer finds a covered integer; from Count on it fails. */
  lemma {:induction false} ItemOfInBounds(rs: seq<Range>, i: int)
    requires ValidRanges(rs) && 0 <= i
    ensures ItemOf(rs, i).Found? <==> i < TotalLength(rs)
    ensures ItemOf(rs, i).Found? ==> ItemOf(rs, i).value in Covered(rs)
    decreases |rs|
  {
    if rs != [] {
      TotalLengthFront(rs);
      assert ValidRanges(rs[1..]);
      TotalLengthPositive(rs[1..]);
      if i >= Length(rs[0]) {
        ItemOfInBounds(rs[1..], i - Length(rs[0]));
      }
    }
  }

  /** The indexer is strictly increasing on 0 <= i < Count. */
  lemma {:induction false} ItemOfIncreasing(rs: seq<Range>, i: int, j: int)
    requires ValidRanges(rs) && 0 <= i < j < TotalLength(rs)
    ensures ItemOf(rs, i).Found? && ItemOf(rs, j).Found?
    ensures ItemOf(rs, i).value < ItemOf(rs, j).value
    decreases |rs|
  {
    TotalLengthFront(rs);
    var len := Length(rs[0]);
    if j < len {
    } else if i < len {
      ItemOfInBounds(rs[1..], j - len);
      var y := ItemOf(rs[1..], j - len).value;
      assert ValidRanges(rs[1..]);
      CoveredBounds(rs[1..], y);
      assert rs[0].1 < rs[1].0;
    } else {
      ItemOfIncreasing(rs[1..], i - len, j - len);
    }
  }

  /** Every covered integer has a position below Count at which the indexer yields it. */
  lemma {:induction false} ItemOfRank(rs: seq<Range>, x: int)
    requires ValidRanges(rs) && x in Covered(rs)
    ensures 0 <= Rank(rs, x) < TotalLength(rs)
    ensures ItemOf(rs, Rank(rs, x)) == Found(x)
    decreases |rs|
  {
    TotalLengthFront(rs);
    assert ValidRanges(rs[1..]);
    TotalLengthPositive(rs[1..]);
    if !(rs[0].0 <= x <= rs[0].1) {
      ItemOfRank(rs[1..], x);
    }
  }

  /** A negative index on a non-empty list is not rejected: it yields an integer
      below the first range, which is not covered. */
  lemma NegativeIndexIsNotRejected(rs: seq<Range>, i: int)
    requires ValidRanges(rs) && rs != [] && i < 0
    ensures ItemOf(rs, i) == Found(rs[0].0 + i)
    ensures rs[0].0 + i !in Covered(rs)
  {
    if rs[0].0 + i in Covered(rs) {
      CoveredBounds(rs, rs[0].0 + i);
    }
  }

  // ---------------------------------------------------------------------------

  /** The set of integers, as the list of ranges the source keeps and updates. */
  class RangeList {
    var Ranges: seq<Range>

    constructor()
      ensures Ranges == []
    {
      Ranges := [];
    }

    predicate Valid()
      reads this
    {
      ValidRanges(Ranges)
    }

    /** The number of covered integers: the sum of the range lengths. */
    function Count(): (n: int)
      reads this
      ensures Valid() ==> n == |Covered(Ranges)|
    {
      assert Valid() ==> TotalLength(Ranges) == |Covered(Ranges)| by {
        if Valid() {
          TotalLengthIsCardinality(Ranges);
        }
      }
      TotalLength(Ranges)
    }

    /** Binary search: the index of the range holding `value`, or the complement
        of the index of the first range that starts above it. */
    method Index(value: int) returns (r: int)
      requires Valid()
      ensures Located(Ranges, value, r)
    {
      ValidIffSeparated(Ranges);
      var left := 0;
      var right := |Ranges| - 1;
      while left <= right
        invariant 0 <= left <= right + 1 <= |Ranges|
        invariant forall j :: 0 <= j < left ==> Ranges[j].1 < value
        invariant forall j :: right < j < |Ranges| ==> value < Ranges[j].0
      {
        var middle := (right - left) / 2 + left;
        if value < Ranges[middle].0 {
          right := middle - 1;
        } else if value > Ranges[middle].1 {
          left := middle + 1;
        } else {
          return middle;
        }
      }
      return Complement(left);
    }

    /** Membership by binary search. */
    method Contains(value: int) returns (b: bool)
      requires Valid()
      ensures b <==> value in Covered(Ranges)
    {
      var index := Index(value);
      CoveredMember(Ranges, value);
      if index < 0 {
        GapNotCovered(Ranges, Complement(index), value);
      }
      b := index >= 0;
    }

    /** Adds one integer, extending, bridging or inserting a range as needed. */
    method Add(value: int)
      requires Valid()
      modifies this
      ensures Valid()
      ensures Covered(Ranges) == old(Covered(Ranges)) + {value}
      ensures value in old(Covered(Ranges)) ==> Ranges == old(Ranges)
      ensures forall k :: 0 < k < |old(Ranges)| && old(Ranges)[k - 1].1 + 1 == value == old(Ranges)[k].0 - 1 ==>
                |Ranges| == |old(Ranges)| - 1
    {
      if |Ranges| == 0 {
        Ranges := Ranges + [(value, value)];
        assert Covered(Ranges) == Span(value, value) + Covered([]);
        return;
      }

      var index := Index(value);
      if index < 0 {
        index := Complement(index);
        var ranges := Ranges;
        GapBridge(ranges, index, value);
        if index == |ranges| {
          if ranges[|ranges| - 1].1 + 1 == value {
            GrowLeftNeighbour(ranges, index, value);
            ranges := ranges[|ranges| - 1 := (ranges[|ranges| - 1].0, value)];
          } else {
            InsertAlone(ranges, index, value);
            ranges := ranges + [(value, value)];
          }
        } else if ranges[index].0 - 1 == value {
          if index > 0 && ranges[index - 1].1 + 1 == value {
            JoinNeighbours(ranges, index, value);
            ranges := ranges[index - 1 := (ranges[index - 1].0, ranges[index].1)];
            ranges := ranges[..index] + ranges[index + 1..];
          } else {
            GrowRightNeighbour(ranges, index, value);
            ranges := ranges[index := (value, ranges[index].1)];
          }
        } else if index > 0 && ranges[index - 1].1 + 1 == value {
          GrowLeftNeighbour(ranges, index, value);
          ranges := ranges[index - 1 := (ranges[index - 1].0, value)];
        } else {
          InsertAlone(ranges, index, value);
          ranges := ranges[..index] + [(value, value)] + ranges[index..];
        }
        Ranges := ranges;
      } else {
        HitBridgesNothing(Ranges, index, value);
      }
    }

    /** Adds the integers between start and end, absorbing every range the new one
        overlaps or touches. On an empty list the pair is stored as given. */
    method AddRange(start: int, end: int)
      requires Valid()
      modifies this
      ensures old(Ranges) == [] ==> Ranges == [(start, end)]
      ensures old(Ranges) != [] ==> Valid()
      ensures old(Ranges) != [] ==>
        Covered(Ranges) == old(Covered(Ranges)) + Span(Min(start, end), Max(start, end))
      ensures forall k :: 0 <= k < |old(Ranges)| && old(Ranges)[k].0 <= Min(start, end) && Max(start, end) <= old(Ranges)[k].1 ==>
                Ranges == old(Ranges)
    {
      if |Ranges| == 0 {
        Ranges := Ranges + [(start, end)];
        return;
      }

      if start == end {
        CoveredMember(Ranges, start);
        assert Span(start, end) == {start};
        Add(start);
        return;
      }

      var lo, hi := start, end;
      if hi < lo {
        lo, hi := hi, lo;
      }
      ghost var rs := Ranges;
      var startIndex := Index(lo);
      var endIndex := Index(hi);
      InsideMeansSameHit(rs, lo, hi, startIndex, endIndex);

      if startIndex == endIndex {
        if startIndex < 0 {
          var index := Complement(startIndex);
          if (index == |Ranges| || Ranges[index].0 - 1 != hi) && (index == 0 || Ranges[index - 1].1 + 1 != lo) {
            Ranges := Ranges[..index] + [(lo, hi)] + Ranges[index..];
            MergeSplice(rs, index, index, lo, hi, (lo, hi));
            return;
          }
        } else {
          HitAbsorbs(rs, startIndex, lo, hi);
          return;
        }
      }

      MergeAcross(lo, hi, startIndex, endIndex);
    }

    /** The general case of AddRange: widens [lo, hi] to the ranges that hold or
        touch its ends, writes the widened range over the first of the ranges it
        absorbs and removes the others. */
    method MergeAcross(lo0: int, hi0: int, startFound: int, endFound: int)
      requires Valid() && lo0 <= hi0
      requires Located(Ranges, lo0, startFound) && Located(Ranges, hi0, endFound)
      requires startFound == endFound ==> startFound < 0 && !IsolatedInGap(Ranges, Complement(startFound), lo0, hi0)
      modifies this
      ensures Valid()
      ensures Covered(Ranges) == old(Covered(Ranges)) + Span(lo0, hi0)
    {
      ghost var rs := Ranges;
      var lo, hi, startIndex, endIndex := lo0, hi0, startFound, endFound;
      if startIndex < 0 {
        startIndex := Complement(startIndex);
        if startIndex > 0 {
          if Ranges[startIndex - 1].1 + 1 == lo {
            startIndex := startIndex - 1;
            lo := Ranges[startIndex].0;
          }
        }
      } else {
        lo := Ranges[startIndex].0;
      }

      if endIndex < 0 {
        endIndex := Complement(endIndex);
        if endIndex < |Ranges| && Ranges[endIndex].0 - 1 == hi {
          hi := Ranges[endIndex].1;
        } else {
          endIndex := endIndex - 1;
        }
      } else {
        hi := Ranges[endIndex].1;
      }
      MergeAcrossAdds(rs, lo0, hi0, startFound, endFound, startIndex, endIndex + 1, lo, hi);
      var merged := Ranges[startIndex := (lo, hi)];
      if startIndex < endIndex {
        Ranges := merged[..startIndex + 1] + merged[endIndex + 1..];
      } else {
        Ranges := merged;
      }
    }

    /** The i-th covered integer, walking the ranges in order. */
    method Item(i: int) returns (r: Lookup)
      requires Valid()
      ensures r == ItemOf(Ranges, i)
      ensures 0 <= i < Count() ==> r.Found? && r.value in Covered(Ranges)
      ensures i >= Count() ==> r == IndexOutOfRange
    {
      var k := 0;
      var rest := i;
      while k < |Ranges|
        invariant 0 <= k <= |Ranges|
        invariant ItemOf(Ranges, i) == ItemOf(Ranges[k..], rest)
      {
        assert Ranges[k..][0] == Ranges[k];
        assert Ranges[k..][1..] == Ranges[k + 1..];
        var len := Ranges[k].1 - Ranges[k].0 + 1;
        if rest < len {
          r := Found(Ranges[k].0 + rest);
          ItemFacts(Ranges, i);
          return;
        }
        rest := rest - len;
        k := k + 1;
      }
      r := IndexOutOfRange;
      ItemFacts(Ranges, i);
    }
  }

  function Min(a: int, b: int): int { if a <= b then a else b }

  function Max(a: int, b: int): int { if a <= b then b else a }

  /** What the indexer's contract needs from the lemmas above. */
  lemma ItemFacts(rs: seq<Range>, i: int)
    requires ValidRanges(rs)
    ensures 0 <= i < TotalLength(rs) ==> ItemOf(rs, i).Found? && ItemOf(rs, i).value in Covered(rs)
    ensures i >= TotalLength(rs) ==> ItemOf(rs, i) == IndexOutOfRange
  {
    if i >= 0 {
      ItemOfInBounds(rs, i);
    } else {
      TotalLengthPositive(rs);
    }
  }
}
