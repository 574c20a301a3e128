/** The syntax tree the parser builds and the random generation of a sample
    from it. A sample is a sequence of (code point, case-sensitive) pairs; the
    random source is an explicit stream of draws read from a position that
    generation threads through and returns. */
module RegexNodes {
  import opened ParseState

  /** The random source: the n-th draw is rng(n). */
  type Rng = nat -> nat

  /** A generated code point and whether its case must be kept. */
  type Pair = (int, bool)

  /** A coin flip: the draw at pos is odd. */
  predicate Coin(rng: Rng, pos: nat) {
    rng(pos) % 2 == 1
  }

  /** A uniform choice of an index below count. */
  function Choose(rng: Rng, pos: nat, count: nat): (j: nat)
    requires count > 0
    ensures j < count
  {
    rng(pos) % count
  }

  // ---------------------------------------------------------------------------
  // Quantifier modifiers

  /** The possessive and lazy modifier flags of a quantified node. */
  class QuantifierNode {
    var Possesive: bool
    var Lazy: bool

    constructor()
      ensures !Possesive && !Lazy
    {
      Possesive := false;
      Lazy := false;
    }

    predicate HasModifier()
      reads this
    {
      Possesive || Lazy
    }

    /** At most one modifier is ever set. */
    predicate Valid()
      reads this
    {
      !(Possesive && Lazy)
    }

    method SetPossesive()
      requires !HasModifier()
      modifies this
      ensures Possesive && Lazy == old(Lazy) && Valid()
    {
      Possesive := true;
    }

    method SetLazy()
      requires !HasModifier()
      modifies this
      ensures Lazy && Possesive == old(Possesive) && Valid()
    {
      Lazy := true;
    }
  }

  // ---------------------------------------------------------------------------
  // Nodes

  datatype Node =
    | Char(c: int, caseSensitive: bool)
    | Empty
    | Sequence(nodes: seq<Node>)
    | Alternates(nodes: seq<Node>)
    | Optional(child: Node, q: QuantifierNode)
    | Repeat(child: Node, min: nat, max: nat, q: QuantifierNode)

  /** Whether a postfix quantifier may be applied to the node directly. */
  predicate AllowsRepetition(n: Node) {
    n.Char? || n.Empty?
  }

  /** Every choice node has at least one alternative to pick from. */
  predicate WellFormed(n: Node) {
    match n
    case Char(_, _) => true
    case Empty => true
    case Sequence(ns) => forall j :: 0 <= j < |ns| ==> WellFormed(ns[j])
    case Alternates(ns) => |ns| > 0 && forall j :: 0 <= j < |ns| ==> WellFormed(ns[j])
    case Optional(child, _) => WellFormed(child)
    case Repeat(child, _, _, _) => WellFormed(child)
  }

  /** The largest number of repetitions a Repeat node can produce. */
  function UpperBound(min: nat, max: nat): nat {
    if max < min then min else max
  }

  // ---------------------------------------------------------------------------
  // Generation

  /** Generated pairs and the position of the next unused draw. */
  datatype Sample = Sample(out: seq<Pair>, next: nat)

  /** The sample s with prefix put in front of its output. */
  function Then(prefix: seq<Pair>, s: Sample): Sample {
    Sample(prefix + s.out, s.next)
  }

  lemma ThenAssoc(a: seq<Pair>, b: seq<Pair>, s: Sample)
    ensures Then(a, Then(b, s)) == Then(a + b, s)
  {
    assert a + (b + s.out) == (a + b) + s.out;
  }

  lemma ThenNothing(a: seq<Pair>, next: nat)
    ensures Then(a, Sample([], next)) == Sample(a, next)
  {
    assert a + [] == a;
  }

  /** One sample of the node, drawing from rng at pos onwards. */
  function Gen(n: Node, rng: Rng, pos: nat): (s: Sample)
    requires WellFormed(n)
    ensures pos <= s.next
    decreases n, 2
  {
    match n
    case Char(c, cs) => Sample([(c, cs)], pos)
    case Empty => Sample([], pos)
    case Sequence(_) => GenFrom(n, 0, rng, pos)
    case Alternates(ns) => Gen(ns[Choose(rng, pos, |ns|)], rng, pos + 1)
    case Optional(child, _) =>
      if Coin(rng, pos) then Gen(child, rng, pos + 1) else Sample([], pos + 1)
    case Repeat(_, min, _, _) =>
      var mandatory := GenTimes(n, min, rng, pos);
      Then(mandatory.out, GenExtra(n, min, rng, mandatory.next))
  }

  /** The children of a sequence from index i on, one after the other. */
  function GenFrom(n: Node, i: nat, rng: Rng, pos: nat): (s: Sample)
    requires n.Sequence? && WellFormed(n)
    ensures pos <= s.next
    decreases n, 1, |n.nodes| - i
  {
    if i >= |n.nodes| then Sample([], pos)
    else
      var first := Gen(n.nodes[i], rng, pos);
      Then(first.out, GenFrom(n, i + 1, rng, first.next))
  }

  /** k samples of a Repeat node's child, without any coin. */
  function GenTimes(n: Node, k: nat, rng: Rng, pos: nat): (s: Sample)
    requires n.Repeat? && WellFormed(n)
    ensures pos <= s.next
    decreases n, 1, k
  {
    if k == 0 then Sample([], pos)
    else
      var first := Gen(n.child, rng, pos);
      Then(first.out, GenTimes(n, k - 1, rng, first.next))
  }

  /** Further samples of a Repeat node's child after i of them, each behind a
      coin, until a coin fails or the count reaches the maximum; no coin is drawn
      once the maximum is reached. */
  function GenExtra(n: Node, i: nat, rng: Rng, pos: nat): (s: Sample)
    requires n.Repeat? && WellFormed(n)
    ensures pos <= s.next
    decreases n, 1, n.max - i
  {
    if i < n.max && Coin(rng, pos) then
      var first := Gen(n.child, rng, pos + 1);
      Then(first.out, GenExtra(n, i + 1, rng, first.next))
    else if i < n.max then Sample([], pos + 1)
    else Sample([], pos)
  }

  /** The sampling loops of a Repeat node: Min samples, then one more while the
      count is below Max and a coin says so. */
  method SampleRepeat(n: Node, rng: Rng, pos: nat) returns (out: seq<Pair>, next: nat)
    requires n.Repeat? && WellFormed(n)
    ensures Sample(out, next) == Gen(n, rng, pos)
  {
    out, next := [], pos;
    var i: nat := 0;
    ThenNothing([], pos);
    while i < n.min
      invariant i <= n.min
      invariant GenTimes(n, n.min, rng, pos) == Then(out, GenTimes(n, n.min - i, rng, next))
    {
      var s := Gen(n.child, rng, next);
      ThenAssoc(out, s.out, GenTimes(n, n.min - i - 1, rng, s.next));
      out, next := out + s.out, s.next;
      i := i + 1;
    }
    ThenNothing(out, next);
    while i < n.max && Coin(rng, next)
      invariant n.min <= i
      invariant Gen(n, rng, pos) == Then(out, GenExtra(n, i, rng, next))
      decreases n.max - i
    {
      var s := Gen(n.child, rng, next + 1);
      ThenAssoc(out, s.out, GenExtra(n, i + 1, rng, s.next));
      out, next := out + s.out, s.next;
      i := i + 1;
    }
    if i < n.max {
      next := next + 1;
    }
    ThenNothing(out, next);
  }

  // ---------------------------------------------------------------------------
  // The language of a node

  /** out is an output the node can produce. */
  predicate Matches(n: Node, out: seq<Pair>)
    decreases n, 2
  {
    match n
    case Char(c, cs) => out == [(c, cs)]
    case Empty => out == []
    case Sequence(_) => MatchesFrom(n, 0, out)
    case Alternates(ns) => exists j :: 0 <= j < |ns| && Matches(ns[j], out)
    case Optional(child, _) => out == [] || Matches(child, out)
    case Repeat(_, min, max, _) => exists k :: min <= k <= UpperBound(min, max) && MatchesTimes(n, k, out)
  }

  /** out is a concatenation of outputs of the sequence's children from index i on. */
  predicate MatchesFrom(n: Node, i: nat, out: seq<Pair>)
    requires n.Sequence?
    decreases n, 1, |n.nodes| - i
  {
    if i >= |n.nodes| then out == []
    else exists m :: 0 <= m <= |out| && Matches(n.nodes[i], out[..m]) && MatchesFrom(n, i + 1, out[m..])
  }

  /** out is a concatenation of k outputs of the Repeat node's child. */
  predicate MatchesTimes(n: Node, k: nat, out: seq<Pair>)
    requires n.Repeat?
    decreases n, 1, k
  {
    if k == 0 then out == []
    else exists m :: 0 <= m <= |out| && Matches(n.child, out[..m]) && MatchesTimes(n, k - 1, out[m..])
  }

  /** A node that takes a quantifier directly produces at most one pair. */
  lemma RepeatableOutputs(n: Node, out: seq<Pair>)
    requires AllowsRepetition(n) && Matches(n, out)
    ensures |out| <= 1
  {
  }

  /** Repetitions concatenate. */
  lemma {:induction false} MatchesTimesAppend(n: Node, a: nat, b: nat, x: seq<Pair>, y: seq<Pair>)
    requires n.Repeat? && MatchesTimes(n, a, x) && MatchesTimes(n, b, y)
    ensures MatchesTimes(n, a + b, x + y)
    decreases a
  {
    if a == 0 {
      assert x + y == y;
    } else {
      var m :| 0 <= m <= |x| && Matches(n.child, x[..m]) && MatchesTimes(n, a - 1, x[m..]);
      MatchesTimesAppend(n, a - 1, b, x[m..], y);
      assert (x + y)[..m] == x[..m];
      assert (x + y)[m..] == x[m..] + y;
    }
  }

  /** Every sample is an output of the node. */
  lemma {:induction false} GenSound(n: Node, rng: Rng, pos: nat)
    requires WellFormed(n)
    ensures Matches(n, Gen(n, rng, pos).out)
    decreases n, 2
  {
    match n
    case Char(_, _) =>
    case Empty =>
    case Sequence(_) =>
      GenFromSound(n, 0, rng, pos);
    case Alternates(ns) =>
      var j := Choose(rng, pos, |ns|);
      GenSound(ns[j], rng, pos + 1);
    case Optional(child, _) =>
      if Coin(rng, pos) {
        GenSound(child, rng, pos + 1);
      }
    case Repeat(_, min, max, _) =>
      var mandatory := GenTimes(n, min, rng, pos);
      var extra := GenExtra(n, min, rng, mandatory.next);
      GenTimesSound(n, min, rng, pos);
      GenExtraSound(n, min, rng, mandatory.next);
      var k :| (k == 0 || min + k <= max) && MatchesTimes(n, k, extra.out);
      MatchesTimesAppend(n, min, k, mandatory.out, extra.out);
      assert MatchesTimes(n, min + k, Gen(n, rng, pos).out);
  }

  lemma {:induction false} GenFromSound(n: Node, i: nat, rng: Rng, pos: nat)
    requires n.Sequence? && WellFormed(n)
    ensures MatchesFrom(n, i, GenFrom(n, i, rng, pos).out)
    decreases n, 1, |n.nodes| - i
  {
    if i < |n.nodes| {
      var first := Gen(n.nodes[i], rng, pos);
      var rest := GenFrom(n, i + 1, rng, first.next);
      GenSound(n.nodes[i], rng, pos);
      GenFromSound(n, i + 1, rng, first.next);
      var out := first.out + rest.out;
      assert out[..|first.out|] == first.out && out[|first.out|..] == rest.out;
    }
  }

  lemma {:induction false} GenTimesSound(n: Node, k: nat, rng: Rng, pos: nat)
    requires n.Repeat? && WellFormed(n)
    ensures MatchesTimes(n, k, GenTimes(n, k, rng, pos).out)
    decreases n, 1, k
  {
    if k > 0 {
      var first := Gen(n.child, rng, pos);
      var rest := GenTimes(n, k - 1, rng, first.next);
      GenSound(n.child, rng, pos);
      GenTimesSound(n, k - 1, rng, first.next);
      var out := first.out + rest.out;
      assert out[..|first.out|] == first.out && out[|first.out|..] == rest.out;
    }
  }

  /** The optional repetitions after i of them add k more, where k is zero or
      keeps the total within the maximum. */
  lemma {:induction false} GenExtraSound(n: Node, i: nat, rng: Rng, pos: nat)
    requires n.Repeat? && WellFormed(n)
    ensures exists k: nat :: (k == 0 || i + k <= n.max) && MatchesTimes(n, k, GenExtra(n, i, rng, pos).out)
    decreases n, 1, n.max - i
  {
    if i < n.max && Coin(rng, pos) {
      var first := Gen(n.child, rng, pos + 1);
      var rest := GenExtra(n, i + 1, rng, first.next);
      GenSound(n.child, rng, pos + 1);
      GenExtraSound(n, i + 1, rng, first.next);
      var k: nat :| (k == 0 || i + 1 + k <= n.max) && MatchesTimes(n, k, rest.out);
      var out := first.out + rest.out;
      assert out[..|first.out|] == first.out && out[|first.out|..] == rest.out;
      assert MatchesTimes(n, k + 1, out);
      assert GenExtra(n, i, rng, pos).out == out;
      assert i + (k + 1) <= n.max;
    } else {
      assert MatchesTimes(n, 0, GenExtra(n, i, rng, pos).out);
    }
  }

  // ---------------------------------------------------------------------------
  // Dependence on the random source

  /** A sample depends only on the draws it consumes: two sources that agree on
      [pos, next) give the same sample. */
  lemma {:induction false} GenFrame(n: Node, r1: Rng, r2: Rng, pos: nat)
    requires WellFormed(n)
    requires forall i :: pos <= i < Gen(n, r1, pos).next ==> r1(i) == r2(i)
    ensures Gen(n, r2, pos) == Gen(n, r1, pos)
    decreases n, 2
  {
    match n
    case Char(_, _) =>
    case Empty =>
    case Sequence(_) =>
      GenFromFrame(n, 0, r1, r2, pos);
    case Alternates(ns) =>
      assert r1(pos) == r2(pos);
      GenFrame(ns[Choose(r1, pos, |ns|)], r1, r2, pos + 1);
    case Optional(child, _) =>
      assert r1(pos) == r2(pos);
      if Coin(r1, pos) {
        GenFrame(child, r1, r2, pos + 1);
      }
    case Repeat(_, min, _, _) =>
      var mandatory := GenTimes(n, min, r1, pos);
      GenTimesFrame(n, min, r1, r2, pos);
      GenExtraFrame(n, min, r1, r2, mandatory.next);
  }

  lemma {:induction false} GenFromFrame(n: Node, i: nat, r1: Rng, r2: Rng, pos: nat)
    requires n.Sequence? && WellFormed(n)
    requires forall k :: pos <= k < GenFrom(n, i, r1, pos).next ==> r1(k) == r2(k)
    ensures GenFrom(n, i, r2, pos) == GenFrom(n, i, r1, pos)
    decreases n, 1, |n.nodes| - i
  {
    if i < |n.nodes| {
      var first := Gen(n.nodes[i], r1, pos);
      GenFrame(n.nodes[i], r1, r2, pos);
      GenFromFrame(n, i + 1, r1, r2, first.next);
    }
  }

  lemma {:induction false} GenTimesFrame(n: Node, k: nat, r1: Rng, r2: Rng, pos: nat)
    requires n.Repeat? && WellFormed(n)
    requires forall j :: pos <= j < GenTimes(n, k, r1, pos).next ==> r1(j) == r2(j)
    ensures GenTimes(n, k, r2, pos) == GenTimes(n, k, r1, pos)
    decreases n, 1, k
  {
    if k > 0 {
      var first := Gen(n.child, r1, pos);
      GenFrame(n.child, r1, r2, pos);
      GenTimesFrame(n, k - 1, r1, r2, first.next);
    }
  }

  lemma {:induction false} GenExtraFrame(n: Node, i: nat, r1: Rng, r2: Rng, pos: nat)
    requires n.Repeat? && WellFormed(n)
    requires forall j :: pos <= j < GenExtra(n, i, r1, pos).next ==> r1(j) == r2(j)
    ensures GenExtra(n, i, r2, pos) == GenExtra(n, i, r1, pos)
    decreases n, 1, n.max - i
  {
    if i < n.max {
      assert r1(pos) == r2(pos);
      if Coin(r1, pos) {
        var first := Gen(n.child, r1, pos + 1);
        GenFrame(n.child, r1, r2, pos + 1);
        GenExtraFrame(n, i + 1, r1, r2, first.next);
      }
    }
  }

  // ---------------------------------------------------------------------------
  // Every output of a node is generated by some random source

  /** rng holds the draws ds from position pos on. */
  predicate Agrees(rng: Rng, pos: nat, ds: seq<nat>) {
    forall i :: 0 <= i < |ds| ==> rng(pos + i) == ds[i]
  }

  lemma AgreesSplit(rng: Rng, pos: nat, a: seq<nat>, b: seq<nat>)
    requires Agrees(rng, pos, a + b)
    ensures Agrees(rng, pos, a) && Agrees(rng, pos + |a|, b)
  {
    forall i | 0 <= i < |a|
      ensures rng(pos + i) == a[i]
    {
      assert (a + b)[i] == a[i];
    }
    forall i | 0 <= i < |b|
      ensures rng(pos + |a| + i) == b[i]
    {
      assert (a + b)[|a| + i] == b[i];
    }
  }

  lemma AgreesHead(rng: Rng, pos: nat, d: nat, rest: seq<nat>)
    requires Agrees(rng, pos, [d] + rest)
    ensures rng(pos) == d && Agrees(rng, pos + 1, rest)
  {
    assert ([d] + rest)[0] == d;
    AgreesSplit(rng, pos, [d], rest);
  }

  /** k repetitions split into a first a and a last k - a. */
  lemma {:induction false} MatchesTimesSplit(n: Node, a: nat, b: nat, out: seq<Pair>) returns (m: nat)
    requires n.Repeat? && MatchesTimes(n, a + b, out)
    ensures m <= |out| && MatchesTimes(n, a, out[..m]) && MatchesTimes(n, b, out[m..])
    decreases a
  {
    if a == 0 {
      m := 0;
      assert out[0..] == out;
    } else {
      var m1 :| 0 <= m1 <= |out| && Matches(n.child, out[..m1]) && MatchesTimes(n, a + b - 1, out[m1..]);
      var m2 := MatchesTimesSplit(n, a - 1, b, out[m1..]);
      m := m1 + m2;
      assert out[..m][..m1] == out[..m1];
      assert out[..m][m1..] == out[m1..][..m2];
      assert out[m..] == out[m1..][m2..];
    }
  }

  /** The draws that make the node produce out, starting at pos. */
  lemma {:induction false} Complete(n: Node, out: seq<Pair>, pos: nat) returns (ds: seq<nat>)
    requires WellFormed(n) && Matches(n, out)
    ensures forall rng :: Agrees(rng, pos, ds) ==> Gen(n, rng, pos) == Sample(out, pos + |ds|)
    decreases n, 3
  {
    match n
    case Char(_, _) =>
      ds := [];
    case Empty =>
      ds := [];
    case Sequence(_) =>
      ds := CompleteFrom(n, 0, out, pos);
    case Alternates(_) =>
      ds := CompleteAlternates(n, out, pos);
    case Optional(_, _) =>
      ds := CompleteOptional(n, out, pos);
    case Repeat(_, _, _, _) =>
      ds := CompleteRepeat(n, out, pos);
  }

  /** An alternative is reached by drawing its index. */
  lemma {:induction false} CompleteAlternates(n: Node, out: seq<Pair>, pos: nat) returns (ds: seq<nat>)
    requires n.Alternates? && WellFormed(n) && Matches(n, out)
    ensures forall rng :: Agrees(rng, pos, ds) ==> Gen(n, rng, pos) == Sample(out, pos + |ds|)
    decreases n, 2
  {
    var ns := n.nodes;
    var j :| 0 <= j < |ns| && Matches(ns[j], out);
    var rest := Complete(ns[j], out, pos + 1);
    ds := [j] + rest;
    forall rng | Agrees(rng, pos, ds)
      ensures Gen(n, rng, pos) == Sample(out, pos + |ds|)
    {
      AgreesHead(rng, pos, j, rest);
      assert Choose(rng, pos, |ns|) == j;
      assert Gen(ns[j], rng, pos + 1) == Sample(out, pos + 1 + |rest|);
    }
  }

  /** Nothing is reached by a false coin, the child's output by a true one. */
  lemma {:induction false} CompleteOptional(n: Node, out: seq<Pair>, pos: nat) returns (ds: seq<nat>)
    requires n.Optional? && WellFormed(n) && Matches(n, out)
    ensures forall rng :: Agrees(rng, pos, ds) ==> Gen(n, rng, pos) == Sample(out, pos + |ds|)
    decreases n, 2
  {
    if out == [] {
      ds := [0];
      forall rng | Agrees(rng, pos, ds)
        ensures Gen(n, rng, pos) == Sample(out, pos + |ds|)
      {
        AgreesHead(rng, pos, 0, []);
      }
    } else {
      var rest := Complete(n.child, out, pos + 1);
      ds := [1] + rest;
      forall rng | Agrees(rng, pos, ds)
        ensures Gen(n, rng, pos) == Sample(out, pos + |ds|)
      {
        AgreesHead(rng, pos, 1, rest);
        assert Gen(n.child, rng, pos + 1) == Sample(out, pos + 1 + |rest|);
      }
    }
  }

  /** k repetitions within the bounds: Min without coins, the others each behind
      a true coin. */
  lemma {:induction false} CompleteRepeat(n: Node, out: seq<Pair>, pos: nat) returns (ds: seq<nat>)
    requires n.Repeat? && WellFormed(n) && Matches(n, out)
    ensures forall rng :: Agrees(rng, pos, ds) ==> Gen(n, rng, pos) == Sample(out, pos + |ds|)
    decreases n, 2
  {
    var min, max := n.min, n.max;
    var k :| min <= k <= UpperBound(min, max) && MatchesTimes(n, k, out);
    var m := MatchesTimesSplit(n, min, k - min, out);
    var mandatory := CompleteTimes(n, min, out[..m], pos);
    var p := pos + |mandatory|;
    var extra := CompleteExtra(n, min, k - min, out[m..], p);
    ds := mandatory + extra;
    assert out[..m] + out[m..] == out;
    forall rng | Agrees(rng, pos, ds)
      ensures Gen(n, rng, pos) == Sample(out, pos + |ds|)
    {
      AgreesSplit(rng, pos, mandatory, extra);
      RepeatJoin(n, rng, pos, out[..m], p, out[m..], p + |extra|);
    }
  }

  /** A Repeat node's sample is its mandatory samples followed by the extra ones. */
  lemma RepeatJoin(n: Node, rng: Rng, pos: nat, x: seq<Pair>, p: nat, y: seq<Pair>, q: nat)
    requires n.Repeat? && WellFormed(n)
    requires GenTimes(n, n.min, rng, pos) == Sample(x, p) && GenExtra(n, n.min, rng, p) == Sample(y, q)
    ensures Gen(n, rng, pos) == Sample(x + y, q)
  {
  }

  lemma {:induction false} CompleteFrom(n: Node, i: nat, out: seq<Pair>, pos: nat) returns (ds: seq<nat>)
    requires n.Sequence? && WellFormed(n) && MatchesFrom(n, i, out)
    ensures forall rng :: Agrees(rng, pos, ds) ==> GenFrom(n, i, rng, pos) == Sample(out, pos + |ds|)
    decreases n, 1, |n.nodes| - i
  {
    if i >= |n.nodes| {
      ds := [];
    } else {
      var m :| 0 <= m <= |out| && Matches(n.nodes[i], out[..m]) && MatchesFrom(n, i + 1, out[m..]);
      var first := Complete(n.nodes[i], out[..m], pos);
      var p := pos + |first|;
      var rest := CompleteFrom(n, i + 1, out[m..], p);
      ds := first + rest;
      assert out[..m] + out[m..] == out;
      forall rng | Agrees(rng, pos, ds)
        ensures GenFrom(n, i, rng, pos) == Sample(out, pos + |ds|)
      {
        AgreesSplit(rng, pos, first, rest);
        FromJoin(n, i, rng, pos, out[..m], p, out[m..], p + |rest|);
      }
    }
  }

  lemma {:induction false} CompleteTimes(n: Node, k: nat, out: seq<Pair>, pos: nat) returns (ds: seq<nat>)
    requires n.Repeat? && WellFormed(n) && MatchesTimes(n, k, out)
    ensures forall rng :: Agrees(rng, pos, ds) ==> GenTimes(n, k, rng, pos) == Sample(out, pos + |ds|)
    decreases n, 1, k
  {
    if k == 0 {
      ds := [];
    } else {
      var m :| 0 <= m <= |out| && Matches(n.child, out[..m]) && MatchesTimes(n, k - 1, out[m..]);
      var first := Complete(n.child, out[..m], pos);
      var p := pos + |first|;
      var rest := CompleteTimes(n, k - 1, out[m..], p);
      ds := first + rest;
      assert out[..m] + out[m..] == out;
      forall rng | Agrees(rng, pos, ds)
        ensures GenTimes(n, k, rng, pos) == Sample(out, pos + |ds|)
      {
        AgreesSplit(rng, pos, first, rest);
        TimesJoin(n, k, rng, pos, out[..m], p, out[m..], p + |rest|);
      }
    }
  }

  /** b optional repetitions after i of them, when b is zero or keeps the total
      within the maximum: a true coin before each, then a false one unless the
      maximum is reached. */
  lemma {:induction false} CompleteExtra(n: Node, i: nat, b: nat, out: seq<Pair>, pos: nat) returns (ds: seq<nat>)
    requires n.Repeat? && WellFormed(n) && MatchesTimes(n, b, out) && (b == 0 || i + b <= n.max)
    ensures forall rng :: Agrees(rng, pos, ds) ==> GenExtra(n, i, rng, pos) == Sample(out, pos + |ds|)
    decreases n, 1, b
  {
    if b == 0 {
      ds := if i < n.max then [0] else [];
      forall rng | Agrees(rng, pos, ds)
        ensures GenExtra(n, i, rng, pos) == Sample(out, pos + |ds|)
      {
        if i < n.max {
          AgreesHead(rng, pos, 0, []);
        }
      }
    } else {
      var m :| 0 <= m <= |out| && Matches(n.child, out[..m]) && MatchesTimes(n, b - 1, out[m..]);
      var first := Complete(n.child, out[..m], pos + 1);
      var p := pos + 1 + |first|;
      var rest := CompleteExtra(n, i + 1, b - 1, out[m..], p);
      ds := [1] + (first + rest);
      assert out[..m] + out[m..] == out;
      forall rng | Agrees(rng, pos, ds)
        ensures GenExtra(n, i, rng, pos) == Sample(out, pos + |ds|)
      {
        AgreesHead(rng, pos, 1, first + rest);
        AgreesSplit(rng, pos + 1, first, rest);
        ExtraJoin(n, i, rng, pos, out[..m], p, out[m..], p + |rest|);
      }
    }
  }

  /** A sequence's sample from child i on is child i's sample followed by the rest. */
  lemma FromJoin(n: Node, i: nat, rng: Rng, pos: nat, x: seq<Pair>, p: nat, y: seq<Pair>, q: nat)
    requires n.Sequence? && WellFormed(n) && i < |n.nodes|
    requires Gen(n.nodes[i], rng, pos) == Sample(x, p) && GenFrom(n, i + 1, rng, p) == Sample(y, q)
    ensures GenFrom(n, i, rng, pos) == Sample(x + y, q)
  {
  }

  /** k mandatory samples are one sample followed by k - 1 more. */
  lemma TimesJoin(n: Node, k: nat, rng: Rng, pos: nat, x: seq<Pair>, p: nat, y: seq<Pair>, q: nat)
    requires n.Repeat? && WellFormed(n) && k > 0
    requires Gen(n.child, rng, pos) == Sample(x, p) && GenTimes(n, k - 1, rng, p) == Sample(y, q)
    ensures GenTimes(n, k, rng, pos) == Sample(x + y, q)
  {
  }

  /** A true coin below the maximum is followed by one sample and the further ones. */
  lemma ExtraJoin(n: Node, i: nat, rng: Rng, pos: nat, x: seq<Pair>, p: nat, y: seq<Pair>, q: nat)
    requires n.Repeat? && WellFormed(n) && i < n.max && rng(pos) == 1
    requires Gen(n.child, rng, pos + 1) == Sample(x, p) && GenExtra(n, i + 1, rng, p) == Sample(y, q)
    ensures GenExtra(n, i, rng, pos) == Sample(x + y, q)
  {
  }

  /** Generation reaches the whole language of a node: every output of the node
      is the sample of some random source. */
  lemma EveryOutputIsGenerated(n: Node, out: seq<Pair>)
    requires WellFormed(n) && Matches(n, out)
    ensures exists rng: Rng :: Gen(n, rng, 0).out == out
  {
    var ds := Complete(n, out, 0);
    var rng: Rng := (i: nat) => if i < |ds| then ds[i] else 0;
    assert Agrees(rng, 0, ds);
    assert Gen(n, rng, 0).out == out;
  }

  // ---------------------------------------------------------------------------
  // Rendering with random casing

  /** Upper- and lower-casing of one code point, each giving the code points of
      the cased string. */
  datatype Casing = Casing(toUpper: int -> seq<int>, toLower: int -> seq<int>)

  /** Rendered code points and the position of the next unused draw. */
  datatype Text = Text(chars: seq<int>, next: nat)

  /** The text t with prefix put in front of its code points. */
  function TextThen(prefix: seq<int>, t: Text): Text {
    Text(prefix + t.chars, t.next)
  }

  lemma TextThenAssoc(a: seq<int>, b: seq<int>, t: Text)
    ensures TextThen(a, TextThen(b, t)) == TextThen(a + b, t)
  {
    assert a + (b + t.chars) == (a + b) + t.chars;
  }

  lemma TextThenNothing(a: seq<int>, next: nat)
    ensures TextThen(a, Text([], next)) == Text(a, next)
  {
    assert a + [] == a;
  }

  /** The text of one pair: its code point as it is when its case must be kept,
      otherwise upper- or lower-cased by a coin. */
  function Piece(p: Pair, casing: Casing, rng: Rng, pos: nat): Text {
    if p.1 then Text([p.0], pos)
    else if Coin(rng, pos) then Text(casing.toUpper(p.0), pos + 1)
    else Text(casing.toLower(p.0), pos + 1)
  }

  /** The text of a sequence of pairs, piece by piece. */
  function Render(pairs: seq<Pair>, casing: Casing, rng: Rng, pos: nat): Text
    decreases |pairs|
  {
    if pairs == [] then Text([], pos)
    else
      var first := Piece(pairs[0], casing, rng, pos);
      TextThen(first.chars, Render(pairs[1..], casing, rng, first.next))
  }

  /** The number of pairs whose case is free. */
  function Uncased(pairs: seq<Pair>): (k: nat)
    ensures k <= |pairs|
  {
    if pairs == [] then 0 else (if pairs[0].1 then 0 else 1) + Uncased(pairs[1..])
  }

  /** Rendering draws exactly one coin per pair whose case is free. */
  lemma {:induction false} RenderDraws(pairs: seq<Pair>, casing: Casing, rng: Rng, pos: nat)
    ensures Render(pairs, casing, rng, pos).next == pos + Uncased(pairs)
    decreases |pairs|
  {
    if pairs != [] {
      RenderDraws(pairs[1..], casing, rng, Piece(pairs[0], casing, rng, pos).next);
    }
  }

  /** Pairs whose case is kept render to their own code points, drawing nothing. */
  lemma {:induction false} RenderKept(pairs: seq<Pair>, casing: Casing, rng: Rng, pos: nat)
    requires forall k :: 0 <= k < |pairs| ==> pairs[k].1
    ensures Render(pairs, casing, rng, pos) == Text(seq(|pairs|, k requires 0 <= k < |pairs| => pairs[k].0), pos)
    decreases |pairs|
  {
    if pairs != [] {
      RenderKept(pairs[1..], casing, rng, pos);
      var all := seq(|pairs|, k requires 0 <= k < |pairs| => pairs[k].0);
      assert all == [pairs[0].0] + seq(|pairs| - 1, k requires 0 <= k < |pairs| - 1 => pairs[1..][k].0);
    }
  }

  /** Rendering a concatenation renders the first part, then the second from
      where the first stopped drawing. */
  lemma {:induction false} RenderAppend(a: seq<Pair>, b: seq<Pair>, casing: Casing, rng: Rng, pos: nat)
    ensures Render(a + b, casing, rng, pos)
         == TextThen(Render(a, casing, rng, pos).chars, Render(b, casing, rng, Render(a, casing, rng, pos).next))
    decreases |a|
  {
    if a == [] {
      assert a + b == b;
    } else {
      var first := Piece(a[0], casing, rng, pos);
      assert (a + b)[0] == a[0] && (a + b)[1..] == a[1..] + b;
      RenderAppend(a[1..], b, casing, rng, first.next);
      var restA := Render(a[1..], casing, rng, first.next);
      TextThenAssoc(first.chars, restA.chars, Render(b, casing, rng, restA.next));
    }
  }

  // ---------------------------------------------------------------------------
  // StringNode

  /** A run of code points with one case-sensitivity flag. */
  class StringNode {
    const Chars: seq<int>
    const CaseSensitive: bool

    /** Copies the code points; the flag comes from the cursor. */
    constructor(value: seq<int>, state: RegexParseState)
      ensures Chars == value && CaseSensitive == state.CaseSensitive
    {
      Chars := value;
      CaseSensitive := state.CaseSensitive;
    }

    /** A single code point. */
    constructor OfCodePoint(value: int, state: RegexParseState)
      ensures Chars == [value] && CaseSensitive == state.CaseSensitive
    {
      Chars := [value];
      CaseSensitive := state.CaseSensitive;
    }

    /** The stored code points verbatim when case-sensitive; otherwise each one
        upper- or lower-cased by its own coin, in order. */
    method GenerateSample(casing: Casing, rng: Rng, pos: nat) returns (text: seq<int>, next: nat)
      ensures CaseSensitive ==> text == Chars && next == pos
      ensures !CaseSensitive ==> next == pos + |Chars|
      ensures Text(text, next) == Render(AsPairs(Chars, CaseSensitive), casing, rng, pos)
    {
      var pairs := AsPairs(Chars, CaseSensitive);
      if CaseSensitive {
        RenderCaseSensitive(Chars, casing, rng, pos);
        return Chars, pos;
      }
      text, next := [], pos;
      var i := 0;
      TextThenNothing([], pos);
      while i < |Chars|
        invariant 0 <= i <= |Chars| && next == pos + i
        invariant Render(pairs, casing, rng, pos) == TextThen(text, Render(pairs[i..], casing, rng, next))
      {
        var c := Chars[i];
        var piece := if Coin(rng, next) then casing.toUpper(c) else casing.toLower(c);
        RenderStep(pairs, i, casing, rng, pos, text, next);
        text, next := text + piece, next + 1;
        i := i + 1;
      }
      assert pairs[i..] == [];
      TextThenNothing(text, next);
    }
  }

  /** Case-sensitive code points render to themselves, drawing nothing. */
  lemma RenderCaseSensitive(chars: seq<int>, casing: Casing, rng: Rng, pos: nat)
    ensures Render(AsPairs(chars, true), casing, rng, pos) == Text(chars, pos)
  {
    var pairs := AsPairs(chars, true);
    RenderKept(pairs, casing, rng, pos);
    assert seq(|pairs|, k requires 0 <= k < |pairs| => pairs[k].0) == chars;
  }

  /** A free-case pair at i renders to its upper- or lower-cased code point by
      the coin at pos, ahead of the pairs after it. */
  lemma RenderStep(pairs: seq<Pair>, i: nat, casing: Casing, rng: Rng, pos: nat, text: seq<int>, next: nat)
    requires i < |pairs| && !pairs[i].1
    requires Render(pairs, casing, rng, pos) == TextThen(text, Render(pairs[i..], casing, rng, next))
    ensures var piece := if Coin(rng, next) then casing.toUpper(pairs[i].0) else casing.toLower(pairs[i].0);
            Render(pairs, casing, rng, pos) == TextThen(text + piece, Render(pairs[i + 1..], casing, rng, next + 1))
  {
    assert pairs[i..][0] == pairs[i] && pairs[i..][1..] == pairs[i + 1..];
    var piece := if Coin(rng, next) then casing.toUpper(pairs[i].0) else casing.toLower(pairs[i].0);
    TextThenAssoc(text, piece, Render(pairs[i + 1..], casing, rng, next + 1));
  }

  /** The pairs the code points make with one flag. */
  function AsPairs(chars: seq<int>, caseSensitive: bool): (pairs: seq<Pair>)
    ensures |pairs| == |chars|
    ensures forall k :: 0 <= k < |chars| ==> pairs[k] == (chars[k], caseSensitive)
  {
    seq(|chars|, k requires 0 <= k < |chars| => (chars[k], caseSensitive))
  }
}
