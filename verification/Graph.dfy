/**
 The value held by a `DepGraph` (`src/cluster_linearize.h:27-126`): per position a fee/size pair and
 the sets of ancestors and descendants, both including the position itself.

 This module also fixes what the cluster code means by a topologically valid subset and by a
 linearization, and the aggregate feerate of a set.
 */
module Graphs {
  import opened FeeFracs
  import opened Diagrams
  import opened Sequences

  datatype Entry = Entry(feerate: FeeFrac, ancestors: set<nat>, descendants: set<nat>)

  datatype Graph = Graph(entries: seq<Entry>, used: set<nat>) {

    function Anc(i: nat): set<nat> {
      if i < |entries| then entries[i].ancestors else {}
    }

    function Desc(i: nat): set<nat> {
      if i < |entries| then entries[i].descendants else {}
    }

    function Rate(i: nat): FeeFrac {
      if i < |entries| then entries[i].feerate else EMPTY
    }

    /** Aggregate feerate of the positions of `s` below `n`. */
    function RateBelow(s: set<nat>, n: nat): FeeFrac {
      if n == 0 then EMPTY
      else if n - 1 in s then RateBelow(s, n - 1).Plus(Rate(n - 1))
      else RateBelow(s, n - 1)
    }

    function FeeRate(s: set<nat>): FeeFrac {
      RateBelow(s, |entries|)
    }

    /** Ancestor and descendant sets are reflexive, transitive and mutually inverse on the used positions. */
    ghost predicate Valid() {
      && (forall i :: i in used ==> i < |entries|)
      && (forall i :: i in used ==> i in Anc(i) && Anc(i) <= used && Desc(i) <= used)
      && (forall i, j :: i in used && j in Anc(i) ==> Anc(j) <= Anc(i))
      && (forall i, j :: i in used && j in used ==> (j in Anc(i) <==> i in Desc(j)))
    }

    ghost predicate Acyclic() {
      forall i, j :: i in used && j in used && i in Anc(j) && j in Anc(i) ==> i == j
    }

    ghost predicate PositiveSizes() {
      forall i :: i in used ==> Rate(i).size > 0
    }

    /** What the linearization code demands of its graphs. */
    ghost predicate Cluster() {
      Valid() && Acyclic() && PositiveSizes()
    }

    /** `s` is a topologically valid subset of `todo`: it includes all in-`todo` ancestors of its members. */
    ghost predicate Closed(todo: set<nat>, s: set<nat>) {
      s <= todo && forall i :: i in s ==> Anc(i) * todo <= s
    }

    /** No entry of `lin` is an ancestor of an earlier one, and none occurs twice. */
    ghost predicate Topological(lin: seq<nat>) {
      Distinct(lin) && forall i, j :: 0 <= i < j < |lin| ==> lin[j] !in Anc(lin[i])
    }

    ghost predicate IsLinearization(lin: seq<nat>) {
      Topological(lin) && SetOf(lin) == used
    }

    /** The fee/size pairs of a list of positions. */
    function Rates(lin: seq<nat>): seq<FeeFrac> {
      seq(|lin|, i requires 0 <= i < |lin| => Rate(lin[i]))
    }
  }

  // ----- Aggregate feerates -----

  lemma {:induction false} RateBelowDisjoint(g: Graph, a: set<nat>, b: set<nat>, n: nat)
    requires a !! b
    ensures g.RateBelow(a + b, n) == g.RateBelow(a, n).Plus(g.RateBelow(b, n))
  {
    hide FeeFrac.Plus;
    if n == 0 {
      PlusLaws(EMPTY, EMPTY, EMPTY);
    } else {
      RateBelowDisjoint(g, a, b, n - 1);
      PlusLaws(g.RateBelow(a, n - 1), g.RateBelow(b, n - 1), g.Rate(n - 1));
    }
  }

  lemma RateDisjoint(g: Graph, a: set<nat>, b: set<nat>)
    requires a !! b
    ensures g.FeeRate(a + b) == g.FeeRate(a).Plus(g.FeeRate(b))
  {
    RateBelowDisjoint(g, a, b, |g.entries|);
  }

  /** A set splits into its part inside and its part outside another. */
  lemma RateSplit(g: Graph, s: set<nat>, t: set<nat>)
    ensures g.FeeRate(s) == g.FeeRate(s * t).Plus(g.FeeRate(s - t))
  {
    assert s == s * t + (s - t);
    RateDisjoint(g, s * t, s - t);
  }

  lemma {:induction false} RateBelowEmpty(g: Graph, s: set<nat>, n: nat)
    requires forall i :: i in s ==> i >= n
    ensures g.RateBelow(s, n) == EMPTY
  {
    if n > 0 {
      RateBelowEmpty(g, s, n - 1);
    }
  }

  lemma {:induction false} RateBelowOne(g: Graph, i: nat, n: nat)
    requires i < n
    ensures g.RateBelow({i}, n) == g.Rate(i)
  {
    hide FeeFrac.Plus;
    PlusLaws(g.Rate(i), EMPTY, EMPTY);
    if n == i + 1 {
      RateBelowEmpty(g, {i}, i);
    } else {
      RateBelowOne(g, i, n - 1);
    }
  }

  lemma RateOne(g: Graph, i: nat)
    requires i < |g.entries|
    ensures g.FeeRate({i}) == g.Rate(i)
    ensures g.FeeRate({}) == EMPTY
  {
    RateBelowOne(g, i, |g.entries|);
    RateBelowEmpty(g, {}, |g.entries|);
  }

  lemma RateNone(g: Graph)
    ensures g.FeeRate({}) == EMPTY
  {
    RateBelowEmpty(g, {}, |g.entries|);
  }

  lemma {:induction false} RateBelowPositive(g: Graph, s: set<nat>, n: nat)
    requires forall i :: i in s ==> g.Rate(i).size > 0
    ensures g.RateBelow(s, n).size >= 0
    ensures (exists i :: i in s && i < n) ==> g.RateBelow(s, n).size > 0
  {
    if n > 0 {
      RateBelowPositive(g, s, n - 1);
    }
  }

  lemma RatePositive(g: Graph, s: set<nat>)
    requires g.Valid() && g.PositiveSizes() && s <= g.used
    ensures g.FeeRate(s).size >= 0
    ensures s != {} ==> g.FeeRate(s).size > 0
    ensures s == {} ==> g.FeeRate(s) == EMPTY
  {
    RateBelowPositive(g, s, |g.entries|);
    RateNone(g);
    if s != {} {
      var i :| i in s;
      assert i in s && i < |g.entries|;
    }
  }

  lemma {:induction false} RateBelowGain(g: Graph, s: set<nat>, rate: FeeFrac, n: nat)
    ensures (forall i :: i in s ==> Gain(rate, g.Rate(i)) >= 0) ==> Gain(rate, g.RateBelow(s, n)) >= 0
    ensures (forall i :: i in s ==> Gain(rate, g.Rate(i)) <= 0) ==> Gain(rate, g.RateBelow(s, n)) <= 0
  {
    assert Gain(rate, EMPTY) == 0;
    if n > 0 {
      hide Gain;
      RateBelowGain(g, s, rate, n - 1);
      GainSum(rate, g.RateBelow(s, n - 1), g.Rate(n - 1));
    }
  }

  /** Members that gain (lose) make a set that gains (loses). */
  lemma RateGain(g: Graph, s: set<nat>, rate: FeeFrac)
    ensures (forall i :: i in s ==> Gain(rate, g.Rate(i)) >= 0) ==> Gain(rate, g.FeeRate(s)) >= 0
    ensures (forall i :: i in s ==> Gain(rate, g.Rate(i)) <= 0) ==> Gain(rate, g.FeeRate(s)) <= 0
  {
    RateBelowGain(g, s, rate, |g.entries|);
  }

  lemma RateGainSplit(g: Graph, s: set<nat>, t: set<nat>, rate: FeeFrac)
    ensures Gain(rate, g.FeeRate(s)) == Gain(rate, g.FeeRate(s * t)) + Gain(rate, g.FeeRate(s - t))
  {
    RateSplit(g, s, t);
    GainSum(rate, g.FeeRate(s * t), g.FeeRate(s - t));
  }

  lemma RatesConcat(g: Graph, a: seq<nat>, b: seq<nat>)
    ensures g.Rates(a + b) == g.Rates(a) + g.Rates(b)
  {
  }

  /** The order of a set's members does not matter to their sum. */
  lemma {:induction false} RatesTotal(g: Graph, lin: seq<nat>)
    requires Distinct(lin) && forall x :: x in lin ==> x < |g.entries|
    ensures Total(g.Rates(lin)) == g.FeeRate(SetOf(lin))
  {
    if lin == [] {
      assert SetOf(lin) == {};
      RateNone(g);
    } else {
      var x, rest := lin[0], lin[1..];
      assert lin == [x] + rest;
      DistinctConcat([x], rest);
      SetOfConcat([x], rest);
      assert SetOf([x]) == {x};
      forall y | y in rest ensures y < |g.entries| { assert y in lin; }
      RatesTotal(g, rest);
      RatesConcat(g, [x], rest);
      assert g.Rates(lin)[0] == g.Rate(x) && g.Rates(lin)[1..] == g.Rates(rest);
      RateOne(g, x);
      RateDisjoint(g, {x}, SetOf(rest));
    }
  }

  // ----- Topological order -----

  /** Nothing in `b` needs to come before something in `a`. */
  ghost predicate NoBackEdge(g: Graph, a: set<nat>, b: set<nat>) {
    forall x, y :: x in a && y in b ==> y !in g.Anc(x)
  }

  lemma TopologicalConcat(g: Graph, a: seq<nat>, b: seq<nat>)
    ensures g.Topological(a + b) <==>
            g.Topological(a) && g.Topological(b) && SetOf(a) !! SetOf(b) && NoBackEdge(g, SetOf(a), SetOf(b))
  {
    var s := a + b;
    DistinctConcat(a, b);
    if g.Topological(s) {
      forall i, j | 0 <= i < j < |a| ensures a[j] !in g.Anc(a[i]) { assert s[j] !in g.Anc(s[i]); }
      forall i, j | 0 <= i < j < |b| ensures b[j] !in g.Anc(b[i]) { assert s[|a| + j] !in g.Anc(s[|a| + i]); }
      forall x, y | x in SetOf(a) && y in SetOf(b) ensures y !in g.Anc(x) {
        var i :| 0 <= i < |a| && a[i] == x;
        var j :| 0 <= j < |b| && b[j] == y;
        assert s[|a| + j] !in g.Anc(s[i]);
      }
    }
    if g.Topological(a) && g.Topological(b) && NoBackEdge(g, SetOf(a), SetOf(b)) {
      forall i, j | 0 <= i < j < |s| ensures s[j] !in g.Anc(s[i]) {
        if i < |a| <= j { assert a[i] in SetOf(a) && b[j - |a|] in SetOf(b); }
      }
    }
  }

  lemma {:induction false} TopologicalRestrict(g: Graph, lin: seq<nat>, keep: set<nat>)
    requires g.Topological(lin)
    ensures g.Topological(Restrict(lin, keep))
  {
    if lin != [] {
      var x, rest := [lin[0]], lin[1..];
      assert lin == x + rest;
      TopologicalConcat(g, x, rest);
      TopologicalRestrict(g, rest, keep);
      RestrictMembers(rest, keep);
      TopologicalConcat(g, x, Restrict(rest, keep));
    }
  }

  /** A prefix of a topological order is a topologically valid subset of it. */
  lemma PrefixClosed(g: Graph, a: seq<nat>, b: seq<nat>)
    requires g.Topological(a + b)
    ensures g.Closed(SetOf(a + b), SetOf(a))
    ensures SetOf(a + b) == SetOf(a) + SetOf(b) && SetOf(a) !! SetOf(b)
  {
    TopologicalConcat(g, a, b);
    SetOfConcat(a, b);
  }

  /** Moving a topologically valid subset to the front of what remains keeps an order topological. */
  lemma MoveFirstTopological(g: Graph, pre: seq<nat>, lin: seq<nat>, first: seq<nat>)
    requires g.Topological(pre + lin)
    requires g.Topological(first) && g.Closed(SetOf(lin), SetOf(first))
    ensures g.Topological(pre + first + Restrict(lin, SetOf(lin) - SetOf(first)))
    ensures SetOf(pre + first + Restrict(lin, SetOf(lin) - SetOf(first))) == SetOf(pre + lin)
  {
    var keep := SetOf(lin) - SetOf(first);
    var rest := Restrict(lin, keep);
    TopologicalConcat(g, pre, lin);
    TopologicalRestrict(g, lin, keep);
    RestrictMembers(lin, keep);
    TopologicalConcat(g, pre, first);
    TopologicalConcat(g, pre + first, rest);
    SetOfConcat(pre, first);
    SetOfConcat(pre + first, rest);
    SetOfConcat(pre, lin);
  }

  lemma TopologicalDistinct(g: Graph, lin: seq<nat>)
    requires g.Topological(lin)
    ensures Distinct(lin)
  {
  }

  lemma ClosedWithin(g: Graph, todo: set<nat>, s: set<nat>)
    requires g.Closed(todo, s)
    ensures s <= todo
  {
  }

  lemma ClosedIntersection(g: Graph, todo: set<nat>, a: set<nat>, b: set<nat>)
    requires g.Closed(todo, a) && g.Closed(todo, b)
    ensures g.Closed(todo, a * b) && g.Closed(todo, a + b)
  {
  }
}
