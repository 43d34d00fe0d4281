/**
 When moving a subset to the front of a linearization does not make it worse anywhere
 (`src/cluster_linearize.h:506-514`).
 */
module Improvements {
  import opened Basics
  import opened FeeFracs
  import opened Diagrams
  import opened Sequences
  import opened Graphs
  import opened Chunkings

  /** What remains of `lin` without `done`. */
  function Without(lin: seq<nat>, done: set<nat>): seq<nat> {
    Restrict(lin, SetOf(lin) - done)
  }

  /** At no feerate does the peak of `lin` exceed what is reachable after putting all of `first` in front. */
  ghost predicate SafeFirst(g: Graph, lin: seq<nat>, first: set<nat>) {
    forall rate: FeeFrac :: rate.size > 0 ==>
      Peak(rate, g.Rates(lin)) <= Max(0, Gain(rate, g.FeeRate(first)) + Peak(rate, g.Rates(Without(lin, first))))
  }

  /** What the lemmas here demand of a (remaining) linearization. */
  ghost predicate Proper(g: Graph, lin: seq<nat>) {
    g.Valid() && g.PositiveSizes() && Distinct(lin) && SetOf(lin) <= g.used
  }

  lemma ProperSized(g: Graph, lin: seq<nat>)
    requires Proper(g, lin)
    ensures Sized(g, lin)
    ensures SegRate(g, lin) == g.FeeRate(SetOf(lin))
  {
    forall i | 0 <= i < |lin| ensures g.Rate(lin[i]).size > 0 {
      assert lin[i] in SetOf(lin);
    }
    forall x | x in lin ensures x < |g.entries| {
      assert x in SetOf(lin);
    }
    RatesTotal(g, lin);
  }

  lemma ProperParts(g: Graph, a: seq<nat>, b: seq<nat>)
    requires Proper(g, a + b)
    ensures Proper(g, a) && Proper(g, b) && SetOf(a) !! SetOf(b) && SetOf(a + b) == SetOf(a) + SetOf(b)
  {
    DistinctConcat(a, b);
    SetOfConcat(a, b);
  }

  lemma ProperRestrict(g: Graph, lin: seq<nat>, keep: set<nat>)
    requires Proper(g, lin)
    ensures Proper(g, Restrict(lin, keep)) && SetOf(Restrict(lin, keep)) == SetOf(lin) * keep
  {
    RestrictMembers(lin, keep);
    RestrictDistinct(lin, keep);
  }

  /** A subset in front, then the rest of a prefix: together they gain what the prefix and the part outside it gain. */
  lemma PrefixAfterMove(g: Graph, p: seq<nat>, q: seq<nat>, first: set<nat>, rate: FeeFrac)
    requires Proper(g, p + q) && first <= SetOf(p + q)
    requires Gain(rate, g.FeeRate(first - SetOf(p))) >= 0
    ensures Gain(rate, SegRate(g, p)) <= Gain(rate, g.FeeRate(first)) + Peak(rate, g.Rates(Without(p + q, first)))
  {
    hide Gain, Graph.FeeRate, Peak, FeeFrac.Plus;
    ProperParts(g, p, q);
    var keep := SetOf(p + q) - first;
    var p', q' := Restrict(p, keep), Restrict(q, keep);
    RestrictConcat(p, q, keep);
    ProperRestrict(g, p, keep);
    ProperSized(g, p);
    ProperSized(g, p');
    assert SetOf(p') == SetOf(p) - first;
    RatesConcat(g, p', q');
    PeakConcat(rate, g.Rates(p'), g.Rates(q'));
    PeakNonNegative(rate, g.Rates(q'));
    RateGainSplit(g, SetOf(p), first, rate);
    RateGainSplit(g, first, SetOf(p), rate);
    assert SetOf(p) * first == first * SetOf(p);
  }

  lemma {:induction false} SegRatesTotal(g: Graph, segs: seq<seq<nat>>)
    ensures Total(SegRates(g, segs)) == SegRate(g, Flatten(segs))
  {
    hide FeeFrac.Plus;
    if segs != [] {
      assert SegRates(g, segs)[1..] == SegRates(g, segs[1..]);
      SegRatesTotal(g, segs[1..]);
      SegRateConcat(g, segs[0], Flatten(segs[1..]));
    }
  }

  /** Some boundary between chunks reaches the peak. */
  lemma PeakAtBoundary(g: Graph, lin: seq<nat>, segs: seq<seq<nat>>, rate: FeeFrac) returns (m: nat)
    requires Sized(g, lin) && IsChunking(g, lin, segs) && rate.size > 0
    ensures m <= |segs| && lin == Flatten(segs[..m]) + Flatten(segs[m..])
    ensures Peak(rate, g.Rates(lin)) == Gain(rate, SegRate(g, Flatten(segs[..m])))
  {
    ChunkingPeak(g, segs, rate);
    m := PeakIsBestPrefix(rate, SegRates(g, segs));
    assert SegRates(g, segs)[..m] == SegRates(g, segs[..m]);
    SegRatesTotal(g, segs[..m]);
    assert segs == segs[..m] + segs[m..];
    FlattenConcat(segs[..m], segs[m..]);
  }

  lemma SafeAt(g: Graph, lin: seq<nat>, segs: seq<seq<nat>>, first: set<nat>, q: FeeFrac, rate: FeeFrac)
    requires Proper(g, lin) && IsChunking(g, lin, segs) && first <= SetOf(lin)
    requires q.size > 0 && rate.size > 0
    requires segs != [] ==> !Higher(SegRate(g, segs[0]), q)
    requires forall m :: 0 < m <= |segs| ==> Gain(q, g.FeeRate(first - SetOf(Flatten(segs[..m])))) >= 0
    ensures Peak(rate, g.Rates(lin)) <= Max(0, Gain(rate, g.FeeRate(first)) + Peak(rate, g.Rates(Without(lin, first))))
  {
    hide Graph.FeeRate, Peak, FeeFrac.Plus, Graph.Valid, Flatten, Total;
    ProperSized(g, lin);
    var rs := SegRates(g, segs);
    ChunkingPositive(g, segs);
    if segs == [] || !Higher(rs[0], rate) {
      PeakFlat(rate, rs);
      ChunkingPeak(g, segs, rate);
    } else {
      var m := PeakAtBoundary(g, lin, segs, rate);
      if m == 0 {
        assert segs[..m] == [];
        EmptyGain(g, rate);
      } else {
        var p := Flatten(segs[..m]);
        var out := first - SetOf(p);
        assert Gain(q, g.FeeRate(out)) >= 0;
        RatePositive(g, out);
        assert Gain(rate, rs[0]) >= 0 && Gain(q, rs[0]) <= 0;
        RateOrder(rs[0], q, rate);
        GainUp(q, rate, g.FeeRate(out));
        PrefixAfterMove(g, p, Flatten(segs[m..]), first, rate);
      }
    }
  }

  lemma EmptyGain(g: Graph, rate: FeeFrac)
    ensures Gain(rate, SegRate(g, Flatten([]))) == 0
  {
    assert g.Rates([]) == [];
  }

  lemma RateOrder(a: FeeFrac, q: FeeFrac, rate: FeeFrac)
    requires a.size > 0 && q.size > 0 && rate.size > 0
    requires Gain(rate, a) >= 0 && Gain(q, a) <= 0
    ensures Gain(rate, q) >= 0
  {
    assert Gain(a, q) == -Gain(q, a);
    GainUp(a, rate, q);
  }

  /**
   `first` may be moved to the front when, beyond every boundary between chunks, its part there has a
   feerate not below some `q` that is not below the first chunk.
   */
  lemma SafeCore(g: Graph, lin: seq<nat>, segs: seq<seq<nat>>, first: set<nat>, q: FeeFrac)
    requires Proper(g, lin) && IsChunking(g, lin, segs) && first <= SetOf(lin)
    requires q.size > 0
    requires segs != [] ==> !Higher(SegRate(g, segs[0]), q)
    requires forall m :: 0 < m <= |segs| ==> Gain(q, g.FeeRate(first - SetOf(Flatten(segs[..m])))) >= 0
    ensures SafeFirst(g, lin, first)
  {
    forall rate: FeeFrac | rate.size > 0
      ensures Peak(rate, g.Rates(lin)) <=
              Max(0, Gain(rate, g.FeeRate(first)) + Peak(rate, g.Rates(Without(lin, first))))
    {
      SafeAt(g, lin, segs, first, q, rate);
    }
  }

  /** Any part of the first chunk may be moved to the front. */
  lemma SafeInFirstChunk(g: Graph, lin: seq<nat>, first: set<nat>)
    requires Proper(g, lin) && lin != []
    requires Chunks(g, lin) != [] && first <= SetOf(Chunks(g, lin)[0])
    ensures SafeFirst(g, lin, first)
  {
    var segs := Chunks(g, lin);
    ProperSized(g, lin);
    ChunksChunking(g, lin);
    ChunkingPositive(g, segs);
    var q := SegRate(g, segs[0]);
    assert SegRates(g, segs)[0] == q;
    SetOfConcat(segs[0], Flatten(segs[1..]));
    forall m | 0 < m <= |segs| ensures Gain(q, g.FeeRate(first - SetOf(Flatten(segs[..m])))) >= 0 {
      assert segs[..m][0] == segs[0];
      SetOfConcat(segs[0], Flatten(segs[..m][1..]));
      assert first - SetOf(Flatten(segs[..m])) == {};
      RateNone(g);
    }
    SafeCore(g, lin, segs, first, q);
  }

  /** `s` is a topologically valid subset of `todo` that no other one beats in feerate. */
  ghost predicate Optimal(g: Graph, todo: set<nat>, s: set<nat>) {
    && g.Closed(todo, s) && s != {}
    && forall t :: g.Closed(todo, t) && t != {} ==> !Higher(g.FeeRate(t), g.FeeRate(s))
  }

  lemma OptimalBeyond(g: Graph, p: seq<nat>, q: seq<nat>, s: set<nat>)
    requires Proper(g, p + q) && g.Topological(p + q)
    requires Optimal(g, SetOf(p + q), s)
    ensures Gain(g.FeeRate(s), g.FeeRate(s - SetOf(p))) >= 0
    ensures p != [] ==> !Higher(g.FeeRate(SetOf(p)), g.FeeRate(s))
  {
    var todo := SetOf(p + q);
    PrefixClosed(g, p, q);
    ClosedIntersection(g, todo, SetOf(p), s);
    var f := g.FeeRate(s);
    var inner := SetOf(p) * s;
    assert Gain(f, g.FeeRate(inner)) <= 0 by {
      if inner == {} {
        RateNone(g);
      } else {
        assert !Higher(g.FeeRate(inner), f);
      }
    }
    assert s * SetOf(p) == inner;
    RateGainSplit(g, s, SetOf(p), f);
    assert Gain(f, f) == 0;
    if p != [] {
      assert p[0] in SetOf(p);
    }
  }

  /** A highest-feerate topologically valid subset may be moved to the front of every topological order. */
  lemma SafeOptimal(g: Graph, lin: seq<nat>, s: set<nat>)
    requires Proper(g, lin) && g.Topological(lin)
    requires Optimal(g, SetOf(lin), s)
    ensures SafeFirst(g, lin, s)
  {
    hide Graph.Valid, Graph.FeeRate, Graph.Topological, FeeFrac.Plus;
    var segs := Chunks(g, lin);
    ProperSized(g, lin);
    ChunksChunking(g, lin);
    var q := g.FeeRate(s);
    RatePositive(g, s);
    forall m | 0 < m <= |segs|
      ensures Gain(q, g.FeeRate(s - SetOf(Flatten(segs[..m])))) >= 0
    {
      assert segs == segs[..m] + segs[m..];
      FlattenConcat(segs[..m], segs[m..]);
      OptimalBeyond(g, Flatten(segs[..m]), Flatten(segs[m..]), s);
    }
    if segs != [] {
      OptimalBeyond(g, segs[0], Flatten(segs[1..]), s);
      ProperParts(g, segs[0], Flatten(segs[1..]));
      ProperSized(g, segs[0]);
    }
    SafeCore(g, lin, segs, s, q);
  }

  /** The positions in the first `k` chunks. */
  function PrefixSet(segs: seq<seq<nat>>, k: nat): set<nat>
    requires k <= |segs|
  {
    SetOf(Flatten(segs[..k]))
  }

  lemma PrefixSetGrows(segs: seq<seq<nat>>, j: nat, k: nat)
    requires j <= k <= |segs|
    ensures PrefixSet(segs, j) <= PrefixSet(segs, k)
  {
    assert segs[..k] == segs[..j] + segs[j..k];
    FlattenConcat(segs[..j], segs[j..k]);
    SetOfConcat(Flatten(segs[..j]), Flatten(segs[j..k]));
  }

  /**
   `t` is the shortest intersection of `s` with the chunks of `segs` whose feerate is not below that of
   `s`: what `IntersectPrefixes` promises to find.
   */
  ghost predicate ShortestIntersection(g: Graph, segs: seq<seq<nat>>, s: set<nat>, t: set<nat>, j: nat) {
    && j <= |segs| && t == s * PrefixSet(segs, j)
    && !Higher(g.FeeRate(s), g.FeeRate(t))
    && forall i :: 0 <= i < j ==>
         s * PrefixSet(segs, i) == {} || Higher(g.FeeRate(s), g.FeeRate(s * PrefixSet(segs, i)))
  }

  lemma IntersectionBeyond(g: Graph, segs: seq<seq<nat>>, s: set<nat>, t: set<nat>, j: nat, m: nat)
    requires ShortestIntersection(g, segs, s, t, j) && m <= |segs|
    ensures Gain(g.FeeRate(s), g.FeeRate(t - PrefixSet(segs, m))) >= 0
  {
    hide Graph.FeeRate;
    var p, f := PrefixSet(segs, m), g.FeeRate(s);
    RateNone(g);
    assert Gain(f, EMPTY) == 0;
    if j <= m {
      PrefixSetGrows(segs, j, m);
      assert t - p == {};
    } else {
      PrefixSetGrows(segs, m, j);
      assert t * p == s * p;
      assert Gain(f, g.FeeRate(t * p)) <= 0;
      RateGainSplit(g, t, p, f);
    }
  }

  /** The intersection theorem: what `IntersectPrefixes` finds may be moved to the front. */
  lemma SafeIntersection(g: Graph, lin: seq<nat>, s: set<nat>, t: set<nat>, j: nat)
    requires Proper(g, lin) && s <= SetOf(lin) && s != {}
    requires ShortestIntersection(g, Chunks(g, lin), s, t, j)
    requires Chunks(g, lin) != [] ==> !Higher(SegRate(g, Chunks(g, lin)[0]), g.FeeRate(s))
    ensures SafeFirst(g, lin, t)
  {
    hide Graph.FeeRate, Graph.Valid;
    var segs := Chunks(g, lin);
    ProperSized(g, lin);
    ChunksChunking(g, lin);
    RatePositive(g, s);
    forall m | 0 < m <= |segs| ensures Gain(g.FeeRate(s), g.FeeRate(t - SetOf(Flatten(segs[..m])))) >= 0 {
      IntersectionBeyond(g, segs, s, t, j, m);
    }
    SafeCore(g, lin, segs, t, g.FeeRate(s));
  }

  /** A safe move in front of what remains makes the whole order at least as good. */
  lemma MoveDominates(g: Graph, pre: seq<nat>, lin: seq<nat>, first: seq<nat>)
    requires Proper(g, lin) && Distinct(first) && SetOf(first) <= SetOf(lin)
    requires SafeFirst(g, lin, SetOf(first))
    ensures Dominates(g.Rates(pre + first + Without(lin, SetOf(first))), g.Rates(pre + lin))
  {
    hide Graph.FeeRate, Graph.Valid, Gain, FeeFrac.Plus;
    var rest := Without(lin, SetOf(first));
    ProperSized(g, first);
    forall rate: FeeFrac | rate.size > 0
      ensures Peak(rate, g.Rates(pre + first + rest)) >= Peak(rate, g.Rates(pre + lin))
    {
      RatesConcat(g, pre, first + rest);
      RatesConcat(g, first, rest);
      RatesConcat(g, pre, lin);
      assert pre + first + rest == pre + (first + rest);
      PeakConcat(rate, g.Rates(pre), g.Rates(first + rest));
      PeakConcat(rate, g.Rates(pre), g.Rates(lin));
      PeakConcat(rate, g.Rates(first), g.Rates(rest));
      PeakNonNegative(rate, g.Rates(first));
    }
  }
}
