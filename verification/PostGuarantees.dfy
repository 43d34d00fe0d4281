/**
 The guarantees of `PostLinearize` (`src/cluster_linearize.h:1120-1146`): a backward pass, which is a
 forward pass over the reversed order of the reversed graph, followed by a forward pass.
 */
module PostGuarantees {
  import opened FeeFracs
  import opened Diagrams
  import opened Sequences
  import opened Graphs
  import opened Chunkings
  import opened Improvements
  import opened LinearizationChunkings
  import opened Components
  import opened Passes
  import opened TreePasses

  // ----- Seeing the graph in the other direction -----

  /** Parents and children are swapped, and fees negated. */
  function Reversed(g: Graph): Graph {
    Graph(seq(|g.entries|, k requires 0 <= k < |g.entries| =>
            Entry(g.entries[k].feerate.Negated(), g.entries[k].descendants, g.entries[k].ancestors)),
          g.used)
  }

  function Reverse(s: seq<nat>): seq<nat> {
    seq(|s|, i requires 0 <= i < |s| => s[|s| - 1 - i])
  }

  lemma ReversedFacts(g: Graph)
    ensures Reversed(g).used == g.used && |Reversed(g).entries| == |g.entries|
    ensures forall i :: Reversed(g).Anc(i) == g.Desc(i) && Reversed(g).Desc(i) == g.Anc(i)
    ensures forall i :: 0 <= i < |g.entries| ==> Reversed(g).Rate(i) == g.Rate(i).Negated()
  {
  }

  lemma ReversedCluster(g: Graph)
    requires g.Cluster()
    ensures Reversed(g).Cluster()
  {
    var v := Reversed(g);
    ReversedFacts(g);
    forall i, j | i in v.used && j in v.Anc(i) ensures v.Anc(j) <= v.Anc(i) {
      DescendantsNest(g, i, j);
    }
  }

  lemma DescendantsNest(g: Graph, i: nat, j: nat)
    requires g.Valid() && i in g.used && j in g.Desc(i)
    ensures g.Desc(j) <= g.Desc(i)
  {
    assert i in g.Anc(j);
    forall k | k in g.Desc(j) ensures k in g.Desc(i) {
      assert j in g.Anc(k);
      assert g.Anc(j) <= g.Anc(k);
    }
  }

  lemma ReverseMembers(s: seq<nat>)
    ensures SetOf(Reverse(s)) == SetOf(s) && Reverse(Reverse(s)) == s
  {
    var r := Reverse(s);
    forall x | x in s ensures x in r {
      var i :| 0 <= i < |s| && s[i] == x;
      assert r[|s| - 1 - i] == x;
    }
  }

  lemma ReverseConcat(a: seq<nat>, b: seq<nat>)
    ensures Reverse(a + b) == Reverse(b) + Reverse(a)
  {
  }

  lemma ReverseTopological(g: Graph, lin: seq<nat>)
    requires g.Valid() && SetOf(lin) <= g.used && g.Topological(lin)
    ensures Reversed(g).Topological(Reverse(lin))
  {
    ReversedFacts(g);
    var r, n := Reverse(lin), |lin|;
    forall i, j | 0 <= i < j < n ensures r[i] != r[j] && r[j] !in Reversed(g).Anc(r[i]) {
      var a, b := lin[n - 1 - j], lin[n - 1 - i];
      assert a in SetOf(lin) && b in SetOf(lin);
      assert b !in g.Anc(a);
      assert b in g.Anc(a) <==> a in g.Desc(b);
    }
  }

  lemma ReversedTwice(g: Graph, lin: seq<nat>)
    requires g.Valid() && SetOf(lin) <= g.used && Reversed(g).Valid() && Reversed(g).Topological(lin)
    ensures g.Topological(Reverse(lin))
  {
    ReversedFacts(g);
    ReversedFacts(Reversed(g));
    ReverseTopological(Reversed(g), lin);
    forall i ensures Reversed(Reversed(g)).Anc(i) == g.Anc(i) {
    }
  }

  lemma ReversedProper(g: Graph, lin: seq<nat>)
    requires g.Cluster() && Proper(g, lin)
    ensures Proper(Reversed(g), Reverse(lin))
  {
    ReversedCluster(g);
    ReversedFacts(g);
    ReverseMembers(lin);
    forall i, j | 0 <= i < j < |lin| ensures Reverse(lin)[i] != Reverse(lin)[j] {
      assert lin[|lin| - 1 - j] != lin[|lin| - 1 - i];
    }
  }

  /** The mirror image of a list of fee/size pairs. */
  function Mirror(fs: seq<FeeFrac>): seq<FeeFrac> {
    if fs == [] then [] else Mirror(fs[1..]) + [fs[0].Negated()]
  }

  lemma {:induction false} MirrorRates(g: Graph, lin: seq<nat>)
    requires forall i :: 0 <= i < |lin| ==> lin[i] < |g.entries|
    ensures Reversed(g).Rates(Reverse(lin)) == Mirror(g.Rates(lin))
  {
    hide FeeFrac.Negated, Reversed;
    ReversedFacts(g);
    if lin == [] {
      assert Reverse(lin) == [] && g.Rates(lin) == [];
    } else {
      var rest := lin[1..];
      MirrorRates(g, rest);
      assert lin == [lin[0]] + rest;
      ReverseConcat([lin[0]], rest);
      assert Reverse([lin[0]]) == [lin[0]];
      assert g.Rates(lin)[1..] == g.Rates(rest) && g.Rates(lin)[0] == g.Rate(lin[0]);
      RatesConcat(Reversed(g), Reverse(rest), [lin[0]]);
      assert Reversed(g).Rates([lin[0]]) == [g.Rate(lin[0]).Negated()];
    }
  }

  /** A mirrored list has the same peaks, measured from the other end. */
  lemma {:induction false} MirrorPeak(rate: FeeFrac, fs: seq<FeeFrac>)
    ensures Peak(rate.Negated(), Mirror(fs)) == Peak(rate, fs) - Gain(rate, Total(fs))
    ensures Gain(rate.Negated(), Total(Mirror(fs))) == -Gain(rate, Total(fs))
  {
    if fs == [] {
      assert Gain(rate, EMPTY) == 0 && Gain(rate.Negated(), EMPTY) == 0;
    } else {
      var rest, x := fs[1..], fs[0];
      MirrorPeak(rate, rest);
      assert Gain(rate.Negated(), x.Negated()) == -Gain(rate, x);
      hide Gain, FeeFrac.Plus, FeeFrac.Negated;
      PeakAppend(rate.Negated(), Mirror(rest), x.Negated());
      GainSum(rate.Negated(), Total(Mirror(rest)), x.Negated());
      GainSum(rate, x, Total(rest));
    }
  }

  /** A better order of the reversed graph is a better order of the graph. */
  lemma MirrorDominates(g: Graph, a: seq<nat>, b: seq<nat>)
    requires g.Cluster() && Proper(g, a) && Proper(g, b) && SetOf(a) == SetOf(b)
    requires Dominates(Reversed(g).Rates(Reverse(a)), Reversed(g).Rates(Reverse(b)))
    ensures Dominates(g.Rates(a), g.Rates(b))
  {
    hide Graph.Valid, Graph.PositiveSizes, Peak, Gain, FeeFrac.Negated, Reversed;
    ProperSized(g, a);
    ProperSized(g, b);
    ProperInRange(g, a);
    ProperInRange(g, b);
    MirrorRates(g, a);
    MirrorRates(g, b);
    forall rate: FeeFrac | rate.size > 0 ensures Peak(rate, g.Rates(a)) >= Peak(rate, g.Rates(b)) {
      MirrorPeak(rate, g.Rates(a));
      MirrorPeak(rate, g.Rates(b));
      NegatedSize(rate);
      var r := rate.Negated();
      assert Peak(r, Mirror(g.Rates(a))) >= Peak(r, Mirror(g.Rates(b)));
    }
  }

  lemma ProperInRange(g: Graph, lin: seq<nat>)
    requires Proper(g, lin)
    ensures forall i :: 0 <= i < |lin| ==> lin[i] < |g.entries|
  {
    forall i | 0 <= i < |lin| ensures lin[i] < |g.entries| {
      assert lin[i] in SetOf(lin);
    }
  }

  lemma NegatedSize(rate: FeeFrac)
    ensures rate.Negated().size == rate.size
  {
  }

  // ----- The two passes -----

  function BackwardPass(g: Graph, lin: seq<nat>): seq<nat> {
    Reverse(Pass(Reversed(g), Reverse(lin)))
  }

  /** What `PostLinearize` turns `lin` into. */
  function PostLinearized(g: Graph, lin: seq<nat>): seq<nat> {
    Pass(g, BackwardPass(g, lin))
  }

  lemma BackwardImproves(g: Graph, lin: seq<nat>)
    requires g.Cluster() && g.IsLinearization(lin)
    ensures g.IsLinearization(BackwardPass(g, lin)) && Dominates(g.Rates(BackwardPass(g, lin)), g.Rates(lin))
  {
    hide Pass, Graph.Topological, Reversed;
    BackwardSetup(g, lin);
    var v, items := Reversed(g), Reverse(lin);
    PassImproves(v, items);
    BackwardResult(g, items);
    ReverseMembers(Pass(v, items));
    ReverseMembers(lin);
    ClusterProper(g, lin);
    ClusterProper(g, BackwardPass(g, lin));
    MirrorDominates(g, BackwardPass(g, lin), lin);
  }

  lemma BackwardSetup(g: Graph, lin: seq<nat>)
    requires g.Cluster() && g.IsLinearization(lin)
    ensures Reversed(g).Cluster() && Reversed(g).used == g.used
    ensures Proper(Reversed(g), Reverse(lin)) && Reversed(g).IsLinearization(Reverse(lin))
  {
    ReversedCluster(g);
    ReversedFacts(g);
    ReversedProper(g, lin);
    ReverseMembers(lin);
    ReverseTopological(g, lin);
  }

  /** The reverse of a linearization of the reversed graph is one of the graph. */
  lemma BackwardResult(g: Graph, items: seq<nat>)
    requires g.Cluster() && Reversed(g).Cluster() && Reversed(g).used == g.used
    requires Reversed(g).Topological(Pass(Reversed(g), items)) && SetOf(Pass(Reversed(g), items)) == g.used
    ensures g.IsLinearization(Reverse(Pass(Reversed(g), items)))
  {
    var r := Pass(Reversed(g), items);
    ReversedTwice(g, r);
    ReverseMembers(r);
  }

  lemma ClusterProper(g: Graph, lin: seq<nat>)
    requires g.Cluster() && g.IsLinearization(lin)
    ensures Proper(g, lin) && g.Topological(lin) && SetOf(lin) == g.used
  {
  }

  /** The result is a linearization whose diagram lies nowhere below that of the input. */
  lemma PostImproves(g: Graph, lin: seq<nat>)
    requires g.Cluster() && g.IsLinearization(lin)
    ensures g.IsLinearization(PostLinearized(g, lin)) && AtLeastAsGood(g, PostLinearized(g, lin), lin)
  {
    hide Pass, Graph.Topological, Reversed, BackwardPass, Graph.Valid, Graph.Acyclic, Graph.PositiveSizes, Peak;
    BackwardImproves(g, lin);
    var mid := BackwardPass(g, lin);
    ClusterProper(g, mid);
    PassImproves(g, mid);
    ClusterProper(g, lin);
    ClusterProper(g, Pass(g, mid));
    DominatesTrans(g.Rates(Pass(g, mid)), g.Rates(mid), g.Rates(lin));
    DominatesDiagram(g, Pass(g, mid), lin);
  }

  // ----- Chunks seen in the other direction -----

  /** Groups in the opposite order, each reversed. */
  function Turned(segs: seq<seq<nat>>): seq<seq<nat>> {
    seq(|segs|, i requires 0 <= i < |segs| => Reverse(segs[|segs| - 1 - i]))
  }

  lemma {:induction false} FlattenTurned(segs: seq<seq<nat>>)
    ensures Flatten(Turned(segs)) == Reverse(Flatten(segs))
  {
    if segs == [] {
      assert Reverse([]) == [];
    } else {
      var first, rest := segs[0], segs[1..];
      FlattenTurned(rest);
      assert Turned(segs) == Turned(rest) + [Reverse(first)];
      FlattenConcat(Turned(rest), [Reverse(first)]);
      FlattenOne(Reverse(first));
      ReverseConcat(first, Flatten(rest));
    }
  }

  lemma {:induction false} MirrorTotal(fs: seq<FeeFrac>)
    ensures Total(Mirror(fs)) == Total(fs).Negated()
  {
    hide Total, Mirror, FeeFrac.Plus, FeeFrac.Negated;
    MirrorEnds(fs);
    if fs != [] {
      var rest, x := fs[1..], fs[0];
      MirrorTotal(rest);
      TotalConcat(Mirror(rest), [x.Negated()]);
      TotalOne(x.Negated());
      NegatedSum(Total(rest), x);
    }
  }

  lemma MirrorEnds(fs: seq<FeeFrac>)
    ensures fs == [] ==> Total(fs) == EMPTY && Total(Mirror(fs)) == EMPTY && EMPTY.Negated() == EMPTY
    ensures fs != [] ==> Mirror(fs) == Mirror(fs[1..]) + [fs[0].Negated()] && Total(fs) == fs[0].Plus(Total(fs[1..]))
  {
  }

  lemma NegatedSum(a: FeeFrac, b: FeeFrac)
    ensures a.Negated().Plus(b.Negated()) == b.Plus(a).Negated()
  {
  }

  lemma TotalOne(x: FeeFrac)
    ensures Total([x]) == x
  {
    assert [x][1..] == [];
  }

  /** A reversed group has the negated feerate in the reversed graph. */
  lemma SegRateTurned(g: Graph, seg: seq<nat>)
    requires forall i :: 0 <= i < |seg| ==> seg[i] < |g.entries|
    ensures SegRate(Reversed(g), seg) == SegRate(g, Reverse(seg)).Negated()
  {
    hide Total, FeeFrac.Negated, Reversed;
    MirrorRates(g, Reverse(seg));
    ReverseMembers(seg);
    MirrorTotal(g.Rates(Reverse(seg)));
  }

  /** What is above the whole in front lies below it behind. */
  lemma HigherTurned(total: FeeFrac, front: FeeFrac, back: FeeFrac)
    requires total == front.Plus(back).Negated() && Higher(front.Plus(back), front)
    ensures Higher(total, back.Negated())
  {
    var f, s := front.fee, front.size;
    var F, S := front.fee + back.fee, front.size + back.size;
    assert F * s > f * S;
    assert F * (S - s) == F * S - F * s && (F - f) * S == F * S - f * S;
  }

  lemma TightTurned(g: Graph, seg: seq<nat>)
    requires (forall i :: 0 <= i < |seg| ==> seg[i] < |g.entries|) && Tight(Reversed(g), seg)
    ensures Tight(g, Reverse(seg))
  {
    hide SegRate, Higher, FeeFrac.Plus, FeeFrac.Negated, Reversed;
    var r, n := Reverse(seg), |seg|;
    forall k | 0 < k < n ensures Higher(SegRate(g, r), SegRate(g, r[..k])) {
      var a, b := seg[..n - k], seg[n - k..];
      assert seg == a + b;
      assert r[..k] == Reverse(b);
      SegRateConcat(Reversed(g), a, b);
      SegRateTurned(g, seg);
      SegRateTurned(g, b);
      NegatedTwice(SegRate(g, r));
      NegatedTwice(SegRate(g, r[..k]));
      HigherTurned(SegRate(g, r), SegRate(Reversed(g), a), SegRate(Reversed(g), b));
    }
  }

  lemma NegatedTwice(x: FeeFrac)
    ensures x.Negated().Negated() == x
  {
  }

  lemma NegatedHigher(a: FeeFrac, b: FeeFrac)
    ensures Higher(a.Negated(), b.Negated()) <==> Higher(b, a)
  {
  }

  lemma NonIncreasingTurned(g: Graph, segs: seq<seq<nat>>)
    requires forall k, i :: 0 <= k < |segs| && 0 <= i < |segs[k]| ==> segs[k][i] < |g.entries|
    requires NonIncreasing(SegRates(Reversed(g), segs))
    ensures NonIncreasing(SegRates(g, Turned(segs)))
  {
    hide SegRate, Higher, FeeFrac.Negated, Reversed, Reverse;
    var n := |segs|;
    forall i | 0 < i < n
      ensures !Higher(SegRate(g, Turned(segs)[i]), SegRate(g, Turned(segs)[i - 1]))
    {
      var a, b := segs[n - 1 - i], segs[n - i];
      SegRateTurned(g, a);
      SegRateTurned(g, b);
      NegatedHigher(SegRate(g, Reverse(b)), SegRate(g, Reverse(a)));
      var rs := SegRates(Reversed(g), segs);
      assert !Higher(rs[n - i], rs[n - i - 1]);
    }
  }

  lemma ConnectedTurned(g: Graph, s: set<nat>)
    requires Connected(Reversed(g), s)
    ensures Connected(g, s)
  {
    ReversedFacts(g);
    forall part | part <= s && part != {} && Isolated(g, s, part) ensures part == s {
      forall i | i in part ensures Neighbours(Reversed(g), i) * s <= part {
        assert Neighbours(Reversed(g), i) == Neighbours(g, i);
      }
    }
  }

  lemma FlattenInRange(segs: seq<seq<nat>>, bound: nat)
    requires forall i :: 0 <= i < |Flatten(segs)| ==> Flatten(segs)[i] < bound
    ensures forall k, i :: 0 <= k < |segs| && 0 <= i < |segs[k]| ==> segs[k][i] < bound
  {
    forall k, i | 0 <= k < |segs| && 0 <= i < |segs[k]| ensures segs[k][i] < bound {
      FlattenAround(segs, k);
      var f := Flatten(segs[..k]);
      assert Flatten(segs)[|f| + i] == segs[k][i];
    }
  }

  /** The groups of a backward pass, turned around, are the chunks of its result, and each is connected. */
  lemma BackwardChunksConnected(g: Graph, lin: seq<nat>)
    requires g.Cluster() && g.IsLinearization(lin)
    ensures Chunks(g, BackwardPass(g, lin)) == Turned(PassGroups(Reversed(g), Reverse(lin)))
    ensures forall i :: 0 <= i < |Chunks(g, BackwardPass(g, lin))| ==>
              Connected(g, SetOf(Chunks(g, BackwardPass(g, lin))[i]))
  {
    hide PassGroups, Graph.Topological, Reversed, Reverse, Chunks, Connected, Graph.Cluster, Proper, SetOf, Tight;
    BackwardSetup(g, lin);
    var v, items := Reversed(g), Reverse(lin);
    ClusterProper(v, items);
    PassSolid(v, items);
    var segs := PassGroups(v, items);
    TurnedChunking(g, items);
    BackwardImproves(g, lin);
    ClusterProper(g, BackwardPass(g, lin));
    ProperSized(g, BackwardPass(g, lin));
    ChunksChunking(g, BackwardPass(g, lin));
    ChunkingUnique(g, BackwardPass(g, lin), Turned(segs), Chunks(g, BackwardPass(g, lin)));
    forall i | 0 <= i < |segs| ensures Connected(g, SetOf(Turned(segs)[i])) {
      ReverseMembers(segs[|segs| - 1 - i]);
      ConnectedTurned(g, SetOf(segs[|segs| - 1 - i]));
    }
  }

  lemma PassProper(g: Graph, items: seq<nat>)
    requires Proper(g, items) && g.Topological(items)
    ensures Proper(g, Pass(g, items))
  {
    hide Pass, Graph.Topological;
    PassImproves(g, items);
    TopologicalDistinct(g, Pass(g, items));
  }

  lemma TurnedChunking(g: Graph, items: seq<nat>)
    requires Proper(Reversed(g), items) && Reversed(g).Topological(items)
    ensures var segs := PassGroups(Reversed(g), items);
            IsChunking(g, Reverse(Pass(Reversed(g), items)), Turned(segs))
  {
    hide PassGroups, Graph.Topological, Reversed, Reverse, Proper, SegRate, Tight, NonIncreasing, Flatten;
    var v := Reversed(g);
    var segs := PassGroups(v, items);
    PassSolid(v, items);
    PassProper(v, items);
    ProperInRange(v, Flatten(segs));
    ReversedFacts(g);
    FlattenInRange(segs, |g.entries|);
    FlattenTurned(segs);
    forall i | 0 <= i < |segs| ensures Tight(g, Turned(segs)[i]) {
      assert Solid(v, segs[|segs| - 1 - i]);
      TightTurned(g, segs[|segs| - 1 - i]);
    }
    NonIncreasingTurned(g, segs);
  }

  /** The resulting chunks are connected. */
  lemma PostConnected(g: Graph, lin: seq<nat>)
    requires g.Cluster() && g.IsLinearization(lin)
    ensures forall i :: 0 <= i < |Chunks(g, PostLinearized(g, lin))| ==>
              Connected(g, SetOf(Chunks(g, PostLinearized(g, lin))[i]))
  {
    hide Pass, Graph.Topological, Reversed, BackwardPass, Chunks, Connected;
    BackwardImproves(g, lin);
    ClusterProper(g, BackwardPass(g, lin));
    PassChunksConnected(g, BackwardPass(g, lin));
  }

  /** At most one child everywhere: descendants form chains. */
  lemma OneChildChains(g: Graph)
    requires g.Cluster() && AtMostOneParent(Reversed(g))
    ensures DescendantChains(g)
  {
    ReversedCluster(g);
    ReversedFacts(g);
    forall i, a, b | a in g.used && b in g.used && i in g.Anc(a) && i in g.Anc(b)
      ensures a in g.Anc(b) || b in g.Anc(a)
    {
      assert i in g.used;
      assert a in g.Desc(i) && b in g.Desc(i);
      AncestorsChain(Reversed(g), i, a, b);
      assert a in g.Anc(b) <==> b in g.Desc(a);
      assert b in g.Anc(a) <==> a in g.Desc(b);
    }
  }

  /** At most one parent everywhere: the same of the reversed graph. */
  lemma OneParentChains(g: Graph)
    requires g.Cluster() && AtMostOneParent(g)
    ensures DescendantChains(Reversed(g))
  {
    ReversedFacts(g);
    var v := Reversed(g);
    forall i, a, b | a in v.used && b in v.used && i in v.Anc(a) && i in v.Anc(b)
      ensures a in v.Anc(b) || b in v.Anc(a)
    {
      assert i in g.used;
      assert a in g.Anc(i) && b in g.Anc(i);
      AncestorsChain(g, i, a, b);
      assert a in g.Anc(b) <==> b in g.Desc(a);
      assert b in g.Anc(a) <==> a in g.Desc(b);
    }
  }

  /**
   For a graph of tree shape (all transactions have at most one child, or all have at most one parent)
   the result is optimal: no linearization's diagram is anywhere above it.
   */
  lemma PostOptimalForTrees(g: Graph, lin: seq<nat>, other: seq<nat>)
    requires g.Cluster() && g.IsLinearization(lin) && g.IsLinearization(other)
    requires AtMostOneParent(Reversed(g)) || AtMostOneParent(g)
    ensures AtLeastAsGood(g, PostLinearized(g, lin), other)
  {
    hide Pass, Graph.Topological, Reversed, AtMostOneParent, BackwardPass, Peak, DescendantChains;
    var mid := BackwardPass(g, lin);
    BackwardImproves(g, lin);
    ClusterProper(g, mid);
    ClusterProper(g, other);
    PassImproves(g, mid);
    if AtMostOneParent(Reversed(g)) {
      OneChildChains(g);
      TreePassOptimal(g, mid, other);
    } else {
      BackwardOptimal(g, lin, other);
      DominatesTrans(g.Rates(Pass(g, mid)), g.Rates(mid), g.Rates(other));
    }
    ClusterProper(g, Pass(g, mid));
    DominatesDiagram(g, Pass(g, mid), other);
  }

  lemma BackwardOptimal(g: Graph, lin: seq<nat>, other: seq<nat>)
    requires g.Cluster() && g.IsLinearization(lin) && g.IsLinearization(other) && AtMostOneParent(g)
    ensures Dominates(g.Rates(BackwardPass(g, lin)), g.Rates(other))
  {
    hide Pass, Graph.Topological, Reversed, AtMostOneParent, Peak, DescendantChains;
    BackwardSetup(g, lin);
    BackwardSetup(g, other);
    OneParentChains(g);
    var v, items := Reversed(g), Reverse(lin);
    TreePassOptimal(v, items, Reverse(other));
    BackwardImproves(g, lin);
    ReverseMembers(Pass(v, items));
    ClusterProper(g, BackwardPass(g, lin));
    ClusterProper(g, other);
    MirrorDominates(g, BackwardPass(g, lin), other);
  }
}
