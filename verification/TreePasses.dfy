/**
 A pass in the direction in which every transaction has at most one child yields an optimal
 linearization (`src/cluster_linearize.h:1127-1129`).
 */
module TreePasses {
  import opened Basics
  import opened FeeFracs
  import opened Diagrams
  import opened Sequences
  import opened Graphs
  import opened Chunkings
  import opened Improvements
  import opened AppendTopos
  import opened DepGraphs
  import opened Passes

  /** Every transaction has at most one (reduced) parent. */
  ghost predicate AtMostOneParent(g: Graph) {
    forall i, x, y :: i in g.used && x in MaximalAncestors(g, i) && y in MaximalAncestors(g, i) ==> x == y
  }

  /** Then the ancestors of each transaction form a chain. */
  lemma {:induction false} AncestorsChain(g: Graph, i: nat, a: nat, b: nat)
    requires g.Valid() && g.Acyclic() && AtMostOneParent(g) && i in g.used && a in g.Anc(i) && b in g.Anc(i)
    ensures a in g.Anc(b) || b in g.Anc(a)
    decreases |g.Anc(i)|
  {
    if a != i && b != i {
      var x := BelowMaximal(g, i, a);
      var y := BelowMaximal(g, i, b);
      assert x == y;
      AncestorsShrink(g, x, i);
      AncestorsChain(g, x, a, b);
    }
  }

  /** Of any two descendants of a transaction, one is an ancestor of the other. */
  ghost predicate DescendantChains(g: Graph) {
    forall i, a, b :: a in g.used && b in g.used && i in g.Anc(a) && i in g.Anc(b) ==> a in g.Anc(b) || b in g.Anc(a)
  }

  // ----- Compact groups -----

  /** All members are ancestors of the last one. */
  ghost predicate Rooted(g: Graph, seg: seq<nat>) {
    seg != [] && SetOf(seg) <= g.Anc(seg[|seg| - 1])
  }

  /** No proper topologically valid part of the group has a feerate above `rate`. */
  ghost predicate PartsBelow(g: Graph, seg: seq<nat>, rate: FeeFrac) {
    forall b :: g.Closed(SetOf(seg), b) && b != {} && b != SetOf(seg) ==> !Higher(g.FeeRate(b), rate)
  }

  ghost predicate Compact(g: Graph, seg: seq<nat>) {
    Rooted(g, seg) && PartsBelow(g, seg, SegRate(g, seg))
  }

  ghost predicate AllCompact(g: Graph, segs: seq<seq<nat>>) {
    forall i :: 0 <= i < |segs| ==> Compact(g, segs[i])
  }

  /** A group that depends on the one before it has that one's last transaction among its ancestors. */
  lemma JoinRooted(g: Graph, p: seq<nat>, c: seq<nat>)
    requires g.Valid() && DescendantChains(g) && SetOf(p) <= g.used && SetOf(c) <= g.used
    requires Rooted(g, p) && Rooted(g, c) && g.Topological(p + c) && DependsOn(g, c, p)
    ensures Rooted(g, p + c)
  {
    SetOfConcat(p, c);
    TopologicalConcat(g, p, c);
    var tp, tc := p[|p| - 1], c[|c| - 1];
    assert tp in SetOf(p) && tc in SetOf(c) && (p + c)[|p + c| - 1] == tc;
    var a :| a in Deps(g, c) * SetOf(p);
    var x :| x in c && a in g.Anc(x);
    assert x in SetOf(c);
    assert a in g.Anc(tp);
    assert tp in g.Anc(x);
    assert x in g.Anc(tc);
    assert g.Anc(x) <= g.Anc(tc);
    assert g.Anc(tp) <= g.Anc(tc);
  }

  /** A proper topologically valid part of the joined group leaves out the last transaction. */
  lemma PartsOfJoin(g: Graph, p: seq<nat>, c: seq<nat>, b: set<nat>)
    requires Rooted(g, p + c) && c != [] && g.Closed(SetOf(p + c), b) && b != SetOf(p + c) && SetOf(p) !! SetOf(c)
    ensures g.Closed(SetOf(p), b * SetOf(p)) && g.Closed(SetOf(c), b * SetOf(c))
    ensures b * SetOf(c) != SetOf(c)
    ensures b == b * SetOf(p) + b * SetOf(c)
  {
    SetOfConcat(p, c);
    var tc := c[|c| - 1];
    assert (p + c)[|p + c| - 1] == tc && tc in SetOf(c);
    assert g.Anc(tc) * SetOf(p + c) == SetOf(p + c);
    assert tc in b ==> g.Anc(tc) * SetOf(p + c) <= b;
    assert tc !in b * SetOf(c);
  }

  lemma JoinBelow(g: Graph, p: seq<nat>, c: seq<nat>, b: set<nat>)
    requires g.Valid() && g.PositiveSizes() && SetOf(p) <= g.used && SetOf(c) <= g.used
    requires Distinct(p) && Compact(g, p) && Rooted(g, p + c) && c != [] && SetOf(p) !! SetOf(c)
    requires PartsBelow(g, c, SegRate(g, p))
    requires g.Closed(SetOf(p + c), b) && b != {} && b != SetOf(p + c)
    ensures !Higher(g.FeeRate(b), SegRate(g, p))
  {
    hide Graph.Valid, Graph.FeeRate, FeeFrac.Plus;
    var f := SegRate(g, p);
    PartsOfJoin(g, p, c, b);
    var bp, bc := b * SetOf(p), b * SetOf(c);
    ProperSized(g, p);
    RateNone(g);
    assert Gain(f, EMPTY) == 0;
    assert Gain(f, g.FeeRate(bp)) <= 0 by {
      if bp == SetOf(p) {
        assert Gain(f, f) == 0;
      } else if bp != {} {
        assert !Higher(g.FeeRate(bp), f);
      }
    }
    assert Gain(f, g.FeeRate(bc)) <= 0 by {
      if bc != {} { assert !Higher(g.FeeRate(bc), f); }
    }
    RateDisjoint(g, bp, bc);
    GainSum(f, g.FeeRate(bp), g.FeeRate(bc));
  }

  /** While settling: the parts of the current group are below it and below the group before it. */
  ghost predicate CurrentCompact(g: Graph, before: seq<seq<nat>>, cur: seq<nat>) {
    && Compact(g, cur)
    && (before != [] ==> PartsBelow(g, cur, SegRate(g, before[|before| - 1])))
  }

  lemma PartsBelowGrows(g: Graph, seg: seq<nat>, low: FeeFrac, high: FeeFrac)
    requires g.Valid() && g.PositiveSizes() && SetOf(seg) <= g.used
    requires low.size > 0 && high.size > 0 && !Higher(low, high) && PartsBelow(g, seg, low)
    ensures PartsBelow(g, seg, high)
  {
    hide Graph.Valid, Graph.FeeRate;
    forall b | g.Closed(SetOf(seg), b) && b != {} && b != SetOf(seg) ensures !Higher(g.FeeRate(b), high) {
      RatePositive(g, b);
      assert Gain(low, g.FeeRate(b)) <= 0 && Gain(high, low) <= 0;
      GainDown(low, high, g.FeeRate(b));
    }
  }

  /** The group two places before is not below the one just before. */
  lemma EarlierNotBelow(g: Graph, before: seq<seq<nat>>, cur: seq<nat>, after: seq<seq<nat>>)
    requires |before| > 1 && Ordered(g, before, cur, after)
    ensures !Higher(SegRate(g, before[|before| - 1]), SegRate(g, before[|before| - 2]))
  {
    hide SegRate;
    var rs, n := SegRates(g, before + after), |before| - 1;
    assert rs[n] == SegRate(g, before[n]) && rs[n - 1] == SegRate(g, before[n - 1]);
  }

  /** The last two groups before, with their sizes and disjointness. */
  lemma LastTwo(g: Graph, before: seq<seq<nat>>, cur: seq<nat>, after: seq<seq<nat>>)
    requires before != [] && Groups(g, before + [cur] + after) && g.Topological(Flatten(before + [cur] + after))
    requires SetOf(Flatten(before + [cur] + after)) <= g.used
    ensures var p := before[|before| - 1];
            && SetOf(p) <= g.used && SetOf(cur) <= g.used && SetOf(p) !! SetOf(cur) && Distinct(p)
            && g.Topological(p + cur) && SegRate(g, p).size > 0 && SegRate(g, cur).size > 0
            && (|before| > 1 ==> SegRate(g, before[|before| - 2]).size > 0)
  {
    hide SegRate, Groups;
    var n := |before| - 1;
    var f, p, a := Flatten(before[..n]), before[n], Flatten(after);
    GroupsAt(g, before, cur, after);
    FlattenThree(before, cur, after);
    FlattenLast(before);
    assert f + p + cur + a == f + (p + cur) + a;
    TopologicalConcat(g, f + (p + cur), a);
    TopologicalConcat(g, f, p + cur);
    TopologicalConcat(g, p, cur);
    SetOfConcat(f + (p + cur), a);
    SetOfConcat(f, p + cur);
    SetOfConcat(p, cur);
    if n > 0 {
      assert before + [cur] + after == before[..n] + [p] + ([cur] + after);
      GroupsAt(g, before[..n], p, [cur] + after);
    }
  }

  lemma MergeCompact(g: Graph, before: seq<seq<nat>>, cur: seq<nat>, after: seq<seq<nat>>)
    requires before != [] && Groups(g, before + [cur] + after) && g.Topological(Flatten(before + [cur] + after))
    requires SetOf(Flatten(before + [cur] + after)) <= g.used
    requires g.Valid() && g.PositiveSizes() && DescendantChains(g)
    requires AllCompact(g, before) && CurrentCompact(g, before, cur) && Ordered(g, before, cur, after)
    requires Higher(SegRate(g, cur), SegRate(g, before[|before| - 1])) && DependsOn(g, cur, before[|before| - 1])
    ensures CurrentCompact(g, before[..|before| - 1], before[|before| - 1] + cur)
  {
    hide Graph.Valid, Graph.PositiveSizes, DescendantChains, Groups, Graph.Topological, Flatten, SetOf, SegRate,
         FeeFrac.Plus, Deps, PartsBelow, Rooted;
    var n := |before| - 1;
    var p := before[n];
    LastTwo(g, before, cur, after);
    assert Compact(g, p);
    JoinRooted(g, p, cur);
    var rp, w := SegRate(g, p), SegRate(g, p + cur);
    JoinPartsBelow(g, p, cur);
    SegRateConcat(g, p, cur);
    UnionBetween(rp, SegRate(g, cur));
    SizeOfSum(rp, SegRate(g, cur));
    SetOfConcat(p, cur);
    assert Gain(w, rp) < 0;
    PartsBelowGrows(g, p + cur, rp, w);
    if n > 0 {
      EarlierNotBelow(g, before, cur, after);
      PartsBelowGrows(g, p + cur, rp, SegRate(g, before[n - 1]));
    }
  }

  lemma JoinPartsBelow(g: Graph, p: seq<nat>, c: seq<nat>)
    requires g.Valid() && g.PositiveSizes() && SetOf(p) <= g.used && SetOf(c) <= g.used
    requires Distinct(p) && Compact(g, p) && Rooted(g, p + c) && Rooted(g, c) && SetOf(p) !! SetOf(c)
    requires PartsBelow(g, c, SegRate(g, p))
    ensures PartsBelow(g, p + c, SegRate(g, p))
  {
    hide Graph.Valid, Graph.FeeRate, SegRate, Graph.Closed;
    forall b | g.Closed(SetOf(p + c), b) && b != {} && b != SetOf(p + c) ensures !Higher(g.FeeRate(b), SegRate(g, p)) {
      JoinBelow(g, p, c, b);
    }
  }

  lemma {:induction false} SettleCompact(g: Graph, before: seq<seq<nat>>, cur: seq<nat>, after: seq<seq<nat>>)
    requires Groups(g, before + [cur] + after) && g.Topological(Flatten(before + [cur] + after))
    requires SetOf(Flatten(before + [cur] + after)) <= g.used
    requires g.Valid() && g.PositiveSizes() && DescendantChains(g)
    requires AllCompact(g, before) && AllCompact(g, after) && CurrentCompact(g, before, cur) &&
             Ordered(g, before, cur, after)
    ensures AllCompact(g, Settle(g, before, cur, after))
    decreases |before|
  {
    hide Graph.Valid, Graph.PositiveSizes, DescendantChains, Groups, Graph.Topological, Flatten, SetOf, SegRate,
         Compact, Ordered, DependsOn, PartsBelow;
    if before != [] && Higher(SegRate(g, cur), SegRate(g, before[|before| - 1])) {
      var n := |before| - 1;
      GroupsPositive(g, before + [cur] + after);
      StepTopological(g, before, cur, after);
      StepGroups(g, before, cur, after);
      StepOrdered(g, before, cur, after);
      assert AllCompact(g, before[..n]);
      if DependsOn(g, cur, before[n]) {
        MergeCompact(g, before, cur, after);
        SettleCompact(g, before[..n], before[n] + cur, after);
      } else {
        if n > 0 {
          LastTwo(g, before, cur, after);
          EarlierNotBelow(g, before, cur, after);
          PartsBelowGrows(g, cur, SegRate(g, before[n]), SegRate(g, before[n - 1]));
        }
        assert AllCompact(g, [before[n]] + after);
        SettleCompact(g, before[..n], cur, [before[n]] + after);
      }
    }
  }

  lemma SingleCompact(g: Graph, segs: seq<seq<nat>>, x: nat)
    requires g.Valid() && x in g.used
    ensures CurrentCompact(g, segs, [x])
  {
    assert SetOf([x]) == {x};
    forall b | g.Closed({x}, b) && b != {} ensures b == {x} {
      var y :| y in b;
    }
  }

  lemma {:induction false} PassCompact(g: Graph, items: seq<nat>)
    requires Proper(g, items) && g.Topological(items) && DescendantChains(g)
    ensures AllCompact(g, PassGroups(g, items))
  {
    if items != [] {
      hide Graph.Valid, Graph.PositiveSizes, DescendantChains, Groups, Flatten, Compact, SegRate, Settle, PartsBelow;
      var n := |items| - 1;
      var front, x := items[..n], items[n];
      assert items == front + [x];
      TopologicalConcat(g, front, [x]);
      ProperParts(g, front, [x]);
      assert x in SetOf([x]);
      PassCompact(g, front);
      PassSolid(g, front);
      PassRegroups(g, front);
      var segs := PassGroups(g, front);
      AppendRegroups(g, segs, front, x);
      assert segs + [[x]] + [] == segs + [[x]] && segs + [] == segs;
      SingleCompact(g, segs, x);
      SettleCompact(g, segs, [x], []);
    }
  }

  // ----- Compact groups in order are optimal -----

  /** What all groups together can gain. */
  function GroupGains(g: Graph, rate: FeeFrac, segs: seq<seq<nat>>): int {
    if segs == [] then 0 else Max(0, Gain(rate, SegRate(g, segs[0]))) + GroupGains(g, rate, segs[1..])
  }

  /** A topologically valid set gains at most what the compact groups gain. */
  lemma {:induction false} SetGainsAtMost(g: Graph, rate: FeeFrac, segs: seq<seq<nat>>, s: set<nat>)
    requires Proper(g, Flatten(segs)) && AllCompact(g, segs) && rate.size > 0
    requires g.Closed(SetOf(Flatten(segs)), s)
    ensures Gain(rate, g.FeeRate(s)) <= GroupGains(g, rate, segs)
    decreases |segs|
  {
    hide Graph.Valid, Graph.PositiveSizes, Graph.FeeRate, SegRate, Gain, Compact;
    if segs == [] {
      assert s == {};
      RateNone(g);
      EmptyGains(rate);
    } else {
      var c, rest := segs[0], Flatten(segs[1..]);
      ProperParts(g, c, rest);
      var inside, outside := s * SetOf(c), s - SetOf(c);
      assert g.Closed(SetOf(c), inside) && g.Closed(SetOf(rest), outside);
      assert Compact(g, c);
      PartGainsAtMost(g, rate, c, inside);
      assert AllCompact(g, segs[1..]);
      SetGainsAtMost(g, rate, segs[1..], outside);
      RateGainSplit(g, s, SetOf(c), rate);
    }
  }

  lemma EmptyGains(rate: FeeFrac)
    ensures Gain(rate, EMPTY) == 0
  {
  }

  lemma PartGainsAtMost(g: Graph, rate: FeeFrac, c: seq<nat>, b: set<nat>)
    requires Proper(g, c) && Compact(g, c) && rate.size > 0 && g.Closed(SetOf(c), b)
    ensures Gain(rate, g.FeeRate(b)) <= Max(0, Gain(rate, SegRate(g, c)))
  {
    hide Graph.Valid, Graph.FeeRate, Graph.Closed;
    ProperSized(g, c);
    var f := SegRate(g, c);
    if b == {} {
      RateNone(g);
    } else if b != SetOf(c) {
      ClosedWithin(g, SetOf(c), b);
      assert !Higher(g.FeeRate(b), f);
      RatePositive(g, b);
      RatePositive(g, SetOf(c));
      RatePositive(g, SetOf(c) - b);
      var out := g.FeeRate(SetOf(c) - b);
      RateGainSplit(g, SetOf(c), b, f);
      RateGainSplit(g, SetOf(c), b, rate);
      assert SetOf(c) * b == b && Gain(f, f) == 0;
      if Gain(rate, f) >= 0 {
        GainUp(f, rate, out);
      } else {
        GainDown(f, rate, g.FeeRate(b));
      }
    }
  }

  /** In order of feerate, the groups gain together what their list's peak is. */
  lemma {:induction false} GroupGainsPeak(g: Graph, rate: FeeFrac, segs: seq<seq<nat>>)
    requires rate.size > 0 && AllPositive(SegRates(g, segs)) && NonIncreasing(SegRates(g, segs))
    ensures GroupGains(g, rate, segs) == Peak(rate, SegRates(g, segs))
  {
    if segs != [] {
      var rs := SegRates(g, segs);
      assert rs[1..] == SegRates(g, segs[1..]);
      DropLast(g, segs);
      GroupGainsPeak(g, rate, segs[1..]);
      if !Higher(rs[0], rate) {
        PeakFlat(rate, rs);
        PeakFlatTail(rate, rs);
      } else {
        PeakNonNegative(rate, rs[1..]);
      }
    }
  }

  lemma PeakFlatTail(rate: FeeFrac, rs: seq<FeeFrac>)
    requires rate.size > 0 && rs != [] && AllPositive(rs) && NonIncreasing(rs) && !Higher(rs[0], rate)
    ensures Peak(rate, rs[1..]) == 0
  {
    PeakFlat(rate, rs);
    forall i | 0 < i < |rs[1..]| ensures !Higher(rs[1..][i], rs[1..][i - 1]) {
      assert !Higher(rs[i + 1], rs[i]);
    }
    PeakFlat(rate, rs[1..]);
  }

  /** With at most one child everywhere, a pass is at least as good as every linearization. */
  lemma TreePassOptimal(g: Graph, items: seq<nat>, other: seq<nat>)
    requires Proper(g, items) && g.Topological(items) && DescendantChains(g)
    requires Proper(g, other) && g.Topological(other) && SetOf(other) == SetOf(items)
    ensures Dominates(g.Rates(Pass(g, items)), g.Rates(other))
  {
    hide Graph.Valid, Graph.PositiveSizes, DescendantChains, PassGroups, SegRate, Graph.FeeRate, AllCompact,
         Graph.Topological;
    var segs := PassGroups(g, items);
    PassCompact(g, items);
    PassSolid(g, items);
    PassRegroups(g, items);
    GroupsPositive(g, segs);
    assert Proper(g, Flatten(segs)) by { TopologicalDistinct(g, Flatten(segs)); }
    forall rate: FeeFrac | rate.size > 0 ensures Peak(rate, g.Rates(Flatten(segs))) >= Peak(rate, g.Rates(other)) {
      var k := PeakIsBestPrefix(rate, g.Rates(other));
      var q := other[..k];
      assert other == q + other[k..] && g.Rates(other)[..k] == g.Rates(q);
      PrefixClosed(g, q, other[k..]);
      ProperParts(g, q, other[k..]);
      ProperSized(g, q);
      SegRateIs(g, q);
      SetGainsAtMost(g, rate, segs, SetOf(q));
      GroupGainsPeak(g, rate, segs);
      BoundaryPeak(g, rate, segs);
    }
  }

  lemma SegRateIs(g: Graph, seg: seq<nat>)
    ensures SegRate(g, seg) == Total(g.Rates(seg))
  {
  }
}
