/**
 One pass of `PostLinearize` on lists of groups (`src/cluster_linearize.h:1148-1164`), for a graph seen
 in the direction of the pass. `Settle` moves the newest group forward past groups of lower feerate,
 merging where there is a dependency; `PassGroups` does so for every transaction in turn.
 */
module Passes {
  import opened Basics
  import opened FeeFracs
  import opened Diagrams
  import opened Sequences
  import opened Graphs
  import opened Chunkings
  import opened Improvements
  import opened Components

  /** All ancestors of the members of a group. */
  function Deps(g: Graph, seg: seq<nat>): set<nat> {
    set i, a | i in seg && a in g.Anc(i) :: a
  }

  predicate DependsOn(g: Graph, cur: seq<nat>, prev: seq<nat>) {
    Deps(g, cur) * SetOf(prev) != {}
  }

  function Settle(g: Graph, before: seq<seq<nat>>, cur: seq<nat>, after: seq<seq<nat>>): seq<seq<nat>>
    decreases |before|
  {
    if before != [] && Higher(SegRate(g, cur), SegRate(g, before[|before| - 1])) then
      var n := |before| - 1;
      if DependsOn(g, cur, before[n]) then Settle(g, before[..n], before[n] + cur, after)
      else Settle(g, before[..n], cur, [before[n]] + after)
    else
      before + [cur] + after
  }

  function PassGroups(g: Graph, items: seq<nat>): seq<seq<nat>> {
    if items == [] then []
    else Settle(g, PassGroups(g, items[..|items| - 1]), [items[|items| - 1]], [])
  }

  function Pass(g: Graph, items: seq<nat>): seq<nat> {
    Flatten(PassGroups(g, items))
  }

  // ----- One step: merge or swap the last group before -----

  /** The order is unchanged by a merge, and stays topological under a swap of independent groups. */
  lemma StepTopological(g: Graph, before: seq<seq<nat>>, cur: seq<nat>, after: seq<seq<nat>>)
    requires before != [] && g.Topological(Flatten(before + [cur] + after))
    ensures var n := |before| - 1;
            && Flatten(before[..n] + [before[n] + cur] + after) == Flatten(before + [cur] + after)
            && SetOf(Flatten(before[..n] + [cur] + ([before[n]] + after))) == SetOf(Flatten(before + [cur] + after))
            && (!DependsOn(g, cur, before[n]) ==> g.Topological(Flatten(before[..n] + [cur] + ([before[n]] + after))))
  {
    var n := |before| - 1;
    var f, p, a := Flatten(before[..n]), before[n], Flatten(after);
    FlattenThree(before, cur, after);
    FlattenThree(before[..n], p + cur, after);
    FlattenThree(before[..n], cur, [p] + after);
    FlattenLast(before);
    FlattenConcat([p], after);
    FlattenOne(p);
    assert f + p + cur + a == f + (p + cur) + a;
    assert f + cur + (p + a) == f + (cur + p) + a;
    SwapTopological(g, f, p, cur, a);
  }

  lemma FlattenThree(before: seq<seq<nat>>, cur: seq<nat>, after: seq<seq<nat>>)
    ensures Flatten(before + [cur] + after) == Flatten(before) + cur + Flatten(after)
  {
    FlattenConcat(before + [cur], after);
    FlattenConcat(before, [cur]);
    FlattenOne(cur);
  }

  lemma SwapTopological(g: Graph, f: seq<nat>, p: seq<nat>, c: seq<nat>, a: seq<nat>)
    requires g.Topological(f + (p + c) + a)
    ensures SetOf(f + (c + p) + a) == SetOf(f + (p + c) + a)
    ensures !DependsOn(g, c, p) ==> g.Topological(f + (c + p) + a)
  {
    hide Graph.Topological;
    SetOfConcat(f + (c + p), a);
    SetOfConcat(f, c + p);
    SetOfConcat(c, p);
    SetOfConcat(f + (p + c), a);
    SetOfConcat(f, p + c);
    SetOfConcat(p, c);
    if !DependsOn(g, c, p) {
      TopologicalConcat(g, f + (p + c), a);
      TopologicalConcat(g, f, p + c);
      TopologicalConcat(g, p, c);
      forall x, y | x in SetOf(c) && y in SetOf(p) ensures y !in g.Anc(x) {
        assert y in g.Anc(x) ==> y in Deps(g, c) * SetOf(p);
      }
      TopologicalConcat(g, c, p);
      TopologicalConcat(g, f, c + p);
      TopologicalConcat(g, f + (c + p), a);
    }
  }

  // ----- Peaks never fall -----

  /** Merging or swapping a group with a lower one before it loses no peak. */
  lemma StepPeak(g: Graph, rate: FeeFrac, before: seq<seq<nat>>, cur: seq<nat>, after: seq<seq<nat>>)
    requires before != [] && rate.size > 0
    requires SegRate(g, cur).size > 0 && SegRate(g, before[|before| - 1]).size > 0
    requires Higher(SegRate(g, cur), SegRate(g, before[|before| - 1]))
    ensures var n := |before| - 1;
            var now := Peak(rate, SegRates(g, before + [cur] + after));
            && now <= Peak(rate, SegRates(g, before[..n] + [before[n] + cur] + after))
            && now <= Peak(rate, SegRates(g, before[..n] + [cur] + ([before[n]] + after)))
  {
    hide SegRate, SegRates, Gain, Peak, Total, FeeFrac.Plus, Higher;
    var n := |before| - 1;
    var rp, rc := SegRate(g, before[n]), SegRate(g, cur);
    var front, tail := SegRates(g, before[..n]), SegRates(g, after);
    StepRates(g, before, cur, after);
    PeakConcat(rate, front, [rp, rc] + tail);
    PeakConcat(rate, front, [rp.Plus(rc)] + tail);
    PeakConcat(rate, front, [rc, rp] + tail);
    PairPeak(rate, rp, rc, tail);
  }

  lemma StepRates(g: Graph, before: seq<seq<nat>>, cur: seq<nat>, after: seq<seq<nat>>)
    requires before != []
    ensures var n := |before| - 1;
            var rp, rc := SegRate(g, before[n]), SegRate(g, cur);
            var front, tail := SegRates(g, before[..n]), SegRates(g, after);
            && SegRates(g, before + [cur] + after) == front + ([rp, rc] + tail)
            && SegRates(g, before[..n] + [before[n] + cur] + after) == front + ([rp.Plus(rc)] + tail)
            && SegRates(g, before[..n] + [cur] + ([before[n]] + after)) == front + ([rc, rp] + tail)
  {
    hide SegRate, FeeFrac.Plus;
    SegRateConcat(g, before[|before| - 1], cur);
  }

  /** Two pairs of which the second has the higher feerate: merged or swapped, the peak does not fall. */
  lemma PairPeak(rate: FeeFrac, rp: FeeFrac, rc: FeeFrac, tail: seq<FeeFrac>)
    requires rate.size > 0 && rc.size > 0 && rp.size > 0 && Higher(rc, rp)
    ensures Peak(rate, [rp, rc] + tail) <= Peak(rate, [rp.Plus(rc)] + tail)
    ensures Peak(rate, [rp, rc] + tail) <= Peak(rate, [rc, rp] + tail)
  {
    hide Gain, Peak, FeeFrac.Plus;
    PeakOfPair(rate, rp, rc);
    GainSum(rate, rp, rc);
    PeakNonNegative(rate, tail);
    PeakTwo(rate, rp, rc, tail);
    PeakTwo(rate, rc, rp, tail);
    PeakOne(rate, rp.Plus(rc), tail);
  }

  lemma PeakOne(rate: FeeFrac, a: FeeFrac, tail: seq<FeeFrac>)
    ensures Peak(rate, [a] + tail) == Max(0, Gain(rate, a) + Peak(rate, tail))
  {
    hide Gain;
    assert ([a] + tail)[1..] == tail;
  }

  lemma PeakTwo(rate: FeeFrac, a: FeeFrac, b: FeeFrac, tail: seq<FeeFrac>)
    ensures Peak(rate, [a, b] + tail) == Max(0, Gain(rate, a) + Max(0, Gain(rate, b) + Peak(rate, tail)))
  {
    hide Gain;
    var s := [a, b] + tail;
    assert s[1..] == [b] + tail && s[1..][1..] == tail;
  }

  /** Groups are non-empty lists of transactions of positive size. */
  ghost predicate Groups(g: Graph, segs: seq<seq<nat>>) {
    Sized(g, Flatten(segs)) && forall i :: 0 <= i < |segs| ==> segs[i] != []
  }

  lemma GroupsAt(g: Graph, before: seq<seq<nat>>, cur: seq<nat>, after: seq<seq<nat>>)
    requires Groups(g, before + [cur] + after)
    ensures cur != [] && Sized(g, cur) && SegRate(g, cur).size > 0
    ensures before != [] ==>
              && before[|before| - 1] != [] && Sized(g, before[|before| - 1])
              && SegRate(g, before[|before| - 1]).size > 0
  {
    var all := before + [cur] + after;
    assert all[|before|] == cur;
    FlattenAround(all, |before|);
    SizedParts(g, Flatten(all[..|before|]), cur, Flatten(all[|before| + 1..]));
    SegRatePositive(g, cur);
    if before != [] {
      var n := |before| - 1;
      assert all[n] == before[n];
      FlattenAround(all, n);
      SizedParts(g, Flatten(all[..n]), before[n], Flatten(all[n + 1..]));
      SegRatePositive(g, before[n]);
    }
  }

  lemma StepGroups(g: Graph, before: seq<seq<nat>>, cur: seq<nat>, after: seq<seq<nat>>)
    requires before != [] && Groups(g, before + [cur] + after)
    ensures var n := |before| - 1;
            && Groups(g, before[..n] + [before[n] + cur] + after)
            && Groups(g, before[..n] + [cur] + ([before[n]] + after))
  {
    hide Sized;
    StepSized(g, before, cur, after);
    var n := |before| - 1;
    var all := before + [cur] + after;
    assert all[|before|] == cur && all[n] == before[n];
    forall i | 0 <= i < |all| - 1 ensures (before[..n] + [before[n] + cur] + after)[i] != [] {
      var l := before[..n] + [before[n] + cur] + after;
      if i < n { assert l[i] == all[i]; } else if i > n { assert l[i] == all[i + 1]; }
    }
    forall i | 0 <= i < |all| ensures (before[..n] + [cur] + ([before[n]] + after))[i] != [] {
      var l := before[..n] + [cur] + ([before[n]] + after);
      if i < n || i > n + 1 { assert l[i] == all[i]; }
    }
  }

  lemma StepSized(g: Graph, before: seq<seq<nat>>, cur: seq<nat>, after: seq<seq<nat>>)
    requires before != [] && Sized(g, Flatten(before + [cur] + after))
    ensures var n := |before| - 1;
            && Sized(g, Flatten(before[..n] + [before[n] + cur] + after))
            && Sized(g, Flatten(before[..n] + [cur] + ([before[n]] + after)))
  {
    hide Sized, Flatten;
    var n := |before| - 1;
    var f, p, a := Flatten(before[..n]), before[n], Flatten(after);
    FlattenThree(before, cur, after);
    FlattenThree(before[..n], p + cur, after);
    FlattenThree(before[..n], cur, [p] + after);
    FlattenLast(before);
    FlattenConcat([p], after);
    FlattenOne(p);
    assert f + p + cur + a == f + (p + cur) + a;
    SizedParts(g, f, p + cur, a);
    assert [] + p + cur == p + cur;
    SizedParts(g, [], p, cur);
    SizedConcat(g, [], p, a);
    assert [] + p + a == p + a;
    SizedConcat(g, f, cur, p + a);
  }

  lemma SizedConcat(g: Graph, a: seq<nat>, b: seq<nat>, c: seq<nat>)
    requires Sized(g, a) && Sized(g, b) && Sized(g, c)
    ensures Sized(g, a + b + c)
  {
  }

  /** Settling keeps the transactions, their topological order, and every peak. */
  lemma {:induction false} SettleKeeps(g: Graph, before: seq<seq<nat>>, cur: seq<nat>, after: seq<seq<nat>>)
    requires Groups(g, before + [cur] + after) && g.Topological(Flatten(before + [cur] + after))
    ensures var r := Settle(g, before, cur, after);
            && Groups(g, r) && g.Topological(Flatten(r))
            && SetOf(Flatten(r)) == SetOf(Flatten(before + [cur] + after))
            && Dominates(SegRates(g, r), SegRates(g, before + [cur] + after))
    decreases |before|
  {
    hide Groups, Graph.Topological, SegRate, Peak, Flatten, SetOf;
    GroupsAt(g, before, cur, after);
    if before != [] && Higher(SegRate(g, cur), SegRate(g, before[|before| - 1])) {
      var n := |before| - 1;
      StepTopological(g, before, cur, after);
      StepGroups(g, before, cur, after);
      var now := SegRates(g, before + [cur] + after);
      var next := if DependsOn(g, cur, before[n])
        then SegRates(g, before[..n] + [before[n] + cur] + after)
        else SegRates(g, before[..n] + [cur] + ([before[n]] + after));
      forall rate: FeeFrac | rate.size > 0 ensures Peak(rate, next) >= Peak(rate, now) {
        StepPeak(g, rate, before, cur, after);
      }
      if DependsOn(g, cur, before[n]) {
        SettleKeeps(g, before[..n], before[n] + cur, after);
      } else {
        SettleKeeps(g, before[..n], cur, [before[n]] + after);
      }
      DominatesTrans(SegRates(g, Settle(g, before, cur, after)), next, now);
    }
  }

  lemma DominatesTrans(a: seq<FeeFrac>, b: seq<FeeFrac>, c: seq<FeeFrac>)
    requires Dominates(a, b) && Dominates(b, c)
    ensures Dominates(a, c)
  {
    hide Peak;
    forall rate: FeeFrac | rate.size > 0 ensures Peak(rate, a) >= Peak(rate, c) {
      assert Peak(rate, b) >= Peak(rate, c);
    }
  }

  // ----- A whole pass -----

  lemma {:induction false} BoundaryPeak(g: Graph, rate: FeeFrac, segs: seq<seq<nat>>)
    ensures Peak(rate, SegRates(g, segs)) <= Peak(rate, g.Rates(Flatten(segs)))
  {
    if segs != [] {
      hide Gain, FeeFrac.Plus;
      assert SegRates(g, segs)[1..] == SegRates(g, segs[1..]);
      BoundaryPeak(g, rate, segs[1..]);
      RatesConcat(g, segs[0], Flatten(segs[1..]));
      PeakConcat(rate, g.Rates(segs[0]), g.Rates(Flatten(segs[1..])));
      PeakNonNegative(rate, g.Rates(segs[0]));
    }
  }

  /** A list of groups that together hold exactly the given transactions, at least as good. */
  ghost predicate Regroups(g: Graph, segs: seq<seq<nat>>, items: seq<nat>) {
    && Groups(g, segs) && g.Topological(Flatten(segs)) && SetOf(Flatten(segs)) == SetOf(items)
    && Dominates(SegRates(g, segs), g.Rates(items))
  }

  lemma AppendRegroups(g: Graph, segs: seq<seq<nat>>, items: seq<nat>, x: nat)
    requires Proper(g, items + [x]) && g.Topological(items + [x]) && Regroups(g, segs, items)
    ensures Regroups(g, segs + [[x]], items + [x])
  {
    hide Graph.Valid, Graph.PositiveSizes;
    FlattenConcat(segs, [[x]]);
    FlattenOne([x]);
    ProperParts(g, items, [x]);
    ProperSized(g, [x]);
    SizedConcat(g, Flatten(segs), [x], []);
    assert Flatten(segs) + [x] + [] == Flatten(segs) + [x];
    TopologicalConcat(g, items, [x]);
    TopologicalConcat(g, Flatten(segs), [x]);
    SetOfConcat(Flatten(segs), [x]);
    AppendDominates(g, segs, items, x);
  }

  lemma AppendDominates(g: Graph, segs: seq<seq<nat>>, items: seq<nat>, x: nat)
    requires Proper(g, items) && Proper(g, Flatten(segs)) && SetOf(Flatten(segs)) == SetOf(items)
    requires Dominates(SegRates(g, segs), g.Rates(items))
    ensures Dominates(SegRates(g, segs + [[x]]), g.Rates(items + [x]))
  {
    hide *;
    SameTotals(g, segs, items);
    AppendRates(g, segs, items, x);
    DominatesAppend(SegRates(g, segs), g.Rates(items), g.Rate(x));
  }

  lemma SameTotals(g: Graph, segs: seq<seq<nat>>, items: seq<nat>)
    requires Proper(g, items) && Proper(g, Flatten(segs)) && SetOf(Flatten(segs)) == SetOf(items)
    ensures Total(SegRates(g, segs)) == Total(g.Rates(items))
  {
    ProperSized(g, items);
    ProperSized(g, Flatten(segs));
    SegRatesTotal(g, segs);
  }

  lemma AppendRates(g: Graph, segs: seq<seq<nat>>, items: seq<nat>, x: nat)
    ensures SegRates(g, segs + [[x]]) == SegRates(g, segs) + [g.Rate(x)]
    ensures g.Rates(items + [x]) == g.Rates(items) + [g.Rate(x)]
  {
    hide SegRate;
    SegRateOne(g, x);
    RatesConcat(g, items, [x]);
  }

  /** The same pair behind both of two lists of equal totals keeps the order of their peaks. */
  lemma DominatesAppend(a: seq<FeeFrac>, b: seq<FeeFrac>, x: FeeFrac)
    requires Dominates(a, b) && Total(a) == Total(b)
    ensures Dominates(a + [x], b + [x])
  {
    hide Peak, Total, Gain;
    forall rate: FeeFrac | rate.size > 0 ensures Peak(rate, a + [x]) >= Peak(rate, b + [x]) {
      PeakAppend(rate, a, x);
      PeakAppend(rate, b, x);
    }
  }

  lemma {:induction false} PassRegroups(g: Graph, items: seq<nat>)
    requires Proper(g, items) && g.Topological(items)
    ensures Regroups(g, PassGroups(g, items), items)
  {
    if items != [] {
      var n := |items| - 1;
      var front, x := items[..n], items[n];
      assert items == front + [x];
      TopologicalConcat(g, front, [x]);
      ProperParts(g, front, [x]);
      PassRegroups(g, front);
      var segs := PassGroups(g, front);
      AppendRegroups(g, segs, front, x);
      assert segs + [[x]] + [] == segs + [[x]];
      SettleKeeps(g, segs, [x], []);
      DominatesTrans(SegRates(g, PassGroups(g, items)), SegRates(g, segs + [[x]]), g.Rates(items));
    }
  }

  /** A pass keeps the transactions in topological order and lowers the diagram nowhere. */
  lemma PassImproves(g: Graph, items: seq<nat>)
    requires Proper(g, items) && g.Topological(items)
    ensures g.Topological(Pass(g, items)) && SetOf(Pass(g, items)) == SetOf(items)
    ensures Dominates(g.Rates(Pass(g, items)), g.Rates(items))
  {
    hide Graph.Valid, Graph.PositiveSizes, PassGroups, Peak;
    PassRegroups(g, items);
    var segs := PassGroups(g, items);
    forall rate: FeeFrac | rate.size > 0 ensures Peak(rate, g.Rates(Flatten(segs))) >= Peak(rate, g.Rates(items)) {
      BoundaryPeak(g, rate, segs);
      assert Peak(rate, SegRates(g, segs)) >= Peak(rate, g.Rates(items));
    }
  }

  // ----- The groups are the chunks, and connected -----

  /** Each group is tight and connected. */
  ghost predicate Solid(g: Graph, seg: seq<nat>) {
    Tight(g, seg) && Connected(g, SetOf(seg))
  }

  lemma JoinConnected(g: Graph, p: seq<nat>, c: seq<nat>)
    requires g.Valid() && SetOf(p) <= g.used && SetOf(c) <= g.used
    requires Connected(g, SetOf(p)) && Connected(g, SetOf(c)) && DependsOn(g, c, p)
    ensures Connected(g, SetOf(p + c))
  {
    SetOfConcat(p, c);
    var a :| a in Deps(g, c) * SetOf(p);
    var x :| x in c && a in g.Anc(x);
    assert x in SetOf(c) && a in Neighbours(g, x);
    NeighboursSymmetric(g, x, a);
    var all := SetOf(p + c);
    forall part | part <= all && part != {} && Isolated(g, all, part) ensures part == all {
      PartIsolated(g, all, part, SetOf(p));
      PartIsolated(g, all, part, SetOf(c));
      assert x in part <==> a in part by {
        assert x in part ==> a in Neighbours(g, x) * all;
        assert a in part ==> x in Neighbours(g, a) * all;
      }
    }
  }

  lemma PartIsolated(g: Graph, all: set<nat>, part: set<nat>, s: set<nat>)
    requires part <= all && Isolated(g, all, part) && s <= all && Connected(g, s)
    ensures s <= part || s !! part
  {
    var q := part * s;
    forall i | i in q ensures Neighbours(g, i) * s <= q {
      assert Neighbours(g, i) * all <= part;
    }
    assert Isolated(g, s, q);
    if q == {} {
      forall x | x in s ensures x !in part {
        assert x in part ==> x in q;
      }
    } else {
      assert q == s;
    }
  }

  lemma SingleSolid(g: Graph, x: nat)
    ensures Solid(g, [x])
  {
    assert SetOf([x]) == {x};
    forall part | part <= {x} && part != {} && Isolated(g, {x}, part) ensures part == {x} {
      var y :| y in part;
    }
  }

  ghost predicate AllSolid(g: Graph, segs: seq<seq<nat>>) {
    forall i :: 0 <= i < |segs| ==> Solid(g, segs[i])
  }

  /** While settling: the others are in order, and the current group is above those after it. */
  ghost predicate Ordered(g: Graph, before: seq<seq<nat>>, cur: seq<nat>, after: seq<seq<nat>>) {
    && NonIncreasing(SegRates(g, before + after))
    && (after != [] ==> Higher(SegRate(g, cur), SegRate(g, after[0])))
  }

  lemma StepOrdered(g: Graph, before: seq<seq<nat>>, cur: seq<nat>, after: seq<seq<nat>>)
    requires before != [] && Ordered(g, before, cur, after) && AllPositive(SegRates(g, before + [cur] + after))
    requires Higher(SegRate(g, cur), SegRate(g, before[|before| - 1]))
    ensures var n := |before| - 1;
            Ordered(g, before[..n], before[n] + cur, after) && Ordered(g, before[..n], cur, [before[n]] + after)
  {
    hide SegRate;
    var n := |before| - 1;
    var p := before[n];
    assert before[..n] + ([p] + after) == before + after;
    var rs := SegRates(g, before + after);
    var all := SegRates(g, before + [cur] + after);
    var without := SegRates(g, before[..n] + after);
    assert all[n] == SegRate(g, p) && all[n + 1] == SegRate(g, cur);
    forall i | 0 < i < |without| ensures !Higher(without[i], without[i - 1]) {
      if i < n {
        assert without[i] == rs[i] && without[i - 1] == rs[i - 1];
      } else if i > n {
        assert without[i] == rs[i + 1] && without[i - 1] == rs[i];
      } else {
        assert without[i] == rs[i + 1] && without[i - 1] == rs[i - 1];
        assert rs[i] == all[n] && rs[i - 1] == all[i - 1] && rs[i + 1] == all[i + 2];
        assert !Higher(rs[i + 1], rs[i]) && !Higher(rs[i], rs[i - 1]);
        GainDown(rs[i], rs[i - 1], rs[i + 1]);
      }
    }
    SegRateConcat(g, p, cur);
    UnionBetween(SegRate(g, p), SegRate(g, cur));
    if after != [] {
      assert rs[n + 1] == SegRate(g, after[0]) && rs[n] == SegRate(g, p) && all[n + 2] == SegRate(g, after[0]);
      assert !Higher(SegRate(g, after[0]), SegRate(g, p));
      var w := SegRate(g, p + cur);
      assert w.size > 0 by { SizeOfSum(SegRate(g, p), SegRate(g, cur)); }
      assert Gain(w, SegRate(g, p)) < 0 && Gain(SegRate(g, p), SegRate(g, after[0])) <= 0;
      GainDown(SegRate(g, p), w, SegRate(g, after[0]));
    }
  }

  lemma SettledOrdered(g: Graph, before: seq<seq<nat>>, cur: seq<nat>, after: seq<seq<nat>>)
    requires Ordered(g, before, cur, after)
    requires before != [] ==> !Higher(SegRate(g, cur), SegRate(g, before[|before| - 1]))
    ensures NonIncreasing(SegRates(g, before + [cur] + after))
  {
    hide SegRate;
    var rs, all := SegRates(g, before + after), SegRates(g, before + [cur] + after);
    var n := |before|;
    forall i | 0 < i < |all| ensures !Higher(all[i], all[i - 1]) {
      if i < n {
        assert all[i] == rs[i] && all[i - 1] == rs[i - 1];
      } else if i > n + 1 {
        assert all[i] == rs[i - 1] && all[i - 1] == rs[i - 2];
      } else if i == n + 1 {
        assert all[i] == SegRate(g, after[0]) && all[i - 1] == SegRate(g, cur);
      } else {
        assert all[i] == SegRate(g, cur) && all[i - 1] == SegRate(g, before[n - 1]);
      }
    }
  }

  lemma GroupsPositive(g: Graph, segs: seq<seq<nat>>)
    requires Groups(g, segs)
    ensures AllPositive(SegRates(g, segs))
  {
    ChunkingPositive(g, segs);
  }

  lemma StepSolid(g: Graph, before: seq<seq<nat>>, cur: seq<nat>, after: seq<seq<nat>>)
    requires before != [] && g.Valid() && SetOf(Flatten(before + [cur] + after)) <= g.used
    requires Groups(g, before + [cur] + after) && AllSolid(g, before) && Solid(g, cur)
    requires Higher(SegRate(g, cur), SegRate(g, before[|before| - 1])) && DependsOn(g, cur, before[|before| - 1])
    ensures Solid(g, before[|before| - 1] + cur)
  {
    hide Graph.Valid, Connected, SegRate, DependsOn;
    var n := |before| - 1;
    GroupsAt(g, before, cur, after);
    TightJoin(g, before[n], cur);
    FlattenThree(before, cur, after);
    FlattenLast(before);
    SetOfConcat(Flatten(before) + cur, Flatten(after));
    SetOfConcat(Flatten(before), cur);
    SetOfConcat(Flatten(before[..n]), before[n]);
    assert Solid(g, before[n]);
    JoinConnected(g, before[n], cur);
  }

  lemma {:induction false} SettleSolid(g: Graph, before: seq<seq<nat>>, cur: seq<nat>, after: seq<seq<nat>>)
    requires g.Valid() && SetOf(Flatten(before + [cur] + after)) <= g.used
    requires Groups(g, before + [cur] + after) && g.Topological(Flatten(before + [cur] + after))
    requires AllSolid(g, before) && Solid(g, cur) && AllSolid(g, after) && Ordered(g, before, cur, after)
    ensures AllSolid(g, Settle(g, before, cur, after)) && NonIncreasing(SegRates(g, Settle(g, before, cur, after)))
    decreases |before|
  {
    hide Graph.Valid, Groups, Graph.Topological, SegRate, Flatten, SetOf, Solid, Ordered, DependsOn;
    if before != [] && Higher(SegRate(g, cur), SegRate(g, before[|before| - 1])) {
      var n := |before| - 1;
      GroupsPositive(g, before + [cur] + after);
      StepTopological(g, before, cur, after);
      StepGroups(g, before, cur, after);
      StepOrdered(g, before, cur, after);
      assert AllSolid(g, before[..n]);
      if DependsOn(g, cur, before[n]) {
        StepSolid(g, before, cur, after);
        SettleSolid(g, before[..n], before[n] + cur, after);
      } else {
        assert AllSolid(g, [before[n]] + after);
        SettleSolid(g, before[..n], cur, [before[n]] + after);
      }
    } else {
      SettledOrdered(g, before, cur, after);
    }
  }

  lemma {:induction false} PassSolid(g: Graph, items: seq<nat>)
    requires Proper(g, items) && g.Topological(items)
    ensures AllSolid(g, PassGroups(g, items)) && NonIncreasing(SegRates(g, PassGroups(g, items)))
  {
    if items != [] {
      hide Graph.Valid, Graph.PositiveSizes, Groups, Flatten, Solid, SegRate, Settle;
      var n := |items| - 1;
      var front, x := items[..n], items[n];
      assert items == front + [x];
      TopologicalConcat(g, front, [x]);
      ProperParts(g, front, [x]);
      PassSolid(g, front);
      PassRegroups(g, front);
      var segs := PassGroups(g, front);
      AppendRegroups(g, segs, front, x);
      assert segs + [[x]] + [] == segs + [[x]] && segs + [] == segs;
      SingleSolid(g, x);
      SettleSolid(g, segs, [x], []);
    }
  }

  /** The groups of a pass are the chunks of its result, and each is connected. */
  lemma PassChunksConnected(g: Graph, items: seq<nat>)
    requires Proper(g, items) && g.Topological(items)
    ensures PassGroups(g, items) == Chunks(g, Pass(g, items))
    ensures forall i :: 0 <= i < |Chunks(g, Pass(g, items))| ==> Connected(g, SetOf(Chunks(g, Pass(g, items))[i]))
  {
    hide Graph.Valid, Graph.PositiveSizes, SegRate, PassGroups, Chunks, Graph.Topological;
    PassSolid(g, items);
    PassRegroups(g, items);
    var segs, lin := PassGroups(g, items), Pass(g, items);
    assert IsChunking(g, lin, segs);
    ChunksChunking(g, lin);
    ChunkingUnique(g, lin, segs, Chunks(g, lin));
  }
}
