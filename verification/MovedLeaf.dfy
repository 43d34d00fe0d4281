/**
 Moving a leaf transaction to the end of a linearization, possibly raising its fee, and
 postlinearizing, gives a result at least as good as the original
 (`src/cluster_linearize.h:1130-1134`).
 */
module MovedLeaf {
  import opened Basics
  import opened FeeFracs
  import opened Diagrams
  import opened Sequences
  import opened Graphs
  import opened Chunkings
  import opened Improvements
  import opened LinearizationChunkings
  import opened Passes
  import opened TreePasses
  import opened PostGuarantees

  /** The groups other than the one that is just `t`. */
  function DropGroup(segs: seq<seq<nat>>, t: nat): seq<seq<nat>> {
    if segs == [] then []
    else if segs[0] == [t] then DropGroup(segs[1..], t)
    else [segs[0]] + DropGroup(segs[1..], t)
  }

  lemma {:induction false} DropConcat(a: seq<seq<nat>>, b: seq<seq<nat>>, t: nat)
    ensures DropGroup(a + b, t) == DropGroup(a, t) + DropGroup(b, t)
  {
    if a == [] {
      assert a + b == b;
    } else {
      var s := a + b;
      assert s[0] == a[0] && s[1..] == a[1..] + b;
      DropConcat(a[1..], b, t);
    }
  }

  lemma DropOne(seg: seq<nat>, t: nat)
    ensures DropGroup([seg], t) == if seg == [t] then [] else [seg]
  {
    assert [seg][1..] == [];
  }

  lemma DropThree(before: seq<seq<nat>>, cur: seq<nat>, after: seq<seq<nat>>, t: nat)
    requires cur != [t]
    ensures DropGroup(before + [cur] + after, t) == DropGroup(before, t) + [cur] + DropGroup(after, t)
  {
    DropConcat(before + [cur], after, t);
    DropConcat(before, [cur], t);
    DropOne(cur, t);
  }

  /** Nothing but `t` itself is related to `t`. */
  ghost predicate Unrelated(g: Graph, t: nat, s: set<nat>) {
    forall x :: x in s && x != t ==> t !in g.Anc(x) && x !in g.Anc(t)
  }

  /** What dropping `t` leaves when the last group before is not `t`. */
  lemma StepDrop(g: Graph, before: seq<seq<nat>>, cur: seq<nat>, after: seq<seq<nat>>, t: nat)
    requires before != [] && cur != [t]
    ensures var n := |before| - 1;
            && (before[n] == [t] ==>
                  DropGroup(before[..n] + [cur] + ([before[n]] + after), t) == DropGroup(before + [cur] + after, t))
            && (before[n] != [t] ==>
                  && DropGroup(before, t) == DropGroup(before[..n], t) + [before[n]]
                  && DropGroup(before[..n] + [cur] + ([before[n]] + after), t) ==
                       DropGroup(before[..n], t) + [cur] + ([before[n]] + DropGroup(after, t)))
  {
    hide DropGroup;
    var n := |before| - 1;
    var f, p := before[..n], before[n];
    assert before == f + [p];
    DropThree(before, cur, after, t);
    DropThree(f, cur, [p] + after, t);
    DropConcat(f, [p], t);
    DropConcat([p], after, t);
    DropOne(p, t);
    var df, da := DropGroup(f, t), DropGroup(after, t);
    assert df + [] == df && [] + da == da;
  }

  lemma StepDropPeak(g: Graph, before: seq<seq<nat>>, cur: seq<nat>, after: seq<seq<nat>>, t: nat)
    requires before != [] && cur != [t] && before[|before| - 1] != [t] && before[|before| - 1] + cur != [t]
    requires SegRate(g, cur).size > 0 && SegRate(g, before[|before| - 1]).size > 0
    requires Higher(SegRate(g, cur), SegRate(g, before[|before| - 1]))
    ensures var n := |before| - 1;
            var now := SegRates(g, DropGroup(before + [cur] + after, t));
            && Dominates(SegRates(g, DropGroup(before[..n] + [before[n] + cur] + after, t)), now)
            && Dominates(SegRates(g, DropGroup(before[..n] + [cur] + ([before[n]] + after), t)), now)
  {
    hide SegRate, Peak;
    var n := |before| - 1;
    var f, p := before[..n], before[n];
    StepDrop(g, before, cur, after, t);
    DropThree(before, cur, after, t);
    DropThree(f, p + cur, after, t);
    var df, da := DropGroup(f, t), DropGroup(after, t);
    var db := df + [p];
    assert db[..|db| - 1] == df && db[|db| - 1] == p;
    forall rate: FeeFrac | rate.size > 0
      ensures Peak(rate, SegRates(g, db + [cur] + da)) <= Peak(rate, SegRates(g, df + [p + cur] + da))
      ensures Peak(rate, SegRates(g, db + [cur] + da)) <= Peak(rate, SegRates(g, df + [cur] + ([p] + da)))
    {
      StepPeak(g, rate, db, cur, da);
    }
  }

  /** An unrelated group stays on its own, and the others settle as well without it. */
  lemma {:induction false} SettleApart(g: Graph, before: seq<seq<nat>>, cur: seq<nat>, after: seq<seq<nat>>, t: nat)
    requires Groups(g, before + [cur] + after) && g.Topological(Flatten(before + [cur] + after))
    requires Unrelated(g, t, SetOf(Flatten(before + [cur] + after))) && t !in cur
    requires [t] in before || [t] in after
    ensures [t] in Settle(g, before, cur, after)
    ensures Dominates(SegRates(g, DropGroup(Settle(g, before, cur, after), t)),
                      SegRates(g, DropGroup(before + [cur] + after, t)))
    decreases |before|
  {
    hide Groups, Graph.Topological, SegRate, Flatten, SetOf, Peak, DependsOn, Unrelated, DropGroup;
    GroupsAt(g, before, cur, after);
    if before != [] && Higher(SegRate(g, cur), SegRate(g, before[|before| - 1])) {
      var n := |before| - 1;
      var p := before[n];
      StepTopological(g, before, cur, after);
      StepGroups(g, before, cur, after);
      var now := SegRates(g, DropGroup(before + [cur] + after, t));
      assert before == before[..n] + [p];
      NotAlone(p, cur, t);
      if p == [t] {
        NoDependency(g, before, cur, after, t);
        StepDrop(g, before, cur, after, t);
        assert [t] in [p] + after by { assert ([p] + after)[0] == [t]; }
        SettleApart(g, before[..n], cur, [p] + after, t);
      } else {
        StepDropPeak(g, before, cur, after, t);
        assert [t] in before ==> [t] in before[..n];
        if DependsOn(g, cur, p) {
          OthersWithout(g, before, cur, after, t);
          SettleApart(g, before[..n], p + cur, after, t);
          DominatesTrans(SegRates(g, DropGroup(Settle(g, before, cur, after), t)),
                         SegRates(g, DropGroup(before[..n] + [p + cur] + after, t)), now);
        } else {
          assert [t] in after ==> [t] in [p] + after by { InTail([p], after, t); }
          SettleApart(g, before[..n], cur, [p] + after, t);
          DominatesTrans(SegRates(g, DropGroup(Settle(g, before, cur, after), t)),
                         SegRates(g, DropGroup(before[..n] + [cur] + ([p] + after), t)), now);
        }
      }
    } else {
      InThree(before, cur, after, t);
    }
  }

  lemma InTail(a: seq<seq<nat>>, b: seq<seq<nat>>, t: nat)
    ensures [t] in b ==> [t] in a + b
  {
    if [t] in b {
      var k :| 0 <= k < |b| && b[k] == [t];
      assert (a + b)[|a| + k] == [t];
    }
  }

  lemma InThree(before: seq<seq<nat>>, cur: seq<nat>, after: seq<seq<nat>>, t: nat)
    requires [t] in before || [t] in after
    ensures [t] in before + [cur] + after
  {
    InTail(before + [cur], after, t);
  }

  lemma NotAlone(p: seq<nat>, cur: seq<nat>, t: nat)
    requires cur != [] && t !in cur
    ensures cur != [t] && (p != [] ==> p + cur != [t])
  {
    assert cur[0] in cur;
  }

  lemma NoDependency(g: Graph, before: seq<seq<nat>>, cur: seq<nat>, after: seq<seq<nat>>, t: nat)
    requires before != [] && before[|before| - 1] == [t] && t !in cur
    requires Unrelated(g, t, SetOf(Flatten(before + [cur] + after)))
    ensures !DependsOn(g, cur, before[|before| - 1])
  {
    FlattenThree(before, cur, after);
    assert SetOf([t]) == {t};
    forall x | x in cur ensures t !in g.Anc(x) {
      assert x in SetOf(Flatten(before) + cur + Flatten(after));
    }
  }

  /** The group before is another one, so it does not hold `t`. */
  lemma OthersWithout(g: Graph, before: seq<seq<nat>>, cur: seq<nat>, after: seq<seq<nat>>, t: nat)
    requires before != [] && before[|before| - 1] != [t] && ([t] in before || [t] in after)
    requires g.Topological(Flatten(before + [cur] + after)) && t !in cur
    ensures t !in before[|before| - 1] + cur
  {
    hide Flatten, SetOf, Graph.Topological, Distinct;
    var n := |before| - 1;
    var f, p, a := Flatten(before[..n]), before[n], Flatten(after);
    FlattenThree(before, cur, after);
    FlattenLast(before);
    TopologicalDistinct(g, f + p + cur + a);
    PartsApart(f, p, cur, a, t);
    if [t] in after {
      InFlatten(after, t);
    } else {
      assert before == before[..n] + [p];
      InFlatten(before[..n], t);
    }
  }

  lemma PartsApart(f: seq<nat>, p: seq<nat>, c: seq<nat>, a: seq<nat>, t: nat)
    requires Distinct(f + p + c + a)
    ensures t in SetOf(f) || t in SetOf(a) ==> t !in p
  {
    assert f + p + c + a == (f + p) + (c + a);
    DistinctConcat(f + p, c + a);
    DistinctConcat(f, p);
    SetOfConcat(f, p);
    SetOfConcat(c, a);
  }

  lemma InFlatten(segs: seq<seq<nat>>, t: nat)
    requires [t] in segs
    ensures t in SetOf(Flatten(segs))
  {
    var k :| 0 <= k < |segs| && segs[k] == [t];
    FlattenAround(segs, k);
    var l := Flatten(segs);
    assert l[|Flatten(segs[..k])|] == t;
  }

  // ----- The pass with the leaf first -----

  lemma {:induction false} PassApart(g: Graph, t: nat, items: seq<nat>)
    requires Proper(g, [t] + items) && g.Topological([t] + items) && g.Topological(items)
    requires Unrelated(g, t, SetOf([t] + items))
    ensures [t] in PassGroups(g, [t] + items)
    ensures Dominates(SegRates(g, DropGroup(PassGroups(g, [t] + items), t)), g.Rates(items))
    decreases |items|, 0
  {
    var all := [t] + items;
    if items == [] {
      assert all[..|all| - 1] == [] && all[|all| - 1] == t;
      assert PassGroups(g, all) == Settle(g, [], [t], []);
      assert [] + [[t]] + [] == [[t]];
      assert PassGroups(g, all) == [[t]];
      DropOne([t], t);
      assert SegRates(g, []) == [] && g.Rates(items) == [];
    } else {
      var n := |items| - 1;
      var front, x := items[..n], items[n];
      assert items == front + [x];
      assert all == ([t] + front) + [x];
      assert all[..|all| - 1] == [t] + front && all[|all| - 1] == x;
      PassApartStep(g, t, front, x);
    }
  }

  lemma PassApartStep(g: Graph, t: nat, front: seq<nat>, x: nat)
    requires Proper(g, [t] + front + [x]) && g.Topological([t] + front + [x]) && g.Topological(front + [x])
    requires Unrelated(g, t, SetOf([t] + front + [x]))
    ensures var segs := Settle(g, PassGroups(g, [t] + front), [x], []);
            [t] in segs && Dominates(SegRates(g, DropGroup(segs, t)), g.Rates(front + [x]))
    decreases |front|, 1
  {
    hide Graph.Valid, Graph.PositiveSizes, Groups, Flatten, SegRate, Settle, Peak, PassGroups, DropGroup;
    var before := [t] + front;
    TopologicalConcat(g, before, [x]);
    TopologicalConcat(g, front, [x]);
    ProperParts(g, before, [x]);
    assert SetOf([x]) == {x};
    SetOfConcat(before, [x]);
    SetOfConcat([t], front);
    assert SetOf([t]) == {t};
    PassApart(g, t, front);
    PassRegroups(g, before);
    var segs := PassGroups(g, before);
    AppendRegroups(g, segs, before, x);
    assert segs + [[x]] + [] == segs + [[x]];
    SettleApart(g, segs, [x], [], t);
    ApartAppend(g, segs, front, x, t);
    DominatesTrans(SegRates(g, DropGroup(Settle(g, segs, [x], []), t)), SegRates(g, DropGroup(segs + [[x]], t)),
                   g.Rates(front + [x]));
  }

  lemma ApartAppend(g: Graph, segs: seq<seq<nat>>, items: seq<nat>, x: nat, t: nat)
    requires Proper(g, [t] + items) && x != t && [t] in segs
    requires g.Topological(Flatten(segs)) && SetOf(Flatten(segs)) == SetOf([t] + items)
    requires Dominates(SegRates(g, DropGroup(segs, t)), g.Rates(items))
    ensures Dominates(SegRates(g, DropGroup(segs + [[x]], t)), g.Rates(items + [x]))
  {
    hide Graph.Valid, Graph.PositiveSizes, Peak, SegRate;
    DropConcat(segs, [[x]], t);
    DropOne([x], t);
    ProperParts(g, [t], items);
    assert SetOf([t]) == {t};
    TopologicalDistinct(g, Flatten(segs));
    DroppedMembers(g, segs, t);
    AppendDominates(g, DropGroup(segs, t), items, x);
  }

  /** Dropping the group of `t` removes exactly `t`. */
  lemma {:induction false} DroppedMembers(g: Graph, segs: seq<seq<nat>>, t: nat)
    requires Proper(g, Flatten(segs))
    ensures Proper(g, Flatten(DropGroup(segs, t)))
    ensures [t] in segs ==> SetOf(Flatten(DropGroup(segs, t))) == SetOf(Flatten(segs)) - {t}
    ensures [t] !in segs ==> DropGroup(segs, t) == segs
  {
    if segs != [] {
      hide Graph.Valid, Graph.PositiveSizes;
      var c, rest := segs[0], segs[1..];
      assert segs == [c] + rest;
      var fr, fd := Flatten(rest), Flatten(DropGroup(rest, t));
      ProperParts(g, c, fr);
      DroppedMembers(g, rest, t);
      assert SetOf([t]) == {t};
      if c == [t] {
        if [t] in rest {
          InFlatten(rest, t);
          assert false;
        }
      } else {
        FlattenConcat([c], DropGroup(rest, t));
        FlattenOne(c);
        DistinctConcat(c, fd);
        SetOfConcat(c, fd);
        if [t] in segs {
          assert [t] in rest;
          InFlatten(rest, t);
        }
      }
    }
  }

  // ----- Peaks -----

  lemma {:induction false} PeakAtMostGains(g: Graph, rate: FeeFrac, segs: seq<seq<nat>>)
    ensures Peak(rate, SegRates(g, segs)) <= GroupGains(g, rate, segs)
    ensures GroupGains(g, rate, segs) >= 0
  {
    if segs != [] {
      assert SegRates(g, segs)[1..] == SegRates(g, segs[1..]);
      PeakAtMostGains(g, rate, segs[1..]);
    }
  }

  lemma {:induction false} DroppedGains(g: Graph, rate: FeeFrac, segs: seq<seq<nat>>, t: nat)
    requires [t] in segs
    ensures GroupGains(g, rate, segs) >= GroupGains(g, rate, DropGroup(segs, t)) + Max(0, Gain(rate, g.Rate(t)))
  {
    hide Gain, SegRate;
    var c, rest := segs[0], segs[1..];
    assert segs == [c] + rest;
    if c == [t] {
      SegRateOne(g, t);
      DropLoses(g, rate, rest, t);
    } else {
      assert [t] in rest;
      DroppedGains(g, rate, rest, t);
      assert ([c] + DropGroup(rest, t))[1..] == DropGroup(rest, t);
    }
  }

  lemma {:induction false} DropLoses(g: Graph, rate: FeeFrac, segs: seq<seq<nat>>, t: nat)
    ensures GroupGains(g, rate, segs) >= GroupGains(g, rate, DropGroup(segs, t))
  {
    if segs != [] {
      hide Gain, SegRate;
      DropLoses(g, rate, segs[1..], t);
      if segs[0] != [t] {
        assert ([segs[0]] + DropGroup(segs[1..], t))[1..] == DropGroup(segs[1..], t);
      }
    }
  }

  lemma RegroupsGroups(g: Graph, segs: seq<seq<nat>>, items: seq<nat>)
    requires Regroups(g, segs, items)
    ensures Groups(g, segs)
  {
  }

  lemma RatesOne(g: Graph, t: nat)
    ensures g.Rates([t]) == [g.Rate(t)]
  {
  }

  lemma DominatesIntro(a: seq<FeeFrac>, b: seq<FeeFrac>)
    requires forall rate: FeeFrac :: rate.size > 0 ==> Peak(rate, a) >= Peak(rate, b)
    ensures Dominates(a, b)
  {
  }

  lemma DominatesAt(a: seq<FeeFrac>, b: seq<FeeFrac>, rate: FeeFrac)
    requires Dominates(a, b) && rate.size > 0
    ensures Peak(rate, a) >= Peak(rate, b)
  {
  }

  /** The leaf counts in full in the groups, and at most in full behind the items. */
  lemma LeafFirstPeak(g: Graph, rate: FeeFrac, t: nat, items: seq<nat>, segs: seq<seq<nat>>)
    requires rate.size > 0 && [t] in segs && AllPositive(SegRates(g, segs)) && NonIncreasing(SegRates(g, segs))
    requires Dominates(SegRates(g, DropGroup(segs, t)), g.Rates(items))
    ensures Peak(rate, SegRates(g, segs)) >= Peak(rate, g.Rates(items + [t]))
  {
    hide *;
    GroupGainsPeak(g, rate, segs);
    DroppedGains(g, rate, segs, t);
    PeakAtMostGains(g, rate, DropGroup(segs, t));
    DominatesAt(SegRates(g, DropGroup(segs, t)), g.Rates(items), rate);
    RatesConcat(g, items, [t]);
    RatesOne(g, t);
    PeakAppend(rate, g.Rates(items), g.Rate(t));
    TotalGain(rate, g.Rates(items));
    PeakNonNegative(rate, g.Rates(items));
    MaxFacts(Peak(rate, g.Rates(items)), Gain(rate, Total(g.Rates(items))) + Gain(rate, g.Rate(t)));
    MaxFacts(0, Gain(rate, g.Rate(t)));
  }

  lemma MaxFacts(a: int, b: int)
    ensures Max(a, b) >= a && Max(a, b) >= b && (Max(a, b) == a || Max(a, b) == b)
  {
  }

  /** With the leaf first, a pass over the leaf and `items` is as good as having the leaf after them. */
  lemma LeafFirstGroups(g: Graph, t: nat, items: seq<nat>)
    requires Proper(g, [t] + items) && g.Topological([t] + items) && g.Topological(items)
    requires Unrelated(g, t, SetOf([t] + items))
    ensures Dominates(SegRates(g, PassGroups(g, [t] + items)), g.Rates(items + [t]))
  {
    hide *;
    var segs := PassGroups(g, [t] + items);
    PassApart(g, t, items);
    PassSolid(g, [t] + items);
    PassRegroups(g, [t] + items);
    RegroupsGroups(g, segs, [t] + items);
    GroupsPositive(g, segs);
    forall rate: FeeFrac | rate.size > 0 ensures Peak(rate, SegRates(g, segs)) >= Peak(rate, g.Rates(items + [t])) {
      LeafFirstPeak(g, rate, t, items, segs);
    }
    DominatesIntro(SegRates(g, segs), g.Rates(items + [t]));
  }

  /** Continuing a pass from groups that regroup another order of the same transactions. */
  lemma {:induction false} PassContinues(g: Graph, a: seq<nat>, b: seq<nat>, more: seq<nat>)
    requires Proper(g, b + more) && g.Topological(b + more) && Regroups(g, PassGroups(g, a), b)
    ensures Regroups(g, PassGroups(g, a + more), b + more)
  {
    hide Graph.Valid, Graph.PositiveSizes, Regroups, Settle, SegRate;
    if more == [] {
      assert a + more == a && b + more == b;
    } else {
      var n := |more| - 1;
      var front, x := more[..n], more[n];
      assert a + more == (a + front) + [x] && b + more == (b + front) + [x];
      assert (a + more)[..|a + more| - 1] == a + front && (a + more)[|a + more| - 1] == x;
      TopologicalConcat(g, b + front, [x]);
      ProperParts(g, b + front, [x]);
      PassContinues(g, a, b, front);
      RegroupStep(g, PassGroups(g, a + front), b + front, x);
    }
  }

  lemma RegroupStep(g: Graph, segs: seq<seq<nat>>, items: seq<nat>, x: nat)
    requires Proper(g, items + [x]) && g.Topological(items + [x]) && Regroups(g, segs, items)
    ensures Regroups(g, Settle(g, segs, [x], []), items + [x])
  {
    hide Graph.Valid, Graph.PositiveSizes, Settle, SegRate, Peak;
    AppendRegroups(g, segs, items, x);
    assert segs + [[x]] + [] == segs + [[x]];
    SettleKeeps(g, segs, [x], []);
    DominatesTrans(SegRates(g, Settle(g, segs, [x], [])), SegRates(g, segs + [[x]]), g.Rates(items + [x]));
  }

  lemma LeafFirstPass(g: Graph, t: nat, z1: seq<nat>, z2: seq<nat>)
    requires Proper(g, [t] + z1 + z2) && g.Topological([t] + z1 + z2)
    requires Proper(g, z1 + [t] + z2) && g.Topological(z1 + [t] + z2)
    requires Unrelated(g, t, SetOf([t] + z1))
    ensures Dominates(g.Rates(Pass(g, [t] + z1 + z2)), g.Rates(z1 + [t] + z2))
  {
    hide Graph.Valid, Graph.PositiveSizes, PassGroups, SegRate, Groups, Peak;
    var first, swapped := [t] + z1, z1 + [t];
    ProperParts(g, first, z2);
    ProperParts(g, swapped, z2);
    TopologicalConcat(g, first, z2);
    TopologicalConcat(g, swapped, z2);
    TopologicalConcat(g, z1, [t]);
    SetOfConcat([t], z1);
    SetOfConcat(z1, [t]);
    LeafFirstGroups(g, t, z1);
    PassRegroups(g, first);
    assert Regroups(g, PassGroups(g, first), swapped);
    PassContinues(g, first, swapped, z2);
    var segs := PassGroups(g, first + z2);
    forall rate: FeeFrac | rate.size > 0
      ensures Peak(rate, g.Rates(Flatten(segs))) >= Peak(rate, g.Rates(swapped + z2))
    {
      BoundaryPeak(g, rate, segs);
      assert Peak(rate, SegRates(g, segs)) >= Peak(rate, g.Rates(swapped + z2));
    }
  }

  // ----- The guarantee -----

  lemma LeafMoves(g: Graph, x: seq<nat>, t: nat, y: seq<nat>)
    requires g.Cluster() && g.IsLinearization(x + [t] + y) && g.Desc(t) == {t}
    ensures g.IsLinearization(x + y + [t])
    ensures Unrelated(Reversed(g), t, SetOf([t] + Reverse(y)))
  {
    hide Graph.PositiveSizes;
    var lin := x + [t] + y;
    assert SetOf([t]) == {t};
    TopologicalConcat(g, x + [t], y);
    TopologicalConcat(g, x, [t]);
    SetOfConcat(x + [t], y);
    SetOfConcat(x, [t]);
    SetOfConcat(x, y);
    SetOfConcat(x + y, [t]);
    TopologicalConcat(g, x, y);
    forall a | a in SetOf(x) + SetOf(y) ensures t !in g.Anc(a) {
      assert a != t && a in g.used && t in g.used;
      assert t in g.Anc(a) <==> a in g.Desc(t);
    }
    TopologicalConcat(g, x + y, [t]);
    ReversedFacts(g);
    ReverseMembers(y);
    SetOfConcat([t], Reverse(y));
    forall a | a in SetOf([t] + Reverse(y)) && a != t ensures t !in Reversed(g).Anc(a) && a !in Reversed(g).Anc(t) {
      assert a in SetOf(y) && a in g.used && t in g.used;
      assert t in g.Desc(a) <==> a in g.Anc(t);
    }
  }

  lemma ReverseOrders(x: seq<nat>, t: nat, y: seq<nat>)
    ensures Reverse(x + [t] + y) == Reverse(y) + [t] + Reverse(x)
    ensures Reverse(x + y + [t]) == [t] + Reverse(y) + Reverse(x)
  {
  }

  /** Moving a leaf to the end and postlinearizing makes nothing worse. */
  lemma PostMovedLeaf(g: Graph, x: seq<nat>, t: nat, y: seq<nat>)
    requires g.Cluster() && g.IsLinearization(x + [t] + y) && g.Desc(t) == {t}
    ensures g.IsLinearization(x + y + [t])
    ensures AtLeastAsGood(g, PostLinearized(g, x + y + [t]), x + [t] + y)
  {
    hide Pass, Graph.Topological, Reversed, Peak, Graph.Valid, Graph.Acyclic, Graph.PositiveSizes, Unrelated, Reverse;
    LeafMoves(g, x, t, y);
    var before, moved := x + [t] + y, x + y + [t];
    BackwardSetup(g, before);
    BackwardSetup(g, moved);
    ReverseOrders(x, t, y);
    var v := Reversed(g);
    LeafFirstPass(v, t, Reverse(y), Reverse(x));
    BackwardImproves(g, moved);
    var mid := BackwardPass(g, moved);
    ReverseMembers(Pass(v, Reverse(moved)));
    ClusterProper(g, mid);
    ClusterProper(g, before);
    MirrorDominates(g, mid, before);
    PassImproves(g, mid);
    ClusterProper(g, Pass(g, mid));
    DominatesTrans(g.Rates(Pass(g, mid)), g.Rates(mid), g.Rates(before));
    DominatesDiagram(g, Pass(g, mid), before);
  }

  /** `g` with the fee of `t` raised. */
  function Raised(g: Graph, t: nat, extra: nat): Graph
    requires t < |g.entries|
  {
    var e := g.entries[t];
    Graph(g.entries[t := Entry(FeeFrac(e.feerate.fee + extra, e.feerate.size), e.ancestors, e.descendants)], g.used)
  }

  lemma RaisedSame(g: Graph, t: nat, extra: nat)
    requires g.Cluster() && t in g.used && t < |g.entries|
    ensures Raised(g, t, extra).Cluster() && Raised(g, t, extra).used == g.used
    ensures forall i :: Raised(g, t, extra).Anc(i) == g.Anc(i) && Raised(g, t, extra).Desc(i) == g.Desc(i)
  {
  }

  lemma {:induction false} RaisedPeak(g: Graph, t: nat, extra: nat, rate: FeeFrac, lin: seq<nat>)
    requires t < |g.entries| && rate.size > 0
    ensures Peak(rate, Raised(g, t, extra).Rates(lin)) >= Peak(rate, g.Rates(lin))
    ensures Total(Raised(g, t, extra).Rates(lin)).size == Total(g.Rates(lin)).size
    ensures Total(Raised(g, t, extra).Rates(lin)).fee >= Total(g.Rates(lin)).fee
  {
    var h := Raised(g, t, extra);
    if lin != [] {
      RaisedPeak(g, t, extra, rate, lin[1..]);
      assert h.Rates(lin)[1..] == h.Rates(lin[1..]) && g.Rates(lin)[1..] == g.Rates(lin[1..]);
      var a, b := h.Rate(lin[0]), g.Rate(lin[0]);
      assert a.size == b.size && a.fee >= b.fee;
      FeeRaisesGain(rate, a, b);
    }
  }

  lemma FeeRaisesGain(rate: FeeFrac, a: FeeFrac, b: FeeFrac)
    requires rate.size > 0 && a.size == b.size && a.fee >= b.fee
    ensures Gain(rate, a) >= Gain(rate, b)
  {
    assert (a.fee - b.fee) * rate.size >= 0;
  }

  /** Replacing a leaf by one of the same size and higher fee at the end, and postlinearizing, makes nothing worse. */
  lemma PostReplacedLeaf(g: Graph, x: seq<nat>, t: nat, y: seq<nat>, extra: nat)
    requires g.Cluster() && g.IsLinearization(x + [t] + y) && g.Desc(t) == {t} && t in g.used && t < |g.entries|
    ensures var h := Raised(g, t, extra);
            var after, before := SegRates(h, Chunks(h, PostLinearized(h, x + y + [t]))),
                SegRates(g, Chunks(g, x + [t] + y));
            AllPositive(after) && AllPositive(before) && NowhereBelow(after, before)
  {
    hide Pass, Reversed, Peak, Graph.Valid, Graph.Acyclic, Graph.PositiveSizes, Unrelated, Reverse, Raised, Chunks,
         SegRate,
         PostLinearized, DiagramAt;
    var h := Raised(g, t, extra);
    var lin := x + [t] + y;
    RaisedSame(g, t, extra);
    assert h.IsLinearization(lin);
    PostMovedLeaf(h, x, t, y);
    RaisedDiagram(g, t, extra, lin);
    var after, mid, before := SegRates(h, Chunks(h, PostLinearized(h, x + y + [t]))), SegRates(h, Chunks(h, lin)),
        SegRates(g, Chunks(g, lin));
    forall s: real | 0.0 <= s ensures DiagramAt(after, s) >= DiagramAt(before, s) {
      assert DiagramAt(after, s) >= DiagramAt(mid, s);
      assert DiagramAt(mid, s) >= DiagramAt(before, s);
    }
  }

  /** Raising a fee lowers the diagram of an order nowhere. */
  lemma RaisedDiagram(g: Graph, t: nat, extra: nat, lin: seq<nat>)
    requires g.Cluster() && t in g.used && t < |g.entries| && g.IsLinearization(lin)
    ensures var h := Raised(g, t, extra);
            var after, before := SegRates(h, Chunks(h, lin)), SegRates(g, Chunks(g, lin));
            AllPositive(after) && AllPositive(before) && NowhereBelow(after, before)
  {
    hide Peak, Graph.Valid, Graph.Acyclic, Graph.PositiveSizes, Raised, Chunks, DiagramAt;
    var h := Raised(g, t, extra);
    RaisedSame(g, t, extra);
    assert h.IsLinearization(lin);
    ClusterProper(g, lin);
    ClusterProper(h, lin);
    ProperSized(g, lin);
    ProperSized(h, lin);
    ChunksAreLeastMajorant(g, lin);
    ChunksAreLeastMajorant(h, lin);
    ChunksPeak(g, lin);
    ChunksPeak(h, lin);
    var after, before := SegRates(h, Chunks(h, lin)), SegRates(g, Chunks(g, lin));
    forall rate: FeeFrac | rate.size > 0 ensures Peak(rate, after) >= Peak(rate, before) {
      RaisedPeak(g, t, extra, rate, lin);
    }
    RaisedPeak(g, t, extra, FeeFrac(0, 1), lin);
    forall s: real | 0.0 <= s ensures DiagramAt(after, s) >= DiagramAt(before, s) {
      PeaksToDiagramAt(after, before, s);
    }
  }
}
