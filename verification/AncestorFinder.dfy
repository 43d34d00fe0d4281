/** The class `AncestorCandidateFinder` (`src/cluster_linearize.h:542-642`). */
module AncestorFinders {
  import opened FeeFracs
  import opened Graphs
  import opened Components
  import opened LinearizationChunkings
  import opened SearchItems
  import opened CandidateSearch

  /** Aggregate feerate of the remaining ancestors of `i`. */
  function AncestorRate(g: Graph, todo: set<nat>, i: nat): FeeFrac {
    g.FeeRate(g.Anc(i) * todo)
  }

  /** The members of `s` below `n`. */
  function Below(s: set<nat>, n: nat): set<nat> {
    set x | x in s && x < n
  }

  class AncestorCandidateFinder {
    const depgraph: Graph
    var todo: set<nat>
    var feerates: seq<FeeFrac>

    ghost predicate Valid()
      reads this
    {
      && depgraph.Cluster() && todo <= depgraph.used && |feerates| == |depgraph.entries|
      && forall i :: i in todo && i < |feerates| ==> feerates[i] == AncestorRate(depgraph, todo, i)
    }

    constructor (depgraph: Graph)
      requires depgraph.Cluster()
      ensures Valid() && this.depgraph == depgraph && todo == depgraph.used
    {
      hide Graph.FeeRate, FeeFrac.Plus, Graph.Valid;
      this.depgraph := depgraph;
      todo := depgraph.used;
      feerates := seq(|depgraph.entries|, _ => EMPTY);
      new;
      for i := 0 to |depgraph.entries|
        invariant this.depgraph == depgraph && todo == depgraph.used && |feerates| == |depgraph.entries|
        invariant forall k :: k in depgraph.used && k < i ==> feerates[k] == depgraph.FeeRate(depgraph.Anc(k))
      {
        if i in depgraph.used {
          var ancToAdd := depgraph.Anc(i);
          var ancFeerate := EMPTY;
          OwnAncestor(depgraph, i);
          var first := First(ancToAdd);
          AncestorStep(depgraph, i, first);
          if first < i {
            ancFeerate := feerates[first];
            ancToAdd := ancToAdd - depgraph.Anc(first);
          }
          ancFeerate := ancFeerate.Plus(depgraph.FeeRate(ancToAdd));
          feerates := feerates[i := ancFeerate];
        }
      }
      forall i | i in todo && i < |feerates| ensures feerates[i] == AncestorRate(depgraph, todo, i) {
        AncestorsUsed(depgraph, i);
      }
    }

    /** Remove transactions: the remaining ancestor sets lose their feerates. */
    method MarkDone(select: set<nat>)
      requires Valid() && select <= todo
      modifies this
      ensures Valid() && todo == old(todo) - select
    {
      hide Graph.FeeRate, FeeFrac.Minus, FeeFrac.Plus;
      ghost var before := todo;
      todo := todo - select;
      assert before - Below(select, 0) == before;
      for i := 0 to |depgraph.entries|
        invariant todo == before - select && |feerates| == |depgraph.entries|
        invariant forall j :: j in todo && j < |feerates| ==>
                    feerates[j] == AncestorRate(depgraph, before - Below(select, i), j)
      {
        if i in select {
          RemoveOne(i, before - Below(select, i));
          assert before - Below(select, i + 1) == before - Below(select, i) - {i};
        } else {
          assert Below(select, i + 1) == Below(select, i);
        }
      }
      assert Below(select, |depgraph.entries|) == select;
    }

    /** Subtract one transaction from the ancestor sets of its remaining descendants. */
    method RemoveOne(i: nat, ghost left: set<nat>)
      requires depgraph.Cluster() && todo <= left <= depgraph.used && i in left && i !in todo
      requires |feerates| == |depgraph.entries|
      requires forall j :: j in todo && j < |feerates| ==> feerates[j] == AncestorRate(depgraph, left, j)
      modifies this`feerates
      ensures |feerates| == |depgraph.entries|
      ensures forall j :: j in todo && j < |feerates| ==> feerates[j] == AncestorRate(depgraph, left - {i}, j)
    {
      hide Graph.FeeRate, FeeFrac.Minus, FeeFrac.Plus;
      var feerate := depgraph.Rate(i);
      for j := 0 to |depgraph.entries|
        invariant |feerates| == |depgraph.entries|
        invariant forall k :: k in todo && k < |feerates| ==>
                    feerates[k] == AncestorRate(depgraph, if k < j then left - {i} else left, k)
      {
        if j in todo {
          RemovedRate(depgraph, left, i, j);
          if j in depgraph.Desc(i) {
            feerates := feerates[j := feerates[j].Minus(feerate)];
          }
        }
      }
    }

    function AllDone(): bool
      reads this
    {
      todo == {}
    }

    function NumRemaining(): nat
      reads this
    {
      |todo|
    }

    /** The best remaining ancestor set: highest feerate, smallest among equals. */
    method FindCandidateSet() returns (r: SetInfo)
      requires Valid() && todo != {}
      ensures Candidate(depgraph, todo, r)
      ensures exists b :: b in todo && r.transactions == depgraph.Anc(b) * todo
      ensures forall i :: i in todo ==> !Better(AncestorRate(depgraph, todo, i), r.feerate)
    {
      hide Graph.FeeRate;
      var best, found := 0, false;
      for i := 0 to |depgraph.entries|
        invariant !found ==> forall k :: k in todo ==> i <= k
        invariant found ==> best in todo
        invariant found ==> forall k :: k in todo && k < i ==>
                    !Better(AncestorRate(depgraph, todo, k), AncestorRate(depgraph, todo, best))
      {
        if i in todo && (!found || Better(feerates[i], feerates[best])) {
          ghost var was := best;
          forall k | found && k in todo && k < i
            ensures !Better(AncestorRate(depgraph, todo, k), AncestorRate(depgraph, todo, i))
          {
            AncestorRatePositive(depgraph, todo, k);
            AncestorRatePositive(depgraph, todo, i);
            AncestorRatePositive(depgraph, todo, was);
            BetterTrans(AncestorRate(depgraph, todo, k), AncestorRate(depgraph, todo, i),
                        AncestorRate(depgraph, todo, was));
          }
          best, found := i, true;
        }
      }
      assert found;
      AncestorsClosed(depgraph, todo, best);
      assert best in depgraph.Anc(best) * todo;
      r := SetInfo(depgraph.Anc(best) * todo, feerates[best]);
    }
  }

  lemma OwnAncestor(g: Graph, i: nat)
    requires g.Valid() && i in g.used
    ensures i in g.Anc(i) && i < |g.entries|
  {
  }

  /** The feerate of an ancestor set from that of an ancestor's and the rest. */
  lemma AncestorStep(g: Graph, i: nat, first: nat)
    requires g.Valid() && i in g.used && first in g.Anc(i)
    ensures first in g.used
    ensures g.FeeRate(g.Anc(first)).Plus(g.FeeRate(g.Anc(i) - g.Anc(first))) == g.FeeRate(g.Anc(i))
    ensures EMPTY.Plus(g.FeeRate(g.Anc(i))) == g.FeeRate(g.Anc(i))
  {
    hide Graph.FeeRate, FeeFrac.Plus;
    EmptyPlus(g.FeeRate(g.Anc(i)));
    RateSplit(g, g.Anc(i), g.Anc(first));
    assert g.Anc(i) * g.Anc(first) == g.Anc(first);
  }

  lemma AncestorsUsed(g: Graph, i: nat)
    requires g.Valid() && i in g.used
    ensures g.Anc(i) * g.used == g.Anc(i)
  {
  }

  lemma EmptyPlus(a: FeeFrac)
    ensures EMPTY.Plus(a) == a
  {
  }

  lemma RemovedRate(g: Graph, left: set<nat>, i: nat, j: nat)
    requires g.Valid() && i in left && left <= g.used && j in g.used
    ensures j in g.Desc(i) ==> AncestorRate(g, left - {i}, j) == AncestorRate(g, left, j).Minus(g.Rate(i))
    ensures j !in g.Desc(i) ==> AncestorRate(g, left - {i}, j) == AncestorRate(g, left, j)
  {
    assert i in g.Anc(j) <==> j in g.Desc(i);
    var all, rest := g.Anc(j) * left, g.Anc(j) * (left - {i});
    if j in g.Desc(i) {
      assert all == rest + {i};
      RateDisjoint(g, rest, {i});
      RateOne(g, i);
      MinusPlus(g.FeeRate(rest), g.Rate(i));
    } else {
      assert all == rest;
    }
  }

  lemma MinusPlus(a: FeeFrac, b: FeeFrac)
    ensures a.Plus(b).Minus(b) == a
  {
  }

  lemma AncestorRatePositive(g: Graph, todo: set<nat>, i: nat)
    requires g.Cluster() && todo <= g.used && i in todo
    ensures AncestorRate(g, todo, i).size > 0
  {
    assert i in g.Anc(i) * todo;
    RatePositive(g, g.Anc(i) * todo);
  }

  lemma BetterTrans(a: FeeFrac, b: FeeFrac, c: FeeFrac)
    requires a.size > 0 && b.size > 0 && c.size > 0
    ensures Better(a, b) && Better(b, c) ==> Better(a, c)
  {
    if Better(a, b) && Better(b, c) {
      assert Gain(b, a) >= 0 && Gain(c, b) >= 0;
      GainUp(b, c, a);
    }
  }
}
