/**
 What the branch-and-bound search knows about its work items (`src/cluster_linearize.h:747-779`), and
 why its pruning and its jump-ahead rule lose no better set.
 */
module SearchItems {
  import opened FeeFracs
  import opened Graphs
  import opened Chunkings
  import opened Improvements
  import opened LinearizationChunkings

  /** Positions are in decreasing order of individual feerate. */
  ghost predicate SortedByRate(g: Graph) {
    forall i, j :: i in g.used && j in g.used && i < j ==> !Higher(g.Rate(j), g.Rate(i))
  }

  /** A graph that is searched, and the positions left in it. */
  ghost predicate Searchable(g: Graph, todo: set<nat>) {
    g.Cluster() && SortedByRate(g) && todo <= g.used
  }

  /** Included transactions, undecided ones, and the feerate no superset within both can exceed. */
  datatype WorkItem = WorkItem(inc: SetInfo, und: set<nat>, potFeerate: FeeFrac)

  /** `s` lies between `lo` and `lo + und`. */
  ghost predicate Between(lo: set<nat>, und: set<nat>, s: set<nat>) {
    lo <= s <= lo + und
  }

  ghost predicate Fits(item: WorkItem, s: set<nat>) {
    Between(item.inc.transactions, item.und, s)
  }

  /** The left part of the search space: included and undecided sets as the source describes them. */
  ghost predicate Splits(g: Graph, todo: set<nat>, inc: SetInfo, und: set<nat>) {
    && inc.For(g) && g.Closed(todo, inc.transactions)
    && und <= todo && inc.transactions !! und && g.Closed(todo, inc.transactions + und)
  }

  /** No set between `inc` and `inc + und` beats both `pot` and `best`. */
  ghost predicate Bounded(g: Graph, inc: set<nat>, und: set<nat>, pot: FeeFrac, best: FeeFrac) {
    forall s :: Between(inc, und, s) && s != {} ==> !Higher(g.FeeRate(s), pot) || !Higher(g.FeeRate(s), best)
  }

  ghost predicate ItemOk(g: Graph, todo: set<nat>, best: FeeFrac, item: WorkItem) {
    && Splits(g, todo, item.inc, item.und) && item.und != {}
    && (item.inc.transactions == {} <==> item.potFeerate.IsEmpty())
    && (item.inc.transactions != {} ==>
          && item.potFeerate.size > 0
          && !Higher(item.inc.feerate, best)
          && Bounded(g, item.inc.transactions, item.und, item.potFeerate, best))
  }

  /** The positions with a feerate above that of `best`. */
  ghost function Improving(g: Graph, todo: set<nat>, best: FeeFrac): set<nat> {
    set i | i in todo && Higher(g.Rate(i), best)
  }

  /** A known topologically valid set. */
  ghost predicate Candidate(g: Graph, todo: set<nat>, best: SetInfo) {
    best.For(g) && g.Closed(todo, best.transactions) && best.transactions != {}
  }

  // ----- Order of feerates -----

  lemma NotHigherTrans(a: FeeFrac, b: FeeFrac, c: FeeFrac)
    requires a.size >= 0 && b.size > 0 && c.size > 0
    requires !Higher(a, b) && !Higher(b, c)
    ensures !Higher(a, c)
    ensures a.size > 0 && Higher(c, b) ==> Higher(c, a)
  {
    GainDown(b, c, a);
  }

  lemma CandidateSize(g: Graph, todo: set<nat>, s: SetInfo)
    requires g.Cluster() && todo <= g.used && s.For(g) && s.transactions <= todo
    ensures s.feerate.size >= 0
    ensures s.transactions == {} <==> s.feerate.IsEmpty()
    ensures s.transactions == {} ==> s.feerate == EMPTY
    ensures forall i :: i in todo ==> g.Rate(i).size > 0
  {
    RatePositive(g, s.transactions);
  }

  // ----- The potential set -----

  /** `pot` is `inc` with exactly those improving undecided transactions that raise its feerate. */
  ghost predicate Potential(g: Graph, inc: set<nat>, pool: set<nat>, pot: SetInfo) {
    && pot.For(g) && inc <= pot.transactions <= inc + pool
    && (forall i :: i in pot.transactions - inc ==> !Higher(pot.feerate, g.Rate(i)))
    && (forall i :: i in pool - pot.transactions ==> !Higher(g.Rate(i), pot.feerate))
  }

  /** One more transaction, of higher feerate than the set so far but none higher than those added before. */
  lemma PotentialStep(g: Graph, inc: set<nat>, pot: SetInfo, pos: nat)
    requires g.Cluster() && pos in g.used && pot.transactions <= g.used && pot.For(g) && inc <= pot.transactions
    requires pos !in pot.transactions && pot.transactions != {} && Higher(g.Rate(pos), pot.feerate)
    requires forall i :: i in pot.transactions - inc ==> !Higher(g.Rate(pos), g.Rate(i))
    ensures var next := SetInfo(pot.transactions + {pos}, pot.feerate.Plus(g.Rate(pos)));
            && next.For(g)
            && forall i :: i in next.transactions - inc ==> !Higher(next.feerate, g.Rate(i))
  {
    var next := SetInfo(pot.transactions + {pos}, pot.feerate.Plus(g.Rate(pos)));
    RatePositive(g, pot.transactions);
    RateDisjoint(g, pot.transactions, {pos});
    RateOne(g, pos);
    UnionBetween(pot.feerate, g.Rate(pos));
    forall i | i in next.transactions - inc ensures !Higher(next.feerate, g.Rate(i)) {
      assert Higher(g.Rate(pos), next.feerate);
      if i != pos {
        assert g.Rate(i).size > 0;
        NotHigherTrans(next.feerate, g.Rate(pos), g.Rate(i));
      }
    }
  }

  /** Nothing between `inc` and `inc + und` beats both the potential set and the best one. */
  lemma PotentialBounds(g: Graph, todo: set<nat>, inc: set<nat>, und: set<nat>, best: FeeFrac, pot: SetInfo)
    requires g.Cluster() && todo <= g.used && inc <= todo && und <= todo && inc !! und
    requires best.size > 0 && inc != {}
    requires Potential(g, inc, Improving(g, todo, best) * und, pot)
    ensures Bounded(g, inc, und, pot.feerate, best)
  {
    forall s | Between(inc, und, s) && s != {}
      ensures !Higher(g.FeeRate(s), pot.feerate) || !Higher(g.FeeRate(s), best)
    {
      RatePositive(g, pot.transactions);
      if Higher(best, pot.feerate) {
        BoundedByRate(g, todo, inc, und, best, pot, s, best);
      } else {
        BoundedByRate(g, todo, inc, und, best, pot, s, pot.feerate);
      }
    }
  }

  /** The same at one rate: the higher of the two. */
  lemma BoundedByRate(g: Graph, todo: set<nat>, inc: set<nat>, und: set<nat>, best: FeeFrac, pot: SetInfo, s: set<nat>,
                      rate: FeeFrac)
    requires g.Cluster() && todo <= g.used && inc <= todo && und <= todo && inc !! und
    requires best.size > 0 && inc != {} && rate.size > 0 && pot.feerate.size > 0
    requires Potential(g, inc, Improving(g, todo, best) * und, pot)
    requires Between(inc, und, s)
    requires !Higher(pot.feerate, rate) && !Higher(best, rate) && (rate == best || rate == pot.feerate)
    ensures !Higher(g.FeeRate(s), rate)
  {
    hide Graph.Valid, Graph.Acyclic;
    var p := pot.transactions;
    forall i | i in s - p ensures Gain(rate, g.Rate(i)) <= 0 {
      assert i in und && g.Rate(i).size > 0;
      if i in Improving(g, todo, best) {
        NotHigherTrans(g.Rate(i), pot.feerate, rate);
      } else {
        NotHigherTrans(g.Rate(i), best, rate);
      }
    }
    forall i | i in p - s ensures Gain(rate, g.Rate(i)) >= 0 {
      assert i in p - inc && i in Improving(g, todo, best);
      assert !Higher(pot.feerate, g.Rate(i)) && Higher(g.Rate(i), best);
    }
    GainByParts(g, s, p, rate);
  }

  /** If `s` adds to `p` nothing that gains and omits nothing that loses, it gains no more than `p`. */
  lemma GainByParts(g: Graph, s: set<nat>, p: set<nat>, rate: FeeFrac)
    requires forall i :: i in s - p ==> Gain(rate, g.Rate(i)) <= 0
    requires forall i :: i in p - s ==> Gain(rate, g.Rate(i)) >= 0
    ensures Gain(rate, g.FeeRate(s)) <= Gain(rate, g.FeeRate(p))
  {
    hide Graph.FeeRate;
    RateGain(g, s - p, rate);
    RateGain(g, p - s, rate);
    RateGainSplit(g, s, p, rate);
    RateGainSplit(g, p, s, rate);
    assert s * p == p * s;
  }

  // ----- Jumping ahead -----

  /** Adding topologically valid parts of the potential set to an optimal set keeps it optimal. */
  lemma JumpKeepsOptimal(g: Graph, todo: set<nat>, inc: set<nat>, und: set<nat>, best: FeeFrac, pot: SetInfo,
                         inc': set<nat>, s: set<nat>)
    requires g.Cluster() && todo <= g.used && inc <= todo && und <= todo && inc !! und
    requires best.size > 0 && inc != {}
    requires Potential(g, inc, Improving(g, todo, best) * und, pot)
    requires inc <= inc' <= pot.transactions && g.Closed(todo, inc')
    requires Between(inc, und, s) && Optimal(g, todo, s) && Higher(g.FeeRate(s), best)
    ensures Optimal(g, todo, s + inc') && Between(inc', und - inc', s + inc')
  {
    hide Graph.Valid, Graph.Acyclic;
    PotentialBounds(g, todo, inc, und, best, pot);
    var f := g.FeeRate(s);
    assert !Higher(f, pot.feerate);
    RatePositive(g, s);
    RatePositive(g, pot.transactions);
    forall i | i in inc' - s ensures Gain(f, g.Rate(i)) >= 0 {
      assert i in pot.transactions - inc;
      NotHigherTrans(f, pot.feerate, g.Rate(i));
    }
    ClosedIntersection(g, todo, s, inc');
    OptimalGrows(g, todo, s, inc');
  }

  lemma OptimalGrows(g: Graph, todo: set<nat>, s: set<nat>, more: set<nat>)
    requires g.Cluster() && todo <= g.used && Optimal(g, todo, s) && g.Closed(todo, s + more)
    requires forall i :: i in more - s ==> Gain(g.FeeRate(s), g.Rate(i)) >= 0
    ensures Optimal(g, todo, s + more)
  {
    hide Graph.Valid, Graph.Acyclic, Graph.FeeRate;
    var f, u := g.FeeRate(s), s + more;
    RatePositive(g, s);
    RatePositive(g, u);
    RateGain(g, more - s, f);
    RateGainSplit(g, u, s, f);
    assert u * s == s && u - s == more - s;
    assert Gain(f, f) == 0;
    forall t | g.Closed(todo, t) && t != {} ensures !Higher(g.FeeRate(t), g.FeeRate(u)) {
      RatePositive(g, t);
      NotHigherTrans(g.FeeRate(t), f, g.FeeRate(u));
    }
  }

  /** Every optimal set that fits has an optimal set that fits after the step, unless the best one is optimal. */
  ghost predicate OptimalIn(g: Graph, todo: set<nat>, inc: set<nat>, und: set<nat>) {
    exists s :: Between(inc, und, s) && Optimal(g, todo, s)
  }

  /** A candidate that no optimal set beats is optimal. */
  lemma NotBeatenIsOptimal(g: Graph, todo: set<nat>, best: SetInfo, s: set<nat>)
    requires g.Cluster() && todo <= g.used && Candidate(g, todo, best)
    requires Optimal(g, todo, s) && !Higher(g.FeeRate(s), best.feerate)
    ensures Optimal(g, todo, best.transactions)
  {
    hide Graph.Valid, Graph.Acyclic, Graph.FeeRate;
    RatePositive(g, s);
    RatePositive(g, best.transactions);
    forall t | g.Closed(todo, t) && t != {} ensures !Higher(g.FeeRate(t), best.feerate) {
      RatePositive(g, t);
      NotHigherTrans(g.FeeRate(t), g.FeeRate(s), best.feerate);
    }
  }

  // ----- Splitting -----

  /**
   A topologically valid set either includes a transaction with its ancestors, or excludes it with its
   descendants.
   */
  lemma SplitCovers(g: Graph, todo: set<nat>, inc: set<nat>, und: set<nat>, split: nat, s: set<nat>)
    requires g.Valid() && todo <= g.used && split in und && und <= todo && inc <= todo
    requires Between(inc, und, s) && g.Closed(todo, s)
    ensures split !in s ==> Between(inc, und - g.Desc(split), s)
    ensures split in s ==> Between(inc + g.Anc(split) * todo, und - g.Anc(split) * todo, s)
  {
    if split !in s {
      forall x | x in s ensures x !in g.Desc(split) {
        assert x in g.Desc(split) ==> split in g.Anc(x) * todo;
      }
    }
  }

  lemma SplitParts(g: Graph, todo: set<nat>, inc: SetInfo, und: set<nat>, split: nat)
    requires g.Valid() && todo <= g.used && split in und && Splits(g, todo, inc, und)
    ensures Splits(g, todo, inc, und - g.Desc(split))
    ensures Splits(g, todo, inc.Add(g, g.Anc(split) * todo), und - g.Anc(split) * todo)
    ensures split !in und - g.Desc(split) && split !in und - g.Anc(split) * todo
    ensures inc.Add(g, g.Anc(split) * todo).transactions != {}
  {
    hide SetInfo.For, Graph.FeeRate;
    assert split in g.Anc(split) && split in g.Desc(split);
    var anc := g.Anc(split) * todo;
    AddFor(g, inc, anc);
    var inc' := inc.transactions + anc;
    forall i | i in inc' ensures g.Anc(i) * todo <= inc' {
      if i in anc {
        assert g.Anc(i) <= g.Anc(split);
      }
    }
    assert anc <= inc.transactions + und;
    assert inc' + (und - anc) == inc.transactions + und;
    ExcludeClosed(g, todo, inc.transactions, und, split);
  }

  lemma ExcludeClosed(g: Graph, todo: set<nat>, inc: set<nat>, und: set<nat>, split: nat)
    requires g.Valid() && todo <= g.used && split in und && und <= todo && inc !! und
    requires g.Closed(todo, inc) && g.Closed(todo, inc + und)
    ensures g.Closed(todo, inc + (und - g.Desc(split)))
  {
    var rest := inc + (und - g.Desc(split));
    forall i, a | i in rest && a in g.Anc(i) * todo ensures a in rest {
      if i in inc {
        assert a in inc;
      } else {
        assert a in inc + und;
        assert a in g.Desc(split) <==> split in g.Anc(a);
        assert g.Anc(a) <= g.Anc(i);
        assert split in g.Anc(i) <==> i in g.Desc(split);
      }
    }
  }

  // ----- Pruning -----

  /** Nothing that improves is left undecided: no fitting set beats the best one. */
  lemma NothingImproves(g: Graph, todo: set<nat>, inc: SetInfo, und: set<nat>, best: FeeFrac, s: set<nat>)
    requires g.Cluster() && todo <= g.used && inc.For(g) && inc.transactions <= todo && und <= todo
    requires best.size > 0 && !Higher(inc.feerate, best)
    requires und !! Improving(g, todo, best)
    requires Between(inc.transactions, und, s)
    ensures !Higher(g.FeeRate(s), best)
  {
    hide Graph.Valid, Graph.Acyclic;
    forall i | i in s - inc.transactions ensures Gain(best, g.Rate(i)) <= 0 {
      assert i in und && i !in Improving(g, todo, best);
    }
    assert inc.transactions - s == {};
    GainByParts(g, s, inc.transactions, best);
  }
}
