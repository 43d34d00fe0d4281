/**
 The branch-and-bound search for a highest-feerate topologically valid subset
 (`src/cluster_linearize.h:740-1009`), on a graph in decreasing order of individual feerate.
 */
module CandidateSearch {
  import opened Basics
  import opened FeeFracs
  import opened Positional
  import opened Graphs
  import opened Improvements
  import opened LinearizationChunkings
  import opened AppendTopos
  import opened Components
  import opened SearchItems
  import opened SearchSteps

  // ----- Invariants of the queue -----

  ghost predicate QueueOk(g: Graph, todo: set<nat>, best: FeeFrac, queue: seq<WorkItem>) {
    forall k :: 0 <= k < |queue| ==> ItemOk(g, todo, best, queue[k])
  }

  /** Every item at index `k` leaves room for `k` items and its own undecided transactions. */
  ghost predicate Roomy(queue: seq<WorkItem>, capacity: nat) {
    forall k :: 0 <= k < |queue| ==> k + |queue[k].und| <= capacity
  }

  /** The best set so far is a candidate, `imp` are the positions that improve on it, and all items are in order. */
  ghost predicate Searching(g: Graph, todo: set<nat>, queue: seq<WorkItem>, best: SetInfo, imp: set<nat>) {
    Candidate(g, todo, best) && imp == Improving(g, todo, best.feerate) && QueueOk(g, todo, best.feerate, queue)
  }

  /** An optimal set is in hand or fits an item in the queue. */
  ghost predicate Covered(g: Graph, todo: set<nat>, queue: seq<WorkItem>, best: SetInfo) {
    || Optimal(g, todo, best.transactions)
    || exists k :: 0 <= k < |queue| && OptimalIn(g, todo, queue[k].inc.transactions, queue[k].und)
  }

  /** An already known good candidate, or an empty one. */
  ghost predicate Known(g: Graph, todo: set<nat>, best: SetInfo) {
    !best.feerate.IsEmpty() ==> Candidate(g, todo, best)
  }

  /** `after` is at least as good as `before`: higher feerate, or the same and no larger. */
  ghost predicate NoWorse(after: FeeFrac, before: FeeFrac) {
    !Better(before, after) && !Higher(before, after)
  }

  lemma NoWorseTrans(a: FeeFrac, b: FeeFrac, c: FeeFrac)
    requires a.size > 0 && b.size > 0 && c.size > 0 && NoWorse(c, b) && NoWorse(b, a)
    ensures NoWorse(c, a)
  {
    NotHigherTrans(a, b, c);
  }

  lemma ItemOkGrows(g: Graph, todo: set<nat>, before: FeeFrac, after: FeeFrac, item: WorkItem)
    requires g.Cluster() && todo <= g.used && before.size > 0 && after.size > 0 && !Higher(before, after)
    requires ItemOk(g, todo, before, item)
    ensures ItemOk(g, todo, after, item)
  {
    hide Graph.Valid, Graph.Acyclic;
    var inc := item.inc.transactions;
    if inc != {} {
      RatePositive(g, inc);
      NotHigherTrans(item.inc.feerate, before, after);
      forall s | Between(inc, item.und, s) && s != {}
        ensures !Higher(g.FeeRate(s), item.potFeerate) || !Higher(g.FeeRate(s), after)
      {
        RatePositive(g, s);
        if !Higher(g.FeeRate(s), before) { NotHigherTrans(g.FeeRate(s), before, after); }
      }
    }
  }

  lemma QueueOkGrows(g: Graph, todo: set<nat>, before: FeeFrac, after: FeeFrac, queue: seq<WorkItem>)
    requires g.Cluster() && todo <= g.used && before.size > 0 && after.size > 0 && !Higher(before, after)
    requires QueueOk(g, todo, before, queue)
    ensures QueueOk(g, todo, after, queue)
  {
    hide ItemOk;
    forall k | 0 <= k < |queue| ensures ItemOk(g, todo, after, queue[k]) {
      ItemOkGrows(g, todo, before, after, queue[k]);
    }
  }

  lemma ImprovingShrinks(g: Graph, todo: set<nat>, before: FeeFrac, after: FeeFrac)
    requires g.Cluster() && todo <= g.used && before.size > 0 && after.size > 0 && !Higher(before, after)
    ensures Improving(g, todo, after) <= Improving(g, todo, before)
  {
    forall i | i in Improving(g, todo, after) ensures i in Improving(g, todo, before) {
      assert g.Rate(i).size > 0;
      if !Higher(g.Rate(i), before) { NotHigherTrans(g.Rate(i), before, after); }
    }
  }

  // ----- Pieces of add_fn -----

  /** The largest position of a non-empty set. */
  method Last(g: Graph, s: set<nat>) returns (last: nat)
    requires s != {} && forall i :: i in s ==> i < |g.entries|
    ensures last in s && forall i :: i in s ==> i <= last
  {
    last := |g.entries|;
    ghost var x :| x in s;
    while last !in s
      invariant x <= last && forall i :: i in s ==> i <= last
      decreases last
    {
      last := last - 1;
    }
  }

  /** Drop the positions that no longer improve on `best`, from the back. */
  method TrimImproving(g: Graph, todo: set<nat>, imp0: set<nat>, best: FeeFrac) returns (imp: set<nat>)
    requires Searchable(g, todo) && best.size > 0
    requires Improving(g, todo, best) <= imp0 <= todo
    ensures imp == Improving(g, todo, best)
  {
    imp := imp0;
    while imp != {}
      invariant Improving(g, todo, best) <= imp <= todo
      decreases imp
    {
      var check := Last(g, imp);
      if Higher(g.Rate(check), best) {
        forall i | i in imp ensures i in Improving(g, todo, best) {
          assert g.Rate(i).size > 0 && g.Rate(check).size > 0;
          if !Higher(g.Rate(i), best) { NotHigherTrans(g.Rate(check), g.Rate(i), best); }
        }
        break;
      }
      imp := imp - {check};
    }
  }

  /** Add improving undecided transactions while they raise the feerate. */
  method FindPotential(g: Graph, todo: set<nat>, inc: SetInfo, pool: set<nat>) returns (pot: SetInfo)
    requires Searchable(g, todo) && inc.For(g) && inc.transactions <= todo && inc.transactions != {}
    requires pool <= todo && inc.transactions !! pool
    ensures Potential(g, inc.transactions, pool, pot)
  {
    hide Graph.Valid, Graph.Acyclic, Graph.FeeRate, FeeFrac.Plus;
    InRange(g, todo);
    pot := inc;
    for pos := 0 to |g.entries|
      invariant pot.For(g) && pot.transactions == inc.transactions + set i | i in pool && i < pos
      invariant forall i :: i in pot.transactions - inc.transactions ==> !Higher(pot.feerate, g.Rate(i))
    {
      if pos in pool {
        if !Higher(g.Rate(pos), pot.feerate) {
          RatePositive(g, pot.transactions);
          forall i | i in pool - pot.transactions ensures !Higher(g.Rate(i), pot.feerate) {
            assert pos <= i && g.Rate(i).size > 0 && g.Rate(pos).size > 0;
            if i != pos { NotHigherTrans(g.Rate(i), g.Rate(pos), pot.feerate); }
          }
          return;
        }
        PotentialStep(g, inc.transactions, pot, pos);
        pot := SetInfo(pot.transactions + {pos}, pot.feerate.Plus(g.Rate(pos)));
      }
    }
  }

  lemma InRange(g: Graph, todo: set<nat>)
    requires g.Valid() && todo <= g.used
    ensures forall i :: i in todo ==> i < |g.entries|
  {
  }

  /** Include every transaction of the potential set whose remaining ancestors are all in it. */
  method JumpAhead(g: Graph, todo: set<nat>, inc: SetInfo, pot: set<nat>) returns (r: SetInfo)
    requires g.Valid() && todo <= g.used && inc.For(g) && g.Closed(todo, inc.transactions)
    requires inc.transactions <= pot <= todo
    ensures r.For(g) && inc.transactions <= r.transactions <= pot && g.Closed(todo, r.transactions)
    ensures r.transactions == Jumped(g, todo, pot)
  {
    var txs := inc.transactions;
    for pos := 0 to |g.entries|
      invariant inc.transactions <= txs <= pot && g.Closed(todo, txs)
      invariant forall p :: p in pot && p < pos && g.Anc(p) * todo <= pot ==> p in txs
    {
      if pos in pot - inc.transactions {
        var ancTodo := g.Anc(pos) * todo;
        if ancTodo <= pot {
          AncestorsClosed(g, todo, pos);
          ClosedIntersection(g, todo, txs, ancTodo);
          txs := txs + ancTodo;
        }
      }
    }
    forall i | i in txs ensures g.Anc(i) * todo <= pot {
      assert g.Anc(i) * todo <= txs;
    }
    r := SetInfo(txs, inc.feerate.Plus(g.FeeRate(txs - inc.transactions)));
    AddFor(g, inc, txs);
    assert inc.transactions + txs == txs;
  }

  lemma AncestorsClosed(g: Graph, todo: set<nat>, pos: nat)
    requires g.Valid() && todo <= g.used && pos in todo
    ensures g.Closed(todo, g.Anc(pos) * todo)
  {
    forall i | i in g.Anc(pos) * todo ensures g.Anc(i) * todo <= g.Anc(pos) * todo {
      assert g.Anc(i) <= g.Anc(pos);
    }
  }

  lemma SameSizeSameSet(g: Graph, a: set<nat>, b: set<nat>)
    requires g.Cluster() && a <= b <= g.used && g.FeeRate(a).size == g.FeeRate(b).size
    ensures a == b
  {
    RateSplit(g, b, a);
    assert b * a == a;
    RatePositive(g, b - a);
    assert b - a == {} && b == a + (b - a);
  }

  // ----- add_fn -----

  /** What adding an item with the given sets leads to. */
  ghost predicate Added(g: Graph, todo: set<nat>, inc: SetInfo, und: set<nat>,
                        queue: seq<WorkItem>, best: SetInfo, queue': seq<WorkItem>, best': SetInfo) {
    && NoWorse(best'.feerate, best.feerate)
    && queue <= queue' && |queue'| <= |queue| + 1
    && (|queue'| == |queue| + 1 ==> queue'[|queue|].und <= und)
    && (OptimalIn(g, todo, inc.transactions, und) ==>
          || Optimal(g, todo, best'.transactions)
          || (|queue'| == |queue| + 1 &&
                OptimalIn(g, todo, queue'[|queue|].inc.transactions, queue'[|queue|].und)))
  }

  lemma ImprovedSizes(g: Graph, todo: set<nat>, inc: SetInfo, und: set<nat>, best: SetInfo, inc': SetInfo,
                      pot: SetInfo, best': SetInfo)
    requires g.Cluster() && todo <= g.used && Splits(g, todo, inc, und) && Candidate(g, todo, best) &&
             inc.transactions != {}
    requires Improved(g, todo, inc, und, best, inc', pot, best')
    ensures inc'.feerate.size > 0 && pot.feerate.size > 0 && best.feerate.size > 0 && best'.feerate.size > 0
    ensures Candidate(g, todo, best') && NoWorse(best'.feerate, best.feerate) && !Higher(inc'.feerate, best'.feerate)
    ensures inc'.transactions + (und - inc'.transactions) == inc.transactions + und
    ensures Splits(g, todo, inc', und - inc'.transactions)
    ensures pot.transactions <= inc.transactions + und
  {
    hide Graph.Valid, Graph.Acyclic, Graph.FeeRate;
    RatePositive(g, inc'.transactions);
    RatePositive(g, pot.transactions);
    RatePositive(g, best.transactions);
    assert inc'.transactions + (und - inc'.transactions) == inc.transactions + und;
  }

  /** A set between the jumped-ahead bounds is one between the original bounds, so the same bound holds. */
  lemma ImprovedBounded(g: Graph, todo: set<nat>, inc: SetInfo, und: set<nat>, best: SetInfo, inc': SetInfo,
                        pot: SetInfo, best': SetInfo)
    requires g.Cluster() && todo <= g.used && Splits(g, todo, inc, und) && Candidate(g, todo, best) &&
             inc.transactions != {}
    requires Improved(g, todo, inc, und, best, inc', pot, best')
    ensures Bounded(g, inc'.transactions, und - inc'.transactions, pot.feerate, best'.feerate)
  {
    hide Graph.Valid, Graph.Acyclic, Graph.FeeRate, Potential;
    ImprovedSizes(g, todo, inc, und, best, inc', pot, best');
    PotentialBounds(g, todo, inc.transactions, und, best.feerate, pot);
    forall s | Between(inc'.transactions, und - inc'.transactions, s) && s != {}
      ensures !Higher(g.FeeRate(s), pot.feerate) || !Higher(g.FeeRate(s), best'.feerate)
    {
      assert Between(inc.transactions, und, s);
      RatePositive(g, s);
      if !Higher(g.FeeRate(s), best.feerate) {
        NotHigherTrans(g.FeeRate(s), best.feerate, best'.feerate);
      }
    }
  }

  /** Jumping ahead loses no optimal set. */
  lemma ImprovedCovers(g: Graph, todo: set<nat>, inc: SetInfo, und: set<nat>, best: SetInfo, inc': SetInfo,
                       pot: SetInfo, best': SetInfo)
    requires g.Cluster() && todo <= g.used && Splits(g, todo, inc, und) && Candidate(g, todo, best) &&
             inc.transactions != {}
    requires Improved(g, todo, inc, und, best, inc', pot, best')
    requires OptimalIn(g, todo, inc.transactions, und)
    ensures Optimal(g, todo, best'.transactions) || OptimalIn(g, todo, inc'.transactions, und - inc'.transactions)
  {
    hide Graph.Valid, Graph.Acyclic, Graph.FeeRate, Potential;
    ImprovedSizes(g, todo, inc, und, best, inc', pot, best');
    var s :| Between(inc.transactions, und, s) && Optimal(g, todo, s);
    if Higher(g.FeeRate(s), best.feerate) {
      JumpKeepsOptimal(g, todo, inc.transactions, und, best.feerate, pot, inc'.transactions, s);
    } else {
      RatePositive(g, s);
      NotHigherTrans(g.FeeRate(s), best.feerate, best'.feerate);
      NotBeatenIsOptimal(g, todo, best', s);
    }
  }

  /** When the potential set holds nothing more, an optimal set that fits means that the best one is optimal. */
  lemma ExhaustedIsOptimal(g: Graph, todo: set<nat>, inc: SetInfo, und: set<nat>, best: SetInfo, inc': SetInfo,
                           pot: SetInfo, best': SetInfo)
    requires g.Cluster() && todo <= g.used && Splits(g, todo, inc, und) && Candidate(g, todo, best) &&
             inc.transactions != {}
    requires Improved(g, todo, inc, und, best, inc', pot, best')
    requires pot.feerate.size == inc'.feerate.size
    requires OptimalIn(g, todo, inc.transactions, und)
    ensures Optimal(g, todo, best'.transactions)
  {
    hide Graph.Valid, Graph.Acyclic, Graph.FeeRate;
    ImprovedSizes(g, todo, inc, und, best, inc', pot, best');
    SameSizeSameSet(g, inc'.transactions, pot.transactions);
    assert pot.feerate == inc'.feerate;
    ImprovedBounded(g, todo, inc, und, best, inc', pot, best');
    ImprovedCovers(g, todo, inc, und, best, inc', pot, best');
    if !Optimal(g, todo, best'.transactions) {
      var s :| Between(inc'.transactions, und - inc'.transactions, s) && Optimal(g, todo, s);
      RatePositive(g, s);
      if !Higher(g.FeeRate(s), pot.feerate) {
        NotHigherTrans(g.FeeRate(s), inc'.feerate, best'.feerate);
      }
      NotBeatenIsOptimal(g, todo, best', s);
    }
  }

  /** The new best set after `inc`, and the positions that still improve on it. */
  method UpdateBest(g: Graph, todo: set<nat>, inc: SetInfo, best: SetInfo, imp: set<nat>)
    returns (best': SetInfo, imp': set<nat>)
    requires Searchable(g, todo) && Candidate(g, todo, best) && Candidate(g, todo, inc)
    requires imp == Improving(g, todo, best.feerate)
    ensures best' == (if Better(inc.feerate, best.feerate) then inc else best)
    ensures imp' == Improving(g, todo, best'.feerate)
  {
    hide Graph.Valid, Graph.Acyclic, Graph.FeeRate;
    best', imp' := best, imp;
    if Better(inc.feerate, best.feerate) {
      RatePositive(g, inc.transactions);
      RatePositive(g, best.transactions);
      best' := inc;
      ImprovingShrinks(g, todo, best.feerate, inc.feerate);
      imp' := TrimImproving(g, todo, imp, best'.feerate);
    }
  }

  /** Improve an item with included transactions: its potential set, the jump ahead, and the best set. */
  method ImproveItem(g: Graph, todo: set<nat>, inc: SetInfo, und: set<nat>, best: SetInfo, imp: set<nat>)
    returns (inc': SetInfo, pot: SetInfo, best': SetInfo, imp': set<nat>)
    requires Searchable(g, todo) && Splits(g, todo, inc, und) && inc.transactions != {}
    requires Candidate(g, todo, best) && imp == Improving(g, todo, best.feerate)
    ensures Improved(g, todo, inc, und, best, inc', pot, best')
    ensures imp' == Improving(g, todo, best'.feerate)
  {
    hide Graph.Valid, Graph.Acyclic, Graph.FeeRate, SortedByRate, Graph.PositiveSizes;
    pot := FindPotential(g, todo, inc, imp * und);
    inc' := JumpAhead(g, todo, inc, pot.transactions);
    best', imp' := UpdateBest(g, todo, inc', best, imp);
  }

  /** Add an item to explore, if anything is left to split on, after improving it. */
  method AddItem(g: Graph, todo: set<nat>, inc: SetInfo, und: set<nat>,
                 queue: seq<WorkItem>, best: SetInfo, imp: set<nat>, capacity: nat)
    returns (queue': seq<WorkItem>, best': SetInfo, imp': set<nat>)
    requires Searchable(g, todo) && Splits(g, todo, inc, und) && Searching(g, todo, queue, best, imp)
    requires |queue| + |und| <= capacity
    ensures Searching(g, todo, queue', best', imp') && Added(g, todo, inc, und, queue, best, queue', best')
    ensures Adds(g, todo, inc, und, SearchState(queue, best), SearchState(queue', best'))
    ensures |queue'| <= capacity
  {
    hide *;
    SplitsSize(g, todo, inc, und);
    SearchingFacts(g, todo, queue, best, imp);
    queue', best', imp' := queue, best, imp;
    if inc.feerate.size != 0 {
      var newInc, pot;
      newInc, pot, best', imp' := ImproveItem(g, todo, inc, und, best, imp);
      var newUnd := und - newInc.transactions;
      ImprovedSizes(g, todo, inc, und, best, newInc, pot, best');
      SearchingGrows(g, todo, queue, best, best', imp');
      if pot.feerate.size == newInc.feerate.size {
        if OptimalIn(g, todo, inc.transactions, und) {
          ExhaustedIsOptimal(g, todo, inc, und, best, newInc, pot, best');
        }
        AddedNothing(g, todo, inc, und, queue, best, best');
        AddsIntro(g, todo, inc, und, SearchState(queue, best), SearchState(queue, best'), newInc, pot);
        return;
      }
      MoreUndecided(g, todo, inc, und, best, newInc, pot, best');
      SubsetCount(newUnd, und);
      assert |queue| < capacity;
      var item := WorkItem(newInc, newUnd, pot.feerate);
      ImprovedItem(g, todo, inc, und, best, newInc, pot, best');
      if OptimalIn(g, todo, inc.transactions, und) {
        ImprovedCovers(g, todo, inc, und, best, newInc, pot, best');
      }
      queue' := queue + [item];
      SearchingAppend(g, todo, queue, best', imp', item);
      AddedOne(g, todo, inc, und, queue, best, item, best');
      AddsIntro(g, todo, inc, und, SearchState(queue, best), SearchState(queue', best'), newInc, pot);
    } else {
      NoWorseRefl(best.feerate);
      if und == {} {
        EmptyHasNoOptimal(g, todo);
        AddedNothing(g, todo, inc, und, queue, best, best');
        AddsFirst(g, todo, inc, und, SearchState(queue, best));
        return;
      }
      assert |queue| < capacity;
      var item := WorkItem(inc, und, EMPTY);
      FirstItemOk(g, todo, best.feerate, inc, und);
      queue' := queue + [item];
      SearchingAppend(g, todo, queue, best, imp, item);
      AddedOne(g, todo, inc, und, queue, best, item, best');
      AddsFirst(g, todo, inc, und, SearchState(queue, best));
    }
  }

  lemma AddsIntro(g: Graph, todo: set<nat>, inc: SetInfo, und: set<nat>, s: SearchState, s': SearchState,
                  inc': SetInfo, pot: SetInfo)
    requires inc.transactions != {} && Improved(g, todo, inc, und, s.best, inc', pot, s'.best)
    requires s'.queue == if pot.feerate.size == inc'.feerate.size then s.queue
                         else s.queue + [WorkItem(inc', und - inc'.transactions, pot.feerate)]
    ensures Adds(g, todo, inc, und, s, s')
  {
    hide Improved;
    assert AddsImproved(g, todo, inc, und, s, s', inc', pot);
  }

  lemma AddsFirst(g: Graph, todo: set<nat>, inc: SetInfo, und: set<nat>, s: SearchState)
    requires inc.transactions == {}
    ensures und == {} ==> Adds(g, todo, inc, und, s, s)
    ensures und != {} ==> Adds(g, todo, inc, und, s, s.(queue := s.queue + [WorkItem(inc, und, EMPTY)]))
  {
  }

  // ----- Rules for the predicates above -----

  lemma SplitsSize(g: Graph, todo: set<nat>, inc: SetInfo, und: set<nat>)
    requires Searchable(g, todo) && Splits(g, todo, inc, und)
    ensures g.Cluster() && todo <= g.used && inc.transactions <= todo && und <= todo
    ensures inc.transactions == {} <==> inc.feerate.size == 0
  {
    CandidateSize(g, todo, inc);
  }

  lemma SearchingFacts(g: Graph, todo: set<nat>, queue: seq<WorkItem>, best: SetInfo, imp: set<nat>)
    requires Searching(g, todo, queue, best, imp)
    ensures Candidate(g, todo, best) && imp == Improving(g, todo, best.feerate)
  {
  }

  lemma SearchingGrows(g: Graph, todo: set<nat>, queue: seq<WorkItem>, best: SetInfo, best': SetInfo, imp': set<nat>)
    requires g.Cluster() && todo <= g.used && Searching(g, todo, queue, best, Improving(g, todo, best.feerate))
    requires Candidate(g, todo, best') && NoWorse(best'.feerate, best.feerate) &&
             imp' == Improving(g, todo, best'.feerate)
    requires best.feerate.size > 0 && best'.feerate.size > 0
    ensures Searching(g, todo, queue, best', imp')
  {
    QueueOkGrows(g, todo, best.feerate, best'.feerate, queue);
  }

  lemma SearchingAppend(g: Graph, todo: set<nat>, queue: seq<WorkItem>, best: SetInfo, imp: set<nat>, item: WorkItem)
    requires Searching(g, todo, queue, best, imp) && ItemOk(g, todo, best.feerate, item)
    ensures Searching(g, todo, queue + [item], best, imp)
  {
    hide ItemOk;
  }

  lemma NoWorseRefl(a: FeeFrac)
    ensures NoWorse(a, a)
  {
  }

  lemma AddedNothing(g: Graph, todo: set<nat>, inc: SetInfo, und: set<nat>, queue: seq<WorkItem>, best: SetInfo,
                     best': SetInfo)
    requires NoWorse(best'.feerate, best.feerate)
    requires OptimalIn(g, todo, inc.transactions, und) ==> Optimal(g, todo, best'.transactions)
    ensures Added(g, todo, inc, und, queue, best, queue, best')
  {
    hide OptimalIn, Optimal, NoWorse;
  }

  lemma AddedOne(g: Graph, todo: set<nat>, inc: SetInfo, und: set<nat>, queue: seq<WorkItem>, best: SetInfo,
                 item: WorkItem, best': SetInfo)
    requires NoWorse(best'.feerate, best.feerate) && item.und <= und
    requires OptimalIn(g, todo, inc.transactions, und) ==>
               Optimal(g, todo, best'.transactions) || OptimalIn(g, todo, item.inc.transactions, item.und)
    ensures Added(g, todo, inc, und, queue, best, queue + [item], best')
  {
    hide OptimalIn, Optimal, NoWorse;
  }

  /** The potential set holds more than the included one, so something is left undecided. */
  lemma MoreUndecided(g: Graph, todo: set<nat>, inc: SetInfo, und: set<nat>, best: SetInfo, inc': SetInfo,
                      pot: SetInfo, best': SetInfo)
    requires g.Cluster() && todo <= g.used && Splits(g, todo, inc, und) && Candidate(g, todo, best) &&
             inc.transactions != {}
    requires Improved(g, todo, inc, und, best, inc', pot, best')
    requires pot.feerate.size != inc'.feerate.size
    ensures und - inc'.transactions != {}
  {
    hide Graph.FeeRate;
    assert pot.transactions != inc'.transactions;
    assert pot.transactions == inc'.transactions + (pot.transactions - inc'.transactions);
    var x :| x in pot.transactions - inc'.transactions;
    assert x in und - inc'.transactions;
  }

  lemma ImprovedItem(g: Graph, todo: set<nat>, inc: SetInfo, und: set<nat>, best: SetInfo, inc': SetInfo, pot: SetInfo,
                     best': SetInfo)
    requires g.Cluster() && todo <= g.used && Splits(g, todo, inc, und) && Candidate(g, todo, best) &&
             inc.transactions != {}
    requires Improved(g, todo, inc, und, best, inc', pot, best') && und - inc'.transactions != {}
    ensures ItemOk(g, todo, best'.feerate, WorkItem(inc', und - inc'.transactions, pot.feerate))
  {
    hide Graph.FeeRate, Graph.Valid, Potential;
    ImprovedSizes(g, todo, inc, und, best, inc', pot, best');
    ImprovedBounded(g, todo, inc, und, best, inc', pot, best');
  }

  lemma FirstItemOk(g: Graph, todo: set<nat>, best: FeeFrac, inc: SetInfo, und: set<nat>)
    requires Splits(g, todo, inc, und) && inc.transactions == {} && und != {}
    ensures ItemOk(g, todo, best, WorkItem(inc, und, EMPTY))
  {
  }

  lemma EmptyHasNoOptimal(g: Graph, todo: set<nat>)
    ensures !OptimalIn(g, todo, {}, {})
  {
  }

  // ----- split_fn -----

  /**
   The undecided ancestor of `first` that reduces the search space most; among equals the one in front, which
   has the highest individual feerate.
   */
  method ChooseSplit(g: Graph, und: set<nat>, first: nat) returns (split: nat)
    requires first in und && first in g.Anc(first) && forall i :: i in und ==> i < |g.entries|
    ensures BestSplit(g, und, first, split)
  {
    hide Counts;
    var select := und * g.Anc(first);
    split := 0;
    var found := false;
    for t := 0 to |g.entries|
      invariant !found ==> forall i :: i in select ==> t <= i
      invariant found ==> split in select
      invariant found ==> forall i :: i in select && i < t ==> !Fewer(Counts(g, und, i), Counts(g, und, split))
      invariant found ==> forall i :: i in select && i < split ==> Fewer(Counts(g, und, split), Counts(g, und, i))
    {
      if t in select && (!found || Fewer(Counts(g, und, t), Counts(g, und, split))) {
        split, found := t, true;
      }
    }
    assert first in select;
  }

  lemma CoveredGrows(g: Graph, todo: set<nat>, queue: seq<WorkItem>, best: SetInfo, queue': seq<WorkItem>,
                     best': SetInfo)
    requires g.Cluster() && todo <= g.used && Candidate(g, todo, best) && Candidate(g, todo, best')
    requires queue <= queue' && NoWorse(best'.feerate, best.feerate)
    requires Covered(g, todo, queue, best)
    ensures Covered(g, todo, queue', best')
  {
    hide Graph.Valid, Graph.FeeRate, OptimalIn, Graph.Closed;
    if Optimal(g, todo, best.transactions) {
      NotBeatenIsOptimal(g, todo, best', best.transactions);
    } else {
      var k :| 0 <= k < |queue| && OptimalIn(g, todo, queue[k].inc.transactions, queue[k].und);
      assert queue'[k] == queue[k];
    }
  }

  lemma AddedCovers(g: Graph, todo: set<nat>, inc: SetInfo, und: set<nat>, queue: seq<WorkItem>, best: SetInfo,
                    queue': seq<WorkItem>, best': SetInfo)
    requires Added(g, todo, inc, und, queue, best, queue', best') && OptimalIn(g, todo, inc.transactions, und)
    ensures Covered(g, todo, queue', best')
  {
    hide OptimalIn, Optimal;
  }

  /** After both children are added, whatever optimal set fitted the item is still covered. */
  lemma SplitStep(g: Graph, todo: set<nat>, elem: WorkItem, split: nat, q0: seq<WorkItem>, b0: SetInfo,
                  q1: seq<WorkItem>, b1: SetInfo, q2: seq<WorkItem>, b2: SetInfo)
    requires g.Cluster() && todo <= g.used && Splits(g, todo, elem.inc, elem.und) && split in elem.und
    requires Candidate(g, todo, b0) && Candidate(g, todo, b1) && Candidate(g, todo, b2)
    requires Added(g, todo, elem.inc, elem.und - g.Desc(split), q0, b0, q1, b1)
    requires Added(g, todo, elem.inc.Add(g, g.Anc(split) * todo), elem.und - g.Anc(split) * todo, q1, b1, q2, b2)
    requires OptimalIn(g, todo, elem.inc.transactions, elem.und) || Covered(g, todo, q0, b0)
    ensures Covered(g, todo, q2, b2)
  {
    hide Graph.FeeRate, NoWorse, Candidate, Covered, Between;
    if Covered(g, todo, q0, b0) {
      CoveredGrows(g, todo, q0, b0, q1, b1);
      CoveredGrows(g, todo, q1, b1, q2, b2);
    } else {
      var s :| Between(elem.inc.transactions, elem.und, s) && Optimal(g, todo, s);
      SplitCovers(g, todo, elem.inc.transactions, elem.und, split, s);
      if split in s {
        AddedCovers(g, todo, elem.inc.Add(g, g.Anc(split) * todo), elem.und - g.Anc(split) * todo, q1, b1, q2, b2);
      } else {
        AddedCovers(g, todo, elem.inc, elem.und - g.Desc(split), q0, b0, q1, b1);
        CoveredGrows(g, todo, q1, b1, q2, b2);
      }
    }
  }

  /** An item without undecided improving transactions gives rise to nothing better than the best set. */
  lemma PrunedUndecided(g: Graph, todo: set<nat>, elem: WorkItem, best: SetInfo)
    requires g.Cluster() && todo <= g.used && Candidate(g, todo, best) && Splits(g, todo, elem.inc, elem.und)
    requires elem.inc.transactions != {} ==> !Higher(elem.inc.feerate, best.feerate)
    requires elem.und !! Improving(g, todo, best.feerate)
    requires OptimalIn(g, todo, elem.inc.transactions, elem.und)
    ensures Optimal(g, todo, best.transactions)
  {
    hide Graph.Valid, Graph.FeeRate;
    CandidateSize(g, todo, best);
    CandidateSize(g, todo, elem.inc);
    var s :| Between(elem.inc.transactions, elem.und, s) && Optimal(g, todo, s);
    NothingImproves(g, todo, elem.inc, elem.und, best.feerate, s);
    NotBeatenIsOptimal(g, todo, best, s);
  }

  /** An item whose potential feerate does not beat the best set's gives rise to nothing better. */
  lemma PrunedPotential(g: Graph, todo: set<nat>, elem: WorkItem, best: SetInfo)
    requires g.Cluster() && todo <= g.used && Candidate(g, todo, best) && ItemOk(g, todo, best.feerate, elem)
    requires elem.inc.transactions != {} && !Better(elem.potFeerate, best.feerate)
    requires OptimalIn(g, todo, elem.inc.transactions, elem.und)
    ensures Optimal(g, todo, best.transactions)
  {
    hide Graph.Valid, Graph.FeeRate;
    CandidateSize(g, todo, best);
    var s :| Between(elem.inc.transactions, elem.und, s) && Optimal(g, todo, s);
    RatePositive(g, s);
    if !Higher(g.FeeRate(s), elem.potFeerate) {
      NotHigherTrans(g.FeeRate(s), elem.potFeerate, best.feerate);
    }
    NotBeatenIsOptimal(g, todo, best, s);
  }

  /** With the highest individual feerate not above the best set's, nothing undecided improves. */
  lemma NoneAbove(g: Graph, todo: set<nat>, und: set<nat>, first: nat, best: FeeFrac)
    requires Searchable(g, todo) && und <= todo && first in und && best.size > 0
    requires forall i :: i in und ==> first <= i
    requires !Better(g.Rate(first), best)
    ensures und !! Improving(g, todo, best)
  {
    hide Graph.Valid, Graph.Acyclic;
    forall i | i in und ensures !Higher(g.Rate(i), best) {
      assert g.Rate(i).size > 0 && g.Rate(first).size > 0;
      if i != first { NotHigherTrans(g.Rate(i), g.Rate(first), best); }
    }
  }

  /** Process an item: prune it, or split it on one transaction into two new ones. */
  method Split(g: Graph, todo: set<nat>, elem: WorkItem, queue: seq<WorkItem>, best: SetInfo, imp: set<nat>,
               capacity: nat)
    returns (queue': seq<WorkItem>, best': SetInfo, imp': set<nat>, performed: bool)
    requires Searchable(g, todo) && Searching(g, todo, queue, best, imp) && ItemOk(g, todo, best.feerate, elem)
    requires |queue| + |elem.und| <= capacity && Roomy(queue, capacity)
    ensures Searching(g, todo, queue', best', imp') && NoWorse(best'.feerate, best.feerate)
    ensures queue <= queue' && Roomy(queue', capacity)
    ensures Processes(g, todo, elem, SearchState(queue, best), SearchState(queue', best'), performed)
    ensures OptimalIn(g, todo, elem.inc.transactions, elem.und) || Covered(g, todo, queue, best) ==>
              Covered(g, todo, queue', best')
  {
    hide *;
    queue', best', imp', performed := queue, best, imp, false;
    ItemFacts(g, todo, best.feerate, elem);
    SplitsSize(g, todo, elem.inc, elem.und);
    SearchingFacts(g, todo, queue, best, imp);
    NoWorseRefl(best.feerate);
    ClusterFacts(g);
    InRange(g, elem.und);
    var first := First(elem.und);
    HopelessIff(g, todo, elem, best.feerate, first);
    var pruned := false;
    if elem.inc.feerate.size != 0 {
      if elem.und * imp == {} {
        pruned := true;
        if OptimalIn(g, todo, elem.inc.transactions, elem.und) {
          PrunedUndecided(g, todo, elem, best);
        }
      } else if !Better(elem.potFeerate, best.feerate) {
        pruned := true;
        if OptimalIn(g, todo, elem.inc.transactions, elem.und) {
          PrunedPotential(g, todo, elem, best);
        }
      }
    } else if !Better(g.Rate(first), best.feerate) {
      pruned := true;
      CandidatePositive(g, todo, best);
      NoneAbove(g, todo, elem.und, first, best.feerate);
      if OptimalIn(g, todo, elem.inc.transactions, elem.und) {
        PrunedUndecided(g, todo, elem, best);
      }
    }
    if pruned {
      ProcessesNothing(g, todo, elem, SearchState(queue, best));
      if OptimalIn(g, todo, elem.inc.transactions, elem.und) {
        OptimalCovers(g, todo, queue, best);
      }
      return;
    }
    SelfAncestor(g, first);
    var split := ChooseSplit(g, elem.und, first);
    BestSplitMember(g, elem.und, first, split);
    var anc := g.Anc(split) * todo;
    ClusterFacts(g);
    SplitParts(g, todo, elem.inc, elem.und, split);
    SmallerUndecided(elem.und, g.Desc(split), split);
    SmallerUndecided(elem.und, anc, split);
    queue', best', imp' := AddItem(g, todo, elem.inc, elem.und - g.Desc(split), queue, best, imp, capacity);
    ghost var q1, b1 := queue', best';
    SearchingFacts(g, todo, q1, b1, imp');
    AddedRoomy(g, todo, elem.inc, elem.und - g.Desc(split), queue, best, q1, b1, capacity);
    queue', best', imp' := AddItem(g, todo, elem.inc.Add(g, anc), elem.und - anc, queue', best', imp', capacity);
    SearchingFacts(g, todo, queue', best', imp');
    AddedRoomy(g, todo, elem.inc.Add(g, anc), elem.und - anc, q1, b1, queue', best', capacity);
    CandidatePositive(g, todo, best);
    CandidatePositive(g, todo, b1);
    CandidatePositive(g, todo, best');
    NoWorseTrans(best.feerate, b1.feerate, best'.feerate);
    if OptimalIn(g, todo, elem.inc.transactions, elem.und) || Covered(g, todo, queue, best) {
      SplitStep(g, todo, elem, split, queue, best, q1, b1, queue', best');
    }
    ProcessesSplit(g, todo, elem, first, split, SearchState(queue, best), SearchState(q1, b1),
                   SearchState(queue', best'));
    performed := true;
  }

  lemma HopelessIff(g: Graph, todo: set<nat>, item: WorkItem, best: FeeFrac, first: nat)
    requires first in item.und && forall i :: i in item.und ==> first <= i
    ensures IsFirst(item.und, first)
    ensures Hopeless(g, todo, item, best) <==>
              if item.inc.transactions != {} then
                item.und * Improving(g, todo, best) == {} || !Better(item.potFeerate, best)
              else
                !Better(g.Rate(first), best)
  {
    hide Better;
    forall i | IsFirst(item.und, i) ensures i == first {
    }
  }

  lemma BestSplitMember(g: Graph, und: set<nat>, first: nat, split: nat)
    requires BestSplit(g, und, first, split)
    ensures split in und * g.Anc(first)
  {
  }

  lemma ProcessesNothing(g: Graph, todo: set<nat>, item: WorkItem, s: SearchState)
    requires Hopeless(g, todo, item, s.best.feerate)
    ensures Processes(g, todo, item, s, s, false)
  {
  }

  lemma ProcessesSplit(g: Graph, todo: set<nat>, item: WorkItem, first: nat, split: nat, s: SearchState,
                       mid: SearchState, s': SearchState)
    requires !Hopeless(g, todo, item, s.best.feerate)
    requires IsFirst(item.und, first) && BestSplit(g, item.und, first, split)
    requires Adds(g, todo, item.inc, item.und - g.Desc(split), s, mid)
    requires Adds(g, todo, item.inc.Add(g, g.Anc(split) * todo), item.und - g.Anc(split) * todo, mid, s')
    ensures Processes(g, todo, item, s, s', true)
  {
    hide Hopeless, Adds, BestSplit, IsFirst;
    assert SplitsAt(g, todo, item, first, split, s, mid, s');
  }

  lemma ItemFacts(g: Graph, todo: set<nat>, best: FeeFrac, item: WorkItem)
    requires ItemOk(g, todo, best, item)
    ensures Splits(g, todo, item.inc, item.und) && item.und != {}
    ensures item.inc.transactions != {} ==> !Higher(item.inc.feerate, best)
  {
  }

  lemma ClusterFacts(g: Graph)
    requires g.Cluster()
    ensures g.Valid() && g.Acyclic() && g.PositiveSizes()
  {
  }

  lemma CandidatePositive(g: Graph, todo: set<nat>, best: SetInfo)
    requires g.Cluster() && todo <= g.used && Candidate(g, todo, best)
    ensures best.feerate.size > 0
  {
    CandidateSize(g, todo, best);
  }

  lemma SelfAncestor(g: Graph, i: nat)
    requires g.Cluster() && i in g.used
    ensures i in g.Anc(i)
  {
  }

  lemma OptimalCovers(g: Graph, todo: set<nat>, queue: seq<WorkItem>, best: SetInfo)
    requires Optimal(g, todo, best.transactions)
    ensures Covered(g, todo, queue, best)
  {
    hide Optimal, OptimalIn;
  }

  lemma SmallerUndecided(und: set<nat>, gone: set<nat>, split: nat)
    requires split in und && split !in und - gone
    ensures |und - gone| < |und|
  {
    SubsetCount(und - gone, und);
  }

  lemma AddedRoomy(g: Graph, todo: set<nat>, inc: SetInfo, und: set<nat>, queue: seq<WorkItem>, best: SetInfo,
                   queue': seq<WorkItem>, best': SetInfo, capacity: nat)
    requires Added(g, todo, inc, und, queue, best, queue', best') && Roomy(queue, capacity) &&
             |queue| + |und| <= capacity
    ensures Roomy(queue', capacity) && queue <= queue' && |queue'| <= |queue| + 1 &&
            NoWorse(best'.feerate, best.feerate)
  {
    hide OptimalIn, Optimal, NoWorse;
    forall k | 0 <= k < |queue'| ensures k + |queue'[k].und| <= capacity {
      if k < |queue| {
        assert queue'[k] == queue[k];
      } else {
        SubsetCount(queue'[k].und, und);
      }
    }
  }

  // ----- The search -----

  lemma {:induction false} HighestOf(g: Graph, family: set<set<nat>>) returns (m: set<nat>)
    requires g.Cluster() && family != {} && forall s :: s in family ==> s <= g.used && s != {}
    ensures m in family && forall t :: t in family ==> !Higher(g.FeeRate(t), g.FeeRate(m))
    decreases family
  {
    hide Graph.Valid, Graph.Acyclic, Graph.FeeRate;
    var x :| x in family;
    var rest := family - {x};
    m := x;
    if rest != {} {
      var n := HighestOf(g, rest);
      RatePositive(g, x);
      RatePositive(g, n);
      if Higher(g.FeeRate(n), g.FeeRate(x)) {
        m := n;
      }
      forall t | t in family ensures !Higher(g.FeeRate(t), g.FeeRate(m)) {
        if t != x {
          RatePositive(g, t);
          assert t in rest;
          if m == x { NotHigherTrans(g.FeeRate(t), g.FeeRate(n), g.FeeRate(m)); }
        }
      }
    } else {
      assert family == rest + {x};
    }
  }

  /** Some topologically valid subset has the highest feerate. */
  lemma OptimalExists(g: Graph, todo: set<nat>) returns (s: set<nat>)
    requires g.Cluster() && todo <= g.used && todo != {}
    ensures Optimal(g, todo, s)
  {
    var family := set t | t <= todo && t != {} && g.Closed(todo, t);
    assert todo in family;
    s := HighestOf(g, family);
  }

  /** The part of an optimal set in an isolated part of the graph is optimal, if there is one. */
  lemma OptimalInPart(g: Graph, todo: set<nat>, s: set<nat>, part: set<nat>)
    requires g.Cluster() && todo <= g.used && Optimal(g, todo, s)
    requires part <= todo && Isolated(g, todo, part) && s * part != {}
    ensures Optimal(g, todo, s * part)
  {
    var inside, outside := s * part, s - part;
    PartsClosed(g, todo, s, part);
    var f := g.FeeRate(s);
    RatePositive(g, s);
    RatePositive(g, inside);
    RatePositive(g, outside);
    RateGainSplit(g, s, part, f);
    assert Gain(f, f) == 0;
    assert Gain(f, g.FeeRate(outside)) <= 0 by {
      if outside != {} { assert !Higher(g.FeeRate(outside), f); } else { assert Gain(f, EMPTY) == 0; }
    }
    NotBeatenIsOptimal(g, todo, SetInfo(inside, g.FeeRate(inside)), s);
  }

  lemma PartsClosed(g: Graph, todo: set<nat>, s: set<nat>, part: set<nat>)
    requires g.Valid() && todo <= g.used && g.Closed(todo, s) && part <= todo && Isolated(g, todo, part)
    ensures g.Closed(todo, s * part) && g.Closed(todo, s - part)
  {
    forall i, a | i in s * part && a in g.Anc(i) * todo ensures a in s * part {
      assert a in Neighbours(g, i) * todo;
    }
    forall i, a | i in s - part && a in g.Anc(i) * todo ensures a in s - part {
      assert a in s;
      assert a in part ==> i in Neighbours(g, a) * todo;
    }
  }

  /** A component of what is not yet covered is isolated in everything, and so is the rest. */
  lemma ComponentIsolated(g: Graph, todo: set<nat>, toCover: set<nat>, component: set<nat>)
    requires g.Valid() && todo <= g.used && component <= toCover <= todo
    requires Isolated(g, todo, toCover) && Isolated(g, toCover, component)
    ensures Isolated(g, todo, component) && Isolated(g, todo, toCover - component)
    ensures g.Closed(todo, component)
  {
    forall i, j | i in component && j in Neighbours(g, i) * todo ensures j in component {
      assert j in Neighbours(g, i) * todo;
      assert j in Neighbours(g, i) * toCover;
    }
    forall i, j | i in toCover - component && j in Neighbours(g, i) * todo ensures j in toCover - component {
      assert j in toCover;
      NeighboursSymmetric(g, i, j);
      assert j in component ==> i in Neighbours(g, j) * toCover;
    }
  }

  /** The queue of one item per component covers every optimal set. */
  ghost predicate Covering(g: Graph, todo: set<nat>, toCover: set<nat>, queue: seq<WorkItem>, s: set<nat>) {
    || s <= toCover
    || exists k :: 0 <= k < |queue| && OptimalIn(g, todo, queue[k].inc.transactions, queue[k].und)
  }

  lemma CoveringStep(g: Graph, todo: set<nat>, toCover: set<nat>, component: set<nat>, queue: seq<WorkItem>,
                     s: set<nat>)
    requires g.Cluster() && todo <= g.used && Optimal(g, todo, s) && component <= toCover <= todo
    requires Isolated(g, todo, component) && Covering(g, todo, toCover, queue, s)
    ensures Covering(g, todo, toCover - component, queue + [WorkItem(NO_SET, component, EMPTY)], s)
  {
    hide Graph.Valid, Graph.FeeRate, Graph.Closed, Isolated, Neighbours;
    var queue' := queue + [WorkItem(NO_SET, component, EMPTY)];
    if s <= toCover {
      if s * component != {} {
        OptimalInPart(g, todo, s, component);
        assert Between({}, component, s * component);
        assert queue'[|queue|].inc.transactions == {} && queue'[|queue|].und == component;
      } else {
        forall x | x in s ensures x in toCover - component {
          assert x in component ==> x in s * component;
        }
      }
    } else {
      var k :| 0 <= k < |queue| && OptimalIn(g, todo, queue[k].inc.transactions, queue[k].und);
      assert queue'[k] == queue[k];
    }
  }

  lemma CoveringStart(g: Graph, todo: set<nat>, s: set<nat>)
    requires Optimal(g, todo, s)
    ensures Covering(g, todo, todo, [], s) && Isolated(g, todo, todo)
  {
  }

  lemma CoveringEnd(g: Graph, todo: set<nat>, queue: seq<WorkItem>, s: set<nat>, best: SetInfo)
    requires Optimal(g, todo, s) && Covering(g, todo, {}, queue, s)
    ensures Covered(g, todo, queue, best)
  {
    hide OptimalIn;
  }

  /** Each item has nothing included and an isolated set undecided. */
  ghost predicate Fresh(g: Graph, todo: set<nat>, queue: seq<WorkItem>) {
    forall k :: 0 <= k < |queue| ==>
      queue[k].inc == NO_SET && queue[k].potFeerate == EMPTY && queue[k].und != {} && g.Closed(todo, queue[k].und)
  }

  lemma FreshAppend(g: Graph, todo: set<nat>, queue: seq<WorkItem>, component: set<nat>)
    requires Fresh(g, todo, queue) && g.Closed(todo, component) && component != {}
    ensures Fresh(g, todo, queue + [WorkItem(NO_SET, component, EMPTY)])
  {
    hide Graph.Closed;
  }

  lemma FreshOk(g: Graph, todo: set<nat>, best: FeeFrac, queue: seq<WorkItem>)
    requires Fresh(g, todo, queue)
    ensures QueueOk(g, todo, best, queue)
  {
    hide Graph.FeeRate;
    RateNone(g);
    forall k | 0 <= k < |queue| ensures ItemOk(g, todo, best, queue[k]) {
      assert {} + queue[k].und == queue[k].und;
    }
  }

  /** Each undecided set has a transaction before all that come later. */
  ghost predicate InOrder(queue: seq<WorkItem>, toCover: set<nat>) {
    && (forall k, m, x :: 0 <= k < m < |queue| && x in queue[m].und ==> Precedes(queue[k].und, x))
    && (forall k, x :: 0 <= k < |queue| && x in toCover ==> Precedes(queue[k].und, x))
  }

  lemma InOrderStart(todo: set<nat>)
    ensures InOrder([], todo)
  {
  }

  lemma InOrderStep(toCover: set<nat>, component: set<nat>, queue: seq<WorkItem>)
    requires InOrder(queue, toCover) && component <= toCover && toCover != {}
    requires forall first :: first in toCover && (forall i :: i in toCover ==> first <= i) ==> first in component
    ensures InOrder(queue + [WorkItem(NO_SET, component, EMPTY)], toCover - component)
  {
    var queue' := queue + [WorkItem(NO_SET, component, EMPTY)];
    var first := Smallest(toCover);
    forall k, x | 0 <= k < |queue'| && x in toCover - component ensures Precedes(queue'[k].und, x) {
      if k == |queue| {
        assert first in component && first < x;
      }
    }
  }

  lemma {:induction false} Smallest(s: set<nat>) returns (first: nat)
    requires s != {}
    ensures first in s && forall i :: i in s ==> first <= i
  {
    var x :| x in s;
    if s == {x} {
      first := x;
    } else {
      var rest := s - {x};
      assert rest != {} by { assert s == {x} + rest; }
      var y := Smallest(rest);
      first := if x < y then x else y;
      forall i | i in s ensures first <= i {
        assert i == x || i in rest;
      }
    }
  }

  /** The best set given, or the first component. */
  ghost function FirstBest(g: Graph, best0: SetInfo, queue: seq<WorkItem>): SetInfo {
    if best0.feerate.IsEmpty() && queue != [] then SetInfo(queue[0].und, g.FeeRate(queue[0].und)) else best0
  }

  lemma FirstBestStart(g: Graph, best0: SetInfo)
    ensures FirstBest(g, best0, []) == best0
  {
  }

  lemma FirstBestStep(g: Graph, best0: SetInfo, queue: seq<WorkItem>, component: set<nat>, best: SetInfo)
    requires best == FirstBest(g, best0, queue) && (queue != [] ==> best.feerate.size != 0)
    ensures FirstBest(g, best0, queue + [WorkItem(NO_SET, component, EMPTY)]) ==
              if best.feerate.size == 0 then SetInfo(component, g.FeeRate(component)) else best
  {
    hide Graph.FeeRate;
  }

  /** Initial items: one per connected component of what remains. */
  method StartQueue(g: Graph, todo: set<nat>, best0: SetInfo, capacity: nat)
    returns (queue: seq<WorkItem>, best: SetInfo)
    requires Searchable(g, todo) && todo != {} && 2 * |todo| <= capacity
    requires Known(g, todo, best0)
    ensures Candidate(g, todo, best) && QueueOk(g, todo, best.feerate, queue) && Covered(g, todo, queue, best)
    ensures best0.feerate.size != 0 ==> best == best0
    ensures Roomy(queue, capacity)
    ensures Starts(g, todo, best0, SearchState(queue, best))
  {
    hide *;
    SearchableFacts(g, todo);
    ghost var s := OptimalExists(g, todo);
    CoveringStart(g, todo, s);
    var toCover := todo;
    best, queue := best0, [];
    FreshEmpty(g, todo);
    DividedStart(g, todo);
    InOrderStart(todo);
    FirstBestStart(g, best0);
    while toCover != {}
      invariant toCover <= todo && Isolated(g, todo, toCover) && Covering(g, todo, toCover, queue, s)
      invariant |queue| + |toCover| <= |todo|
      invariant Known(g, todo, best)
      invariant toCover != todo ==> best.feerate.size != 0
      invariant best0.feerate.size != 0 ==> best == best0
      invariant Fresh(g, todo, queue) && Divided(g, todo, toCover, queue) && InOrder(queue, toCover)
      invariant best == FirstBest(g, best0, queue) && (queue == [] <==> toCover == todo)
      decreases toCover
    {
      var component := FindConnectedComponent(g, toCover);
      ComponentIsolated(g, todo, toCover, component);
      CoveringStep(g, todo, toCover, component, queue, s);
      FreshAppend(g, todo, queue, component);
      DividedStep(g, todo, toCover, component, queue);
      InOrderStep(toCover, component, queue);
      FirstBestStep(g, best0, queue, component, best);
      RemovedCount(toCover, component);
      toCover := toCover - component;
      if best.feerate.size == 0 {
        ComponentCandidate(g, todo, component);
        best := SetInfo(component, g.FeeRate(component));
      }
      queue := queue + [WorkItem(NO_SET, component, EMPTY)];
    }
    KnownCandidate(g, todo, best);
    CoveringEnd(g, todo, queue, s, best);
    FreshOk(g, todo, best.feerate, queue);
    FreshRoomy(g, todo, queue, capacity);
    StartsIntro(g, todo, best0, queue, best);
  }

  lemma StartsIntro(g: Graph, todo: set<nat>, best0: SetInfo, queue: seq<WorkItem>, best: SetInfo)
    requires Divided(g, todo, {}, queue) && InOrder(queue, {}) && queue != [] && best == FirstBest(g, best0, queue)
    ensures Starts(g, todo, best0, SearchState(queue, best))
  {
    hide Divided, Precedes, Graph.FeeRate;
  }

  lemma SearchableFacts(g: Graph, todo: set<nat>)
    requires Searchable(g, todo)
    ensures g.Cluster() && g.Valid() && todo <= g.used
  {
  }

  lemma FreshEmpty(g: Graph, todo: set<nat>)
    ensures Fresh(g, todo, [])
  {
  }

  lemma FreshRoomy(g: Graph, todo: set<nat>, queue: seq<WorkItem>, capacity: nat)
    requires |queue| <= |todo| && 2 * |todo| <= capacity && Fresh(g, todo, queue)
    ensures Roomy(queue, capacity)
  {
    forall k | 0 <= k < |queue| ensures k + |queue[k].und| <= capacity {
      SubsetCount(queue[k].und, todo);
    }
  }

  lemma RemovedCount(a: set<nat>, b: set<nat>)
    requires b <= a && b != {}
    ensures |a - b| + 1 <= |a| && a - b < a
  {
    SubsetCount(a - b, a);
    var x :| x in b;
    assert x !in a - b;
  }

  lemma ComponentCandidate(g: Graph, todo: set<nat>, component: set<nat>)
    requires g.Cluster() && todo <= g.used && g.Closed(todo, component) && component != {}
    ensures Candidate(g, todo, SetInfo(component, g.FeeRate(component)))
    ensures Known(g, todo, SetInfo(component, g.FeeRate(component))) && g.FeeRate(component).size > 0
  {
    RatePositive(g, component);
  }

  lemma KnownCandidate(g: Graph, todo: set<nat>, best: SetInfo)
    requires Known(g, todo, best) && best.feerate.size != 0
    ensures Candidate(g, todo, best)
  {
  }

  /** Everything that holds between steps of the search. */
  ghost predicate Invariant(g: Graph, todo: set<nat>, best0: SetInfo, queue: seq<WorkItem>, best: SetInfo,
                            imp: set<nat>, capacity: nat) {
    && Searching(g, todo, queue, best, imp) && Roomy(queue, capacity) && Covered(g, todo, queue, best)
    && (!best0.feerate.IsEmpty() ==> NoWorse(best.feerate, best0.feerate))
  }

  /** Swapping the first two items keeps everything. */
  lemma SwapKeeps(g: Graph, todo: set<nat>, best0: SetInfo, queue: seq<WorkItem>, best: SetInfo, imp: set<nat>,
                  capacity: nat)
    requires Invariant(g, todo, best0, queue, best, imp, capacity) && |queue| > 1
    requires todo != {} && 2 * |todo| <= capacity
    ensures Invariant(g, todo, best0, queue[0 := queue[1]][1 := queue[0]], best, imp, capacity)
  {
    hide OptimalIn, Optimal, NoWorse, Candidate, Improving, ItemOk, Roomy, Covered;
    var queue' := queue[0 := queue[1]][1 := queue[0]];
    assert ItemOk(g, todo, best.feerate, queue[0]);
    SwapRoomy(g, todo, best.feerate, queue, capacity);
    SwapCovered(g, todo, queue, best);
  }

  lemma SwapRoomy(g: Graph, todo: set<nat>, best: FeeFrac, queue: seq<WorkItem>, capacity: nat)
    requires Roomy(queue, capacity) && |queue| > 1 && ItemOk(g, todo, best, queue[0])
    requires todo != {} && 2 * |todo| <= capacity
    ensures Roomy(queue[0 := queue[1]][1 := queue[0]], capacity)
  {
    SubsetCount(queue[0].und, todo);
    SubsetCount({}, todo);
  }

  lemma SwapCovered(g: Graph, todo: set<nat>, queue: seq<WorkItem>, best: SetInfo)
    requires Covered(g, todo, queue, best) && |queue| > 1
    ensures Covered(g, todo, queue[0 := queue[1]][1 := queue[0]], best)
  {
    hide OptimalIn, Optimal;
    if !Optimal(g, todo, best.transactions) {
      var k :| 0 <= k < |queue| && OptimalIn(g, todo, queue[k].inc.transactions, queue[k].und);
      var k' := if k == 0 then 1 else if k == 1 then 0 else k;
      assert queue[0 := queue[1]][1 := queue[0]][k'] == queue[k];
    }
  }

  /** An item taken out of the queue at either end, and the rest. */
  lemma TakeItem(g: Graph, todo: set<nat>, best0: SetInfo, queue: seq<WorkItem>, best: SetInfo, imp: set<nat>,
                 capacity: nat, k: nat)
    requires Invariant(g, todo, best0, queue, best, imp, capacity) && (k == 0 || k == |queue| - 1) && k < |queue|
    ensures var rest := queue[..k] + queue[k + 1..];
            && Searching(g, todo, rest, best, imp) && Roomy(rest, capacity)
            && ItemOk(g, todo, best.feerate, queue[k])
            && (OptimalIn(g, todo, queue[k].inc.transactions, queue[k].und) || Covered(g, todo, rest, best))
            && (k > 0 ==> |rest| + |queue[k].und| <= capacity)
  {
    hide OptimalIn, Optimal, NoWorse, Candidate, Improving, ItemOk;
    var rest := queue[..k] + queue[k + 1..];
    forall i | 0 <= i < |rest| ensures ItemOk(g, todo, best.feerate, rest[i]) && i + |rest[i].und| <= capacity {
      assert rest[i] == if i < k then queue[i] else queue[i + 1];
    }
    if !Optimal(g, todo, best.transactions) {
      var m :| 0 <= m < |queue| && OptimalIn(g, todo, queue[m].inc.transactions, queue[m].und);
      if m != k {
        var m' := if m < k then m else m - 1;
        assert rest[m'] == queue[m];
      }
    }
  }

  lemma InvariantStep(g: Graph, todo: set<nat>, best0: SetInfo, queue: seq<WorkItem>, best: SetInfo, imp: set<nat>,
                      queue': seq<WorkItem>, best': SetInfo, imp': set<nat>, capacity: nat)
    requires g.Cluster() && todo <= g.used && Known(g, todo, best0)
    requires Invariant(g, todo, best0, queue, best, imp, capacity)
    requires Searching(g, todo, queue', best', imp') && Roomy(queue', capacity) && Covered(g, todo, queue', best')
    requires NoWorse(best'.feerate, best.feerate)
    ensures Invariant(g, todo, best0, queue', best', imp', capacity)
  {
    hide Covered, NoWorse, Candidate, Improving, QueueOk;
    CandidatePositive(g, todo, best);
    CandidatePositive(g, todo, best');
    if !best0.feerate.IsEmpty() {
      CandidatePositive(g, todo, best0);
      NoWorseTrans(best0.feerate, best.feerate, best'.feerate);
    }
  }

  lemma SearchDone(g: Graph, todo: set<nat>, best0: SetInfo, queue: seq<WorkItem>, best: SetInfo, imp: set<nat>,
                   capacity: nat)
    requires Invariant(g, todo, best0, queue, best, imp, capacity)
    ensures Candidate(g, todo, best) && (!best0.feerate.IsEmpty() ==> NoWorse(best.feerate, best0.feerate))
    ensures queue == [] ==> Optimal(g, todo, best.transactions)
  {
    hide Optimal, Candidate, NoWorse;
  }

  lemma SearchStart(g: Graph, todo: set<nat>, best0: SetInfo, queue: seq<WorkItem>, best: SetInfo, imp: set<nat>,
                    capacity: nat)
    requires Candidate(g, todo, best) && QueueOk(g, todo, best.feerate, queue) && Covered(g, todo, queue, best)
    requires Roomy(queue, capacity) && imp == Improving(g, todo, best.feerate)
    requires best0.feerate.size != 0 ==> best == best0
    ensures Invariant(g, todo, best0, queue, best, imp, capacity)
  {
    hide Optimal, OptimalIn, Candidate, Improving, QueueOk;
  }

  lemma WithoutItemIs(queue: seq<WorkItem>, k: nat)
    requires k < |queue|
    ensures WithoutItem(queue, k) == queue[..k] + queue[k + 1..]
  {
  }

  lemma ProcessesIs(g: Graph, todo: set<nat>, item: WorkItem, s: SearchState, s': SearchState)
    requires Processes(g, todo, item, s, s', false)
    ensures s' == s
  {
  }

  /** Take the item at one end of the queue and process it. */
  method Step(g: Graph, todo: set<nat>, ghost best0: SetInfo, queue: seq<WorkItem>, best: SetInfo, imp: set<nat>,
              capacity: nat, k: nat)
    returns (queue': seq<WorkItem>, best': SetInfo, imp': set<nat>, performed: bool)
    requires Searchable(g, todo) && Known(g, todo, best0)
    requires Invariant(g, todo, best0, queue, best, imp, capacity) && (k == 0 || k == |queue| - 1) && k < |queue|
    requires k == 0 ==> |queue| - 1 + |queue[0].und| <= capacity
    ensures Invariant(g, todo, best0, queue', best', imp', capacity)
    ensures !performed ==> |queue'| == |queue| - 1
    ensures |queue'| >= |queue| - 1 && queue[..k] <= queue'
    ensures Processes(g, todo, queue[k], SearchState(WithoutItem(queue, k), best), SearchState(queue', best'),
                      performed)
  {
    hide *;
    SearchableFacts(g, todo);
    TakeItem(g, todo, best0, queue, best, imp, capacity, k);
    var elem, rest := queue[k], WithoutItem(queue, k);
    WithoutItemIs(queue, k);
    queue', best', imp', performed := Split(g, todo, elem, rest, best, imp, capacity);
    if !performed { ProcessesIs(g, todo, elem, SearchState(rest, best), SearchState(queue', best')); }
    assert queue[..k] <= rest;
    InvariantStep(g, todo, best0, queue, best, imp, queue', best', imp', capacity);
  }

  /**
   Search for a high-feerate topologically valid subset. When fewer than `maxIterations` steps were made,
   none has a higher feerate than the one returned; and a limit of one step per set of transactions suffices.
   */
  method FindCandidateSet(g: Graph, todo: set<nat>, maxIterations: nat, best0: SetInfo)
    returns (best: SetInfo, iterations: nat)
    requires Searchable(g, todo) && todo != {}
    requires Known(g, todo, best0)
    ensures Candidate(g, todo, best) && iterations <= maxIterations
    ensures !best0.feerate.IsEmpty() ==> NoWorse(best.feerate, best0.feerate)
    ensures iterations < maxIterations ==> Optimal(g, todo, best.transactions)
    ensures Searched(g, todo, maxIterations, best0, best, iterations) && iterations < Pow(2, |todo|)
    ensures maxIterations >= Pow(2, |todo|) ==> iterations < maxIterations
  {
    hide *;
    SearchableFacts(g, todo);
    var capacity := Max(256, 2 * |todo|);
    CapacityEnough(|todo|);
    var queue: seq<WorkItem>;
    queue, best := StartQueue(g, todo, best0, capacity);
    var iterationsLeft: nat := maxIterations;
    CandidatePositive(g, todo, best);
    ImprovingWithin(g, todo, best.feerate);
    var imp := TrimImproving(g, todo, todo, best.feerate);
    SearchStart(g, todo, best0, queue, best, imp, capacity);
    ghost var states: seq<SearchState>, moves: seq<Move> := [SearchState(queue, best)], [];
    RunningStart(g, todo, capacity, queue, best);
    while queue != []
      invariant Invariant(g, todo, best0, queue, best, imp, capacity) && iterationsLeft <= maxIterations
      invariant |states| == |moves| + 1 && Starts(g, todo, best0, states[0])
      invariant Running(g, todo, capacity, states, moves, queue, best)
      invariant SplitCount(moves) == maxIterations - iterationsLeft
      decreases iterationsLeft, |queue|
    {
      if |queue| > 1 {
        if * {
          SwapKeeps(g, todo, best0, queue, best, imp, capacity);
          states, moves := RunSwap(g, todo, capacity, states, moves, queue, best);
          queue := queue[0 := queue[1]][1 := queue[0]];
        }
      }
      ghost var sizeBefore, leftBefore := |queue|, iterationsLeft;
      while |queue| - 1 + |queue[0].und| > capacity
        invariant queue != [] && Invariant(g, todo, best0, queue, best, imp, capacity)
        invariant |states| == |moves| + 1 && Starts(g, todo, best0, states[0])
        invariant Running(g, todo, capacity, states, moves, queue, best)
        invariant SplitCount(moves) == maxIterations - iterationsLeft
        invariant iterationsLeft <= leftBefore
        invariant iterationsLeft == leftBefore ==> |queue| <= sizeBefore
        decreases iterationsLeft, |queue|
      {
        if iterationsLeft == 0 {
          break;
        }
        // The item at the back is not the one at the front.
        FrontFits(g, todo, best0, queue, best, imp, capacity);
        assert |queue| > 1;
        var performed;
        ghost var q, b := queue, best;
        queue, best, imp, performed := Step(g, todo, best0, queue, best, imp, capacity, |queue| - 1);
        states, moves := RunStep(g, todo, capacity, states, moves, q, b, queue, best, performed);
        if performed {
          iterationsLeft := iterationsLeft - 1;
        }
      }
      if iterationsLeft == 0 {
        break;
      }
      var performed;
      ghost var q, b := queue, best;
      queue, best, imp, performed := Step(g, todo, best0, queue, best, imp, capacity, 0);
      states, moves := RunStep(g, todo, capacity, states, moves, q, b, queue, best, performed);
      if performed {
        iterationsLeft := iterationsLeft - 1;
      }
    }
    SearchDone(g, todo, best0, queue, best, imp, capacity);
    iterations := maxIterations - iterationsLeft;
    RunEnd(g, todo, maxIterations, best0, states, moves, queue, best);
    SearchBounded(g, todo, maxIterations, best0, best, iterations);
  }

  /** The moves so far have led to the given queue and best set. */
  ghost predicate Running(g: Graph, todo: set<nat>, capacity: nat, states: seq<SearchState>, moves: seq<Move>,
                          queue: seq<WorkItem>, best: SetInfo) {
    IsRun(g, todo, capacity, states, moves) && states[|moves|] == SearchState(queue, best)
  }

  lemma RunningStart(g: Graph, todo: set<nat>, capacity: nat, queue: seq<WorkItem>, best: SetInfo)
    ensures Running(g, todo, capacity, [SearchState(queue, best)], [], queue, best) && SplitCount([]) == 0
  {
  }

  lemma RunSwap(g: Graph, todo: set<nat>, capacity: nat, states: seq<SearchState>, moves: seq<Move>,
                queue: seq<WorkItem>, best: SetInfo)
    returns (states': seq<SearchState>, moves': seq<Move>)
    requires Running(g, todo, capacity, states, moves, queue, best) && |queue| > 1
    ensures Running(g, todo, capacity, states', moves', queue[0 := queue[1]][1 := queue[0]], best)
    ensures |states'| == |moves'| + 1 && |states| > 0 && states'[0] == states[0]
    ensures SplitCount(moves') == SplitCount(moves)
  {
    hide Processes, SplitCount, NextItem;
    var s' := SearchState(queue[0 := queue[1]][1 := queue[0]], best);
    assert Moves(g, todo, capacity, states[|moves|], Move.Swap, s');
    RunNext(g, todo, capacity, states, moves, Move.Swap, s');
    states', moves' := states + [s'], moves + [Move.Swap];
  }

  lemma RunStep(g: Graph, todo: set<nat>, capacity: nat, states: seq<SearchState>, moves: seq<Move>,
                queue: seq<WorkItem>, best: SetInfo, queue': seq<WorkItem>, best': SetInfo, performed: bool)
    returns (states': seq<SearchState>, moves': seq<Move>)
    requires Running(g, todo, capacity, states, moves, queue, best) && queue != []
    requires var k := if |queue| - 1 + |queue[0].und| > capacity then |queue| - 1 else 0;
             Processes(g, todo, queue[k], SearchState(WithoutItem(queue, k), best), SearchState(queue', best'),
                       performed)
    ensures Running(g, todo, capacity, states', moves', queue', best')
    ensures |states'| == |moves'| + 1 && |states| > 0 && states'[0] == states[0]
    ensures SplitCount(moves') == SplitCount(moves) + if performed then 1 else 0
  {
    hide Processes, SplitCount;
    var s', move := SearchState(queue', best'), if performed then Move.Split else Move.Drop;
    assert Moves(g, todo, capacity, states[|moves|], move, s');
    RunNext(g, todo, capacity, states, moves, move, s');
    states', moves' := states + [s'], moves + [move];
  }

  lemma RunEnd(g: Graph, todo: set<nat>, maxIterations: nat, best0: SetInfo, states: seq<SearchState>,
               moves: seq<Move>, queue: seq<WorkItem>, best: SetInfo)
    requires Running(g, todo, Max(256, 2 * |todo|), states, moves, queue, best)
    requires |states| > 0 && Starts(g, todo, best0, states[0])
    requires queue == [] || SplitCount(moves) == maxIterations
    ensures Searched(g, todo, maxIterations, best0, best, SplitCount(moves))
  {
    hide SplitCount, Starts, Moves;
    assert SearchRun(g, todo, maxIterations, best0, best, SplitCount(moves), states, moves);
  }

  lemma CapacityEnough(n: nat)
    ensures Max(256, 2 * n) >= 2 * n && Max(256, 2 * n) >= 256
  {
  }

  lemma ImprovingWithin(g: Graph, todo: set<nat>, best: FeeFrac)
    ensures Improving(g, todo, best) <= todo
  {
  }

  lemma FrontFits(g: Graph, todo: set<nat>, best0: SetInfo, queue: seq<WorkItem>, best: SetInfo, imp: set<nat>,
                  capacity: nat)
    requires Invariant(g, todo, best0, queue, best, imp, capacity) && queue != []
    ensures |queue[0].und| <= capacity
  {
  }
}
