/**
 The branch-and-bound search (`src/cluster_linearize.h:740-1009`) as a transition system.

 A state is the queue of work items and the best set so far. One step swaps the first two items, drops an item
 that cannot improve on the best set, or splits an item in two. The relations say exactly what a step leads to;
 `SearchRun` is a whole search. How long a search can take follows from the sizes of the undecided sets alone:
 a split replaces a set of n transactions by two smaller ones (`SplitWeighsLess`).
 */
module SearchSteps {
  import opened Basics
  import opened FeeFracs
  import opened Positional
  import opened Graphs
  import opened LinearizationChunkings
  import opened AppendTopos
  import opened Components
  import opened SearchItems

  datatype SearchState = SearchState(queue: seq<WorkItem>, best: SetInfo)

  // ----- What a search starts from -----

  /** The undecided sets are different connected components of `todo`, and `toCover` is what they leave of it. */
  ghost predicate Divided(g: Graph, todo: set<nat>, toCover: set<nat>, queue: seq<WorkItem>) {
    && (forall k :: 0 <= k < |queue| ==> queue[k].inc == NO_SET && queue[k].und != {} && queue[k].und <= todo)
    && (forall k :: 0 <= k < |queue| ==> Isolated(g, todo, queue[k].und) && Connected(g, queue[k].und))
    && (forall k :: 0 <= k < |queue| ==> queue[k].und !! toCover)
    && (forall k, m :: 0 <= k < m < |queue| ==> queue[k].und !! queue[m].und)
    && (forall x :: x in todo ==> x in toCover || exists k :: 0 <= k < |queue| && x in queue[k].und)
  }

  lemma DividedStart(g: Graph, todo: set<nat>)
    ensures Divided(g, todo, todo, [])
  {
  }

  lemma DividedStep(g: Graph, todo: set<nat>, toCover: set<nat>, component: set<nat>, queue: seq<WorkItem>)
    requires Divided(g, todo, toCover, queue) && component <= toCover <= todo && component != {}
    requires Isolated(g, todo, component) && Connected(g, component)
    ensures Divided(g, todo, toCover - component, queue + [WorkItem(NO_SET, component, EMPTY)])
  {
    hide Isolated, Connected;
    var queue' := queue + [WorkItem(NO_SET, component, EMPTY)];
    forall x | x in todo ensures x in toCover - component || exists k :: 0 <= k < |queue'| && x in queue'[k].und {
      if x in component {
        assert x in queue'[|queue|].und;
      } else if x !in toCover {
        var k :| 0 <= k < |queue| && x in queue[k].und;
        assert x in queue'[k].und;
      }
    }
  }

  /** One item per connected component, those with the first transactions first, and a best set to begin with. */
  ghost predicate Starts(g: Graph, todo: set<nat>, best0: SetInfo, s: SearchState) {
    && Divided(g, todo, {}, s.queue) && s.queue != []
    && (forall k, m, x :: 0 <= k < m < |s.queue| && x in s.queue[m].und ==> Precedes(s.queue[k].und, x))
    && s.best == if best0.feerate.IsEmpty() then SetInfo(s.queue[0].und, g.FeeRate(s.queue[0].und)) else best0
  }

  /** Some transaction of `und` comes before `x`. */
  ghost predicate Precedes(und: set<nat>, x: nat) {
    exists y :: y in und && y < x
  }

  // ----- What an item leads to -----

  /** The transactions of the potential set whose remaining ancestors are all in it. */
  ghost function Jumped(g: Graph, todo: set<nat>, pot: set<nat>): set<nat> {
    set i | i in pot && g.Anc(i) * todo <= pot
  }

  /** The item that `add_fn` would push, with the best set it leaves. */
  ghost predicate Improved(g: Graph, todo: set<nat>, inc: SetInfo, und: set<nat>, best: SetInfo,
                           inc': SetInfo, pot: SetInfo, best': SetInfo) {
    && Potential(g, inc.transactions, Improving(g, todo, best.feerate) * und, pot)
    && inc'.For(g) && inc.transactions <= inc'.transactions <= pot.transactions && g.Closed(todo, inc'.transactions)
    && inc'.transactions == Jumped(g, todo, pot.transactions)
    && best' == (if Better(inc'.feerate, best.feerate) then inc' else best)
  }

  /** The queue and the best set after an item with the given sets has been added. */
  ghost predicate Adds(g: Graph, todo: set<nat>, inc: SetInfo, und: set<nat>, s: SearchState, s': SearchState) {
    if inc.transactions == {} then
      s' == if und == {} then s else s.(queue := s.queue + [WorkItem(inc, und, EMPTY)])
    else
      exists inc', pot :: AddsImproved(g, todo, inc, und, s, s', inc', pot)
  }

  ghost predicate AddsImproved(g: Graph, todo: set<nat>, inc: SetInfo, und: set<nat>, s: SearchState, s': SearchState,
                               inc': SetInfo, pot: SetInfo) {
    && Improved(g, todo, inc, und, s.best, inc', pot, s'.best)
    && s'.queue == if pot.feerate.size == inc'.feerate.size then s.queue
                   else s.queue + [WorkItem(inc', und - inc'.transactions, pot.feerate)]
  }

  /** Nothing that fits the item can improve on `best`, by the tests that the search makes. */
  ghost predicate Hopeless(g: Graph, todo: set<nat>, item: WorkItem, best: FeeFrac) {
    if item.inc.transactions != {} then
      item.und * Improving(g, todo, best) == {} || !Better(item.potFeerate, best)
    else
      forall i :: i in item.und && IsFirst(item.und, i) ==> !Better(g.Rate(i), best)
  }

  ghost predicate IsFirst(s: set<nat>, i: nat) {
    i in s && forall j :: j in s ==> i <= j
  }

  /** Sizes of the undecided set after including and after excluding `t`, larger first. */
  function Counts(g: Graph, und: set<nat>, t: nat): (nat, nat) {
    var i, e := |und - g.Anc(t)|, |und - g.Desc(t)|;
    if i < e then (e, i) else (i, e)
  }

  predicate Fewer(a: (nat, nat), b: (nat, nat)) {
    a.0 < b.0 || (a.0 == b.0 && a.1 < b.1)
  }

  /** Comparing the counts compares the numbers of subsets that are left to search. */
  lemma FewerSubsets(a: (nat, nat), b: (nat, nat))
    requires a.0 >= a.1 && b.0 >= b.1
    ensures Fewer(a, b) <==> Pow(2, a.0) + Pow(2, a.1) < Pow(2, b.0) + Pow(2, b.1)
  {
    hide Pow;
    if a.0 < b.0 { LowerMaximum(a, b); }
    if b.0 < a.0 { LowerMaximum(b, a); }
    if a.0 == b.0 {
      if a.1 < b.1 { PowStrict(2, a.1, b.1); }
      if b.1 < a.1 { PowStrict(2, b.1, a.1); }
    }
  }

  lemma LowerMaximum(a: (nat, nat), b: (nat, nat))
    requires a.0 >= a.1 && a.0 < b.0
    ensures Pow(2, a.0) + Pow(2, a.1) < Pow(2, b.0) + Pow(2, b.1)
  {
    PowGrows(2, a.1, a.0);
    PowGrows(2, a.0 + 1, b.0);
  }

  /**
   `split` is the undecided ancestor of `first` that reduces the search space most; among equals the one in
   front, which has the highest individual feerate.
   */
  ghost predicate BestSplit(g: Graph, und: set<nat>, first: nat, split: nat) {
    && split in und * g.Anc(first)
    && (forall t :: t in und * g.Anc(first) ==> !Fewer(Counts(g, und, t), Counts(g, und, split)))
    && (forall t :: t in und * g.Anc(first) && t < split ==> Fewer(Counts(g, und, split), Counts(g, und, t)))
  }

  /** Excluding `split` with its descendants, then including it with its ancestors. */
  ghost predicate SplitsAt(g: Graph, todo: set<nat>, item: WorkItem, first: nat, split: nat, s: SearchState,
                           mid: SearchState, s': SearchState) {
    var anc := g.Anc(split) * todo;
    && IsFirst(item.und, first) && BestSplit(g, item.und, first, split)
    && Adds(g, todo, item.inc, item.und - g.Desc(split), s, mid)
    && Adds(g, todo, item.inc.Add(g, anc), item.und - anc, mid, s')
  }

  /** What processing an item leads to, when `s` is the state without it. */
  ghost predicate Processes(g: Graph, todo: set<nat>, item: WorkItem, s: SearchState, s': SearchState, split: bool) {
    && (split <==> !Hopeless(g, todo, item, s.best.feerate))
    && if split then exists first, t, mid :: SplitsAt(g, todo, item, first, t, s, mid, s') else s' == s
  }

  // ----- Whole searches -----

  function WithoutItem(queue: seq<WorkItem>, k: nat): seq<WorkItem>
    requires k < |queue|
  {
    queue[..k] + queue[k + 1..]
  }

  /** The last item is next when processing the first could exceed the capacity. */
  function NextItem(queue: seq<WorkItem>, capacity: nat): (k: nat)
    requires queue != []
    ensures k < |queue|
  {
    if |queue| - 1 + |queue[0].und| > capacity then |queue| - 1 else 0
  }

  /** The first two items change places. */
  ghost predicate SwapsFront(s: SearchState, s': SearchState) {
    |s.queue| > 1 && s' == s.(queue := s.queue[0 := s.queue[1]][1 := s.queue[0]])
  }

  datatype Move = Swap | Drop | Split

  ghost predicate Moves(g: Graph, todo: set<nat>, capacity: nat, s: SearchState, move: Move, s': SearchState) {
    if move.Swap? then SwapsFront(s, s')
    else
      && s.queue != []
      && var k := NextItem(s.queue, capacity);
         Processes(g, todo, s.queue[k], s.(queue := WithoutItem(s.queue, k)), s', move.Split?)
  }

  /** The number of splits. */
  function SplitCount(moves: seq<Move>): nat {
    if moves == [] then 0
    else SplitCount(moves[..|moves| - 1]) + if moves[|moves| - 1].Split? then 1 else 0
  }

  ghost predicate IsRun(g: Graph, todo: set<nat>, capacity: nat, states: seq<SearchState>, moves: seq<Move>) {
    && |states| == |moves| + 1
    && forall i :: 0 <= i < |moves| ==> Moves(g, todo, capacity, states[i], moves[i], states[i + 1])
  }

  /** A search that made `iterations` splits and found `best`. */
  ghost predicate SearchRun(g: Graph, todo: set<nat>, maxIterations: nat, best0: SetInfo, best: SetInfo,
                            iterations: nat, states: seq<SearchState>, moves: seq<Move>) {
    && IsRun(g, todo, Max(256, 2 * |todo|), states, moves) && Starts(g, todo, best0, states[0])
    && iterations == SplitCount(moves) && best == states[|moves|].best
    && (states[|moves|].queue == [] || iterations == maxIterations)
  }

  /** What a search with the given limit can return. */
  ghost predicate Searched(g: Graph, todo: set<nat>, maxIterations: nat, best0: SetInfo, best: SetInfo,
                           iterations: nat) {
    exists states, moves :: SearchRun(g, todo, maxIterations, best0, best, iterations, states, moves)
  }

  lemma RunNext(g: Graph, todo: set<nat>, capacity: nat, states: seq<SearchState>, moves: seq<Move>, move: Move,
                s': SearchState)
    requires IsRun(g, todo, capacity, states, moves) && Moves(g, todo, capacity, states[|moves|], move, s')
    ensures IsRun(g, todo, capacity, states + [s'], moves + [move])
    ensures SplitCount(moves + [move]) == SplitCount(moves) + if move.Split? then 1 else 0
  {
    hide Moves;
    var states', moves' := states + [s'], moves + [move];
    assert moves'[..|moves|] == moves;
    forall i | 0 <= i < |moves'| ensures Moves(g, todo, capacity, states'[i], moves'[i], states'[i + 1]) {
      if i < |moves| {
        assert Moves(g, todo, capacity, states[i], moves[i], states[i + 1]);
      }
    }
  }

  // ----- How long a search can take -----

  /** The number of non-empty sets of `n` transactions. */
  function Subsets(n: nat): nat {
    Pow(2, n) - 1
  }

  /** The subsets that the items of a queue leave open. */
  function Weight(queue: seq<WorkItem>): nat {
    if queue == [] then 0 else Weight(queue[..|queue| - 1]) + Subsets(|queue[|queue| - 1].und|)
  }

  lemma WeightAppend(queue: seq<WorkItem>, item: WorkItem)
    ensures Weight(queue + [item]) == Weight(queue) + Subsets(|item.und|)
  {
    hide Subsets;
    assert (queue + [item])[..|queue|] == queue;
  }

  lemma {:induction false} WeightConcat(a: seq<WorkItem>, b: seq<WorkItem>)
    ensures Weight(a + b) == Weight(a) + Weight(b)
  {
    hide Subsets;
    if b == [] {
      assert a + b == a;
    } else {
      var n := |b| - 1;
      WeightConcat(a, b[..n]);
      assert a + b == (a + b[..n]) + [b[n]];
      WeightAppend(a + b[..n], b[n]);
    }
  }

  lemma WeightOne(item: WorkItem)
    ensures Weight([item]) == Subsets(|item.und|)
  {
    hide Subsets;
    WeightAppend([], item);
    assert [] + [item] == [item];
  }

  lemma WeightWithout(queue: seq<WorkItem>, k: nat)
    requires k < |queue|
    ensures Weight(queue) == Weight(WithoutItem(queue, k)) + Subsets(|queue[k].und|)
  {
    hide Subsets, Weight;
    assert queue == queue[..k] + ([queue[k]] + queue[k + 1..]);
    WeightConcat(queue[..k], [queue[k]] + queue[k + 1..]);
    WeightConcat([queue[k]], queue[k + 1..]);
    WeightConcat(queue[..k], queue[k + 1..]);
    WeightOne(queue[k]);
  }

  lemma WeightSwapped(queue: seq<WorkItem>)
    requires |queue| > 1
    ensures Weight(queue[0 := queue[1]][1 := queue[0]]) == Weight(queue)
  {
    hide Subsets, Weight;
    var a, b, rest := queue[0], queue[1], queue[2..];
    assert queue == [a] + ([b] + rest);
    assert queue[0 := b][1 := a] == [b] + ([a] + rest);
    WeightConcat([a], [b] + rest);
    WeightConcat([b], rest);
    WeightConcat([b], [a] + rest);
    WeightConcat([a], rest);
  }

  lemma SubsetsGrow(m: nat, n: nat)
    requires m <= n
    ensures Subsets(m) <= Subsets(n) && (m < n ==> 2 * Subsets(m) < Subsets(n))
  {
    PowGrows(2, m, n);
    if m < n { PowGrows(2, m + 1, n); }
  }

  /** Sets taken from a set, one after the other, leave no more subsets open than it has. */
  lemma SubsetsApart(a: nat, b: nat)
    ensures Subsets(a) + Pow(2, b) <= Pow(2, a + b)
  {
    PowAdd(2, a, b);
    PowGrows(2, 0, a);
    PowGrows(2, 0, b);
    ProductAbove(Pow(2, a), Pow(2, b));
  }

  lemma ProductAbove(x: nat, y: nat)
    requires x >= 1 && y >= 1
    ensures x + y - 1 <= x * y
  {
    assert (x - 1) * (y - 1) >= 0;
  }

  /** Adding an item adds no more than the subsets of its undecided set. */
  lemma AddsWeight(g: Graph, todo: set<nat>, inc: SetInfo, und: set<nat>, s: SearchState, s': SearchState)
    requires Adds(g, todo, inc, und, s, s')
    ensures Weight(s'.queue) <= Weight(s.queue) + Subsets(|und|)
  {
    hide Improved, Weight, Subsets;
    if s'.queue != s.queue {
      var item := s'.queue[|s.queue|];
      assert s'.queue == s.queue + [item] && item.und <= und;
      WeightAppend(s.queue, item);
      SubsetCount(item.und, und);
      SubsetsGrow(|item.und|, |und|);
    }
  }

  /** A split replaces an item by two that together leave fewer subsets open. */
  lemma SplitWeighsLess(g: Graph, todo: set<nat>, item: WorkItem, first: nat, t: nat, s: SearchState,
                        mid: SearchState, s': SearchState)
    requires SplitsAt(g, todo, item, first, t, s, mid, s')
    requires item.und <= todo && t in g.Anc(t) && t in g.Desc(t)
    ensures Weight(s'.queue) < Weight(s.queue) + Subsets(|item.und|)
  {
    hide Adds, BestSplit, Weight, Subsets;
    var und, anc := item.und, g.Anc(t) * todo;
    SplitMember(g, und, first, t);
    AddsWeight(g, todo, item.inc, und - g.Desc(t), s, mid);
    AddsWeight(g, todo, item.inc.Add(g, anc), und - anc, mid, s');
    SubsetCount(und - g.Desc(t), und);
    SubsetCount(und - anc, und);
    assert t !in und - g.Desc(t) && t !in und - anc;
    HalvesWeighLess(|und - g.Desc(t)|, |und - anc|, |und|);
  }

  lemma SplitMember(g: Graph, und: set<nat>, first: nat, t: nat)
    requires BestSplit(g, und, first, t)
    ensures t in und
  {
  }

  lemma HalvesWeighLess(a: nat, b: nat, n: nat)
    requires a < n && b < n
    ensures Subsets(a) + Subsets(b) < Subsets(n)
  {
    hide Subsets;
    SubsetsGrow(a, n - 1);
    SubsetsGrow(b, n - 1);
    SubsetsGrow(n - 1, n);
  }

  /** Disjoint undecided sets within a set leave fewer subsets open than it has. */
  lemma {:induction false} DisjointWeight(queue: seq<WorkItem>, all: set<nat>)
    requires forall k :: 0 <= k < |queue| ==> queue[k].und <= all
    requires forall k, m :: 0 <= k < m < |queue| ==> queue[k].und !! queue[m].und
    ensures Weight(queue) < Pow(2, |all|)
  {
    hide Subsets, Pow;
    if queue != [] {
      var front, last := queue[..|queue| - 1], queue[|queue| - 1].und;
      DisjointWeight(front, all - last);
      SubsetsApart(|last|, |all - last|);
      assert all == last + (all - last);
    }
  }

  ghost predicate Within(queue: seq<WorkItem>, todo: set<nat>) {
    forall k :: 0 <= k < |queue| ==> queue[k].und <= todo
  }

  lemma AddsWithin(g: Graph, todo: set<nat>, inc: SetInfo, und: set<nat>, s: SearchState, s': SearchState)
    requires Adds(g, todo, inc, und, s, s') && Within(s.queue, todo) && und <= todo
    ensures Within(s'.queue, todo)
  {
    hide Improved;
  }

  /** Every step other than a split keeps the subsets left open or reduces them, and a split reduces them. */
  lemma MoveWeighsLess(g: Graph, todo: set<nat>, capacity: nat, s: SearchState, move: Move, s': SearchState)
    requires g.Valid() && todo <= g.used && Within(s.queue, todo) && Moves(g, todo, capacity, s, move, s')
    ensures Within(s'.queue, todo)
    ensures Weight(s'.queue) + (if move.Split? then 1 else 0) <= Weight(s.queue)
  {
    hide Hopeless, SplitsAt, Weight, Subsets, NextItem, Graph.Valid;
    if move.Swap? {
      WeightSwapped(s.queue);
    } else {
      var k := NextItem(s.queue, capacity);
      var rest, item := s.(queue := WithoutItem(s.queue, k)), s.queue[k];
      WeightWithout(s.queue, k);
      if move.Split? {
        var first, t, mid :| SplitsAt(g, todo, item, first, t, rest, mid, s');
        SplitFacts(g, todo, item, first, t, rest, mid, s');
        SplitWeighsLess(g, todo, item, first, t, rest, mid, s');
      }
    }
  }

  lemma SplitFacts(g: Graph, todo: set<nat>, item: WorkItem, first: nat, t: nat, s: SearchState, mid: SearchState,
                   s': SearchState)
    requires g.Valid() && todo <= g.used && item.und <= todo && Within(s.queue, todo)
    requires SplitsAt(g, todo, item, first, t, s, mid, s')
    ensures t in g.Anc(t) && t in g.Desc(t) && Within(s'.queue, todo)
  {
    hide Adds, Within;
    var anc := g.Anc(t) * todo;
    AddsWithin(g, todo, item.inc, item.und - g.Desc(t), s, mid);
    AddsWithin(g, todo, item.inc.Add(g, anc), item.und - anc, mid, s');
    assert t in g.used;
  }

  lemma {:induction false} RunWeighsLess(g: Graph, todo: set<nat>, capacity: nat, states: seq<SearchState>,
                                         moves: seq<Move>)
    requires g.Valid() && todo <= g.used && IsRun(g, todo, capacity, states, moves) && Within(states[0].queue, todo)
    ensures Within(states[|moves|].queue, todo)
    ensures Weight(states[|moves|].queue) + SplitCount(moves) <= Weight(states[0].queue)
    decreases |moves|
  {
    hide Moves, Weight, Graph.Valid, Within;
    if moves != [] {
      var n := |moves| - 1;
      RunWeighsLess(g, todo, capacity, states[..n + 1], moves[..n]);
      MoveWeighsLess(g, todo, capacity, states[n], moves[n], states[n + 1]);
    }
  }

  /** No search makes as many splits as there are sets of transactions left, whatever it is given and chooses. */
  lemma SearchBounded(g: Graph, todo: set<nat>, maxIterations: nat, best0: SetInfo, best: SetInfo, iterations: nat)
    requires g.Valid() && todo <= g.used && Searched(g, todo, maxIterations, best0, best, iterations)
    ensures iterations < Pow(2, |todo|)
  {
    hide Weight, Pow, Graph.Valid, Divided, Within, SplitCount, Moves, Precedes, Graph.FeeRate;
    var states: seq<SearchState>, moves: seq<Move> :|
      SearchRun(g, todo, maxIterations, best0, best, iterations, states, moves);
    DividedWeight(g, todo, states[0].queue);
    RunWeighsLess(g, todo, Max(256, 2 * |todo|), states, moves);
  }

  lemma DividedWeight(g: Graph, todo: set<nat>, queue: seq<WorkItem>)
    requires Divided(g, todo, {}, queue)
    ensures Within(queue, todo) && Weight(queue) < Pow(2, |todo|)
  {
    hide Weight, Pow, Isolated, Connected;
    DisjointWeight(queue, todo);
  }

  // ----- Searches with nothing to gain -----

  /** Nothing has been included in any item, and the best set is still the given one. */
  ghost predicate Untouched(todo: set<nat>, best: SetInfo, s: SearchState) {
    s.best == best && forall k :: 0 <= k < |s.queue| ==>
      s.queue[k].inc.transactions == {} && s.queue[k].und != {} && s.queue[k].und <= todo
  }

  lemma UntouchedMove(g: Graph, todo: set<nat>, capacity: nat, best: SetInfo, s: SearchState, move: Move,
                      s': SearchState)
    requires Untouched(todo, best, s) && Moves(g, todo, capacity, s, move, s')
    requires forall i :: i in todo ==> !Better(g.Rate(i), best.feerate)
    ensures Untouched(todo, best, s') && !move.Split?
  {
    hide Better, NextItem, SplitsAt;
    if !move.Swap? {
      var k := NextItem(s.queue, capacity);
      assert Hopeless(g, todo, s.queue[k], best.feerate);
    }
  }

  lemma {:induction false} UntouchedRun(g: Graph, todo: set<nat>, capacity: nat, best: SetInfo,
                                        states: seq<SearchState>, moves: seq<Move>)
    requires IsRun(g, todo, capacity, states, moves) && Untouched(todo, best, states[0])
    requires forall i :: i in todo ==> !Better(g.Rate(i), best.feerate)
    ensures Untouched(todo, best, states[|moves|]) && SplitCount(moves) == 0
    decreases |moves|
  {
    hide Better, Untouched, Moves;
    if moves != [] {
      var n := |moves| - 1;
      UntouchedRun(g, todo, capacity, best, states[..n + 1], moves[..n]);
      UntouchedMove(g, todo, capacity, best, states[n], moves[n], states[n + 1]);
    }
  }

  /** A search from a set that no single transaction beats makes no split and returns that set. */
  lemma NothingToGain(g: Graph, todo: set<nat>, maxIterations: nat, best0: SetInfo, best: SetInfo, iterations: nat)
    requires Searched(g, todo, maxIterations, best0, best, iterations) && !best0.feerate.IsEmpty()
    requires forall i :: i in todo ==> !Better(g.Rate(i), best0.feerate)
    ensures iterations == 0 && best == best0
  {
    hide Better, SplitCount, IsRun, Starts, Untouched;
    var states: seq<SearchState>, moves: seq<Move> :|
      SearchRun(g, todo, maxIterations, best0, best, iterations, states, moves);
    RunLength(g, todo, Max(256, 2 * |todo|), states, moves);
    StartsUntouched(g, todo, best0, states[0]);
    UntouchedRun(g, todo, Max(256, 2 * |todo|), best0, states, moves);
    UntouchedBest(todo, best0, states[|moves|]);
  }

  lemma RunLength(g: Graph, todo: set<nat>, capacity: nat, states: seq<SearchState>, moves: seq<Move>)
    requires IsRun(g, todo, capacity, states, moves)
    ensures |states| == |moves| + 1
  {
    hide Moves;
  }

  lemma StartsUntouched(g: Graph, todo: set<nat>, best0: SetInfo, s: SearchState)
    requires Starts(g, todo, best0, s) && !best0.feerate.IsEmpty()
    ensures Untouched(todo, best0, s)
  {
    hide Precedes, Graph.FeeRate, Isolated, Connected;
  }

  lemma UntouchedBest(todo: set<nat>, best: SetInfo, s: SearchState)
    requires Untouched(todo, best, s)
    ensures s.best == best
  {
  }
}
