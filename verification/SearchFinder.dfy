/** The class `SearchCandidateFinder` (`src/cluster_linearize.h:644-1022`). */
module SearchFinders {
  import opened FeeFracs
  import opened Positional
  import opened Sequences
  import opened Graphs
  import opened Improvements
  import opened LinearizationChunkings
  import opened DepGraphs
  import opened SearchItems
  import opened SearchSteps
  import opened CandidateSearch

  // ----- Renaming -----

  /** `g` and `h` are the same graph under inverse renamings `to` and `from`. */
  ghost predicate Renamed(g: Graph, h: Graph, to: seq<nat>, from: seq<nat>) {
    && g.Valid() && h.Valid() && Isomorphic(g, h, to)
    && (forall i :: i in g.used ==> i < |to| && to[i] < |from| && from[to[i]] == i)
    && (forall k :: k in h.used ==> k < |from| && from[k] in g.used && from[k] < |to| && to[from[k]] == k)
  }

  lemma ImageBack(g: Graph, h: Graph, to: seq<nat>, from: seq<nat>, s: set<nat>)
    requires Renamed(g, h, to, from)
    ensures s <= g.used ==> Image(to, s) <= h.used && Image(from, Image(to, s)) == s
    ensures s <= h.used ==> Image(from, s) <= g.used && Image(to, Image(from, s)) == s
  {
    if s <= g.used {
      forall i | i in s ensures i in Image(from, Image(to, s)) {
        assert to[i] in Image(to, s);
      }
    }
    if s <= h.used {
      forall k | k in s ensures k in Image(to, Image(from, s)) {
        assert from[k] in Image(from, s);
      }
    }
  }

  /** Renaming does not change aggregate feerates. */
  lemma {:induction false} ImageRate(g: Graph, h: Graph, to: seq<nat>, from: seq<nat>, s: set<nat>)
    requires Renamed(g, h, to, from) && s <= g.used
    ensures h.FeeRate(Image(to, s)) == g.FeeRate(s)
    decreases s
  {
    hide Graph.Valid, Graph.FeeRate, FeeFrac.Plus;
    if s == {} {
      assert Image(to, s) == {};
      RateNone(g);
      RateNone(h);
    } else {
      var x :| x in s;
      var rest := s - {x};
      ImageRate(g, h, to, from, rest);
      assert s == rest + {x};
      RateDisjoint(g, rest, {x});
      UsedInRange(g, x);
      RateOne(g, x);
      assert Image(to, s) == Image(to, rest) + {to[x]};
      assert to[x] !in Image(to, rest);
      assert to[x] in Image(to, g.used);
      UsedInRange(h, to[x]);
      RateDisjoint(h, Image(to, rest), {to[x]});
      RateOne(h, to[x]);
    }
  }

  lemma {:induction false} ImageCount(g: Graph, h: Graph, to: seq<nat>, from: seq<nat>, s: set<nat>)
    requires Renamed(g, h, to, from) && s <= g.used
    ensures |Image(to, s)| == |s|
    decreases s
  {
    hide Graph.Valid, Isomorphic;
    if s == {} {
      assert Image(to, s) == {};
    } else {
      var x :| x in s;
      ImageCount(g, h, to, from, s - {x});
      assert Image(to, s) == Image(to, s - {x}) + {to[x]};
      assert to[x] !in Image(to, s - {x});
    }
  }

  lemma UsedInRange(g: Graph, i: nat)
    requires g.Valid() && i in g.used
    ensures i < |g.entries|
  {
  }

  lemma ImageClosed(g: Graph, h: Graph, to: seq<nat>, from: seq<nat>, todo: set<nat>, s: set<nat>)
    requires Renamed(g, h, to, from) && todo <= g.used && s <= todo
    ensures g.Closed(todo, s) <==> h.Closed(Image(to, todo), Image(to, s))
    ensures s == {} <==> Image(to, s) == {}
  {
    hide Graph.Valid;
    if g.Closed(todo, s) {
      forall k, a | k in Image(to, s) && a in h.Anc(k) && a in Image(to, todo) ensures a in Image(to, s) {
        var i :| i in s && i < |to| && to[i] == k;
        var j :| j in todo && j < |to| && to[j] == a;
        assert a in Image(to, g.Anc(i));
        var j' :| j' in g.Anc(i) && j' < |to| && to[j'] == a;
        AncestorUsed(g, i, j');
        assert j' == from[a] == j;
        assert j in g.Anc(i) * todo;
      }
    }
    if h.Closed(Image(to, todo), Image(to, s)) {
      forall i, j | i in s && j in g.Anc(i) && j in todo ensures j in s {
        assert to[i] in Image(to, s) && to[j] in Image(to, todo) && to[j] in Image(to, g.Anc(i));
        assert to[j] in h.Anc(to[i]) * Image(to, todo);
        assert to[j] in Image(to, s);
        var j' :| j' in s && j' < |to| && to[j'] == to[j];
        assert j' == from[to[j]] == j;
      }
    }
    if s != {} {
      var x :| x in s;
      assert to[x] in Image(to, s);
    }
  }

  lemma AncestorUsed(g: Graph, i: nat, j: nat)
    requires g.Valid() && i in g.used && j in g.Anc(i)
    ensures j in g.used
  {
  }

  /** A set is best in one graph exactly when its renaming is in the other. */
  lemma ImageOptimal(g: Graph, h: Graph, to: seq<nat>, from: seq<nat>, todo: set<nat>, s: set<nat>)
    requires Renamed(g, h, to, from) && todo <= g.used && s <= todo
    ensures Optimal(h, Image(to, todo), Image(to, s)) <==> Optimal(g, todo, s)
  {
    hide Graph.FeeRate, Graph.Closed, Renamed, Image, Higher;
    ImageClosed(g, h, to, from, todo, s);
    ImageRate(g, h, to, from, s);
    if Optimal(h, Image(to, todo), Image(to, s)) {
      forall t | g.Closed(todo, t) && t != {} ensures !Higher(g.FeeRate(t), g.FeeRate(s)) {
        ClosedWithin(g, todo, t);
        ImageClosed(g, h, to, from, todo, t);
        ImageRate(g, h, to, from, t);
      }
    }
    if Optimal(g, todo, s) {
      forall u | h.Closed(Image(to, todo), u) && u != {} ensures !Higher(h.FeeRate(u), h.FeeRate(Image(to, s))) {
        var t := ClosedImage(g, h, to, from, todo, u);
        ImageClosed(g, h, to, from, todo, t);
        ImageRate(g, h, to, from, t);
      }
    }
  }

  lemma ClosedImage(g: Graph, h: Graph, to: seq<nat>, from: seq<nat>, todo: set<nat>, u: set<nat>)
    returns (t: set<nat>)
    requires Renamed(g, h, to, from) && todo <= g.used && h.Closed(Image(to, todo), u)
    ensures t <= todo && Image(to, t) == u
  {
    hide Graph.Closed, Renamed;
    t := Image(from, u);
    ClosedWithin(h, Image(to, todo), u);
    ImageBack(g, h, to, from, todo);
    ImageBack(g, h, to, from, u);
    ImageMonotone(from, u, Image(to, todo));
  }

  lemma ImageCluster(g: Graph, h: Graph, to: seq<nat>, from: seq<nat>)
    requires Renamed(g, h, to, from) && g.Cluster()
    ensures h.Cluster()
  {
    forall a, b | a in h.used && b in h.used && a in h.Anc(b) && b in h.Anc(a) ensures a == b {
      var i, j := from[a], from[b];
      assert h.Anc(to[j]) == Image(to, g.Anc(j)) && h.Anc(to[i]) == Image(to, g.Anc(i));
      var i' :| i' in g.Anc(j) && i' < |to| && to[i'] == a;
      var j' :| j' in g.Anc(i) && j' < |to| && to[j'] == b;
      assert i' in g.used && j' in g.used;
      assert i' == i && j' == j;
    }
    forall k | k in h.used ensures h.Rate(k).size > 0 {
      assert h.Rate(to[from[k]]) == g.Rate(from[k]);
    }
  }

  // ----- Sorting by feerate -----

  /** The source's order: better feerate first, then lower position. */
  predicate RateBefore(g: Graph, a: nat, b: nat) {
    Better(g.Rate(a), g.Rate(b)) || (!Better(g.Rate(b), g.Rate(a)) && a < b)
  }

  function InsertByRate(g: Graph, s: seq<nat>, x: nat): seq<nat> {
    if s == [] || RateBefore(g, x, s[0]) then [x] + s
    else [s[0]] + InsertByRate(g, s[1..], x)
  }

  ghost predicate Descending(g: Graph, s: seq<nat>) {
    forall i, j :: 0 <= i < j < |s| ==> !Higher(g.Rate(s[j]), g.Rate(s[i]))
  }

  lemma {:induction false} InsertDescending(g: Graph, s: seq<nat>, x: nat)
    requires g.PositiveSizes() && SetOf(s) <= g.used && x in g.used && x !in s && Distinct(s) && Descending(g, s)
    ensures SetOf(InsertByRate(g, s, x)) == SetOf(s) + {x}
    ensures Distinct(InsertByRate(g, s, x)) && Descending(g, InsertByRate(g, s, x))
  {
    hide Descending, Distinct, RateBefore, Higher, SetOf;
    if s == [] || RateBefore(g, x, s[0]) {
      InsertFront(g, s, x);
    } else {
      var rest := InsertByRate(g, s[1..], x);
      assert s == [s[0]] + s[1..];
      SetOfConcat([s[0]], s[1..]);
      DistinctConcat([s[0]], s[1..]);
      DescendingTail(g, s);
      InsertDescending(g, s[1..], x);
      InsertBehind(g, s, x, rest);
    }
  }

  lemma InsertFront(g: Graph, s: seq<nat>, x: nat)
    requires g.PositiveSizes() && SetOf(s) <= g.used && x in g.used && x !in s && Distinct(s) && Descending(g, s)
    requires s == [] || RateBefore(g, x, s[0])
    ensures SetOf([x] + s) == SetOf(s) + {x} && Distinct([x] + s) && Descending(g, [x] + s)
  {
    hide Graph.Rate, Better, Higher;
    SetOfConcat([x], s);
    assert SetOf([x]) == {x};
    assert Distinct([x]);
    DistinctConcat([x], s);
    var r := [x] + s;
    forall j | 0 < j < |r| ensures !Higher(g.Rate(r[j]), g.Rate(x)) {
      assert r[j] == s[j - 1] && s[j - 1] in SetOf(s) && s[0] in SetOf(s);
      BeforeNotHigher(g, x, s[0]);
      if j > 1 { NotHigherTrans(g.Rate(s[j - 1]), g.Rate(s[0]), g.Rate(x)); }
    }
  }

  lemma BeforeNotHigher(g: Graph, a: nat, b: nat)
    ensures RateBefore(g, a, b) ==> !Higher(g.Rate(b), g.Rate(a))
    ensures !RateBefore(g, a, b) ==> !Higher(g.Rate(a), g.Rate(b))
  {
  }

  lemma DescendingTail(g: Graph, s: seq<nat>)
    requires s != [] && Descending(g, s)
    ensures Descending(g, s[1..])
  {
    hide Higher;
  }

  lemma InsertBehind(g: Graph, s: seq<nat>, x: nat, rest: seq<nat>)
    requires s != [] && Distinct(s) && x !in s && Descending(g, s) && !RateBefore(g, x, s[0])
    requires SetOf(rest) == SetOf(s[1..]) + {x} && Distinct(rest) && Descending(g, rest)
    ensures SetOf([s[0]] + rest) == SetOf(s) + {x} && Distinct([s[0]] + rest) && Descending(g, [s[0]] + rest)
  {
    hide RateBefore, Higher;
    assert s == [s[0]] + s[1..];
    SetOfConcat([s[0]], s[1..]);
    DistinctConcat([s[0]], s[1..]);
    SetOfConcat([s[0]], rest);
    DistinctConcat([s[0]], rest);
    BeforeNotHigher(g, x, s[0]);
    forall j | 0 <= j < |rest| ensures !Higher(g.Rate(rest[j]), g.Rate(s[0])) {
      assert rest[j] in SetOf(rest);
      if rest[j] != x {
        var k :| 0 <= k < |s[1..]| && s[1..][k] == rest[j];
        assert s[k + 1] == rest[j];
      }
    }
  }

  /** All positions, by decreasing individual feerate. */
  method SortByRate(g: Graph) returns (sorted: seq<nat>)
    requires g.Valid() && g.PositiveSizes()
    ensures Distinct(sorted) && SetOf(sorted) == g.used && Descending(g, sorted)
  {
    hide Graph.Rate, Higher;
    sorted := [];
    for i := 0 to |g.entries|
      invariant Distinct(sorted) && Descending(g, sorted)
      invariant SetOf(sorted) == set x | x in g.used && x < i
    {
      if i in g.used {
        assert i !in SetOf(sorted);
        InsertDescending(g, sorted, i);
        sorted := InsertByRate(g, sorted, i);
      }
    }
    assert SetOf(sorted) == g.used;
  }

  /** The inverse of a list of positions. */
  method Invert(g: Graph, sorted: seq<nat>) returns (inverse: seq<nat>)
    requires g.Valid() && Distinct(sorted) && SetOf(sorted) == g.used
    ensures |inverse| == |g.entries|
    ensures forall k :: 0 <= k < |sorted| ==> sorted[k] < |inverse| && inverse[sorted[k]] == k
  {
    inverse := seq(|g.entries|, _ => 0);
    forall k | 0 <= k < |sorted| ensures sorted[k] < |g.entries| {
      assert sorted[k] in SetOf(sorted);
    }
    for i := 0 to |sorted|
      invariant |inverse| == |g.entries|
      invariant forall k :: 0 <= k < |sorted| ==> sorted[k] < |inverse|
      invariant forall k :: 0 <= k < i ==> inverse[sorted[k]] == k
    {
      inverse := inverse[sorted[i] := i];
    }
  }

  lemma InverseRenames(g: Graph, sorted: seq<nat>, inverse: seq<nat>)
    requires g.Valid() && Distinct(sorted) && SetOf(sorted) == g.used && |inverse| == |g.entries|
    requires forall k :: 0 <= k < |sorted| ==> sorted[k] < |inverse| && inverse[sorted[k]] == k
    ensures Renames(g, inverse, |sorted|)
    ensures forall i :: i in g.used ==> i < |inverse| && inverse[i] < |sorted| && sorted[inverse[i]] == i
    ensures forall k :: k in Image(inverse, g.used) ==> k < |sorted|
  {
    forall i | i in g.used ensures i < |inverse| && inverse[i] < |sorted| && sorted[inverse[i]] == i {
      assert i in SetOf(sorted);
      var k :| 0 <= k < |sorted| && sorted[k] == i;
    }
  }

  lemma SortedGraph(g: Graph, h: Graph, sorted: seq<nat>, inverse: seq<nat>)
    requires g.Cluster() && h.Valid() && Distinct(sorted) && SetOf(sorted) == g.used && Descending(g, sorted)
    requires |inverse| == |g.entries|
    requires forall k :: 0 <= k < |sorted| ==> sorted[k] < |inverse| && inverse[sorted[k]] == k
    requires Isomorphic(g, h, inverse)
    ensures Renamed(g, h, inverse, sorted) && Searchable(h, h.used)
  {
    InverseRenames(g, sorted, inverse);
    forall k | k in h.used
      ensures k < |sorted| && sorted[k] in g.used && sorted[k] < |inverse| && inverse[sorted[k]] == k
      ensures h.Rate(k) == g.Rate(sorted[k])
    {
      assert sorted[k] in SetOf(sorted);
      assert h.Rate(inverse[sorted[k]]) == g.Rate(sorted[k]);
    }
    ImageCluster(g, h, inverse, sorted);
  }

  // ----- The finder -----

  class SearchCandidateFinder {
    /** The graph it was made for. */
    ghost const depgraph: Graph
    const sortedToOriginal: seq<nat>
    const originalToSorted: seq<nat>
    /** The same graph, in decreasing order of individual feerate. */
    const sortedDepgraph: Graph
    /** What is left, in sorted positions. */
    var todo: set<nat>

    ghost predicate Valid()
      reads this
    {
      && depgraph.Cluster() && Renamed(depgraph, sortedDepgraph, originalToSorted, sortedToOriginal)
      && Searchable(sortedDepgraph, sortedDepgraph.used) && todo <= sortedDepgraph.used
    }

    /** What is left, in original positions. */
    ghost function Left(): set<nat>
      reads this
    {
      Image(sortedToOriginal, todo)
    }

    constructor (depgraph: Graph)
      requires depgraph.Cluster()
      ensures Valid() && this.depgraph == depgraph && Left() == depgraph.used
    {
      var sorted := SortByRate(depgraph);
      var inverse := Invert(depgraph, sorted);
      InverseRenames(depgraph, sorted, inverse);
      var remapped := new DepGraph.Remapped(depgraph, inverse, |sorted|);
      SortedGraph(depgraph, remapped.Value(), sorted, inverse);
      ImageBack(depgraph, remapped.Value(), inverse, sorted, depgraph.used);
      this.depgraph := depgraph;
      sortedToOriginal := sorted;
      originalToSorted := inverse;
      sortedDepgraph := remapped.Value();
      todo := remapped.used;
    }

    function AllDone(): bool
      reads this
    {
      todo == {}
    }

    /** Search among what is left, in original positions. */
    method FindCandidateSet(maxIterations: nat, best: SetInfo) returns (r: SetInfo, iterations: nat)
      requires Valid() && todo != {} && Known(depgraph, Left(), best)
      ensures Candidate(depgraph, Left(), r) && iterations <= maxIterations
      ensures best.feerate.size != 0 ==> NoWorse(r.feerate, best.feerate)
      ensures iterations < maxIterations ==> Optimal(depgraph, Left(), r.transactions)
      ensures Searched(sortedDepgraph, Image(originalToSorted, Left()), maxIterations,
                       InfoImage(originalToSorted, best), InfoImage(originalToSorted, r), iterations)
      ensures maxIterations >= Pow(2, |Left()|) ==> iterations < maxIterations
    {
      hide Searchable, Optimal, Renamed, NoWorse, Candidate, Image, Graph.Cluster, Searched, Pow;
      ghost var g, h := depgraph, sortedDepgraph;
      ghost var to, from := originalToSorted, sortedToOriginal;
      ImageBack(g, h, to, from, todo);
      assert Left() <= g.used && Image(to, Left()) == todo;
      SearchableLess(h, todo);
      var internal := SetInfo(Image(originalToSorted, best.transactions), best.feerate);
      if !best.feerate.IsEmpty() {
        CandidateRenamed(g, h, to, from, Left(), best);
      }
      var found;
      found, iterations := CandidateSearch.FindCandidateSet(sortedDepgraph, todo, maxIterations, internal);
      FoundRenamed(g, h, to, from, todo, found);
      FoundWithin(g, h, to, from, todo, found);
      ImageCount(g, h, to, from, Left());
      r := SetInfo(Image(sortedToOriginal, found.transactions), found.feerate);
    }

    /** Remove transactions, given in original positions. */
    method MarkDone(done: set<nat>)
      requires Valid() && done <= Left()
      modifies this
      ensures Valid() && Left() == old(Left()) - done
    {
      hide Graph.Valid, Graph.Cluster, Searchable, Isomorphic, Renamed;
      ImageBack(depgraph, sortedDepgraph, originalToSorted, sortedToOriginal, todo);
      RenamedLess(depgraph, sortedDepgraph, originalToSorted, sortedToOriginal, todo, done);
      todo := todo - Image(originalToSorted, done);
    }
  }

  lemma SearchableLess(h: Graph, todo: set<nat>)
    requires Searchable(h, h.used) && todo <= h.used
    ensures Searchable(h, todo)
  {
  }

  /** A set with its feerate, in other positions. */
  ghost function InfoImage(to: seq<nat>, s: SetInfo): SetInfo {
    SetInfo(Image(to, s.transactions), s.feerate)
  }

  lemma FoundWithin(g: Graph, h: Graph, to: seq<nat>, from: seq<nat>, todo: set<nat>, found: SetInfo)
    requires Renamed(g, h, to, from) && todo <= h.used && Candidate(h, todo, found)
    ensures Image(to, Image(from, found.transactions)) == found.transactions
  {
    hide Renamed, Image, Graph.FeeRate, Graph.Closed;
    CandidateWithin(h, todo, found);
    ImageBack(g, h, to, from, found.transactions);
  }

  /** What a search finds, in original positions. */
  lemma FoundRenamed(g: Graph, h: Graph, to: seq<nat>, from: seq<nat>, todo: set<nat>, found: SetInfo)
    requires Renamed(g, h, to, from) && todo <= h.used && Candidate(h, todo, found)
    ensures Candidate(g, Image(from, todo), SetInfo(Image(from, found.transactions), found.feerate))
    ensures Optimal(h, todo, found.transactions) ==>
              Optimal(g, Image(from, todo), Image(from, found.transactions))
  {
    hide Renamed, Image, Graph.FeeRate, Graph.Closed, Optimal;
    var left, s := Image(from, todo), Image(from, found.transactions);
    CandidateWithin(h, todo, found);
    ImageBack(g, h, to, from, todo);
    ImageBack(g, h, to, from, found.transactions);
    ImageMonotone(from, found.transactions, todo);
    ImageClosed(g, h, to, from, left, s);
    ImageRate(g, h, to, from, s);
    ImageOptimal(g, h, to, from, left, s);
  }

  lemma CandidateWithin(h: Graph, todo: set<nat>, best: SetInfo)
    requires Candidate(h, todo, best)
    ensures best.transactions <= todo && best.transactions != {} && best.feerate == h.FeeRate(best.transactions)
    ensures h.Closed(todo, best.transactions)
  {
  }

  lemma ImageMonotone(m: seq<nat>, a: set<nat>, b: set<nat>)
    requires a <= b
    ensures Image(m, a) <= Image(m, b)
  {
  }

  lemma CandidateRenamed(g: Graph, h: Graph, to: seq<nat>, from: seq<nat>, left: set<nat>, best: SetInfo)
    requires Renamed(g, h, to, from) && left <= g.used && Candidate(g, left, best)
    ensures Candidate(h, Image(to, left), SetInfo(Image(to, best.transactions), best.feerate))
  {
    hide Graph.Valid, Isomorphic, Graph.FeeRate;
    ImageClosed(g, h, to, from, left, best.transactions);
    ImageRate(g, h, to, from, best.transactions);
  }

  lemma RenamedLess(g: Graph, h: Graph, to: seq<nat>, from: seq<nat>, todo: set<nat>, done: set<nat>)
    requires Renamed(g, h, to, from) && todo <= h.used && done <= Image(from, todo)
    ensures Image(from, todo - Image(to, done)) == Image(from, todo) - done
  {
    hide Graph.Valid, Isomorphic;
    ImageBack(g, h, to, from, todo);
    forall k | k in todo ensures k in Image(to, done) <==> from[k] in done {
      if from[k] in done {
        assert to[from[k]] in Image(to, done);
      }
    }
    forall i | i in Image(from, todo) - done ensures i in Image(from, todo - Image(to, done)) {
      var k :| k in todo && k < |from| && from[k] == i;
      assert k in todo - Image(to, done);
    }
  }
}
