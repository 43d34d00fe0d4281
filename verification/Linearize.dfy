/** `Linearize` (`src/cluster_linearize.h:1024-1118`). */
module Linearization {
  import opened FeeFracs
  import opened Positional
  import opened Sequences
  import opened Graphs
  import opened Chunkings
  import opened Improvements
  import opened LinearizationChunkings
  import opened AppendTopos
  import opened DepGraphs
  import opened Progress
  import opened SearchItems
  import opened SearchSteps
  import opened CandidateSearch
  import opened AncestorFinders
  import opened SearchFinders
  import opened LinearizationBudget

  /** What has been output is topological and nothing that is left belongs before it. */
  ghost predicate Output(g: Graph, lin: seq<nat>, left: set<nat>) {
    && g.Topological(lin) && SetOf(lin) !! left && SetOf(lin) + left == g.used
    && NoBackEdge(g, SetOf(lin), left)
  }

  lemma OutputStep(g: Graph, lin: seq<nat>, left: set<nat>, added: seq<nat>)
    requires Output(g, lin, left) && g.Topological(added) && g.Closed(left, SetOf(added))
    ensures Output(g, lin + added, left - SetOf(added))
  {
    TopologicalConcat(g, lin, added);
    SetOfConcat(lin, added);
    forall x, y | x in SetOf(added) && y in left - SetOf(added) ensures y !in g.Anc(x) {
      assert y in g.Anc(x) ==> y in g.Anc(x) * left;
    }
  }

  /** What has been output does not fall behind any linearization. */
  ghost predicate AheadOfAll(g: Graph, lin: seq<nat>, left: set<nat>) {
    forall other :: g.IsLinearization(other) ==> OnTrack(g, lin, Restrict(other, left), other)
  }

  lemma AheadStart(g: Graph)
    ensures AheadOfAll(g, [], g.used) && Output(g, [], g.used)
  {
    forall other | g.IsLinearization(other) ensures OnTrack(g, [], Restrict(other, g.used), other) {
      RestrictAll(other, g.used);
      OnTrackStart(g, other);
    }
    assert SetOf([]) == {};
  }

  /** Outputting a highest-feerate topologically valid subset does not fall behind. */
  lemma AheadStep(g: Graph, lin: seq<nat>, left: set<nat>, added: seq<nat>)
    requires g.Valid() && g.PositiveSizes() && left <= g.used && AheadOfAll(g, lin, left)
    requires g.Topological(added) && Optimal(g, left, SetOf(added))
    ensures AheadOfAll(g, lin + added, left - SetOf(added))
  {
    hide Graph.Valid, Graph.PositiveSizes, Optimal, SafeFirst, Graph.Topological, OnTrack, Graph.IsLinearization,
         Restrict;
    var s := SetOf(added);
    forall other | g.IsLinearization(other) ensures OnTrack(g, lin + added, Restrict(other, left - s), other) {
      var rest := Restrict(other, left);
      LinearizationSet(g, other);
      RestrictMembers(other, left);
      assert SetOf(rest) == left;
      OnTrackRest(g, lin, rest, other);
      SafeOptimal(g, rest, s);
      OptimalClosed(g, left, s);
      OnTrackStep(g, lin, rest, other, added);
      RestrictTwice(other, left, left - s);
      assert left * (left - s) == left - s;
    }
  }

  lemma LinearizationSet(g: Graph, lin: seq<nat>)
    requires g.IsLinearization(lin)
    ensures SetOf(lin) == g.used
  {
  }

  lemma OptimalClosed(g: Graph, left: set<nat>, s: set<nat>)
    requires Optimal(g, left, s)
    ensures g.Closed(left, s)
  {
  }

  /** When nothing is left, no linearization has a better diagram anywhere. */
  lemma AheadEnd(g: Graph, lin: seq<nat>)
    requires g.Valid() && g.PositiveSizes() && AheadOfAll(g, lin, {})
    ensures forall other :: g.IsLinearization(other) ==> AtLeastAsGood(g, lin, other)
  {
    forall other | g.IsLinearization(other) ensures AtLeastAsGood(g, lin, other) {
      RestrictNone(other, {});
      OnTrackEnd(g, lin, other);
    }
  }

  /** The finders and the chunking of the old linearization agree on what is left. */
  ghost predicate InStep(g: Graph, left: set<nat>, oldLin: seq<nat>, anc: AncestorCandidateFinder,
                         src: SearchCandidateFinder?, chunking: LinearizationChunking)
    reads anc, src, chunking
  {
    && anc.Valid() && anc.depgraph == g && anc.todo == left
    && (src != null ==> src.Valid() && src.depgraph == g && src.Left() == left)
    && chunking.Valid() && chunking.depgraph == g && chunking.full == oldLin
    && chunking.todo == (if oldLin == [] then {} else left)
  }

  /** The intersection of a good enough set with the old chunks is topologically valid and safe. */
  lemma IntersectionSafe(g: Graph, rest: seq<nat>, s: set<nat>, t: set<nat>, j: nat)
    requires Proper(g, rest) && g.Topological(rest) && s != {} && g.Closed(SetOf(rest), s)
    requires ShortestIntersection(g, Chunks(g, rest), s, t, j)
    requires Chunks(g, rest) != [] && !Higher(SegRate(g, Chunks(g, rest)[0]), g.FeeRate(s))
    ensures g.Closed(SetOf(rest), t) && SafeFirst(g, rest, t)
  {
    hide Graph.Valid, Graph.PositiveSizes, SafeFirst, Chunks, SegRate, Graph.FeeRate, Graph.Topological;
    PrefixSetClosed(g, rest, j);
    ClosedIntersection(g, SetOf(rest), s, PrefixSet(Chunks(g, rest), j));
    SafeIntersection(g, rest, s, t, j);
  }

  /** Start from the best remaining ancestor set, or from the first old chunk if that is at least as good. */
  method InitialSet(g: Graph, ghost left: set<nat>, anc: AncestorCandidateFinder, chunking: LinearizationChunking)
    returns (best: SetInfo)
    requires anc.Valid() && anc.depgraph == g && anc.todo == left && left != {}
    requires chunking.Valid() && chunking.depgraph == g && (chunking.todo == {} || chunking.todo == left)
    requires g.Topological(chunking.Remaining())
    ensures Candidate(g, left, best)
    ensures forall i :: i in left ==> !Higher(AncestorRate(g, left, i), best.feerate)
    ensures chunking.todo != {} ==> Chunks(g, chunking.Remaining()) != []
    ensures chunking.todo != {} ==> !Higher(SegRate(g, Chunks(g, chunking.Remaining())[0]), best.feerate)
  {
    ghost var rest, infos := chunking.Remaining(), chunking.chunks[chunking.chunksSkip..];
    assert rest == Restrict(chunking.full, chunking.todo) && infos == Infos(g, Chunks(g, rest));
    assert chunking.chunksSkip <= |chunking.chunks| && chunking.NumChunksLeft() == |infos|;
    assert Proper(g, chunking.full) && g.Cluster() && left <= g.used && chunking.todo <= SetOf(chunking.full);
    hide *;
    best := anc.FindCandidateSet();
    AncestorsNotAbove(g, left, best.feerate);
    FirstLeft(g, chunking.full, chunking.todo, infos);
    if chunking.NumChunksLeft() > 0 {
      var prefix := chunking.GetChunk(0);
      EmptyIs(prefix.feerate);
      if !prefix.feerate.IsEmpty() && !Better(best.feerate, prefix.feerate) {
        StillNotAbove(g, left, best, prefix.feerate);
        best := prefix;
      }
      NotAbove(best.feerate, prefix.feerate);
    }
  }

  lemma EmptyIs(f: FeeFrac)
    ensures f.IsEmpty() <==> f.size == 0
  {
  }

  lemma NotAbove(a: FeeFrac, b: FeeFrac)
    ensures a == b || Better(a, b) ==> !Higher(b, a)
  {
  }

  /** The first chunk left, if any, is a topologically valid set. */
  lemma FirstLeft(g: Graph, full: seq<nat>, todo: set<nat>, infos: seq<SetInfo>)
    requires Proper(g, full) && todo <= SetOf(full) && g.Topological(Restrict(full, todo))
    requires infos == Infos(g, Chunks(g, Restrict(full, todo)))
    ensures |infos| > 0 <==> todo != {}
    ensures todo != {} ==>
              && Chunks(g, Restrict(full, todo)) != [] && Candidate(g, todo, infos[0]) && infos[0].feerate.size > 0
              && infos[0].feerate == SegRate(g, Chunks(g, Restrict(full, todo))[0])
  {
    hide Graph.Valid, Graph.PositiveSizes, Graph.FeeRate, Graph.Topological, Chunks, Restrict, SegRate;
    var rest := Restrict(full, todo);
    LeftIffTodo(g, full, todo);
    ProperRestrict(g, full, todo);
    if todo != {} {
      FirstChunkClosed(g, rest);
      RatePositive(g, infos[0].transactions);
    }
  }

  lemma AncestorsNotAbove(g: Graph, left: set<nat>, best: FeeFrac)
    requires forall i :: i in left ==> !Better(AncestorRate(g, left, i), best)
    ensures forall i :: i in left ==> !Higher(AncestorRate(g, left, i), best)
  {
    hide AncestorRate;
  }

  lemma StillNotAbove(g: Graph, left: set<nat>, best: SetInfo, prefix: FeeFrac)
    requires g.Cluster() && left <= g.used && Candidate(g, left, best)
    requires forall i :: i in left ==> !Higher(AncestorRate(g, left, i), best.feerate)
    requires prefix.size > 0 && !Better(best.feerate, prefix)
    ensures forall i :: i in left ==> !Higher(AncestorRate(g, left, i), prefix)
  {
    CandidatePositive(g, left, best);
    hide AncestorRate, Graph.Cluster, Candidate;
    forall i | i in left ensures !Higher(AncestorRate(g, left, i), prefix) {
      AncestorRatePositive(g, left, i);
      NotHigherTrans(AncestorRate(g, left, i), best.feerate, prefix);
    }
  }

  /** One round's choice: the set to output, and whether it is known to be optimal. */
  method ChooseSet(g: Graph, ghost left: set<nat>, ghost oldLin: seq<nat>, anc: AncestorCandidateFinder,
                   src: SearchCandidateFinder?,
                   chunking: LinearizationChunking, iterationsLeft: nat)
    returns (best: SetInfo, optimal: bool, iterationsLeft': nat, ghost info: RoundInfo)
    requires InStep(g, left, oldLin, anc, src, chunking) && left != {}
    requires g.Topological(chunking.Remaining())
    ensures g.Closed(left, best.transactions) && best.transactions != {}
    ensures optimal ==> Optimal(g, left, best.transactions)
    ensures oldLin != [] ==> SafeFirst(g, chunking.Remaining(), best.transactions)
    ensures iterationsLeft' <= iterationsLeft && info.left == left && info.chosen == best.transactions
    ensures RoundOk(src != null, RenamingOf(g, src), info, iterationsLeft, iterationsLeft')
    ensures optimal == Completed(src != null, info, iterationsLeft)
    ensures Candidate(g, left, info.start)
    ensures forall i :: i in left ==> !Higher(AncestorRate(g, left, i), info.start.feerate)
    ensures oldLin != [] ==>
              && Chunks(g, chunking.Remaining()) != []
              && !Higher(SegRate(g, Chunks(g, chunking.Remaining())[0]), info.start.feerate)
  {
    hide Graph.Valid, Graph.PositiveSizes, Graph.FeeRate, Graph.Topological, Chunks, Restrict, SegRate, SafeFirst,
         Optimal,
         Renamed, Searchable, Graph.Closed, AncestorRate, Searched, Image, Pow;
    best := InitialSet(g, left, anc, chunking);
    iterationsLeft' := iterationsLeft;
    var doneNow, maxNow := 0, 0;
    LeftPositive(g, left, best);
    ghost var start := best;
    if src != null {
      var baseIterations := BaseCost(anc.NumRemaining());
      if iterationsLeft' > baseIterations {
        iterationsLeft' := iterationsLeft' - baseIterations;
        maxNow := (iterationsLeft' + 1) / 2;
        LeftNotDone(src);
        best, doneNow := src.FindCandidateSet(maxNow, best);
        LeftPositive(g, left, best);
        iterationsLeft' := iterationsLeft' - doneNow;
      }
    }
    optimal := doneNow != maxNow;
    ghost var found := best;
    ghost var rest := chunking.Remaining();
    ProperRestrict(g, chunking.full, chunking.todo);
    LeftIffTodo(g, chunking.full, chunking.todo);
    assert |chunking.chunks[chunking.chunksSkip..]| == |Chunks(g, rest)|;
    if oldLin != [] {
      StillAbove(g, rest, start, best);
    }
    if !optimal {
      if chunking.NumChunksLeft() > 0 {
        ghost var s := best.transactions;
        ghost var j;
        best, j := chunking.IntersectPrefixes(best);
        IntersectionSafe(g, rest, s, best.transactions, j);
      }
    } else if oldLin != [] {
      SafeOptimal(g, rest, best.transactions);
    }
    info := RoundInfo(left, start, found, doneNow, best.transactions);
  }

  /** The graph that the search works on; without a search there is none, and any will do. */
  ghost function RenamingOf(g: Graph, src: SearchCandidateFinder?): Renaming {
    if src == null then Renaming(g, [], [])
    else Renaming(src.sortedDepgraph, src.originalToSorted, src.sortedToOriginal)
  }

  lemma LeftPositive(g: Graph, left: set<nat>, best: SetInfo)
    requires g.Cluster() && left <= g.used && Candidate(g, left, best)
    ensures best.feerate.size > 0 && best.transactions != {} && best.transactions <= left &&
            g.Closed(left, best.transactions)
    ensures best.For(g) && best.feerate == g.FeeRate(best.transactions)
    ensures Known(g, left, best)
  {
    CandidatePositive(g, left, best);
  }

  lemma LeftNotDone(src: SearchCandidateFinder)
    requires src.Left() != {}
    ensures src.todo != {}
  {
  }

  /** The first chunk is not above the start set, nor the start set above the one found. */
  lemma StillAbove(g: Graph, rest: seq<nat>, start: SetInfo, best: SetInfo)
    requires Proper(g, rest) && start.feerate.size > 0 && best.feerate.size > 0 && rest != []
    requires Chunks(g, rest) != [] && !Higher(SegRate(g, Chunks(g, rest)[0]), start.feerate)
    requires !Higher(start.feerate, best.feerate)
    ensures !Higher(SegRate(g, Chunks(g, rest)[0]), best.feerate)
  {
    ProperSized(g, rest);
    ChunksChunking(g, rest);
    ChunkingPositive(g, Chunks(g, rest));
    assert SegRates(g, Chunks(g, rest))[0].size > 0;
    NotHigherTrans(SegRate(g, Chunks(g, rest)[0]), start.feerate, best.feerate);
  }

  /**
   What a round keeps: topological output, not behind the old linearization, and ahead of all if every set was
   optimal.
   */
  ghost predicate Keeping(g: Graph, lin: seq<nat>, left: set<nat>, oldLin: seq<nat>, rest: seq<nat>, optimal: bool) {
    && Output(g, lin, left)
    && (oldLin != [] ==> OnTrack(g, lin, rest, oldLin))
    && (optimal ==> AheadOfAll(g, lin, left))
  }

  lemma KeepingStart(g: Graph, oldLin: seq<nat>, rest: seq<nat>)
    requires g.Cluster() && (oldLin == [] || g.IsLinearization(oldLin)) && rest == Restrict(oldLin, SetOf(oldLin))
    ensures Keeping(g, [], g.used, oldLin, rest, true)
  {
    AheadStart(g);
    RestrictAll(oldLin, SetOf(oldLin));
    if oldLin != [] {
      OnTrackStart(g, oldLin);
    }
  }

  lemma KeepingStep(g: Graph, lin: seq<nat>, left: set<nat>, oldLin: seq<nat>, rest: seq<nat>, optimal: bool,
                    optimal': bool, added: seq<nat>)
    requires g.Cluster() && Keeping(g, lin, left, oldLin, rest, optimal) && left <= g.used
    requires g.Topological(added) && g.Closed(left, SetOf(added)) && (oldLin != [] ==> SetOf(rest) == left)
    requires oldLin != [] ==> SafeFirst(g, rest, SetOf(added))
    requires optimal' ==> optimal && Optimal(g, left, SetOf(added))
    ensures Keeping(g, lin + added, left - SetOf(added), oldLin, Without(rest, SetOf(added)), optimal')
  {
    hide Graph.Valid, Graph.PositiveSizes, Optimal, SafeFirst, Graph.Topological, OnTrack, Output, AheadOfAll,
         Restrict, Graph.Closed;
    OutputStep(g, lin, left, added);
    if oldLin != [] {
      OnTrackStep(g, lin, rest, oldLin, added);
    }
    if optimal' {
      AheadStep(g, lin, left, added);
    }
  }

  lemma KeepingEnd(g: Graph, lin: seq<nat>, oldLin: seq<nat>, rest: seq<nat>, optimal: bool)
    requires g.Cluster() && Keeping(g, lin, {}, oldLin, rest, optimal) && (oldLin != [] ==> rest == [])
    ensures g.IsLinearization(lin)
    ensures oldLin != [] ==> AtLeastAsGood(g, lin, oldLin)
    ensures optimal ==> forall other :: g.IsLinearization(other) ==> AtLeastAsGood(g, lin, other)
  {
    hide Graph.Valid, Graph.PositiveSizes, OnTrack, AheadOfAll, AtLeastAsGood;
    if oldLin != [] {
      OnTrackEnd(g, lin, oldLin);
    }
    if optimal {
      AheadEnd(g, lin);
    }
  }

  lemma KeepingRest(g: Graph, lin: seq<nat>, left: set<nat>, oldLin: seq<nat>, rest: seq<nat>, optimal: bool)
    requires g.Cluster() && Keeping(g, lin, left, oldLin, rest, optimal) && (oldLin == [] ==> rest == [])
    ensures g.Topological(rest)
    ensures SetOf(lin) + left == g.used
  {
    if oldLin != [] {
      OnTrackRest(g, lin, rest, oldLin);
    }
  }

  /**
   Find or improve a linearization. The result is topological, its diagram lies nowhere below that of
   the old linearization, and if `optimal` is reported, nowhere below that of any linearization.
   */
  method Linearize(g: Graph, maxIterations: nat, oldLin: seq<nat>)
    returns (lin: seq<nat>, optimal: bool, iterations: nat)
    requires g.Cluster() && (oldLin == [] || g.IsLinearization(oldLin))
    ensures g.IsLinearization(lin)
    ensures oldLin != [] ==> AtLeastAsGood(g, lin, oldLin)
    ensures optimal ==> forall other :: g.IsLinearization(other) ==> AtLeastAsGood(g, lin, other)
    ensures iterations <= maxIterations && Spent(g, maxIterations, iterations, optimal)
    ensures maxIterations > SetupCost(|g.used|) + (|g.used| + 1) * RoundCost(|g.used|) ==> optimal
  {
    hide *;
    ClusterFacts(g);
    ProperOld(g, oldLin);
    KeepingStart(g, oldLin, Restrict(oldLin, SetOf(oldLin)));
    lin, optimal := [], true;
    if g.used == {} {
      StartRemaining(oldLin);
      NothingUsed(oldLin);
      KeepingEnd(g, lin, oldLin, oldLin, true);
      SpentNothing(g, maxIterations);
      return lin, true, 0;
    }
    var iterationsLeft: nat := maxIterations;
    var anc := new AncestorCandidateFinder(g);
    var src: SearchCandidateFinder? := null;
    var startIterations := SetupCost(|g.used|);
    if iterationsLeft > startIterations {
      iterationsLeft := iterationsLeft - startIterations;
      src := new SearchCandidateFinder(g);
      SortableFinder(g, src);
    }
    var chunking := new LinearizationChunking(g, oldLin);
    StartRemaining(oldLin);
    InStepIntro(g, g.used, oldLin, anc, src, chunking);
    ghost var rounds: seq<RoundInfo>, budget: seq<nat>;
    lin, optimal, iterationsLeft, rounds, budget := Rounds(g, oldLin, anc, src, chunking, iterationsLeft);
    iterations := maxIterations - iterationsLeft;
    SpentIntro(g, maxIterations, iterations, optimal, src, rounds, budget);
    if maxIterations > SetupCost(|g.used|) + (|g.used| + 1) * RoundCost(|g.used|) {
      EnoughIterations(g, maxIterations, iterations, optimal);
    }
  }

  lemma SpentNothing(g: Graph, maxIterations: nat)
    requires g.used == {}
    ensures Spent(g, maxIterations, 0, true)
  {
  }

  lemma SpentIntro(g: Graph, maxIterations: nat, iterations: nat, optimal: bool, src: SearchCandidateFinder?,
                   rounds: seq<RoundInfo>, budget: seq<nat>)
    requires g.used != {} && (src != null <==> maxIterations > SetupCost(|g.used|))
    requires src != null ==> Sortable(g, RenamingOf(g, src))
    requires Ledger(src != null, RenamingOf(g, src), rounds, budget, optimal) && Whole(g, rounds)
    requires |budget| > 0 && budget[0] == if src != null then maxIterations - SetupCost(|g.used|) else maxIterations
    requires iterations == maxIterations - budget[|budget| - 1]
    ensures Spent(g, maxIterations, iterations, optimal)
  {
    hide SetupCost, RoundOk, Completed, Renamed, Searchable;
    assert SpentBy(g, maxIterations, iterations, optimal, RenamingOf(g, src), rounds, budget);
  }

  ghost predicate Sortable(g: Graph, r: Renaming) {
    Renamed(g, r.sorted, r.to, r.from) && Searchable(r.sorted, r.sorted.used)
  }

  lemma SortableFinder(g: Graph, src: SearchCandidateFinder)
    requires src.Valid() && src.depgraph == g
    ensures Sortable(g, RenamingOf(g, src))
  {
  }

  /** The rounds so far lead from everything to `left`. */
  ghost predicate Upto(g: Graph, rounds: seq<RoundInfo>, left: set<nat>) {
    if rounds == [] then left == g.used else rounds[0].left == g.used && Remains(rounds[|rounds| - 1]) == left
  }

  /** One more round is entered in the ledger. */
  lemma Recorded(g: Graph, src: SearchCandidateFinder?, rounds: seq<RoundInfo>, budget: seq<nat>, before: bool,
                 info: RoundInfo, iterations: nat, optimal: bool)
    returns (rounds': seq<RoundInfo>, budget': seq<nat>)
    requires Ledger(src != null, RenamingOf(g, src), rounds, budget, before) && Upto(g, rounds, info.left)
    requires |budget| == |rounds| + 1
    requires RoundOk(src != null, RenamingOf(g, src), info, budget[|rounds|], iterations) && Remains(info) < info.left
    requires optimal == (before && Completed(src != null, info, budget[|rounds|]))
    requires rounds != [] ==> info.left < rounds[|rounds| - 1].left
    ensures Ledger(src != null, RenamingOf(g, src), rounds', budget', optimal) && Upto(g, rounds', Remains(info))
    ensures |budget'| == |rounds'| + 1 && budget'[0] == budget[0] && budget'[|rounds'|] == iterations
    ensures rounds' != [] && rounds'[|rounds'| - 1] == info
  {
    hide Ledger, RoundOk, Completed, RenamingOf;
    LedgerNext(src != null, RenamingOf(g, src), rounds, budget, before, info, iterations);
    rounds', budget' := rounds + [info], budget + [iterations];
  }

  lemma UptoStart(g: Graph)
    ensures Upto(g, [], g.used)
  {
  }

  lemma WholeIs(g: Graph, rounds: seq<RoundInfo>)
    requires rounds != [] && Upto(g, rounds, {})
    ensures Whole(g, rounds)
  {
  }

  /** From everything to nothing. */
  ghost predicate Whole(g: Graph, rounds: seq<RoundInfo>) {
    rounds != [] && rounds[0].left == g.used && Remains(rounds[|rounds| - 1]) == {}
  }

  /** Output set after set until nothing is left. */
  method Rounds(g: Graph, ghost oldLin: seq<nat>, anc: AncestorCandidateFinder, src: SearchCandidateFinder?,
                chunking: LinearizationChunking, iterations: nat)
    returns (lin: seq<nat>, optimal: bool, iterationsLeft: nat, ghost rounds: seq<RoundInfo>, ghost budget: seq<nat>)
    requires g.Cluster() && g.used != {} && InStep(g, g.used, oldLin, anc, src, chunking)
    requires Keeping(g, [], g.used, oldLin, chunking.Remaining(), true)
    modifies anc, src, chunking
    ensures g.IsLinearization(lin)
    ensures oldLin != [] ==> AtLeastAsGood(g, lin, oldLin)
    ensures optimal ==> forall other :: g.IsLinearization(other) ==> AtLeastAsGood(g, lin, other)
    ensures iterationsLeft <= iterations
    ensures Ledger(src != null, RenamingOf(g, src), rounds, budget, optimal) && Whole(g, rounds)
    ensures |budget| > 0 && budget[0] == iterations && budget[|budget| - 1] == iterationsLeft
  {
    hide *;
    lin, optimal, iterationsLeft := [], true, iterations;
    rounds, budget := [], [iterations];
    LedgerStart(src != null, RenamingOf(g, src), iterations);
    UptoStart(g);
    ghost var left, rest := g.used, chunking.Remaining();
    while true
      invariant InStep(g, left, oldLin, anc, src, chunking) && left != {} && left <= g.used
      invariant rest == chunking.Remaining() && Keeping(g, lin, left, oldLin, rest, optimal)
      invariant iterationsLeft <= iterations
      invariant Ledger(src != null, RenamingOf(g, src), rounds, budget, optimal) && Upto(g, rounds, left)
      invariant |budget| == |rounds| + 1 && budget[0] == iterations && budget[|rounds|] == iterationsLeft
      invariant rounds != [] ==> left < rounds[|rounds| - 1].left
      decreases left
    {
      ghost var before, info := optimal, RoundInfo({}, NO_SET, NO_SET, 0, {});
      lin, optimal, iterationsLeft, left, rest, info :=
        Round(g, left, oldLin, rest, anc, src, chunking, lin, optimal, iterationsLeft);
      rounds, budget := Recorded(g, src, rounds, budget, before, info, iterationsLeft, optimal);
      if anc.todo == {} {
        break;
      }
    }
    KeepingEnd(g, lin, oldLin, rest, optimal);
    WholeIs(g, rounds);
  }

  /** Choose a set, output it in topological order, and mark it done. */
  method Round(g: Graph, ghost left: set<nat>, ghost oldLin: seq<nat>, ghost rest: seq<nat>,
               anc: AncestorCandidateFinder,
               src: SearchCandidateFinder?, chunking: LinearizationChunking, lin: seq<nat>, optimal: bool,
               iterations: nat)
    returns (lin': seq<nat>, optimal': bool, iterationsLeft: nat, ghost left': set<nat>, ghost rest': seq<nat>,
             ghost info: RoundInfo)
    requires g.Cluster() && left != {} && left <= g.used && InStep(g, left, oldLin, anc, src, chunking)
    requires rest == chunking.Remaining() && Keeping(g, lin, left, oldLin, rest, optimal)
    modifies anc, src, chunking
    ensures left' < left && anc.todo == left' && iterationsLeft <= iterations
    ensures info.left == left && Remains(info) == left'
    ensures RoundOk(src != null, RenamingOf(g, src), info, iterations, iterationsLeft)
    ensures optimal' == (optimal && Completed(src != null, info, iterations))
    ensures Keeping(g, lin', left', oldLin, rest', optimal')
    ensures left' != {} ==> InStep(g, left', oldLin, anc, src, chunking) && rest' == chunking.Remaining()
    ensures left' == {} && oldLin != [] ==> rest' == []
  {
    hide *;
    var best;
    best, lin', optimal', iterationsLeft, info := OutputSet(g, left, oldLin, rest, anc, src, chunking, lin, optimal,
                                                            iterations);
    RemainsIs(info);
    InStepFacts(g, left, oldLin, anc, src, chunking);
    WithoutMembers(rest, best);
    RemovedCount(left, best);
    left', rest' := left - best, Without(rest, best);
    MarkAll(g, left, oldLin, anc, src, chunking, best);
  }

  lemma RemainsIs(info: RoundInfo)
    ensures Remains(info) == info.left - info.chosen
  {
  }

  /** Choose a set and output it in topological order. */
  method OutputSet(g: Graph, ghost left: set<nat>, ghost oldLin: seq<nat>, ghost rest: seq<nat>,
                   anc: AncestorCandidateFinder,
                   src: SearchCandidateFinder?, chunking: LinearizationChunking, lin: seq<nat>, optimal: bool,
                   iterations: nat)
    returns (best: set<nat>, lin': seq<nat>, optimal': bool, iterationsLeft: nat, ghost info: RoundInfo)
    requires g.Cluster() && left != {} && left <= g.used && InStep(g, left, oldLin, anc, src, chunking)
    requires rest == chunking.Remaining() && Keeping(g, lin, left, oldLin, rest, optimal)
    ensures best <= left && best != {} && iterationsLeft <= iterations && info.left == left && info.chosen == best
    ensures RoundOk(src != null, RenamingOf(g, src), info, iterations, iterationsLeft)
    ensures optimal' == (optimal && Completed(src != null, info, iterations))
    ensures Keeping(g, lin', left - best, oldLin, Without(rest, best), optimal')
  {
    hide *;
    ClusterFacts(g);
    InStepFacts(g, left, oldLin, anc, src, chunking);
    KeepingRest(g, lin, left, oldLin, rest, optimal);
    var chosen, optimalNow;
    chosen, optimalNow, iterationsLeft, info := ChooseSet(g, left, oldLin, anc, src, chunking, iterations);
    best := chosen.transactions;
    ClosedWithin(g, left, best);
    optimal' := optimal && optimalNow;
    lin' := AppendTopo(g, lin, best);
    ghost var added := lin'[|lin|..];
    assert lin' == lin + added;
    KeepingStep(g, lin, left, oldLin, rest, optimal, optimal', added);
  }

  /** Remove the set just output from both finders and from the chunking of the old linearization. */
  method MarkAll(g: Graph, ghost left: set<nat>, ghost oldLin: seq<nat>, anc: AncestorCandidateFinder,
                 src: SearchCandidateFinder?,
                 chunking: LinearizationChunking, done: set<nat>)
    requires InStep(g, left, oldLin, anc, src, chunking) && done <= left && done != {}
    modifies anc, src, chunking
    ensures anc.todo == left - done
    ensures left - done != {} ==> InStep(g, left - done, oldLin, anc, src, chunking)
    ensures left - done != {} ==> chunking.Remaining() == Without(old(chunking.Remaining()), done)
  {
    hide *;
    InStepFacts(g, left, oldLin, anc, src, chunking);
    ghost var remaining := chunking.Remaining();
    anc.MarkDone(done);
    if anc.AllDone() {
      AllDoneMeans(anc);
      return;
    }
    AllDoneMeans(anc);
    if src != null {
      src.MarkDone(done);
    }
    ChunksLeft(chunking);
    if chunking.NumChunksLeft() > 0 {
      chunking.MarkDone(done);
    } else {
      NothingWithout(chunking, done);
    }
    InStepIntro(g, left - done, oldLin, anc, src, chunking);
  }

  lemma AllDoneMeans(anc: AncestorCandidateFinder)
    ensures anc.AllDone() <==> anc.todo == {}
  {
  }

  lemma ChunksLeft(chunking: LinearizationChunking)
    requires chunking.Valid()
    ensures chunking.chunksSkip <= |chunking.chunks|
    ensures chunking.NumChunksLeft() == 0 <==> chunking.todo == {}
  {
    hide Proper, Chunks, Restrict;
    LeftIffTodo(chunking.depgraph, chunking.full, chunking.todo);
    assert |chunking.chunks[chunking.chunksSkip..]| == |Chunks(chunking.depgraph, chunking.Remaining())|;
  }

  lemma NothingWithout(chunking: LinearizationChunking, done: set<nat>)
    requires chunking.Valid() && chunking.todo == {}
    ensures Without(chunking.Remaining(), done) == chunking.Remaining()
  {
    RestrictNone(chunking.full, {});
  }

  lemma InStepFacts(g: Graph, left: set<nat>, oldLin: seq<nat>, anc: AncestorCandidateFinder,
                    src: SearchCandidateFinder?, chunking: LinearizationChunking)
    requires InStep(g, left, oldLin, anc, src, chunking)
    ensures anc.Valid() && anc.depgraph == g && anc.todo == left
    ensures src != null ==> src.Valid() && src.depgraph == g && src.Left() == left
    ensures chunking.Valid() && chunking.depgraph == g && chunking.full == oldLin
    ensures chunking.todo == (if oldLin == [] then {} else left)
    ensures SetOf(chunking.Remaining()) == chunking.todo
    ensures oldLin == [] ==> chunking.Remaining() == []
  {
    hide Graph.Cluster, Proper, Renamed, Searchable;
    RestrictMembers(oldLin, chunking.todo);
  }

  lemma InStepIntro(g: Graph, left: set<nat>, oldLin: seq<nat>, anc: AncestorCandidateFinder,
                    src: SearchCandidateFinder?, chunking: LinearizationChunking)
    requires anc.Valid() && anc.depgraph == g && anc.todo == left
    requires src != null ==> src.Valid() && src.depgraph == g && src.Left() == left
    requires chunking.Valid() && chunking.depgraph == g && chunking.full == oldLin
    requires chunking.todo == (if oldLin == [] then {} else left)
    ensures InStep(g, left, oldLin, anc, src, chunking)
    ensures chunking.Remaining() == Restrict(oldLin, chunking.todo)
  {
  }

  lemma ProperOld(g: Graph, oldLin: seq<nat>)
    requires g.Cluster() && (oldLin == [] || g.IsLinearization(oldLin))
    ensures Proper(g, oldLin) && (oldLin != [] ==> SetOf(oldLin) == g.used)
    ensures oldLin == [] ==> SetOf(oldLin) == {}
  {
  }

  lemma NothingUsed(oldLin: seq<nat>)
    requires SetOf(oldLin) == {}
    ensures oldLin == []
  {
    SetOfSome(oldLin);
  }

  lemma SetOfSome(lin: seq<nat>)
    ensures lin != [] ==> lin[0] in SetOf(lin)
  {
  }
}
