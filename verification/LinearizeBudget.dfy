/**
 How `Linearize` (`src/cluster_linearize.h:1042-1118`) spends its iterations, and when they suffice.

 A ledger records, round by round, what was left to linearize and what the search for the next set did. The
 limit of each search is half of what remains after the costs charged up-front; the result is reported optimal
 exactly when every search stayed below its limit. Because no search makes as many steps as there are sets of
 transactions left, a large enough number of iterations always leads to an optimal result (`EnoughIterations`).
 */
module LinearizationBudget {
  import opened Basics
  import opened Positional
  import opened Graphs
  import opened LinearizationChunkings
  import opened AppendTopos
  import opened DepGraphs
  import opened SearchItems
  import opened SearchSteps
  import opened SearchFinders

  /** Setting up the search for `n` transactions counts as `n * n / 64` iterations, rounded up. */
  function SetupCost(n: nat): nat {
    (n * n + 63) / 64
  }

  /** Starting one search among `n` transactions counts as `n / 4` iterations, rounded up. */
  function BaseCost(n: nat): nat {
    (n + 3) / 4
  }

  /** How many steps the search of a round may make. */
  function Limit(searching: bool, iterations: nat, n: nat): nat {
    if searching && iterations > BaseCost(n) then (iterations - BaseCost(n) + 1) / 2 else 0
  }

  /** What a round leaves of the iterations. */
  function After(searching: bool, iterations: nat, n: nat, done: nat): int {
    if searching && iterations > BaseCost(n) then iterations - BaseCost(n) - done else iterations
  }

  /** A round: what was left, the set its search started from, the set found, the steps made, and the set output. */
  datatype RoundInfo = RoundInfo(left: set<nat>, start: SetInfo, found: SetInfo, done: nat, chosen: set<nat>)

  /** The graph that is searched, with the renaming to its positions. */
  datatype Renaming = Renaming(sorted: Graph, to: seq<nat>, from: seq<nat>)

  ghost function Remains(info: RoundInfo): set<nat> {
    info.left - info.chosen
  }

  /** One round, from `iterations` down to `iterations'`. */
  ghost predicate RoundOk(searching: bool, r: Renaming, info: RoundInfo, iterations: nat, iterations': nat) {
    var limit := Limit(searching, iterations, |info.left|);
    && info.left != {} && info.done <= limit && iterations' == After(searching, iterations, |info.left|, info.done)
    && info.chosen != {} && info.chosen <= info.found.transactions
    && (info.done != limit ==> info.chosen == info.found.transactions)
    && (limit == 0 ==> info.found == info.start)
    && (limit > 0 ==>
          Searched(r.sorted, Image(r.to, info.left), limit, InfoImage(r.to, info.start), InfoImage(r.to, info.found),
                   info.done))
  }

  /** The search of the round ended before its limit. */
  predicate Completed(searching: bool, info: RoundInfo, iterations: nat) {
    info.done != Limit(searching, iterations, |info.left|)
  }

  /** The rounds so far and what was left of the iterations around them. */
  ghost predicate Ledger(searching: bool, r: Renaming, rounds: seq<RoundInfo>, budget: seq<nat>, optimal: bool) {
    && |budget| == |rounds| + 1
    && (forall i :: 0 <= i < |rounds| ==> RoundOk(searching, r, rounds[i], budget[i], budget[i + 1]))
    && (optimal <==> forall i :: 0 <= i < |rounds| ==> Completed(searching, rounds[i], budget[i]))
    && (forall i :: 0 < i < |rounds| ==>
          rounds[i].left == Remains(rounds[i - 1]) && rounds[i].left < rounds[i - 1].left)
  }

  lemma LedgerStart(searching: bool, r: Renaming, iterations: nat)
    ensures Ledger(searching, r, [], [iterations], true)
  {
  }

  lemma LedgerNext(searching: bool, r: Renaming, rounds: seq<RoundInfo>, budget: seq<nat>, optimal: bool,
                   info: RoundInfo, iterations': nat)
    requires Ledger(searching, r, rounds, budget, optimal)
    requires RoundOk(searching, r, info, budget[|rounds|], iterations')
    requires rounds != [] ==>
               info.left == Remains(rounds[|rounds| - 1]) && info.left < rounds[|rounds| - 1].left
    ensures Ledger(searching, r, rounds + [info], budget + [iterations'],
                   optimal && Completed(searching, info, budget[|rounds|]))
  {
    hide RoundOk, Completed;
    var rounds', budget' := rounds + [info], budget + [iterations'];
    var n := |rounds|;
    forall i | 0 <= i < |rounds'| ensures RoundOk(searching, r, rounds'[i], budget'[i], budget'[i + 1]) {
      if i < n {
        assert RoundOk(searching, r, rounds[i], budget[i], budget[i + 1]);
      }
    }
    forall i | 0 <= i < n
      ensures Completed(searching, rounds'[i], budget'[i]) <==> Completed(searching, rounds[i], budget[i])
    {
    }
    if forall i :: 0 <= i < |rounds'| ==> Completed(searching, rounds'[i], budget'[i]) {
      forall i | 0 <= i < n ensures Completed(searching, rounds[i], budget[i]) {
        assert Completed(searching, rounds'[i], budget'[i]);
      }
      assert Completed(searching, rounds'[n], budget'[n]);
    }
  }

  /** `iterations` of at most `maxIterations` were spent, and the result is reported as `optimal`. */
  ghost predicate Spent(g: Graph, maxIterations: nat, iterations: nat, optimal: bool) {
    if g.used == {} then iterations == 0 && optimal
    else exists r, rounds, budget :: SpentBy(g, maxIterations, iterations, optimal, r, rounds, budget)
  }

  ghost predicate SpentBy(g: Graph, maxIterations: nat, iterations: nat, optimal: bool, r: Renaming,
                          rounds: seq<RoundInfo>, budget: seq<nat>) {
    var searching := maxIterations > SetupCost(|g.used|);
    && Ledger(searching, r, rounds, budget, optimal) && rounds != [] && rounds[0].left == g.used
    && (searching ==> Renamed(g, r.sorted, r.to, r.from) && Searchable(r.sorted, r.sorted.used))
    && budget[0] == (if searching then maxIterations - SetupCost(|g.used|) else maxIterations)
    && iterations == maxIterations - budget[|rounds|] && Remains(rounds[|rounds| - 1]) == {}
  }

  // ----- When the iterations suffice -----

  /** What a round among `n` transactions may cost at most. */
  function RoundCost(n: nat): nat {
    BaseCost(n) + Pow(2, n)
  }

  /** The search of a round makes fewer steps than there are sets of transactions left. */
  lemma RoundBounded(g: Graph, r: Renaming, info: RoundInfo, iterations: nat, iterations': nat)
    requires g.Cluster() && Renamed(g, r.sorted, r.to, r.from) && Searchable(r.sorted, r.sorted.used)
    requires info.left <= g.used && RoundOk(true, r, info, iterations, iterations')
    ensures info.done < Pow(2, |info.left|)
  {
    hide Pow, Searched, Image;
    var limit := Limit(true, iterations, |info.left|);
    if limit > 0 {
      ImageCount(g, r.sorted, r.to, r.from, info.left);
      ImageBack(g, r.sorted, r.to, r.from, info.left);
      SearchBounded(r.sorted, Image(r.to, info.left), limit, InfoImage(r.to, info.start), InfoImage(r.to, info.found),
                    info.done);
    }
  }

  /** With enough iterations left for the rounds to come, a round is completed and enough are left after it. */
  lemma RoundEnough(g: Graph, r: Renaming, info: RoundInfo, iterations: nat, iterations': nat, n: nat)
    requires g.Cluster() && Renamed(g, r.sorted, r.to, r.from) && Searchable(r.sorted, r.sorted.used)
    requires info.left <= g.used && RoundOk(true, r, info, iterations, iterations')
    requires |info.left| <= n && iterations > (|info.left| + 1) * RoundCost(n)
    ensures Completed(true, info, iterations) && iterations' > |info.left| * RoundCost(n)
  {
    hide Pow, Searched, Renamed;
    RoundBounded(g, r, info, iterations, iterations');
    var k := |info.left|;
    PowGrows(2, k, n);
    assert (k + 1) * RoundCost(n) == k * RoundCost(n) + RoundCost(n);
    AtLeastOnce(k, RoundCost(n));
  }

  lemma AtLeastOnce(k: nat, p: nat)
    ensures k > 0 ==> k * p >= p
  {
    if k > 0 { Scale(p, 1, k); }
  }

  lemma {:induction false} LedgerEnough(g: Graph, r: Renaming, rounds: seq<RoundInfo>, budget: seq<nat>,
                                        optimal: bool, i: nat)
    requires g.Cluster() && Renamed(g, r.sorted, r.to, r.from) && Searchable(r.sorted, r.sorted.used)
    requires Ledger(true, r, rounds, budget, optimal) && i < |rounds| && rounds[0].left == g.used
    requires budget[0] > (|g.used| + 1) * RoundCost(|g.used|)
    ensures rounds[i].left <= g.used && budget[i] > (|rounds[i].left| + 1) * RoundCost(|g.used|)
    ensures Completed(true, rounds[i], budget[i])
  {
    hide RoundOk, RoundCost, Completed, Renamed, Searchable, Graph.Cluster;
    var n := |g.used|;
    if i > 0 {
      LedgerEnough(g, r, rounds, budget, optimal, i - 1);
      var before, now := rounds[i - 1].left, rounds[i].left;
      assert RoundOk(true, r, rounds[i - 1], budget[i - 1], budget[i]);
      Fewer(now, before);
      Fewer(before, g.used);
      RoundEnough(g, r, rounds[i - 1], budget[i - 1], budget[i], n);
      Scale(RoundCost(n), |now| + 1, |before|);
    }
    assert RoundOk(true, r, rounds[i], budget[i], budget[i + 1]);
    Fewer(rounds[i].left, g.used);
    RoundEnough(g, r, rounds[i], budget[i], budget[i + 1], n);
  }

  lemma Fewer(a: set<nat>, b: set<nat>)
    requires a <= b
    ensures |a| <= |b| && (a != b ==> |a| < |b|)
  {
    SubsetCount(a, b);
  }

  /** With one step per set of transactions and round to spare, the result is optimal. */
  lemma EnoughIterations(g: Graph, maxIterations: nat, iterations: nat, optimal: bool)
    requires g.Cluster() && Spent(g, maxIterations, iterations, optimal)
    requires maxIterations > SetupCost(|g.used|) + (|g.used| + 1) * RoundCost(|g.used|)
    ensures optimal
  {
    hide SetupCost, RoundCost, Ledger, Renamed, Searchable, Graph.Cluster;
    if g.used != {} {
      var r, rounds, budget :| SpentBy(g, maxIterations, iterations, optimal, r, rounds, budget);
      NonNegative(|g.used| + 1, RoundCost(|g.used|));
      LedgerOptimal(g, r, rounds, budget, optimal);
    }
  }

  lemma LedgerOptimal(g: Graph, r: Renaming, rounds: seq<RoundInfo>, budget: seq<nat>, optimal: bool)
    requires g.Cluster() && Renamed(g, r.sorted, r.to, r.from) && Searchable(r.sorted, r.sorted.used)
    requires Ledger(true, r, rounds, budget, optimal) && rounds != [] && rounds[0].left == g.used
    requires budget[0] > (|g.used| + 1) * RoundCost(|g.used|)
    ensures optimal
  {
    hide RoundOk, RoundCost, Completed, Renamed, Searchable, Graph.Cluster;
    forall i | 0 <= i < |rounds| ensures Completed(true, rounds[i], budget[i]) {
      LedgerEnough(g, r, rounds, budget, optimal, i);
    }
  }
}
