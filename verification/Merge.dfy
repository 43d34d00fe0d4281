/** `MergeLinearizations` (`src/cluster_linearize.h:1321-1361`). */
module MergeLinearization {
  import opened FeeFracs
  import opened Sequences
  import opened Graphs
  import opened Chunkings
  import opened Improvements
  import opened LinearizationChunkings
  import opened AppendTopos
  import opened Progress

  /**
   Of two remaining orders of the same positions, `s` is the first chunk of `mine` and not below the
   first chunk of `theirs`; `t` is its shortest intersection with the chunks of `theirs`. Then `t` is
   topologically valid and may be moved first in both.
   */
  lemma SafeInBoth(g: Graph, mine: seq<nat>, theirs: seq<nat>, s: set<nat>, t: set<nat>, j: nat)
    requires Proper(g, mine) && Proper(g, theirs) && g.Topological(mine) && g.Topological(theirs)
    requires SetOf(mine) == SetOf(theirs) && mine != [] && theirs != []
    requires Chunks(g, mine) != [] && s == SetOf(Chunks(g, mine)[0])
    requires Chunks(g, theirs) != [] && !Higher(SegRate(g, Chunks(g, theirs)[0]), g.FeeRate(s))
    requires ShortestIntersection(g, Chunks(g, theirs), s, t, j)
    ensures g.Closed(SetOf(mine), t) && SafeFirst(g, mine, t) && SafeFirst(g, theirs, t)
  {
    hide Graph.Valid, Graph.PositiveSizes, SafeFirst, Chunks, SegRate, Graph.FeeRate;
    FirstChunkClosed(g, mine);
    PrefixSetClosed(g, theirs, j);
    ClosedIntersection(g, SetOf(mine), s, PrefixSet(Chunks(g, theirs), j));
    SafeInFirstChunk(g, mine, t);
    SafeIntersection(g, theirs, s, t, j);
  }

  /** The set output next: the better first chunk, intersected with the other order's chunks. */
  method NextSet(g: Graph, chunking1: LinearizationChunking, chunking2: LinearizationChunking) returns (best: SetInfo)
    requires chunking1.Valid() && chunking2.Valid() && chunking1.depgraph == chunking2.depgraph == g
    requires chunking1.todo == chunking2.todo != {}
    requires g.Topological(chunking1.Remaining()) && g.Topological(chunking2.Remaining())
    ensures best.transactions != {} && g.Closed(chunking1.todo, best.transactions)
    ensures SafeFirst(g, chunking1.Remaining(), best.transactions)
    ensures SafeFirst(g, chunking2.Remaining(), best.transactions)
  {
    hide Graph.Valid, Graph.PositiveSizes, SafeFirst, Chunks, SegRate, Graph.FeeRate, Graph.Topological, Restrict;
    ghost var r1, r2 := chunking1.Remaining(), chunking2.Remaining();
    LeftIffTodo(g, chunking1.full, chunking1.todo);
    LeftIffTodo(g, chunking2.full, chunking2.todo);
    ProperRestrict(g, chunking1.full, chunking1.todo);
    ProperRestrict(g, chunking2.full, chunking2.todo);
    FirstChunkClosed(g, r1);
    FirstChunkClosed(g, r2);
    var first1 := chunking1.GetChunk(0);
    var first2 := chunking2.GetChunk(0);
    assert first1 == Info(g, Chunks(g, r1)[0]) && first2 == Info(g, Chunks(g, r2)[0]);
    ghost var j;
    if Higher(first2.feerate, first1.feerate) {
      best, j := chunking1.IntersectPrefixes(first2);
      SafeInBoth(g, r2, r1, first2.transactions, best.transactions, j);
    } else {
      best, j := chunking2.IntersectPrefixes(first1);
      SafeInBoth(g, r1, r2, first1.transactions, best.transactions, j);
    }
  }

  /** Merge two linearizations into one that is at least as good as both. */
  method MergeLinearizations(g: Graph, lin1: seq<nat>, lin2: seq<nat>) returns (ret: seq<nat>)
    requires g.Cluster() && g.IsLinearization(lin1) && g.IsLinearization(lin2)
    ensures g.IsLinearization(ret)
    ensures AtLeastAsGood(g, ret, lin1) && AtLeastAsGood(g, ret, lin2)
  {
    hide Graph.Valid, Graph.Acyclic, Graph.PositiveSizes, Graph.IsLinearization, Restrict, OnTrack, SafeFirst,
         Graph.Topological, Chunks, AtLeastAsGood, Graph.Closed, Sorted;
    IsProper(g, lin1);
    IsProper(g, lin2);
    var chunking1 := new LinearizationChunking(g, lin1);
    var chunking2 := new LinearizationChunking(g, lin2);
    ret := [];
    StartRemaining(lin1);
    StartRemaining(lin2);
    OnTrackStart(g, lin1);
    OnTrackStart(g, lin2);
    LeftIffTodo(g, lin1, g.used);
    LeftIffTodo(g, lin2, g.used);
    if g.used != {} {
      while true
        invariant chunking1.Valid() && chunking2.Valid()
        invariant chunking1.depgraph == chunking2.depgraph == g && chunking1.full == lin1 && chunking2.full == lin2
        invariant chunking1.todo == chunking2.todo != {}
        invariant OnTrack(g, ret, chunking1.Remaining(), lin1) && OnTrack(g, ret, chunking2.Remaining(), lin2)
        decreases chunking1.todo
      {
        ghost var r1, r2, left := chunking1.Remaining(), chunking2.Remaining(), chunking1.todo;
        OnTrackRest(g, ret, r1, lin1);
        OnTrackRest(g, ret, r2, lin2);
        var best := NextSet(g, chunking1, chunking2);
        LeftIffTodo(g, lin1, chunking1.todo);
        LeftIffTodo(g, lin2, chunking2.todo);
        ClosedWithin(g, chunking1.todo, best.transactions);
        ghost var pre := ret;
        ret := AppendTopo(g, ret, best.transactions);
        ghost var added := ret[|pre|..];
        assert ret == pre + added;
        OnTrackStep(g, pre, r1, lin1, added);
        OnTrackStep(g, pre, r2, lin2, added);
        assert SetOf(r2) == left;
        WithoutMembers(r1, best.transactions);
        WithoutMembers(r2, best.transactions);
        chunking1.MarkDone(best.transactions);
        LeftIffTodo(g, lin1, chunking1.todo);
        assert |chunking1.chunks[chunking1.chunksSkip..]| == |Chunks(g, chunking1.Remaining())|;
        if chunking1.NumChunksLeft() == 0 {
          assert SetOf(r2) - best.transactions == {};
          assert Without(r2, best.transactions) == [];
          break;
        }
        chunking2.MarkDone(best.transactions);
      }
    }
    OnTrackEnd(g, ret, lin1);
    OnTrackEnd(g, ret, lin2);
  }
}
