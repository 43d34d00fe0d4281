/**
 Building a linearization front to back without falling behind an existing one: what has been output,
 followed by what remains of the old order, stays a linearization at least as good as the old one.
 */
module Progress {
  import opened FeeFracs
  import opened Diagrams
  import opened Sequences
  import opened Graphs
  import opened Chunkings
  import opened Improvements
  import opened LinearizationChunkings

  /** `pre` followed by what remains in `rest` is a linearization, and at least as good as `lin`. */
  ghost predicate OnTrack(g: Graph, pre: seq<nat>, rest: seq<nat>, lin: seq<nat>) {
    && g.IsLinearization(pre + rest) && g.IsLinearization(lin)
    && Dominates(g.Rates(pre + rest), g.Rates(lin))
  }

  lemma OnTrackStart(g: Graph, lin: seq<nat>)
    requires g.IsLinearization(lin)
    ensures OnTrack(g, [], lin, lin)
  {
    assert [] + lin == lin;
  }

  lemma OnTrackRest(g: Graph, pre: seq<nat>, rest: seq<nat>, lin: seq<nat>)
    requires g.Valid() && g.PositiveSizes() && OnTrack(g, pre, rest, lin)
    ensures Proper(g, rest) && g.Topological(rest) && SetOf(pre) !! SetOf(rest) && SetOf(pre) + SetOf(rest) == g.used
  {
    TopologicalConcat(g, pre, rest);
    SetOfConcat(pre, rest);
  }

  /** Outputting a topologically valid subset that is safe to move first stays on track. */
  lemma OnTrackStep(g: Graph, pre: seq<nat>, rest: seq<nat>, lin: seq<nat>, first: seq<nat>)
    requires g.Valid() && g.PositiveSizes() && OnTrack(g, pre, rest, lin)
    requires g.Topological(first) && g.Closed(SetOf(rest), SetOf(first))
    requires SafeFirst(g, rest, SetOf(first))
    ensures OnTrack(g, pre + first, Without(rest, SetOf(first)), lin)
  {
    hide Graph.Valid, Graph.PositiveSizes, SafeFirst, Peak;
    OnTrackRest(g, pre, rest, lin);
    MoveFirstTopological(g, pre, rest, first);
    MoveDominates(g, pre, rest, first);
    var a, b, c := g.Rates(pre + first + Without(rest, SetOf(first))), g.Rates(pre + rest), g.Rates(lin);
    forall rate: FeeFrac | rate.size > 0 ensures Peak(rate, a) >= Peak(rate, c) {
      assert Peak(rate, a) >= Peak(rate, b);
      assert Peak(rate, b) >= Peak(rate, c);
    }
  }

  lemma OnTrackEnd(g: Graph, pre: seq<nat>, lin: seq<nat>)
    requires g.Valid() && g.PositiveSizes() && OnTrack(g, pre, [], lin)
    ensures g.IsLinearization(pre) && AtLeastAsGood(g, pre, lin)
  {
    assert pre + [] == pre;
    DominatesDiagram(g, pre, lin);
  }

  /** The first chunk is a topologically valid subset of what remains. */
  lemma FirstChunkClosed(g: Graph, rest: seq<nat>)
    requires Proper(g, rest) && g.Topological(rest) && rest != []
    ensures Chunks(g, rest) != []
    ensures var c := Chunks(g, rest)[0]; c != [] && SetOf(c) != {} && g.Closed(SetOf(rest), SetOf(c))
                                         && SegRate(g, c) == g.FeeRate(SetOf(c))
  {
    hide Graph.Valid, Graph.PositiveSizes;
    ProperSized(g, rest);
    ChunksChunking(g, rest);
    var segs := Chunks(g, rest);
    var c, r := segs[0], Flatten(segs[1..]);
    assert Tight(g, c);
    assert c[0] in SetOf(c);
    PrefixClosed(g, c, r);
    ProperParts(g, c, r);
    ProperSized(g, c);
  }

  /** A prefix of whole chunks is a topologically valid subset of what remains. */
  lemma PrefixSetClosed(g: Graph, rest: seq<nat>, j: nat)
    requires Proper(g, rest) && g.Topological(rest) && j <= |Chunks(g, rest)|
    ensures g.Closed(SetOf(rest), PrefixSet(Chunks(g, rest), j))
  {
    ProperSized(g, rest);
    ChunksChunking(g, rest);
    var segs := Chunks(g, rest);
    assert segs == segs[..j] + segs[j..];
    FlattenConcat(segs[..j], segs[j..]);
    PrefixClosed(g, Flatten(segs[..j]), Flatten(segs[j..]));
  }

  lemma WithoutMembers(lin: seq<nat>, done: set<nat>)
    ensures SetOf(Without(lin, done)) == SetOf(lin) - done
    ensures SetOf(lin) - done == {} ==> Without(lin, done) == []
  {
    RestrictMembers(lin, SetOf(lin) - done);
    if SetOf(lin) - done == {} {
      RestrictNone(lin, SetOf(lin) - done);
    }
  }

  lemma IsProper(g: Graph, lin: seq<nat>)
    requires g.Valid() && g.PositiveSizes() && g.IsLinearization(lin)
    ensures Proper(g, lin) && SetOf(lin) == g.used
  {
  }

  lemma StartRemaining(lin: seq<nat>)
    ensures Restrict(lin, SetOf(lin)) == lin
  {
    RestrictAll(lin, SetOf(lin));
  }

  lemma LeftIffTodo(g: Graph, full: seq<nat>, todo: set<nat>)
    requires Proper(g, full) && todo <= SetOf(full)
    ensures Chunks(g, Restrict(full, todo)) == [] <==> todo == {}
    ensures Restrict(full, todo) == [] <==> todo == {}
    ensures SetOf(Restrict(full, todo)) == todo
  {
    RestrictMembers(full, todo);
    if todo == {} {
      RestrictNone(full, todo);
    } else {
      ChunksNonEmpty(g, full, todo);
      assert SetOf([]) == {};
    }
  }
}
