/**
 `ChunkLinearization` and the class `LinearizationChunking` (`src/cluster_linearize.h:337-540`).
 */
module LinearizationChunkings {
  import opened FeeFracs
  import opened Diagrams
  import opened Sequences
  import opened Graphs
  import opened Chunkings
  import opened Improvements

  /** A set of transactions together with their aggregate feerate. */
  datatype SetInfo = SetInfo(transactions: set<nat>, feerate: FeeFrac) {

    /** The feerate is the one of the set. */
    ghost predicate For(g: Graph) {
      feerate == g.FeeRate(transactions)
    }

    /** More transactions, possibly overlapping. */
    function Add(g: Graph, txn: set<nat>): SetInfo {
      SetInfo(transactions + txn, feerate.Plus(g.FeeRate(txn - transactions)))
    }
  }

  lemma AddFor(g: Graph, s: SetInfo, txn: set<nat>)
    requires s.For(g)
    ensures s.Add(g, txn).For(g)
  {
    hide FeeFrac.Plus, Graph.FeeRate;
    var t := s.transactions;
    RateDisjoint(g, t, txn - t);
    assert t + (txn - t) == t + txn;
  }

  const NO_SET := SetInfo({}, EMPTY)

  function Info(g: Graph, seg: seq<nat>): SetInfo {
    SetInfo(SetOf(seg), SegRate(g, seg))
  }

  function Infos(g: Graph, segs: seq<seq<nat>>): seq<SetInfo> {
    seq(|segs|, i requires 0 <= i < |segs| => Info(g, segs[i]))
  }

  /** The feerates of the chunks of a linearization. */
  method ChunkLinearization(g: Graph, lin: seq<nat>) returns (ret: seq<FeeFrac>)
    ensures ret == SegRates(g, Chunks(g, lin))
  {
    ret := [];
    assert lin[..0] == [];
    assert ret == SegRates(g, Chunks(g, lin[..0]));
    hide *;
    for i := 0 to |lin|
      invariant ret == SegRates(g, Chunks(g, lin[..i]))
    {
      ChunksNext(g, lin, i);
      SegRateOne(g, lin[i]);
      ret := AbsorbChunk(g, ret, g.Rate(lin[i]), Chunks(g, lin[..i]), [lin[i]]);
    }
    assert lin[..|lin|] == lin;
  }

  lemma ChunksNext(g: Graph, lin: seq<nat>, i: nat)
    requires i < |lin|
    ensures Chunks(g, lin[..i + 1]) == Absorb(g, Chunks(g, lin[..i]), [lin[i]])
  {
    hide Absorb;
    assert lin[..i + 1][..i] == lin[..i];
  }

  /** Append a chunk, first merging it with the last chunks while these have lower feerate. */
  method AbsorbChunk(g: Graph, chunks: seq<FeeFrac>, chunk: FeeFrac, ghost segs0: seq<seq<nat>>, ghost seg0: seq<nat>)
    returns (ret: seq<FeeFrac>)
    requires chunks == SegRates(g, segs0) && chunk == SegRate(g, seg0)
    ensures ret == SegRates(g, Absorb(g, segs0, seg0))
  {
    hide *;
    ret := chunks;
    var newChunk := chunk;
    ghost var segs, seg := segs0, seg0;
    RatesLast(g, segs);
    while ret != [] && Higher(newChunk, ret[|ret| - 1])
      invariant ret == SegRates(g, segs) && newChunk == SegRate(g, seg) && |ret| == |segs|
      invariant Absorb(g, segs, seg) == Absorb(g, segs0, seg0)
      decreases |ret|
    {
      ghost var n := |segs| - 1;
      RatesLast(g, segs);
      AbsorbNext(g, segs, seg);
      SegRateConcat(g, segs[n], seg);
      SumCommutes(newChunk, ret[n]);
      newChunk := newChunk.Plus(ret[|ret| - 1]);
      ret := ret[..|ret| - 1];
      seg, segs := segs[n] + seg, segs[..n];
      RatesLast(g, segs);
    }
    RatesLast(g, segs);
    AbsorbNext(g, segs, seg);
    RatesSnoc(g, segs, seg);
    ret := ret + [newChunk];
  }

  lemma RatesLast(g: Graph, segs: seq<seq<nat>>)
    ensures |SegRates(g, segs)| == |segs|
    ensures segs != [] ==>
              SegRates(g, segs)[|segs| - 1] == SegRate(g, segs[|segs| - 1]) &&
              SegRates(g, segs)[..|segs| - 1] == SegRates(g, segs[..|segs| - 1])
  {
    hide SegRate;
  }

  lemma RatesSnoc(g: Graph, segs: seq<seq<nat>>, seg: seq<nat>)
    ensures SegRates(g, segs + [seg]) == SegRates(g, segs) + [SegRate(g, seg)]
  {
    hide SegRate;
  }

  lemma AbsorbNext(g: Graph, segs: seq<seq<nat>>, seg: seq<nat>)
    ensures segs != [] && Higher(SegRate(g, seg), SegRate(g, segs[|segs| - 1])) ==>
              Absorb(g, segs, seg) == Absorb(g, segs[..|segs| - 1], segs[|segs| - 1] + seg)
    ensures segs == [] || !Higher(SegRate(g, seg), SegRate(g, segs[|segs| - 1])) ==>
            Absorb(g, segs, seg) == segs + [seg]
  {
    hide SegRate, Higher;
  }

  lemma SumCommutes(a: FeeFrac, b: FeeFrac)
    ensures a.Plus(b) == b.Plus(a)
  {
  }

  /**
   The chunk feerates are the least concave majorant of the prefix sums: they conserve the totals, never
   increase, lie nowhere below the curve through the prefix sums, and nowhere above any other concave
   curve with that property.
   */
  lemma ChunksAreLeastMajorant(g: Graph, lin: seq<nat>)
    requires Sized(g, lin)
    ensures IsChunking(g, lin, Chunks(g, lin))
    ensures var chunks := SegRates(g, Chunks(g, lin));
            && AllPositive(chunks) && NonIncreasing(chunks)
            && Total(chunks) == Total(g.Rates(lin))
            && NowhereBelow(chunks, g.Rates(lin))
            && forall other :: AllPositive(other) && NonIncreasing(other) && Total(other) == Total(chunks) &&
                 NowhereBelow(other, g.Rates(lin))
                 ==> NowhereBelow(other, chunks)
  {
    var segs := Chunks(g, lin);
    var chunks := SegRates(g, segs);
    ChunksChunking(g, lin);
    ChunkingPositive(g, segs);
    SegRatesTotal(g, segs);
    ChunksPeak(g, lin);
    PeaksDecide(chunks, g.Rates(lin));
    forall other | AllPositive(other) && NonIncreasing(other) && Total(other) == Total(chunks) &&
                   NowhereBelow(other, g.Rates(lin))
      ensures NowhereBelow(other, chunks)
    {
      PeaksDecide(other, g.Rates(lin));
      PeaksDecide(other, chunks);
    }
  }

  lemma ChunksPeak(g: Graph, lin: seq<nat>)
    requires Sized(g, lin)
    ensures forall rate: FeeFrac :: rate.size > 0 ==>
              Peak(rate, SegRates(g, Chunks(g, lin))) == Peak(rate, g.Rates(lin))
  {
    ChunksChunking(g, lin);
    forall rate: FeeFrac | rate.size > 0
      ensures Peak(rate, SegRates(g, Chunks(g, lin))) == Peak(rate, g.Rates(lin))
    {
      ChunkingPeak(g, Chunks(g, lin), rate);
    }
  }

  /** The feerate diagram of linearization `a` lies nowhere below that of `b`. */
  ghost predicate AtLeastAsGood(g: Graph, a: seq<nat>, b: seq<nat>) {
    var ca, cb := SegRates(g, Chunks(g, a)), SegRates(g, Chunks(g, b));
    AllPositive(ca) && AllPositive(cb) && NowhereBelow(ca, cb)
  }

  /** Diagrams of linearizations of the same positions are compared by peaks. */
  lemma DominatesDiagram(g: Graph, a: seq<nat>, b: seq<nat>)
    requires Proper(g, a) && Proper(g, b) && SetOf(a) == SetOf(b)
    ensures AtLeastAsGood(g, a, b) <==> Dominates(g.Rates(a), g.Rates(b))
  {
    hide Graph.Valid, Graph.FeeRate, Peak, DiagramAt, Chunks;
    ProperSized(g, a);
    ProperSized(g, b);
    ChunksAreLeastMajorant(g, a);
    ChunksAreLeastMajorant(g, b);
    ChunksPeak(g, a);
    ChunksPeak(g, b);
    var ca, cb := SegRates(g, Chunks(g, a)), SegRates(g, Chunks(g, b));
    assert Total(ca) == SegRate(g, a) && Total(cb) == SegRate(g, b);
    PeaksDecide(ca, cb);
  }

  /** The chunking of a linearization, permitting removal of subsets. */
  class LinearizationChunking {
    const depgraph: Graph
    /** The linearization we started from. */
    ghost const full: seq<nat>
    /** It again, possibly with a removed prefix stripped. */
    var linearization: seq<nat>
    /** Chunk sets and feerates of what remains, after `chunksSkip` removed ones. */
    var chunks: seq<SetInfo>
    var chunksSkip: nat
    /** Which transactions remain. */
    var todo: set<nat>

    /** What remains of the linearization. */
    ghost function Remaining(): seq<nat>
      reads this
    {
      Restrict(full, todo)
    }

    /** The visible chunks are those of what remains, as if chunked from scratch. */
    ghost predicate Valid()
      reads this
    {
      && Proper(depgraph, full) && todo <= SetOf(full)
      && |linearization| <= |full| && linearization == full[|full| - |linearization|..]
      && Restrict(linearization, todo) == Remaining()
      && chunksSkip <= |chunks|
      && chunks[chunksSkip..] == Infos(depgraph, Chunks(depgraph, Remaining()))
    }

    constructor (depgraph: Graph, lin: seq<nat>)
      requires Proper(depgraph, lin)
      ensures Valid()
      ensures this.depgraph == depgraph && full == lin && todo == SetOf(lin)
    {
      this.depgraph := depgraph;
      full := lin;
      linearization := lin;
      chunks := [];
      chunksSkip := 0;
      todo := {};
      new;
      for i := 0 to |lin|
        invariant todo == SetOf(lin[..i])
        invariant this.depgraph == depgraph && full == lin && linearization == lin && chunks == [] && chunksSkip == 0
      {
        todo := todo + {lin[i]};
      }
      assert lin[..|lin|] == lin;
      BuildChunks();
    }

    /** Strip the removed prefix and chunk what remains. */
    method BuildChunks()
      requires Proper(depgraph, full) && todo <= SetOf(full)
      requires |linearization| <= |full| && linearization == full[|full| - |linearization|..]
      requires Restrict(linearization, todo) == Remaining()
      requires chunks == [] && chunksSkip == 0
      modifies this`linearization, this`chunks
      ensures Valid()
    {
      hide Proper, Chunks, Restrict, Infos, SetOf;
      NoChunks(depgraph);
      while linearization != [] && linearization[0] !in todo
        invariant |linearization| <= |full| && linearization == full[|full| - |linearization|..]
        invariant Restrict(linearization, todo) == Remaining()
        invariant chunks == []
        decreases |linearization|
      {
        RestrictSkip(linearization, todo);
        linearization := linearization[1..];
      }
      ghost var rest := [];
      RestrictNone([], todo);
      for i := 0 to |linearization|
        modifies this`chunks
        invariant rest == Restrict(linearization[..i], todo)
        invariant chunks == Infos(depgraph, Chunks(depgraph, rest))
      {
        var idx := linearization[i];
        assert linearization[..i + 1] == linearization[..i] + [idx];
        RestrictConcat(linearization[..i], [idx], todo);
        RestrictOne(idx, todo);
        if idx in todo {
          AppendChunk(idx, rest);
          rest := rest + [idx];
        }
      }
      assert linearization[..|linearization|] == linearization;
      assert chunks[0..] == chunks;
    }

    /** One more entry: absorb final chunks of lower feerate into its singleton, then append that. */
    method AppendChunk(idx: nat, ghost before: seq<nat>)
      requires chunks == Infos(depgraph, Chunks(depgraph, before))
      modifies this`chunks
      ensures chunks == Infos(depgraph, Chunks(depgraph, before + [idx]))
    {
      hide SegRate, FeeFrac.Plus;
      ghost var after := before + [idx];
      assert after[..|before|] == before;
      ghost var segs, seg := Chunks(depgraph, before), [idx];
      var add := SetInfo({idx}, depgraph.Rate(idx));
      SegRateOne(depgraph, idx);
      assert SetOf(seg) == {idx};
      while chunks != [] && Higher(add.feerate, chunks[|chunks| - 1].feerate)
        invariant chunks == Infos(depgraph, segs) && add == Info(depgraph, seg)
        invariant Absorb(depgraph, segs, seg) == Chunks(depgraph, after)
        decreases |chunks|
      {
        ghost var n := |segs| - 1;
        JoinInfo(depgraph, segs[n], seg);
        add := SetInfo(add.transactions + chunks[|chunks| - 1].transactions,
                       add.feerate.Plus(chunks[|chunks| - 1].feerate));
        chunks := chunks[..|chunks| - 1];
        seg, segs := segs[n] + seg, segs[..n];
      }
      chunks := chunks + [add];
    }

    function NumChunksLeft(): nat
      requires chunksSkip <= |chunks|
      reads this
    {
      |chunks| - chunksSkip
    }

    function GetChunk(n: nat): (r: SetInfo)
      requires n + chunksSkip < |chunks|
      reads this
      ensures r == chunks[chunksSkip..][n]
    {
      chunks[n + chunksSkip]
    }

    /** Remove some subset of the transactions. */
    method MarkDone(subset: set<nat>)
      requires Valid() && subset != {} && subset <= todo
      modifies this
      ensures Valid() && todo == old(todo) - subset
      ensures Remaining() == Without(old(Remaining()), subset)
    {
      hide Proper, Chunks, Restrict, Infos, SetOf;
      WithoutDone(full, todo, subset);
      RestrictLess(linearization, todo, subset);
      RestrictLess(full, todo, subset);
      ChunksNonEmpty(depgraph, full, todo);
      assert |chunks[chunksSkip..]| == |chunks| - chunksSkip;
      todo := todo - subset;
      if GetChunk(0).transactions == subset {
        SkipChunk(depgraph, full, linearization, old(todo), chunks[chunksSkip..], subset);
        assert chunks[chunksSkip + 1..] == chunks[chunksSkip..][1..];
        chunksSkip := chunksSkip + 1;
        linearization := linearization[|subset|..];
      } else {
        chunks := [];
        chunksSkip := 0;
        BuildChunks();
      }
    }

    /**
     The shortest intersection between `subset` and a prefix of the remaining chunks whose feerate is not
     below that of `subset`.
     */
    method IntersectPrefixes(subset: SetInfo) returns (r: SetInfo, ghost j: nat)
      requires Valid() && subset.For(depgraph)
      requires subset.transactions <= todo
      ensures r.For(depgraph) && (r.transactions == {} <==> subset.transactions == {})
      ensures ShortestIntersection(depgraph, Chunks(depgraph, Remaining()), subset.transactions, r.transactions, j)
    {
      hide Graph.Valid, Graph.PositiveSizes, Chunks, Restrict, SegRate, Graph.FeeRate, FeeFrac.Plus;
      ghost var segs := Chunks(depgraph, Remaining());
      var s := subset.transactions;
      ProperRestrict(depgraph, full, todo);
      ProperSized(depgraph, Remaining());
      var acc := NO_SET;
      RateNone(depgraph);
      assert PrefixSet(segs, 0) == {} by { assert segs[..0] == []; }
      var i := 0;
      while i < NumChunksLeft()
        invariant 0 <= i <= |segs|
        invariant acc.For(depgraph) && acc.transactions == s * PrefixSet(segs, i)
        invariant forall k :: 0 <= k <= i ==>
                    s * PrefixSet(segs, k) == {} ||
                    Higher(depgraph.FeeRate(s), depgraph.FeeRate(s * PrefixSet(segs, k)))
        decreases |segs| - i
      {
        var toAdd := GetChunk(i).transactions * s;
        PrefixSetStep(segs, i);
        assert acc.transactions + toAdd == s * PrefixSet(segs, i + 1);
        if toAdd != {} {
          if acc.transactions + toAdd == s {
            assert s * PrefixSet(segs, i + 1) == s;
            j := i + 1;
            return subset, j;
          }
          PrefixDisjoint(depgraph, Remaining(), i);
          RateDisjoint(depgraph, acc.transactions, toAdd);
          acc := SetInfo(acc.transactions + toAdd, acc.feerate.Plus(depgraph.FeeRate(toAdd)));
          if !Higher(subset.feerate, acc.feerate) {
            j := i + 1;
            return acc, j;
          }
        } else {
          assert acc.transactions + toAdd == acc.transactions;
        }
        i := i + 1;
      }
      WholePrefix(depgraph, full, todo);
      assert s * PrefixSet(segs, |segs|) == s;
      return subset, |segs|;
    }
  }

  lemma NoChunks(g: Graph)
    ensures Infos(g, Chunks(g, [])) == []
  {
  }

  lemma RestrictSkip(lin: seq<nat>, todo: set<nat>)
    requires lin != [] && lin[0] !in todo
    ensures Restrict(lin[1..], todo) == Restrict(lin, todo)
  {
  }

  lemma RestrictOne(x: nat, todo: set<nat>)
    ensures Restrict([x], todo) == if x in todo then [x] else []
  {
  }

  lemma RestrictLess(lin: seq<nat>, todo: set<nat>, subset: set<nat>)
    requires subset <= todo
    ensures Restrict(lin, todo - subset) == Restrict(Restrict(lin, todo), todo - subset)
  {
    hide Restrict;
    RestrictTwice(lin, todo, todo - subset);
    assert todo * (todo - subset) == todo - subset;
  }

  lemma WithoutDone(full: seq<nat>, todo: set<nat>, subset: set<nat>)
    requires todo <= SetOf(full) && subset <= todo
    ensures Restrict(full, todo - subset) == Without(Restrict(full, todo), subset)
  {
    hide Restrict;
    RestrictMembers(full, todo);
    assert SetOf(full) * todo == todo;
    RestrictLess(full, todo, subset);
  }

  /** Removing exactly the first chunk leaves the other chunks. */
  lemma SkipChunk(g: Graph, full: seq<nat>, lin: seq<nat>, todo: set<nat>, visible: seq<SetInfo>, subset: set<nat>)
    requires Proper(g, full) && todo <= SetOf(full) && subset != {} && subset <= todo
    requires |lin| <= |full| && lin == full[|full| - |lin|..] && Restrict(lin, todo) == Restrict(full, todo)
    requires visible != [] && visible == Infos(g, Chunks(g, Restrict(full, todo))) && visible[0].transactions == subset
    ensures |subset| <= |lin|
    ensures Restrict(lin[|subset|..], todo - subset) == Restrict(full, todo - subset)
    ensures visible[1..] == Infos(g, Chunks(g, Restrict(full, todo - subset)))
  {
    hide Proper, Chunks, Restrict, SegRate;
    StripFirstChunk(g, full, lin, todo, subset);
    InfosTail(g, Chunks(g, Restrict(full, todo)));
  }

  lemma JoinInfo(g: Graph, a: seq<nat>, b: seq<nat>)
    ensures Info(g, a + b) == SetInfo(SetOf(b) + SetOf(a), SegRate(g, b).Plus(SegRate(g, a)))
  {
    SetOfConcat(a, b);
    SegRateConcat(g, a, b);
    SumCommutes(SegRate(g, a), SegRate(g, b));
  }

  lemma InfosTail(g: Graph, segs: seq<seq<nat>>)
    requires segs != []
    ensures Infos(g, segs)[1..] == Infos(g, segs[1..])
  {
  }

  lemma ChunksNonEmpty(g: Graph, full: seq<nat>, todo: set<nat>)
    requires Proper(g, full) && todo <= SetOf(full) && todo != {}
    ensures Chunks(g, Restrict(full, todo)) != [] && Infos(g, Chunks(g, Restrict(full, todo))) != []
  {
    ProperRestrict(g, full, todo);
    var lin := Restrict(full, todo);
    ProperSized(g, lin);
    ChunksChunking(g, lin);
    assert lin != [];
  }

  /** Entries at the front of a restricted list come from entries at the front of the list. */
  lemma {:induction false} RestrictPrefix(s: seq<nat>, n: nat, keep: set<nat>)
    requires n <= |s|
    ensures Restrict(s[..n], keep) <= Restrict(s, keep) && |Restrict(s[..n], keep)| <= n
    ensures |Restrict(s, keep)| <= |s|
  {
    assert s == s[..n] + s[n..];
    RestrictConcat(s[..n], s[n..], keep);
    RestrictLength(s[..n], keep);
    RestrictLength(s, keep);
  }

  lemma {:induction false} RestrictLength(s: seq<nat>, keep: set<nat>)
    ensures |Restrict(s, keep)| <= |s|
  {
    if s != [] {
      RestrictLength(s[1..], keep);
    }
  }

  /** Removing exactly the first chunk: the chunks that follow it are those of what then remains. */
  lemma StripFirstChunk(g: Graph, full: seq<nat>, lin: seq<nat>, todo: set<nat>, subset: set<nat>)
    requires Proper(g, full) && todo <= SetOf(full) && subset != {} && subset <= todo
    requires |lin| <= |full| && lin == full[|full| - |lin|..]
    requires Restrict(lin, todo) == Restrict(full, todo)
    requires Chunks(g, Restrict(full, todo)) != [] && SetOf(Chunks(g, Restrict(full, todo))[0]) == subset
    ensures |subset| <= |lin|
    ensures Restrict(lin[|subset|..], todo - subset) == Restrict(full, todo - subset)
    ensures Chunks(g, Restrict(full, todo - subset)) == Chunks(g, Restrict(full, todo))[1..]
  {
    hide *;
    var n, keep := |subset|, todo - subset;
    var first, after := FirstChunk(g, full, todo);
    RestrictLength(lin, todo);
    RemainsAfter(full, todo, first, after);
    StrippedDone(lin, first, after, todo, n);
    RemainsAfter(lin, todo, first, after);
    RestrictConcat(lin[..n], lin[n..], keep);
    assert lin == lin[..n] + lin[n..];
  }

  /** What remains splits into its first chunk and the linearization that has the other chunks. */
  lemma FirstChunk(g: Graph, full: seq<nat>, todo: set<nat>) returns (first: seq<nat>, after: seq<nat>)
    requires Proper(g, full)
    requires Chunks(g, Restrict(full, todo)) != []
    ensures Restrict(full, todo) == first + after && first == Chunks(g, Restrict(full, todo))[0]
    ensures SetOf(first) !! SetOf(after) && |SetOf(first)| == |first|
    ensures Chunks(g, after) == Chunks(g, Restrict(full, todo))[1..]
  {
    hide Graph.Valid, Graph.PositiveSizes, SegRate, Absorb, Restrict;
    var before := Restrict(full, todo);
    ProperRestrict(g, full, todo);
    ProperSized(g, before);
    ChunksDropFirst(g, before);
    first := Chunks(g, before)[0];
    after := before[|first|..];
    assert before == first + after;
    ProperParts(g, first, after);
    DistinctCount(first);
  }

  lemma RemainsAfter(s: seq<nat>, todo: set<nat>, first: seq<nat>, after: seq<nat>)
    requires Restrict(s, todo) == first + after && SetOf(first) !! SetOf(after)
    ensures Restrict(s, todo - SetOf(first)) == after
  {
    hide Restrict;
    var keep := todo - SetOf(first);
    RestrictTwice(s, todo, keep);
    assert todo * keep == keep;
    RestrictConcat(first, after, keep);
    forall x | x in first ensures x !in keep { assert x in SetOf(first); }
    RestrictNone(first, keep);
    RestrictMembers(s, todo);
    SetOfConcat(first, after);
    forall x | x in after ensures x in keep { assert x in SetOf(after); }
    RestrictAll(after, keep);
  }

  lemma StrippedDone(lin: seq<nat>, first: seq<nat>, after: seq<nat>, todo: set<nat>, n: nat)
    requires Restrict(lin, todo) == first + after && n == |first| <= |lin|
    ensures Restrict(lin[..n], todo - SetOf(first)) == []
  {
    RestrictPrefix(lin, n, todo);
    var r := Restrict(lin[..n], todo);
    assert r <= first;
    RestrictTwice(lin[..n], todo, todo - SetOf(first));
    assert todo * (todo - SetOf(first)) == todo - SetOf(first);
    forall x | x in r ensures x !in todo - SetOf(first) {
      assert x in first;
    }
    RestrictNone(r, todo - SetOf(first));
  }

  lemma PrefixSetStep(segs: seq<seq<nat>>, i: nat)
    requires i < |segs|
    ensures PrefixSet(segs, i + 1) == PrefixSet(segs, i) + SetOf(segs[i])
  {
    assert segs[..i + 1][..i] == segs[..i];
    FlattenLast(segs[..i + 1]);
    SetOfConcat(Flatten(segs[..i]), segs[i]);
  }

  lemma PrefixDisjoint(g: Graph, lin: seq<nat>, i: nat)
    requires Sized(g, lin) && Distinct(lin) && i < |Chunks(g, lin)|
    ensures PrefixSet(Chunks(g, lin), i) !! SetOf(Chunks(g, lin)[i])
  {
    var segs := Chunks(g, lin);
    ChunksChunking(g, lin);
    FlattenAround(segs, i);
    DistinctConcat(Flatten(segs[..i]) + segs[i], Flatten(segs[i + 1..]));
    DistinctConcat(Flatten(segs[..i]), segs[i]);
  }

  lemma WholePrefix(g: Graph, full: seq<nat>, todo: set<nat>)
    requires Proper(g, full) && todo <= SetOf(full)
    ensures PrefixSet(Chunks(g, Restrict(full, todo)), |Chunks(g, Restrict(full, todo))|) == todo
  {
    var lin := Restrict(full, todo);
    ProperRestrict(g, full, todo);
    ProperSized(g, lin);
    ChunksChunking(g, lin);
    var segs := Chunks(g, lin);
    assert segs[..|segs|] == segs;
  }
}
