/**
 Chunks of a linearization: the segments of its feerate diagram's concave majorant.

 `Chunks` is the specification of `ChunkLinearization` (`src/cluster_linearize.h:396-412`) and of
 `LinearizationChunking::BuildChunks` (`:434-459`), on segments of positions. `IsChunking` says what
 a chunking is without an algorithm, and `ChunkingUnique` that there is only one.
 */
module Chunkings {
  import opened Basics
  import opened FeeFracs
  import opened Diagrams
  import opened Graphs

  function SegRate(g: Graph, seg: seq<nat>): FeeFrac {
    Total(g.Rates(seg))
  }

  function SegRates(g: Graph, segs: seq<seq<nat>>): seq<FeeFrac> {
    seq(|segs|, i requires 0 <= i < |segs| => SegRate(g, segs[i]))
  }

  function Flatten(segs: seq<seq<nat>>): seq<nat> {
    if segs == [] then [] else segs[0] + Flatten(segs[1..])
  }

  /** Append a segment, first merging it with final segments of lower feerate. */
  function Absorb(g: Graph, segs: seq<seq<nat>>, seg: seq<nat>): seq<seq<nat>>
    decreases |segs|
  {
    if segs != [] && Higher(SegRate(g, seg), SegRate(g, segs[|segs| - 1])) then
      Absorb(g, segs[..|segs| - 1], segs[|segs| - 1] + seg)
    else
      segs + [seg]
  }

  function Chunks(g: Graph, lin: seq<nat>): seq<seq<nat>> {
    if lin == [] then []
    else Absorb(g, Chunks(g, lin[..|lin| - 1]), [lin[|lin| - 1]])
  }

  /** Every proper prefix of the segment has strictly lower feerate than the segment. */
  ghost predicate Tight(g: Graph, seg: seq<nat>) {
    seg != [] && forall k :: 0 < k < |seg| ==> Higher(SegRate(g, seg), SegRate(g, seg[..k]))
  }

  ghost predicate IsChunking(g: Graph, lin: seq<nat>, segs: seq<seq<nat>>) {
    && Flatten(segs) == lin
    && (forall i :: 0 <= i < |segs| ==> Tight(g, segs[i]))
    && NonIncreasing(SegRates(g, segs))
  }

  /** All positions of `lin` are used, so their sizes are positive. */
  ghost predicate Sized(g: Graph, lin: seq<nat>) {
    forall i :: 0 <= i < |lin| ==> g.Rate(lin[i]).size > 0
  }

  // ----- Segments -----

  lemma SegRateConcat(g: Graph, a: seq<nat>, b: seq<nat>)
    ensures SegRate(g, a + b) == SegRate(g, a).Plus(SegRate(g, b))
  {
    RatesConcat(g, a, b);
    TotalConcat(g.Rates(a), g.Rates(b));
  }

  lemma SegRateOne(g: Graph, x: nat)
    ensures SegRate(g, [x]) == g.Rate(x) && g.Rates([x]) == [g.Rate(x)]
  {
    hide FeeFrac.Plus;
    var r := [g.Rate(x)];
    assert g.Rates([x]) == r && r[1..] == [];
    assert Total(r) == r[0].Plus(Total([]));
    PlusLaws(g.Rate(x), EMPTY, EMPTY);
  }

  lemma SegRatePositive(g: Graph, seg: seq<nat>)
    requires Sized(g, seg)
    ensures SegRate(g, seg).size >= 0
    ensures seg != [] ==> SegRate(g, seg).size > 0
  {
    TotalPositive(g.Rates(seg));
  }

  lemma {:induction false} FlattenConcat(a: seq<seq<nat>>, b: seq<seq<nat>>)
    ensures Flatten(a + b) == Flatten(a) + Flatten(b)
  {
    if a == [] {
      assert a + b == b;
    } else {
      var s := a + b;
      assert s[0] == a[0] && s[1..] == a[1..] + b;
      FlattenConcat(a[1..], b);
    }
  }

  lemma FlattenOne(seg: seq<nat>)
    ensures Flatten([seg]) == seg
  {
    assert [seg][1..] == [];
  }

  lemma FlattenLast(segs: seq<seq<nat>>)
    requires segs != []
    ensures Flatten(segs) == Flatten(segs[..|segs| - 1]) + segs[|segs| - 1]
  {
    var n := |segs| - 1;
    assert segs == segs[..n] + [segs[n]];
    FlattenConcat(segs[..n], [segs[n]]);
    FlattenOne(segs[n]);
  }

  // ----- Joining a segment to a lower one before it -----

  /** Two parts of a whole: one is below the whole exactly when the other is above. */
  lemma PartsOfWhole(a: FeeFrac, b: FeeFrac)
    ensures Gain(a.Plus(b), a) + Gain(a.Plus(b), b) == 0
  {
    var w := a.Plus(b);
    GainSum(w, a, b);
    assert Gain(w, w) == 0;
  }

  /** `b` is above `a`, so their union is between them. */
  lemma UnionBetween(a: FeeFrac, b: FeeFrac)
    requires a.size > 0 && b.size > 0 && Higher(b, a)
    ensures Higher(a.Plus(b), a) && Higher(b, a.Plus(b))
  {
    GainSum(a, a, b);
    assert Gain(a, a) == 0;
    assert Gain(a, a.Plus(b)) > 0;
    PartsOfWhole(a, b);
  }

  /** A whole above its first part is below its second, and conversely. */
  lemma WholeBetween(a: FeeFrac, b: FeeFrac)
    ensures Higher(a.Plus(b), a) <==> Higher(b, a.Plus(b))
  {
    PartsOfWhole(a, b);
  }

  lemma TightJoinInner(a: FeeFrac, b: FeeFrac, r: FeeFrac)
    requires a.size > 0 && b.size > 0 && r.size > 0
    requires Higher(b.Plus(r), a) && Higher(b.Plus(r), b)
    ensures Higher(a.Plus(b.Plus(r)), a.Plus(b))
  {
    var c := b.Plus(r);
    var w := a.Plus(c);
    UnionBetween(a, c);
    WholeBetween(b, r);
    assert Gain(c, r) > 0 && Gain(w, c) > 0;
    GainUp(c, w, r);
    PlusLaws(a, b, r);
    PartsOfWhole(a.Plus(b), r);
  }

  lemma TightJoinAt(g: Graph, a: seq<nat>, b: seq<nat>, k: nat)
    requires Sized(g, a) && Sized(g, b) && Tight(g, a) && Tight(g, b)
    requires Higher(SegRate(g, b), SegRate(g, a))
    requires 0 < k < |a + b|
    ensures Higher(SegRate(g, a + b), SegRate(g, (a + b)[..k]))
  {
    hide SegRate, FeeFrac.Plus;
    SegRateConcat(g, a, b);
    var ra, rb := SegRate(g, a), SegRate(g, b);
    SegRatePositive(g, a);
    SegRatePositive(g, b);
    UnionBetween(ra, rb);
    if k <= |a| {
      assert (a + b)[..k] == a[..k];
      if k < |a| {
        var p := SegRate(g, a[..k]);
        SegRatePositive(g, a[..k]);
        assert Gain(ra, p) < 0 && Gain(ra.Plus(rb), ra) < 0;
        assert ra.Plus(rb).size > 0 by { SizeOfSum(ra, rb); }
        GainDown(ra, ra.Plus(rb), p);
      } else {
        assert a[..k] == a;
      }
    } else {
      var m := k - |a|;
      assert (a + b)[..k] == a + b[..m];
      assert b == b[..m] + b[m..];
      SegRateConcat(g, a, b[..m]);
      SegRateConcat(g, b[..m], b[m..]);
      SegRatePositive(g, b[..m]);
      SegRatePositive(g, b[m..]);
      TightJoinInner(ra, SegRate(g, b[..m]), SegRate(g, b[m..]));
    }
  }

  lemma SizeOfSum(a: FeeFrac, b: FeeFrac)
    ensures a.Plus(b).size == a.size + b.size
  {
  }

  lemma TightJoin(g: Graph, a: seq<nat>, b: seq<nat>)
    requires Sized(g, a) && Sized(g, b) && Tight(g, a) && Tight(g, b)
    requires Higher(SegRate(g, b), SegRate(g, a))
    ensures Tight(g, a + b)
  {
    forall k | 0 < k < |a + b| ensures Higher(SegRate(g, a + b), SegRate(g, (a + b)[..k])) {
      TightJoinAt(g, a, b, k);
    }
  }

  // ----- The algorithm yields a chunking -----

  lemma DropLast(g: Graph, segs: seq<seq<nat>>)
    requires segs != [] && NonIncreasing(SegRates(g, segs))
    ensures NonIncreasing(SegRates(g, segs[..|segs| - 1]))
    ensures NonIncreasing(SegRates(g, segs[1..]))
  {
    var n := |segs| - 1;
    var rs, hd, tl := SegRates(g, segs), SegRates(g, segs[..n]), SegRates(g, segs[1..]);
    forall i | 0 < i < n ensures !Higher(hd[i], hd[i - 1]) { assert !Higher(rs[i], rs[i - 1]); }
    forall i | 0 < i < n ensures !Higher(tl[i], tl[i - 1]) { assert !Higher(rs[i + 1], rs[i]); }
  }

  lemma {:induction false} AbsorbChunking(g: Graph, segs: seq<seq<nat>>, seg: seq<nat>)
    requires IsChunking(g, Flatten(segs), segs) && Sized(g, Flatten(segs) + seg)
    requires Tight(g, seg)
    ensures IsChunking(g, Flatten(segs) + seg, Absorb(g, segs, seg))
    decreases |segs|
  {
    if segs != [] && Higher(SegRate(g, seg), SegRate(g, segs[|segs| - 1])) {
      var n := |segs| - 1;
      var front, last := segs[..n], segs[n];
      FlattenLast(segs);
      DropLast(g, segs);
      SizedParts(g, Flatten(front), last, seg);
      TightJoin(g, last, seg);
      assert Flatten(segs) + seg == Flatten(front) + (last + seg);
      AbsorbChunking(g, front, last + seg);
    } else {
      FlattenConcat(segs, [seg]);
      FlattenOne(seg);
      var rs := SegRates(g, segs + [seg]);
      forall i | 0 < i < |rs| ensures !Higher(rs[i], rs[i - 1]) {
        if i < |segs| { assert !Higher(SegRates(g, segs)[i], SegRates(g, segs)[i - 1]); }
      }
    }
  }

  lemma SizedParts(g: Graph, a: seq<nat>, b: seq<nat>, c: seq<nat>)
    requires Sized(g, a + b + c)
    ensures Sized(g, a) && Sized(g, b) && Sized(g, c) && Sized(g, a + (b + c))
  {
    var s := a + b + c;
    assert s == a + (b + c);
    forall i | 0 <= i < |a| ensures g.Rate(a[i]).size > 0 { assert s[i] == a[i]; }
    forall i | 0 <= i < |b| ensures g.Rate(b[i]).size > 0 { assert s[|a| + i] == b[i]; }
    forall i | 0 <= i < |c| ensures g.Rate(c[i]).size > 0 { assert s[|a| + |b| + i] == c[i]; }
  }

  /** The chunks of a linearization form its chunking. */
  lemma {:induction false} ChunksChunking(g: Graph, lin: seq<nat>)
    requires Sized(g, lin)
    ensures IsChunking(g, lin, Chunks(g, lin))
  {
    if lin != [] {
      var n := |lin| - 1;
      ChunksChunking(g, lin[..n]);
      assert lin == lin[..n] + [lin[n]];
      AbsorbChunking(g, Chunks(g, lin[..n]), [lin[n]]);
    }
  }

  // ----- Peaks and uniqueness -----

  /** Inside a tight segment no prefix gains more than nothing or the whole. */
  lemma TightPeak(g: Graph, seg: seq<nat>, rate: FeeFrac)
    requires Sized(g, seg) && Tight(g, seg) && rate.size > 0
    ensures Peak(rate, g.Rates(seg)) == Max(0, Gain(rate, SegRate(g, seg)))
  {
    var rs := g.Rates(seg);
    var k := PeakIsBestPrefix(rate, rs);
    assert Gain(rate, EMPTY) == 0;
    if k == 0 {
      assert rs[..k] == [];
      assert rs[..|rs|] == rs;
    } else if k == |seg| {
      assert rs[..k] == rs;
      assert rs[..0] == [];
    } else {
      var p, r := SegRate(g, seg[..k]), SegRate(g, seg[k..]);
      assert rs[..k] == g.Rates(seg[..k]);
      TightPeakAt(g, seg, rate, k);
      assert rs[..|rs|] == rs && rs[..0] == [];
    }
  }

  lemma TightPeakAt(g: Graph, seg: seq<nat>, rate: FeeFrac, k: nat)
    requires Sized(g, seg) && Tight(g, seg) && rate.size > 0 && 0 < k < |seg|
    ensures Gain(rate, SegRate(g, seg[..k])) <= Max(0, Gain(rate, SegRate(g, seg)))
  {
    hide SegRate, FeeFrac.Plus;
    var p, r, w := SegRate(g, seg[..k]), SegRate(g, seg[k..]), SegRate(g, seg);
    assert seg == seg[..k] + seg[k..];
    SegRateConcat(g, seg[..k], seg[k..]);
    SegRatePositive(g, seg[..k]);
    SegRatePositive(g, seg[k..]);
    SegRatePositive(g, seg);
    if Gain(rate, p) > 0 {
      assert Gain(p, w) > 0;
      GainUp(p, rate, w);
      WholeBetween(p, r);
      GainUp(w, rate, r);
      GainSum(rate, p, r);
    }
  }

  lemma {:induction false} ChunkingPeak(g: Graph, segs: seq<seq<nat>>, rate: FeeFrac)
    requires Sized(g, Flatten(segs)) && rate.size > 0
    requires forall i :: 0 <= i < |segs| ==> Tight(g, segs[i])
    ensures Peak(rate, g.Rates(Flatten(segs))) == Peak(rate, SegRates(g, segs))
  {
    if segs != [] {
      var rest := Flatten(segs[1..]);
      SizedParts(g, segs[0], rest, []);
      assert segs[0] + rest + [] == segs[0] + rest;
      ChunkingPeak(g, segs[1..], rate);
      TightPeak(g, segs[0], rate);
      RatesConcat(g, segs[0], rest);
      PeakConcat(rate, g.Rates(segs[0]), g.Rates(rest));
      assert SegRates(g, segs)[1..] == SegRates(g, segs[1..]);
      PeakNonNegative(rate, SegRates(g, segs[1..]));
    }
  }

  lemma ChunkingPositive(g: Graph, segs: seq<seq<nat>>)
    requires Sized(g, Flatten(segs))
    requires forall i :: 0 <= i < |segs| ==> segs[i] != []
    ensures AllPositive(SegRates(g, segs))
  {
    forall i | 0 <= i < |segs| ensures SegRate(g, segs[i]).size > 0 {
      FlattenAround(segs, i);
      SizedParts(g, Flatten(segs[..i]), segs[i], Flatten(segs[i + 1..]));
      SegRatePositive(g, segs[i]);
    }
  }

  lemma FlattenAround(segs: seq<seq<nat>>, i: nat)
    requires i < |segs|
    ensures Flatten(segs) == Flatten(segs[..i]) + segs[i] + Flatten(segs[i + 1..])
  {
    assert segs == segs[..i] + segs[i..];
    FlattenConcat(segs[..i], segs[i..]);
    assert segs[i..][1..] == segs[i + 1..];
  }

  /** The first chunk has the highest feerate of all prefixes. */
  lemma FirstChunkBest(g: Graph, lin: seq<nat>, segs: seq<seq<nat>>, k: nat)
    requires Sized(g, lin) && IsChunking(g, lin, segs) && 0 < k <= |lin|
    ensures segs != [] && !Higher(SegRate(g, lin[..k]), SegRate(g, segs[0]))
  {
    assert segs != [];
    var rate := SegRate(g, segs[0]);
    ChunkingPositive(g, segs);
    var rs := SegRates(g, segs);
    assert rs[0] == rate && !Higher(rate, rate);
    PeakFlat(rate, rs);
    ChunkingPeak(g, segs, rate);
    var m := PeakIsBestPrefix(rate, g.Rates(lin));
    assert g.Rates(lin)[..k] == g.Rates(lin[..k]);
  }

  lemma FirstChunkNoLonger(g: Graph, lin: seq<nat>, a: seq<seq<nat>>, b: seq<seq<nat>>)
    requires Sized(g, lin) && IsChunking(g, lin, a) && IsChunking(g, lin, b) && a != [] && b != []
    ensures |a[0]| <= |b[0]|
  {
    if |a[0]| > |b[0]| {
      var k := |b[0]|;
      assert lin[..k] == b[0] && a[0][..k] == b[0];
      assert lin[..|a[0]|] == a[0];
      assert Higher(SegRate(g, a[0]), SegRate(g, a[0][..k]));
      FirstChunkBest(g, lin, b, |a[0]|);
      assert false;
    }
  }

  lemma {:induction false} ChunkingUnique(g: Graph, lin: seq<nat>, a: seq<seq<nat>>, b: seq<seq<nat>>)
    requires Sized(g, lin) && IsChunking(g, lin, a) && IsChunking(g, lin, b)
    ensures a == b
    decreases |a|
  {
    if a != [] && b != [] {
      FirstChunkNoLonger(g, lin, a, b);
      FirstChunkNoLonger(g, lin, b, a);
      var k := |a[0]|;
      assert a[0] == lin[..k] == b[0];
      assert Flatten(a[1..]) == lin[k..] == Flatten(b[1..]);
      DropLast(g, a);
      DropLast(g, b);
      ChunkingUnique(g, lin[k..], a[1..], b[1..]);
      assert a == [a[0]] + a[1..] && b == [b[0]] + b[1..];
    }
  }

  /** Without its first chunk, a linearization has the remaining chunks. */
  lemma ChunksDropFirst(g: Graph, lin: seq<nat>)
    requires Sized(g, lin) && lin != []
    ensures Chunks(g, lin) != [] && Chunks(g, lin)[0] <= lin
    ensures Chunks(g, lin[|Chunks(g, lin)[0]|..]) == Chunks(g, lin)[1..]
  {
    var segs := Chunks(g, lin);
    ChunksChunking(g, lin);
    var rest := lin[|segs[0]|..];
    assert Flatten(segs[1..]) == rest;
    DropLast(g, segs);
    ChunksChunking(g, rest);
    ChunkingUnique(g, rest, segs[1..], Chunks(g, rest));
  }
}
