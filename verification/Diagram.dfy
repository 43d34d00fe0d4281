/**
 Feerate diagrams (`src/util/feefrac.h:223-231`): the piecewise linear curve through the cumulative
 (size, fee) points of a list of fee/size pairs, extended horizontally to the right.

 `Peak(rate, fs)` is the largest gain of any prefix of `fs` at a feerate. `PeaksDecide` shows that
 comparing peaks at every feerate is the same as comparing diagrams at every size, which is the form
 in which all improvement guarantees of the cluster code are proved.
 */
module Diagrams {
  import opened Basics
  import opened FeeFracs

  function Total(fs: seq<FeeFrac>): FeeFrac {
    if fs == [] then EMPTY else fs[0].Plus(Total(fs[1..]))
  }

  predicate AllPositive(fs: seq<FeeFrac>) {
    forall i :: 0 <= i < |fs| ==> fs[i].size > 0
  }

  /** No entry has a higher feerate than its predecessor. */
  predicate NonIncreasing(fs: seq<FeeFrac>) {
    forall i :: 0 < i < |fs| ==> !Higher(fs[i], fs[i - 1])
  }

  function DiagramAt(fs: seq<FeeFrac>, x: real): real
    requires AllPositive(fs)
  {
    if fs == [] then 0.0
    else if x <= fs[0].size as real then fs[0].fee as real * (x / fs[0].size as real)
    else fs[0].fee as real + DiagramAt(fs[1..], x - fs[0].size as real)
  }

  /** Diagram `a` lies nowhere below diagram `b`. */
  ghost predicate NowhereBelow(a: seq<FeeFrac>, b: seq<FeeFrac>)
    requires AllPositive(a) && AllPositive(b)
  {
    forall x: real :: 0.0 <= x ==> DiagramAt(a, x) >= DiagramAt(b, x)
  }

  function Peak(rate: FeeFrac, fs: seq<FeeFrac>): int {
    if fs == [] then 0 else Max(0, Gain(rate, fs[0]) + Peak(rate, fs[1..]))
  }

  /** `a` is at least as good as `b` at every feerate. */
  ghost predicate Dominates(a: seq<FeeFrac>, b: seq<FeeFrac>) {
    forall rate: FeeFrac :: rate.size > 0 ==> Peak(rate, a) >= Peak(rate, b)
  }

  // ----- Sums -----

  lemma {:induction false} TotalConcat(a: seq<FeeFrac>, b: seq<FeeFrac>)
    ensures Total(a + b) == Total(a).Plus(Total(b))
  {
    hide FeeFrac.Plus;
    if a == [] {
      assert a + b == b;
      PlusLaws(Total(b), EMPTY, EMPTY);
    } else {
      PlusLaws(a[0], Total(a[1..]), Total(b));
      var s := a + b;
      assert s[0] == a[0] && s[1..] == a[1..] + b;
      TotalConcat(a[1..], b);
    }
  }

  lemma {:induction false} TotalPositive(fs: seq<FeeFrac>)
    requires AllPositive(fs)
    ensures Total(fs).size >= 0
    ensures fs != [] ==> Total(fs).size > 0
  {
    if fs != [] {
      TotalPositive(fs[1..]);
    }
  }

  lemma {:induction false} TotalGain(rate: FeeFrac, fs: seq<FeeFrac>)
    ensures Gain(rate, Total(fs)) <= Peak(rate, fs)
  {
    if fs != [] {
      TotalGain(rate, fs[1..]);
      GainSum(rate, fs[0], Total(fs[1..]));
    } else {
      assert Gain(rate, EMPTY) == 0;
    }
  }

  lemma {:induction false} PeakConcat(rate: FeeFrac, a: seq<FeeFrac>, b: seq<FeeFrac>)
    ensures Peak(rate, a + b) == Max(Peak(rate, a), Gain(rate, Total(a)) + Peak(rate, b))
  {
    if a == [] {
      assert a + b == b;
      assert Gain(rate, EMPTY) == 0;
    } else {
      PeakConcat(rate, a[1..], b);
      assert (a + b)[1..] == a[1..] + b;
      GainSum(rate, a[0], Total(a[1..]));
    }
  }

  lemma PeakAppend(rate: FeeFrac, a: seq<FeeFrac>, x: FeeFrac)
    ensures Total(a + [x]) == Total(a).Plus(x)
    ensures Peak(rate, a + [x]) == Max(Peak(rate, a), Gain(rate, Total(a)) + Gain(rate, x))
  {
    TotalConcat(a, [x]);
    PeakConcat(rate, a, [x]);
    TotalGain(rate, a);
    assert [x][1..] == [];
    PlusLaws(x, EMPTY, EMPTY);
  }

  /** No prefix gains more than the peak, and some prefix reaches it. */
  lemma {:induction false} PeakIsBestPrefix(rate: FeeFrac, fs: seq<FeeFrac>) returns (k: nat)
    ensures k <= |fs| && Gain(rate, Total(fs[..k])) == Peak(rate, fs)
    ensures forall i :: 0 <= i <= |fs| ==> Gain(rate, Total(fs[..i])) <= Peak(rate, fs)
  {
    forall i | 0 <= i <= |fs|
      ensures Gain(rate, Total(fs[..i])) <= Peak(rate, fs)
    {
      TotalGain(rate, fs[..i]);
      assert fs == fs[..i] + fs[i..];
      PeakConcat(rate, fs[..i], fs[i..]);
    }
    if fs == [] || Peak(rate, fs) == 0 {
      k := 0;
      assert fs[..0] == [] && Gain(rate, EMPTY) == 0;
    } else {
      var m := PeakIsBestPrefix(rate, fs[1..]);
      k := m + 1;
      assert fs[..k][1..] == fs[1..][..m];
      GainSum(rate, fs[0], Total(fs[1..][..m]));
    }
  }

  /** Only the first of two neighbours being below the second, their boundary never decides a peak. */
  lemma PeakOfPair(rate: FeeFrac, a: FeeFrac, b: FeeFrac)
    requires rate.size > 0 && a.size > 0 && b.size > 0
    requires !Higher(a, b)
    ensures Gain(rate, a) <= Max(0, Gain(rate, a) + Gain(rate, b))
  {
    if Gain(rate, a) > 0 {
      assert Gain(a, b) >= 0;
      GainUp(a, rate, b);
    }
  }

  // ----- Diagrams -----

  lemma {:induction false} DiagramBeyond(fs: seq<FeeFrac>, x: real)
    requires AllPositive(fs)
    requires x >= Total(fs).size as real
    ensures x >= 0.0 ==> DiagramAt(fs, x) == Total(fs).fee as real
  {
    if fs != [] {
      TotalPositive(fs[1..]);
      if x <= fs[0].size as real {
        assert x == fs[0].size as real;
        assert x / fs[0].size as real == 1.0;
      } else {
        DiagramBeyond(fs[1..], x - fs[0].size as real);
      }
    }
  }

  /** The diagram's height above the line of slope `rate` through the origin, scaled by `rate.size`. */
  function Height(rate: FeeFrac, fs: seq<FeeFrac>, x: real): real
    requires AllPositive(fs)
  {
    rate.size as real * DiagramAt(fs, x) - rate.fee as real * x
  }

  lemma HeightFirst(rate: FeeFrac, fs: seq<FeeFrac>, x: real) returns (t: real)
    requires AllPositive(fs) && fs != []
    requires 0.0 <= x <= fs[0].size as real
    ensures 0.0 <= t <= 1.0 && Height(rate, fs, x) == t * Gain(rate, fs[0]) as real
  {
    var s := fs[0].size as real;
    var f := fs[0].fee as real;
    t := x / s;
    assert x == t * s;
    assert Height(rate, fs, x) == rate.size as real * (f * t) - rate.fee as real * (t * s);
    assert Height(rate, fs, x) == t * (f * rate.size as real - rate.fee as real * s);
  }

  lemma HeightRest(rate: FeeFrac, fs: seq<FeeFrac>, x: real)
    requires AllPositive(fs) && fs != []
    requires fs[0].size as real < x
    ensures Height(rate, fs, x) == Gain(rate, fs[0]) as real + Height(rate, fs[1..], x - fs[0].size as real)
  {
    var s := fs[0].size as real;
    var f := fs[0].fee as real;
    var d := DiagramAt(fs[1..], x - s);
    assert rate.size as real * (f + d) == f * rate.size as real + rate.size as real * d;
    assert rate.fee as real * x == rate.fee as real * (x - s) + rate.fee as real * s;
  }

  lemma {:induction false} HeightAtMostPeak(rate: FeeFrac, fs: seq<FeeFrac>, x: real)
    requires AllPositive(fs)
    requires 0.0 <= x <= Total(fs).size as real
    ensures Height(rate, fs, x) <= Peak(rate, fs) as real
  {
    if fs != [] {
      if x <= fs[0].size as real {
        var t := HeightFirst(rate, fs, x);
        var g := Gain(rate, fs[0]);
        ScaledDown(t, g as real);
        PeakNonNegative(rate, fs[1..]);
        assert Max(0, g) <= Peak(rate, fs);
      } else {
        HeightRest(rate, fs, x);
        HeightAtMostPeak(rate, fs[1..], x - fs[0].size as real);
      }
    }
  }

  lemma ScaledDown(t: real, g: real)
    requires 0.0 <= t <= 1.0
    ensures t * g <= (if g < 0.0 then 0.0 else g)
  {
    if g >= 0.0 {
      assert (1.0 - t) * g >= 0.0;
    } else {
      assert t * -g >= 0.0;
    }
  }

  lemma PeakNonNegative(rate: FeeFrac, fs: seq<FeeFrac>)
    ensures Peak(rate, fs) >= 0
  {
  }

  /** At feerates no entry exceeds, nothing is gained. */
  lemma {:induction false} PeakFlat(rate: FeeFrac, fs: seq<FeeFrac>)
    requires rate.size > 0 && AllPositive(fs) && NonIncreasing(fs)
    requires fs != [] ==> !Higher(fs[0], rate)
    ensures Peak(rate, fs) == 0
    ensures forall i :: 0 <= i < |fs| ==> !Higher(fs[i], rate)
  {
    if fs != [] {
      if |fs| > 1 {
        assert Gain(fs[0], fs[1]) <= 0 && Gain(rate, fs[0]) <= 0;
        GainDown(fs[0], rate, fs[1]);
      }
      PeakFlat(rate, fs[1..]);
      forall i | 0 <= i < |fs| ensures !Higher(fs[i], rate) {
        if i > 0 { assert fs[i] == fs[1..][i - 1]; }
      }
    }
  }

  /** Every point of a concave diagram touches the line of one of its own feerates. */
  lemma {:induction false} Tangent(fs: seq<FeeFrac>, x: real) returns (rate: FeeFrac)
    requires AllPositive(fs) && NonIncreasing(fs) && fs != []
    requires 0.0 <= x <= Total(fs).size as real
    ensures rate.size > 0 && !Higher(rate, fs[0])
    ensures Height(rate, fs, x) == Peak(rate, fs) as real
  {
    if x <= fs[0].size as real {
      rate := fs[0];
      var t := HeightFirst(rate, fs, x);
      PeakFlat(rate, fs);
    } else {
      if fs[1..] == [] { assert false; }
      rate := Tangent(fs[1..], x - fs[0].size as real);
      HeightRest(rate, fs, x);
      assert !Higher(fs[1], fs[0]);
      assert Gain(fs[1], fs[0]) >= 0 && Gain(rate, fs[1]) >= 0;
      GainUp(fs[1], rate, fs[0]);
      PeakNonNegative(rate, fs[1..]);
    }
  }

  lemma ProductSign(u: real, v: real)
    requires u >= 0.0 && v >= 0.0
    ensures u * v >= 0.0
    ensures u > 0.0 && v > 0.0 ==> u * v > 0.0
  {
  }

  lemma HigherAtScale(s: real, p: real, q: real, shift: real)
    requires s > 0.0 && s * p - shift >= s * q - shift
    ensures p >= q
  {
    if p < q {
      ProductSign(s, q - p);
      assert false;
    }
  }

  lemma PeaksToDiagramInside(a: seq<FeeFrac>, b: seq<FeeFrac>, x: real)
    requires AllPositive(a) && AllPositive(b) && NonIncreasing(a)
    requires Dominates(a, b)
    requires a != [] && 0.0 <= x <= Total(a).size as real && Total(a).size == Total(b).size
    ensures DiagramAt(a, x) >= DiagramAt(b, x)
  {
    hide DiagramAt, Peak, Total;
    var rate := Tangent(a, x);
    var da, db := DiagramAt(a, x), DiagramAt(b, x);
    assert Height(rate, b, x) <= Height(rate, a, x) by { HeightAtMostPeak(rate, b, x); }
    HigherAtScale(rate.size as real, da, db, rate.fee as real * x);
  }

  lemma PeaksToDiagramAt(a: seq<FeeFrac>, b: seq<FeeFrac>, x: real)
    requires AllPositive(a) && AllPositive(b) && NonIncreasing(a)
    requires Total(a).size == Total(b).size && Total(a).fee >= Total(b).fee
    requires Dominates(a, b)
    requires 0.0 <= x
    ensures DiagramAt(a, x) >= DiagramAt(b, x)
  {
    if x >= Total(a).size as real {
      DiagramBeyond(a, x);
      DiagramBeyond(b, x);
    } else {
      PeaksToDiagramInside(a, b, x);
    }
  }

  lemma {:induction false} PrefixSize(fs: seq<FeeFrac>, k: nat)
    requires AllPositive(fs) && k <= |fs|
    ensures 0 <= Total(fs[..k]).size <= Total(fs).size
  {
    hide Total;
    var a, b := fs[..k], fs[k..];
    assert fs == a + b;
    TotalPositive(a);
    TotalPositive(b);
    TotalConcat(a, b);
  }

  lemma {:induction false} DiagramAtPrefix(fs: seq<FeeFrac>, k: nat)
    requires AllPositive(fs) && k <= |fs|
    ensures DiagramAt(fs, Total(fs[..k]).size as real) == Total(fs[..k]).fee as real
  {
    if k == 0 {
      assert fs[..0] == [];
      if fs != [] { assert 0.0 / fs[0].size as real == 0.0; }
    } else {
      var rest := Total(fs[1..][..k - 1]);
      assert fs[..k][1..] == fs[1..][..k - 1];
      assert Total(fs[..k]) == fs[0].Plus(rest);
      TotalPositive(fs[1..][..k - 1]);
      if rest.size == 0 {
        assert k == 1 && rest == EMPTY;
        assert fs[0].size as real / fs[0].size as real == 1.0;
      } else {
        DiagramAtPrefix(fs[1..], k - 1);
      }
    }
  }

  lemma DiagramsToPeak(a: seq<FeeFrac>, b: seq<FeeFrac>, rate: FeeFrac)
    requires AllPositive(a) && AllPositive(b)
    requires Total(a) == Total(b)
    requires NowhereBelow(a, b) && rate.size > 0
    ensures Peak(rate, a) >= Peak(rate, b)
  {
    hide DiagramAt, Peak, Total;
    var k := PeakIsBestPrefix(rate, b);
    var p := Total(b[..k]);
    PrefixSize(b, k);
    DiagramAtPrefix(b, k);
    var d := DiagramAt(a, p.size as real);
    assert d >= p.fee as real;
    GainBelowHeight(rate, p, d);
    HeightAtMostPeak(rate, a, p.size as real);
  }

  lemma GainBelowHeight(rate: FeeFrac, p: FeeFrac, d: real)
    requires rate.size > 0 && d >= p.fee as real
    ensures Gain(rate, p) as real <= rate.size as real * d - rate.fee as real * p.size as real
  {
    ProductSign(d - p.fee as real, rate.size as real);
    assert Gain(rate, p) as real == p.fee as real * rate.size as real - rate.fee as real * p.size as real;
  }

  /** A concave diagram lies nowhere below another exactly when no feerate's peak is lower. */
  lemma PeaksDecide(a: seq<FeeFrac>, b: seq<FeeFrac>)
    requires AllPositive(a) && AllPositive(b) && NonIncreasing(a)
    requires Total(a) == Total(b)
    ensures NowhereBelow(a, b) <==> Dominates(a, b)
  {
    if Dominates(a, b) {
      forall x: real | 0.0 <= x ensures DiagramAt(a, x) >= DiagramAt(b, x) {
        PeaksToDiagramAt(a, b, x);
      }
    }
    if NowhereBelow(a, b) {
      forall rate: FeeFrac | rate.size > 0 ensures Peak(rate, a) >= Peak(rate, b) {
        DiagramsToPeak(a, b, rate);
      }
    }
  }
}
