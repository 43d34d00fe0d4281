/**
 Fee/size pairs and their orders (`src/util/feefrac.h`), and the feerate diagrams that lists of
 them describe.

 The original compares feerates by cross products only, so everything here is integer arithmetic. The
 central notion is `Gain(rate, x)`: by how much the fee of `x` exceeds what its size would pay at
 feerate `rate` (scaled by `rate.size`). It is additive in `x`, and its sign is the comparison of
 feerates.
 */
module FeeFracs {

  datatype FeeFrac = FeeFrac(fee: int, size: int) {

    predicate IsEmpty() {
      size == 0
    }

    function Plus(other: FeeFrac): FeeFrac {
      FeeFrac(fee + other.fee, size + other.size)
    }

    function Minus(other: FeeFrac): FeeFrac {
      FeeFrac(fee - other.fee, size - other.size)
    }

    /** The same size with the opposite fee. */
    function Negated(): FeeFrac {
      FeeFrac(-fee, size)
    }
  }

  const EMPTY := FeeFrac(0, 0)

  function Gain(rate: FeeFrac, x: FeeFrac): int {
    x.fee * rate.size - rate.fee * x.size
  }

  /** The operator `a >> b`: strictly higher feerate. */
  predicate Higher(a: FeeFrac, b: FeeFrac) {
    a.fee * b.size > b.fee * a.size
  }

  /** The operator `a > b`: higher feerate, or the same feerate and smaller size. */
  predicate Better(a: FeeFrac, b: FeeFrac) {
    Higher(a, b) || (!Higher(b, a) && a.size < b.size)
  }

  lemma PlusLaws(a: FeeFrac, b: FeeFrac, c: FeeFrac)
    ensures a.Plus(b).Plus(c) == a.Plus(b.Plus(c)) == a.Plus(c).Plus(b)
    ensures a.Plus(EMPTY) == EMPTY.Plus(a) == a
  {
  }

  lemma GainSum(rate: FeeFrac, a: FeeFrac, b: FeeFrac)
    ensures Gain(rate, a.Plus(b)) == Gain(rate, a) + Gain(rate, b)
  {
    assert (a.fee + b.fee) * rate.size == a.fee * rate.size + b.fee * rate.size;
    assert rate.fee * (a.size + b.size) == rate.fee * a.size + rate.fee * b.size;
  }

  /** Change of the rate against which gain is measured. */
  lemma GainChange(r: FeeFrac, q: FeeFrac, x: FeeFrac)
    ensures r.size * Gain(q, x) == q.size * Gain(r, x) + x.size * Gain(q, r)
  {
    assert r.size * (x.fee * q.size) == q.size * (x.fee * r.size);
    assert r.size * (q.fee * x.size) == x.size * (q.fee * r.size);
    assert q.size * (r.fee * x.size) == x.size * (r.fee * q.size);
    assert r.size * Gain(q, x) == r.size * (x.fee * q.size) - r.size * (q.fee * x.size);
    assert q.size * Gain(r, x) == q.size * (x.fee * r.size) - q.size * (r.fee * x.size);
    assert x.size * Gain(q, r) == x.size * (r.fee * q.size) - x.size * (q.fee * r.size);
  }

  /** `x` is at least `r`, `r` is at least `q`: `x` is at least `q`, strictly if the first step is strict. */
  lemma GainUp(r: FeeFrac, q: FeeFrac, x: FeeFrac)
    requires r.size > 0 && q.size > 0 && x.size >= 0
    requires Gain(r, x) >= 0 && Gain(q, r) >= 0
    ensures Gain(q, x) >= 0
    ensures Gain(r, x) > 0 || (Gain(q, r) > 0 && x.size > 0) ==> Gain(q, x) > 0
  {
    GainChange(r, q, x);
    assert q.size * Gain(r, x) >= 0 && x.size * Gain(q, r) >= 0;
    assert Gain(r, x) > 0 ==> q.size * Gain(r, x) > 0;
    assert Gain(q, r) > 0 && x.size > 0 ==> x.size * Gain(q, r) > 0;
  }

  /** `x` is at most `r`, `r` is at most `q`: `x` is at most `q`, strictly if one step is strict. */
  lemma GainDown(r: FeeFrac, q: FeeFrac, x: FeeFrac)
    requires r.size > 0 && q.size > 0 && x.size >= 0
    requires Gain(r, x) <= 0 && Gain(q, r) <= 0
    ensures Gain(q, x) <= 0
    ensures Gain(r, x) < 0 || (Gain(q, r) < 0 && x.size > 0) ==> Gain(q, x) < 0
  {
    GainChange(r, q, x);
    assert q.size * Gain(r, x) <= 0 && x.size * Gain(q, r) <= 0;
    assert Gain(r, x) < 0 ==> q.size * Gain(r, x) < 0;
    assert Gain(q, r) < 0 && x.size > 0 ==> x.size * Gain(q, r) < 0;
  }
}
