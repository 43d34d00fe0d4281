/**
 Numbers as lists of 32-bit limbs, least significant first (`src/arith_uint256.h:24-31`), for any number
 of limbs: values, carries, and the bitwise operations on single limbs.
 */
module Limbs {
  import opened Basics
  import opened Positional

  const BASE: nat := 0x1_0000_0000

  ghost predicate IsLimbs(s: seq<nat>) {
    forall i :: 0 <= i < |s| ==> s[i] < BASE
  }

  /** The value of the `k` lowest limbs. */
  ghost function Below(s: seq<nat>, k: nat): nat
    requires k <= |s|
  {
    if k == 0 then 0 else Below(s, k - 1) + s[k - 1] * Pow(BASE, k - 1)
  }

  ghost function Value(s: seq<nat>): nat {
    Below(s, |s|)
  }

  lemma {:induction false} BelowBound(s: seq<nat>, k: nat)
    requires IsLimbs(s) && k <= |s|
    ensures Below(s, k) < Pow(BASE, k)
  {
    if k > 0 {
      BelowBound(s, k - 1);
      var p := Pow(BASE, k - 1);
      Scale(p, s[k - 1] + 1, BASE);
      assert p * (s[k - 1] + 1) == s[k - 1] * p + p;
    }
  }

  lemma {:induction false} BelowSame(s: seq<nat>, t: seq<nat>, k: nat)
    requires k <= |s| && k <= |t| && forall i :: 0 <= i < k ==> s[i] == t[i]
    ensures Below(s, k) == Below(t, k)
  {
    if k > 0 {
      BelowSame(s, t, k - 1);
    }
  }

  lemma {:induction false} BelowUpdate(s: seq<nat>, k: nat, i: nat, x: nat)
    requires i < k <= |s|
    ensures Below(s[i := x], k) == Below(s, k) + (x - s[i]) * Pow(BASE, i)
  {
    hide Pow;
    var t := s[i := x];
    if i == k - 1 {
      BelowSame(s, t, i);
      var p := Pow(BASE, i);
      assert x * p == s[i] * p + (x - s[i]) * p;
    } else {
      BelowUpdate(s, k - 1, i, x);
    }
  }

  lemma {:induction false} BelowZero(s: seq<nat>, k: nat, m: nat)
    requires k <= m <= |s| && forall i :: k <= i < m ==> s[i] == 0
    ensures Below(s, m) == Below(s, k)
    decreases m
  {
    if k < m {
      BelowZero(s, k, m - 1);
      assert 0 * Pow(BASE, m - 1) == 0;
    }
  }

  /** One limb of a carry loop: the limb takes what fits, the carry the rest. */
  lemma CarryStep(s: seq<nat>, i: nat, carry: nat, add: int, n: nat)
    requires i < |s| && n == carry + s[i] + add
    ensures n / BASE >= 0 && n % BASE >= 0
    ensures Value(s[i := n % BASE]) + (n / BASE) * Pow(BASE, i + 1) ==
            Value(s) + carry * Pow(BASE, i) + add * Pow(BASE, i)
  {
    hide Pow;
    var r, q, p := n % BASE, n / BASE, Pow(BASE, i);
    assert n == q * BASE + r;
    BelowUpdate(s, |s|, i, r);
    PowNext(i);
    CarryAlgebra(s[i], carry, add, q, r, p, BASE);
  }

  lemma PowNext(i: nat)
    ensures Pow(BASE, i + 1) == BASE * Pow(BASE, i)
  {
  }

  lemma CarryAlgebra(before: int, carry: int, add: int, q: int, r: int, p: int, b: int)
    requires q * b + r == carry + before + add
    ensures (r - before) * p + q * (b * p) == carry * p + add * p
  {
    assert q * (b * p) == q * b * p;
    assert (r - before) * p + q * b * p == (r - before + q * b) * p;
    assert (carry + add) * p == carry * p + add * p;
  }

  /** A number below the modulus that differs from another by a multiple of it is its remainder. */
  lemma IsRemainder(v: nat, k: int, m: nat, x: int)
    requires v < m && x == v + k * m
    ensures x % m == v
  {
    var q, r := x / m, x % m;
    assert x == m * q + r;
    if q < k {
      Scale(m, q + 1, k);
    } else if q > k {
      Scale(m, k + 1, q);
    }
    assert k * m == m * k;
  }

  // ----- Bitwise or -----

  function Or(x: nat, y: nat): nat
    decreases x + y
  {
    if x == 0 && y == 0 then 0
    else 2 * Or(x / 2, y / 2) + if x % 2 == 1 || y % 2 == 1 then 1 else 0
  }

  /** Numbers that share no bit are added. */
  lemma {:induction false} OrDisjoint(x: nat, y: nat, k: nat)
    requires x < Pow(2, k) && y % Pow(2, k) == 0
    ensures Or(x, y) == x + y
    decreases k
  {
    if k == 0 {
      OrZero(y);
    } else {
      var p := Pow(2, k - 1);
      var q := y / (2 * p);
      assert y == 2 * p * q;
      HalfMultiple(y, p, q);
      assert x / 2 < p;
      OrDisjoint(x / 2, y / 2, k - 1);
      OrHalves(x, y);
    }
  }

  lemma OrHalves(x: nat, y: nat)
    requires y % 2 == 0 && Or(x / 2, y / 2) == x / 2 + y / 2
    ensures Or(x, y) == x + y
  {
  }

  lemma HalfMultiple(y: nat, p: nat, q: nat)
    requires p > 0 && y == 2 * p * q
    ensures y % 2 == 0 && y / 2 == p * q && (y / 2) % p == 0
  {
    assert y == 2 * (p * q);
    NonNegative(p, q);
    IsRemainder(0, q, p, p * q);
  }

  lemma {:induction false} OrZero(y: nat)
    ensures Or(0, y) == y
  {
    if y > 0 {
      OrZero(y / 2);
    }
  }

  /** Setting a bit of a limb whose bits up to it are clear. */
  lemma OrBit(y: nat, k: nat)
    requires y % Pow(2, k + 1) == 0
    ensures Pow(2, k + 1) > 0 && Or(y, Pow(2, k)) == y + Pow(2, k)
  {
    PowStrict(2, k, k + 1);
    OrDisjoint(Pow(2, k), y, k + 1);
    OrCommutes(y, Pow(2, k));
  }

  lemma {:induction false} OrCommutes(x: nat, y: nat)
    ensures Or(x, y) == Or(y, x)
    decreases x + y
  {
    if x != 0 || y != 0 {
      OrCommutes(x / 2, y / 2);
    }
  }

  // ----- Comparison -----

  lemma TopLimb(low: nat, low': nat, d: nat, d': nat, p: nat)
    requires low < p && d < d'
    ensures low + d * p < low' + d' * p
  {
    Scale(p, d + 1, d');
    assert p * (d + 1) == d * p + p;
  }

  /** The highest limb that differs decides. */
  lemma {:induction false} CompareAt(s: seq<nat>, t: seq<nat>, i: nat, k: nat)
    requires IsLimbs(s) && IsLimbs(t) && i < k <= |s| == |t| && s[i] < t[i]
    requires forall j :: i < j < k ==> s[j] == t[j]
    ensures Below(s, k) < Below(t, k)
    decreases k
  {
    hide Pow;
    if k == i + 1 {
      BelowBound(s, i);
      TopLimb(Below(s, i), Below(t, i), s[i], t[i], Pow(BASE, i));
    } else {
      CompareAt(s, t, i, k - 1);
    }
  }

  // ----- Powers of two -----

  lemma Pow32()
    ensures Pow(2, 32) == BASE
  {
    assert Pow(2, 8) == 256;
    PowAdd(2, 8, 8);
    PowAdd(2, 16, 16);
  }

  lemma LimbPower(k: nat, r: nat)
    ensures Pow(2, 32 * k + r) == Pow(BASE, k) * Pow(2, r)
  {
    PowAdd(2, 32 * k, r);
    PowPow(2, 32, k);
    Pow32();
  }
}
