/** Numbers written in a base: powers, values of digit strings and their canonical digits. */
module Positional {

  function Pow(b: nat, n: nat): (p: nat)
    ensures b > 0 ==> p > 0
  {
    if n == 0 then 1 else b * Pow(b, n - 1)
  }

  lemma {:induction false} PowAdd(b: nat, m: nat, n: nat)
    ensures Pow(b, m + n) == Pow(b, m) * Pow(b, n)
  {
    if m > 0 {
      PowAdd(b, m - 1, n);
      assert m + n - 1 == m - 1 + n;
      Associate(b, Pow(b, m - 1), Pow(b, n));
    } else {
      assert Pow(b, 0) * Pow(b, n) == Pow(b, n);
    }
  }

  lemma Associate(a: int, b: int, c: int)
    ensures a * (b * c) == (a * b) * c
  {
  }

  /** The power of a power. */
  lemma {:induction false} PowPow(b: nat, m: nat, n: nat)
    ensures m * n >= 0 && Pow(Pow(b, m), n) == Pow(b, m * n)
  {
    if n > 0 {
      PowPow(b, m, n - 1);
      assert m * n == m + m * (n - 1);
      PowAdd(b, m, m * (n - 1));
    } else {
      assert m * n == 0;
    }
  }

  lemma {:induction false} PowGrows(b: nat, m: nat, n: nat)
    requires b > 0 && m <= n
    ensures Pow(b, m) <= Pow(b, n)
  {
    PowAdd(b, m, n - m);
    Scale(Pow(b, m), 1, Pow(b, n - m));
  }

  lemma Scale(a: nat, b: int, c: int)
    requires b <= c
    ensures a * b <= a * c
  {
    assert a * (c - b) >= 0;
  }

  lemma {:induction false} PowBaseGrows(a: nat, b: nat, n: nat)
    requires a <= b
    ensures Pow(a, n) <= Pow(b, n)
  {
    if n > 0 {
      PowBaseGrows(a, b, n - 1);
      Scale(a, Pow(a, n - 1), Pow(b, n - 1));
      Scale(Pow(b, n - 1), a, b);
    }
  }

  lemma {:induction false} PowStrict(b: nat, m: nat, n: nat)
    requires b > 1 && m < n
    ensures Pow(b, m) < Pow(b, n)
  {
    PowGrows(b, m + 1, n);
    Scale(Pow(b, m), 2, b);
    assert Pow(b, m + 1) == b * Pow(b, m);
  }

  // ----- The value of a digit string, most significant digit first -----

  ghost predicate AllBelow(b: nat, digits: seq<nat>) {
    forall i :: 0 <= i < |digits| ==> digits[i] < b
  }

  function Val(b: nat, digits: seq<nat>): nat {
    if digits == [] then 0 else Val(b, digits[..|digits| - 1]) * b + digits[|digits| - 1]
  }

  lemma ValSnoc(b: nat, front: seq<nat>, d: nat)
    ensures Val(b, front + [d]) == Val(b, front) * b + d
  {
    assert (front + [d])[..|front|] == front;
  }

  lemma {:induction false} ValConcat(b: nat, x: seq<nat>, y: seq<nat>)
    ensures Val(b, x + y) == Val(b, x) * Pow(b, |y|) + Val(b, y)
  {
    if y == [] {
      assert x + y == x;
    } else {
      var n := |y| - 1;
      var front, last := y[..n], y[n];
      ValConcat(b, x, front);
      assert y == front + [last] && x + y == (x + front) + [last];
      ValSnoc(b, front, last);
      ValSnoc(b, x + front, last);
      ShiftOne(Val(b, x), Pow(b, n), Val(b, front), b);
    }
  }

  lemma ShiftOne(p: nat, q: nat, v: nat, b: nat)
    ensures (p * q + v) * b == p * (b * q) + v * b
  {
    Associate(p, q, b);
  }

  lemma {:induction false} ValBound(b: nat, digits: seq<nat>)
    requires AllBelow(b, digits)
    ensures Val(b, digits) < Pow(b, |digits|)
  {
    if digits != [] {
      var n := |digits| - 1;
      ValBound(b, digits[..n]);
      var v, p := Val(b, digits[..n]), Pow(b, n);
      Scale(b, v + 1, p);
      assert b * (v + 1) == v * b + b;
    }
  }

  /** `n` times the same digit. */
  function Repeat<T>(x: T, n: nat): (s: seq<T>)
    ensures |s| == n && forall i :: 0 <= i < n ==> s[i] == x
  {
    seq(n, _ => x)
  }

  lemma {:induction false} ValZeros(b: nat, n: nat)
    ensures Val(b, Repeat(0, n)) == 0
  {
    if n > 0 {
      ValZeros(b, n - 1);
      ValSnoc(b, Repeat(0, n - 1), 0);
      assert Repeat<nat>(0, n) == Repeat<nat>(0, n - 1) + [0];
    }
  }

  lemma ValLeadingZeros(b: nat, n: nat, digits: seq<nat>)
    ensures Val(b, Repeat(0, n) + digits) == Val(b, digits)
  {
    ValConcat(b, Repeat(0, n), digits);
    ValZeros(b, n);
  }

  // ----- Canonical digits -----

  /** The digits of `v` without leading zeros. */
  function ToDigits(b: nat, v: nat): seq<nat>
    requires b > 1
    decreases v
  {
    if v == 0 then [] else QuotientBelow(b, v); ToDigits(b, v / b) + [v % b]
  }

  lemma QuotientBelow(b: nat, v: nat)
    requires b > 1
    ensures 0 <= v / b && (v > 0 ==> v / b < v)
  {
    var q, r := v / b, v % b;
    assert v == b * q + r;
    if q < 0 {
      Scale(b, q, -1);
    } else {
      Scale(q, 2, b);
    }
  }

  lemma SplitLast(b: nat, v: nat) returns (q: nat, r: nat)
    requires b > 1 && v > 0
    ensures v == q * b + r && r < b && q < v && ToDigits(b, v) == ToDigits(b, q) + [r]
  {
    QuotientBelow(b, v);
    q, r := v / b, v % b;
    assert v == b * q + r;
  }

  lemma {:induction false} ToDigitsVal(b: nat, v: nat)
    requires b > 1
    ensures Val(b, ToDigits(b, v)) == v && AllBelow(b, ToDigits(b, v))
    ensures v > 0 ==> ToDigits(b, v) != [] && ToDigits(b, v)[0] > 0
    decreases v
  {
    if v > 0 {
      hide ToDigits, Val;
      var q, r := SplitLast(b, v);
      ToDigitsVal(b, q);
      ValSnoc(b, ToDigits(b, q), r);
      if q == 0 {
        NoDigits(b);
        assert q * b == 0;
      }
    }
  }

  lemma NoDigits(b: nat)
    requires b > 1
    ensures ToDigits(b, 0) == []
  {
  }

  /** A digit string without a leading zero is the canonical one of its value. */
  lemma {:induction false} ValToDigits(b: nat, digits: seq<nat>)
    requires b > 1 && AllBelow(b, digits) && (digits != [] ==> digits[0] > 0)
    ensures ToDigits(b, Val(b, digits)) == digits
  {
    if digits != [] {
      var n := |digits| - 1;
      var front, last := digits[..n], digits[n];
      ValToDigits(b, front);
      var v := Val(b, front);
      DivideBack(b, v, last);
      if n == 0 {
        assert front == [];
      } else {
        ValPositive(b, front);
        Scale(v, 1, b);
      }
      assert digits == front + [last];
    }
  }

  lemma {:induction false} ValPositive(b: nat, digits: seq<nat>)
    requires b > 1 && digits != [] && digits[0] > 0
    ensures Val(b, digits) > 0
  {
    var n := |digits| - 1;
    if n > 0 {
      ValPositive(b, digits[..n]);
      Scale(Val(b, digits[..n]), 1, b);
    }
  }

  lemma DivideBack(b: nat, v: nat, d: nat)
    requires d < b
    ensures (v * b + d) / b == v && (v * b + d) % b == d
  {
    var x := v * b + d;
    var q, r := x / b, x % b;
    assert x == b * q + r;
    if q < v {
      Scale(b, q + 1, v);
    } else if q > v {
      Scale(b, v + 1, q);
    }
    assert b * v == v * b;
  }

  // ----- Room for a change of base -----

  lemma Powers58()
    ensures Pow(58, 7) > Pow(2, 41) && Pow(58, 22) < Pow(2, 129)
    ensures Pow(2, 8) == 256
  {
    assert Pow(58, 3) == 195112 && Pow(58, 4) == 11316496;
    PowAdd(58, 3, 4);
    assert Pow(58, 7) == 2207984167552;
    PowAdd(58, 7, 4);
    assert Pow(58, 11) == 24986644000165537792;
    PowAdd(58, 11, 11);
    assert Pow(2, 8) == 256;
    PowAdd(2, 8, 8);
    assert Pow(2, 16) == 65536;
    PowAdd(2, 16, 16);
    assert Pow(2, 32) == 4294967296;
    PowAdd(2, 32, 8);
    assert Pow(2, 40) == 1099511627776;
    assert Pow(2, 41) == 2199023255552;
    PowAdd(2, 32, 32);
    assert Pow(2, 64) == 18446744073709551616;
    PowAdd(2, 64, 64);
    assert Pow(2, 128) == 340282366920938463463374607431768211456;
    assert Pow(2, 129) == 680564733841876926926749214863536422912;
  }

  /** 256^n < 58^(138n/100 + 1). */
  lemma Base58Room(n: nat)
    ensures Pow(256, n) < Pow(58, 138 * n / 100 + 1)
  {
    hide Pow;
    var m := 138 * n / 100 + 1;
    assert 41 * m > 56 * n;
    Powers58();
    // (256^n)^7 == 2^(56n) < 2^(41m) <= (58^7)^m == (58^m)^7
    PowPow(2, 8, n);
    PowPow(256, n, 7);
    PowPow(256, 7, n);
    assert n * 7 == 7 * n && 8 * n * 7 == 56 * n;
    PowPow(2, 8 * n, 7);
    PowStrict(2, 56 * n, 41 * m);
    PowPow(2, 41, m);
    PowBaseGrows(Pow(2, 41), Pow(58, 7), m);
    PowPow(58, 7, m);
    PowPow(58, m, 7);
    assert 7 * m == m * 7;
    if Pow(58, m) <= Pow(256, n) {
      PowBaseGrows(Pow(58, m), Pow(256, n), 7);
    }
  }

  /** 58^n < 256^(733n/1000 + 1). */
  lemma Base256Room(n: nat)
    ensures Pow(58, n) < Pow(256, 733 * n / 1000 + 1)
  {
    hide Pow;
    var k := 733 * n / 1000 + 1;
    assert 129 * n < 176 * k;
    Powers58();
    // (58^n)^22 == (58^22)^n <= 2^(129n) < 2^(176k) == (256^k)^22
    PowPow(58, n, 22);
    PowPow(58, 22, n);
    assert n * 22 == 22 * n;
    PowBaseGrows(Pow(58, 22), Pow(2, 129), n);
    PowPow(2, 129, n);
    PowStrict(2, 129 * n, 176 * k);
    PowPow(2, 8, k);
    PowPow(2, 8 * k, 22);
    assert 8 * k * 22 == 176 * k;
    if Pow(256, k) <= Pow(58, n) {
      PowBaseGrows(Pow(256, k), Pow(58, n), 22);
    }
  }
}
