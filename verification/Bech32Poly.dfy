/**
 The Bech32 checksum (`src/bech32.cpp:130-216`, `311-353`): reduction of a polynomial over GF(32), with
 six 5-bit coefficients packed into 30 bits.

 Processing one more value is a linear map of the packed remainder followed by the exclusive or of that
 value. From this alone follows what the checksum can do: exactly one list of six values completes it, and
 a change confined to six consecutive values always shows (BIP 173, section "Bech32", subsection "Checksum").
 */
module Bech32Polys {

  /** Addition of packed remainders. */
  function Sum(a: bv32, b: bv32): bv32 {
    a ^ b
  }

  function Wide(v: bv8): bv32 {
    v as bv32
  }

  predicate Has(c: bv32, bit: bv32) {
    (c >> 25) & bit != 0
  }

  /** `g` when the bit of the leading coefficient is set. */
  function Term(c: bv32, bit: bv32, g: bv32): bv32 {
    if Has(c, bit) then g else 0
  }

  function Up(c: bv32): bv32 {
    c << 5
  }

  function Shift(c: bv32): bv32 {
    (c & 0x1ffffff) << 5
  }

  /** Multiply the packed remainder by x and reduce it by the generator. */
  function Next(c: bv32): bv32 {
    Sum(Sum(Sum(Sum(Sum(Shift(c), Term(c, 1, 0x3b6a57b2)), Term(c, 2, 0x26508e6d)), Term(c, 4, 0x1ea119fa)),
        Term(c, 8, 0x3d4233dd)), Term(c, 16, 0x2a1462b3))
  }

  /** The remainder after processing `values`, started from `c`. */
  function Run(c: bv32, values: seq<bv8>): bv32 {
    if values == [] then c else Sum(Next(Run(c, values[..|values| - 1])), Wide(values[|values| - 1]))
  }

  function PolyMod(values: seq<bv8>): bv32 {
    Run(1, values)
  }

  predicate FiveBits(values: seq<bv8>) {
    forall i :: 0 <= i < |values| ==> values[i] < 32
  }

  function Xor(x: seq<bv8>, y: seq<bv8>): (z: seq<bv8>)
    requires |x| == |y|
    ensures |z| == |x| && forall i :: 0 <= i < |x| ==> z[i] == x[i] ^ y[i]
  {
    seq(|x|, i requires 0 <= i < |x| => x[i] ^ y[i])
  }

  function Zeros(n: nat): (z: seq<bv8>)
    ensures |z| == n && forall i :: 0 <= i < n ==> z[i] == 0
  {
    seq(n, _ => 0)
  }

  // ----- One step -----

  lemma ShiftLinear(a: bv32, b: bv32)
    ensures Shift(Sum(a, b)) == Sum(Shift(a), Shift(b))
  {
  }

  lemma HasLinear(a: bv32, b: bv32, bit: bv32)
    requires bit == 1 || bit == 2 || bit == 4 || bit == 8 || bit == 16
    ensures Has(Sum(a, b), bit) <==> Has(a, bit) != Has(b, bit)
  {
    var x, y := a >> 25, b >> 25;
    assert Sum(a, b) >> 25 == x ^ y;
    HasBit(x, y, bit);
  }

  lemma HasBit(x: bv32, y: bv32, bit: bv32)
    requires bit == 1 || bit == 2 || bit == 4 || bit == 8 || bit == 16
    ensures (x ^ y) & bit != 0 <==> (x & bit != 0) != (y & bit != 0)
  {
    if bit == 1 {
    } else if bit == 2 {
    } else if bit == 4 {
    } else if bit == 8 {
    }
  }

  lemma TermLinear(a: bv32, b: bv32, bit: bv32, g: bv32)
    requires bit == 1 || bit == 2 || bit == 4 || bit == 8 || bit == 16
    ensures Term(Sum(a, b), bit, g) == Sum(Term(a, bit, g), Term(b, bit, g))
  {
    hide Has, Sum;
    HasLinear(a, b, bit);
    SumFacts(g, 0, 0, 0);
    SumFacts(0, 0, 0, 0);
  }

  lemma SumFacts(a: bv32, b: bv32, c: bv32, d: bv32)
    ensures Sum(Sum(a, b), Sum(c, d)) == Sum(Sum(a, c), Sum(b, d))
    ensures Sum(a, a) == 0 && Sum(a, 0) == a && Sum(0, a) == a
  {
  }

  lemma NextLinear(a: bv32, b: bv32)
    ensures Next(Sum(a, b)) == Sum(Next(a), Next(b))
  {
    hide Shift, Term, Sum;
    ShiftLinear(a, b);
    TermLinear(a, b, 1, 0x3b6a57b2);
    TermLinear(a, b, 2, 0x26508e6d);
    TermLinear(a, b, 4, 0x1ea119fa);
    TermLinear(a, b, 8, 0x3d4233dd);
    TermLinear(a, b, 16, 0x2a1462b3);
    var a0, b0 := Shift(a), Shift(b);
    var a1, b1 := Sum(a0, Term(a, 1, 0x3b6a57b2)), Sum(b0, Term(b, 1, 0x3b6a57b2));
    var a2, b2 := Sum(a1, Term(a, 2, 0x26508e6d)), Sum(b1, Term(b, 2, 0x26508e6d));
    var a3, b3 := Sum(a2, Term(a, 4, 0x1ea119fa)), Sum(b2, Term(b, 4, 0x1ea119fa));
    var a4, b4 := Sum(a3, Term(a, 8, 0x3d4233dd)), Sum(b3, Term(b, 8, 0x3d4233dd));
    SumFacts(a0, b0, Term(a, 1, 0x3b6a57b2), Term(b, 1, 0x3b6a57b2));
    SumFacts(a1, b1, Term(a, 2, 0x26508e6d), Term(b, 2, 0x26508e6d));
    SumFacts(a2, b2, Term(a, 4, 0x1ea119fa), Term(b, 4, 0x1ea119fa));
    SumFacts(a3, b3, Term(a, 8, 0x3d4233dd), Term(b, 8, 0x3d4233dd));
    SumFacts(a4, b4, Term(a, 16, 0x2a1462b3), Term(b, 16, 0x2a1462b3));
  }

  lemma SumRange(a: bv32, b: bv32)
    requires a < 0x4000_0000 && b < 0x4000_0000
    ensures Sum(a, b) < 0x4000_0000
  {
  }

  lemma PartsRange(c: bv32)
    ensures Shift(c) < 0x4000_0000 && Term(c, 1, 0x3b6a57b2) < 0x4000_0000 && Term(c, 2, 0x26508e6d) < 0x4000_0000
    ensures Term(c, 4, 0x1ea119fa) < 0x4000_0000 && Term(c, 8, 0x3d4233dd) < 0x4000_0000 &&
            Term(c, 16, 0x2a1462b3) < 0x4000_0000
  {
    hide Has;
  }

  /** A remainder stays within 30 bits. */
  lemma NextRange(c: bv32)
    ensures Next(c) < 0x4000_0000
  {
    hide Sum, Shift, Term;
    PartsRange(c);
    var s1 := Sum(Shift(c), Term(c, 1, 0x3b6a57b2));
    SumRange(Shift(c), Term(c, 1, 0x3b6a57b2));
    var s2 := Sum(s1, Term(c, 2, 0x26508e6d));
    SumRange(s1, Term(c, 2, 0x26508e6d));
    var s3 := Sum(s2, Term(c, 4, 0x1ea119fa));
    SumRange(s2, Term(c, 4, 0x1ea119fa));
    var s4 := Sum(s3, Term(c, 8, 0x3d4233dd));
    SumRange(s3, Term(c, 8, 0x3d4233dd));
    SumRange(s4, Term(c, 16, 0x2a1462b3));
  }

  lemma NoTerm(c: bv32, bit: bv32)
    requires c < 0x200_0000
    ensures !Has(c, bit)
  {
    assert c >> 25 == 0;
  }

  /** Without a leading coefficient, the remainder only moves up by one. */
  lemma NextSmall(c: bv32)
    requires c < 0x200_0000
    ensures Next(c) == Up(c)
  {
    NoTerm(c, 1);
    NoTerm(c, 2);
    NoTerm(c, 4);
    NoTerm(c, 8);
    NoTerm(c, 16);
    SumFacts(Shift(c), 0, 0, 0);
    ShiftSmall(c);
    hide Sum, Shift, Has, Up;
  }

  lemma ShiftSmall(c: bv32)
    requires c < 0x200_0000
    ensures Shift(c) == Up(c)
  {
  }

  // The lowest coefficient of the reduced remainder tells the leading coefficient.

  function Low(c: bv32): bv32 {
    c & 31
  }

  function Pick(b: bool, g: bv32): bv32 {
    if b then g else 0
  }

  lemma LowSum(a: bv32, b: bv32)
    ensures Low(Sum(a, b)) == Sum(Low(a), Low(b))
  {
  }

  lemma LowParts(c: bv32)
    ensures Low(Shift(c)) == 0
    ensures Low(Term(c, 1, 0x3b6a57b2)) == Pick(Has(c, 1), 18) && Low(Term(c, 2, 0x26508e6d)) == Pick(Has(c, 2), 13)
    ensures Low(Term(c, 4, 0x1ea119fa)) == Pick(Has(c, 4), 26) && Low(Term(c, 8, 0x3d4233dd)) == Pick(Has(c, 8), 29)
    ensures Low(Term(c, 16, 0x2a1462b3)) == Pick(Has(c, 16), 19)
  {
    hide Has;
  }

  lemma NextLow(c: bv32)
    ensures Low(Next(c)) ==
            Sum(Sum(Sum(Sum(Pick(Has(c, 1), 18), Pick(Has(c, 2), 13)), Pick(Has(c, 4), 26)), Pick(Has(c, 8), 29)),
                Pick(Has(c, 16), 19))
  {
    hide Sum, Shift, Term, Has, Pick, Low;
    LowParts(c);
    var s1 := Sum(Shift(c), Term(c, 1, 0x3b6a57b2));
    LowSum(Shift(c), Term(c, 1, 0x3b6a57b2));
    SumFacts(Pick(Has(c, 1), 18), 0, 0, 0);
    var s2 := Sum(s1, Term(c, 2, 0x26508e6d));
    LowSum(s1, Term(c, 2, 0x26508e6d));
    var s3 := Sum(s2, Term(c, 4, 0x1ea119fa));
    LowSum(s2, Term(c, 4, 0x1ea119fa));
    var s4 := Sum(s3, Term(c, 8, 0x3d4233dd));
    LowSum(s3, Term(c, 8, 0x3d4233dd));
    LowSum(s4, Term(c, 16, 0x2a1462b3));
  }

  /** The multiples of the lowest coefficient of the generator by a leading coefficient are zero only for zero. */
  lemma LowKernel(b1: bool, b2: bool, b4: bool, b8: bool, b16: bool)
    requires Sum(Sum(Sum(Sum(Pick(b1, 18), Pick(b2, 13)), Pick(b4, 26)), Pick(b8, 29)), Pick(b16, 19)) == 0
    ensures !b1 && !b2 && !b4 && !b8 && !b16
  {
  }

  lemma HasNone(c: bv32)
    requires c < 0x4000_0000 && !Has(c, 1) && !Has(c, 2) && !Has(c, 4) && !Has(c, 8) && !Has(c, 16)
    ensures c < 0x200_0000
  {
  }

  lemma ShiftKernel(c: bv32)
    requires c < 0x200_0000 && Up(c) == 0
    ensures c == 0
  {
  }

  /** No remainder is lost by a step. */
  lemma NextKernel(c: bv32)
    requires c < 0x4000_0000 && Next(c) == 0
    ensures c == 0
  {
    hide Next, Sum, Has, Pick, Up;
    NextLow(c);
    LowKernel(Has(c, 1), Has(c, 2), Has(c, 4), Has(c, 8), Has(c, 16));
    HasNone(c);
    NextSmall(c);
    ShiftKernel(c);
  }

  // ----- Lists of values -----

  lemma RunSnoc(c: bv32, values: seq<bv8>, v: bv8)
    ensures Run(c, values + [v]) == Sum(Next(Run(c, values)), Wide(v))
  {
    hide Next, Sum, Wide;
    assert (values + [v])[..|values|] == values;
  }

  lemma {:induction false} RunConcat(c: bv32, x: seq<bv8>, y: seq<bv8>)
    ensures Run(c, x + y) == Run(Run(c, x), y)
  {
    hide Next, Sum, Wide;
    if y == [] {
      assert x + y == x;
    } else {
      var n := |y| - 1;
      RunConcat(c, x, y[..n]);
      assert x + y == (x + y[..n]) + [y[n]];
      RunSnoc(c, x + y[..n], y[n]);
    }
  }

  lemma WideFacts(x: bv8, y: bv8)
    ensures Wide(x ^ y) == Sum(Wide(x), Wide(y))
    ensures x < 32 ==> Wide(x) < 32
    ensures Wide(x) == 0 ==> x == 0
  {
  }

  lemma XorFront(x: seq<bv8>, y: seq<bv8>)
    requires |x| == |y| > 0
    ensures Xor(x, y)[..|x| - 1] == Xor(x[..|x| - 1], y[..|x| - 1])
  {
  }

  /** The remainder of a sum is the sum of the remainders. */
  lemma {:induction false} RunXor(a: bv32, b: bv32, x: seq<bv8>, y: seq<bv8>)
    requires |x| == |y|
    ensures Run(Sum(a, b), Xor(x, y)) == Sum(Run(a, x), Run(b, y))
  {
    hide Next, Sum, Wide;
    if x != [] {
      var n := |x| - 1;
      RunXor(a, b, x[..n], y[..n]);
      XorFront(x, y);
      var p, q := Run(a, x[..n]), Run(b, y[..n]);
      NextLinear(p, q);
      WideFacts(x[n], y[n]);
      SumFacts(Next(p), Next(q), Wide(x[n]), Wide(y[n]));
    }
  }

  lemma {:induction false} RunRange(c: bv32, values: seq<bv8>)
    requires c < 0x4000_0000 && FiveBits(values)
    ensures Run(c, values) < 0x4000_0000
  {
    hide Next, Sum, Wide;
    if values != [] {
      var n := |values| - 1;
      var p := Run(c, values[..n]);
      NextRange(p);
      WideFacts(values[n], 0);
      SumRange(Next(p), Wide(values[n]));
    }
  }

  /** Values of zero do not hide a difference. */
  lemma {:induction false} RunZeros(c: bv32, n: nat)
    requires c < 0x4000_0000
    ensures Run(c, Zeros(n)) == 0 <==> c == 0
  {
    hide Next, Sum, Wide;
    if n > 0 {
      RunZeros(c, n - 1);
      assert Zeros(n) == Zeros(n - 1) + [0];
      var p := Run(c, Zeros(n - 1));
      RunSnoc(c, Zeros(n - 1), 0);
      RunRange(c, Zeros(n - 1));
      WideZero();
      SumFacts(Next(p), 0, 0, 0);
      NextZero();
      if Next(p) == 0 { NextKernel(p); }
    }
  }

  lemma WideZero()
    ensures Wide(0) == 0
  {
  }

  lemma NextZero()
    ensures Next(0) == 0
  {
    NextSmall(0);
    hide Next;
  }

  // ----- Up to six values -----

  /** What `k` values of five bits stay below. */
  function Room(k: nat): bv32 {
    if k == 0 then 1 else if k == 1 then 0x20 else if k == 2 then 0x400 else if k == 3 then 0x8000
    else if k == 4 then 0x10_0000 else if k == 5 then 0x200_0000 else 0x4000_0000
  }

  lemma AppendBits(c: bv32, v: bv32, k: nat)
    requires k < 6 && c < Room(k) && v < 32
    ensures c < 0x200_0000 && Sum(Up(c), v) < Room(k + 1) && (Sum(Up(c), v) == 0 ==> c == 0 && v == 0)
  {
    assert k == 0 || k == 1 || k == 2 || k == 3 || k == 4 || k == 5;
  }

  /** Six values are packed, not reduced: only zeros give zero. */
  lemma {:induction false} RunShort(values: seq<bv8>)
    requires FiveBits(values) && |values| <= 6
    ensures Run(0, values) < Room(|values|)
    ensures Run(0, values) == 0 ==> forall i :: 0 <= i < |values| ==> values[i] == 0
  {
    hide Next, Sum, Wide, Room, Up;
    if values == [] {
      RoomZero();
    } else {
      var n := |values| - 1;
      var c := Run(0, values[..n]);
      RunShort(values[..n]);
      WideFacts(values[n], 0);
      AppendBits(c, Wide(values[n]), n);
      NextSmall(c);
    }
  }

  lemma RoomZero()
    ensures 0 < Room(0)
  {
  }

  /** Two lists of values that differ, but only inside a window of six, have different remainders. */
  lemma WindowDetected(x: seq<bv8>, y: seq<bv8>, p: nat)
    requires |x| == |y| && FiveBits(x) && FiveBits(y) && x != y
    requires forall i :: 0 <= i < |x| && !(p <= i < p + 6) ==> x[i] == y[i]
    ensures PolyMod(x) != PolyMod(y)
  {
    hide Run, Sum;
    var d := Xor(x, y);
    var lo := if p < |x| then p else |x|;
    var hi := if p + 6 < |x| then p + 6 else |x|;
    XorFacts(x, y);
    assert d == Zeros(lo) + d[lo..hi] + Zeros(|x| - hi) by {
      assert forall i :: 0 <= i < |x| && !(lo <= i < hi) ==> d[i] == 0;
    }
    RunXor(1, 1, x, y);
    SumFacts(1, 0, 0, 0);
    DifferenceShows(d, lo, hi);
    SumFacts(PolyMod(x), 0, 0, 0);
  }

  lemma XorFacts(x: seq<bv8>, y: seq<bv8>)
    requires |x| == |y| && FiveBits(x) && FiveBits(y)
    ensures FiveBits(Xor(x, y)) && (forall i :: 0 <= i < |x| ==> (Xor(x, y)[i] == 0 <==> x[i] == y[i]))
  {
    forall i | 0 <= i < |x| ensures Xor(x, y)[i] < 32 && (Xor(x, y)[i] == 0 <==> x[i] == y[i]) {
      XorOne(x[i], y[i]);
    }
  }

  lemma XorOne(a: bv8, b: bv8)
    requires a < 32 && b < 32
    ensures a ^ b < 32 && (a ^ b == 0 <==> a == b)
  {
  }

  lemma DifferenceShows(d: seq<bv8>, lo: nat, hi: nat)
    requires FiveBits(d) && lo <= hi <= |d| && hi - lo <= 6 && d == Zeros(lo) + d[lo..hi] + Zeros(|d| - hi)
    ensures Run(0, d) == 0 ==> forall i :: 0 <= i < |d| ==> d[i] == 0
  {
    hide Run;
    var w := d[lo..hi];
    RunConcat(0, Zeros(lo) + w, Zeros(|d| - hi));
    RunConcat(0, Zeros(lo), w);
    RunZeros(0, lo);
    RunRange(0, w);
    RunZeros(Run(0, w), |d| - hi);
    RunShort(w);
  }

  // ----- The checksum -----

  function Narrow(x: bv32): bv8 {
    (x & 31) as bv8
  }

  /** The six 5-bit groups of a packed remainder. */
  function Unpack(m: bv32): (values: seq<bv8>)
    ensures |values| == 6
  {
    [Narrow(m >> 25), Narrow(m >> 20), Narrow(m >> 15), Narrow(m >> 10), Narrow(m >> 5), Narrow(m)]
  }

  lemma NarrowRange(x: bv32)
    ensures Narrow(x) < 32
  {
  }

  lemma UnpackRange(m: bv32)
    ensures FiveBits(Unpack(m))
  {
    hide Narrow;
    NarrowRange(m >> 25);
    NarrowRange(m >> 20);
    NarrowRange(m >> 15);
    NarrowRange(m >> 10);
    NarrowRange(m >> 5);
    NarrowRange(m);
  }

  /** Append one value to fewer than six. */
  lemma RunAppend(values: seq<bv8>, v: bv8)
    requires FiveBits(values) && |values| < 6 && v < 32
    ensures Run(0, values + [v]) == Sum(Up(Run(0, values)), Wide(v))
  {
    hide Next, Sum, Wide, Room, Up, Run;
    RunSnoc(0, values, v);
    RunShort(values);
    WideFacts(v, 0);
    AppendBits(Run(0, values), Wide(v), |values|);
    NextSmall(Run(0, values));
  }

  function Down(c: bv32): bv32 {
    c >> 5
  }

  /** A number is its last group below the others. */
  lemma Join(x: bv32)
    ensures Sum(Up(Down(x)), Wide(Narrow(x))) == x
  {
    WideNarrow(x);
    hide Wide, Narrow;
    assert Up(Down(x)) ^ (x & 31) == x;
  }

  lemma WideNarrow(x: bv32)
    ensures Wide(Narrow(x)) == x & 31
  {
  }

  lemma Shifts(m: bv32)
    requires m < 0x4000_0000
    ensures Down(m >> 25) == 0 && Down(m >> 20) == m >> 25 && Down(m >> 15) == m >> 20
    ensures Down(m >> 10) == m >> 15 && Down(m >> 5) == m >> 10 && Down(m) == m >> 5
  {
  }

  lemma RunNothing()
    ensures Run(0, []) == 0
  {
  }

  lemma UnpackStep(w: seq<bv8>, k: nat, x: bv32)
    requires k < |w| <= 6 && FiveBits(w) && w[k] == Narrow(x) && Run(0, w[..k]) == Down(x)
    ensures Run(0, w[..k + 1]) == x
  {
    hide Sum, Wide, Next, Up, Down, Narrow, Run;
    RunAppend(w[..k], w[k]);
    assert w[..k + 1] == w[..k] + [w[k]];
    Join(x);
  }

  lemma RunGroups(x1: bv32, x2: bv32, x3: bv32, x4: bv32, x5: bv32, x6: bv32)
    requires Down(x1) == 0 && Down(x2) == x1 && Down(x3) == x2 && Down(x4) == x3 && Down(x5) == x4 && Down(x6) == x5
    ensures Run(0, [Narrow(x1), Narrow(x2), Narrow(x3), Narrow(x4), Narrow(x5), Narrow(x6)]) == x6
  {
    hide Down, Narrow, Run;
    var w := [Narrow(x1), Narrow(x2), Narrow(x3), Narrow(x4), Narrow(x5), Narrow(x6)];
    NarrowRange(x1);
    NarrowRange(x2);
    NarrowRange(x3);
    NarrowRange(x4);
    NarrowRange(x5);
    NarrowRange(x6);
    RunNothing();
    UnpackStep(w, 0, x1);
    UnpackStep(w, 1, x2);
    UnpackStep(w, 2, x3);
    UnpackStep(w, 3, x4);
    UnpackStep(w, 4, x5);
    UnpackStep(w, 5, x6);
    assert w[..6] == w;
  }

  /** Packing undoes unpacking. */
  lemma RunUnpack(m: bv32)
    requires m < 0x4000_0000
    ensures Run(0, Unpack(m)) == m
  {
    hide Down, Narrow, Run;
    Shifts(m);
    RunGroups(m >> 25, m >> 20, m >> 15, m >> 10, m >> 5, m);
  }

  /** Exactly one list of six values completes a list to a given remainder. */
  lemma ChecksumIff(values: seq<bv8>, check: seq<bv8>, target: bv32)
    requires FiveBits(values) && FiveBits(check) && |check| == 6 && target < 0x4000_0000
    ensures PolyMod(values + check) == target <==> check == Unpack(Sum(PolyMod(values + Zeros(6)), target))
  {
    hide Sum, Next, Run, Unpack;
    var m := PolyMod(values + Zeros(6));
    var p := Sum(m, target);
    ChecksumSum(values, check);
    RunRange(1, values + Zeros(6));
    SumRange(m, target);
    RunUnpack(p);
    UnpackRange(p);
    SumCancels(m, Run(0, check), target);
    if Run(0, check) == p { PackInjective(check, Unpack(p)); }
  }

  lemma SumCancels(m: bv32, r: bv32, t: bv32)
    ensures Sum(m, r) == t <==> r == Sum(m, t)
  {
    hide Sum;
    SumTwice(m, r);
    SumTwice(m, t);
  }

  lemma SumTwice(a: bv32, b: bv32)
    ensures Sum(a, Sum(a, b)) == b
  {
  }

  lemma ChecksumSum(values: seq<bv8>, check: seq<bv8>)
    requires |check| == 6
    ensures PolyMod(values + check) == Sum(PolyMod(values + Zeros(6)), Run(0, check))
  {
    hide Sum, Next, Run;
    var p := Run(1, values);
    RunConcat(1, values, check);
    RunConcat(1, values, Zeros(6));
    RunXor(p, 0, Zeros(6), check);
    assert Xor(Zeros(6), check) == check by { forall i | 0 <= i < 6 ensures 0 ^ check[i] == check[i] { } }
    SumFacts(p, 0, 0, 0);
  }

  lemma PackInjective(x: seq<bv8>, y: seq<bv8>)
    requires |x| == |y| <= 6 && FiveBits(x) && FiveBits(y) && Run(0, x) == Run(0, y)
    ensures x == y
  {
    hide Sum, Next, Run;
    RunXor(0, 0, x, y);
    SumFacts(0, 0, 0, 0);
    SumFacts(Run(0, x), 0, 0, 0);
    XorFacts(x, y);
    RunShort(Xor(x, y));
  }
}
