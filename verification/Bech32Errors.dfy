/**
 Detection of up to three errors within 1023 characters (`src/bech32.cpp:137-175`).

 The generator has the three consecutive roots e^997, e^998 and e^999 in GF(1024). Evaluating a remainder at
 a root gives the same as evaluating the list of values there (`RunAtRoot`), so a list whose remainder is zero
 vanishes at all three roots. With at most three values different from zero this is a system of three
 equations in powers of e, which only zeros solve (`ThreePowers`).
 */
module Bech32Errors {
  import opened Bech32Polys
  import opened Bech32Field
  import opened Bech32s

  /** Multiplication by the root e^(997 + j). */
  function Multiply(j: nat, w: bv32): bv32 {
    if j == 0 then Root(w) else Times(Multiply(j - 1, w))
  }

  /** The lowest `n` coefficients of a packed polynomial, evaluated at a root. */
  function Evaluate(j: nat, c: bv32, n: nat): bv32
    decreases n
  {
    if n == 0 then 0 else Sum(Multiply(j, Evaluate(j, Down(c), n - 1)), Low(c))
  }

  /** A list of values as a polynomial, evaluated at a root. */
  function Syndrome(j: nat, values: seq<bv8>): bv32 {
    if values == [] then 0
    else Sum(Multiply(j, Syndrome(j, values[..|values| - 1])), Wide(values[|values| - 1]))
  }

  // ----- Multiplication by a root -----

  lemma {:induction false} MultiplyLinear(j: nat, a: bv32, b: bv32)
    ensures Multiply(j, Sum(a, b)) == Sum(Multiply(j, a), Multiply(j, b))
  {
    hide Root, Times, Sum;
    if j == 0 {
      RootLinear(a, b);
    } else {
      MultiplyLinear(j - 1, a, b);
      TimesLinear(Multiply(j - 1, a), Multiply(j - 1, b));
    }
  }

  lemma {:induction false} MultiplyFacts(j: nat, w: bv32)
    requires Element(w)
    ensures Element(Multiply(j, w)) && (Multiply(j, w) == 0 <==> w == 0)
  {
    hide Root, Times, Element;
    if j == 0 {
      RootFacts(w);
    } else {
      MultiplyFacts(j - 1, w);
      TimesFacts(Multiply(j - 1, w));
    }
  }

  lemma {:induction false} EvaluateLinear(j: nat, a: bv32, b: bv32, n: nat)
    ensures Evaluate(j, Sum(a, b), n) == Sum(Evaluate(j, a, n), Evaluate(j, b, n))
    decreases n
  {
    hide Multiply, Sum, Low, Down;
    if n == 0 {
      SumFacts(0, 0, 0, 0);
    } else {
      DownLinear(a, b);
      LowSum(a, b);
      EvaluateLinear(j, Down(a), Down(b), n - 1);
      var x, y := Evaluate(j, Down(a), n - 1), Evaluate(j, Down(b), n - 1);
      MultiplyLinear(j, x, y);
      SumFacts(Multiply(j, x), Multiply(j, y), Low(a), Low(b));
    }
  }

  lemma {:induction false} EvaluateZero(j: nat, n: nat)
    ensures Evaluate(j, 0, n) == 0
  {
    hide Multiply;
    if n > 0 {
      EvaluateZero(j, n - 1);
      MultiplyFacts(j, 0);
    }
  }

  // ----- The generator vanishes at the three roots -----

  lemma UpDown(c: bv32)
    requires c < 0x200_0000
    ensures Down(Up(c)) == c && Low(Up(c)) == 0
  {
  }

  lemma RoomDown(c: bv32, n: nat)
    requires n <= 5 && c < Room(n)
    ensures n > 0 ==> Down(c) < Room(n - 1)
    ensures n == 0 ==> c == 0
  {
    assert n == 0 || n == 1 || n == 2 || n == 3 || n == 4 || n == 5;
  }

  /** A leading coefficient of zero adds nothing. */
  lemma {:induction false} EvaluateMore(j: nat, c: bv32, n: nat)
    requires n <= 5 && c < Room(n)
    ensures Evaluate(j, c, n + 1) == Evaluate(j, c, n)
    decreases n
  {
    hide Multiply, Sum, Low, Down, Room;
    RoomDown(c, n);
    if n == 0 {
      EvaluateZero(j, 1);
    } else {
      EvaluateMore(j, Down(c), n - 1);
    }
  }

  /** One step of the reduction is multiplication by the root. */
  ghost predicate Steps(j: nat, c: bv32) {
    Evaluate(j, Next(c), 6) == Multiply(j, Evaluate(j, c, 6))
  }

  lemma StepsSmall(j: nat, c: bv32)
    requires c < 0x200_0000
    ensures Steps(j, c)
  {
    hide Multiply, Sum, Low, Down, Up, Next;
    NextSmall(c);
    UpDown(c);
    EvaluateMore(j, c, 5);
    assert Evaluate(j, Up(c), 6) == Sum(Multiply(j, Evaluate(j, Down(Up(c)), 5)), Low(Up(c)));
    SumFacts(Multiply(j, Evaluate(j, c, 5)), 0, 0, 0);
  }

  lemma StepsSum(j: nat, a: bv32, b: bv32)
    requires Steps(j, a) && Steps(j, b)
    ensures Steps(j, Sum(a, b))
  {
    hide Multiply, Evaluate, Next, Sum;
    NextLinear(a, b);
    EvaluateLinear(j, Next(a), Next(b), 6);
    EvaluateLinear(j, a, b, 6);
    MultiplyLinear(j, Evaluate(j, a, 6), Evaluate(j, b, 6));
  }

  lemma LeadingNext()
    ensures Next(0x200_0000) == 0x3b6a57b2
  {
  }

  lemma Leading0()
    ensures Steps(0, 0x200_0000)
  {
    hide Next;
    LeadingNext();
    assert Evaluate(0, 0x1, 1) == 0x1;
    assert Evaluate(0, 0x20, 2) == 0x1bd;
    assert Evaluate(0, 0x400, 3) == 0x369;
    assert Evaluate(0, 0x8000, 4) == 0x34f;
    assert Evaluate(0, 0x100000, 5) == 0x3d6;
    assert Evaluate(0, 0x2000000, 6) == 0x74;
    assert Evaluate(0, 0x1d, 1) == 0x1d;
    assert Evaluate(0, 0x3b6, 2) == 0x18f;
    assert Evaluate(0, 0x76d4, 3) == 0x1be;
    assert Evaluate(0, 0xeda95, 4) == 0x192;
    assert Evaluate(0, 0x1db52bd, 5) == 0x2e;
    assert Evaluate(0, 0x3b6a57b2, 6) == 0x2f5;
  }

  lemma Leading1()
    ensures Steps(1, 0x200_0000)
  {
    hide Next;
    LeadingNext();
    assert Evaluate(1, 0x1, 1) == 0x1;
    assert Evaluate(1, 0x20, 2) == 0x65;
    assert Evaluate(1, 0x400, 3) == 0x88;
    assert Evaluate(1, 0x8000, 4) == 0x373;
    assert Evaluate(1, 0x100000, 5) == 0x3a3;
    assert Evaluate(1, 0x2000000, 6) == 0x25a;
    assert Evaluate(1, 0x1d, 1) == 0x1d;
    assert Evaluate(1, 0x3b6, 2) == 0x1c4;
    assert Evaluate(1, 0x76d4, 3) == 0x396;
    assert Evaluate(1, 0xeda95, 4) == 0x34c;
    assert Evaluate(1, 0x1db52bd, 5) == 0x176;
    assert Evaluate(1, 0x3b6a57b2, 6) == 0x3da;
  }

  lemma Leading2()
    ensures Steps(2, 0x200_0000)
  {
    hide Next;
    LeadingNext();
    assert Evaluate(2, 0x1, 1) == 0x1;
    assert Evaluate(2, 0x20, 2) == 0x3d0;
    assert Evaluate(2, 0x400, 3) == 0x159;
    assert Evaluate(2, 0x8000, 4) == 0x2c6;
    assert Evaluate(2, 0x100000, 5) == 0x51;
    assert Evaluate(2, 0x2000000, 6) == 0x42;
    assert Evaluate(2, 0x1d, 1) == 0x1d;
    assert Evaluate(2, 0x3b6, 2) == 0x2e3;
    assert Evaluate(2, 0x76d4, 3) == 0x2e3;
    assert Evaluate(2, 0xeda95, 4) == 0x2e2;
    assert Evaluate(2, 0x1db52bd, 5) == 0x13a;
    assert Evaluate(2, 0x3b6a57b2, 6) == 0xa1;
  }

  // Multiplying a leading coefficient by {2} multiplies every coefficient of the multiple of the generator.

  /** Each of the lowest `n` coefficients of `d` is {2} times that of `c`. */
  ghost predicate Doubled(c: bv32, d: bv32, n: nat)
    decreases n
  {
    n == 0 || (Low(d) == Twice(Low(c)) && Doubled(Down(c), Down(d), n - 1))
  }

  lemma TwiceZero()
    ensures Element(0) && Twice(0) == 0
  {
  }

  lemma LowElement(c: bv32)
    ensures Element(Low(c))
  {
  }

  lemma {:induction false} EvaluateElement(j: nat, c: bv32, n: nat)
    ensures Element(Evaluate(j, c, n))
    decreases n
  {
    hide Multiply, Sum, Low, Down, Element, Twice;
    TwiceZero();
    if n > 0 {
      EvaluateElement(j, Down(c), n - 1);
      MultiplyFacts(j, Evaluate(j, Down(c), n - 1));
      LowElement(c);
      SumElement(Multiply(j, Evaluate(j, Down(c), n - 1)), Low(c));
    }
  }

  lemma {:induction false} MultiplyTwice(j: nat, w: bv32)
    requires Element(w)
    ensures Twice(Multiply(j, w)) == Multiply(j, Twice(w))
  {
    hide Root, Times, Square, Twice, Element;
    AllCommute(w);
    if j > 0 {
      MultiplyTwice(j - 1, w);
      MultiplyFacts(j - 1, w);
      AllCommute(Multiply(j - 1, w));
    }
  }

  lemma {:induction false} EvaluateTwice(j: nat, c: bv32, d: bv32, n: nat)
    requires Doubled(c, d, n)
    ensures Evaluate(j, d, n) == Twice(Evaluate(j, c, n))
    decreases n
  {
    hide Multiply, Sum, Low, Down, Twice, Element;
    if n == 0 {
      TwiceZero();
    } else {
      var e := Evaluate(j, Down(c), n - 1);
      EvaluateTwice(j, Down(c), Down(d), n - 1);
      EvaluateElement(j, Down(c), n - 1);
      MultiplyTwice(j, e);
      TwiceLinear(Multiply(j, e), Low(c));
    }
  }

  lemma StepsTwice(j: nat, c: bv32, d: bv32)
    requires Steps(j, c) && Doubled(c, d, 6) && Doubled(Next(c), Next(d), 6)
    ensures Steps(j, d)
  {
    hide Multiply, Evaluate, Next, Doubled, Twice, Element;
    EvaluateTwice(j, c, d, 6);
    EvaluateTwice(j, Next(c), Next(d), 6);
    EvaluateElement(j, c, 6);
    MultiplyTwice(j, Evaluate(j, c, 6));
  }

  lemma DoubledNext1()
    ensures Doubled(0x200_0000, 0x400_0000, 6) && Doubled(Next(0x200_0000), Next(0x400_0000), 6)
  {
    assert Next(0x200_0000) == 0x3b6a57b2 && Next(0x400_0000) == 0x26508e6d;
  }

  lemma DoubledNext2()
    ensures Doubled(0x400_0000, 0x800_0000, 6) && Doubled(Next(0x400_0000), Next(0x800_0000), 6)
  {
    assert Next(0x400_0000) == 0x26508e6d && Next(0x800_0000) == 0x1ea119fa;
  }

  lemma DoubledNext4()
    ensures Doubled(0x800_0000, 0x1000_0000, 6) && Doubled(Next(0x800_0000), Next(0x1000_0000), 6)
  {
    assert Next(0x800_0000) == 0x1ea119fa && Next(0x1000_0000) == 0x3d4233dd;
  }

  lemma DoubledNext8()
    ensures Doubled(0x1000_0000, 0x2000_0000, 6) && Doubled(Next(0x1000_0000), Next(0x2000_0000), 6)
  {
    assert Next(0x1000_0000) == 0x3d4233dd && Next(0x2000_0000) == 0x2a1462b3;
  }

  lemma StepsLeading(j: nat)
    requires j <= 2
    ensures Steps(j, 0x200_0000) && Steps(j, 0x400_0000) && Steps(j, 0x800_0000)
    ensures Steps(j, 0x1000_0000) && Steps(j, 0x2000_0000)
  {
    hide Steps, Next, Doubled;
    if j == 0 {
      Leading0();
    } else if j == 1 {
      Leading1();
    } else {
      Leading2();
    }
    DoubledNext1();
    StepsTwice(j, 0x200_0000, 0x400_0000);
    DoubledNext2();
    StepsTwice(j, 0x400_0000, 0x800_0000);
    DoubledNext4();
    StepsTwice(j, 0x800_0000, 0x1000_0000);
    DoubledNext8();
    StepsTwice(j, 0x1000_0000, 0x2000_0000);
  }

  lemma StepsPick(j: nat, take: bool, c: bv32)
    requires Steps(j, c)
    ensures Steps(j, Pick(take, c))
  {
    hide Steps;
    StepsSmall(j, 0);
  }

  lemma StepsFive(j: nat, w: bv32, a: bv32, b: bv32, c: bv32, d: bv32, e: bv32)
    requires Steps(j, a) && Steps(j, b) && Steps(j, c) && Steps(j, d) && Steps(j, e)
    ensures Steps(j, Five(w, a, b, c, d, e))
  {
    hide Sum, Bit, Pick, Steps, Five;
    FiveBitwise(w, a, b, c, d, e);
    StepsPick(j, Bit(w, 1), a);
    StepsPick(j, Bit(w, 2), b);
    StepsPick(j, Bit(w, 4), c);
    StepsPick(j, Bit(w, 8), d);
    StepsPick(j, Bit(w, 16), e);
    var w2 := Sum(Pick(Bit(w, 1), a), Pick(Bit(w, 2), b));
    var w3 := Sum(w2, Pick(Bit(w, 4), c));
    var w4 := Sum(w3, Pick(Bit(w, 8), d));
    StepsSum(j, Pick(Bit(w, 1), a), Pick(Bit(w, 2), b));
    StepsSum(j, w2, Pick(Bit(w, 4), c));
    StepsSum(j, w3, Pick(Bit(w, 8), d));
    StepsSum(j, w4, Pick(Bit(w, 16), e));
  }

  function Top(c: bv32): bv32 {
    c >> 25
  }

  function Rest(c: bv32): bv32 {
    c & 0x1ff_ffff
  }

  lemma TopRest(c: bv32)
    requires c < 0x4000_0000
    ensures Rest(c) < 0x200_0000
    ensures c == Sum(Rest(c), Five(Top(c), 0x200_0000, 0x400_0000, 0x800_0000, 0x1000_0000, 0x2000_0000))
  {
    hide Five;
    TopBits(Top(c));
  }

  lemma TopBits(w: bv32)
    ensures Five(w, 0x200_0000, 0x400_0000, 0x800_0000, 0x1000_0000, 0x2000_0000) == (w & 0x1f) << 25
  {
  }

  /** The generator vanishes at its three roots: reducing by it changes no value there. */
  lemma StepsAll(j: nat, c: bv32)
    requires j <= 2 && c < 0x4000_0000
    ensures Evaluate(j, Next(c), 6) == Multiply(j, Evaluate(j, c, 6))
  {
    hide Sum, Top, Rest, Five, Evaluate, Multiply, Next;
    TopRest(c);
    StepsSmall(j, Rest(c));
    StepsLeading(j);
    StepsFive(j, Top(c), 0x200_0000, 0x400_0000, 0x800_0000, 0x1000_0000, 0x2000_0000);
    StepsSum(j, Rest(c), Five(Top(c), 0x200_0000, 0x400_0000, 0x800_0000, 0x1000_0000, 0x2000_0000));
  }

  // ----- Lists of values -----

  lemma EvaluateValue(j: nat, v: bv8)
    requires v < 32
    ensures Evaluate(j, Wide(v), 6) == Wide(v)
  {
    hide Multiply, Evaluate, Sum, Element;
    assert Down(Wide(v)) == 0 && Low(Wide(v)) == Wide(v);
    hide Wide, Down, Low;
    EvaluateTop(j, Wide(v), 6);
    EvaluateZero(j, 5);
    TwiceZero();
    MultiplyFacts(j, 0);
    SumFacts(Wide(v), 0, 0, 0);
  }

  lemma EvaluateTop(j: nat, c: bv32, n: nat)
    requires n > 0
    ensures Evaluate(j, c, n) == Sum(Multiply(j, Evaluate(j, Down(c), n - 1)), Low(c))
  {
    hide Multiply, Sum, Low, Down;
  }

  /** The remainder of a list has the list's value at each of the three roots. */
  lemma {:induction false} RunAtRoot(j: nat, values: seq<bv8>)
    requires j <= 2 && FiveBits(values)
    ensures Evaluate(j, Run(0, values), 6) == Syndrome(j, values)
  {
    hide Multiply, Evaluate, Sum, Next, Wide;
    if values == [] {
      EvaluateZero(j, 6);
    } else {
      var n := |values| - 1;
      var p := Run(0, values[..n]);
      RunAtRoot(j, values[..n]);
      RunRange(0, values[..n]);
      StepsAll(j, p);
      EvaluateLinear(j, Next(p), Wide(values[n]), 6);
      EvaluateValue(j, values[n]);
    }
  }

  /** Multiplication by the n-th power of a root. */
  function Raise(j: nat, n: nat, w: bv32): bv32 {
    if n == 0 then w else Multiply(j, Raise(j, n - 1, w))
  }

  /** What the value at position `p` adds to a list's value at a root. */
  function Part(j: nat, d: seq<bv8>, p: nat): bv32 {
    if p < |d| then Raise(j, |d| - 1 - p, Wide(d[p])) else 0
  }

  function Last(d: seq<bv8>, p: nat): bv32
    requires d != []
  {
    if p == |d| - 1 then Wide(d[p]) else 0
  }

  lemma PartStep(j: nat, d: seq<bv8>, p: nat)
    requires d != []
    ensures Part(j, d, p) == Sum(Multiply(j, Part(j, d[..|d| - 1], p)), Last(d, p))
  {
    hide Multiply, Sum, Wide, Element, Twice;
    TwiceZero();
    MultiplyFacts(j, 0);
    if p < |d| {
      SumFacts(Part(j, d, p), 0, 0, 0);
    } else {
      SumFacts(0, 0, 0, 0);
    }
  }

  ghost predicate OnlyAt(d: seq<bv8>, p: nat, q: nat, r: nat) {
    forall i :: 0 <= i < |d| && i != p && i != q && i != r ==> d[i] == 0
  }

  lemma LastSum(d: seq<bv8>, p: nat, q: nat, r: nat)
    requires d != [] && OnlyAt(d, p, q, r) && p != q && p != r && q != r
    ensures Wide(d[|d| - 1]) == Sum(Sum(Last(d, p), Last(d, q)), Last(d, r))
  {
    hide Sum, Wide;
    var v := Wide(d[|d| - 1]);
    WideZero();
    SumFacts(v, 0, 0, 0);
    SumFacts(0, 0, 0, 0);
  }

  /** With at most three values different from zero, a list's value at a root is a sum of three. */
  lemma {:induction false} Decompose(j: nat, d: seq<bv8>, p: nat, q: nat, r: nat)
    requires OnlyAt(d, p, q, r) && p != q && p != r && q != r
    ensures Syndrome(j, d) == Sum(Sum(Part(j, d, p), Part(j, d, q)), Part(j, d, r))
  {
    hide Multiply, Sum, Wide, Last;
    if d == [] {
      SumFacts(0, 0, 0, 0);
    } else {
      var d' := d[..|d| - 1];
      Decompose(j, d', p, q, r);
      LastSum(d, p, q, r);
      hide Part;
      PartStep(j, d, p);
      PartStep(j, d, q);
      PartStep(j, d, r);
      var a, b, c := Part(j, d', p), Part(j, d', q), Part(j, d', r);
      MultiplyLinear(j, Sum(a, b), c);
      MultiplyLinear(j, a, b);
      var a', b', c' := Multiply(j, a), Multiply(j, b), Multiply(j, c);
      SumFacts(Sum(a', b'), c', Sum(Last(d, p), Last(d, q)), Last(d, r));
      SumFacts(a', b', Last(d, p), Last(d, q));
    }
  }

  // ----- Powers of the roots as powers of e -----

  lemma {:induction false} RootPower(n: nat, w: bv32)
    requires Element(w)
    ensures Root(Power(n, w)) == Power(n, Root(w))
  {
    hide Root, Times, Square, Twice, Element;
    if n > 0 {
      RootPower(n - 1, w);
      PowerElement(n - 1, w);
      AllCommute(Power(n - 1, w));
    }
  }

  lemma RootOne()
    ensures Root(1) == 0x1bd && Root(0) == 0
  {
  }

  /** The maps of `Multiply` are multiplication by e^997, e^998 and e^999. */
  lemma RootsOfGenerator(j: nat, w: bv32)
    requires Element(w)
    ensures Multiply(j, w) == Power(997 + j, w)
  {
    hide Power, Multiply, Root, Element, Square;
    MultiplyPower(j, w);
    PowerAdd(j, 997, w);
    RootOne();
    if w == 0 {
      PowerElement(997, w);
    } else {
      var k := IsPower(w);
      OneIsElement();
      RootPower(k, 1);
      Power997();
      PowerAdd(k, 997, 1);
      PowerAdd(997, k, 1);
    }
  }

  lemma {:induction false} MultiplyPower(j: nat, w: bv32)
    ensures Multiply(j, w) == Power(j, Root(w))
  {
    hide Root, Times;
    if j > 0 { MultiplyPower(j - 1, w); }
  }

  lemma {:induction false} RaiseElement(j: nat, n: nat, w: bv32)
    requires Element(w)
    ensures Element(Raise(j, n, w)) && (Raise(j, n, w) == 0 <==> w == 0)
  {
    hide Multiply, Element;
    if n > 0 {
      RaiseElement(j, n - 1, w);
      MultiplyFacts(j, Raise(j, n - 1, w));
    }
  }

  /** The n-th power of e^(997 + j) is e^(j n) times that of e^997. */
  lemma {:induction false} RaisePower(j: nat, n: nat, w: bv32)
    requires Element(w)
    ensures Raise(j, n, w) == Power(j * n, Raise(0, n, w))
  {
    hide Root, Times, Element;
    if n == 0 {
      assert j * n == 0;
    } else {
      hide Power;
      var v := Raise(0, n - 1, w);
      RaisePower(j, n - 1, w);
      RaiseElement(0, n - 1, w);
      MultiplyPower(j, Raise(j, n - 1, w));
      RootPower(j * (n - 1), v);
      PowerAdd(j, j * (n - 1), Root(v));
      assert j * n == j + j * (n - 1);
    }
  }

  // ----- Three equations -----

  ghost predicate Apart(i: nat, j: nat) {
    i != j && i - j < 1023 && j - i < 1023
  }

  lemma SamePowers(i: nat, j: nat, w: bv32)
    requires Element(w) && Apart(i, j) && Power(i, w) == Power(j, w)
    ensures w == 0
  {
    hide Power;
    if w != 0 {
      if i < j { PowersApart(i, j, w); } else { PowersApart(j, i, w); }
    }
  }

  lemma TwoPowers(i: nat, j: nat, a: bv32, b: bv32)
    requires Element(a) && Element(b) && Apart(i, j)
    requires Sum(a, b) == 0 && Sum(Power(i, a), Power(j, b)) == 0
    ensures a == 0 && b == 0
  {
    hide Power, Sum, Apart, Element;
    SumZero(a, b);
    SumZero(Power(i, a), Power(j, b));
    SamePowers(i, j, a);
  }

  lemma SumCancel(a: bv32, b: bv32, c: bv32, d: bv32)
    ensures Sum(Sum(a, b), Sum(c, d)) == 0 <==> Sum(a, c) == Sum(b, d)
  {
    hide Sum;
    SumFacts(a, b, c, d);
    SumZero(Sum(a, c), Sum(b, d));
  }

  /** The first step of the elimination: the third unknown goes. */
  lemma Eliminate(i: nat, j: nat, k: nat, a: bv32, b: bv32)
    requires Sum(Sum(Power(i, a), Power(j, b)), Power(k, Sum(a, b))) == 0
    ensures Sum(Power(i, a), Power(k, a)) == Sum(Power(j, b), Power(k, b))
  {
    hide Power, Sum;
    PowerLinear(k, a, b);
    SumCancel(Power(i, a), Power(j, b), Power(k, a), Power(k, b));
  }

  function Twofold(i: nat, a: bv32): bv32 {
    Power(2 * i, a)
  }

  function Crossed(i: nat, k: nat, a: bv32): bv32 {
    Power(i + k, a)
  }

  lemma PowerPair(i: nat, k: nat, a: bv32, w: bv32)
    requires w == Sum(Power(i, a), Power(k, a))
    ensures Power(i, w) == Sum(Twofold(i, a), Crossed(i, k, a))
    ensures Power(k, w) == Sum(Crossed(i, k, a), Twofold(k, a))
  {
    hide Power, Sum;
    PowerLinear(i, Power(i, a), Power(k, a));
    PowerLinear(k, Power(i, a), Power(k, a));
    PowerAdd(i, i, a);
    PowerAdd(i, k, a);
    PowerAdd(k, i, a);
    PowerAdd(k, k, a);
  }

  lemma Combine(a: bv32, b: bv32, c: bv32, d: bv32, x: bv32, y: bv32)
    requires Sum(a, c) == Sum(b, d) && Sum(x, c) == Sum(y, d)
    ensures Sum(a, x) == Sum(b, y)
  {
    hide *;
    SumFacts(a, c, x, c);
    SumFacts(b, d, y, d);
    SumFacts(c, 0, 0, 0);
    SumFacts(d, 0, 0, 0);
    SumFacts(Sum(a, x), 0, 0, 0);
    SumFacts(Sum(b, y), 0, 0, 0);
  }

  /** The second step: what remains is equal, also after multiplication by different powers. */
  lemma EliminateNext(i: nat, j: nat, k: nat, a: bv32, b: bv32, w: bv32)
    requires w == Sum(Power(i, a), Power(k, a)) && w == Sum(Power(j, b), Power(k, b))
    requires Sum(Twofold(i, a), Twofold(k, a)) == Sum(Twofold(j, b), Twofold(k, b))
    ensures Power(i, w) == Power(j, w)
  {
    hide *;
    PowerPair(i, k, a, w);
    PowerPair(j, k, b, w);
    Combine(Twofold(i, a), Twofold(j, b), Twofold(k, a), Twofold(k, b), Crossed(i, k, a), Crossed(j, k, b));
  }

  lemma Eliminated(i: nat, j: nat, k: nat, a: bv32, b: bv32)
    requires Element(a) && Element(b) && Apart(i, j) && Apart(i, k) && Apart(j, k)
    requires Sum(Sum(Power(i, a), Power(j, b)), Power(k, Sum(a, b))) == 0
    requires Sum(Sum(Power(2 * i, a), Power(2 * j, b)), Power(2 * k, Sum(a, b))) == 0
    ensures a == 0 && b == 0
  {
    hide Power, Sum, Apart, Element;
    var w := Sum(Power(i, a), Power(k, a));
    Eliminate(i, j, k, a, b);
    Eliminate(2 * i, 2 * j, 2 * k, a, b);
    EliminateNext(i, j, k, a, b, w);
    PowerElement(i, a);
    PowerElement(k, a);
    SumElement(Power(i, a), Power(k, a));
    SamePowers(i, j, w);
    SumZero(Power(i, a), Power(k, a));
    SumZero(Power(j, b), Power(k, b));
    SamePowers(i, k, a);
    SamePowers(j, k, b);
  }

  /** Three equations in three different powers of e: only zeros solve them. */
  lemma ThreePowers(i: nat, j: nat, k: nat, a: bv32, b: bv32, c: bv32)
    requires Element(a) && Element(b) && Apart(i, j) && Apart(i, k) && Apart(j, k)
    requires Sum(Sum(a, b), c) == 0
    requires Sum(Sum(Power(i, a), Power(j, b)), Power(k, c)) == 0
    requires Sum(Sum(Power(2 * i, a), Power(2 * j, b)), Power(2 * k, c)) == 0
    ensures a == 0 && b == 0 && c == 0
  {
    hide *;
    SumZero(Sum(a, b), c);
    Eliminated(i, j, k, a, b);
    SumFacts(0, 0, 0, 0);
  }

  // ----- Up to three errors -----

  /** `d` has the value zero at the three roots. */
  ghost predicate Vanishes(d: seq<bv8>) {
    Syndrome(0, d) == 0 && Syndrome(1, d) == 0 && Syndrome(2, d) == 0
  }

  lemma ZeroRun(d: seq<bv8>)
    requires FiveBits(d) && Run(0, d) == 0
    ensures Vanishes(d)
  {
    hide Run, Evaluate, Syndrome;
    RunAtRoot(0, d);
    RunAtRoot(1, d);
    RunAtRoot(2, d);
    EvaluateZero(0, 6);
    EvaluateZero(1, 6);
    EvaluateZero(2, 6);
  }

  lemma WideElement(v: bv8)
    requires v < 32
    ensures Element(Wide(v)) && (Wide(v) == 0 <==> v == 0)
  {
  }

  /** The part of a value at the second and third root is a power of e times its part at the first. */
  lemma PartPowers(d: seq<bv8>, p: nat)
    requires p < |d| && d[p] < 32
    ensures var n, a := |d| - 1 - p, Part(0, d, p);
            && Element(a) && (a == 0 <==> d[p] == 0)
            && Part(1, d, p) == Power(n, a) && Part(2, d, p) == Power(2 * n, a)
  {
    hide Power, Raise, Wide, Element;
    var n := |d| - 1 - p;
    WideElement(d[p]);
    RaiseElement(0, n, Wide(d[p]));
    RaisePower(1, n, Wide(d[p]));
    RaisePower(2, n, Wide(d[p]));
  }

  lemma ThreeValues(d: seq<bv8>, p: nat, q: nat, r: nat)
    requires FiveBits(d) && p < |d| && q < |d| && r < |d| && OnlyAt(d, p, q, r)
    requires Apart(p, q) && Apart(p, r) && Apart(q, r) && Vanishes(d)
    ensures d[p] == 0
  {
    hide Part, Power, Sum, Element, Syndrome, OnlyAt;
    Decompose(0, d, p, q, r);
    Decompose(1, d, p, q, r);
    Decompose(2, d, p, q, r);
    PartPowers(d, p);
    PartPowers(d, q);
    PartPowers(d, r);
    var n := |d| - 1;
    ThreePowers(n - p, n - q, n - r, Part(0, d, p), Part(0, d, q), Part(0, d, r));
  }

  lemma TwoValues(d: seq<bv8>, p: nat, q: nat)
    requires FiveBits(d) && p < |d| && q < |d| && OnlyAt(d, p, q, |d|) && Apart(p, q) && Vanishes(d)
    ensures d[p] == 0
  {
    hide Power, Sum, Element, Syndrome, OnlyAt, Raise;
    Decompose(0, d, p, q, |d|);
    Decompose(1, d, p, q, |d|);
    assert Part(0, d, |d|) == 0 && Part(1, d, |d|) == 0;
    hide Part;
    PartPowers(d, p);
    PartPowers(d, q);
    var n, a, b := |d| - 1, Part(0, d, p), Part(0, d, q);
    SumFacts(Sum(a, b), 0, 0, 0);
    SumFacts(Sum(Power(n - p, a), Power(n - q, b)), 0, 0, 0);
    TwoPowers(n - p, n - q, a, b);
  }

  lemma OneValue(d: seq<bv8>, p: nat)
    requires FiveBits(d) && p < |d| && OnlyAt(d, p, |d|, |d| + 1) && Vanishes(d)
    ensures d[p] == 0
  {
    hide Sum, Element, Syndrome, OnlyAt, Raise, Power;
    Decompose(0, d, p, |d|, |d| + 1);
    assert Part(0, d, |d|) == 0 && Part(0, d, |d| + 1) == 0;
    hide Part;
    PartPowers(d, p);
    SumFacts(Part(0, d, p), 0, 0, 0);
  }

  /** The positions at which two lists differ. */
  ghost function Errors(x: seq<bv8>, y: seq<bv8>): set<nat>
    requires |x| == |y|
  {
    set i: nat | i < |x| && x[i] != y[i]
  }

  /** The remainder of the difference of two lists with equal remainders is zero. */
  lemma EqualRuns(c: bv32, x: seq<bv8>, y: seq<bv8>)
    requires |x| == |y| && FiveBits(x) && FiveBits(y) && Run(c, x) == Run(c, y)
    ensures FiveBits(Xor(x, y)) && Vanishes(Xor(x, y))
  {
    hide Run, Sum, Vanishes;
    XorFacts(x, y);
    RunXor(c, c, x, y);
    SumFacts(c, 0, 0, 0);
    SumFacts(Run(c, x), 0, 0, 0);
    ZeroRun(Xor(x, y));
  }

  lemma OnlyErrors(x: seq<bv8>, y: seq<bv8>, p: nat, q: nat, r: nat)
    requires |x| == |y| && FiveBits(x) && FiveBits(y) && Errors(x, y) <= {p, q, r}
    ensures OnlyAt(Xor(x, y), p, q, r)
  {
    hide FiveBits;
    XorFacts(x, y);
    forall i | 0 <= i < |x| && i != p && i != q && i != r ensures x[i] == y[i] {
      assert i in Errors(x, y) <==> x[i] != y[i];
    }
  }

  lemma ErrorIn(x: seq<bv8>, y: seq<bv8>, p: nat)
    requires |x| == |y| && FiveBits(x) && FiveBits(y) && p in Errors(x, y)
    ensures p < |Xor(x, y)| && Xor(x, y)[p] != 0
  {
    hide FiveBits;
    XorFacts(x, y);
  }

  lemma SomeError(x: seq<bv8>, y: seq<bv8>) returns (p: nat)
    requires |x| == |y| && x != y
    ensures p in Errors(x, y)
  {
    p :| p < |x| && x[p] != y[p];
  }

  lemma OneError(c: bv32, x: seq<bv8>, y: seq<bv8>, p: nat)
    requires |x| == |y| && FiveBits(x) && FiveBits(y) && p in Errors(x, y) && Errors(x, y) <= {p}
    ensures Run(c, x) != Run(c, y)
  {
    hide *;
    if Run(c, x) == Run(c, y) {
      EqualRuns(c, x, y);
      ErrorIn(x, y, p);
      OnlyErrors(x, y, p, |x|, |x| + 1);
      OneValue(Xor(x, y), p);
    }
  }

  lemma TwoErrors(c: bv32, x: seq<bv8>, y: seq<bv8>, p: nat, q: nat)
    requires |x| == |y| && FiveBits(x) && FiveBits(y) && p in Errors(x, y) && q in Errors(x, y)
    requires Errors(x, y) <= {p, q} && Apart(p, q)
    ensures Run(c, x) != Run(c, y)
  {
    hide *;
    if Run(c, x) == Run(c, y) {
      EqualRuns(c, x, y);
      ErrorIn(x, y, p);
      ErrorIn(x, y, q);
      OnlyErrors(x, y, p, q, |x|);
      TwoValues(Xor(x, y), p, q);
    }
  }

  lemma ThreeErrors(c: bv32, x: seq<bv8>, y: seq<bv8>, p: nat, q: nat, r: nat)
    requires |x| == |y| && FiveBits(x) && FiveBits(y) && p in Errors(x, y) && q in Errors(x, y) && r in Errors(x, y)
    requires Errors(x, y) <= {p, q, r} && Apart(p, q) && Apart(p, r) && Apart(q, r)
    ensures Run(c, x) != Run(c, y)
  {
    hide *;
    if Run(c, x) == Run(c, y) {
      EqualRuns(c, x, y);
      ErrorIn(x, y, p);
      ErrorIn(x, y, q);
      ErrorIn(x, y, r);
      OnlyErrors(x, y, p, q, r);
      ThreeValues(Xor(x, y), p, q, r);
    }
  }

  /** Up to three errors within 1023 consecutive values change the remainder, whatever precedes them. */
  lemma ErrorsDetected(c: bv32, x: seq<bv8>, y: seq<bv8>)
    requires |x| == |y| && FiveBits(x) && FiveBits(y) && x != y
    requires |Errors(x, y)| <= 3 && forall i, j :: i in Errors(x, y) && j in Errors(x, y) ==> i - j < 1023
    ensures Run(c, x) != Run(c, y)
  {
    hide Run, FiveBits, Errors;
    var s := Errors(x, y);
    var p := SomeError(x, y);
    if s - {p} == {} {
      assert s == {p} + (s - {p});
      OneError(c, x, y, p);
    } else {
      var q :| q in s - {p};
      if s - {p} - {q} == {} {
        assert s == {p, q} + (s - {p} - {q});
        TwoErrors(c, x, y, p, q);
      } else {
        var r :| r in s - {p} - {q};
        NoMore(s, p, q, r);
        ThreeErrors(c, x, y, p, q, r);
      }
    }
  }

  lemma NoMore(s: set<nat>, p: nat, q: nat, r: nat)
    requires |s| <= 3 && p in s && q in s - {p} && r in s - {p} - {q}
    ensures s <= {p, q, r}
  {
    assert |s - {p} - {q} - {r}| == 0;
    assert s == {p, q, r} + (s - {p} - {q} - {r});
  }

  /** Different lists of values accepted for the same encoding differ in at least four places. */
  lemma AcceptedApart(hrp: seq<bv8>, x: seq<bv8>, y: seq<bv8>)
    requires |x| == |y| <= 1023 && FiveBits(x) && FiveBits(y) && x != y
    requires Verify(hrp, x) == Verify(hrp, y) && !Verify(hrp, x).INVALID?
    ensures |Errors(x, y)| >= 4
  {
    hide Run, FiveBits, Errors;
    var front := Highs(hrp) + [0] + Lows(hrp);
    RunConcat(1, front, x);
    RunConcat(1, front, y);
    ErrorsBelow(x, y);
    if |Errors(x, y)| <= 3 { ErrorsDetected(Run(1, front), x, y); }
  }

  // ----- The human-readable part -----

  /** The expansion of the human-readable part, position by position. */
  lemma PreparedAt(hrp: seq<bv8>, values: seq<bv8>)
    ensures var ret, n := Prepare(hrp, values), |hrp|;
            && |ret| == 2 * n + 1 + |values| && ret[n] == 0 && ret[2 * n + 1..] == values
            && forall i :: 0 <= i < n ==> ret[i] == HighBits(hrp[i]) && ret[n + 1 + i] == LowBits(hrp[i])
  {
    hide HighBits, LowBits;
    var ret, n := Prepare(hrp, values), |hrp|;
    assert ret[2 * n + 1..] == values;
  }

  lemma BitsTell(a: bv8, b: bv8)
    ensures HighBits(a) < 32 && LowBits(a) < 32
    ensures HighBits(a) == HighBits(b) && LowBits(a) == LowBits(b) ==> a == b
  {
  }

  /** Positions moved up. */
  ghost function Moved(s: set<nat>, up: nat): set<nat> {
    set i | i in s :: i + up
  }

  lemma {:induction false} MovedCount(s: set<nat>, up: nat)
    ensures |Moved(s, up)| == |s|
  {
    if s == {} {
      assert Moved(s, up) == {};
    } else {
      var x :| x in s;
      MovedCount(s - {x}, up);
      assert s == (s - {x}) + {x};
      assert Moved(s, up) == Moved(s - {x}, up) + {x + up};
    }
  }

  lemma UnionCount(a: set<nat>, b: set<nat>)
    ensures |a + b| <= |a| + |b|
  {
    assert a + b == a + (b - a);
    assert b == (b - a) + (b * a);
  }

  lemma PreparedFiveBits(hrp: seq<bv8>, values: seq<bv8>)
    requires FiveBits(values)
    ensures FiveBits(Prepare(hrp, values))
  {
    hide HighBits, LowBits;
    forall i | 0 <= i < |hrp| ensures HighBits(hrp[i]) < 32 && LowBits(hrp[i]) < 32 {
      BitsTell(hrp[i], hrp[i]);
    }
  }

  /** A changed character of the human-readable part changes at most two coefficients, a changed value one. */
  lemma PreparedErrors(hrp: seq<bv8>, hrp': seq<bv8>, x: seq<bv8>, y: seq<bv8>)
    requires |hrp| == |hrp'| && |x| == |y|
    ensures var a, b := Prepare(hrp, x), Prepare(hrp', y);
            && |a| == |b| && |Errors(a, b)| <= 2 * |Errors(hrp, hrp')| + |Errors(x, y)|
            && (hrp != hrp' || x != y ==> a != b)
  {
    hide Prepare, Errors, Moved;
    var n := |hrp|;
    var h, v := Errors(hrp, hrp'), Errors(x, y);
    PreparedWithin(hrp, hrp', x, y);
    MovedCount(h, n + 1);
    MovedCount(v, 2 * n + 1);
    UnionCount(h, Moved(h, n + 1));
    UnionCount(h + Moved(h, n + 1), Moved(v, 2 * n + 1));
    SubsetSize(Errors(Prepare(hrp, x), Prepare(hrp', y)), h + Moved(h, n + 1) + Moved(v, 2 * n + 1));
    if Prepare(hrp, x) == Prepare(hrp', y) { PreparedTell(hrp, hrp', x, y); }
  }

  lemma SubsetSize(a: set<nat>, b: set<nat>)
    requires a <= b
    ensures |a| <= |b|
  {
    assert b == a + (b - a);
  }

  lemma PreparedTell(hrp: seq<bv8>, hrp': seq<bv8>, x: seq<bv8>, y: seq<bv8>)
    requires |hrp| == |hrp'| && |x| == |y| && Prepare(hrp, x) == Prepare(hrp', y)
    ensures hrp == hrp' && x == y
  {
    hide HighBits, LowBits, Prepare;
    PreparedAt(hrp, x);
    PreparedAt(hrp', y);
    var a, n := Prepare(hrp, x), |hrp|;
    forall i | 0 <= i < n ensures hrp[i] == hrp'[i] {
      assert a[i] == HighBits(hrp[i]) == HighBits(hrp'[i]) && a[n + 1 + i] == LowBits(hrp[i]) == LowBits(hrp'[i]);
      BitsTell(hrp[i], hrp'[i]);
    }
  }

  lemma PreparedWithin(hrp: seq<bv8>, hrp': seq<bv8>, x: seq<bv8>, y: seq<bv8>)
    requires |hrp| == |hrp'| && |x| == |y|
    ensures |Prepare(hrp, x)| == |Prepare(hrp', y)|
    ensures Errors(Prepare(hrp, x), Prepare(hrp', y)) <=
            Errors(hrp, hrp') + Moved(Errors(hrp, hrp'), |hrp| + 1) + Moved(Errors(x, y), 2 * |hrp| + 1)
  {
    hide HighBits, LowBits, Prepare;
    var n := |hrp|;
    PreparedAt(hrp, x);
    PreparedAt(hrp', y);
    var a, b := Prepare(hrp, x), Prepare(hrp', y);
    forall i | i in Errors(a, b)
      ensures i in Errors(hrp, hrp') + Moved(Errors(hrp, hrp'), n + 1) + Moved(Errors(x, y), 2 * n + 1)
    {
      if i < n {
        assert hrp[i] != hrp'[i];
      } else if n < i < 2 * n + 1 {
        assert a[n + 1 + (i - n - 1)] == LowBits(hrp[i - n - 1]) && i - n - 1 in Errors(hrp, hrp');
      } else {
        var k := i - (2 * n + 1);
        assert a[2 * n + 1..][k] == x[k] && b[2 * n + 1..][k] == y[k];
        assert k in Errors(x, y);
      }
    }
  }

  /**
   Two different pairs of human-readable part and values, of equal lengths, that are accepted for the same encoding
   are far apart: counting changed characters of the human-readable part twice, they differ in four places or more.
   */
  lemma TextsApart(hrp: seq<bv8>, hrp': seq<bv8>, x: seq<bv8>, y: seq<bv8>)
    requires |hrp| == |hrp'| && |x| == |y| && FiveBits(x) && FiveBits(y) && (hrp != hrp' || x != y)
    requires 2 * |hrp| + 1 + |x| <= 1023 && Verify(hrp, x) == Verify(hrp', y) && !Verify(hrp, x).INVALID?
    ensures 2 * |Errors(hrp, hrp')| + |Errors(x, y)| >= 4
  {
    hide Run, FiveBits, Errors, Prepare;
    var a, b := Prepare(hrp, x), Prepare(hrp', y);
    PreparedAt(hrp, x);
    PreparedErrors(hrp, hrp', x, y);
    PreparedFiveBits(hrp, x);
    PreparedFiveBits(hrp', y);
    ErrorsBelow(a, b);
    if |Errors(a, b)| <= 3 { ErrorsDetected(1, a, b); }
  }

  /** In particular, values accepted for one human-readable part are not accepted for one changed in one character. */
  lemma PartsApart(hrp: seq<bv8>, k: nat, c: bv8, values: seq<bv8>)
    requires k < |hrp| && hrp[k] != c && FiveBits(values) && 2 * |hrp| + 1 + |values| <= 1023
    requires !Verify(hrp, values).INVALID?
    ensures Verify(hrp[k := c], values) != Verify(hrp, values)
  {
    hide Verify;
    var hrp' := hrp[k := c];
    assert Errors(hrp, hrp') == {k} && Errors(values, values) == {};
    assert hrp'[k] != hrp[k];
    if Verify(hrp', values) == Verify(hrp, values) { TextsApart(hrp, hrp', values, values); }
  }

  lemma ErrorsBelow(x: seq<bv8>, y: seq<bv8>)
    requires |x| == |y|
    ensures forall i :: i in Errors(x, y) ==> i < |x|
  {
  }
}
