/**
 The field GF(1024) in which the Bech32 generator has its roots (`src/bech32.cpp:158-175`): GF(32) extended
 by a root e of x^2 + {9}x + {23}. Ten bits hold the two coefficients of an element.

 The field appears through linear maps of its ten bits: multiplication by e, by e^997 and by {2}, and
 squaring. What is proved of e is that it is primitive: the powers of e below 1023 are all different
 (`PowersApart`), and every element but zero is one of them (`IsPower`).
 */
module Bech32Field {
  import opened Bech32Polys

  ghost predicate Element(w: bv32) {
    w < 0x400
  }

  predicate Bit(w: bv32, bit: bv32) {
    w & bit != 0
  }

  /** The linear map of five bits that takes each of them to the given value. */
  function Five(w: bv32, a: bv32, b: bv32, c: bv32, d: bv32, e: bv32): bv32 {
    Sum(Sum(Sum(Sum(if w & 1 != 0 then a else 0, if w & 2 != 0 then b else 0), if w & 4 != 0 then c else 0),
            if w & 8 != 0 then d else 0), if w & 16 != 0 then e else 0)
  }

  /** Multiplication by e. */
  function Times(w: bv32): bv32 {
    Sum(Five(w, 0x20, 0x40, 0x80, 0x100, 0x200), Five(Down(w), 0x137, 0x247, 0x1ae, 0x35c, 0x3b1))
  }

  /** Multiplication by e^997, the first of three consecutive powers of e that are roots of the generator. */
  function Root(w: bv32): bv32 {
    Sum(Five(w, 0x1bd, 0x353, 0x3af, 0x27e, 0x1f5), Five(Down(w), 0x65, 0xca, 0x194, 0x301, 0x322))
  }

  /** The square of an element, which is linear in it. */
  function Square(w: bv32): bv32 {
    Sum(Five(w, 0x1, 0x4, 0x10, 0x12, 0x1a), Five(Down(w), 0x137, 0x1ae, 0x3b1, 0x1f6, 0x2aa))
  }

  /** Multiplication by the element {2} of GF(32), coefficient by coefficient. */
  function Twice(w: bv32): bv32 {
    Sum(Five(w, 0x2, 0x4, 0x8, 0x10, 0x9), Five(Down(w), 0x40, 0x80, 0x100, 0x200, 0x120))
  }

  /** Multiplication by e^n. */
  function Power(n: nat, w: bv32): bv32 {
    if n == 0 then w else Times(Power(n - 1, w))
  }

  // ----- The three maps -----

  lemma BitLinear(a: bv32, b: bv32, bit: bv32)
    requires bit == 1 || bit == 2 || bit == 4 || bit == 8 || bit == 16
    ensures Bit(Sum(a, b), bit) <==> Bit(a, bit) != Bit(b, bit)
  {
    HasBit(a, b, bit);
  }

  lemma PickLinear(a: bv32, b: bv32, bit: bv32, g: bv32)
    requires bit == 1 || bit == 2 || bit == 4 || bit == 8 || bit == 16
    ensures Pick(Bit(Sum(a, b), bit), g) == Sum(Pick(Bit(a, bit), g), Pick(Bit(b, bit), g))
  {
    hide Bit, Sum;
    BitLinear(a, b, bit);
    SumFacts(g, 0, 0, 0);
    SumFacts(0, 0, 0, 0);
  }

  lemma FiveBitwise(w: bv32, a: bv32, b: bv32, c: bv32, d: bv32, e: bv32)
    ensures Five(w, a, b, c, d, e) ==
            Sum(Sum(Sum(Sum(Pick(Bit(w, 1), a), Pick(Bit(w, 2), b)), Pick(Bit(w, 4), c)), Pick(Bit(w, 8), d)),
                Pick(Bit(w, 16), e))
  {
    hide Sum;
  }

  lemma FiveLinear(x: bv32, y: bv32, a: bv32, b: bv32, c: bv32, d: bv32, e: bv32)
    ensures Five(Sum(x, y), a, b, c, d, e) == Sum(Five(x, a, b, c, d, e), Five(y, a, b, c, d, e))
  {
    hide Bit, Sum, Pick, Five;
    FiveBitwise(x, a, b, c, d, e);
    FiveBitwise(y, a, b, c, d, e);
    FiveBitwise(Sum(x, y), a, b, c, d, e);
    PickLinear(x, y, 1, a);
    PickLinear(x, y, 2, b);
    PickLinear(x, y, 4, c);
    PickLinear(x, y, 8, d);
    PickLinear(x, y, 16, e);
    var x1, y1 := Pick(Bit(x, 1), a), Pick(Bit(y, 1), a);
    var x2, y2 := Sum(x1, Pick(Bit(x, 2), b)), Sum(y1, Pick(Bit(y, 2), b));
    var x3, y3 := Sum(x2, Pick(Bit(x, 4), c)), Sum(y2, Pick(Bit(y, 4), c));
    var x4, y4 := Sum(x3, Pick(Bit(x, 8), d)), Sum(y3, Pick(Bit(y, 8), d));
    SumFacts(x1, y1, Pick(Bit(x, 2), b), Pick(Bit(y, 2), b));
    SumFacts(x2, y2, Pick(Bit(x, 4), c), Pick(Bit(y, 4), c));
    SumFacts(x3, y3, Pick(Bit(x, 8), d), Pick(Bit(y, 8), d));
    SumFacts(x4, y4, Pick(Bit(x, 16), e), Pick(Bit(y, 16), e));
  }

  lemma DownLinear(a: bv32, b: bv32)
    ensures Down(Sum(a, b)) == Sum(Down(a), Down(b))
  {
  }

  lemma TimesLinear(a: bv32, b: bv32)
    ensures Times(Sum(a, b)) == Sum(Times(a), Times(b))
  {
    hide Five, Sum, Down;
    DownLinear(a, b);
    FiveLinear(a, b, 0x20, 0x40, 0x80, 0x100, 0x200);
    FiveLinear(Down(a), Down(b), 0x137, 0x247, 0x1ae, 0x35c, 0x3b1);
    SumFacts(Five(a, 0x20, 0x40, 0x80, 0x100, 0x200), Five(b, 0x20, 0x40, 0x80, 0x100, 0x200),
             Five(Down(a), 0x137, 0x247, 0x1ae, 0x35c, 0x3b1), Five(Down(b), 0x137, 0x247, 0x1ae, 0x35c, 0x3b1));
  }

  lemma RootLinear(a: bv32, b: bv32)
    ensures Root(Sum(a, b)) == Sum(Root(a), Root(b))
  {
    hide Five, Sum, Down;
    DownLinear(a, b);
    FiveLinear(a, b, 0x1bd, 0x353, 0x3af, 0x27e, 0x1f5);
    FiveLinear(Down(a), Down(b), 0x65, 0xca, 0x194, 0x301, 0x322);
    SumFacts(Five(a, 0x1bd, 0x353, 0x3af, 0x27e, 0x1f5), Five(b, 0x1bd, 0x353, 0x3af, 0x27e, 0x1f5),
             Five(Down(a), 0x65, 0xca, 0x194, 0x301, 0x322), Five(Down(b), 0x65, 0xca, 0x194, 0x301, 0x322));
  }

  lemma TimesFacts(w: bv32)
    requires Element(w)
    ensures Element(Times(w)) && (Times(w) == 0 <==> w == 0)
  {
  }

  lemma RootFacts(w: bv32)
    requires Element(w)
    ensures Element(Root(w)) && (Root(w) == 0 <==> w == 0)
  {
  }

  lemma SumZero(a: bv32, b: bv32)
    ensures Sum(a, b) == 0 <==> a == b
  {
    hide Sum;
    SumFacts(a, b, 0, b);
    SumFacts(a, 0, 0, 0);
    SumFacts(b, 0, 0, 0);
  }

  lemma SumElement(a: bv32, b: bv32)
    requires Element(a) && Element(b)
    ensures Element(Sum(a, b)) && (Sum(a, b) == 0 <==> a == b)
  {
    hide Sum, Element;
    SumZero(a, b);
    SumWithin(a, b);
  }

  lemma SumWithin(a: bv32, b: bv32)
    requires Element(a) && Element(b)
    ensures Element(Sum(a, b))
  {
  }

  lemma SquareLinear(a: bv32, b: bv32)
    ensures Square(Sum(a, b)) == Sum(Square(a), Square(b))
  {
    hide Five, Sum, Down;
    DownLinear(a, b);
    FiveLinear(a, b, 0x1, 0x4, 0x10, 0x12, 0x1a);
    FiveLinear(Down(a), Down(b), 0x137, 0x1ae, 0x3b1, 0x1f6, 0x2aa);
    SumFacts(Five(a, 0x1, 0x4, 0x10, 0x12, 0x1a), Five(b, 0x1, 0x4, 0x10, 0x12, 0x1a),
             Five(Down(a), 0x137, 0x1ae, 0x3b1, 0x1f6, 0x2aa), Five(Down(b), 0x137, 0x1ae, 0x3b1, 0x1f6, 0x2aa));
  }

  lemma TwiceLinear(a: bv32, b: bv32)
    ensures Twice(Sum(a, b)) == Sum(Twice(a), Twice(b))
  {
    hide Five, Sum, Down;
    DownLinear(a, b);
    FiveLinear(a, b, 0x2, 0x4, 0x8, 0x10, 0x9);
    FiveLinear(Down(a), Down(b), 0x40, 0x80, 0x100, 0x200, 0x120);
    SumFacts(Five(a, 0x2, 0x4, 0x8, 0x10, 0x9), Five(b, 0x2, 0x4, 0x8, 0x10, 0x9),
             Five(Down(a), 0x40, 0x80, 0x100, 0x200, 0x120), Five(Down(b), 0x40, 0x80, 0x100, 0x200, 0x120));
  }

  /** The multiplications commute, and (e w)^2 = e^2 w^2. */
  ghost predicate Commutes(w: bv32) {
    && Root(Times(w)) == Times(Root(w)) && Square(Times(w)) == Times(Times(Square(w)))
    && Twice(Times(w)) == Times(Twice(w)) && Twice(Root(w)) == Root(Twice(w))
  }

  lemma CommutesSum(a: bv32, b: bv32)
    requires Commutes(a) && Commutes(b)
    ensures Commutes(Sum(a, b))
  {
    hide Root, Times, Square, Twice, Sum;
    TimesLinear(a, b);
    TwiceLinear(a, b);
    TwiceLinear(Times(a), Times(b));
    TwiceLinear(Root(a), Root(b));
    TimesLinear(Twice(a), Twice(b));
    RootLinear(Twice(a), Twice(b));
    RootLinear(a, b);
    SquareLinear(a, b);
    RootLinear(Times(a), Times(b));
    TimesLinear(Root(a), Root(b));
    SquareLinear(Times(a), Times(b));
    TimesLinear(Square(a), Square(b));
    TimesLinear(Times(Square(a)), Times(Square(b)));
  }

  lemma CommutesFive(w: bv32, a: bv32, b: bv32, c: bv32, d: bv32, e: bv32)
    requires Commutes(a) && Commutes(b) && Commutes(c) && Commutes(d) && Commutes(e)
    ensures Commutes(Five(w, a, b, c, d, e))
  {
    hide Sum, Bit, Commutes, Five;
    FiveBitwise(w, a, b, c, d, e);
    CommutesAt0();
    var w2 := Sum(Pick(Bit(w, 1), a), Pick(Bit(w, 2), b));
    var w3 := Sum(w2, Pick(Bit(w, 4), c));
    var w4 := Sum(w3, Pick(Bit(w, 8), d));
    CommutesSum(Pick(Bit(w, 1), a), Pick(Bit(w, 2), b));
    CommutesSum(w2, Pick(Bit(w, 4), c));
    CommutesSum(w3, Pick(Bit(w, 8), d));
    CommutesSum(w4, Pick(Bit(w, 16), e));
  }

  // The laws on the ten bits.

  lemma CommutesAt0()
    ensures Commutes(0)
  {
    assert Times(0x0) == 0x0 && Root(0x0) == 0x0 && Square(0x0) == 0x0 && Twice(0x0) == 0x0;
    assert Root(0x0) == 0x0 && Times(0x0) == 0x0;
    assert Square(0x0) == 0x0 && Times(0x0) == 0x0 && Times(0x0) == 0x0;
    assert Twice(0x0) == 0x0 && Times(0x0) == 0x0 && Twice(0x0) == 0x0 && Root(0x0) == 0x0;
  }

  lemma CommutesAt1()
    ensures Commutes(1)
  {
    assert Times(0x1) == 0x20 && Root(0x1) == 0x1bd && Square(0x1) == 0x1 && Twice(0x1) == 0x2;
    assert Root(0x20) == 0x65 && Times(0x1bd) == 0x65;
    assert Square(0x20) == 0x137 && Times(0x1) == 0x20 && Times(0x20) == 0x137;
    assert Twice(0x20) == 0x40 && Times(0x2) == 0x40 && Twice(0x1bd) == 0x353 && Root(0x2) == 0x353;
  }

  lemma CommutesAt2()
    ensures Commutes(2)
  {
    assert Times(0x2) == 0x40 && Root(0x2) == 0x353 && Square(0x2) == 0x4 && Twice(0x2) == 0x4;
    assert Root(0x40) == 0xca && Times(0x353) == 0xca;
    assert Square(0x40) == 0x1ae && Times(0x4) == 0x80 && Times(0x80) == 0x1ae;
    assert Twice(0x40) == 0x80 && Times(0x4) == 0x80 && Twice(0x353) == 0x3af && Root(0x4) == 0x3af;
  }

  lemma CommutesAt4()
    ensures Commutes(4)
  {
    assert Times(0x4) == 0x80 && Root(0x4) == 0x3af && Square(0x4) == 0x10 && Twice(0x4) == 0x8;
    assert Root(0x80) == 0x194 && Times(0x3af) == 0x194;
    assert Square(0x80) == 0x3b1 && Times(0x10) == 0x200 && Times(0x200) == 0x3b1;
    assert Twice(0x80) == 0x100 && Times(0x8) == 0x100 && Twice(0x3af) == 0x27e && Root(0x8) == 0x27e;
  }

  lemma CommutesAt8()
    ensures Commutes(8)
  {
    assert Times(0x8) == 0x100 && Root(0x8) == 0x27e && Square(0x8) == 0x12 && Twice(0x8) == 0x10;
    assert Root(0x100) == 0x301 && Times(0x27e) == 0x301;
    assert Square(0x100) == 0x1f6 && Times(0x12) == 0x240 && Times(0x240) == 0x1f6;
    assert Twice(0x100) == 0x200 && Times(0x10) == 0x200 && Twice(0x27e) == 0x1f5 && Root(0x10) == 0x1f5;
  }

  lemma CommutesAt16()
    ensures Commutes(0x10)
  {
    assert Times(0x10) == 0x200 && Root(0x10) == 0x1f5 && Square(0x10) == 0x1a && Twice(0x10) == 0x9;
    assert Root(0x200) == 0x322 && Times(0x1f5) == 0x322;
    assert Square(0x200) == 0x2aa && Times(0x1a) == 0x340 && Times(0x340) == 0x2aa;
    assert Twice(0x200) == 0x120 && Times(0x9) == 0x120 && Twice(0x1f5) == 0x3c3 && Root(0x9) == 0x3c3;
  }

  lemma CommutesAt32()
    ensures Commutes(0x20)
  {
    assert Times(0x20) == 0x137 && Root(0x20) == 0x65 && Square(0x20) == 0x137 && Twice(0x20) == 0x40;
    assert Root(0x137) == 0x3d0 && Times(0x65) == 0x3d0;
    assert Square(0x137) == 0xce && Times(0x137) == 0x8b && Times(0x8b) == 0xce;
    assert Twice(0x137) == 0x247 && Times(0x40) == 0x247 && Twice(0x65) == 0xca && Root(0x40) == 0xca;
  }

  lemma CommutesAt64()
    ensures Commutes(0x40)
  {
    assert Times(0x40) == 0x247 && Root(0x40) == 0xca && Square(0x40) == 0x1ae && Twice(0x40) == 0x80;
    assert Root(0x247) == 0x2a9 && Times(0xca) == 0x2a9;
    assert Square(0x247) == 0x311 && Times(0x1ae) == 0x205 && Times(0x205) == 0x311;
    assert Twice(0x247) == 0x1ae && Times(0x80) == 0x1ae && Twice(0xca) == 0x194 && Root(0x80) == 0x194;
  }

  lemma CommutesAt128()
    ensures Commutes(0x80)
  {
    assert Times(0x80) == 0x1ae && Root(0x80) == 0x194 && Square(0x80) == 0x3b1 && Twice(0x80) == 0x100;
    assert Root(0x1ae) == 0x72 && Times(0x194) == 0x72;
    assert Square(0x1ae) == 0x376 && Times(0x3b1) == 0x254 && Times(0x254) == 0x376;
    assert Twice(0x1ae) == 0x35c && Times(0x100) == 0x35c && Twice(0x194) == 0x301 && Root(0x100) == 0x301;
  }

  lemma CommutesAt256()
    ensures Commutes(0x100)
  {
    assert Times(0x100) == 0x35c && Root(0x100) == 0x301 && Square(0x100) == 0x1f6 && Twice(0x100) == 0x200;
    assert Root(0x35c) == 0xcd && Times(0x301) == 0xcd;
    assert Square(0x35c) == 0x2ea && Times(0x1f6) == 0x342 && Times(0x342) == 0x2ea;
    assert Twice(0x35c) == 0x3b1 && Times(0x200) == 0x3b1 && Twice(0x301) == 0x322 && Root(0x200) == 0x322;
  }

  lemma CommutesAt512()
    ensures Commutes(0x200)
  {
    assert Times(0x200) == 0x3b1 && Root(0x200) == 0x322 && Square(0x200) == 0x2aa && Twice(0x200) == 0x120;
    assert Root(0x3b1) == 0x19a && Times(0x322) == 0x19a;
    assert Square(0x3b1) == 0x1c1 && Times(0x2aa) == 0x268 && Times(0x268) == 0x1c1;
    assert Twice(0x3b1) == 0x26b && Times(0x120) == 0x26b && Twice(0x322) == 0x364 && Root(0x120) == 0x364;
  }

  lemma FromBits(w: bv32)
    requires Element(w)
    ensures w == Sum(Five(w, 1, 2, 4, 8, 16), Five(Down(w), 0x20, 0x40, 0x80, 0x100, 0x200))
  {
    hide Five;
    LowFive(w);
    HighFive(w);
  }

  lemma LowFive(w: bv32)
    ensures Five(w, 1, 2, 4, 8, 16) == w & 0x1f
  {
  }

  lemma HighFive(w: bv32)
    ensures Five(Down(w), 0x20, 0x40, 0x80, 0x100, 0x200) == w & 0x3e0
  {
  }

  /** The maps commute on every element, because they are linear and do so on its ten bits. */
  lemma AllCommute(w: bv32)
    requires Element(w)
    ensures Root(Times(w)) == Times(Root(w)) && Square(Times(w)) == Times(Times(Square(w)))
    ensures Twice(Times(w)) == Times(Twice(w)) && Twice(Root(w)) == Root(Twice(w))
  {
    hide Five, Sum, Down, Root, Times, Square, Twice;
    CommutesAt1();
    CommutesAt2();
    CommutesAt4();
    CommutesAt8();
    CommutesAt16();
    CommutesAt32();
    CommutesAt64();
    CommutesAt128();
    CommutesAt256();
    CommutesAt512();
    CommutesFive(w, 1, 2, 4, 8, 16);
    CommutesFive(Down(w), 0x20, 0x40, 0x80, 0x100, 0x200);
    CommutesSum(Five(w, 1, 2, 4, 8, 16), Five(Down(w), 0x20, 0x40, 0x80, 0x100, 0x200));
    FromBits(w);
  }

  // ----- Powers of e -----

  lemma {:induction false} PowerElement(n: nat, w: bv32)
    requires Element(w)
    ensures Element(Power(n, w)) && (Power(n, w) == 0 <==> w == 0)
  {
    hide Times, Element;
    if n > 0 {
      PowerElement(n - 1, w);
      TimesFacts(Power(n - 1, w));
    }
  }

  lemma {:induction false} PowerLinear(n: nat, a: bv32, b: bv32)
    ensures Power(n, Sum(a, b)) == Sum(Power(n, a), Power(n, b))
  {
    hide Times, Sum;
    if n > 0 {
      PowerLinear(n - 1, a, b);
      TimesLinear(Power(n - 1, a), Power(n - 1, b));
    }
  }

  lemma {:induction false} PowerAdd(m: nat, n: nat, w: bv32)
    ensures Power(m + n, w) == Power(m, Power(n, w))
  {
    hide Times;
    if m > 0 { PowerAdd(m - 1, n, w); }
  }

  /** Multiplication by a power of e loses nothing. */
  lemma PowerInjective(n: nat, a: bv32, b: bv32)
    requires Element(a) && Element(b) && Power(n, a) == Power(n, b)
    ensures a == b
  {
    hide *;
    PowerLinear(n, a, b);
    SumElement(a, b);
    PowerElement(n, Sum(a, b));
    PowerElement(n, a);
    SumElement(Power(n, a), Power(n, b));
  }

  lemma OneIsElement()
    ensures Element(1) && Square(1) == 1
  {
  }

  /** The square of e^n. */
  lemma {:induction false} PowerDouble(n: nat)
    ensures Power(2 * n, 1) == Square(Power(n, 1))
  {
    hide Times, Square, Element;
    OneIsElement();
    if n > 0 {
      PowerDouble(n - 1);
      PowerElement(n - 1, 1);
      AllCommute(Power(n - 1, 1));
      assert Power(2 * n, 1) == Times(Power(2 * n - 1, 1)) == Times(Times(Power(2 * (n - 1), 1)));
    }
  }

  lemma PowerDoubleOdd(n: nat)
    ensures Power(2 * n + 1, 1) == Times(Square(Power(n, 1)))
  {
    hide Times, Square;
    PowerDouble(n);
  }

  lemma PowerOne()
    ensures Power(1, 1) == 0x20
  {
    assert Power(1, 1) == Times(Power(0, 1));
  }

  // Four powers of e, by squaring.

  lemma Power33()
    ensures Power(33, 1) == 0x17
  {
    hide Power;
    PowerOne();
    PowerDouble(1);
    assert Power(2, 1) == 0x137;
    PowerDouble(2);
    assert Power(4, 1) == 0xce;
    PowerDouble(4);
    assert Power(8, 1) == 0x219;
    PowerDouble(8);
    assert Power(16, 1) == 0x2a3;
    PowerDoubleOdd(16);
    assert Power(33, 1) == 0x17;
  }

  lemma Power93()
    ensures Power(93, 1) == 0x356
  {
    hide Power;
    PowerOne();
    PowerDouble(1);
    assert Power(2, 1) == 0x137;
    PowerDoubleOdd(2);
    assert Power(5, 1) == 0x229;
    PowerDoubleOdd(5);
    assert Power(11, 1) == 0x83;
    PowerDoubleOdd(11);
    assert Power(23, 1) == 0x2f4;
    PowerDouble(23);
    assert Power(46, 1) == 0x188;
    PowerDoubleOdd(46);
    assert Power(93, 1) == 0x356;
  }

  lemma Power341()
    ensures Power(341, 1) == 0x16d
  {
    hide Power;
    PowerOne();
    PowerDouble(1);
    assert Power(2, 1) == 0x137;
    PowerDoubleOdd(2);
    assert Power(5, 1) == 0x229;
    PowerDouble(5);
    assert Power(10, 1) == 0x38e;
    PowerDoubleOdd(10);
    assert Power(21, 1) == 0x3be;
    PowerDouble(21);
    assert Power(42, 1) == 0x1c6;
    PowerDoubleOdd(42);
    assert Power(85, 1) == 0x193;
    PowerDouble(85);
    assert Power(170, 1) == 0x258;
    PowerDoubleOdd(170);
    assert Power(341, 1) == 0x16d;
  }

  lemma Power1023()
    ensures Power(1023, 1) == 1
  {
    hide Power;
    PowerOne();
    PowerDoubleOdd(1);
    assert Power(3, 1) == 0x8b;
    PowerDoubleOdd(3);
    assert Power(7, 1) == 0xb4;
    PowerDoubleOdd(7);
    assert Power(15, 1) == 0x39f;
    PowerDoubleOdd(15);
    assert Power(31, 1) == 0xde;
    PowerDoubleOdd(31);
    assert Power(63, 1) == 0x3d1;
    PowerDoubleOdd(63);
    assert Power(127, 1) == 0x21b;
    PowerDoubleOdd(127);
    assert Power(255, 1) == 0x3c8;
    PowerDoubleOdd(255);
    assert Power(511, 1) == 0x33b;
    PowerDoubleOdd(511);
    assert Power(1023, 1) == 0x1;
  }

  lemma Power997()
    ensures Power(997, 1) == 0x1bd
  {
    hide Power;
    PowerOne();
    PowerDoubleOdd(1);
    assert Power(3, 1) == 0x8b;
    PowerDoubleOdd(3);
    assert Power(7, 1) == 0xb4;
    PowerDoubleOdd(7);
    assert Power(15, 1) == 0x39f;
    PowerDoubleOdd(15);
    assert Power(31, 1) == 0xde;
    PowerDouble(31);
    assert Power(62, 1) == 0x203;
    PowerDouble(62);
    assert Power(124, 1) == 0x2af;
    PowerDoubleOdd(124);
    assert Power(249, 1) == 0x57;
    PowerDouble(249);
    assert Power(498, 1) == 0x1a1;
    PowerDoubleOdd(498);
    assert Power(997, 1) == 0x1bd;
  }

  // ----- The order of e -----

  ghost predicate Period(n: nat) {
    Power(n, 1) == 1
  }

  lemma {:induction false} PeriodTimes(n: nat, k: nat)
    requires Period(n)
    ensures Period(k * n)
  {
    hide Times;
    if k > 0 {
      PeriodTimes(n, k - 1);
      PowerAdd((k - 1) * n, n, 1);
      assert k * n == (k - 1) * n + n;
    }
  }

  lemma PeriodRest(n: nat, d: nat)
    requires Period(n) && Period(d) && d > 0
    ensures Period(n % d)
  {
    hide Power;
    var q := n / d;
    PeriodTimes(d, q);
    assert n == n % d + q * d;
    PowerAdd(n % d, q * d, 1);
  }

  /** The smallest period, at most `n`. */
  lemma {:induction false} LeastPeriod(n: nat) returns (d: nat)
    requires n > 0 && Period(n)
    ensures 0 < d <= n && Period(d) && forall k :: 0 < k < d ==> !Period(k)
  {
    d := n;
    if k :| 0 < k < n && Period(k) {
      d := LeastPeriod(k);
    }
  }

  /** A divisor of 1023 = 3 * 11 * 31 below it divides one of its quotients by these primes. */
  lemma ProperDivisor(d: nat)
    requires 0 < d < 1023 && 1023 % d == 0
    ensures 341 % d == 0 || 93 % d == 0 || 33 % d == 0
  {
    if d > 31 {
      var q := 1023 / d;
      assert 1023 == q * d;
      Quotient(q, d);
    } else {
      SmallDivisor(d);
    }
  }

  /** e is primitive: no power below 1023 is one. */
  lemma Primitive(n: nat)
    requires 0 < n < 1023
    ensures Power(n, 1) != 1
  {
    hide Power;
    if Power(n, 1) == 1 { NoPeriod(n); }
  }

  lemma NoPeriod(n: nat)
    requires 0 < n < 1023
    ensures !Period(n)
  {
    hide Period;
    KnownPeriods();
    if Period(n) {
      var d := LeastPeriod(n);
      PeriodRest(1023, d);
      ProperDivisor(d);
      PeriodMultiple(d, if 341 % d == 0 then 341 else if 93 % d == 0 then 93 else 33);
    }
  }

  lemma KnownPeriods()
    ensures Period(1023) && !Period(341) && !Period(93) && !Period(33)
  {
    hide Power;
    Power1023();
    Power341();
    Power93();
    Power33();
  }

  lemma PeriodMultiple(d: nat, n: nat)
    requires d > 0 && Period(d) && n % d == 0
    ensures Period(n)
  {
    hide Period;
    PeriodTimes(d, n / d);
    assert n / d * d == n;
  }

  lemma TooMuch(q: nat, d: nat)
    requires q >= 33 && d >= 32
    ensures q * d >= 1056
  {
    assert q * d >= 33 * d;
  }

  lemma Quotient(q: nat, d: nat)
    requires 1023 == q * d && 31 < d < 1023
    ensures d == 341 || d == 93 || d == 33
  {
    assert 1 < q < 33 by {
      if q >= 33 { TooMuch(q, d); }
    }
    assert q == 2 || q == 3 || q == 4 || q == 5 || q == 6 || q == 7 || q == 8 || q == 9 || q == 10 || q == 11 ||
           q == 12 || q == 13 || q == 14 || q == 15 || q == 16 || q == 17 || q == 18 || q == 19 || q == 20 ||
           q == 21 || q == 22 || q == 23 || q == 24 || q == 25 || q == 26 || q == 27 || q == 28 || q == 29 ||
           q == 30 || q == 31 || q == 32;
  }

  lemma SmallDivisor(d: nat)
    requires 0 < d <= 31 && 1023 % d == 0
    ensures d == 1 || d == 3 || d == 11 || d == 31
  {
    assert d == 2 || d == 3 || d == 4 || d == 5 || d == 6 || d == 7 || d == 8 || d == 9 || d == 10 || d == 11 ||
           d == 12 || d == 13 || d == 14 || d == 15 || d == 16 || d == 17 || d == 18 || d == 19 || d == 20 ||
           d == 21 || d == 22 || d == 23 || d == 24 || d == 25 || d == 26 || d == 27 || d == 28 || d == 29 ||
           d == 30 || d == 31 || d == 1;
  }

  // ----- Every element but zero is a power -----

  function Number(w: bv32): nat {
    w as nat
  }

  lemma NumberInjective(a: bv32, b: bv32)
    requires Number(a) == Number(b)
    ensures a == b
  {
    hide Number;
    NumberBack(a);
    NumberBack(b);
  }

  lemma NumberBack(w: bv32)
    ensures Number(w) < 0x1_0000_0000 && Number(w) as bv32 == w
  {
  }

  lemma NumberBound(w: bv32)
    requires Element(w)
    ensures Number(w) < 0x400 && (w != 0 ==> Number(w) > 0)
  {
  }

  lemma {:induction false} AtMost(s: set<nat>, n: nat)
    requires forall x :: x in s ==> 0 < x <= n
    ensures |s| <= n
  {
    if n == 0 {
      assert s == {};
    } else {
      AtMost(s - {n}, n - 1);
    }
  }

  /** The numbers of the first `n` powers of e. */
  ghost function Powers(n: nat): set<nat> {
    set k | 0 <= k < n :: Number(Power(k, 1))
  }

  lemma PowersDiffer(k: nat, n: nat)
    requires k < n < 1023
    ensures Number(Power(k, 1)) != Number(Power(n, 1))
  {
    hide Power, Square, Number;
    OneIsElement();
    PowerElement(n - k, 1);
    PowerAdd(k, n - k, 1);
    Primitive(n - k);
    if Power(k, 1) == Power(n, 1) { PowerInjective(k, 1, Power(n - k, 1)); }
    if Number(Power(k, 1)) == Number(Power(n, 1)) { NumberInjective(Power(k, 1), Power(n, 1)); }
  }

  lemma {:induction false} PowersCount(n: nat)
    requires n <= 1023
    ensures |Powers(n)| == n
  {
    hide Power, Number, Powers;
    if n == 0 {
      NoPowers();
    } else {
      PowersCount(n - 1);
      PowersGrow(n);
      PowerIsNew(n);
    }
  }

  lemma NoPowers()
    ensures Powers(0) == {}
  {
  }

  lemma PowersGrow(n: nat)
    requires n > 0
    ensures Powers(n) == Powers(n - 1) + {Number(Power(n - 1, 1))}
  {
    hide Power, Number;
  }

  lemma PowerIsNew(n: nat)
    requires 0 < n <= 1023
    ensures Number(Power(n - 1, 1)) !in Powers(n - 1)
  {
    hide Power, Number;
    forall k | 0 <= k < n - 1 ensures Number(Power(k, 1)) != Number(Power(n - 1, 1)) {
      PowersDiffer(k, n - 1);
    }
  }

  lemma NumberPower(k: nat)
    ensures 0 < Number(Power(k, 1)) <= 1023
  {
    hide Power, Square, Number;
    OneIsElement();
    PowerElement(k, 1);
    NumberBound(Power(k, 1));
  }

  /** Every element but zero is a power of e: there are as many powers below 1023 as such elements. */
  lemma IsPower(w: bv32) returns (k: nat)
    requires Element(w) && w != 0
    ensures Power(k, 1) == w
  {
    hide Power, Number;
    NumberBound(w);
    PowersCount(1023);
    forall x | x in Powers(1023) ensures 0 < x <= 1023 {
      var i :| 0 <= i < 1023 && x == Number(Power(i, 1));
      NumberPower(i);
    }
    if Number(w) !in Powers(1023) { AtMost(Powers(1023) + {Number(w)}, 1023); }
    k :| 0 <= k < 1023 && Number(Power(k, 1)) == Number(w);
    NumberInjective(Power(k, 1), w);
  }

  /** Multiplication by different powers of e, less than 1023 apart, agrees on zero only. */
  lemma PowersApart(i: nat, j: nat, w: bv32)
    requires Element(w) && w != 0 && i < j < i + 1023
    ensures Power(i, w) != Power(j, w)
  {
    hide Power, Square;
    OneIsElement();
    var k := IsPower(w);
    var n := j - i;
    PowerAdd(k, n, 1);
    PowerAdd(n, k, 1);
    PowerElement(n, 1);
    Primitive(n);
    if Power(n, w) == w { PowerInjective(k, Power(n, 1), 1); }
    PowerElement(n, w);
    PowerAdd(i, n, w);
    if Power(i, w) == Power(j, w) { PowerInjective(i, w, Power(n, w)); }
  }
}
