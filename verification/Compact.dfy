/**
 The compact form of a 256-bit number (`src/arith_uint256.cpp:175-216`, `src/arith_uint256.h:246-269`): a
 32-bit word with an exponent of base 256 in its upper eight bits, a sign bit, and a mantissa of 23 bits.
 */
module Compacts {
  import opened Basics
  import opened Positional
  import opened Limbs
  import opened ArithUints

  function Size(n: nat): nat {
    n / 0x100_0000
  }

  function Mantissa(n: nat): nat {
    n % 0x80_0000
  }

  predicate SignBit(n: nat) {
    (n / 0x80_0000) % 2 == 1
  }

  ghost function Quotient(x: nat, p: nat): nat
    requires p > 0
  {
    QuotientAtMost(x, p);
    x / p
  }

  ghost function Product(x: nat, p: nat): nat {
    NonNegative(x, p);
    x * p
  }

  /** The magnitude that a compact word stands for, of whatever size. */
  ghost function Magnitude(n: nat): nat {
    if Size(n) <= 3 then Quotient(Mantissa(n), Pow(256, 3 - Size(n))) else Product(Mantissa(n), Pow(256, Size(n) - 3))
  }

  lemma ByteShift(k: nat)
    ensures Pow(2, 8 * k) == Pow(256, k)
  {
    assert Pow(2, 8) == 256;
    PowPow(2, 8, k);
  }

  lemma SmallPowers()
    ensures Pow(256, 0) == 1 && Pow(256, 1) == 0x100 && Pow(256, 2) == 0x1_0000 && Pow(256, 3) == 0x100_0000
  {
  }

  lemma Modulus256()
    ensures Pow(BASE, 8) == Pow(256, 32)
  {
    hide Pow;
    LimbPower(8, 0);
    ByteShift(32);
    PowZero(2);
  }

  /** The test for overflow is exact. */
  lemma OverflowExact(word: nat, size: nat)
    requires 0 < word < 0x80_0000 && size > 3
    ensures word * Pow(256, size - 3) >= Pow(256, 32) <==>
            size > 34 || (word > 0xff && size > 33) || (word > 0xffff && size > 32)
  {
    hide Pow;
    SmallPowers();
    if size > 34 {
      PowGrows(256, 32, size - 3);
      MulAtMost(1, word, Pow(256, size - 3));
    } else {
      var gap := 35 - size;
      PowAdd(256, gap, size - 3);
      var p := Pow(256, size - 3);
      if word >= Pow(256, gap) {
        MulAtMost(Pow(256, gap), word, p);
      } else {
        MulLess(word, Pow(256, gap), p);
      }
      if gap >= 3 { PowGrows(256, 3, gap); }
    }
  }

  /** Set a number of several limbs to a number of one. */
  method AssignWord(x: BaseUint, word: nat)
    requires x.Valid() && word < BASE
    modifies x.pn
    ensures x.Valid() && x.Val() == word
  {
    hide Pow;
    x.SetZero();
    ghost var now := x.pn[..];
    PowZero(BASE);
    BelowUpdate(now, |now|, 0, word);
    x.pn[0] := word;
    assert x.pn[..] == now[0 := word];
  }

  method SetCompact(x: BaseUint, nCompact: nat) returns (negative: bool, overflow: bool)
    requires x.Valid() && x.pn.Length == 8 && nCompact < BASE
    modifies x.pn
    ensures x.Valid() && x.Val() == Magnitude(nCompact) % Pow(256, 32)
    ensures overflow <==> Magnitude(nCompact) >= Pow(256, 32)
    ensures negative <==> Magnitude(nCompact) != 0 && SignBit(nCompact)
  {
    hide Pow;
    var nSize := Size(nCompact);
    var nWord := Mantissa(nCompact);
    Modulus256();
    if nSize <= 3 {
      nWord := nWord / Pow(2, 8 * (3 - nSize));
      ByteShift(3 - nSize);
      QuotientAtMost(Mantissa(nCompact), Pow(256, 3 - nSize));
      AssignWord(x, nWord);
      PowGrows(256, 3, 32);
      SmallPowers();
      Exact(nWord, Pow(256, 32));
    } else {
      AssignWord(x, nWord);
      x.ShiftLeft(8 * (nSize - 3));
      ByteShift(nSize - 3);
      TimesZero(Pow(256, nSize - 3));
      if nWord != 0 {
        OverflowExact(nWord, nSize);
        MulAtMost(1, nWord, Pow(256, nSize - 3));
      }
    }
    negative := nWord != 0 && SignBit(nCompact);
    overflow := nWord != 0 && (nSize > 34 || (nWord > 0xff && nSize > 33) || (nWord > 0xffff && nSize > 32));
  }

  lemma QuotientAtMost(x: nat, p: nat)
    requires p > 0
    ensures 0 <= x / p <= x
  {
    var q, r := DivMod(x, p);
    MulAtMost(1, p, q);
    assert q * p == p * q;
  }

  /** The number of bytes of a number with so many bits. */
  lemma BytesOf(v: nat, bits: nat)
    requires v < Pow(2, bits) && (bits > 0 ==> Pow(2, bits - 1) <= v) && (bits == 0 <==> v == 0)
    ensures var size := (bits + 7) / 8;
            v < Pow(256, size) && (size > 0 ==> Pow(256, size - 1) <= v)
  {
    hide Pow;
    var size := (bits + 7) / 8;
    ByteShift(size);
    PowGrows(2, bits, 8 * size);
    if size > 0 {
      ByteShift(size - 1);
      PowGrows(2, 8 * (size - 1), bits - 1);
    }
  }

  /** The three leading bytes of a number that has at least three, and of one that has fewer, filled up. */
  ghost predicate Leading(v: nat, size: nat, word: nat) {
    if size <= 3 then word == v * Pow(256, 3 - size) else word == v / Pow(256, size - 3)
  }

  /** The leading bytes, as many as leave the sign bit clear and no leading zeros. */
  ghost predicate Compacted(v: nat, size: nat, word: nat) {
    Leading(v, size, word) && word < 0x80_0000 && (v > 0 ==> word >= 0x8000) && (v == 0 ==> size == 0 && word == 0)
  }

  lemma {:induction false} LeadingAfter(v: nat, size: nat, more: nat, word: nat) returns (w: nat)
    requires Leading(v, size, word) && more > 0
    ensures Leading(v, size + more, w) && w <= word / 256
    decreases more
  {
    hide Leading;
    LeadingShorter(v, size, word);
    QuotientAtMost(word, 256);
    w := word / 256;
    if more > 1 {
      QuotientAtMost(word / 256, 256);
      w := LeadingAfter(v, size + 1, more - 1, word / 256);
      assert size + 1 + (more - 1) == size + more;
    }
  }

  lemma LeadingOnce(v: nat, size: nat, a: nat, b: nat)
    requires Leading(v, size, a) && Leading(v, size, b)
    ensures a == b
  {
  }

  lemma NotLonger(v: nat, size: nat, word: nat, size': nat, word': nat)
    requires Compacted(v, size, word) && Compacted(v, size', word')
    ensures size' <= size
  {
    if size < size' {
      var w := LeadingAfter(v, size, size' - size, word);
      LeadingOnce(v, size', w, word');
    }
  }

  /** A number has only one compact form. */
  lemma CompactUnique(v: nat, size: nat, word: nat, size': nat, word': nat)
    requires Compacted(v, size, word) && Compacted(v, size', word')
    ensures size == size' && word == word'
  {
    hide Leading;
    NotLonger(v, size, word, size', word');
    NotLonger(v, size', word', size, word);
    LeadingOnce(v, size, word, word');
  }

  lemma LeadingRange(v: nat, size: nat, word: nat)
    requires v < Pow(256, size) && (size > 0 ==> Pow(256, size - 1) <= v) && Leading(v, size, word)
    ensures word < 0x100_0000 && (size > 0 ==> word >= 0x1_0000)
  {
    SmallPowers();
    hide Pow;
    if size <= 3 {
      var p := Pow(256, 3 - size);
      PowAdd(256, size, 3 - size);
      MulLess(v, Pow(256, size), p);
      if size > 0 {
        PowAdd(256, size - 1, 3 - size);
        MulAtMost(Pow(256, size - 1), v, p);
      }
    } else {
      var p := Pow(256, size - 3);
      PowAdd(256, 3, size - 3);
      PowAdd(256, 2, size - 3);
      QuotientRange(v, p, 0x1_0000, 0x100_0000);
    }
  }

  lemma QuotientRange(v: nat, p: nat, lo: nat, hi: nat)
    requires p > 0 && lo * p <= v < hi * p
    ensures lo <= v / p < hi
  {
    var q, r := DivMod(v, p);
    if q < lo { MulAtMost(q + 1, lo, p); SumTimes(q, 1, p); }
    if q >= hi { MulAtMost(hi, q, p); }
  }

  /** Dropping one more byte. */
  lemma LeadingShorter(v: nat, size: nat, word: nat)
    requires Leading(v, size, word)
    ensures Leading(v, size + 1, word / 256)
  {
    SmallPowers();
    hide Pow;
    if size <= 2 {
      PowAdd(256, 2 - size, 1);
      Associate(v, Pow(256, 2 - size), 256);
      NonNegative(v, Pow(256, 2 - size));
      DivideBack(256, v * Pow(256, 2 - size), 0);
    } else if size == 3 {
      TimesOne(v);
    } else {
      PowAdd(256, size - 3, 1);
      DivideTwice(v, Pow(256, size - 3), 256);
    }
  }

  lemma DivideTwice(v: nat, p: nat, q: nat)
    requires p > 0 && q > 0
    ensures p * q > 0 && v / p >= 0 && v / p / q == v / (p * q)
  {
    var a, r := DivMod(v, p);
    var b, t := DivMod(a, q);
    var low := t * p + r;
    MulAtMost(t + 1, q, p);
    SumTimes(t, 1, p);
    SumTimes(b * q, t, p);
    Associate(b, q, p);
    assert q * p == p * q;
    NonNegative(t, p);
    MulLess(0, p, q);
    DivideBack(p * q, b, low);
  }

  /** What a mantissa without sign bit and an exponent stand for. */
  lemma LeadingMagnitude(v: nat, size: nat, word: nat, c: nat)
    requires Leading(v, size, word) && Size(c) == size && Mantissa(c) == word
    ensures Magnitude(c) <= v && (size <= 3 ==> Magnitude(c) == v) &&
            (size > 3 ==> v - Magnitude(c) < Pow(256, size - 3))
  {
    hide Pow;
    if size <= 3 {
      DivideBack(Pow(256, 3 - size), v, 0);
    } else {
      var q, r := DivMod(v, Pow(256, size - 3));
    }
  }

  lemma {:induction false} OrSplit(a: nat, b: nat, c: nat, d: nat, k: nat)
    requires a < Pow(2, k) && c < Pow(2, k)
    ensures Or(a + b * Pow(2, k), c + d * Pow(2, k)) == Or(a, c) + Or(b, d) * Pow(2, k)
    decreases k
  {
    hide Pow, Or;
    if k == 0 {
      PowZero(2);
      OrZero(0);
    } else {
      PowNextTwo(k - 1);
      OrSplit(a / 2, b, c / 2, d, k - 1);
      OrSplitStep(a, b, c, d, Pow(2, k - 1));
    }
  }

  /** One more bit below the place where two numbers are split. */
  lemma OrSplitStep(a: nat, b: nat, c: nat, d: nat, p: nat)
    requires Or(a / 2 + b * p, c / 2 + d * p) == Or(a / 2, c / 2) + Or(b, d) * p
    ensures b * (2 * p) >= 0 && d * (2 * p) >= 0
    ensures Or(a + b * (2 * p), c + d * (2 * p)) == Or(a, c) + Or(b, d) * (2 * p)
  {
    hide Or;
    Halves(a, b, p);
    Halves(c, d, p);
    OrStep(a, c);
    OrStep(a + b * (2 * p), c + d * (2 * p));
    Doubled(Or(b, d), p);
  }

  lemma Doubled(x: nat, p: nat)
    ensures x * (2 * p) == 2 * (x * p)
  {
  }

  lemma Halves(a: nat, b: nat, p: nat)
    ensures (a + b * (2 * p)) / 2 == a / 2 + b * p && (a + b * (2 * p)) % 2 == a % 2 && b * (2 * p) >= 0
  {
    Doubled(b, p);
    NonNegative(b, p);
  }

  lemma OrStep(x: nat, y: nat)
    ensures Or(x, y) == 2 * Or(x / 2, y / 2) + if x % 2 == 1 || y % 2 == 1 then 1 else 0
  {
  }

  /** The fields of a compact word. */
  lemma Fields(word: nat, size: nat)
    requires word < 0x80_0000 && size < 256
    ensures Or(word, size * 0x100_0000) == word + size * 0x100_0000
    ensures Or(word + size * 0x100_0000, 0x80_0000) == word + 0x80_0000 + size * 0x100_0000
    ensures Or(word + size * 0x100_0000, 0) == word + size * 0x100_0000
  {
    Powers24();
    hide Pow, Or;
    DivideBack(0x100_0000, size, 0);
    OrDisjoint(word, size * 0x100_0000, 24);
    DivideBack(0x80_0000, 1, 0);
    OrDisjoint(word, 0x80_0000, 23);
    OrSplit(word, size, 0x80_0000, 0, 24);
    OrZero(size);
    OrCommutes(0, size);
    OrZero(word + size * 0x100_0000);
    OrCommutes(0, word + size * 0x100_0000);
  }

  lemma Powers24()
    ensures Pow(2, 23) == 0x80_0000 && Pow(2, 24) == 0x100_0000
  {
    assert Pow(2, 8) == 256;
    PowAdd(2, 8, 8);
    PowAdd(2, 16, 7);
    PowAdd(2, 16, 8);
  }

  /** The low 64 bits. */
  method GetLow64(x: BaseUint) returns (low: nat)
    requires x.Valid() && x.pn.Length >= 2
    ensures low == x.Val() % Pow(BASE, 2)
  {
    hide Or;
    var high := x.pn[1] * BASE;
    Pow32();
    DivideBack(BASE, x.pn[1], 0);
    OrDisjoint(x.pn[0], high, 32);
    low := Or(x.pn[0], high);
    ghost var s := x.pn[..];
    ghost var rest := BelowHigh(s, 2, |s|);
    hide Pow;
    BelowBound(s, 2);
    LowTwo(s);
    IsRemainder(Below(s, 2), rest, Pow(BASE, 2), x.Val());
  }

  lemma LowTwo(s: seq<nat>)
    requires |s| >= 2
    ensures Below(s, 2) == s[0] + s[1] * BASE
  {
    hide Pow;
    BelowNothing(s);
    BelowNext(s, 0);
    BelowNext(s, 1);
    PowZero(BASE);
    PowNext(0);
  }

  /**
   The compact form closest to the number from below: exact up to three bytes, else with a mantissa of
   at least sixteen bits of which only lower bytes are missing.
   */
  method GetCompact(x: BaseUint, fNegative: bool) returns (nCompact: nat)
    requires x.Valid() && x.pn.Length == 8
    ensures nCompact < BASE && Compacted(x.Val(), Size(nCompact), Mantissa(nCompact)) && Magnitude(nCompact) <= x.Val()
    ensures Size(nCompact) <= 3 ==> Magnitude(nCompact) == x.Val()
    ensures Size(nCompact) > 3 ==> x.Val() - Magnitude(nCompact) < Pow(256, Size(nCompact) - 3)
    ensures SignBit(nCompact) <==> fNegative && x.Val() != 0
  {
    hide Pow, Leading, Or, Below;
    ghost var v := x.Val();
    var bits := x.Bits();
    var nSize := (bits + 7) / 8;
    BytesOf(v, bits);
    nCompact := LeadingBytes(x, nSize);
    LeadingRange(v, nSize, nCompact);
    ZeroLeading(v, nSize, nCompact);
    if SignBit(nCompact) {
      LeadingShorter(v, nSize, nCompact);
      nCompact := nCompact / 256;
      nSize := nSize + 1;
    }
    ghost var word := nCompact;
    assert word < 0x80_0000 && nSize < 256 && (v == 0 <==> word == 0) && (v > 0 ==> word >= 0x8000);
    assert Compacted(v, nSize, word);
    Fields(word, nSize);
    nCompact := Or(nCompact, nSize * 0x100_0000);
    var sign := if fNegative && Mantissa(nCompact) != 0 then 0x80_0000 else 0;
    FieldsBack(word, nSize);
    nCompact := Or(nCompact, sign);
    LeadingMagnitude(v, nSize, word, nCompact);
  }

  lemma FieldsBack(word: nat, size: nat)
    requires word < 0x80_0000 && size < 256
    ensures var c := word + size * 0x100_0000;
            && Mantissa(c) == word && Size(c) == size && !SignBit(c) && c < BASE
            && Mantissa(c + 0x80_0000) == word && Size(c + 0x80_0000) == size && SignBit(c + 0x80_0000) &&
               c + 0x80_0000 < BASE
  {
  }

  lemma ZeroLeading(v: nat, size: nat, word: nat)
    requires v < Pow(256, size) && (size > 0 ==> Pow(256, size - 1) <= v) && Leading(v, size, word)
    ensures v == 0 ==> size == 0 && word == 0
    ensures v > 0 ==> size > 0
  {
    SmallPowers();
    hide Pow;
    TimesZero(Pow(256, 3 - if size <= 3 then size else 3));
  }

  method LeadingBytes(x: BaseUint, size: nat) returns (word: nat)
    requires x.Valid() && x.pn.Length == 8 && x.Val() < Pow(256, size) && size <= 32
    ensures Leading(x.Val(), size, word)
  {
    hide Pow, Or, Below;
    ghost var v := x.Val();
    LowExact();
    if size <= 3 {
      var low := GetLow64(x);
      PowGrows(256, size, 8);
      Exact(v, Pow(BASE, 2));
      word := low * Pow(2, 8 * (3 - size));
      ByteShift(3 - size);
    } else {
      var bn := new BaseUint.Copy(x);
      bn.ShiftRight(8 * (size - 3));
      ByteShift(size - 3);
      word := GetLow64(bn);
      PowAdd(256, 3, size - 3);
      QuotientRange(v, Pow(256, size - 3), 0, Pow(256, 3));
      PowGrows(256, 3, 8);
      Exact(v / Pow(256, size - 3), Pow(BASE, 2));
    }
  }

  lemma LowExact()
    ensures Pow(BASE, 2) == Pow(256, 8)
  {
    hide Pow;
    LimbPower(2, 0);
    ByteShift(8);
    PowZero(2);
  }

  /** The compact form of a number is exact exactly when the bytes it cannot hold are zero. */
  lemma CompactExactIff(v: nat, c: nat)
    requires Size(c) > 3 && Magnitude(c) <= v && v - Magnitude(c) < Pow(256, Size(c) - 3)
    ensures Magnitude(c) == v <==> v % Pow(256, Size(c) - 3) == 0
  {
    hide Pow;
    var p := Pow(256, Size(c) - 3);
    IsRemainder(v - Magnitude(c), Mantissa(c), p, v);
  }

  /** No leading zeros, and no bits that stand for nothing. */
  ghost predicate Canonical(c: nat) {
    if Mantissa(c) == 0 then Size(c) == 0
    else Mantissa(c) >= 0x8000 && (Size(c) <= 3 ==> Mantissa(c) % Pow(256, 3 - Size(c)) == 0)
  }

  /** Exactly the canonical words are the compact form of what they stand for. */
  lemma CompactCanonical(c: nat)
    ensures Compacted(Magnitude(c), Size(c), Mantissa(c)) <==> Canonical(c)
  {
    hide Pow;
    var size, word := Size(c), Mantissa(c);
    if size <= 3 {
      CanonicalShort(word, Pow(256, 3 - size));
    } else {
      DivideBack(Pow(256, size - 3), word, 0);
      TimesZero(Pow(256, size - 3));
      if word > 0 { Positive(word, Pow(256, size - 3)); }
    }
  }

  lemma CanonicalShort(word: nat, p: nat)
    requires p > 0
    ensures word == Quotient(word, p) * p <==> word % p == 0
    ensures word > 0 && word % p == 0 ==> Quotient(word, p) > 0
    ensures word == 0 ==> Quotient(word, p) == 0
  {
    var q, r := DivMod(word, p);
    TimesZero(p);
    QuotientAtMost(word, p);
  }

  // ----- Known words -----

  /** Words that pin the fields of the compact form. */
  lemma KnownWords()
    ensures Magnitude(0x1d00_ffff) == 0xffff * Pow(256, 26) && !SignBit(0x1d00_ffff)
    ensures Magnitude(0x0112_3456) == 0x12 && Magnitude(0x0312_3456) == 0x12_3456
    ensures Magnitude(0x01fe_dcba) == 0x7e && SignBit(0x01fe_dcba)
  {
    assert Pow(256, 1) == 256 * Pow(256, 0);
    assert Pow(256, 2) == 256 * Pow(256, 1) == 0x1_0000;
    hide Pow;
    PowZero(256);
    assert Size(0x1d00_ffff) == 29 && Mantissa(0x1d00_ffff) == 0xffff;
    assert Size(0x0112_3456) == 1 && Mantissa(0x0112_3456) == 0x12_3456;
    assert Size(0x0312_3456) == 3 && Mantissa(0x0312_3456) == 0x12_3456;
    assert Size(0x01fe_dcba) == 1 && Mantissa(0x01fe_dcba) == 0x7e_dcba;
  }
}
