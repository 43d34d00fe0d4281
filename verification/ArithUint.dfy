/**
 `base_uint` (`src/arith_uint256.h`, `src/arith_uint256.cpp`): unsigned integers of any fixed number of
 32-bit limbs, updated in place. Arguments may be the object itself.

 Limbs are unbounded integers here; every operation keeps them below 2^32, and every sum or product that
 the original computes in 64 bits is shown to stay below 2^64.
 */
module ArithUints {
  import opened Basics
  import opened Positional
  import opened Limbs

  datatype Outcome = Done | DivisionByZero

  class BaseUint {
    const pn: array<nat>

    ghost predicate Valid()
      reads pn
    {
      pn.Length > 0 && IsLimbs(pn[..])
    }

    ghost function Val(): nat
      reads pn
    {
      Value(pn[..])
    }

    /** 2 to the number of bits. */
    ghost function Modulus(): (m: nat)
      ensures m > 0
    {
      Pow(BASE, pn.Length)
    }

    constructor (width: nat)
      requires width > 0
      ensures Valid() && fresh(pn) && pn.Length == width && Val() == 0
    {
      pn := new nat[width](_ => 0);
      new;
      BelowZero(pn[..], 0, width);
    }

    constructor Copy(b: BaseUint)
      requires b.Valid()
      ensures Valid() && fresh(pn) && pn[..] == b.pn[..] && Val() == b.Val()
    {
      pn := new nat[b.pn.Length](i requires 0 <= i < b.pn.Length reads b.pn => b.pn[i]);
      new;
      assert pn[..] == b.pn[..];
    }

    /** Assignment from another number. */
    method Assign(b: BaseUint)
      requires Valid() && b.Valid() && b.pn.Length == pn.Length
      modifies pn
      ensures Valid() && Val() == old(b.Val()) && pn[..] == old(b.pn[..])
    {
      ghost var src := b.pn[..];
      for i := 0 to pn.Length
        invariant pn[..i] == src[..i] && b.pn[i..] == src[i..]
      {
        assert b.pn[i] == b.pn[i..][0] == src[i..][0];
        pn[i] := b.pn[i];
      }
      assert pn[..] == src;
    }

    method AddAssign(b: BaseUint)
      requires Valid() && b.Valid() && b.pn.Length == pn.Length
      modifies pn
      ensures Valid() && Val() == (old(Val()) + old(b.Val())) % Modulus()
    {
      ghost var x, y := pn[..], b.pn[..];
      var carry: nat := 0;
      for i := 0 to pn.Length
        invariant IsLimbs(pn[..]) && 0 <= carry <= 1
        invariant pn[i..] == x[i..] && b.pn[i..] == y[i..]
        invariant Value(pn[..]) + carry * Pow(BASE, i) == Value(x) + Below(y, i)
      {
        ghost var now := pn[..];
        Tails(now, x, i);
        Tails(b.pn[..], y, i);
        var n: nat := carry + pn[i] + b.pn[i];
        assert n < 0x1_0000_0000_0000_0000;
        CarryStep(now, i, carry, y[i], n);
        var r: nat := n % BASE;
        pn[i] := r;
        assert pn[..] == now[i := r];
        carry := n / BASE;
        assert Below(y, i + 1) == Below(y, i) + y[i] * Pow(BASE, i);
      }
      BelowBound(pn[..], pn.Length);
      IsRemainder(Value(pn[..]), carry, Modulus(), Value(x) + Value(y));
    }

    method Increment()
      requires Valid()
      modifies pn
      ensures Valid() && Val() == (old(Val()) + 1) % Modulus()
    {
      hide Pow;
      ghost var x := pn[..];
      var i := 0;
      PowZero(BASE);
      while i < pn.Length
        invariant 0 <= i <= pn.Length && IsLimbs(pn[..])
        invariant Value(pn[..]) + Pow(BASE, i) == Value(x) + 1
      {
        ghost var now := pn[..];
        var n: nat := pn[i] + 1;
        CarryStep(now, i, 1, 0, n);
        var r: nat := n % BASE;
        pn[i] := r;
        assert pn[..] == now[i := r];
        assert 0 * Pow(BASE, i) == 0 && 0 * Pow(BASE, i + 1) == 0;
        if r != 0 {
          BelowBound(pn[..], pn.Length);
          IsRemainder(Value(pn[..]), 0, Modulus(), Value(x) + 1);
          return;
        }
        i := i + 1;
      }
      BelowBound(pn[..], pn.Length);
      IsRemainder(Value(pn[..]), 1, Modulus(), Value(x) + 1);
    }

    method Decrement()
      requires Valid()
      modifies pn
      ensures Valid() && Val() == (old(Val()) - 1) % Modulus()
    {
      hide Pow;
      ghost var x := pn[..];
      var i := 0;
      PowZero(BASE);
      while i < pn.Length
        invariant 0 <= i <= pn.Length && IsLimbs(pn[..])
        invariant Value(pn[..]) - Pow(BASE, i) == Value(x) - 1
      {
        ghost var now := pn[..];
        var r: nat := if pn[i] == 0 then BASE - 1 else pn[i] - 1;
        BelowUpdate(now, |now|, i, r);
        BorrowStep(now[i], r, i);
        pn[i] := r;
        assert pn[..] == now[i := r];
        if r != BASE - 1 {
          BelowBound(pn[..], pn.Length);
          IsRemainder(Value(pn[..]), 0, Modulus(), Value(x) - 1);
          return;
        }
        i := i + 1;
      }
      BelowBound(pn[..], pn.Length);
      IsRemainder(Value(pn[..]), -1, Modulus(), Value(x) - 1);
    }

    /** The two's complement. */
    method Negate() returns (ret: BaseUint)
      requires Valid()
      ensures fresh(ret) && fresh(ret.pn) && ret.Valid() && ret.pn.Length == pn.Length
      ensures ret.Val() == (Modulus() - Val()) % Modulus()
    {
      hide Pow;
      ret := new BaseUint(pn.Length);
      ghost var x := pn[..];
      PowZero(BASE);
      for i := 0 to pn.Length
        invariant pn[..] == x && IsLimbs(ret.pn[..])
        invariant Below(ret.pn[..], i) + Below(x, i) == Pow(BASE, i) - 1
      {
        ghost var now := ret.pn[..];
        ret.pn[i] := BASE - 1 - pn[i];
        BelowSame(now, ret.pn[..], i);
        PowNext(i);
        Complement(x[i], Pow(BASE, i));
      }
      ret.Increment();
    }

    method SubAssign(b: BaseUint)
      requires Valid() && b.Valid() && b.pn.Length == pn.Length
      modifies pn
      ensures Valid() && Val() == (old(Val()) - old(b.Val())) % Modulus()
    {
      hide Pow, Val, Valid;
      ghost var x, y := Val(), b.Val();
      b.ValBelow();
      var minus := b.Negate();
      AddAssign(minus);
      ModSub(x, y, Modulus());
    }

    lemma ValBelow()
      requires Valid()
      ensures Val() < Modulus()
    {
      hide Pow, Below;
      BelowBound(pn[..], pn.Length);
    }

    /** Multiply by a number of one limb. */
    method MulAssign32(b32: nat)
      requires Valid() && b32 < BASE
      modifies pn
      ensures Valid() && Val() == (old(Val()) * b32) % Modulus()
    {
      hide Pow;
      ghost var x := pn[..];
      var carry: nat := 0;
      PowZero(BASE);
      assert b32 * 0 == 0;
      for i := 0 to pn.Length
        invariant IsLimbs(pn[..]) && carry < BASE
        invariant pn[i..] == x[i..]
        invariant Value(pn[..]) + carry * Pow(BASE, i) == Value(x) + (b32 - 1) * Below(x, i)
      {
        ghost var now := pn[..];
        Tails(now, x, i);
        ProductFits(b32, pn[i], carry, 0);
        var n: nat := carry + b32 * pn[i];
        assert n < 0x1_0000_0000_0000_0000;
        CarryStep(now, i, carry, (b32 - 1) * x[i], n);
        var r: nat := n % BASE;
        pn[i] := r;
        assert pn[..] == now[i := r];
        carry := n / BASE;
        MulDistribute(b32 - 1, Below(x, i), x[i], Pow(BASE, i));
      }
      BelowBound(pn[..], pn.Length);
      assert Value(x) + (b32 - 1) * Value(x) == Value(x) * b32;
      IsRemainder(Value(pn[..]), carry, Modulus(), Value(x) * b32);
    }

    /** One row of the multiplication: add one limb times `b`, moved up by `j` limbs. */
    method AddRow(p: nat, b: BaseUint, j: nat) returns (ghost k: nat)
      requires Valid() && b.Valid() && b.pn.Length == pn.Length && b.pn != pn && j < pn.Length && p < BASE
      modifies pn
      ensures Valid() && Val() + k * Modulus() == old(Val()) + p * Pow(BASE, j) * b.Val()
    {
      hide Pow;
      ghost var x, y := pn[..], b.pn[..];
      var carry: nat := 0;
      var i := 0;
      TimesZero(p * Pow(BASE, j));
      TimesZero(Pow(BASE, j));
      while i + j < pn.Length
        invariant 0 <= i <= pn.Length - j && IsLimbs(pn[..]) && carry < BASE && b.pn[..] == y
        invariant Value(pn[..]) + carry * Pow(BASE, i + j) == Value(x) + p * Pow(BASE, j) * Below(y, i)
      {
        ghost var now := pn[..];
        ProductFits(p, b.pn[i], carry, pn[i + j]);
        var n: nat := carry + pn[i + j] + p * b.pn[i];
        assert n < 0x1_0000_0000_0000_0000;
        CarryStep(now, i + j, carry, p * y[i], n);
        var r: nat := n % BASE;
        pn[i + j] := r;
        assert pn[..] == now[i + j := r];
        carry := n / BASE;
        RowStep(p, y, i, j);
        i := i + 1;
      }
      k := RowRest(p, y, i, j, Value(pn[..]), Value(x), carry);
    }

    method MulAssign(b: BaseUint)
      requires Valid() && b.Valid() && b.pn.Length == pn.Length
      modifies pn
      ensures Valid() && Val() == (old(Val()) * old(b.Val())) % Modulus()
    {
      hide Pow, Below;
      ghost var x, v := pn[..], b.Val();
      var a := new BaseUint(pn.Length);
      ghost var q: nat := 0;
      TimesZero(Modulus());
      TimesZero(v);
      BelowNothing(x);
      for j := 0 to pn.Length
        invariant unchanged(pn) && unchanged(b.pn) && a.Valid()
        invariant a.Val() + q * Modulus() == Below(x, j) * v
      {
        ghost var start := a.Val();
        BelowNext(x, j);
        ghost var k := a.AddRow(pn[j], b, j);
        MulRows(start, a.Val(), q, k, Modulus(), Below(x, j), x[j] * Pow(BASE, j), v);
        q := q + k;
      }
      BelowBound(a.pn[..], a.pn.Length);
      IsRemainder(a.Val(), q, Modulus(), Value(x) * v);
      Assign(a);
    }

    /** Negative, zero or positive, as this number is less, equal or greater. */
    method CompareTo(b: BaseUint) returns (c: int)
      requires Valid() && b.Valid() && b.pn.Length == pn.Length
      ensures -1 <= c <= 1
      ensures (c < 0 <==> Val() < b.Val()) && (c > 0 <==> Val() > b.Val()) && (c == 0 <==> pn[..] == b.pn[..])
    {
      hide Pow, Below;
      ghost var x, y := pn[..], b.pn[..];
      var i := pn.Length - 1;
      while i >= 0
        invariant -1 <= i < pn.Length
        invariant forall j :: i < j < pn.Length ==> pn[j] == b.pn[j]
      {
        if pn[i] < b.pn[i] {
          CompareAt(x, y, i, |x|);
          return -1;
        }
        if pn[i] > b.pn[i] {
          CompareAt(y, x, i, |x|);
          return 1;
        }
        i := i - 1;
      }
      assert x == y;
      return 0;
    }

    /** The position of the highest bit set plus one, or zero. */
    method Bits() returns (n: nat)
      requires Valid()
      ensures n <= 32 * pn.Length && Val() < Pow(2, n)
      ensures n == 0 <==> Val() == 0
      ensures n > 0 ==> Pow(2, n - 1) <= Val()
    {
      hide Pow;
      ghost var x := pn[..];
      var pos := pn.Length - 1;
      while pos >= 0
        invariant -1 <= pos < pn.Length
        invariant forall j :: pos < j < pn.Length ==> pn[j] == 0
      {
        if pn[pos] != 0 {
          var nbits := HighBit(pn[pos]);
          HighLimb(x, pos, nbits);
          return 32 * pos + nbits + 1;
        }
        pos := pos - 1;
      }
      BelowZero(x, 0, |x|);
      PowZero(2);
      return 0;
    }

    method SetZero()
      requires Valid()
      modifies pn
      ensures Valid() && Val() == 0 && forall t :: 0 <= t < pn.Length ==> pn[t] == 0
    {
      for i := 0 to pn.Length
        invariant forall t :: 0 <= t < i ==> pn[t] == 0
      {
        pn[i] := 0;
      }
      BelowZero(pn[..], 0, pn.Length);
    }

    /** Add to a limb with which it shares no bit. */
    method OrLimb(t: nat, y: nat, bits: nat)
      requires Valid() && t < pn.Length && pn[t] < Pow(2, bits) && y % Pow(2, bits) == 0 && y + Pow(2, bits) <= BASE
      modifies pn
      ensures Valid() && pn[t] == old(pn[t]) + y && (forall u :: 0 <= u < pn.Length && u != t ==> pn[u] == old(pn[u]))
      ensures Val() == old(Val()) + y * Pow(BASE, t)
    {
      hide Pow, Below, Or;
      ghost var now := pn[..];
      OrDisjoint(pn[t], y, bits);
      BelowUpdate(now, |now|, t, now[t] + y);
      pn[t] := Or(pn[t], y);
      assert pn[..] == now[t := now[t] + y];
    }

    /** Add one limb, moved up by `s` bits, into the limbs `u` and `u + 1`. */
    method PlaceLeft(x: nat, u: nat, s: nat) returns (ghost d: nat)
      requires Valid() && x < BASE && s < 32
      requires (forall t :: u < t < pn.Length ==> pn[t] == 0) && (u < pn.Length ==> pn[u] < Pow(2, s))
      modifies pn
      ensures Valid()
      ensures (forall t :: u + 1 < t < pn.Length ==> pn[t] == 0) && (u + 1 < pn.Length ==> pn[u + 1] < Pow(2, s))
      ensures Val() + d * Modulus() == old(Val()) + x * Pow(2, s) * Pow(BASE, u)
    {
      hide Pow, Below, Or;
      var hi: nat, lo: nat := x / Pow(2, 32 - s), (x * Pow(2, s)) % BASE;
      SplitLeft(x, s);
      ghost var v := Val();
      if u + 1 < pn.Length && s != 0 {
        OneModulo(hi);
        ZeroRoom(hi, s);
        OrLimb(u + 1, hi, 0);
      }
      if u < pn.Length {
        OrLimb(u, lo, s);
      }
      d := LeftTotal(x, hi, lo, u, s, pn.Length);
      assert u + 1 < pn.Length ==> Val() == v + hi * Pow(BASE, u + 1) + lo * Pow(BASE, u) by {
        TimesZero(Pow(BASE, u + 1));
      }
    }

    method ShiftLeft(shift: nat)
      requires Valid()
      modifies pn
      ensures Valid() && Val() == (old(Val()) * Pow(2, shift)) % Modulus()
    {
      hide Pow, Below;
      ghost var x := pn[..];
      var a := new BaseUint.Copy(this);
      SetZero();
      var k, s := shift / 32, shift % 32;
      ghost var q: nat := 0;
      ghost var f := Pow(2, shift);
      TimesZero(Modulus());
      TimesZero(f);
      BelowNothing(x);
      for i := 0 to pn.Length
        invariant Valid() && a.pn[..] == x
        invariant (forall t :: i + k < t < pn.Length ==> pn[t] == 0) && (i + k < pn.Length ==> pn[i + k] < Pow(2, s))
        invariant Val() + q * Modulus() == Below(x, i) * f
      {
        ghost var v := Val();
        ghost var d := PlaceLeft(a.pn[i], i + k, s);
        BelowNext(x, i);
        LeftStep(x[i], s, i, k, shift);
        MulRows(v, Val(), q, d, Modulus(), Below(x, i), x[i] * Pow(BASE, i), f);
        q := q + d;
      }
      BelowBound(pn[..], pn.Length);
      IsRemainder(Val(), q, Modulus(), Value(x) * f);
    }

    /** Add one limb, moved down by `s` bits, into the limbs `u` and `u - 1`; below limb zero bits are lost. */
    method PlaceRight(x: nat, u: nat, s: nat)
      requires Valid() && x < BASE && s < 32 && u < pn.Length
      requires (forall t :: u <= t < pn.Length ==> pn[t] == 0) && (u > 0 ==> pn[u - 1] < Pow(2, 32 - s))
      modifies pn
      ensures Valid()
      ensures (forall t :: u < t < pn.Length ==> pn[t] == 0) && pn[u] < Pow(2, 32 - s)
      ensures u > 0 ==> Val() * Pow(2, s) == old(Val()) * Pow(2, s) + x * Pow(BASE, u)
      ensures u == 0 ==> Val() == old(Val()) + x / Pow(2, s)
    {
      hide Pow, Below, Or;
      var hi: nat, lo: nat := (x * Pow(2, 32 - s)) % BASE, x / Pow(2, s);
      SplitRight(x, s);
      ghost var v := Val();
      if u > 0 && s != 0 {
        OrLimb(u - 1, hi, 32 - s);
      }
      OneModulo(lo);
      OrLimb(u, lo, 0);
      if u > 0 {
        assert Val() == v + hi * Pow(BASE, u - 1) + lo * Pow(BASE, u) by { TimesZero(Pow(BASE, u - 1)); }
        RightTotal(x, hi, lo, u, s, v);
      } else {
        PowZero(BASE);
      }
    }

    method ShiftRight(shift: nat)
      requires Valid()
      modifies pn
      ensures Valid() && Val() == old(Val()) / Pow(2, shift)
    {
      hide Pow, Below;
      ghost var x := pn[..];
      var a := new BaseUint.Copy(this);
      SetZero();
      var k, s := shift / 32, shift % 32;
      ghost var rem: nat := 0;
      TimesZero(Pow(2, shift));
      BelowNothing(x);
      for i := 0 to pn.Length
        invariant Valid() && a.pn[..] == x
        invariant forall t :: 0 <= t < pn.Length && t + k >= i ==> pn[t] == 0
        invariant i > k ==> pn[i - k - 1] < Pow(2, 32 - s)
        invariant Val() * Pow(2, shift) + rem == Below(x, i)
        invariant i <= k ==> Val() == 0
        invariant i > k ==> rem < Pow(2, shift)
      {
        ghost var v := Val();
        BelowNext(x, i);
        if i >= k {
          PlaceRight(a.pn[i], i - k, s);
          rem := RightStep(x, i, k, s, shift, v, Val(), rem);
        } else {
          rem := Below(x, i + 1);
        }
      }
      if pn.Length <= k { ShortRest(x, k, s, shift); }
      DivideBack(Pow(2, shift), Val(), rem);
    }

    /** Set a bit of a number whose bits up to it are clear. */
    method SetBit(shift: nat)
      requires Valid() && shift < 32 * pn.Length && ClearTo(pn[..], shift + 1)
      modifies pn
      ensures Valid() && ClearTo(pn[..], shift) && Val() == old(Val()) + Pow(2, shift)
    {
      hide Pow, Below, Or;
      ghost var now := pn[..];
      BitSet(now, shift);
      var t, r := shift / 32, shift % 32;
      pn[t] := Or(pn[t], Pow(2, r));
      assert pn[..] == now[t := Or(now[t], Pow(2, r))];
    }

    /** One round of the division: subtract the divisor and set a bit if it fits, then move the divisor down. */
    method DivRound(num: BaseUint, div: BaseUint, shift: nat, ghost d: nat)
      requires Valid() && num.Valid() && div.Valid() && pn != num.pn && pn != div.pn && num.pn != div.pn
      requires num.pn.Length == div.pn.Length == pn.Length && shift < 32 * pn.Length && ClearTo(pn[..], shift + 1)
      requires div.Val() == d * Pow(2, shift) && num.Val() < d * Pow(2, shift + 1)
      modifies pn, num.pn, div.pn
      ensures Valid() && num.Valid() && div.Valid() && ClearTo(pn[..], shift)
      ensures Val() * d + num.Val() == old(Val() * d + num.Val()) && num.Val() < d * Pow(2, shift)
      ensures shift > 0 ==> div.Val() == d * Pow(2, shift - 1)
    {
      hide Pow, Below, ClearTo;
      ghost var v, r, p := Val(), num.Val(), Pow(2, shift);
      PowNextTwo(shift);
      DoubleBound(d, p);
      BelowBound(num.pn[..], num.pn.Length);
      var c := num.CompareTo(div);
      if c >= 0 {
        num.SubAssign(div);
        Exact(r - d * p, num.Modulus());
        SetBit(shift);
        QuotientStep(v, d, p);
      } else {
        ClearLess(pn[..], shift);
      }
      div.ShiftRight(1);
      if shift > 0 { HalfPower(d, shift); }
    }

    /** The rounds of the division, from the alignment of the highest bits down to the divisor itself. */
    method DivRounds(num: BaseUint, div: BaseUint, start: nat, ghost d: nat)
      requires Valid() && num.Valid() && div.Valid() && pn != num.pn && pn != div.pn && num.pn != div.pn
      requires num.pn.Length == div.pn.Length == pn.Length && start < 32 * pn.Length && ClearTo(pn[..], start + 1)
      requires div.Val() == d * Pow(2, start) && num.Val() < d * Pow(2, start + 1)
      modifies pn, num.pn, div.pn
      ensures Valid() && num.Valid() && div.Valid()
      ensures Val() * d + num.Val() == old(Val() * d + num.Val()) && num.Val() < d
    {
      hide *;
      var shift := start;
      while shift >= 0
        invariant -1 <= shift <= start
        invariant Valid() && num.Valid() && div.Valid()
        invariant ClearTo(pn[..], shift + 1)
        invariant Val() * d + num.Val() == old(Val() * d + num.Val()) && num.Val() < d * Pow(2, shift + 1)
        invariant shift >= 0 ==> div.Val() == d * Pow(2, shift)
      {
        DivRound(num, div, shift, d);
        shift := shift - 1;
      }
      PowZero(2);
    }

    /** Divide by shifting and subtracting; the remainder is left in `num`. */
    method DivAssign(b: BaseUint) returns (outcome: Outcome, num: BaseUint)
      requires Valid() && b.Valid() && b.pn.Length == pn.Length
      modifies pn
      ensures Valid() && num.Valid() && fresh(num) && fresh(num.pn)
      ensures old(b.Val()) == 0 ==> outcome == DivisionByZero && Val() == 0
      ensures old(b.Val()) > 0 ==>
                outcome == Done && Val() == old(Val()) / old(b.Val()) && num.Val() == old(Val()) % old(b.Val())
    {
      hide Pow, Below, ClearTo;
      ghost var n, d := Val(), b.Val();
      var div := new BaseUint.Copy(b);
      num := new BaseUint.Copy(this);
      SetZero();
      var numBits := num.Bits();
      var divBits := div.Bits();
      if divBits == 0 {
        return DivisionByZero, num;
      }
      if divBits > numBits {
        PowGrows(2, numBits, divBits - 1);
        DivideBack(d, 0, n);
        return Done, num;
      }
      var shift := numBits - divBits;
      AlignFits(n, d, numBits, divBits, pn.Length);
      div.ShiftLeft(shift);
      Exact(d * Pow(2, shift), div.Modulus());
      TimesZero(d);
      AllClear(pn[..], shift + 1);
      DivRounds(num, div, shift, d);
      DivideBack(d, Val(), num.Val());
      outcome := Done;
    }
  }

  lemma OneModulo(x: nat)
    ensures x % Pow(2, 0) == 0
  {
  }

  lemma ZeroRoom(hi: nat, s: nat)
    requires hi < Pow(2, s) && s < 32
    ensures 0 < Pow(2, 0) && hi + Pow(2, 0) <= BASE
  {
    Pow32();
    PowStrict(2, s, 32);
  }

  /** A limb moved up by `s` bits: what stays in the limb and what goes into the next. */
  lemma SplitLeft(x: nat, s: nat)
    requires x < BASE && s < 32
    ensures var hi, lo := x / Pow(2, 32 - s), (x * Pow(2, s)) % BASE;
            && 0 <= hi < Pow(2, s) && 0 <= lo && lo % Pow(2, s) == 0 && lo + Pow(2, s) <= BASE
            && hi * BASE + lo == x * Pow(2, s) && (s == 0 ==> hi == 0)
  {
    Pow32();
    PowAdd(2, s, 32 - s);
    PowZero(2);
    hide Pow;
    var p, c := Pow(2, s), Pow(2, 32 - s);
    SplitAlgebra(x, p, c);
  }

  lemma SplitAlgebra(x: nat, p: nat, c: nat)
    requires p > 0 && c > 0 && p * c == BASE && x < BASE
    ensures var hi, lo := x / c, (x * p) % BASE;
            && 0 <= hi < p && 0 <= lo && lo % p == 0 && lo + p <= BASE && hi * BASE + lo == x * p && lo == (x % c) * p
  {
    var hi, rem := x / c, x % c;
    assert x == c * hi + rem;
    if hi >= p { Scale(c, p, hi); }
    if hi < 0 { Scale(c, hi, -1); }
    Scale(p, rem + 1, c);
    SumTimes(c * hi, rem, p);
    Associate(hi, c, p);
    NonNegative(rem, p);
    IsRemainder(rem * p, hi, BASE, x * p);
    IsRemainder(0, rem, p, rem * p);
  }

  lemma LeftTotal(x: nat, hi: nat, lo: nat, u: nat, s: nat, width: nat) returns (d: nat)
    requires hi * BASE + lo == x * Pow(2, s)
    ensures u + 1 < width ==> d == 0 && x * Pow(2, s) * Pow(BASE, u) == hi * Pow(BASE, u + 1) + lo * Pow(BASE, u)
    ensures u + 1 == width ==> x * Pow(2, s) * Pow(BASE, u) == d * Pow(BASE, width) + lo * Pow(BASE, u)
    ensures u >= width ==> x * Pow(2, s) * Pow(BASE, u) == d * Pow(BASE, width)
  {
    PowNext(u);
    if u >= width { PowAdd(BASE, u - width, width); }
    hide Pow;
    var p := Pow(BASE, u);
    SumTimes(hi * BASE, lo, p);
    Associate(hi, BASE, p);
    if u + 1 < width {
      d := 0;
    } else if u + 1 == width {
      d := hi;
    } else {
      NonNegative(x, Pow(2, s));
      NonNegative(x * Pow(2, s), Pow(BASE, u - width));
      d := x * Pow(2, s) * Pow(BASE, u - width);
      Associate(x * Pow(2, s), Pow(BASE, u - width), Pow(BASE, width));
    }
  }

  lemma LeftStep(x: nat, s: nat, i: nat, k: nat, shift: nat)
    requires shift == 32 * k + s
    ensures x * Pow(2, s) * Pow(BASE, i + k) == x * Pow(BASE, i) * Pow(2, shift)
  {
    PowAdd(BASE, i, k);
    LimbPower(k, s);
    hide Pow;
    Regroup(x, Pow(2, s), Pow(BASE, i), Pow(BASE, k));
  }

  lemma Regroup(x: nat, p: nat, a: nat, b: nat)
    ensures x * p * (a * b) == x * a * (p * b)
  {
    Associate(x * p, a, b);
    Associate(x * a, p, b);
    Associate(x, p, a);
    Associate(x, a, p);
  }

  /** A limb moved down by `s` bits: what stays in the limb and what goes into the one below. */
  lemma SplitRight(x: nat, s: nat)
    requires x < BASE && s < 32
    ensures var hi, lo := (x * Pow(2, 32 - s)) % BASE, x / Pow(2, s);
            && 0 <= lo < Pow(2, 32 - s) && lo + 1 <= BASE && Pow(2, 0) == 1
            && 0 <= hi && hi % Pow(2, 32 - s) == 0 && hi + Pow(2, 32 - s) <= BASE
            && hi == (x % Pow(2, s)) * Pow(2, 32 - s) && (s == 0 ==> hi == 0)
  {
    Pow32();
    PowAdd(2, s, 32 - s);
    PowZero(2);
    hide Pow;
    SplitRightAlgebra(x, Pow(2, s), Pow(2, 32 - s));
  }

  lemma SplitRightAlgebra(x: nat, p: nat, c: nat)
    requires p > 0 && c > 0 && p * c == BASE && x < BASE
    ensures var hi, lo := (x * c) % BASE, x / p;
            && 0 <= lo < c && lo + 1 <= BASE
            && 0 <= hi && hi % c == 0 && hi + c <= BASE
            && hi == (x % p) * c && (p == 1 ==> hi == 0)
  {
    assert c * p == p * c;
    SplitAlgebra(x, c, p);
    MulAtMost(1, p, c);
    if p == 1 {
      IsRemainder(0, x, 1, x);
      TimesZero(c);
    }
  }

  lemma RightTotal(x: nat, hi: nat, lo: nat, u: nat, s: nat, v: nat)
    requires u > 0 && s < 32 && lo == x / Pow(2, s) && hi == (x % Pow(2, s)) * Pow(2, 32 - s)
    ensures (v + hi * Pow(BASE, u - 1) + lo * Pow(BASE, u)) * Pow(2, s) == v * Pow(2, s) + x * Pow(BASE, u)
  {
    PowNext(u - 1);
    Pow32();
    PowAdd(2, s, 32 - s);
    hide Pow;
    var q, rem := DivMod(x, Pow(2, s));
    RightAlgebra(x, rem, lo, Pow(2, s), Pow(2, 32 - s), Pow(BASE, u - 1), v, BASE);
  }

  lemma DivMod(x: nat, p: nat) returns (q: nat, r: nat)
    requires p > 0
    ensures q == x / p && r == x % p && r < p && x == q * p + r
  {
    var q', r' := x / p, x % p;
    assert x == p * q' + r';
    if q' < 0 { Scale(p, q', -1); }
    q, r := q', r';
  }

  lemma RightAlgebra(x: nat, rem: nat, lo: nat, p: nat, c: nat, b: nat, v: nat, base: nat)
    requires p * c == base && x == lo * p + rem
    ensures (v + rem * c * b + lo * (base * b)) * p == v * p + x * (base * b)
  {
    var q := base * b;
    SumTimes(v + rem * c * b, lo * q, p);
    SumTimes(v, rem * c * b, p);
    RightHigh(rem, c, b, p, base);
    Associate(lo, q, p);
    Associate(lo, p, q);
    SumTimes(lo * p, rem, q);
  }

  lemma RightHigh(rem: nat, c: nat, b: nat, p: nat, base: nat)
    requires p * c == base
    ensures rem * c * b * p == rem * (base * b)
  {
    Associate(rem * c, b, p);
    Associate(rem, c, b * p);
    assert c * (b * p) == p * c * b by { Associate(c, b, p); Associate(p, c, b); }
  }

  /** What a step of the right shift leaves over. */
  lemma RightStep(x: seq<nat>, i: nat, k: nat, s: nat, shift: nat, v: nat, v': nat, rem: nat) returns (rem': nat)
    requires IsLimbs(x) && k <= i < |x| && shift == 32 * k + s && s < 32 && v * Pow(2, shift) + rem == Below(x, i)
    requires i > k ==> v' * Pow(2, s) == v * Pow(2, s) + x[i] * Pow(BASE, i - k) && rem < Pow(2, shift)
    requires i == k ==> v == 0 && v' == x[i] / Pow(2, s)
    ensures v' * Pow(2, shift) + rem' == Below(x, i + 1) && rem' < Pow(2, shift)
  {
    LimbPower(k, s);
    BelowNext(x, i);
    hide Pow, Below;
    var p, b := Pow(2, s), Pow(BASE, k);
    if i > k {
      PowAdd(BASE, k, i - k);
      rem' := rem;
      RightMore(v, v', x[i], Pow(BASE, i - k), p, b);
    } else {
      TimesZero(Pow(2, shift));
      BelowBound(x, k);
      var q, low := DivMod(x[k], p);
      NonNegative(low, b);
      rem' := Below(x, k) + low * b;
      RightFirst(x[k], v', low, p, b);
    }
  }

  lemma RightMore(v: nat, v': nat, x: nat, a: nat, p: nat, b: nat)
    requires v' * p == v * p + x * a
    ensures v' * (b * p) == v * (b * p) + x * (b * a)
  {
    assert v' * (b * p) == v' * p * b;
    assert v * (b * p) == v * p * b;
    assert x * (b * a) == x * a * b;
    SumTimes(v * p, x * a, b);
  }

  lemma RightFirst(x: nat, v: nat, low: nat, p: nat, b: nat)
    requires x == v * p + low && low < p
    ensures v * (b * p) + low * b == x * b && low * b + b <= b * p
  {
    assert v * (b * p) == v * p * b;
    SumTimes(v * p, low, b);
    MulAtMost(low + 1, p, b);
    SumTimes(low, 1, b);
  }

  lemma ShortRest(x: seq<nat>, k: nat, s: nat, shift: nat)
    requires IsLimbs(x) && |x| <= k && shift == 32 * k + s
    ensures Value(x) < Pow(2, shift)
  {
    BelowBound(x, |x|);
    PowGrows(BASE, |x|, k);
    LimbPower(k, s);
    Scale(Pow(BASE, k), 1, Pow(2, s));
  }

  // ----- Division -----

  /** The bits below `n` are clear. */
  ghost predicate ClearTo(s: seq<nat>, n: nat) {
    && n <= 32 * |s|
    && (forall t :: 0 <= t < n / 32 ==> s[t] == 0)
    && (n / 32 < |s| ==> s[n / 32] % Pow(2, n % 32) == 0)
  }

  lemma AllClear(s: seq<nat>, n: nat)
    requires n <= 32 * |s| && forall t :: 0 <= t < |s| ==> s[t] == 0
    ensures ClearTo(s, n)
  {
    IsRemainder(0, 0, Pow(2, n % 32), 0);
  }

  lemma ClearLess(s: seq<nat>, n: nat)
    requires ClearTo(s, n + 1)
    ensures ClearTo(s, n)
  {
    var t, r := n / 32, n % 32;
    if r == 31 {
      assert (n + 1) / 32 == t + 1;
      IsRemainder(0, 0, Pow(2, r), 0);
    } else {
      assert (n + 1) / 32 == t && (n + 1) % 32 == r + 1;
      PowNextTwo(r);
      if t < |s| { HalfClear(s[t], Pow(2, r)); }
    }
  }

  lemma HalfClear(x: nat, p: nat)
    requires p > 0 && x % (2 * p) == 0
    ensures x % p == 0
  {
    var q, _ := DivMod(x, 2 * p);
    Associate(q, 2, p);
    IsRemainder(0, 2 * q, p, x);
  }

  lemma ClearBit(s: seq<nat>, n: nat)
    requires n < 32 * |s| && IsLimbs(s) && ClearTo(s, n + 1)
    ensures s[n / 32] % Pow(2, n % 32 + 1) == 0 && s[n / 32] + Pow(2, n % 32) < BASE
  {
    var t, r := n / 32, n % 32;
    if r == 31 {
      assert (n + 1) / 32 == t + 1;
      IsRemainder(0, 0, Pow(2, r + 1), 0);
    } else {
      assert (n + 1) / 32 == t && (n + 1) % 32 == r + 1;
    }
    BitRoom(s[t], r);
  }

  /** A limb whose bits up to bit `r` are clear has room for that bit. */
  lemma BitRoom(x: nat, r: nat)
    requires r < 32 && x < BASE && x % Pow(2, r + 1) == 0
    ensures x + Pow(2, r) < BASE
  {
    Pow32();
    PowAdd(2, r + 1, 31 - r);
    PowStrict(2, r, r + 1);
    hide Pow;
    MultipleRoom(x, Pow(2, r + 1), Pow(2, 31 - r));
  }

  lemma MultipleRoom(x: nat, p: nat, c: nat)
    requires p > 0 && x % p == 0 && x < p * c
    ensures x + p <= p * c
  {
    var q, _ := DivMod(x, p);
    assert x == p * q;
    if q >= c { Scale(p, c, q); }
    Scale(p, q + 1, c);
    assert p * (q + 1) == p * q + p;
  }

  lemma HalfBit(x: nat, p: nat)
    requires p > 0 && x % (2 * p) == 0
    ensures (x + p) % p == 0
  {
    var q, _ := DivMod(x, 2 * p);
    OddMultiple(q, p);
    IsRemainder(0, 2 * q + 1, p, x + p);
  }

  lemma OddMultiple(q: nat, p: nat)
    ensures q * (2 * p) + p == (2 * q + 1) * p
  {
    Associate(q, 2, p);
    SumTimes(2 * q, 1, p);
  }

  lemma ClearZeros(s: seq<nat>, n: nat)
    requires ClearTo(s, n + 1)
    ensures forall u :: 0 <= u < n / 32 ==> s[u] == 0
  {
    assert n / 32 <= (n + 1) / 32;
  }

  lemma ClearIntro(s: seq<nat>, n: nat, t: nat, r: nat)
    requires n <= 32 * |s| && t == n / 32 && r == n % 32 && (forall u :: 0 <= u < t ==> s[u] == 0)
    requires t < |s| ==> s[t] % Pow(2, r) == 0
    ensures ClearTo(s, n)
  {
    hide Pow;
  }

  lemma ClearAfter(s: seq<nat>, n: nat)
    requires n < 32 * |s| && ClearTo(s, n + 1) && s[n / 32] % Pow(2, n % 32 + 1) == 0
    ensures ClearTo(s[n / 32 := s[n / 32] + Pow(2, n % 32)], n)
  {
    hide Pow, ClearTo;
    var t, r := n / 32, n % 32;
    PowNextTwo(r);
    HalfBit(s[t], Pow(2, r));
    ClearZeros(s, n);
    ClearIntro(s[t := s[t] + Pow(2, r)], n, t, r);
  }

  /** Setting the highest of the bits that are clear. */
  lemma BitSet(s: seq<nat>, n: nat)
    requires n < 32 * |s| && IsLimbs(s) && ClearTo(s, n + 1)
    ensures var s' := s[n / 32 := Or(s[n / 32], Pow(2, n % 32))];
            IsLimbs(s') && ClearTo(s', n) && Value(s') == Value(s) + Pow(2, n)
  {
    hide Pow, Below, Or, ClearTo;
    var t, r := n / 32, n % 32;
    ClearBit(s, n);
    OrBit(s[t], r);
    BelowUpdate(s, |s|, t, s[t] + Pow(2, r));
    LimbPower(t, r);
    assert (s[t] + Pow(2, r) - s[t]) * Pow(BASE, t) == Pow(2, n);
    ClearAfter(s, n);
  }

  lemma AlignBelow(d: nat, shift: nat, divBits: nat, width: nat)
    requires divBits + shift <= 32 * width && d < Pow(2, divBits)
    ensures 0 <= d * Pow(2, shift) < Pow(BASE, width)
  {
    hide Pow;
    PowAdd(2, divBits, shift);
    PowGrows(2, divBits + shift, 32 * width);
    LimbPower(width, 0);
    PowZero(2);
    TimesOne(Pow(BASE, width));
    NonNegative(d, Pow(2, shift));
    MulLess(d, Pow(2, divBits), Pow(2, shift));
  }

  lemma AlignAbove(n: nat, d: nat, shift: nat, divBits: nat)
    requires divBits > 0 && n < Pow(2, divBits + shift) && Pow(2, divBits - 1) <= d
    ensures n < d * Pow(2, shift + 1)
  {
    hide Pow;
    PowAdd(2, divBits - 1, shift + 1);
    MulAtMost(Pow(2, divBits - 1), d, Pow(2, shift + 1));
  }

  /** The divisor moved up to the dividend does not overflow, and twice it exceeds the dividend. */
  lemma AlignFits(n: nat, d: nat, numBits: nat, divBits: nat, width: nat)
    requires 0 < divBits <= numBits <= 32 * width
    requires n < Pow(2, numBits) && Pow(2, divBits - 1) <= d < Pow(2, divBits)
    ensures 0 <= d * Pow(2, numBits - divBits) < Pow(BASE, width)
    ensures n < d * Pow(2, numBits - divBits + 1)
  {
    hide Pow;
    AlignBelow(d, numBits - divBits, divBits, width);
    AlignAbove(n, d, numBits - divBits, divBits);
  }

  lemma TimesOne(a: int)
    ensures a * 1 == a
  {
  }

  lemma MulLess(a: nat, b: nat, p: nat)
    requires a < b && p > 0
    ensures a * p < b * p
  {
    Scale(p, a + 1, b);
    assert p * (a + 1) == a * p + p;
  }

  lemma MulAtMost(a: nat, b: nat, p: nat)
    requires a <= b
    ensures a * p <= b * p
  {
    Scale(p, a, b);
  }

  lemma Exact(x: nat, m: nat)
    requires x < m
    ensures x % m == x
  {
    IsRemainder(x, 0, m, x);
  }

  lemma PowNextTwo(shift: nat)
    ensures Pow(2, shift + 1) == 2 * Pow(2, shift)
  {
  }

  lemma QuotientStep(v: nat, d: nat, p: nat)
    ensures (v + p) * d == v * d + d * p && d * p >= 0
  {
    NonNegative(d, p);
    SumTimes(v, p, d);
  }

  lemma DoubleBound(d: nat, p: nat)
    ensures d * (2 * p) == 2 * (d * p)
  {
  }

  lemma HalfPower(d: nat, shift: nat)
    requires shift > 0
    ensures d * Pow(2, shift) / Pow(2, 1) == d * Pow(2, shift - 1)
  {
    PowNextTwo(shift - 1);
    PowNextTwo(0);
    PowZero(2);
    hide Pow;
    var h := d * Pow(2, shift - 1);
    NonNegative(d, Pow(2, shift - 1));
    assert d * Pow(2, shift) == 2 * h;
  }

  /** The highest bit of a limb. */
  method HighBit(limb: nat) returns (nbits: nat)
    requires 0 < limb < BASE
    ensures nbits < 32 && Pow(2, nbits) <= limb < Pow(2, nbits + 1)
  {
    Pow32();
    hide Pow;
    nbits := 31;
    while nbits > 0
      invariant nbits < 32 && limb < Pow(2, nbits + 1)
    {
      TopBit(limb, nbits);
      if (limb / Pow(2, nbits)) % 2 == 1 {
        return;
      }
      nbits := nbits - 1;
    }
    PowZero(2);
  }

  /** The top bit is set or the number is smaller. */
  lemma TopBit(x: nat, n: nat)
    requires x < Pow(2, n + 1)
    ensures (x / Pow(2, n)) % 2 == 1 ==> Pow(2, n) <= x
    ensures (x / Pow(2, n)) % 2 != 1 ==> x < Pow(2, n)
  {
    var p := Pow(2, n);
    assert Pow(2, n + 1) == 2 * p;
    hide Pow;
    if x < p {
      DivideBack(p, 0, x);
    } else {
      DivideBack(p, 1, x - p);
    }
  }

  lemma HighLimb(x: seq<nat>, pos: nat, nbits: nat)
    requires IsLimbs(x) && pos < |x| && (forall j :: pos < j < |x| ==> x[j] == 0)
    requires nbits < 32 && Pow(2, nbits) <= x[pos] < Pow(2, nbits + 1)
    ensures Pow(2, 32 * pos + nbits) <= Value(x) < Pow(2, 32 * pos + nbits + 1)
  {
    hide Pow;
    BelowZero(x, pos + 1, |x|);
    BelowBound(x, pos);
    var p := Pow(BASE, pos);
    LimbPower(pos, nbits);
    LimbPower(pos, nbits + 1);
    Scale(p, Pow(2, nbits), x[pos]);
    Scale(p, x[pos] + 1, Pow(2, nbits + 1));
    assert p * (x[pos] + 1) == x[pos] * p + p;
  }

  lemma RowStep(p: nat, y: seq<nat>, i: nat, j: nat)
    requires i < |y|
    ensures p * Pow(BASE, j) * Below(y, i + 1) == p * Pow(BASE, j) * Below(y, i) + p * y[i] * Pow(BASE, i + j)
  {
    PowAdd(BASE, i, j);
    hide Pow;
    var a, b := Pow(BASE, i), Pow(BASE, j);
    RowAlgebra(p, b, Below(y, i), y[i], a);
  }

  lemma RowAlgebra(p: nat, b: nat, low: nat, d: nat, a: nat)
    ensures p * b * (low + d * a) == p * b * low + p * d * (a * b)
  {
    assert p * b * (d * a) == p * d * (a * b);
  }

  /** The limbs of `b` that the row cuts off are multiples of the modulus. */
  lemma RowRest(p: nat, y: seq<nat>, i: nat, j: nat, now: nat, before: nat, carry: nat) returns (k: nat)
    requires i + j == |y| && now + carry * Pow(BASE, i + j) == before + p * Pow(BASE, j) * Below(y, i)
    ensures now + k * Pow(BASE, |y|) == before + p * Pow(BASE, j) * Value(y)
  {
    hide Below;
    var high := BelowHigh(y, i, |y|);
    PowAdd(BASE, i, j);
    hide Pow;
    var m := Pow(BASE, |y|);
    RowAlgebra(p, Pow(BASE, j), Below(y, i), high, Pow(BASE, i));
    NonNegative(p, high);
    k := carry + p * high;
    SumTimes(carry, p * high, m);
  }

  lemma SumTimes(a: int, b: int, m: int)
    ensures (a + b) * m == a * m + b * m
  {
  }

  lemma TimesZero(a: int)
    ensures a * 0 == 0 && 0 * a == 0
  {
  }

  lemma BelowNothing(y: seq<nat>)
    ensures Below(y, 0) == 0
  {
  }

  lemma BelowNext(y: seq<nat>, k: nat)
    requires k < |y|
    ensures y[k] * Pow(BASE, k) >= 0 && Below(y, k + 1) == Below(y, k) + y[k] * Pow(BASE, k)
  {
    NonNegative(y[k], Pow(BASE, k));
  }

  /** The limbs from `k` on. */
  lemma {:induction false} BelowHigh(y: seq<nat>, k: nat, m: nat) returns (high: nat)
    requires k <= m <= |y|
    ensures Below(y, m) == Below(y, k) + high * Pow(BASE, k)
    decreases m
  {
    hide Pow, Below;
    if m == k {
      high := 0;
      TimesZero(Pow(BASE, k));
    } else {
      var h := BelowHigh(y, k, m - 1);
      PowAdd(BASE, m - 1 - k, k);
      var a, b, d := Pow(BASE, m - 1 - k), Pow(BASE, k), y[m - 1];
      BelowNext(y, m - 1);
      NonNegative(d, a);
      high := h + d * a;
      SumTimes(h, d * a, b);
      Associate(d, a, b);
    }
  }

  lemma MulRows(start: nat, now: nat, q: nat, k: nat, m: nat, low: nat, row: nat, v: nat)
    requires start + q * m == low * v && now + k * m == start + row * v
    ensures now + (q + k) * m == (low + row) * v
  {
    assert (q + k) * m == q * m + k * m && (low + row) * v == low * v + row * v;
  }

  lemma PowZero(b: nat)
    ensures Pow(b, 0) == 1
  {
  }

  lemma BorrowStep(before: nat, r: nat, i: nat)
    requires before < BASE && r == if before == 0 then BASE - 1 else before - 1
    ensures before != 0 ==> (r - before) * Pow(BASE, i) + Pow(BASE, i) == 0 && r != BASE - 1
    ensures before == 0 ==> (r - before) * Pow(BASE, i) == Pow(BASE, i + 1) - Pow(BASE, i)
  {
    PowNext(i);
    hide Pow;
    var p := Pow(BASE, i);
    assert (BASE - 1) * p == BASE * p - p;
    Cancels(p);
  }

  lemma Cancels(p: int)
    ensures -1 * p + p == 0
  {
  }

  lemma Complement(x: nat, p: nat)
    requires x < BASE
    ensures (BASE - 1 - x) * p + x * p == BASE * p - p
  {
    assert (BASE - 1 - x) * p + x * p == (BASE - 1) * p;
  }

  lemma ModSub(x: nat, y: nat, m: nat)
    requires y < m
    ensures (x + (m - y) % m) % m == (x - y) % m
  {
    if y == 0 {
      IsRemainder(0, 1, m, m);
    } else {
      IsRemainder(m - y, 0, m, m - y);
      ModShift(x - y, m);
    }
  }

  lemma ModShift(x: int, m: nat)
    requires m > 0
    ensures (x + m) % m == x % m
  {
    var q, r := x / m, x % m;
    assert x == m * q + r;
    assert (q + 1) * m == m * q + m;
    IsRemainder(r, q + 1, m, x + m);
  }

  /** No step of a multiplication leaves 64 bits, and every carry fits a limb. */
  lemma ProductFits(a: nat, b: nat, c: nat, d: nat)
    requires a < BASE && b < BASE && c < BASE && d < BASE
    ensures 0 <= a * b && c + d + a * b < 0x1_0000_0000_0000_0000 && (c + d + a * b) / BASE < BASE
  {
    NonNegative(a, b);
    Scale(a, b, BASE - 1);
    Scale(BASE - 1, a, BASE - 1);
    assert (BASE - 1) * a == a * (BASE - 1);
  }

  lemma MulDistribute(c: int, low: nat, d: nat, p: nat)
    ensures c * (low + d * p) == c * low + c * d * p
  {
    assert c * (d * p) == c * d * p;
  }

  lemma Tails(s: seq<nat>, t: seq<nat>, i: nat)
    requires |s| == |t| && i < |s| && s[i..] == t[i..]
    ensures s[i] == t[i] && s[i + 1..] == t[i + 1..]
  {
    assert s[i] == s[i..][0] && t[i] == t[i..][0];
    assert s[i + 1..] == s[i..][1..] && t[i + 1..] == t[i..][1..];
  }
}
