/** `bit_packed_atomic_flags` (`src/cuckoocache.h:43-117`): one flag per bit, eight flags to a byte. */
module BitFlags {
  import opened Basics

  /** The byte with only bit `k` set. */
  function Bit(k: nat): bv8
    requires k < 8
  {
    (1 as bv8) << k
  }

  lemma BitValue(k: nat)
    requires k < 8
    ensures Bit(k) == if k == 0 then 0x01 else if k == 1 then 0x02 else if k == 2 then 0x04 else if k == 3 then 0x08
                      else if k == 4 then 0x10 else if k == 5 then 0x20 else if k == 6 then 0x40 else 0x80
  {
    assert k == 0 || k == 1 || k == 2 || k == 3 || k == 4 || k == 5 || k == 6 || k == 7;
  }

  predicate Overlaps(byte: bv8, bit: bv8) {
    bit & byte != 0
  }

  predicate Test(byte: bv8, k: nat)
    requires k < 8
  {
    Overlaps(byte, Bit(k))
  }

  function With(byte: bv8, bit: bv8): bv8 {
    byte | bit
  }

  function Without(byte: bv8, bit: bv8): bv8 {
    byte & !bit
  }

  predicate OneBit(x: bv8) {
    x == 0x01 || x == 0x02 || x == 0x04 || x == 0x08 || x == 0x10 || x == 0x20 || x == 0x40 || x == 0x80
  }

  lemma OneBitApart(x: bv8, a: bv8, b: bv8)
    requires OneBit(a) && OneBit(b)
    ensures Overlaps(With(x, a), b) <==> a == b || Overlaps(x, b)
    ensures Overlaps(Without(x, a), b) <==> a != b && Overlaps(x, b)
    ensures Overlaps(0xFF, b)
  {
    hide *;
    OneBitWith(x, a, b);
    OneBitWithout(x, a, b);
  }

  lemma OneBitWith(x: bv8, a: bv8, b: bv8)
    requires OneBit(a) && OneBit(b)
    ensures Overlaps(With(x, a), b) <==> a == b || Overlaps(x, b)
    ensures Overlaps(0xFF, b)
  {
  }

  lemma OneBitWithout(x: bv8, a: bv8, b: bv8)
    requires OneBit(a) && OneBit(b)
    ensures Overlaps(Without(x, a), b) <==> a != b && Overlaps(x, b)
  {
  }

  /** Two bits of a byte do not touch each other. */
  lemma BitsApart(x: bv8, j: nat, k: nat)
    requires j < 8 && k < 8
    ensures Test(With(x, Bit(j)), k) <==> j == k || Test(x, k)
    ensures Test(Without(x, Bit(j)), k) <==> j != k && Test(x, k)
    ensures Test(0xFF, k)
  {
    hide Bit, OneBit, Overlaps, With, Without;
    BitDistinct(j, k);
    OneBitApart(x, Bit(j), Bit(k));
  }

  lemma BitDistinct(j: nat, k: nat)
    requires j < 8 && k < 8
    ensures OneBit(Bit(j)) && OneBit(Bit(k)) && (Bit(j) == Bit(k) <==> j == k)
  {
    BitValue(j);
    BitValue(k);
    hide Bit;
  }

  /** Flag `s` of packed flags. */
  predicate Get(mem: seq<bv8>, s: nat)
    requires s / 8 < |mem|
  {
    Test(mem[s / 8], s % 8)
  }

  lemma SetOne(mem: seq<bv8>, s: nat, t: nat)
    requires s / 8 < |mem| && t / 8 < |mem|
    ensures Get(mem[s / 8 := With(mem[s / 8], Bit(s % 8))], t) <==> t == s || Get(mem, t)
  {
    hide Bit, Test, With, Without;
    BitsApart(mem[s / 8], s % 8, t % 8);
  }

  lemma UnsetOne(mem: seq<bv8>, s: nat, t: nat)
    requires s / 8 < |mem| && t / 8 < |mem|
    ensures Get(mem[s / 8 := Without(mem[s / 8], Bit(s % 8))], t) <==> t != s && Get(mem, t)
  {
    hide Bit, Test, With, Without;
    BitsApart(mem[s / 8], s % 8, t % 8);
  }

  class BitPackedFlags {
    var mem: seq<bv8>

    /** A flag that memory has been allocated for. */
    predicate InRange(s: nat)
      reads this
    {
      s / 8 < |mem|
    }

    predicate BitIsSet(s: nat)
      requires InRange(s)
      reads this
    {
      Get(mem, s)
    }

    /** All flags are set; there is memory for all of them unless `size + 7` wraps around. */
    constructor (size: Word)
      ensures forall s :: InRange(s) ==> BitIsSet(s)
      ensures (forall s :: 0 <= s < size ==> InRange(s)) <==> size <= 0xFFFF_FFF8
      ensures size > 0xFFFF_FFF8 ==> forall s :: !InRange(s)
    {
      mem := seq((size + 7) % 0x1_0000_0000 / 8, _ => 0xFF);
      new;
      forall s: nat | InRange(s) ensures BitIsSet(s) {
        BitsApart(0, 0, s % 8);
      }
      assert size > 0xFFFF_FFF8 ==> !InRange(0);
    }

    method Setup(b: Word)
      modifies this
      ensures forall s :: InRange(s) ==> BitIsSet(s)
      ensures (forall s :: 0 <= s < b ==> InRange(s)) <==> b <= 0xFFFF_FFF8
      ensures b > 0xFFFF_FFF8 ==> forall s :: !InRange(s)
    {
      var d := new BitPackedFlags(b);
      mem := d.mem;
      forall s: nat ensures InRange(s) == d.InRange(s) && (InRange(s) ==> BitIsSet(s)) {
        assert d.InRange(s) ==> d.BitIsSet(s);
      }
      assert b > 0xFFFF_FFF8 ==> !InRange(0);
    }

    method BitSet(s: nat)
      requires InRange(s)
      modifies this
      ensures |mem| == |old(mem)|
      ensures forall t :: InRange(t) ==> (BitIsSet(t) <==> t == s || Get(old(mem), t))
    {
      ghost var before := mem;
      mem := mem[s / 8 := With(mem[s / 8], Bit(s % 8))];
      hide Bit, Test, Get, With, Without;
      forall t: nat | InRange(t) ensures BitIsSet(t) <==> t == s || Get(before, t) { SetOne(before, s, t); }
    }

    method BitUnset(s: nat)
      requires InRange(s)
      modifies this
      ensures |mem| == |old(mem)|
      ensures forall t :: InRange(t) ==> (BitIsSet(t) <==> t != s && Get(old(mem), t))
    {
      ghost var before := mem;
      mem := mem[s / 8 := Without(mem[s / 8], Bit(s % 8))];
      hide Bit, Test, Get, With, Without;
      forall t: nat | InRange(t) ensures BitIsSet(t) <==> t != s && Get(before, t) { UnsetOne(before, s, t); }
    }
  }
}
