/**
 The cuckoo cache (`src/cuckoocache.h:160-486`) as an object updated in place: the table, its packed
 collection flags, its epoch flags and the counter until the next scan.
 */
module CuckooCaches {
  import opened Basics
  import opened CuckooTables
  import opened CuckooRuns
  import opened CuckooLaws
  import opened BitFlags

  /** The slots that the three arrays of the cache describe. */
  function SlotsOf<E>(table: seq<E>, mem: seq<bv8>, epochs: seq<bool>): (slots: seq<Slot<E>>)
    requires |epochs| == |table| <= 8 * |mem|
    ensures |slots| == |table|
    ensures forall i :: 0 <= i < |table| ==> slots[i] == Slot(table[i], !Get(mem, i), epochs[i])
  {
    seq(|table|, i requires 0 <= i < |table| => Slot(table[i], !Get(mem, i), epochs[i]))
  }

  class Cache<E(==)> {
    var table: seq<E>
    const size: Word
    const collectionFlags: BitPackedFlags
    var epochFlags: seq<bool>
    var epochHeuristicCounter: nat
    const epochSize: nat
    const depthLimit: nat
    const hash: (nat, E) -> Word

    predicate Shape()
      reads this, collectionFlags
    {
      0 < |table| == size == |epochFlags| && size <= 8 * |collectionFlags.mem|
    }

    function Slots(): (slots: seq<Slot<E>>)
      requires Shape()
      reads this, collectionFlags
      ensures |slots| == size
    {
      SlotsOf(table, collectionFlags.mem, epochFlags)
    }

    function Value(): State<E>
      requires Shape()
      reads this, collectionFlags
    {
      State(Slots(), epochHeuristicCounter)
    }

    ghost predicate Valid()
      reads this, collectionFlags
    {
      Shape() && Sound(hash, Value(), epochSize)
    }

    /**
     A cache after `setup`; `depth` stands for the base-2 logarithm of the size. It is usable unless the size
     is one of the seven for which the flags get no memory.
     */
    constructor (newSize: Word, depth: nat, h: (nat, E) -> Word, initial: E)
      ensures fresh(collectionFlags) && (Valid() <==> size <= 0xFFFF_FFF8)
      ensures size <= 0xFFFF_FFF8 ==> Fresh(Value(), epochSize)
      ensures size == (if newSize < 2 then 2 else newSize) && depthLimit == depth && hash == h
      ensures epochSize == Max(1, 45 * size % 0x1_0000_0000 / 100)
    {
      var n: Word := if newSize < 2 then 2 else newSize;
      size, depthLimit, hash := n, depth, h;
      table := seq(n, _ => initial);
      collectionFlags := new BitPackedFlags(n);
      epochFlags := seq(n, _ => false);
      var e := Max(1, 45 * n % 0x1_0000_0000 / 100);
      epochSize, epochHeuristicCounter := e, e;
      new;
      if n <= 0xFFFF_FFF8 {
        assert collectionFlags.InRange(n - 1);
        forall i | 0 <= i < |table| ensures !Slots()[i].kept {
          assert collectionFlags.InRange(i) && collectionFlags.BitIsSet(i);
        }
        FreshSound(hash, Value(), epochSize);
      } else {
        assert !collectionFlags.InRange(0);
      }
    }

    method AllowErase(n: nat)
      requires Shape() && n < size
      modifies collectionFlags
      ensures Shape() && Slots() == old(Slots())[n := old(Slots())[n].(kept := false)]
    {
      collectionFlags.BitSet(n);
      FlagChanged(table, old(collectionFlags.mem), collectionFlags, epochFlags, n, true);
    }

    method PleaseKeep(n: nat)
      requires Shape() && n < size
      modifies collectionFlags
      ensures Shape() && Slots() == old(Slots())[n := old(Slots())[n].(kept := true)]
    {
      collectionFlags.BitUnset(n);
      FlagChanged(table, old(collectionFlags.mem), collectionFlags, epochFlags, n, false);
    }

    method SetEpoch(n: nat, recent: bool)
      requires Shape() && n < size
      modifies this`epochFlags
      ensures Shape() && Slots() == old(Slots())[n := old(Slots())[n].(recent := recent)]
    {
      hide Get;
      epochFlags := epochFlags[n := recent];
    }

    method Store(n: nat, e: E)
      requires Shape() && n < size
      modifies this`table
      ensures Shape() && Slots() == old(Slots())[n := old(Slots())[n].(element := e)]
    {
      hide Get;
      table := table[n := e];
    }

    /** The number of recent slots that are kept. */
    method CountRecent() returns (count: nat)
      requires Shape()
      ensures count == Load(Slots(), true)
    {
      hide Get;
      count := 0;
      for i := 0 to size
        invariant count == Load(Slots()[..i], true)
      {
        var unused := epochFlags[i] && !collectionFlags.BitIsSet(i);
        assert Slots()[..i + 1][..i] == Slots()[..i];
        count := count + if unused then 1 else 0;
      }
      assert Slots()[..size] == Slots();
    }

    /** Old slots become garbage, recent slots become old. */
    method Age()
      requires Shape()
      modifies this`epochFlags, collectionFlags
      ensures Shape() && Slots() == Aged(old(Slots()))
    {
      hide Get;
      ghost var before := Slots();
      for i := 0 to size
        invariant Shape() && |Slots()| == |before|
        invariant forall j :: 0 <= j < i ==> Slots()[j] == Aged(before)[j]
        invariant forall j :: i <= j < |before| ==> Slots()[j] == before[j]
      {
        SlotAt(table, collectionFlags.mem, epochFlags, i);
        if epochFlags[i] {
          SetEpoch(i, false);
        } else {
          AllowErase(i);
        }
      }
    }

    method EpochCheck()
      requires Shape()
      modifies this`epochFlags, this`epochHeuristicCounter, collectionFlags
      ensures Shape()
      ensures (Slots(), epochHeuristicCounter) == EpochChecked(old(Slots()), old(epochHeuristicCounter), epochSize)
      ensures old(epochHeuristicCounter) > 0 ==>
                Slots() == old(Slots()) && epochHeuristicCounter == old(epochHeuristicCounter) - 1
      ensures old(epochHeuristicCounter) == 0 && Load(old(Slots()), true) < epochSize ==>
                Slots() == old(Slots()) && epochHeuristicCounter > 0
    {
      if epochHeuristicCounter != 0 {
        epochHeuristicCounter := epochHeuristicCounter - 1;
        return;
      }
      var epochUnusedCount := CountRecent();
      if epochUnusedCount >= epochSize {
        Age();
        epochHeuristicCounter := epochSize;
      } else {
        epochHeuristicCounter := Max(1, Max(epochSize / 16, epochSize - epochUnusedCount));
      }
    }

    /** If some location already has `e`, keep it. */
    method KeepIfPresent(locs: seq<nat>, e: E) returns (found: bool)
      requires Shape() && (forall k :: 0 <= k < |locs| ==> locs[k] < size)
      modifies this`epochFlags, collectionFlags
      ensures Shape() && found == Present(old(Slots()), locs, e)
      ensures found ==> Slots() == old(Slots())[FirstPresent(old(Slots()), locs, e) := Slot(e, true, true)]
      ensures !found ==> Slots() == old(Slots())
    {
      hide Get;
      for k := 0 to |locs|
        invariant unchanged(this) && unchanged(collectionFlags)
        invariant forall j :: 0 <= j < k ==> table[locs[j]] != e
      {
        var loc := locs[k];
        if table[loc] == e {
          FirstPresentIs(Slots(), locs, e, k);
          PleaseKeep(loc);
          SetEpoch(loc, true);
          return true;
        }
      }
      return false;
    }

    /** If some location is open, put `e` into the first such. */
    method FillIfOpen(locs: seq<nat>, e: E, recent: bool) returns (placed: bool)
      requires Shape() && (forall k :: 0 <= k < |locs| ==> locs[k] < size)
      modifies this`table, this`epochFlags, collectionFlags
      ensures Shape() && placed == Open(old(Slots()), locs)
      ensures placed ==> Slots() == old(Slots())[FirstOpen(old(Slots()), locs) := Slot(e, true, recent)]
      ensures !placed ==> Slots() == old(Slots())
    {
      hide Get;
      for k := 0 to |locs|
        invariant unchanged(this) && unchanged(collectionFlags)
        invariant forall j :: 0 <= j < k ==> Slots()[locs[j]].kept
      {
        var loc := locs[k];
        if !collectionFlags.BitIsSet(loc) {
          continue;
        }
        FirstOpenIs(Slots(), locs, k);
        Store(loc, e);
        PleaseKeep(loc);
        SetEpoch(loc, recent);
        return true;
      }
      return false;
    }

    /** Put `e` into its next location and take out what was there. */
    method Evict(locs: seq<nat>, e: E, recent: bool, last: Word) returns (e': E, recent': bool, last': Word)
      requires Shape() && |locs| == 8 && (forall k :: 0 <= k < |locs| ==> locs[k] < size)
      modifies this`table, this`epochFlags
      ensures Shape() && last' == Victim(locs, last) && last' < size
      ensures e' == old(Slots())[last'].element && recent' == old(Slots())[last'].recent
      ensures Slots() == old(Slots())[last' := Slot(e, old(Slots())[last'].kept, recent)]
    {
      hide Get;
      last' := locs[(1 + IndexOf(locs, last)) % 8];
      e' := table[last'];
      Store(last', e);
      recent' := epochFlags[last'];
      SetEpoch(last', recent);
    }

    method Insert(e: E)
      requires Valid()
      modifies this`table, this`epochFlags, this`epochHeuristicCounter, collectionFlags
      ensures Valid() && Value() == CuckooRuns.Insert(hash, old(Value()), epochSize, depthLimit, e)
    {
      InsertSound(hash, Value(), epochSize, depthLimit, e);
      hide *;
      InsertAt(e);
    }

    method InsertAt(e: E)
      requires Shape()
      modifies this`table, this`epochFlags, this`epochHeuristicCounter, collectionFlags
      ensures Shape() && Value() == CuckooRuns.Insert(hash, old(Value()), epochSize, depthLimit, e)
    {
      hide Get, Locations, Victim, Cuckoo, EpochChecked, Present, Open, FirstPresent, FirstOpen, SlotsOf;
      EpochCheck();
      ghost var start := Slots();
      var lastLoc: Word, lastEpoch := INVALID, true;
      var locs := Locations(hash, size, e);
      var found := KeepIfPresent(locs, e);
      if found {
        return;
      }
      var cur := e;
      for depth := 0 to depthLimit
        invariant Shape() && locs == Locations(hash, size, cur)
        invariant epochHeuristicCounter == EpochChecked(old(Slots()), old(epochHeuristicCounter), epochSize).1
        invariant Cuckoo(hash, Slots(), cur, lastEpoch, lastLoc, depthLimit - depth) ==
                  Cuckoo(hash, start, e, true, INVALID, depthLimit)
      {
        CuckooStep(hash, Slots(), cur, lastEpoch, lastLoc, depthLimit - depth);
        var placed := FillIfOpen(locs, cur, lastEpoch);
        if placed {
          return;
        }
        cur, lastEpoch, lastLoc := Evict(locs, cur, lastEpoch, lastLoc);
        locs := Locations(hash, size, cur);
      }
      CuckooStep(hash, Slots(), cur, lastEpoch, lastLoc, 0);
    }

    method Contains(e: E, erase: bool) returns (found: bool)
      requires Valid()
      modifies collectionFlags
      ensures Valid() && found == CuckooRuns.Contains(hash, old(Slots()), e)
      ensures Value() == if erase then Erase(hash, old(Value()), e) else old(Value())
      ensures !found || !erase ==> Slots() == old(Slots())
      ensures forall k: nat :: erase && FoundAt(hash, old(Slots()), e, k) ==>
                var loc := Locations(hash, size, e)[k];
                Slots() == old(Slots())[loc := old(Slots())[loc].(kept := false)]
    {
      hide Get, Locations;
      EraseSound(hash, Value(), epochSize, e);
      var locs := Locations(hash, size, e);
      for k := 0 to 8
        invariant unchanged(collectionFlags)
        invariant forall j :: 0 <= j < k ==> table[locs[j]] != e
      {
        var loc := locs[k];
        if table[loc] == e {
          FirstPresentIs(Slots(), locs, e, k);
          if erase {
            AllowErase(loc);
          }
          return true;
        }
      }
      return false;
    }
  }

  /** One round of the eviction loop. */
  lemma CuckooStep<E>(hash: (nat, E) -> Word, table: seq<Slot<E>>, e: E, recent: bool, last: Word, depth: nat)
    requires 0 < |table| < 0x1_0000_0000
    ensures var locs := Locations(hash, |table|, e);
            && (depth == 0 ==> Cuckoo(hash, table, e, recent, last, depth).0 == table)
            && (depth > 0 && Open(table, locs) ==>
                  Cuckoo(hash, table, e, recent, last, depth).0 ==
                  table[FirstOpen(table, locs) := Slot(e, true, recent)])
            && (depth > 0 && !Open(table, locs) ==>
                  var v := Victim(locs, last);
                  Cuckoo(hash, table, e, recent, last, depth) ==
                    Cuckoo(hash, table[v := Slot(e, table[v].kept, recent)], table[v].element, table[v].recent, v,
                           depth - 1))
  {
    hide Locations, Victim, Open, FirstOpen;
  }

  lemma {:induction false} FirstPresentIs<E>(table: seq<Slot<E>>, locs: seq<nat>, e: E, k: nat)
    requires forall j :: 0 <= j < |locs| ==> locs[j] < |table|
    requires k < |locs| && table[locs[k]].element == e && forall j :: 0 <= j < k ==> table[locs[j]].element != e
    ensures Present(table, locs, e) && FirstPresent(table, locs, e) == locs[k]
  {
    if k > 0 {
      assert forall j :: 0 < j < |locs| ==> locs[j] == locs[1..][j - 1];
      FirstPresentIs(table, locs[1..], e, k - 1);
    }
  }

  lemma {:induction false} FirstOpenIs<E>(table: seq<Slot<E>>, locs: seq<nat>, k: nat)
    requires forall j :: 0 <= j < |locs| ==> locs[j] < |table|
    requires k < |locs| && !table[locs[k]].kept && forall j :: 0 <= j < k ==> table[locs[j]].kept
    ensures Open(table, locs) && FirstOpen(table, locs) == locs[k]
  {
    if k > 0 {
      assert forall j :: 0 < j < |locs| ==> locs[j] == locs[1..][j - 1];
      FirstOpenIs(table, locs[1..], k - 1);
    }
  }

  lemma SlotAt<E>(table: seq<E>, mem: seq<bv8>, epochs: seq<bool>, i: nat)
    requires |epochs| == |table| <= 8 * |mem| && i < |table|
    ensures SlotsOf(table, mem, epochs)[i].recent == epochs[i]
  {
  }

  /** Changing one flag changes one slot. */
  lemma FlagChanged<E>(table: seq<E>, before: seq<bv8>, flags: BitPackedFlags, epochs: seq<bool>, n: nat, garbage: bool)
    requires |epochs| == |table| <= 8 * |before| && |flags.mem| == |before| && n < |table|
    requires forall t :: flags.InRange(t) ==> (flags.BitIsSet(t) <==> if t == n then garbage else Get(before, t))
    ensures var slots := SlotsOf(table, before, epochs);
            SlotsOf(table, flags.mem, epochs) == slots[n := slots[n].(kept := !garbage)]
  {
    hide Get;
    forall i | 0 <= i < |table| ensures Get(flags.mem, i) <==> if i == n then garbage else Get(before, i) {
      assert flags.InRange(i);
      assert flags.BitIsSet(i) <==> Get(flags.mem, i);
    }
  }
}
