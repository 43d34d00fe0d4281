/**
 The table of the cuckoo cache (`src/cuckoocache.h:160-444`) as a value: one slot per location, with
 the element, whether the slot is kept (its collection flag is not set) and whether it belongs to the
 recent epoch. This module says what the ageing of epochs and the insertion with eviction do to the
 table, and what they keep: every kept element is at one of its own eight locations, no element but at
 most one is lost, and the load of both epochs is bounded.
 */
module CuckooTables {
  import opened Basics

  datatype Slot<E> = Slot(element: E, kept: bool, recent: bool)

  /** The special index that is never a location. */
  const INVALID: Word := 0xFFFF_FFFF

  // ----- Locations -----

  function FastRange32(x: Word, n: Word): (r: nat)
    ensures n > 0 ==> r < n
  {
    ProductBelow(x, n, 0x1_0000_0000);
    x * n / 0x1_0000_0000
  }

  lemma ProductBelow(x: int, n: int, m: int)
    requires 0 <= x < m && n >= 0
    ensures 0 <= x * n && (n > 0 ==> x * n < m * n)
  {
    var gap := m - x;
    assert m * n == x * n + gap * n;
    NonNegative(x, n);
    if n > 0 { Positive(gap, n); }
  }

  /** The eight locations of an element in a table of `size` slots. */
  function Locations<E>(hash: (nat, E) -> Word, size: Word, e: E): (locs: seq<nat>)
    requires size > 0
    ensures |locs| == 8 && forall k :: 0 <= k < 8 ==> locs[k] < size
  {
    [FastRange32(hash(0, e), size), FastRange32(hash(1, e), size),
     FastRange32(hash(2, e), size), FastRange32(hash(3, e), size),
     FastRange32(hash(4, e), size), FastRange32(hash(5, e), size),
     FastRange32(hash(6, e), size), FastRange32(hash(7, e), size)]
  }

  /** The location is the hash scaled from 32 bits down to the size of the table. */
  lemma LocationScaled<E>(hash: (nat, E) -> Word, size: Word, e: E, k: nat)
    requires size > 0 && k < 8
    ensures var loc := Locations(hash, size, e)[k];
            loc * 0x1_0000_0000 <= hash(k, e) * size < (loc + 1) * 0x1_0000_0000
  {
    assert k == 0 || k == 1 || k == 2 || k == 3 || k == 4 || k == 5 || k == 6 || k == 7;
    assert Locations(hash, size, e)[k] == FastRange32(hash(k, e), size);
    FastRangeScaled(hash(k, e), size);
  }

  lemma FastRangeScaled(x: Word, n: Word)
    ensures FastRange32(x, n) * 0x1_0000_0000 <= x * n < (FastRange32(x, n) + 1) * 0x1_0000_0000
  {
  }

  /** The first position of `x` in `s`, or the length of `s`. */
  function IndexOf<T(==)>(s: seq<T>, x: T): (k: nat)
    ensures k <= |s| && x !in s[..k] && (k < |s| ==> s[k] == x)
  {
    if s == [] || s[0] == x then 0 else 1 + IndexOf(s[1..], x)
  }

  /** The slot to evict from: the location after the one evicted from last, and the second one at first. */
  function Victim(locs: seq<nat>, last: Word): (v: nat)
    requires |locs| == 8
    ensures v in locs
  {
    locs[(1 + IndexOf(locs, last)) % 8]
  }

  lemma FirstVictim<E>(hash: (nat, E) -> Word, size: Word, e: E)
    requires size > 0
    ensures var locs := Locations(hash, size, e); INVALID !in locs && Victim(locs, INVALID) == locs[1]
  {
    var locs := Locations(hash, size, e);
    assert forall k :: 0 <= k < 8 ==> locs[k] != INVALID;
  }

  /** The next location after the first that was evicted from last, with the first location after the eighth. */
  lemma VictimIsNext(locs: seq<nat>, last: Word, k: nat)
    requires |locs| == 8 && k < 8 && last !in locs[..k] && locs[k] == last
    ensures Victim(locs, last) == if k == 7 then locs[0] else locs[k + 1]
  {
    FirstAt(locs, last, k);
  }

  /**
   The slot evicted from last is evicted from again exactly when its first two places among the locations
   are neighbours.
   */
  lemma VictimRepeats(locs: seq<nat>, last: Word)
    requires |locs| == 8
    ensures Victim(locs, last) == last <==>
            exists k :: 0 <= k < 7 && last !in locs[..k] && locs[k] == last && locs[k + 1] == last
  {
    hide IndexOf;
    var k := IndexOf(locs, last);
    assert k == 7 ==> locs[..k][0] == locs[0];
    forall m | 0 <= m < 7 && last !in locs[..m] && locs[m] == last && locs[m + 1] == last ensures m == k {
      FirstAt(locs, last, m);
    }
  }

  lemma {:induction false} FirstAt(s: seq<nat>, x: nat, m: nat)
    requires m < |s| && x !in s[..m] && s[m] == x
    ensures IndexOf(s, x) == m
  {
    if m > 0 {
      assert s[..m] == [s[0]] + s[1..][..m - 1];
      FirstAt(s[1..], x, m - 1);
    }
  }

  /** With equal hashes, the element just put in is moved out again. */
  lemma EqualHashesRepeat<E>(e: E, w: Word)
    ensures var locs := Locations((k: nat, x: E) => w, 2, e); Victim(locs, locs[1]) == locs[1]
  {
    var locs := Locations((k: nat, x: E) => w, 2, e);
    assert locs[0] == locs[1] && locs[..0] == [];
    VictimRepeats(locs, locs[1]);
  }

  // ----- The contents of a table -----

  ghost function Content<E>(slot: Slot<E>): multiset<E> {
    if slot.kept then multiset{slot.element} else multiset{}
  }

  /** The kept elements. */
  ghost function Contents<E>(table: seq<Slot<E>>): multiset<E> {
    if table == [] then multiset{} else Contents(table[..|table| - 1]) + Content(table[|table| - 1])
  }

  function Counts<E>(slot: Slot<E>, recent: bool): nat {
    if slot.kept && slot.recent == recent then 1 else 0
  }

  /** The number of kept slots of one epoch. */
  function Load<E>(table: seq<Slot<E>>, recent: bool): nat {
    if table == [] then 0 else Load(table[..|table| - 1], recent) + Counts(table[|table| - 1], recent)
  }

  /** Every kept element is at one of its own locations. */
  ghost predicate Placed<E>(hash: (nat, E) -> Word, table: seq<Slot<E>>) {
    && 0 < |table| < 0x1_0000_0000
    && forall i :: 0 <= i < |table| && table[i].kept ==> i in Locations(hash, |table|, table[i].element)
  }

  lemma {:induction false} ContentsUpdate<E>(table: seq<Slot<E>>, i: nat, slot: Slot<E>)
    requires i < |table|
    ensures Contents(table[i := slot]) + Content(table[i]) == Contents(table) + Content(slot)
  {
    hide Content;
    var n := |table| - 1;
    var table' := table[i := slot];
    if i < n {
      assert table'[..n] == table[..n][i := slot];
      ContentsUpdate(table[..n], i, slot);
      Shuffle(Contents(table'[..n]), Content(table[i]), Contents(table[..n]), Content(slot), Content(table[n]));
    } else {
      assert table'[..n] == table[..n];
    }
  }

  lemma {:induction false} LoadUpdate<E>(table: seq<Slot<E>>, i: nat, slot: Slot<E>, recent: bool)
    requires i < |table|
    ensures Load(table[i := slot], recent) == Load(table, recent) - Counts(table[i], recent) + Counts(slot, recent)
  {
    hide Counts;
    var n := |table| - 1;
    var table' := table[i := slot];
    if i < n {
      assert table'[..n] == table[..n][i := slot];
      LoadUpdate(table[..n], i, slot, recent);
    } else {
      assert table'[..n] == table[..n];
    }
  }

  /** The kept elements are as many as the kept slots of both epochs. */
  lemma {:induction false} ContentsCount<E>(table: seq<Slot<E>>)
    ensures |Contents(table)| == Load(table, true) + Load(table, false)
  {
    if table != [] {
      ContentsCount(table[..|table| - 1]);
    }
  }

  // ----- Epochs -----

  /** Old slots become garbage, recent slots become old. */
  function Aged<E>(table: seq<Slot<E>>): seq<Slot<E>> {
    seq(|table|, i requires 0 <= i < |table| =>
      if table[i].recent then table[i].(recent := false) else table[i].(kept := false))
  }

  /** The table and the counter after `epoch_check`. */
  function EpochChecked<E>(table: seq<Slot<E>>, counter: nat, epochSize: nat): (seq<Slot<E>>, nat) {
    if counter != 0 then (table, counter - 1)
    else if Load(table, true) >= epochSize then (Aged(table), epochSize)
    else (table, Max(1, Max(epochSize / 16, epochSize - Load(table, true))))
  }

  lemma {:induction false} AgedLoad<E>(table: seq<Slot<E>>)
    ensures Load(Aged(table), true) == 0 && Load(Aged(table), false) == Load(table, true)
  {
    if table != [] {
      var n := |table| - 1;
      assert Aged(table)[..n] == Aged(table[..n]);
      AgedLoad(table[..n]);
    }
  }

  // ----- Insertion -----

  /** Some location of `e` already has it. */
  predicate Present<E(==)>(table: seq<Slot<E>>, locs: seq<nat>, e: E)
    requires forall k :: 0 <= k < |locs| ==> locs[k] < |table|
  {
    exists k :: 0 <= k < |locs| && table[locs[k]].element == e
  }

  predicate Open<E>(table: seq<Slot<E>>, locs: seq<nat>)
    requires forall k :: 0 <= k < |locs| ==> locs[k] < |table|
  {
    exists k :: 0 <= k < |locs| && !table[locs[k]].kept
  }

  /** The first location that has `e`. */
  function FirstPresent<E(==)>(table: seq<Slot<E>>, locs: seq<nat>, e: E): (loc: nat)
    requires forall k :: 0 <= k < |locs| ==> locs[k] < |table|
    requires Present(table, locs, e)
    ensures loc in locs && loc < |table| && table[loc].element == e
  {
    if table[locs[0]].element == e then locs[0]
    else
      assert forall k :: 0 < k < |locs| ==> locs[k] == locs[1..][k - 1];
      FirstPresent(table, locs[1..], e)
  }

  /** The first location that is not kept. */
  function FirstOpen<E>(table: seq<Slot<E>>, locs: seq<nat>): (loc: nat)
    requires forall k :: 0 <= k < |locs| ==> locs[k] < |table|
    requires Open(table, locs)
    ensures loc in locs && loc < |table| && !table[loc].kept
  {
    if !table[locs[0]].kept then locs[0]
    else
      assert forall k :: 0 < k < |locs| ==> locs[k] == locs[1..][k - 1];
      FirstOpen(table, locs[1..])
  }

  /** Insert `e` of the given epoch, evicting at most `depth` times; the second result is what was dropped. */
  function Cuckoo<E(==)>(hash: (nat, E) -> Word, table: seq<Slot<E>>, e: E, recent: bool, last: Word, depth: nat)
    : (seq<Slot<E>>, Option<E>)
    requires 0 < |table| < 0x1_0000_0000
    decreases depth
  {
    var locs := Locations(hash, |table|, e);
    if depth == 0 then (table, Some(e))
    else if Open(table, locs) then (table[FirstOpen(table, locs) := Slot(e, true, recent)], None)
    else
      var v := Victim(locs, last);
      Cuckoo(hash, table[v := Slot(e, table[v].kept, recent)], table[v].element, table[v].recent, v, depth - 1)
  }

  /** `insert` after `epoch_check`. */
  function Inserted<E(==)>(hash: (nat, E) -> Word, table: seq<Slot<E>>, e: E, depthLimit: nat)
    : (seq<Slot<E>>, Option<E>)
    requires 0 < |table| < 0x1_0000_0000
  {
    var locs := Locations(hash, |table|, e);
    if Present(table, locs, e) then (table[FirstPresent(table, locs, e) := Slot(e, true, true)], None)
    else Cuckoo(hash, table, e, true, INVALID, depthLimit)
  }

  /** One eviction: `e` takes the slot of the element that is inserted next. */
  lemma EvictStep<E>(hash: (nat, E) -> Word, table: seq<Slot<E>>, e: E, recent: bool, last: Word)
    requires 0 < |table| < 0x1_0000_0000 && !Open(table, Locations(hash, |table|, e))
    ensures var v := Victim(Locations(hash, |table|, e), last);
            var table' := table[v := Slot(e, table[v].kept, recent)];
            && table[v].kept
            && Contents(table') + multiset{table[v].element} == Contents(table) + multiset{e}
            && (forall r :: Load(table', r) + (if table[v].recent == r then 1 else 0) ==
                            Load(table, r) + if recent == r then 1 else 0)
            && (Placed(hash, table) ==> Placed(hash, table'))
  {
    hide Contents, Load, Locations, Victim;
    var locs := Locations(hash, |table|, e);
    var v := Victim(locs, last);
    var k :| 0 <= k < 8 && locs[k] == v;
    var slot := Slot(e, table[v].kept, recent);
    ContentsUpdate(table, v, slot);
    LoadUpdate(table, v, slot, true);
    LoadUpdate(table, v, slot, false);
  }

  /** Filling a slot that is not kept. */
  lemma FillStep<E>(hash: (nat, E) -> Word, table: seq<Slot<E>>, e: E, recent: bool, v: nat)
    requires v < |table| < 0x1_0000_0000 && v in Locations(hash, |table|, e) && !table[v].kept
    ensures var table' := table[v := Slot(e, true, recent)];
            && Contents(table') == Contents(table) + multiset{e}
            && (forall r :: Load(table', r) == Load(table, r) + if recent == r then 1 else 0)
            && (Placed(hash, table) ==> Placed(hash, table'))
  {
    hide Contents, Load, Locations;
    var slot := Slot(e, true, recent);
    ContentsUpdate(table, v, slot);
    assert Contents(table[v := slot]) + multiset{} == Contents(table[v := slot]);
    LoadUpdate(table, v, slot, true);
    LoadUpdate(table, v, slot, false);
  }

  ghost function Dropped<E>(dropped: Option<E>): multiset<E> {
    if dropped.Some? then multiset{dropped.value} else multiset{}
  }

  /** Eviction loses nothing but the element it drops when it runs out of depth. */
  lemma {:induction false} CuckooConserves<E>(hash: (nat, E) -> Word, table: seq<Slot<E>>, e: E, recent: bool,
                                              last: Word, depth: nat)
    requires 0 < |table| < 0x1_0000_0000
    ensures var (table', dropped) := Cuckoo(hash, table, e, recent, last, depth);
            && |table'| == |table|
            && Contents(table') + Dropped(dropped) == Contents(table) + multiset{e}
            && (Placed(hash, table) ==> Placed(hash, table'))
    decreases depth
  {
    hide Contents, Load, Locations, Victim, Placed, Open, FirstOpen;
    var locs := Locations(hash, |table|, e);
    if depth > 0 {
      if Open(table, locs) {
        FillStep(hash, table, e, recent, FirstOpen(table, locs));
        assert Contents(table) + multiset{e} + multiset{} == Contents(table) + multiset{e};
      } else {
        EvictStep(hash, table, e, recent, last);
        var v := Victim(locs, last);
        CuckooConserves(hash, table[v := Slot(e, table[v].kept, recent)], table[v].element, table[v].recent, v,
                        depth - 1);
      }
    }
  }

  /** Inserting a recent element adds at most one to the recent load, and nothing to the old one. */
  lemma {:induction false} CuckooLoad<E>(hash: (nat, E) -> Word, table: seq<Slot<E>>, e: E, recent: bool, last: Word,
                                         depth: nat)
    requires 0 < |table| < 0x1_0000_0000
    ensures forall r ::
              Load(Cuckoo(hash, table, e, recent, last, depth).0, r) <= Load(table, r) + if recent == r then 1 else 0
    decreases depth
  {
    hide Contents, Load, Locations, Victim, Placed, Open, FirstOpen;
    var locs := Locations(hash, |table|, e);
    if depth > 0 {
      if Open(table, locs) {
        FillStep(hash, table, e, recent, FirstOpen(table, locs));
      } else {
        EvictStep(hash, table, e, recent, last);
        var v := Victim(locs, last);
        CuckooLoad(hash, table[v := Slot(e, table[v].kept, recent)], table[v].element, table[v].recent, v, depth - 1);
      }
    }
  }

  /** An element on its way into the table: where it came from and its epoch. */
  datatype Trial<E> = Trial(table: seq<Slot<E>>, element: E, recent: bool, last: Word)

  /** The element takes the slot of the next one to try. */
  function Evict<E>(hash: (nat, E) -> Word, t: Trial<E>): (t': Trial<E>)
    requires 0 < |t.table| < 0x1_0000_0000
    ensures |t'.table| == |t.table|
  {
    var v := Victim(Locations(hash, |t.table|, t.element), t.last);
    Trial(t.table[v := Slot(t.element, t.table[v].kept, t.recent)], t.table[v].element, t.table[v].recent, v)
  }

  /** The path of evictions, followed for `k` rounds. */
  function Path<E>(hash: (nat, E) -> Word, t: Trial<E>, k: nat): (t': Trial<E>)
    requires 0 < |t.table| < 0x1_0000_0000
    ensures |t'.table| == |t.table|
    decreases k
  {
    if k == 0 then t else Path(hash, Evict(hash, t), k - 1)
  }

  /** The element has a location that is not kept. */
  predicate Fits<E>(hash: (nat, E) -> Word, t: Trial<E>)
    requires 0 < |t.table| < 0x1_0000_0000
  {
    Open(t.table, Locations(hash, |t.table|, t.element))
  }

  lemma PathNext<E>(hash: (nat, E) -> Word, t: Trial<E>, k: nat)
    requires 0 < |t.table| < 0x1_0000_0000
    ensures Path(hash, t, 0) == t && Path(hash, t, k + 1) == Path(hash, Evict(hash, t), k)
  {
    hide Evict;
  }

  /** The path reaches an open slot within `depth` rounds. */
  ghost predicate Reaches<E>(hash: (nat, E) -> Word, t: Trial<E>, depth: nat)
    requires 0 < |t.table| < 0x1_0000_0000
  {
    exists k :: 0 <= k < depth && Fits(hash, Path(hash, t, k))
  }

  lemma ReachesNow<E>(hash: (nat, E) -> Word, t: Trial<E>, depth: nat)
    requires 0 < |t.table| < 0x1_0000_0000 && depth > 0 && Fits(hash, t)
    ensures Reaches(hash, t, depth)
  {
    hide Fits, Evict;
    PathNext(hash, t, 0);
    assert Fits(hash, Path(hash, t, 0));
  }

  lemma ReachesNext<E>(hash: (nat, E) -> Word, t: Trial<E>, depth: nat)
    requires 0 < |t.table| < 0x1_0000_0000 && depth > 0 && !Fits(hash, t)
    ensures Reaches(hash, t, depth) <==> Reaches(hash, Evict(hash, t), depth - 1)
  {
    hide Fits, Evict, Path;
    var t' := Evict(hash, t);
    PathNext(hash, t, 0);
    if k :| 0 <= k < depth && Fits(hash, Path(hash, t, k)) {
      PathNext(hash, t, k - 1);
      assert Fits(hash, Path(hash, t', k - 1));
    }
    if k :| 0 <= k < depth - 1 && Fits(hash, Path(hash, t', k)) {
      PathNext(hash, t, k);
      assert Fits(hash, Path(hash, t, k + 1));
    }
  }

  /** Nothing is dropped if the path reaches an open slot; otherwise the last element tried is. */
  lemma {:induction false} CuckooFollowsPath<E>(hash: (nat, E) -> Word, t: Trial<E>, depth: nat)
    requires 0 < |t.table| < 0x1_0000_0000
    ensures var (table, dropped) := Cuckoo(hash, t.table, t.element, t.recent, t.last, depth);
            && (dropped.None? <==> Reaches(hash, t, depth))
            && (dropped.Some? ==>
                  table == Path(hash, t, depth).table && dropped.value == Path(hash, t, depth).element)
    decreases depth
  {
    hide Cuckoo, Evict, Path, Fits, Reaches;
    PathNext(hash, t, 0);
    if depth == 0 || Fits(hash, t) {
      CuckooEnds(hash, t, depth);
    } else {
      CuckooEvicts(hash, t, depth);
      ReachesNext(hash, t, depth);
      PathNext(hash, t, depth - 1);
      CuckooFollowsPath(hash, Evict(hash, t), depth - 1);
    }
  }

  lemma CuckooEnds<E>(hash: (nat, E) -> Word, t: Trial<E>, depth: nat)
    requires 0 < |t.table| < 0x1_0000_0000 && (depth == 0 || Fits(hash, t))
    ensures var (table, dropped) := Cuckoo(hash, t.table, t.element, t.recent, t.last, depth);
            && (dropped.None? <==> depth > 0) && (Reaches(hash, t, depth) <==> depth > 0)
            && (dropped.Some? ==> table == t.table && dropped.value == t.element)
  {
    hide Locations, Victim, Open, FirstOpen, Path, Evict;
    if depth > 0 { ReachesNow(hash, t, depth); }
  }

  lemma CuckooEvicts<E>(hash: (nat, E) -> Word, t: Trial<E>, depth: nat)
    requires 0 < |t.table| < 0x1_0000_0000 && depth > 0 && !Fits(hash, t)
    ensures var t' := Evict(hash, t);
            Cuckoo(hash, t.table, t.element, t.recent, t.last, depth)
            == Cuckoo(hash, t'.table, t'.element, t'.recent, t'.last, depth - 1)
  {
    hide Locations, Victim, Open, FirstOpen;
  }

  /**
   Nothing is dropped exactly when the element is already there or the path of evictions reaches an open
   slot within the depth limit.
   */
  lemma OpenSlotLosesNothing<E>(hash: (nat, E) -> Word, table: seq<Slot<E>>, e: E, depthLimit: nat)
    requires 0 < |table| < 0x1_0000_0000
    ensures Inserted(hash, table, e, depthLimit).1.None? <==>
            Present(table, Locations(hash, |table|, e), e) ||
            Reaches(hash, Trial(table, e, true, INVALID), depthLimit)
  {
    hide Cuckoo, Path, Reaches, Locations;
    CuckooFollowsPath(hash, Trial(table, e, true, INVALID), depthLimit);
  }
}
