/**
 Every run of cache operations keeps the table sound: kept elements are found, and the load of both
 epochs stays bounded (`src/cuckoocache.h:286-318`, `336-349`, `397-445`, `474-484`).
 */
module CuckooRuns {
  import opened Basics
  import opened CuckooTables

  datatype State<E> = State(table: seq<Slot<E>>, counter: nat)

  /** The largest load of one epoch. */
  function Bound(epochSize: nat): nat {
    epochSize + Max(1, epochSize / 16)
  }

  ghost predicate Sound<E>(hash: (nat, E) -> Word, s: State<E>, epochSize: nat) {
    && Placed(hash, s.table)
    && Load(s.table, true) + s.counter <= Bound(epochSize)
    && Load(s.table, false) <= Bound(epochSize)
  }

  // ----- The operations -----

  function Insert<E(==)>(hash: (nat, E) -> Word, s: State<E>, epochSize: nat, depthLimit: nat, e: E): State<E>
    requires 0 < |s.table| < 0x1_0000_0000
  {
    var (table, counter) := EpochChecked(s.table, s.counter, epochSize);
    State(Inserted(hash, table, e, depthLimit).0, counter)
  }

  predicate Contains<E(==)>(hash: (nat, E) -> Word, table: seq<Slot<E>>, e: E)
    requires 0 < |table| < 0x1_0000_0000
  {
    Present(table, Locations(hash, |table|, e), e)
  }

  /** `contains` with `erase` set. */
  function Erase<E(==)>(hash: (nat, E) -> Word, s: State<E>, e: E): State<E>
    requires 0 < |s.table| < 0x1_0000_0000
  {
    if Contains(hash, s.table, e) then
      var loc := FirstPresent(s.table, Locations(hash, |s.table|, e), e);
      s.(table := s.table[loc := s.table[loc].(kept := false)])
    else s
  }

  // ----- What they keep -----

  /** Every kept element is found. */
  lemma KeptIsFound<E>(hash: (nat, E) -> Word, table: seq<Slot<E>>, i: nat)
    requires Placed(hash, table) && i < |table| && table[i].kept
    ensures Contains(hash, table, table[i].element)
  {
    hide Locations;
    var locs := Locations(hash, |table|, table[i].element);
    var k :| 0 <= k < |locs| && locs[k] == i;
    assert table[locs[k]].element == table[i].element;
  }

  lemma {:induction false} ContentsIsFound<E>(hash: (nat, E) -> Word, table: seq<Slot<E>>, e: E)
    requires Placed(hash, table) && e in Contents(table)
    ensures Contains(hash, table, e)
  {
    hide Placed, Contains, Locations;
    var i := SlotOf(table, e);
    KeptIsFound(hash, table, i);
  }

  lemma {:induction false} SlotOf<E>(table: seq<Slot<E>>, e: E) returns (i: nat)
    requires e in Contents(table)
    ensures i < |table| && table[i].kept && table[i].element == e
  {
    var n := |table| - 1;
    if e in Content(table[n]) {
      i := n;
    } else {
      i := SlotOf(table[..n], e);
    }
  }

  /** After the epoch check there is room for one more recent element. */
  lemma EpochCheckedSound<E>(hash: (nat, E) -> Word, s: State<E>, epochSize: nat)
    requires Sound(hash, s, epochSize)
    ensures var (table, counter) := EpochChecked(s.table, s.counter, epochSize);
            && Placed(hash, table) && |table| == |s.table|
            && Load(table, true) + counter + 1 <= Bound(epochSize)
            && Load(table, false) <= Bound(epochSize)
  {
    hide Load, Locations;
    AgedLoad(s.table);
  }

  /** Nothing but the dropped element is lost, and without a dropped element nothing is. */
  lemma InsertedConserves<E>(hash: (nat, E) -> Word, table: seq<Slot<E>>, e: E, depthLimit: nat)
    requires 0 < |table| < 0x1_0000_0000
    ensures var (table', dropped) := Inserted(hash, table, e, depthLimit);
            && |table'| == |table|
            && (Placed(hash, table) ==> Placed(hash, table'))
            && (Contains(hash, table, e) ==>
                  dropped.None? && e in Contents(table') &&
                  Contents(table) <= Contents(table') <= Contents(table) + multiset{e})
            && (!Contains(hash, table, e) ==> Contents(table') + Dropped(dropped) == Contents(table) + multiset{e})
  {
    hide Contents, Locations, Placed, Cuckoo, FirstPresent, Present;
    var locs := Locations(hash, |table|, e);
    if Present(table, locs, e) {
      KeepStep(hash, table, e, FirstPresent(table, locs, e));
    } else {
      CuckooConserves(hash, table, e, true, INVALID, depthLimit);
    }
  }

  /** Keeping an element that is there already. */
  lemma KeepStep<E>(hash: (nat, E) -> Word, table: seq<Slot<E>>, e: E, v: nat)
    requires v < |table| < 0x1_0000_0000 && v in Locations(hash, |table|, e) && table[v].element == e
    ensures var table' := table[v := Slot(e, true, true)];
            && e in Contents(table') && Contents(table) <= Contents(table') <= Contents(table) + multiset{e}
            && Load(table', true) <= Load(table, true) + 1 && Load(table', false) <= Load(table, false)
            && (Placed(hash, table) ==> Placed(hash, table'))
  {
    hide Contents, Load, Locations;
    var slot := Slot(e, true, true);
    ContentsUpdate(table, v, slot);
    LoadUpdate(table, v, slot, true);
    LoadUpdate(table, v, slot, false);
    var a, b, c := Contents(table[v := slot]), Content(table[v]), Contents(table);
    assert a + b == c + multiset{e};
    if table[v].kept {
      Cancel(a, c, b);
    } else {
      assert a + b == a;
    }
    InContents(table[v := slot], v);
  }

  lemma {:induction false} InContents<E>(table: seq<Slot<E>>, i: nat)
    requires i < |table| && table[i].kept
    ensures table[i].element in Contents(table)
  {
    var n := |table| - 1;
    if i < n {
      InContents(table[..n], i);
    }
  }

  lemma InsertedLoad<E>(hash: (nat, E) -> Word, table: seq<Slot<E>>, e: E, depthLimit: nat)
    requires 0 < |table| < 0x1_0000_0000
    ensures Load(Inserted(hash, table, e, depthLimit).0, true) <= Load(table, true) + 1
    ensures Load(Inserted(hash, table, e, depthLimit).0, false) <= Load(table, false)
  {
    hide Contents, Load, Locations, Placed, Cuckoo, FirstPresent, Present;
    var locs := Locations(hash, |table|, e);
    if Present(table, locs, e) {
      KeepStep(hash, table, e, FirstPresent(table, locs, e));
    } else {
      CuckooLoad(hash, table, e, true, INVALID, depthLimit);
    }
  }

  lemma InsertSound<E>(hash: (nat, E) -> Word, s: State<E>, epochSize: nat, depthLimit: nat, e: E)
    requires Sound(hash, s, epochSize)
    ensures Sound(hash, Insert(hash, s, epochSize, depthLimit, e), epochSize) &&
            |Insert(hash, s, epochSize, depthLimit, e).table| == |s.table|
  {
    hide Load, Locations, Bound, Inserted, EpochChecked;
    EpochCheckedSound(hash, s, epochSize);
    var (table, _) := EpochChecked(s.table, s.counter, epochSize);
    InsertedConserves(hash, table, e, depthLimit);
    InsertedLoad(hash, table, e, depthLimit);
  }

  lemma EraseSound<E>(hash: (nat, E) -> Word, s: State<E>, epochSize: nat, e: E)
    requires Sound(hash, s, epochSize)
    ensures Sound(hash, Erase(hash, s, e), epochSize) && |Erase(hash, s, e).table| == |s.table|
  {
    hide Load, Locations, Bound, Present, FirstPresent;
    if Contains(hash, s.table, e) {
      var loc := FirstPresent(s.table, Locations(hash, |s.table|, e), e);
      LoadUpdate(s.table, loc, s.table[loc].(kept := false), true);
      LoadUpdate(s.table, loc, s.table[loc].(kept := false), false);
    }
  }

  /** Erasing marks one copy as garbage and does not hide it: the element is still found. */
  lemma ErasedStillFound<E>(hash: (nat, E) -> Word, s: State<E>, e: E)
    requires 0 < |s.table| < 0x1_0000_0000
    ensures |Erase(hash, s, e).table| == |s.table|
    ensures forall x :: Contains(hash, Erase(hash, s, e).table, x) <==> Contains(hash, s.table, x)
  {
    hide Locations, FirstPresent;
    var table' := Erase(hash, s, e).table;
    assert forall i :: 0 <= i < |s.table| ==> table'[i].element == s.table[i].element;
  }

  // ----- Every run -----

  datatype Op<E> = Inserting(e: E) | Looking(e: E) | Erasing(e: E)

  function Apply<E(==)>(hash: (nat, E) -> Word, s: State<E>, epochSize: nat, depthLimit: nat, op: Op<E>): (s': State<E>)
    requires 0 < |s.table| < 0x1_0000_0000
  {
    match op
    case Inserting(e) => Insert(hash, s, epochSize, depthLimit, e)
    case Looking(e) => s
    case Erasing(e) => Erase(hash, s, e)
  }

  /** A run of operations, each on the state the one before left. */
  ghost predicate Run<E>(hash: (nat, E) -> Word, states: seq<State<E>>, epochSize: nat, depthLimit: nat,
                         ops: seq<Op<E>>) {
    && |states| == |ops| + 1
    && forall i :: 0 <= i < |ops| ==>
         0 < |states[i].table| < 0x1_0000_0000 && states[i + 1] == Apply(hash, states[i], epochSize, depthLimit, ops[i])
  }

  /** A table in which nothing is kept, waiting for a whole epoch. */
  ghost predicate Fresh<E>(s: State<E>, epochSize: nat) {
    && 0 < |s.table| < 0x1_0000_0000 && s.counter == epochSize
    && forall i :: 0 <= i < |s.table| ==> !s.table[i].kept
  }

  lemma {:induction false} NothingKept<E>(table: seq<Slot<E>>, recent: bool)
    requires forall i :: 0 <= i < |table| ==> !table[i].kept
    ensures Load(table, recent) == 0
  {
    if table != [] {
      NothingKept(table[..|table| - 1], recent);
    }
  }

  lemma FreshSound<E>(hash: (nat, E) -> Word, s: State<E>, epochSize: nat)
    requires Fresh(s, epochSize)
    ensures Sound(hash, s, epochSize)
  {
    hide Load, Locations;
    NothingKept(s.table, true);
    NothingKept(s.table, false);
  }

  /**
   In every state of every run: kept elements are at their own locations and are found, the recent load
   plus the counter stay within the bound, and all kept elements together within twice the bound.
   */
  lemma {:induction false} RunSound<E>(hash: (nat, E) -> Word, states: seq<State<E>>, epochSize: nat, depthLimit: nat,
                                       ops: seq<Op<E>>, i: nat)
    requires Run(hash, states, epochSize, depthLimit, ops) && Fresh(states[0], epochSize) && i < |states|
    ensures Sound(hash, states[i], epochSize)
    ensures forall e :: e in Contents(states[i].table) ==> Contains(hash, states[i].table, e)
    ensures |Contents(states[i].table)| <= 2 * Bound(epochSize)
    decreases i
  {
    RunInvariant(hash, states, epochSize, depthLimit, ops, i);
    hide Locations, Run, Contains, Bound, Contents, Load;
    var table := states[i].table;
    forall e | e in Contents(table) ensures Contains(hash, table, e) { ContentsIsFound(hash, table, e); }
    ContentsCount(table);
  }

  lemma {:induction false} RunInvariant<E>(hash: (nat, E) -> Word, states: seq<State<E>>, epochSize: nat,
                                           depthLimit: nat, ops: seq<Op<E>>, i: nat)
    requires Run(hash, states, epochSize, depthLimit, ops) && Fresh(states[0], epochSize) && i < |states|
    ensures Sound(hash, states[i], epochSize)
    decreases i
  {
    hide Sound, Insert, Erase;
    if i == 0 {
      FreshSound(hash, states[0], epochSize);
    } else {
      RunInvariant(hash, states, epochSize, depthLimit, ops, i - 1);
      var s, op := states[i - 1], ops[i - 1];
      assert states[i] == Apply(hash, s, epochSize, depthLimit, op);
      match op
      case Inserting(e) => InsertSound(hash, s, epochSize, depthLimit, e);
      case Looking(e) =>
      case Erasing(e) => EraseSound(hash, s, epochSize, e);
    }
  }
}
