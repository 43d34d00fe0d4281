/**
 What becomes of the kept elements of each epoch (`src/cuckoocache.h:268-318`, `392-445`, `466-484`).

 `Elements` is what a table keeps of one epoch. The laws say, epoch by epoch, what an insertion and an erasure
 add and take away: nothing between scans but what the eviction drops, nothing at a scan that finds too few
 recent elements, and exactly the old elements when the epochs are aged.
 */
module CuckooLaws {
  import opened Basics
  import opened CuckooTables
  import opened CuckooRuns

  ghost function ElementOf<E>(slot: Slot<E>, recent: bool): multiset<E> {
    if slot.kept && slot.recent == recent then multiset{slot.element} else multiset{}
  }

  /** The kept elements of one epoch. */
  ghost function Elements<E>(table: seq<Slot<E>>, recent: bool): multiset<E> {
    if table == [] then multiset{}
    else Elements(table[..|table| - 1], recent) + ElementOf(table[|table| - 1], recent)
  }

  /** An element of the given epoch, seen from one epoch. */
  ghost function One<E>(e: E, epoch: bool, recent: bool): multiset<E> {
    if epoch == recent then multiset{e} else multiset{}
  }

  /** What was dropped, seen from one epoch. */
  ghost function Lost<E>(dropped: Option<E>, epoch: bool, recent: bool): multiset<E> {
    if dropped.Some? && epoch == recent then multiset{dropped.value} else multiset{}
  }

  lemma {:induction false} ElementsUpdate<E>(table: seq<Slot<E>>, i: nat, slot: Slot<E>, recent: bool)
    requires i < |table|
    ensures Elements(table[i := slot], recent) + ElementOf(table[i], recent) ==
            Elements(table, recent) + ElementOf(slot, recent)
  {
    hide ElementOf;
    var n := |table| - 1;
    var table' := table[i := slot];
    if i < n {
      assert table'[..n] == table[..n][i := slot];
      ElementsUpdate(table[..n], i, slot, recent);
      Shuffle(Elements(table'[..n], recent), ElementOf(table[i], recent), Elements(table[..n], recent),
              ElementOf(slot, recent), ElementOf(table[n], recent));
    } else {
      assert table'[..n] == table[..n];
    }
  }

  /** The two epochs together are all that is kept. */
  lemma {:induction false} ElementsAreContents<E>(table: seq<Slot<E>>)
    ensures Contents(table) == Elements(table, true) + Elements(table, false)
    ensures |Elements(table, true)| == Load(table, true) && |Elements(table, false)| == Load(table, false)
  {
    hide ElementOf, Content, Counts;
    if table != [] {
      var n := |table| - 1;
      ElementsAreContents(table[..n]);
      SlotParts(table[n]);
      Interchange(Elements(table[..n], true), Elements(table[..n], false), ElementOf(table[n], true),
                  ElementOf(table[n], false));
    }
  }

  lemma SlotParts<E>(slot: Slot<E>)
    ensures Content(slot) == ElementOf(slot, true) + ElementOf(slot, false)
    ensures |ElementOf(slot, true)| == Counts(slot, true) && |ElementOf(slot, false)| == Counts(slot, false)
  {
  }

  lemma Interchange<E>(a: multiset<E>, b: multiset<E>, c: multiset<E>, d: multiset<E>)
    ensures (a + b) + (c + d) == (a + c) + (b + d)
  {
  }

  // ----- Eviction -----

  lemma EvictElements<E>(table: seq<Slot<E>>, v: nat, e: E, recent: bool, epoch: bool)
    requires v < |table| && table[v].kept
    ensures Elements(table[v := Slot(e, true, recent)], epoch) + One(table[v].element, table[v].recent, epoch) ==
            Elements(table, epoch) + One(e, recent, epoch)
  {
    hide Elements;
    ElementsUpdate(table, v, Slot(e, true, recent), epoch);
  }

  lemma FillElements<E>(table: seq<Slot<E>>, v: nat, e: E, recent: bool, epoch: bool)
    requires v < |table| && !table[v].kept
    ensures Elements(table[v := Slot(e, true, recent)], epoch) == Elements(table, epoch) + One(e, recent, epoch)
  {
    hide Elements;
    ElementsUpdate(table, v, Slot(e, true, recent), epoch);
    var a := Elements(table[v := Slot(e, true, recent)], epoch);
    assert a + multiset{} == a;
  }

  /** Eviction moves elements with their epochs; only the dropped one is lost. */
  lemma {:induction false} CuckooKeepsEpochs<E>(hash: (nat, E) -> Word, table: seq<Slot<E>>, e: E, recent: bool,
                                                last: Word, depth: nat)
    returns (lost: bool)
    requires 0 < |table| < 0x1_0000_0000
    ensures var (table', dropped) := Cuckoo(hash, table, e, recent, last, depth);
            && |table'| == |table|
            && forall r :: Elements(table', r) + Lost(dropped, lost, r) == Elements(table, r) + One(e, recent, r)
    decreases depth
  {
    hide Elements, Locations, Victim, Open, FirstOpen, One;
    var locs := Locations(hash, |table|, e);
    lost := recent;
    if depth == 0 {
      forall r ensures Lost(Some(e), recent, r) == One(e, recent, r) {
        LostIsOne(e, recent, r);
      }
    } else if Open(table, locs) {
      var v := FirstOpen(table, locs);
      forall r ensures Elements(table[v := Slot(e, true, recent)], r) + multiset{} ==
                       Elements(table, r) + One(e, recent, r)
      {
        FillElements(table, v, e, recent, r);
      }
    } else {
      var v := Victim(locs, last);
      VictimKept(table, locs, v);
      var table1 := table[v := Slot(e, true, recent)];
      lost := CuckooKeepsEpochs(hash, table1, table[v].element, table[v].recent, v, depth - 1);
      var (table', dropped) := Cuckoo(hash, table, e, recent, last, depth);
      forall r ensures Elements(table', r) + Lost(dropped, lost, r) == Elements(table, r) + One(e, recent, r) {
        EvictElements(table, v, e, recent, r);
      }
    }
  }

  lemma LostIsOne<E>(e: E, epoch: bool, recent: bool)
    ensures Lost(Some(e), epoch, recent) == One(e, epoch, recent)
  {
  }

  lemma VictimKept<E>(table: seq<Slot<E>>, locs: seq<nat>, v: nat)
    requires (forall k :: 0 <= k < |locs| ==> locs[k] < |table|) && !Open(table, locs) && v in locs
    ensures v < |table| && table[v].kept
  {
    var k :| 0 <= k < |locs| && locs[k] == v;
  }

  // ----- Insertion into a table -----

  /** Location `k` of `e` is the first that holds it. */
  ghost predicate FoundAt<E>(hash: (nat, E) -> Word, table: seq<Slot<E>>, e: E, k: nat)
    requires 0 < |table| < 0x1_0000_0000
  {
    var locs := Locations(hash, |table|, e);
    k < 8 && table[locs[k]].element == e && forall j :: 0 <= j < k ==> table[locs[j]].element != e
  }

  lemma {:induction false} FirstOf<E>(table: seq<Slot<E>>, locs: seq<nat>, e: E) returns (k: nat)
    requires (forall j :: 0 <= j < |locs| ==> locs[j] < |table|) && Present(table, locs, e)
    ensures k < |locs| && locs[k] == FirstPresent(table, locs, e) && table[locs[k]].element == e
    ensures forall j :: 0 <= j < k ==> table[locs[j]].element != e
  {
    if table[locs[0]].element == e {
      k := 0;
    } else {
      assert forall j :: 0 < j < |locs| ==> locs[j] == locs[1..][j - 1];
      k := FirstOf(table, locs[1..], e);
      k := k + 1;
    }
  }

  /**
   An element that is there becomes recent and kept, and no other slot changes. An element that is not there
   joins the recent ones, at the cost of at most one element.
   */
  ghost predicate Joins<E>(hash: (nat, E) -> Word, before: seq<Slot<E>>, e: E, after: seq<Slot<E>>,
                           dropped: Option<E>, lost: bool)
    requires 0 < |before| < 0x1_0000_0000
  {
    && |after| == |before|
    && (forall k: nat :: FoundAt(hash, before, e, k) ==>
          after == before[Locations(hash, |before|, e)[k] := Slot(e, true, true)] && dropped.None?)
    && (!Contains(hash, before, e) ==>
          forall r :: Elements(after, r) + Lost(dropped, lost, r) == Elements(before, r) + One(e, true, r))
  }

  lemma InsertedJoins<E>(hash: (nat, E) -> Word, table: seq<Slot<E>>, e: E, depthLimit: nat) returns (lost: bool)
    requires 0 < |table| < 0x1_0000_0000
    ensures var (table', dropped) := Inserted(hash, table, e, depthLimit);
            Joins(hash, table, e, table', dropped, lost)
  {
    hide Elements, Locations, Cuckoo, FirstPresent;
    var locs := Locations(hash, |table|, e);
    if Present(table, locs, e) {
      lost := true;
      var k := FirstOf(table, locs, e);
      forall m: nat | FoundAt(hash, table, e, m) ensures m == k {
      }
    } else {
      lost := CuckooKeepsEpochs(hash, table, e, true, INVALID, depthLimit);
    }
  }

  // ----- The epoch check -----

  lemma {:induction false} AgedElements<E>(table: seq<Slot<E>>)
    ensures Elements(Aged(table), true) == multiset{} && Elements(Aged(table), false) == Elements(table, true)
  {
    if table != [] {
      var n := |table| - 1;
      assert Aged(table)[..n] == Aged(table[..n]);
      AgedElements(table[..n]);
    }
  }

  /** The recent elements of `before` are the old ones of `after`, each in its slot, and nothing else is kept. */
  ghost predicate Ageing<E>(before: seq<Slot<E>>, after: seq<Slot<E>>) {
    && |after| == |before|
    && (forall i :: 0 <= i < |before| ==>
          after[i] == Slot(before[i].element, before[i].kept && before[i].recent, false))
    && Elements(after, true) == multiset{} && Elements(after, false) == Elements(before, true)
  }

  /**
   The heuristic counts down to a scan. A scan that finds fewer recent elements than an epoch holds changes
   nothing but the counter; otherwise the old elements are lost and the recent ones become old.
   */
  lemma EpochCheckedLaws<E>(table: seq<Slot<E>>, counter: nat, epochSize: nat)
    ensures var (table', counter') := EpochChecked(table, counter, epochSize);
            && |table'| == |table|
            && (forall i :: 0 <= i < |table| ==> table'[i].element == table[i].element)
            && (counter > 0 ==> table' == table && counter' == counter - 1)
            && (counter == 0 && |Elements(table, true)| < epochSize ==>
                  && table' == table && counter' >= 1 && counter' >= epochSize / 16
                  && counter' >= epochSize - |Elements(table, true)|
                  && (counter' == 1 || counter' == epochSize / 16 || counter' == epochSize - |Elements(table, true)|))
            && (counter == 0 && |Elements(table, true)| >= epochSize ==> counter' == epochSize && Ageing(table, table'))
  {
    hide Elements, Load;
    ElementsAreContents(table);
    AgedElements(table);
  }

  // ----- The operations -----

  /** Whether the next insertion ages the epochs. */
  ghost predicate Ages<E>(s: State<E>, epochSize: nat) {
    s.counter == 0 && |Elements(s.table, true)| >= epochSize
  }

  /** An insertion that does not age the epochs. */
  lemma InsertKeeps<E>(hash: (nat, E) -> Word, s: State<E>, epochSize: nat, depthLimit: nat, e: E)
    returns (dropped: Option<E>, lost: bool)
    requires 0 < |s.table| < 0x1_0000_0000 && !Ages(s, epochSize)
    ensures var s' := Insert(hash, s, epochSize, depthLimit, e);
            && Joins(hash, s.table, e, s'.table, dropped, lost)
            && (s.counter > 0 ==> s'.counter == s.counter - 1)
            && (s.counter == 0 ==> s'.counter >= 1)
  {
    hide Elements, Inserted, EpochChecked, Joins;
    EpochCheckedLaws(s.table, s.counter, epochSize);
    lost := InsertedJoins(hash, s.table, e, depthLimit);
    dropped := Inserted(hash, s.table, e, depthLimit).1;
  }

  /** An insertion that ages the epochs: the old elements are lost, the recent ones become old, and `e` joins. */
  lemma InsertAges<E>(hash: (nat, E) -> Word, s: State<E>, epochSize: nat, depthLimit: nat, e: E)
    returns (aged: seq<Slot<E>>, dropped: Option<E>, lost: bool)
    requires 0 < |s.table| < 0x1_0000_0000 && Ages(s, epochSize)
    ensures var s' := Insert(hash, s, epochSize, depthLimit, e);
            s'.counter == epochSize && Ageing(s.table, aged) && Joins(hash, aged, e, s'.table, dropped, lost)
  {
    hide Elements, Inserted, EpochChecked, Joins;
    EpochCheckedLaws(s.table, s.counter, epochSize);
    aged := EpochChecked(s.table, s.counter, epochSize).0;
    lost := InsertedJoins(hash, aged, e, depthLimit);
    dropped := Inserted(hash, aged, e, depthLimit).1;
  }

  /**
   In particular, with an element not there before, only the recent ones and that element remain, but for the
   dropped one.
   */
  lemma InsertAgesNew<E>(hash: (nat, E) -> Word, s: State<E>, epochSize: nat, depthLimit: nat, e: E)
    returns (dropped: Option<E>, lost: bool)
    requires 0 < |s.table| < 0x1_0000_0000 && Ages(s, epochSize) && !Contains(hash, s.table, e)
    ensures var s' := Insert(hash, s, epochSize, depthLimit, e);
            && Elements(s'.table, true) + Lost(dropped, lost, true) == multiset{e}
            && Elements(s'.table, false) + Lost(dropped, lost, false) == Elements(s.table, true)
  {
    hide Elements, Insert, Contains;
    var aged;
    aged, dropped, lost := InsertAges(hash, s, epochSize, depthLimit, e);
    SameFound(hash, s.table, aged, e);
    assert multiset{} + multiset{e} == multiset{e};
    var all := Elements(s.table, true);
    assert all + multiset{} == all;
  }

  lemma SameFound<E>(hash: (nat, E) -> Word, a: seq<Slot<E>>, b: seq<Slot<E>>, e: E)
    requires 0 < |a| < 0x1_0000_0000 && |a| == |b| && forall i :: 0 <= i < |a| ==> a[i].element == b[i].element
    ensures Contains(hash, a, e) <==> Contains(hash, b, e)
  {
    hide Locations;
  }

  /**
   Erasing an element marks the first copy found as garbage and changes nothing else, so that its slot is open
   for the next insertion of any element that it is a location of. An element not found changes nothing.
   */
  lemma EraseLaws<E>(hash: (nat, E) -> Word, s: State<E>, e: E)
    requires 0 < |s.table| < 0x1_0000_0000
    ensures var s' := Erase(hash, s, e);
            && s'.counter == s.counter && |s'.table| == |s.table|
            && (!Contains(hash, s.table, e) ==> s' == s)
            && (Contains(hash, s.table, e) ==> Open(s'.table, Locations(hash, |s.table|, e)))
  {
    hide Locations;
    var locs := Locations(hash, |s.table|, e);
    if Present(s.table, locs, e) {
      var k := FirstOf(s.table, locs, e);
      assert !Erase(hash, s, e).table[locs[k]].kept;
    }
  }

  lemma EraseMarksFirst<E>(hash: (nat, E) -> Word, s: State<E>, e: E, k: nat)
    requires 0 < |s.table| < 0x1_0000_0000 && FoundAt(hash, s.table, e, k)
    ensures var loc, s' := Locations(hash, |s.table|, e)[k], Erase(hash, s, e);
            && |s'.table| == |s.table| && !s'.table[loc].kept
            && s'.table[loc].element == e && s'.table[loc].recent == s.table[loc].recent
            && (forall i :: 0 <= i < |s.table| && i != loc ==> s'.table[i] == s.table[i])
            && forall r :: Elements(s'.table, r) + ElementOf(s.table[loc], r) == Elements(s.table, r)
  {
    hide Locations, Elements;
    var locs := Locations(hash, |s.table|, e);
    assert Present(s.table, locs, e);
    var m := FirstOf(s.table, locs, e);
    var loc, table' := locs[k], Erase(hash, s, e).table;
    forall r ensures Elements(table', r) + ElementOf(s.table[loc], r) == Elements(s.table, r) {
      ElementsUpdate(s.table, loc, s.table[loc].(kept := false), r);
      assert Elements(s.table, r) + multiset{} == Elements(s.table, r);
    }
  }

  // ----- Runs -----

  /** The number of insertions. */
  function Insertions<E>(ops: seq<Op<E>>): nat {
    if ops == [] then 0 else Insertions(ops[..|ops| - 1]) + if ops[|ops| - 1].Inserting? then 1 else 0
  }

  ghost predicate AgesAt<E>(states: seq<State<E>>, ops: seq<Op<E>>, epochSize: nat, i: nat)
    requires |states| == |ops| + 1
  {
    i < |ops| && ops[i].Inserting? && Ages(states[i], epochSize)
  }

  lemma ApplyCounter<E>(hash: (nat, E) -> Word, s: State<E>, epochSize: nat, depthLimit: nat, op: Op<E>)
    requires 0 < |s.table| < 0x1_0000_0000
    ensures var s' := Apply(hash, s, epochSize, depthLimit, op);
            && (!op.Inserting? ==> s'.counter == s.counter)
            && s'.counter + 1 >= s.counter
            && (op.Inserting? && Ages(s, epochSize) ==> s'.counter == epochSize)
  {
    hide Elements, Inserted, EpochChecked, Locations, Present, FirstPresent;
    EpochCheckedLaws(s.table, s.counter, epochSize);
  }

  lemma {:induction false} CountsDown<E>(hash: (nat, E) -> Word, states: seq<State<E>>, epochSize: nat,
                                         depthLimit: nat, ops: seq<Op<E>>, i: nat, j: nat)
    requires Run(hash, states, epochSize, depthLimit, ops) && AgesAt(states, ops, epochSize, i) && i < j < |states|
    ensures states[j].counter + Insertions(ops[i + 1..j]) >= epochSize
    decreases j
  {
    hide Ages, Apply;
    ApplyCounter(hash, states[j - 1], epochSize, depthLimit, ops[j - 1]);
    assert states[j] == Apply(hash, states[j - 1], epochSize, depthLimit, ops[j - 1]);
    if j == i + 1 {
      assert ops[i + 1..j] == [];
    } else {
      CountsDown(hash, states, epochSize, depthLimit, ops, i, j - 1);
      assert ops[i + 1..j][..j - i - 2] == ops[i + 1..j - 1];
    }
  }

  /** In every run, between two ageings there are at least as many insertions as an epoch holds elements. */
  lemma AgeingApart<E>(hash: (nat, E) -> Word, states: seq<State<E>>, epochSize: nat, depthLimit: nat,
                       ops: seq<Op<E>>, i: nat, j: nat)
    requires Run(hash, states, epochSize, depthLimit, ops)
    requires AgesAt(states, ops, epochSize, i) && AgesAt(states, ops, epochSize, j) && i < j
    ensures Insertions(ops[i + 1..j]) >= epochSize
  {
    hide Elements, Apply;
    CountsDown(hash, states, epochSize, depthLimit, ops, i, j);
  }
}
