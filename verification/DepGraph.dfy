/**
 The mutable `DepGraph` (`src/cluster_linearize.h:25-335`): adding and removing transactions and
 dependencies, reduced parents and remapping.
 */
module DepGraphs {
  import opened FeeFracs
  import opened Graphs
  import opened AppendTopos

  // ----- Dependencies -----

  /** All ancestors of `parents`. */
  function AncestorsOf(g: Graph, parents: set<nat>): set<nat> {
    set p, a | p in parents && a in g.Anc(p) :: a
  }

  /** The ancestors that `child` gains from `parents`. */
  function Gained(g: Graph, parents: set<nat>, child: nat): set<nat> {
    AncestorsOf(g, parents) - g.Anc(child)
  }

  /** `g` with the dependencies of `child` on `parents` added. */
  function Linked(g: Graph, parents: set<nat>, child: nat): Graph {
    var up := Gained(g, parents, child);
    Graph(seq(|g.entries|, k requires 0 <= k < |g.entries| =>
            Entry(g.entries[k].feerate,
                  g.entries[k].ancestors + (if k in g.Desc(child) then up else {}),
                  g.entries[k].descendants + (if k in up then g.Desc(child) else {}))),
          g.used)
  }

  lemma LinkedRelation(g: Graph, parents: set<nat>, child: nat)
    requires g.Valid() && child in g.used && parents <= g.used
    ensures forall i :: i in g.used ==>
              Linked(g, parents, child).Anc(i) == g.Anc(i) + (if child in g.Anc(i) then AncestorsOf(g, parents) else {})
    ensures forall i :: i in g.used ==>
              Linked(g, parents, child).Desc(i) ==
              g.Desc(i) + (if i in AncestorsOf(g, parents) then g.Desc(child) else {})
    ensures AncestorsOf(g, parents) <= g.used
  {
    var h := Linked(g, parents, child);
    var all := AncestorsOf(g, parents);
    forall i | i in g.used
      ensures h.Anc(i) == g.Anc(i) + (if child in g.Anc(i) then all else {})
      ensures h.Desc(i) == g.Desc(i) + (if i in all then g.Desc(child) else {})
    {
      if child in g.Anc(i) {
        assert i in g.Desc(child) && g.Anc(child) <= g.Anc(i);
      }
      if i in all && i in g.Anc(child) {
        forall d | d in g.Desc(child) ensures d in g.Desc(i) {
          assert child in g.Anc(d);
          assert g.Anc(child) <= g.Anc(d);
        }
      }
    }
  }

  lemma LinkedTransitive(g: Graph, parents: set<nat>, child: nat, i: nat, j: nat)
    requires g.Valid() && child in g.used && parents <= g.used
    requires i in g.used && j in Linked(g, parents, child).Anc(i)
    ensures Linked(g, parents, child).Anc(j) <= Linked(g, parents, child).Anc(i)
  {
    hide Linked, Graph.Valid;
    LinkedRelation(g, parents, child);
    if j in g.Anc(i) {
      AncestorsNest(g, i, j);
    } else {
      var p :| p in parents && j in g.Anc(p);
      AncestorsNest(g, p, j);
    }
  }

  lemma AncestorsNest(g: Graph, i: nat, j: nat)
    requires g.Valid() && i in g.used && j in g.Anc(i)
    ensures g.Anc(j) <= g.Anc(i) && j in g.used
  {
  }

  /** Adding dependencies keeps the relation reflexive, transitive and mutually inverse. */
  lemma LinkedValid(g: Graph, parents: set<nat>, child: nat)
    requires g.Valid() && child in g.used && parents <= g.used
    ensures Linked(g, parents, child).Valid()
  {
    var h := Linked(g, parents, child);
    LinkedRelation(g, parents, child);
    forall i, j | i in h.used && j in h.Anc(i) ensures h.Anc(j) <= h.Anc(i) {
      LinkedTransitive(g, parents, child, i, j);
    }
    forall i, j | i in h.used && j in h.used ensures j in h.Anc(i) <==> i in h.Desc(j) {
      assert j in g.Anc(i) <==> i in g.Desc(j);
      assert child in g.Anc(i) <==> i in g.Desc(child);
    }
  }

  /** A transitive relation on the used positions that contains `g` and makes `parents` ancestors of `child`. */
  ghost predicate Extends(g: Graph, parents: set<nat>, child: nat, rel: nat -> set<nat>) {
    && (forall i :: i in g.used ==> g.Anc(i) <= rel(i))
    && parents <= rel(child)
    && (forall i, j :: i in g.used && j in rel(i) ==> rel(j) <= rel(i))
  }

  lemma LinkedExtends(g: Graph, parents: set<nat>, child: nat, rel: nat -> set<nat>)
    requires g.Valid() && child in g.used && parents <= g.used
    requires forall i :: rel(i) == Linked(g, parents, child).Anc(i)
    ensures Extends(g, parents, child, rel)
  {
    LinkedRelation(g, parents, child);
    LinkedUsed(g, parents, child);
    forall p | p in parents ensures p in rel(child) {
      ReflexiveUsed(g, p);
      ReflexiveUsed(g, child);
      assert p in AncestorsOf(g, parents);
    }
    hide Linked, Graph.Valid, Graph.Anc, AncestorsOf;
    forall i, j | i in g.used && j in rel(i) ensures rel(j) <= rel(i) {
      LinkedTransitive(g, parents, child, i, j);
    }
  }

  lemma LinkedUsed(g: Graph, parents: set<nat>, child: nat)
    ensures Linked(g, parents, child).used == g.used
  {
  }

  lemma ReflexiveUsed(g: Graph, i: nat)
    requires g.Valid() && i in g.used
    ensures i in g.Anc(i)
  {
  }

  lemma LinkedLeast(g: Graph, parents: set<nat>, child: nat, rel: nat -> set<nat>, i: nat, a: nat)
    requires g.Valid() && child in g.used && parents <= g.used && Extends(g, parents, child, rel)
    requires i in g.used && a in Linked(g, parents, child).Anc(i)
    ensures a in rel(i)
  {
    hide Linked, Graph.Valid, Graph.Anc;
    LinkedRelation(g, parents, child);
    if a !in g.Anc(i) {
      var p :| p in parents && a in g.Anc(p);
      assert child in rel(i);
      assert rel(child) <= rel(i);
      assert p in rel(i);
      assert rel(p) <= rel(i);
    }
  }

  /**
   The new relation is the transitive closure of the old one and the new dependencies: it is one such relation,
   and the least.
   */
  lemma LinkedClosure(g: Graph, parents: set<nat>, child: nat, rel: nat -> set<nat>)
    requires g.Valid() && child in g.used && parents <= g.used
    ensures Extends(g, parents, child, i => Linked(g, parents, child).Anc(i))
    ensures Extends(g, parents, child, rel) ==>
              forall i :: i in g.used ==> Linked(g, parents, child).Anc(i) <= rel(i)
  {
    hide Linked, Graph.Valid, Graph.Anc, Extends;
    LinkedExtends(g, parents, child, i => Linked(g, parents, child).Anc(i));
    if Extends(g, parents, child, rel) {
      forall i, a | i in g.used && a in Linked(g, parents, child).Anc(i) ensures a in rel(i) {
        LinkedLeast(g, parents, child, rel, i, a);
      }
    }
  }

  // ----- Reduced parents -----

  /** The proper ancestors of `i` that are not a proper ancestor of another one. */
  ghost function MaximalAncestors(g: Graph, i: nat): set<nat> {
    set j | j in g.Anc(i) - {i} && forall k :: k in g.Anc(i) - {i} && k != j ==> j !in g.Anc(k)
  }

  /**
   The proper ancestors of `i` that are an ancestor of another one only if the two are on a cycle and come in
   this order: from each cycle the first position.
   */
  ghost function ReducedParents(g: Graph, i: nat): set<nat> {
    set j | j in g.Anc(i) - {i} && Kept(g, g.Anc(i) - {i}, j, |g.entries|)
  }

  /** No position of `all` below `n` removes `j`. */
  ghost predicate Kept(g: Graph, all: set<nat>, j: nat, n: nat) {
    forall k :: k in all && k < n && k != j && j in g.Anc(k) ==> k in g.Anc(j) && j < k
  }

  lemma KeptStep(g: Graph, all: set<nat>, before: set<nat>, n: nat)
    requires g.Valid() && all <= g.used && before == set j | j in all && Kept(g, all, j, n)
    ensures (if n in before then before - g.Anc(n) + {n} else before) == set j | j in all && Kept(g, all, j, n + 1)
  {
    forall j | j in all
      ensures Kept(g, all, j, n + 1) <==> if n in before then j in before - g.Anc(n) + {n} else j in before
    {
      if n in before {
        assert j in g.Anc(n) && j < n && n in g.Anc(j) ==> !Kept(g, all, n, n);
        assert Kept(g, all, j, n + 1) <==> j in before && (n != j && j in g.Anc(n) ==> n in g.Anc(j) && j < n);
      } else if n in all && j in before && j != n && j in g.Anc(n) {
        var k :| k in all && k < n && k != n && n in g.Anc(k);
        assert g.Anc(n) <= g.Anc(k);
        assert j != k ==> k in g.Anc(j) && j < k && g.Anc(k) <= g.Anc(j);
      }
    }
  }

  method GetReducedParents(g: Graph, i: nat) returns (parents: set<nat>)
    requires g.Valid() && i in g.used
    ensures parents == ReducedParents(g, i)
  {
    hide Kept, Graph.Valid;
    ProperAncestors(g, i);
    parents := g.Anc(i) - {i};
    ghost var all := parents;
    KeptAtFirst(g, all);
    for n := 0 to |g.entries|
      invariant parents == set j | j in all && Kept(g, all, j, n)
    {
      KeptStep(g, all, parents, n);
      if n in parents {
        parents := parents - g.Anc(n) + {n};
      }
    }
  }

  lemma ProperAncestors(g: Graph, i: nat)
    requires g.Valid() && i in g.used
    ensures g.Anc(i) - {i} <= g.used
  {
  }

  lemma KeptAtFirst(g: Graph, all: set<nat>)
    ensures all == set j | j in all && Kept(g, all, j, 0)
  {
  }

  /** Without cycles the reduced parents are the maximal proper ancestors. */
  lemma ReducedAcyclic(g: Graph, i: nat)
    requires g.Valid() && g.Acyclic() && i in g.used
    ensures ReducedParents(g, i) == MaximalAncestors(g, i)
  {
    forall j, k | j in g.Anc(i) - {i} && k in g.Anc(i) - {i} && j in g.Anc(k) && k in g.Anc(j) ensures j == k {
      assert j in g.used && k in g.used;
    }
  }

  /** Every proper ancestor is an ancestor of a reduced parent. */
  lemma {:induction false} BelowReduced(g: Graph, i: nat, j: nat) returns (m: nat)
    requires g.Valid() && i in g.used && j in g.Anc(i) - {i}
    ensures m in ReducedParents(g, i) && j in g.Anc(m)
    decreases |g.Anc(i)| - |g.Anc(j)|, j
  {
    SubsetCount(g.Anc(j), g.Anc(i));
    assert j in g.Anc(j);
    if j in ReducedParents(g, i) {
      m := j;
    } else {
      var k :| k in g.Anc(i) - {i} && k != j && j in g.Anc(k) && !(k in g.Anc(j) && j < k);
      assert k in g.Anc(k) && g.Anc(j) <= g.Anc(k) <= g.Anc(i);
      SubsetCount(g.Anc(j), g.Anc(k));
      SubsetCount(g.Anc(k), g.Anc(i));
      m := BelowReduced(g, i, k);
      assert g.Anc(k) <= g.Anc(m);
    }
  }

  lemma BelowMaximal(g: Graph, i: nat, j: nat) returns (m: nat)
    requires g.Valid() && g.Acyclic() && i in g.used && j in g.Anc(i) - {i}
    ensures m in MaximalAncestors(g, i) && j in g.Anc(m)
  {
    ReducedAcyclic(g, i);
    m := BelowReduced(g, i, j);
  }

  /**
   The ancestors of the reduced parents, together with `i`, are all of its ancestors, and no smaller set of
   them has this property.
   */
  lemma ReducedParentsCover(g: Graph, i: nat)
    requires g.Valid() && i in g.used
    ensures g.Anc(i) == {i} + AncestorsOf(g, ReducedParents(g, i))
    ensures forall fewer :: fewer < ReducedParents(g, i) ==> g.Anc(i) != {i} + AncestorsOf(g, fewer)
  {
    hide Kept;
    var parents := ReducedParents(g, i);
    forall j | j in g.Anc(i) && j != i ensures j in AncestorsOf(g, parents) {
      var m := BelowReduced(g, i, j);
    }
    forall fewer | fewer < parents ensures g.Anc(i) != {i} + AncestorsOf(g, fewer) {
      assert exists m :: m in parents && m !in fewer;
      var m :| m in parents && m !in fewer;
      forall k | k in fewer ensures m !in g.Anc(k) { ReducedApart(g, i, m, k); }
      assert m !in AncestorsOf(g, fewer);
    }
  }

  lemma ReducedApart(g: Graph, i: nat, j: nat, k: nat)
    requires g.Valid() && i in g.used && j in ReducedParents(g, i) && k in ReducedParents(g, i) && j != k
    ensures j !in g.Anc(k)
  {
    assert j in g.used && k in g.used;
  }

  // ----- Remapping -----

  /** Positions are renamed by `mapping`, one-to-one on the used ones and within the new range. */
  ghost predicate Renames(g: Graph, mapping: seq<nat>, range: nat) {
    && |mapping| == |g.entries|
    && (forall i :: i in g.used ==> i < |mapping| && mapping[i] < range)
    && (forall i, j :: i in g.used && j in g.used && mapping[i] == mapping[j] ==> i == j)
  }

  function Image(mapping: seq<nat>, s: set<nat>): set<nat> {
    set i | i in s && i < |mapping| :: mapping[i]
  }

  /** Graph `h` is `g` renamed by `mapping`. */
  ghost predicate Isomorphic(g: Graph, h: Graph, mapping: seq<nat>) {
    && h.used == Image(mapping, g.used)
    && forall i :: i in g.used && i < |mapping| ==>
         && h.Rate(mapping[i]) == g.Rate(i)
         && h.Anc(mapping[i]) == Image(mapping, g.Anc(i))
         && h.Desc(mapping[i]) == Image(mapping, g.Desc(i))
  }

  /** Between remapping steps: sound so far, and complete for the positions already linked. */
  ghost predicate Remapping(g: Graph, h: Graph, mapping: seq<nat>, n: nat) {
    && h.Valid() && h.used == Image(mapping, g.used)
    && (forall i :: i in g.used && i < |mapping| ==>
          h.Rate(mapping[i]) == g.Rate(i) && h.Anc(mapping[i]) <= Image(mapping, g.Anc(i)))
    && (forall i :: i in g.used && i < n && i < |mapping| ==>
          Image(mapping, MaximalAncestors(g, i)) <= h.Anc(mapping[i]))
  }

  lemma RemapStep(g: Graph, h: Graph, mapping: seq<nat>, n: nat, range: nat)
    requires g.Valid() && g.Acyclic() && Renames(g, mapping, range) && n in g.used
    requires Remapping(g, h, mapping, n)
    ensures Remapping(g, Linked(h, Image(mapping, MaximalAncestors(g, n)), mapping[n]), mapping, n + 1)
  {
    var parents, child := Image(mapping, MaximalAncestors(g, n)), mapping[n];
    var h' := Linked(h, parents, child);
    assert child in h.used && parents <= h.used;
    LinkedValid(h, parents, child);
    LinkedRelation(h, parents, child);
    forall i | i in g.used ensures h'.Anc(mapping[i]) <= Image(mapping, g.Anc(i)) {
      assert mapping[i] in h.used;
      if child in h.Anc(mapping[i]) {
        RemapSound(g, h, mapping, n, i, range);
      }
    }
    forall i | i in g.used && i < n + 1 ensures Image(mapping, MaximalAncestors(g, i)) <= h'.Anc(mapping[i]) {
      assert mapping[i] in h.used;
      if i == n {
        forall p | p in parents ensures p in h'.Anc(child) {
          assert p in h.Anc(p) && child in h.Anc(child);
        }
      }
    }
  }

  lemma RemapSound(g: Graph, h: Graph, mapping: seq<nat>, n: nat, i: nat, range: nat)
    requires g.Valid() && g.Acyclic() && Renames(g, mapping, range) && n in g.used && i in g.used
    requires Remapping(g, h, mapping, n)
    requires mapping[n] in h.Anc(mapping[i])
    ensures AncestorsOf(h, Image(mapping, MaximalAncestors(g, n))) <= Image(mapping, g.Anc(i))
  {
    assert mapping[n] in Image(mapping, g.Anc(i));
    assert n in g.Anc(i);
    forall a | a in AncestorsOf(h, Image(mapping, MaximalAncestors(g, n))) ensures a in Image(mapping, g.Anc(i)) {
      var q :| q in Image(mapping, MaximalAncestors(g, n)) && a in h.Anc(q);
      var p :| p in MaximalAncestors(g, n) && p < |mapping| && mapping[p] == q;
      assert p in g.Anc(n) && g.Anc(p) <= g.Anc(n) <= g.Anc(i);
      assert a in Image(mapping, g.Anc(p));
    }
  }

  lemma {:induction false} RemapComplete(g: Graph, h: Graph, mapping: seq<nat>, range: nat, i: nat, j: nat)
    requires g.Valid() && g.Acyclic() && Renames(g, mapping, range)
    requires Remapping(g, h, mapping, |mapping|)
    requires i in g.used && j in g.Anc(i)
    ensures mapping[j] in h.Anc(mapping[i])
    decreases |g.Anc(i)|
  {
    if i != j {
      var m := BelowMaximal(g, i, j);
      AncestorsShrink(g, m, i);
      RemapComplete(g, h, mapping, range, m, j);
      assert mapping[m] in Image(mapping, MaximalAncestors(g, i));
      assert mapping[i] in h.used;
      assert h.Anc(mapping[m]) <= h.Anc(mapping[i]);
    } else {
      assert mapping[i] in h.used;
    }
  }

  /** When all positions are linked, the remapped graph is isomorphic. */
  lemma RemapDone(g: Graph, h: Graph, mapping: seq<nat>, range: nat)
    requires g.Valid() && g.Acyclic() && Renames(g, mapping, range)
    requires Remapping(g, h, mapping, |mapping|)
    ensures Isomorphic(g, h, mapping)
  {
    forall i | i in g.used && i < |mapping| ensures h.Anc(mapping[i]) == Image(mapping, g.Anc(i)) {
      forall a | a in Image(mapping, g.Anc(i)) ensures a in h.Anc(mapping[i]) {
        var j :| j in g.Anc(i) && j < |mapping| && mapping[j] == a;
        RemapComplete(g, h, mapping, range, i, j);
      }
    }
    forall i | i in g.used && i < |mapping| ensures h.Desc(mapping[i]) == Image(mapping, g.Desc(i)) {
      RemapDescendants(g, h, mapping, range, i);
    }
  }

  lemma RemapDescendants(g: Graph, h: Graph, mapping: seq<nat>, range: nat, i: nat)
    requires g.Valid() && h.Valid() && Renames(g, mapping, range) && i in g.used
    requires h.used == Image(mapping, g.used)
    requires forall k :: k in g.used && k < |mapping| ==> h.Anc(mapping[k]) == Image(mapping, g.Anc(k))
    ensures h.Desc(mapping[i]) == Image(mapping, g.Desc(i))
  {
    assert mapping[i] in h.used;
    forall a | a in h.used ensures a in h.Desc(mapping[i]) <==> a in Image(mapping, g.Desc(i)) {
      var k :| k in g.used && k < |mapping| && mapping[k] == a;
      assert a in h.Desc(mapping[i]) <==> mapping[i] in Image(mapping, g.Anc(k));
      assert mapping[i] in Image(mapping, g.Anc(k)) <==> i in g.Anc(k);
      assert i in g.Anc(k) <==> k in g.Desc(i);
    }
  }

  // ----- The object -----

  function Masked(e: Entry, keep: set<nat>): Entry {
    Entry(e.feerate, e.ancestors * keep, e.descendants * keep)
  }

  class DepGraph {
    var entries: seq<Entry>
    var used: set<nat>

    function Value(): Graph
      reads this
    {
      Graph(entries, used)
    }

    constructor ()
      ensures Value() == Graph([], {}) && Value().Valid()
    {
      entries, used := [], {};
    }

    /** A new unconnected transaction, in the first available position. */
    method AddTransaction(feefrac: FeeFrac) returns (newIdx: nat)
      requires Value().Valid()
      modifies this
      ensures Value().Valid()
      ensures newIdx !in old(used) && (forall i :: 0 <= i < newIdx ==> i in old(used))
      ensures used == old(used) + {newIdx}
      ensures Value().Rate(newIdx) == feefrac && Value().Anc(newIdx) == {newIdx} == Value().Desc(newIdx)
      ensures forall i :: i in old(used) ==> i < |entries| && i < |old(entries)| && entries[i] == old(entries)[i]
    {
      newIdx := 0;
      while newIdx in used
        invariant newIdx <= |entries|
        invariant forall i :: 0 <= i < newIdx ==> i in used
        decreases |entries| - newIdx
      {
        assert newIdx < |entries|;
        newIdx := newIdx + 1;
      }
      ghost var g := Value();
      if newIdx == |entries| {
        entries := entries + [Entry(feefrac, {newIdx}, {newIdx})];
      } else {
        entries := entries[newIdx := Entry(feefrac, {newIdx}, {newIdx})];
      }
      used := used + {newIdx};
      AddedValid(g, Value(), newIdx);
    }

    /** Remove positions: the relation among the others is restricted to them. */
    method RemoveTransactions(del: set<nat>)
      requires Value().Valid()
      modifies this
      ensures Value().Valid() && used == old(used) - del
      ensures |entries| <= |old(entries)| && (entries != [] ==> |entries| - 1 in used)
      ensures forall i :: i in used ==>
                && Value().Rate(i) == old(Value()).Rate(i)
                && Value().Anc(i) == old(Value()).Anc(i) * used
                && Value().Desc(i) == old(Value()).Desc(i) * used
    {
      ghost var g := Value();
      used := used - del;
      while entries != [] && |entries| - 1 !in used
        invariant used == old(used) - del && entries <= g.entries
        invariant forall i :: i in used ==> i < |entries|
        decreases |entries|
      {
        entries := entries[..|entries| - 1];
      }
      ghost var kept := entries;
      for k := 0 to |entries|
        invariant used == old(used) - del && |entries| == |kept|
        invariant forall i :: 0 <= i < |kept| ==>
                    entries[i] == if i < k then Masked(kept[i], used) else kept[i]
      {
        entries := entries[k := Masked(entries[k], used)];
      }
      RestrictedValid(g, Value());
    }

    /** The ancestors of `parents` that are not already ancestors of `child`. */
    method NewAncestors(parents: set<nat>, child: nat) returns (parAnc: set<nat>)
      requires Value().Valid() && child in used && parents <= used
      ensures parAnc == Gained(Value(), parents, child)
    {
      parAnc := {};
      var toVisit := parents - entries[child].ancestors;
      for par := 0 to |entries|
        invariant parAnc == AncestorsOf(Value(), set p | p in toVisit && p < par)
      {
        if par in toVisit {
          parAnc := parAnc + entries[par].ancestors;
        }
      }
      assert toVisit == set p | p in toVisit && p < |entries|;
      parAnc := parAnc - entries[child].ancestors;
      GainedByNew(Value(), parents, child);
    }

    /** To each ancestor in `parAnc`, add the descendants `chlDes`. */
    method AddDescendants(parAnc: set<nat>, chlDes: set<nat>)
      modifies this`entries
      ensures entries == WithDescendants(old(entries), parAnc, chlDes)
    {
      for anc := 0 to |entries|
        invariant |entries| == |old(entries)|
        invariant forall k :: anc <= k < |entries| ==> entries[k] == old(entries)[k]
        invariant forall k :: 0 <= k < anc ==> entries[k] == WithDescendants(old(entries), parAnc, chlDes)[k]
      {
        if anc in parAnc {
          entries := entries[anc := entries[anc].(descendants := entries[anc].descendants + chlDes)];
        }
      }
    }

    /** To each descendant in `chlDes`, add the ancestors `parAnc`. */
    method AddAncestors(parAnc: set<nat>, chlDes: set<nat>)
      modifies this`entries
      ensures entries == WithAncestors(old(entries), chlDes, parAnc)
    {
      for dec := 0 to |entries|
        invariant |entries| == |old(entries)|
        invariant forall k :: dec <= k < |entries| ==> entries[k] == old(entries)[k]
        invariant forall k :: 0 <= k < dec ==> entries[k] == WithAncestors(old(entries), chlDes, parAnc)[k]
      {
        if dec in chlDes {
          entries := entries[dec := entries[dec].(ancestors := entries[dec].ancestors + parAnc)];
        }
      }
    }

    /** Make `parents` ancestors of `child`. */
    method AddDependencies(parents: set<nat>, child: nat)
      requires Value().Valid() && child in used && parents <= used
      modifies this`entries
      ensures Value() == Linked(old(Value()), parents, child)
    {
      assert child < |entries|;
      ghost var g := Value();
      assert entries[child].descendants == g.Desc(child);
      hide *;
      var parAnc := NewAncestors(parents, child);
      if parAnc == {} {
        LinkedNothing(g, parents, child);
        return;
      }
      var chlDes := entries[child].descendants;
      AddDescendants(parAnc, chlDes);
      AddAncestors(parAnc, chlDes);
      LinkedInSteps(g, parents, child);
      ValueIs();
    }

    lemma ValueIs()
      ensures Value() == Graph(entries, used)
    {
    }

    /** A copy of `g` under new positions, rebuilt from its reduced parents alone. */
    constructor Remapped(g: Graph, mapping: seq<nat>, posRange: nat)
      requires g.Valid() && g.Acyclic() && Renames(g, mapping, posRange)
      ensures Value().Valid() && Isomorphic(g, Value(), mapping) && |entries| == posRange
    {
      entries := seq(posRange, _ => Entry(EMPTY, {}, {}));
      used := {};
      new;
      hide *;
      CopyTransactions(g, mapping, posRange);
      CopyDependencies(g, mapping, posRange);
    }

    /** Every transaction on its own, at its new position. */
    method CopyTransactions(g: Graph, mapping: seq<nat>, posRange: nat)
      requires g.Valid() && Renames(g, mapping, posRange) && |entries| == posRange && used == {}
      modifies this
      ensures |entries| == posRange && Remapping(g, Value(), mapping, 0)
    {
      for i := 0 to |mapping|
        invariant |entries| == posRange
        invariant used == Image(mapping, set x | x in g.used && x < i)
        invariant forall x :: x in g.used && x < i ==>
                    entries[mapping[x]] == Entry(g.Rate(x), {mapping[x]}, {mapping[x]})
      {
        if i in g.used {
          entries := entries[mapping[i] := Entry(g.entries[i].feerate, {mapping[i]}, {mapping[i]})];
          used := used + {mapping[i]};
        }
      }
      assert g.used == set x | x in g.used && x < |mapping|;
      RemapStart(g, Value(), mapping, posRange);
    }

    method CopyDependencies(g: Graph, mapping: seq<nat>, posRange: nat)
      requires g.Valid() && g.Acyclic() && Renames(g, mapping, posRange) && |entries| == posRange &&
               Remapping(g, Value(), mapping, 0)
      modifies this
      ensures Value().Valid() && Isomorphic(g, Value(), mapping) && |entries| == posRange
    {
      assert |mapping| == |g.entries|;
      hide *;
      for i := 0 to |mapping|
        invariant Remapping(g, Value(), mapping, i) && |Value().entries| == posRange
      {
        RemapFacts(g, Value(), mapping, i, posRange);
        if i in g.used {
          var reduced := GetReducedParents(g, i);
          ReducedAcyclic(g, i);
          var parents := Image(mapping, reduced);
          RemapStep(g, Value(), mapping, i, posRange);
          LinkedSize(Value(), parents, mapping[i]);
          AddDependencies(parents, mapping[i]);
        } else {
          RemapSkip(g, Value(), mapping, i);
        }
      }
      RemapDone(g, Value(), mapping, posRange);
    }
  }

  function WithDescendants(entries: seq<Entry>, up: set<nat>, down: set<nat>): (r: seq<Entry>)
    ensures |r| == |entries|
  {
    seq(|entries|, k requires 0 <= k < |entries| =>
      entries[k].(descendants := entries[k].descendants + (if k in up then down else {})))
  }

  function WithAncestors(entries: seq<Entry>, down: set<nat>, up: set<nat>): (r: seq<Entry>)
    ensures |r| == |entries|
  {
    seq(|entries|, k requires 0 <= k < |entries| =>
      entries[k].(ancestors := entries[k].ancestors + (if k in down then up else {})))
  }

  lemma LinkedSize(g: Graph, parents: set<nat>, child: nat)
    ensures |Linked(g, parents, child).entries| == |g.entries|
  {
  }

  lemma RemapFacts(g: Graph, h: Graph, mapping: seq<nat>, i: nat, range: nat)
    requires g.Valid() && Renames(g, mapping, range) && Remapping(g, h, mapping, i) && i < |mapping|
    ensures h.Valid()
    ensures i in g.used ==> mapping[i] in h.used && Image(mapping, MaximalAncestors(g, i)) <= h.used
  {
  }

  lemma RemapSkip(g: Graph, h: Graph, mapping: seq<nat>, i: nat)
    requires Remapping(g, h, mapping, i) && i !in g.used
    ensures Remapping(g, h, mapping, i + 1)
  {
  }

  lemma RemapStart(g: Graph, h: Graph, mapping: seq<nat>, range: nat)
    requires g.Valid() && Renames(g, mapping, range) && |h.entries| == range
    requires h.used == Image(mapping, g.used)
    requires forall x :: x in g.used ==> h.entries[mapping[x]] == Entry(g.Rate(x), {mapping[x]}, {mapping[x]})
    ensures Remapping(g, h, mapping, 0)
  {
    forall a | a in h.used ensures a < |h.entries| && h.Anc(a) == {a} == h.Desc(a) {
      var x :| x in g.used && x < |mapping| && mapping[x] == a;
    }
    forall i | i in g.used ensures h.Anc(mapping[i]) <= Image(mapping, g.Anc(i)) {
      assert mapping[i] in h.used;
      assert i in g.Anc(i);
    }
  }

  lemma AddedValid(g: Graph, h: Graph, n: nat)
    requires g.Valid() && n !in g.used && h.used == g.used + {n} && n < |h.entries|
    requires h.Anc(n) == {n} == h.Desc(n)
    requires forall i :: i in g.used ==> i < |h.entries| && h.entries[i] == g.entries[i]
    ensures h.Valid()
  {
    forall i | i in g.used ensures h.Anc(i) == g.Anc(i) && h.Desc(i) == g.Desc(i) {}
    forall i, j | i in h.used && j in h.Anc(i) ensures h.Anc(j) <= h.Anc(i) {
      if i in g.used { assert j in g.used; }
    }
  }

  lemma RestrictedValid(g: Graph, h: Graph)
    requires g.Valid() && h.used <= g.used && |h.entries| <= |g.entries|
    requires forall i :: i in h.used ==> i < |h.entries|
    requires forall i :: 0 <= i < |h.entries| ==>
               h.Anc(i) == g.Anc(i) * h.used && h.Desc(i) == g.Desc(i) * h.used
    ensures h.Valid()
  {
    forall i, j | i in h.used && j in h.Anc(i) ensures h.Anc(j) <= h.Anc(i) {
      assert g.Anc(j) <= g.Anc(i);
    }
    forall i, j | i in h.used && j in h.used ensures j in h.Anc(i) <==> i in h.Desc(j) {
      assert j in g.Anc(i) <==> i in g.Desc(j);
    }
  }

  lemma LinkedInSteps(g: Graph, parents: set<nat>, child: nat)
    ensures var up, down := Gained(g, parents, child), g.Desc(child);
            Graph(WithAncestors(WithDescendants(g.entries, up, down), down, up), g.used) == Linked(g, parents, child)
  {
    hide Gained, Graph.Desc;
  }

  lemma LinkedNothing(g: Graph, parents: set<nat>, child: nat)
    requires Gained(g, parents, child) == {}
    ensures Linked(g, parents, child) == g
  {
    var h := Linked(g, parents, child);
    forall k | 0 <= k < |g.entries| ensures h.entries[k] == g.entries[k] {
      assert h.entries[k].ancestors == g.entries[k].ancestors;
      assert h.entries[k].descendants == g.entries[k].descendants;
    }
    assert h.entries == g.entries;
  }

  /** Parents that are ancestors already contribute nothing. */
  lemma GainedByNew(g: Graph, parents: set<nat>, child: nat)
    requires g.Valid() && child in g.used && parents <= g.used
    ensures AncestorsOf(g, parents - g.Anc(child)) - g.Anc(child) == Gained(g, parents, child)
  {
    forall a | a in Gained(g, parents, child) ensures a in AncestorsOf(g, parents - g.Anc(child)) {
      var p :| p in parents && a in g.Anc(p);
      assert p in g.Anc(child) ==> g.Anc(p) <= g.Anc(child);
    }
  }
}
