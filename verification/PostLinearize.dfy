/**
 `PostLinearize` (`src/cluster_linearize.h:1136-1319`): groups are singly-linked lists of transactions,
 themselves in a singly-linked circular list through a sentinel. Information about transaction `t` is
 in entry `t + 1`, the sentinel is entry 0.
 */
module PostLinearization {
  import opened FeeFracs
  import opened Sequences
  import opened Graphs
  import opened Chunkings
  import opened Improvements
  import opened LinearizationChunkings
  import opened Passes
  import opened PostGuarantees

  const SENTINEL: nat := 0
  const NO_PREV_TX: nat := 0

  datatype TxEntry = TxEntry(prevTx: nat, firstTx: nat, prevGroup: nat, group: set<nat>, deps: set<nat>,
                             feerate: FeeFrac)

  // ----- What the links describe -----

  function Tail(seg: seq<nat>): nat
    requires seg != []
  {
    seg[|seg| - 1] + 1
  }

  ghost predicate NonEmpty(groups: seq<seq<nat>>) {
    forall i :: 0 <= i < |groups| ==> groups[i] != []
  }

  ghost function Tails(groups: seq<seq<nat>>): (tails: seq<nat>)
    requires NonEmpty(groups)
    ensures |tails| == |groups|
  {
    seq(|groups|, i requires 0 <= i < |groups| => Tail(groups[i]))
  }

  /** What precedes index `i` of a list of tails. */
  function PrevOf(tails: seq<nat>, i: nat): nat
    requires i <= |tails|
  {
    if i == 0 then SENTINEL else tails[i - 1]
  }

  /** What follows, given the tails after it. */
  function NextOf(after: seq<nat>): nat {
    if after == [] then SENTINEL else after[0]
  }

  /** From the sentinel, `prevGroup` leads through the tails, last group first, back to the sentinel. */
  ghost predicate Chained(entries: seq<TxEntry>, tails: seq<nat>) {
    && |entries| > 0 && (forall i :: 0 <= i < |tails| ==> 0 < tails[i] < |entries|)
    && entries[SENTINEL].prevGroup == PrevOf(tails, |tails|)
    && (forall i :: 0 <= i < |tails| ==> entries[tails[i]].prevGroup == PrevOf(tails, i))
  }

  /** The entries of a group's transactions describe the group. */
  ghost predicate Describes(g: Graph, entries: seq<TxEntry>, seg: seq<nat>) {
    && seg != [] && (forall k :: 0 <= k < |seg| ==> seg[k] + 1 < |entries|)
    && entries[Tail(seg)].firstTx == seg[0] + 1
    && entries[Tail(seg)].group == SetOf(seg)
    && entries[Tail(seg)].deps == Deps(g, seg)
    && entries[Tail(seg)].feerate == SegRate(g, seg)
    && (forall k :: 0 <= k < |seg| ==> entries[seg[k] + 1].prevTx == if k == 0 then NO_PREV_TX else seg[k - 1] + 1)
  }

  /** The links describe the given list of groups. */
  ghost predicate Holds(g: Graph, entries: seq<TxEntry>, groups: seq<seq<nat>>) {
    && |entries| == |g.entries| + 1 && entries[SENTINEL].feerate == EMPTY
    && (forall i :: 0 <= i < |groups| ==> Describes(g, entries, groups[i]))
    && NonEmpty(groups) && Chained(entries, Tails(groups))
  }

  // ----- Chains of tails -----

  lemma ChainAppend(entries: seq<TxEntry>, tails: seq<nat>, t: nat, e: TxEntry)
    requires Chained(entries, tails) && 0 < t < |entries| && t !in tails && e.prevGroup == entries[SENTINEL].prevGroup
    ensures Chained(entries[t := e][SENTINEL := entries[SENTINEL].(prevGroup := t)], tails + [t])
  {
    var entries' := entries[t := e][SENTINEL := entries[SENTINEL].(prevGroup := t)];
    var tails' := tails + [t];
    forall i | 0 <= i < |tails'| ensures entries'[tails'[i]].prevGroup == PrevOf(tails', i) {
      if i < |tails| {
        assert tails'[i] == tails[i] && tails[i] in tails && PrevOf(tails', i) == PrevOf(tails, i);
      } else {
        assert PrevOf(tails', i) == PrevOf(tails, i);
      }
    }
  }

  /** The entries after swapping group `c` with the group `p` before it. */
  function Swapped(entries: seq<TxEntry>, next: nat, p: nat, c: nat): seq<TxEntry>
    requires next < |entries| && p < |entries| && c < |entries|
  {
    var preprev := entries[p].prevGroup;
    var e1 := entries[next := entries[next].(prevGroup := p)];
    var e2 := e1[p := e1[p].(prevGroup := c)];
    e2[c := e2[c].(prevGroup := preprev)]
  }

  lemma ChainSwap(entries: seq<TxEntry>, f: seq<nat>, p: nat, c: nat, a: seq<nat>)
    requires Chained(entries, f + [p, c] + a) && Distinct(f + [p, c] + a)
    ensures var next := NextOf(a);
            next < |entries| && p < |entries| && c < |entries| && Chained(Swapped(entries, next, p, c), f + [c, p] + a)
  {
    hide Swapped, Distinct, Chained;
    var tails' := f + [c, p] + a;
    ChainInRange(entries, f, p, c, a);
    var next := NextOf(a);
    var entries' := Swapped(entries, next, p, c);
    forall i | 0 <= i < |tails'|
      ensures 0 < tails'[i] < |entries|
      ensures entries'[tails'[i]].prevGroup == PrevOf(tails', i)
    {
      ChainSwapAt(entries, f, p, c, a, i);
    }
    ChainSwapEnd(entries, f, p, c, a);
    ChainIntro(entries', tails');
  }

  lemma ChainInRange(entries: seq<TxEntry>, f: seq<nat>, p: nat, c: nat, a: seq<nat>)
    requires Chained(entries, f + [p, c] + a)
    ensures var next := NextOf(a);
            next < |entries| && p < |entries| && c < |entries| && |Swapped(entries, next, p, c)| == |entries| > 0
  {
    var tails, n := f + [p, c] + a, |f|;
    assert tails[n] == p && tails[n + 1] == c;
    if a != [] { assert tails[n + 2] == a[0]; }
  }

  /** The sentinel still points to the last group, which is the other one if these were the last two. */
  lemma ChainSwapEnd(entries: seq<TxEntry>, f: seq<nat>, p: nat, c: nat, a: seq<nat>)
    requires Chained(entries, f + [p, c] + a) && Distinct(f + [p, c] + a)
    requires NextOf(a) < |entries| && p < |entries| && c < |entries|
    ensures Swapped(entries, NextOf(a), p, c)[SENTINEL].prevGroup == PrevOf(f + [c, p] + a, |f| + 2 + |a|)
  {
    hide Swapped;
    var tails, tails', n := f + [p, c] + a, f + [c, p] + a, |f|;
    assert tails[n] == p && tails[n + 1] == c && tails[n] != tails[n + 1];
    if a != [] {
      assert tails[n + 2] == a[0] && tails[n] != tails[n + 2] && tails[n + 1] != tails[n + 2];
      assert PrevOf(tails', |tails'|) == PrevOf(tails, |tails|);
    }
    SwappedLinks(entries, NextOf(a), p, c, SENTINEL);
  }

  lemma ChainIntro(entries: seq<TxEntry>, tails: seq<nat>)
    requires |entries| > 0 && (forall i :: 0 <= i < |tails| ==> 0 < tails[i] < |entries|)
    requires entries[SENTINEL].prevGroup == PrevOf(tails, |tails|)
    requires forall i :: 0 <= i < |tails| ==> entries[tails[i]].prevGroup == PrevOf(tails, i)
    ensures Chained(entries, tails)
  {
  }

  lemma SwappedLinks(entries: seq<TxEntry>, next: nat, p: nat, c: nat, k: nat)
    requires next < |entries| && p < |entries| && c < |entries| && k < |entries|
    requires next != p && next != c && p != c
    ensures Swapped(entries, next, p, c)[k].prevGroup ==
              if k == c then entries[p].prevGroup
              else if k == p then c
              else if k == next then p
              else entries[k].prevGroup
  {
  }

  lemma ChainSwapAt(entries: seq<TxEntry>, f: seq<nat>, p: nat, c: nat, a: seq<nat>, i: nat)
    requires Chained(entries, f + [p, c] + a) && Distinct(f + [p, c] + a) && i < |f + [c, p] + a|
    requires p < |entries| && c < |entries| && NextOf(a) < |entries|
    ensures var tails' := f + [c, p] + a;
            && 0 < tails'[i] < |entries|
            && Swapped(entries, NextOf(a), p, c)[tails'[i]].prevGroup == PrevOf(tails', i)
  {
    hide Swapped;
    var tails, tails', n := f + [p, c] + a, f + [c, p] + a, |f|;
    assert tails[n] == p && tails[n + 1] == c && tails[n] != tails[n + 1];
    if a != [] { assert tails[n + 2] == a[0] && tails[n] != tails[n + 2] && tails[n + 1] != tails[n + 2]; }
    if i == n {
      SwappedLinks(entries, NextOf(a), p, c, c);
      assert PrevOf(tails', i) == PrevOf(tails, i);
    } else if i == n + 1 {
      SwappedLinks(entries, NextOf(a), p, c, p);
    } else {
      assert tails'[i] == tails[i] && tails[i] != tails[n] && tails[i] != tails[n + 1];
      SwappedLinks(entries, NextOf(a), p, c, tails[i]);
      if i != n + 2 {
        if a != [] { assert tails[i] != tails[n + 2]; }
        assert PrevOf(tails', i) == PrevOf(tails, i);
      }
    }
  }

  /** Dropping the group before `c` from the chain. */
  lemma ChainMerge(entries: seq<TxEntry>, f: seq<nat>, p: nat, c: nat, a: seq<nat>, entries': seq<TxEntry>)
    requires Chained(entries, f + [p, c] + a) && Distinct(f + [p, c] + a) && |entries'| == |entries|
    requires c < |entries| && p < |entries| && entries'[c].prevGroup == entries[p].prevGroup
    requires forall k :: 0 <= k < |entries| && k != c ==> entries'[k].prevGroup == entries[k].prevGroup
    ensures Chained(entries', f + [c] + a)
  {
    var tails, tails' := f + [p, c] + a, f + [c] + a;
    var n := |f|;
    assert tails[n] == p && tails[n + 1] == c;
    forall i | 0 <= i < |tails'|
      ensures 0 < tails'[i] < |entries'|
      ensures entries'[tails'[i]].prevGroup == PrevOf(tails', i)
    {
      if i < n {
        assert tails'[i] == tails[i] && tails[i] != tails[n + 1];
        assert PrevOf(tails', i) == PrevOf(tails, i);
      } else if i == n {
        assert tails'[i] == c && PrevOf(tails', i) == PrevOf(tails, i) == entries[p].prevGroup;
      } else {
        assert tails'[i] == tails[i + 1] && tails[i + 1] != tails[n + 1];
        assert PrevOf(tails', i) == PrevOf(tails, i + 1);
      }
    }
    assert PrevOf(tails', |tails'|) == PrevOf(tails, |tails|);
  }

  // ----- Groups and their entries -----

  /** Tails of a list of disjoint groups are distinct. */
  lemma {:induction false} TailsDistinct(groups: seq<seq<nat>>)
    requires NonEmpty(groups) && Distinct(Flatten(groups))
    ensures Distinct(Tails(groups))
    ensures forall i :: 0 <= i < |groups| ==> Tail(groups[i]) - 1 in SetOf(Flatten(groups))
  {
    if groups != [] {
      var c, rest := groups[0], groups[1..];
      assert NonEmpty(rest);
      DistinctConcat(c, Flatten(rest));
      SetOfConcat(c, Flatten(rest));
      TailsDistinct(rest);
      assert c[|c| - 1] in SetOf(c);
      var ts, tr := Tails(groups), Tails(rest);
      forall i | 0 <= i < |rest| ensures ts[i + 1] == tr[i] {
        assert groups[i + 1] == rest[i];
      }
      forall i, j | 0 <= i < j < |ts| ensures ts[i] != ts[j] {
        assert groups[j] == rest[j - 1];
        if i == 0 {
          assert Tail(rest[j - 1]) - 1 in SetOf(Flatten(rest));
        } else {
          assert tr[i - 1] != tr[j - 1];
        }
      }
      forall i | 0 <= i < |groups| ensures Tail(groups[i]) - 1 in SetOf(Flatten(groups)) {
        if i > 0 { assert groups[i] == rest[i - 1]; }
      }
    }
  }

  /** A group's description depends on its own entries only, and not on `prevGroup`. */
  lemma DescribesFrame(g: Graph, entries: seq<TxEntry>, entries': seq<TxEntry>, seg: seq<nat>)
    requires Describes(g, entries, seg) && |entries'| == |entries|
    requires forall k :: 0 <= k < |seg| ==>
             entries'[seg[k] + 1].(prevGroup := 0) == entries[seg[k] + 1].(prevGroup := 0)
    ensures Describes(g, entries', seg)
  {
    forall k | 0 <= k < |seg| ensures entries'[seg[k] + 1].prevTx == entries[seg[k] + 1].prevTx {
      assert entries'[seg[k] + 1].(prevGroup := 0) == entries[seg[k] + 1].(prevGroup := 0);
    }
    var n := |seg| - 1;
    assert entries'[seg[n] + 1].(prevGroup := 0) == entries[seg[n] + 1].(prevGroup := 0);
  }

  lemma TailsThree(before: seq<seq<nat>>, cur: seq<nat>, after: seq<seq<nat>>)
    requires NonEmpty(before + [cur] + after) && before != []
    ensures NonEmpty(before[..|before| - 1]) && NonEmpty(after) && cur != [] && before[|before| - 1] != []
    ensures Tails(before + [cur] + after) ==
              Tails(before[..|before| - 1]) + [Tail(before[|before| - 1]), Tail(cur)] + Tails(after)
  {
    var all, n := before + [cur] + after, |before| - 1;
    assert all[n] == before[n] && all[n + 1] == cur;
    forall i | 0 <= i < n ensures before[i] != [] { assert all[i] == before[i]; }
    forall i | 0 <= i < |after| ensures after[i] != [] { assert all[n + 2 + i] == after[i]; }
  }

  lemma TailsMerged(f: seq<seq<nat>>, p: seq<nat>, cur: seq<nat>, after: seq<seq<nat>>)
    requires NonEmpty(f) && NonEmpty(after) && cur != []
    ensures NonEmpty(f + [p + cur] + after)
    ensures Tails(f + [p + cur] + after) == Tails(f) + [Tail(cur)] + Tails(after)
  {
    assert (p + cur)[|p + cur| - 1] == cur[|cur| - 1];
  }

  lemma TailsSwapped(f: seq<seq<nat>>, p: seq<nat>, cur: seq<nat>, after: seq<seq<nat>>)
    requires NonEmpty(f) && NonEmpty(after) && cur != [] && p != []
    ensures NonEmpty(f + [cur] + ([p] + after))
    ensures Tails(f + [cur] + ([p] + after)) == Tails(f) + [Tail(cur), Tail(p)] + Tails(after)
  {
  }

  lemma InsideFlatten(groups: seq<seq<nat>>, i: nat)
    requires i < |groups|
    ensures SetOf(groups[i]) <= SetOf(Flatten(groups))
  {
    FlattenAround(groups, i);
    SetOfConcat(Flatten(groups[..i]) + groups[i], Flatten(groups[i + 1..]));
    SetOfConcat(Flatten(groups[..i]), groups[i]);
  }

  /** Members of the current group are in no other group. */
  lemma OthersApart(before: seq<seq<nat>>, cur: seq<nat>, after: seq<seq<nat>>)
    requires Distinct(Flatten(before + [cur] + after))
    ensures forall i :: 0 <= i < |before| ==> SetOf(before[i]) !! SetOf(cur)
    ensures forall i :: 0 <= i < |after| ==> SetOf(after[i]) !! SetOf(cur)
    ensures Distinct(cur)
  {
    hide Flatten, SetOf, Distinct;
    FlattenThree(before, cur, after);
    DistinctConcat(Flatten(before) + cur, Flatten(after));
    DistinctConcat(Flatten(before), cur);
    SetOfConcat(Flatten(before), cur);
    forall i | 0 <= i < |before| ensures SetOf(before[i]) !! SetOf(cur) {
      InsideFlatten(before, i);
    }
    forall i | 0 <= i < |after| ensures SetOf(after[i]) !! SetOf(cur) {
      InsideFlatten(after, i);
    }
  }

  /** The entries after merging the group with tail `p` into the one with tail `c`. */
  function Merged(entries: seq<TxEntry>, p: nat, c: nat): seq<TxEntry>
    requires p < |entries| && c < |entries| && entries[c].firstTx < |entries|
  {
    var e1 := entries[c := entries[c].(group := entries[c].group + entries[p].group,
                                       deps := entries[c].deps + entries[p].deps,
                                       feerate := entries[c].feerate.Plus(entries[p].feerate))];
    var e2 := e1[e1[c].firstTx := e1[e1[c].firstTx].(prevTx := p)];
    e2[c := e2[c].(firstTx := e2[p].firstTx, prevGroup := e2[p].prevGroup)]
  }

  lemma MergedLinkAt(g: Graph, entries: seq<TxEntry>, p: seq<nat>, c: seq<nat>, k: nat)
    requires Describes(g, entries, p) && Describes(g, entries, c) && SetOf(p) !! SetOf(c) && Distinct(c) && k < |p + c|
    ensures (p + c)[k] + 1 < |entries|
    ensures Merged(entries, Tail(p), Tail(c))[(p + c)[k] + 1].prevTx ==
              if k == 0 then NO_PREV_TX else (p + c)[k - 1] + 1
  {
    hide SegRate, FeeFrac.Plus, Deps;
    var tp, tc, w := Tail(p), Tail(c), p + c;
    assert p[|p| - 1] in SetOf(p) && c[|c| - 1] in SetOf(c) && c[0] in SetOf(c);
    if k < |p| {
      assert w[k] == p[k] && p[k] in SetOf(p);
      assert p[k] + 1 != tc && p[k] != c[0];
      if k > 0 { assert w[k - 1] == p[k - 1]; }
    } else {
      var m := k - |p|;
      assert w[k] == c[m];
      if m > 0 { assert w[k - 1] == c[m - 1] && c[m] != c[0]; } else { assert w[k - 1] == p[|p| - 1]; }
    }
  }

  lemma MergedDescribes(g: Graph, entries: seq<TxEntry>, p: seq<nat>, c: seq<nat>)
    requires Describes(g, entries, p) && Describes(g, entries, c) && SetOf(p) !! SetOf(c) && Distinct(c)
    ensures Describes(g, Merged(entries, Tail(p), Tail(c)), p + c)
  {
    hide SegRate, FeeFrac.Plus, Deps, Distinct;
    var tp, tc := Tail(p), Tail(c);
    var entries', w := Merged(entries, tp, tc), p + c;
    JoinPayload(g, p, c);
    assert Tail(w) == tc && w[0] == p[0];
    assert p[|p| - 1] in SetOf(p) && c[|c| - 1] in SetOf(c) && c[0] in SetOf(c);
    assert tp != tc && c[0] + 1 != tp;
    forall k | 0 <= k < |w|
      ensures w[k] + 1 < |entries| && entries'[w[k] + 1].prevTx == if k == 0 then NO_PREV_TX else w[k - 1] + 1
    {
      MergedLinkAt(g, entries, p, c, k);
    }
  }

  lemma JoinPayload(g: Graph, p: seq<nat>, c: seq<nat>)
    ensures SetOf(p + c) == SetOf(c) + SetOf(p)
    ensures Deps(g, p + c) == Deps(g, c) + Deps(g, p)
    ensures SegRate(g, p + c) == SegRate(g, c).Plus(SegRate(g, p))
  {
    SetOfConcat(p, c);
    SegRateConcat(g, p, c);
    SumCommutes(SegRate(g, p), SegRate(g, c));
  }

  /** Merging keeps the links in order. */
  lemma HoldsMerge(g: Graph, entries: seq<TxEntry>, before: seq<seq<nat>>, cur: seq<nat>, after: seq<seq<nat>>)
    requires before != [] && Holds(g, entries, before + [cur] + after) && Distinct(Flatten(before + [cur] + after))
    ensures var n := |before| - 1;
            && before[n] != [] && cur != [] && Tail(before[n]) < |entries| && Tail(cur) < |entries|
            && entries[Tail(cur)].firstTx < |entries|
            && Holds(g, Merged(entries, Tail(before[n]), Tail(cur)), before[..n] + [before[n] + cur] + after)
  {
    hide SegRate, FeeFrac.Plus, Deps, Flatten, Distinct, Chained;
    var n := |before| - 1;
    var f, p, all := before[..n], before[n], before + [cur] + after;
    assert all[n] == p && all[n + 1] == cur;
    assert Describes(g, entries, all[n]) && Describes(g, entries, all[n + 1]);
    OthersApart(before, cur, after);
    var entries' := Merged(entries, Tail(p), Tail(cur));
    MergedDescribes(g, entries, p, cur);
    TailsThree(before, cur, after);
    TailsMerged(f, p, cur, after);
    TailsDistinct(all);
    ChainMerge(entries, Tails(f), Tail(p), Tail(cur), Tails(after), entries');
    forall i | 0 <= i < |f| ensures Describes(g, entries', f[i]) {
      assert all[i] == f[i];
      OthersUntouched(g, entries, p, cur, f[i]);
    }
    forall i | 0 <= i < |after| ensures Describes(g, entries', after[i]) {
      assert all[n + 2 + i] == after[i];
      OthersUntouched(g, entries, p, cur, after[i]);
    }
  }

  lemma OthersUntouched(g: Graph, entries: seq<TxEntry>, p: seq<nat>, cur: seq<nat>, seg: seq<nat>)
    requires Describes(g, entries, p) && Describes(g, entries, cur) && Describes(g, entries, seg) &&
             SetOf(seg) !! SetOf(cur)
    ensures Describes(g, Merged(entries, Tail(p), Tail(cur)), seg)
  {
    hide SegRate, FeeFrac.Plus, Deps;
    var entries' := Merged(entries, Tail(p), Tail(cur));
    assert cur[0] in SetOf(cur) && cur[|cur| - 1] in SetOf(cur);
    forall k | 0 <= k < |seg| ensures entries'[seg[k] + 1] == entries[seg[k] + 1] {
      assert seg[k] in SetOf(seg);
    }
    DescribesFrame(g, entries, entries', seg);
  }

  /** Swapping keeps the links in order. */
  lemma HoldsSwap(g: Graph, entries: seq<TxEntry>, before: seq<seq<nat>>, cur: seq<nat>, after: seq<seq<nat>>)
    requires before != [] && Holds(g, entries, before + [cur] + after) && Distinct(Flatten(before + [cur] + after))
    ensures var n := |before| - 1;
            && before[n] != [] && cur != [] && NonEmpty(after)
            && var next := NextOf(Tails(after));
            && next < |entries| && Tail(before[n]) < |entries| && Tail(cur) < |entries|
            && Holds(g, Swapped(entries, next, Tail(before[n]), Tail(cur)), before[..n] + [cur] + ([before[n]] + after))
  {
    hide SegRate, FeeFrac.Plus, Deps, Flatten, Distinct, Chained;
    var n := |before| - 1;
    var f, p, all := before[..n], before[n], before + [cur] + after;
    TailsThree(before, cur, after);
    TailsSwapped(f, p, cur, after);
    TailsDistinct(all);
    ChainSwap(entries, Tails(f), Tail(p), Tail(cur), Tails(after));
    var next := NextOf(Tails(after));
    var entries', groups' := Swapped(entries, next, Tail(p), Tail(cur)), f + [cur] + ([p] + after);
    assert entries'[SENTINEL].feerate == EMPTY;
    forall i | 0 <= i < |groups'| ensures Describes(g, entries', groups'[i]) {
      var j := if i == n then n + 1 else if i == n + 1 then n else i;
      assert groups'[i] == all[j];
      assert Describes(g, entries, all[j]);
      SwapUntouched(g, entries, next, Tail(p), Tail(cur), all[j]);
    }
  }

  lemma SwapUntouched(g: Graph, entries: seq<TxEntry>, next: nat, p: nat, c: nat, seg: seq<nat>)
    requires Describes(g, entries, seg) && next < |entries| && p < |entries| && c < |entries|
    ensures Describes(g, Swapped(entries, next, p, c), seg)
  {
    hide SegRate, Deps;
    DescribesFrame(g, entries, Swapped(entries, next, p, c), seg);
  }

  // ----- One transaction of a pass -----

  /** The graph as seen by a pass: reversed in even passes. */
  function View(g: Graph, rev: bool): Graph {
    if rev then Reversed(g) else g
  }

  /** The groups described before, current and after, with no transaction twice. */
  ghost predicate Around(g: Graph, entries: seq<TxEntry>, before: seq<seq<nat>>, cur: seq<nat>, after: seq<seq<nat>>) {
    Holds(g, entries, before + [cur] + after) && Distinct(Flatten(before + [cur] + after))
  }

  /** What is stored about the current group and the one before it. */
  lemma AroundFacts(g: Graph, entries: seq<TxEntry>, before: seq<seq<nat>>, cur: seq<nat>, after: seq<seq<nat>>)
    requires Around(g, entries, before, cur, after)
    ensures NonEmpty(before) && NonEmpty(after) && cur != []
    ensures Tail(cur) < |entries| && PrevOf(Tails(before), |before|) < |entries| && NextOf(Tails(after)) < |entries|
    ensures entries[Tail(cur)].prevGroup == PrevOf(Tails(before), |before|)
    ensures entries[NextOf(Tails(after))].prevGroup == Tail(cur)
    ensures entries[Tail(cur)].feerate == SegRate(g, cur) && entries[Tail(cur)].deps == Deps(g, cur)
    ensures entries[Tail(cur)].firstTx < |entries|
    ensures before == [] ==> entries[PrevOf(Tails(before), |before|)].feerate == EMPTY
    ensures before != [] ==>
              var p := before[|before| - 1];
              && PrevOf(Tails(before), |before|) == Tail(p) && Tail(p) != SENTINEL
              && entries[Tail(p)].feerate == SegRate(g, p) && entries[Tail(p)].group == SetOf(p)
  {
    hide SegRate, Deps, Flatten, Distinct, SetOf, Chained, Describes;
    var all, n := before + [cur] + after, |before|;
    PartsNonEmpty(before, cur, after);
    ChainAround(entries, before, cur, after);
    assert all[n] == cur;
    assert Describes(g, entries, all[n]);
    DescribesFacts(g, entries, cur);
    if n > 0 {
      assert all[n - 1] == before[n - 1];
      assert Describes(g, entries, all[n - 1]);
      DescribesFacts(g, entries, before[n - 1]);
    }
  }

  lemma PartsNonEmpty(before: seq<seq<nat>>, cur: seq<nat>, after: seq<seq<nat>>)
    requires NonEmpty(before + [cur] + after)
    ensures NonEmpty(before) && NonEmpty(after) && cur != []
  {
    var all, n := before + [cur] + after, |before|;
    assert all[n] == cur;
    forall i | 0 <= i < n ensures before[i] != [] { assert all[i] == before[i]; }
    forall i | 0 <= i < |after| ensures after[i] != [] { assert all[n + 1 + i] == after[i]; }
  }

  lemma DescribesFacts(g: Graph, entries: seq<TxEntry>, seg: seq<nat>)
    requires Describes(g, entries, seg)
    ensures seg != [] && Tail(seg) < |entries| && entries[Tail(seg)].feerate == SegRate(g, seg) &&
            entries[Tail(seg)].deps == Deps(g, seg)
    ensures entries[Tail(seg)].group == SetOf(seg) && entries[Tail(seg)].firstTx < |entries|
  {
    hide SegRate, Deps;
    assert seg[0] + 1 < |entries|;
  }

  lemma TailsAround(before: seq<seq<nat>>, cur: seq<nat>, after: seq<seq<nat>>)
    requires NonEmpty(before + [cur] + after) && NonEmpty(before) && NonEmpty(after) && cur != []
    ensures Tails(before + [cur] + after) == Tails(before) + [Tail(cur)] + Tails(after)
  {
    hide Tail;
  }

  /** The links into and out of one element of a chain. */
  lemma ChainLinks(entries: seq<TxEntry>, before: seq<nat>, c: nat, after: seq<nat>)
    requires Chained(entries, before + [c] + after)
    ensures c < |entries| && PrevOf(before, |before|) < |entries| && NextOf(after) < |entries|
    ensures entries[c].prevGroup == PrevOf(before, |before|)
    ensures entries[NextOf(after)].prevGroup == c
  {
    var ts, n := before + [c] + after, |before|;
    assert ts[n] == c && PrevOf(ts, n) == PrevOf(before, n);
    if n > 0 { assert ts[n - 1] == before[n - 1]; }
    if after != [] { assert ts[n + 1] == after[0] && PrevOf(ts, n + 1) == c; }
  }

  lemma ChainAround(entries: seq<TxEntry>, before: seq<seq<nat>>, cur: seq<nat>, after: seq<seq<nat>>)
    requires NonEmpty(before + [cur] + after) && NonEmpty(before) && NonEmpty(after) && cur != []
    requires Chained(entries, Tails(before + [cur] + after))
    ensures Tail(cur) < |entries| && PrevOf(Tails(before), |before|) < |entries| && NextOf(Tails(after)) < |entries|
    ensures entries[Tail(cur)].prevGroup == PrevOf(Tails(before), |before|)
    ensures entries[NextOf(Tails(after))].prevGroup == Tail(cur)
    ensures before == [] ==> PrevOf(Tails(before), |before|) == SENTINEL
    ensures before != [] ==> PrevOf(Tails(before), |before|) == Tail(before[|before| - 1])
  {
    hide Chained, Tail, NextOf;
    TailsAround(before, cur, after);
    ChainLinks(entries, Tails(before), Tail(cur), Tails(after));
  }

  lemma AroundMerge(g: Graph, entries: seq<TxEntry>, before: seq<seq<nat>>, cur: seq<nat>, after: seq<seq<nat>>)
    requires before != [] && Around(g, entries, before, cur, after)
    ensures var n := |before| - 1;
            && before[n] != [] && cur != [] && Tail(before[n]) < |entries| && Tail(cur) < |entries|
            && entries[Tail(cur)].firstTx < |entries|
            && Around(g, Merged(entries, Tail(before[n]), Tail(cur)), before[..n], before[n] + cur, after)
            && Tail(before[n] + cur) == Tail(cur)
  {
    hide Holds, Distinct, Merged, Flatten;
    var n := |before| - 1;
    HoldsMerge(g, entries, before, cur, after);
    FlattenThree(before, cur, after);
    FlattenThree(before[..n], before[n] + cur, after);
    FlattenLast(before);
    assert Flatten(before[..n]) + before[n] + cur == Flatten(before[..n]) + (before[n] + cur);
    TailJoin(before[n], cur);
  }

  lemma TailJoin(p: seq<nat>, c: seq<nat>)
    requires c != []
    ensures p + c != [] && Tail(p + c) == Tail(c)
  {
  }

  lemma AroundSwap(g: Graph, entries: seq<TxEntry>, before: seq<seq<nat>>, cur: seq<nat>, after: seq<seq<nat>>)
    requires before != [] && Around(g, entries, before, cur, after)
    ensures var n := |before| - 1;
            && before[n] != [] && cur != [] && NonEmpty(after)
            && var next := NextOf(Tails(after));
            && next < |entries| && Tail(before[n]) < |entries| && Tail(cur) < |entries|
            && Around(g, Swapped(entries, next, Tail(before[n]), Tail(cur)), before[..n], cur, [before[n]] + after)
  {
    hide Holds, Swapped, Flatten;
    var n := |before| - 1;
    HoldsSwap(g, entries, before, cur, after);
    FlattenThree(before, cur, after);
    FlattenThree(before[..n], cur, [before[n]] + after);
    FlattenLast(before);
    FlattenConcat([before[n]], after);
    FlattenOne(before[n]);
    SwapDistinct(Flatten(before[..n]), before[n], cur, Flatten(after));
  }

  lemma SwapDistinct(f: seq<nat>, p: seq<nat>, c: seq<nat>, a: seq<nat>)
    requires Distinct(f + p + c + a)
    ensures Distinct(f + c + (p + a))
  {
    hide Distinct;
    DistinctConcat(f + p + c, a);
    DistinctConcat(f + p, c);
    DistinctConcat(f, p);
    SetOfConcat(f + p, c);
    SetOfConcat(f, p);
    DistinctConcat(f, c);
    DistinctConcat(p, a);
    SetOfConcat(f, c);
    SetOfConcat(p, a);
    DistinctConcat(f + c, p + a);
  }

  /** A new group at the back. */
  lemma AroundAppend(g: Graph, entries: seq<TxEntry>, groups: seq<seq<nat>>, idx: nat, e: TxEntry)
    requires Holds(g, entries, groups) && Distinct(Flatten(groups) + [idx]) && idx < |g.entries|
    requires e == TxEntry(NO_PREV_TX, idx + 1, entries[SENTINEL].prevGroup, {idx}, g.Anc(idx), g.Rate(idx))
    ensures Around(g, entries[idx + 1 := e][SENTINEL := entries[SENTINEL].(prevGroup := idx + 1)], groups, [idx], [])
  {
    hide Flatten, SegRate, Distinct, SetOf, Chained;
    var entries' := entries[idx + 1 := e][SENTINEL := entries[SENTINEL].(prevGroup := idx + 1)];
    var groups' := groups + [[idx]] + [];
    assert groups' == groups + [[idx]];
    FlattenConcat(groups, [[idx]]);
    FlattenOne([idx]);
    OneGroup(g, entries', idx);
    OthersApart(groups, [idx], []);
    OneMember(idx);
    forall i | 0 <= i < |groups| ensures Describes(g, entries', groups[i]) && groups[i] != [] {
      NewUntouched(g, entries, entries', groups[i], idx);
    }
    TailsDistinct(groups');
    TailsAppended(groups, idx);
    ChainAppend(entries, Tails(groups), idx + 1, e);
  }

  lemma OneMember(idx: nat)
    ensures idx in SetOf([idx])
  {
  }

  lemma TailsAppended(groups: seq<seq<nat>>, idx: nat)
    requires NonEmpty(groups) && Distinct(Tails(groups + [[idx]]))
    ensures NonEmpty(groups + [[idx]]) && Tails(groups + [[idx]]) == Tails(groups) + [idx + 1]
    ensures idx + 1 !in Tails(groups)
  {
    var ts := Tails(groups + [[idx]]);
    assert ts == Tails(groups) + [idx + 1];
    forall i | 0 <= i < |groups| ensures Tails(groups)[i] != idx + 1 {
      assert ts[i] != ts[|groups|];
    }
  }

  lemma NewUntouched(g: Graph, entries: seq<TxEntry>, entries': seq<TxEntry>, seg: seq<nat>, idx: nat)
    requires Describes(g, entries, seg) && idx !in SetOf(seg) && |entries'| == |entries|
    requires forall k :: 0 < k < |entries| && k != idx + 1 ==> entries'[k] == entries[k]
    ensures Describes(g, entries', seg)
  {
    hide SegRate, Deps;
    forall k | 0 <= k < |seg| ensures entries'[seg[k] + 1] == entries[seg[k] + 1] {
      assert seg[k] in SetOf(seg);
    }
    DescribesFrame(g, entries, entries', seg);
  }

  lemma OneGroup(g: Graph, entries: seq<TxEntry>, idx: nat)
    requires idx + 1 < |entries|
    requires var e := entries[idx + 1];
             e.prevTx == NO_PREV_TX && e.firstTx == idx + 1 && e.group == {idx} && e.deps == g.Anc(idx) &&
             e.feerate == g.Rate(idx)
    ensures Describes(g, entries, [idx])
  {
    hide SegRate, Deps, SetOf, Graph.Rate, Graph.Anc;
    SegRateOne(g, idx);
    SingleSets(g, idx);
  }

  lemma SingleSets(g: Graph, idx: nat)
    ensures SetOf([idx]) == {idx} && Deps(g, [idx]) == g.Anc(idx)
  {
  }

  lemma NothingAboveEmpty(a: FeeFrac)
    ensures !Higher(a, EMPTY)
  {
  }

  lemma HoldsIs(g: Graph, entries: seq<TxEntry>, before: seq<seq<nat>>, cur: seq<nat>, after: seq<seq<nat>>)
    requires Around(g, entries, before, cur, after)
    ensures Holds(g, entries, before + [cur] + after)
  {
  }

  /** Insert a transaction as a new last group, then merge or swap it forward. */
  method AddTransaction(g: Graph, rev: bool, entries0: seq<TxEntry>, idx: nat, ghost groups: seq<seq<nat>>)
    returns (entries: seq<TxEntry>)
    requires idx < |g.entries|
    requires Holds(View(g, rev), entries0, groups) && Distinct(Flatten(groups) + [idx])
    ensures Holds(View(g, rev), entries, Settle(View(g, rev), groups, [idx], []))
  {
    ghost var v := View(g, rev);
    entries := entries0;
    assert |entries| == |g.entries| + 1;
    var curGroup := idx + 1;
    var deps := if rev then g.Desc(idx) else g.Anc(idx);
    var feerate := if rev then g.Rate(idx).Negated() else g.Rate(idx);
    ViewFacts(g, rev, idx);
    hide *;
    AroundAppend(v, entries, groups, idx, TxEntry(NO_PREV_TX, idx + 1, entries[SENTINEL].prevGroup, {idx}, v.Anc(idx),
                                                  v.Rate(idx)));
    entries := entries[curGroup := TxEntry(NO_PREV_TX, curGroup, entries[SENTINEL].prevGroup, {idx}, deps, feerate)];
    entries := entries[SENTINEL := entries0[SENTINEL].(prevGroup := curGroup)];
    entries := SettleEntries(v, entries, curGroup, groups, idx);
  }

  /** Merge or swap the last group forward while it has higher feerate than the one before it. */
  method SettleEntries(ghost v: Graph, entries0: seq<TxEntry>, curGroup: nat, ghost groups: seq<seq<nat>>,
                       ghost idx: nat)
    returns (entries: seq<TxEntry>)
    requires Around(v, entries0, groups, [idx], []) && curGroup == idx + 1
    ensures Holds(v, entries, Settle(v, groups, [idx], []))
  {
    hide *;
    entries := entries0;
    ghost var before, cur, after: seq<seq<nat>> := groups, [idx], [];
    AroundFacts(v, entries, before, cur, after);
    SingleTail(idx);
    NoTails(after);
    var nextGroup := SENTINEL;
    var prevGroup := entries[curGroup].prevGroup;
    while Higher(entries[curGroup].feerate, entries[prevGroup].feerate)
      invariant Around(v, entries, before, cur, after) && NonEmpty(before) && NonEmpty(after) && cur != []
      invariant curGroup < |entries| && prevGroup < |entries| && nextGroup < |entries|
      invariant curGroup == Tail(cur) && prevGroup == PrevOf(Tails(before), |before|) &&
                nextGroup == NextOf(Tails(after))
      invariant Settle(v, before, cur, after) == Settle(v, groups, [idx], [])
      decreases |before|
    {
      AroundFacts(v, entries, before, cur, after);
      NothingAboveEmpty(entries[curGroup].feerate);
      ghost var n := |before| - 1;
      SettleUnfolds(v, before, cur, after);
      DependsIs(v, cur, before[n]);
      if entries[curGroup].deps * entries[prevGroup].group != {} {
        AroundMerge(v, entries, before, cur, after);
        entries := MergeEntries(entries, prevGroup, curGroup);
        before, cur := before[..n], before[n] + cur;
      } else {
        AroundSwap(v, entries, before, cur, after);
        entries := SwapEntries(entries, nextGroup, prevGroup, curGroup);
        nextGroup := prevGroup;
        FirstTail(before[n], after);
        before, after := before[..n], [before[n]] + after;
      }
      AroundFacts(v, entries, before, cur, after);
      prevGroup := entries[curGroup].prevGroup;
    }
    AroundFacts(v, entries, before, cur, after);
    SettleEnds(v, before, cur, after);
    HoldsIs(v, entries, before, cur, after);
  }

  /** The updates of a merge, in the source's order. */
  method MergeEntries(entries0: seq<TxEntry>, prevGroup: nat, curGroup: nat) returns (entries: seq<TxEntry>)
    requires prevGroup < |entries0| && curGroup < |entries0| && entries0[curGroup].firstTx < |entries0|
    ensures entries == Merged(entries0, prevGroup, curGroup) && |entries| == |entries0|
  {
    entries := entries0;
    var joined := entries[curGroup].feerate.Plus(entries[prevGroup].feerate);
    entries := entries[curGroup := entries[curGroup].(group := entries[curGroup].group + entries[prevGroup].group,
                                                      deps := entries[curGroup].deps + entries[prevGroup].deps,
                                                      feerate := joined)];
    var first := entries[curGroup].firstTx;
    entries := entries[first := entries[first].(prevTx := prevGroup)];
    entries := entries[curGroup := entries[curGroup].(firstTx := entries[prevGroup].firstTx,
                                                      prevGroup := entries[prevGroup].prevGroup)];
  }

  /** The updates of a swap, in the source's order. */
  method SwapEntries(entries0: seq<TxEntry>, nextGroup: nat, prevGroup: nat, curGroup: nat)
    returns (entries: seq<TxEntry>)
    requires nextGroup < |entries0| && prevGroup < |entries0| && curGroup < |entries0|
    ensures entries == Swapped(entries0, nextGroup, prevGroup, curGroup) && |entries| == |entries0|
  {
    entries := entries0;
    var preprevGroup := entries[prevGroup].prevGroup;
    entries := entries[nextGroup := entries[nextGroup].(prevGroup := prevGroup)];
    entries := entries[prevGroup := entries[prevGroup].(prevGroup := curGroup)];
    entries := entries[curGroup := entries[curGroup].(prevGroup := preprevGroup)];
  }

  lemma ViewFacts(g: Graph, rev: bool, idx: nat)
    requires idx < |g.entries|
    ensures |View(g, rev).entries| == |g.entries|
    ensures View(g, rev).Anc(idx) == (if rev then g.Desc(idx) else g.Anc(idx))
    ensures View(g, rev).Rate(idx) == (if rev then g.Rate(idx).Negated() else g.Rate(idx))
  {
    ReversedFacts(g);
  }

  lemma SingleTail(idx: nat)
    ensures Tail([idx]) == idx + 1
  {
  }

  lemma NoTails(after: seq<seq<nat>>)
    requires after == []
    ensures NonEmpty(after) && NextOf(Tails(after)) == SENTINEL
  {
  }

  lemma FirstTail(p: seq<nat>, after: seq<seq<nat>>)
    requires p != [] && NonEmpty(after)
    ensures NonEmpty([p] + after) && NextOf(Tails([p] + after)) == Tail(p)
  {
  }

  lemma DependsIs(g: Graph, cur: seq<nat>, p: seq<nat>)
    ensures DependsOn(g, cur, p) <==> Deps(g, cur) * SetOf(p) != {}
  {
  }

  lemma SettleUnfolds(g: Graph, before: seq<seq<nat>>, cur: seq<nat>, after: seq<seq<nat>>)
    requires before != [] && Higher(SegRate(g, cur), SegRate(g, before[|before| - 1]))
    ensures var n := |before| - 1;
            Settle(g, before, cur, after) ==
              if DependsOn(g, cur, before[n]) then Settle(g, before[..n], before[n] + cur, after)
              else Settle(g, before[..n], cur, [before[n]] + after)
  {
  }

  lemma SettleEnds(g: Graph, before: seq<seq<nat>>, cur: seq<nat>, after: seq<seq<nat>>)
    requires before == [] || !Higher(SegRate(g, cur), SegRate(g, before[|before| - 1]))
    ensures Settle(g, before, cur, after) == before + [cur] + after
  {
  }

  // ----- Writing the groups back -----

  /** Where a transaction of a group stands in the order. */
  lemma FlatIndex(groups: seq<seq<nat>>, i: nat, k: nat)
    requires i < |groups| && k < |groups[i]|
    ensures |Flatten(groups[..i + 1])| == |Flatten(groups[..i])| + |groups[i]| <= |Flatten(groups)|
    ensures Flatten(groups)[|Flatten(groups[..i])| + k] == groups[i][k]
  {
    FlattenAround(groups, i);
    assert groups[..i + 1][..i] == groups[..i];
    FlattenLast(groups[..i + 1]);
  }

  /** The part of `lin` written so far: all but the first `left` transactions of `flat`. */
  ghost predicate Written(lin: seq<nat>, flat: seq<nat>, rev: bool, left: nat) {
    && |lin| == |flat| && left <= |flat|
    && (rev ==> forall x :: left <= x < |flat| ==> lin[|flat| - 1 - x] == flat[x])
    && (!rev ==> forall x :: left <= x < |flat| ==> lin[x] == flat[x])
  }

  lemma AllWritten(lin: seq<nat>, flat: seq<nat>, rev: bool)
    requires Written(lin, flat, rev, 0)
    ensures lin == if rev then Reverse(flat) else flat
  {
    if rev {
      var r := Reverse(flat);
      forall i | 0 <= i < |lin| ensures lin[i] == r[i] {
        var x := |flat| - 1 - i;
        assert lin[|flat| - 1 - x] == flat[x];
      }
    }
  }

  lemma WriteOne(lin: seq<nat>, flat: seq<nat>, rev: bool, left: nat)
    requires Written(lin, flat, rev, left) && left > 0
    ensures rev ==> Written(lin[|flat| - left := flat[left - 1]], flat, rev, left - 1)
    ensures !rev ==> Written(lin[left - 1 := flat[left - 1]], flat, rev, left - 1)
  {
    if rev {
      var lin' := lin[|flat| - left := flat[left - 1]];
      forall x | left - 1 <= x < |flat| ensures lin'[|flat| - 1 - x] == flat[x] {
        if x >= left { assert lin[|flat| - 1 - x] == flat[x]; }
      }
    }
  }

  /** A group's transactions, from back to front. */
  lemma StepBack(g: Graph, entries: seq<TxEntry>, seg: seq<nat>, k: nat)
    requires Describes(g, entries, seg) && k < |seg|
    ensures seg[k] + 1 < |entries| && entries[seg[k] + 1].prevTx == if k == 0 then NO_PREV_TX else seg[k - 1] + 1
    ensures entries[seg[k] + 1].prevTx == NO_PREV_TX <==> k == 0
  {
    hide SegRate, Deps;
  }

  lemma GroupAt(g: Graph, entries: seq<TxEntry>, groups: seq<seq<nat>>, i: nat)
    requires Holds(g, entries, groups) && i < |groups|
    ensures groups[i] != [] && Describes(g, entries, groups[i]) && Tail(groups[i]) < |entries|
    ensures NonEmpty(groups) && entries[Tail(groups[i])].prevGroup == PrevOf(Tails(groups), i)
  {
    hide SegRate, Deps;
    assert Tails(groups)[i] == Tail(groups[i]);
  }

  lemma LastGroup(g: Graph, entries: seq<TxEntry>, groups: seq<seq<nat>>)
    requires Holds(g, entries, groups)
    ensures NonEmpty(groups) && SENTINEL < |entries| && entries[SENTINEL].prevGroup == PrevOf(Tails(groups), |groups|)
  {
    hide SegRate, Deps;
  }

  lemma PrevIs(groups: seq<seq<nat>>, i: nat)
    requires NonEmpty(groups) && i <= |groups|
    ensures PrevOf(Tails(groups), i) == if i == 0 then SENTINEL else Tail(groups[i - 1])
    ensures i > 0 ==> PrevOf(Tails(groups), i) != SENTINEL
  {
  }

  /** One group's transactions, written from its back. */
  method WriteGroup(ghost g: Graph, entries: seq<TxEntry>, ghost groups: seq<seq<nat>>, ghost i: nat, curGroup: nat,
                    rev: bool,
                    lin: array<nat>, done: nat)
    returns (done': nat)
    requires Holds(g, entries, groups) && i < |groups| && groups[i] != [] && curGroup == Tail(groups[i])
    requires Written(lin[..], Flatten(groups), rev, |Flatten(groups[..i + 1])|)
    requires done == lin.Length - |Flatten(groups[..i + 1])|
    modifies lin
    ensures Written(lin[..], Flatten(groups), rev, |Flatten(groups[..i])|) &&
            done' == lin.Length - |Flatten(groups[..i])|
  {
    hide *;
    ghost var seg, flat, start := groups[i], Flatten(groups), |Flatten(groups[..i])|;
    GroupAt(g, entries, groups, i);
    done' := done;
    var curTx := curGroup;
    ghost var k := |seg| - 1;
    FlatIndex(groups, i, k);
    WrittenLength(lin[..], flat, rev, start + k + 1);
    TailIs(seg);
    while true
      invariant 0 <= k < |seg| && curTx == seg[k] + 1 && lin.Length == |flat| && start + |seg| <= |flat|
      invariant Written(lin[..], flat, rev, start + k + 1) && done' == |flat| - (start + k + 1)
      decreases k
    {
      FlatIndex(groups, i, k);
      StepBack(g, entries, seg, k);
      WriteOne(lin[..], flat, rev, start + k + 1);
      if rev {
        lin[done'] := curTx - 1;
        done' := done' + 1;
      } else {
        done' := done' + 1;
        lin[lin.Length - done'] := curTx - 1;
      }
      curTx := entries[curTx].prevTx;
      if curTx == NO_PREV_TX {
        break;
      }
      k := k - 1;
    }
  }

  lemma WrittenLength(lin: seq<nat>, flat: seq<nat>, rev: bool, left: nat)
    requires Written(lin, flat, rev, left)
    ensures |lin| == |flat| && left <= |flat|
  {
  }

  lemma TailIs(seg: seq<nat>)
    requires seg != []
    ensures Tail(seg) == seg[|seg| - 1] + 1
  {
  }

  lemma NothingWritten(lin: seq<nat>, groups: seq<seq<nat>>, rev: bool)
    requires |lin| == |Flatten(groups)|
    ensures groups[..|groups|] == groups && Written(lin, Flatten(groups), rev, |Flatten(groups)|)
    ensures groups[..0] == [] && |Flatten(groups[..0])| == 0
  {
  }

  /** Convert the entries back to a linearization, overwriting the existing one. */
  method WriteBack(ghost g: Graph, entries: seq<TxEntry>, ghost groups: seq<seq<nat>>, rev: bool, lin: array<nat>)
    requires Holds(g, entries, groups) && lin.Length == |Flatten(groups)|
    modifies lin
    ensures lin[..] == if rev then Reverse(Flatten(groups)) else Flatten(groups)
  {
    hide *;
    LastGroup(g, entries, groups);
    NothingWritten(lin[..], groups, rev);
    var curGroup := entries[SENTINEL].prevGroup;
    var done := 0;
    ghost var i := |groups|;
    while curGroup != SENTINEL
      invariant 0 <= i <= |groups| && curGroup == PrevOf(Tails(groups), i)
      invariant Written(lin[..], Flatten(groups), rev, |Flatten(groups[..i])|) &&
                done == lin.Length - |Flatten(groups[..i])|
      decreases i
    {
      PrevIs(groups, i);
      i := i - 1;
      GroupAt(g, entries, groups, i);
      done := WriteGroup(g, entries, groups, i, curGroup, rev, lin, done);
      curGroup := entries[curGroup].prevGroup;
    }
    PrevIs(groups, i);
    AllWritten(lin[..], Flatten(groups), rev);
  }

  // ----- The passes -----

  lemma HoldsNothing(g: Graph, entries: seq<TxEntry>)
    requires |entries| == |g.entries| + 1 && entries[SENTINEL].feerate == EMPTY &&
             entries[SENTINEL].prevGroup == SENTINEL
    ensures Holds(g, entries, [])
  {
  }

  lemma HoldsSize(g: Graph, entries: seq<TxEntry>, groups: seq<seq<nat>>)
    requires Holds(g, entries, groups)
    ensures |entries| == |g.entries| + 1 && SENTINEL < |entries| && entries[SENTINEL].feerate == EMPTY
  {
  }

  /** Each transaction in turn, in the direction of the pass. */
  method BuildGroups(g: Graph, rev: bool, entries0: seq<TxEntry>, lin: array<nat>, ghost items: seq<nat>)
    returns (entries: seq<TxEntry>)
    requires SetOf(lin[..]) == g.used && g.Valid() && items == InOrder(rev, lin[..])
    requires Holds(View(g, rev), entries0, []) && Proper(View(g, rev), items) && View(g, rev).Topological(items)
    ensures Holds(View(g, rev), entries, PassGroups(View(g, rev), items))
  {
    hide *;
    ghost var v := View(g, rev);
    entries := entries0;
    PassOfNothing(v);
    OrderLength(rev, lin[..]);
    assert items[..0] == [];
    for i := 0 to lin.Length
      invariant Holds(v, entries, PassGroups(v, items[..i]))
    {
      var idx := lin[if rev then lin.Length - 1 - i else i];
      ItemAt(g, rev, lin[..], i);
      PassStep(g, rev, items, i);
      entries := AddTransaction(g, rev, entries, idx, PassGroups(v, items[..i]));
    }
    assert items[..lin.Length] == items;
  }

  /** A linearization in the order in which a pass goes through it. */
  function InOrder(rev: bool, lin: seq<nat>): seq<nat> {
    if rev then Reverse(lin) else lin
  }

  lemma OrderLength(rev: bool, lin: seq<nat>)
    ensures |InOrder(rev, lin)| == |lin|
  {
  }

  /** One pass over the linearization, in place. */
  method RunPass(g: Graph, rev: bool, entries0: seq<TxEntry>, lin: array<nat>) returns (entries: seq<TxEntry>)
    requires g.Cluster() && g.IsLinearization(lin[..])
    requires |entries0| == |g.entries| + 1 && SENTINEL < |entries0| && entries0[SENTINEL].feerate == EMPTY
    modifies lin
    ensures |entries| == |g.entries| + 1 && SENTINEL < |entries| && entries[SENTINEL].feerate == EMPTY
    ensures lin[..] == if rev then BackwardPass(g, old(lin[..])) else Pass(g, old(lin[..]))
  {
    entries := entries0[SENTINEL := entries0[SENTINEL].(prevGroup := SENTINEL)];
    assert SENTINEL < |entries|;
    hide *;
    ghost var v, before := View(g, rev), lin[..];
    ghost var items := InOrder(rev, before);
    ViewItems(g, rev, before);
    HoldsNothing(v, entries);
    entries := BuildGroups(g, rev, entries, lin, items);
    HoldsSize(v, entries, PassGroups(v, items));
    PassLength(g, rev, items);
    OrderLength(rev, before);
    WriteBack(v, entries, PassGroups(v, items), rev, lin);
    PassIs(g, rev, before);
  }

  lemma ViewItems(g: Graph, rev: bool, lin: seq<nat>)
    requires g.Cluster() && g.IsLinearization(lin)
    ensures var v, items := View(g, rev), InOrder(rev, lin);
            |v.entries| == |g.entries| && Proper(v, items) && v.Topological(items)
    ensures SetOf(lin) == g.used && g.Valid()
  {
    hide Reversed, Reverse, Proper, Graph.Topological;
    ReversedFacts(g);
    BackwardSetup(g, lin);
    ClusterProper(g, lin);
  }

  lemma PassOfNothing(v: Graph)
    ensures PassGroups(v, []) == []
  {
  }

  lemma ItemAt(g: Graph, rev: bool, lin: seq<nat>, i: nat)
    requires i < |lin| && g.Valid() && SetOf(lin) == g.used
    ensures i < |InOrder(rev, lin)| && InOrder(rev, lin)[i] == lin[if rev then |lin| - 1 - i else i]
    ensures InOrder(rev, lin)[i] < |g.entries|
  {
    var k := if rev then |lin| - 1 - i else i;
    UsedBelow(g, lin, k);
  }

  lemma UsedBelow(g: Graph, lin: seq<nat>, k: nat)
    requires k < |lin| && g.Valid() && SetOf(lin) == g.used
    ensures lin[k] < |g.entries|
  {
    assert lin[k] in SetOf(lin);
  }

  lemma PassStep(g: Graph, rev: bool, items: seq<nat>, i: nat)
    requires i < |items| && Proper(View(g, rev), items) && View(g, rev).Topological(items)
    ensures var v := View(g, rev);
            && Distinct(Flatten(PassGroups(v, items[..i])) + [items[i]])
            && PassGroups(v, items[..i + 1]) == Settle(v, PassGroups(v, items[..i]), [items[i]], [])
  {
    hide View, Graph.Valid, Graph.PositiveSizes, Settle, Groups, SegRate;
    var v, front := View(g, rev), items[..i];
    assert items == front + items[i..];
    ProperParts(v, front, items[i..]);
    TopologicalConcat(v, front, items[i..]);
    PassRegroups(v, front);
    var flat := Flatten(PassGroups(v, front));
    TopologicalDistinct(v, flat);
    assert items[i] == items[i..][0] && items[i] in SetOf(items[i..]);
    assert SetOf([items[i]]) == {items[i]};
    DistinctConcat(flat, [items[i]]);
    assert items[..i + 1][..i] == front && items[..i + 1][i] == items[i];
  }

  lemma PassLength(g: Graph, rev: bool, items: seq<nat>)
    requires Proper(View(g, rev), items) && View(g, rev).Topological(items)
    ensures |Flatten(PassGroups(View(g, rev), items))| == |items|
  {
    hide View, Graph.Valid, Graph.PositiveSizes, PassGroups, Groups, SegRate;
    var v := View(g, rev);
    PassRegroups(v, items);
    var flat := Flatten(PassGroups(v, items));
    TopologicalDistinct(v, flat);
    DistinctCount(flat);
    DistinctCount(items);
  }

  lemma PassIs(g: Graph, rev: bool, lin: seq<nat>)
    ensures var flat := Flatten(PassGroups(View(g, rev), InOrder(rev, lin)));
            (if rev then Reverse(flat) else flat) == if rev then BackwardPass(g, lin) else Pass(g, lin)
  {
    hide PassGroups, Flatten, Reverse;
  }

  /** Improve a linearization in place: one backward and one forward pass. */
  method PostLinearize(g: Graph, linearization: array<nat>)
    requires g.Cluster() && g.IsLinearization(linearization[..])
    modifies linearization
    ensures linearization[..] == PostLinearized(g, old(linearization[..]))
    ensures g.IsLinearization(linearization[..]) && AtLeastAsGood(g, linearization[..], old(linearization[..]))
  {
    var entries := seq(|g.entries| + 1, _ => TxEntry(0, 0, 0, {}, {}, EMPTY));
    assert entries[SENTINEL].feerate == EMPTY;
    ghost var lin := linearization[..];
    assert AfterPasses(g, lin, 0) == lin;
    assert AfterPasses(g, lin, 2) == PostLinearized(g, lin);
    hide *;
    for pass := 0 to 2
      invariant |entries| == |g.entries| + 1 && SENTINEL < |entries| && entries[SENTINEL].feerate == EMPTY
      invariant g.IsLinearization(linearization[..]) && linearization[..] == AfterPasses(g, lin, pass)
    {
      var rev := pass % 2 == 0;
      entries := RunPass(g, rev, entries, linearization);
      PassOf(g, lin, pass);
    }
    PostImproves(g, lin);
  }

  /** The linearization after so many passes. */
  ghost function AfterPasses(g: Graph, lin: seq<nat>, passes: nat): seq<nat> {
    if passes == 0 then lin else if passes == 1 then BackwardPass(g, lin) else Pass(g, BackwardPass(g, lin))
  }

  lemma PassOf(g: Graph, lin: seq<nat>, pass: nat)
    requires pass < 2 && g.Cluster() && g.IsLinearization(lin)
    ensures AfterPasses(g, lin, pass + 1) ==
              if pass % 2 == 0 then BackwardPass(g, AfterPasses(g, lin, pass)) else Pass(g, AfterPasses(g, lin, pass))
    ensures g.IsLinearization(AfterPasses(g, lin, pass + 1))
  {
    hide BackwardPass, Pass, Graph.Cluster, Graph.IsLinearization;
    BackwardImproves(g, lin);
    PostImproves(g, lin);
  }
}
