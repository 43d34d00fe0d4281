/** `DepGraph::AppendTopo` (`src/cluster_linearize.h:309-323`): a set in a topologically valid order. */
module AppendTopos {
  import opened Sequences
  import opened Graphs

  /** The order by which transactions are sorted: number of ancestors, then position. */
  predicate Earlier(g: Graph, a: nat, b: nat) {
    |g.Anc(a)| < |g.Anc(b)| || (|g.Anc(a)| == |g.Anc(b)| && a < b)
  }

  ghost predicate Sorted(g: Graph, s: seq<nat>) {
    forall i, j :: 0 <= i < j < |s| ==> Earlier(g, s[i], s[j])
  }

  function Insert(g: Graph, s: seq<nat>, x: nat): seq<nat> {
    if s == [] || Earlier(g, x, s[0]) then [x] + s
    else [s[0]] + Insert(g, s[1..], x)
  }

  lemma {:induction false} InsertSorted(g: Graph, s: seq<nat>, x: nat)
    requires Sorted(g, s) && x !in s
    ensures SetOf(Insert(g, s, x)) == SetOf(s) + {x}
    ensures Sorted(g, Insert(g, s, x))
  {
    hide Earlier, Sorted, SetOf;
    if s == [] || Earlier(g, x, s[0]) {
      InsertFirst(g, s, x);
    } else {
      SortedTail(g, s);
      InsertSorted(g, s[1..], x);
      InsertLater(g, s, x, Insert(g, s[1..], x));
    }
  }

  lemma InsertFirst(g: Graph, s: seq<nat>, x: nat)
    requires Sorted(g, s) && (s == [] || Earlier(g, x, s[0]))
    ensures SetOf([x] + s) == SetOf(s) + {x} && Sorted(g, [x] + s)
  {
    SetOfConcat([x], s);
    assert SetOf([x]) == {x};
    forall j | 0 < j < |s| ensures Earlier(g, x, s[j]) {
      assert Earlier(g, s[0], s[j]);
    }
  }

  lemma SortedTail(g: Graph, s: seq<nat>)
    requires s != [] && Sorted(g, s)
    ensures Sorted(g, s[1..])
  {
    hide Earlier;
  }

  lemma InsertLater(g: Graph, s: seq<nat>, x: nat, rest: seq<nat>)
    requires s != [] && Sorted(g, s) && !Earlier(g, x, s[0]) && x != s[0]
    requires SetOf(rest) == SetOf(s[1..]) + {x} && Sorted(g, rest)
    ensures SetOf([s[0]] + rest) == SetOf(s) + {x} && Sorted(g, [s[0]] + rest)
  {
    assert Earlier(g, s[0], x);
    hide Earlier;
    SetOfConcat([s[0]], rest);
    SetOfConcat([s[0]], s[1..]);
    assert s == [s[0]] + s[1..];
    forall j | 0 <= j < |rest| ensures Earlier(g, s[0], rest[j]) {
      assert rest[j] in SetOf(rest);
      if rest[j] != x {
        var k :| 0 <= k < |s[1..]| && s[1..][k] == rest[j];
        assert Earlier(g, s[0], s[k + 1]);
      }
    }
  }

  /** In an acyclic graph a proper ancestor has fewer ancestors, so sorting by their number is topological. */
  lemma SortedTopological(g: Graph, s: seq<nat>)
    requires g.Valid() && g.Acyclic() && SetOf(s) <= g.used && Sorted(g, s)
    ensures g.Topological(s)
  {
    forall i, j | 0 <= i < j < |s| ensures s[i] != s[j] && s[j] !in g.Anc(s[i]) {
      assert Earlier(g, s[i], s[j]);
      assert s[i] in SetOf(s) && s[j] in SetOf(s);
      if s[j] in g.Anc(s[i]) && s[i] != s[j] {
        AncestorsShrink(g, s[j], s[i]);
        assert false;
      }
    }
  }

  lemma SubsetCount(a: set<nat>, b: set<nat>)
    requires a <= b
    ensures |a| <= |b|
    ensures a != b ==> |a| < |b|
  {
    assert b == a + (b - a);
    if a != b {
      assert b - a != {};
    }
  }

  lemma AncestorsShrink(g: Graph, a: nat, b: nat)
    requires g.Valid() && g.Acyclic() && b in g.used && a in g.Anc(b) && a != b
    ensures a in g.used && g.Anc(a) < g.Anc(b) && |g.Anc(a)| < |g.Anc(b)|
  {
    assert g.Anc(a) <= g.Anc(b);
    assert b !in g.Anc(a);
    assert b in g.Anc(b);
    SubsetCount(g.Anc(a), g.Anc(b));
  }

  method AppendTopo(g: Graph, list: seq<nat>, select: set<nat>) returns (r: seq<nat>)
    requires g.Valid() && g.Acyclic() && select <= g.used
    ensures |r| >= |list| && r[..|list|] == list
    ensures SetOf(r[|list|..]) == select && Sorted(g, r[|list|..]) && g.Topological(r[|list|..])
  {
    var tail: seq<nat> := [];
    for i := 0 to |g.entries|
      invariant SetOf(tail) == set x | x in select && x < i
      invariant Sorted(g, tail)
    {
      if i in select {
        assert i !in SetOf(tail);
        InsertSorted(g, tail, i);
        tail := Insert(g, tail, i);
      }
    }
    assert SetOf(tail) == select;
    SortedTopological(g, tail);
    r := list + tail;
    assert r[..|list|] == list && r[|list|..] == tail;
  }
}
