/**
 `FixLinearization` (`src/cluster_linearize.h:1364-1393`): make an order of positions topological by
 moving each position backwards, from the last one to the first, until it follows all its ancestors.
 */
module FixLinearizations {
  import opened Sequences
  import opened Graphs

  /** `elem` put in front of `rest`, or right behind its last ancestor there. */
  function Place(g: Graph, elem: nat, rest: seq<nat>): seq<nat> {
    if SetOf(rest) * g.Anc(elem) == {} || rest == [] then [elem] + rest
    else [rest[0]] + Place(g, elem, rest[1..])
  }

  function Fixed(g: Graph, lin: seq<nat>): seq<nat> {
    if lin == [] then [] else Place(g, lin[0], Fixed(g, lin[1..]))
  }

  /** `x` occurs in `s` and `y` occurs after it. */
  ghost predicate Precedes(s: seq<nat>, x: nat, y: nat) {
    exists i, j :: 0 <= i < j < |s| && s[i] == x && s[j] == y
  }

  /** Placing puts `elem` between two parts of `rest`: a part ending in an ancestor, and a part without any. */
  lemma {:induction false} PlaceSplits(g: Graph, elem: nat, rest: seq<nat>) returns (k: nat)
    ensures k <= |rest| && Place(g, elem, rest) == rest[..k] + [elem] + rest[k..]
    ensures SetOf(rest[k..]) * g.Anc(elem) == {}
    ensures k > 0 ==> rest[k - 1] in g.Anc(elem)
  {
    if SetOf(rest) * g.Anc(elem) == {} || rest == [] {
      k := 0;
      assert rest[0..] == rest;
    } else {
      var r := rest[1..];
      assert rest == [rest[0]] + r;
      var k' := PlaceSplits(g, elem, r);
      k := k' + 1;
      assert rest[k..] == r[k'..] && rest[..k] == [rest[0]] + r[..k'];
      if k' == 0 {
        assert r[0..] == r;
        SetOfConcat([rest[0]], r);
        assert SetOf(r) * g.Anc(elem) == {};
        var x :| x in SetOf(rest) * g.Anc(elem);
        assert x in SetOf(r) ==> x in SetOf(r) * g.Anc(elem);
        assert x in SetOf([rest[0]]);
      }
    }
  }

  lemma PlaceTopological(g: Graph, elem: nat, rest: seq<nat>)
    requires g.Topological(rest) && elem !in rest
    requires g.Valid() && g.Acyclic() && elem in g.used && SetOf(rest) <= g.used
    ensures g.Topological(Place(g, elem, rest)) && SetOf(Place(g, elem, rest)) == {elem} + SetOf(rest)
  {
    hide Place, Graph.Topological;
    var k := PlaceSplits(g, elem, rest);
    var a, b, e := rest[..k], rest[k..], [elem];
    assert rest == a + b;
    TopologicalConcat(g, a, b);
    SetOfConcat(a, b);
    SetOfConcat(a, e);
    SetOfConcat(a + e, b);
    assert SetOf(e) == {elem};
    OneTopological(g, elem);
    NoAncestorBefore(g, elem, a);
    TopologicalConcat(g, a, e);
    TopologicalConcat(g, a + e, b);
  }

  lemma OneTopological(g: Graph, elem: nat)
    ensures g.Topological([elem])
  {
  }

  /** In a topological list ending in an ancestor of `elem`, `elem` is an ancestor of none. */
  lemma NoAncestorBefore(g: Graph, elem: nat, a: seq<nat>)
    requires g.Valid() && g.Acyclic() && elem in g.used && SetOf(a) <= g.used && elem !in a
    requires g.Topological(a) && (a != [] ==> a[|a| - 1] in g.Anc(elem))
    ensures NoBackEdge(g, SetOf(a), {elem})
  {
    forall x | x in SetOf(a) ensures elem !in g.Anc(x) {
      var i :| 0 <= i < |a| && a[i] == x;
      var last := a[|a| - 1];
      assert last in SetOf(a);
      assert elem in g.Anc(x) ==> g.Anc(elem) <= g.Anc(x);
    }
  }

  /** The result is a topological order of the same positions. */
  lemma {:induction false} FixedTopological(g: Graph, lin: seq<nat>)
    requires g.Valid() && g.Acyclic() && Distinct(lin) && SetOf(lin) <= g.used
    ensures g.Topological(Fixed(g, lin)) && SetOf(Fixed(g, lin)) == SetOf(lin)
  {
    hide Place, Graph.Valid, Graph.Acyclic, Graph.Topological, Distinct;
    if lin == [] {
      EmptyTopological(g);
    } else {
      assert lin == [lin[0]] + lin[1..];
      DistinctConcat([lin[0]], lin[1..]);
      SetOfConcat([lin[0]], lin[1..]);
      assert SetOf([lin[0]]) == {lin[0]};
      FixedTopological(g, lin[1..]);
      assert forall x :: x in Fixed(g, lin[1..]) ==> x in SetOf(Fixed(g, lin[1..]));
      PlaceTopological(g, lin[0], Fixed(g, lin[1..]));
    }
  }

  lemma EmptyTopological(g: Graph)
    ensures g.Topological([])
  {
  }

  /** A topological order is left as it is, and nothing else is. */
  lemma {:induction false} FixedUnchanged(g: Graph, lin: seq<nat>)
    requires g.Valid() && g.Acyclic() && Distinct(lin) && SetOf(lin) <= g.used
    ensures Fixed(g, lin) == lin <==> g.Topological(lin)
  {
    FixedTopological(g, lin);
    if g.Topological(lin) {
      KeepsTopological(g, lin);
    }
  }

  lemma {:induction false} KeepsTopological(g: Graph, lin: seq<nat>)
    requires g.Topological(lin)
    ensures Fixed(g, lin) == lin
  {
    if lin != [] {
      var x, rest := [lin[0]], lin[1..];
      assert lin == x + rest;
      TopologicalConcat(g, x, rest);
      KeepsTopological(g, rest);
      assert lin[0] in SetOf(x);
    }
  }

  /**
   The order of two positions is only reversed when it has to make room: if `x` precedes `y` before
   and not after, then an ancestor of `x` other than `x` is `y` or follows `y` in the input.
   */
  lemma {:induction false} FixedKeepsOrder(g: Graph, lin: seq<nat>, x: nat, y: nat)
    requires g.Valid() && g.Acyclic() && Distinct(lin) && SetOf(lin) <= g.used
    requires Precedes(lin, x, y)
    requires forall a :: a in g.Anc(x) && a != x ==> a != y && !Precedes(lin, y, a)
    ensures Precedes(Fixed(g, lin), x, y)
    decreases |lin|, 1
  {
    hide Place, Graph.Valid, Graph.Acyclic, Graph.Topological, Distinct, Graph.Anc;
    var rest := lin[1..];
    var fixed := Fixed(g, rest);
    assert lin == [lin[0]] + rest;
    DistinctConcat([lin[0]], rest);
    SetOfConcat([lin[0]], rest);
    assert lin[0] in SetOf([lin[0]]);
    FixedTopological(g, rest);
    var k := PlaceSplits(g, lin[0], fixed);
    if lin[0] == x {
      assert y in rest by {
        var i, j :| 0 <= i < j < |lin| && lin[i] == x && lin[j] == y;
        assert lin[j] == rest[j - 1];
      }
      assert y in SetOf(rest) && y in SetOf(fixed);
      var p :| 0 <= p < |fixed| && fixed[p] == y;
      if k > 0 {
        AncestorsBefore(g, lin, fixed, k - 1, p, x, y);
      }
      assert Fixed(g, lin)[k] == x && Fixed(g, lin)[p + 1] == y;
    } else {
      TailPrecedes(lin, x, y);
      forall a | a in g.Anc(x) && a != x ensures !Precedes(rest, y, a) {
        if Precedes(rest, y, a) { ConsPrecedes(lin, y, a); }
      }
      FixedKeepsOrder(g, rest, x, y);
      InsertPrecedes(fixed, k, lin[0], x, y);
    }
  }

  /** Every ancestor of the first position is put before `y` in the order of the rest. */
  lemma {:induction false} AncestorsBefore(g: Graph, lin: seq<nat>, fixed: seq<nat>, q: nat, p: nat, x: nat, y: nat)
    requires g.Valid() && g.Acyclic() && Distinct(lin) && SetOf(lin) <= g.used && lin != [] && lin[0] == x
    requires fixed == Fixed(g, lin[1..]) && p < |fixed| && q < |fixed| && fixed[p] == y && fixed[q] in g.Anc(x)
    requires forall a :: a in g.Anc(x) && a != x ==> a != y && !Precedes(lin, y, a)
    ensures q < p
    decreases |lin|, 0
  {
    hide Place, Fixed, Graph.Topological, Distinct, Graph.Anc;
    var rest := lin[1..];
    assert lin == [x] + rest;
    DistinctConcat([x], rest);
    SetOfConcat([x], rest);
    assert x in SetOf([x]);
    FixedTopological(g, rest);
    var a := fixed[q];
    assert a in SetOf(fixed) && y in SetOf(fixed);
    var i :| 0 <= i < |rest| && rest[i] == a;
    var j :| 0 <= j < |rest| && rest[j] == y;
    assert lin[i + 1] == a && lin[j + 1] == y;
    assert j < i ==> Precedes(lin, y, a);
    assert Precedes(rest, a, y);
    forall b | b in g.Anc(a) && b != a ensures b != y && !Precedes(rest, y, b) {
      assert b in g.Anc(x);
      if Precedes(rest, y, b) { ConsPrecedes(lin, y, b); }
      assert b == x ==> a == x;
    }
    FixedKeepsOrder(g, rest, a, y);
    TopologicalDistinct(g, fixed);
    OrderedOnce(fixed, q, p);
  }

  lemma OrderedOnce(s: seq<nat>, q: nat, p: nat)
    requires q < |s| && p < |s| && Distinct(s) && Precedes(s, s[q], s[p])
    ensures q < p
  {
    var i, j :| 0 <= i < j < |s| && s[i] == s[q] && s[j] == s[p];
    assert i == q && j == p;
  }

  lemma ConsPrecedes(lin: seq<nat>, x: nat, y: nat)
    requires lin != [] && Precedes(lin[1..], x, y)
    ensures Precedes(lin, x, y)
  {
    var i, j :| 0 <= i < j < |lin[1..]| && lin[1..][i] == x && lin[1..][j] == y;
    assert lin[i + 1] == x && lin[j + 1] == y;
  }

  lemma TailPrecedes(lin: seq<nat>, x: nat, y: nat)
    requires lin != [] && Precedes(lin, x, y) && lin[0] != x
    ensures Precedes(lin[1..], x, y)
  {
    var i, j :| 0 <= i < j < |lin| && lin[i] == x && lin[j] == y;
    assert lin[1..][i - 1] == x && lin[1..][j - 1] == y;
  }

  lemma InsertPrecedes(s: seq<nat>, k: nat, e: nat, x: nat, y: nat)
    requires k <= |s| && Precedes(s, x, y)
    ensures Precedes(s[..k] + [e] + s[k..], x, y)
  {
    var i, j :| 0 <= i < j < |s| && s[i] == x && s[j] == y;
    var t := s[..k] + [e] + s[k..];
    assert t[if i < k then i else i + 1] == x && t[if j < k then j else j + 1] == y;
  }

  lemma FixedStep(g: Graph, lin: seq<nat>, k: nat)
    requires k < |lin|
    ensures Fixed(g, lin[k..]) == Place(g, lin[k], Fixed(g, lin[k + 1..]))
  {
    hide Place;
    assert lin[k..][1..] == lin[k + 1..];
  }

  lemma PlaceMembers(g: Graph, elem: nat, rest: seq<nat>)
    ensures SetOf(Place(g, elem, rest)) == SetOf(rest) + {elem}
  {
    hide Place;
    var k := PlaceSplits(g, elem, rest);
    assert rest == rest[..k] + rest[k..];
    SetOfConcat(rest[..k], rest[k..]);
    SetOfConcat(rest[..k], [elem]);
    SetOfConcat(rest[..k] + [elem], rest[k..]);
  }

  /** What is left to do in a move: the first `m` of `rest` go before `elem`, and so do `placeBefore`. */
  ghost predicate Shifted(g: Graph, elem: nat, rest: seq<nat>, m: nat, placeBefore: set<nat>) {
    && m <= |rest|
    && placeBefore == SetOf(rest[m..]) * g.Anc(elem)
    && Place(g, elem, rest) == rest[..m] + Place(g, elem, rest[m..])
  }

  lemma ShiftStart(g: Graph, elem: nat, rest: seq<nat>)
    ensures Shifted(g, elem, rest, 0, SetOf(rest) * g.Anc(elem))
  {
    hide Place, Graph.Anc, SetOf;
    assert rest[0..] == rest && rest[..0] == [];
  }

  lemma ShiftOne(g: Graph, elem: nat, rest: seq<nat>, m: nat, placeBefore: set<nat>)
    requires Shifted(g, elem, rest, m, placeBefore) && placeBefore != {} && Distinct(rest)
    ensures m < |rest| && Shifted(g, elem, rest, m + 1, placeBefore - {rest[m]})
  {
    PlaceOnce(g, elem, rest[m..]);
    DistinctTail(rest, m);
    hide Place, Graph.Anc, SetOf, Distinct;
    assert rest[m..][1..] == rest[m + 1..] && rest[m..][0] == rest[m];
    TakeOne(rest, m, Place(g, elem, rest[m + 1..]));
  }

  lemma TakeOne(s: seq<nat>, m: nat, t: seq<nat>)
    requires m < |s|
    ensures s[..m] + ([s[m]] + t) == s[..m + 1] + t
  {
  }

  lemma ShiftEnd(g: Graph, elem: nat, rest: seq<nat>, m: nat)
    requires Shifted(g, elem, rest, m, {})
    ensures Place(g, elem, rest) == rest[..m] + ([elem] + rest[m..])
  {
  }

  lemma PlaceOnce(g: Graph, elem: nat, rest: seq<nat>)
    requires SetOf(rest) * g.Anc(elem) != {}
    ensures rest != [] && Place(g, elem, rest) == [rest[0]] + Place(g, elem, rest[1..])
  {
  }

  lemma DistinctTail(rest: seq<nat>, m: nat)
    requires m < |rest| && Distinct(rest)
    ensures SetOf(rest[m + 1..]) == SetOf(rest[m..]) - {rest[m]}
  {
    var r := rest[m + 1..];
    assert rest[m..] == [rest[m]] + r;
    SetOfConcat([rest[m]], r);
    assert SetOf([rest[m]]) == {rest[m]};
    forall i | 0 <= i < |r| ensures r[i] != rest[m] { assert r[i] == rest[m + 1 + i]; }
    assert rest[m] !in SetOf(r);
  }

  lemma TailFacts(g: Graph, lin: seq<nat>, k: nat)
    requires k <= |lin| && g.Valid() && g.Acyclic() && Distinct(lin) && SetOf(lin) <= g.used
    ensures Distinct(Fixed(g, lin[k..])) && |Fixed(g, lin[k..])| == |lin| - k
  {
    hide Graph.Valid, Graph.Acyclic, Distinct, Fixed;
    assert lin == lin[..k] + lin[k..];
    DistinctConcat(lin[..k], lin[k..]);
    SetOfConcat(lin[..k], lin[k..]);
    FixedTopological(g, lin[k..]);
    DistinctCount(lin[k..]);
    DistinctCount(Fixed(g, lin[k..]));
  }

  /** Make `linearization` topological in place. */
  method FixLinearization(g: Graph, linearization: array<nat>)
    requires g.Valid() && g.Acyclic() && Distinct(linearization[..]) && SetOf(linearization[..]) <= g.used
    modifies linearization
    ensures linearization[..] == Fixed(g, old(linearization[..]))
    ensures g.Topological(linearization[..]) && SetOf(linearization[..]) == SetOf(old(linearization[..]))
  {
    ghost var lin := linearization[..];
    FixedTopological(g, lin);
    var done: set<nat> := {};
    var len := linearization.Length;
    assert linearization[len..] == [] && lin[len..] == [];
    assert Fixed(g, lin[len..]) == [] && SetOf(lin[len..]) == {};
    hide Graph.Topological, Graph.Valid, Graph.Acyclic, Distinct, Place, Fixed, SetOf;
    for i := 0 to len
      invariant done == SetOf(Fixed(g, lin[len - i..]))
      invariant linearization[..len - i] == lin[..len - i]
      invariant linearization[len - i..] == Fixed(g, lin[len - i..])
    {
      var elem := linearization[len - 1 - i];
      ghost var rest := Fixed(g, lin[len - i..]);
      FixedStep(g, lin, len - 1 - i);
      TailFacts(g, lin, len - i);
      assert elem == linearization[..len - i][len - 1 - i];
      ghost var front := linearization[..len - 1 - i];
      assert front == lin[..len - i][..len - 1 - i] == lin[..len - 1 - i];
      PlaceAt(linearization, g, elem, i, done, rest);
      PlaceMembers(g, elem, rest);
      assert linearization[..len - 1 - i] == front && linearization[len - 1 - i..] == Place(g, elem, rest);
      done := done + {elem};
      assert len - (i + 1) == len - 1 - i;
    }
    assert linearization[0..] == linearization[..] && lin[0..] == lin;
  }

  /** `linearization` during a move: `m` of `rest` have been moved up, and `elem` is still to be written. */
  ghost predicate Moving(lin: seq<nat>, front: seq<nat>, rest: seq<nat>, m: nat) {
    && m <= |rest|
    && |lin| == |front| + 1 + |rest|
    && lin[..|front|] == front
    && lin[|front|..|front| + m] == rest[..m]
    && lin[|front| + m + 1..] == rest[m..]
  }

  lemma MoveOne(lin: seq<nat>, front: seq<nat>, rest: seq<nat>, m: nat)
    requires Moving(lin, front, rest, m) && m < |rest|
    ensures lin[|front| + m + 1] == rest[m] && Moving(lin[|front| + m := rest[m]], front, rest, m + 1)
  {
    var k := |front| + m;
    var t := lin[k + 1..];
    assert t[0] == rest[m];
    var lin' := lin[k := rest[m]];
    assert lin'[..|front|] == front;
    assert lin'[|front|..k + 1] == lin[|front|..k] + [rest[m]] == rest[..m + 1];
    assert lin'[k + 2..] == t[1..] == rest[m..][1..] == rest[m + 1..];
  }

  lemma MoveEnd(lin: seq<nat>, front: seq<nat>, rest: seq<nat>, m: nat, elem: nat)
    requires Moving(lin, front, rest, m)
    ensures lin[|front| + m := elem] == front + (rest[..m] + ([elem] + rest[m..]))
  {
    var k := |front| + m;
    assert lin == lin[..|front|] + lin[|front|..k] + [lin[k]] + lin[k + 1..];
    var lin' := lin[k := elem];
    assert lin' == lin[..|front|] + (lin[|front|..k] + ([elem] + lin[k + 1..]));
  }

  method Write(linearization: array<nat>, k: nat, elem: nat)
    requires k < linearization.Length
    modifies linearization
    ensures linearization[..] == old(linearization[..])[k := elem]
  {
    linearization[k] := elem;
  }

  /** One round of the inner loop: the position behind the gap, at distance `j` from the back, moves into it. */
  method ShiftOver(linearization: array<nat>, ghost g: Graph, ghost elem: nat, j: nat, placeBefore: set<nat>,
                   ghost front: seq<nat>, ghost rest: seq<nat>)
    returns (left: set<nat>)
    requires linearization.Length == |front| + 1 + |rest| && j <= |rest| && Distinct(rest) && placeBefore != {}
    requires Shifted(g, elem, rest, |rest| - j, placeBefore) && Moving(linearization[..], front, rest, |rest| - j)
    modifies linearization
    ensures j > 0 && Shifted(g, elem, rest, |rest| - (j - 1), left)
    ensures Moving(linearization[..], front, rest, |rest| - (j - 1))
  {
    hide *;
    ghost var lin, m := linearization[..], |rest| - j;
    ShiftOne(g, elem, rest, m, placeBefore);
    MoveOne(lin, front, rest, m);
    var toSwap := linearization[linearization.Length - 1 - (j - 1)];
    left := placeBefore - {toSwap};
    Write(linearization, linearization.Length - 1 - j, toSwap);
  }

  lemma MovingStart(lin: seq<nat>, front: seq<nat>, rest: seq<nat>)
    requires |lin| == |front| + 1 + |rest| && lin[..|front|] == front && lin[|front| + 1..] == rest
    ensures Moving(lin, front, rest, 0)
  {
  }

  /** Move the positions behind `elem` forward until none of its ancestors is left behind it. */
  method PlaceAt(linearization: array<nat>, g: Graph, elem: nat, i: nat, done: set<nat>, ghost rest: seq<nat>)
    requires i < linearization.Length && linearization[linearization.Length - 1 - i] == elem
    requires linearization[linearization.Length - i..] == rest && done == SetOf(rest) && Distinct(rest)
    modifies linearization
    ensures linearization[..] == old(linearization[..linearization.Length - 1 - i]) + Place(g, elem, rest)
  {
    hide *;
    var len := linearization.Length;
    ghost var front := linearization[..len - 1 - i];
    MovingStart(linearization[..], front, rest);
    ShiftStart(g, elem, rest);
    var j := i;
    var placeBefore := done * g.Anc(elem);
    while placeBefore != {}
      invariant 0 <= j <= i
      invariant Shifted(g, elem, rest, i - j, placeBefore)
      invariant Moving(linearization[..], front, rest, i - j)
      decreases j
    {
      placeBefore := ShiftOver(linearization, g, elem, j, placeBefore, front, rest);
      j := j - 1;
    }
    ShiftEnd(g, elem, rest, i - j);
    MoveEnd(linearization[..], front, rest, i - j, elem);
    Write(linearization, len - 1 - j, elem);
  }
}
