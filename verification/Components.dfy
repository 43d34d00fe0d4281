/** Connected components (`src/cluster_linearize.h:253-307`). */
module Components {
  import opened Graphs

  function Neighbours(g: Graph, i: nat): set<nat> {
    g.Anc(i) + g.Desc(i)
  }

  /** No member of `s` is related to a position of `todo` outside `s`. */
  ghost predicate Isolated(g: Graph, todo: set<nat>, s: set<nat>) {
    forall i :: i in s ==> Neighbours(g, i) * todo <= s
  }

  /** `s` cannot be cut in two unrelated parts. */
  ghost predicate Connected(g: Graph, s: set<nat>) {
    forall part :: part <= s && part != {} && Isolated(g, s, part) ==> part == s
  }

  lemma NeighboursSymmetric(g: Graph, i: nat, j: nat)
    requires g.Valid() && i in g.used && j in g.used && j in Neighbours(g, i)
    ensures i in Neighbours(g, j)
  {
    assert j in g.Anc(i) <==> i in g.Desc(j);
    assert i in g.Anc(j) <==> j in g.Desc(i);
  }

  /** What lies in every isolated set around `tx` and is isolated itself is connected. */
  lemma LeastIsConnected(g: Graph, todo: set<nat>, tx: nat, s: set<nat>)
    requires g.Valid() && todo <= g.used && s <= todo && tx in s
    requires Isolated(g, todo, s)
    requires forall z :: tx in z && z <= todo && Isolated(g, todo, z) ==> s <= z
    ensures Connected(g, s)
  {
    forall part | part <= s && part != {} && Isolated(g, s, part) ensures part == s {
      var z := if tx in part then part else s - part;
      forall i | i in z ensures Neighbours(g, i) * todo <= z {
        forall j | j in Neighbours(g, i) && j in todo ensures j in z {
          assert j in Neighbours(g, i) * todo;
          assert j in s;
          NeighboursSymmetric(g, i, j);
          if tx in part {
            assert j in Neighbours(g, i) * s;
          } else {
            assert j in part ==> i in Neighbours(g, j) * s;
          }
        }
      }
      assert Isolated(g, todo, z);
      assert s <= z;
    }
  }

  /** `ret` has been explored but for `toAdd`, and lies in every isolated set around `tx`. */
  ghost predicate Exploring(g: Graph, todo: set<nat>, tx: nat, ret: set<nat>, toAdd: set<nat>) {
    && ret <= todo && toAdd <= todo && tx in ret + toAdd
    && (forall i :: i in ret - toAdd ==> Neighbours(g, i) * todo <= ret)
    && (forall z :: tx in z && z <= todo && Isolated(g, todo, z) ==> ret + toAdd <= z)
  }

  lemma ExploreMore(g: Graph, todo: set<nat>, tx: nat, before: set<nat>, added: set<nat>)
    requires g.Valid() && todo <= g.used && Exploring(g, todo, tx, before, added)
    ensures var ret := (before + AllNeighbours(g, added)) * todo;
            before <= ret && added <= ret && tx in ret && Exploring(g, todo, tx, ret, ret - before)
  {
    hide Isolated, Neighbours, AllNeighbours;
    var ret := (before + AllNeighbours(g, added)) * todo;
    NeighboursIn(g, before, added, todo, ret);
    forall z | tx in z && z <= todo && Isolated(g, todo, z) ensures ret <= z {
      NeighboursLeast(g, before, added, todo, ret, z);
    }
  }

  lemma ExploredAll(g: Graph, todo: set<nat>, tx: nat, ret: set<nat>)
    requires g.Valid() && todo <= g.used && Exploring(g, todo, tx, ret, {})
    ensures tx in ret && ret <= todo && Isolated(g, todo, ret) && Connected(g, ret)
  {
    LeastIsConnected(g, todo, tx, ret);
  }

  method GetConnectedComponent(g: Graph, todo: set<nat>, tx: nat) returns (ret: set<nat>)
    requires g.Valid() && todo <= g.used && tx in todo
    ensures tx in ret && ret <= todo && Isolated(g, todo, ret) && Connected(g, ret)
  {
    var toAdd := {tx};
    ret := {};
    assert Exploring(g, todo, tx, ret, toAdd);
    hide *;
    while true
      invariant Exploring(g, todo, tx, ret, toAdd) && ret <= todo
      invariant ret == {} || toAdd <= ret
      decreases todo - ret, ret == {}
    {
      var before := ret;
      ExploreMore(g, todo, tx, before, toAdd);
      ret := ret + AllNeighbours(g, toAdd);
      ret := ret * todo;
      toAdd := ret - before;
      if toAdd == {} {
        break;
      }
      assert todo - ret < todo - before by {
        var x :| x in toAdd;
        assert x in todo - before && x !in todo - ret;
      }
    }
    ExploredAll(g, todo, tx, ret);
  }

  /** The loop over `to_add`, uniting the descendants and ancestors of its members. */
  function AllNeighbours(g: Graph, s: set<nat>): set<nat> {
    set i, j | i in s && j in Neighbours(g, i) :: j
  }

  lemma NeighboursIn(g: Graph, before: set<nat>, added: set<nat>, todo: set<nat>, ret: set<nat>)
    requires g.Valid() && todo <= g.used && before <= todo && added <= todo
    requires ret == (before + AllNeighbours(g, added)) * todo
    requires forall i :: i in before - added ==> Neighbours(g, i) * todo <= before
    ensures before <= ret && added <= ret
    ensures forall i :: i in before + added ==> Neighbours(g, i) * todo <= ret
  {
    forall i | i in added ensures i in ret {
      assert i in g.Anc(i);
      assert i in Neighbours(g, i);
    }
  }

  lemma NeighboursLeast(g: Graph, before: set<nat>, added: set<nat>, todo: set<nat>, ret: set<nat>, z: set<nat>)
    requires ret == (before + AllNeighbours(g, added)) * todo
    requires Isolated(g, todo, z) && before + added <= z
    ensures ret <= z
  {
    forall j | j in ret ensures j in z {
      if j !in before {
        var i :| i in added && j in Neighbours(g, i);
        assert j in Neighbours(g, i) * todo;
      }
    }
  }

  /** The smallest position of a non-empty set. */
  method First(s: set<nat>) returns (first: nat)
    requires s != {}
    ensures first in s && forall i :: i in s ==> first <= i
  {
    first := 0;
    ghost var last :| last in s;
    while first !in s
      invariant first <= last
      invariant forall i :: i in s ==> first <= i
      decreases last - first
    {
      first := first + 1;
    }
  }

  /** The component that holds the first transaction of `todo`, if any. */
  method FindConnectedComponent(g: Graph, todo: set<nat>) returns (ret: set<nat>)
    requires g.Valid() && todo <= g.used
    ensures ret <= todo && (ret == {} <==> todo == {})
    ensures Isolated(g, todo, ret) && Connected(g, ret)
    ensures forall first :: first in todo && (forall i :: i in todo ==> first <= i) ==> first in ret
  {
    if todo == {} {
      return {};
    }
    var first := First(todo);
    ret := GetConnectedComponent(g, todo, first);
  }

}
