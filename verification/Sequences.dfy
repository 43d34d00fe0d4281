/** Duplicate-free sequences of transaction positions, and their restriction to a set. */
module Sequences {

  function SetOf(s: seq<nat>): set<nat> {
    set x | x in s
  }

  predicate Distinct(s: seq<nat>) {
    forall i, j :: 0 <= i < j < |s| ==> s[i] != s[j]
  }

  /** The entries of `s` that are in `keep`, in their order in `s`. */
  function Restrict(s: seq<nat>, keep: set<nat>): seq<nat> {
    if s == [] then []
    else if s[0] in keep then [s[0]] + Restrict(s[1..], keep)
    else Restrict(s[1..], keep)
  }

  lemma SetOfConcat(a: seq<nat>, b: seq<nat>)
    ensures SetOf(a + b) == SetOf(a) + SetOf(b)
  {
  }

  lemma DistinctConcat(a: seq<nat>, b: seq<nat>)
    ensures Distinct(a + b) <==> Distinct(a) && Distinct(b) && SetOf(a) !! SetOf(b)
  {
    var s := a + b;
    if Distinct(s) {
      forall i, j | 0 <= i < j < |a| ensures a[i] != a[j] { assert s[i] != s[j]; }
      forall i, j | 0 <= i < j < |b| ensures b[i] != b[j] { assert s[|a| + i] != s[|a| + j]; }
      forall x | x in SetOf(a) ensures x !in SetOf(b) {
        var i :| 0 <= i < |a| && a[i] == x;
        forall j | 0 <= j < |b| ensures b[j] != x { assert s[i] != s[|a| + j]; }
      }
    }
    if Distinct(a) && Distinct(b) && SetOf(a) !! SetOf(b) {
      forall i, j | 0 <= i < j < |s| ensures s[i] != s[j] {
        if i < |a| <= j {
          assert a[i] in SetOf(a) && b[j - |a|] in SetOf(b);
        }
      }
    }
  }

  lemma {:induction false} DistinctCount(s: seq<nat>)
    requires Distinct(s)
    ensures |SetOf(s)| == |s|
  {
    if s == [] {
      assert SetOf(s) == {};
    } else {
      var rest := s[1..];
      assert s == [s[0]] + rest;
      DistinctCount(rest);
      assert SetOf(s) == {s[0]} + SetOf(rest);
      assert s[0] !in SetOf(rest);
    }
  }

  lemma {:induction false} RestrictConcat(a: seq<nat>, b: seq<nat>, keep: set<nat>)
    ensures Restrict(a + b, keep) == Restrict(a, keep) + Restrict(b, keep)
  {
    if a == [] {
      assert a + b == b;
    } else {
      var s := a + b;
      assert s[0] == a[0] && s[1..] == a[1..] + b;
      RestrictConcat(a[1..], b, keep);
    }
  }

  lemma {:induction false} RestrictMembers(s: seq<nat>, keep: set<nat>)
    ensures SetOf(Restrict(s, keep)) == SetOf(s) * keep
  {
    if s != [] {
      RestrictMembers(s[1..], keep);
      var r := Restrict(s[1..], keep);
      assert s == [s[0]] + s[1..];
      SetOfConcat([s[0]], s[1..]);
      SetOfConcat([s[0]], r);
      assert SetOf([s[0]]) == {s[0]};
    }
  }

  lemma {:induction false} RestrictDistinct(s: seq<nat>, keep: set<nat>)
    requires Distinct(s)
    ensures Distinct(Restrict(s, keep))
  {
    if s != [] {
      RestrictDistinct(s[1..], keep);
      RestrictMembers(s[1..], keep);
      assert s == [s[0]] + s[1..];
      DistinctConcat([s[0]], s[1..]);
      DistinctConcat([s[0]], Restrict(s[1..], keep));
    }
  }

  lemma {:induction false} RestrictAll(s: seq<nat>, keep: set<nat>)
    requires forall x :: x in s ==> x in keep
    ensures Restrict(s, keep) == s
  {
    if s != [] {
      assert s[0] in s;
      forall x | x in s[1..] ensures x in keep { assert x in s; }
      RestrictAll(s[1..], keep);
    }
  }

  lemma {:induction false} RestrictNone(s: seq<nat>, keep: set<nat>)
    requires forall x :: x in s ==> x !in keep
    ensures Restrict(s, keep) == []
  {
    if s != [] {
      assert s[0] in s;
      forall x | x in s[1..] ensures x !in keep { assert x in s; }
      RestrictNone(s[1..], keep);
    }
  }

  lemma {:induction false} RestrictTwice(s: seq<nat>, k1: set<nat>, k2: set<nat>)
    ensures Restrict(Restrict(s, k1), k2) == Restrict(s, k1 * k2)
  {
    if s != [] {
      var r := Restrict(s[1..], k1);
      RestrictTwice(s[1..], k1, k2);
      if s[0] in k1 {
        assert ([s[0]] + r)[1..] == r;
      }
    }
  }
}
