/** What several models share: optional values, words, the larger of two numbers, and sums of multisets. */
module Basics {

  datatype Option<T> = None | Some(value: T)

  /** An unsigned 32-bit integer. */
  type Word = x: int | 0 <= x < 0x1_0000_0000

  function Max(a: int, b: int): int {
    if a < b then b else a
  }

  function Min(a: int, b: int): int {
    if a < b then a else b
  }

  lemma NonNegative(a: int, b: int)
    requires a >= 0 && b >= 0
    ensures a * b >= 0
  {
  }

  lemma Positive(a: int, b: int)
    requires a > 0 && b > 0
    ensures a * b > 0
  {
  }

  lemma Shuffle<T>(a: multiset<T>, b: multiset<T>, c: multiset<T>, d: multiset<T>, e: multiset<T>)
    requires a + b == c + d
    ensures (a + e) + b == (c + e) + d
  {
    assert (a + e) + b == (a + b) + e;
    assert (c + e) + d == (c + d) + e;
  }

  lemma Cancel<T>(a: multiset<T>, b: multiset<T>, c: multiset<T>)
    requires a + c == b + c
    ensures a == b
  {
    forall x ensures a[x] == b[x] {
      assert (a + c)[x] == (b + c)[x];
    }
  }
}
