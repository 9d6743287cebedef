/**
 * Three-way comparers: negative, zero or positive for "before", "tied" and "after".
 *
 * The library takes comparers from a builder package it does not define; the model assumes
 * only what sorting needs of them, a total preorder, and states it as a precondition wherever
 * it is used.
 */
module Comparers {

  function Sign(x: int): int
  {
    if x < 0 then -1 else if x > 0 then 1 else 0
  }

  /** Swapping the arguments flips the sign, and "not after" is transitive. */
  ghost predicate TotalPreorder<K(!new)>(cmp: (K, K) -> int)
  {
    && (forall a, b :: Sign(cmp(a, b)) == -Sign(cmp(b, a)))
    && (forall a, b, c :: cmp(a, b) <= 0 && cmp(b, c) <= 0 ==> cmp(a, c) <= 0)
  }

  /** In a total preorder, "before" followed by "not after" is still "before". */
  lemma StrictBeforeWeak<K(!new)>(cmp: (K, K) -> int, a: K, b: K, c: K)
    requires TotalPreorder(cmp)
    requires cmp(a, b) <= 0 && cmp(b, c) < 0
    ensures cmp(a, c) < 0
  {
  }

  /** A total preorder ties every value with itself. */
  lemma Reflexive<K(!new)>(cmp: (K, K) -> int, a: K)
    requires TotalPreorder(cmp)
    ensures cmp(a, a) == 0
  {
  }

  /** In a total preorder, "before" followed by "not after" is still "before". */
  lemma StrictThenWeak<K(!new)>(cmp: (K, K) -> int, a: K, b: K, c: K)
    requires TotalPreorder(cmp)
    requires cmp(a, b) < 0 && cmp(b, c) <= 0
    ensures cmp(a, c) < 0
  {
  }

  /** In a total preorder, ties are transitive. */
  lemma TiesChain<K(!new)>(cmp: (K, K) -> int, a: K, b: K, c: K)
    requires TotalPreorder(cmp)
    requires cmp(a, b) == 0 && cmp(b, c) == 0
    ensures cmp(a, c) == 0
  {
  }

  /** The default comparer on numbers: -1, 0 or 1 as `a` is less than, equal to or greater than `b`. */
  function IntCompare(a: int, b: int): (r: int)
    ensures r < 0 <==> a < b
    ensures r == 0 <==> a == b
    ensures r > 0 <==> a > b
  {
    if a < b then -1 else if a > b then 1 else 0
  }

  /** The numeric order is a total preorder. */
  lemma IntComparePreorder()
    ensures TotalPreorder(IntCompare)
  {
  }
}
