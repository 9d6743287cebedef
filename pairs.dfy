/**
 * Lock-step traversal of two sequences: zip and sequenceEqual.
 *
 * Both open one cursor on each side and advance them together. When both sides are the same
 * restartable source, the second cursor is the source's next open, which an impure source may
 * fill differently.
 */
module Pairs {
  import opened Wrappers
  import opened Seqs
  import opened Iterables

  /** The elements of one traversal of `zip(a, b, selector)`. */
  function Zipped<T, U, V>(a: seq<T>, b: seq<U>, f: (T, U) -> V): (r: seq<V>)
    ensures |r| == Min(|a|, |b|)
    ensures forall k :: 0 <= k < |r| ==> r[k] == f(a[k], b[k])
  {
    if |a| == 0 || |b| == 0 then []
    else [f(a[0], b[0])] + Zipped(a[1..], b[1..], f)
  }

  /** The generator of `zip`: opens both sides, then pulls one element from each per step until either is done. */
  method Zip<T, U, V>(src: Iterable<T>, other: Iterable<U>, selector: (T, U) -> V) returns (out: seq<V>)
    modifies src, other
    ensures src.opens == old(src.opens) + (if src == other then 2 else 1)
    ensures other.opens == old(other.opens) + (if src == other then 2 else 1)
    ensures src != other ==> out == Zipped(src.gen(old(src.opens)), other.gen(old(other.opens)), selector)
    ensures src == other ==> out == Zipped(src.gen(old(src.opens)), other.gen(old(src.opens) + 1), selector)
  {
    var it1 := src.Open();
    var it2 := other.Open();
    ghost var opens1, opens2 := src.opens, other.opens;
    out := [];
    ghost var k := 0;
    while true
      invariant src.opens == opens1 && other.opens == opens2
      invariant it1 != it2 && it1.Valid() && it2.Valid() && it1.pos == it2.pos == k
      invariant k <= Min(|it1.items|, |it2.items|)
      invariant |out| == k && forall j :: 0 <= j < k ==> out[j] == selector(it1.items[j], it2.items[j])
      decreases |it1.items| - it1.pos
    {
      var r1 := it1.Next();
      var r2 := it2.Next();
      if r1.None? || r2.None? {
        break;
      }
      out := out + [selector(r1.value, r2.value)];
      k := k + 1;
    }
    assert k == Min(|it1.items|, |it2.items|);
    assert out == Zipped(it1.items, it2.items, selector);
  }

  /** The library's zip examples: pairing [1, 2] with [2, 1], with [2, 1, 5], and [1, 2, 5] with [2, 1]. */
  lemma ZipExamples()
    ensures Zipped([1, 2], [2, 1], (a: int, b: int) => [a, b]) == [[1, 2], [2, 1]]
    ensures Zipped([1, 2], [2, 1, 5], (a: int, b: int) => [a, b]) == [[1, 2], [2, 1]]
    ensures Zipped([1, 2, 5], [2, 1], (a: int, b: int) => [a, b]) == [[1, 2], [2, 1]]
  {
  }

  // ---------------------------------------------------------------- sequenceEqual

  /**
   * The element test of `sequenceEqual`: both sides defined and equal, under the caller's
   * comparer when one is given. An `undefined` on either side is never equal.
   */
  predicate ElementsEqual<T(==)>(a: Option<T>, b: Option<T>, comparer: Option<(T, T) -> bool>)
  {
    && a.Some? && b.Some?
    && (if comparer.Some? then comparer.value(a.value, b.value) else a.value == b.value)
  }

  /** Same length and pairwise equal. */
  predicate SequencesEqual<T(==)>(a: seq<Option<T>>, b: seq<Option<T>>, comparer: Option<(T, T) -> bool>)
  {
    |a| == |b| && forall k :: 0 <= k < |a| ==> ElementsEqual(a[k], b[k], comparer)
  }

  /** `sequenceEqual(src, seq, comparer)`: two cursors in lock step, returning at the first difference. */
  method SequenceEqual<T(==)>(src: Iterable<Option<T>>, other: Iterable<Option<T>>, comparer: Option<(T, T) -> bool>)
    returns (equal: bool)
    modifies src, other
    ensures src.opens == old(src.opens) + (if src == other then 2 else 1)
    ensures other.opens == old(other.opens) + (if src == other then 2 else 1)
    ensures src != other ==> (equal <==> SequencesEqual(src.gen(old(src.opens)), other.gen(old(other.opens)), comparer))
    ensures src == other ==> (equal <==> SequencesEqual(src.gen(old(src.opens)), src.gen(old(src.opens) + 1), comparer))
  {
    var it1 := src.Open();
    var it2 := other.Open();
    ghost var opens1, opens2 := src.opens, other.opens;
    while true
      invariant src.opens == opens1 && other.opens == opens2
      invariant it1 != it2 && it1.Valid() && it2.Valid() && it1.pos == it2.pos
      invariant forall k :: 0 <= k < it1.pos ==> ElementsEqual(it1.items[k], it2.items[k], comparer)
      decreases |it1.items| - it1.pos
    {
      var r1 := it1.Next();
      var r2 := it2.Next();
      if r1.None? && r2.None? {
        return true;
      }
      if r1.None? || r2.None? {
        return false;
      }
      if !ElementsEqual(r1.value, r2.value, comparer) {
        return false;
      }
    }
  }

  /** Without a comparer, a list with no `undefined` equals itself; a single `undefined` makes it unequal. */
  lemma SequencesEqualReflexive<T>(s: seq<Option<T>>)
    ensures (forall k :: 0 <= k < |s| ==> s[k].Some?) <==> SequencesEqual(s, s, None)
  {
  }

  /** The library's examples: `range(0, 3)` against [0, 1, 2], [0, 1, 4] and [0, 1], and `range(0, 2)` against [0, 1, 2]. */
  lemma SequenceEqualExamples()
    ensures SequencesEqual([Some(0), Some(1), Some(2)], [Some(0), Some(1), Some(2)], None)
    ensures !SequencesEqual([Some(0), Some(1), Some(2)], [Some(0), Some(1), Some(4)], None)
    ensures !SequencesEqual([Some(0), Some(1), Some(2)], [Some(0), Some(1)], None)
    ensures !SequencesEqual([Some(0), Some(1)], [Some(0), Some(1), Some(2)], None)
    ensures !SequencesEqual<int>([None], [None], None)
  {
    var a, b := [Some(0), Some(1), Some(2)], [Some(0), Some(1), Some(4)];
    assert !ElementsEqual(a[2], b[2], None);
    var u: seq<Option<int>> := [None];
    assert !ElementsEqual(u[0], u[0], None);
  }
}
