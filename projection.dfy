/**
 * Element-wise operators: map, indexed, filter, flatMap, concat, append, prepend,
 * defaultIfEmpty and reverse.
 *
 * Each operator is a lazy wrapper whose generator runs once per traversal. Its list function
 * (`Mapped`, `Filtered`, ...) gives the elements of one traversal over the elements of one
 * traversal of the upstream; its method is the generator loop, proved equal to that function.
 */
module Projection {
  import opened Wrappers
  import opened Seqs
  import opened Iterables

  // ---------------------------------------------------------------- map / indexed

  /** One traversal of `map(src, selector)`: the i-th output is `selector(src[i], i)`. */
  function Mapped<T, U>(s: seq<T>, f: (T, nat) -> U): (r: seq<U>)
    ensures |r| == |s|
    ensures forall i :: 0 <= i < |s| ==> r[i] == f(s[i], i)
  {
    if |s| == 0 then [] else Mapped(s[..|s| - 1], f) + [f(s[|s| - 1], |s| - 1)]
  }

  /** The generator of `map`: a counter that starts at 0 on every traversal. */
  method Map<T, U>(src: seq<T>, selector: (T, nat) -> U) returns (out: seq<U>)
    ensures out == Mapped(src, selector)
  {
    out := [];
    var c := 0;
    while c < |src|
      invariant 0 <= c <= |src|
      invariant out == Mapped(src[..c], selector)
    {
      out := out + [selector(src[c], c)];
      c := c + 1;
    }
    assert src[..c] == src;
  }

  /** A traversal of `map` over a restartable source opens the source once, and its index starts at 0. */
  method MapTraversal<T, U>(src: Iterable<T>, selector: (T, nat) -> U) returns (out: seq<U>)
    modifies src
    ensures src.opens == old(src.opens) + 1
    ensures out == Mapped(src.gen(old(src.opens)), selector)
  {
    var xs := src.ToJson();
    out := Map(xs, selector);
  }

  /** Mapping a pure source twice gives the same list, and the index restarts at 0 each time. */
  method MapTwice<T, U>(src: Iterable<T>, selector: (T, nat) -> U) returns (first: seq<U>, second: seq<U>)
    requires src.Pure()
    modifies src
    ensures first == second
    ensures |first| == |src.gen(0)|
    ensures forall i :: 0 <= i < |first| ==> first[i] == selector(src.gen(0)[i], i)
  {
    first := MapTraversal(src, selector);
    second := MapTraversal(src, selector);
  }

  /** One traversal of `indexed(src)`: every element paired with its position. */
  function Indexed<T>(s: seq<T>): (r: seq<(T, nat)>)
    ensures |r| == |s|
    ensures forall i :: 0 <= i < |s| ==> r[i] == (s[i], i)
  {
    Mapped(s, (x, i) => (x, i))
  }

  /** Dropping the positions of `indexed(s)` gives `s` back. */
  lemma IndexedElements<T>(s: seq<T>)
    ensures Mapped(Indexed(s), (p: (T, nat), _: nat) => p.0) == s
  {
  }

  // ---------------------------------------------------------------- filter

  /** One traversal of `filter(src, pred)`. */
  function Filtered<T>(s: seq<T>, p: (T, nat) -> bool): (r: seq<T>)
    ensures |r| <= |s|
  {
    if |s| == 0 then []
    else Filtered(s[..|s| - 1], p) + (if p(s[|s| - 1], |s| - 1) then [s[|s| - 1]] else [])
  }

  /**
   * The positions `filter` keeps: exactly those whose predicate holds, in increasing order,
   * and the output is the source read at those positions.
   */
  function KeptPositions<T>(s: seq<T>, p: (T, nat) -> bool): (idx: seq<nat>)
    ensures SelectedAt(Filtered(s, p), s, idx)
    ensures forall i: nat :: i in idx <==> i < |s| && p(s[i], i)
  {
    if |s| == 0 then []
    else
      var n := |s| - 1;
      var pre := KeptPositions(s[..n], p);
      SelectedAtSnoc(Filtered(s[..n], p), s, pre, p(s[n], n));
      pre + (if p(s[n], n) then [n] else [])
  }

  /** The generator of `filter`: walks `indexed(src)` and yields the element of every pair the predicate accepts. */
  method Filter<T>(src: seq<T>, pred: (T, nat) -> bool) returns (out: seq<T>)
    ensures out == Filtered(src, pred)
  {
    var s := Indexed(src);
    out := [];
    var k := 0;
    while k < |s|
      invariant 0 <= k <= |s|
      invariant out == Filtered(src[..k], pred)
    {
      var (x, i) := s[k];
      assert src[..k + 1][..k] == src[..k];
      if pred(x, i) {
        out := out + [x];
      }
      k := k + 1;
    }
    assert src[..k] == src;
  }

  /** A predicate that accepts everything keeps the source; one that rejects everything keeps nothing. */
  lemma {:induction false} FilteredExtremes<T>(s: seq<T>)
    ensures Filtered(s, (_: T, _: nat) => true) == s
    ensures Filtered(s, (_: T, _: nat) => false) == []
  {
    if |s| > 0 {
      FilteredExtremes(s[..|s| - 1]);
      assert s[..|s| - 1] + [s[|s| - 1]] == s;
    }
  }

  // ---------------------------------------------------------------- flatMap

  /** One traversal of `flatMap(src, selector)`. */
  function FlatMapped<T, U>(s: seq<T>, f: (T, nat) -> seq<U>): (r: seq<U>)
    ensures r == Flatten(Mapped(s, f))
    ensures |r| == SumLengths(Mapped(s, f))
  {
    if |s| == 0 then []
    else
      var n := |s| - 1;
      assert Mapped(s, f)[..n] == Mapped(s[..n], f);
      FlatMapped(s[..n], f) + f(s[n], n)
  }

  /** The generator of `flatMap`: every inner list, selected with the outer position, yielded in turn. */
  method FlatMap<T, U>(src: seq<T>, selector: (T, nat) -> seq<U>) returns (out: seq<U>)
    ensures out == FlatMapped(src, selector)
  {
    out := [];
    var i := 0;
    while i < |src|
      invariant 0 <= i <= |src|
      invariant out == FlatMapped(src[..i], selector)
    {
      var inner := selector(src[i], i);
      var j := 0;
      while j < |inner|
        invariant 0 <= j <= |inner|
        invariant out == FlatMapped(src[..i], selector) + inner[..j]
      {
        out := out + [inner[j]];
        j := j + 1;
      }
      assert inner[..j] == inner;
      assert src[..i + 1][..i] == src[..i];
      i := i + 1;
    }
    assert src[..i] == src;
  }

  /** flatMap with the selector `x => [x, x]` doubles every element: `[1, 2]` gives `[1, 1, 2, 2]`. */
  method FlatMapDoubleExample() returns (out: seq<int>)
    ensures out == [1, 1, 2, 2]
  {
    out := FlatMap([1, 2], (x: int, _: nat) => [x, x]);
    assert [1, 2][..1] == [1];
  }

  // ---------------------------------------------------------------- concat / append / prepend

  /** The generator of `concat(src, ...sequences)`: the source, then every further list in order. */
  method Concat<T>(src: seq<T>, sequences: seq<seq<T>>) returns (out: seq<T>)
    ensures out == src + Flatten(sequences)
    ensures |out| == |src| + SumLengths(sequences)
  {
    out := [];
    var i := 0;
    while i < |src|
      invariant 0 <= i <= |src|
      invariant out == src[..i]
    {
      out := out + [src[i]];
      i := i + 1;
    }
    var k := 0;
    while k < |sequences|
      invariant 0 <= k <= |sequences|
      invariant out == src + Flatten(sequences[..k])
    {
      var inner := sequences[k];
      var j := 0;
      while j < |inner|
        invariant 0 <= j <= |inner|
        invariant out == src + Flatten(sequences[..k]) + inner[..j]
      {
        out := out + [inner[j]];
        j := j + 1;
      }
      assert inner[..j] == inner;
      assert sequences[..k + 1][..k] == sequences[..k];
      k := k + 1;
    }
    assert sequences[..k] == sequences;
  }

  /** `concat([1, 2], [3], [4, 5])` gives `[1, 2, 3, 4, 5]`. */
  method ConcatExample() returns (out: seq<int>)
    ensures out == [1, 2, 3, 4, 5]
  {
    out := Concat([1, 2], [[3], [4, 5]]);
    assert [[3], [4, 5]][..1] == [[3]];
  }

  /** The generator of `append(src, item)`: every source element, then `item`. */
  method Append<T>(src: seq<T>, item: T) returns (out: seq<T>)
    ensures |out| == |src| + 1
    ensures out[..|src|] == src && out[|src|] == item
  {
    out := [];
    var i := 0;
    while i < |src|
      invariant 0 <= i <= |src|
      invariant out == src[..i]
    {
      out := out + [src[i]];
      i := i + 1;
    }
    out := out + [item];
  }

  /** The generator of `prepend(src, item)`: `item`, then every source element. */
  method Prepend<T>(src: seq<T>, item: T) returns (out: seq<T>)
    ensures |out| == |src| + 1
    ensures out[0] == item && out[1..] == src
  {
    out := [item];
    var i := 0;
    while i < |src|
      invariant 0 <= i <= |src|
      invariant out == [item] + src[..i]
    {
      out := out + [src[i]];
      i := i + 1;
    }
  }

  // ---------------------------------------------------------------- defaultIfEmpty

  /** One traversal of `defaultIfEmpty(src)`: the source's elements, or a single `undefined` when there are none. */
  function DefaultIfEmpty<T>(s: seq<T>): (r: seq<Option<T>>)
    ensures |r| == Max(1, |s|)
    ensures |s| == 0 ==> r == [None]
    ensures forall i :: 0 <= i < |s| ==> r[i] == Some(s[i])
  {
    if |s| == 0 then [None] else Mapped(s, (x, _) => Some(x))
  }

  /** The generator of `defaultIfEmpty`: forwards every element and remembers whether it yielded any. */
  method DefaultIfEmptyTraversal<T>(src: seq<T>) returns (out: seq<Option<T>>)
    ensures out == DefaultIfEmpty(src)
  {
    out := [];
    var yielded := false;
    var i := 0;
    while i < |src|
      invariant 0 <= i <= |src|
      invariant yielded <==> i > 0
      invariant |out| == i && forall k :: 0 <= k < i ==> out[k] == Some(src[k])
    {
      out := out + [Some(src[i])];
      yielded := true;
      i := i + 1;
    }
    if !yielded {
      out := out + [None];
    }
  }

  // ---------------------------------------------------------------- reverse

  /** The elements of `s` from last to first. */
  function Reversed<T>(s: seq<T>): (r: seq<T>)
    ensures |r| == |s|
    ensures forall i :: 0 <= i < |s| ==> r[i] == s[|s| - 1 - i]
  {
    if |s| == 0 then [] else [s[|s| - 1]] + Reversed(s[..|s| - 1])
  }

  /** Reversing twice gives the original list. */
  lemma ReversedInvolution<T>(s: seq<T>)
    ensures Reversed(Reversed(s)) == s
  {
  }

  /** `Array.prototype.reverse`: swaps the ends inwards, in place. */
  method ReverseInPlace<T>(a: array<T>)
    modifies a
    ensures a[..] == Reversed(old(a[..]))
  {
    var lo, hi := 0, a.Length - 1;
    while lo < hi
      invariant 0 <= lo && hi == a.Length - 1 - lo && lo <= a.Length
      invariant forall k :: 0 <= k < lo ==> a[k] == old(a[a.Length - 1 - k]) && a[a.Length - 1 - k] == old(a[k])
      invariant forall k :: lo <= k <= hi ==> a[k] == old(a[k])
    {
      a[lo], a[hi] := a[hi], a[lo];
      lo, hi := lo + 1, hi - 1;
    }
  }

  /** The generator of `reverse`: materialises the source, reverses the array, then yields it. */
  method Reverse<T>(src: seq<T>) returns (out: seq<T>)
    ensures out == Reversed(src)
  {
    var a := new T[|src|](i requires 0 <= i < |src| => src[i]);
    assert a[..] == src;
    ReverseInPlace(a);
    out := [];
    var i := 0;
    while i < a.Length
      invariant 0 <= i <= a.Length
      invariant out == a[..i]
    {
      out := out + [a[i]];
      i := i + 1;
    }
    assert a[..i] == a[..];
  }
}
