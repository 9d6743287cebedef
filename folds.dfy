/**
 * Reductions: aggregate, scan, count, some and all.
 *
 * Every callback receives the position of the element it is given, counted from 0 on each
 * traversal.
 */
module Folds {
  import opened Wrappers
  import opened Iterables
  import opened Projection

  // ---------------------------------------------------------------- aggregate

  /** The accumulator after feeding every element of `s`, with its position, into `f`, starting from `seed`. */
  function Folded<A, T>(s: seq<T>, seed: A, f: (A, T, nat) -> A): A
  {
    if |s| == 0 then seed else f(Folded(s[..|s| - 1], seed, f), s[|s| - 1], |s| - 1)
  }

  /** `f` with every position it receives moved on by `offset`. */
  function Shifted<A, T>(f: (A, T, nat) -> A, offset: nat): (A, T, nat) -> A
  {
    (acc: A, x: T, i: nat) => f(acc, x, i + offset)
  }

  /** `aggregate(src, seed, aggFunc)`: the accumulator loop, with the position counter starting at 0. */
  method Aggregate<A, T>(src: seq<T>, seed: A, aggFunc: (A, T, nat) -> A) returns (v: A)
    ensures v == Folded(src, seed, aggFunc)
  {
    v := seed;
    var i := 0;
    while i < |src|
      invariant 0 <= i <= |src|
      invariant v == Folded(src[..i], seed, aggFunc)
    {
      assert src[..i + 1][..i] == src[..i];
      v := aggFunc(v, src[i], i);
      i := i + 1;
    }
    assert src[..i] == src;
  }

  /**
   * Aggregating a concatenation is aggregating the second part from the first part's result,
   * with the positions of the second part continuing where the first stopped.
   */
  lemma {:induction false} FoldedConcat<A, T>(a: seq<T>, b: seq<T>, seed: A, f: (A, T, nat) -> A)
    ensures Folded(a + b, seed, f) == Folded(b, Folded(a, seed, f), Shifted(f, |a|))
    decreases |b|
  {
    if |b| == 0 {
      assert a + b == a;
    } else {
      var n := |b| - 1;
      assert (a + b)[..|a + b| - 1] == a + b[..n];
      FoldedConcat(a, b[..n], seed, f);
    }
  }

  /** One step of the accumulator: the prefix of length `k` is the prefix of length `k - 1` and one more element. */
  lemma FoldedStep<A, T>(s: seq<T>, seed: A, f: (A, T, nat) -> A, k: nat)
    requires 0 < k <= |s|
    ensures Folded(s[..k], seed, f) == f(Folded(s[..k - 1], seed, f), s[k - 1], k - 1)
  {
    assert s[..k][..k - 1] == s[..k - 1];
  }

  /** The running sums of [0, 1, 2, 3] from 0 and from 1, and of [1, 2, 3] from 0 and [2, 3, 4] from 1. */
  lemma RunningSums()
    ensures var f := (a: int, x: int, _: nat) => a + x;
      && Folded([0, 1, 2, 3][..1], 0, f) == 0 && Folded([0, 1, 2, 3][..2], 0, f) == 1
      && Folded([0, 1, 2, 3][..3], 0, f) == 3 && Folded([0, 1, 2, 3][..4], 0, f) == 6
      && Folded([0, 1, 2, 3][..1], 1, f) == 1 && Folded([0, 1, 2, 3][..2], 1, f) == 2
      && Folded([0, 1, 2, 3][..3], 1, f) == 4 && Folded([0, 1, 2, 3][..4], 1, f) == 7
      && Folded([1, 2, 3][..1], 0, f) == 1 && Folded([1, 2, 3][..2], 0, f) == 3
      && Folded([1, 2, 3][..3], 0, f) == 6
      && Folded([2, 3, 4][..1], 1, f) == 3 && Folded([2, 3, 4][..2], 1, f) == 6
      && Folded([2, 3, 4][..3], 1, f) == 10
  {
    var f := (a: int, x: int, _: nat) => a + x;
    var s, t, u := [0, 1, 2, 3], [1, 2, 3], [2, 3, 4];
    assert s[..0] == [] && t[..0] == [] && u[..0] == [];
    FoldedStep(s, 0, f, 1); FoldedStep(s, 0, f, 2); FoldedStep(s, 0, f, 3); FoldedStep(s, 0, f, 4);
    FoldedStep(s, 1, f, 1); FoldedStep(s, 1, f, 2); FoldedStep(s, 1, f, 3); FoldedStep(s, 1, f, 4);
    FoldedStep(t, 0, f, 1); FoldedStep(t, 0, f, 2); FoldedStep(t, 0, f, 3);
    FoldedStep(u, 1, f, 1); FoldedStep(u, 1, f, 2); FoldedStep(u, 1, f, 3);
  }

  /** Summing `range(0, 4)` from 0 gives 6. */
  method AggregateSumExample() returns (v: int)
    ensures v == 6
  {
    var xs := RangeTraversal(0, 4);
    assert xs == [0, 1, 2, 3];
    v := Aggregate(xs, 0, (acc: int, x: int, _: nat) => acc + x);
    RunningSums();
    assert xs[..4] == xs;
  }

  // ---------------------------------------------------------------- scan

  /** The running accumulators of a seeded scan: one per element, each the aggregate of the prefix ending there. */
  function Scanned<A, T>(s: seq<T>, seed: A, f: (A, T, nat) -> A): (r: seq<A>)
    ensures |r| == |s|
    ensures forall i :: 0 <= i < |s| ==> r[i] == Folded(s[..i + 1], seed, f)
  {
    if |s| == 0 then []
    else
      var n := |s| - 1;
      assert s[..n + 1] == s;
      assert forall j :: 0 <= j <= n ==> s[..n][..j] == s[..j];
      Scanned(s[..n], seed, f) + [Folded(s, seed, f)]
  }

  /** The last running accumulator of a scan is the aggregate of the whole source. */
  lemma ScanEndsWithAggregate<A, T>(s: seq<T>, seed: A, f: (A, T, nat) -> A)
    requires |s| > 0
    ensures Scanned(s, seed, f)[|s| - 1] == Folded(s, seed, f)
  {
    assert s[..|s|] == s;
  }

  /** The seeded generator of `scan`: yields the accumulator after every element. */
  method ScanSeeded<A, T>(src: seq<T>, aggFunc: (A, T, nat) -> A, seed: A) returns (out: seq<A>)
    ensures out == Scanned(src, seed, aggFunc)
  {
    out := [];
    var v := seed;
    var i := 0;
    while i < |src|
      invariant 0 <= i <= |src|
      invariant |out| == i
      invariant forall k :: 0 <= k < i ==> out[k] == Folded(src[..k + 1], seed, aggFunc)
      invariant v == Folded(src[..i], seed, aggFunc)
    {
      assert src[..i + 1][..i] == src[..i];
      v := aggFunc(v, src[i], i);
      out := out + [v];
      i := i + 1;
    }
  }

  /**
   * One traversal of `scan(src, aggFunc, seed)` where the accumulator has the element type. With
   * a seed, the seeded scan. Without one, the source's head is the seed and is not yielded; the
   * tail is scanned with positions counted from 0 again; an empty source throws.
   */
  function Scan<T>(s: seq<T>, f: (T, T, nat) -> T, seed: Option<T>): (r: Result<seq<T>>)
    ensures seed.Some? ==> r.Success? && |r.value| == |s|
    ensures seed.None? ==> (r.Failure? <==> |s| == 0)
    ensures r.Failure? ==> r.error == SequenceIsEmpty
    ensures seed.None? && |s| > 0 ==>
      && |r.value| == |s| - 1
      && forall i :: 0 <= i < |s| - 1 ==> r.value[i] == Folded(s[1..i + 2], s[0], f)
  {
    match seed
    case Some(v) => Success(Scanned(s, v, f))
    case None =>
      if |s| == 0 then Failure(SequenceIsEmpty)
      else
        assert forall j :: 0 <= j < |s| ==> s[1..][..j] == s[1..j + 1];
        Success(Scanned(s[1..], s[0], f))
  }

  /** A traversal of `scan` over a restartable source: with no seed it goes through `headTail`. */
  method ScanTraversal<T>(src: Iterable<T>, aggFunc: (T, T, nat) -> T, seed: Option<T>) returns (r: Result<seq<T>>)
    modifies src
    ensures src.opens == old(src.opens) + 1
    ensures r == Scan(src.gen(old(src.opens)), aggFunc, seed)
  {
    if seed.Some? {
      var xs := src.ToJson();
      var out := ScanSeeded(xs, aggFunc, seed.value);
      r := Success(out);
    } else {
      ghost var all := src.gen(src.opens);
      var ht := HeadTail(src);
      if ht.Failure? {
        r := Failure(ht.error);
      } else {
        var (head, tail) := ht.value;
        assert all == [head] + tail.cursor.Remaining();
        var rest := tail.Traverse();
        assert all[0] == head && all[1..] == rest;
        var out := ScanSeeded(rest, aggFunc, head);
        r := Success(out);
      }
    }
  }

  /** The library's scan examples over `range(0, 4)`, `range(1, 4)` and the empty list. */
  lemma ScanExamples()
    ensures Scan([0, 1, 2, 3], (a: int, x: int, _: nat) => a + x, Some(0)) == Success([0, 1, 3, 6])
    ensures Scan([0, 1, 2, 3], (a: int, x: int, _: nat) => a + x, None) == Success([1, 3, 6])
    ensures Scan([1, 2, 3, 4], (a: int, x: int, _: nat) => a + x, None) == Success([3, 6, 10])
    ensures Scan([0, 1, 2, 3], (a: int, x: int, _: nat) => a + x, Some(1)) == Success([1, 2, 4, 7])
    ensures Scan([], (a: int, x: int, _: nat) => a + x, Some(1)) == Success([])
    ensures Scan([], (a: int, x: int, _: nat) => a + x, None) == Failure(SequenceIsEmpty)
  {
    var f := (a: int, x: int, _: nat) => a + x;
    RunningSums();
    var s := [0, 1, 2, 3];
    assert s[1..] == [1, 2, 3];
    assert Scanned(s, 0, f) == [0, 1, 3, 6];
    assert Scanned(s, 1, f) == [1, 2, 4, 7];
    assert Scanned([1, 2, 3], 0, f) == [1, 3, 6];
    assert [1, 2, 3, 4][1..] == [2, 3, 4];
    assert Scanned([2, 3, 4], 1, f) == [3, 6, 10];
  }

  // ---------------------------------------------------------------- count / some / all

  /** How many elements pass `p`: as many as `filter` keeps. */
  function CountOf<T>(s: seq<T>, p: (T, nat) -> bool): (c: nat)
    ensures c == |Filtered(s, p)|
    ensures c <= |s|
  {
    if |s| == 0 then 0 else CountOf(s[..|s| - 1], p) + (if p(s[|s| - 1], |s| - 1) then 1 else 0)
  }

  /** A prefix never has more matches than the whole source. */
  lemma {:induction false} CountOfPrefix<T>(s: seq<T>, p: (T, nat) -> bool, k: nat)
    requires k <= |s|
    ensures CountOf(s[..k], p) <= CountOf(s, p)
    decreases |s| - k
  {
    if k < |s| {
      CountOfPrefix(s, p, k + 1);
      assert s[..k + 1][..k] == s[..k];
    } else {
      assert s[..k] == s;
    }
  }

  /** A matching position means at least one match. */
  lemma {:induction false} CountOfPositive<T>(s: seq<T>, p: (T, nat) -> bool, i: nat)
    requires i < |s| && p(s[i], i)
    ensures CountOf(s, p) > 0
  {
    CountOfPrefix(s, p, i + 1);
    assert s[..i + 1][..i] == s[..i];
  }

  /** No matching position means no match. */
  lemma {:induction false} CountOfNone<T>(s: seq<T>, p: (T, nat) -> bool)
    requires forall i :: 0 <= i < |s| ==> !p(s[i], i)
    ensures CountOf(s, p) == 0
  {
    if |s| > 0 {
      CountOfNone(s[..|s| - 1], p);
    }
  }

  /** `count(src, pred)`: the counting loop. */
  method Count<T>(src: seq<T>, pred: (T, nat) -> bool) returns (c: nat)
    ensures c == CountOf(src, pred)
  {
    c := 0;
    var i := 0;
    while i < |src|
      invariant 0 <= i <= |src|
      invariant c == CountOf(src[..i], pred)
    {
      assert src[..i + 1][..i] == src[..i];
      if pred(src[i], i) {
        c := c + 1;
      }
      i := i + 1;
    }
    assert src[..i] == src;
  }

  /** With its default predicate, `count` is the length. */
  lemma CountDefaultIsLength<T>(s: seq<T>)
    ensures CountOf(s, (_: T, _: nat) => true) == |s|
  {
    FilteredExtremes(s);
  }

  /** The library's count examples. */
  lemma CountExamples()
    ensures CountOf([1, 2, 3, 4], (_: int, _: nat) => true) == 4
    ensures CountOf([], (_: int, _: nat) => true) == 0
    ensures CountOf([1, 2, 3, 4], (x: int, _: nat) => x > 2) == 2
  {
    CountDefaultIsLength([1, 2, 3, 4]);
    var s := [1, 2, 3, 4];
    assert s[..3] == [1, 2, 3] && s[..2] == [1, 2] && s[..1] == [1];
  }

  /** `some(src, pred)`: stops at the first element that passes. */
  method SomeMatch<T>(src: seq<T>, pred: (T, nat) -> bool) returns (b: bool)
    ensures b <==> exists i :: 0 <= i < |src| && pred(src[i], i)
    ensures b <==> CountOf(src, pred) > 0
  {
    var i := 0;
    while i < |src|
      invariant 0 <= i <= |src|
      invariant forall k :: 0 <= k < i ==> !pred(src[k], k)
    {
      if pred(src[i], i) {
        CountOfPositive(src, pred, i);
        return true;
      }
      i := i + 1;
    }
    CountOfNone(src, pred);
    return false;
  }

  /** `all(src, pred)`: no element for which the negated predicate holds. */
  method AllMatch<T>(src: seq<T>, pred: (T, nat) -> bool) returns (b: bool)
    ensures b <==> forall i :: 0 <= i < |src| ==> pred(src[i], i)
  {
    var anyFails := SomeMatch(src, (x: T, i: nat) => !pred(x, i));
    b := !anyFails;
  }

  /** The library's `all` and `some` examples over four zeroes and over the empty list. */
  method SomeAllExamples() returns (allOnes: bool, allZeroes: bool, someOne: bool, someZero: bool, someOfEmpty: bool)
    ensures !allOnes && allZeroes && !someOne && someZero && !someOfEmpty
  {
    var zeroes := [0, 0, 0, 0];
    assert forall i :: 0 <= i < |zeroes| ==> zeroes[i] == 0;
    allOnes := AllMatch(zeroes, (x: int, _: nat) => x == 1);
    allZeroes := AllMatch(zeroes, (x: int, _: nat) => x == 0);
    someOne := SomeMatch(zeroes, (x: int, _: nat) => x == 1);
    someZero := SomeMatch(zeroes, (x: int, _: nat) => x == 0);
    someOfEmpty := SomeMatch([], (_: int, _: nat) => true);
  }
}
