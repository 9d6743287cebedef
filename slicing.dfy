/**
 * Prefix and suffix operators: takeWhile, take, skipWhile, skip and takeToInclusive.
 *
 * All of them stop consulting the predicate at the first decisive element, so the kept part is
 * always a prefix or a suffix of the source, never a scattered selection.
 */
module Slicing {
  import opened Seqs

  /** The first position at or after `from` whose element fails `p`, or `|s|` when none does. */
  function FirstFailure<T>(s: seq<T>, p: (T, nat) -> bool, from: nat): (k: nat)
    requires from <= |s|
    ensures from <= k <= |s|
    ensures forall i :: from <= i < k ==> p(s[i], i)
    ensures k < |s| ==> !p(s[k], k)
    decreases |s| - from
  {
    if from == |s| || !p(s[from], from) then from else FirstFailure(s, p, from + 1)
  }

  /** The predicate with its answer negated. */
  function Not<T>(p: (T, nat) -> bool): (q: (T, nat) -> bool)
  {
    (x: T, i: nat) => !p(x, i)
  }

  /** `n` clamped into `0..len`: how many elements `take(n)` keeps and `skip(n)` drops. */
  function Clamp(n: int, len: nat): (k: nat)
  {
    if n <= 0 then 0 else if n >= len then len else n
  }

  // ---------------------------------------------------------------- takeWhile / take

  /** One traversal of `takeWhile(src, pred)`: the longest prefix whose every element passes. */
  function TakenWhile<T>(s: seq<T>, p: (T, nat) -> bool): (r: seq<T>)
    ensures r <= s
    ensures forall i :: 0 <= i < |r| ==> p(s[i], i)
    ensures |r| < |s| ==> !p(s[|r|], |r|)
  {
    s[..FirstFailure(s, p, 0)]
  }

  /** The generator of `takeWhile`: yields until the first element that fails, then stops. */
  method TakeWhile<T>(src: seq<T>, pred: (T, nat) -> bool) returns (out: seq<T>)
    ensures out == TakenWhile(src, pred)
  {
    out := [];
    var i := 0;
    while i < |src|
      invariant 0 <= i <= |src|
      invariant out == src[..i]
      invariant forall k :: 0 <= k < i ==> pred(src[k], k)
    {
      var result := pred(src[i], i);
      if !result {
        break;
      }
      out := out + [src[i]];
      i := i + 1;
    }
    assert i == FirstFailure(src, pred, 0);
  }

  /** One traversal of `take(src, n)`: a `takeWhile` on the position, which keeps the first `n` elements. */
  function Take<T>(s: seq<T>, n: int): (r: seq<T>)
    ensures r == s[..Clamp(n, |s|)]
  {
    var p := (_: T, i: nat) => i < n;
    var r := TakenWhile(s, p);
    assert |r| > 0 ==> p(s[|r| - 1], |r| - 1);
    r
  }

  /** `take([1, 2, 3], 2)` is `[1, 2]`; a count beyond the length keeps everything, a negative one nothing. */
  lemma TakeExamples()
    ensures Take([1, 2, 3], 2) == [1, 2]
    ensures Take([1, 2, 3], 5) == [1, 2, 3]
    ensures Take([1, 2, 3], -1) == []
  {
    assert [1, 2, 3][..2] == [1, 2];
  }

  // ---------------------------------------------------------------- skipWhile / skip

  /**
   * One traversal of `skipWhile(src, pred)`: the suffix after the longest passing prefix. Once an
   * element fails, everything after it is kept, whatever the predicate would say.
   */
  function SkippedWhile<T>(s: seq<T>, p: (T, nat) -> bool): (r: seq<T>)
    ensures |r| <= |s| && r == s[|s| - |r|..]
    ensures forall i :: 0 <= i < |s| - |r| ==> p(s[i], i)
    ensures |r| > 0 ==> !p(r[0], |s| - |r|)
  {
    s[FirstFailure(s, p, 0)..]
  }

  /** `takeWhile` and `skipWhile` with the same predicate split the source in two. */
  lemma TakeWhileSkipWhileSplit<T>(s: seq<T>, p: (T, nat) -> bool)
    ensures TakenWhile(s, p) + SkippedWhile(s, p) == s
  {
  }

  /**
   * The generator of `skipWhile`: while still skipping, asks the predicate (bumping its counter);
   * from the first failure on, yields every element without asking again.
   */
  method SkipWhile<T>(src: seq<T>, pred: (T, nat) -> bool) returns (out: seq<T>)
    ensures out == SkippedWhile(src, pred)
  {
    out := [];
    var i := 0;
    var skipping := true;
    var pos := 0;
    while pos < |src|
      invariant 0 <= pos <= |src|
      invariant skipping ==> i == pos && out == []
      invariant !skipping ==> 0 < i <= pos && out == src[i - 1..pos] && !pred(src[i - 1], i - 1)
      invariant forall k :: 0 <= k < i && (skipping || k < i - 1) ==> pred(src[k], k)
    {
      var item := src[pos];
      var keep := true;
      if skipping {
        var result := pred(item, i);
        i := i + 1;
        if result {
          keep := false;
        }
      }
      if keep {
        skipping := false;
        out := out + [item];
      }
      pos := pos + 1;
    }
    if skipping {
      assert FirstFailure(src, pred, 0) == |src|;
    } else {
      assert FirstFailure(src, pred, 0) == i - 1;
    }
  }

  /** The library's example: skipping while `x < 3` over [1, 2, 3, 4, 1, 5] keeps the later 1. */
  lemma SkipWhileExample()
    ensures SkippedWhile([1, 2, 3, 4, 1, 5], (x: int, _: nat) => x < 3) == [3, 4, 1, 5]
  {
    var s := [1, 2, 3, 4, 1, 5];
    var p := (x: int, _: nat) => x < 3;
    assert FirstFailure(s, p, 2) == 2;
    assert FirstFailure(s, p, 0) == 2;
  }

  /** One traversal of `skip(src, n)`: a `skipWhile` on the position, which drops the first `n` elements. */
  function Skip<T>(s: seq<T>, n: int): (r: seq<T>)
    ensures r == s[Clamp(n, |s|)..]
  {
    var p := (_: T, i: nat) => i < n;
    var r := SkippedWhile(s, p);
    assert |r| < |s| ==> p(s[|s| - |r| - 1], |s| - |r| - 1);
    r
  }

  /** `take(n)` and `skip(n)` split the source at the same place. */
  lemma TakeSkipSplit<T>(s: seq<T>, n: int)
    ensures Take(s, n) + Skip(s, n) == s
  {
  }

  // ---------------------------------------------------------------- takeToInclusive

  /**
   * One traversal of `takeToInclusive(src, pred)`: a prefix that ends with the first element the
   * predicate accepts, or the whole source when it accepts none.
   */
  function TakenToInclusive<T>(s: seq<T>, p: (T, nat) -> bool): (r: seq<T>)
    ensures r <= s
    ensures forall i :: 0 <= i < |r| - 1 ==> !p(s[i], i)
    ensures r == s || (|r| > 0 && p(s[|r| - 1], |r| - 1))
  {
    var k := FirstFailure(s, Not(p), 0);
    s[..Min(k + 1, |s|)]
  }

  /** The generator of `takeToInclusive`: yields an element first, then stops if the predicate accepted it. */
  method TakeToInclusive<T>(src: seq<T>, pred: (T, nat) -> bool) returns (out: seq<T>)
    ensures out == TakenToInclusive(src, pred)
  {
    out := [];
    var i := 0;
    while i < |src|
      invariant 0 <= i <= |src|
      invariant out == src[..i]
      invariant forall k :: 0 <= k < i ==> !pred(src[k], k)
    {
      var result := pred(src[i], i);
      out := out + [src[i]];
      i := i + 1;
      if result {
        break;
      }
    }
    assert FirstFailure(src, Not(pred), 0) == if out == src[..i] && i > 0 && pred(src[i - 1], i - 1) then i - 1 else |src|;
  }
}
