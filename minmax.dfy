/**
 * `minMaxByImpl`: one eager pass that keeps every element tied for the best key.
 *
 * A key may be `undefined`. While the best key is `undefined` every element is appended and its
 * key becomes the best key; afterwards the comparer decides: a greater key restarts the list, a
 * tied key extends it, a smaller key is ignored. The comparer receives the candidate key, which
 * may be `undefined`, and the best key, which is not.
 */
module MinMax {
  import opened Wrappers
  import opened Comparers
  import opened Projection
  import opened Folds
  import Seqs

  /** The loop state: `currentBestKey` and `currentBest`. */
  datatype Best<T, K> = Best(key: Option<K>, items: seq<T>)

  /** One iteration of the loop for element `x` with key `k`. */
  function Step<T, K>(b: Best<T, K>, x: T, k: Option<K>, comparer: (Option<K>, K) -> int): Best<T, K>
  {
    if b.key.None? then Best(k, b.items + [x])
    else
      var c := comparer(k, b.key.value);
      if c > 0 then Best(k, [x])
      else if c == 0 then Best(b.key, b.items + [x])
      else b
  }

  /** The loop state after the whole of `s`. */
  function BestOf<T, K>(s: seq<T>, selector: (T, nat) -> Option<K>, comparer: (Option<K>, K) -> int): Best<T, K>
  {
    if |s| == 0 then Best(None, [])
    else
      var n := |s| - 1;
      Step(BestOf(s[..n], selector, comparer), s[n], selector(s[n], n), comparer)
  }

  /** The result of `minMaxByImpl`: the best list, or "no elements" for an empty source. */
  function MinMaxBy<T, K>(s: seq<T>, selector: (T, nat) -> Option<K>, comparer: (Option<K>, K) -> int): (r: Result<seq<T>>)
    ensures r.Failure? <==> |s| == 0
    ensures r.Failure? ==> r.error == NoElements
  {
    var b := BestOf(s, selector, comparer);
    if |b.items| == 0 then
      if |s| > 0 then
        BestOfNonEmpty(s, selector, comparer);
        assert false;
        Failure(NoElements)
      else Failure(NoElements)
    else Success(b.items)
  }

  /** The first element always lands in the list, and no step empties it again. */
  lemma {:induction false} BestOfNonEmpty<T, K>(s: seq<T>, selector: (T, nat) -> Option<K>, comparer: (Option<K>, K) -> int)
    ensures |s| > 0 <==> |BestOf(s, selector, comparer).items| > 0
  {
    if |s| > 0 {
      BestOfNonEmpty(s[..|s| - 1], selector, comparer);
    }
  }

  /** `minMaxByImpl(src, selector, comparer)`: the loop that pushes, resets or ignores each element. */
  method MinMaxByImpl<T, K>(src: seq<T>, selector: (T, nat) -> Option<K>, comparer: (Option<K>, K) -> int)
    returns (r: Result<seq<T>>)
    ensures r == MinMaxBy(src, selector, comparer)
  {
    var currentBestKey: Option<K> := None;
    var currentBest: seq<T> := [];
    var i := 0;
    while i < |src|
      invariant 0 <= i <= |src|
      invariant Best(currentBestKey, currentBest) == BestOf(src[..i], selector, comparer)
    {
      assert src[..i + 1][..i] == src[..i];
      var idx := i;
      i := i + 1;
      var key := selector(src[idx], idx);
      if currentBestKey.None? {
        currentBest := currentBest + [src[idx]];
        currentBestKey := key;
      } else {
        var comparison := comparer(key, currentBestKey.value);
        if comparison > 0 {
          currentBest := [src[idx]];
          currentBestKey := key;
        } else if comparison == 0 {
          currentBest := currentBest + [src[idx]];
        }
      }
    }
    assert src[..i] == src;
    if |currentBest| == 0 {
      return Failure(NoElements);
    }
    return Success(currentBest);
  }

  /** While every key is `undefined`, every element is appended: the result is the whole source. */
  lemma {:induction false} AllUndefinedKeepsEverything<T, K>(s: seq<T>, selector: (T, nat) -> Option<K>, comparer: (Option<K>, K) -> int)
    requires forall i :: 0 <= i < |s| ==> selector(s[i], i).None?
    ensures BestOf(s, selector, comparer) == Best(None, s)
  {
    if |s| > 0 {
      var n := |s| - 1;
      var prefix := s[..n];
      assert forall i :: 0 <= i < n ==> prefix[i] == s[i];
      AllUndefinedKeepsEverything(prefix, selector, comparer);
      assert BestOf(s, selector, comparer) == Step(Best(None, prefix), s[n], selector(s[n], n), comparer);
      Seqs.SplitLast(s);
    }
  }

  /** The comparer on defined keys. */
  function OnKeys<K>(comparer: (Option<K>, K) -> int): (K, K) -> int
  {
    (a: K, b: K) => comparer(Some(a), b)
  }

  /** The elements whose key ties `best`. */
  function TiedWith<T, K>(selector: (T, nat) -> Option<K>, comparer: (Option<K>, K) -> int, best: K): (T, nat) -> bool
  {
    (x: T, i: nat) => comparer(selector(x, i), best) == 0
  }

  /** `b` is a maximum of `s`: its key is some element's, no key compares greater, and its items are the elements tied with it. */
  ghost predicate IsMaximum<T, K>(s: seq<T>, selector: (T, nat) -> Option<K>, comparer: (Option<K>, K) -> int, b: Best<T, K>)
  {
    && b.key.Some?
    && (exists j :: 0 <= j < |s| && selector(s[j], j) == b.key)
    && (forall i :: 0 <= i < |s| ==> comparer(selector(s[i], i), b.key.value) <= 0)
    && b.items == Filtered(s, TiedWith(selector, comparer, b.key.value))
  }

  /**
   * With every key defined and a total-preorder comparer, the best key is the key of some element,
   * no element's key compares greater than it, and the result is exactly the elements tied with
   * it, in source order.
   */
  lemma {:induction false} BestIsMaximum<T, K(!new)>(s: seq<T>, selector: (T, nat) -> Option<K>, comparer: (Option<K>, K) -> int)
    requires TotalPreorder(OnKeys(comparer))
    requires forall i :: 0 <= i < |s| ==> selector(s[i], i).Some?
    requires |s| > 0
    ensures var b := BestOf(s, selector, comparer);
      && b.key.Some?
      && (exists j :: 0 <= j < |s| && selector(s[j], j) == b.key)
      && (forall i :: 0 <= i < |s| ==> comparer(selector(s[i], i), b.key.value) <= 0)
      && b.items == Filtered(s, TiedWith(selector, comparer, b.key.value))
  {
    var n := |s| - 1;
    var k := selector(s[n], n);
    if n == 0 {
      assert s[..0] == [];
      Reflexive(OnKeys(comparer), k.value);
    } else {
      var prefix := s[..n];
      assert forall i :: 0 <= i < n ==> prefix[i] == s[i];
      BestIsMaximum(prefix, selector, comparer);
      var b := BestOf(prefix, selector, comparer);
      assert IsMaximum(prefix, selector, comparer, b);
      if comparer(k, b.key.value) > 0 {
        StrictlyAbove(prefix, selector, comparer, b.key.value, k.value);
        BestGreaterStep(s, selector, comparer, k.value);
      } else {
        BestNotGreaterStep(s, selector, comparer);
      }
      assert IsMaximum(s, selector, comparer, BestOf(s, selector, comparer));
    }
  }

  /** Under a total preorder, a key above the best so far is above every earlier key, and ties itself. */
  lemma StrictlyAbove<T, K(!new)>(prefix: seq<T>, selector: (T, nat) -> Option<K>, comparer: (Option<K>, K) -> int, bk: K, kv: K)
    requires TotalPreorder(OnKeys(comparer))
    requires forall i :: 0 <= i < |prefix| ==> selector(prefix[i], i).Some? && comparer(selector(prefix[i], i), bk) <= 0
    requires comparer(Some(kv), bk) > 0
    ensures forall i :: 0 <= i < |prefix| ==> comparer(selector(prefix[i], i), kv) < 0
    ensures comparer(Some(kv), kv) == 0
  {
    var cmp := OnKeys(comparer);
    Reflexive(cmp, kv);
    assert cmp(bk, kv) < 0;
    forall i | 0 <= i < |prefix|
      ensures comparer(selector(prefix[i], i), kv) < 0
    {
      StrictBeforeWeak(cmp, selector(prefix[i], i).value, bk, kv);
    }
  }

  /** A key greater than the best so far restarts the list with the last element alone. */
  lemma BestGreaterStep<T, K>(s: seq<T>, selector: (T, nat) -> Option<K>, comparer: (Option<K>, K) -> int, kv: K)
    requires |s| > 1 && selector(s[|s| - 1], |s| - 1) == Some(kv)
    requires IsMaximum(s[..|s| - 1], selector, comparer, BestOf(s[..|s| - 1], selector, comparer))
    requires comparer(Some(kv), BestOf(s[..|s| - 1], selector, comparer).key.value) > 0
    requires comparer(Some(kv), kv) == 0
    requires forall i :: 0 <= i < |s| - 1 ==> comparer(selector(s[i], i), kv) < 0
    ensures IsMaximum(s, selector, comparer, BestOf(s, selector, comparer))
  {
    var n := |s| - 1;
    var prefix := s[..n];
    var x, k := s[n], selector(s[n], n);
    var b := BestOf(prefix, selector, comparer);
    var b' := BestOf(s, selector, comparer);
    assert b' == Step(b, x, k, comparer) == Best(k, [x]);
    var tied := TiedWith(selector, comparer, k.value);
    assert forall i :: 0 <= i < |s| ==> comparer(selector(s[i], i), k.value) <= 0;
    assert Filtered(prefix, tied) == [] by {
      forall i | 0 <= i < |prefix|
        ensures !tied(prefix[i], i)
      {
        assert prefix[i] == s[i];
      }
      CountOfNone(prefix, tied);
    }
    assert Filtered(s, tied) == Filtered(prefix, tied) + [x];
    assert selector(s[n], n) == b'.key;
    assert b'.items == Filtered(s, tied);
  }

  /** A key tied with the best so far extends the list; a smaller key leaves it as it is. */
  lemma BestNotGreaterStep<T, K>(s: seq<T>, selector: (T, nat) -> Option<K>, comparer: (Option<K>, K) -> int)
    requires |s| > 1
    requires IsMaximum(s[..|s| - 1], selector, comparer, BestOf(s[..|s| - 1], selector, comparer))
    requires comparer(selector(s[|s| - 1], |s| - 1), BestOf(s[..|s| - 1], selector, comparer).key.value) <= 0
    ensures IsMaximum(s, selector, comparer, BestOf(s, selector, comparer))
  {
    var n := |s| - 1;
    var prefix := s[..n];
    var x, k := s[n], selector(s[n], n);
    var b := BestOf(prefix, selector, comparer);
    var bk := b.key.value;
    var b' := BestOf(s, selector, comparer);
    var tied := TiedWith(selector, comparer, bk);
    assert b' == Step(b, x, k, comparer);
    var j :| 0 <= j < n && selector(prefix[j], j) == b.key;
    assert prefix[j] == s[j];
    forall i | 0 <= i < |s|
      ensures comparer(selector(s[i], i), bk) <= 0
    {
      if i < n {
        assert prefix[i] == s[i];
        assert comparer(selector(prefix[i], i), bk) <= 0;
      } else {
        assert selector(s[i], i) == k;
      }
    }
    assert b.items == Filtered(prefix, tied);
    if comparer(k, bk) == 0 {
      assert b' == Best(b.key, b.items + [x]);
      assert Filtered(s, tied) == Filtered(prefix, tied) + [x];
    } else {
      assert b' == b;
      assert Filtered(s, tied) == Filtered(prefix, tied) + [];
    }
    assert b'.key == b.key && b'.items == Filtered(s, tied);
  }

  /** Longest names: among ["ab", "c", "de"] keyed by length, both two-letter names tie for the maximum. */
  lemma MaxByExample()
    ensures MinMaxBy(["ab", "c", "de"], (x: string, _: nat) => Some(|x|), (a: Option<int>, b: int) => if a.Some? then a.value - b else -1)
      == Success(["ab", "de"])
  {
    var s := ["ab", "c", "de"];
    var sel := (x: string, _: nat) => Some(|x|);
    var cmp := (a: Option<int>, b: int) => if a.Some? then a.value - b else -1;
    assert s[..2] == ["ab", "c"] && s[..2][..1] == ["ab"] && ["ab"][..0] == [];
    assert BestOf(["ab"], sel, cmp) == Best(Some(2), ["ab"]);
    assert BestOf(["ab", "c"], sel, cmp) == Best(Some(2), ["ab"]);
    assert BestOf(s, sel, cmp) == Best(Some(2), ["ab", "de"]);
  }
}
