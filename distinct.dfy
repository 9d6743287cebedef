/**
 * Key-based de-duplication: distinctBy and except.
 *
 * Keys are compared with `==`; the library's pluggable equality comparers and set factories
 * stand for an equivalence that this model fixes to equality.
 */
module Distinct {
  import opened Seqs
  import opened Iterables
  import opened Projection

  /** The keys of the elements of `s`, each computed with the element's position. */
  function KeysOf<T, K>(s: seq<T>, key: (T, nat) -> K): (ks: set<K>)
    ensures forall i :: 0 <= i < |s| ==> key(s[i], i) in ks
    ensures forall k :: k in ks ==> exists i :: 0 <= i < |s| && key(s[i], i) == k
  {
    if |s| == 0 then {}
    else
      var n := |s| - 1;
      var r := KeysOf(s[..n], key) + {key(s[n], n)};
      assert forall k :: k in r ==> exists i :: 0 <= i < |s| && key(s[i], i) == k by {
        forall k | k in r ensures exists i :: 0 <= i < |s| && key(s[i], i) == k {
          if k == key(s[n], n) {
            assert 0 <= n < |s| && key(s[n], n) == k;
          } else {
            var i :| 0 <= i < n && key(s[..n][i], i) == k;
            assert key(s[i], i) == k;
          }
        }
      }
      assert forall i :: 0 <= i < n ==> key(s[i], i) == key(s[..n][i], i);
      r
  }

  /** Whether position `i` holds the first element of `s` with its key. */
  ghost predicate FirstWithKey<T, K>(s: seq<T>, key: (T, nat) -> K, i: nat)
    requires i < |s|
  {
    forall j :: 0 <= j < i ==> key(s[j], j) != key(s[i], i)
  }

  /** One traversal of `distinctBy(src, selector)`: every element whose key has not been seen before. */
  function DistinctBy<T, K(==)>(s: seq<T>, key: (T, nat) -> K): (r: seq<T>)
  {
    if |s| == 0 then []
    else
      var n := |s| - 1;
      DistinctBy(s[..n], key) + (if key(s[n], n) in KeysOf(s[..n], key) then [] else [s[n]])
  }

  /**
   * The positions `distinctBy` keeps: exactly the first occurrence of every key, in source
   * order, and the output reads the source at those positions.
   */
  function DistinctPositions<T, K(==)>(s: seq<T>, key: (T, nat) -> K): (idx: seq<nat>)
    ensures SelectedAt(DistinctBy(s, key), s, idx)
    ensures forall i: nat :: i in idx <==> i < |s| && FirstWithKey(s, key, i)
  {
    if |s| == 0 then []
    else
      var n := |s| - 1;
      var prefix := DistinctPositions(s[..n], key);
      FirstWithKeyStep(s, key, prefix);
      SelectedAtSnoc(DistinctBy(s[..n], key), s, prefix, key(s[n], n) !in KeysOf(s[..n], key));
      prefix + (if key(s[n], n) in KeysOf(s[..n], key) then [] else [n])
  }

  /** One more element is kept exactly when its key is new, and the earlier first occurrences stay first. */
  lemma FirstWithKeyStep<T, K>(s: seq<T>, key: (T, nat) -> K, prefix: seq<nat>)
    requires |s| > 0
    requires forall i: nat :: i in prefix <==> i < |s| - 1 && FirstWithKey(s[..|s| - 1], key, i)
    ensures var n := |s| - 1;
      forall i: nat :: i in prefix + (if key(s[n], n) in KeysOf(s[..n], key) then [] else [n]) <==> i < |s| && FirstWithKey(s, key, i)
  {
    var n := |s| - 1;
    forall i: nat | i < n
      ensures FirstWithKey(s[..n], key, i) <==> FirstWithKey(s, key, i)
    {
      assert forall j :: 0 <= j <= i ==> s[..n][j] == s[j];
    }
    assert key(s[n], n) in KeysOf(s[..n], key) <==> !FirstWithKey(s, key, n) by {
      if !FirstWithKey(s, key, n) {
        var j :| 0 <= j < n && key(s[j], j) == key(s[n], n);
        assert key(s[..n][j], j) == key(s[n], n);
      }
    }
  }

  /** No two elements `distinctBy` keeps have the same key. */
  lemma DistinctKeys<T, K>(s: seq<T>, key: (T, nat) -> K)
    ensures var idx := DistinctPositions(s, key);
      forall a, b :: 0 <= a < b < |idx| ==> key(s[idx[a]], idx[a]) != key(s[idx[b]], idx[b])
  {
    var idx := DistinctPositions(s, key);
    forall a, b | 0 <= a < b < |idx| ensures key(s[idx[a]], idx[a]) != key(s[idx[b]], idx[b]) {
      assert idx[b] in idx;
      assert FirstWithKey(s, key, idx[b]);
    }
  }

  /** `distinctBy` keeps one element per distinct key. */
  lemma {:induction false} DistinctByCount<T, K>(s: seq<T>, key: (T, nat) -> K)
    ensures |DistinctBy(s, key)| == |KeysOf(s, key)|
  {
    if |s| > 0 {
      DistinctByCount(s[..|s| - 1], key);
    }
  }

  /** The generator of `distinctBy`: a seen-set created afresh on every traversal. */
  method DistinctByTraversal<T, K(==)>(src: seq<T>, selector: (T, nat) -> K) returns (out: seq<T>)
    ensures out == DistinctBy(src, selector)
  {
    var seen: set<K> := {};
    out := [];
    var i := 0;
    while i < |src|
      invariant 0 <= i <= |src|
      invariant seen == KeysOf(src[..i], selector)
      invariant out == DistinctBy(src[..i], selector)
    {
      assert src[..i + 1][..i] == src[..i];
      var key := selector(src[i], i);
      if key !in seen {
        seen := seen + {key};
        out := out + [src[i]];
      }
      i := i + 1;
    }
    assert src[..i] == src;
  }

  /** Keying [0, 1, 2, 3] by `x / 2` keeps [0, 2]. */
  lemma DistinctByExample()
    ensures DistinctBy([0, 1, 2, 3], (x: int, _: nat) => x / 2) == [0, 2]
  {
    var f := (x: int, _: nat) => x / 2;
    var s := [0, 1, 2, 3];
    assert s[..3] == [0, 1, 2] && s[..3][..2] == [0, 1] && s[..3][..2][..1] == [0];
    assert [0][..0] == [];
    assert KeysOf([0], f) == {0};
    assert KeysOf([0, 1], f) == {0};
    assert KeysOf([0, 1, 2], f) == {0, 1};
    assert DistinctBy([0], f) == [0];
    assert DistinctBy([0, 1], f) == [0];
    assert DistinctBy([0, 1, 2], f) == [0, 2];
  }

  // ---------------------------------------------------------------- except

  /** The elements of a list, as a set. */
  function Elements<T>(s: seq<T>): (r: set<T>)
    ensures forall x :: x in r ==> x in s
    ensures forall i :: 0 <= i < |s| ==> s[i] in r
  {
    set x | x in s
  }

  /** `except(src, seq)` at call time: drains `seq` once into a set. Later traversals reuse the set. */
  method ExcludedSet<T>(other: Iterable<T>) returns (excluded: set<T>)
    modifies other
    ensures other.opens == old(other.opens) + 1
    ensures excluded == Elements(other.gen(old(other.opens)))
  {
    var items := other.ToJson();
    excluded := {};
    var i := 0;
    while i < |items|
      invariant 0 <= i <= |items|
      invariant excluded == Elements(items[..i])
    {
      assert items[..i + 1] == items[..i] + [items[i]];
      excluded := excluded + {items[i]};
      i := i + 1;
    }
    assert items[..i] == items;
  }

  /** One traversal of `except`: the source elements not in the excluded set, in source order, duplicates kept. */
  function Excepted<T>(s: seq<T>, excluded: set<T>): (r: seq<T>)
    ensures forall x :: x in r ==> x in s && x !in excluded
    ensures forall i :: 0 <= i < |s| && s[i] !in excluded ==> s[i] in r
  {
    var p := (x: T, _: nat) => x !in excluded;
    var idx := KeptPositions(s, p);
    assert forall x :: x in Filtered(s, p) ==> x in s && x !in excluded by {
      forall x | x in Filtered(s, p) ensures x in s && x !in excluded {
        var k :| 0 <= k < |Filtered(s, p)| && Filtered(s, p)[k] == x;
        assert idx[k] in idx;
      }
    }
    assert forall i :: 0 <= i < |s| && s[i] !in excluded ==> s[i] in Filtered(s, p) by {
      forall i | 0 <= i < |s| && s[i] !in excluded ensures s[i] in Filtered(s, p) {
        var i': nat := i;
        assert i' in idx;
        var k :| 0 <= k < |idx| && idx[k] == i';
        assert Filtered(s, p)[k] == s[i];
      }
    }
    Filtered(s, p)
  }

  /** `[1, 2, 3]` except `[1, 3]` is `[2]`. */
  lemma ExceptExample()
    ensures Excepted([1, 2, 3], Elements([1, 3])) == [2]
  {
    var s := [1, 2, 3];
    var p := (x: int, _: nat) => x !in Elements([1, 3]);
    assert s[..2] == [1, 2] && s[..1] == [1];
    assert Filtered(s, p) == [2];
  }
}
