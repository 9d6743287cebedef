/**
 * The join family: `groupJoin`, `join`, `leftOuterJoin`, `fullOuterGroupJoin` and
 * `fullOuterJoin`.
 *
 * `groupJoin` fills a lookup from the inner source when it is called and then pairs every outer
 * element with the bucket of its key on each traversal. `join` and `leftOuterJoin` expand those
 * pairs into rows. `fullOuterGroupJoin` fills both lookups when it is called and yields one
 * result per key of either side. `fullOuterJoin` expands each key into the cross product of its
 * two buckets. A missing bucket is the empty list (`lookup.get(key) || []`).
 *
 * Each traversal is specified against an independent reference. For the inner and left joins
 * that is a nested loop over the outer and inner elements. For the full joins it is the keys of
 * either side, each taken once.
 */
module Joins {
  import opened Wrappers
  import opened Seqs
  import opened Iterables
  import opened Projection
  import opened Folds
  import opened Distinct
  import opened Materialize
  import opened Grouping

  // ---------------------------------------------------------------- groupJoin

  /** One traversal of `groupJoin`: every outer element, in order, with the bucket of its key. */
  function GroupJoined<T, TI, K(==), R>(s: seq<T>, lookup: OrderedMap<K, seq<TI>>, outerKey: (T, nat) -> K, selector: (T, seq<TI>) -> R): (r: seq<R>)
    ensures |r| == |s|
    ensures forall i :: 0 <= i < |s| ==> r[i] == selector(s[i], Get(lookup, outerKey(s[i], i)))
  {
    Mapped(s, (o: T, i: nat) => selector(o, Get(lookup, outerKey(o, i))))
  }

  /**
   * Exactly one result per outer element, in outer order. Its bucket holds the inner elements
   * that have the outer element's key, in inner order. The bucket is empty, not missing, when no
   * inner element has that key.
   */
  lemma GroupJoinBuckets<T, TI, K, R>(s: seq<T>, inner: seq<TI>, outerKey: (T, nat) -> K, innerKey: (TI, nat) -> K, selector: (T, seq<TI>) -> R)
    ensures var r := GroupJoined(s, LookupOf(inner, innerKey, Identity()), outerKey, selector);
      && |r| == |s|
      && (forall i :: 0 <= i < |s| ==> r[i] == selector(s[i], Filtered(inner, KeyIs(innerKey, outerKey(s[i], i)))))
      && (forall i :: 0 <= i < |s| && outerKey(s[i], i) !in KeysOf(inner, innerKey) ==> r[i] == selector(s[i], []))
  {
    var lookup := LookupOf(inner, innerKey, Identity());
    forall i | 0 <= i < |s|
      ensures Get(lookup, outerKey(s[i], i)) == Filtered(inner, KeyIs(innerKey, outerKey(s[i], i)))
      ensures outerKey(s[i], i) !in KeysOf(inner, innerKey) ==> Get(lookup, outerKey(s[i], i)) == []
    {
      var k := outerKey(s[i], i);
      LookupBuckets(inner, innerKey, Identity(), k);
      IdentityBucket(inner, innerKey, k);
      LookupDomain(inner, innerKey, Identity(), k);
    }
  }

  /**
   * The iterable `_groupJoin` returns: the outer source, and the lookup that was filled from the
   * inner source when the operator was called.
   */
  class GroupJoinIterable<T, TI, K(==), R> {
    const outer: Iterable<T>
    const lookup: OrderedMap<K, seq<TI>>
    const outerKey: (T, nat) -> K
    const selector: (T, seq<TI>) -> R

    constructor (outer: Iterable<T>, lookup: OrderedMap<K, seq<TI>>, outerKey: (T, nat) -> K, selector: (T, seq<TI>) -> R)
      ensures this.outer == outer && this.lookup == lookup
      ensures this.outerKey == outerKey && this.selector == selector
    {
      this.outer := outer;
      this.lookup := lookup;
      this.outerKey := outerKey;
      this.selector := selector;
    }

    /**
     * One traversal: a fresh cursor over the outer source, a counter restarted at 0, and the
     * bucket of each outer element's key.
     */
    method Traverse() returns (out: seq<R>)
      modifies outer
      ensures outer.opens == old(outer.opens) + 1
      ensures out == GroupJoined(outer.gen(old(outer.opens)), lookup, outerKey, selector)
    {
      ghost var xs := outer.gen(outer.opens);
      var cursor := outer.Open();
      out := [];
      var i := 0;
      var item := cursor.Next();
      while item.Some?
        invariant outer.opens == old(outer.opens) + 1
        invariant cursor.Valid() && cursor.items == xs
        invariant cursor.pos == i + (if item.Some? then 1 else 0)
        invariant item.None? ==> cursor.pos == |xs|
        invariant item.Some? ==> item.value == xs[i]
        invariant out == GroupJoined(xs[..i], lookup, outerKey, selector)
        decreases |xs| - i
      {
        var idx := i;
        i := i + 1;
        var key := outerKey(item.value, idx);
        var innerItems := Get(lookup, key);
        out := out + [selector(item.value, innerItems)];
        item := cursor.Next();
      }
      assert xs[..i] == xs;
    }
  }

  /** `_groupJoin`: the inner source is traversed once, at the call, to fill the lookup. */
  method GroupJoin<T, TI, K(==), R>(src: Iterable<T>, innerSeq: Iterable<TI>, outerKeySelector: (T, nat) -> K, innerKeySelector: (TI, nat) -> K, selector: (T, seq<TI>) -> R)
    returns (j: GroupJoinIterable<T, TI, K, R>)
    modifies innerSeq
    ensures fresh(j)
    ensures innerSeq.opens == old(innerSeq.opens) + 1
    ensures j.outer == src && j.outerKey == outerKeySelector && j.selector == selector
    ensures j.lookup == LookupOf(innerSeq.gen(old(innerSeq.opens)), innerKeySelector, Identity())
  {
    var xs := innerSeq.ToJson();
    var lookup := ToLookup(xs, innerKeySelector, Identity());
    j := new GroupJoinIterable(src, lookup, outerKeySelector, selector);
  }

  // ---------------------------------------------------------------- join

  /** The pairing selector `join` and `leftOuterJoin` hand to `groupJoin`. */
  function Pairing<T, TI>(o: T, bucket: seq<TI>): (T, seq<TI>)
  {
    (o, bucket)
  }

  /** `i => selector(outer, i)`: the row an inner element makes with a fixed outer element. */
  function RowWith<T, TI, R>(selector: (T, TI) -> R, o: T): (TI, nat) -> R
  {
    (x: TI, _: nat) => selector(o, x)
  }

  /** The `selectMany` projection of `join`: the rows of one outer element and its bucket. */
  function JoinRows<T, TI, R>(selector: (T, TI) -> R): ((T, seq<TI>), nat) -> seq<R>
  {
    (p: (T, seq<TI>), _: nat) => Mapped(p.1, RowWith(selector, p.0))
  }

  /** One traversal of `join`: the group join's pairs, each expanded into its rows. */
  function Joined<T, TI, K(==), R>(s: seq<T>, lookup: OrderedMap<K, seq<TI>>, outerKey: (T, nat) -> K, selector: (T, TI) -> R): seq<R>
  {
    FlatMapped(GroupJoined(s, lookup, outerKey, Pairing), JoinRows(selector))
  }

  /** The rows a nested loop makes for outer element `o` with key `k`: one per inner element with that key, in inner order. */
  function Matches<T, TI, K(==), R>(o: T, k: K, inner: seq<TI>, innerKey: (TI, nat) -> K, selector: (T, TI) -> R): seq<R>
  {
    if |inner| == 0 then []
    else
      var n := |inner| - 1;
      Matches(o, k, inner[..n], innerKey, selector) + (if innerKey(inner[n], n) == k then [selector(o, inner[n])] else [])
  }

  /** The inner join as two nested loops: for each outer element in order, its matches in inner order. */
  function NestedLoopJoin<T, TI, K(==), R>(s: seq<T>, inner: seq<TI>, outerKey: (T, nat) -> K, innerKey: (TI, nat) -> K, selector: (T, TI) -> R): seq<R>
  {
    if |s| == 0 then []
    else
      var n := |s| - 1;
      NestedLoopJoin(s[..n], inner, outerKey, innerKey, selector) + Matches(s[n], outerKey(s[n], n), inner, innerKey, selector)
  }

  /** The rows of a bucket are the nested loop's matches. */
  lemma {:induction false} BucketRows<T, TI, K, R>(o: T, k: K, inner: seq<TI>, innerKey: (TI, nat) -> K, selector: (T, TI) -> R)
    ensures Mapped(Bucket(inner, innerKey, Identity(), k), RowWith(selector, o)) == Matches(o, k, inner, innerKey, selector)
  {
    if |inner| > 0 {
      var n := |inner| - 1;
      BucketRows(o, k, inner[..n], innerKey, selector);
      var b := Bucket(inner[..n], innerKey, Identity(), k);
      if innerKey(inner[n], n) == k {
        assert (b + [inner[n]])[..|b|] == b;
      }
    }
  }

  /** How one more outer element extends the group join's pairs. */
  lemma GroupJoinedPrefix<T, TI, K, R>(s: seq<T>, lookup: OrderedMap<K, seq<TI>>, outerKey: (T, nat) -> K, selector: (T, seq<TI>) -> R)
    requires |s| > 0
    ensures var n := |s| - 1;
      GroupJoined(s, lookup, outerKey, selector)[..n] == GroupJoined(s[..n], lookup, outerKey, selector)
  {
  }

  /**
   * `join` is the nested-loop inner join: for each outer element in order, one row per inner
   * element with the same key, in inner order. An outer element without a match makes no row.
   */
  lemma {:induction false} JoinIsNestedLoop<T, TI, K, R>(s: seq<T>, inner: seq<TI>, outerKey: (T, nat) -> K, innerKey: (TI, nat) -> K, selector: (T, TI) -> R)
    ensures Joined(s, LookupOf(inner, innerKey, Identity()), outerKey, selector) == NestedLoopJoin(s, inner, outerKey, innerKey, selector)
  {
    if |s| > 0 {
      var n := |s| - 1;
      var lookup := LookupOf(inner, innerKey, Identity());
      JoinIsNestedLoop(s[..n], inner, outerKey, innerKey, selector);
      GroupJoinedPrefix(s, lookup, outerKey, Pairing);
      var k := outerKey(s[n], n);
      LookupBuckets(inner, innerKey, Identity(), k);
      BucketRows(s[n], k, inner, innerKey, selector);
    }
  }

  /** An outer element makes as many rows as there are inner elements with its key, and none when there are none. */
  lemma {:induction false} MatchesCount<T, TI, K, R>(o: T, k: K, inner: seq<TI>, innerKey: (TI, nat) -> K, selector: (T, TI) -> R)
    ensures |Matches(o, k, inner, innerKey, selector)| == CountOf(inner, KeyIs(innerKey, k))
    ensures k !in KeysOf(inner, innerKey) ==> Matches(o, k, inner, innerKey, selector) == []
  {
    if |inner| > 0 {
      MatchesCount(o, k, inner[..|inner| - 1], innerKey, selector);
    }
  }

  /** The number of rows of a join: for each outer element, the number of inner elements with its key. */
  function MatchTotal<T, TI, K(==)>(s: seq<T>, inner: seq<TI>, outerKey: (T, nat) -> K, innerKey: (TI, nat) -> K): nat
  {
    if |s| == 0 then 0
    else
      var n := |s| - 1;
      MatchTotal(s[..n], inner, outerKey, innerKey) + CountOf(inner, KeyIs(innerKey, outerKey(s[n], n)))
  }

  /** The join has one row per matching (outer, inner) pair. */
  lemma {:induction false} JoinCount<T, TI, K, R>(s: seq<T>, inner: seq<TI>, outerKey: (T, nat) -> K, innerKey: (TI, nat) -> K, selector: (T, TI) -> R)
    ensures |NestedLoopJoin(s, inner, outerKey, innerKey, selector)| == MatchTotal(s, inner, outerKey, innerKey)
  {
    if |s| > 0 {
      var n := |s| - 1;
      JoinCount(s[..n], inner, outerKey, innerKey, selector);
      MatchesCount(s[n], outerKey(s[n], n), inner, innerKey, selector);
    }
  }

  /** The rows of one traversal of a group-join iterable built with the pairing selector, as `join` yields them. */
  method JoinTraversal<T, TI, K(==), R>(j: GroupJoinIterable<T, TI, K, (T, seq<TI>)>, selector: (T, TI) -> R) returns (rows: seq<R>)
    requires j.selector == Pairing
    modifies j.outer
    ensures j.outer.opens == old(j.outer.opens) + 1
    ensures rows == Joined(j.outer.gen(old(j.outer.opens)), j.lookup, j.outerKey, selector)
  {
    var pairs := j.Traverse();
    rows := FlatMap(pairs, JoinRows(selector));
  }

  // ---------------------------------------------------------------- leftOuterJoin

  /** The `selectMany` projection of `leftOuterJoin`: the bucket, or `[undefined]` when it is empty, each paired with the outer element. */
  function LeftJoinRows<T, TI, R>(selector: (T, Option<TI>) -> R): ((T, seq<TI>), nat) -> seq<R>
  {
    (p: (T, seq<TI>), _: nat) => Mapped(DefaultIfEmpty(p.1), RowWith(selector, p.0))
  }

  /** One traversal of `leftOuterJoin`. */
  function LeftJoined<T, TI, K(==), R>(s: seq<T>, lookup: OrderedMap<K, seq<TI>>, outerKey: (T, nat) -> K, selector: (T, Option<TI>) -> R): seq<R>
  {
    FlatMapped(GroupJoined(s, lookup, outerKey, Pairing), LeftJoinRows(selector))
  }

  /** A left-join selector applied to a matched inner element. */
  function Matched<T, TI, R>(selector: (T, Option<TI>) -> R): (T, TI) -> R
  {
    (o: T, x: TI) => selector(o, Some(x))
  }

  /** The rows of one outer element in a nested-loop left join: its matches, or one row with `undefined` when there are none. */
  function LeftMatches<T, TI, K(==), R>(o: T, k: K, inner: seq<TI>, innerKey: (TI, nat) -> K, selector: (T, Option<TI>) -> R): seq<R>
  {
    var m := Matches(o, k, inner, innerKey, Matched(selector));
    if |m| == 0 then [selector(o, None)] else m
  }

  /** The left outer join as two nested loops. */
  function NestedLoopLeftJoin<T, TI, K(==), R>(s: seq<T>, inner: seq<TI>, outerKey: (T, nat) -> K, innerKey: (TI, nat) -> K, selector: (T, Option<TI>) -> R): seq<R>
  {
    if |s| == 0 then []
    else
      var n := |s| - 1;
      NestedLoopLeftJoin(s[..n], inner, outerKey, innerKey, selector) + LeftMatches(s[n], outerKey(s[n], n), inner, innerKey, selector)
  }

  /** The rows of a bucket after `defaultIfEmpty` are the nested loop's left matches. */
  lemma LeftBucketRows<T, TI, K, R>(o: T, k: K, inner: seq<TI>, innerKey: (TI, nat) -> K, selector: (T, Option<TI>) -> R)
    ensures Mapped(DefaultIfEmpty(Bucket(inner, innerKey, Identity(), k)), RowWith(selector, o)) == LeftMatches(o, k, inner, innerKey, selector)
  {
    var b := Bucket(inner, innerKey, Identity(), k);
    BucketRows(o, k, inner, innerKey, Matched(selector));
    var m := Mapped(b, RowWith(Matched(selector), o));
    var d := Mapped(DefaultIfEmpty(b), RowWith(selector, o));
    if |b| > 0 {
      assert forall i :: 0 <= i < |b| ==> d[i] == m[i];
    }
  }

  /**
   * `leftOuterJoin` is the nested-loop left join: each outer element makes one row per inner
   * element with its key, in inner order, or exactly one row with `undefined` when it has none.
   */
  lemma {:induction false} LeftJoinIsNestedLoop<T, TI, K, R>(s: seq<T>, inner: seq<TI>, outerKey: (T, nat) -> K, innerKey: (TI, nat) -> K, selector: (T, Option<TI>) -> R)
    ensures LeftJoined(s, LookupOf(inner, innerKey, Identity()), outerKey, selector) == NestedLoopLeftJoin(s, inner, outerKey, innerKey, selector)
  {
    if |s| > 0 {
      var n := |s| - 1;
      var lookup := LookupOf(inner, innerKey, Identity());
      LeftJoinIsNestedLoop(s[..n], inner, outerKey, innerKey, selector);
      GroupJoinedPrefix(s, lookup, outerKey, Pairing);
      var k := outerKey(s[n], n);
      LookupBuckets(inner, innerKey, Identity(), k);
      LeftBucketRows(s[n], k, inner, innerKey, selector);
    }
  }

  /** `(o, i) => key(o, i)` has no inner match: the outer elements a left join keeps alone. */
  function Unmatched<T, TI, K(==)>(inner: seq<TI>, outerKey: (T, nat) -> K, innerKey: (TI, nat) -> K): (T, nat) -> bool
  {
    (o: T, i: nat) => outerKey(o, i) !in KeysOf(inner, innerKey)
  }

  /**
   * A left join has the inner join's rows plus exactly one row per unmatched outer element, so
   * never fewer rows than outer elements.
   */
  lemma {:induction false} LeftJoinCount<T, TI, K, R>(s: seq<T>, inner: seq<TI>, outerKey: (T, nat) -> K, innerKey: (TI, nat) -> K, selector: (T, Option<TI>) -> R)
    ensures |NestedLoopLeftJoin(s, inner, outerKey, innerKey, selector)|
      == |NestedLoopJoin(s, inner, outerKey, innerKey, Matched(selector))| + CountOf(s, Unmatched(inner, outerKey, innerKey))
    ensures |NestedLoopLeftJoin(s, inner, outerKey, innerKey, selector)| >= |s|
  {
    if |s| > 0 {
      var n := |s| - 1;
      var k := outerKey(s[n], n);
      var m := Matches(s[n], k, inner, innerKey, Matched(selector));
      LeftJoinCount(s[..n], inner, outerKey, innerKey, selector);
      assert |NestedLoopLeftJoin(s, inner, outerKey, innerKey, selector)|
        == |NestedLoopLeftJoin(s[..n], inner, outerKey, innerKey, selector)| + |LeftMatches(s[n], k, inner, innerKey, selector)|;
      assert |NestedLoopJoin(s, inner, outerKey, innerKey, Matched(selector))|
        == |NestedLoopJoin(s[..n], inner, outerKey, innerKey, Matched(selector))| + |m|;
      assert CountOf(s, Unmatched(inner, outerKey, innerKey))
        == CountOf(s[..n], Unmatched(inner, outerKey, innerKey)) + (if k in KeysOf(inner, innerKey) then 0 else 1);
      if k in KeysOf(inner, innerKey) {
        assert |m| > 0 by {
          MatchesCount(s[n], k, inner, innerKey, Matched(selector));
          var i :| 0 <= i < |inner| && innerKey(inner[i], i) == k;
          CountOfPositive(inner, KeyIs(innerKey, k), i);
        }
      } else {
        assert m == [] by {
          MatchesCount(s[n], k, inner, innerKey, Matched(selector));
        }
      }
    }
  }

  /** The rows of one traversal of a group-join iterable built with the pairing selector, as `leftOuterJoin` yields them. */
  method LeftJoinTraversal<T, TI, K(==), R>(j: GroupJoinIterable<T, TI, K, (T, seq<TI>)>, selector: (T, Option<TI>) -> R) returns (rows: seq<R>)
    requires j.selector == Pairing
    modifies j.outer
    ensures j.outer.opens == old(j.outer.opens) + 1
    ensures rows == LeftJoined(j.outer.gen(old(j.outer.opens)), j.lookup, j.outerKey, selector)
  {
    var pairs := j.Traverse();
    rows := FlatMap(pairs, LeftJoinRows(selector));
  }

  // ---------------------------------------------------------------- fullOuterGroupJoin

  /** `x => x`: the key selector `distinct()` compares with. */
  function SelfKey<K>(k: K, i: nat): K
  {
    k
  }

  /** No value occurs twice. */
  ghost predicate NoRepeats<K>(a: seq<K>)
  {
    forall i, j :: 0 <= i < j < |a| ==> a[i] != a[j]
  }

  /** `k => !seen.has(k)`: keeps the values outside `ks`. */
  function Outside<K(==)>(ks: set<K>): (K, nat) -> bool
  {
    (k: K, _: nat) => k !in ks
  }

  /**
   * The keys `_fullOuterGroupJoin` visits: the left lookup's keys followed by the right lookup's
   * (`concat`), each kept at its first occurrence (`distinct`).
   */
  function AllKeys<K(==), V, W>(left: OrderedMap<K, V>, right: OrderedMap<K, W>): seq<K>
  {
    DistinctBy(left.keys + right.keys, SelfKey)
  }

  /** One traversal of `fullOuterGroupJoin` over its two lookups: each key with both of its buckets. */
  function FullOuterGroupJoined<T, TR, K(==), R>(left: OrderedMap<K, seq<T>>, right: OrderedMap<K, seq<TR>>, selector: (seq<T>, seq<TR>, K) -> R): (r: seq<R>)
    ensures |r| == |AllKeys(left, right)|
    ensures forall j :: 0 <= j < |r| ==>
      var k := AllKeys(left, right)[j];
      r[j] == selector(Get(left, k), Get(right, k), k)
  {
    Mapped(AllKeys(left, right), (k: K, _: nat) => selector(Get(left, k), Get(right, k), k))
  }

  /** A list without repeats is its own `distinct()`. */
  lemma {:induction false} DistinctOfNoRepeats<K>(a: seq<K>)
    requires NoRepeats(a)
    ensures DistinctBy(a, SelfKey) == a
  {
    if |a| > 0 {
      var n := |a| - 1;
      var pre := a[..n];
      assert NoRepeats(pre) by {
        forall i, j | 0 <= i < j < n
          ensures pre[i] != pre[j]
        {
          assert pre[i] == a[i] && pre[j] == a[j];
        }
      }
      DistinctOfNoRepeats(pre);
      assert a[n] !in KeysOf(pre, SelfKey);
      assert pre + [a[n]] == a;
    }
  }

  /**
   * `distinct()` over two lists without repeats: the first list, then the values of the second
   * that the first lacks, in their order.
   */
  lemma {:induction false} DistinctOfConcat<K>(a: seq<K>, b: seq<K>, ka: set<K>)
    requires NoRepeats(a) && NoRepeats(b)
    requires forall x :: x in ka <==> x in a
    ensures DistinctBy(a + b, SelfKey) == a + Filtered(b, Outside(ka))
  {
    if |b| == 0 {
      DistinctOfNoRepeats(a);
      assert a + b == a;
    } else {
      var m := |b| - 1;
      var x := b[m];
      var pre := a + b[..m];
      assert NoRepeats(b[..m]) by {
        forall i, j | 0 <= i < j < m
          ensures b[..m][i] != b[..m][j]
        {
          assert b[..m][i] == b[i] && b[..m][j] == b[j];
        }
      }
      DistinctOfConcat(a, b[..m], ka);
      ConcatStep(a, b, ka);
    }
  }

  /** One more value of the second list: `distinct()` keeps it exactly when the first list lacks it. */
  lemma ConcatStep<K>(a: seq<K>, b: seq<K>, ka: set<K>)
    requires |b| > 0 && NoRepeats(b)
    requires forall x :: x in ka <==> x in a
    requires DistinctBy(a + b[..|b| - 1], SelfKey) == a + Filtered(b[..|b| - 1], Outside(ka))
    ensures DistinctBy(a + b, SelfKey) == a + Filtered(b, Outside(ka))
  {
    var m := |b| - 1;
    var x := b[m];
    var tail: seq<K> := if x in ka then [] else [x];
    ConcatDistinctLast(a, b, ka);
    assert Filtered(b, Outside(ka)) == Filtered(b[..m], Outside(ka)) + tail;
    assert a + (Filtered(b[..m], Outside(ka)) + tail) == (a + Filtered(b[..m], Outside(ka))) + tail;
  }

  /** The last value of the second list is new to `distinct()` exactly when the first list lacks it. */
  lemma ConcatDistinctLast<K>(a: seq<K>, b: seq<K>, ka: set<K>)
    requires |b| > 0 && NoRepeats(b)
    requires forall x :: x in ka <==> x in a
    ensures var m := |b| - 1;
      DistinctBy(a + b, SelfKey) == DistinctBy(a + b[..m], SelfKey) + (if b[m] in ka then [] else [b[m]])
  {
    var m := |b| - 1;
    var x := b[m];
    var pre := a + b[..m];
    var c := a + b;
    assert c[..|c| - 1] == pre && c[|c| - 1] == x;
    DistinctByLast(c, SelfKey);
    assert (x in KeysOf(pre, SelfKey)) == (x in ka) by {
      assert x !in b[..m];
      SelfKeys(pre, x);
    }
  }

  /** `distinctBy` over a non-empty list: the last element is kept exactly when its key is new. */
  lemma DistinctByLast<T, K>(s: seq<T>, key: (T, nat) -> K)
    requires |s| > 0
    ensures var n := |s| - 1;
      DistinctBy(s, key) == DistinctBy(s[..n], key) + (if key(s[n], n) in KeysOf(s[..n], key) then [] else [s[n]])
  {
  }

  /** The keys of a list under `x => x` are its values. */
  lemma SelfKeys<K>(s: seq<K>, x: K)
    ensures x in KeysOf(s, SelfKey) <==> x in s
  {
    if x in s {
      var i :| 0 <= i < |s| && s[i] == x;
      assert SelfKey(s[i], i) == x;
    }
  }

  /** A value survives a filter exactly when some position holding it passes. */
  lemma FilteredMembers<T>(s: seq<T>, p: (T, nat) -> bool, x: T)
    ensures x in Filtered(s, p) <==> exists i :: 0 <= i < |s| && s[i] == x && p(s[i], i)
  {
    var idx := KeptPositions(s, p);
    var r := Filtered(s, p);
    if x in r {
      var k :| 0 <= k < |r| && r[k] == x;
      assert idx[k] in idx;
    }
    if exists i :: 0 <= i < |s| && s[i] == x && p(s[i], i) {
      var i :| 0 <= i < |s| && s[i] == x && p(s[i], i);
      var i': nat := i;
      assert i' in idx;
      var k :| 0 <= k < |idx| && idx[k] == i';
      assert r[k] == x;
    }
  }

  /** The keys of a lookup are exactly the keys some element has. */
  lemma LookupKeys<T, K, V>(s: seq<T>, key: (T, nat) -> K, value: (T, nat) -> V, k: K)
    ensures NoRepeats(LookupOf(s, key, value).keys)
    ensures k in LookupOf(s, key, value).keys <==> k in KeysOf(s, key)
    ensures k in LookupOf(s, key, value).entries <==> k in KeysOf(s, key)
  {
    LookupValid(s, key, value);
    LookupDomain(s, key, value, k);
  }

  /**
   * The keys of a full outer group join: every key of the left side in first-seen order, then
   * every key only the right side has, in the right side's first-seen order. So each key of
   * either side comes exactly once.
   */
  lemma FullOuterKeys<T, TR, K>(left: seq<T>, right: seq<TR>, leftKey: (T, nat) -> K, rightKey: (TR, nat) -> K)
    ensures var l, r := LookupOf(left, leftKey, Identity()), LookupOf(right, rightKey, Identity());
      var keys := AllKeys(l, r);
      && keys == l.keys + Filtered(r.keys, Outside(l.entries.Keys))
      && NoRepeats(keys)
      && forall k :: k in keys <==> k in KeysOf(left, leftKey) || k in KeysOf(right, rightKey)
  {
    var l, r := LookupOf(left, leftKey, Identity()), LookupOf(right, rightKey, Identity());
    LookupValid(left, leftKey, Identity());
    LookupValid(right, rightKey, Identity());
    DistinctOfConcat(l.keys, r.keys, l.entries.Keys);
    DistinctHasNoRepeats(l.keys + r.keys);
    forall k
      ensures k in AllKeys(l, r) <==> k in KeysOf(left, leftKey) || k in KeysOf(right, rightKey)
    {
      LookupKeys(left, leftKey, Identity(), k);
      LookupKeys(right, rightKey, Identity(), k);
      FilteredMembers(r.keys, Outside(l.entries.Keys), k);
    }
  }

  /** `distinct()` leaves no value twice. */
  lemma DistinctHasNoRepeats<K>(c: seq<K>)
    ensures NoRepeats(DistinctBy(c, SelfKey))
  {
    var keys := DistinctBy(c, SelfKey);
    var key: (K, nat) -> K := SelfKey;
    var idx := DistinctPositions(c, key);
    DistinctKeys(c, key);
    forall a, b | 0 <= a < b < |keys|
      ensures keys[a] != keys[b]
    {
      assert 0 <= a < b < |idx|;
      assert key(c[idx[a]], idx[a]) != key(c[idx[b]], idx[b]);
    }
  }

  /** A bucket of a lookup without a value selector: the elements with the key, or `[]` when none has it. */
  lemma GetIsFilter<T, K>(s: seq<T>, key: (T, nat) -> K, k: K)
    ensures Get(LookupOf(s, key, Identity()), k) == Filtered(s, KeyIs(key, k))
    ensures k !in KeysOf(s, key) ==> Get(LookupOf(s, key, Identity()), k) == []
  {
    LookupBuckets(s, key, Identity(), k);
    IdentityBucket(s, key, k);
    LookupDomain(s, key, Identity(), k);
  }

  /**
   * Each key comes with the left elements that have it and the right elements that have it, in
   * source order; the side that lacks the key contributes an empty list.
   */
  lemma FullOuterGroupJoinBuckets<T, TR, K, R>(left: seq<T>, right: seq<TR>, leftKey: (T, nat) -> K, rightKey: (TR, nat) -> K, selector: (seq<T>, seq<TR>, K) -> R)
    ensures var l, r := LookupOf(left, leftKey, Identity()), LookupOf(right, rightKey, Identity());
      var keys := AllKeys(l, r);
      var out := FullOuterGroupJoined(l, r, selector);
      && |out| == |keys|
      && forall j :: 0 <= j < |keys| ==>
        && out[j] == selector(Filtered(left, KeyIs(leftKey, keys[j])), Filtered(right, KeyIs(rightKey, keys[j])), keys[j])
        && (keys[j] !in KeysOf(left, leftKey) ==> Filtered(left, KeyIs(leftKey, keys[j])) == [])
        && (keys[j] !in KeysOf(right, rightKey) ==> Filtered(right, KeyIs(rightKey, keys[j])) == [])
  {
    var l, r := LookupOf(left, leftKey, Identity()), LookupOf(right, rightKey, Identity());
    var keys := AllKeys(l, r);
    forall j | 0 <= j < |keys|
      ensures Get(l, keys[j]) == Filtered(left, KeyIs(leftKey, keys[j]))
      ensures Get(r, keys[j]) == Filtered(right, KeyIs(rightKey, keys[j]))
      ensures keys[j] !in KeysOf(left, leftKey) ==> Get(l, keys[j]) == []
      ensures keys[j] !in KeysOf(right, rightKey) ==> Get(r, keys[j]) == []
    {
      GetIsFilter(left, leftKey, keys[j]);
      GetIsFilter(right, rightKey, keys[j]);
    }
  }

  /**
   * `_fullOuterGroupJoin`: both sources are traversed once, left then right, when the operator is
   * called, to fill the two lookups; every traversal of the result reads only the lookups.
   */
  method FullOuterGroupJoin<T, TR, K(==), R>(src: Iterable<T>, rightSeq: Iterable<TR>, leftKeySelector: (T, nat) -> K, rightKeySelector: (TR, nat) -> K, selector: (seq<T>, seq<TR>, K) -> R)
    returns (r: Iterable<R>)
    modifies src, rightSeq
    ensures fresh(r) && r.opens == 0
    ensures src.opens == old(src.opens) + (if src == rightSeq then 2 else 1)
    ensures rightSeq.opens == old(rightSeq.opens) + (if src == rightSeq then 2 else 1)
    ensures forall n: nat :: r.gen(n) == FullOuterGroupJoined(
      LookupOf(src.gen(old(src.opens)), leftKeySelector, Identity()),
      LookupOf(rightSeq.gen(if src == rightSeq then old(src.opens) + 1 else old(rightSeq.opens)), rightKeySelector, Identity()),
      selector)
  {
    var xs := src.ToJson();
    var leftLookup := ToLookup(xs, leftKeySelector, Identity());
    var ys := rightSeq.ToJson();
    var rightLookup := ToLookup(ys, rightKeySelector, Identity());
    var out := FullOuterGroupJoined(leftLookup, rightLookup, selector);
    r := new Iterable((n: nat) => out);
  }

  // ---------------------------------------------------------------- fullOuterJoin

  /** `l => pp(rgt, defaultIfEmpty(), select(r => selector(l, r, k)))`: the rows of one left member, or of `undefined`. */
  function RightRows<T, TR, K, R>(selector: (Option<T>, Option<TR>, K) -> R, rgt: seq<TR>, k: K): (Option<T>, nat) -> seq<R>
  {
    (l: Option<T>, _: nat) => Mapped(DefaultIfEmpty(rgt), (r: Option<TR>, _: nat) => selector(l, r, k))
  }

  /** The group selector `_fullOuterJoin` hands to `fullOuterGroupJoin`: every pairing of the key's two buckets. */
  function CrossRows<T, TR, K, R>(selector: (Option<T>, Option<TR>, K) -> R): (seq<T>, seq<TR>, K) -> seq<R>
  {
    (lft: seq<T>, rgt: seq<TR>, k: K) => FlatMapped(DefaultIfEmpty(lft), RightRows(selector, rgt, k))
  }

  /** `selectMany(identity)`. */
  function Unwrapped<R>(rows: seq<R>, i: nat): seq<R>
  {
    rows
  }

  /** One traversal of `fullOuterJoin` over its two lookups. */
  function FullOuterJoined<T, TR, K(==), R>(left: OrderedMap<K, seq<T>>, right: OrderedMap<K, seq<TR>>, selector: (Option<T>, Option<TR>, K) -> R): seq<R>
  {
    FlatMapped(FullOuterGroupJoined(left, right, CrossRows(selector)), Unwrapped)
  }

  /** `a * c + b` lies in block `a` of `n` blocks of size `c`. */
  lemma BlockIndex(a: nat, b: nat, c: nat, n: nat)
    requires a < n && b < c
    ensures a * c + b < n * c
  {
    assert (a + 1) * c == a * c + c;
    assert (a + 1) * c <= n * c;
  }

  /** Position `b` of block `a`, when a list is cut into `n` blocks of `c` elements. */
  function Offset(a: nat, b: nat, c: nat, n: nat): (k: nat)
    requires a < n && b < c
    ensures k < n * c
  {
    BlockIndex(a, b, c, n);
    a * c + b
  }

  /** A `selectMany` whose every projection has `c` elements: block `a` of the result is the projection of element `a`. */
  lemma {:induction false} FlatMappedUniform<T, U>(s: seq<T>, f: (T, nat) -> seq<U>, c: nat)
    requires forall i :: 0 <= i < |s| ==> |f(s[i], i)| == c
    ensures |FlatMapped(s, f)| == |s| * c
    ensures forall a, b :: 0 <= a < |s| && 0 <= b < c ==> FlatMapped(s, f)[Offset(a, b, c, |s|)] == f(s[a], a)[b]
  {
    if |s| > 0 {
      FlatMappedUniform(s[..|s| - 1], f, c);
      UniformStep(s, f, c);
    }
  }

  /** One more element of a uniform `selectMany` adds its projection as the last block. */
  lemma UniformStep<T, U>(s: seq<T>, f: (T, nat) -> seq<U>, c: nat)
    requires |s| > 0
    requires forall i :: 0 <= i < |s| ==> |f(s[i], i)| == c
    requires var n := |s| - 1;
      && |FlatMapped(s[..n], f)| == n * c
      && forall a, b :: 0 <= a < n && 0 <= b < c ==> FlatMapped(s[..n], f)[Offset(a, b, c, n)] == f(s[..n][a], a)[b]
    ensures |FlatMapped(s, f)| == |s| * c
    ensures forall a, b :: 0 <= a < |s| && 0 <= b < c ==> FlatMapped(s, f)[Offset(a, b, c, |s|)] == f(s[a], a)[b]
  {
    var n := |s| - 1;
    var pre := FlatMapped(s[..n], f);
    var r := FlatMapped(s, f);
    assert r == pre + f(s[n], n);
    assert |r| == n * c + c;
    assert (n + 1) * c == n * c + c;
    forall a, b | 0 <= a < |s| && 0 <= b < c
      ensures r[Offset(a, b, c, |s|)] == f(s[a], a)[b]
    {
      if a < n {
        assert Offset(a, b, c, |s|) == Offset(a, b, c, n);
        assert s[..n][a] == s[a];
      } else {
        assert Offset(a, b, c, |s|) == n * c + b;
      }
    }
  }

  /**
   * The rows of one key: every pairing of a left member with a right member, left-major, with
   * `undefined` standing in for an empty side. So a key makes max(1, |left|) * max(1, |right|)
   * rows, and a key present on one side only pairs each of its members with `undefined`.
   */
  lemma CrossShape<T, TR, K, R>(selector: (Option<T>, Option<TR>, K) -> R, lft: seq<T>, rgt: seq<TR>, k: K)
    ensures var rows := CrossRows(selector)(lft, rgt, k);
      var ls, rs := DefaultIfEmpty(lft), DefaultIfEmpty(rgt);
      && |rows| == Max(1, |lft|) * Max(1, |rgt|)
      && forall a, b :: 0 <= a < |ls| && 0 <= b < |rs| ==> rows[Offset(a, b, |rs|, |ls|)] == selector(ls[a], rs[b], k)
  {
    var ls, rs := DefaultIfEmpty(lft), DefaultIfEmpty(rgt);
    FlatMappedUniform(ls, RightRows(selector, rgt, k), |rs|);
  }

  /**
   * `fullOuterJoin` is its group join's results read one after the other: for each key of either
   * side, in key order, the cross product of the key's left and right elements.
   */
  lemma FullOuterJoinRows<T, TR, K, R>(left: seq<T>, right: seq<TR>, leftKey: (T, nat) -> K, rightKey: (TR, nat) -> K, selector: (Option<T>, Option<TR>, K) -> R)
    ensures var l, r := LookupOf(left, leftKey, Identity()), LookupOf(right, rightKey, Identity());
      var keys := AllKeys(l, r);
      var groups := FullOuterGroupJoined(l, r, CrossRows(selector));
      && FullOuterJoined(l, r, selector) == Flatten(groups)
      && |groups| == |keys|
      && forall j :: 0 <= j < |keys| ==>
        groups[j] == CrossRows(selector)(Filtered(left, KeyIs(leftKey, keys[j])), Filtered(right, KeyIs(rightKey, keys[j])), keys[j])
  {
    var l, r := LookupOf(left, leftKey, Identity()), LookupOf(right, rightKey, Identity());
    var groups := FullOuterGroupJoined(l, r, CrossRows(selector));
    FullOuterGroupJoinBuckets(left, right, leftKey, rightKey, CrossRows(selector));
    assert Mapped(groups, Unwrapped) == groups;
  }

  /** `_fullOuterJoin`: a full outer group join whose results are the rows of each key, flattened. */
  method FullOuterJoin<T, TR, K(==), R>(src: Iterable<T>, rightSeq: Iterable<TR>, leftKeySelector: (T, nat) -> K, rightKeySelector: (TR, nat) -> K, selector: (Option<T>, Option<TR>, K) -> R)
    returns (r: Iterable<R>)
    modifies src, rightSeq
    ensures fresh(r) && r.opens == 0
    ensures src.opens == old(src.opens) + (if src == rightSeq then 2 else 1)
    ensures rightSeq.opens == old(rightSeq.opens) + (if src == rightSeq then 2 else 1)
    ensures forall n: nat :: r.gen(n) == FullOuterJoined(
      LookupOf(src.gen(old(src.opens)), leftKeySelector, Identity()),
      LookupOf(rightSeq.gen(if src == rightSeq then old(src.opens) + 1 else old(rightSeq.opens)), rightKeySelector, Identity()),
      selector)
  {
    var grouped := FullOuterGroupJoin(src, rightSeq, leftKeySelector, rightKeySelector, CrossRows(selector));
    var groups := grouped.ToJson();
    var rows := FlatMap(groups, Unwrapped);
    r := new Iterable((n: nat) => rows);
  }

  // ---------------------------------------------------------------- examples

  /** The outer people of the library's join tests. */
  function Outers(): seq<Entry>
  {
    [Entry(1, "chris"), Entry(2, "andrew"), Entry(4, "not relevant")]
  }

  /** The inner surnames of the library's join tests. */
  function Inners(): seq<Entry>
  {
    [Entry(1, "sperry"), Entry(1, "pike"), Entry(2, "johnson"), Entry(3, "not relevant")]
  }

  /** `(outerItem, innerItem) => outerItem.value + " " + innerItem.value` */
  function FullName(o: Entry, x: Entry): string
  {
    o.value + " " + x.value
  }

  /** `(outerItem, innerItem) => outerItem.value + " " + (innerItem ? innerItem.value : "no match")` */
  function NameOrNoMatch(o: Entry, x: Option<Entry>): string
  {
    o.value + " " + (if x.Some? then x.value.value else "no match")
  }

  /** The last inner element adds a row exactly when its key is `k`. */
  lemma MatchesLast<T, TI, K, R>(o: T, k: K, inner: seq<TI>, innerKey: (TI, nat) -> K, selector: (T, TI) -> R)
    requires |inner| > 0
    ensures var n := |inner| - 1;
      Matches(o, k, inner, innerKey, selector)
        == Matches(o, k, inner[..n], innerKey, selector) + (if innerKey(inner[n], n) == k then [selector(o, inner[n])] else [])
  {
  }

  /** The matches of key `k` among the test's surnames. */
  lemma MatchesOfSurnames<R>(o: Entry, k: int, inner: seq<Entry>, selector: (Entry, Entry) -> R)
    requires inner == Inners()
    ensures Matches(o, k, inner, IdOf, selector)
      == (if k == 1 then [selector(o, inner[0]), selector(o, inner[1])] else [])
       + (if k == 2 then [selector(o, inner[2])] else [])
       + (if k == 3 then [selector(o, inner[3])] else [])
  {
    MatchesLast(o, k, inner, IdOf, selector);
    MatchesLast(o, k, inner[..3], IdOf, selector);
    MatchesLast(o, k, inner[..2], IdOf, selector);
    MatchesLast(o, k, inner[..1], IdOf, selector);
    assert inner[..3][..2] == inner[..2];
    assert inner[..2][..1] == inner[..1];
    assert inner[..1][..0] == [];
    assert inner[..3][2] == inner[2] && inner[..2][1] == inner[1] && inner[..1][0] == inner[0];
  }

  /** The nested loop over the test's people, for any row selector. */
  lemma NestedLoopOfPeople<R>(outer: seq<Entry>, inner: seq<Entry>, selector: (Entry, Entry) -> R)
    requires outer == Outers() && inner == Inners()
    ensures NestedLoopJoin(outer, inner, IdOf, IdOf, selector)
      == [selector(outer[0], inner[0]), selector(outer[0], inner[1]), selector(outer[1], inner[2])]
  {
    MatchesOfSurnames(outer[0], 1, inner, selector);
    MatchesOfSurnames(outer[1], 2, inner, selector);
    MatchesOfSurnames(outer[2], 4, inner, selector);
    NestedLoopLast(outer, inner, IdOf, IdOf, selector);
    NestedLoopLast(outer[..2], inner, IdOf, IdOf, selector);
    NestedLoopLast(outer[..1], inner, IdOf, IdOf, selector);
    assert outer[..2][..1] == outer[..1];
    assert outer[..1][..0] == [];
    assert outer[..2][1] == outer[1] && outer[..1][0] == outer[0];
  }

  /** The last outer element adds its matches. */
  lemma NestedLoopLast<T, TI, K, R>(s: seq<T>, inner: seq<TI>, outerKey: (T, nat) -> K, innerKey: (TI, nat) -> K, selector: (T, TI) -> R)
    requires |s| > 0
    ensures var n := |s| - 1;
      NestedLoopJoin(s, inner, outerKey, innerKey, selector)
        == NestedLoopJoin(s[..n], inner, outerKey, innerKey, selector) + Matches(s[n], outerKey(s[n], n), inner, innerKey, selector)
  {
  }

  /** The join test: chris matches two surnames, andrew one, and the unmatched outer entry none. */
  lemma JoinExample(outer: seq<Entry>, inner: seq<Entry>)
    requires outer == Outers() && inner == Inners()
    ensures Joined(outer, LookupOf(inner, IdOf, Identity()), IdOf, FullName) == ["chris sperry", "chris pike", "andrew johnson"]
  {
    JoinIsNestedLoop(outer, inner, IdOf, IdOf, FullName);
    NestedLoopOfPeople(outer, inner, FullName);
    FullNames(outer, inner);
  }

  /** The three full names the test expects. */
  lemma FullNames(outer: seq<Entry>, inner: seq<Entry>)
    requires outer == Outers() && inner == Inners()
    ensures FullName(outer[0], inner[0]) == "chris sperry"
    ensures FullName(outer[0], inner[1]) == "chris pike"
    ensures FullName(outer[1], inner[2]) == "andrew johnson"
  {
  }

  /** The nested-loop left join over the test's people, for any row selector. */
  lemma NestedLeftLoopOfPeople<R>(outer: seq<Entry>, inner: seq<Entry>, selector: (Entry, Option<Entry>) -> R)
    requires outer == Outers() && inner == Inners()
    ensures NestedLoopLeftJoin(outer, inner, IdOf, IdOf, selector)
      == [selector(outer[0], Some(inner[0])), selector(outer[0], Some(inner[1])), selector(outer[1], Some(inner[2])), selector(outer[2], None)]
  {
    LeftMatchesOfSurnames(outer[0], 1, inner, selector);
    LeftMatchesOfSurnames(outer[1], 2, inner, selector);
    LeftMatchesOfSurnames(outer[2], 4, inner, selector);
    NestedLoopLeftLast(outer, inner, IdOf, IdOf, selector);
    NestedLoopLeftLast(outer[..2], inner, IdOf, IdOf, selector);
    NestedLoopLeftLast(outer[..1], inner, IdOf, IdOf, selector);
    assert outer[..2][..1] == outer[..1];
    assert outer[..1][..0] == [];
    assert outer[..2][1] == outer[1] && outer[..1][0] == outer[0];
  }

  /** The last outer element adds its left matches. */
  lemma NestedLoopLeftLast<T, TI, K, R>(s: seq<T>, inner: seq<TI>, outerKey: (T, nat) -> K, innerKey: (TI, nat) -> K, selector: (T, Option<TI>) -> R)
    requires |s| > 0
    ensures var n := |s| - 1;
      NestedLoopLeftJoin(s, inner, outerKey, innerKey, selector)
        == NestedLoopLeftJoin(s[..n], inner, outerKey, innerKey, selector) + LeftMatches(s[n], outerKey(s[n], n), inner, innerKey, selector)
  {
  }

  /** The left matches of key `k` among the test's surnames: `undefined` alone for a key no surname has. */
  lemma LeftMatchesOfSurnames<R>(o: Entry, k: int, inner: seq<Entry>, selector: (Entry, Option<Entry>) -> R)
    requires inner == Inners()
    ensures LeftMatches(o, k, inner, IdOf, selector)
      == if k == 1 then [selector(o, Some(inner[0])), selector(o, Some(inner[1]))]
         else if k == 2 then [selector(o, Some(inner[2]))]
         else if k == 3 then [selector(o, Some(inner[3]))]
         else [selector(o, None)]
  {
    MatchesOfSurnames(o, k, inner, Matched(selector));
  }

  /** The left outer join test: as the join, plus one "no match" row for the unmatched outer entry. */
  lemma LeftOuterJoinExample(outer: seq<Entry>, inner: seq<Entry>)
    requires outer == Outers() && inner == Inners()
    ensures LeftJoined(outer, LookupOf(inner, IdOf, Identity()), IdOf, NameOrNoMatch)
      == ["chris sperry", "chris pike", "andrew johnson", "not relevant no match"]
  {
    LeftJoinIsNestedLoop(outer, inner, IdOf, IdOf, NameOrNoMatch);
    NestedLeftLoopOfPeople(outer, inner, NameOrNoMatch);
    LeftNames(outer, inner);
  }

  /** The four rows the left outer join test expects. */
  lemma LeftNames(outer: seq<Entry>, inner: seq<Entry>)
    requires outer == Outers() && inner == Inners()
    ensures NameOrNoMatch(outer[0], Some(inner[0])) == "chris sperry"
    ensures NameOrNoMatch(outer[0], Some(inner[1])) == "chris pike"
    ensures NameOrNoMatch(outer[1], Some(inner[2])) == "andrew johnson"
    ensures NameOrNoMatch(outer[2], None) == "not relevant no match"
  {
  }

  /** `(k, v) => ({ k, v })` */
  function KeyAndBucket(k: int, v: seq<int>): (int, seq<int>)
  {
    (k, v)
  }

  /** A filter over a non-empty list: the last element is kept exactly when it passes. */
  lemma FilteredLast<T>(s: seq<T>, p: (T, nat) -> bool)
    requires |s| > 0
    ensures var n := |s| - 1;
      Filtered(s, p) == Filtered(s[..n], p) + (if p(s[n], n) then [s[n]] else [])
  {
  }

  /** The elements of [3, 3, 4, 4] with key `k`. */
  lemma RepeatedFilter(inner: seq<int>, k: int)
    requires inner == [3, 3, 4, 4]
    ensures Filtered(inner, KeyIs(Itself, k)) == if k == 3 then [3, 3] else if k == 4 then [4, 4] else []
  {
    var p := KeyIs(Itself, k);
    assert inner[..3] == [3, 3, 4] && inner[..3][..2] == [3, 3] && inner[..2][..1] == [3] && inner[..1][..0] == [];
    FilteredLast(inner, p);
    FilteredLast(inner[..3], p);
    FilteredLast(inner[..2], p);
    FilteredLast(inner[..1], p);
    KeyIsItself(k, 3, 0);
    KeyIsItself(k, 3, 1);
    KeyIsItself(k, 4, 2);
    KeyIsItself(k, 4, 3);
  }

  /** Keyed by itself, a number has key `k` exactly when it is `k`. */
  lemma KeyIsItself(k: int, x: int, i: nat)
    ensures KeyIs(Itself, k)(x, i) == (x == k)
  {
    var key: (int, nat) -> int := Itself;
    assert key(x, i) == x;
    assert KeyIs(key, k)(x, i) == (key(x, i) == k);
  }

  /** The group join test's buckets: keys 0 to 2 get empty buckets, 3 and 4 their two copies. */
  lemma RepeatedBuckets(outer: seq<int>, inner: seq<int>)
    requires outer == [0, 1, 2, 3, 4] && inner == [3, 3, 4, 4]
    ensures GroupJoined(outer, LookupOf(inner, Itself, Identity()), Itself, KeyAndBucket)
      == [(0, []), (1, []), (2, []), (3, [3, 3]), (4, [4, 4])]
  {
    var r := GroupJoined(outer, LookupOf(inner, Itself, Identity()), Itself, KeyAndBucket);
    RepeatedBucketAt(outer, inner, 0);
    RepeatedBucketAt(outer, inner, 1);
    RepeatedBucketAt(outer, inner, 2);
    RepeatedBucketAt(outer, inner, 3);
    RepeatedBucketAt(outer, inner, 4);
  }

  /** The group join test's result at outer position `i`. */
  lemma RepeatedBucketAt(outer: seq<int>, inner: seq<int>, i: nat)
    requires outer == [0, 1, 2, 3, 4] && inner == [3, 3, 4, 4] && i < 5
    ensures GroupJoined(outer, LookupOf(inner, Itself, Identity()), Itself, KeyAndBucket)[i]
      == (i, if i == 3 then [3, 3] else if i == 4 then [4, 4] else [])
  {
    GroupJoinBuckets(outer, inner, Itself, Itself, KeyAndBucket);
    var key: (int, nat) -> int := Itself;
    assert outer[i] == i && key(outer[i], i) == i;
    RepeatedFilter(inner, i);
  }

  /**
   * The group join test: `range(0, 5)` joined with two copies each of 3 and 4, traversed twice.
   * Both traversals give the same buckets, and the inner source was opened only once.
   */
  method GroupJoinExample() returns (first: seq<(int, seq<int>)>, second: seq<(int, seq<int>)>, innerOpens: nat)
    ensures first == second == [(0, []), (1, []), (2, []), (3, [3, 3]), (4, [4, 4])]
    ensures innerOpens == 1
  {
    var outer := new Iterable((n: nat) => [0, 1, 2, 3, 4]);
    var inner := new Iterable((n: nat) => [3, 3, 4, 4]);
    var joined := GroupJoin(outer, inner, Itself, Itself, KeyAndBucket);
    first := joined.Traverse();
    second := joined.Traverse();
    innerOpens := inner.opens;
    RepeatedBuckets(outer.gen(0), inner.gen(0));
  }

  /** `(l, r) => ({ l, r })` */
  function LeftAndRight(l: Option<int>, r: Option<int>, k: int): (Option<int>, Option<int>)
  {
    (l, r)
  }

  /** The lookup of two different numbers keyed by themselves. */
  lemma PairLookup(s: seq<int>)
    requires |s| == 2 && s[0] != s[1]
    ensures LookupOf(s, Itself, Identity()) == OrderedMap([s[0], s[1]], map[s[0] := [s[0]], s[1] := [s[1]]])
  {
    var value: (int, nat) -> int := Identity();
    assert s[..1][..0] == [];
    var l0 := LookupOf(s[..1][..0], Itself, value);
    assert l0 == OrderedMap([], map[]);
    var l1 := LookupOf(s[..1], Itself, value);
    assert Itself(s[0], 0) == s[0] && value(s[0], 0) == s[0];
    assert l1 == OrderedMap([s[0]], map[s[0] := [s[0]]]);
    assert Itself(s[1], 1) == s[1] && value(s[1], 1) == s[1];
    assert s[..1] == s[..|s| - 1];
    assert s[1] !in l1.entries;
    assert LookupOf(s, Itself, value) == OrderedMap(l1.keys + [s[1]], l1.entries[s[1] := [] + [s[1]]]);
    assert l1.keys + [s[1]] == [s[0], s[1]];
    var empty: seq<int> := [];
    assert empty + [s[1]] == [s[1]];
    assert l1.entries[s[1] := [s[1]]] == map[s[0] := [s[0]], s[1] := [s[1]]];
  }

  /** The keys of [0, 1] and [1, 2]: 0 and 1 from the left, then 2. */
  lemma PairKeys(a: seq<int>, b: seq<int>)
    requires a == [0, 1] && b == [1, 2]
    ensures DistinctBy(a + b, SelfKey) == [0, 1, 2]
  {
    DistinctOfConcat(a, b, {0, 1});
    assert b[..1][..0] == [];
  }

  /** With at most one element a side, a key makes exactly one row. */
  lemma SingleCross<T, TR, K, R>(selector: (Option<T>, Option<TR>, K) -> R, lft: seq<T>, rgt: seq<TR>, k: K)
    requires |lft| <= 1 && |rgt| <= 1
    ensures CrossRows(selector)(lft, rgt, k)
      == [selector(if |lft| == 0 then None else Some(lft[0]), if |rgt| == 0 then None else Some(rgt[0]), k)]
  {
    var ls, rs := DefaultIfEmpty(lft), DefaultIfEmpty(rgt);
    var x: Option<T> := if |lft| == 0 then None else Some(lft[0]);
    var y: Option<TR> := if |rgt| == 0 then None else Some(rgt[0]);
    assert ls == [x] && rs == [y];
    var f := RightRows(selector, rgt, k);
    assert f(x, 0) == [selector(x, y, k)];
    assert ls[..0] == [];
    assert FlatMapped(ls, f) == FlatMapped(ls[..0], f) + f(x, 0);
  }

  /** The full outer group join of [0, 1] and [1, 2] with the cross-product selector: one row for each of the keys 0, 1 and 2. */
  lemma PairGroups(left: seq<int>, right: seq<int>)
    requires left == [0, 1] && right == [1, 2]
    ensures FullOuterGroupJoined(LookupOf(left, Itself, Identity()), LookupOf(right, Itself, Identity()), CrossRows(LeftAndRight))
      == [[(Some(0), None)], [(Some(1), Some(1))], [(None, Some(2))]]
  {
    PairLookup(left);
    PairLookup(right);
    PairGroupsOf(LookupOf(left, Itself, Identity()), LookupOf(right, Itself, Identity()));
  }

  /** The same, over the two lookups written out. */
  lemma PairGroupsOf(l: OrderedMap<int, seq<int>>, r: OrderedMap<int, seq<int>>)
    requires l == OrderedMap([0, 1], map[0 := [0], 1 := [1]])
    requires r == OrderedMap([1, 2], map[1 := [1], 2 := [2]])
    ensures FullOuterGroupJoined(l, r, CrossRows(LeftAndRight)) == [[(Some(0), None)], [(Some(1), Some(1))], [(None, Some(2))]]
  {
    PairKeys(l.keys, r.keys);
    PairGets(l, r);
    PairGroupsFrom(l, r);
  }

  /** What each of the two example lookups holds for the keys 0, 1 and 2. */
  lemma PairGets(l: OrderedMap<int, seq<int>>, r: OrderedMap<int, seq<int>>)
    requires l == OrderedMap([0, 1], map[0 := [0], 1 := [1]])
    requires r == OrderedMap([1, 2], map[1 := [1], 2 := [2]])
    ensures Get(l, 0) == [0] && Get(l, 1) == [1] && Get(l, 2) == []
    ensures Get(r, 0) == [] && Get(r, 1) == [1] && Get(r, 2) == [2]
  {
  }

  /** The groups of the pair example, given the keys and the buckets of both sides. */
  lemma PairGroupsFrom(l: OrderedMap<int, seq<int>>, r: OrderedMap<int, seq<int>>)
    requires AllKeys(l, r) == [0, 1, 2]
    requires Get(l, 0) == [0] && Get(l, 1) == [1] && Get(l, 2) == []
    requires Get(r, 0) == [] && Get(r, 1) == [1] && Get(r, 2) == [2]
    ensures FullOuterGroupJoined(l, r, CrossRows(LeftAndRight)) == [[(Some(0), None)], [(Some(1), Some(1))], [(None, Some(2))]]
  {
    var g := FullOuterGroupJoined(l, r, CrossRows(LeftAndRight));
    SingleCross(LeftAndRight, Get(l, 0), Get(r, 0), 0);
    SingleCross(LeftAndRight, Get(l, 1), Get(r, 1), 1);
    SingleCross(LeftAndRight, Get(l, 2), Get(r, 2), 2);
    assert g[0] == [(Some(0), None)];
    assert g[1] == [(Some(1), Some(1))];
    assert g[2] == [(None, Some(2))];
  }

  /** `selectMany(identity)` over three one-element lists. */
  lemma Singletons<R>(groups: seq<seq<R>>)
    requires |groups| == 3 && |groups[0]| == 1 && |groups[1]| == 1 && |groups[2]| == 1
    ensures FlatMapped(groups, Unwrapped) == [groups[0][0], groups[1][0], groups[2][0]]
  {
    assert groups[0] == [groups[0][0]] && groups[1] == [groups[1][0]] && groups[2] == [groups[2][0]];
    assert groups[..1][..0] == [] && groups[..1][0] == groups[0];
    assert FlatMapped(groups[..1], Unwrapped) == [] + groups[0];
    assert groups[..2][..1] == groups[..1] && groups[..2][1] == groups[1];
    assert FlatMapped(groups[..2], Unwrapped) == groups[0] + groups[1];
    assert groups[..2] == groups[..|groups| - 1];
  }

  /** The full outer join of [0, 1] and [1, 2]: 0 has no right partner, 1 pairs with 1, 2 has no left partner. */
  lemma FullOuterJoinPairs(left: seq<int>, right: seq<int>)
    requires left == [0, 1] && right == [1, 2]
    ensures FullOuterJoined(LookupOf(left, Itself, Identity()), LookupOf(right, Itself, Identity()), LeftAndRight)
      == [(Some(0), None), (Some(1), Some(1)), (None, Some(2))]
  {
    PairGroups(left, right);
    Singletons(FullOuterGroupJoined(LookupOf(left, Itself, Identity()), LookupOf(right, Itself, Identity()), CrossRows(LeftAndRight)));
  }

  /** The full outer join of two pure sources, traversed once. */
  method FullOuterJoinExample() returns (rows: seq<(Option<int>, Option<int>)>)
    ensures rows == [(Some(0), None), (Some(1), Some(1)), (None, Some(2))]
  {
    var left := new Iterable((n: nat) => [0, 1]);
    var right := new Iterable((n: nat) => [1, 2]);
    var joined := FullOuterJoin(left, right, Itself, Itself, LeftAndRight);
    rows := joined.ToJson();
    FullOuterJoinPairs(left.gen(0), right.gen(0));
  }
}
