/**
 * Eager materialisers: toLookup, toMap and toSet.
 *
 * A JavaScript `Map` or `Set` remembers the order in which its keys were first inserted; the
 * model keeps that order as a list of keys beside the entries. Keys are compared with `==`: the
 * optional map and set factories choose the key equality and are otherwise only carried
 * through overload resolution.
 */
module Materialize {
  import opened Wrappers
  import opened Seqs
  import opened Projection
  import opened Folds
  import opened Distinct

  /** An insertion-ordered map: `keys` lists the keys in first-insertion order. */
  datatype OrderedMap<K, V> = OrderedMap(keys: seq<K>, entries: map<K, V>)

  /** Each key listed once, and the listed keys are exactly the keys with an entry. */
  ghost predicate Valid<K, V>(m: OrderedMap<K, V>)
  {
    && (forall i, j :: 0 <= i < j < |m.keys| ==> m.keys[i] != m.keys[j])
    && (forall k :: k in m.entries ==> k in m.keys)
    && (forall i :: 0 <= i < |m.keys| ==> m.keys[i] in m.entries)
  }

  /**
   * The optional third argument of `toLookup`, `toMap` and `toSet`: absent, a function, or an
   * object (the map or set factory).
   */
  datatype Overload<F> = Absent | Function(f: F) | Object

  /** The library's `getIdentity()`: each element is its own value or key. */
  function Identity<T>(): (T, nat) -> T
  {
    (x: T, _: nat) => x
  }

  // ---------------------------------------------------------------- toLookup

  /** The lookup `_toLookup(src, keySelector, valueSelector)` returns after one pass over `s`. */
  function LookupOf<T, K(==), V>(s: seq<T>, key: (T, nat) -> K, value: (T, nat) -> V): OrderedMap<K, seq<V>>
  {
    if |s| == 0 then OrderedMap([], map[])
    else
      var n := |s| - 1;
      var l := LookupOf(s[..n], key, value);
      var k := key(s[n], n);
      var bucket := if k in l.entries then l.entries[k] else [];
      OrderedMap(if k in l.entries then l.keys else l.keys + [k], l.entries[k := bucket + [value(s[n], n)]])
  }

  /** Every lookup is a well-formed insertion-ordered map whose buckets are never empty. */
  lemma {:induction false} LookupValid<T, K, V>(s: seq<T>, key: (T, nat) -> K, value: (T, nat) -> V)
    ensures Valid(LookupOf(s, key, value))
    ensures forall k :: k in LookupOf(s, key, value).entries ==> |LookupOf(s, key, value).entries[k]| > 0
  {
    if |s| > 0 {
      LookupValid(s[..|s| - 1], key, value);
    }
  }

  /** The values of the elements of `s` with key `k`, in source order: the reference for one bucket. */
  function Bucket<T, K(==), V>(s: seq<T>, key: (T, nat) -> K, value: (T, nat) -> V, k: K): seq<V>
  {
    if |s| == 0 then []
    else
      var n := |s| - 1;
      Bucket(s[..n], key, value, k) + (if key(s[n], n) == k then [value(s[n], n)] else [])
  }

  /** The key test for one bucket. */
  function KeyIs<T, K(==)>(key: (T, nat) -> K, k: K): (T, nat) -> bool
  {
    (x: T, i: nat) => key(x, i) == k
  }

  /** Without a value selector a bucket is the filter of the source by its key, so its size is the count. */
  lemma {:induction false} BucketIsFilter<T, K>(s: seq<T>, key: (T, nat) -> K, k: K)
    ensures Bucket(s, key, (x: T, _: nat) => x, k) == Filtered(s, KeyIs(key, k))
    ensures |Bucket(s, key, (x: T, _: nat) => x, k)| == CountOf(s, KeyIs(key, k))
  {
    if |s| > 0 {
      BucketIsFilter(s[..|s| - 1], key, k);
    }
  }

  /**
   * `lookup.get(k) ?? []` is the bucket of `k`: the values of the elements with that key, each
   * computed with the same index as its key, in source order. A key no element has is absent.
   */
  lemma {:induction false} LookupBuckets<T, K, V>(s: seq<T>, key: (T, nat) -> K, value: (T, nat) -> V, k: K)
    ensures var l := LookupOf(s, key, value);
      (if k in l.entries then l.entries[k] else []) == Bucket(s, key, value, k)
  {
    if |s| > 0 {
      LookupBuckets(s[..|s| - 1], key, value, k);
    }
  }

  /** A key has a bucket exactly when some element has that key. */
  lemma {:induction false} LookupDomain<T, K, V>(s: seq<T>, key: (T, nat) -> K, value: (T, nat) -> V, k: K)
    ensures k in LookupOf(s, key, value).entries <==> k in KeysOf(s, key)
  {
    if |s| > 0 {
      LookupDomain(s[..|s| - 1], key, value, k);
    }
  }

  /**
   * Keys come out in first-seen order: the j-th key is the key of the j-th element `distinctBy`
   * keeps.
   */
  lemma {:induction false} LookupKeyOrder<T, K, V>(s: seq<T>, key: (T, nat) -> K, value: (T, nat) -> V)
    ensures var l := LookupOf(s, key, value);
      var idx := DistinctPositions(s, key);
      && |l.keys| == |idx|
      && forall j :: 0 <= j < |idx| ==> l.keys[j] == key(s[idx[j]], idx[j])
  {
    if |s| > 0 {
      var n := |s| - 1;
      var prefix := s[..n];
      var k := key(s[n], n);
      LookupKeyOrder(prefix, key, value);
      var isNew := KeyOrderStep(s, key, value);
      var l, l' := LookupOf(prefix, key, value), LookupOf(s, key, value);
      var idx, idx' := DistinctPositions(prefix, key), DistinctPositions(s, key);
      forall j | 0 <= j < |idx'|
        ensures l'.keys[j] == key(s[idx'[j]], idx'[j])
      {
        if j < |idx| {
          assert idx'[j] == idx[j] && l'.keys[j] == l.keys[j];
          assert idx[j] < n && prefix[idx[j]] == s[idx[j]];
        }
      }
    }
  }

  /** One step of both definitions: the last element's key is new to the lookup exactly when `distinctBy` keeps it. */
  lemma KeyOrderStep<T, K, V>(s: seq<T>, key: (T, nat) -> K, value: (T, nat) -> V) returns (isNew: bool)
    requires |s| > 0
    ensures var n := |s| - 1;
      && DistinctPositions(s, key) == DistinctPositions(s[..n], key) + (if isNew then [n] else [])
      && LookupOf(s, key, value).keys == LookupOf(s[..n], key, value).keys + (if isNew then [key(s[n], n)] else [])
  {
    var n := |s| - 1;
    LookupDomain(s[..n], key, value, key(s[n], n));
    isNew := key(s[n], n) !in KeysOf(s[..n], key);
  }

  /** The buckets in key order: `lookup.get(k) ?? []` for each key `k`. */
  function Groups<K, V>(m: OrderedMap<K, seq<V>>): (gs: seq<seq<V>>)
    ensures |gs| == |m.keys|
    ensures forall j :: 0 <= j < |gs| ==> gs[j] == if m.keys[j] in m.entries then m.entries[m.keys[j]] else []
  {
    seq(|m.keys|, j requires 0 <= j < |m.keys| => if m.keys[j] in m.entries then m.entries[m.keys[j]] else [])
  }

  /** Appending one value to one list of a list of lists adds that value to the flattened multiset. */
  lemma {:induction false} FlattenPush<V>(gs: seq<seq<V>>, j: nat, v: V)
    requires j < |gs|
    ensures multiset(Flatten(gs[j := gs[j] + [v]])) == multiset(Flatten(gs)) + multiset{v}
  {
    var n := |gs| - 1;
    var hs := gs[j := gs[j] + [v]];
    var a := Flatten(gs[..n]);
    assert Flatten(gs) == a + gs[n];
    if j == n {
      assert hs[..n] == gs[..n];
      assert Flatten(hs) == a + (gs[n] + [v]) == (a + gs[n]) + [v];
    } else {
      assert hs[..n] == gs[..n][j := gs[j] + [v]];
      FlattenPush(gs[..n], j, v);
      assert Flatten(hs) == Flatten(hs[..n]) + gs[n];
    }
  }

  /** Pushing a value onto the bucket of the key at position `j` pushes it onto the `j`-th group. */
  lemma GroupsPush<K, V>(l: OrderedMap<K, seq<V>>, j: nat, v: V)
    requires Valid(l) && j < |l.keys|
    ensures var k := l.keys[j];
      Groups(OrderedMap(l.keys, l.entries[k := l.entries[k] + [v]])) == Groups(l)[j := Groups(l)[j] + [v]]
  {
    var k := l.keys[j];
    var gs, gs' := Groups(l), Groups(OrderedMap(l.keys, l.entries[k := l.entries[k] + [v]]));
    forall i | 0 <= i < |gs'|
      ensures gs'[i] == gs[j := gs[j] + [v]][i]
    {
      if i != j {
        assert l.keys[i] != k;
      }
    }
  }

  /** A bucket for a new key adds one group at the end. */
  lemma GroupsAdd<K, V>(l: OrderedMap<K, seq<V>>, k: K, v: V)
    requires Valid(l) && k !in l.entries
    ensures Groups(OrderedMap(l.keys + [k], l.entries[k := [v]])) == Groups(l) + [[v]]
  {
    var gs, gs' := Groups(l), Groups(OrderedMap(l.keys + [k], l.entries[k := [v]]));
    forall i | 0 <= i < |gs'|
      ensures gs'[i] == (gs + [[v]])[i]
    {
      if i < |gs| {
        assert (l.keys + [k])[i] == l.keys[i] != k;
      }
    }
  }

  /**
   * How one more element changes the buckets in key order: its value is pushed onto the bucket
   * at position `j` of an existing key, or a new bucket holding only it is added at the end.
   */
  lemma GroupsStep<T, K, V>(s: seq<T>, key: (T, nat) -> K, value: (T, nat) -> V) returns (j: nat)
    requires |s| > 0
    ensures var n := |s| - 1;
      var gs := Groups(LookupOf(s[..n], key, value));
      var v := value(s[n], n);
      && j <= |gs|
      && (j < |gs| ==> Groups(LookupOf(s, key, value)) == gs[j := gs[j] + [v]])
      && (j == |gs| ==> Groups(LookupOf(s, key, value)) == gs + [[v]])
  {
    var n := |s| - 1;
    var l := LookupOf(s[..n], key, value);
    var k, v := key(s[n], n), value(s[n], n);
    LookupValid(s[..n], key, value);
    if k in l.entries {
      j :| 0 <= j < |l.keys| && l.keys[j] == k;
      GroupsPush(l, j, v);
    } else {
      j := |l.keys|;
      assert [] + [v] == [v];
      GroupsAdd(l, k, v);
    }
  }

  /** The buckets, read in key order, hold every value exactly once: a partition of the projected source. */
  lemma {:induction false} LookupPartition<T, K, V>(s: seq<T>, key: (T, nat) -> K, value: (T, nat) -> V)
    ensures multiset(Flatten(Groups(LookupOf(s, key, value)))) == multiset(Mapped(s, value))
    ensures SumLengths(Groups(LookupOf(s, key, value))) == |s|
  {
    if |s| > 0 {
      var n := |s| - 1;
      var v := value(s[n], n);
      LookupPartition(s[..n], key, value);
      assert Mapped(s, value) == Mapped(s[..n], value) + [v];
      var gs := Groups(LookupOf(s[..n], key, value));
      var j := GroupsStep(s, key, value);
      if j < |gs| {
        FlattenPush(gs, j, v);
      } else {
        FlattenAppend(gs, [[v]]);
        assert [[v]][..0] == [];
      }
      var flat := Flatten(Groups(LookupOf(s, key, value)));
      assert |multiset(flat)| == |flat|;
    }
  }

  /** The loop of `_toLookup`: get-or-create the bucket of each element's key, then push its value. */
  method ToLookup<T, K(==), V>(src: seq<T>, keySelector: (T, nat) -> K, vs: (T, nat) -> V)
    returns (lookup: OrderedMap<K, seq<V>>)
    ensures lookup == LookupOf(src, keySelector, vs)
  {
    var keys: seq<K> := [];
    var buckets: map<K, seq<V>> := map[];
    var i := 0;
    while i < |src|
      invariant 0 <= i <= |src|
      invariant OrderedMap(keys, buckets) == LookupOf(src[..i], keySelector, vs)
    {
      assert src[..i + 1][..i] == src[..i];
      var currentIdx := i;
      i := i + 1;
      var key := keySelector(src[currentIdx], currentIdx);
      var arr := if key in buckets then buckets[key] else [];
      if key !in buckets {
        keys := keys + [key];
      }
      buckets := buckets[key := arr + [vs(src[currentIdx], currentIdx)]];
    }
    assert src[..i] == src;
    lookup := OrderedMap(keys, buckets);
  }

  /**
   * Overload resolution shared by `toLookup` (value selector or map factory) and `toSet` (key
   * selector or set factory): a function argument is the selector; an object is the factory and,
   * like an absent argument, leaves `fallback`, which the library fixes to `getIdentity()`.
   */
  function ChosenSelector<T, V>(arg: Overload<(T, nat) -> V>, fallback: (T, nat) -> V): (f: (T, nat) -> V)
    ensures arg.Function? ==> f == arg.f
    ensures !arg.Function? ==> f == fallback
  {
    if arg.Function? then arg.f else fallback
  }

  /** The key selector `x % 2` of the library's lookup examples. */
  function Parity(x: int, i: nat): int
  {
    x % 2
  }

  /**
   * The library's examples: `range(0, 10)` keyed by `x % 2` has two keys, 0 then 1, with buckets
   * [0, 2, 4, 6, 8] and [1, 3, 5, 7, 9]; with the value selector `x * 2` the buckets double.
   */
  lemma LookupExamples()
    ensures LookupOf([0, 1, 2, 3, 4, 5, 6, 7, 8, 9], Parity, ChosenSelector<int, int>(Object, Identity()))
      == OrderedMap([0, 1], map[0 := [0, 2, 4, 6, 8], 1 := [1, 3, 5, 7, 9]])
    ensures LookupOf([0, 1, 2, 3, 4, 5, 6, 7, 8, 9], Parity, ChosenSelector(Function((x: int, _: nat) => x * 2), Identity()))
      == OrderedMap([0, 1], map[0 := [0, 4, 8, 12, 16], 1 := [2, 6, 10, 14, 18]])
  {
    ParityLookup(ChosenSelector<int, int>(Object, Identity()));
    ParityLookup(ChosenSelector(Function((x: int, _: nat) => x * 2), Identity()));
  }

  /** `range(0, 10)` keyed by parity, for any value selector. */
  lemma ParityLookup(value: (int, nat) -> int)
    ensures LookupOf([0, 1, 2, 3, 4, 5, 6, 7, 8, 9], Parity, value)
      == OrderedMap([0, 1], map[0 := [value(0, 0), value(2, 2), value(4, 4), value(6, 6), value(8, 8)], 1 := [value(1, 1), value(3, 3), value(5, 5), value(7, 7), value(9, 9)]])
  {
    var s := [0, 1, 2, 3, 4, 5, 6, 7, 8, 9];
    ParityOfTen(s, value);
    EvenBucketOfTen(value);
    OddBucketOfTen(value);
    var l := LookupOf(s, Parity, value);
    assert l.entries == map[0 := ParityBucket(value, 10, 0), 1 := ParityBucket(value, 10, 1)];
  }

  /** All ten positions of `range(0, 10)` keyed by parity. */
  lemma ParityOfTen(s: seq<int>, value: (int, nat) -> int)
    requires |s| == 10 && forall i :: 0 <= i < |s| ==> s[i] == i
    ensures ParityShaped(LookupOf(s, Parity, value), ParityBucket(value, 10, 0), ParityBucket(value, 10, 1))
  {
    ParityUpTo(s, value, 10);
    assert s[..10] == s;
  }

  /** The values of the positions below `n` whose parity is `b`, in order. */
  function ParityBucket(value: (int, nat) -> int, n: nat, b: int): seq<int>
  {
    if n == 0 then [] else ParityBucket(value, n - 1, b) + (if (n - 1) % 2 == b then [value(n - 1, n - 1)] else [])
  }

  /** The even bucket of the first ten positions, written out. */
  lemma EvenBucketOfTen(value: (int, nat) -> int)
    ensures ParityBucket(value, 10, 0) == [value(0, 0), value(2, 2), value(4, 4), value(6, 6), value(8, 8)]
  {
    assert ParityBucket(value, 2, 0) == [value(0, 0)];
    assert ParityBucket(value, 4, 0) == [value(0, 0), value(2, 2)];
    assert ParityBucket(value, 6, 0) == [value(0, 0), value(2, 2), value(4, 4)];
    assert ParityBucket(value, 8, 0) == [value(0, 0), value(2, 2), value(4, 4), value(6, 6)];
  }

  /** The odd bucket of the first ten positions, written out. */
  lemma OddBucketOfTen(value: (int, nat) -> int)
    ensures ParityBucket(value, 10, 1) == [value(1, 1), value(3, 3), value(5, 5), value(7, 7), value(9, 9)]
  {
    assert ParityBucket(value, 2, 1) == [value(1, 1)];
    assert ParityBucket(value, 4, 1) == [value(1, 1), value(3, 3)];
    assert ParityBucket(value, 6, 1) == [value(1, 1), value(3, 3), value(5, 5)];
    assert ParityBucket(value, 8, 1) == [value(1, 1), value(3, 3), value(5, 5), value(7, 7)];
  }

  /** A lookup with exactly the keys `0` and `1`, in that order, holding `evens` and `odds`. */
  ghost predicate ParityShaped(l: OrderedMap<int, seq<int>>, evens: seq<int>, odds: seq<int>)
  {
    && l.keys == [0, 1]
    && l.entries.Keys == {0, 1}
    && l.entries[0] == evens
    && l.entries[1] == odds
  }

  /** Keying the first `n` positions of `range(0, _)` by parity gives the two parity buckets. */
  lemma {:induction false} ParityUpTo(s: seq<int>, value: (int, nat) -> int, n: nat)
    requires 2 <= n <= |s| && forall i :: 0 <= i < |s| ==> s[i] == i
    ensures ParityShaped(LookupOf(s[..n], Parity, value), ParityBucket(value, n, 0), ParityBucket(value, n, 1))
  {
    if n == 2 {
      ParityFirstTwo(s, value);
      assert ParityBucket(value, 2, 0) == [value(0, 0)];
      assert ParityBucket(value, 2, 1) == [value(1, 1)];
    } else {
      ParityUpTo(s, value, n - 1);
      ParityStep(s, n, value, ParityBucket(value, n - 1, 0), ParityBucket(value, n - 1, 1));
      if (n - 1) % 2 == 0 {
        assert ParityBucket(value, n, 1) == ParityBucket(value, n - 1, 1) + [];
      } else {
        assert ParityBucket(value, n, 0) == ParityBucket(value, n - 1, 0) + [];
      }
    }
  }

  /** The first two elements of `range(0, 10)` open the two buckets. */
  lemma ParityFirstTwo(s: seq<int>, value: (int, nat) -> int)
    requires |s| >= 2 && s[0] == 0 && s[1] == 1
    ensures ParityShaped(LookupOf(s[..2], Parity, value), [value(0, 0)], [value(1, 1)])
  {
    assert s[..2][..1] == [0] && [0][..0] == [];
    assert [] + [value(0, 0)] == [value(0, 0)] && [] + [value(1, 1)] == [value(1, 1)];
    assert LookupOf([0], Parity, value) == OrderedMap([0], map[0 := [value(0, 0)]]);
  }

  /** One element of `range` added to a lookup that already has both parities. */
  lemma ParityStep(s: seq<int>, m: nat, value: (int, nat) -> int, evens: seq<int>, odds: seq<int>)
    requires 0 < m <= |s| && s[m - 1] == m - 1
    requires ParityShaped(LookupOf(s[..m - 1], Parity, value), evens, odds)
    ensures (m - 1) % 2 == 0 ==> ParityShaped(LookupOf(s[..m], Parity, value), evens + [value(m - 1, m - 1)], odds)
    ensures (m - 1) % 2 == 1 ==> ParityShaped(LookupOf(s[..m], Parity, value), evens, odds + [value(m - 1, m - 1)])
  {
    var n := m - 1;
    assert s[..m][..n] == s[..n] && s[..m][n] == n;
    var l := LookupOf(s[..n], Parity, value);
    var k := Parity(n, n);
    assert k == 0 || k == 1;
    assert LookupOf(s[..m], Parity, value) == OrderedMap(l.keys, l.entries[k := l.entries[k] + [value(n, n)]]);
  }

  // ---------------------------------------------------------------- toMap

  /** Whether no two elements of `s` have the same key. */
  ghost predicate UniqueKeys<T, K>(s: seq<T>, key: (T, nat) -> K)
  {
    forall i, j :: 0 <= i < j < |s| ==> key(s[i], i) != key(s[j], j)
  }

  /**
   * One call of `_toMap` with the value selector `vs` (`None` when it is `undefined`) that
   * receives the element's index plus `shift`. Each element first has its key checked against
   * the keys so far ("duplicate key"), then its value computed and stored.
   */
  function MapFrom<T, K(==), V>(s: seq<T>, key: (T, nat) -> K, vs: Option<(T, nat) -> V>, shift: nat): Result<OrderedMap<K, V>>
  {
    if |s| == 0 then Success(OrderedMap([], map[]))
    else
      var n := |s| - 1;
      match MapFrom(s[..n], key, vs, shift)
      case Failure(e) => Failure(e)
      case Success(m) =>
        var k := key(s[n], n);
        if k in m.entries then Failure(DuplicateKey)
        else if vs.None? then Failure(NotAFunction)
        else Success(OrderedMap(m.keys + [k], m.entries[k := vs.value(s[n], n + shift)]))
  }

  /**
   * What `MapFrom` produces: with no value selector, any element fails; otherwise it fails
   * with "duplicate key" exactly when two keys coincide.
   */
  lemma {:induction false} MapFromOutcome<T, K, V>(s: seq<T>, key: (T, nat) -> K, vs: Option<(T, nat) -> V>, shift: nat)
    ensures vs.None? && |s| > 0 ==> MapFrom(s, key, vs, shift) == Failure(NotAFunction)
    ensures vs.Some? ==> (MapFrom(s, key, vs, shift).Success? <==> UniqueKeys(s, key))
    ensures vs.Some? && !UniqueKeys(s, key) ==> MapFrom(s, key, vs, shift) == Failure(DuplicateKey)
  {
    if |s| > 0 {
      var n := |s| - 1;
      var prefix := s[..n];
      MapFromOutcome(prefix, key, vs, shift);
      assert forall i :: 0 <= i < n ==> prefix[i] == s[i];
      assert UniqueKeys(s, key) ==> UniqueKeys(prefix, key);
      var r := MapFrom(prefix, key, vs, shift);
      if r.Success? && vs.Some? {
        MapFromEntries(prefix, key, vs, shift);
        var k := key(s[n], n);
        if k in r.value.entries {
          MapFromDomain(prefix, key, vs, shift, k);
          var j :| 0 <= j < n && key(prefix[j], j) == k;
          assert key(s[j], j) == key(s[n], n);
        } else {
          assert forall i :: 0 <= i < n ==> key(prefix[i], i) in r.value.entries;
        }
      }
    }
  }

  /** A successful `MapFrom` has one entry per element, in source order, holding that element's value. */
  lemma {:induction false} MapFromEntries<T, K, V>(s: seq<T>, key: (T, nat) -> K, vs: Option<(T, nat) -> V>, shift: nat)
    ensures MapFrom(s, key, vs, shift).Success? ==>
      var m := MapFrom(s, key, vs, shift).value;
      && (|s| > 0 ==> vs.Some?)
      && m.keys == Mapped(s, key)
      && (forall i :: 0 <= i < |s| ==> key(s[i], i) in m.entries && m.entries[key(s[i], i)] == vs.value(s[i], i + shift))
  {
    if |s| > 0 && MapFrom(s, key, vs, shift).Success? {
      var n := |s| - 1;
      var prefix := s[..n];
      MapFromEntries(prefix, key, vs, shift);
      var m := MapFrom(prefix, key, vs, shift).value;
      var m' := MapFrom(s, key, vs, shift).value;
      var k := key(s[n], n);
      assert k !in m.entries && m' == OrderedMap(m.keys + [k], m.entries[k := vs.value(s[n], n + shift)]);
      assert Mapped(s, key) == Mapped(prefix, key) + [k];
      forall i | 0 <= i < n
        ensures key(s[i], i) in m'.entries && m'.entries[key(s[i], i)] == vs.value(s[i], i + shift)
      {
        assert prefix[i] == s[i];
      }
    }
  }

  /** A successful `MapFrom` has no entry for a key no element has. */
  lemma {:induction false} MapFromDomain<T, K, V>(s: seq<T>, key: (T, nat) -> K, vs: Option<(T, nat) -> V>, shift: nat, k: K)
    requires MapFrom(s, key, vs, shift).Success?
    requires k in MapFrom(s, key, vs, shift).value.entries
    ensures exists i :: 0 <= i < |s| && key(s[i], i) == k
  {
    var n := |s| - 1;
    var prefix := s[..n];
    if k != key(s[n], n) {
      MapFromDomain(prefix, key, vs, shift, k);
      var j :| 0 <= j < n && key(prefix[j], j) == k;
      assert prefix[j] == s[j];
    }
  }

  /**
   * Overload resolution of `_toMap` as written: a value selector is taken from the third
   * argument whenever it is not an object, so an absent one stays `undefined`; an object is the
   * map factory and selects the identity.
   */
  function MapValueSelectorAsWritten<T>(arg: Overload<(T, nat) -> T>): (vs: Option<(T, nat) -> T>)
    ensures arg.Function? ==> vs == Some(arg.f)
    ensures arg.Absent? ==> vs.None?
    ensures arg.Object? ==> vs == Some(Identity())
  {
    match arg
    case Absent => None
    case Function(f) => Some(f)
    case Object => Some(Identity())
  }

  /** `_toMap(src, keySelector, arg)` as written: the value selector sees the index after it was incremented. */
  function ToMapAsWritten<T, K(==)>(s: seq<T>, key: (T, nat) -> K, arg: Overload<(T, nat) -> T>): Result<OrderedMap<K, T>>
  {
    MapFrom(s, key, MapValueSelectorAsWritten(arg), 1)
  }

  /**
   * The documented `_toMap`: values default to the elements when no value selector is given,
   * and the value selector sees the same index as the key selector.
   */
  function ToMapIntended<T, K(==)>(s: seq<T>, key: (T, nat) -> K, arg: Overload<(T, nat) -> T>): Result<OrderedMap<K, T>>
  {
    MapFrom(s, key, Some(ChosenSelector(arg, Identity())), 0)
  }

  /**
   * The documented promise, proved of the intended `_toMap`: it throws "duplicate key" exactly
   * when a key repeats, and otherwise maps each element's key to the value selected for it at
   * its own index (the element itself when there is no selector).
   */
  lemma ToMapIntendedContract<T, K>(s: seq<T>, key: (T, nat) -> K, arg: Overload<(T, nat) -> T>)
    ensures ToMapIntended(s, key, arg).Success? <==> UniqueKeys(s, key)
    ensures ToMapIntended(s, key, arg).Failure? ==> ToMapIntended(s, key, arg).error == DuplicateKey
    ensures ToMapIntended(s, key, arg).Success? ==>
      var m := ToMapIntended(s, key, arg).value;
      && m.keys == Mapped(s, key)
      && (forall i :: 0 <= i < |s| ==> key(s[i], i) in m.entries && m.entries[key(s[i], i)] == ChosenSelector(arg, Identity())(s[i], i))
  {
    var vs := Some(ChosenSelector(arg, Identity()));
    var r := MapFrom(s, key, vs, 0);
    assert ToMapIntended(s, key, arg) == r;
    MapFromOutcome(s, key, vs, 0);
    MapFromEntries(s, key, vs, 0);
    if r.Success? {
      forall i | 0 <= i < |s|
        ensures key(s[i], i) in r.value.entries && r.value.entries[key(s[i], i)] == vs.value(s[i], i)
      {
        assert i + 0 == i;
      }
    }
  }

  /** As written, `_toMap([7], x => x)` calls an `undefined` value selector and throws. */
  lemma ToMapWithoutSelectorThrows()
    ensures ToMapAsWritten([7], (x: int, _: nat) => x, Absent) == Failure(NotAFunction)
    ensures ToMapIntended([7], (x: int, _: nat) => x, Absent) == Success(OrderedMap([7], map[7 := 7]))
  {
    MapFromSingle(7, (x: int, _: nat) => x, MapValueSelectorAsWritten(Absent), 1);
    MapFromSingle(7, (x: int, _: nat) => x, Some(ChosenSelector<int, int>(Absent, Identity())), 0);
  }

  /** `MapFrom` on a one-element source. */
  lemma MapFromSingle<T, K, V>(x: T, key: (T, nat) -> K, vs: Option<(T, nat) -> V>, shift: nat)
    ensures MapFrom([x], key, vs, shift)
      == if vs.None? then Failure(NotAFunction) else Success(OrderedMap([key(x, 0)], map[key(x, 0) := vs.value(x, shift)]))
  {
    assert [x][..0] == [];
    assert [] + [key(x, 0)] == [key(x, 0)];
  }

  /** As written, a value selector returning its index stores 1 for the element at index 0. */
  lemma ToMapIndexShifted()
    ensures ToMapAsWritten([7], (x: int, _: nat) => x, Function((_: int, i: nat) => i as int)) == Success(OrderedMap([7], map[7 := 1]))
    ensures ToMapIntended([7], (x: int, _: nat) => x, Function((_: int, i: nat) => i as int)) == Success(OrderedMap([7], map[7 := 0]))
  {
    var f := (_: int, i: nat) => i as int;
    MapFromSingle(7, (x: int, _: nat) => x, MapValueSelectorAsWritten(Function(f)), 1);
    MapFromSingle(7, (x: int, _: nat) => x, Some(ChosenSelector(Function(f), Identity())), 0);
  }

  /** The loop of `_toMap` as written: `has` check, then `set` with the already incremented index. */
  method ToMap<T, K(==), V>(src: seq<T>, keySelector: (T, nat) -> K, vs: Option<(T, nat) -> V>)
    returns (r: Result<OrderedMap<K, V>>)
    ensures r == MapFrom(src, keySelector, vs, 1)
  {
    var keys: seq<K> := [];
    var entries: map<K, V> := map[];
    var i := 0;
    while i < |src|
      invariant 0 <= i <= |src|
      invariant MapFrom(src[..i], keySelector, vs, 1) == Success(OrderedMap(keys, entries))
    {
      assert src[..i + 1][..i] == src[..i];
      var x := src[i];
      var key := keySelector(x, i);
      i := i + 1;
      if key in entries {
        CarriesFailure(src, keySelector, vs, 1, i);
        return Failure(DuplicateKey);
      }
      if vs.None? {
        CarriesFailure(src, keySelector, vs, 1, i);
        return Failure(NotAFunction);
      }
      keys := keys + [key];
      entries := entries[key := vs.value(x, i)];
    }
    assert src[..i] == src;
    r := Success(OrderedMap(keys, entries));
  }

  /** A failure on a prefix is the failure of the whole source. */
  lemma {:induction false} CarriesFailure<T, K, V>(s: seq<T>, key: (T, nat) -> K, vs: Option<(T, nat) -> V>, shift: nat, k: nat)
    requires k <= |s|
    requires MapFrom(s[..k], key, vs, shift).Failure?
    ensures MapFrom(s, key, vs, shift) == MapFrom(s[..k], key, vs, shift)
    decreases |s| - k
  {
    if k < |s| {
      assert s[..k + 1][..k] == s[..k];
      CarriesFailure(s, key, vs, shift, k + 1);
    } else {
      assert s[..k] == s;
    }
  }

  /** The library's examples: keys `x` with values `x / 2` over [0, 1, 2], and a repeated key. */
  lemma ToMapExamples()
    ensures ToMapIntended([0, 1, 2], (x: int, _: nat) => x, Function((x: int, _: nat) => x / 2)).Success?
    ensures ToMapAsWritten([0, 0], (x: int, _: nat) => x, Function((x: int, _: nat) => x)) == Failure(DuplicateKey)
  {
    var key := (x: int, _: nat) => x;
    ToMapIntendedContract([0, 1, 2], key, Function((x: int, _: nat) => x / 2));
    MapFromOutcome([0, 0], key, MapValueSelectorAsWritten(Function((x: int, _: nat) => x)), 1);
  }

  // ---------------------------------------------------------------- toSet

  /** One call of `_toSet`: the keys in insertion order, or "duplicate key" when one repeats. */
  function SetFrom<T, K(==)>(s: seq<T>, key: (T, nat) -> K): (r: Result<seq<K>>)
    ensures r.Success? <==> UniqueKeys(s, key)
    ensures r.Failure? ==> r.error == DuplicateKey
    ensures r.Success? ==> r.value == Mapped(s, key)
  {
    match MapFrom(s, key, Some(key), 0)
    case Failure(e) =>
      MapFromOutcome(s, key, Some(key), 0);
      Failure(e)
    case Success(m) =>
      MapFromOutcome(s, key, Some(key), 0);
      MapFromEntries(s, key, Some(key), 0);
      Success(m.keys)
  }

  /** The loop of `_toSet`: `has` check, then `add`. */
  method ToSet<T, K(==)>(src: seq<T>, ks: (T, nat) -> K) returns (r: Result<seq<K>>)
    ensures r == SetFrom(src, ks)
  {
    var inserted: seq<K> := [];
    var present: set<K> := {};
    var i := 0;
    while i < |src|
      invariant 0 <= i <= |src|
      invariant UniqueKeys(src[..i], ks)
      invariant inserted == Mapped(src[..i], ks)
      invariant present == set j | 0 <= j < i :: ks(src[j], j)
    {
      var key := ks(src[i], i);
      if key in present {
        var j :| 0 <= j < i && ks(src[j], j) == key;
        assert !UniqueKeys(src, ks);
        return Failure(DuplicateKey);
      }
      assert forall j :: 0 <= j < i ==> src[..i + 1][j] == src[..i][j];
      inserted := inserted + [key];
      present := present + {key};
      i := i + 1;
    }
    assert src[..i] == src;
    r := Success(inserted);
  }

  /** The library's examples: distinct keys keep every element; [1, 1] throws. */
  lemma ToSetExamples()
    ensures SetFrom([0, 1, 2], ChosenSelector<int, int>(Absent, Identity())) == Success([0, 1, 2])
    ensures SetFrom([1, 1], ChosenSelector(Function((x: int, _: nat) => x), Identity())) == Failure(DuplicateKey)
  {
    var id := ChosenSelector<int, int>(Absent, Identity());
    assert UniqueKeys([0, 1, 2], id);
    assert Mapped([0, 1, 2], id) == [0, 1, 2];
    var f := ChosenSelector(Function((x: int, _: nat) => x), Identity());
    var t := [1, 1];
    assert f(t[0], 0) == f(t[1], 1);
  }
}
