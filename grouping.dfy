/**
 * Grouping operators: groupBy, deduplicateBy and groupAdjacent.
 *
 * `groupBy` and `deduplicateBy` are built on the lookup of `toLookup`, which is filled when the
 * operator is called; every later traversal replays the lookup's entries. `groupAdjacent` is a
 * generator that walks its source once per traversal and merges runs of consecutive equal keys.
 */
module Grouping {
  import opened Wrappers
  import opened Seqs
  import opened Iterables
  import opened Projection
  import opened Materialize
  import opened Distinct

  // ---------------------------------------------------------------- groupBy

  /** A `GroupedIterable`: a key, and the bucket of elements its iterator yields. */
  datatype Group<K, T> = Group(key: K, members: seq<T>)

  /** The iterator of `createGroupedIterable(key, value)`: every element of the bucket, in order. */
  method TraverseGroup<K, T>(g: Group<K, T>) returns (xs: seq<T>)
    ensures xs == g.members
  {
    xs := [];
    var i := 0;
    while i < |g.members|
      invariant 0 <= i <= |g.members|
      invariant xs == g.members[..i]
    {
      xs := xs + [g.members[i]];
      i := i + 1;
    }
  }

  /** `lookup.get(k) || []`: the bucket of `k`, or the empty list for a key the lookup does not hold. */
  function Get<K, V>(l: OrderedMap<K, seq<V>>, k: K): seq<V>
  {
    if k in l.entries then l.entries[k] else []
  }

  /** The groups `_groupBy` yields: the lookup's entries as groups, in the lookup's key order. */
  function GroupsOf<T, K(==)>(s: seq<T>, key: (T, nat) -> K): (gs: seq<Group<K, T>>)
  {
    var l := LookupOf(s, key, Identity());
    seq(|l.keys|, j requires 0 <= j < |l.keys| => Group(l.keys[j], Get(l, l.keys[j])))
  }

  /** The members of every group, in group order. */
  function MembersOf<K, T>(gs: seq<Group<K, T>>): (ms: seq<seq<T>>)
    ensures |ms| == |gs|
    ensures forall j :: 0 <= j < |gs| ==> ms[j] == gs[j].members
  {
    seq(|gs|, j requires 0 <= j < |gs| => gs[j].members)
  }

  /** With each element as its own value, a bucket is the filter of the source by its key. */
  lemma {:induction false} IdentityBucket<T, K>(s: seq<T>, key: (T, nat) -> K, k: K)
    ensures Bucket(s, key, Identity(), k) == Filtered(s, KeyIs(key, k))
  {
    if |s| > 0 {
      IdentityBucket(s[..|s| - 1], key, k);
    }
  }

  /**
   * One group per distinct key, in first-seen order: the j-th group's key is the key of the j-th
   * element `distinctBy` keeps, and no two groups share a key.
   */
  lemma GroupByKeys<T, K>(s: seq<T>, key: (T, nat) -> K)
    ensures var gs := GroupsOf(s, key);
      var idx := DistinctPositions(s, key);
      && |gs| == |idx| == |KeysOf(s, key)|
      && (forall j :: 0 <= j < |gs| ==> gs[j].key == key(s[idx[j]], idx[j]))
      && (forall a, b :: 0 <= a < b < |gs| ==> gs[a].key != gs[b].key)
  {
    LookupKeyOrder(s, key, Identity());
    LookupValid(s, key, Identity());
    DistinctByCount(s, key);
  }

  /** Each group holds exactly the elements with its key, in source order, and is never empty. */
  lemma GroupByMembers<T, K>(s: seq<T>, key: (T, nat) -> K)
    ensures var gs := GroupsOf(s, key);
      forall j :: 0 <= j < |gs| ==> gs[j].members == Filtered(s, KeyIs(key, gs[j].key)) && |gs[j].members| > 0
  {
    var gs := GroupsOf(s, key);
    var l := LookupOf(s, key, Identity());
    LookupValid(s, key, Identity());
    forall j | 0 <= j < |gs|
      ensures gs[j].members == Filtered(s, KeyIs(key, gs[j].key)) && |gs[j].members| > 0
    {
      LookupBuckets(s, key, Identity(), l.keys[j]);
      IdentityBucket(s, key, l.keys[j]);
    }
  }

  /** The members of all groups, read in group order, are a permutation of the source. */
  lemma GroupByPartition<T, K>(s: seq<T>, key: (T, nat) -> K)
    ensures multiset(Flatten(MembersOf(GroupsOf(s, key)))) == multiset(s)
    ensures SumLengths(MembersOf(GroupsOf(s, key))) == |s|
  {
    LookupPartition(s, key, Identity());
    assert MembersOf(GroupsOf(s, key)) == Groups(LookupOf(s, key, Identity()));
    assert Mapped(s, Identity()) == s;
  }

  /**
   * `_groupBy(src, keySelector)`: the source is traversed once, when the operator is called, to
   * fill the lookup; the returned sequence maps the lookup's entries to groups, so every traversal
   * of it yields the same groups and none reopens the source.
   */
  method GroupBy<T, K(==)>(src: Iterable<T>, keySelector: (T, nat) -> K) returns (r: Iterable<Group<K, T>>)
    modifies src
    ensures fresh(r) && r.opens == 0
    ensures src.opens == old(src.opens) + 1
    ensures forall n: nat :: r.gen(n) == GroupsOf(src.gen(old(src.opens)), keySelector)
  {
    var xs := src.ToJson();
    var lookup := ToLookup(xs, keySelector, Identity());
    LookupValid(xs, keySelector, Identity());
    var groups := [];
    var j := 0;
    while j < |lookup.keys|
      invariant 0 <= j <= |lookup.keys|
      invariant groups == GroupsOf(xs, keySelector)[..j]
    {
      var key := lookup.keys[j];
      groups := groups + [Group(key, lookup.entries[key])];
      j := j + 1;
    }
    r := new Iterable((n: nat) => groups);
  }

  /**
   * Grouping the impure counting source: the groups come from the one traversal made when
   * `groupBy` is called, and traversing them twice gives the same groups without reopening the
   * source.
   */
  method GroupByBuiltOnce() returns (first: seq<Group<int, int>>, second: seq<Group<int, int>>, opens: nat)
    ensures first == second == GroupsOf([0, 1, 2], Parity)
    ensures opens == 1
  {
    var src := new Iterable(CountingSource());
    var grouped := GroupBy(src, Parity);
    first := grouped.ToJson();
    second := grouped.ToJson();
    opens := src.opens;
  }

  /** `range(0, 2)` keyed by parity: the group of 0 holds 0, the group of 1 holds 1. */
  lemma ParityGroups(s: seq<int>)
    requires s == [0, 1]
    ensures GroupsOf(s, Parity) == [Group(0, [0]), Group(1, [1])]
  {
    assert s[..1] == [0] && [0][..0] == [];
    assert Identity()(0, 0) == 0 && Identity()(1, 1) == 1;
    assert [] + [0] == [0] && [] + [1] == [1];
    assert LookupOf([0], Parity, Identity()) == OrderedMap([0], map[0 := [0]]);
    assert LookupOf(s, Parity, Identity()) == OrderedMap([0, 1], map[0 := [0], 1 := [1]]);
  }

  /** Every member of a group paired with the group's key. */
  function KeyedMembers(g: Group<int, int>, position: nat): (r: seq<(int, int)>)
    ensures |r| == |g.members|
    ensures forall i :: 0 <= i < |r| ==> r[i] == (g.key, g.members[i])
  {
    Mapped(g.members, (x: int, _: nat) => (g.key, x))
  }

  /**
   * The library's test: `range(0, 2)` grouped by `x % 2`, each member paired with its group's key,
   * gives `[[0, 0], [1, 1]]` on both traversals.
   */
  method GroupByExample() returns (first: seq<(int, int)>, second: seq<(int, int)>)
    ensures first == second == [(0, 0), (1, 1)]
  {
    var src := new Iterable((n: nat) => [0, 1]);
    var grouped := GroupBy(src, Parity);
    ParityGroups([0, 1]);
    var gs := grouped.ToJson();
    first := FlatMap(gs, KeyedMembers);
    gs := grouped.ToJson();
    second := FlatMap(gs, KeyedMembers);
    KeyedParity(gs);
  }

  /** The two parity groups flattened with their keys. */
  lemma KeyedParity(gs: seq<Group<int, int>>)
    requires gs == [Group(0, [0]), Group(1, [1])]
    ensures FlatMapped(gs, KeyedMembers) == [(0, 0), (1, 1)]
  {
    assert gs[..1] == [Group(0, [0])] && gs[..1][..0] == [];
    assert KeyedMembers(gs[0], 0) == [(0, 0)];
    assert KeyedMembers(gs[1], 1) == [(1, 1)];
  }

  // ---------------------------------------------------------------- deduplicateBy

  /** The first element the filter keeps is the first position whose predicate holds. */
  lemma FirstKept<T>(s: seq<T>, p: (T, nat) -> bool, i: nat)
    requires i < |s| && p(s[i], i)
    requires forall j :: 0 <= j < i ==> !p(s[j], j)
    ensures |Filtered(s, p)| > 0 && Filtered(s, p)[0] == s[i]
  {
    var idx := KeptPositions(s, p);
    assert i in idx;
    var m :| 0 <= m < |idx| && idx[m] == i;
    assert m == 0;
  }

  /** The first member of every group, in group order. */
  function Firsts<K, T>(gs: seq<Group<K, T>>): (r: seq<T>)
    requires forall j :: 0 <= j < |gs| ==> |gs[j].members| > 0
  {
    seq(|gs|, j requires 0 <= j < |gs| => gs[j].members[0])
  }

  /** The first member of every group is exactly what `distinctBy` keeps: the first element with each key. */
  lemma FirstsAreDistinct<T, K>(s: seq<T>, key: (T, nat) -> K)
    ensures var gs := GroupsOf(s, key);
      && (forall j :: 0 <= j < |gs| ==> |gs[j].members| > 0)
      && Firsts(gs) == DistinctBy(s, key)
  {
    var gs := GroupsOf(s, key);
    var idx := DistinctPositions(s, key);
    GroupByMembers(s, key);
    GroupByKeys(s, key);
    forall j | 0 <= j < |gs|
      ensures gs[j].members[0] == DistinctBy(s, key)[j]
    {
      assert idx[j] in idx;
      FirstKept(s, KeyIs(key, gs[j].key), idx[j]);
    }
  }

  /** One traversal of `deduplicateBy(src, keySelector)`: the first element of every key's group. */
  function DeduplicatedBy<T, K(==)>(s: seq<T>, key: (T, nat) -> K): (r: seq<T>)
    ensures r == DistinctBy(s, key)
  {
    GroupByMembers(s, key);
    FirstsAreDistinct(s, key);
    Firsts(GroupsOf(s, key))
  }

  /**
   * `deduplicateBy` keeps one element per distinct key, each the first element with that key, in
   * source order, and no two of them share a key.
   */
  lemma DeduplicateByKeys<T, K>(s: seq<T>, key: (T, nat) -> K)
    ensures var r := DeduplicatedBy(s, key);
      var idx := DistinctPositions(s, key);
      && |r| == |KeysOf(s, key)|
      && SelectedAt(r, s, idx)
      && (forall i: nat :: i in idx <==> i < |s| && FirstWithKey(s, key, i))
      && (forall a, b :: 0 <= a < b < |idx| ==> key(s[idx[a]], idx[a]) != key(s[idx[b]], idx[b]))
  {
    DistinctByCount(s, key);
    DistinctKeys(s, key);
  }

  /**
   * `_deduplicateBy(src, keySelector)`: `groupBy` runs when the operator is called, and the
   * returned sequence maps every group to its first element.
   */
  method DeduplicateBy<T, K(==)>(src: Iterable<T>, keySelector: (T, nat) -> K) returns (r: Iterable<T>)
    modifies src
    ensures fresh(r) && r.opens == 0
    ensures src.opens == old(src.opens) + 1
    ensures forall n: nat :: r.gen(n) == DistinctBy(src.gen(old(src.opens)), keySelector)
  {
    ghost var xs := src.gen(src.opens);
    var grouped := GroupBy(src, keySelector);
    var gs := grouped.ToJson();
    GroupByMembers(xs, keySelector);
    FirstsAreDistinct(xs, keySelector);
    var firsts := [];
    var j := 0;
    while j < |gs|
      invariant 0 <= j <= |gs|
      invariant firsts == Firsts(gs)[..j]
    {
      firsts := firsts + [gs[j].members[0]];
      j := j + 1;
    }
    r := new Iterable((n: nat) => firsts);
  }

  /** A record of the library's test: an id and a value. */
  datatype Entry = Entry(id: int, value: string)

  function IdOf(e: Entry, i: nat): int
  {
    e.id
  }

  /** The test's four entries: ids 1, 1, 2, 2. */
  function Entries(): seq<Entry>
  {
    [Entry(1, "first"), Entry(1, "second"), Entry(2, "third"), Entry(2, "fourth")]
  }

  /** De-duplicating the entries by id keeps the first and the third. */
  lemma DeduplicateByExample()
    ensures DeduplicatedBy(Entries(), IdOf) == [Entries()[0], Entries()[2]]
  {
    DistinctEntries(Entries());
  }

  /** The first-seen filter over the entries, one element at a time. */
  lemma DistinctEntries(s: seq<Entry>)
    requires s == Entries()
    ensures DistinctBy(s, IdOf) == [s[0], s[2]]
  {
    var p3 := s[..3];
    DistinctEntriesFirstTwo(s);
    assert p3[..2] == s[..2];
    assert DistinctBy(p3, IdOf) == [s[0], s[2]] && KeysOf(p3, IdOf) == {1, 2};
  }

  /** The second entry repeats the id of the first. */
  lemma DistinctEntriesFirstTwo(s: seq<Entry>)
    requires s == Entries()
    ensures DistinctBy(s[..2], IdOf) == [s[0]] && KeysOf(s[..2], IdOf) == {1}
  {
    var p1, p2 := [s[0]], s[..2];
    assert p2[..1] == p1 && p1[..0] == [];
    assert DistinctBy(p1, IdOf) == [s[0]] && KeysOf(p1, IdOf) == {1};
  }

  // ---------------------------------------------------------------- groupAdjacent

  /** The equality of `_groupAdjacent`: `undefined` equals nothing, not even `undefined`. */
  predicate KeyEq<K(==)>(a: Option<K>, b: Option<K>)
  {
    a.Some? && b.Some? && a.value == b.value
  }

  /** The generator's variables between two elements: `group`, `members`, and the groups yielded so far. */
  datatype Adjacency<K, E> = Adjacency(group: Option<K>, members: Option<seq<E>>, yielded: seq<(K, seq<E>)>)

  /** What the generator yields for the group in progress: nothing unless `members` and `group` are both defined. */
  function Pending<K, E>(st: Adjacency<K, E>): seq<(K, seq<E>)>
  {
    if st.members.Some? && st.group.Some? then [(st.group.value, st.members.value)] else []
  }

  /** One iteration for an element with key `k` and projection `e`: extend the group, or yield it and start another. */
  function AdjacentStep<K(==), E>(st: Adjacency<K, E>, k: Option<K>, e: E): Adjacency<K, E>
  {
    if st.members.Some? && KeyEq(st.group, k) then Adjacency(st.group, Some(st.members.value + [e]), st.yielded)
    else Adjacency(k, Some([e]), st.yielded + Pending(st))
  }

  /** The generator's variables after the elements of `s`. */
  function AdjacentState<T, K(==), E>(s: seq<T>, key: (T, nat) -> Option<K>, element: (T, nat) -> E): Adjacency<K, E>
  {
    if |s| == 0 then Adjacency(None, None, [])
    else
      var n := |s| - 1;
      AdjacentStep(AdjacentState(s[..n], key, element), key(s[n], n), element(s[n], n))
  }

  /** The groups of one traversal: those yielded inside the loop, then the last one. */
  function AdjacentRuns<T, K(==), E>(s: seq<T>, key: (T, nat) -> Option<K>, element: (T, nat) -> E): seq<(K, seq<E>)>
  {
    var st := AdjacentState(s, key, element);
    st.yielded + Pending(st)
  }

  /** The result selector applied to a yielded group. */
  function Emit<K, E, R>(result: (K, seq<E>) -> R): ((K, seq<E>), nat) -> R
  {
    (g: (K, seq<E>), _: nat) => result(g.0, g.1)
  }

  /** One traversal of `groupAdjacent(src, keySelector, elementSelector, resultSelector)`. */
  function GroupedAdjacent<T, K(==), E, R>(s: seq<T>, key: (T, nat) -> Option<K>, element: (T, nat) -> E, result: (K, seq<E>) -> R): (r: seq<R>)
    ensures |r| == |AdjacentRuns(s, key, element)|
  {
    Mapped(AdjacentRuns(s, key, element), Emit(result))
  }

  /** The projections of the elements whose key is defined, in source order. */
  function DefinedElements<T, K, E>(s: seq<T>, key: (T, nat) -> Option<K>, element: (T, nat) -> E): seq<E>
  {
    if |s| == 0 then []
    else
      var n := |s| - 1;
      DefinedElements(s[..n], key, element) + (if key(s[n], n).Some? then [element(s[n], n)] else [])
  }

  /** The defined keys, in source order. */
  function DefinedKeys<T, K>(s: seq<T>, key: (T, nat) -> Option<K>): seq<K>
  {
    if |s| == 0 then []
    else
      var n := |s| - 1;
      DefinedKeys(s[..n], key) + (if key(s[n], n).Some? then [key(s[n], n).value] else [])
  }

  /** The members of a list of groups, one group after the other. */
  function RunMembers<K, E>(runs: seq<(K, seq<E>)>): seq<E>
  {
    if |runs| == 0 then [] else RunMembers(runs[..|runs| - 1]) + runs[|runs| - 1].1
  }

  /** `n` copies of `k`. */
  function Repeat<K>(k: K, n: nat): (r: seq<K>)
    ensures |r| == n
    ensures forall i :: 0 <= i < n ==> r[i] == k
  {
    if n == 0 then [] else Repeat(k, n - 1) + [k]
  }

  /** The key of every member of a list of groups, one group after the other. */
  function RunKeys<K, E>(runs: seq<(K, seq<E>)>): seq<K>
  {
    if |runs| == 0 then [] else RunKeys(runs[..|runs| - 1]) + Repeat(runs[|runs| - 1].0, |runs[|runs| - 1].1|)
  }

  /** Adding a group adds its members and their keys at the end. */
  lemma RunsPush<K, E>(runs: seq<(K, seq<E>)>, g: (K, seq<E>))
    ensures RunMembers(runs + [g]) == RunMembers(runs) + g.1
    ensures RunKeys(runs + [g]) == RunKeys(runs) + Repeat(g.0, |g.1|)
  {
    assert (runs + [g])[..|runs|] == runs;
  }

  /** Adding a member to the last group adds it, and its key, at the end. */
  lemma RunsExtend<K, E>(pre: seq<(K, seq<E>)>, g: (K, seq<E>), e: E)
    ensures RunMembers(pre + [(g.0, g.1 + [e])]) == RunMembers(pre + [g]) + [e]
    ensures RunKeys(pre + [(g.0, g.1 + [e])]) == RunKeys(pre + [g]) + [g.0]
  {
    RunsPush(pre, (g.0, g.1 + [e]));
    RunsPush(pre, g);
    var a, b := RunMembers(pre), RunKeys(pre);
    assert Repeat(g.0, |g.1| + 1) == Repeat(g.0, |g.1|) + [g.0];
    assert a + (g.1 + [e]) == (a + g.1) + [e];
    assert b + (Repeat(g.0, |g.1|) + [g.0]) == (b + Repeat(g.0, |g.1|)) + [g.0];
  }

  /** An element whose key equals the group in progress joins that group, which is the last one. */
  lemma RunsMerge<T, K, E>(s: seq<T>, key: (T, nat) -> Option<K>, element: (T, nat) -> E)
    requires |s| > 0
    requires var st := AdjacentState(s[..|s| - 1], key, element);
      st.members.Some? && KeyEq(st.group, key(s[|s| - 1], |s| - 1))
    ensures var n := |s| - 1;
      var st := AdjacentState(s[..n], key, element);
      && st.group.value == key(s[n], n).value
      && AdjacentRuns(s[..n], key, element) == st.yielded + [(st.group.value, st.members.value)]
      && AdjacentRuns(s, key, element) == st.yielded + [(st.group.value, st.members.value + [element(s[n], n)])]
  {
  }

  /** Any other element starts a group of its own, which is yielded only when its key is defined. */
  lemma RunsNew<T, K, E>(s: seq<T>, key: (T, nat) -> Option<K>, element: (T, nat) -> E)
    requires |s| > 0
    requires var st := AdjacentState(s[..|s| - 1], key, element);
      !(st.members.Some? && KeyEq(st.group, key(s[|s| - 1], |s| - 1)))
    ensures var n := |s| - 1;
      var k := key(s[n], n);
      AdjacentRuns(s, key, element) == AdjacentRuns(s[..n], key, element) + (if k.Some? then [(k.value, [element(s[n], n)])] else [])
  {
  }

  /** The yielded groups hold the defined projections and their keys, in order, and none is empty. */
  ghost predicate Covered<T, K, E>(s: seq<T>, key: (T, nat) -> Option<K>, element: (T, nat) -> E)
  {
    var runs := AdjacentRuns(s, key, element);
    && RunMembers(runs) == DefinedElements(s, key, element)
    && RunKeys(runs) == DefinedKeys(s, key)
    && forall j :: 0 <= j < |runs| ==> |runs[j].1| > 0
  }

  /** The step of the cover proof for an element that joins the group in progress. */
  lemma CoverMerge<T, K, E>(s: seq<T>, key: (T, nat) -> Option<K>, element: (T, nat) -> E)
    requires |s| > 0 && Covered(s[..|s| - 1], key, element)
    requires var st := AdjacentState(s[..|s| - 1], key, element);
      st.members.Some? && KeyEq(st.group, key(s[|s| - 1], |s| - 1))
    ensures Covered(s, key, element)
  {
    var n := |s| - 1;
    var st := AdjacentState(s[..n], key, element);
    var e := element(s[n], n);
    RunsMerge(s, key, element);
    var y, g := st.yielded, (st.group.value, st.members.value);
    RunsExtend(y, g, e);
    assert forall j :: 0 <= j < |y| ==> (y + [(g.0, g.1 + [e])])[j] == (y + [g])[j];
  }

  /** The step of the cover proof for an element with a defined key that starts a group. */
  lemma CoverNew<T, K, E>(s: seq<T>, key: (T, nat) -> Option<K>, element: (T, nat) -> E)
    requires |s| > 0 && Covered(s[..|s| - 1], key, element)
    requires var st := AdjacentState(s[..|s| - 1], key, element);
      !(st.members.Some? && KeyEq(st.group, key(s[|s| - 1], |s| - 1)))
    requires key(s[|s| - 1], |s| - 1).Some?
    ensures Covered(s, key, element)
  {
    var n := |s| - 1;
    var runs := AdjacentRuns(s[..n], key, element);
    var k, e := key(s[n], n).value, element(s[n], n);
    var runs' := runs + [(k, [e])];
    assert AdjacentRuns(s, key, element) == runs' by {
      RunsNew(s, key, element);
    }
    assert RunMembers(runs') == RunMembers(runs) + [e] && RunKeys(runs') == RunKeys(runs) + [k] by {
      RunsPush(runs, (k, [e]));
      assert Repeat(k, 1) == [k];
    }
    assert DefinedElements(s, key, element) == DefinedElements(s[..n], key, element) + [e];
    assert DefinedKeys(s, key) == DefinedKeys(s[..n], key) + [k];
    forall j | 0 <= j < |runs'|
      ensures |runs'[j].1| > 0
    {
      if j < |runs| {
        assert runs'[j] == runs[j];
      }
    }
  }

  /** The step of the cover proof for an element whose key is `undefined`: nothing is yielded for it. */
  lemma CoverUndefined<T, K, E>(s: seq<T>, key: (T, nat) -> Option<K>, element: (T, nat) -> E)
    requires |s| > 0 && Covered(s[..|s| - 1], key, element)
    requires key(s[|s| - 1], |s| - 1).None?
    ensures Covered(s, key, element)
  {
    var n := |s| - 1;
    RunsNew(s, key, element);
    assert AdjacentRuns(s[..n], key, element) + [] == AdjacentRuns(s[..n], key, element);
  }

  /**
   * Every element with a defined key lands, in source order, in exactly one yielded group whose
   * key is that element's key; an element with an `undefined` key is in no yielded group; and no
   * yielded group is empty.
   */
  lemma {:induction false} AdjacentRunsCover<T, K, E>(s: seq<T>, key: (T, nat) -> Option<K>, element: (T, nat) -> E)
    ensures var runs := AdjacentRuns(s, key, element);
      && RunMembers(runs) == DefinedElements(s, key, element)
      && RunKeys(runs) == DefinedKeys(s, key)
      && forall j :: 0 <= j < |runs| ==> |runs[j].1| > 0
  {
    if |s| > 0 {
      var n := |s| - 1;
      AdjacentRunsCover(s[..n], key, element);
      var st := AdjacentState(s[..n], key, element);
      if st.members.Some? && KeyEq(st.group, key(s[n], n)) {
        CoverMerge(s, key, element);
      } else if key(s[n], n).Some? {
        CoverNew(s, key, element);
      } else {
        CoverUndefined(s, key, element);
      }
    }
  }

  /** With every key defined, the defined projections are the whole projected source. */
  lemma {:induction false} AllDefinedElements<T, K, E>(s: seq<T>, key: (T, nat) -> Option<K>, element: (T, nat) -> E)
    requires forall i :: 0 <= i < |s| ==> key(s[i], i).Some?
    ensures DefinedElements(s, key, element) == Mapped(s, element)
  {
    if |s| > 0 {
      var n := |s| - 1;
      assert forall i :: 0 <= i < n ==> s[..n][i] == s[i];
      AllDefinedElements(s[..n], key, element);
    }
  }

  /** With every key defined the generator always has a group in progress, and it is the last group. */
  lemma {:induction false} AdjacentInProgress<T, K, E>(s: seq<T>, key: (T, nat) -> Option<K>, element: (T, nat) -> E)
    requires forall i :: 0 <= i < |s| ==> key(s[i], i).Some?
    requires |s| > 0
    ensures var st := AdjacentState(s, key, element);
      && st.members.Some? && st.group.Some?
      && AdjacentRuns(s, key, element) == st.yielded + [(st.group.value, st.members.value)]
  {
    var n := |s| - 1;
    if n > 0 {
      assert forall i :: 0 <= i < n ==> s[..n][i] == s[i];
      AdjacentInProgress(s[..n], key, element);
    }
  }

  /** Two neighbouring groups never have equal keys, when every key is defined. */
  lemma {:induction false} AdjacentKeysDiffer<T, K, E>(s: seq<T>, key: (T, nat) -> Option<K>, element: (T, nat) -> E)
    requires forall i :: 0 <= i < |s| ==> key(s[i], i).Some?
    ensures var runs := AdjacentRuns(s, key, element);
      forall j :: 0 <= j < |runs| - 1 ==> runs[j].0 != runs[j + 1].0
  {
    if |s| > 0 {
      var n := |s| - 1;
      assert forall i :: 0 <= i < n ==> s[..n][i] == s[i];
      AdjacentKeysDiffer(s[..n], key, element);
      var st := AdjacentState(s[..n], key, element);
      var runs := AdjacentRuns(s[..n], key, element);
      var k, e := key(s[n], n), element(s[n], n);
      if st.members.Some? && KeyEq(st.group, k) {
        RunsMerge(s, key, element);
        var runs' := AdjacentRuns(s, key, element);
        assert |runs'| == |runs|;
        assert forall j :: 0 <= j < |runs| - 1 ==> runs'[j] == runs[j];
        assert runs'[|runs| - 1].0 == runs[|runs| - 1].0;
      } else {
        RunsNew(s, key, element);
        assert (runs + [(k.value, [e])])[..|runs|] == runs;
        if n > 0 {
          AdjacentInProgress(s[..n], key, element);
          assert runs[|runs| - 1].0 == st.group.value;
        }
      }
    }
  }

  /**
   * With every key defined, the groups read one after the other give back the projected source,
   * none is empty, and two neighbouring groups never have equal keys: every run of equal keys is
   * one group.
   */
  lemma AdjacentRunsMaximal<T, K, E>(s: seq<T>, key: (T, nat) -> Option<K>, element: (T, nat) -> E)
    requires forall i :: 0 <= i < |s| ==> key(s[i], i).Some?
    ensures var runs := AdjacentRuns(s, key, element);
      && RunMembers(runs) == Mapped(s, element)
      && (forall j :: 0 <= j < |runs| ==> |runs[j].1| > 0)
      && (forall j :: 0 <= j < |runs| - 1 ==> runs[j].0 != runs[j + 1].0)
  {
    AdjacentRunsCover(s, key, element);
    AllDefinedElements(s, key, element);
    AdjacentKeysDiffer(s, key, element);
  }

  /**
   * The generator of `_groupAdjacent`: one cursor over the source, a counter for the index, and
   * the `group` and `members` variables; a group is yielded when a different key arrives and once
   * more after the source ends.
   */
  method GroupAdjacent<T, K(==), E, R>(src: Iterable<T>, keySelector: (T, nat) -> Option<K>, elementSelector: (T, nat) -> E, resultSelector: (K, seq<E>) -> R)
    returns (out: seq<R>)
    modifies src
    ensures src.opens == old(src.opens) + 1
    ensures out == GroupedAdjacent(src.gen(old(src.opens)), keySelector, elementSelector, resultSelector)
  {
    ghost var xs := src.gen(src.opens);
    var cursor := src.Open();
    var group: Option<K> := None;
    var members: Option<seq<E>> := None;
    ghost var yielded: seq<(K, seq<E>)> := [];
    out := [];
    var i := 0;
    var itResult := cursor.Next();
    while itResult.Some?
      invariant src.opens == old(src.opens) + 1
      invariant cursor.Valid() && cursor.items == xs
      invariant cursor.pos == i + (if itResult.Some? then 1 else 0)
      invariant itResult.None? ==> cursor.pos == |xs|
      invariant itResult.Some? ==> itResult.value == xs[i]
      invariant Adjacency(group, members, yielded) == AdjacentState(xs[..i], keySelector, elementSelector)
      invariant out == Mapped(yielded, Emit(resultSelector))
      decreases |xs| - i
    {
      AdjacentStateAt(xs, i + 1, keySelector, elementSelector, Adjacency(group, members, yielded));
      var idx := i;
      i := i + 1;
      var key := keySelector(itResult.value, idx);
      var element := elementSelector(itResult.value, idx);
      if members.Some? && KeyEq(group, key) {
        members := Some(members.value + [element]);
      } else {
        ghost var pending := Pending(Adjacency(group, members, yielded));
        if members.Some? && group.Some? {
          out := out + [resultSelector(group.value, members.value)];
          assert (yielded + pending)[..|yielded|] == yielded;
        } else {
          assert yielded + pending == yielded;
        }
        yielded := yielded + pending;
        group := key;
        members := Some([element]);
      }
      itResult := cursor.Next();
    }
    assert xs[..i] == xs;
    ghost var pending := Pending(Adjacency(group, members, yielded));
    if members.Some? && group.Some? {
      assert (yielded + pending)[..|yielded|] == yielded;
      out := out + [resultSelector(group.value, members.value)];
    } else {
      assert yielded + pending == yielded;
    }
  }

  /** The library's test input: runs of 1, 2, 3 and 2 again. */
  function Runs1232(): seq<int>
  {
    [1, 1, 2, 2, 2, 3, 3, 3, 3, 2, 2]
  }

  function SomeKey(x: int, i: nat): Option<int>
  {
    Some(x)
  }

  function Itself(x: int, i: nat): int
  {
    x
  }

  function Items(key: int, items: seq<int>): seq<int>
  {
    items
  }

  /** The generator's variables after one more element of `s`. */
  lemma AdjacentStateAt<T, K, E>(s: seq<T>, m: nat, key: (T, nat) -> Option<K>, element: (T, nat) -> E, st: Adjacency<K, E>)
    requires 0 < m <= |s|
    requires AdjacentState(s[..m - 1], key, element) == st
    ensures AdjacentState(s[..m], key, element) == AdjacentStep(st, key(s[m - 1], m - 1), element(s[m - 1], m - 1))
  {
    assert s[..m][..m - 1] == s[..m - 1];
  }

  /** The first two elements of the test input form the group of 1s in progress. */
  lemma ExampleOnes(s: seq<int>)
    requires s == Runs1232()
    ensures AdjacentState(s[..2], SomeKey, Itself) == Adjacency(Some(1), Some([1, 1]), [])
  {
    assert s[..0] == [];
    assert [1] + [1] == [1, 1];
    AdjacentStateAt(s, 1, SomeKey, Itself, Adjacency(None, None, []));
    AdjacentStateAt(s, 2, SomeKey, Itself, Adjacency(Some(1), Some([1]), []));
  }

  /** The first four elements of the test input: the run of 1s is yielded when the first 2 arrives. */
  lemma ExampleFirstRun(s: seq<int>)
    requires s == Runs1232()
    ensures AdjacentState(s[..4], SomeKey, Itself) == Adjacency(Some(2), Some([2, 2]), [(1, [1, 1])])
  {
    ExampleOnes(s);
    assert [2] + [2] == [2, 2];
    assert [] + [(1, [1, 1])] == [(1, [1, 1])];
    AdjacentStateAt(s, 3, SomeKey, Itself, Adjacency(Some(1), Some([1, 1]), []));
    AdjacentStateAt(s, 4, SomeKey, Itself, Adjacency(Some(2), Some([2]), [(1, [1, 1])]));
  }

  /** Elements five and six: the fifth joins the run of 2s, the sixth is a 3 and yields that run. */
  lemma ExampleTwos(s: seq<int>)
    requires s == Runs1232()
    ensures AdjacentState(s[..6], SomeKey, Itself) == Adjacency(Some(3), Some([3]), [(1, [1, 1]), (2, [2, 2, 2])])
  {
    ExampleFirstRun(s);
    assert [2, 2] + [2] == [2, 2, 2];
    assert [(1, [1, 1])] + [(2, [2, 2, 2])] == [(1, [1, 1]), (2, [2, 2, 2])];
    AdjacentStateAt(s, 5, SomeKey, Itself, Adjacency(Some(2), Some([2, 2]), [(1, [1, 1])]));
    AdjacentStateAt(s, 6, SomeKey, Itself, Adjacency(Some(2), Some([2, 2, 2]), [(1, [1, 1])]));
  }

  /** Elements seven and eight extend the run of 3s. */
  lemma ExampleSecondRun(s: seq<int>)
    requires s == Runs1232()
    ensures AdjacentState(s[..8], SomeKey, Itself) == Adjacency(Some(3), Some([3, 3, 3]), [(1, [1, 1]), (2, [2, 2, 2])])
  {
    var y := [(1, [1, 1]), (2, [2, 2, 2])];
    ExampleTwos(s);
    assert [3] + [3] == [3, 3] && [3, 3] + [3] == [3, 3, 3];
    AdjacentStateAt(s, 7, SomeKey, Itself, Adjacency(Some(3), Some([3]), y));
    AdjacentStateAt(s, 8, SomeKey, Itself, Adjacency(Some(3), Some([3, 3]), y));
  }

  /** The last three elements: the run of 3s is yielded when the second run of 2s starts. */
  lemma ExampleLastRuns(s: seq<int>)
    requires s == Runs1232()
    ensures AdjacentState(s, SomeKey, Itself) == Adjacency(Some(2), Some([2, 2]), [(1, [1, 1]), (2, [2, 2, 2]), (3, [3, 3, 3, 3])])
  {
    var y := [(1, [1, 1]), (2, [2, 2, 2])];
    ExampleSecondRun(s);
    assert [3, 3, 3] + [3] == [3, 3, 3, 3] && [2] + [2] == [2, 2];
    assert y + [(3, [3, 3, 3, 3])] == [(1, [1, 1]), (2, [2, 2, 2]), (3, [3, 3, 3, 3])];
    AdjacentStateAt(s, 9, SomeKey, Itself, Adjacency(Some(3), Some([3, 3, 3]), y));
    AdjacentStateAt(s, 10, SomeKey, Itself, Adjacency(Some(3), Some([3, 3, 3, 3]), y));
    AdjacentStateAt(s, 11, SomeKey, Itself, Adjacency(Some(2), Some([2]), y + [(3, [3, 3, 3, 3])]));
    assert s[..11] == s;
  }

  /**
   * The library's test: the repeated but separated 2s make a group of their own, so
   * `[1, 1, 2, 2, 2, 3, 3, 3, 3, 2, 2]` gives four groups.
   */
  lemma GroupAdjacentRuns(s: seq<int>)
    requires s == Runs1232()
    ensures GroupedAdjacent(s, SomeKey, Itself, Items) == [[1, 1], [2, 2, 2], [3, 3, 3, 3], [2, 2]]
  {
    ExampleLastRuns(s);
    var runs := [(1, [1, 1]), (2, [2, 2, 2]), (3, [3, 3, 3, 3])] + [(2, [2, 2])];
    assert AdjacentRuns(s, SomeKey, Itself) == runs;
    var r := Mapped(runs, Emit(Items));
    assert r[0] == runs[0].1 && r[1] == runs[1].1 && r[2] == runs[2].1 && r[3] == runs[3].1;
  }

  /** One traversal of `groupAdjacent` over the test input yields the four runs. */
  method GroupAdjacentExample() returns (out: seq<seq<int>>)
    ensures out == [[1, 1], [2, 2, 2], [3, 3, 3, 3], [2, 2]]
  {
    var src := new Iterable((n: nat) => Runs1232());
    out := GroupAdjacent(src, SomeKey, Itself, Items);
    GroupAdjacentRuns(src.gen(0));
  }
}
