/**
 * The documentation plugin that floats selected reflections to the top of each listing:
 * `prioritizeSubset`, `reorderSubset`, `shouldSort` and the comparator `createComparator`
 * builds.
 *
 * A reflection is a value with an identity (`id`, standing for the object reference the
 * plugin compares with `!==`), an optional string name and an optional numeric kind. A
 * listing is a list of items; both reorderings return a new list, or `undefined` (None) when
 * the listing would not change. The engine's `sort` is the stable sort of the ordering model.
 */
module CustomSort {
  import opened Wrappers
  import opened Comparers
  import opened Projection
  import opened Folds
  import Ordering

  // ---------------------------------------------------------------- predicates on items

  /** A predicate on items, as the index-taking predicate `filter` hands it. */
  function Holds<T>(p: T -> bool): (T, nat) -> bool
  {
    (x: T, i: nat) => p(x)
  }

  /** The negation of a predicate. */
  function Not<T>(p: T -> bool): T -> bool
  {
    (x: T) => !p(x)
  }

  /** Filtering one more item appends it exactly when it matches. */
  lemma FilteredSnoc<T>(s: seq<T>, x: T, p: T -> bool)
    ensures Filtered(s + [x], Holds(p)) == Filtered(s, Holds(p)) + (if p(x) then [x] else [])
  {
    assert (s + [x])[..|s|] == s;
  }

  /** Every item a filter keeps matches, and the filter keeps nothing exactly when no item matches. */
  lemma FilteredMatches<T>(s: seq<T>, p: T -> bool)
    ensures forall k :: 0 <= k < |Filtered(s, Holds(p))| ==> p(Filtered(s, Holds(p))[k])
    ensures Filtered(s, Holds(p)) == [] <==> forall i :: 0 <= i < |s| ==> !p(s[i])
  {
    var f, idx := Filtered(s, Holds(p)), KeptPositions(s, Holds(p));
    forall k | 0 <= k < |f|
      ensures p(f[k])
    {
      assert idx[k] in idx;
    }
    if f == [] {
      forall i | 0 <= i < |s|
        ensures !p(s[i])
      {
        assert i !in idx;
      }
    } else {
      assert idx[0] in idx && p(s[idx[0]]);
    }
  }

  /** A filter keeps a list whose items all match, and nothing of a list none of whose items match. */
  lemma {:induction false} FilteredUniform<T>(s: seq<T>, p: T -> bool)
    ensures (forall i :: 0 <= i < |s| ==> p(s[i])) ==> Filtered(s, Holds(p)) == s
    ensures (forall i :: 0 <= i < |s| ==> !p(s[i])) ==> Filtered(s, Holds(p)) == []
  {
    if |s| > 0 {
      var n := |s| - 1;
      FilteredUniform(s[..n], p);
      FilteredSnoc(s[..n], s[n], p);
      assert s[..n] + [s[n]] == s;
    }
  }

  /** The items a filter keeps from a prefix are a prefix of the items it keeps from the whole list. */
  lemma {:induction false} FilteredPrefix<T>(s: seq<T>, p: T -> bool, k: nat)
    requires k <= |s|
    ensures |Filtered(s[..k], Holds(p))| <= |Filtered(s, Holds(p))|
    ensures Filtered(s[..k], Holds(p)) == Filtered(s, Holds(p))[..|Filtered(s[..k], Holds(p))|]
    decreases |s| - k
  {
    if k == |s| {
      assert s[..k] == s;
    } else {
      FilteredPrefix(s, p, k + 1);
      FilteredSnoc(s[..k], s[k], p);
      assert s[..k] + [s[k]] == s[..k + 1];
    }
  }

  // ---------------------------------------------------------------- prioritizeSubset

  /** The list `prioritizeSubset` builds: the matching items, then the others, each in source order. */
  function Partitioned<T>(s: seq<T>, p: T -> bool): seq<T>
  {
    Filtered(s, Holds(p)) + Filtered(s, Holds(Not(p)))
  }

  /** No item that fails the predicate comes before one that matches it. */
  ghost predicate MatchesFirst<T>(s: seq<T>, p: T -> bool)
  {
    forall i, j :: 0 <= i < j < |s| && p(s[j]) ==> p(s[i])
  }

  /** Partitioning one more item appends it to the part it belongs to. */
  lemma PartitionedSnoc<T>(s: seq<T>, x: T, p: T -> bool)
    ensures Filtered(s + [x], Holds(p)) == Filtered(s, Holds(p)) + (if p(x) then [x] else [])
    ensures Filtered(s + [x], Holds(Not(p))) == Filtered(s, Holds(Not(p))) + (if p(x) then [] else [x])
  {
    FilteredSnoc(s, x, p);
    FilteredSnoc(s, x, Not(p));
  }

  /**
   * The partition is a permutation of the source whose first `c` items match and whose other
   * items do not, `c` being the number of matching items.
   */
  lemma PartitionedProperties<T>(s: seq<T>, p: T -> bool)
    ensures var r, c := Partitioned(s, p), CountOf(s, Holds(p));
      && |r| == |s|
      && multiset(r) == multiset(s)
      && (forall i :: 0 <= i < c ==> p(r[i]))
      && (forall i :: c <= i < |r| ==> !p(r[i]))
  {
    PartitionedPermutes(s, p);
    FilteredMatches(s, p);
    FilteredMatches(s, Not(p));
    var f, g := Filtered(s, Holds(p)), Filtered(s, Holds(Not(p)));
    assert forall i :: |f| <= i < |f| + |g| ==> (f + g)[i] == g[i - |f|];
  }

  /** The partition is a permutation of the source. */
  lemma {:induction false} PartitionedPermutes<T>(s: seq<T>, p: T -> bool)
    ensures |Partitioned(s, p)| == |s|
    ensures multiset(Partitioned(s, p)) == multiset(s)
  {
    if |s| > 0 {
      var n := |s| - 1;
      PartitionedPermutes(s[..n], p);
      assert s == s[..n] + [s[n]];
      assert multiset(s) == multiset(s[..n]) + multiset{s[n]};
    }
  }

  /** The partition equals the source exactly when no failing item comes before a matching one. */
  lemma {:induction false} PartitionedFixed<T>(s: seq<T>, p: T -> bool)
    ensures Partitioned(s, p) == s <==> MatchesFirst(s, p)
  {
    if Partitioned(s, p) == s {
      PartitionedProperties(s, p);
    } else if MatchesFirst(s, p) {
      PartitionedFixedBack(s, p);
    }
  }

  /** A source whose matching items already come first is its own partition. */
  lemma {:induction false} PartitionedFixedBack<T>(s: seq<T>, p: T -> bool)
    requires MatchesFirst(s, p)
    ensures Partitioned(s, p) == s
  {
    if |s| > 0 {
      var n := |s| - 1;
      var t := s[..n];
      MatchesFirstPrefix(s, p, n);
      PartitionedFixedBack(t, p);
      if p(s[n]) {
        AllMatchBefore(s, t, p);
      }
      PartitionedLast(s, p);
    }
  }

  /** The matching items of a prefix also come first. */
  lemma MatchesFirstPrefix<T>(s: seq<T>, p: T -> bool, n: nat)
    requires MatchesFirst(s, p) && n <= |s|
    ensures MatchesFirst(s[..n], p)
  {
  }

  /** Before a matching last item, every item matches. */
  lemma AllMatchBefore<T>(s: seq<T>, t: seq<T>, p: T -> bool)
    requires MatchesFirst(s, p) && |s| > 0 && t == s[..|s| - 1] && p(s[|s| - 1])
    ensures forall i :: 0 <= i < |t| ==> p(t[i])
  {
    forall i | 0 <= i < |t|
      ensures p(t[i])
    {
      assert t[i] == s[i];
    }
  }

  /** A list is its own partition when all but its last item are, and a matching last item has only matching items before it. */
  lemma PartitionedLast<T>(s: seq<T>, p: T -> bool)
    requires |s| > 0
    requires var t := s[..|s| - 1];
      Partitioned(t, p) == t && (p(s[|s| - 1]) ==> forall i :: 0 <= i < |t| ==> p(t[i]))
    ensures Partitioned(s, p) == s
  {
    var n := |s| - 1;
    var t, x := s[..n], s[n];
    assert Filtered(s, Holds(p)) == Filtered(t, Holds(p)) + (if p(x) then [x] else []);
    assert Filtered(s, Holds(Not(p))) == Filtered(t, Holds(Not(p))) + (if p(x) then [] else [x]);
    if p(x) {
      FilteredUniform(t, p);
      FilteredUniform(t, Not(p));
    }
    assert s == t + [x];
  }

  /**
   * `prioritizeSubset(source, pred)`: None for fewer than two items, when nothing
   * matches, or when the matching items already come first; otherwise the matching items
   * followed by the others, each in source order.
   */
  method PrioritizeSubset<T(==)>(source: seq<T>, pred: T -> bool) returns (r: Option<seq<T>>)
    ensures r.None? <==> || |source| <= 1
                         || (forall i :: 0 <= i < |source| ==> !pred(source[i]))
                         || MatchesFirst(source, pred)
    ensures r.Some? ==> r.value == Partitioned(source, pred)
  {
    if |source| <= 1 {
      return None;
    }
    var prioritized, others := [], [];
    var k := 0;
    while k < |source|
      invariant 0 <= k <= |source|
      invariant prioritized == Filtered(source[..k], Holds(pred))
      invariant others == Filtered(source[..k], Holds(Not(pred)))
    {
      var item := source[k];
      FilteredStep(source, k, pred);
      FilteredStep(source, k, Not(pred));
      if pred(item) {
        prioritized := prioritized + [item];
      } else {
        others := others + [item];
      }
      k := k + 1;
    }
    assert source[..k] == source;
    if |prioritized| == 0 {
      FilteredMatches(source, pred);
      return None;
    }
    var next := prioritized + others;
    PrioritizeOutcome(source, pred);
    var index := 0;
    while index < |source|
      invariant 0 <= index <= |source|
      invariant forall j :: 0 <= j < index ==> source[j] == next[j]
    {
      if source[index] != next[index] {
        return Some(next);
      }
      index := index + 1;
    }
    assert next == source;
    return None;
  }

  /** With some matching item, the partition has the source's length, and equals it exactly when the matching items come first. */
  lemma PrioritizeOutcome<T>(s: seq<T>, p: T -> bool)
    requires Filtered(s, Holds(p)) != []
    ensures !(forall i :: 0 <= i < |s| ==> !p(s[i]))
    ensures |Partitioned(s, p)| == |s|
    ensures Partitioned(s, p) == s <==> MatchesFirst(s, p)
  {
    FilteredMatches(s, p);
    PartitionedPermutes(s, p);
    PartitionedFixed(s, p);
  }

  /** Prioritizing is idempotent: a prioritized listing is left as it is. */
  lemma PrioritizedIsStable<T>(s: seq<T>, p: T -> bool)
    ensures MatchesFirst(Partitioned(s, p), p)
    ensures Partitioned(Partitioned(s, p), p) == Partitioned(s, p)
  {
    var r := Partitioned(s, p);
    PartitionedProperties(s, p);
    PartitionedFixed(r, p);
  }

  // ---------------------------------------------------------------- reorderSubset

  /** The engine's sort permutes the list it sorts. */
  lemma OrderedPermutes<T>(s: seq<T>, cmp: (T, T) -> int)
    ensures multiset(Ordering.Ordered(s, cmp)) == multiset(s)
  {
    Ordering.SortValues(Indexed(s), cmp);
    Ordering.ValuesOfIndexed(s);
  }

  /** Every item of a permutation of a list of matching items matches. */
  lemma PermutedMatches<T>(s: seq<T>, t: seq<T>, p: T -> bool)
    requires multiset(s) == multiset(t)
    requires forall k :: 0 <= k < |t| ==> p(t[k])
    ensures forall k :: 0 <= k < |s| ==> p(s[k])
  {
    forall k | 0 <= k < |s|
      ensures p(s[k])
    {
      assert s[k] in multiset(t);
      var j :| 0 <= j < |t| && t[j] == s[k];
    }
  }

  /**
   * `x` is `s` with its matching items replaced, in order, by `t`: same length, a matching
   * item where `s` has one, every other item unchanged, and the matching items are `t`.
   */
  ghost predicate Refills<T>(x: seq<T>, s: seq<T>, p: T -> bool, t: seq<T>)
  {
    Agrees(x, s, p) && Filtered(x, Holds(p)) == t
  }

  /** `x` has a matching item exactly where `s` has one, and `s`'s other items. */
  ghost predicate Agrees<T>(x: seq<T>, s: seq<T>, p: T -> bool)
  {
    && |x| == |s|
    && (forall i :: 0 <= i < |s| ==> (p(x[i]) <==> p(s[i])))
    && (forall i :: 0 <= i < |s| && !p(s[i]) ==> x[i] == s[i])
  }

  /** Agreement extends item by item. */
  lemma AgreesSnoc<T>(x: seq<T>, s: seq<T>, k: nat, p: T -> bool, y: T)
    requires k < |s| && Agrees(x, s[..k], p)
    requires (p(y) <==> p(s[k])) && (!p(s[k]) ==> y == s[k])
    ensures Agrees(x + [y], s[..k + 1], p)
  {
  }

  /** A refill is determined by the source and the items put in: there is only one. */
  lemma {:induction false} RefillUnique<T>(s: seq<T>, p: T -> bool, t: seq<T>, a: seq<T>, b: seq<T>)
    requires Refills(a, s, p, t) && Refills(b, s, p, t)
    ensures a == b
  {
    if |s| > 0 {
      var n := |s| - 1;
      var a', b' := a[..n], b[..n];
      AgreesPrefix(a, s, p, n);
      AgreesPrefix(b, s, p, n);
      assert Filtered(a, Holds(p)) == Filtered(a', Holds(p)) + (if p(a[n]) then [a[n]] else []);
      assert Filtered(b, Holds(p)) == Filtered(b', Holds(p)) + (if p(b[n]) then [b[n]] else []);
      var t' := if p(s[n]) then t[..|t| - 1] else t;
      RefillUnique(s[..n], p, t', a', b');
      assert a[n] == b[n];
      forall i | 0 <= i < |a|
        ensures a[i] == b[i]
      {
        if i < n {
          assert a[i] == a'[i] && b[i] == b'[i];
        }
      }
    }
  }

  /** Agreement holds of prefixes. */
  lemma AgreesPrefix<T>(x: seq<T>, s: seq<T>, p: T -> bool, n: nat)
    requires Agrees(x, s, p) && n <= |s|
    ensures Agrees(x[..n], s[..n], p)
  {
  }

  /**
   * `reorderSubset(source, pred, compare)`: with at least two matching items, the source
   * with its matching items replaced, in order, by those items sorted by `compare`; None with
   * fewer than two matching items or when the sort leaves them where they are.
   */
  method ReorderSubset<T(==)>(source: seq<T>, pred: T -> bool, compare: (T, T) -> int) returns (r: Option<seq<T>>)
    ensures var targets := Filtered(source, Holds(pred));
      r.None? <==> |targets| <= 1 || Ordering.Ordered(targets, compare) == targets
    ensures r.Some? ==> Refills(r.value, source, pred, Ordering.Ordered(Filtered(source, Holds(pred)), compare))
  {
    var targets := Filter(source, Holds(pred));
    if |targets| <= 1 {
      return None;
    }
    var sorted := Ordering.Ordered(targets, compare);
    OrderedPermutes(targets, compare);
    FilteredMatches(source, pred);
    PermutedMatches(sorted, targets, pred);
    var next, mutated := Refill(source, pred, targets, sorted);
    if mutated {
      return Some(next);
    }
    return None;
  }

  /** Filtering a prefix one item longer appends that item exactly when it matches. */
  lemma FilteredStep<T>(s: seq<T>, k: nat, p: T -> bool)
    requires k < |s|
    ensures Filtered(s[..k + 1], Holds(p)) == Filtered(s[..k], Holds(p)) + (if p(s[k]) then [s[k]] else [])
  {
    assert s[..k + 1][..k] == s[..k];
  }

  /**
   * The `map` of `reorderSubset`: walks the source with the `index` counter, putting the next
   * sorted item in at each matching position, and records whether any item changed.
   */
  method Refill<T(==)>(source: seq<T>, pred: T -> bool, targets: seq<T>, sorted: seq<T>) returns (next: seq<T>, mutated: bool)
    requires targets == Filtered(source, Holds(pred)) && |sorted| == |targets|
    requires forall k :: 0 <= k < |sorted| ==> pred(sorted[k])
    ensures Refills(next, source, pred, sorted)
    ensures mutated <==> sorted != targets
  {
    var index := 0;
    mutated := false;
    next := [];
    var k := 0;
    while k < |source|
      invariant 0 <= k <= |source|
      invariant Refilling(source, pred, targets, sorted, k, index, next, mutated)
    {
      var reflection := source[k];
      RefillStep(source, pred, targets, sorted, k, index, next, mutated);
      if !pred(reflection) {
        next := next + [reflection];
      } else {
        var replacement := sorted[index];
        if !mutated && replacement != reflection {
          mutated := true;
        }
        index := index + 1;
        next := next + [replacement];
      }
      k := k + 1;
    }
    assert source[..k] == source;
    assert targets[..index] == targets && sorted[..index] == sorted;
    assert mutated <==> sorted != targets;
  }

  /**
   * The state of the `map` after `k` items: `index` targets seen, the items put in so far agree
   * with the source and hold the first `index` sorted items, and `mutated` records whether any
   * of them differs from the target it replaced.
   */
  ghost predicate Refilling<T>(source: seq<T>, pred: T -> bool, targets: seq<T>, sorted: seq<T>, k: nat, index: nat, next: seq<T>, mutated: bool)
  {
    && k <= |source|
    && index <= |targets|
    && index <= |sorted|
    && Filtered(source[..k], Holds(pred)) == targets[..index]
    && Filtered(next, Holds(pred)) == sorted[..index]
    && Agrees(next, source[..k], pred)
    && (mutated <==> exists j :: 0 <= j < index && sorted[j] != targets[j])
  }

  /** One step of the `map` keeps its state. */
  lemma RefillStep<T>(source: seq<T>, pred: T -> bool, targets: seq<T>, sorted: seq<T>, k: nat, index: nat, next: seq<T>, mutated: bool)
    requires targets == Filtered(source, Holds(pred)) && |sorted| == |targets|
    requires forall j :: 0 <= j < |sorted| ==> pred(sorted[j])
    requires k < |source| && Refilling(source, pred, targets, sorted, k, index, next, mutated)
    ensures !pred(source[k]) ==> Refilling(source, pred, targets, sorted, k + 1, index, next + [source[k]], mutated)
    ensures pred(source[k]) ==> (index < |sorted|
      && Refilling(source, pred, targets, sorted, k + 1, index + 1, next + [sorted[index]], mutated || sorted[index] != source[k]))
  {
    var reflection := source[k];
    if !pred(reflection) {
      FilteredStep(source, k, pred);
      FilteredSnoc(next, reflection, pred);
      AgreesSnoc(next, source, k, pred, reflection);
    } else {
      TargetStep(source, pred, targets, k, index);
      ReplacementStep(next, pred, sorted, index);
      AgreesSnoc(next, source, k, pred, sorted[index]);
    }
  }

  /** A matching item of the source is the next target. */
  lemma TargetStep<T>(source: seq<T>, pred: T -> bool, targets: seq<T>, k: nat, index: nat)
    requires k < |source| && targets == Filtered(source, Holds(pred)) && pred(source[k])
    requires index <= |targets| && Filtered(source[..k], Holds(pred)) == targets[..index]
    ensures index < |targets| && targets[index] == source[k]
    ensures Filtered(source[..k + 1], Holds(pred)) == targets[..index + 1]
  {
    var before, next := Filtered(source[..k], Holds(pred)), Filtered(source[..k + 1], Holds(pred));
    FilteredStep(source, k, pred);
    assert next == before + [source[k]];
    FilteredPrefix(source, pred, k + 1);
    assert next == targets[..|next|];
    assert |before| == index;
    assert |next| == index + 1;
    assert targets[index] == next[index] == source[k];
  }

  /** Putting the next sorted item in extends the matching items put in so far by it. */
  lemma ReplacementStep<T>(next: seq<T>, pred: T -> bool, sorted: seq<T>, index: nat)
    requires index < |sorted| && pred(sorted[index])
    requires Filtered(next, Holds(pred)) == sorted[..index]
    ensures Filtered(next + [sorted[index]], Holds(pred)) == sorted[..index + 1]
  {
    FilteredSnoc(next, sorted[index], pred);
    assert sorted[..index + 1] == sorted[..index] + [sorted[index]];
  }

  /**
   * Under a total preorder, the reordered matching items come in comparer order, stably;
   * matching items already in order give None.
   */
  lemma ReorderedInOrder<T(!new)>(s: seq<T>, p: T -> bool, cmp: (T, T) -> int)
    requires TotalPreorder(cmp)
    ensures var t := Filtered(s, Holds(p));
      var o := Ordering.Ordered(t, cmp);
      && multiset(o) == multiset(t)
      && (forall i, j :: 0 <= i < j < |o| ==> cmp(o[i], o[j]) <= 0)
      && ((forall i, j :: 0 <= i < j < |t| ==> cmp(t[i], t[j]) <= 0) ==> o == t)
  {
    var t := Filtered(s, Holds(p));
    Ordering.OrderedProperties(t, cmp);
    if forall i, j :: 0 <= i < j < |t| ==> cmp(t[i], t[j]) <= 0 {
      Ordering.AlreadyInOrder(t, cmp);
    }
  }

  // ---------------------------------------------------------------- shouldSort

  /** A reflection: `id` is its identity, `name` and `kind` are absent when not a string or a number. */
  datatype Reflection = Reflection(id: nat, name: Option<string>, kind: Option<int>)

  /** Whether `a` and `b` have a set bit in common among their lowest `width` bits. */
  predicate CommonBit(a: nat, b: nat, width: nat)
  {
    width > 0 && ((a % 2 == 1 && b % 2 == 1) || CommonBit(a / 2, b / 2, width - 1))
  }

  /** `(a & b) !== 0`: JavaScript's `&` works on the numbers modulo 2^32. */
  predicate SharesBit(a: int, b: int)
  {
    CommonBit(a % 0x1_0000_0000, b % 0x1_0000_0000, 32)
  }

  /** Some selected kind shares a bit with `kind`. */
  predicate Selected(kind: int, kinds: seq<int>)
  {
    exists i :: 0 <= i < |kinds| && SharesBit(kind, kinds[i])
  }

  /**
   * `shouldSort(reflection, kinds)`: the loop over the selected kinds (in the set's insertion
   * order) that stops at the first one sharing a bit with the reflection's numeric kind.
   */
  method ShouldSort(reflection: Option<Reflection>, kinds: seq<int>) returns (b: bool)
    ensures b <==> reflection.Some? && reflection.value.kind.Some? && Selected(reflection.value.kind.value, kinds)
  {
    if reflection.None? || reflection.value.kind.None? {
      return false;
    }
    var kind := reflection.value.kind.value;
    var i := 0;
    while i < |kinds|
      invariant 0 <= i <= |kinds|
      invariant forall j :: 0 <= j < i ==> !SharesBit(kind, kinds[j])
    {
      if SharesBit(kind, kinds[i]) {
        return true;
      }
      i := i + 1;
    }
    return false;
  }

  /**
   * Selection depends on the kind only modulo 2^32, never selects kind 0, selects nothing
   * with no selected kinds, and a kind with a bit in its low 32 bits selects itself.
   */
  lemma SelectedProperties(kind: int, kinds: seq<int>)
    ensures Selected(kind + 0x1_0000_0000, kinds) <==> Selected(kind, kinds)
    ensures !Selected(0, kinds)
    ensures !Selected(kind, [])
    ensures Selected(kind, [kind]) <==> kind % 0x1_0000_0000 != 0
  {
    assert (kind + 0x1_0000_0000) % 0x1_0000_0000 == kind % 0x1_0000_0000;
    forall i | 0 <= i < |kinds|
      ensures !SharesBit(0, kinds[i])
    {
      NoBitOfZero(kinds[i] % 0x1_0000_0000, 32);
    }
    var low := kind % 0x1_0000_0000;
    Pow2Of32();
    CommonBitSelf(low, 32);
    assert [kind][0] == kind;
  }

  function Pow2(n: nat): (r: nat)
    ensures r > 0
  {
    if n == 0 then 1 else 2 * Pow2(n - 1)
  }

  lemma Pow2Of32()
    ensures Pow2(32) == 0x1_0000_0000
  {
    assert Pow2(8) == 256;
    assert Pow2(16) == 65536;
    assert Pow2(24) == 0x100_0000;
  }

  /** Zero has no bit in common with anything. */
  lemma {:induction false} NoBitOfZero(b: nat, width: nat)
    ensures !CommonBit(0, b, width)
  {
    if width > 0 {
      NoBitOfZero(b / 2, width - 1);
    }
  }

  /** A number below 2^width has a set bit among its lowest `width` bits exactly when it is not zero. */
  lemma {:induction false} CommonBitSelf(a: nat, width: nat)
    requires a < Pow2(width)
    ensures CommonBit(a, a, width) <==> a != 0
  {
    if width > 0 {
      CommonBitSelf(a / 2, width - 1);
    }
  }

  /** Adding a selected kind keeps every reflection that was selected before. */
  lemma SelectedGrows(kind: int, kinds: seq<int>, more: seq<int>)
    ensures Selected(kind, kinds) ==> Selected(kind, kinds + more)
    ensures Selected(kind, more) ==> Selected(kind, kinds + more)
  {
    if Selected(kind, kinds) {
      var i :| 0 <= i < |kinds| && SharesBit(kind, kinds[i]);
      assert (kinds + more)[i] == kinds[i];
    }
    if Selected(kind, more) {
      var i :| 0 <= i < |more| && SharesBit(kind, more[i]);
      assert (kinds + more)[|kinds| + i] == more[i];
    }
  }

  // ---------------------------------------------------------------- createComparator

  /** `getName(reflection)`: the name, or the empty string when the name is not a string. */
  function GetName(r: Reflection): string
  {
    if r.name.Some? then r.name.value else ""
  }

  /** `ranks`: each preferred name mapped to the last index it appears at. */
  function RanksOf(preferred: seq<string>): (ranks: map<string, nat>)
    ensures forall n :: n in ranks <==> n in preferred
    ensures forall n :: n in ranks ==>
      && ranks[n] < |preferred|
      && preferred[ranks[n]] == n
      && forall j :: ranks[n] < j < |preferred| ==> preferred[j] != n
  {
    if |preferred| == 0 then map[]
    else
      var k := |preferred| - 1;
      var prev := RanksOf(preferred[..k]);
      assert forall n :: n in preferred <==> n in preferred[..k] || n == preferred[k] by {
        assert preferred == preferred[..k] + [preferred[k]];
      }
      prev[preferred[k] := k]
  }

  /** The `forEach` that fills `ranks`, one `set` per preferred name. */
  method RankMap(preferred: seq<string>) returns (ranks: map<string, nat>)
    ensures ranks == RanksOf(preferred)
  {
    ranks := map[];
    var index := 0;
    while index < |preferred|
      invariant 0 <= index <= |preferred|
      invariant ranks == RanksOf(preferred[..index])
    {
      assert preferred[..index + 1][..index] == preferred[..index];
      ranks := ranks[preferred[index] := index];
      index := index + 1;
    }
    assert preferred[..index] == preferred;
  }

  /** Two different ranked names have different ranks. */
  lemma RanksDistinct(preferred: seq<string>, a: string, b: string)
    requires a in RanksOf(preferred) && b in RanksOf(preferred) && a != b
    ensures RanksOf(preferred)[a] != RanksOf(preferred)[b]
  {
  }

  function StartsWithUnderscore(name: string): bool
  {
    |name| > 0 && name[0] == '_'
  }

  /** Neither name is ranked, or both share a rank. */
  predicate RankTied(ranks: map<string, nat>, a: string, b: string)
  {
    (a !in ranks && b !in ranks) || (a in ranks && b in ranks && ranks[a] == ranks[b])
  }

  /**
   * The comparator's body on two names: ranked names first, by rank; then, with
   * `underscoreLast`, underscore-prefixed names after the others; then `localeCompare`.
   */
  function CompareNames(ranks: map<string, nat>, underscoreLast: bool, localeCompare: (string, string) -> int, a: string, b: string): (r: int)
    ensures a in ranks && b !in ranks ==> r < 0
    ensures a !in ranks && b in ranks ==> r > 0
    ensures a in ranks && b in ranks && ranks[a] != ranks[b] ==> Sign(r) == Sign(ranks[a] as int - ranks[b] as int)
    ensures RankTied(ranks, a, b) && underscoreLast && StartsWithUnderscore(a) != StartsWithUnderscore(b)
      ==> (r > 0 <==> StartsWithUnderscore(a)) && r != 0
    ensures RankTied(ranks, a, b) && (!underscoreLast || StartsWithUnderscore(a) == StartsWithUnderscore(b))
      ==> r == localeCompare(a, b)
  {
    var rankA := if a in ranks then Some(ranks[a]) else None;
    var rankB := if b in ranks then Some(ranks[b]) else None;
    if (rankA.Some? || rankB.Some?) && (rankA.None? || rankB.None? || rankA.value != rankB.value) then
      if rankA.None? then 1
      else if rankB.None? then -1
      else rankA.value as int - rankB.value as int
    else if underscoreLast && StartsWithUnderscore(a) != StartsWithUnderscore(b) then
      if StartsWithUnderscore(a) then 1 else -1
    else
      localeCompare(a, b)
  }

  /** The comparator on names. */
  function NameComparer(ranks: map<string, nat>, underscoreLast: bool, localeCompare: (string, string) -> int): (string, string) -> int
  {
    (a: string, b: string) => CompareNames(ranks, underscoreLast, localeCompare, a, b)
  }

  /** The comparator `createComparator` returns, on reflections. */
  function Comparator(ranks: map<string, nat>, underscoreLast: bool, localeCompare: (string, string) -> int): (Reflection, Reflection) -> int
  {
    Ordering.Ascending(GetName, NameComparer(ranks, underscoreLast, localeCompare))
  }

  /** The first decision: ranked before unranked, then by rank. */
  function RankStep(ranks: map<string, nat>): (string, string) -> int
  {
    (a: string, b: string) =>
      if a in ranks && b in ranks then ranks[a] as int - ranks[b] as int
      else if a in ranks then -1
      else if b in ranks then 1
      else 0
  }

  /** The second decision: underscore-prefixed names after the others. */
  function UnderscoreStep(): (string, string) -> int
  {
    (a: string, b: string) =>
      if StartsWithUnderscore(a) == StartsWithUnderscore(b) then 0
      else if StartsWithUnderscore(a) then 1
      else -1
  }

  /** The comparator as a chain of decisions, each consulted only where the earlier ones tie. */
  function NameSteps(ranks: map<string, nat>, underscoreLast: bool, localeCompare: (string, string) -> int): seq<(string, string) -> int>
  {
    if underscoreLast then [RankStep(ranks), UnderscoreStep(), localeCompare]
    else [RankStep(ranks), localeCompare]
  }

  /** The comparator's body is the chain of its decisions. */
  lemma CompareIsChain(ranks: map<string, nat>, underscoreLast: bool, localeCompare: (string, string) -> int, a: string, b: string)
    ensures CompareNames(ranks, underscoreLast, localeCompare, a, b)
      == Ordering.Build(NameSteps(ranks, underscoreLast, localeCompare))(a, b)
  {
    if underscoreLast {
      Ordering.ThreeSteps(RankStep(ranks), UnderscoreStep(), localeCompare, a, b);
    } else {
      Ordering.TwoSteps(RankStep(ranks), localeCompare, a, b);
    }
  }

  /** Both fixed decisions are total preorders. */
  lemma StepsPreorder(ranks: map<string, nat>)
    ensures TotalPreorder(RankStep(ranks))
    ensures TotalPreorder(UnderscoreStep())
  {
  }

  /**
   * When `localeCompare` is a total preorder, so is the comparator, on names and on
   * reflections, which is what the stable sort in `reorderSubset` needs.
   */
  lemma ComparatorPreorder(ranks: map<string, nat>, underscoreLast: bool, localeCompare: (string, string) -> int)
    requires TotalPreorder(localeCompare)
    ensures TotalPreorder(NameComparer(ranks, underscoreLast, localeCompare))
    ensures TotalPreorder(Comparator(ranks, underscoreLast, localeCompare))
  {
    var steps := NameSteps(ranks, underscoreLast, localeCompare);
    StepsPreorder(ranks);
    Ordering.KeyChainPreorder(steps);
    var cmp := NameComparer(ranks, underscoreLast, localeCompare);
    forall a, b
      ensures cmp(a, b) == Ordering.Build(steps)(a, b)
    {
      CompareIsChain(ranks, underscoreLast, localeCompare, a, b);
    }
    SamePreorder(cmp, Ordering.Build(steps));
    Ordering.KeyComparers(GetName, cmp);
  }

  /** A comparer that agrees everywhere with a total preorder is one. */
  lemma SamePreorder<T(!new)>(f: (T, T) -> int, g: (T, T) -> int)
    requires TotalPreorder(g)
    requires forall a, b :: f(a, b) == g(a, b)
    ensures TotalPreorder(f)
  {
  }

  /**
   * `createComparator(preferred, underscoreLast)`: builds the rank map and returns the
   * comparator over it; a total preorder whenever `localeCompare` is one.
   */
  method CreateComparator(preferred: seq<string>, underscoreLast: bool, localeCompare: (string, string) -> int)
    returns (compare: (Reflection, Reflection) -> int)
    ensures compare == Comparator(RanksOf(preferred), underscoreLast, localeCompare)
    ensures TotalPreorder(localeCompare) ==> TotalPreorder(compare)
  {
    var ranks := RankMap(preferred);
    compare := Comparator(ranks, underscoreLast, localeCompare);
    if TotalPreorder(localeCompare) {
      ComparatorPreorder(ranks, underscoreLast, localeCompare);
    }
  }

  // ---------------------------------------------------------------- examples

  /** With `pipe` and `from` preferred, in that order. */
  lemma ComparatorExample(localeCompare: (string, string) -> int)
    ensures var ranks := RanksOf(["pipe", "from"]);
      && CompareNames(ranks, true, localeCompare, "pipe", "from") < 0
      && CompareNames(ranks, true, localeCompare, "map", "from") > 0
      && CompareNames(ranks, true, localeCompare, "_zip", "map") > 0
      && CompareNames(ranks, false, localeCompare, "_zip", "map") == localeCompare("_zip", "map")
  {
    var ranks := RanksOf(["pipe", "from"]);
    assert "pipe" in ranks && "from" in ranks && ranks["pipe"] == 0 && ranks["from"] == 1;
    assert "map" !in ranks && "_zip" !in ranks;
  }

  function IsEven(x: int): bool
  {
    x % 2 == 0
  }

  /** The even items of `[1, 2, 3, 4]` are moved to the front. */
  lemma EvensPartition(s: seq<int>)
    requires s == [1, 2, 3, 4]
    ensures Partitioned(s, IsEven) == [2, 4, 1, 3]
    ensures !MatchesFirst(s, IsEven)
  {
    assert s[..0] == [] && s[..4] == s;
    FilteredStep(s, 0, IsEven);
    FilteredStep(s, 1, IsEven);
    FilteredStep(s, 2, IsEven);
    FilteredStep(s, 3, IsEven);
    FilteredStep(s, 0, Not(IsEven));
    FilteredStep(s, 1, Not(IsEven));
    FilteredStep(s, 2, Not(IsEven));
    FilteredStep(s, 3, Not(IsEven));
    assert !IsEven(s[0]) && IsEven(s[1]);
  }
}
