/**
 * Ordered sequences: `orderBy`, `orderByDescending`, `thenBy`, `thenByDescending`, the
 * `OrderedIterable` they return, and `unwrapIndexed`.
 *
 * An ordered sequence holds its source and a chain of key comparers. The comparer library
 * is not part of this model: a chain step is any three-way comparer, the chain's built
 * comparer lets the first step that does not tie decide, and sorting assumes each step is a
 * total preorder. Every traversal pairs the source's elements with their positions, sorts the
 * pairs by the built comparer with ties broken by position, and yields the values.
 *
 * The engine's sort is specified, not reproduced: `Sort` is one sort with the promised result,
 * and `OrderedUnique` shows that any sorted permutation of the pairs is that same list, so the
 * result does not depend on how the sort proceeds.
 */
module Ordering {
  import opened Comparers
  import opened Iterables
  import opened Projection

  // ---------------------------------------------------------------- the comparer chain

  /** The built comparer of a chain on `a` and `b`: the first step that does not tie decides; all ties give 0. */
  function FirstDecision<T>(chain: seq<(T, T) -> int>, a: T, b: T): (r: int)
    ensures r == 0 <==> forall i :: 0 <= i < |chain| ==> chain[i](a, b) == 0
    ensures r != 0 ==> exists i :: 0 <= i < |chain| && chain[i](a, b) == r && forall j :: 0 <= j < i ==> chain[j](a, b) == 0
  {
    if |chain| == 0 then 0
    else
      var c := chain[0](a, b);
      if c != 0 then c
      else
        var r := FirstDecision(chain[1..], a, b);
        assert forall i :: 0 <= i < |chain| - 1 ==> chain[1..][i] == chain[i + 1];
        r
  }

  /** `builder.build()`: the chain as one comparer. */
  function Build<T>(chain: seq<(T, T) -> int>): (T, T) -> int
  {
    (a: T, b: T) => FirstDecision(chain, a, b)
  }

  /** `thenKey` / `thenKeyDescending`: a step added to the chain is consulted only where the chain ties. */
  lemma {:induction false} ThenOnlyBreaksTies<T>(chain: seq<(T, T) -> int>, step: (T, T) -> int, a: T, b: T)
    ensures Build(chain + [step])(a, b) == if Build(chain)(a, b) != 0 then Build(chain)(a, b) else step(a, b)
  {
    if |chain| > 0 {
      assert (chain + [step])[1..] == chain[1..] + [step];
      ThenOnlyBreaksTies(chain[1..], step, a, b);
    }
  }

  /** A chain of one step compares as that step. */
  lemma OneStep<T>(step: (T, T) -> int, a: T, b: T)
    ensures Build([step])(a, b) == step(a, b)
  {
    assert [step][1..] == [];
  }

  /** A chain of two steps: the second decides only where the first ties. */
  lemma TwoSteps<T>(first: (T, T) -> int, second: (T, T) -> int, a: T, b: T)
    ensures Build([first, second])(a, b) == if first(a, b) != 0 then first(a, b) else second(a, b)
  {
    OneStep(first, a, b);
    assert [first] + [second] == [first, second];
    ThenOnlyBreaksTies([first], second, a, b);
  }

  /** A chain of total preorders builds a total preorder. */
  lemma {:induction false} ChainPreorder<T(!new)>(chain: seq<(T, T) -> int>)
    requires forall i :: 0 <= i < |chain| ==> TotalPreorder(chain[i])
    ensures TotalPreorder(Build(chain))
  {
    if |chain| > 0 {
      var first, rest := chain[0], chain[1..];
      assert forall i :: 0 <= i < |rest| ==> rest[i] == chain[i + 1];
      ChainPreorder(rest);
      var cmp, tail := Build(chain), Build(rest);
      assert TotalPreorder(first);
      forall a, b, c | cmp(a, b) <= 0 && cmp(b, c) <= 0
        ensures cmp(a, c) <= 0
      {
        assert cmp(a, b) == if first(a, b) != 0 then first(a, b) else tail(a, b);
        assert cmp(b, c) == if first(b, c) != 0 then first(b, c) else tail(b, c);
        assert cmp(a, c) == if first(a, c) != 0 then first(a, c) else tail(a, c);
        if first(a, b) < 0 {
          StrictThenWeak(first, a, b, c);
        } else if first(b, c) < 0 {
          StrictBeforeWeak(first, a, b, c);
        } else {
          TiesChain(first, a, b, c);
        }
      }
      forall a, b
        ensures Sign(cmp(a, b)) == -Sign(cmp(b, a))
      {
        assert cmp(a, b) == if first(a, b) != 0 then first(a, b) else tail(a, b);
        assert cmp(b, a) == if first(b, a) != 0 then first(b, a) else tail(b, a);
      }
    }
  }

  /** `sortKey(selector)` / `thenKey(selector)`: compares the keys of the two elements. */
  function Ascending<T, K>(sel: T -> K, keys: (K, K) -> int): (T, T) -> int
  {
    (a: T, b: T) => keys(sel(a), sel(b))
  }

  /** `sortKeyDescending(selector)` / `thenKeyDescending(selector)`: compares the keys the other way round. */
  function Descending<T, K>(sel: T -> K, keys: (K, K) -> int): (T, T) -> int
  {
    (a: T, b: T) => keys(sel(b), sel(a))
  }

  /** Over a total preorder on keys, both key comparers are total preorders, and the descending one reverses the ascending one. */
  lemma KeyComparers<T(!new), K(!new)>(sel: T -> K, keys: (K, K) -> int)
    requires TotalPreorder(keys)
    ensures TotalPreorder(Ascending(sel, keys))
    ensures TotalPreorder(Descending(sel, keys))
    ensures forall a, b :: Sign(Descending(sel, keys)(a, b)) == -Sign(Ascending(sel, keys)(a, b))
  {
  }

  // ---------------------------------------------------------------- the sort of (value, index) pairs

  /** The comparator handed to `sort`: the built comparer on the values, ties broken by position. */
  function ComparePairs<T>(cmp: (T, T) -> int, p: (T, nat), q: (T, nat)): int
  {
    var c := cmp(p.0, q.0);
    if c == 0 then p.1 - q.1 else c
  }

  /** The pair comparator is a total preorder whenever the value comparer is, and it ties only equal positions. */
  lemma PairOrder<T(!new)>(cmp: (T, T) -> int, p: (T, nat), q: (T, nat), r: (T, nat))
    requires TotalPreorder(cmp)
    ensures Sign(ComparePairs(cmp, p, q)) == -Sign(ComparePairs(cmp, q, p))
    ensures ComparePairs(cmp, p, q) == 0 <==> cmp(p.0, q.0) == 0 && p.1 == q.1
    ensures ComparePairs(cmp, p, q) <= 0 && ComparePairs(cmp, q, r) <= 0 ==> ComparePairs(cmp, p, r) <= 0
  {
    if ComparePairs(cmp, p, q) <= 0 && ComparePairs(cmp, q, r) <= 0 {
      if cmp(p.0, q.0) < 0 {
        StrictThenWeak(cmp, p.0, q.0, r.0);
      } else if cmp(q.0, r.0) < 0 {
        StrictBeforeWeak(cmp, p.0, q.0, r.0);
      } else {
        TiesChain(cmp, p.0, q.0, r.0);
      }
    }
  }

  /** The values of a list of pairs. */
  function Values<T>(r: seq<(T, nat)>): (v: seq<T>)
    ensures |v| == |r|
    ensures forall i :: 0 <= i < |r| ==> v[i] == r[i].0
  {
    if |r| == 0 then [] else [r[0].0] + Values(r[1..])
  }

  /** Dropping the positions of `indexed(s)` gives `s` back. */
  lemma ValuesOfIndexed<T>(s: seq<T>)
    ensures Values(Indexed(s)) == s
  {
  }

  /** Inserts `p` before the first pair it does not come after. */
  function Insert<T>(p: (T, nat), r: seq<(T, nat)>, cmp: (T, T) -> int): (out: seq<(T, nat)>)
    ensures |out| == |r| + 1
    ensures multiset(out) == multiset(r) + multiset{p}
  {
    if |r| == 0 then [p]
    else if ComparePairs(cmp, p, r[0]) <= 0 then
      [p] + r
    else
      assert r == [r[0]] + r[1..];
      [r[0]] + Insert(p, r[1..], cmp)
  }

  /** The sort: a permutation of its input. */
  function Sort<T>(t: seq<(T, nat)>, cmp: (T, T) -> int): (out: seq<(T, nat)>)
    ensures |out| == |t|
    ensures multiset(out) == multiset(t)
  {
    if |t| == 0 then []
    else
      assert t == [t[0]] + t[1..];
      Insert(t[0], Sort(t[1..], cmp), cmp)
  }

  /** The values after an insertion are the values before it plus the inserted one. */
  lemma {:induction false} InsertValues<T>(p: (T, nat), r: seq<(T, nat)>, cmp: (T, T) -> int)
    ensures multiset(Values(Insert(p, r, cmp))) == multiset(Values(r)) + multiset{p.0}
  {
    if |r| > 0 {
      if ComparePairs(cmp, p, r[0]) <= 0 {
        assert ([p] + r)[1..] == r;
      } else {
        var rest := Insert(p, r[1..], cmp);
        InsertValues(p, r[1..], cmp);
        assert ([r[0]] + rest)[1..] == rest;
      }
    }
  }

  /** Sorting permutes the values too. */
  lemma {:induction false} SortValues<T>(t: seq<(T, nat)>, cmp: (T, T) -> int)
    ensures multiset(Values(Sort(t, cmp))) == multiset(Values(t))
  {
    if |t| > 0 {
      SortValues(t[1..], cmp);
      InsertValues(t[0], Sort(t[1..], cmp), cmp);
    }
  }

  /** No pair comes after a later one. */
  ghost predicate Sorted<T>(r: seq<(T, nat)>, cmp: (T, T) -> int)
  {
    forall i, j :: 0 <= i < j < |r| ==> ComparePairs(cmp, r[i], r[j]) <= 0
  }

  /** No two pairs share a position. */
  ghost predicate DistinctPositions<T>(r: seq<(T, nat)>)
  {
    forall i, j :: 0 <= i < j < |r| ==> r[i].1 != r[j].1
  }

  /** A pair that comes after none of a sorted list can head it. */
  lemma SortedCons<T>(x: (T, nat), r: seq<(T, nat)>, cmp: (T, T) -> int)
    requires Sorted(r, cmp)
    requires forall k :: 0 <= k < |r| ==> ComparePairs(cmp, x, r[k]) <= 0
    ensures Sorted([x] + r, cmp)
  {
    var out := [x] + r;
    forall i, j | 0 <= i < j < |out|
      ensures ComparePairs(cmp, out[i], out[j]) <= 0
    {
      assert out[j] == r[j - 1];
      if i > 0 {
        assert out[i] == r[i - 1];
      }
    }
  }

  /** Dropping the head of a sorted list leaves it sorted and, with distinct positions, distinct. */
  lemma SortedTail<T>(r: seq<(T, nat)>, cmp: (T, T) -> int)
    requires |r| > 0
    ensures Sorted(r, cmp) ==> Sorted(r[1..], cmp)
    ensures DistinctPositions(r) ==> DistinctPositions(r[1..])
  {
    var tail := r[1..];
    forall i, j | 0 <= i < j < |tail|
      ensures tail[i] == r[i + 1] && tail[j] == r[j + 1]
    {
    }
  }

  /** Every pair of an insertion is the inserted pair or one of the list's: a property of all of them holds afterwards. */
  lemma {:induction false} InsertKeeps<T>(p: (T, nat), r: seq<(T, nat)>, cmp: (T, T) -> int, P: ((T, nat)) -> bool)
    requires P(p)
    requires forall k :: 0 <= k < |r| ==> P(r[k])
    ensures forall k :: 0 <= k < |Insert(p, r, cmp)| ==> P(Insert(p, r, cmp)[k])
  {
    if |r| > 0 && ComparePairs(cmp, p, r[0]) > 0 {
      var tail := r[1..];
      assert forall k :: 0 <= k < |tail| ==> tail[k] == r[k + 1];
      InsertKeeps(p, tail, cmp, P);
    }
  }

  /** Every pair of the sort's output is one of its input's. */
  lemma {:induction false} SortKeeps<T>(t: seq<(T, nat)>, cmp: (T, T) -> int, P: ((T, nat)) -> bool)
    requires forall k :: 0 <= k < |t| ==> P(t[k])
    ensures forall k :: 0 <= k < |Sort(t, cmp)| ==> P(Sort(t, cmp)[k])
  {
    if |t| > 0 {
      var tail := t[1..];
      assert forall k :: 0 <= k < |tail| ==> tail[k] == t[k + 1];
      SortKeeps(tail, cmp, P);
      InsertKeeps(t[0], Sort(tail, cmp), cmp, P);
    }
  }

  /** Inserting into a sorted list keeps it sorted. */
  lemma {:induction false} InsertSorted<T(!new)>(p: (T, nat), r: seq<(T, nat)>, cmp: (T, T) -> int)
    requires TotalPreorder(cmp)
    requires Sorted(r, cmp)
    ensures Sorted(Insert(p, r, cmp), cmp)
  {
    if |r| == 0 {
      assert Insert(p, r, cmp) == [p];
    } else if ComparePairs(cmp, p, r[0]) <= 0 {
      forall j | 0 <= j < |r|
        ensures ComparePairs(cmp, p, r[j]) <= 0
      {
        if j > 0 {
          PairOrder(cmp, p, r[0], r[j]);
        }
      }
      SortedCons(p, r, cmp);
    } else {
      var head, tail := r[0], r[1..];
      SortedTail(r, cmp);
      InsertSorted(p, tail, cmp);
      PairOrder(cmp, p, head, p);
      assert forall k :: 0 <= k < |tail| ==> tail[k] == r[k + 1];
      InsertKeeps(p, tail, cmp, (q: (T, nat)) => ComparePairs(cmp, head, q) <= 0);
      SortedCons(head, Insert(p, tail, cmp), cmp);
    }
  }

  /** The sort's output is sorted. */
  lemma {:induction false} SortSorted<T(!new)>(t: seq<(T, nat)>, cmp: (T, T) -> int)
    requires TotalPreorder(cmp)
    ensures Sorted(Sort(t, cmp), cmp)
  {
    if |t| > 0 {
      SortSorted(t[1..], cmp);
      InsertSorted(t[0], Sort(t[1..], cmp), cmp);
    }
  }

  /** A pair at a new position can head a list with distinct positions. */
  lemma DistinctCons<T>(x: (T, nat), r: seq<(T, nat)>)
    requires DistinctPositions(r)
    requires forall k :: 0 <= k < |r| ==> r[k].1 != x.1
    ensures DistinctPositions([x] + r)
  {
    var out := [x] + r;
    forall i, j | 0 <= i < j < |out|
      ensures out[i].1 != out[j].1
    {
      assert out[j] == r[j - 1];
      if i > 0 {
        assert out[i] == r[i - 1];
      }
    }
  }

  /** Inserting a pair whose position is new keeps the positions distinct. */
  lemma {:induction false} InsertDistinct<T>(p: (T, nat), r: seq<(T, nat)>, cmp: (T, T) -> int)
    requires DistinctPositions(r)
    requires forall k :: 0 <= k < |r| ==> r[k].1 != p.1
    ensures DistinctPositions(Insert(p, r, cmp))
  {
    if |r| == 0 {
      assert Insert(p, r, cmp) == [p];
    } else if ComparePairs(cmp, p, r[0]) <= 0 {
      DistinctCons(p, r);
    } else {
      var head, tail := r[0], r[1..];
      SortedTail(r, cmp);
      assert forall k :: 0 <= k < |tail| ==> tail[k] == r[k + 1];
      InsertDistinct(p, tail, cmp);
      InsertKeeps(p, tail, cmp, (q: (T, nat)) => q.1 != head.1);
      DistinctCons(head, Insert(p, tail, cmp));
    }
  }

  /** Sorting keeps the positions distinct. */
  lemma {:induction false} SortDistinct<T>(t: seq<(T, nat)>, cmp: (T, T) -> int)
    requires DistinctPositions(t)
    ensures DistinctPositions(Sort(t, cmp))
  {
    if |t| > 0 {
      var head, tail := t[0], t[1..];
      SortedTail(t, cmp);
      SortDistinct(tail, cmp);
      assert forall k :: 0 <= k < |tail| ==> tail[k] == t[k + 1];
      SortKeeps(tail, cmp, (q: (T, nat)) => q.1 != head.1);
      InsertDistinct(head, Sort(tail, cmp), cmp);
    }
  }

  /** Two sorted lists holding the same pairs, at distinct positions, begin with the same pair. */
  lemma SameHead<T(!new)>(a: seq<(T, nat)>, b: seq<(T, nat)>, cmp: (T, T) -> int)
    requires TotalPreorder(cmp)
    requires Sorted(a, cmp) && Sorted(b, cmp)
    requires DistinctPositions(a)
    requires multiset(a) == multiset(b)
    requires |a| > 0
    ensures |b| > 0 && a[0] == b[0]
  {
    assert a[0] in multiset(b);
    var k :| 0 <= k < |b| && b[k] == a[0];
    assert b[0] in multiset(a);
    var m :| 0 <= m < |a| && a[m] == b[0];
    if m != 0 {
      assert k != 0;
      assert ComparePairs(cmp, a[0], a[m]) <= 0;
      assert ComparePairs(cmp, b[0], b[k]) <= 0;
      PairOrder(cmp, a[0], b[0], a[0]);
      assert false;
    }
  }

  /** Lists with the same elements and the same head have tails with the same elements. */
  lemma SameTailElements<T>(a: seq<T>, b: seq<T>)
    requires |a| > 0 && |b| > 0 && a[0] == b[0]
    requires multiset(a) == multiset(b)
    ensures multiset(a[1..]) == multiset(b[1..])
  {
    assert a == [a[0]] + a[1..] && b == [b[0]] + b[1..];
    assert multiset(a) == multiset{a[0]} + multiset(a[1..]);
    assert multiset(b) == multiset{a[0]} + multiset(b[1..]);
    forall x
      ensures multiset(a[1..])[x] == multiset(b[1..])[x]
    {
      assert multiset(a)[x] == multiset{a[0]}[x] + multiset(a[1..])[x];
      assert multiset(b)[x] == multiset{a[0]}[x] + multiset(b[1..])[x];
    }
  }

  /** Two sorted lists holding the same pairs, at distinct positions, are the same list. */
  lemma {:induction false} SortedUnique<T(!new)>(a: seq<(T, nat)>, b: seq<(T, nat)>, cmp: (T, T) -> int)
    requires TotalPreorder(cmp)
    requires Sorted(a, cmp) && Sorted(b, cmp)
    requires DistinctPositions(a)
    requires multiset(a) == multiset(b)
    ensures a == b
  {
    assert |a| == |multiset(a)| == |multiset(b)| == |b|;
    if |a| > 0 {
      SameHead(a, b, cmp);
      SameTailElements(a, b);
      SortedTail(a, cmp);
      SortedTail(b, cmp);
      SortedUnique(a[1..], b[1..], cmp);
      assert a == [a[0]] + a[1..] && b == [b[0]] + b[1..];
    }
  }

  // ---------------------------------------------------------------- one traversal

  /** The elements of one traversal of an ordered sequence over `s` with built comparer `cmp`. */
  function Ordered<T>(s: seq<T>, cmp: (T, T) -> int): (r: seq<T>)
    ensures |r| == |s|
  {
    Values(Sort(Indexed(s), cmp))
  }

  /** The positions of `indexed(s)` are distinct. */
  lemma IndexedDistinct<T>(s: seq<T>)
    ensures DistinctPositions(Indexed(s))
  {
  }

  /** Each pair of the sorted indexed source is an element of the source with its own position. */
  lemma SortedProvenance<T>(s: seq<T>, cmp: (T, T) -> int)
    ensures var r := Sort(Indexed(s), cmp);
      forall i :: 0 <= i < |r| ==> r[i].1 < |s| && r[i].0 == s[r[i].1]
  {
    var r := Sort(Indexed(s), cmp);
    forall i | 0 <= i < |r|
      ensures r[i].1 < |s| && r[i].0 == s[r[i].1]
    {
      assert r[i] in multiset(Indexed(s));
    }
  }

  /**
   * One traversal is a permutation of the source, non-decreasing under the comparer, and
   * stable: each output comes from one source position, and of two outputs the comparer ties,
   * the one from the earlier position comes first.
   */
  lemma OrderedProperties<T(!new)>(s: seq<T>, cmp: (T, T) -> int)
    requires TotalPreorder(cmp)
    ensures var r, o := Sort(Indexed(s), cmp), Ordered(s, cmp);
      && multiset(o) == multiset(s)
      && (forall i, j :: 0 <= i < j < |o| ==> cmp(o[i], o[j]) <= 0)
      && |r| == |s|
      && (forall i :: 0 <= i < |r| ==> r[i].1 < |s| && o[i] == s[r[i].1])
      && (forall i, j :: 0 <= i < j < |r| ==> r[i].1 != r[j].1)
      && (forall i, j :: 0 <= i < j < |r| && cmp(o[i], o[j]) == 0 ==> r[i].1 < r[j].1)
  {
    var r, o := Sort(Indexed(s), cmp), Ordered(s, cmp);
    SortValues(Indexed(s), cmp);
    ValuesOfIndexed(s);
    SortSorted(Indexed(s), cmp);
    IndexedDistinct(s);
    SortDistinct(Indexed(s), cmp);
    SortedProvenance(s, cmp);
    forall i, j | 0 <= i < j < |o|
      ensures cmp(o[i], o[j]) <= 0
      ensures cmp(o[i], o[j]) == 0 ==> r[i].1 < r[j].1
    {
      assert ComparePairs(cmp, r[i], r[j]) <= 0;
    }
  }

  /** Whatever sorted permutation of the indexed source a sort produces, its values are the traversal's elements. */
  lemma OrderedUnique<T(!new)>(s: seq<T>, cmp: (T, T) -> int, r: seq<(T, nat)>)
    requires TotalPreorder(cmp)
    requires multiset(r) == multiset(Indexed(s))
    requires Sorted(r, cmp)
    ensures Values(r) == Ordered(s, cmp)
  {
    SortSorted(Indexed(s), cmp);
    IndexedDistinct(s);
    SortDistinct(Indexed(s), cmp);
    SortedUnique(Sort(Indexed(s), cmp), r, cmp);
  }

  /** A source already in order under the comparer is traversed unchanged. */
  lemma AlreadyInOrder<T(!new)>(s: seq<T>, cmp: (T, T) -> int)
    requires TotalPreorder(cmp)
    requires forall i, j :: 0 <= i < j < |s| ==> cmp(s[i], s[j]) <= 0
    ensures Ordered(s, cmp) == s
  {
    var t := Indexed(s);
    forall i, j | 0 <= i < j < |t|
      ensures ComparePairs(cmp, t[i], t[j]) <= 0
    {
      assert t[i] == (s[i], i) && t[j] == (s[j], j);
    }
    OrderedUnique(s, cmp, t);
    ValuesOfIndexed(s);
  }

  /** Where the comparer ties every pair of elements, a traversal keeps the source order. */
  lemma AllTiesKeepOrder<T(!new)>(s: seq<T>, cmp: (T, T) -> int)
    requires TotalPreorder(cmp)
    requires forall i, j :: 0 <= i < |s| && 0 <= j < |s| ==> cmp(s[i], s[j]) == 0
    ensures Ordered(s, cmp) == s
  {
    AlreadyInOrder(s, cmp);
  }

  /** A chain of key comparers over total preorders on keys builds a total preorder. */
  lemma KeyChainPreorder<T(!new)>(chain: seq<(T, T) -> int>)
    requires forall i :: 0 <= i < |chain| ==> TotalPreorder(chain[i])
    ensures TotalPreorder(Build(chain))
  {
    ChainPreorder(chain);
  }

  /** Under a one-step chain, a traversal is a permutation of the source in that step's order. */
  lemma OneStepOrder<T(!new)>(s: seq<T>, step: (T, T) -> int)
    requires TotalPreorder(step)
    ensures var o := Ordered(s, Build([step]));
      multiset(o) == multiset(s) && forall i, j :: 0 <= i < j < |o| ==> step(o[i], o[j]) <= 0
  {
    KeyChainPreorder([step]);
    OrderedProperties(s, Build([step]));
    var o := Ordered(s, Build([step]));
    forall i, j | 0 <= i < j < |o|
      ensures step(o[i], o[j]) <= 0
    {
      OneStep(step, o[i], o[j]);
    }
  }

  /** `orderBy`: a traversal is a permutation of the source in ascending key order. */
  lemma OrderByAscendingKeys<T(!new), K(!new)>(s: seq<T>, sel: T -> K, keys: (K, K) -> int)
    requires TotalPreorder(keys)
    ensures var o := Ordered(s, Build([Ascending(sel, keys)]));
      multiset(o) == multiset(s) && forall i, j :: 0 <= i < j < |o| ==> keys(sel(o[i]), sel(o[j])) <= 0
  {
    KeyComparers(sel, keys);
    OneStepOrder(s, Ascending(sel, keys));
  }

  /** `orderByDescending`: a traversal is a permutation of the source in descending key order. */
  lemma OrderByDescendingKeys<T(!new), K(!new)>(s: seq<T>, sel: T -> K, keys: (K, K) -> int)
    requires TotalPreorder(keys)
    ensures var o := Ordered(s, Build([Descending(sel, keys)]));
      multiset(o) == multiset(s) && forall i, j :: 0 <= i < j < |o| ==> keys(sel(o[j]), sel(o[i])) <= 0
  {
    KeyComparers(sel, keys);
    OneStepOrder(s, Descending(sel, keys));
  }

  /**
   * `thenBy` / `thenByDescending`: a traversal of the extended chain is still in the order of
   * the original chain, and the new step orders only elements the original chain ties.
   */
  lemma ThenByOrder<T(!new)>(s: seq<T>, chain: seq<(T, T) -> int>, step: (T, T) -> int)
    requires forall i :: 0 <= i < |chain| ==> TotalPreorder(chain[i])
    requires TotalPreorder(step)
    ensures var o := Ordered(s, Build(chain + [step]));
      && multiset(o) == multiset(s)
      && (forall i, j :: 0 <= i < j < |o| ==> Build(chain)(o[i], o[j]) <= 0)
      && (forall i, j :: 0 <= i < j < |o| && Build(chain)(o[i], o[j]) == 0 ==> step(o[i], o[j]) <= 0)
  {
    var longer := chain + [step];
    assert forall i :: 0 <= i < |longer| ==> longer[i] == if i < |chain| then chain[i] else step;
    KeyChainPreorder(longer);
    KeyChainPreorder(chain);
    OrderedProperties(s, Build(longer));
    var o := Ordered(s, Build(longer));
    forall i, j | 0 <= i < j < |o|
      ensures Build(chain)(o[i], o[j]) <= 0
      ensures Build(chain)(o[i], o[j]) == 0 ==> step(o[i], o[j]) <= 0
    {
      ThenOnlyBreaksTies(chain, step, o[i], o[j]);
    }
  }

  // ---------------------------------------------------------------- the ordered sequence

  /** `OrderedIterable`: a source and the comparer chain it is ordered by. */
  class OrderedIterable<T> {
    const src: Iterable<T>
    const chain: seq<(T, T) -> int>

    constructor (src: Iterable<T>, chain: seq<(T, T) -> int>)
      ensures this.src == src && this.chain == chain
    {
      this.src := src;
      this.chain := chain;
    }

    /**
     * `[Symbol.iterator]()`: every traversal opens the source afresh, sorts the indexed elements
     * by the built comparer with ties broken by position, and yields the values.
     */
    method Traverse() returns (xs: seq<T>)
      modifies src
      ensures src.opens == old(src.opens) + 1
      ensures xs == Ordered(src.gen(old(src.opens)), Build(chain))
    {
      var items := src.ToJson();
      var sorted := Sort(Indexed(items), Build(chain));
      xs := Values(sorted);
    }

    /** `toJSON()`: one traversal, collected. */
    method ToJson() returns (xs: seq<T>)
      modifies src
      ensures src.opens == old(src.opens) + 1
      ensures xs == Ordered(src.gen(old(src.opens)), Build(chain))
    {
      xs := Traverse();
    }

    /** `createNewFrom(b)`: a new ordered sequence over the same source with one more step in its chain. */
    method CreateNewFrom(step: (T, T) -> int) returns (o: OrderedIterable<T>)
      ensures fresh(o) && o.src == src && o.chain == chain + [step]
    {
      o := new OrderedIterable(src, chain + [step]);
    }
  }

  /** `orderBy(src, selector)`: ordered ascending by the selector's key. */
  method OrderBy<T, K>(src: Iterable<T>, sel: T -> K, keys: (K, K) -> int) returns (o: OrderedIterable<T>)
    ensures fresh(o) && o.src == src && o.chain == [Ascending(sel, keys)]
  {
    o := new OrderedIterable(src, [Ascending(sel, keys)]);
  }

  /** `orderByDescending(src, selector)`: ordered descending by the selector's key. */
  method OrderByDescending<T, K>(src: Iterable<T>, sel: T -> K, keys: (K, K) -> int) returns (o: OrderedIterable<T>)
    ensures fresh(o) && o.src == src && o.chain == [Descending(sel, keys)]
  {
    o := new OrderedIterable(src, [Descending(sel, keys)]);
  }

  /** `thenBy(src, selector)`: the same source, ties of the chain broken by an ascending key; `src` itself is unchanged. */
  method ThenBy<T, K>(src: OrderedIterable<T>, sel: T -> K, keys: (K, K) -> int) returns (o: OrderedIterable<T>)
    ensures fresh(o) && o.src == src.src && o.chain == src.chain + [Ascending(sel, keys)]
  {
    o := src.CreateNewFrom(Ascending(sel, keys));
  }

  /** `thenByDescending(src, selector)`: the same source, ties of the chain broken by a descending key. */
  method ThenByDescending<T, K>(src: OrderedIterable<T>, sel: T -> K, keys: (K, K) -> int) returns (o: OrderedIterable<T>)
    ensures fresh(o) && o.src == src.src && o.chain == src.chain + [Descending(sel, keys)]
  {
    o := src.CreateNewFrom(Descending(sel, keys));
  }

  /** Over a pure source, `toJSON()` and a spread traversal give the same list. */
  method ToJsonMatchesTraversal<T>(o: OrderedIterable<T>) returns (json: seq<T>, spread: seq<T>)
    requires o.src.Pure()
    modifies o.src
    ensures json == spread == Ordered(o.src.gen(0), Build(o.chain))
  {
    json := o.ToJson();
    spread := o.Traverse();
  }

  // ---------------------------------------------------------------- examples

  /** A traversal's elements are the values of any sorted permutation of the indexed source. */
  lemma OrderedAs<T(!new)>(s: seq<T>, cmp: (T, T) -> int, r: seq<(T, nat)>, expected: seq<T>)
    requires TotalPreorder(cmp)
    requires multiset(r) == multiset(Indexed(s))
    requires Sorted(r, cmp)
    requires Values(r) == expected
    ensures Ordered(s, cmp) == expected
  {
    OrderedUnique(s, cmp, r);
  }

  function Identity(x: int): int
  {
    x
  }

  /** Ordering numbers by themselves, descending. */
  function ByValueDescending(): (int, int) -> int
  {
    Build([Descending(Identity, IntCompare)])
  }

  lemma ByValueDescendingPreorder()
    ensures TotalPreorder(ByValueDescending())
  {
    IntComparePreorder();
    KeyComparers(Identity, IntCompare);
    KeyChainPreorder([Descending(Identity, IntCompare)]);
  }

  /** Descending by value, a larger number comes first. */
  lemma ByValueDescendingAt(a: int, b: int)
    ensures ByValueDescending()(a, b) == IntCompare(b, a)
  {
    OneStep(Descending(Identity, IntCompare), a, b);
  }

  lemma ThreeReversedSorted(n: int)
    ensures Sorted([(n + 2, 2), (n + 1, 1), (n, 0)], ByValueDescending())
  {
    ByValueDescendingAt(n + 2, n + 1);
    ByValueDescendingAt(n + 2, n);
    ByValueDescendingAt(n + 1, n);
  }

  lemma ThreeIndexed(n: int)
    ensures Indexed([n, n + 1, n + 2]) == [(n, 0), (n + 1, 1), (n + 2, 2)]
  {
  }

  lemma ThreeReversedPermutes(n: int)
    ensures multiset([(n + 2, 2), (n + 1, 1), (n, 0)]) == multiset(Indexed([n, n + 1, n + 2]))
    ensures Values([(n + 2, 2), (n + 1, 1), (n, 0)]) == [n + 2, n + 1, n]
  {
    ThreeIndexed(n);
  }

  /** Descending by value, [n, n + 1, n + 2] comes out reversed. */
  lemma DescendingThree(n: int)
    ensures Ordered([n, n + 1, n + 2], ByValueDescending()) == [n + 2, n + 1, n]
  {
    ByValueDescendingPreorder();
    ThreeReversedSorted(n);
    ThreeReversedPermutes(n);
    OrderedAs([n, n + 1, n + 2], ByValueDescending(), [(n + 2, 2), (n + 1, 1), (n, 0)], [n + 2, n + 1, n]);
  }

  /** One traversal, in descending order, of the counting source: its n-th traversal [n, n + 1, n + 2] reversed. */
  method TraverseCountingDescending(o: OrderedIterable<int>) returns (xs: seq<int>)
    requires o.src.gen == CountingSource() && o.chain == [Descending(Identity, IntCompare)]
    modifies o.src
    ensures o.src.opens == old(o.src.opens) + 1
    ensures var n := old(o.src.opens); xs == [n + 2, n + 1, n]
  {
    xs := o.Traverse();
    DescendingThree(old(o.src.opens));
  }

  /**
   * The sort is redone on every traversal: over the counting source, two traversals in
   * descending order give [2, 1, 0] and then [3, 2, 1].
   */
  method RecomputedEachTraversal() returns (first: seq<int>, second: seq<int>)
    ensures first == [2, 1, 0] && second == [3, 2, 1]
  {
    var src := new Iterable(CountingSource());
    var o := OrderByDescending(src, Identity, IntCompare);
    first := TraverseCountingDescending(o);
    second := TraverseCountingDescending(o);
  }

  lemma PairReversed()
    ensures Sorted([(2, 1), (1, 0)], ByValueDescending())
    ensures multiset([(2, 1), (1, 0)]) == multiset(Indexed([1, 2]))
    ensures Values([(2, 1), (1, 0)]) == [2, 1]
  {
    ByValueDescendingAt(2, 1);
    assert Indexed([1, 2]) == [(1, 0), (2, 1)];
  }

  /** `orderByDescending` on [1, 2] gives [2, 1]. */
  lemma DescendingSwaps()
    ensures Ordered([1, 2], ByValueDescending()) == [2, 1]
  {
    ByValueDescendingPreorder();
    PairReversed();
    OrderedAs([1, 2], ByValueDescending(), [(2, 1), (1, 0)], [2, 1]);
  }

  /** `orderByDescending` on [2, 1] gives [2, 1]. */
  lemma DescendingKeeps()
    ensures Ordered([2, 1], ByValueDescending()) == [2, 1]
  {
    ByValueDescendingPreorder();
    ByValueDescendingAt(2, 1);
    AlreadyInOrder([2, 1], ByValueDescending());
  }

  /** `orderByDescending` on [0, 0] gives [0, 0]. */
  lemma DescendingTies()
    ensures Ordered([0, 0], ByValueDescending()) == [0, 0]
  {
    ByValueDescendingPreorder();
    ByValueDescendingAt(0, 0);
    AllTiesKeepOrder([0, 0], ByValueDescending());
  }

  /** The record `{ a: 1, idx: x }` of the stability test, as a pair. */
  function Row(x: int, i: nat): (int, int)
  {
    (1, x)
  }

  function RowKey(p: (int, int)): int
  {
    p.0
  }

  function RowIndex(p: (int, int), i: nat): int
  {
    p.1
  }

  lemma RowsTie(rows: seq<(int, int)>)
    requires forall i :: 0 <= i < |rows| ==> rows[i].0 == 1
    ensures forall i, j :: 0 <= i < |rows| && 0 <= j < |rows| ==> Build([Ascending(RowKey, IntCompare)])(rows[i], rows[j]) == 0
  {
    forall i, j | 0 <= i < |rows| && 0 <= j < |rows|
      ensures Build([Ascending(RowKey, IntCompare)])(rows[i], rows[j]) == 0
    {
      OneStep(Ascending(RowKey, IntCompare), rows[i], rows[j]);
    }
  }

  /** A hundred rows with equal keys, ordered by that key, keep their order 0..99. */
  lemma EqualKeysKeepOrder()
    ensures Mapped(Ordered(Mapped(RangeValues(0, 100), Row), Build([Ascending(RowKey, IntCompare)])), RowIndex) == RangeValues(0, 100)
  {
    var rows := Mapped(RangeValues(0, 100), Row);
    var chain := [Ascending(RowKey, IntCompare)];
    assert TotalPreorder(Build(chain)) by {
      IntKeyAscending(RowKey);
      KeyChainPreorder(chain);
    }
    RowsTie(rows);
    AllTiesKeepOrder(rows, Build(chain));
  }

  /** The records `{ a, b }` of the two-key test. */
  datatype AB = AB(a: int, b: int)

  function KeyA(x: AB): int
  {
    x.a
  }

  function KeyB(x: AB): int
  {
    x.b
  }

  /** `orderByDescending(a)` then `thenByDescending(b)`. */
  function ByABDescending(): (AB, AB) -> int
  {
    Build([Descending(KeyA, IntCompare), Descending(KeyB, IntCompare)])
  }

  lemma ByABDescendingPreorder()
    ensures TotalPreorder(ByABDescending())
  {
    IntComparePreorder();
    KeyComparers(KeyA, IntCompare);
    KeyComparers(KeyB, IntCompare);
    KeyChainPreorder([Descending(KeyA, IntCompare), Descending(KeyB, IntCompare)]);
  }

  lemma ByABDescendingAt(x: AB, y: AB)
    ensures ByABDescending()(x, y) == if x.a != y.a then IntCompare(y.a, x.a) else IntCompare(y.b, x.b)
  {
    TwoSteps(Descending(KeyA, IntCompare), Descending(KeyB, IntCompare), x, y);
  }

  lemma TwoKeysSorted()
    ensures Sorted([(AB(2, 2), 3), (AB(2, 1), 2), (AB(1, 2), 1), (AB(1, 1), 0)], ByABDescending())
  {
    var r := [(AB(2, 2), 3), (AB(2, 1), 2), (AB(1, 2), 1), (AB(1, 1), 0)];
    forall i, j | 0 <= i < j < |r|
      ensures ComparePairs(ByABDescending(), r[i], r[j]) <= 0
    {
      ByABDescendingAt(r[i].0, r[j].0);
    }
  }

  lemma TwoKeysIndexed()
    ensures Indexed([AB(1, 1), AB(1, 2), AB(2, 1), AB(2, 2)]) == [(AB(1, 1), 0), (AB(1, 2), 1), (AB(2, 1), 2), (AB(2, 2), 3)]
  {
  }

  lemma TwoKeysReordered()
    ensures multiset([(AB(2, 2), 3), (AB(2, 1), 2), (AB(1, 2), 1), (AB(1, 1), 0)])
      == multiset([(AB(1, 1), 0), (AB(1, 2), 1), (AB(2, 1), 2), (AB(2, 2), 3)])
  {
  }

  lemma TwoKeysValues()
    ensures Values([(AB(2, 2), 3), (AB(2, 1), 2), (AB(1, 2), 1), (AB(1, 1), 0)]) == [AB(2, 2), AB(2, 1), AB(1, 2), AB(1, 1)]
  {
  }

  /** `orderByDescending(a)` then `thenByDescending(b)` over (1,1), (1,2), (2,1), (2,2) gives (2,2), (2,1), (1,2), (1,1). */
  lemma TwoKeysDescendingExample()
    ensures Ordered([AB(1, 1), AB(1, 2), AB(2, 1), AB(2, 2)], ByABDescending()) == [AB(2, 2), AB(2, 1), AB(1, 2), AB(1, 1)]
  {
    ByABDescendingPreorder();
    TwoKeysSorted();
    TwoKeysIndexed();
    TwoKeysReordered();
    TwoKeysValues();
    OrderedAs([AB(1, 1), AB(1, 2), AB(2, 1), AB(2, 2)], ByABDescending(),
      [(AB(2, 2), 3), (AB(2, 1), 2), (AB(1, 2), 1), (AB(1, 1), 0)], [AB(2, 2), AB(2, 1), AB(1, 2), AB(1, 1)]);
  }

  /** The dates of the three-key test. */
  datatype Date = Date(day: int, month: int, year: int)

  function YearOf(d: Date): int
  {
    d.year
  }

  function MonthOf(d: Date): int
  {
    d.month
  }

  function DayOf(d: Date): int
  {
    d.day
  }

  /** A chain of three steps: each later step decides only where all earlier ones tie. */
  lemma ThreeSteps<T>(first: (T, T) -> int, second: (T, T) -> int, third: (T, T) -> int, a: T, b: T)
    ensures Build([first, second, third])(a, b)
      == if first(a, b) != 0 then first(a, b) else if second(a, b) != 0 then second(a, b) else third(a, b)
  {
    TwoSteps(first, second, a, b);
    assert [first, second] + [third] == [first, second, third];
    ThenOnlyBreaksTies([first, second], third, a, b);
  }

  /** `orderBy(year)`, `thenBy(month)`, `thenBy(day)`. */
  function ByDate(): (Date, Date) -> int
  {
    Build([Ascending(YearOf, IntCompare), Ascending(MonthOf, IntCompare), Ascending(DayOf, IntCompare)])
  }

  /** `orderByDescending(year)`, `thenByDescending(month)`, `thenByDescending(day)`. */
  function ByDateDescending(): (Date, Date) -> int
  {
    Build([Descending(YearOf, IntCompare), Descending(MonthOf, IntCompare), Descending(DayOf, IntCompare)])
  }

  lemma ByDatePreorder()
    ensures TotalPreorder(ByDate()) && TotalPreorder(ByDateDescending())
  {
    assert TotalPreorder(ByDate()) by {
      IntKeyAscending(YearOf);
      IntKeyAscending(MonthOf);
      IntKeyAscending(DayOf);
      ThreeStepPreorder(Ascending(YearOf, IntCompare), Ascending(MonthOf, IntCompare), Ascending(DayOf, IntCompare));
    }
    assert TotalPreorder(ByDateDescending()) by {
      IntKeyDescending(YearOf);
      IntKeyDescending(MonthOf);
      IntKeyDescending(DayOf);
      ThreeStepPreorder(Descending(YearOf, IntCompare), Descending(MonthOf, IntCompare), Descending(DayOf, IntCompare));
    }
  }

  /** Ordering by an integer key is a total preorder. */
  lemma IntKeyAscending<T(!new)>(sel: T -> int)
    ensures TotalPreorder(Ascending(sel, IntCompare))
  {
    IntComparePreorder();
    KeyComparers(sel, IntCompare);
  }

  /** Ordering by an integer key, descending, is a total preorder. */
  lemma IntKeyDescending<T(!new)>(sel: T -> int)
    ensures TotalPreorder(Descending(sel, IntCompare))
  {
    IntComparePreorder();
    KeyComparers(sel, IntCompare);
  }

  /** A chain of three total preorders builds one. */
  lemma ThreeStepPreorder<T(!new)>(a: (T, T) -> int, b: (T, T) -> int, c: (T, T) -> int)
    requires TotalPreorder(a) && TotalPreorder(b) && TotalPreorder(c)
    ensures TotalPreorder(Build([a, b, c]))
  {
    KeyChainPreorder([a, b, c]);
  }

  lemma ByDateAt(x: Date, y: Date)
    ensures ByDate()(x, y) == if x.year != y.year then IntCompare(x.year, y.year)
      else if x.month != y.month then IntCompare(x.month, y.month) else IntCompare(x.day, y.day)
  {
    var a, b, c := Ascending(YearOf, IntCompare), Ascending(MonthOf, IntCompare), Ascending(DayOf, IntCompare);
    assert a(x, y) == IntCompare(x.year, y.year);
    assert b(x, y) == IntCompare(x.month, y.month);
    assert c(x, y) == IntCompare(DayOf(x), DayOf(y)) == IntCompare(x.day, y.day);
    assert ByDate() == Build([a, b, c]);
    ThreeSteps(a, b, c, x, y);
  }

  lemma ByDateDescendingAt(x: Date, y: Date)
    ensures ByDateDescending()(x, y) == if x.year != y.year then IntCompare(y.year, x.year)
      else if x.month != y.month then IntCompare(y.month, x.month) else IntCompare(y.day, x.day)
  {
    var a, b, c := Descending(YearOf, IntCompare), Descending(MonthOf, IntCompare), Descending(DayOf, IntCompare);
    assert a(x, y) == IntCompare(y.year, x.year);
    assert b(x, y) == IntCompare(y.month, x.month);
    assert c(x, y) == IntCompare(DayOf(y), DayOf(x)) == IntCompare(y.day, x.day);
    assert ByDateDescending() == Build([a, b, c]);
    ThreeSteps(a, b, c, x, y);
  }

  /** The test's input dates (day, month, year). */
  function Dates(): seq<Date>
  {
    [Date(1, 10, 2000), Date(1, 1, 2000), Date(2, 1, 2000), Date(1, 1, 1999), Date(1, 1, 2000)]
  }

  /** The expected ascending order. */
  function DatesAscending(): seq<Date>
  {
    [Date(1, 1, 1999), Date(1, 1, 2000), Date(1, 1, 2000), Date(2, 1, 2000), Date(1, 10, 2000)]
  }

  /** The ascending order as positions of `Dates()`: the two equal dates keep their order, 1 before 4. */
  function DatesAscendingAt(): seq<(Date, nat)>
  {
    [(Date(1, 1, 1999), 3), (Date(1, 1, 2000), 1), (Date(1, 1, 2000), 4), (Date(2, 1, 2000), 2), (Date(1, 10, 2000), 0)]
  }

  /** The expected descending order of `DatesAscending()`. */
  function DatesDescending(): seq<Date>
  {
    [Date(1, 10, 2000), Date(2, 1, 2000), Date(1, 1, 2000), Date(1, 1, 2000), Date(1, 1, 1999)]
  }

  /** The descending order as positions of `DatesAscending()`. */
  function DatesDescendingAt(): seq<(Date, nat)>
  {
    [(Date(1, 10, 2000), 4), (Date(2, 1, 2000), 3), (Date(1, 1, 2000), 1), (Date(1, 1, 2000), 2), (Date(1, 1, 1999), 0)]
  }

  lemma DatesAscendingSorted()
    ensures Sorted(DatesAscendingAt(), ByDate())
  {
    var r := DatesAscendingAt();
    forall i, j | 0 <= i < j < |r|
      ensures ComparePairs(ByDate(), r[i], r[j]) <= 0
    {
      ByDateAt(r[i].0, r[j].0);
    }
  }

  lemma DatesDescendingSorted()
    ensures Sorted(DatesDescendingAt(), ByDateDescending())
  {
    var r := DatesDescendingAt();
    forall i, j | 0 <= i < j < |r|
      ensures ComparePairs(ByDateDescending(), r[i], r[j]) <= 0
    {
      ByDateDescendingAt(r[i].0, r[j].0);
    }
  }

  lemma DatesIndexed()
    ensures Indexed(Dates()) == [(Date(1, 10, 2000), 0), (Date(1, 1, 2000), 1), (Date(2, 1, 2000), 2), (Date(1, 1, 1999), 3), (Date(1, 1, 2000), 4)]
    ensures Indexed(DatesAscending()) == [(Date(1, 1, 1999), 0), (Date(1, 1, 2000), 1), (Date(1, 1, 2000), 2), (Date(2, 1, 2000), 3), (Date(1, 10, 2000), 4)]
  {
  }

  lemma DatesAscendingReordered()
    ensures multiset(DatesAscendingAt())
      == multiset([(Date(1, 10, 2000), 0), (Date(1, 1, 2000), 1), (Date(2, 1, 2000), 2), (Date(1, 1, 1999), 3), (Date(1, 1, 2000), 4)])
  {
  }

  lemma DatesDescendingReordered()
    ensures multiset(DatesDescendingAt())
      == multiset([(Date(1, 1, 1999), 0), (Date(1, 1, 2000), 1), (Date(1, 1, 2000), 2), (Date(2, 1, 2000), 3), (Date(1, 10, 2000), 4)])
  {
  }

  lemma DatesValues()
    ensures Values(DatesAscendingAt()) == DatesAscending()
    ensures Values(DatesDescendingAt()) == DatesDescending()
  {
  }

  /**
   * The dates test: ordered by year, then month, then day, the dates come out in the listed
   * ascending order; ordering that result descending on the same keys gives the listed
   * descending order.
   */
  lemma DatesExample()
    ensures Ordered(Dates(), ByDate()) == DatesAscending()
    ensures Ordered(DatesAscending(), ByDateDescending()) == DatesDescending()
  {
    ByDatePreorder();
    DatesAscendingSorted();
    DatesDescendingSorted();
    DatesIndexed();
    DatesAscendingReordered();
    DatesDescendingReordered();
    DatesValues();
    OrderedAs(Dates(), ByDate(), DatesAscendingAt(), DatesAscending());
    OrderedAs(DatesAscending(), ByDateDescending(), DatesDescendingAt(), DatesDescending());
  }

  // ---------------------------------------------------------------- unwrapIndexed

  /** The stored index of a value-index pair. */
  function Position<T>(p: (T, nat)): int
  {
    p.1
  }

  /** `unwrapIndexed(src)`: ordered by the stored index, then the values. */
  function UnwrapIndexed<T>(s: seq<(T, nat)>): seq<T>
  {
    Values(Ordered(s, Build([Ascending(Position, IntCompare)])))
  }

  /** Ordering by the stored index is a total preorder. */
  lemma PositionOrderPreorder<T(!new)>()
    ensures TotalPreorder(Build([Ascending(Position<T>, IntCompare)]))
  {
    IntComparePreorder();
    KeyComparers(Position<T>, IntCompare);
    KeyChainPreorder([Ascending(Position<T>, IntCompare)]);
  }

  lemma ByPositionAt<T>(p: (T, nat), q: (T, nat))
    ensures Build([Ascending(Position<T>, IntCompare)])(p, q) == IntCompare(p.1, q.1)
  {
    OneStep(Ascending(Position<T>, IntCompare), p, q);
  }

  /** `unwrapIndexed` yields every value once, in increasing order of stored index. */
  lemma UnwrapIndexedOrder<T(!new)>(s: seq<(T, nat)>)
    ensures var o := Ordered(s, Build([Ascending(Position, IntCompare)]));
      && UnwrapIndexed(s) == Values(o)
      && |UnwrapIndexed(s)| == |s|
      && multiset(o) == multiset(s)
      && forall i, j :: 0 <= i < j < |o| ==> o[i].1 <= o[j].1
  {
    var cmp := Build([Ascending(Position<T>, IntCompare)]);
    var o := Ordered(s, cmp);
    PositionOrderPreorder<T>();
    OrderedProperties(s, cmp);
    forall i, j | 0 <= i < j < |o|
      ensures o[i].1 <= o[j].1
    {
      ByPositionAt(o[i], o[j]);
    }
  }

  /** `unwrapIndexed(indexed(s))` is `s`. */
  lemma UnwrapIndexedRestores<T(!new)>(s: seq<T>)
    ensures UnwrapIndexed(Indexed(s)) == s
  {
    var t := Indexed(s);
    var cmp := Build([Ascending(Position<T>, IntCompare)]);
    PositionOrderPreorder<T>();
    forall i, j | 0 <= i < j < |t|
      ensures cmp(t[i], t[j]) <= 0
    {
      ByPositionAt(t[i], t[j]);
    }
    AlreadyInOrder(t, cmp);
    ValuesOfIndexed(s);
  }

  /** The indexed values of the example: [y, 1], [x, 0], [z, 2]. */
  function Shuffled<T>(x: T, y: T, z: T): seq<(T, nat)>
  {
    [(y, 1), (x, 0), (z, 2)]
  }

  /** The same values in order of stored index. */
  function Unshuffled<T>(x: T, y: T, z: T): seq<(T, nat)>
  {
    [(x, 0), (y, 1), (z, 2)]
  }

  /** The indexed form of `Unshuffled`: each pair with its position in `Shuffled`. */
  function UnshuffledAt<T>(x: T, y: T, z: T): seq<((T, nat), nat)>
  {
    [((x, 0), 1), ((y, 1), 0), ((z, 2), 2)]
  }

  lemma UnwrapThreeSorted<T>(x: T, y: T, z: T)
    ensures Sorted(UnshuffledAt(x, y, z), Build([Ascending(Position<T>, IntCompare)]))
  {
    var r := UnshuffledAt(x, y, z);
    forall i, j | 0 <= i < j < |r|
      ensures ComparePairs(Build([Ascending(Position<T>, IntCompare)]), r[i], r[j]) <= 0
    {
      ByPositionAt(r[i].0, r[j].0);
    }
  }

  lemma UnwrapThreeIndexed<T>(x: T, y: T, z: T)
    ensures Indexed(Shuffled(x, y, z)) == [((y, 1), 0), ((x, 0), 1), ((z, 2), 2)]
  {
  }

  lemma UnwrapThreeReordered<T>(x: T, y: T, z: T)
    ensures multiset(UnshuffledAt(x, y, z)) == multiset([((y, 1), 0), ((x, 0), 1), ((z, 2), 2)])
  {
  }

  lemma UnwrapThreeValues<T>(x: T, y: T, z: T)
    ensures Values(UnshuffledAt(x, y, z)) == Unshuffled(x, y, z)
    ensures Values(Unshuffled(x, y, z)) == [x, y, z]
  {
  }

  lemma UnwrapThreeOrdered<T(!new)>(x: T, y: T, z: T)
    ensures Ordered(Shuffled(x, y, z), Build([Ascending(Position<T>, IntCompare)])) == Unshuffled(x, y, z)
  {
    PositionOrderPreorder<T>();
    UnwrapThreeSorted(x, y, z);
    UnwrapThreeIndexed(x, y, z);
    UnwrapThreeReordered(x, y, z);
    UnwrapThreeValues(x, y, z);
    OrderedAs(Shuffled(x, y, z), Build([Ascending(Position<T>, IntCompare)]), UnshuffledAt(x, y, z), Unshuffled(x, y, z));
  }

  /** [y, 1], [x, 0], [z, 2] unwrap to [x, y, z]. */
  lemma UnwrapThree<T(!new)>(x: T, y: T, z: T)
    ensures UnwrapIndexed(Shuffled(x, y, z)) == [x, y, z]
  {
    UnwrapThreeOrdered(x, y, z);
    UnwrapThreeValues(x, y, z);
  }

  /** ["beta", 1], ["alpha", 0], ["gamma", 2] unwrap to ["alpha", "beta", "gamma"]. */
  lemma UnwrapIndexedExample()
    ensures UnwrapIndexed([("beta", 1), ("alpha", 0), ("gamma", 2)]) == ["alpha", "beta", "gamma"]
  {
    UnwrapThree("alpha", "beta", "gamma");
  }
}
