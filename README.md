# ts-iterable-functions, modelled in Dafny

This project models the core of **ts-iterable-functions**, a TypeScript library of lazy operators over iterables. It also models the list helpers of the library's TypeDoc sort plugin.

## How the library is modelled

**Restartable sources.** An operator returns a restartable sequence (`toIterable`). Every `[Symbol.iterator]()` call runs its generator function again. The class `Iterables.Iterable` models this with two things:
- a function `gen`, where `gen(n)` is the list of elements that the cursor opened after `n` earlier opens will yield;
- an `opens` counter, which every `Open` bumps.

A pure source has a constant `gen`. An impure source, such as one that closes over a counter, does not. `Iterables.Cursor` is the single-use iterator that `headTail`, `zip` and `sequenceEqual` advance by hand.

**Operators.** Each operator comes in two parts:
- a function over `seq`, which gives the elements of one traversal in terms of the elements of one traversal of its upstream;
- where the source has a generator loop, a method with that loop, proved to yield exactly what the function says.

Lemmas then state what the library documents and tests, on those functions:
- prefixes and suffixes;
- permutations;
- stability;
- key order;
- error conditions;
- round trips;
- the examples the test suite checks.

**Eager operators.** `toLookup`, `toMap`, `toSet`, `groupBy`, `deduplicateBy`, `groupJoin` and `fullOuterGroupJoin` read their sources once, when they are called. Their methods say so through the `opens` counters.

**Values and errors.**
- JavaScript's `undefined` is `Option.None`.
- A thrown `Error` is `Result.Failure`, carrying one `Error` constructor per message the library throws.
- A JavaScript `Map` or `Set` is an `OrderedMap`: its entries plus the list of its keys in first-insertion order.
- Callbacks are total Dafny functions. Keys are compared with `==`.

**Sorting.**
- A comparer from `ts-comparer-builder` is any three-way comparer. Sorting assumes it is a total preorder.
- The ordered sequence sorts (value, position) pairs by its chain of comparers, and ties are broken by position. `Ordering.Sort` is a stable insertion sort that meets this promise. `Ordering.OrderedUnique` proves that any sorted permutation of the pairs is the same list, so the model does not depend on the engine's sort algorithm.

**The TypeDoc plugin** (`typedoc-plugins/custom-sort.js`) is modelled in module `CustomSort`: `prioritizeSubset`, `reorderSubset`, `shouldSort` and the comparator that `createComparator` returns. A reflection is a value with an identity, an optional name and an optional kind. JavaScript's `&` is modelled on the numbers modulo 2^32.

**Where the library's own description differs from its code, the model follows the code.**
- The description says a group join looks up its inner sequence on every traversal. In the code, `groupJoin` fills its lookup once, when it is called (`src/transformers/groupJoin.ts:16`). `Joins.GroupJoin` models that.
- The documented `maxBy`/`minBy` return an empty iterable for an empty source. The shown helper `minMaxByImpl` throws "sequence contains no elements" instead. `MinMax.MinMaxBy` models the helper.

## Model

| member | source | states |
|---|---|---|
| Iterables.Cursor.constructor | src/helpers/toIterable.ts:13-15 | a fresh iterator starts before its first element |
| Iterables.Cursor.Next | src/helpers/headTail.ts:13-14 | `next()` yields the element at the cursor and advances by one; an exhausted cursor reports `done` and stays where it is |
| Iterables.Drain | src/transformers/reverse.ts:30 | spreading an iterator yields exactly the elements it still held and leaves it exhausted |
| Iterables.Iterable.constructor | src/helpers/toIterable.ts:13-20 | wrapping a generator function creates a source that has not been traversed yet |
| Iterables.Iterable.Open | src/helpers/toIterable.ts:15 | every `[Symbol.iterator]()` call invokes the generator function again: a fresh cursor over the next traversal, one more open |
| Iterables.Iterable.ToJson | src/helpers/toIterable.ts:16-18 | `toJSON()` is exactly the elements of one further traversal |
| Iterables.TraverseTwice | src/__tests__/index.test.ts:95-100 | a pure source traversed twice gives identical lists and is opened twice |
| Iterables.ImpureScenario | src/__tests__/index.test.ts:1396-1402 | an impure source whose traversals start one higher each time yields [0,1,2], then [1,2,3], then first elements 2 and 3 |
| Iterables.Tail.constructor | src/helpers/headTail.ts:19-24 | the tail shares the iterator opened by `headTail` |
| Iterables.Tail.Traverse | src/helpers/headTail.ts:19-24 | a traversal of the tail yields whatever the shared cursor still holds and exhausts it, so a second traversal is empty |
| Iterables.HeadTail | src/helpers/headTail.ts:11-27 | opens the source once; fails with "sequence is empty" exactly when that traversal is empty; otherwise the head followed by the tail's remaining elements is the whole traversal |
| Iterables.HeadTailImpureScenario | src/__tests__/index.test.ts:1391-1394 | on the impure source the head is 0, the tail yields [1,2] once and nothing afterwards |
| Iterables.RangeArguments | src/generators/range.ts:11-19 | succeeds exactly for an integral start and an integral, non-negative count; the three failures are checked in the source's order |
| Iterables.RangeValues | src/generators/range.ts:20-24 | a traversal of `range(start, count)` has `count` elements, the i-th being `start + i` |
| Iterables.RangeTraversal | src/generators/range.ts:21-23 | the generator loop yields exactly the range values |
| Iterables.Range | src/generators/range.ts:10-25 | fails exactly when the argument checks fail, with their error; otherwise returns an unopened pure source whose every traversal is the range values |
| Iterables.RangeTwiceScenario | src/__tests__/index.test.ts:95-100 | `range(0, 3)` traversed twice gives [0,1,2] both times |
| Iterables.RangeValidationExamples | src/__tests__/index.test.ts:101-105 | `range(0,-1)`, `range(0.1,1)` and `range(0,1.1)` are rejected, each with its own error |
| Projection.Mapped | src/transformers/map.ts:5-15 | a traversal of `map` has the source's length and its i-th element is the selector applied to the i-th element and index i |
| Projection.Map | src/transformers/map.ts:9-14 | the generator loop, with its counter, yields exactly the mapped list |
| Projection.MapTraversal | src/transformers/map.ts:9-14 | each traversal of `map` opens the source once and maps the elements of that traversal from index 0 |
| Projection.MapTwice | src/__tests__/index.test.ts:115-123 | mapping a pure source twice gives the same list, indexed from 0 both times |
| Projection.Indexed | src/transformers/indexed.ts:29-31 | `indexed` pairs each element with its position |
| Projection.IndexedElements | src/transformers/indexed.ts:29-31 | dropping the positions from `indexed(s)` gives `s` back |
| Projection.Filtered | src/transformers/filter.ts:12-21 | `filter` never yields more elements than the source |
| Projection.KeptPositions | src/transformers/filter.ts:15-18 | the filtered list is the source selected, in order, at exactly the positions whose element and index satisfy the predicate |
| Projection.Filter | src/transformers/filter.ts:13-20 | the generator loop over `indexed(src)` yields exactly the filtered list |
| Projection.FilteredExtremes | src/__tests__/index.test.ts:106-114 | a predicate accepting everything keeps the source; one rejecting everything yields nothing |
| Projection.FlatMapped | src/transformers/flatMap.ts:7-19 | a traversal of `flatMap` is the concatenation of the selected inner lists, and its length is the sum of their lengths |
| Projection.FlatMap | src/transformers/flatMap.ts:11-18 | the nested generator loops yield exactly the flattened list |
| Projection.FlatMapDoubleExample | src/__tests__/index.test.ts:1258-1267 | selecting `[x, x]` for each of [1,2] gives [1,1,2,2] |
| Projection.Concat | src/transformers/concat.ts:24-38 | `concat` yields the source followed by every further sequence, in order; its length is the sum of the lengths |
| Projection.ConcatExample | src/transformers/concat.ts:24-38 | `concat([1,2], [3], [4,5])` gives [1,2,3,4,5] |
| Projection.Append | src/transformers/append.ts:24-31 | `append` yields the source unchanged, then the item, and nothing else |
| Projection.Prepend | src/transformers/prepend.ts:29-36 | `prepend` yields the item, then the source unchanged, and nothing else |
| Projection.DefaultIfEmpty | src/transformers/defaultIfEmpty.ts:23-36 | the source's elements unchanged, or exactly one `undefined` when there are none; the length is max(1, source length) |
| Projection.DefaultIfEmptyTraversal | src/transformers/defaultIfEmpty.ts:25-34 | the generator loop with its `yielded` flag yields exactly that |
| Projection.Reversed | src/transformers/reverse.ts:28-35 | the i-th element of the reversal is the source's element i from the end |
| Projection.ReversedInvolution | src/transformers/reverse.ts:28-35 | reversing twice gives the original list |
| Projection.ReverseInPlace | src/transformers/reverse.ts:30 | reversing an array in place leaves it holding the reversal of its old contents |
| Projection.Reverse | src/transformers/reverse.ts:29-34 | the generator materialises the source, reverses it, and yields the reversal |
| Seqs.Flatten | src/transformers/flatMap.ts:13-17 | flattening a list of lists gives a list as long as the sum of their lengths |
| Seqs.FlattenAppend | src/transformers/concat.ts:32-36 | flattening two lists of lists one after the other is the concatenation of their flattenings |
| Slicing.FirstFailure | src/transformers/takeWhile.ts:37-43 | the first position at or after a start whose element fails the predicate: everything before it passes, the element there fails, or it is the end |
| Slicing.TakenWhile | src/transformers/takeWhile.ts:31-45 | `takeWhile` yields the longest prefix whose every element passes the predicate with its index; the element after it, if any, fails |
| Slicing.TakeWhile | src/transformers/takeWhile.ts:35-44 | the generator loop, which stops at the first failing element, yields exactly that prefix |
| Slicing.Take | src/transformers/take.ts:29-31 | `take(n)` keeps the first n elements, all of them when n exceeds the length, none when n is not positive |
| Slicing.TakeExamples | src/__tests__/index.test.ts:1147-1149 | `take([1,2,3], 2)` is [1,2]; a count of 5 keeps everything; a count of -1 keeps nothing |
| Slicing.SkippedWhile | src/transformers/skipWhile.ts:31-49 | `skipWhile` yields a suffix of the source: every element before it passes the predicate and its first element fails it |
| Slicing.TakeWhileSkipWhileSplit | src/transformers/skipWhile.ts:31-49 | `takeWhile` and `skipWhile` with the same predicate split the source exactly in two |
| Slicing.SkipWhile | src/transformers/skipWhile.ts:35-48 | the generator loop with its `skip` flag, which stops calling the predicate once it has failed, yields exactly that suffix |
| Slicing.SkipWhileExample | src/__tests__/index.test.ts:1339-1347 | skipping while `x < 3` over [1,2,3,4,1,5] gives [3,4,1,5]: the later 1 is kept |
| Slicing.Skip | src/transformers/skip.ts:4-6 | `skip(n)` drops the first n elements, all of them when n exceeds the length, none when n is not positive |
| Slicing.TakeSkipSplit | src/transformers/skip.ts:4-6 | `take(n)` and `skip(n)` split the source at the same place |
| Slicing.TakenToInclusive | src/transformers/takeToInclusive.ts:31-45 | `takeToInclusive` yields a prefix whose every element but the last fails the predicate; it is the whole source or ends with the first element that passes |
| Slicing.TakeToInclusive | src/transformers/takeToInclusive.ts:35-44 | the generator loop, which yields first and then stops on a pass, yields exactly that prefix |
| Folds.Aggregate | src/transformers/aggregate.ts:28-39 | the accumulator loop returns the left fold of the source from the seed, each element with its index |
| Folds.FoldedConcat | src/transformers/aggregate.ts:33-38 | folding `a + b` is folding `b` from the fold of `a`, with the indices of `b` moved on by the length of `a` |
| Folds.FoldedStep | src/transformers/aggregate.ts:36 | the fold of a prefix is the aggregate function applied to the fold of the prefix one shorter and the next element with its index |
| Folds.RunningSums | src/__tests__/index.test.ts:303-331 | the running sums behind the library's scan examples |
| Folds.AggregateSumExample | src/__tests__/index.test.ts:296-302 | summing `range(0, 4)` from 0 gives 6 |
| Folds.Scanned | src/transformers/scan.ts:19-26 | a seeded scan yields one value per element, the i-th being the aggregate of the first i+1 elements |
| Folds.ScanEndsWithAggregate | src/transformers/scan.ts:19-26 | the last value of a seeded scan is the aggregate of the whole source |
| Folds.ScanSeeded | src/transformers/scan.ts:20-25 | the seeded generator loop yields exactly those running aggregates |
| Folds.Scan | src/transformers/scan.ts:13-39 | with a seed, one value per element; without one, the first element is the seed and the rest are folded from index 0, so one value fewer; without a seed an empty source fails with "sequence is empty" and nothing else fails |
| Folds.ScanTraversal | src/transformers/scan.ts:18-37 | each traversal of `scan` opens the source once (through `headTail` when there is no seed) and yields the scan of that traversal |
| Folds.ScanExamples | src/__tests__/index.test.ts:303-345 | the library's scan examples: [0,1,3,6], [1,3,6], [3,6,10], [1,2,4,7], an empty result, and the failure of an unseeded scan of nothing |
| Folds.CountOf | src/transformers/count.ts:4-13 | the number of matching elements is the length of the filtered list and never exceeds the source's length |
| Folds.CountOfPrefix | src/transformers/count.ts:7-11 | a prefix never has more matches than the whole source |
| Folds.CountOfPositive | src/transformers/count.ts:8-10 | one matching position means at least one match |
| Folds.CountOfNone | src/transformers/count.ts:8-10 | no matching position means no match |
| Folds.Count | src/transformers/count.ts:4-13 | the counting loop returns the number of matching elements |
| Folds.CountDefaultIsLength | src/transformers/count.ts:4 | with the default predicate `count` is the length of the source |
| Folds.CountExamples | src/__tests__/index.test.ts:449-458 | counts of 4, 0 and 2 in the library's examples |
| Folds.SomeMatch | src/transformers/some.ts:10-18 | `some` is true exactly when some element passes the predicate with its index, that is, when the count of matches is positive |
| Folds.AllMatch | src/transformers/all.ts:5-7 | `all`, written as "not some element fails", is true exactly when every element passes |
| Folds.SomeAllExamples | src/__tests__/index.test.ts:404-439 | over four zeroes `all(== 1)` and `some(== 1)` are false, `all(== 0)` and `some(== 0)` are true; `some` of nothing is false |
| Elements.FirstMatch | src/transformers/first.ts:6-10 | the position of the first element passing the predicate: it passes, nothing before it does; none only when nothing passes |
| Elements.LastMatch | src/transformers/last.ts:34-38 | the position of the last element passing the predicate: it passes, nothing after it does; none only when nothing passes |
| Elements.First | src/transformers/first.ts:5-12 | `first` returns the element at the first match, or fails with "no elements" when nothing passes |
| Elements.FirstOrDefault | src/transformers/firstOrDefault.ts:27-38 | `firstOrDefault` returns the element at the first match, and `undefined` exactly when nothing passes |
| Elements.Last | src/transformers/last.ts:28-44 | `last` walks the whole source and returns the element at the last match, or fails with "no elements" |
| Elements.FirstLastExamples | src/__tests__/index.test.ts:503-550 | over `range(0, 3)`: `first(x > 0)` is 1, `first(x > 2)` throws, `last(x < 2)` is 1, `last()` is 2 |
| Elements.SingleMatch | src/transformers/single.ts:29-49 | `single` succeeds exactly when one element passes, and returns a passing element; otherwise "no elements" for none and "more than one element" for several |
| Elements.Single | src/transformers/single.ts:33-48 | the counting loop, which throws at the second match, returns exactly that outcome |
| Elements.SingleOrDefaultMatch | src/transformers/singleOrDefault.ts:6-26 | `singleOrDefault` fails exactly when more than one element passes, gives `undefined` exactly when none does, and otherwise agrees with `single` |
| Elements.SingleOrDefault | src/transformers/singleOrDefault.ts:10-25 | the counting loop with its placeholder item returns exactly that outcome |
| Elements.SingleExamples | src/__tests__/index.test.ts:459-492 | [1] gives 1; [] and [1,2] throw; `x > 2` over [1,2] throws, and gives `undefined` for `singleOrDefault`; `x > 1` gives 2 |
| Elements.CountOfPosition | src/transformers/elementAt.ts:4-6 | the position test of `elementAt` matches exactly one position when the index is in range, none otherwise |
| Elements.ElementAt | src/transformers/elementAt.ts:4-6 | `elementAt` returns the element at an in-range index and fails with "no elements" for any other index, negative ones included |
| Elements.ElementAtExamples | src/__tests__/index.test.ts:495-498 | `elementAt([1,2,3], 1)` is 2; index 3 throws |
| Distinct.KeysOf | src/transformers/distinctBy.ts:13-21 | the set of keys is exactly the keys of the elements, each computed with its index |
| Distinct.DistinctPositions | src/transformers/distinctBy.ts:15-23 | `distinctBy` yields the source selected, in order, at exactly the positions holding the first element with their key |
| Distinct.DistinctKeys | src/transformers/distinctBy.ts:18-22 | no two kept elements share a key |
| Distinct.DistinctByCount | src/transformers/distinctBy.ts:7-25 | `distinctBy` keeps exactly one element per distinct key |
| Distinct.DistinctByTraversal | src/transformers/distinctBy.ts:12-24 | the generator loop, with a seen-set created afresh on every traversal, yields exactly the first occurrences |
| Distinct.DistinctByExample | src/transformers/distinctBy.ts:7-25 | keying [0,1,2,3] by `x / 2` keeps [0,2] |
| Distinct.Elements | src/transformers/except.ts:10-13 | the set filled from a list holds exactly its elements |
| Distinct.ExcludedSet | src/transformers/except.ts:10-13 | `except` drains the second sequence once, at call time, into a set of exactly its elements |
| Distinct.Excepted | src/transformers/except.ts:14 | exactly the source elements outside the excluded set survive; it is a filter, so their order and repeats are as Projection.KeptPositions states |
| Distinct.ExceptExample | src/__tests__/index.test.ts:500-502 | [1,2,3] except [1,3] is [2] |
| Pairs.Zipped | src/transformers/zip.ts:40-59 | a traversal of `zip` is as long as the shorter side and pairs elements at equal positions through the selector |
| Pairs.Zip | src/transformers/zip.ts:45-58 | the generator opens both sides (the same source twice when both are one object) and yields exactly the zipped list |
| Pairs.ZipExamples | src/__tests__/index.test.ts:1157-1188 | zipping [1,2] with [2,1] or [2,1,5], and [1,2,5] with [2,1], gives [[1,2],[2,1]] |
| Pairs.SequenceEqual | src/transformers/sequenceEqual.ts:28-55 | opens each side once (the same source twice when both are one object) and returns true exactly when the two traversals have equal length and pairwise equal elements, where `undefined` never equals anything |
| Pairs.SequencesEqualReflexive | src/transformers/sequenceEqual.ts:33-39 | without a comparer a list equals itself exactly when it holds no `undefined` |
| Pairs.SequenceEqualExamples | src/__tests__/index.test.ts:659-664 | `range(0, 3)` equals [0,1,2] but not [0,1,4] or [0,1]; `range(0, 2)` does not equal [0,1,2]; [undefined] does not equal itself |
| MinMax.MinMaxBy | src/implemenation/helpers/minMaxByImpl.ts:29-33 | the helper fails with "no elements" exactly when the source is empty; any non-empty source gives a result |
| MinMax.BestOfNonEmpty | src/implemenation/helpers/minMaxByImpl.ts:16-27 | the list of best elements is non-empty exactly when the source is: the first element always lands in it and no later step empties it |
| MinMax.MinMaxByImpl | src/implemenation/helpers/minMaxByImpl.ts:5-34 | the loop that pushes, resets or ignores each element returns exactly that outcome |
| MinMax.AllUndefinedKeepsEverything | src/implemenation/helpers/minMaxByImpl.ts:16-18 | while the best key stays `undefined` every element is pushed, so when every key is `undefined` the result is the whole source |
| MinMax.BestIsMaximum | src/implemenation/helpers/minMaxByImpl.ts:13-28 | with every key defined and the comparer a total preorder: the best key is some element's key, no element's key compares greater, and the result is exactly the elements tied with it, in source order |
| MinMax.MaxByExample | src/implemenation/helpers/minMaxByImpl.ts:5-34 | keyed by length, ["ab","c","de"] gives both two-letter names |
| Memoize.Memo.constructor | src/transformers/helpers/memoize.ts:2 | a memoised function starts with an empty cache and has called nothing |
| Memoize.Memo.Apply | src/transformers/helpers/memoize.ts:3-10 | returns `f(v)`; calls `f` only when `v` is not cached yet, then caches it; the cache stays consistent with `f` and no argument is passed to `f` twice |
| Memoize.MemoizeExample | src/transformers/helpers/memoize.ts:1-11 | a memoised square applied to 3, 4 and 3 gives 9, 16, 9 and calls the square only for 3 and 4 |
| Materialize.LookupValid | src/transformers/toLookup.ts:59-68 | the lookup lists each key once, in first-insertion order, exactly the keys that have a bucket, and no bucket is empty |
| Materialize.BucketIsFilter | src/transformers/toLookup.ts:57 | without a value selector a key's bucket is the source filtered by that key, so its size is the count of elements with that key |
| Materialize.LookupBuckets | src/transformers/toLookup.ts:61-68 | `lookup.get(k) ?? []` is the values of exactly the elements with key k, in source order |
| Materialize.LookupDomain | src/transformers/toLookup.ts:64-66 | a key has a bucket exactly when some element has that key |
| Materialize.LookupKeyOrder | src/transformers/toLookup.ts:64-66 | the lookup's keys are listed in the order of their first occurrence, the same positions `distinctBy` keeps |
| Materialize.Groups | src/transformers/toLookup.ts:36-70 | reading the buckets in key order gives one list per key, the bucket of that key |
| Materialize.LookupPartition | src/transformers/toLookup.ts:61-68 | the buckets hold every selected value exactly once: their flattening is a permutation of the mapped source and their total size is the source's length |
| Materialize.ToLookup | src/transformers/toLookup.ts:59-69 | the get-or-create-then-push loop returns exactly the lookup of the source |
| Materialize.ChosenSelector | src/transformers/toLookup.ts:44-57 | the overload resolution of `toLookup` and, identically, of `toSet` (toSet.ts:32-36): a function argument is the value or key selector, whatever the key type; a factory object or an absent argument leaves `getIdentity()` |
| Materialize.LookupExamples | src/__tests__/index.test.ts:691-719 | `range(0, 10)` keyed by `x % 2` gives keys 0 and 1 with buckets [0,2,4,6,8] and [1,3,5,7,9]; with the values doubled, [0,4,8,12,16] and [2,6,10,14,18] |
| Materialize.ParityLookup | src/__tests__/index.test.ts:691-699 | `range(0, 10)` keyed by parity, for any value selector, gives exactly the two parity buckets in order |
| Materialize.MapFromOutcome | src/transformers/toMap.ts:59-65 | with a value selector the map is built exactly when no two elements share a key, and a repeated key fails with "duplicate key"; without one, any non-empty source fails on its first element |
| Materialize.MapFromEntries | src/transformers/toMap.ts:59-65 | a built map lists the keys in source order and maps each element's key to the value selected for it, with the index the loop passes |
| Materialize.MapFromDomain | src/transformers/toMap.ts:59-65 | a built map has no entry for a key no element has |
| Materialize.MapValueSelectorAsWritten | src/transformers/toMap.ts:47-51 | as written: a function argument is the value selector, a map factory gives the identity, and an absent argument gives no selector at all |
| Materialize.ToMapIntendedContract | src/transformers/toMap.ts:41-67 | as intended: the map is built exactly when the keys are unique (otherwise "duplicate key"), lists the keys in source order and maps each element's key to its value selected with its own index, the identity when no selector is given |
| Materialize.ToMapWithoutSelectorThrows | src/transformers/toMap.ts:47-51 | as written, `_toMap([7], x => x)` throws because the value selector is `undefined`; as intended it gives the map 7 → 7 |
| Materialize.ToMapIndexShifted | src/transformers/toMap.ts:60-64 | as written, a value selector returning its index stores 1 for the element at index 0; as intended, 0 |
| Materialize.ToMap | src/transformers/toMap.ts:58-66 | the `has`-then-`set` loop, with the value selector given the already incremented index, returns exactly the as-written outcome |
| Materialize.CarriesFailure | src/transformers/toMap.ts:61-63 | once a prefix fails, the whole source fails with the same error: the loop stops at the first duplicate |
| Materialize.ToMapExamples | src/__tests__/index.test.ts:720-751 | distinct keys with values `x / 2` build a map; the keys [0,0] throw "duplicate key" |
| Materialize.SetFrom | src/transformers/toSet.ts:27-51 | `_toSet` succeeds exactly when no two elements share a key, with the keys in insertion order, and otherwise fails with "duplicate key" |
| Materialize.ToSet | src/transformers/toSet.ts:42-50 | the `has`-then-`add` loop returns exactly that outcome |
| Materialize.ToSetExamples | src/__tests__/index.test.ts:768-801 | distinct elements are all kept; [1,1] throws |
| Ordering.FirstDecision | src/transformers/helpers/OrderedIterable.ts:18 | the built comparer gives 0 exactly when every step of the chain ties; otherwise it gives the answer of the first step that does not tie |
| Ordering.ThenOnlyBreaksTies | src/transformers/thenBy.ts:5-10 | a step added by `thenBy`/`thenByDescending` decides only the pairs the existing chain ties |
| Ordering.ChainPreorder | src/transformers/helpers/OrderedIterable.ts:18 | a chain of total preorders builds a total preorder |
| Ordering.KeyComparers | src/transformers/orderByDescending.ts:6-12 | over a total preorder on keys, the ascending and the descending key comparers are total preorders, and the descending one always has the opposite sign |
| Ordering.PairOrder | src/transformers/helpers/OrderedIterable.ts:23-26 | the comparator handed to `sort`, which breaks ties by position, is antisymmetric and transitive, and ties only pairs at the same position |
| Ordering.Insert | src/transformers/helpers/OrderedIterable.ts:23-26 | one insertion step of the sort adds exactly the inserted pair |
| Ordering.Sort | src/transformers/helpers/OrderedIterable.ts:23-26 | the sort returns a permutation of its input |
| Ordering.SortValues | src/transformers/helpers/OrderedIterable.ts:23-27 | sorting the pairs permutes their values too |
| Ordering.SortSorted | src/transformers/helpers/OrderedIterable.ts:23-26 | under a total preorder the sort's output is in order: no pair comes after a later one |
| Ordering.SortDistinct | src/transformers/helpers/OrderedIterable.ts:23 | sorting keeps the positions of `indexed(src)` distinct |
| Ordering.SortedUnique | src/transformers/helpers/OrderedIterable.ts:23-26 | two sorted lists holding the same pairs at distinct positions are the same list: with the position tie-break, the result does not depend on the sort algorithm |
| Ordering.Ordered | src/transformers/helpers/OrderedIterable.ts:21-32 | a traversal of an ordered sequence has the source's length |
| Ordering.OrderedProperties | src/transformers/helpers/OrderedIterable.ts:21-32 | a traversal is a permutation of the source, in the comparer's order, each element taken from its own source position, and elements the comparer ties keep their source order (a stable sort) |
| Ordering.OrderedUnique | src/transformers/helpers/OrderedIterable.ts:23-27 | whatever sorted permutation of the indexed source a sort produces, its values are the traversal's elements |
| Ordering.AlreadyInOrder | src/transformers/helpers/OrderedIterable.ts:21-32 | a source already in order under the comparer is traversed unchanged |
| Ordering.AllTiesKeepOrder | src/transformers/helpers/OrderedIterable.ts:25 | when the comparer ties every pair of elements, a traversal keeps the source order |
| Ordering.OneStepOrder | src/transformers/orderBy.ts:6-9 | under a one-step chain a traversal is a permutation of the source in that step's order |
| Ordering.OrderByAscendingKeys | src/transformers/orderBy.ts:6-9 | `orderBy`: a traversal is a permutation of the source with the keys in ascending order |
| Ordering.OrderByDescendingKeys | src/transformers/orderByDescending.ts:6-12 | `orderByDescending`: a traversal is a permutation of the source with the keys in descending order |
| Ordering.ThenByOrder | src/transformers/thenBy.ts:5-10 | after `thenBy`, a traversal is a permutation still in the earlier chain's order, and within each run the earlier chain ties it is in the new key's order |
| Ordering.OrderedIterable.constructor | src/transformers/helpers/OrderedIterable.ts:17-36 | an ordered sequence keeps its source and its comparer chain |
| Ordering.OrderedIterable.Traverse | src/transformers/helpers/OrderedIterable.ts:21-32 | each traversal opens the source once and yields that traversal's elements in the built comparer's order |
| Ordering.OrderedIterable.ToJson | src/transformers/helpers/OrderedIterable.ts:37-39 | `toJSON()` is one further traversal |
| Ordering.OrderedIterable.CreateNewFrom | src/transformers/helpers/OrderedIterable.ts:40-44 | creates a new ordered sequence over the same source whose chain has one more step; the original is unchanged |
| Ordering.OrderBy | src/transformers/orderBy.ts:6-9 | `orderBy` orders its source by one ascending key step |
| Ordering.OrderByDescending | src/transformers/orderByDescending.ts:6-12 | `orderByDescending` orders its source by one descending key step |
| Ordering.ThenBy | src/transformers/thenBy.ts:5-10 | `thenBy` gives a new ordered sequence over the same source with an ascending key step appended |
| Ordering.ThenByDescending | src/transformers/thenByDescending.ts:4-9 | `thenByDescending` gives a new ordered sequence over the same source with a descending key step appended |
| Ordering.ToJsonMatchesTraversal | src/__tests__/index.test.ts:253-260 | over a pure source `toJSON()` and a spread traversal give the same ordered list |
| Ordering.DescendingThree | src/transformers/helpers/OrderedIterable.ts:21-32 | ordered descending by value, [n, n+1, n+2] comes out reversed |
| Ordering.TraverseCountingDescending | src/transformers/helpers/OrderedIterable.ts:21-32 | a traversal of the impure source ordered descending sorts whatever that traversal of the source yields |
| Ordering.RecomputedEachTraversal | src/transformers/helpers/OrderedIterable.ts:21-32 | the sort is redone on every traversal: over the impure source two traversals give [2,1,0] then [3,2,1] |
| Ordering.DescendingSwaps | src/__tests__/index.test.ts:223-229 | `orderByDescending` on [1,2] gives [2,1] |
| Ordering.DescendingKeeps | src/__tests__/index.test.ts:230-236 | `orderByDescending` on [2,1] gives [2,1] |
| Ordering.DescendingTies | src/__tests__/index.test.ts:237-243 | `orderByDescending` on [0,0] gives [0,0] |
| Ordering.EqualKeysKeepOrder | src/__tests__/index.test.ts:245-251 | a hundred rows with equal keys, ordered by that key, keep their order 0..99 |
| Ordering.TwoKeysDescendingExample | src/__tests__/index.test.ts:167-185 | `orderByDescending(a)` then `thenByDescending(b)` orders (1,1),(1,2),(2,1),(2,2) as (2,2),(2,1),(1,2),(1,1) |
| Ordering.ThreeSteps | src/transformers/thenBy.ts:5-10 | in a three-step chain each later step decides only where all earlier steps tie |
| Ordering.DatesExample | src/__tests__/index.test.ts:187-222 | ordering the test's dates by year, month and day gives the expected list, with the two equal dates in their source order; ordering that list descending gives the expected reverse |
| Ordering.UnwrapIndexedOrder | src/transformers/unwrapIndexed.ts:39-45 | `unwrapIndexed` yields every value once, in increasing order of its stored index |
| Ordering.UnwrapIndexedRestores | src/transformers/unwrapIndexed.ts:39-45 | `unwrapIndexed(indexed(s))` is `s` |
| Ordering.UnwrapThree | src/transformers/unwrapIndexed.ts:39-45 | values stored at indices 1, 0, 2 unwrap to the order 0, 1, 2 |
| Ordering.UnwrapIndexedExample | src/__tests__/index.test.ts:1289-1301 | ["beta",1], ["alpha",0], ["gamma",2] unwrap to ["alpha","beta","gamma"] |
| Grouping.TraverseGroup | src/transformers/groupBy.ts:11-20 | iterating a group yields exactly its bucket, in order |
| Grouping.MembersOf | src/transformers/groupBy.ts:29-32 | the members of every group, one list per group, in group order |
| Grouping.IdentityBucket | src/transformers/groupBy.ts:27 | with each element as its own value, a bucket is the source filtered by the bucket's key |
| Grouping.GroupByKeys | src/transformers/groupBy.ts:22-33 | `groupBy` yields one group per distinct key, in order of each key's first occurrence, and no two groups share a key |
| Grouping.GroupByMembers | src/transformers/groupBy.ts:22-33 | each group holds exactly the elements with its key, in source order, and is never empty |
| Grouping.GroupByPartition | src/transformers/groupBy.ts:22-33 | the members of all groups together are a permutation of the source, so every element is in exactly one group |
| Grouping.GroupBy | src/transformers/groupBy.ts:22-33 | `groupBy` reads its source once, at call time, and every traversal of the result yields the same groups of that reading |
| Grouping.GroupByBuiltOnce | src/transformers/groupBy.ts:27 | over the impure source the groups are built from its first traversal only: two traversals of the result agree and the source was opened once |
| Grouping.ParityGroups | src/__tests__/index.test.ts:802-820 | `range(0, 2)` grouped by parity gives the group of 0 holding 0 and the group of 1 holding 1 |
| Grouping.KeyedMembers | src/__tests__/index.test.ts:806-811 | pairs every member of a group with the group's key |
| Grouping.GroupByExample | src/__tests__/index.test.ts:802-820 | grouping `range(0, 2)` by parity and flattening with the keys gives [[0,0],[1,1]] on both traversals |
| Grouping.FirstKept | src/transformers/deduplicateBy.ts:36 | the first element of a filtered group is the element at the first position that passes the filter |
| Grouping.FirstsAreDistinct | src/transformers/deduplicateBy.ts:33-37 | every group is non-empty, and the first members of the groups, in group order, are exactly what `distinctBy` keeps |
| Grouping.DeduplicatedBy | src/transformers/deduplicateBy.ts:29-38 | `deduplicateBy` (first of every group) yields exactly what `distinctBy` yields |
| Grouping.DeduplicateByKeys | src/transformers/deduplicateBy.ts:29-38 | `deduplicateBy` keeps one element per distinct key, the first with that key, in source order, and no two kept elements share a key |
| Grouping.DeduplicateBy | src/transformers/deduplicateBy.ts:29-38 | reads its source once, at call time, and every traversal of the result yields the first element of every key |
| Grouping.DeduplicateByExample | src/__tests__/index.test.ts:153-166 | de-duplicating entries with ids 1, 1, 2, 2 by id keeps the first and the third |
| Grouping.GroupedAdjacent | src/implemenation/groupAdjacent.ts:21-48 | a traversal of `groupAdjacent` yields one result per group |
| Grouping.Repeat | src/implemenation/groupAdjacent.ts:34-35 | n copies of a key |
| Grouping.RunsPush | src/implemenation/groupAdjacent.ts:37-39 | yielding a group adds its members, and as many copies of its key, at the end |
| Grouping.RunsExtend | src/implemenation/groupAdjacent.ts:34-35 | adding an element to the group in progress adds it, and its key, at the end |
| Grouping.RunsMerge | src/implemenation/groupAdjacent.ts:34-35 | an element whose key equals the group in progress joins that group, which is the last group |
| Grouping.RunsNew | src/implemenation/groupAdjacent.ts:36-42 | any other element starts a group of its own, which is yielded only if its key is defined |
| Grouping.AdjacentRunsCover | src/implemenation/groupAdjacent.ts:30-46 | the yielded groups hold exactly the projections of the elements whose key is defined, with those keys, in source order, and no group is empty |
| Grouping.AllDefinedElements | src/implemenation/groupAdjacent.ts:33 | with every key defined, the defined projections are the whole projected source |
| Grouping.AdjacentInProgress | src/implemenation/groupAdjacent.ts:44-46 | with every key defined there is always a group in progress, and the final yield emits it as the last group |
| Grouping.AdjacentKeysDiffer | src/implemenation/groupAdjacent.ts:34-42 | with every key defined, two neighbouring groups never have equal keys |
| Grouping.AdjacentRunsMaximal | src/implemenation/groupAdjacent.ts:6-49 | with every key defined the groups are the maximal runs of equal keys: together they are the projected source in order, none is empty, and neighbours differ in key |
| Grouping.GroupAdjacent | src/implemenation/groupAdjacent.ts:21-48 | the generator loop opens the source once and yields exactly the result selector applied to each group |
| Grouping.GroupAdjacentRuns | src/__tests__/index.test.ts:1302-1319 | [1,1,2,2,2,3,3,3,3,2,2] gives the runs [1,1], [2,2,2], [3,3,3,3], [2,2] |
| Grouping.GroupAdjacentExample | src/__tests__/index.test.ts:1302-1319 | one traversal of `groupAdjacent` over that input yields those four runs |
| Joins.GroupJoined | src/transformers/groupJoin.ts:19-28 | one traversal of `groupJoin` yields one result per outer element, in order: the selector applied to the element and the bucket of its key, or `[]` when the lookup has none |
| Joins.GroupJoinBuckets | src/transformers/groupJoin.ts:16-26 | with the lookup built from the inner source, each outer element is paired with exactly the inner elements whose key equals its own, in inner order, and with `[]` when no inner element has its key |
| Joins.GroupJoinIterable.constructor | src/transformers/groupJoin.ts:19 | the iterable keeps the outer source, the lookup and both callbacks |
| Joins.GroupJoinIterable.Traverse | src/transformers/groupJoin.ts:19-28 | each traversal opens the outer source once more and yields the group join of that traversal's elements |
| Joins.GroupJoin | src/transformers/groupJoin.ts:7-29 | the inner source is read once, at the call, into the lookup; the outer source is not opened until the result is traversed |
| Joins.BucketRows | src/transformers/join.ts:28 | the rows `join` makes from one bucket are the rows a nested loop over the inner source makes for that outer element |
| Joins.JoinIsNestedLoop | src/transformers/join.ts:8-30 | `join` yields exactly what two nested loops yield: for each outer element in order, one row per inner element with an equal key, in inner order |
| Joins.MatchesCount | src/transformers/join.ts:28 | an outer element makes as many rows as there are inner elements with its key, and none when no inner element has it |
| Joins.JoinCount | src/transformers/join.ts:8-30 | the join has one row per matching (outer, inner) pair |
| Joins.JoinTraversal | src/transformers/join.ts:16-29 | a traversal of `join` opens the outer source once and yields the group join's pairs expanded into their rows |
| Joins.LeftBucketRows | src/transformers/leftOuterJoin.ts:29-31 | after `defaultIfEmpty`, the rows of a bucket are the matches of the nested loop, or one row with `undefined` when there are none |
| Joins.LeftJoinIsNestedLoop | src/transformers/leftOuterJoin.ts:9-33 | `leftOuterJoin` yields exactly the nested-loop left join: each outer element's matches in inner order, or one `undefined` row when it has none |
| Joins.LeftJoinCount | src/transformers/leftOuterJoin.ts:9-33 | the left join has the inner join's rows plus one row per unmatched outer element, so never fewer rows than outer elements |
| Joins.LeftJoinTraversal | src/transformers/leftOuterJoin.ts:17-32 | a traversal of `leftOuterJoin` opens the outer source once and yields the left-join rows of its pairs |
| Joins.FullOuterGroupJoined | src/transformers/fullOuterGroupJoin.ts:23-32 | one result per key, in key order, from the selector applied to the key's left bucket, its right bucket and the key, with `[]` for a missing bucket |
| Joins.DistinctOfNoRepeats | src/transformers/fullOuterGroupJoin.ts:21 | `distinct()` leaves a list without repeats unchanged |
| Joins.DistinctOfConcat | src/transformers/fullOuterGroupJoin.ts:21 | `distinct()` of two repeat-free lists is the first list followed by the values of the second that the first lacks |
| Joins.DistinctHasNoRepeats | src/transformers/fullOuterGroupJoin.ts:21 | `distinct()` leaves no value twice |
| Joins.LookupKeys | src/transformers/fullOuterGroupJoin.ts:18-20 | the keys of a lookup have no repeats and are exactly the keys some element has |
| Joins.GetIsFilter | src/transformers/fullOuterGroupJoin.ts:25-29 | `lookup.get(key) \|\| []` is the elements with that key, and `[]` when none has it |
| Joins.FullOuterKeys | src/transformers/fullOuterGroupJoin.ts:18-21 | the keys are the left keys in first-occurrence order, then the right keys the left lacks; none repeats, and a key is there exactly when some element of either side has it |
| Joins.FullOuterGroupJoinBuckets | src/transformers/fullOuterGroupJoin.ts:9-33 | for every key of either side, the selector receives exactly the left and right elements with that key, `[]` for a side without it |
| Joins.FullOuterGroupJoin | src/transformers/fullOuterGroupJoin.ts:9-33 | both sources are read once, at the call, the left first; every traversal of the result yields the same groups |
| Joins.BlockIndex | src/transformers/fullOuterJoin.ts:30 | a position inside block `a` of `n` blocks of size `c` is inside the whole list |
| Joins.Offset | src/transformers/fullOuterJoin.ts:30 | the position of element `b` of block `a` lies inside the list of `n` blocks |
| Joins.FlatMappedUniform | src/transformers/fullOuterJoin.ts:30 | a `selectMany` whose projections all have `c` elements has `c` rows per element, block `a` holding the projection of element `a` |
| Joins.CrossShape | src/transformers/fullOuterJoin.ts:26-31 | a key makes one row for every pairing of its left bucket (or `undefined`) with its right bucket (or `undefined`), left-major |
| Joins.FullOuterJoinRows | src/transformers/fullOuterJoin.ts:12-36 | `fullOuterJoin` is the flattening, in key order, of each key's cross rows over exactly its left and right elements |
| Joins.FullOuterJoin | src/transformers/fullOuterJoin.ts:12-36 | both sources are read once, at the call; every traversal of the result yields the same rows |
| Joins.NestedLoopOfPeople | src/__tests__/index.test.ts:986-1036 | over the test's people the nested loop pairs chris with two surnames and andrew with one |
| Joins.JoinExample | src/__tests__/index.test.ts:986-1036 | `join` over the test's people yields "chris sperry", "chris pike", "andrew johnson" |
| Joins.NestedLeftLoopOfPeople | src/__tests__/index.test.ts:1038-1089 | the left nested loop adds one `undefined` row for the unmatched outer entry |
| Joins.LeftOuterJoinExample | src/__tests__/index.test.ts:1038-1089 | `leftOuterJoin` over the test's people yields the three join rows and "not relevant no match" |
| Joins.RepeatedBuckets | src/__tests__/index.test.ts:830-869 | `range(0, 5)` group-joined with [3, 3, 4, 4] gives empty buckets for 0 to 2 and [3, 3] and [4, 4] for 3 and 4 |
| Joins.GroupJoinExample | src/__tests__/index.test.ts:830-869 | two traversals of that group join agree, and the inner source is read once |
| Joins.PairKeys | src/transformers/fullOuterGroupJoin.ts:21 | the keys of [0, 1] and [1, 2] are 0, 1, 2 |
| Joins.PairGroups | src/__tests__/index.test.ts:911-961 | in a full outer group join of [0, 1] and [1, 2], 0 has only a left bucket, 1 both, 2 only a right bucket |
| Joins.FullOuterJoinPairs | src/__tests__/index.test.ts:962-984 | the full outer join of [0, 1] and [1, 2] pairs 0 with `undefined`, 1 with 1, and `undefined` with 2 |
| Joins.FullOuterJoinExample | src/__tests__/index.test.ts:962-984 | one traversal of that full outer join over two arrays yields those three rows |
| CustomSort.FilteredSnoc | typedoc-plugins/custom-sort.js:266 | filtering one more item keeps it exactly when it matches |
| CustomSort.FilteredMatches | typedoc-plugins/custom-sort.js:266-269 | every item `filter` keeps matches, and it keeps nothing exactly when no item matches |
| CustomSort.FilteredUniform | typedoc-plugins/custom-sort.js:324-330 | `filter` keeps a list all of whose items match, and nothing of a list none of whose items match |
| CustomSort.FilteredPrefix | typedoc-plugins/custom-sort.js:275-285 | what a filter keeps from a prefix is a prefix of what it keeps from the whole list |
| CustomSort.PartitionedSnoc | typedoc-plugins/custom-sort.js:324-330 | one more item goes to the end of the matching part when it matches and to the end of the others otherwise |
| CustomSort.PartitionedProperties | typedoc-plugins/custom-sort.js:321-336 | the partition has the source's items and length, the matching items first and the others after |
| CustomSort.PartitionedPermutes | typedoc-plugins/custom-sort.js:336 | the partition is a permutation of the source |
| CustomSort.PartitionedFixed | typedoc-plugins/custom-sort.js:337-343 | the partition equals the source exactly when no failing item comes before a matching one |
| CustomSort.PartitionedFixedBack | typedoc-plugins/custom-sort.js:337-343 | a source whose matching items already come first is its own partition |
| CustomSort.MatchesFirstPrefix | typedoc-plugins/custom-sort.js:337-343 | a prefix of a list whose matching items come first has its matching items first too |
| CustomSort.AllMatchBefore | typedoc-plugins/custom-sort.js:337-343 | in such a list, every item before a matching last item matches |
| CustomSort.PartitionedLast | typedoc-plugins/custom-sort.js:337-343 | a list is its own partition when its prefix is and a matching last item has only matching items before it |
| CustomSort.PrioritizeSubset | typedoc-plugins/custom-sort.js:316-344 | `undefined` exactly for fewer than two items, no matching item, or matching items already first; otherwise the matching items then the others, each in source order |
| CustomSort.PrioritizeOutcome | typedoc-plugins/custom-sort.js:332-343 | with some matching item the partition has the source's length and equals it exactly when the matching items come first |
| CustomSort.PrioritizedIsStable | typedoc-plugins/custom-sort.js:316-344 | prioritizing is idempotent: a prioritized list has its matching items first and is left as it is |
| CustomSort.OrderedPermutes | typedoc-plugins/custom-sort.js:271 | the sort of the targets permutes them |
| CustomSort.PermutedMatches | typedoc-plugins/custom-sort.js:271 | every item of the sorted targets matches |
| CustomSort.AgreesSnoc | typedoc-plugins/custom-sort.js:275-285 | the agreement between the new list and the source (same matching positions, same other items) extends item by item |
| CustomSort.RefillUnique | typedoc-plugins/custom-sort.js:275-285 | there is exactly one list that keeps the source's other items in place and puts the sorted targets, in order, at the matching positions |
| CustomSort.AgreesPrefix | typedoc-plugins/custom-sort.js:275-285 | agreement holds of prefixes |
| CustomSort.ReorderSubset | typedoc-plugins/custom-sort.js:265-288 | `undefined` exactly when there are at most one target or the targets are already in sorted order; otherwise the source with other items in place and the sorted targets at the target positions |
| CustomSort.FilteredStep | typedoc-plugins/custom-sort.js:266 | filtering a prefix one item longer keeps that item exactly when it matches |
| CustomSort.Refill | typedoc-plugins/custom-sort.js:272-285 | the `map` puts the sorted targets into the target positions in order, and sets `mutated` exactly when the sorted targets differ from the targets |
| CustomSort.RefillStep | typedoc-plugins/custom-sort.js:275-285 | one step of the `map` keeps its state: other items copied, the next sorted target put in, `mutated` raised on a change |
| CustomSort.TargetStep | typedoc-plugins/custom-sort.js:275-280 | a matching item of the source is the next target |
| CustomSort.ReplacementStep | typedoc-plugins/custom-sort.js:280 | putting the next sorted target in extends the targets put in so far by it |
| CustomSort.ReorderedInOrder | typedoc-plugins/custom-sort.js:271 | with a total preorder, the sorted targets are a permutation of the targets in order, and targets already in order are left as they are |
| CustomSort.ShouldSort | typedoc-plugins/custom-sort.js:390-402 | true exactly when the reflection is present, its kind is a number, and that kind shares a bit, modulo 2^32, with some selected kind |
| CustomSort.SelectedProperties | typedoc-plugins/custom-sort.js:395-399 | the bit test ignores multiples of 2^32, never selects kind 0, selects nothing with no kinds, and a kind selects itself exactly when it is not 0 modulo 2^32 |
| CustomSort.Pow2 | typedoc-plugins/custom-sort.js:396 | a power of two is positive |
| CustomSort.Pow2Of32 | typedoc-plugins/custom-sort.js:396 | 2^32 is 0x1_0000_0000 |
| CustomSort.NoBitOfZero | typedoc-plugins/custom-sort.js:396 | zero has no bit in common with anything |
| CustomSort.CommonBitSelf | typedoc-plugins/custom-sort.js:396 | a number below 2^width has a set bit among its lowest `width` bits exactly when it is not zero |
| CustomSort.SelectedGrows | typedoc-plugins/custom-sort.js:395-399 | selecting more kinds keeps every reflection that was selected |
| CustomSort.RanksOf | typedoc-plugins/custom-sort.js:409-412 | a name is ranked exactly when it is preferred, and its rank is the last index it appears at |
| CustomSort.RankMap | typedoc-plugins/custom-sort.js:409-412 | the `forEach` builds exactly those ranks |
| CustomSort.RanksDistinct | typedoc-plugins/custom-sort.js:409-412 | two different ranked names have different ranks |
| CustomSort.CompareNames | typedoc-plugins/custom-sort.js:414-444 | ranked names come before unranked ones and order by rank; on a tie with `underscoreLast`, a name starting with `_` comes after one that does not; otherwise the string order decides |
| CustomSort.CompareIsChain | typedoc-plugins/custom-sort.js:414-444 | the comparator is the chain rank, then underscore, then string order, each consulted only where the earlier ones tie |
| CustomSort.StepsPreorder | typedoc-plugins/custom-sort.js:418-441 | the rank decision and the underscore decision are each total preorders |
| CustomSort.ComparatorPreorder | typedoc-plugins/custom-sort.js:414-444 | with a string order that is a total preorder, the comparator is one, on names and on reflections |
| CustomSort.SamePreorder | typedoc-plugins/custom-sort.js:414-444 | a comparer that agrees everywhere with a total preorder is one |
| CustomSort.CreateComparator | typedoc-plugins/custom-sort.js:408-445 | returns the comparator over the ranks of the preferred names, a total preorder when the string order is |
| CustomSort.ComparatorExample | typedoc-plugins/custom-sort.js:414-444 | with `pipe` then `from` preferred: `pipe` before `from`, `from` before the unranked `map`, `_zip` after `map` when `underscoreLast` is set, and string order otherwise |
| CustomSort.EvensPartition | typedoc-plugins/custom-sort.js:316-344 | prioritizing the even items of [1, 2, 3, 4] gives [2, 4, 1, 3] |
| Comparers.Reflexive | src/transformers/orderBy.ts:7 | a comparer that is a total preorder ties every key with itself |
| Comparers.StrictBeforeWeak | src/transformers/orderBy.ts:7 | in a total preorder, "not after" followed by "before" is "before" |
| Comparers.StrictThenWeak | src/transformers/orderBy.ts:7 | in a total preorder, "before" followed by "not after" is "before" |
| Comparers.TiesChain | src/transformers/orderBy.ts:7 | in a total preorder, ties are transitive |
| Comparers.IntCompare | src/transformers/maxBy.ts:1 | the default comparer on numbers is negative, zero or positive exactly as the first number is less than, equal to or greater than the second |
| Comparers.IntComparePreorder | src/transformers/maxBy.ts:1 | the default comparer on numbers is a total preorder |
| Ordering.UnwrapIndexed | src/transformers/unwrapIndexed.ts:39-45 | one traversal of `unwrapIndexed`: the pairs ordered by their stored index, then their values; `UnwrapIndexedOrder` proves every value comes out once, in order of its stored index, and `UnwrapIndexedRestores` that it undoes `indexed` |
| Distinct.DistinctBy | src/transformers/distinctBy.ts:7-25 | one traversal of `distinctBy`: every element whose key was not seen before, in source order; `DistinctPositions`, `DistinctKeys` and `DistinctByCount` prove it keeps exactly the first element of each key |
| Materialize.LookupOf | src/transformers/toLookup.ts:59-69 | the map `_toLookup` builds in one pass: a new key is appended, and each element's value is pushed onto its key's bucket; `LookupValid`, `LookupBuckets`, `LookupKeyOrder` and `LookupPartition` prove what it holds |
| Materialize.MapFrom | src/transformers/toMap.ts:57-66 | the `_toMap` loop over a value selector that may be `undefined`, with the index it receives shifted: a repeated key fails with "duplicate key" before the value is computed; `MapFromOutcome` and `MapFromEntries` prove its outcome |
| Materialize.ToMapAsWritten | src/transformers/toMap.ts:41-67 | `_toMap` as written: the overload resolution of lines 47-51, then the loop with the value selector given `i + 1` |
| Materialize.ToMapIntended | src/transformers/toMap.ts:41-67 | `_toMap` as documented: the identity when there is no value selector, and both selectors given the element's index; `ToMapIntendedContract` proves its contract |
| Grouping.GroupsOf | src/transformers/groupBy.ts:22-33 | the groups `_groupBy` yields: one per lookup key, in the lookup's order, holding that key's bucket; `GroupByKeys`, `GroupByMembers` and `GroupByPartition` prove what they are |
| Grouping.AdjacentStep | src/implemenation/groupAdjacent.ts:30-43 | one step of the `groupAdjacent` loop: an element whose key equals the group in progress joins it; otherwise that group is yielded if its key is defined, and a new group starts |
| Grouping.AdjacentRuns | src/implemenation/groupAdjacent.ts:30-46 | the groups of one traversal: those yielded in the loop, then the group still in progress if its key is defined; `AdjacentRunsCover` and `AdjacentRunsMaximal` prove they are the maximal runs of equal keys |
| Joins.Joined | src/transformers/join.ts:16-29 | one traversal of `join`: the group join's (outer, bucket) pairs, each expanded into one row per bucket element; `JoinIsNestedLoop` proves it equals a nested loop |
| Joins.LeftJoined | src/transformers/leftOuterJoin.ts:17-32 | one traversal of `leftOuterJoin`: each pair's bucket, or `[undefined]` when it is empty, expanded into rows; `LeftJoinIsNestedLoop` proves it equals a nested-loop left join |
| Joins.AllKeys | src/transformers/fullOuterGroupJoin.ts:20-21 | `allKeys`: the left lookup's keys followed by the right lookup's keys, through `distinct()`; `FullOuterKeys` proves each key of either side appears exactly once |
| Joins.CrossRows | src/transformers/fullOuterJoin.ts:26-31 | the selector `_fullOuterJoin` hands to `fullOuterGroupJoin`: every pairing of the left bucket (or `undefined`) with the right bucket (or `undefined`); `CrossShape` proves its shape |
| Joins.FullOuterJoined | src/transformers/fullOuterJoin.ts:20-35 | one traversal of `fullOuterJoin`: the cross rows of each key, flattened; `FullOuterJoinRows` proves what they hold |
| Folds.Folded | src/transformers/aggregate.ts:33-38 | the accumulator after feeding each element and its index to the aggregator, from the seed; `Aggregate` is the loop proved equal to it, and `FoldedConcat` and `FoldedStep` state how it splits |
| MinMax.Step | src/implemenation/helpers/minMaxByImpl.ts:14-27 | one step of the loop: push while the best key is `undefined`, otherwise restart on a greater key, push on a tie, and ignore a smaller key |
| MinMax.BestOf | src/implemenation/helpers/minMaxByImpl.ts:10-28 | the loop state after the whole source; `BestOfNonEmpty`, `AllUndefinedKeepsEverything` and `BestIsMaximum` prove what it holds |
| Elements.ElementOrThrow | src/transformers/first.ts:7-11 | the element at the matching position, or "sequence contains no elements" when there is none; `First` and `Last` are the loops proved to return it at `FirstMatch` and `LastMatch` |
| Pairs.ElementsEqual | src/transformers/sequenceEqual.ts:33-39 | two elements are equal only when neither is `undefined` and the comparer (or `===`) accepts them |
| Pairs.SequencesEqual | src/transformers/sequenceEqual.ts:42-54 | the two traversals have the same length and are pairwise equal; `SequenceEqual` is the two-cursor loop proved to return it |
| Ordering.Build | src/transformers/helpers/OrderedIterable.ts:18 | `comparerBuilder.build()`: the first step of the chain that does not tie decides; `FirstDecision`, `ThenOnlyBreaksTies` and `ChainPreorder` state its meaning |
| Ordering.Ascending | src/transformers/orderBy.ts:7 | `sortKey(selector)`: compares the two elements' keys; `KeyComparers` proves it a total preorder over one on keys |
| Ordering.Descending | src/transformers/orderByDescending.ts:10 | `sortKeyDescending(selector)`: compares the keys the other way round; `KeyComparers` proves it has the opposite sign to `Ascending` |
| Ordering.ComparePairs | src/transformers/helpers/OrderedIterable.ts:23-26 | the comparator handed to `sort`: the built comparer on the values, and ties broken by index; `PairOrder` proves it antisymmetric and transitive, tying only equal positions |
| CustomSort.Partitioned | typedoc-plugins/custom-sort.js:321-336 | the list `prioritizeSubset` builds: the matching items, then the others, each in source order; `PartitionedProperties`, `PartitionedFixed` and `PrioritizedIsStable` prove its meaning |
| CustomSort.SharesBit | typedoc-plugins/custom-sort.js:396 | `(a & b) !== 0` on the 32-bit images of the two numbers; `SelectedProperties`, `NoBitOfZero` and `CommonBitSelf` state its behaviour |
| CustomSort.Selected | typedoc-plugins/custom-sort.js:395-399 | some selected kind shares a bit with the reflection's kind; `ShouldSort` is the loop proved to compute it |
| CustomSort.GetName | typedoc-plugins/custom-sort.js:450-452 | the reflection's name, or `""` when its name is not a string |
| CustomSort.Comparator | typedoc-plugins/custom-sort.js:414-444 | the closure `createComparator` returns: `NameComparer` (rank, then underscore, then `localeCompare`, as `CompareNames` states) on the two reflections' names; `ComparatorPreorder` proves it a total preorder when the string order is one |

## Left out

- Exceptions thrown by callbacks (selectors, predicates, comparers): callbacks are total functions here.
- Custom equality comparers and map or set factories (`ts-equality-comparer`, `ts-hashmap`): keys are compared with `==`, and the factories are only carried through overload resolution.
- The `memoize` wrapper that `orderBy` puts around its key selector: it changes how often the selector is called, never a result. `Memoize.Memo` models `memoize` on its own.
- Floating-point numbers: counts and indexes are integers. `average` and `sum` are not part of this model. `range` checks integrality on `real` arguments.
- `localeCompare` in `createComparator`: a parameter, assumed a total preorder where that is needed.
- The engine's `Array.prototype.sort`: specified by its result. `Ordering.Sort` is one sort with that result.
- `maxBy` and `minBy`: their wrappers call a helper that is not part of this model. The shown `src/implemenation/helpers/minMaxByImpl.ts` is modelled instead.
- The stale copies under `src/implemenation/`, other than `groupAdjacent.ts` and `helpers/minMaxByImpl.ts`: the `src/transformers/` versions are modelled.
- `toJSON` on a `groupBy` group (`src/__tests__/index.test.ts:828`): a group is modelled by its members only.
- The TypeDoc wiring of `custom-sort.js` is plumbing over TypeDoc's object model. This covers `load`, `buildOptions`, `resolveKinds`, `applyCustomSort`, `prioritizeGroups`, `prioritizeCategories`, `shouldPrioritizeGroup`, `shouldPrioritizeCategory` and the `!Array.isArray` guards.
- `typedoc-plugins/reclassify-callables.js`: it consists of TypeDoc class tests and hooks, and its list logic is `reorderSubset`'s.
- `zipAll`, `zipMap`, `zipAllToTuple` and `cartesian`: their element behaviour is `zip`'s and `flatMap`'s.
- `union`, `intersect`, `distinct` (except inside `fullOuterGroupJoin`), `isSubsetOf` and `isSupersetOf`: these are membership tests over an external set.
- One-line aliases such as `where`, `select`, `selectMany` and `flatten`: each is the modelled operator under another name.
- `toObject`, `toPrettyJson` and the `Math.random` tests: these are thin wrappers over JavaScript built-ins.
- Laziness as such, meaning generator suspension and the interleaving of callbacks across operators: every traversal is modelled as its finished list.
- Distinct.Excepted: its contract states membership in both directions and leaves the order of the kept elements to `KeptPositions`, rather than stating the order in the contract itself.
- Materialize.ToMapExamples: the first example only states that it succeeds, not the map it builds.

## Findings

| source | as written | input that shows it | evidently intended | confidence | as-written member | corrected member |
|---|---|---|---|---|---|---|
| src/transformers/toMap.ts:47-51 | with a key selector but neither a value selector nor a factory, the value selector is `undefined`, and calling it on the first element throws a TypeError | `_toMap([7], x => x)` | the documented overload returns a `Map` from each key to its element | not executed | Materialize.ToMapWithoutSelectorThrows | Materialize.ToMapIntendedContract |
| src/transformers/toMap.ts:60-64 | the loop bumps the index before calling the value selector, so the value selector gets `i + 1` while the key selector got `i` | `_toMap([7], x => x, (_, i) => i)` maps 7 to 1 | both selectors receive the element's position, so 7 maps to 0 | not executed | Materialize.ToMapIndexShifted | Materialize.ToMapIntendedContract |
