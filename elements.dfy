/**
 * Element access: first, firstOrDefault, last, single, singleOrDefault and elementAt.
 *
 * The throwing forms return `Failure`; the `OrDefault` forms return `None` (`undefined`) where
 * the throwing form would report that nothing matched.
 */
module Elements {
  import opened Wrappers
  import opened Projection
  import opened Slicing
  import opened Folds

  /** The position of the first element that passes `p`, if any. */
  function FirstMatch<T>(s: seq<T>, p: (T, nat) -> bool): (r: Option<nat>)
    ensures r.Some? ==> r.value < |s| && p(s[r.value], r.value)
    ensures r.Some? ==> forall j :: 0 <= j < r.value ==> !p(s[j], j)
    ensures r.None? ==> forall j :: 0 <= j < |s| ==> !p(s[j], j)
  {
    var k := FirstFailure(s, Not(p), 0);
    if k < |s| then Some(k) else None
  }

  /** The position of the last element that passes `p`, if any. */
  function LastMatch<T>(s: seq<T>, p: (T, nat) -> bool): (r: Option<nat>)
    ensures r.Some? ==> r.value < |s| && p(s[r.value], r.value)
    ensures r.Some? ==> forall j :: r.value < j < |s| ==> !p(s[j], j)
    ensures r.None? ==> forall j :: 0 <= j < |s| ==> !p(s[j], j)
  {
    if |s| == 0 then None
    else if p(s[|s| - 1], |s| - 1) then Some(|s| - 1)
    else LastMatch(s[..|s| - 1], p)
  }

  /** The element at an optional position; `NoElements` when there is none. */
  function ElementOrThrow<T>(s: seq<T>, pos: Option<nat>): Result<T>
    requires pos.Some? ==> pos.value < |s|
  {
    if pos.Some? then Success(s[pos.value]) else Failure(NoElements)
  }

  /** `first(src, pred)`: walks `indexed(src)` and returns the first element that passes. */
  method First<T>(src: seq<T>, pred: (T, nat) -> bool) returns (r: Result<T>)
    ensures r == ElementOrThrow(src, FirstMatch(src, pred))
  {
    var s := Indexed(src);
    var k := 0;
    while k < |s|
      invariant 0 <= k <= |s|
      invariant forall j :: 0 <= j < k ==> !pred(src[j], j)
    {
      var (x, i) := s[k];
      if pred(x, i) {
        return Success(x);
      }
      k := k + 1;
    }
    return Failure(NoElements);
  }

  /** `firstOrDefault(src, pred)`: the first element that passes, or `undefined`. */
  method FirstOrDefault<T>(src: seq<T>, pred: (T, nat) -> bool) returns (r: Option<T>)
    ensures r.Some? <==> FirstMatch(src, pred).Some?
    ensures r.Some? ==> r.value == src[FirstMatch(src, pred).value]
  {
    var i := 0;
    while i < |src|
      invariant 0 <= i <= |src|
      invariant forall j :: 0 <= j < i ==> !pred(src[j], j)
    {
      if pred(src[i], i) {
        return Some(src[i]);
      }
      i := i + 1;
    }
    return None;
  }

  /** `last(src, pred)`: walks the whole source, remembering the latest element that passed. */
  method Last<T>(src: seq<T>, pred: (T, nat) -> bool) returns (r: Result<T>)
    ensures r == ElementOrThrow(src, LastMatch(src, pred))
  {
    var container: Option<T> := None;
    var i := 0;
    while i < |src|
      invariant 0 <= i <= |src|
      invariant container.None? <==> LastMatch(src[..i], pred).None?
      invariant container.Some? ==> container.value == src[LastMatch(src[..i], pred).value]
    {
      assert src[..i + 1][..i] == src[..i];
      if pred(src[i], i) {
        container := Some(src[i]);
      }
      i := i + 1;
    }
    assert src[..i] == src;
    if container.Some? {
      r := Success(container.value);
    } else {
      r := Failure(NoElements);
    }
  }

  /** The library's first/last examples over `range(0, 3)`. */
  lemma FirstLastExamples()
    ensures ElementOrThrow([0, 1, 2], FirstMatch([0, 1, 2], (x: int, _: nat) => x > 0)) == Success(1)
    ensures ElementOrThrow([0, 1, 2], FirstMatch([0, 1, 2], (x: int, _: nat) => x > 2)) == Failure(NoElements)
    ensures ElementOrThrow([0, 1, 2], LastMatch([0, 1, 2], (x: int, _: nat) => x < 2)) == Success(1)
    ensures ElementOrThrow([0, 1, 2], LastMatch([0, 1, 2], (_: int, _: nat) => true)) == Success(2)
  {
    assert [0, 1, 2][..2] == [0, 1];
  }

  // ---------------------------------------------------------------- single / singleOrDefault

  /**
   * One call of `single(src, pred)`: the one element that passes; "no elements" when none does;
   * "more than one element" as soon as a second one does.
   */
  function SingleMatch<T>(s: seq<T>, p: (T, nat) -> bool): (r: Result<T>)
    ensures r.Success? <==> CountOf(s, p) == 1
    ensures r.Failure? ==> r.error == (if CountOf(s, p) == 0 then NoElements else MoreThanOneElement)
    ensures r.Success? ==> exists i :: 0 <= i < |s| && p(s[i], i) && r.value == s[i]
  {
    var c := CountOf(s, p);
    if c == 0 then Failure(NoElements)
    else if c > 1 then Failure(MoreThanOneElement)
    else
      var m := LastMatch(s, p);
      if m.None? then
        CountOfNone(s, p);
        assert false;
        Failure(NoElements)
      else
        Success(s[m.value])
  }

  /** `single(src, pred)`: counts matches, throwing at the second one. */
  method Single<T>(src: seq<T>, pred: (T, nat) -> bool) returns (r: Result<T>)
    ensures r == SingleMatch(src, pred)
  {
    var itemCount := 0;
    var found: Option<T> := None;
    var i := 0;
    while i < |src|
      invariant 0 <= i <= |src|
      invariant itemCount == CountOf(src[..i], pred) <= 1
      invariant found.None? <==> LastMatch(src[..i], pred).None?
      invariant found.Some? ==> found.value == src[LastMatch(src[..i], pred).value]
    {
      assert src[..i + 1][..i] == src[..i];
      if pred(src[i], i) {
        itemCount := itemCount + 1;
        if itemCount > 1 {
          CountOfPrefix(src, pred, i + 1);
          return Failure(MoreThanOneElement);
        }
        found := Some(src[i]);
      }
      i := i + 1;
    }
    assert src[..i] == src;
    if found.Some? {
      CountOfPositive(src, pred, LastMatch(src, pred).value);
      r := Success(found.value);
    } else {
      CountOfNone(src, pred);
      r := Failure(NoElements);
    }
  }

  /** One call of `singleOrDefault(src, pred)`: like `single`, but no match gives `undefined`. */
  function SingleOrDefaultMatch<T>(s: seq<T>, p: (T, nat) -> bool): (r: Result<Option<T>>)
    ensures r.Failure? <==> CountOf(s, p) > 1
    ensures r.Failure? ==> r.error == MoreThanOneElement
    ensures r == Success(None) <==> CountOf(s, p) == 0
    ensures r.Success? && r.value.Some? ==> SingleMatch(s, p) == Success(r.value.value)
  {
    match SingleMatch(s, p)
    case Success(x) => Success(Some(x))
    case Failure(e) => if e == NoElements then Success(None) else Failure(e)
  }

  /** `singleOrDefault(src, pred)`: the counting loop; returns the remembered item only when exactly one passed. */
  method SingleOrDefault<T>(src: seq<T>, pred: (T, nat) -> bool) returns (r: Result<Option<T>>)
    ensures r == SingleOrDefaultMatch(src, pred)
  {
    var itemCount := 0;
    var found: Option<T> := None;
    var i := 0;
    while i < |src|
      invariant 0 <= i <= |src|
      invariant itemCount == CountOf(src[..i], pred) <= 1
      invariant found.None? <==> LastMatch(src[..i], pred).None?
      invariant found.Some? ==> found.value == src[LastMatch(src[..i], pred).value]
    {
      assert src[..i + 1][..i] == src[..i];
      if pred(src[i], i) {
        itemCount := itemCount + 1;
        if itemCount > 1 {
          CountOfPrefix(src, pred, i + 1);
          return Failure(MoreThanOneElement);
        }
        found := Some(src[i]);
      }
      i := i + 1;
    }
    assert src[..i] == src;
    if itemCount == 1 {
      r := Success(found);
    } else {
      r := Success(None);
    }
  }

  /** The library's single examples: [1] gives 1, [] and [1, 2] throw, and `x > 1` over [1, 2] gives 2. */
  lemma SingleExamples()
    ensures SingleMatch([1], (_: int, _: nat) => true) == Success(1)
    ensures SingleMatch([], (_: int, _: nat) => true) == Failure(NoElements)
    ensures SingleMatch([1, 2], (_: int, _: nat) => true) == Failure(MoreThanOneElement)
    ensures SingleMatch([1, 2], (x: int, _: nat) => x > 2) == Failure(NoElements)
    ensures SingleMatch([1, 2], (x: int, _: nat) => x > 1) == Success(2)
    ensures SingleOrDefaultMatch([1, 2], (x: int, _: nat) => x > 2) == Success(None)
  {
    assert [1, 2][..1] == [1];
  }

  // ---------------------------------------------------------------- elementAt

  /** Exactly one position equals `index` when it is in range, none otherwise. */
  lemma {:induction false} CountOfPosition<T>(s: seq<T>, index: int)
    ensures CountOf(s, (_: T, i: nat) => i == index) == if 0 <= index < |s| then 1 else 0
  {
    if |s| > 0 {
      CountOfPosition(s[..|s| - 1], index);
    }
  }

  /** `elementAt(src, index)`: `single` over the position test; the element there, or "no elements" out of range. */
  method ElementAt<T>(src: seq<T>, index: int) returns (r: Result<T>)
    ensures 0 <= index < |src| ==> r == Success(src[index])
    ensures !(0 <= index < |src|) ==> r == Failure(NoElements)
  {
    var pred := (_: T, i: nat) => i == index;
    CountOfPosition(src, index);
    r := Single(src, pred);
  }

  /** `elementAt([1, 2, 3], 1)` is 2 and `elementAt([1, 2, 3], 3)` throws. */
  method ElementAtExamples() returns (inRange: Result<int>, outOfRange: Result<int>)
    ensures inRange == Success(2) && outOfRange == Failure(NoElements)
  {
    inRange := ElementAt([1, 2, 3], 1);
    outOfRange := ElementAt([1, 2, 3], 3);
  }
}
