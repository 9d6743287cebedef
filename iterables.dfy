/**
 * The restartable sequence (`toIterable`), the cursor it hands out, `headTail` and `range`.
 *
 * A source's step function is modelled by `gen`: `gen(n)` is the list of elements produced
 * by the cursor opened after `n` earlier opens. A pure source ignores `n`; an impure source
 * (one closed over mutable state that every open bumps) does not.
 */
module Iterables {
  import opened Wrappers

  /** A single-use, forward-only cursor: the elements it will yield and how many it has yielded. */
  class Cursor<T> {
    const items: seq<T>
    var pos: nat

    ghost predicate Valid()
      reads this
    {
      pos <= |items|
    }

    /** The elements this cursor has not yielded yet. */
    ghost function Remaining(): seq<T>
      reads this
      requires Valid()
    {
      items[pos..]
    }

    constructor (items: seq<T>)
      ensures Valid() && this.items == items && pos == 0
    {
      this.items := items;
      pos := 0;
    }

    /** `next()`: the next element, or `None` once the cursor is exhausted (`done`). */
    method Next() returns (r: Option<T>)
      requires Valid()
      modifies this
      ensures Valid()
      ensures old(pos) < |items| ==> r == Some(items[old(pos)]) && pos == old(pos) + 1
      ensures old(pos) == |items| ==> r == None && pos == old(pos)
    {
      if pos < |items| {
        r := Some(items[pos]);
        pos := pos + 1;
      } else {
        r := None;
      }
    }
  }

  /** Pulls every remaining element out of a cursor (`[...iterator]`). */
  method Drain<T>(c: Cursor<T>) returns (xs: seq<T>)
    requires c.Valid()
    modifies c
    ensures c.Valid() && c.pos == |c.items|
    ensures xs == old(c.Remaining())
  {
    xs := [];
    var n := c.Next();
    while n.Some?
      invariant c.Valid()
      invariant n.None? ==> c.pos == |c.items|
      invariant xs + (if n.Some? then [n.value] else []) + c.Remaining() == old(c.Remaining())
      decreases |c.items| - c.pos, n.Some?
    {
      xs := xs + [n.value];
      n := c.Next();
    }
  }

  /**
   * `toIterable(f)`: the object whose iterator is the step function itself. Nothing is
   * cached: every traversal re-invokes `f`, which here means a fresh cursor over `gen(opens)`
   * and one more open.
   */
  class Iterable<T> {
    const gen: nat -> seq<T>
    var opens: nat

    /** A source whose every cursor yields the same elements. */
    ghost predicate Pure()
    {
      forall n: nat :: gen(n) == gen(0)
    }

    constructor (gen: nat -> seq<T>)
      ensures this.gen == gen && opens == 0
    {
      this.gen := gen;
      opens := 0;
    }

    /** `[Symbol.iterator]()`: invokes the step function once, giving a fresh cursor. */
    method Open() returns (c: Cursor<T>)
      modifies this
      ensures fresh(c) && c.Valid() && c.pos == 0
      ensures c.items == gen(old(opens)) && opens == old(opens) + 1
    {
      c := new Cursor(gen(opens));
      opens := opens + 1;
    }

    /** `toJSON()`: exactly the elements of one fresh traversal. */
    method ToJson() returns (xs: seq<T>)
      modifies this
      ensures xs == gen(old(opens)) && opens == old(opens) + 1
    {
      var c := Open();
      xs := Drain(c);
    }
  }

  /** A pure source traversed twice gives identical lists. */
  method TraverseTwice<T>(src: Iterable<T>) returns (first: seq<T>, second: seq<T>)
    requires src.Pure()
    modifies src
    ensures first == second == src.gen(0)
    ensures src.opens == old(src.opens) + 2
  {
    first := src.ToJson();
    second := src.ToJson();
  }

  /**
   * The impure source of the library's tests: every open takes `start` from a shared counter
   * and bumps it, then yields `start, start + 1, start + 2`.
   */
  function CountingSource(): (gen: nat -> seq<int>)
  {
    n => [n, n + 1, n + 2]
  }

  /** Two full drains of the impure source give [0,1,2] then [1,2,3]; two more opens start at 2 and 3. */
  method ImpureScenario() returns (a: seq<int>, b: seq<int>, c: int, d: int)
    ensures a == [0, 1, 2] && b == [1, 2, 3] && c == 2 && d == 3
  {
    var src := new Iterable(CountingSource());
    a := src.ToJson();
    b := src.ToJson();
    var c1 := src.Open();
    var x := c1.Next();
    c := x.value;
    var c2 := src.Open();
    var y := c2.Next();
    d := y.value;
  }

  /** The tail returned by `headTail`: every traversal drains the one shared cursor. */
  class Tail<T> {
    const cursor: Cursor<T>

    constructor (cursor: Cursor<T>)
      ensures this.cursor == cursor
    {
      this.cursor := cursor;
    }

    /** One traversal of the tail: whatever the shared cursor still holds; afterwards nothing. */
    method Traverse() returns (xs: seq<T>)
      requires cursor.Valid()
      modifies cursor
      ensures cursor.Valid() && cursor.Remaining() == []
      ensures xs == old(cursor.Remaining())
    {
      xs := Drain(cursor);
    }
  }

  /**
   * `headTail(src)`: opens the source once, at call time, and splits it into its first element
   * and a tail that shares the cursor. An empty source throws "sequence is empty".
   */
  method HeadTail<T>(src: Iterable<T>) returns (r: Result<(T, Tail<T>)>)
    modifies src
    ensures src.opens == old(src.opens) + 1
    ensures r.Failure? <==> src.gen(old(src.opens)) == []
    ensures r.Failure? ==> r.error == SequenceIsEmpty
    ensures r.Success? ==>
      var (head, tail) := r.value;
      && fresh(tail.cursor) && tail.cursor.Valid()
      && [head] + tail.cursor.Remaining() == src.gen(old(src.opens))
  {
    var iter := src.Open();
    var n := iter.Next();
    if n.None? {
      r := Failure(SequenceIsEmpty);
    } else {
      var tail := new Tail(iter);
      r := Success((n.value, tail));
    }
  }

  /** headTail of the impure source: head 0, and a tail whose first traversal is [1,2] and second is empty. */
  method HeadTailImpureScenario() returns (head: int, first: seq<int>, second: seq<int>)
    ensures head == 0 && first == [1, 2] && second == []
  {
    var src := new Iterable(CountingSource());
    var r := HeadTail(src);
    var tail;
    head, tail := r.value.0, r.value.1;
    assert [head] + tail.cursor.Remaining() == [0, 1, 2];
    assert head == ([head] + tail.cursor.Remaining())[0];
    assert tail.cursor.Remaining() == ([head] + tail.cursor.Remaining())[1..];
    first := tail.Traverse();
    second := tail.Traverse();
  }

  /** Whether a JavaScript number is integral (`Math.trunc(x) === x`). */
  predicate Integral(x: real)
  {
    x.Floor as real == x
  }

  /** The argument checks of `range(start, count)`, in the source's order. */
  function RangeArguments(start: real, count: real): (r: Result<(int, nat)>)
    ensures r.Success? <==> Integral(start) && Integral(count) && count >= 0.0
    ensures r.Success? ==> r.value.0 as real == start && r.value.1 as real == count
    ensures !Integral(start) ==> r == Failure(StartNotIntegral)
    ensures Integral(start) && !Integral(count) ==> r == Failure(RangeNotIntegral)
    ensures Integral(start) && Integral(count) && count < 0.0 ==> r == Failure(RangeNegative)
  {
    if !Integral(start) then Failure(StartNotIntegral)
    else if !Integral(count) then Failure(RangeNotIntegral)
    else if count < 0.0 then Failure(RangeNegative)
    else Success((start.Floor, count.Floor))
  }

  /** The values of one traversal of `range(start, count)`. */
  function RangeValues(start: int, count: nat): (r: seq<int>)
    ensures |r| == count
    ensures forall i :: 0 <= i < count ==> r[i] == start + i
  {
    if count == 0 then [] else RangeValues(start, count - 1) + [start + count - 1]
  }

  /** The generator loop of `range`: yields `i + start` for `i` from 0 below `count`. */
  method RangeTraversal(start: int, count: nat) returns (xs: seq<int>)
    ensures xs == RangeValues(start, count)
  {
    xs := [];
    var i := 0;
    while i < count
      invariant 0 <= i <= count
      invariant xs == RangeValues(start, i)
    {
      xs := xs + [i + start];
      i := i + 1;
    }
  }

  /** `range(start, count)`: validates the arguments eagerly, then returns a pure restartable sequence. */
  method Range(start: real, count: real) returns (r: Result<Iterable<int>>)
    ensures r.Failure? <==> RangeArguments(start, count).Failure?
    ensures r.Failure? ==> r.error == RangeArguments(start, count).error
    ensures r.Success? ==>
      && fresh(r.value) && r.value.opens == 0 && r.value.Pure()
      && r.value.gen(0) == RangeValues(start.Floor, count.Floor as nat)
  {
    var args := RangeArguments(start, count);
    if args.Failure? {
      r := Failure(args.error);
    } else {
      var (s, n) := args.value;
      var it := new Iterable((_: nat) => RangeValues(s, n));
      r := Success(it);
    }
  }

  /** `range(0, 3)` traversed twice gives [0, 1, 2] both times. */
  method RangeTwiceScenario() returns (first: seq<int>, second: seq<int>)
    ensures first == [0, 1, 2] && second == [0, 1, 2]
  {
    var r := Range(0.0, 3.0);
    assert RangeArguments(0.0, 3.0) == Success((0, 3));
    var it := r.value;
    first, second := TraverseTwice(it);
  }

  /** The argument checks reject range(0, -1), range(0.1, 1) and range(0, 1.1). */
  lemma RangeValidationExamples()
    ensures RangeArguments(0.0, -1.0) == Failure(RangeNegative)
    ensures RangeArguments(0.1, 1.0) == Failure(StartNotIntegral)
    ensures RangeArguments(0.0, 1.1) == Failure(RangeNotIntegral)
  {
  }
}
