/**
 * `memoize(f)`: a wrapper around a one-argument function that caches each result in a `Map`
 * held by the returned closure.
 *
 * The closure and its map are one object here. `calls` records the arguments `f` itself has
 * been invoked with, which is what the cache saves.
 */
module Memoize {

  class Memo<A(==), B> {
    const f: A -> B
    var cache: map<A, B>
    var calls: seq<A>

    /** `f` was invoked once per cached argument and never twice with one argument; every cached result is `f`'s. */
    ghost predicate Valid()
      reads this
    {
      && (forall i, j :: 0 <= i < j < |calls| ==> calls[i] != calls[j])
      && cache.Keys == (set i | 0 <= i < |calls| :: calls[i])
      && (forall i :: 0 <= i < |calls| ==> cache[calls[i]] == f(calls[i]))
    }

    /** `memoize(f)`: an empty cache. */
    constructor (f: A -> B)
      ensures Valid()
      ensures this.f == f && cache == map[] && calls == []
    {
      this.f := f;
      cache := map[];
      calls := [];
    }

    /**
     * A call of the memoised function: a cached argument returns its stored result without
     * calling `f`; otherwise `f` runs once and its result is stored.
     */
    method Apply(v: A) returns (r: B)
      requires Valid()
      modifies this
      ensures Valid()
      ensures r == f(v)
      ensures cache == old(cache)[v := f(v)]
      ensures calls == old(calls) + (if v in old(cache) then [] else [v])
    {
      if v in cache {
        var i :| 0 <= i < |calls| && calls[i] == v;
        return cache[v];
      }
      ghost var before := calls;
      r := f(v);
      cache := cache[v := r];
      calls := calls + [v];
      assert forall i :: 0 <= i < |before| ==> calls[i] == before[i];
      assert calls[|before|] == v;
      ghost var was := set i | 0 <= i < |before| :: before[i];
      ghost var now := set i | 0 <= i < |calls| :: calls[i];
      forall x | x in was
        ensures x in now
      {
        var i :| 0 <= i < |before| && before[i] == x;
        assert calls[i] == x;
      }
      assert now == was + {v};
    }
  }

  /** Applying a memoised square to 3, 4 and 3 again calls it only for 3 and 4. */
  method MemoizeExample() returns (results: seq<int>, calls: seq<int>)
    ensures results == [9, 16, 9]
    ensures calls == [3, 4]
  {
    var m := new Memo((x: int) => x * x);
    var a := m.Apply(3);
    var b := m.Apply(4);
    var c := m.Apply(3);
    results := [a, b, c];
    calls := m.calls;
  }
}
