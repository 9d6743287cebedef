/** Vocabulary over sequences shared by the operator models. */
module Seqs {

  /** Strictly increasing positions. */
  ghost predicate Increasing(idx: seq<nat>)
  {
    forall a, b :: 0 <= a < b < |idx| ==> idx[a] < idx[b]
  }

  /** A non-empty sequence is its prefix followed by its last element. */
  lemma SplitLast<T>(s: seq<T>)
    requires |s| > 0
    ensures s[..|s| - 1] + [s[|s| - 1]] == s
  {
  }

  /** `r` is the order-preserving selection of `s` at the increasing positions `idx`. */
  ghost predicate SelectedAt<T>(r: seq<T>, s: seq<T>, idx: seq<nat>)
  {
    && |r| == |idx|
    && Increasing(idx)
    && forall k :: 0 <= k < |idx| ==> idx[k] < |s| && r[k] == s[idx[k]]
  }
  /** Extending the source by one element keeps a selection, whether or not that element is selected. */
  lemma SelectedAtSnoc<T>(r: seq<T>, s: seq<T>, idx: seq<nat>, keep: bool)
    requires |s| > 0
    requires SelectedAt(r, s[..|s| - 1], idx)
    ensures var n := |s| - 1;
      SelectedAt(r + (if keep then [s[n]] else []), s, idx + (if keep then [n] else []))
  {
    var n := |s| - 1;
    var r' := r + (if keep then [s[n]] else []);
    var idx' := idx + (if keep then [n] else []);
    forall k | 0 <= k < |idx'|
      ensures idx'[k] < |s| && r'[k] == s[idx'[k]]
    {
      if k < |idx| {
        assert idx'[k] == idx[k] && r'[k] == r[k] == s[..n][idx[k]];
      }
    }
    forall a, b | 0 <= a < b < |idx'|
      ensures idx'[a] < idx'[b]
    {
      if b >= |idx| {
        assert idx'[a] == idx[a] < n;
      }
    }
  }


  /** The total length of a list of lists. */
  function SumLengths<T>(ss: seq<seq<T>>): nat
  {
    if |ss| == 0 then 0 else SumLengths(ss[..|ss| - 1]) + |ss[|ss| - 1]|
  }

  /** The lists of `ss` one after the other. */
  function Flatten<T>(ss: seq<seq<T>>): (r: seq<T>)
    ensures |r| == SumLengths(ss)
  {
    if |ss| == 0 then [] else Flatten(ss[..|ss| - 1]) + ss[|ss| - 1]
  }

  lemma {:induction false} FlattenAppend<T>(ss: seq<seq<T>>, tt: seq<seq<T>>)
    ensures Flatten(ss + tt) == Flatten(ss) + Flatten(tt)
    decreases |tt|
  {
    if |tt| == 0 {
      assert ss + tt == ss;
    } else {
      var n := |tt| - 1;
      var u := ss + tt;
      assert u[..|u| - 1] == ss + tt[..n] && u[|u| - 1] == tt[n];
      FlattenAppend(ss, tt[..n]);
      assert Flatten(u) == Flatten(ss + tt[..n]) + tt[n];
      assert Flatten(tt) == Flatten(tt[..n]) + tt[n];
    }
  }

  function Min(a: int, b: int): int
  {
    if a <= b then a else b
  }

  function Max(a: int, b: int): int
  {
    if a >= b then a else b
  }
}
