/** Order-preserving selection over sequences: list comprehensions with an `if`, and slices. */
module Sequences {

  function Min(a: int, b: int): int
  {
    if a <= b then a else b
  }

  /** The elements of `s` that satisfy `p`, in their original order. */
  function Filter<T>(s: seq<T>, p: T -> bool): (r: seq<T>)
    ensures |r| <= |s|
    ensures forall i :: 0 <= i < |r| ==> r[i] in s && p(r[i])
    ensures forall i :: 0 <= i < |s| && p(s[i]) ==> s[i] in r
    decreases |s|
  {
    if s == [] then []
    else
      assert s == s[..|s| - 1] + [s[|s| - 1]];
      Filter(s[..|s| - 1], p) + (if p(s[|s| - 1]) then [s[|s| - 1]] else [])
  }

  /** Strictly increasing `rank` along `s`: "in input order" when `rank` is a position. */
  ghost predicate IncreasingBy<T>(s: seq<T>, rank: T -> int)
  {
    forall i, j :: 0 <= i < j < |s| ==> rank(s[i]) < rank(s[j])
  }

  /** Filtering keeps the relative order of the elements it keeps. */
  lemma {:induction false} FilterIncreasing<T>(s: seq<T>, p: T -> bool, rank: T -> int)
    requires IncreasingBy(s, rank)
    ensures IncreasingBy(Filter(s, p), rank)
    decreases |s|
  {
    if s != [] {
      var s' := s[..|s| - 1];
      FilterIncreasing(s', p, rank);
      var f := Filter(s', p);
      forall a | 0 <= a < |f| ensures rank(f[a]) < rank(s[|s| - 1]) {
        var idx :| 0 <= idx < |s'| && s'[idx] == f[a];
      }
    }
  }

  /** Python's `s[:n]` for a non-negative `n`: asking for more than exist yields all of `s`. */
  function Take<T>(s: seq<T>, n: nat): (r: seq<T>)
    ensures |r| == Min(n, |s|)
    ensures r == s[..|r|]
  {
    if n <= |s| then s[..n] else s
  }
}
