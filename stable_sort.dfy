/**
 * Stable sorting in descending order of a real-valued key: Python's
 * `list.sort(key=..., reverse=True)`. Python keeps elements with equal keys
 * in their original order even when `reverse=True`, so the specification is
 * "sorted by non-increasing key, and for every key value the elements with
 * that key appear in the same order as in the input".
 */
module StableSort {
  import opened Sequences

  ghost predicate SortedDescBy<T>(s: seq<T>, key: T -> real)
  {
    forall i, j :: 0 <= i < j < |s| ==> key(s[i]) >= key(s[j])
  }

  /** Filtering a list sorted by non-increasing key leaves it sorted. */
  lemma {:induction false} FilterKeepsSortedDesc<T>(s: seq<T>, p: T -> bool, key: T -> real)
    requires SortedDescBy(s, key)
    ensures SortedDescBy(Filter(s, p), key)
    decreases |s|
  {
    if s != [] {
      var s' := s[..|s| - 1];
      FilterKeepsSortedDesc(s', p, key);
      var f := Filter(s', p);
      forall a | 0 <= a < |f| ensures key(f[a]) >= key(s[|s| - 1]) {
        var idx :| 0 <= idx < |s'| && s'[idx] == f[a];
      }
    }
  }

  /** The elements of `s` whose key is `k`, in their order in `s`. */
  function KeyFilter<T>(s: seq<T>, key: T -> real, k: real): seq<T>
    decreases |s|
  {
    if s == [] then []
    else KeyFilter(s[..|s| - 1], key, k) + (if key(s[|s| - 1]) == k then [s[|s| - 1]] else [])
  }

  lemma {:induction false} KeyFilterMember<T>(s: seq<T>, key: T -> real, k: real, x: T)
    ensures x in KeyFilter(s, key, k) <==> x in s && key(x) == k
    decreases |s|
  {
    if s != [] {
      assert s == s[..|s| - 1] + [s[|s| - 1]];
      KeyFilterMember(s[..|s| - 1], key, k, x);
    }
  }

  /** `r` is `s` stably sorted by non-increasing `key`. */
  ghost predicate IsStableSortDescBy<T>(s: seq<T>, r: seq<T>, key: T -> real)
  {
    && SortedDescBy(r, key)
    && multiset(r) == multiset(s)
    && forall k :: KeyFilter(r, key, k) == KeyFilter(s, key, k)
  }

  lemma {:induction false} KeyFilterAppend<T>(a: seq<T>, b: seq<T>, key: T -> real, k: real)
    ensures KeyFilter(a + b, key, k) == KeyFilter(a, key, k) + KeyFilter(b, key, k)
    decreases |b|
  {
    if b == [] {
      assert a + b == a;
    } else {
      var b' := b[..|b| - 1];
      assert (a + b)[..|a + b| - 1] == a + b';
      assert (a + b)[|a + b| - 1] == b[|b| - 1];
      KeyFilterAppend(a, b', key, k);
    }
  }

  /** Inserting `x` after every element whose key is at least key(x) keeps the sequence sorted. */
  lemma InsertKeepsSorted<T>(r: seq<T>, p: int, x: T, key: T -> real)
    requires SortedDescBy(r, key)
    requires 0 <= p <= |r|
    requires forall j :: 0 <= j < p ==> key(r[j]) >= key(x)
    requires p < |r| ==> key(r[p]) < key(x)
    ensures SortedDescBy(r[..p] + [x] + r[p..], key)
  {
    var t := r[..p] + [x] + r[p..];
    forall i, j | 0 <= i < j < |t| ensures key(t[i]) >= key(t[j]) {
      assert t[i] == if i < p then r[i] else if i == p then x else r[i - 1];
      assert t[j] == if j < p then r[j] else if j == p then x else r[j - 1];
    }
  }

  /** A non-empty sequence's last element is in its own key class. */
  lemma KeyFilterHasLast<T>(s: seq<T>, key: T -> real)
    ensures s != [] ==> s[|s| - 1] in KeyFilter(s, key, key(s[|s| - 1]))
  {
    if s != [] {
      KeyFilterMember(s, key, key(s[|s| - 1]), s[|s| - 1]);
    }
  }

  lemma KeyFilterEmpty<T>(s: seq<T>, key: T -> real, k: real)
    requires forall j :: 0 <= j < |s| ==> key(s[j]) != k
    ensures KeyFilter(s, key, k) == []
  {
    var e := KeyFilter(s, key, k);
    if e != [] {
      KeyFilterMember(s, key, k, e[0]);
    }
  }

  lemma KeyFilterSingleton<T>(x: T, key: T -> real, k: real)
    ensures KeyFilter([x], key, k) == if key(x) == k then [x] else []
  {
    assert [x][..0] == [];
  }

  /** ... and adds `x` to its own key class only, after every element already there. */
  lemma InsertKeepsKeyClasses<T>(a: seq<T>, b: seq<T>, x: T, key: T -> real, k: real)
    requires k == key(x) ==> KeyFilter(b, key, k) == []
    ensures KeyFilter(a + [x] + b, key, k) == KeyFilter(a + b, key, k) + KeyFilter([x], key, k)
  {
    var fa, fx, fb := KeyFilter(a, key, k), KeyFilter([x], key, k), KeyFilter(b, key, k);
    KeyFilterAppend(a + [x], b, key, k);
    KeyFilterAppend(a, [x], key, k);
    KeyFilterAppend(a, b, key, k);
    KeyFilterSingleton(x, key, k);
    assert KeyFilter(a + [x] + b, key, k) == fa + fx + fb;
    if k == key(x) {
      assert fb == [] && fa + fx + fb == fa + fx && fa + fb == fa;
    } else {
      assert fx == [] && fa + fx + fb == fa + fb && fa + fb + fx == fa + fb;
    }
  }

  /** One step of insertion sort: `r` sorts `done`, and inserting `x` at `p` sorts `done + [x]`. */
  lemma InsertStep<T>(done: seq<T>, r: seq<T>, p: int, x: T, key: T -> real)
    requires IsStableSortDescBy(done, r, key)
    requires 0 <= p <= |r|
    requires forall j :: 0 <= j < p ==> key(r[j]) >= key(x)
    requires p < |r| ==> key(r[p]) < key(x)
    ensures IsStableSortDescBy(done + [x], r[..p] + [x] + r[p..], key)
  {
    var a, b := r[..p], r[p..];
    assert r == a + b;
    InsertKeepsSorted(r, p, x, key);
    assert forall j :: 0 <= j < |b| ==> key(b[j]) < key(x) by {
      forall j | 0 <= j < |b| ensures key(b[j]) < key(x) {
        assert b[j] == r[p + j];
        if j > 0 { assert key(r[p + j]) <= key(r[p]); }
      }
    }
    KeyFilterEmpty(b, key, key(x));
    forall k ensures KeyFilter(a + [x] + b, key, k) == KeyFilter(done + [x], key, k) {
      InsertKeepsKeyClasses(a, b, x, key, k);
      KeyFilterAppend(done, [x], key, k);
    }
    assert multiset(a + [x] + b) == multiset(a + b) + multiset{x};
  }

  /** Where insertion sort puts `x`: after every element whose key is at least `key(x)`. */
  method InsertPosition<T>(r: seq<T>, x: T, key: T -> real) returns (p: int)
    ensures 0 <= p <= |r|
    ensures forall j :: 0 <= j < p ==> key(r[j]) >= key(x)
    ensures p < |r| ==> key(r[p]) < key(x)
  {
    p := 0;
    while p < |r| && key(r[p]) >= key(x)
      invariant 0 <= p <= |r|
      invariant forall j :: 0 <= j < p ==> key(r[j]) >= key(x)
    {
      p := p + 1;
    }
  }

  /** Python's `sort(key=key, reverse=True)` on a list, modelled as an insertion sort. */
  method SortDescBy<T>(s: seq<T>, key: T -> real) returns (r: seq<T>)
    ensures IsStableSortDescBy(s, r, key)
  {
    r := [];
    for i := 0 to |s|
      invariant IsStableSortDescBy(s[..i], r, key)
    {
      var x := s[i];
      var p := InsertPosition(r, x, key);
      InsertStep(s[..i], r, p, x, key);
      assert s[..i + 1] == s[..i] + [x];
      r := r[..p] + [x] + r[p..];
    }
    assert s[..|s|] == s;
  }

  /** The last element of a sequence sorted by non-increasing key has the smallest key. */
  lemma LastHasLeastKey<T>(r: seq<T>, key: T -> real, x: T)
    requires SortedDescBy(r, key)
    requires x in r
    ensures key(x) >= key(r[|r| - 1])
  {
    var m :| 0 <= m < |r| && r[m] == x;
  }

  /** In two sorted sequences with the same key classes, the last elements have the same key. */
  lemma LastKeysAgree<T>(r1: seq<T>, r2: seq<T>, key: T -> real)
    requires SortedDescBy(r1, key) && SortedDescBy(r2, key)
    requires r1 != [] && r2 != []
    requires KeyFilter(r1, key, key(r1[|r1| - 1])) == KeyFilter(r2, key, key(r1[|r1| - 1]))
    requires KeyFilter(r1, key, key(r2[|r2| - 1])) == KeyFilter(r2, key, key(r2[|r2| - 1]))
    ensures key(r1[|r1| - 1]) == key(r2[|r2| - 1])
  {
    var x1, x2 := r1[|r1| - 1], r2[|r2| - 1];
    KeyFilterMember(r1, key, key(x1), x1);
    KeyFilterMember(r2, key, key(x1), x1);
    LastHasLeastKey(r2, key, x1);
    KeyFilterMember(r2, key, key(x2), x2);
    KeyFilterMember(r1, key, key(x2), x2);
    LastHasLeastKey(r1, key, x2);
  }

  /** ... so the last elements themselves agree, and so do the key classes of what precedes them. */
  lemma DropLastAgreeing<T>(p1: seq<T>, x1: T, p2: seq<T>, x2: T, key: T -> real)
    requires key(x1) == key(x2)
    requires forall k :: KeyFilter(p1 + [x1], key, k) == KeyFilter(p2 + [x2], key, k)
    ensures x1 == x2
    ensures forall k :: KeyFilter(p1, key, k) == KeyFilter(p2, key, k)
  {
    var k1 := key(x1);
    var f1, f2 := KeyFilter(p1, key, k1), KeyFilter(p2, key, k1);
    assert (p1 + [x1])[..|p1|] == p1;
    assert (p2 + [x2])[..|p2|] == p2;
    assert KeyFilter(p1 + [x1], key, k1) == f1 + [x1];
    assert KeyFilter(p2 + [x2], key, k1) == f2 + [x2];
    assert (f1 + [x1])[|f1|] == x1;
    assert (f2 + [x2])[|f2|] == x2;
    forall k ensures KeyFilter(p1, key, k) == KeyFilter(p2, key, k) {
      if k == k1 {
        assert f1 == (f1 + [x1])[..|f1|];
        assert f2 == (f2 + [x2])[..|f2|];
      } else {
        assert KeyFilter(p1 + [x1], key, k) == KeyFilter(p1, key, k);
        assert KeyFilter(p2 + [x2], key, k) == KeyFilter(p2, key, k);
      }
    }
  }

  /**
   * A stable descending sort has exactly one possible output: two sequences
   * sorted by the same key that agree on every key class are equal. So the
   * insertion sort above yields what Python's sort yields.
   */
  lemma {:induction false} StableSortUnique<T>(r1: seq<T>, r2: seq<T>, key: T -> real)
    requires SortedDescBy(r1, key) && SortedDescBy(r2, key)
    requires forall k :: KeyFilter(r1, key, k) == KeyFilter(r2, key, k)
    ensures r1 == r2
    decreases |r1| + |r2|
  {
    if r1 == [] || r2 == [] {
      KeyFilterHasLast(r1, key);
      KeyFilterHasLast(r2, key);
    } else {
      var p1, p2 := r1[..|r1| - 1], r2[..|r2| - 1];
      var x1, x2 := r1[|r1| - 1], r2[|r2| - 1];
      LastKeysAgree(r1, r2, key);
      assert r1 == p1 + [x1];
      assert r2 == p2 + [x2];
      DropLastAgreeing(p1, x1, p2, x2, key);
      assert SortedDescBy(p1, key) && SortedDescBy(p2, key);
      StableSortUnique(p1, p2, key);
    }
  }

  /** The specification determines the sort: every stable descending sort of `s` is the same sequence. */
  lemma StableSortDeterministic<T>(s: seq<T>, r1: seq<T>, r2: seq<T>, key: T -> real)
    requires IsStableSortDescBy(s, r1, key) && IsStableSortDescBy(s, r2, key)
    ensures r1 == r2
  {
    StableSortUnique(r1, r2, key);
  }

  lemma {:induction false} KeyFilterIncreasing<T>(s: seq<T>, key: T -> real, k: real, rank: T -> int)
    requires IncreasingBy(s, rank)
    ensures IncreasingBy(KeyFilter(s, key, k), rank)
    decreases |s|
  {
    if s != [] {
      var s' := s[..|s| - 1];
      KeyFilterIncreasing(s', key, k, rank);
      var f := KeyFilter(s', key, k);
      forall a | 0 <= a < |f| ensures rank(f[a]) < rank(s[|s| - 1]) {
        KeyFilterMember(s', key, k, f[a]);
        var idx :| 0 <= idx < |s'| && s'[idx] == f[a];
      }
    }
  }

  lemma {:induction false} KeyFilterKeepsOrder<T>(t: seq<T>, key: T -> real, k: real, rank: T -> int, i: int, j: int)
    requires IncreasingBy(KeyFilter(t, key, k), rank)
    requires 0 <= i < j < |t| && key(t[i]) == k && key(t[j]) == k
    ensures rank(t[i]) < rank(t[j])
    decreases |t|
  {
    var t' := t[..|t| - 1];
    var f := KeyFilter(t', key, k);
    var g := KeyFilter(t, key, k);
    assert g == f + (if key(t[|t| - 1]) == k then [t[|t| - 1]] else []);
    if j == |t| - 1 {
      assert t'[i] == t[i];
      KeyFilterMember(t', key, k, t[i]);
      var a :| 0 <= a < |f| && f[a] == t[i];
      assert g[a] == t[i] && g[|f|] == t[j];
    } else {
      assert forall a :: 0 <= a < |f| ==> f[a] == g[a];
      KeyFilterKeepsOrder(t', key, k, rank, i, j);
    }
  }

  /**
   * Stability stated by position: when the input is strictly increasing in
   * `rank`, elements of the output that share a key are still increasing in `rank`.
   */
  lemma StableTies<T>(s: seq<T>, r: seq<T>, key: T -> real, rank: T -> int)
    requires IsStableSortDescBy(s, r, key)
    requires IncreasingBy(s, rank)
    ensures forall i, j :: 0 <= i < j < |r| && key(r[i]) == key(r[j]) ==> rank(r[i]) < rank(r[j])
  {
    forall i, j | 0 <= i < j < |r| && key(r[i]) == key(r[j]) ensures rank(r[i]) < rank(r[j]) {
      KeyFilterIncreasing(s, key, key(r[i]), rank);
      KeyFilterKeepsOrder(r, key, key(r[i]), rank, i, j);
    }
  }
}
