/**
 * `get_strokes_gained_analysis`: the four strokes-gained categories, which of
 * them are strengths (value > 0) and weaknesses (value < -1.0), and the weak
 * categories ranked by how far below zero they are.
 */
module StrokesGained {
  import opened Wrappers
  import opened GolfData
  import opened Sequences
  import opened StableSort

  datatype Category = Driving | Approach | ShortGame | Putting

  /** The fixed order in which the analysis walks the categories. */
  const Categories: seq<Category> := [Driving, Approach, ShortGame, Putting]

  /** A category is a weakness when its value is below this. */
  const WeaknessThreshold: real := -1.0

  /** Position of a category in `Categories`. */
  function Index(c: Category): (i: nat)
    ensures i < |Categories| && Categories[i] == c
  {
    match c
    case Driving => 0
    case Approach => 1
    case ShortGame => 2
    case Putting => 3
  }

  /** The category's heading in the report (`'short_game'.replace('_', ' ').title()`). */
  function DisplayName(c: Category): string
  {
    match c
    case Driving => "Driving"
    case Approach => "Approach"
    case ShortGame => "Short Game"
    case Putting => "Putting"
  }

  /** `sg_data.get(category, 0)`. */
  function Value(sg: StrokesGainedRecord, c: Category): real
  {
    match c
    case Driving => sg.driving.GetOr(0.0)
    case Approach => sg.approach.GetOr(0.0)
    case ShortGame => sg.shortGame.GetOr(0.0)
    case Putting => sg.putting.GetOr(0.0)
  }

  function Abs(x: real): (r: real)
    ensures r >= 0.0 && (r == x || r == -x)
  {
    if x < 0.0 then -x else x
  }

  /** A category with its value: an entry of `by_category`, `strengths` or `weaknesses`. */
  type Entry = (Category, real)

  /** Sort key of `weakness_values`: the pair's second component, |value|. */
  function Magnitude(w: Entry): real
  {
    w.1
  }

  /** Tie-break rank: the category's position in the walk. */
  function Rank(w: Entry): int
  {
    Index(w.0)
  }

  datatype Analysis = Analysis(
    overall: real,
    byCategory: seq<Entry>,
    strengths: seq<Entry>,
    weaknesses: seq<Entry>,
    improvementPriority: seq<Category>)

  /**
   * `p` is a valid `improvement_priority` for `sg`: exactly the weak
   * categories, by non-increasing |value|, equal magnitudes in category order.
   */
  ghost predicate IsImprovementPriority(sg: StrokesGainedRecord, p: seq<Category>)
  {
    && (forall c :: c in p <==> Value(sg, c) < WeaknessThreshold)
    && (forall i, j :: 0 <= i < j < |p| ==> Abs(Value(sg, p[i])) >= Abs(Value(sg, p[j])))
    && (forall i, j :: 0 <= i < j < |p| && Abs(Value(sg, p[i])) == Abs(Value(sg, p[j])) ==>
          Index(p[i]) < Index(p[j]))
  }

  /** `weakness_values`: a (category, |value|) pair per weak category, in category order. */
  ghost predicate IsWeaknessValues(sg: StrokesGainedRecord, wv: seq<Entry>)
  {
    && (forall w :: w in wv ==> Value(sg, w.0) < WeaknessThreshold && w.1 == Abs(Value(sg, w.0)))
    && (forall c :: Value(sg, c) < WeaknessThreshold ==> (c, Abs(Value(sg, c))) in wv)
    && IncreasingBy(wv, Rank)
  }

  /** The loop over `categories` (lines 91-98): `by_category`, `strengths` and `weaknesses`. */
  method ClassifyCategories(sg: StrokesGainedRecord) returns (byCategory: seq<Entry>, strengths: seq<Entry>, weaknesses: seq<Entry>)
    ensures |byCategory| == |Categories|
    ensures forall i :: 0 <= i < |Categories| ==> byCategory[i] == (Categories[i], Value(sg, Categories[i]))
    ensures forall e :: e in strengths <==> e in byCategory && e.1 > 0.0
    ensures forall e :: e in weaknesses <==> e in byCategory && e.1 < WeaknessThreshold
    ensures IncreasingBy(strengths, Rank) && IncreasingBy(weaknesses, Rank)
  {
    byCategory, strengths, weaknesses := [], [], [];
    for i := 0 to |Categories|
      invariant |byCategory| == i
      invariant forall j :: 0 <= j < i ==> byCategory[j] == (Categories[j], Value(sg, Categories[j]))
      invariant forall e :: e in strengths <==> e in byCategory && e.1 > 0.0
      invariant forall e :: e in weaknesses <==> e in byCategory && e.1 < WeaknessThreshold
      invariant IncreasingBy(strengths, Rank) && IncreasingBy(weaknesses, Rank)
      invariant forall e :: e in byCategory ==> Rank(e) < i
    {
      var c := Categories[i];
      var v := Value(sg, c);
      assert Rank((c, v)) == i;
      byCategory := byCategory + [(c, v)];
      if v > 0.0 {
        strengths := strengths + [(c, v)];
      } else if v < WeaknessThreshold {
        weaknesses := weaknesses + [(c, v)];
      }
    }
  }

  /** The comprehension building `weakness_values` (line 101). */
  method CollectWeaknessValues(sg: StrokesGainedRecord) returns (wv: seq<Entry>)
    ensures IsWeaknessValues(sg, wv)
  {
    wv := [];
    for i := 0 to |Categories|
      invariant forall w :: w in wv ==>
                  Value(sg, w.0) < WeaknessThreshold && w.1 == Abs(Value(sg, w.0)) && Rank(w) < i
      invariant forall j :: 0 <= j < i && Value(sg, Categories[j]) < WeaknessThreshold ==>
                  (Categories[j], Abs(Value(sg, Categories[j]))) in wv
      invariant IncreasingBy(wv, Rank)
    {
      var c := Categories[i];
      if Value(sg, c) < WeaknessThreshold {
        assert Rank((c, Abs(Value(sg, c)))) == i;
        wv := wv + [(c, Abs(Value(sg, c)))];
      }
    }
    forall c | Value(sg, c) < WeaknessThreshold ensures (c, Abs(Value(sg, c))) in wv {
      assert Categories[Index(c)] == c;
    }
  }

  function Firsts(s: seq<Entry>): (r: seq<Category>)
    ensures |r| == |s| && forall k :: 0 <= k < |s| ==> r[k] == s[k].0
  {
    seq(|s|, k requires 0 <= k < |s| => s[k].0)
  }

  /** `improvement_priority` as the source stores it: the title-cased name of each category. */
  function PriorityNames(p: seq<Category>): seq<string>
  {
    seq(|p|, k requires 0 <= k < |p| => DisplayName(p[k]))
  }

  /** Distinct categories have distinct names, so the names carry the whole priority list. */
  lemma {:induction false} PriorityNamesDetermineCategories(p1: seq<Category>, p2: seq<Category>)
    requires PriorityNames(p1) == PriorityNames(p2)
    ensures p1 == p2
  {
    forall k | 0 <= k < |p1| ensures p1[k] == p2[k] {
      var n1, n2 := DisplayName(p1[k]), DisplayName(p2[k]);
      assert n1 == PriorityNames(p1)[k] == PriorityNames(p2)[k] == n2;
      assert |n1| == |n2| && n1[0] == n2[0];
    }
  }

  /** Sorting `weakness_values` stably by magnitude, largest first, yields the improvement priority. */
  lemma PriorityFromSortedWeaknesses(sg: StrokesGainedRecord, wv: seq<Entry>, sorted: seq<Entry>)
    requires IsWeaknessValues(sg, wv)
    requires IsStableSortDescBy(wv, sorted, Magnitude)
    ensures IsImprovementPriority(sg, Firsts(sorted))
  {
    var p := Firsts(sorted);
    StableTies(wv, sorted, Magnitude, Rank);
    assert forall k :: 0 <= k < |sorted| ==> sorted[k] in multiset(wv);
    assert forall k :: 0 <= k < |sorted| ==> Magnitude(sorted[k]) == Abs(Value(sg, p[k]));
    forall c | Value(sg, c) < WeaknessThreshold ensures c in p {
      assert (c, Abs(Value(sg, c))) in multiset(sorted);
      var k :| 0 <= k < |sorted| && sorted[k] == (c, Abs(Value(sg, c)));
      assert p[k] == c;
    }
  }

  method GetStrokesGainedAnalysis(d: PerformanceData) returns (a: Analysis)
    // overall and by_category: the four categories in order, absent values as 0
    ensures a.overall == StrokesGainedOf(d).overall.GetOr(0.0)
    ensures |a.byCategory| == |Categories|
    ensures forall i :: 0 <= i < |Categories| ==>
              a.byCategory[i] == (Categories[i], Value(StrokesGainedOf(d), Categories[i]))
    // strengths and weaknesses: exactly the entries past each threshold, in category order
    ensures forall e :: e in a.strengths <==> e in a.byCategory && e.1 > 0.0
    ensures forall e :: e in a.weaknesses <==> e in a.byCategory && e.1 < WeaknessThreshold
    ensures IncreasingBy(a.strengths, Rank) && IncreasingBy(a.weaknesses, Rank)
    ensures forall e :: e in a.strengths ==> e !in a.weaknesses
    ensures forall e :: e in a.byCategory && WeaknessThreshold <= e.1 <= 0.0 ==>
              e !in a.strengths && e !in a.weaknesses
    // improvement_priority: the weak categories, largest |value| first, ties in category order
    ensures IsImprovementPriority(StrokesGainedOf(d), a.improvementPriority)
  {
    var sg := StrokesGainedOf(d);
    var byCategory, strengths, weaknesses := ClassifyCategories(sg);
    var weaknessValues := CollectWeaknessValues(sg);
    var sorted := SortDescBy(weaknessValues, Magnitude);
    PriorityFromSortedWeaknesses(sg, weaknessValues, sorted);
    a := Analysis(sg.overall.GetOr(0.0), byCategory, strengths, weaknesses, Firsts(sorted));
  }
}

module StrokesGainedProperties {
  import opened Wrappers
  import opened GolfData
  import opened StrokesGained

  /** The order the priority list follows: larger |value| first, then category order. */
  predicate Before(sg: StrokesGainedRecord, c1: Category, c2: Category)
  {
    || Abs(Value(sg, c1)) > Abs(Value(sg, c2))
    || (Abs(Value(sg, c1)) == Abs(Value(sg, c2)) && Index(c1) < Index(c2))
  }

  lemma {:induction false} StrictlyOrderedUnique(sg: StrokesGainedRecord, p1: seq<Category>, p2: seq<Category>)
    requires forall i, j :: 0 <= i < j < |p1| ==> Before(sg, p1[i], p1[j])
    requires forall i, j :: 0 <= i < j < |p2| ==> Before(sg, p2[i], p2[j])
    requires forall c :: c in p1 <==> c in p2
    ensures p1 == p2
    decreases |p1|
  {
    assert p1 != [] ==> p1[0] in p2;
    assert p2 != [] ==> p2[0] in p1;
    if p1 != [] && p2 != [] {
      assert p1[0] == p2[0];
      forall c ensures c in p1[1..] <==> c in p2[1..] {
        if c in p1[1..] {
          var k :| 1 <= k < |p1| && p1[k] == c;
          assert Before(sg, p1[0], p1[k]);
          assert c in p2 && c != p2[0];
        }
        if c in p2[1..] {
          var k :| 1 <= k < |p2| && p2[k] == c;
          assert Before(sg, p2[0], p2[k]);
          assert c in p1 && c != p1[0];
        }
      }
      StrictlyOrderedUnique(sg, p1[1..], p2[1..]);
      assert p1 == [p1[0]] + p1[1..];
      assert p2 == [p2[0]] + p2[1..];
    }
  }

  /** The contract of `GetStrokesGainedAnalysis` fixes `improvement_priority` completely. */
  lemma PriorityUnique(sg: StrokesGainedRecord, p1: seq<Category>, p2: seq<Category>)
    requires IsImprovementPriority(sg, p1) && IsImprovementPriority(sg, p2)
    ensures p1 == p2
  {
    StrictlyOrderedUnique(sg, p1, p2);
  }

  /** Every weak value is negative, so the largest |value| is the most negative value. */
  lemma PriorityMostNegativeFirst(sg: StrokesGainedRecord, p: seq<Category>)
    requires IsImprovementPriority(sg, p)
    ensures forall i, j :: 0 <= i < j < |p| ==> Value(sg, p[i]) <= Value(sg, p[j])
  {
    forall i, j | 0 <= i < j < |p| ensures Value(sg, p[i]) <= Value(sg, p[j]) {
      assert p[i] in p && p[j] in p;
    }
  }

  const AllWeak := StrokesGainedRecord(None, Some(-3.3), Some(-5.0), Some(-2.7), Some(-1.1))

  /**
   * Driving -3.3, approach -5.0, short game -2.7, putting -1.1: all four are
   * below -1.0, so all four are ranked, approach first and putting last.
   */
  lemma AllWeakPriority(p: seq<Category>)
    requires IsImprovementPriority(AllWeak, p)
    ensures p == [Approach, Driving, ShortGame, Putting]
  {
    var q := [Approach, Driving, ShortGame, Putting];
    var m := [5.0, 3.3, 2.7, 1.1];
    assert forall i :: 0 <= i < |q| ==> Abs(Value(AllWeak, q[i])) == m[i];
    assert forall i, j :: 0 <= i < j < |m| ==> m[i] > m[j];
    forall c ensures c in q {
      assert c == q[0] || c == q[1] || c == q[2] || c == q[3];
    }
    assert IsImprovementPriority(AllWeak, q);
    PriorityUnique(AllWeak, p, q);
  }

  /** A value of exactly -1.0 is neither a strength nor a weakness, and is not ranked. */
  const Borderline := StrokesGainedRecord(Some(0.5), Some(-1.0), Some(0.0), Some(2.0), Some(-1.5))

  lemma BorderlinePriority(p: seq<Category>)
    requires IsImprovementPriority(Borderline, p)
    ensures p == [Putting]
  {
    assert IsImprovementPriority(Borderline, [Putting]);
    PriorityUnique(Borderline, p, [Putting]);
  }
}
