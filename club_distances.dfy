/**
 * `get_club_distances(club_filter)`: the clubs whose name contains the filter
 * (case-insensitively, only when a non-empty filter is given), without those
 * that have no positive average distance, longest average first.
 */
module ClubDistances {
  import opened Wrappers
  import opened GolfData
  import opened Sequences
  import opened Text
  import opened StableSort

  /** `club.get('avg_distance', 0)`. */
  function AvgDistance(c: Club): real
  {
    c.avgDistance.GetOr(0.0)
  }

  predicate HasDistance(c: Club)
  {
    AvgDistance(c) > 0.0
  }

  /** `filter_lower in club.get('club', '').lower()`. */
  function NameTest(needle: string): Club -> bool
  {
    (c: Club) => Contains(Lower(c.name.GetOr("")), needle)
  }

  /** Python's `if club_filter:`: neither None nor the empty string. */
  predicate FilterActive(filter: Option<string>)
  {
    filter.Some? && filter.value != ""
  }

  /** What a club must satisfy to be listed. */
  predicate Qualifies(c: Club, filter: Option<string>)
  {
    HasDistance(c) && (FilterActive(filter) ==> Contains(Lower(c.name.GetOr("")), Lower(filter.value)))
  }

  /** The two comprehensions of the source, before sorting: qualifying clubs in input order. */
  function Qualifying(clubs: seq<Club>, filter: Option<string>): (q: seq<Club>)
    ensures forall i :: 0 <= i < |q| ==> q[i] in clubs && Qualifies(q[i], filter)
    ensures forall i :: 0 <= i < |clubs| && Qualifies(clubs[i], filter) ==> clubs[i] in q
  {
    var named := if FilterActive(filter) then Filter(clubs, NameTest(Lower(filter.value))) else clubs;
    Filter(named, HasDistance)
  }

  /** The list comprehension `[x for x in s if keep(x)]`, as the loop it stands for. */
  method FilterLoop(s: seq<Club>, keep: Club -> bool) returns (r: seq<Club>)
    ensures r == Filter(s, keep)
  {
    r := [];
    for i := 0 to |s|
      invariant r == Filter(s[..i], keep)
    {
      assert s[..i + 1][..i] == s[..i];
      if keep(s[i]) {
        r := r + [s[i]];
      }
    }
    assert s[..|s|] == s;
  }

  method GetClubDistances(d: PerformanceData, filter: Option<string>) returns (r: seq<Club>)
    ensures forall i :: 0 <= i < |r| ==> r[i] in ClubsOf(d) && Qualifies(r[i], filter)
    ensures forall i :: 0 <= i < |ClubsOf(d)| && Qualifies(ClubsOf(d)[i], filter) ==> ClubsOf(d)[i] in r
    ensures forall i :: 0 <= i < |r| ==> AvgDistance(r[i]) > 0.0
    ensures IsStableSortDescBy(Qualifying(ClubsOf(d), filter), r, AvgDistance)
  {
    var clubs := ClubsOf(d);
    if FilterActive(filter) {
      clubs := FilterLoop(clubs, NameTest(Lower(filter.value)));
    }
    var withDistance := FilterLoop(clubs, HasDistance);
    r := SortDescBy(withDistance, AvgDistance);
    SortedQualifyingMembers(ClubsOf(d), filter, r);
  }

  /** A permutation of the qualifying clubs holds exactly the clubs that qualify. */
  lemma SortedQualifyingMembers(clubs: seq<Club>, filter: Option<string>, r: seq<Club>)
    requires IsStableSortDescBy(Qualifying(clubs, filter), r, AvgDistance)
    ensures forall i :: 0 <= i < |r| ==> r[i] in clubs && Qualifies(r[i], filter)
    ensures forall i :: 0 <= i < |clubs| && Qualifies(clubs[i], filter) ==> clubs[i] in r
  {
    var q := Qualifying(clubs, filter);
    assert forall i :: 0 <= i < |r| ==> r[i] in multiset(q);
    forall i | 0 <= i < |clubs| && Qualifies(clubs[i], filter) ensures clubs[i] in r {
      assert clubs[i] in multiset(q);
    }
  }

  /**
   * Read against the input list: when `rank` strictly increases along the
   * stored clubs (their position, say), clubs with equal average distance come
   * out in their stored order.
   */
  lemma TiesKeepInputOrder(clubs: seq<Club>, filter: Option<string>, r: seq<Club>, rank: Club -> int)
    requires IncreasingBy(clubs, rank)
    requires IsStableSortDescBy(Qualifying(clubs, filter), r, AvgDistance)
    ensures forall i, j :: 0 <= i < j < |r| && AvgDistance(r[i]) == AvgDistance(r[j]) ==> rank(r[i]) < rank(r[j])
  {
    if FilterActive(filter) {
      FilterIncreasing(clubs, NameTest(Lower(filter.value)), rank);
      FilterIncreasing(Filter(clubs, NameTest(Lower(filter.value))), HasDistance, rank);
    } else {
      FilterIncreasing(clubs, HasDistance, rank);
    }
    StableTies(Qualifying(clubs, filter), r, AvgDistance, rank);
  }

  /** An absent filter and an empty one select the same clubs: no name test is applied. */
  lemma EmptyFilterSelectsAll(clubs: seq<Club>)
    ensures Qualifying(clubs, Some("")) == Qualifying(clubs, None) == Filter(clubs, HasDistance)
  {
  }
}
