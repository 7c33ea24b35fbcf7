/**
 * The club-distance section of the text report (`generate_report`): at most
 * the first ten clubs of the sorted list, skipping any named exactly "Putter".
 */
module Report {
  import opened Wrappers
  import opened GolfData
  import opened Sequences
  import opened StableSort
  import opened ClubDistances

  /** How many clubs of the sorted list the report looks at. */
  const ReportClubLimit: nat := 10

  /** The one club name the report skips; the comparison is case-sensitive. */
  const SkippedClubName: string := "Putter"

  /** The values one report line shows: name, average, shot count and longest shot. */
  datatype ClubLine = ClubLine(name: string, avgDistance: real, totalShots: int, longest: real)

  function LineOf(c: Club): ClubLine
  {
    ClubLine(c.name.GetOr("Unknown"), c.avgDistance.GetOr(0.0), c.totalShots.GetOr(0), c.longest.GetOr(0.0))
  }

  /** `club.get('club') != 'Putter'`; a club without a name is listed. */
  predicate Listed(c: Club)
  {
    c.name != Some(SkippedClubName)
  }

  /** The clubs the section shows, in order. */
  function ShownClubs(clubs: seq<Club>): (r: seq<Club>)
    ensures |r| <= ReportClubLimit
    ensures forall i :: 0 <= i < |r| ==> r[i] in clubs[..Min(ReportClubLimit, |clubs|)] && Listed(r[i])
    ensures forall i :: 0 <= i < Min(ReportClubLimit, |clubs|) && Listed(clubs[i]) ==> clubs[i] in r
  {
    Filter(Take(clubs, ReportClubLimit), Listed)
  }

  /** The shown clubs keep the order they have in the list. */
  lemma ShownClubsKeepOrder(clubs: seq<Club>, rank: Club -> int)
    requires IncreasingBy(clubs, rank)
    ensures IncreasingBy(ShownClubs(clubs), rank)
  {
    FilterIncreasing(Take(clubs, ReportClubLimit), Listed, rank);
  }

  /** Shown from a list sorted by average distance, the clubs stay sorted: the longest first. */
  lemma ShownClubsSortedByDistance(clubs: seq<Club>)
    requires SortedDescBy(clubs, AvgDistance)
    ensures SortedDescBy(ShownClubs(clubs), AvgDistance)
  {
    FilterKeepsSortedDesc(Take(clubs, ReportClubLimit), Listed, AvgDistance);
  }

  /** The `for club in clubs[:10]` loop: one line per shown club, in order. */
  method ClubSection(clubs: seq<Club>) returns (lines: seq<ClubLine>)
    ensures |lines| == |ShownClubs(clubs)| <= ReportClubLimit
    ensures forall i :: 0 <= i < |lines| ==> lines[i] == LineOf(ShownClubs(clubs)[i])
  {
    var top := Take(clubs, ReportClubLimit);
    lines := [];
    for i := 0 to |top|
      invariant |lines| == |Filter(top[..i], Listed)|
      invariant forall j :: 0 <= j < |lines| ==> lines[j] == LineOf(Filter(top[..i], Listed)[j])
    {
      assert top[..i + 1][..i] == top[..i];
      if Listed(top[i]) {
        lines := lines + [LineOf(top[i])];
      }
    }
    assert top[..|top|] == top;
  }

  /**
   * The section as `generate_report` builds it: the shown clubs of the
   * unfiltered club list stably sorted by average distance, so the longest
   * clubs come first. No line is for a club called "Putter", and every line
   * shows a positive average distance.
   */
  method ReportClubLines(d: PerformanceData) returns (lines: seq<ClubLine>)
    ensures exists sorted :: IsStableSortDescBy(Qualifying(ClubsOf(d), None), sorted, AvgDistance)
              && |lines| == |ShownClubs(sorted)|
              && forall i :: 0 <= i < |lines| ==> lines[i] == LineOf(ShownClubs(sorted)[i])
    ensures forall i, j :: 0 <= i < j < |lines| ==> lines[i].avgDistance >= lines[j].avgDistance
    ensures |lines| <= ReportClubLimit
    ensures forall i :: 0 <= i < |lines| ==> lines[i].name != SkippedClubName && lines[i].avgDistance > 0.0
    ensures forall i :: 0 <= i < |lines| ==> exists c :: c in ClubsOf(d) && lines[i] == LineOf(c)
  {
    var clubs := GetClubDistances(d, None);
    lines := ClubSection(clubs);
    ShownClubsSortedByDistance(clubs);
    forall i | 0 <= i < |lines|
      ensures lines[i].name != SkippedClubName && lines[i].avgDistance > 0.0
      ensures exists c :: c in ClubsOf(d) && lines[i] == LineOf(c)
    {
      var c := ShownClubs(clubs)[i];
      assert c in clubs;
      assert c.avgDistance.Some?;
    }
  }
}
