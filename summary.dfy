/** The analyzer's pass-through views: summary statistics, scoring tendencies and recent rounds. */
module Summary {
  import opened Wrappers
  import opened GolfData
  import opened Sequences

  const Unknown: string := "Unknown"

  /** `limit`'s default: the number of rounds the report lists. */
  const DefaultRecentRounds: nat := 5

  datatype SummaryStats = SummaryStats(
    golfer: string,
    lastUpdated: string,
    totalShots: int,
    totalRounds: int,
    longestDrive: real,
    handicapBreakdown: map<string, real>,
    overallStrokesGained: real)

  /** `get_summary_stats`: each key read with its default. */
  function GetSummaryStats(d: PerformanceData): (s: SummaryStats)
    ensures d.golfer.Some? ==> s.golfer == d.golfer.value
    ensures d.golfer.None? ==> s.golfer == Unknown
    ensures d.lastFetched.Some? ==> s.lastUpdated == d.lastFetched.value
    ensures d.lastFetched.None? ==> s.lastUpdated == Unknown
    ensures d.totalShots.Some? ==> s.totalShots == d.totalShots.value
    ensures d.totalShots.None? ==> s.totalShots == 0
    ensures d.totalRounds.Some? ==> s.totalRounds == d.totalRounds.value
    ensures d.totalRounds.None? ==> s.totalRounds == 0
    ensures d.longestShot.Some? ==> s.longestDrive == d.longestShot.value
    ensures d.longestShot.None? ==> s.longestDrive == 0.0
    ensures d.handicapBreakdown.Some? ==> s.handicapBreakdown == d.handicapBreakdown.value
    ensures d.handicapBreakdown.None? ==> s.handicapBreakdown == map[]
    ensures d.strokesGained.Some? && d.strokesGained.value.overall.Some? ==>
              s.overallStrokesGained == d.strokesGained.value.overall.value
    ensures d.strokesGained.None? || d.strokesGained.value.overall.None? ==> s.overallStrokesGained == 0.0
  {
    SummaryStats(
      d.golfer.GetOr(Unknown),
      d.lastFetched.GetOr(Unknown),
      d.totalShots.GetOr(0),
      d.totalRounds.GetOr(0),
      d.longestShot.GetOr(0.0),
      d.handicapBreakdown.GetOr(map[]),
      StrokesGainedOf(d).overall.GetOr(0.0))
  }

  /**
   * `get_scoring_analysis`. The percentage strings of the source (`"12.5%"`)
   * are kept as their numbers.
   */
  datatype ScoringAnalysis = ScoringAnalysis(
    par3: real, par4: real, par5: real,
    birdies: real, pars: real, bogeys: real, doublePlus: real,
    underPar: real, atPar: real, overPar: real)

  function GetScoringAnalysis(d: PerformanceData): (a: ScoringAnalysis)
    // averages and distribution: present values pass through, absent ones are 0
    ensures var s := ScoringOf(d);
      && (s.par3Avg.Some? ==> a.par3 == s.par3Avg.value) && (s.par3Avg.None? ==> a.par3 == 0.0)
      && (s.par4Avg.Some? ==> a.par4 == s.par4Avg.value) && (s.par4Avg.None? ==> a.par4 == 0.0)
      && (s.par5Avg.Some? ==> a.par5 == s.par5Avg.value) && (s.par5Avg.None? ==> a.par5 == 0.0)
      && (s.birdiesPct.Some? ==> a.birdies == s.birdiesPct.value) && (s.birdiesPct.None? ==> a.birdies == 0.0)
      && (s.parsPct.Some? ==> a.pars == s.parsPct.value) && (s.parsPct.None? ==> a.pars == 0.0)
      && (s.bogeysPct.Some? ==> a.bogeys == s.bogeysPct.value) && (s.bogeysPct.None? ==> a.bogeys == 0.0)
      && (s.doublePlusPct.Some? ==> a.doublePlus == s.doublePlusPct.value)
      && (s.doublePlusPct.None? ==> a.doublePlus == 0.0)
    // tendencies coarsen the distribution into under, at and over par
    ensures a.underPar == a.birdies
    ensures a.atPar == a.pars
    ensures a.overPar == a.bogeys + a.doublePlus
  {
    var s := ScoringOf(d);
    var birdies, pars := s.birdiesPct.GetOr(0.0), s.parsPct.GetOr(0.0);
    var bogeys, doublePlus := s.bogeysPct.GetOr(0.0), s.doublePlusPct.GetOr(0.0);
    ScoringAnalysis(
      s.par3Avg.GetOr(0.0), s.par4Avg.GetOr(0.0), s.par5Avg.GetOr(0.0),
      birdies, pars, bogeys, doublePlus,
      birdies, pars, bogeys + doublePlus)
  }

  /** `get_recent_rounds(limit)`: the slice `rounds[:limit]` for a non-negative limit. */
  function GetRecentRounds(d: PerformanceData, limit: nat := DefaultRecentRounds): (r: seq<Round>)
    ensures |r| == Min(limit, |RoundsOf(d)|)
    ensures forall i :: 0 <= i < |r| ==> r[i] == RoundsOf(d)[i]
    ensures limit >= |RoundsOf(d)| ==> r == RoundsOf(d)
    ensures d.recentRounds.None? ==> r == []
  {
    Take(RoundsOf(d), limit)
  }
}
