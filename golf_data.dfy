/**
 * The decoded Arccos data file. Every JSON key is optional, so every field is
 * an `Option`; an absent key reads as `None`. Distances, strokes gained and
 * percentages are `real`, counts are `int`.
 */
module GolfData {
  import opened Wrappers

  /** The `strokes_gained` object. */
  datatype StrokesGainedRecord = StrokesGainedRecord(
    overall: Option<real>,
    driving: Option<real>,
    approach: Option<real>,
    shortGame: Option<real>,
    putting: Option<real>)

  /** The `scoring` object. */
  datatype ScoringRecord = ScoringRecord(
    par3Avg: Option<real>,
    par4Avg: Option<real>,
    par5Avg: Option<real>,
    birdiesPct: Option<real>,
    parsPct: Option<real>,
    bogeysPct: Option<real>,
    doublePlusPct: Option<real>)

  /** One entry of `clubs`. */
  datatype Club = Club(
    name: Option<string>,
    avgDistance: Option<real>,
    smartDistance: Option<real>,
    longest: Option<real>,
    totalShots: Option<int>)

  /** One entry of `recent_rounds`. */
  datatype Round = Round(
    date: Option<string>,
    course: Option<string>,
    score: Option<int>,
    overPar: Option<int>)

  /** The whole data file. */
  datatype PerformanceData = PerformanceData(
    golfer: Option<string>,
    lastFetched: Option<string>,
    totalShots: Option<int>,
    totalRounds: Option<int>,
    longestShot: Option<real>,
    handicapBreakdown: Option<map<string, real>>,
    strokesGained: Option<StrokesGainedRecord>,
    scoring: Option<ScoringRecord>,
    clubs: Option<seq<Club>>,
    recentRounds: Option<seq<Round>>)

  const NoStrokesGained := StrokesGainedRecord(None, None, None, None, None)
  const NoScoring := ScoringRecord(None, None, None, None, None, None, None)

  /** `data.get('strokes_gained', {})`: an absent object reads as one with no keys. */
  function StrokesGainedOf(d: PerformanceData): StrokesGainedRecord
  {
    d.strokesGained.GetOr(NoStrokesGained)
  }

  /** `data.get('scoring', {})`. */
  function ScoringOf(d: PerformanceData): ScoringRecord
  {
    d.scoring.GetOr(NoScoring)
  }

  /** `data.get('clubs', [])`. */
  function ClubsOf(d: PerformanceData): seq<Club>
  {
    d.clubs.GetOr([])
  }

  /** `data.get('recent_rounds', [])`. */
  function RoundsOf(d: PerformanceData): seq<Round>
  {
    d.recentRounds.GetOr([])
  }
}
