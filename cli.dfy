/**
 * The output-mode dispatch of `main`: the first requested narrowing option
 * wins, in the order summary, strokes gained, clubs; otherwise the full report.
 */
module Cli {
  import opened Wrappers

  datatype Mode = SummaryOnly | StrokesGainedOnly | ClubsOnly(filter: string) | FullReport

  /** `--summary`, `--strokes-gained` and `--clubs` as parsed; `--recent-rounds` selects nothing. */
  function SelectMode(summary: bool, strokesGained: bool, clubs: Option<string>): (m: Mode)
    ensures m.SummaryOnly? <==> summary
    ensures m.StrokesGainedOnly? <==> !summary && strokesGained
    ensures m.ClubsOnly? <==> !summary && !strokesGained && clubs.Some? && clubs.value != ""
    ensures m.ClubsOnly? ==> clubs == Some(m.filter) && m.filter != ""
    ensures m.FullReport? <==> !summary && !strokesGained && (clubs.None? || clubs.value == "")
  {
    if summary then SummaryOnly
    else if strokesGained then StrokesGainedOnly
    else if clubs.Some? && clubs.value != "" then ClubsOnly(clubs.value)
    else FullReport
  }
}
