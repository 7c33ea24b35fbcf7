# Arccos golf analyzer: a verified model

`scripts/arccos_golf.py` reads a JSON file of Arccos golf statistics and prints
derived metrics. Its class `ArccosAnalyzer` holds the decoded file and derives
views of it:

- a summary with defaults for missing keys;
- a strokes-gained analysis, which splits the four categories (driving,
  approach, short game, putting) into strengths and weaknesses and ranks the
  weaknesses;
- a list of clubs, filtered by name and by distance and sorted by average
  distance;
- scoring tendencies;
- the most recent rounds.

The text report shows a club section built from the sorted club list, and
`main` selects one output mode from the command-line flags.

This project models those rules in Dafny and proves what they promise.

- `GolfData` is the decoded file. Every JSON key is an `Option`, so "key
  absent" is `None`, and each getter's default is stated explicitly.
- `Summary` holds `get_summary_stats`, `get_scoring_analysis` and
  `get_recent_rounds`. They are single expressions in the source, so here they
  are functions.
- `StrokesGained` holds `get_strokes_gained_analysis`. The source builds its
  lists with a loop, a comprehension and an in-place `sort`, so here it is a
  method with loops. `StrokesGainedProperties` proves that its contract fixes
  the priority list completely, and works two concrete inputs.
- `ClubDistances` holds `get_club_distances`: two comprehensions as loops,
  then a stable sort.
- `StableSort` models Python's `list.sort(key=..., reverse=True)` as an
  insertion sort over a local list. It proves the result is sorted, a
  permutation and stable. It also proves that a stable descending sort has
  only one possible output, so this sort returns what Python's Timsort returns.
- `Report` is the club section of the text report (`for club in clubs[:10]`
  that skips `"Putter"`).
- `Cli` is the output-mode dispatch of `main`.
- `Text` (ASCII lower-casing, substring test), `Sequences` (filter, slice) and
  `Wrappers` (`Option`) are helpers.

`ArccosAnalyzer` never changes `self.data` after loading it. Its getters are
therefore modelled as functions and methods over a `PerformanceData` value,
not as a class.

Facts about the code that the model follows:

- A category is a weakness when its value is below `-1.0` (line 97, and the
  same test in the comprehension at line 101). Values in `[-1.0, 0]` are
  neither strengths nor weaknesses.
- `improvement_priority` lists every weak category, largest magnitude first
  (lines 101-103). There is no cut-off.
- `get_club_distances` re-sorts the qualifying clubs by `avg_distance`, largest
  first (line 124). The report's club section reads this sorted list.
- `get_recent_rounds` takes `limit` with the default 5 (line 183), and the
  report calls it without an argument.
- An absent number reads as 0 through `.get(key, 0)`. The code has no separate
  "not available" value.

## Model

| member | source | states |
|---|---|---|
| Summary.GetSummaryStats | scripts/arccos_golf.py:57-71 | Each key present in the data is passed through. Each absent key gives its default: golfer and last_updated become "Unknown", shot and round counts and the longest drive become 0, the handicap breakdown becomes an empty map. Overall strokes gained is 0 when either `strokes_gained` or its `overall` key is missing. |
| Summary.GetScoringAnalysis | scripts/arccos_golf.py:128-161 | Par averages and distribution percentages pass through, and each missing one is 0. under_par = birdies, at_par = pars, over_par = bogeys + double_plus. |
| Summary.GetRecentRounds | scripts/arccos_golf.py:183-193 | The limit defaults to 5. For a limit >= 0 the result is the first min(limit, number of rounds) rounds in stored order. Asking for more than exist returns all of them. An absent `recent_rounds` gives an empty result. |
| StrokesGained.ClassifyCategories | scripts/arccos_golf.py:91-98 | by_category holds exactly the four categories in the fixed order, each with its value or 0. An entry is a strength iff its value > 0, and a weakness iff its value < -1.0. Both lists are in category order. |
| StrokesGained.CollectWeaknessValues | scripts/arccos_golf.py:101 | weakness_values holds one (category, abs value) pair for each category below -1.0 and nothing else, in category order. |
| StrokesGained.PriorityFromSortedWeaknesses | scripts/arccos_golf.py:101-103 | Stably sorting weakness_values by magnitude, largest first, and keeping the categories gives exactly the weak categories. They are ordered by non-increasing abs value, and equal magnitudes keep category order. |
| StrokesGained.GetStrokesGainedAnalysis | scripts/arccos_golf.py:73-105 | The whole analysis: overall defaults to 0; by_category, strengths and weaknesses as above; strengths and weaknesses are disjoint; values in [-1.0, 0] appear in neither; improvement_priority satisfies IsImprovementPriority. |
| StrokesGained.PriorityNamesDetermineCategories | scripts/arccos_golf.py:103 | The title-cased names that the source stores in improvement_priority determine the category list, so holding categories loses nothing. |
| StrokesGainedProperties.PriorityUnique | scripts/arccos_golf.py:100-103 | Two lists that both satisfy IsImprovementPriority for the same data are equal, so the method's contract determines improvement_priority completely. |
| StrokesGainedProperties.PriorityMostNegativeFirst | scripts/arccos_golf.py:100-103 | In improvement_priority the values are non-decreasing, so the most negative category comes first. |
| StrokesGainedProperties.AllWeakPriority | scripts/arccos_golf.py:82-103 | For driving -3.3, approach -5.0, short game -2.7 and putting -1.1, the priority is exactly [approach, driving, short game, putting]. All four are listed. |
| StrokesGainedProperties.BorderlinePriority | scripts/arccos_golf.py:95-101 | A value of exactly -1.0 is not ranked. With driving -1.0, approach 0, short game 2.0 and putting -1.5, only putting is ranked. |
| StableSort.SortDescBy | scripts/arccos_golf.py:102 | The output is sorted by non-increasing key. It is a permutation of the input (equal multisets). Within every key value it keeps the input order, which is the stability of `sort(reverse=True)`. |
| StableSort.StableSortUnique | scripts/arccos_golf.py:124 | Two sequences sorted by non-increasing key that agree on every key class are equal. |
| StableSort.StableSortDeterministic | scripts/arccos_golf.py:124 | Any two stable descending sorts of the same list are equal. So the insertion-sort model returns exactly what Python's sort returns. |
| StableSort.StableTies | scripts/arccos_golf.py:101-102 | If the input is strictly increasing in some rank, output elements with equal keys are still increasing in that rank. |
| ClubDistances.Qualifying | scripts/arccos_golf.py:116-123 | A club qualifies iff its avg_distance (0 when absent) is > 0 and, when the filter is non-empty, its lower-cased name (empty when absent) contains the lower-cased filter. Every qualifying input club is kept. |
| ClubDistances.FilterLoop | scripts/arccos_golf.py:120 | The comprehension loop keeps exactly the elements that pass the test, in input order. |
| ClubDistances.GetClubDistances | scripts/arccos_golf.py:107-126 | Every returned club is an input club that qualifies, and every qualifying input club is returned. Every returned avg_distance is > 0. The result is a stable permutation of the qualifying clubs sorted by non-increasing avg_distance, so equal distances keep input order. |
| ClubDistances.TiesKeepInputOrder | scripts/arccos_golf.py:118-124 | Measured against the stored club list, not only the qualifying clubs: clubs with equal avg_distance come out in their stored order. |
| ClubDistances.EmptyFilterSelectsAll | scripts/arccos_golf.py:118-123 | An empty filter and an absent filter select the same clubs. Neither applies a name test. |
| Report.ShownClubs | scripts/arccos_golf.py:273-274 | At most 10 clubs are shown. Each comes from the first 10 of the list and is not named exactly "Putter". Every such club among the first 10 is shown. The test is case-sensitive, so "putter" is shown. |
| Report.ShownClubsKeepOrder | scripts/arccos_golf.py:273-274 | The shown clubs keep the order they have in the list. |
| Report.ShownClubsSortedByDistance | scripts/arccos_golf.py:273-274 | Shown from a list sorted by non-increasing avg_distance, the clubs are still sorted that way. |
| Report.ClubSection | scripts/arccos_golf.py:273-279 | One line per shown club, in order, with the name (defaulting to "Unknown"), average, shot count and longest. There are at most 10 lines. |
| Report.ReportClubLines | scripts/arccos_golf.py:273-279 | The lines are LineOf of the shown clubs of some stable descending sort by avg_distance of the unfiltered qualifying clubs, as `generate_report` builds them (line 234); StableSortDeterministic makes that sort unique. Averages are non-increasing down the section, so the longest clubs come first. There are at most 10 lines, none named "Putter", each with a positive average and each from an input club. |
| Cli.SelectMode | scripts/arccos_golf.py:341-372 | Summary wins over strokes-gained, which wins over clubs, which wins over the full report. Clubs mode is chosen iff `--clubs` has a non-empty value, and it carries that value. Otherwise the full report is chosen. |
| Sequences.FilterIncreasing | scripts/arccos_golf.py:120-123 | A list comprehension with an `if` keeps the relative order of the elements it keeps. |
| StableSort.FilterKeepsSortedDesc | scripts/arccos_golf.py:273-274 | Filtering a list sorted by non-increasing key leaves it sorted. |
| Text.Contains | scripts/arccos_golf.py:120 | Python's `needle in hay`: true iff the needle occurs at some position. The empty needle occurs everywhere. |
| Text.Lower | scripts/arccos_golf.py:119-120 | Lower-casing keeps the length and lower-cases each ASCII letter, position by position. |

## Left out

- Loading the file (`_load_data`, lines 38-55) is I/O and JSON decoding. The model starts from the decoded `PerformanceData`.
- `main`'s argument parsing, `print`, `json.dumps`, `sys.exit` and exception handling (lines 325-386) are left out. Only the mode dispatch is modelled.
- The model assumes each present JSON value has the expected type. The source does not check types: a `null` or a string where a number belongs makes Python raise `TypeError` in a comparison or an addition. That error path is not modelled.
- `get_putting_analysis` and `get_approach_analysis` (lines 163-209) only pass keys through with 0 or `{}` defaults, so they are left out.
- The JSON branch of `generate_report` (lines 220-229) only bundles the other getters' results, so it is left out.
- The rest of the text report is left out: headers, the strokes-gained, scoring, putting and recent-round lines, and the joining of lines. It is string formatting, including `:+.1f`, `:,` and the `%` suffix.
- StrokesGained.GetStrokesGainedAnalysis: each strengths and weaknesses entry is kept as its (category, value) pair, not as the formatted string `"Driving: +1.2"`. improvement_priority holds categories. `PriorityNames` maps them through `DisplayName` to the title-cased names the source stores.
- Summary.GetScoringAnalysis: the percentages are kept as numbers, not as strings with a `%` suffix.
- Summary.GetRecentRounds: takes `limit: nat`, so Python's negative-slice behaviour is not modelled. The only caller uses the default 5, and the parsed `--recent-rounds` flag is never passed in.
- Text.Lower: models Python's `str.lower()` for ASCII letters only. Unicode case mapping is not modelled.
- StableSort.SortDescBy: is an insertion sort, not Timsort. StableSortDeterministic shows that the output is the same.
- Floating point is modelled as exact `real` arithmetic. NaN is not modelled; with NaN keys Python's comparisons and sort would behave differently.
- `smart_distance` is carried in `Club`, but no modelled operation reads it.
