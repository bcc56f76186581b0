# Arcade scoring and milestones of the skills-program progress dashboard

This project models the rule-bearing core of a progress dashboard for a cloud
skills program. Each participant has three activity counters: completed skill
badges, arcade games and trivia games. The dashboard turns them into arcade
points. A participant earns one point per two skill badges and one point per
arcade, trivia or special game. On top of that comes the bonus of the single
highest milestone whose three thresholds are all met:

| tier | arcade | trivia | skill badges | bonus |
|---|---|---|---|---|
| Ultimate | 10 | 8 | 44 | 25 |
| Milestone 3 | 8 | 7 | 30 | 15 |
| Milestone 2 | 6 | 6 | 20 | 10 |
| Milestone 1 | 4 | 4 | 10 | 5 |
| None | – | – | – | 0 |

Around the calculator the model covers:

- the per-row scoring loops that fill the points, milestone and bonus columns;
- the skill-badge bucketing of the progress chart;
- the "next milestone" ladder of the individual analysis;
- the top-15 leaderboard with its rank labels.

Modules, one per concern:

- `Scoring` (scoring.dfy): the rule table as data, the calculator, and the
  lemmas about tiers, bonuses, exact-threshold totals and monotonicity.
- `Batch` (batch.dfy): the two scoring loops as methods with loop invariants,
  and the `or 0` guard on counters read from the export.
- `Display` (display.dfy): `badge_category` and the next-milestone ladder, with
  progress bars in exact real arithmetic.
- `Leaderboard` (leaderboard.dfy): `nlargest` as a stable "best first" ranking
  cut to 15 rows, the rank labels, and the loop that builds the table.
- `Decimal` (decimal.dfy): decimal spelling of numbers, used by the rank
  labels and requirement texts, with a parse-back round trip.

The model states what dashboard.py does:

- Counters are unbounded integers. dashboard.py never checks a count for being
  negative, so the model accepts any integer.
- Python's floor `//` by 2 is Dafny's `/`; the two agree for every integer when
  the divisor is positive.
- dashboard.py computes no level, XP, percentile rank tier, combo multiplier or
  achievement, so the model has none (see "Left out").

## Model

| member | source | states |
|---|---|---|
| `Scoring.CalculateArcadePoints` | dashboard.py:57-101 | skill points are the floor of half the badges; game, trivia and special points equal their counts; base is their sum; the tier is the highest one whose three thresholds all hold, with no higher tier reached; the bonus is that tier's bonus; total = base + bonus |
| `Scoring.ReachesBelow` | dashboard.py:71-86 | a higher tier's thresholds dominate a lower tier's, so reaching a tier means reaching every tier below it |
| `Scoring.BonusStrictlyIncreasing` | dashboard.py:67-86 | bonuses grow strictly with the tier |
| `Scoring.HighestReachedUnique` | dashboard.py:71-86 | at most one tier is "reached with nothing above it reached", so the tiers are mutually exclusive |
| `Scoring.AchievedIffHighest` | dashboard.py:71-86 | the reported tier is m if and only if m is reached and no higher tier is |
| `Scoring.ReachedNeverUnderReported` | dashboard.py:67-86 | any reached tier ranks at or below the reported one, and its bonus is at most the reported bonus: only the highest bonus applies |
| `Scoring.UltimateWins` | dashboard.py:71-74 | counts meeting 10/8/44 are always reported as Ultimate with bonus 25 |
| `Scoring.BonusIdentifiesTier` | dashboard.py:67-88 | the bonus is one of 0/5/10/15/25; it is 0 exactly when no tier is reached; each value belongs to exactly one tier, so bonuses never stack |
| `Scoring.ExactThresholdTotals` | dashboard.py:71-86 | counts exactly at a tier's thresholds yield that tier and the totals in the code comments: 65, 45, 32, 18 |
| `Scoring.Monotone` | dashboard.py:60-88 | raising any counter never lowers the tier's rank nor the total points |
| `Batch.NaNSurvivesOrZero` | dashboard.py:117-119 | a NaN cell comes out of `or 0` as NaN, not as 0 |
| `Batch.OrZero` | dashboard.py:117-119 | the intended reading of a counter agrees with `cell or 0` as written on every cell but NaN, and reads NaN as 0 |
| `Batch.ColumnsOf` | dashboard.py:125-127 | the three projected columns are as long as `arcade_data` |
| `Batch.LoadScores` | dashboard.py:114-127 | one record per row, in row order, each the calculator applied to the row's counters (missing as 0, no special games); the columns carry each record's total, tier label and bonus |
| `Batch.SampleScores` | dashboard.py:151-163 | the same per-row guarantee for the generated rows, which have no missing counters |
| `Batch.AbsentCountsScoreAsZero` | dashboard.py:116-121 | a row with all counters present scores exactly as its numbers; a row with all counters missing scores 0 with no milestone |
| `Batch.MilestoneColumnLabels` | dashboard.py:126 | every 'Milestone Achieved' entry is one of the five labels the milestone summary lists |
| `Display.BadgeCategory` | dashboard.py:256-268 | every cell of the raw badge column, missing ones included, gets one of the five chart categories |
| `Display.BadgeCategoryRanges` | dashboard.py:256-266 | exact range of each bucket, both directions: 0; nonzero up to 5; 6-15; 16-30; above 30 |
| `Display.MissingBadgesChartedAsExpert` | dashboard.py:256-268 | a missing badge count fails every comparison and is charted as "30+ Badges (Expert)", not with the zero counts |
| `Display.IntendedBadgeCategory` | dashboard.py:256-268 | the intended bucket: a missing count goes to "0 Badges", a present one is bucketed as written; this is the ladder applied to the scoring loop's reading of the cell |
| `Display.BadgeCategoryMatchesBounds` | dashboard.py:256-279 | for non-negative counts the ladder picks the category at the position given by how many bucket bounds lie below the count |
| `Display.BoundsBelowMonotone` | dashboard.py:256-279 | for non-negative counts, more badges never move a participant to an earlier category |
| `Display.Percent` | dashboard.py:410-430 | a progress figure is at most 100, equals 100 exactly when the count meets the threshold, and is non-negative for non-negative counts |
| `Display.NextMilestone` | dashboard.py:405-436 | the done message is shown exactly when the current label is not None or Milestone 1-3 |
| `Display.Above` | dashboard.py:405-430 | the target tier is exactly one rank above the current one |
| `Display.NextMilestoneIsTierAbove` | dashboard.py:405-430 | below Ultimate, the target is the next tier up; its requirement text spells out that tier's thresholds; each progress bar measures against that tier's threshold |
| `Display.Milestone1Text` | dashboard.py:409 | the Milestone 1 requirement text is the spellings of the table row 4/4/10 joined with the unit names |
| `Display.Milestone2Text` | dashboard.py:415 | the Milestone 2 requirement text is the spellings of the table row 6/6/20 joined with the unit names |
| `Display.Milestone3Text` | dashboard.py:421 | the Milestone 3 requirement text is the spellings of the table row 8/7/30 joined with the unit names |
| `Display.UltimateText` | dashboard.py:427 | the Ultimate requirement text is the spellings of the table row 10/8/44 joined with the unit names |
| `Display.NextMilestoneDoneAtUltimate` | dashboard.py:431-436 | at Ultimate: the done message and three full bars |
| `Display.SomeBarBelowFull` | dashboard.py:405-430 | for any participant scored below Ultimate, at least one bar toward the next tier is below 100% |
| `Leaderboard.BestPosition` | dashboard.py:319 | picks the candidate ahead of all others: most points, earliest row on ties |
| `Leaderboard.Ranked` | dashboard.py:319 | orders all rows strictly best first; every row appears exactly once |
| `Leaderboard.NLargest` | dashboard.py:319 | selects min(k, rows) row positions, all valid |
| `Leaderboard.NLargestIsTop` | dashboard.py:319 | the selection has no repeats and is in non-increasing points; ties keep table order; no row left out has more points than a selected one, and on equal points the left-out row comes later |
| `Leaderboard.RankLabel` | dashboard.py:324-332 | every label has at least two characters, and it starts with "#" exactly when its position has no medal (from the fourth row on) |
| `Leaderboard.RankLabelShape` | dashboard.py:324-332 | each label is a medal prefix, then "#", then the 1-based position; only positions 0-2 carry a medal |
| `Leaderboard.RankLabelsDistinct` | dashboard.py:324-332 | no two positions share a label |
| `Leaderboard.LeaderboardRows` | dashboard.py:322-343 | the loop appends one row per selected participant, in selection order; row i carries rank label i and that participant's name, counters, milestone, points and status |
| `Leaderboard.CreateLeaderboard` | dashboard.py:319-343 | at most 15 rows, in non-increasing points; row i carries rank label i and the i-th selected participant's fields; no participant left off has more points than a listed row |
| `Decimal.NatToString` | dashboard.py:332 | the decimal spelling of `idx + 1` is non-empty and all digits, with one digit exactly below 10 |
| `Decimal.ParseOfNatToString` | dashboard.py:332 | reading the spelling back gives the number |
| `Decimal.NatToStringInjective` | dashboard.py:332 | different numbers are spelled differently |

## Findings

| source | as written | input that shows it | evidently intended | confidence | as-written member | corrected member |
|---|---|---|---|---|---|---|
| dashboard.py:117-119 | `row[col] or 0` guards a missing counter, but pandas reads an empty CSV cell of a numeric column as NaN. NaN is truthy, so it passes through unchanged and reaches `calculate_arcade_points` | a participant row whose '# Jumlah Game Arcade yang Diselesaikan' cell is empty | a missing counter counts as 0 | medium, not executed | `Batch.NaNSurvivesOrZero` | `Batch.OrZero` |
| dashboard.py:256-268 | `badge_category` runs on the raw badge column. The `or 0` of lines 117-119 rewrites only the loop's own variables, so an empty badge cell is still NaN here. NaN fails `== 0` and every `<=`, so the ladder falls through to its last branch | a participant row whose '# Jumlah Skill Badge yang Diselesaikan' cell is empty | a missing badge count is charted with the zero counts | medium, not executed | `Display.MissingBadgesChartedAsExpert` | `Display.IntendedBadgeCategory` |

The scoring loop `Batch.LoadScores` uses the corrected reading `Batch.OrZero`.
`Batch.PyOrZero` models the guard as written, and `Display.BadgeCategory` models
the chart ladder as written, on raw cells.

## Left out

- Level/XP, percentile rank and rank tiers, combo multipliers, achievements and
  population averages: dashboard.py contains no code for them, so there is
  nothing to model.
- Rejection of negative counters: dashboard.py has no such check, and the model
  accepts any integer.
- Display.Percent: uses exact real arithmetic. It does not model floating-point
  rounding of `x / k * 100`; rounding cannot reach 100 for the thresholds used
  (at most 44).
- Integers are unbounded. The 64-bit width of the table columns is not modelled,
  and counts stay far below it.
- Leaderboard.NLargest: models pandas `nlargest(15, ...)` by its documented
  result: best first, earlier rows first on ties. The pandas algorithm itself and
  its handling of NaN points are not modelled.
- Missing counters are modelled as a `None` or NaN cell, both in the scoring
  loop (`Batch.Cell`) and in the badge chart (`Display.BadgeCategory`). Other float
  values in the columns (such as 12.0) are modelled as plain integers.
- Display.BadgeCategory: treats a `None` cell like NaN, as a numeric pandas column
  stores it. An object column holding `None` would make `None <= 5` raise a
  TypeError; that failure is not modelled.
- Page setup, CSS, metrics, sidebar filters, selectbox search, tables and the
  download button (dashboard.py:9-55, 167-208, 348-358, 360-400, 438-517) are
  user interface with no rules.
- Pie, bar and histogram construction (dashboard.py:240-247, 281-312) is
  charting.
- The milestone summary's counts and percentages (dashboard.py:215-236) are
  display. `Batch.MilestoneColumnLabels` states only that every row falls under
  one of its five labels.
- CSV reading, the `st.cache_data` memoisation and dropping the sensitive
  columns (dashboard.py:103-112, 510) are I/O and caching.
- Random sample-data generation (dashboard.py:136-147) is left out. Its scoring
  loop is modelled, and its rows become the input of `Batch.SampleScores`.
- The `int(...)` conversions of leaderboard fields (dashboard.py:337-341) act on
  values that are already integers in the model.
