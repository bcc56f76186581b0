/** The per-row scoring loops of `load_data` (dashboard.py lines 114-127) and
    `generate_sample_data` (lines 151-163): score every participant row in order,
    collect the records in `arcade_data`, then project out the three table columns. */
module Batch {
  import opened Scoring

  /** A counter cell as a row of the export yields it: a number, Python's `None`, or the
      NaN that the CSV reader puts in an empty cell of a numeric column. */
  datatype Cell = Number(value: int) | Empty | NaN

  /** Python's truthiness of a cell: zero, `None` and nothing else are false. */
  predicate Truthy(c: Cell) {
    match c
    case Number(v) => v != 0
    case Empty => false
    case NaN => true
  }

  /** `cell or 0` exactly as written: a truthy cell passes through, anything else becomes 0. */
  function PyOrZero(c: Cell): Cell {
    if Truthy(c) then c else Number(0)
  }

  /** NaN is truthy, so an empty CSV cell survives `or 0` and is not read as zero. */
  lemma NaNSurvivesOrZero()
    ensures PyOrZero(NaN) == NaN && PyOrZero(NaN) != Number(0)
  {
  }

  /** The reading the guard intends: a missing count of either kind is 0. It agrees with
      the guard as written on every cell except NaN, which the guard lets through. */
  function OrZero(c: Cell): (r: int)
    ensures c != NaN ==> PyOrZero(c) == Number(r)
    ensures c == NaN ==> r == 0
  {
    match c
    case Number(v) => v
    case Empty => 0
    case NaN => 0
  }

  /** A participant row as read from the export; any counter may be absent. */
  datatype RawRow = RawRow(skillBadges: Cell, gameArcade: Cell, gameTrivia: Cell)

  /** A generated sample row; all three counters are present. */
  datatype Counts = Counts(skillBadges: int, gameArcade: int, gameTrivia: int)

  /** The 'Arcade Points', 'Milestone Achieved' and 'Milestone Bonus' columns. */
  datatype Columns = Columns(arcadePoints: seq<int>, milestoneAchieved: seq<string>, milestoneBonus: seq<int>)

  /** The three list comprehensions that turn `arcade_data` into table columns. */
  function ColumnsOf(arcadeData: seq<ArcadePoints>): (c: Columns)
    ensures |c.arcadePoints| == |c.milestoneAchieved| == |c.milestoneBonus| == |arcadeData|
  {
    Columns(
      seq(|arcadeData|, i requires 0 <= i < |arcadeData| => arcadeData[i].totalPoints),
      seq(|arcadeData|, i requires 0 <= i < |arcadeData| => Label(arcadeData[i].milestoneAchieved)),
      seq(|arcadeData|, i requires 0 <= i < |arcadeData| => arcadeData[i].milestoneBonus))
  }

  /** Scores what `load_data` reads: one record per row, in row order, each the
      calculator applied to the row's counts with absent counts as 0 and no special games;
      the columns carry each record's total, tier label and bonus. */
  method LoadScores(rows: seq<RawRow>) returns (arcadeData: seq<ArcadePoints>, columns: Columns)
    ensures |arcadeData| == |rows|
    ensures forall i :: 0 <= i < |rows| ==>
      arcadeData[i] == CalculateArcadePoints(
        OrZero(rows[i].skillBadges), OrZero(rows[i].gameArcade), OrZero(rows[i].gameTrivia), 0)
    ensures |columns.arcadePoints| == |columns.milestoneAchieved| == |columns.milestoneBonus| == |rows|
    ensures forall i :: 0 <= i < |rows| ==>
      columns.arcadePoints[i] == arcadeData[i].totalPoints &&
      columns.milestoneAchieved[i] == Label(arcadeData[i].milestoneAchieved) &&
      columns.milestoneBonus[i] == arcadeData[i].milestoneBonus
  {
    arcadeData := [];
    var i := 0;
    while i < |rows|
      invariant 0 <= i <= |rows|
      invariant |arcadeData| == i
      invariant forall k :: 0 <= k < i ==>
        arcadeData[k] == CalculateArcadePoints(
          OrZero(rows[k].skillBadges), OrZero(rows[k].gameArcade), OrZero(rows[k].gameTrivia), 0)
    {
      var skillBadges := OrZero(rows[i].skillBadges);
      var gameArcade := OrZero(rows[i].gameArcade);
      var gameTrivia := OrZero(rows[i].gameTrivia);
      var pointsData := CalculateArcadePoints(skillBadges, gameArcade, gameTrivia, 0);
      arcadeData := arcadeData + [pointsData];
      i := i + 1;
    }
    columns := ColumnsOf(arcadeData);
  }

  /** Scores the generated sample rows the same way, without the absent-count guard. */
  method SampleScores(rows: seq<Counts>) returns (arcadeData: seq<ArcadePoints>, columns: Columns)
    ensures |arcadeData| == |rows|
    ensures forall i :: 0 <= i < |rows| ==>
      arcadeData[i] == CalculateArcadePoints(rows[i].skillBadges, rows[i].gameArcade, rows[i].gameTrivia, 0)
    ensures |columns.arcadePoints| == |columns.milestoneAchieved| == |columns.milestoneBonus| == |rows|
    ensures forall i :: 0 <= i < |rows| ==>
      columns.arcadePoints[i] == arcadeData[i].totalPoints &&
      columns.milestoneAchieved[i] == Label(arcadeData[i].milestoneAchieved) &&
      columns.milestoneBonus[i] == arcadeData[i].milestoneBonus
  {
    arcadeData := [];
    for i := 0 to |rows|
      invariant |arcadeData| == i
      invariant forall k :: 0 <= k < i ==>
        arcadeData[k] == CalculateArcadePoints(rows[k].skillBadges, rows[k].gameArcade, rows[k].gameTrivia, 0)
    {
      var pointsData := CalculateArcadePoints(rows[i].skillBadges, rows[i].gameArcade, rows[i].gameTrivia, 0);
      arcadeData := arcadeData + [pointsData];
    }
    columns := ColumnsOf(arcadeData);
  }

  /** A row whose counters are all present scores exactly as the sample row with the
      same counters: the `or 0` guard changes nothing for present values, and a row
      with every counter absent scores 0 points with no milestone. */
  lemma AbsentCountsScoreAsZero(row: RawRow)
    ensures row.skillBadges.Number? && row.gameArcade.Number? && row.gameTrivia.Number? ==>
      CalculateArcadePoints(OrZero(row.skillBadges), OrZero(row.gameArcade), OrZero(row.gameTrivia), 0) ==
      CalculateArcadePoints(row.skillBadges.value, row.gameArcade.value, row.gameTrivia.value, 0)
    ensures !row.skillBadges.Number? && !row.gameArcade.Number? && !row.gameTrivia.Number? ==>
      var r := CalculateArcadePoints(OrZero(row.skillBadges), OrZero(row.gameArcade), OrZero(row.gameTrivia), 0);
      r.totalPoints == 0 && r.milestoneAchieved == NoMilestone
  {
  }

  /** Every entry of the 'Milestone Achieved' column is one of the five labels the
      milestone summary iterates over, so the summary accounts for every row. */
  lemma {:induction false} MilestoneColumnLabels(arcadeData: seq<ArcadePoints>, i: int)
    requires 0 <= i < |arcadeData|
    ensures ColumnsOf(arcadeData).milestoneAchieved[i] in ["Ultimate", "Milestone 3", "Milestone 2", "Milestone 1", "None"]
  {
    match arcadeData[i].milestoneAchieved
    case NoMilestone =>
    case Milestone1 =>
    case Milestone2 =>
    case Milestone3 =>
    case Ultimate =>
  }
}
