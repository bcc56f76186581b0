/** The rule functions behind the dashboard's displays: the skill-badge bucketing of
    the progress chart (`badge_category`, dashboard.py lines 256-279) and the
    next-milestone ladder of the individual analysis (lines 405-436). */
module Display {
  import opened Scoring
  import opened Decimal
  import opened Batch

  // ---------------------------------------------------------------------------
  // Skill-badge buckets

  /** The chart's category order (`category_order`). */
  const CategoryOrder: seq<string> := [
    "0 Badges (Belum Mulai)",
    "1-5 Badges (Pemula)",
    "6-15 Badges (Berkembang)",
    "16-30 Badges (Mahir)",
    "30+ Badges (Expert)"
  ]

  /** The upper bounds of the first four buckets. */
  const BucketBounds: seq<int> := [0, 5, 15, 30]

  /** Reference definition of a count's bucket: how many bounds lie below it. */
  function BoundsBelow(bounds: seq<int>, count: int): (n: nat)
    ensures n <= |bounds|
  {
    if bounds == [] then 0
    else (if bounds[0] < count then 1 else 0) + BoundsBelow(bounds[1..], count)
  }

  /** `count == 0` on a cell of the raw badge column. In a numeric column pandas holds a
      missing value, `None` included, as NaN, and NaN compares false with everything. */
  predicate IsZero(c: Cell) {
    c.Number? && c.value == 0
  }

  /** `count <= bound` on a cell of the raw badge column; false for a missing value. */
  predicate AtMost(c: Cell, bound: int) {
    c.Number? && c.value <= bound
  }

  /** `badge_category` applied to the raw badge column, as written. */
  function BadgeCategory(count: Cell): (c: string)
    ensures c in CategoryOrder
  {
    if IsZero(count) then "0 Badges (Belum Mulai)"
    else if AtMost(count, 5) then "1-5 Badges (Pemula)"
    else if AtMost(count, 15) then "6-15 Badges (Berkembang)"
    else if AtMost(count, 30) then "16-30 Badges (Mahir)"
    else "30+ Badges (Expert)"
  }

  /** Each bucket's exact range. A negative count (which no export holds) falls into
      the "1-5" bucket, since the ladder only tests `count <= 5` after `count == 0`. */
  lemma BadgeCategoryRanges(count: int)
    ensures BadgeCategory(Number(count)) == CategoryOrder[0] <==> count == 0
    ensures BadgeCategory(Number(count)) == CategoryOrder[1] <==> count != 0 && count <= 5
    ensures BadgeCategory(Number(count)) == CategoryOrder[2] <==> 6 <= count <= 15
    ensures BadgeCategory(Number(count)) == CategoryOrder[3] <==> 16 <= count <= 30
    ensures BadgeCategory(Number(count)) == CategoryOrder[4] <==> count > 30
  {
  }

  /** The `or 0` guard of the scoring loop rewrites only its own variables, so a missing
      badge count reaches the ladder as NaN, fails every test and is charted as an expert. */
  lemma MissingBadgesChartedAsExpert(count: Cell)
    requires !count.Number?
    ensures BadgeCategory(count) == CategoryOrder[4]
    ensures BadgeCategory(count) != BadgeCategory(Number(0))
  {
  }

  /** The intended chart bucket: a missing badge count is read as 0, as the scoring loop
      reads it, and every present count is bucketed as written. */
  function IntendedBadgeCategory(count: Cell): (c: string)
    ensures !count.Number? ==> c == CategoryOrder[0]
    ensures count.Number? ==> c == BadgeCategory(count)
    ensures c == BadgeCategory(Number(OrZero(count)))
  {
    match count
    case Number(_) => BadgeCategory(count)
    case _ => "0 Badges (Belum Mulai)"
  }

  /** For every non-negative count the ladder picks the bucket the reference definition
      names, so buckets partition the counts and follow the chart order. */
  lemma BadgeCategoryMatchesBounds(count: int)
    requires count >= 0
    ensures BadgeCategory(Number(count)) == CategoryOrder[BoundsBelow(BucketBounds, count)]
  {
    var b := BucketBounds;
    assert b[1..] == [5, 15, 30] && b[1..][1..] == [15, 30];
    assert b[1..][1..][1..] == [30] && b[1..][1..][1..][1..] == [];
    var n3 := BoundsBelow([30], count);
    assert n3 == if 30 < count then 1 else 0;
    var n2 := BoundsBelow([15, 30], count);
    assert n2 == (if 15 < count then 1 else 0) + n3;
    var n1 := BoundsBelow([5, 15, 30], count);
    assert n1 == (if 5 < count then 1 else 0) + n2;
    assert BoundsBelow(b, count) == (if 0 < count then 1 else 0) + n1;
  }

  /** Among non-negative counts, more badges never move a participant to an earlier
      bucket (with BadgeCategoryMatchesBounds). */
  lemma {:induction false} BoundsBelowMonotone(bounds: seq<int>, a: int, b: int)
    requires a <= b
    ensures BoundsBelow(bounds, a) <= BoundsBelow(bounds, b)
  {
    if bounds != [] {
      BoundsBelowMonotone(bounds[1..], a, b);
    }
  }

  // ---------------------------------------------------------------------------
  // Progress toward the next milestone

  function Min(x: real, y: real): real {
    if x <= y then x else y
  }

  /** `min(count / need * 100, 100)`, in exact arithmetic. */
  function Percent(count: int, need: int): (p: real)
    requires need > 0
    ensures p <= 100.0
    ensures p == 100.0 <==> count >= need
    ensures count >= 0 ==> p >= 0.0
  {
    var ratio := count as real / need as real;
    assert ratio >= 1.0 <==> count >= need;
    Min(ratio * 100.0, 100.0)
  }

  /** The target, requirement text and three progress figures shown for a participant. */
  datatype MilestoneProgress = MilestoneProgress(
    target: string,
    targetReq: string,
    progressArcade: real,
    progressTrivia: real,
    progressSkill: real)

  const DoneTarget: string := "\U{1F389} Sudah mencapai Ultimate!"
  const DoneReq: string := "Selamat! Anda sudah menyelesaikan semua milestone!"

  /** The ladder on the participant's 'Milestone Achieved' text: any text other than the
      four below Ultimate means every milestone is done. */
  function NextMilestone(current: string, skillBadges: int, gameArcade: int, gameTrivia: int): (r: MilestoneProgress)
    ensures r.target == DoneTarget <==>
      current !in {"None", "Milestone 1", "Milestone 2", "Milestone 3"}
  {
    if current == "None" then
      MilestoneProgress("Milestone 1", "4 Arcade + 4 Trivia + 10 Skill Badges",
        Percent(gameArcade, 4), Percent(gameTrivia, 4), Percent(skillBadges, 10))
    else if current == "Milestone 1" then
      MilestoneProgress("Milestone 2", "6 Arcade + 6 Trivia + 20 Skill Badges",
        Percent(gameArcade, 6), Percent(gameTrivia, 6), Percent(skillBadges, 20))
    else if current == "Milestone 2" then
      MilestoneProgress("Milestone 3", "8 Arcade + 7 Trivia + 30 Skill Badges",
        Percent(gameArcade, 8), Percent(gameTrivia, 7), Percent(skillBadges, 30))
    else if current == "Milestone 3" then
      MilestoneProgress("Ultimate Milestone", "10 Arcade + 8 Trivia + 44 Skill Badges",
        Percent(gameArcade, 10), Percent(gameTrivia, 8), Percent(skillBadges, 44))
    else
      MilestoneProgress(DoneTarget, DoneReq, 100.0, 100.0, 100.0)
  }

  /** The tier directly above m. */
  function Above(m: Milestone): (n: Milestone)
    requires m != Ultimate
    ensures Rank(n) == Rank(m) + 1
  {
    match m
    case NoMilestone => Milestone1
    case Milestone1 => Milestone2
    case Milestone2 => Milestone3
    case Milestone3 => Ultimate
  }

  /** How the target tier is named on screen. */
  function TargetName(m: Milestone): string {
    if m == Ultimate then "Ultimate Milestone" else Label(m)
  }

  /** The requirement text a tier's thresholds spell out. */
  function RequirementText(q: Requirement): string {
    NatToString(q.arcade) + " Arcade + " + NatToString(q.trivia) + " Trivia + "
      + NatToString(q.skillBadges) + " Skill Badges"
  }

  /** Below Ultimate, the target is the tier directly above the current one: its name,
      a requirement text that spells out exactly the scoring table's thresholds, and
      progress measured against those thresholds. */
  lemma NextMilestoneIsTierAbove(m: Milestone, skillBadges: int, gameArcade: int, gameTrivia: int)
    requires m != Ultimate
    ensures var r := NextMilestone(Label(m), skillBadges, gameArcade, gameTrivia);
      var q := RequirementOf(Above(m));
      r.target == TargetName(Above(m)) &&
      r.targetReq == RequirementText(q) &&
      r.progressArcade == Percent(gameArcade, q.arcade) &&
      r.progressTrivia == Percent(gameTrivia, q.trivia) &&
      r.progressSkill == Percent(skillBadges, q.skillBadges)
  {
    var q := RequirementOf(Above(m));
    var r := NextMilestone(Label(m), skillBadges, gameArcade, gameTrivia);
    match m
    case NoMilestone =>
      Spelled(q.arcade, "4");
      Spelled(q.trivia, "4");
      Spelled(q.skillBadges, "10");
      Milestone1Text(NatToString(q.arcade), NatToString(q.trivia), NatToString(q.skillBadges), r.targetReq);
    case Milestone1 =>
      Spelled(q.arcade, "6");
      Spelled(q.trivia, "6");
      Spelled(q.skillBadges, "20");
      Milestone2Text(NatToString(q.arcade), NatToString(q.trivia), NatToString(q.skillBadges), r.targetReq);
    case Milestone2 =>
      Spelled(q.arcade, "8");
      Spelled(q.trivia, "7");
      Spelled(q.skillBadges, "30");
      Milestone3Text(NatToString(q.arcade), NatToString(q.trivia), NatToString(q.skillBadges), r.targetReq);
    case Milestone3 =>
      Spelled(q.arcade, "10");
      Spelled(q.trivia, "8");
      Spelled(q.skillBadges, "44");
      UltimateText(NatToString(q.arcade), NatToString(q.trivia), NatToString(q.skillBadges), r.targetReq);
  }

  // Each requirement text written into the ladder is one table row's spellings joined
  // with the unit names.

  lemma Milestone1Text(arcade: string, trivia: string, skillBadges: string, text: string)
    requires arcade == "4" && trivia == "4" && skillBadges == "10" && text == "4 Arcade + 4 Trivia + 10 Skill Badges"
    ensures arcade + " Arcade + " + trivia + " Trivia + " + skillBadges + " Skill Badges" == text
  {
  }

  lemma Milestone2Text(arcade: string, trivia: string, skillBadges: string, text: string)
    requires arcade == "6" && trivia == "6" && skillBadges == "20" && text == "6 Arcade + 6 Trivia + 20 Skill Badges"
    ensures arcade + " Arcade + " + trivia + " Trivia + " + skillBadges + " Skill Badges" == text
  {
  }

  lemma Milestone3Text(arcade: string, trivia: string, skillBadges: string, text: string)
    requires arcade == "8" && trivia == "7" && skillBadges == "30" && text == "8 Arcade + 7 Trivia + 30 Skill Badges"
    ensures arcade + " Arcade + " + trivia + " Trivia + " + skillBadges + " Skill Badges" == text
  {
  }

  lemma UltimateText(arcade: string, trivia: string, skillBadges: string, text: string)
    requires arcade == "10" && trivia == "8" && skillBadges == "44" && text == "10 Arcade + 8 Trivia + 44 Skill Badges"
    ensures arcade + " Arcade + " + trivia + " Trivia + " + skillBadges + " Skill Badges" == text
  {
  }

  /** The spellings of the thresholds the table uses. */
  lemma Spelled(n: nat, s: string)
    requires (n == 4 && s == "4") || (n == 6 && s == "6") || (n == 7 && s == "7") || (n == 8 && s == "8")
      || (n == 10 && s == "10") || (n == 20 && s == "20") || (n == 30 && s == "30") || (n == 44 && s == "44")
    ensures NatToString(n) == s
  {
    if n >= 10 {
      TwoDigitSpelled(n / 10, n % 10);
    }
  }

  lemma TwoDigitSpelled(tens: nat, ones: nat)
    requires 1 <= tens < 10 && ones < 10
    ensures NatToString(10 * tens + ones) == [DigitChar(tens), DigitChar(ones)]
  {
    var n := 10 * tens + ones;
    assert n / 10 == tens && n % 10 == ones;
    assert NatToString(n) == NatToString(tens) + [DigitChar(ones)];
  }

  /** At Ultimate there is nothing left: the done message and full bars. */
  lemma NextMilestoneDoneAtUltimate(skillBadges: int, gameArcade: int, gameTrivia: int)
    ensures var r := NextMilestone(Label(Ultimate), skillBadges, gameArcade, gameTrivia);
      r.target == DoneTarget && r.targetReq == DoneReq &&
      r.progressArcade == 100.0 && r.progressTrivia == 100.0 && r.progressSkill == 100.0
  {
  }

  /** For a participant scored below Ultimate, at least one of the three bars toward the
      next tier is below 100%: otherwise the scorer would have credited that tier. */
  lemma {:induction false} SomeBarBelowFull(skillBadges: int, gameArcade: int, gameTrivia: int)
    requires CalculateArcadePoints(skillBadges, gameArcade, gameTrivia, 0).milestoneAchieved != Ultimate
    ensures var r := NextMilestone(Label(CalculateArcadePoints(skillBadges, gameArcade, gameTrivia, 0).milestoneAchieved),
                                   skillBadges, gameArcade, gameTrivia);
      r.progressArcade < 100.0 || r.progressTrivia < 100.0 || r.progressSkill < 100.0
  {
    var m := CalculateArcadePoints(skillBadges, gameArcade, gameTrivia, 0).milestoneAchieved;
    NextMilestoneIsTierAbove(m, skillBadges, gameArcade, gameTrivia);
    assert !Reaches(Above(m), skillBadges, gameArcade, gameTrivia);
  }
}
