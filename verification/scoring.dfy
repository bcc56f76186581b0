/** The arcade scoring system: base points from the three activity counters plus
    the bonus of the single highest milestone whose thresholds are all met
    (`calculate_arcade_points`, dashboard.py lines 57-101). */
module Scoring {

  /** The milestone tiers, loosest first. `NoMilestone` is the source's "None". */
  datatype Milestone = NoMilestone | Milestone1 | Milestone2 | Milestone3 | Ultimate

  /** Position of a tier in the ladder: 0 for no milestone up to 4 for Ultimate. */
  function Rank(m: Milestone): nat {
    match m
    case NoMilestone => 0
    case Milestone1 => 1
    case Milestone2 => 2
    case Milestone3 => 3
    case Ultimate => 4
  }

  /** The text stored in the 'Milestone Achieved' column. */
  function Label(m: Milestone): string {
    match m
    case NoMilestone => "None"
    case Milestone1 => "Milestone 1"
    case Milestone2 => "Milestone 2"
    case Milestone3 => "Milestone 3"
    case Ultimate => "Ultimate"
  }

  /** What a tier asks for: all three minimums at once. */
  datatype Requirement = Requirement(arcade: nat, trivia: nat, skillBadges: nat)

  /** The rule table, one row per tier above "None". */
  function RequirementOf(m: Milestone): Requirement
    requires m != NoMilestone
  {
    match m
    case Milestone1 => Requirement(4, 4, 10)
    case Milestone2 => Requirement(6, 6, 20)
    case Milestone3 => Requirement(8, 7, 30)
    case Ultimate => Requirement(10, 8, 44)
  }

  /** The bonus a tier grants. */
  function Bonus(m: Milestone): nat {
    match m
    case NoMilestone => 0
    case Milestone1 => 5
    case Milestone2 => 10
    case Milestone3 => 15
    case Ultimate => 25
  }

  /** The counts meet every threshold of tier m; "None" asks for nothing. */
  predicate Reaches(m: Milestone, skillBadges: int, gameArcade: int, gameTrivia: int) {
    m == NoMilestone ||
    (gameArcade >= RequirementOf(m).arcade &&
     gameTrivia >= RequirementOf(m).trivia &&
     skillBadges >= RequirementOf(m).skillBadges)
  }

  /** m is reached and no tier above it is: the tier a participant is credited with. */
  predicate IsHighestReached(m: Milestone, skillBadges: int, gameArcade: int, gameTrivia: int) {
    Reaches(m, skillBadges, gameArcade, gameTrivia) &&
    forall h: Milestone :: Rank(h) > Rank(m) ==> !Reaches(h, skillBadges, gameArcade, gameTrivia)
  }

  /** The per-component points shown in the individual analysis. */
  datatype Breakdown = Breakdown(skillPoints: int, gamePoints: int, triviaPoints: int, specialPoints: int)

  /** The record `calculate_arcade_points` returns. */
  datatype ArcadePoints = ArcadePoints(
    basePoints: int,
    milestoneBonus: int,
    totalPoints: int,
    milestoneAchieved: Milestone,
    breakdown: Breakdown)

  /** One point per two skill badges (Python's floor `//`, which for the divisor 2 agrees
      with Dafny's `/` on every integer), one point per arcade, trivia and special game,
      and the bonus of the strictest milestone whose three thresholds all hold. */
  function CalculateArcadePoints(skillBadges: int, gameArcade: int, gameTrivia: int, specialGames: int): (r: ArcadePoints)
    ensures 2 * r.breakdown.skillPoints <= skillBadges < 2 * r.breakdown.skillPoints + 2
    ensures r.breakdown.gamePoints == gameArcade && r.breakdown.triviaPoints == gameTrivia
    ensures r.breakdown.specialPoints == specialGames
    ensures r.basePoints == r.breakdown.skillPoints + gameArcade + gameTrivia + specialGames
    ensures IsHighestReached(r.milestoneAchieved, skillBadges, gameArcade, gameTrivia)
    ensures r.milestoneBonus == Bonus(r.milestoneAchieved)
    ensures r.totalPoints == r.basePoints + r.milestoneBonus
  {
    var skillPoints := skillBadges / 2;
    var baseTotal := skillPoints + gameArcade + gameTrivia + specialGames;
    var (milestoneBonus, milestoneAchieved) :=
      if gameArcade >= 10 && gameTrivia >= 8 && skillBadges >= 44 then (25, Ultimate)
      else if gameArcade >= 8 && gameTrivia >= 7 && skillBadges >= 30 then (15, Milestone3)
      else if gameArcade >= 6 && gameTrivia >= 6 && skillBadges >= 20 then (10, Milestone2)
      else if gameArcade >= 4 && gameTrivia >= 4 && skillBadges >= 10 then (5, Milestone1)
      else (0, NoMilestone);
    ArcadePoints(baseTotal, milestoneBonus, baseTotal + milestoneBonus, milestoneAchieved,
                 Breakdown(skillPoints, gameArcade, gameTrivia, specialGames))
  }

  /** A higher tier's thresholds dominate a lower one's on every counter, so reaching
      a tier means reaching every tier below it. */
  lemma ReachesBelow(lo: Milestone, hi: Milestone, skillBadges: int, gameArcade: int, gameTrivia: int)
    requires Rank(lo) <= Rank(hi)
    requires Reaches(hi, skillBadges, gameArcade, gameTrivia)
    ensures Reaches(lo, skillBadges, gameArcade, gameTrivia)
  {
  }

  /** Tiers are strictly ordered by bonus as well as by thresholds. */
  lemma BonusStrictlyIncreasing(lo: Milestone, hi: Milestone)
    requires Rank(lo) < Rank(hi)
    ensures Bonus(lo) < Bonus(hi)
  {
  }

  /** At most one tier is the highest reached one. */
  lemma HighestReachedUnique(m: Milestone, n: Milestone, skillBadges: int, gameArcade: int, gameTrivia: int)
    requires IsHighestReached(m, skillBadges, gameArcade, gameTrivia)
    requires IsHighestReached(n, skillBadges, gameArcade, gameTrivia)
    ensures m == n
  {
  }

  /** The credited tier is exactly the highest reached one, in both directions:
      a tier is reported iff it is reached and nothing above it is. */
  lemma AchievedIffHighest(m: Milestone, skillBadges: int, gameArcade: int, gameTrivia: int, specialGames: int)
    ensures CalculateArcadePoints(skillBadges, gameArcade, gameTrivia, specialGames).milestoneAchieved == m
        <==> IsHighestReached(m, skillBadges, gameArcade, gameTrivia)
  {
    var a := CalculateArcadePoints(skillBadges, gameArcade, gameTrivia, specialGames).milestoneAchieved;
    if IsHighestReached(m, skillBadges, gameArcade, gameTrivia) {
      HighestReachedUnique(m, a, skillBadges, gameArcade, gameTrivia);
    }
  }

  /** A reached tier is never reported as a lower one: the credited tier ranks at least
      as high as every tier whose thresholds hold, and its bonus is the largest of theirs. */
  lemma ReachedNeverUnderReported(m: Milestone, skillBadges: int, gameArcade: int, gameTrivia: int, specialGames: int)
    requires Reaches(m, skillBadges, gameArcade, gameTrivia)
    ensures Rank(m) <= Rank(CalculateArcadePoints(skillBadges, gameArcade, gameTrivia, specialGames).milestoneAchieved)
    ensures Bonus(m) <= CalculateArcadePoints(skillBadges, gameArcade, gameTrivia, specialGames).milestoneBonus
  {
    var r := CalculateArcadePoints(skillBadges, gameArcade, gameTrivia, specialGames);
    if Rank(m) < Rank(r.milestoneAchieved) {
      BonusStrictlyIncreasing(m, r.milestoneAchieved);
    }
  }

  /** Meeting Ultimate's thresholds always yields Ultimate and its bonus of 25. */
  lemma UltimateWins(skillBadges: int, gameArcade: int, gameTrivia: int, specialGames: int)
    requires gameArcade >= 10 && gameTrivia >= 8 && skillBadges >= 44
    ensures CalculateArcadePoints(skillBadges, gameArcade, gameTrivia, specialGames).milestoneAchieved == Ultimate
    ensures CalculateArcadePoints(skillBadges, gameArcade, gameTrivia, specialGames).milestoneBonus == 25
  {
    ReachedNeverUnderReported(Ultimate, skillBadges, gameArcade, gameTrivia, specialGames);
  }

  /** Bonuses never stack: the bonus is one tier's value, 0 exactly when no tier is reached,
      and each value names a single tier. */
  lemma BonusIdentifiesTier(skillBadges: int, gameArcade: int, gameTrivia: int, specialGames: int)
    ensures var r := CalculateArcadePoints(skillBadges, gameArcade, gameTrivia, specialGames);
      r.milestoneBonus in {0, 5, 10, 15, 25} &&
      (r.milestoneBonus == 0 <==> r.milestoneAchieved == NoMilestone) &&
      (forall m: Milestone :: Bonus(m) == r.milestoneBonus ==> m == r.milestoneAchieved)
  {
  }

  /** The totals the code comments give for counts exactly at each tier's thresholds:
      65, 45, 32 and 18 points. */
  function AdvertisedTotal(m: Milestone): int
    requires m != NoMilestone
  {
    match m
    case Ultimate => 65
    case Milestone3 => 45
    case Milestone2 => 32
    case Milestone1 => 18
  }

  lemma ExactThresholdTotals(m: Milestone)
    requires m != NoMilestone
    ensures var q := RequirementOf(m);
      var r := CalculateArcadePoints(q.skillBadges, q.arcade, q.trivia, 0);
      r.milestoneAchieved == m && r.totalPoints == AdvertisedTotal(m)
  {
  }

  /** Raising any counter never lowers the credited tier nor the total. */
  lemma Monotone(
    skillBadges: int, gameArcade: int, gameTrivia: int, specialGames: int,
    skillBadges': int, gameArcade': int, gameTrivia': int, specialGames': int)
    requires skillBadges <= skillBadges' && gameArcade <= gameArcade'
    requires gameTrivia <= gameTrivia' && specialGames <= specialGames'
    ensures var r := CalculateArcadePoints(skillBadges, gameArcade, gameTrivia, specialGames);
      var r' := CalculateArcadePoints(skillBadges', gameArcade', gameTrivia', specialGames');
      Rank(r.milestoneAchieved) <= Rank(r'.milestoneAchieved) && r.totalPoints <= r'.totalPoints
  {
    var r := CalculateArcadePoints(skillBadges, gameArcade, gameTrivia, specialGames);
    assert Reaches(r.milestoneAchieved, skillBadges', gameArcade', gameTrivia');
    ReachedNeverUnderReported(r.milestoneAchieved, skillBadges', gameArcade', gameTrivia', specialGames');
  }
}
