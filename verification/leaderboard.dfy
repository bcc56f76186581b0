/** The "Top Performers" table (`create_leaderboard`, dashboard.py lines 314-343):
    the 15 rows with the most arcade points, best first, each with a rank label. */
module Leaderboard {
  import opened Decimal

  /** A scored participant row as the table reads it. */
  datatype Participant = Participant(
    name: string,
    skillBadges: int,
    gameArcade: int,
    gameTrivia: int,
    milestoneAchieved: string,
    arcadePoints: int,
    redeemStatus: string)

  /** One row of `leaderboard_data`. */
  datatype LeaderboardRow = LeaderboardRow(
    rank: string,
    name: string,
    skillBadges: int,
    gameArcade: int,
    gameTrivia: int,
    milestone: string,
    arcadePoints: int,
    status: string)

  /** How many rows the table shows. */
  const TopCount: nat := 15

  function MinNat(a: nat, b: nat): nat {
    if a <= b then a else b
  }

  // ---------------------------------------------------------------------------
  // `nlargest(15, 'Arcade Points')`: the k rows with the most points, best first,
  // ties going to the row that comes first in the table.

  /** Row a is listed ahead of row b: more points, or as many and earlier in the table. */
  predicate Before(points: seq<int>, a: nat, b: nat)
    requires a < |points| && b < |points|
  {
    points[a] > points[b] || (points[a] == points[b] && a < b)
  }

  predicate Distinct(s: seq<nat>) {
    forall i, j :: 0 <= i < j < |s| ==> s[i] != s[j]
  }

  predicate InRange(s: seq<nat>, n: nat) {
    forall i :: 0 <= i < |s| ==> s[i] < n
  }

  /** The position, in cands, of the candidate listed ahead of all others. */
  function BestPosition(points: seq<int>, cands: seq<nat>): (m: nat)
    requires |cands| > 0 && InRange(cands, |points|) && Distinct(cands)
    ensures m < |cands|
    ensures forall j :: 0 <= j < |cands| && j != m ==> Before(points, cands[m], cands[j])
  {
    if |cands| == 1 then 0
    else
      var m' := BestPosition(points, cands[1..]);
      if Before(points, cands[0], cands[1 + m']) then 0 else 1 + m'
  }

  /** cands without the entry at position m. */
  function RemoveAt(cands: seq<nat>, m: nat): (r: seq<nat>)
    requires m < |cands|
    ensures |r| == |cands| - 1
    ensures forall i :: 0 <= i < |r| ==> r[i] == (if i < m then cands[i] else cands[i + 1])
  {
    cands[..m] + cands[m + 1..]
  }

  /** All candidates, ordered by repeatedly taking the best remaining one. */
  function Ranked(points: seq<int>, cands: seq<nat>): (r: seq<nat>)
    requires InRange(cands, |points|) && Distinct(cands)
    ensures |r| == |cands| && InRange(r, |points|)
    ensures forall i :: 0 <= i < |r| ==> r[i] in cands
    ensures forall c :: c in cands ==> c in r
    ensures forall i, j :: 0 <= i < j < |r| ==> Before(points, r[i], r[j])
    decreases |cands|
  {
    if cands == [] then []
    else
      var m := BestPosition(points, cands);
      var rest := RemoveAt(cands, m);
      RemovePreserves(cands, m);
      var tail := Ranked(points, rest);
      PrependMembers(cands, m, rest, tail);
      BestBeforeOthers(points, cands, m, tail);
      PrependOrdered(points, cands[m], tail);
      [cands[m]] + tail
  }

  /** The best candidate in front of the others holds exactly the candidates. */
  lemma PrependMembers(cands: seq<nat>, m: nat, rest: seq<nat>, tail: seq<nat>)
    requires m < |cands|
    requires forall c :: c in rest <==> c in cands && c != cands[m]
    requires forall i :: 0 <= i < |tail| ==> tail[i] in rest
    requires forall c :: c in rest ==> c in tail
    ensures forall i :: 0 <= i < |tail| + 1 ==> ([cands[m]] + tail)[i] in cands
    ensures forall c :: c in cands ==> c in [cands[m]] + tail
  {
    forall i | 0 <= i < |tail| + 1
      ensures ([cands[m]] + tail)[i] in cands
    {
      if i > 0 {
        assert ([cands[m]] + tail)[i] == tail[i - 1];
      }
    }
  }

  /** The best candidate is listed ahead of every other candidate. */
  lemma BestBeforeOthers(points: seq<int>, cands: seq<nat>, m: nat, others: seq<nat>)
    requires |cands| > 0 && InRange(cands, |points|) && Distinct(cands)
    requires m == BestPosition(points, cands)
    requires InRange(others, |points|)
    requires forall j :: 0 <= j < |others| ==> others[j] in cands && others[j] != cands[m]
    ensures forall j :: 0 <= j < |others| ==> Before(points, cands[m], others[j])
  {
    forall j | 0 <= j < |others|
      ensures Before(points, cands[m], others[j])
    {
      var k :| 0 <= k < |cands| && cands[k] == others[j];
    }
  }

  /** A row ahead of every row of a ranking, put in front of it, gives a ranking. */
  lemma PrependOrdered(points: seq<int>, x: nat, tail: seq<nat>)
    requires x < |points| && InRange(tail, |points|)
    requires forall j :: 0 <= j < |tail| ==> Before(points, x, tail[j])
    requires forall i, j :: 0 <= i < j < |tail| ==> Before(points, tail[i], tail[j])
    ensures forall i, j :: 0 <= i < j < |tail| + 1 ==> Before(points, ([x] + tail)[i], ([x] + tail)[j])
  {
    var r := [x] + tail;
    forall i, j | 0 <= i < j < |r|
      ensures Before(points, r[i], r[j])
    {
      assert r[j] == tail[j - 1];
      if i > 0 {
        assert r[i] == tail[i - 1];
      }
    }
  }

  /** What removing one candidate keeps: range, distinctness, and every other candidate. */
  lemma RemovePreserves(cands: seq<nat>, m: nat)
    requires m < |cands| && Distinct(cands)
    ensures forall n: nat :: InRange(cands, n) ==> InRange(RemoveAt(cands, m), n)
    ensures Distinct(RemoveAt(cands, m))
    ensures forall c :: c in RemoveAt(cands, m) <==> c in cands && c != cands[m]
  {
    var r := RemoveAt(cands, m);
    forall c | c in cands && c != cands[m]
      ensures c in r
    {
      var i :| 0 <= i < |cands| && cands[i] == c;
      assert r[if i < m then i else i - 1] == c;
    }
  }

  function Indices(n: nat): (s: seq<nat>)
    ensures |s| == n && InRange(s, n) && Distinct(s)
    ensures forall i :: 0 <= i < n ==> s[i] == i
  {
    seq(n, i requires 0 <= i < n => i)
  }

  /** The row positions of the k best rows, best first. */
  function NLargest(points: seq<int>, k: nat): (r: seq<nat>)
    ensures |r| == MinNat(k, |points|) && InRange(r, |points|)
  {
    Ranked(points, Indices(|points|))[..MinNat(k, |points|)]
  }

  /** The selection is a top-k list: best first with earlier rows winning ties, and
      every row left out is behind every row shown (so it has no more points). */
  lemma NLargestIsTop(points: seq<int>, k: nat)
    ensures var r := NLargest(points, k);
      Distinct(r) &&
      (forall i, j :: 0 <= i < j < |r| ==> points[r[i]] >= points[r[j]]) &&
      (forall i, j :: 0 <= i < j < |r| && points[r[i]] == points[r[j]] ==> r[i] < r[j]) &&
      (forall c, i :: 0 <= c < |points| && c !in r && 0 <= i < |r| ==>
         points[c] <= points[r[i]] && (points[c] == points[r[i]] ==> r[i] < c))
  {
    var all := Ranked(points, Indices(|points|));
    var r := NLargest(points, k);
    assert r == all[..|r|];
    forall i, j | 0 <= i < j < |r|
      ensures Before(points, r[i], r[j])
    {
      assert r[i] == all[i] && r[j] == all[j];
    }
    forall c, i | 0 <= c < |points| && c !in r && 0 <= i < |r|
      ensures Before(points, r[i], c)
    {
      assert Indices(|points|)[c] == c;
      assert c in all;
      var p :| 0 <= p < |all| && all[p] == c;
      assert p >= |r|;
      assert r[i] == all[i];
    }
  }

  // ---------------------------------------------------------------------------
  // Rank labels

  /** The medal shown before the rank of the first three rows. */
  function MedalPrefix(idx: nat): string {
    if idx == 0 then "\U{1F947} "
    else if idx == 1 then "\U{1F948} "
    else if idx == 2 then "\U{1F949} "
    else ""
  }

  /** Gold, silver and bronze for positions 0-2, then "#k" with k = idx + 1: a label
      starts with "#" exactly when it has no medal. */
  function RankLabel(idx: nat): (r: string)
    ensures |r| >= 2
    ensures r[0] == '#' <==> idx >= 3
  {
    if idx == 0 then "\U{1F947} #1"
    else if idx == 1 then "\U{1F948} #2"
    else if idx == 2 then "\U{1F949} #3"
    else "#" + NatToString(idx + 1)
  }

  /** Every label is the medal prefix, "#" and the 1-based position; only the first
      three carry a medal. */
  lemma RankLabelShape(idx: nat)
    ensures RankLabel(idx) == MedalPrefix(idx) + "#" + NatToString(idx + 1)
    ensures MedalPrefix(idx) != "" <==> idx < 3
  {
    if idx < 3 {
      SingleDigitSpelled(idx + 1);
    }
  }

  lemma SingleDigitSpelled(n: nat)
    requires n < 10
    ensures NatToString(n) == [DigitChar(n)]
  {
  }

  /** No two positions share a label. */
  lemma RankLabelsDistinct(i: nat, j: nat)
    requires i != j
    ensures RankLabel(i) != RankLabel(j)
  {
    if i >= 3 && j >= 3 {
      NumberedLabelsDistinct(i, j);
    } else if i < 3 && j < 3 {
      PodiumLabelsDistinct(i, j);
    } else {
      assert RankLabel(i)[0] != RankLabel(j)[0];
    }
  }

  lemma NumberedLabelsDistinct(i: nat, j: nat)
    requires 3 <= i && 3 <= j && i != j
    ensures RankLabel(i) != RankLabel(j)
  {
    var si, sj := RankLabel(i), RankLabel(j);
    if si == sj {
      assert si[1..] == NatToString(i + 1);
      assert sj[1..] == NatToString(j + 1);
      NatToStringInjective(i + 1, j + 1);
    }
  }

  lemma PodiumLabelsDistinct(i: nat, j: nat)
    requires i < 3 && j < 3 && i != j
    ensures RankLabel(i) != RankLabel(j)
  {
    assert RankLabel(i)[0] != RankLabel(j)[0];
  }

  // ---------------------------------------------------------------------------
  // The table

  function PointsOf(df: seq<Participant>): (points: seq<int>)
    ensures |points| == |df|
    ensures forall i :: 0 <= i < |df| ==> points[i] == df[i].arcadePoints
  {
    seq(|df|, i requires 0 <= i < |df| => df[i].arcadePoints)
  }

  /** The table row shown for a participant under a rank label. */
  function Entry(rank: string, row: Participant): LeaderboardRow {
    LeaderboardRow(rank, row.name, row.skillBadges, row.gameArcade, row.gameTrivia,
                   row.milestoneAchieved, row.arcadePoints, row.redeemStatus)
  }

  /** At most 15 rows, in non-increasing order of points, row idx labelled for position
      idx and carrying the participant `nlargest` put at that position; no participant
      left off the table has more points than any row on it. */
  method CreateLeaderboard(df: seq<Participant>) returns (leaderboardData: seq<LeaderboardRow>)
    ensures |leaderboardData| == MinNat(TopCount, |df|)
    ensures forall i :: 0 <= i < |leaderboardData| ==>
      leaderboardData[i] == Entry(RankLabel(i), df[NLargest(PointsOf(df), TopCount)[i]])
    ensures forall i, j :: 0 <= i < j < |leaderboardData| ==>
      leaderboardData[i].arcadePoints >= leaderboardData[j].arcadePoints
    ensures forall i :: 0 <= i < |leaderboardData| ==> leaderboardData[i].rank == RankLabel(i)
    ensures forall c, i :: 0 <= c < |df| && c !in NLargest(PointsOf(df), TopCount) && 0 <= i < |leaderboardData| ==>
      df[c].arcadePoints <= leaderboardData[i].arcadePoints
  {
    var topPerformers := NLargest(PointsOf(df), TopCount);
    leaderboardData := LeaderboardRows(df, topPerformers);
    TopPerformersOrdered(df, topPerformers);
  }

  /** The loop over the selected rows: one table row per selected participant, in the
      selection's order, labelled by its position. */
  method LeaderboardRows(df: seq<Participant>, topPerformers: seq<nat>) returns (leaderboardData: seq<LeaderboardRow>)
    requires InRange(topPerformers, |df|)
    ensures |leaderboardData| == |topPerformers|
    ensures forall i :: 0 <= i < |leaderboardData| ==>
      leaderboardData[i] == Entry(RankLabel(i), df[topPerformers[i]])
  {
    leaderboardData := [];
    for idx := 0 to |topPerformers|
      invariant |leaderboardData| == idx
      invariant forall i :: 0 <= i < idx ==> leaderboardData[i] == Entry(RankLabel(i), df[topPerformers[i]])
    {
      var row := df[topPerformers[idx]];
      var rankDisplay := RankLabel(idx);
      EntriesExtend(leaderboardData, Entry(rankDisplay, row), df, topPerformers);
      leaderboardData := leaderboardData + [Entry(rankDisplay, row)];
    }
  }

  /** The rows built so far, extended by the next position's row, are again rows built so far. */
  lemma EntriesExtend(rows: seq<LeaderboardRow>, next: LeaderboardRow, df: seq<Participant>, top: seq<nat>)
    requires |rows| < |top| && InRange(top, |df|)
    requires forall i :: 0 <= i < |rows| ==> rows[i] == Entry(RankLabel(i), df[top[i]])
    requires next == Entry(RankLabel(|rows|), df[top[|rows|]])
    ensures forall i :: 0 <= i <= |rows| ==> (rows + [next])[i] == Entry(RankLabel(i), df[top[i]])
  {
    forall i | 0 <= i <= |rows|
      ensures (rows + [next])[i] == Entry(RankLabel(i), df[top[i]])
    {
      if i < |rows| {
        assert (rows + [next])[i] == rows[i];
      }
    }
  }

  /** The order and cut-off facts of `nlargest`, read off the participants. */
  lemma TopPerformersOrdered(df: seq<Participant>, top: seq<nat>)
    requires top == NLargest(PointsOf(df), TopCount)
    ensures forall i, j :: 0 <= i < j < |top| ==> df[top[i]].arcadePoints >= df[top[j]].arcadePoints
    ensures forall c, i :: 0 <= c < |df| && c !in top && 0 <= i < |top| ==>
      df[c].arcadePoints <= df[top[i]].arcadePoints
  {
    var points := PointsOf(df);
    NLargestIsTop(points, TopCount);
    forall i, j | 0 <= i < j < |top|
      ensures df[top[i]].arcadePoints >= df[top[j]].arcadePoints
    {
      assert points[top[i]] >= points[top[j]];
    }
    forall c, i | 0 <= c < |df| && c !in top && 0 <= i < |top|
      ensures df[c].arcadePoints <= df[top[i]].arcadePoints
    {
      assert points[c] <= points[top[i]];
    }
  }
}
