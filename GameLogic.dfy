/** The status-derivation engine (utils/gameLogic.ts): the cooldown ("ban")
    derived from the most recent loss, and the 0-100 sanction index derived
    from recent results. */
module GameLogic {
  import opened Wrappers
  import opened Types
  import opened ArrayOps

  // =============================================================== ban status

  datatype BanStatus = BanStatus(isBanned: bool, banExpiresAt: Option<int>)

  const NotBanned := BanStatus(false, None)

  /** The history copied and sorted by timestamp, newest first; records with
      equal timestamps keep their insertion order. */
  function NewestFirst(history: seq<MatchRecord>): (r: seq<MatchRecord>)
    ensures multiset(r) == multiset(history)
    ensures SortedDesc(r, Timestamp)
  {
    SortDescSpec(history, Timestamp);
    SortDesc(history, Timestamp)
  }

  /** Records with equal timestamps keep their insertion order. */
  lemma NewestFirstStable(history: seq<MatchRecord>, t: int)
    ensures WithKey(NewestFirst(history), Timestamp, t) == WithKey(history, Timestamp, t)
  {
    SortDescSpec(history, Timestamp);
  }

  predicate NoLoss(h: seq<MatchRecord>) {
    forall i :: 0 <= i < |h| ==> !IsLoss(h[i])
  }

  /** Whether the account is in its cooldown at time `now` and when the
      cooldown ends: three days after the newest loss, if that is still
      in the future. */
  function CalculateAccountStatus(history: seq<MatchRecord>, now: int): (r: BanStatus)
    ensures r.isBanned <==> r.banExpiresAt.Some?
    ensures r.isBanned ==> r.banExpiresAt.value > now
    ensures NoLoss(history) ==> r == NotBanned
    ensures r.isBanned ==> exists i :: 0 <= i < |history| && IsLoss(history[i])
                                  && r.banExpiresAt.value == history[i].timestamp + BanDurationMs
  {
    if |history| == 0 then NotBanned
    else
      var sorted := NewestFirst(history);
      match Find(sorted, IsLoss)
      case None => NotBanned
      case Some(latestLoss) =>
        assert latestLoss in multiset(history) by { assert latestLoss in sorted; }
        var banExpiration := latestLoss.timestamp + BanDurationMs;
        if banExpiration > now then BanStatus(true, Some(banExpiration)) else NotBanned
  }

  /** Reference definition: the largest timestamp of any LOSS, computed over
      the history in insertion order without sorting. */
  function LatestLossTime(h: seq<MatchRecord>): (r: Option<int>)
    ensures r.None? <==> NoLoss(h)
    ensures r.Some? ==> exists i :: 0 <= i < |h| && IsLoss(h[i]) && h[i].timestamp == r.value
    ensures r.Some? ==> forall i :: 0 <= i < |h| && IsLoss(h[i]) ==> h[i].timestamp <= r.value
  {
    if h == [] then None
    else
      var rest := LatestLossTime(h[1..]);
      assert forall i :: 1 <= i < |h| ==> h[i] == h[1..][i - 1];
      if !IsLoss(h[0]) then rest
      else match rest
        case None => Some(h[0].timestamp)
        case Some(t) => Some(if h[0].timestamp > t then h[0].timestamp else t)
  }

  /** The cooldown a newest-loss time gives at `now`. */
  function BanFrom(latest: Option<int>, now: int): BanStatus {
    match latest
    case None => NotBanned
    case Some(t) => if t + BanDurationMs > now then BanStatus(true, Some(t + BanDurationMs)) else NotBanned
  }

  /** A loss time attained by some loss and bounding all of them is the
      newest-loss time. */
  lemma {:induction false} LatestLossTimeUnique(h: seq<MatchRecord>, t: int)
    requires exists i :: 0 <= i < |h| && IsLoss(h[i]) && h[i].timestamp == t
    requires forall i :: 0 <= i < |h| && IsLoss(h[i]) ==> h[i].timestamp <= t
    ensures LatestLossTime(h) == Some(t)
  {
    var i :| 0 <= i < |h| && IsLoss(h[i]) && h[i].timestamp == t;
  }

  /** Records present in the same numbers give the same newest-loss time. */
  lemma {:induction false} LatestLossTimeOfPermutation(h1: seq<MatchRecord>, h2: seq<MatchRecord>)
    requires multiset(h1) == multiset(h2)
    ensures LatestLossTime(h1) == LatestLossTime(h2)
  {
    forall i | 0 <= i < |h1| ensures h1[i] in h2 {
      assert h1[i] in multiset(h1);
    }
    forall i | 0 <= i < |h2| ensures h2[i] in h1 {
      assert h2[i] in multiset(h2);
    }
    if LatestLossTime(h1).Some? {
      var t := LatestLossTime(h1).value;
      var i :| 0 <= i < |h1| && IsLoss(h1[i]) && h1[i].timestamp == t;
      var j :| 0 <= j < |h2| && h2[j] == h1[i];
      forall k | 0 <= k < |h2| && IsLoss(h2[k]) ensures h2[k].timestamp <= t {
        var m :| 0 <= m < |h1| && h1[m] == h2[k];
      }
      LatestLossTimeUnique(h2, t);
    }
  }

  /** In a newest-first order the first loss is a newest loss. */
  lemma {:induction false} FirstLossIsLatest(s: seq<MatchRecord>)
    requires SortedDesc(s, Timestamp)
    ensures LatestLossTime(s) == match Find(s, IsLoss) { case None => None case Some(m) => Some(m.timestamp) }
  {
    if Find(s, IsLoss).Some? {
      var m := Find(s, IsLoss).value;
      var i :| 0 <= i < |s| && s[i] == m && IsLoss(s[i]) && forall j :: 0 <= j < i ==> !IsLoss(s[j]);
      forall j | 0 <= j < |s| && IsLoss(s[j]) ensures s[j].timestamp <= m.timestamp {
        if i < j { assert Timestamp(s[i]) >= Timestamp(s[j]); }
      }
      LatestLossTimeUnique(s, m.timestamp);
    } else {
      assert NoLoss(s);
    }
  }

  /** The status is governed by the single newest loss, by timestamp: banned
      until that loss plus three days exactly when this is later than `now`,
      and not banned with no expiry otherwise or when there is no loss. */
  lemma {:induction false} StatusFromLatestLoss(h: seq<MatchRecord>, now: int)
    ensures CalculateAccountStatus(h, now) == BanFrom(LatestLossTime(h), now)
  {
    if |h| == 0 {
      assert NoLoss(h);
    } else {
      var s := NewestFirst(h);
      StatusViaFirstLoss(h, now);
      LatestLossTimeOfPermutation(s, h);
      FirstLossIsLatest(s);
    }
  }

  /** The status of a non-empty history is the ban from the first LOSS of
      the newest-first order. */
  lemma StatusViaFirstLoss(h: seq<MatchRecord>, now: int)
    requires |h| > 0
    ensures CalculateAccountStatus(h, now)
            == BanFrom(match Find(NewestFirst(h), IsLoss) { case None => None case Some(m) => Some(m.timestamp) }, now)
  {
  }

  /** At one millisecond before the three days are over the account is still
      banned until exactly then; from that instant on it is not banned. */
  lemma {:induction false} BanWindowBoundary(h: seq<MatchRecord>, t: int, now: int)
    requires LatestLossTime(h) == Some(t)
    ensures CalculateAccountStatus(h, t + BanDurationMs - 1) == BanStatus(true, Some(t + BanDurationMs))
    ensures now >= t + BanDurationMs ==> CalculateAccountStatus(h, now) == NotBanned
  {
    StatusFromLatestLoss(h, t + BanDurationMs - 1);
    StatusFromLatestLoss(h, now);
  }

  /** The order in which records were inserted does not matter: only which
      records there are. */
  lemma {:induction false} StatusOfPermutation(h1: seq<MatchRecord>, h2: seq<MatchRecord>, now: int)
    requires multiset(h1) == multiset(h2)
    ensures CalculateAccountStatus(h1, now) == CalculateAccountStatus(h2, now)
  {
    StatusFromLatestLoss(h1, now);
    StatusFromLatestLoss(h2, now);
    LatestLossTimeOfPermutation(h1, h2);
  }

  /** Adding a WIN, however recent, neither lifts nor changes a cooldown. */
  lemma {:induction false} WinNeverLiftsBan(h: seq<MatchRecord>, w: MatchRecord, now: int)
    requires IsWin(w)
    ensures CalculateAccountStatus(h + [w], now) == CalculateAccountStatus(h, now)
  {
    var h' := h + [w];
    assert forall i :: 0 <= i < |h| ==> h'[i] == h[i];
    if LatestLossTime(h).Some? {
      var t := LatestLossTime(h).value;
      var i :| 0 <= i < |h| && IsLoss(h[i]) && h[i].timestamp == t;
      assert h'[i] == h[i];
      LatestLossTimeUnique(h', t);
    } else {
      assert NoLoss(h');
    }
    StatusFromLatestLoss(h, now);
    StatusFromLatestLoss(h', now);
  }

  /** A loss older than the newest one never matters. */
  lemma {:induction false} EarlierLossIrrelevant(h: seq<MatchRecord>, m: MatchRecord, t: int, now: int)
    requires LatestLossTime(h) == Some(t)
    requires IsLoss(m) && m.timestamp <= t
    ensures CalculateAccountStatus(h + [m], now) == CalculateAccountStatus(h, now)
  {
    var h' := h + [m];
    assert forall i :: 0 <= i < |h| ==> h'[i] == h[i];
    var i :| 0 <= i < |h| && IsLoss(h[i]) && h[i].timestamp == t;
    assert h'[i] == h[i];
    LatestLossTimeUnique(h', t);
    StatusFromLatestLoss(h, now);
    StatusFromLatestLoss(h', now);
  }

  /** Recording a loss now, after every earlier record, bans the account for
      exactly three days from now. */
  lemma {:induction false} LossNowBansThreeDays(h: seq<MatchRecord>, id: string, now: int)
    requires forall i :: 0 <= i < |h| ==> h[i].timestamp <= now
    ensures CalculateAccountStatus(h + [MatchRecord(id, Loss, now, None)], now)
         == BanStatus(true, Some(now + BanDurationMs))
  {
    var h' := h + [MatchRecord(id, Loss, now, None)];
    assert h'[|h|].timestamp == now;
    LatestLossTimeUnique(h', now);
    StatusFromLatestLoss(h', now);
  }

  // =========================================================== sanction index

  datatype Level = Safe | Warning | Danger

  /** The reasons the index lists; `LossStreakReason` carries the streak
      length that its text shows. */
  datatype Reason = LossStreakReason(streak: nat) | VeryLowWinRate | LowWinRate | LossDensity

  /** The description texts, which refine SAFE into a healthy and a
      mild-risk band. */
  datatype Description = InsufficientSample | Healthy | MildRisk | HighRisk | ExtremeRisk

  datatype SanctionAnalysis = SanctionAnalysis(score: int, level: Level, reasons: seq<Reason>, description: Description)

  /** The first `n` elements, or all of them: `s.slice(0, n)`. */
  function Take<T>(s: seq<T>, n: nat): (r: seq<T>)
    ensures |r| == if |s| < n then |s| else n
    ensures r == s[..|r|]
  {
    if |s| < n then s else s[..n]
  }

  function Min(a: int, b: int): int { if a < b then a else b }

  /** Number of records with the given result: `s.filter(...).length`. */
  function Count(s: seq<MatchRecord>, p: MatchRecord -> bool): nat {
    |Filter(s, p)|
  }

  /** Length of the maximal run of losses at the front of `s`. */
  function LossStreak(s: seq<MatchRecord>): (n: nat)
    ensures n <= |s|
    ensures forall i :: 0 <= i < n ==> IsLoss(s[i])
    ensures n < |s| ==> !IsLoss(s[n])
  {
    if s == [] || !IsLoss(s[0]) then 0
    else
      var n := 1 + LossStreak(s[1..]);
      assert forall i :: 1 <= i < n ==> s[i] == s[1..][i - 1];
      n
  }

  /** Rule 1: fifteen points per consecutive loss, from two losses on. */
  function StreakPoints(streak: nat): int {
    if streak >= 2 then streak * 15 else 0
  }

  /** Rule 2, on `wins` out of `count` recent games: a win rate of at most
      20% (5 * wins <= count) gives 50 points, else at most 40% gives 30. */
  function WinRatePoints(wins: nat, count: nat): int {
    if 5 * wins <= count then 50 else if 5 * wins <= 2 * count then 30 else 0
  }

  /** Rule 3: 35 points for at least four losses among the recent five. */
  function DensityPoints(losses: nat): int {
    if losses >= 4 then 35 else 0
  }

  /** The win-rate comparisons of the source, taken over real numbers, are
      the integer comparisons that `WinRatePoints` uses. */
  lemma WinRateThresholds(wins: nat, count: nat)
    requires 0 < count
    ensures (wins as real / count as real) * 100.0 <= 20.0 <==> 5 * wins <= count
    ensures (wins as real / count as real) * 100.0 <= 40.0 <==> 5 * wins <= 2 * count
  {
    var q := wins as real / count as real;
    assert q * count as real == wins as real;
  }

  /** The level: DANGER from 75, WARNING from 45, SAFE below. */
  function LevelOf(score: int): (l: Level)
    ensures l == Danger <==> score >= 75
    ensures l == Warning <==> 45 <= score < 75
    ensures l == Safe <==> score < 45
  {
    if score >= 75 then Danger else if score >= 45 then Warning else Safe
  }

  /** The description; inside SAFE, a score above 20 selects the mild-risk text. */
  function DescriptionOf(score: int): (d: Description)
    ensures LevelOf(score) == Safe ==> (d == MildRisk <==> score > 20) && (d == Healthy <==> score <= 20)
    ensures LevelOf(score) == Warning <==> d == HighRisk
    ensures LevelOf(score) == Danger <==> d == ExtremeRisk
  {
    if score >= 75 then ExtremeRisk else if score >= 45 then HighRisk else if score > 20 then MildRisk else Healthy
  }

  /** Position of a reason in the fixed order streak, win rate, density. */
  function RuleOf(r: Reason): nat {
    match r
    case LossStreakReason(_) => 0
    case VeryLowWinRate => 1
    case LowWinRate => 1
    case LossDensity => 2
  }

  function StreakReasons(streak: nat): seq<Reason> {
    if streak >= 2 then [LossStreakReason(streak)] else []
  }

  function WinRateReasons(wins: nat, count: nat): seq<Reason> {
    if 5 * wins <= count then [VeryLowWinRate] else if 5 * wins <= 2 * count then [LowWinRate] else []
  }

  function DensityReasons(losses: nat): seq<Reason> {
    if losses >= 4 then [LossDensity] else []
  }

  /** At most one reason per rule, listed in rule order. */
  lemma ReasonsOrdered(streak: nat, wins: nat, count: nat, losses: nat)
    ensures var r := StreakReasons(streak) + WinRateReasons(wins, count) + DensityReasons(losses);
            && |r| <= 3
            && forall i, j :: 0 <= i < j < |r| ==> RuleOf(r[i]) < RuleOf(r[j])
  {
    var r1, r2, r3 := StreakReasons(streak), WinRateReasons(wins, count), DensityReasons(losses);
    var r := r1 + r2 + r3;
    assert forall i :: 0 <= i < |r1| ==> RuleOf(r1[i]) == 0;
    assert forall i :: 0 <= i < |r2| ==> RuleOf(r2[i]) == 1;
    assert forall i :: 0 <= i < |r3| ==> RuleOf(r3[i]) == 2;
    forall i | 0 <= i < |r| ensures RuleOf(r[i]) == if i < |r1| then 0 else if i < |r1| + |r2| then 1 else 2 {
      if i < |r1| { assert r[i] == r1[i]; }
      else if i < |r1| + |r2| { assert r[i] == r2[i - |r1|]; }
      else { assert r[i] == r3[i - |r1| - |r2|]; }
    }
  }

  /** The three rules applied to a newest-first list of at least three
      records, summed and capped at 100. */
  function Analyse(sorted: seq<MatchRecord>): (a: SanctionAnalysis)
    ensures 0 <= a.score <= 100
    ensures a.level == LevelOf(a.score) && a.description == DescriptionOf(a.score)
    ensures |a.reasons| <= 3
    ensures forall i, j :: 0 <= i < j < |a.reasons| ==> RuleOf(a.reasons[i]) < RuleOf(a.reasons[j])
  {
    var recent10 := Take(sorted, 10);
    var streak := LossStreak(sorted);
    var wins := Count(recent10, IsWin);
    var losses := Count(Take(sorted, 5), IsLoss);
    var score := Min(100, StreakPoints(streak) + WinRatePoints(wins, |recent10|) + DensityPoints(losses));
    var reasons := StreakReasons(streak) + WinRateReasons(wins, |recent10|) + DensityReasons(losses);
    ReasonsOrdered(streak, wins, |recent10|, losses);
    SanctionAnalysis(score, LevelOf(score), reasons, DescriptionOf(score))
  }

  /** Reference definition of the sanction index: too short a history is
      SAFE with no reasons; otherwise the rules over the newest-first order. */
  function SanctionIndex(history: seq<MatchRecord>): (a: SanctionAnalysis)
    ensures 0 <= a.score <= 100
    ensures a.level == LevelOf(a.score)
    ensures |history| < 3 ==> a == SanctionAnalysis(0, Safe, [], InsufficientSample)
    ensures |history| >= 3 ==> a.description == DescriptionOf(a.score)
    ensures |a.reasons| <= 3
    ensures forall i, j :: 0 <= i < j < |a.reasons| ==> RuleOf(a.reasons[i]) < RuleOf(a.reasons[j])
  {
    if |history| < 3 then SanctionAnalysis(0, Safe, [], InsufficientSample)
    else Analyse(NewestFirst(history))
  }

  /** The analysis in terms of its four inputs: the streak, the wins among
      the recent ten, their number, and the losses among the recent five. */
  lemma AnalyseParts(sorted: seq<MatchRecord>, streak: nat, wins: nat, count: nat, losses: nat)
    requires streak == LossStreak(sorted)
    requires count == |Take(sorted, 10)| && wins == Count(Take(sorted, 10), IsWin)
    requires losses == Count(Take(sorted, 5), IsLoss)
    ensures var score := Min(100, StreakPoints(streak) + WinRatePoints(wins, count) + DensityPoints(losses));
            Analyse(sorted) == SanctionAnalysis(score, LevelOf(score),
                                 StreakReasons(streak) + WinRateReasons(wins, count) + DensityReasons(losses),
                                 DescriptionOf(score))
  {
  }

  /** The level and description chain for a capped score. */
  method Classify(score: int) returns (level: Level, description: Description)
    ensures level == LevelOf(score) && description == DescriptionOf(score)
  {
    level := Safe;
    description := Healthy;
    if score >= 75 {
      level := Danger;
      description := ExtremeRisk;
    } else if score >= 45 {
      level := Warning;
      description := HighRisk;
    } else if score > 20 {
      description := MildRisk;
    }
  }

  /** The losses in a row at the front of the newest-first list, counted
      until the first WIN. */
  method CurrentLossStreak(sorted: seq<MatchRecord>) returns (currentLossStreak: nat)
    ensures currentLossStreak == LossStreak(sorted)
  {
    currentLossStreak := 0;
    var i := 0;
    while i < |sorted|
      invariant 0 <= i <= |sorted|
      invariant currentLossStreak == i
      invariant forall j :: 0 <= j < i ==> IsLoss(sorted[j])
    {
      if sorted[i].result == Loss {
        currentLossStreak := currentLossStreak + 1;
      } else {
        break;
      }
      i := i + 1;
    }
  }

  /** The score, level, reasons and description of the sanction index. */
  method CalculateSanctionIndex(history: seq<MatchRecord>) returns (a: SanctionAnalysis)
    ensures a == SanctionIndex(history)
  {
    if |history| < 3 {
      return SanctionAnalysis(0, Safe, [], InsufficientSample);
    }
    var score := 0;
    var reasons: seq<Reason> := [];
    var sorted := NewestFirst(history);
    var recent10 := Take(sorted, 10);

    // 1. current loss streak
    var currentLossStreak := CurrentLossStreak(sorted);
    if currentLossStreak >= 2 {
      score := score + currentLossStreak * 15;
      reasons := reasons + [LossStreakReason(currentLossStreak)];
    }
    assert score == StreakPoints(currentLossStreak) && reasons == StreakReasons(currentLossStreak);

    // 2. recent win rate
    var recentWins := Count(recent10, IsWin);
    if 5 * recentWins <= |recent10| {
      score := score + 50;
      reasons := reasons + [VeryLowWinRate];
    } else if 5 * recentWins <= 2 * |recent10| {
      score := score + 30;
      reasons := reasons + [LowWinRate];
    }
    assert score == StreakPoints(currentLossStreak) + WinRatePoints(recentWins, |recent10|);
    assert reasons == StreakReasons(currentLossStreak) + WinRateReasons(recentWins, |recent10|);

    // 3. losses among the recent five
    var recent5 := Take(sorted, 5);
    var lossesIn5 := Count(recent5, IsLoss);
    if lossesIn5 >= 4 {
      score := score + 35;
      reasons := reasons + [LossDensity];
    }
    assert score == StreakPoints(currentLossStreak) + WinRatePoints(recentWins, |recent10|) + DensityPoints(lossesIn5);
    assert reasons == StreakReasons(currentLossStreak) + WinRateReasons(recentWins, |recent10|) + DensityReasons(lossesIn5);

    score := Min(100, score);
    var level, description := Classify(score);
    a := SanctionAnalysis(score, level, reasons, description);
    AnalyseParts(sorted, currentLossStreak, recentWins, |recent10|, lossesIn5);
    assert SanctionIndex(history) == Analyse(sorted);
  }

  /** The score is the capped sum of the three rules' points. */
  lemma {:induction false} AnalyseScore(sorted: seq<MatchRecord>)
    ensures var recent10 := Take(sorted, 10);
            Analyse(sorted).score
            == Min(100, StreakPoints(LossStreak(sorted)) + WinRatePoints(Count(recent10, IsWin), |recent10|)
                        + DensityPoints(Count(Take(sorted, 5), IsLoss)))
  {
  }

  /** Each rule contributes its reason exactly when it contributes points:
      the streak reason names the streak and needs two losses in a row, at
      most one win-rate reason is given, and the density reason needs four
      losses among the recent five. */
  lemma {:induction false} AnalyseReasons(sorted: seq<MatchRecord>)
    ensures var reasons := Analyse(sorted).reasons;
            var n := LossStreak(sorted);
            var recent10 := Take(sorted, 10);
            var wins := Count(recent10, IsWin);
            var losses := Count(Take(sorted, 5), IsLoss);
            && (forall k :: LossStreakReason(k) in reasons <==> k == n && n >= 2)
            && (VeryLowWinRate in reasons <==> 5 * wins <= |recent10|)
            && (LowWinRate in reasons <==> |recent10| < 5 * wins <= 2 * |recent10|)
            && (LossDensity in reasons <==> losses >= 4)
  {
    var n := LossStreak(sorted);
    var recent10 := Take(sorted, 10);
    var wins := Count(recent10, IsWin);
    var losses := Count(Take(sorted, 5), IsLoss);
    var r1, r2, r3 := StreakReasons(n), WinRateReasons(wins, |recent10|), DensityReasons(losses);
    assert Analyse(sorted).reasons == r1 + r2 + r3;
    forall x ensures x in r1 + r2 + r3 <==> x in r1 || x in r2 || x in r3 {
    }
    forall k ensures LossStreakReason(k) in r1 + r2 + r3 <==> k == n && n >= 2 {
      assert LossStreakReason(k) !in r2 && LossStreakReason(k) !in r3;
    }
    assert VeryLowWinRate !in r1 && VeryLowWinRate !in r3;
    assert LowWinRate !in r1 && LowWinRate !in r3;
    assert LossDensity !in r1 && LossDensity !in r2;
  }

  /** Sorting first changes nothing: the index of the displayed newest-first
      list is the index of the stored history. */
  lemma {:induction false} SanctionOfNewestFirst(history: seq<MatchRecord>)
    ensures SanctionIndex(NewestFirst(history)) == SanctionIndex(history)
  {
    var s := NewestFirst(history);
    assert |s| == |history| by {
      assert |multiset(s)| == |multiset(history)|;
    }
    SortDescIdempotent(history, Timestamp);
    assert NewestFirst(s) == s;
  }

  /** A history of nothing but losses is DANGER: three losses score
      45 + 50 = 95; four or more score 60 + 50 + 35 or more, capped at 100,
      with all three reasons in order. */
  lemma {:induction false} AllLossesDanger(history: seq<MatchRecord>)
    requires |history| >= 3
    requires forall i :: 0 <= i < |history| ==> IsLoss(history[i])
    ensures SanctionIndex(history) == SanctionAnalysis(
              if |history| >= 4 then 100 else 95,
              Danger,
              [LossStreakReason(|history|), VeryLowWinRate] + (if |history| >= 4 then [LossDensity] else []),
              ExtremeRisk)
  {
    var s := NewestFirst(history);
    assert |s| == |history| by {
      assert |multiset(s)| == |multiset(history)|;
    }
    forall i | 0 <= i < |s| ensures IsLoss(s[i]) {
      assert s[i] in multiset(history);
    }
    AnalyseAllLosses(s);
  }

  lemma {:induction false} AnalyseAllLosses(s: seq<MatchRecord>)
    requires |s| >= 3
    requires forall i :: 0 <= i < |s| ==> IsLoss(s[i])
    ensures Analyse(s) == SanctionAnalysis(
              if |s| >= 4 then 100 else 95,
              Danger,
              [LossStreakReason(|s|), VeryLowWinRate] + (if |s| >= 4 then [LossDensity] else []),
              ExtremeRisk)
  {
    var n := LossStreak(s);
    assert n == |s|;
    var recent10, recent5 := Take(s, 10), Take(s, 5);
    var wins, losses := Count(recent10, IsWin), Count(recent5, IsLoss);
    assert wins == 0 by {
      assert forall i :: 0 <= i < |recent10| ==> recent10[i] == s[i];
      FilterAllOrNone(recent10, IsWin);
    }
    assert losses == if |s| >= 5 then 5 else |s| by {
      assert forall i :: 0 <= i < |recent5| ==> recent5[i] == s[i];
      FilterAllOrNone(recent5, IsLoss);
    }
    var score := StreakPoints(n) + WinRatePoints(wins, |recent10|) + DensityPoints(losses);
    assert score == 15 * |s| + 50 + (if |s| >= 4 then 35 else 0);
    assert Min(100, score) == if |s| >= 4 then 100 else 95;
  }

  /** WIN, LOSS, WIN, ... from the front. */
  predicate Alternating(s: seq<MatchRecord>) {
    forall i :: 0 <= i < |s| ==> s[i].result == if i % 2 == 0 then Win else Loss
  }

  /** A history of at least ten games, stored in any order, whose newest
      ten alternate between WIN and LOSS from a WIN: no streak, a 50% win
      rate and two losses in the last five score nothing. */
  lemma {:induction false} AlternatingHistoryIsSafe(h: seq<MatchRecord>)
    requires |h| >= 10
    requires Alternating(Take(NewestFirst(h), 10))
    ensures SanctionIndex(h) == SanctionAnalysis(0, Safe, [], Healthy)
  {
    var s := NewestFirst(h);
    assert |s| == |h| by {
      assert |multiset(s)| == |multiset(h)|;
    }
    AlternatingCounts(s);
  }

  lemma {:induction false} AlternatingCounts(s: seq<MatchRecord>)
    requires |s| >= 10
    requires Alternating(Take(s, 10))
    ensures LossStreak(s) == 0
    ensures Count(Take(s, 10), IsWin) == 5 && Count(Take(s, 5), IsLoss) == 2
  {
    var t, u := Take(s, 10), Take(s, 5);
    assert s[0] == t[0];
    assert Alternating(u) by {
      forall i | 0 <= i < |u| ensures u[i] == t[i] {
        assert u[i] == s[i];
      }
    }
    AlternatingWins(t);
    AlternatingLosses(u);
  }

  /** Alternating from a WIN, the wins are the even positions and the
      losses the odd ones: counted from index `k` on. */
  lemma {:induction false} AlternatingCountFrom(s: seq<MatchRecord>, k: nat)
    requires k <= |s|
    requires Alternating(s)
    ensures Count(s[k..], IsWin) == (|s| - k + (if k % 2 == 0 then 1 else 0)) / 2
    ensures Count(s[k..], IsLoss) == (|s| - k + (if k % 2 == 1 then 1 else 0)) / 2
    decreases |s| - k
  {
    if k < |s| {
      CountStep(s, k, IsWin);
      CountStep(s, k, IsLoss);
      AlternatingCountFrom(s, k + 1);
    } else {
      assert s[k..] == [];
    }
  }

  lemma {:induction false} AlternatingWins(h: seq<MatchRecord>)
    requires Alternating(h)
    ensures Count(h, IsWin) == (|h| + 1) / 2
  {
    AlternatingCountFrom(h, 0);
    assert h[0..] == h;
  }

  lemma {:induction false} AlternatingLosses(u: seq<MatchRecord>)
    requires Alternating(u)
    ensures Count(u, IsLoss) == |u| / 2
  {
    AlternatingCountFrom(u, 0);
    assert u[0..] == u;
  }

  /** Counting from index `k` on: the record at `k`, then the rest. */
  lemma CountStep(s: seq<MatchRecord>, k: nat, p: MatchRecord -> bool)
    requires k < |s|
    ensures Count(s[k..], p) == (if p(s[k]) then 1 else 0) + Count(s[k + 1..], p)
  {
    assert s[k..][1..] == s[k + 1..];
  }
}
