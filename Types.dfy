/** The data shapes shared by the whole application (types.ts). */
module Types {
  import opened Wrappers

  /** The eight ranked tiers, lowest first; the declaration order is the
      order used when accounts are sorted by rank. */
  datatype Rank = Bronze | Silver | Gold | Platinum | Diamond | Master | Grandmaster | King

  /** Position of a tier in the declaration order of the enum (0 for BRONZE,
      7 for KING), as `Object.values(Rank).indexOf(rank)` yields it. */
  function RankIndex(r: Rank): (i: nat)
    ensures i < 8
  {
    match r
    case Bronze => 0
    case Silver => 1
    case Gold => 2
    case Platinum => 3
    case Diamond => 4
    case Master => 5
    case Grandmaster => 6
    case King => 7
  }

  datatype Platform = Wechat | QQ

  datatype MatchResult = Win | Loss

  /** One recorded game; `hero` is optional and never used by the derivations. */
  datatype MatchRecord = MatchRecord(id: string, result: MatchResult, timestamp: int, hero: Option<string>)

  /** A tracked account; `isBanned` and `banExpiresAt` are derived from `history`
      whenever the history is replaced. */
  datatype Account = Account(
    id: string,
    name: string,
    rank: Rank,
    platform: Platform,
    isBanned: bool,
    banExpiresAt: Option<int>,
    history: seq<MatchRecord>)

  /** Three days in milliseconds. */
  const BanDurationMs: int := 3 * 24 * 60 * 60 * 1000

  function Timestamp(m: MatchRecord): int { m.timestamp }

  predicate IsLoss(m: MatchRecord) { m.result == Loss }

  predicate IsWin(m: MatchRecord) { m.result == Win }
}
