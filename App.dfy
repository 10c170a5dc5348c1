/** The account list kept by the application shell (App.tsx): the handlers
    that rewrite it, the migration applied when it is loaded, and the
    filtered and sorted list that is displayed. */
module App {
  import opened Wrappers
  import opened Types
  import opened ArrayOps
  import opened GameLogic

  datatype SortMode = Updated | ByRank | Custom

  datatype PlatformFilter = AllPlatforms | Only(platform: Platform)

  /** An account as found in storage, where data written by older versions
      has no platform. */
  datatype StoredAccount = StoredAccount(
    id: string,
    name: string,
    rank: Rank,
    platform: Option<Platform>,
    isBanned: bool,
    banExpiresAt: Option<int>,
    history: seq<MatchRecord>)

  // ------------------------------------------------------------ invariants

  predicate UniqueIds(s: seq<Account>) {
    forall i, j :: 0 <= i < j < |s| ==> s[i].id != s[j].id
  }

  function Ids(s: seq<Account>): set<string> {
    set i | 0 <= i < |s| :: s[i].id
  }

  /** The cached ban fields are what the ban calculation gives for the
      account's current history at `now`. */
  predicate BanConsistent(a: Account, now: int) {
    BanStatus(a.isBanned, a.banExpiresAt) == CalculateAccountStatus(a.history, now)
  }

  /** Same account identity and details: everything except the history and
      the ban fields. */
  predicate SameDetails(a: Account, b: Account) {
    a.id == b.id && a.name == b.name && a.rank == b.rank && a.platform == b.platform
  }

  /** A subsequence of a list with distinct ids has distinct ids. */
  lemma {:induction false} SubsequenceUnique(r: seq<Account>, s: seq<Account>)
    requires IsSubsequence(r, s)
    ensures UniqueIds(s) ==> UniqueIds(r)
    decreases |s|
  {
    if r != [] && UniqueIds(s) {
      assert UniqueIds(s[1..]) by {
        forall i, j | 0 <= i < j < |s| - 1 ensures s[1..][i].id != s[1..][j].id {
          assert s[1..][i] == s[i + 1] && s[1..][j] == s[j + 1];
        }
      }
      if r[0] == s[0] {
        SubsequenceUnique(r[1..], s[1..]);
        SubsequenceMembers(r[1..], s[1..]);
        forall j | 0 < j < |r| ensures r[0].id != r[j].id {
          assert r[j] == r[1..][j - 1];
          var k :| 0 <= k < |s[1..]| && s[1..][k] == r[j];
          assert s[k + 1] == r[j];
        }
        forall i, j | 0 <= i < j < |r| ensures r[i].id != r[j].id {
          if i > 0 { assert r[i] == r[1..][i - 1] && r[j] == r[1..][j - 1]; }
        }
      } else {
        SubsequenceUnique(r, s[1..]);
      }
    }
  }

  // -------------------------------------------------------------- handlers

  /** The account `addAccount` creates: empty history, not banned. */
  function NewAccount(id: string, name: string, rank: Rank, platform: Platform): Account {
    Account(id, name, rank, platform, false, None, [])
  }

  /** The list without the accounts that have id `id`. */
  function WithoutId(accounts: seq<Account>, id: string): (r: seq<Account>)
    ensures IsSubsequence(r, accounts)
    ensures forall a :: multiset(r)[a] == if a.id == id then 0 else multiset(accounts)[a]
    ensures forall i :: 0 <= i < |r| ==> r[i].id != id
    ensures UniqueIds(accounts) ==> UniqueIds(r)
  {
    var keep := (a: Account) => a.id != id;
    FilterSpec(accounts, keep);
    SubsequenceUnique(Filter(accounts, keep), accounts);
    Filter(accounts, keep)
  }

  /** An account with its history replaced and its ban fields recomputed. */
  function WithHistory(a: Account, h: seq<MatchRecord>, now: int): Account {
    var status := CalculateAccountStatus(h, now);
    a.(history := h, isBanned := status.isBanned, banExpiresAt := status.banExpiresAt)
  }

  /** `handleUpdateHistory`: every account with id `id` gets history `h` and
      the ban fields computed from it; every other account is untouched. */
  function ReplaceHistory(accounts: seq<Account>, id: string, h: seq<MatchRecord>, now: int): (r: seq<Account>)
    ensures |r| == |accounts|
    ensures forall i :: 0 <= i < |r| ==> r[i].id == accounts[i].id
    ensures forall i :: 0 <= i < |r| && accounts[i].id != id ==> r[i] == accounts[i]
    ensures forall i :: 0 <= i < |r| && accounts[i].id == id ==>
              SameDetails(r[i], accounts[i]) && r[i].history == h && BanConsistent(r[i], now)
  {
    MapWhere(accounts, (a: Account) => a.id == id, (a: Account) => WithHistory(a, h, now))
  }

  /** `handleUpdateAccount` with the name, rank and platform the details
      dialog sends: history and ban fields are kept as they are. */
  function UpdateDetails(accounts: seq<Account>, id: string, name: string, rank: Rank, platform: Platform): (r: seq<Account>)
    ensures |r| == |accounts|
    ensures forall i :: 0 <= i < |r| ==> r[i].id == accounts[i].id
    ensures forall i :: 0 <= i < |r| && accounts[i].id != id ==> r[i] == accounts[i]
    ensures forall i :: 0 <= i < |r| && accounts[i].id == id ==>
              r[i].name == name && r[i].rank == rank && r[i].platform == platform
              && r[i].history == accounts[i].history
              && r[i].isBanned == accounts[i].isBanned && r[i].banExpiresAt == accounts[i].banExpiresAt
  {
    MapWhere(accounts, (a: Account) => a.id == id, (a: Account) => a.(name := name, rank := rank, platform := platform))
  }

  /** `handleUnban`: the target is no longer banned and has no expiry; its
      history is kept, so the ban fields may now disagree with it. */
  function Unban(accounts: seq<Account>, id: string): (r: seq<Account>)
    ensures |r| == |accounts|
    ensures forall i :: 0 <= i < |r| ==> r[i].id == accounts[i].id
    ensures forall i :: 0 <= i < |r| && accounts[i].id != id ==> r[i] == accounts[i]
    ensures forall i :: 0 <= i < |r| && accounts[i].id == id ==>
              SameDetails(r[i], accounts[i]) && r[i].history == accounts[i].history
              && !r[i].isBanned && r[i].banExpiresAt == None
  {
    MapWhere(accounts, (a: Account) => a.id == id, (a: Account) => a.(isBanned := false, banExpiresAt := None))
  }

  /** Index of the first account with id `id`, or -1: `findIndex`. */
  function IndexOfId(accounts: seq<Account>, id: string): (k: int)
    ensures -1 <= k < |accounts|
    ensures k == -1 <==> id !in Ids(accounts)
    ensures 0 <= k ==> accounts[k].id == id && forall j :: 0 <= j < k ==> accounts[j].id != id
  {
    var k := FindIndex(accounts, (a: Account) => a.id == id);
    assert k == -1 ==> id !in Ids(accounts);
    assert 0 <= k ==> accounts[k].id in Ids(accounts);
    k
  }

  /** `handleResult`: nothing when no account has id `id`; otherwise the
      first such account's history with one new record, stamped `now`, is
      set as the history of the account(s) with that id. */
  function RecordResult(accounts: seq<Account>, id: string, result: MatchResult, recordId: string, now: int): (r: seq<Account>)
    ensures id !in Ids(accounts) ==> r == accounts
    ensures |r| == |accounts|
    ensures forall i :: 0 <= i < |r| ==> r[i].id == accounts[i].id
  {
    var k := IndexOfId(accounts, id);
    if k == -1 then accounts
    else ReplaceHistory(accounts, id, accounts[k].history + [MatchRecord(recordId, result, now, None)], now)
  }

  /** With distinct ids, recording a result appends exactly one record at
      the end of the target's history and nothing else changes; a loss
      recorded after every earlier game bans the account for three days. */
  lemma {:induction false} RecordResultAppends(accounts: seq<Account>, k: nat, result: MatchResult, recordId: string, now: int)
    requires UniqueIds(accounts) && k < |accounts|
    ensures var r := RecordResult(accounts, accounts[k].id, result, recordId, now);
            && |r| == |accounts|
            && r[k].history == accounts[k].history + [MatchRecord(recordId, result, now, None)]
            && SameDetails(r[k], accounts[k]) && BanConsistent(r[k], now)
            && (forall j :: 0 <= j < |r| && j != k ==> r[j] == accounts[j])
    ensures var h := accounts[k].history;
            result == Loss && (forall i :: 0 <= i < |h| ==> h[i].timestamp <= now) ==>
              RecordResult(accounts, accounts[k].id, result, recordId, now)[k].isBanned
  {
    var id := accounts[k].id;
    var i := IndexOfId(accounts, id);
    assert i == k;
    var h := accounts[k].history;
    if result == Loss && (forall i :: 0 <= i < |h| ==> h[i].timestamp <= now) {
      LossNowBansThreeDays(h, recordId, now);
    }
  }

  /** The merge branch of `handleImport`: the current list followed by the
      imported accounts whose id is not already present, in import order. */
  function MergeImport(current: seq<Account>, imported: seq<Account>): (r: seq<Account>)
    ensures |current| <= |r| && r[..|current|] == current
    ensures IsSubsequence(r[|current|..], imported)
    ensures forall a :: multiset(r[|current|..])[a] == if a.id in Ids(current) then 0 else multiset(imported)[a]
  {
    var ids := Ids(current);
    var isNew := (a: Account) => a.id !in ids;
    FilterSpec(imported, isNew);
    var added := Filter(imported, isNew);
    assert (current + added)[|current|..] == added;
    current + added
  }

  /** Merging lists that each have distinct ids gives distinct ids. */
  lemma {:induction false} MergeImportUnique(current: seq<Account>, imported: seq<Account>)
    requires UniqueIds(current) && UniqueIds(imported)
    ensures UniqueIds(MergeImport(current, imported))
  {
    var r := MergeImport(current, imported);
    var n := |current|;
    var added := r[n..];
    SubsequenceUnique(added, imported);
    forall i | 0 <= i < |added| ensures added[i].id !in Ids(current) {
      assert added[i] in multiset(added);
    }
    forall i, j | 0 <= i < j < |r| ensures r[i].id != r[j].id {
      if j >= n {
        assert r[j] == added[j - n];
        if i < n {
          assert r[i] == current[i];
          assert current[i].id in Ids(current);
        } else {
          assert r[i] == added[i - n];
        }
      } else {
        assert r[i] == current[i] && r[j] == current[j];
      }
    }
  }

  /** Load-time migration: a missing platform becomes WECHAT and the ban
      fields are recomputed from the history. */
  function Migrate(stored: seq<StoredAccount>, now: int): (r: seq<Account>)
    ensures |r| == |stored|
    ensures forall i :: 0 <= i < |r| ==>
              && r[i].id == stored[i].id && r[i].name == stored[i].name && r[i].rank == stored[i].rank
              && r[i].platform == stored[i].platform.GetOr(Wechat)
              && r[i].history == stored[i].history
              && BanConsistent(r[i], now)
  {
    seq(|stored|, i requires 0 <= i < |stored| =>
      var s := stored[i];
      WithHistory(Account(s.id, s.name, s.rank, s.platform.GetOr(Wechat), s.isBanned, s.banExpiresAt, s.history), s.history, now))
  }

  // ----------------------------------------------------------- drag & drop

  /** `handleDrop`: `None` when the handler returns early (not in CUSTOM
      order, nothing dragged or an empty dragged id, which `!draggedId`
      treats alike, dropped on itself, or an id not found);
      otherwise the reordered list. */
  function Drop(accounts: seq<Account>, mode: SortMode, draggedId: Option<string>, targetId: string): (r: Option<seq<Account>>)
    ensures r.Some? <==> mode == Custom && draggedId.Some? && draggedId.value != ""
                         && draggedId.value != targetId
                         && draggedId.value in Ids(accounts) && targetId in Ids(accounts)
    ensures r.Some? ==>
              var from, to := IndexOfId(accounts, draggedId.value), IndexOfId(accounts, targetId);
              && |r.value| == |accounts|
              && multiset(r.value) == multiset(accounts)
              && r.value[to] == accounts[from]
              && RemoveAt(r.value, to) == RemoveAt(accounts, from)
  {
    if mode != Custom || draggedId.None? || draggedId.value == "" || draggedId.value == targetId then None
    else
      var oldIndex := IndexOfId(accounts, draggedId.value);
      var newIndex := IndexOfId(accounts, targetId);
      if oldIndex == -1 || newIndex == -1 then None
      else Some(Move(accounts, oldIndex, newIndex))
  }

  /** Reordering keeps the ids distinct. */
  lemma {:induction false} DropUnique(accounts: seq<Account>, mode: SortMode, draggedId: Option<string>, targetId: string)
    requires UniqueIds(accounts)
    requires Drop(accounts, mode, draggedId, targetId).Some?
    ensures UniqueIds(Drop(accounts, mode, draggedId, targetId).value)
  {
    PermutationUnique(Drop(accounts, mode, draggedId, targetId).value, accounts);
  }

  /** A permutation of a list with distinct ids has distinct ids. */
  lemma {:induction false} PermutationUnique(r: seq<Account>, s: seq<Account>)
    requires multiset(r) == multiset(s) && UniqueIds(s)
    ensures UniqueIds(r)
  {
    forall i, j | 0 <= i < j < |r| ensures r[i].id != r[j].id {
      if r[i].id == r[j].id {
        assert r[i] in multiset(s) && r[j] in multiset(s);
        var p :| 0 <= p < |s| && s[p] == r[i];
        var q :| 0 <= q < |s| && s[q] == r[j];
        assert p == q;
        MultiplicityOne(s, p);
        OccursTwice(r, i, j);
        assert false;
      }
    }
  }

  lemma {:induction false} OccursTwice(r: seq<Account>, i: nat, j: nat)
    requires i < j < |r| && r[i] == r[j]
    ensures multiset(r)[r[i]] >= 2
  {
    assert r == r[..j] + [r[j]] + r[j + 1..];
    assert r[..j][i] == r[i];
    assert r[i] in multiset(r[..j]);
  }

  lemma {:induction false} MultiplicityOne(s: seq<Account>, k: nat)
    requires UniqueIds(s) && k < |s|
    ensures multiset(s)[s[k]] == 1
  {
    assert s == s[..k] + [s[k]] + s[k + 1..];
    assert s[k] !in s[..k] by {
      forall j | 0 <= j < k ensures s[..k][j] != s[k] { assert s[j].id != s[k].id; }
    }
    assert s[k] !in s[k + 1..] by {
      forall j | k + 1 <= j < |s| ensures s[j] != s[k] { assert s[j].id != s[k].id; }
    }
  }

  // ---------------------------------------------------- filtering & sorting

  function RankKey(a: Account): int { RankIndex(a.rank) }

  /** Timestamp of the last record in insertion order, 0 for no record. */
  function LastTime(a: Account): int {
    if |a.history| > 0 then a.history[|a.history| - 1].timestamp else 0
  }

  /** CUSTOM's comparator returns 0 for every pair. */
  function NoKey(a: Account): int { 0 }

  function SortKey(mode: SortMode): Account -> int {
    match mode
    case Updated => LastTime
    case ByRank => RankKey
    case Custom => NoKey
  }

  predicate PlatformMatches(filter: PlatformFilter, a: Account) {
    filter.AllPlatforms? || a.platform == filter.platform
  }

  /** `filteredAccounts`: the accounts passing the search test and the
      platform filter, sorted (stably) for display. The search test
      (case-insensitive substring match on the name, or on the rank text) is
      a parameter. */
  function FilteredAccounts(accounts: seq<Account>, matchesSearch: Account -> bool, platform: PlatformFilter, mode: SortMode): (r: seq<Account>)
    ensures forall a :: multiset(r)[a] == if matchesSearch(a) && PlatformMatches(platform, a) then multiset(accounts)[a] else 0
    ensures SortedDesc(r, SortKey(mode))
    ensures mode == Custom ==> IsSubsequence(r, accounts)
  {
    var visible := (a: Account) => matchesSearch(a) && PlatformMatches(platform, a);
    var shown := Filter(accounts, visible);
    FilterSpec(accounts, visible);
    SortDescSpec(shown, SortKey(mode));
    ConstantKeyKeepsOrder(shown);
    assert mode == Custom ==> SortDesc(shown, SortKey(mode)) == shown;
    SortDesc(shown, SortKey(mode))
  }

  /** A comparator that finds every pair equal leaves the order unchanged. */
  lemma ConstantKeyKeepsOrder(s: seq<Account>)
    ensures SortDesc(s, NoKey) == s
  {
    SortDescOfSorted(s, NoKey);
  }

  /** Sorting for display is stable: accounts with equal rank (or equal
      last-game time) appear in the order they have in the list. */
  lemma {:induction false} FilteredAccountsStable(accounts: seq<Account>, matchesSearch: Account -> bool, platform: PlatformFilter, mode: SortMode, k: int)
    ensures var visible := (a: Account) => matchesSearch(a) && PlatformMatches(platform, a);
            WithKey(FilteredAccounts(accounts, matchesSearch, platform, mode), SortKey(mode), k)
            == WithKey(Filter(accounts, visible), SortKey(mode), k)
  {
    var visible := (a: Account) => matchesSearch(a) && PlatformMatches(platform, a);
    SortDescSpec(Filter(accounts, visible), SortKey(mode));
  }

  // ------------------------------------------------------------- the store

  /** The `accounts` state of the application with the sort mode and the id
      being dragged, and one method per handler. */
  class AccountStore {
    var accounts: seq<Account>
    var sortBy: SortMode
    var draggedId: Option<string>

    constructor ()
      ensures accounts == [] && sortBy == Updated && draggedId == None
    {
      accounts := [];
      sortBy := Updated;
      draggedId := None;
    }

    /** The load effect, given what storage held (`None` when nothing was
        stored). */
    method Load(stored: Option<seq<StoredAccount>>, now: int)
      modifies this`accounts
      ensures stored.None? ==> accounts == old(accounts)
      ensures stored.Some? ==> accounts == Migrate(stored.value, now)
      ensures stored.Some? ==> forall i :: 0 <= i < |accounts| ==> BanConsistent(accounts[i], now)
    {
      if stored.Some? {
        accounts := Migrate(stored.value, now);
      }
    }

    method AddAccount(id: string, name: string, rank: Rank, platform: Platform)
      modifies this`accounts
      ensures accounts == [NewAccount(id, name, rank, platform)] + old(accounts)
      ensures accounts[0].history == [] && !accounts[0].isBanned && accounts[0].banExpiresAt == None
      ensures UniqueIds(old(accounts)) && id !in Ids(old(accounts)) ==> UniqueIds(accounts)
    {
      ghost var before := accounts;
      accounts := [NewAccount(id, name, rank, platform)] + accounts;
      if UniqueIds(before) && id !in Ids(before) {
        forall i, j | 0 <= i < j < |accounts| ensures accounts[i].id != accounts[j].id {
          assert accounts[j] == before[j - 1];
          if i == 0 { assert before[j - 1].id in Ids(before); }
          else { assert accounts[i] == before[i - 1]; }
        }
      }
    }

    /** `deleteAccount`; `confirmed` is the answer to the confirmation dialog. */
    method DeleteAccount(id: string, confirmed: bool)
      modifies this`accounts
      ensures accounts == if confirmed then WithoutId(old(accounts), id) else old(accounts)
      ensures UniqueIds(old(accounts)) ==> UniqueIds(accounts)
    {
      if confirmed {
        accounts := WithoutId(accounts, id);
      }
    }

    method UpdateHistory(accountId: string, newHistory: seq<MatchRecord>, now: int)
      modifies this`accounts
      ensures accounts == ReplaceHistory(old(accounts), accountId, newHistory, now)
      ensures UniqueIds(old(accounts)) ==> UniqueIds(accounts)
    {
      accounts := ReplaceHistory(accounts, accountId, newHistory, now);
    }

    method UpdateAccount(accountId: string, name: string, rank: Rank, platform: Platform)
      modifies this`accounts
      ensures accounts == UpdateDetails(old(accounts), accountId, name, rank, platform)
      ensures UniqueIds(old(accounts)) ==> UniqueIds(accounts)
    {
      accounts := UpdateDetails(accounts, accountId, name, rank, platform);
    }

    method HandleResult(id: string, result: MatchResult, recordId: string, now: int)
      modifies this`accounts
      ensures accounts == RecordResult(old(accounts), id, result, recordId, now)
      ensures id !in Ids(old(accounts)) ==> accounts == old(accounts)
      ensures UniqueIds(old(accounts)) ==> UniqueIds(accounts)
    {
      accounts := RecordResult(accounts, id, result, recordId, now);
    }

    method HandleUnban(id: string)
      modifies this`accounts
      ensures accounts == Unban(old(accounts), id)
      ensures UniqueIds(old(accounts)) ==> UniqueIds(accounts)
    {
      accounts := Unban(accounts, id);
    }

    /** `handleImport` on an already parsed array; `overwrite` is the answer
        to the overwrite-or-merge dialog, `merged` the number of accounts the
        merge added. */
    method ImportAccounts(imported: seq<Account>, overwrite: bool) returns (merged: nat)
      modifies this`accounts
      ensures overwrite ==> accounts == imported && merged == 0
      ensures !overwrite ==> accounts == MergeImport(old(accounts), imported)
                             && merged == |accounts| - |old(accounts)|
      ensures overwrite && UniqueIds(imported) ==> UniqueIds(accounts)
      ensures !overwrite && UniqueIds(old(accounts)) && UniqueIds(imported) ==> UniqueIds(accounts)
    {
      if overwrite {
        accounts := imported;
        merged := 0;
      } else {
        var before := accounts;
        accounts := MergeImport(accounts, imported);
        merged := |accounts| - |before|;
        if UniqueIds(before) && UniqueIds(imported) {
          MergeImportUnique(before, imported);
        }
      }
    }

    method SetSortBy(mode: SortMode)
      modifies this`sortBy
      ensures sortBy == mode
    {
      sortBy := mode;
    }

    /** `handleDragStart`: only in CUSTOM order does dragging begin. */
    method HandleDragStart(id: string)
      modifies this`draggedId
      ensures draggedId == if sortBy == Custom then Some(id) else old(draggedId)
    {
      if sortBy == Custom {
        draggedId := Some(id);
      }
    }

    method HandleDrop(targetId: string)
      modifies this`accounts, this`draggedId
      ensures var r := Drop(old(accounts), sortBy, old(draggedId), targetId);
              if r.Some? then accounts == r.value && draggedId == None
              else accounts == old(accounts) && draggedId == old(draggedId)
      ensures UniqueIds(old(accounts)) ==> UniqueIds(accounts)
    {
      var r := Drop(accounts, sortBy, draggedId, targetId);
      if r.Some? {
        if UniqueIds(accounts) { DropUnique(accounts, sortBy, draggedId, targetId); }
        accounts := r.value;
        draggedId := None;
      }
    }
  }
}
