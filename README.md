# Honor of Kings account tracker: verified model of the core

The tracker keeps a list of game accounts. Each account has a rank tier, a
platform and a history of WIN/LOSS records. Two values are derived from the
history:

- a ban or cooldown: three days after the newest LOSS;
- a 0-100 "sanction index" with a SAFE/WARNING/DANGER level, computed from
  the recent results.

The account list is edited by the application shell's handlers. The history
is edited in the details dialog. A banned account shows a countdown that
ends the ban.

The model has seven modules:

- `Types`: the records of `types.ts`.
- `ArrayOps`: the JavaScript array operations the code relies on.
  - `filter`, `find` and `findIndex`.
  - The stable sort of `Array.prototype.sort`, written as an insertion sort
    `SortDesc`. The model proves that any ordered, stable rearrangement
    equals it.
  - The splice-based move.
- `GameLogic`: `calculateAccountStatus` as a function, and
  `calculateSanctionIndex` as a method.
  - The method keeps its loop and is proved equal to the reference function
    `SanctionIndex`.
  - The ban is proved to depend on the newest loss alone and on no ordering
    of the history.
- `App`: `App.tsx`.
  - Its list handlers are functions over `seq<Account>`.
  - The `AccountStore` class holds the `accounts`, `sortBy` and `draggedId`
    state, with one method per handler.
  - Every handler that changes the list keeps distinct ids distinct. Adding
    needs a fresh id, and importing (overwrite or merge) needs import data
    whose ids are distinct. Loading takes the stored ids as they are.
- `AccountDetails`: `AccountDetailsModal.tsx`.
  - The append, edit and delete operations on a history.
  - The `DetailsModal` class with the editing flags and forms.
- `Countdown`: `CountdownTimer.tsx`.
  - Decomposition of the remaining milliseconds, with JavaScript's
    truncating `%` written out. A round-trip lemma shows that nothing but the
    sub-second remainder is lost.
  - The `CountdownTimer` class whose `Tick` stops the interval and calls
    `onExpire` exactly once.
- `Wrappers`: `Option`.

Environment inputs become parameters:

- `Date.now()` is `now`.
- `crypto.randomUUID()` is an id argument.
- The date and time form fields are a `timestamp` argument.
- `confirm()` answers are a `confirmed`/`overwrite` flag.
- The search-box test is a predicate argument.

A ban is not lifted by a later WIN. One might expect that a LOSS followed by
a more recent WIN clears the cooldown, but the code looks only at the newest
LOSS and ignores every WIN. The model follows the code. `GameLogic.WinNeverLiftsBan`
proves that appending a WIN of any timestamp leaves the status unchanged.

## Model

| member | source | states |
|---|---|---|
| Types.RankIndex | types.ts:2-11 | the position of a tier in the rank enum, always one of the eight positions |
| ArrayOps.Filter | utils/gameLogic.ts:71 | every kept element passes the test and the result is no longer than the input |
| ArrayOps.FilterSpec | App.tsx:70 | the filtered list keeps the original order and keeps exactly the passing elements with their multiplicities |
| ArrayOps.FilterAllOrNone | App.tsx:193 | a test every element passes keeps the whole list, one no element passes gives the empty list |
| ArrayOps.FindIndex | App.tsx:176-177 | -1 exactly when no element passes, otherwise the first passing index |
| ArrayOps.Find | utils/gameLogic.ts:16 | None exactly when no element passes, otherwise the first passing element |
| ArrayOps.SubsequenceMembers | App.tsx:145 | every element of an order-keeping selection occurs in the original |
| ArrayOps.SortDescSpec | utils/gameLogic.ts:13 | the sorted copy is ordered by key descending, is a permutation, and keeps every equal-key group in input order (stability) |
| ArrayOps.SortedStableUnique | utils/gameLogic.ts:55 | two descending, stable arrangements of the same groups are identical |
| ArrayOps.StableSortIsSortDesc | App.tsx:196-204 | any ordered result whose equal-key groups are those of the input is exactly `SortDesc`, so the insertion sort stands for the engine's stable sort |
| ArrayOps.SortDescOfSorted | App.tsx:197 | sorting an already ordered list changes nothing |
| ArrayOps.SortDescIdempotent | components/AccountDetailsModal.tsx:43 | sorting a sorted copy again changes nothing |
| ArrayOps.RemoveAt | App.tsx:182 | removing one element shortens the list by one |
| ArrayOps.Move | App.tsx:181-183 | the moved element lands at the target index, the remaining elements keep their order, and the list is a permutation of the old one |
| ArrayOps.MapWhere | App.tsx:110-113 | same length; each element is transformed exactly when it matches |
| GameLogic.NewestFirst | components/AccountDetailsModal.tsx:43 | the displayed history (the same sort as utils/gameLogic.ts:13 and :55) is a permutation of the history, newest first |
| GameLogic.NewestFirstStable | components/AccountDetailsModal.tsx:43 | records with equal timestamps keep their insertion order in the newest-first list |
| GameLogic.CalculateAccountStatus | utils/gameLogic.ts:7-30 | banned exactly when an expiry is given; the expiry lies after now and is three days after some LOSS; a history without a LOSS is never banned |
| GameLogic.LatestLossTime | utils/gameLogic.ts:5 | the reference for "most recent LOSS": None exactly when there is no LOSS, otherwise the timestamp of a LOSS that no LOSS exceeds |
| GameLogic.LatestLossTimeUnique | utils/gameLogic.ts:15-16 | a LOSS time that is attained and bounds every LOSS is the newest-loss time |
| GameLogic.LatestLossTimeOfPermutation | utils/gameLogic.ts:13 | histories holding the same records have the same newest-loss time |
| GameLogic.FirstLossIsLatest | utils/gameLogic.ts:13-16 | in newest-first order, the search for a LOSS fails exactly when there is none, and otherwise the first LOSS found carries the newest-loss time |
| GameLogic.StatusFromLatestLoss | utils/gameLogic.ts:13-29 | the status is exactly "banned until newest LOSS + 3 days, if that is after now" |
| GameLogic.BanWindowBoundary | utils/gameLogic.ts:23-29 | one millisecond before the three days end the account is still banned until then; from that instant on it is not banned |
| GameLogic.StatusOfPermutation | utils/gameLogic.ts:13 | the status does not depend on the order of the history |
| GameLogic.WinNeverLiftsBan | utils/gameLogic.ts:16 | appending a WIN, however recent, leaves the status unchanged |
| GameLogic.EarlierLossIrrelevant | utils/gameLogic.ts:16 | appending a LOSS no newer than the newest one leaves the status unchanged |
| GameLogic.LossNowBansThreeDays | App.tsx:101-106 | recording a LOSS now, after every earlier game, bans the account until exactly now + 259200000 ms |
| GameLogic.Take | utils/gameLogic.ts:56 | the first n records, or all of them when there are fewer (`slice(0, n)`) |
| GameLogic.LossStreak | utils/gameLogic.ts:59-63 | the length of the maximal run of LOSS records at the front: all counted are losses, the next one is not |
| GameLogic.CurrentLossStreak | utils/gameLogic.ts:58-63 | the counting loop with `break` at the first non-LOSS computes exactly `LossStreak` |
| GameLogic.WinRateThresholds | utils/gameLogic.ts:72-80 | the percentage comparisons against 20 and 40 are exactly the integer tests 5w <= n and 5w <= 2n |
| GameLogic.LevelOf | utils/gameLogic.ts:98-106 | DANGER exactly from 75, WARNING exactly from 45 below 75, SAFE exactly below 45 |
| GameLogic.DescriptionOf | utils/gameLogic.ts:99-109 | within SAFE the mild-risk text exactly above 20 and the healthy text otherwise; WARNING and DANGER each exactly with their own text |
| GameLogic.ReasonsOrdered | utils/gameLogic.ts:65-89 | the three rule blocks contribute at most three reasons, listed in rule order |
| GameLogic.Analyse | utils/gameLogic.ts:53-111 | score capped into 0-100, level and description follow the score, at most three reasons, in rule order |
| GameLogic.SanctionIndex | utils/gameLogic.ts:43-111 | fewer than three records give score 0, SAFE, no reasons and the insufficient-sample text; otherwise the analysis of the sorted history, with the analysis properties |
| GameLogic.CalculateSanctionIndex | utils/gameLogic.ts:43-111 | the loop with early exit computes exactly the reference `SanctionIndex` |
| GameLogic.AnalyseReasons | utils/gameLogic.ts:65-89 | each reason is listed exactly when its rule fires, the streak reason with the current streak, at most one win-rate reason |
| GameLogic.Classify | utils/gameLogic.ts:98-109 | the level and description chain gives exactly `LevelOf` and `DescriptionOf` of the score |
| GameLogic.SanctionOfNewestFirst | utils/gameLogic.ts:55 | computing the index of an already newest-first list gives the index of the history |
| GameLogic.AllLossesDanger | utils/gameLogic.ts:65-103 | a history of only losses is DANGER: 95 points for three, 100 from four, with the reasons in rule order |
| GameLogic.AlternatingWins | utils/gameLogic.ts:71 | a list alternating from a WIN holds (n+1)/2 wins |
| GameLogic.AlternatingLosses | utils/gameLogic.ts:85 | a list alternating from a WIN holds n/2 losses |
| GameLogic.AlternatingCountFrom | utils/gameLogic.ts:71-85 | in an alternating list, every suffix holds the wins and losses its length and parity give |
| GameLogic.AlternatingHistoryIsSafe | utils/gameLogic.ts:71-99 | any history of ten or more games, in any stored order, whose newest ten alternate from a WIN scores 0 and is SAFE and healthy |
| App.WithoutId | App.tsx:68-72 | the accounts without the given id, in order, with every other account kept; distinct ids stay distinct |
| App.ReplaceHistory | App.tsx:74-84 | the target gets the new history and its ban fields recomputed from it, its other fields unchanged; every other account unchanged |
| App.UpdateDetails | App.tsx:87-96 | the target gets the new name, rank and platform with history and ban fields unchanged; every other account unchanged |
| App.Unban | App.tsx:109-114 | the target is not banned and has no expiry, with its history unchanged; every other account unchanged |
| App.IndexOfId | App.tsx:99-100 | -1 exactly when no account has the id, otherwise the first account with it |
| App.RecordResult | App.tsx:98-107 | an unknown id leaves the list unchanged; the length and the id at every position are always kept |
| App.RecordResultAppends | App.tsx:101-106 | with distinct ids, exactly one record is appended to the target's history, its ban fields are recomputed, nothing else changes, and a LOSS recorded now after every earlier game bans it |
| App.MergeImport | App.tsx:144-146 | the current list unchanged, followed by the imported accounts whose id is new, in import order, each as often as imported |
| App.MergeImportUnique | App.tsx:144-146 | merging two lists that each have distinct ids gives distinct ids |
| App.SubsequenceUnique | App.tsx:70 | an order-keeping selection of a list with distinct ids has distinct ids |
| App.Migrate | App.tsx:36-40 | every stored account keeps its id, name, rank and history, a missing platform becomes WECHAT, and the ban fields are recomputed |
| App.Drop | App.tsx:171-187 | a reorder happens exactly in CUSTOM mode with a non-empty dragged id (`!draggedId` rejects the empty string too) different from the target and both ids present; then the dragged account lands at the target's index and the rest keep their order |
| App.DropUnique | App.tsx:181-185 | reordering keeps the ids distinct |
| App.PermutationUnique | App.tsx:181-183 | a rearrangement of a list with distinct ids has distinct ids |
| App.FilteredAccounts | App.tsx:190-204 | exactly the accounts passing the search and platform tests, as often as they occur, ordered by the timestamp of each account's last-appended record (0 without records, not necessarily its newest game), by rank, or not at all (CUSTOM) |
| App.ConstantKeyKeepsOrder | App.tsx:197 | the CUSTOM comparator leaves the list order unchanged |
| App.FilteredAccountsStable | App.tsx:196-204 | accounts with equal sort key appear in list order |
| App.AccountStore.constructor | App.tsx:23-27 | the initial state: no accounts, UPDATED order, nothing dragged |
| App.AccountStore.Load | App.tsx:30-46 | without stored data the list is unchanged; otherwise it is the migrated data, every account's ban fields consistent with its history |
| App.AccountStore.AddAccount | App.tsx:55-66 | the new account, unbanned and with an empty history, is put in front; distinct ids stay distinct for a fresh id |
| App.AccountStore.DeleteAccount | App.tsx:68-72 | if confirmed the account is removed, otherwise nothing changes; distinct ids stay distinct |
| App.AccountStore.UpdateHistory | App.tsx:74-84 | the list becomes `ReplaceHistory` of the old list; distinct ids stay distinct |
| App.AccountStore.UpdateAccount | App.tsx:87-96 | the list becomes `UpdateDetails` of the old list; distinct ids stay distinct |
| App.AccountStore.HandleResult | App.tsx:98-107 | the list becomes `RecordResult` of the old list; an unknown id changes nothing; distinct ids stay distinct |
| App.AccountStore.HandleUnban | App.tsx:109-114 | the list becomes `Unban` of the old list; distinct ids stay distinct |
| App.AccountStore.ImportAccounts | App.tsx:139-148 | overwrite replaces the list by the import; merge gives `MergeImport` and reports how many accounts it added; distinct ids stay distinct when the import's ids are distinct |
| App.AccountStore.SetSortBy | App.tsx:23 | the sort mode becomes the chosen one |
| App.AccountStore.HandleDragStart | App.tsx:160-164 | dragging starts only in CUSTOM order |
| App.AccountStore.HandleDrop | App.tsx:171-187 | when `Drop` reorders, the list is the reordered one and the drag ends; otherwise nothing changes; distinct ids stay distinct |
| AccountDetails.AppendRecord | components/AccountDetailsModal.tsx:99-105 | the old history followed by exactly one new record with the form's result, timestamp and hero |
| AccountDetails.EditRecord | components/AccountDetailsModal.tsx:106-111 | same length, order and ids; records with the edited id get the form's result, timestamp and hero, all others unchanged |
| AccountDetails.EditRecordChangesOne | components/AccountDetailsModal.tsx:107-111 | with distinct record ids, editing a record changes that record in place and no other |
| AccountDetails.DeleteRecord | components/AccountDetailsModal.tsx:121 | the history without the record(s) of that id, in order, every other record kept |
| AccountDetails.DetailsModal.constructor | components/AccountDetailsModal.tsx:24-39 | nothing being edited, the record form at WIN with no hero, the info form loaded from the account |
| AccountDetails.DetailsModal.ReceiveAccount | components/AccountDetailsModal.tsx:18 | a new account from the parent replaces the shown one without resetting the dialog state |
| AccountDetails.DetailsModal.SortedHistory | components/AccountDetailsModal.tsx:43 | the listed history is a newest-first permutation of the account's history |
| AccountDetails.DetailsModal.Sanction | components/AccountDetailsModal.tsx:44 | the index shown, computed from the stored history, is that of the displayed sorted list |
| AccountDetails.DetailsModal.HandleSaveInfo | components/AccountDetailsModal.tsx:47-50 | the info form is handed on and info editing ends |
| AccountDetails.DetailsModal.ToggleEditInfo | components/AccountDetailsModal.tsx:52-61 | info editing flips, and both opening and cancelling reload the form from the account |
| AccountDetails.DetailsModal.SetInfoForm | components/AccountDetailsModal.tsx:158-177 | the info form takes the typed values |
| AccountDetails.DetailsModal.StartEdit | components/AccountDetailsModal.tsx:64-92 | editing a record loads its result and hero (empty when absent) and marks it by `TargetOf` its id; a new record defaults to LOSS with no hero |
| AccountDetails.TargetOf | components/AccountDetailsModal.tsx:71-108 | a stored record id means "new record" exactly when it is the `'NEW'` marker, and otherwise that record |
| AccountDetails.DetailsModal.CancelEdit | components/AccountDetailsModal.tsx:276 | record editing ends |
| AccountDetails.DetailsModal.SetEditForm | components/AccountDetailsModal.tsx:283-301 | the record form takes the chosen result and typed hero |
| AccountDetails.DetailsModal.HandleSaveHistory | components/AccountDetailsModal.tsx:94-116 | a new record is appended, an edited one is rewritten by `EditRecord`, with nothing being edited the history is unchanged; editing always ends |
| AccountDetails.DetailsModal.HandleDelete | components/AccountDetailsModal.tsx:118-124 | if confirmed the history without that record is handed on, otherwise nothing |
| Countdown.FloorDiv | components/CountdownTimer.tsx:26 | `Math.floor(a / b)` for a positive divisor: the largest q with q*b <= a |
| Countdown.JsRem | components/CountdownTimer.tsx:27-29 | JavaScript's remainder: the mathematical one for a non-negative dividend, otherwise non-positive and above -b |
| Countdown.Decompose | components/CountdownTimer.tsx:26-29 | for non-negative time the hours, minutes and seconds are in range and days, hours, minutes, seconds and the sub-second rest add up to the remaining time |
| Countdown.DecomposeCompose | components/CountdownTimer.tsx:26-29 | every in-range reading is what is shown for its own duration |
| Countdown.CountdownTimer.constructor | components/CountdownTimer.tsx:10 | the timer starts running with the expiry minus now remaining and `onExpire` not yet called |
| Countdown.CountdownTimer.Tick | components/CountdownTimer.tsx:13-21 | with time remaining it updates the remaining time; once the ban has expired it stops and calls `onExpire` once, leaving the shown time; stopped, it does nothing; `onExpire` is called once exactly when stopped |
| Countdown.CountdownTimer.Display | components/CountdownTimer.tsx:26-36 | the displayed hours, minutes and seconds are in range for non-negative time |

## Left out

- Persistence to `localStorage`, JSON parsing and its error path, file
  reading and export (App.tsx:48-53, 117-157): this is I/O. `Load` and
  `ImportAccounts` receive already parsed data.
- As a consequence, import data is taken as well-typed accounts with valid
  ranks. The rank lookup `indexOf` returning -1 for an unknown rank cannot
  occur in the model.
- Overwritten or merged import accounts are stored as given, without
  migration or recomputed ban fields. The model does the same, and proves
  nothing about their ban fields.
- A null or undefined history (the `!history` guards of utils/gameLogic.ts:8
  and :44) is not modelled. In the model a history is always a sequence.
- Rendering, CSS, the progress bar, the statistics charts and tabs, the
  `isOpen` guard, and the hero/date/time display formatting are left out:
  they are presentation with no state the core depends on.
- Converting dates and times to and from form strings, and time zones
  (components/AccountDetailsModal.tsx:66-91, 95), are left out: the form
  yields a `timestamp` parameter and only the result and hero fields are
  modelled.
- The search test (lower-casing and substring match, App.tsx:192) is a
  predicate parameter, because there is no Unicode case folding in the
  model.
- `Partial<Account>` updates are restricted to name, rank and platform,
  which is all the details dialog sends.
- React's asynchronous state updates, the stale `accounts` closure in
  `handleResult`, and the mirroring of `selectedAccount` (App.tsx:79-81,
  91-93) are not modelled. The model applies each handler atomically to the
  current state.
- The interval and timer scheduling, and effect re-runs when `expiresAt` or
  `onExpire` change, are not modelled. `Tick` is one callback at a given
  time.
- The wiring of `onExpire` to `onUnban` (components/AccountCard.tsx:153) is
  not modelled as a call. `expireCalls` counts the callbacks, and
  `App.AccountStore.HandleUnban` is the handler they trigger.
- Floating-point arithmetic is replaced by exact integers.
  `GameLogic.WinRateThresholds` relates the real-number comparisons to
  integer ones. In IEEE doubles 0.2·100 and 0.4·100 are exactly 20 and 40,
  and with at most ten games no other ratio lies near a threshold.
- Reason and description texts are constructors. Only the streak count is
  carried in the streak reason.
- The AI advice request (services/geminiService.ts) is a network call and
  is not part of this model. The add-account form's validation
  (components/AddAccountModal.tsx) and the other presentation components are
  not part of this model either.
- Countdown.CountdownTimer.Tick: on a stopped timer, `Tick` is a step that
  changes nothing, because a cleared interval never calls back.
- Countdown.Decompose: range and recomposition are stated only for a
  non-negative remaining time. A negative initial value is computed as the
  code does (truncating `%`) but its digits are not characterised.
