# Loyalty bookkeeping of the shopping mini-app

This project models the loyalty layer of a crypto shopping mini-app. It covers:

- **Purchases.** Each purchase earns XP (one point per whole dollar) and spin tickets (one per whole $50).
- **The daily spin allowance.** There is one spin-limit row per user and day, with `used` and `max_spins`.
- **Consecutive-day purchase streaks.** Streaks unlock one-time milestone bonuses at 3, 5, 7, 10, 14, 21, 30, 60 and 90 days.
- **Levels and stats.** Levels come from XP, together with achievements and spin records.
- **The rewards table.** It holds spin prizes and streak bonuses, which go from claimable to claimed or used.
- **Accounts and their wallets.** Addresses are lower-cased before they are stored or looked up.
- **The admin "reset account" operation.**
- **The client side:**
  - the application store;
  - the prize wheel, with its weighted draw and the coupon it hands out;
  - the milestone progress bar;
  - the style-class joiner.

## How the model is built

- **The hosted database.** It is the class `Database.Db`, with one sequence per table and a counter for fresh ids. Its `Valid()` holds the table invariants that every service method keeps:
  - ids are below the counter;
  - reward and spin-limit ids increase along their tables;
  - `used <= max_spins`.

  A second invariant, that every streak row a query can see is well formed (`Database.VisibleStreaksOk`), is kept on its own: every method that writes streak rows promises to preserve it, and the reads that rely on it require it. A third, that there is at most one spin-limit row per user and day (`Database.OneLimitPerDay`), is kept the same way by every method that writes spin-limit rows.
- **Service functions.** Each one is a `method` that `modifies db`. Its contract states the new content of every table it writes, often through a function of the old tables (`StreakService.StreaksAfterPurchase`, `StatsService.StatsAfterXp`, `PurchaseService.LimitsAfterPurchase`), and that every other table is unchanged.
- **Remote calls that fail.** Every remote call has a `Call` label. A method takes `fails: set<Call>`, and a label in that set means the call returned an error and changed nothing. The model then follows the source's error branch: return null, `[]` or `false`, or carry on with the next step.
- **Query semantics:**
  - a `.limit(1)` / `.maybeSingle()` read returns the first matching row in table order;
  - an `.update(...).eq('user_id', u)` patches every matching row;
  - "newest first" orders are the reverse of insertion order.
- **Pure parts.** Level arithmetic, the streak transition, milestone selection, the wheel's weighted selection and coupon decoding, the progress bar and `createStyleClass` are functions. They come with lemmas that relate them to independent statements of what they promise.
- **Store and wheel state.** The application store (`AppStore.Store`) and the wheel's component state (`SpinWheel.Wheel`) are classes whose methods replace their fields.

Where the code and what the app promises disagree, the model follows the code:

- The app's help text promises at most three spins per day (src/components/HowItWorksModal.tsx:34 and :59). In the code, three is only the ceiling of the allowance a day starts with (one per $100 of the last ten purchases). Every purchase of $50 or more raises `max_spins` for the day with no cap (`PurchaseService.UpdateSpinLimitsAfterPurchase`).
- `getTodaySpinLimits` creates the day's row only when the store reports the `PGRST116` "no rows" error. A `.maybeSingle()` read of zero rows returns null with no error, and then the function returns null without creating anything. Both outcomes are modelled: the label `LimitSelectNoRows` is the `PGRST116` case, which the store can report only when no row of the user and day exists (`PurchaseService.ReadLimit`).

## Model

| member | source | states |
|---|---|---|
| Database.Db.constructor | src/types/database.ts:3-87 | an empty database satisfies every table invariant: ids below the counter, increasing reward and spin-limit ids, `used <= max_spins`, well-formed streaks, one spin-limit row per user and day |
| Database.NewestFirst | src/services/rewardService.ts:11-14 | the rows ordered by `created` descending: exactly the selected rows, with strictly decreasing ids |
| StreakService.AdvanceCases | src/services/streakService.ts:46-81 | each case of the transition separately: a first purchase gives 1 and raises best; a purchase on the same day changes nothing; a purchase the next day adds one and raises best; a gap of more than a day resets to 1 and keeps best; a purchase dated before the last one leaves the numbers as they are |
| StreakService.AfterPurchaseOk | src/services/streakService.ts:46-94 | one purchase keeps `0 <= current <= best`, never lowers best and keeps the owner |
| StreakService.BestNeverDecreases | src/services/streakService.ts:32-104 | any run of purchases keeps a streak well formed and its best never decreases |
| StreakService.ConsecutiveDays | src/services/streakService.ts:59-72 | purchases on k consecutive days from a fresh row give current = best = k, last purchase on the last day |
| StreakService.RunSplit | src/services/streakService.ts:32-104 | a run of purchases is the earlier run followed by one more purchase |
| StreakService.ConsecutiveRun | src/services/streakService.ts:59-72 | the days d, d+1, ..., d+k-1 |
| StreakService.ReachedMilestoneIsLargest | src/services/streakService.ts:112-119 | the milestone chosen is the largest milestone the streak has reached, and there is none exactly below 3 |
| StreakService.LastReachedIsLargest | src/services/streakService.ts:112-119 | on any ascending milestone list: none exactly below the first; otherwise the chosen one is reached and every later one is not |
| StreakService.MilestonesAscending | src/services/streakService.ts:112 | the milestone list is strictly ascending |
| StreakService.ReachedPrefix | src/services/streakService.ts:115 | on an ascending list, the milestones reached form a prefix |
| StreakService.BonusAmountIncreasing | src/services/streakService.ts:140-152 | the bonus amount grows strictly with the milestone |
| StreakService.BonusNameDecodes | src/services/streakService.ts:160 | the bonus title parses back to its milestone |
| StreakService.StreakRow | src/services/streakService.ts:8-27 | null when the read fails; otherwise the user's first row in table order (no earlier row is the user's), found exactly when the user has a row |
| StreakService.StreakOfPatch | src/services/streakService.ts:84-94 | patching by user id changes what that user sees by the patch and nothing any other user sees |
| StreakService.CheckAndCreateStreakRewards | src/services/streakService.ts:109-173 | exactly when a milestone is reached, the existence check succeeds, no bonus exists for it and the insert succeeds, one claimable bonus of the table's amount for that milestone is appended; at most one bonus per milestone is kept; after it, one exists unless a call failed |
| StreakService.InsertBonusOnce | src/services/streakService.ts:122-165 | the check-then-insert for one milestone: appends a bonus only when none exists; keeps at most one each |
| StreakService.AppendBonus | src/services/streakService.ts:155-165 | appending a bonus for a milestone that had none keeps at most one per milestone and leaves exactly one for it |
| StreakService.AppendRewardKeepsIds | src/services/streakService.ts:155-165 | appending a row with the next id keeps reward ids increasing and below the counter |
| StreakService.UpdateStreakAfterPurchase | src/services/streakService.ts:32-104 | no row or a failed read: null, nothing written; same day: the row returned, nothing written; otherwise every row of the user gets the transition, the user then sees the stored row after the purchase, and the milestone check runs on the new length; the streaks become `StreaksAfterPurchase`, the rewards gain one bonus (taking the next id) exactly when `BonusEarned` names a milestone; no other table changes |
| StreakService.WriteStreak | src/services/streakService.ts:83-94 | the user's rows get the transition's patch, the user sees the row after the purchase, and visible rows stay well formed; nothing else changes |
| StreakService.AdvanceWithBonus | src/services/streakService.ts:83-99 | the new-day branch: the patch is written, the returned row is the row after the purchase, and exactly one bonus is appended when the new length reaches a milestone with no bonus yet and the reward calls succeed |
| StreakService.GetUserStreak | src/services/streakService.ts:8-27 | on a database whose visible streak rows are well formed (the invariant every streak-writing operation keeps), the row found belongs to the user and is well formed; one is found whenever the read succeeds and the user has a row |
| StreakService.GetUserStreakRewards | src/services/streakService.ts:178-197 | exactly the user's streak bonuses, newest first; `[]` on error |
| StreakService.ClaimStreakReward | src/services/streakService.ts:202-220 | only a claimable reward with that id becomes claimed, every other row stays as it was; false exactly when the update fails |
| StatsService.LevelFor | src/services/statsService.ts:46-48 | the level XP earns: `1000 * (level - 1) <= xp < 1000 * level` |
| StatsService.NextLevelBounds | src/services/statsService.ts:44-53 | the new level is never below the old one or below what the XP earns, and is one of the two |
| StatsService.LevelTracksXp | src/services/statsService.ts:32-76 | starting at the level XP earns, any run of XP gains leaves the level the total XP earns |
| StatsService.LevelMonotone | src/services/statsService.ts:46-48 | more XP never earns a lower level |
| StatsService.StatsRow | src/services/statsService.ts:8-27 | null when the read fails; otherwise the user's first stats row in table order (no earlier row is the user's), found exactly when the user has a row |
| StatsService.StatsOfPatch | src/services/statsService.ts:56-69 | patching by user id changes what that user sees by the patch and nothing any other user sees |
| StatsService.AddUserXP | src/services/statsService.ts:32-76 | no row or a failed call: null and nothing written; otherwise XP grows by the amount, the level follows the level rule and never drops, every row of the user is patched and the user sees the returned row |
| StatsService.WithAchievement | src/services/statsService.ts:91-97 | the achievement ends up in the list; the list is unchanged when it was present, and otherwise it grows by one at the end |
| StatsService.WithAchievementIdempotent | src/services/statsService.ts:91-97 | adding an achievement twice is adding it once |
| StatsService.AddAchievement | src/services/statsService.ts:81-116 | no row: false; already present: true with no write; otherwise appended to the user's rows, false and no write when the update fails |
| StatsService.RecordSpinWin | src/services/statsService.ts:121-155 | on success every stats row of the user is patched by `WinPatch` of the row that was read, so the user then sees one more spin won and the best spin raised to the win when higher; other users' rows are unchanged; false and no write on failure |
| StatsService.WinPatch | src/services/statsService.ts:131-138 | the update keeps the user id, and applied to the row that was read gives one more spin won with the best spin raised to the win when higher |
| StatsService.WriteWin | src/services/statsService.ts:131-143 | the new table is the old one with every row of the user patched by `WinPatch` of the row that was read: the user then sees that row after the win, and no other user's row changes |
| StatsService.UpdateFavoriteCategory | src/services/statsService.ts:160-179 | sets only the favourite category on the user's rows; true exactly when the update succeeds, even with no row |
| RewardService.GetUserRewards | src/services/rewardService.ts:8-26 | exactly the user's rewards, newest first; `[]` on error |
| RewardService.GetClaimableRewards | src/services/rewardService.ts:137-156 | exactly the user's claimable rewards, newest first; `[]` on error |
| RewardService.ClaimableAreUserRewards | src/services/rewardService.ts:137-156 | the claimable list is the part of the user's list whose status is claimable |
| RewardService.NewestListedFirst | src/services/rewardService.ts:11-14 | the reward with the largest id is first in any newest-first list that selects it |
| RewardService.InsertReward | src/services/rewardService.ts:31-65 | appends the row with the next id, which then heads the owner's reward list; on failure null and nothing changes |
| RewardService.CreateSpinReward | src/services/rewardService.ts:31-65 | appends a spin reward with the given amount, name, rarity and colour, with no milestone and no status; null and no change when the insert fails |
| RewardService.CreateStreakReward | src/services/rewardService.ts:70-103 | appends a streak reward for the milestone, with status claimable by default; null and no change when the insert fails |
| RewardService.StreakRewardNamesMilestone | src/services/rewardService.ts:77-85 | the streak reward's title parses back to its milestone |
| RewardService.WithStatus | src/services/rewardService.ts:112-115 | only the rows carrying the id get the new status |
| RewardService.WithStatusLastWins | src/services/rewardService.ts:108-125 | of two status updates to one reward the later wins |
| RewardService.UpdateRewardStatus | src/services/rewardService.ts:108-125 | the status of the reward with that id is replaced; true exactly when the update succeeds; no other table changes |
| RewardService.UseReward | src/services/rewardService.ts:130-132 | status becomes used, and on success that reward is in no user's claimable list |
| PurchaseService.XpFor | src/services/purchaseService.ts:20 | XP is the whole dollars: `100 * xp <= cents < 100 * (xp + 1)` |
| PurchaseService.TicketsFor | src/services/purchaseService.ts:93-97 | tickets are the whole multiples of $50 in the amount |
| PurchaseService.TicketsMonotone | src/services/purchaseService.ts:93-97 | a larger purchase never earns fewer tickets, and one purchase earns at least what its two halves would |
| PurchaseService.NewestPurchases | src/services/purchaseService.ts:64-83 | the user's purchases newest first, at most `limit` of them |
| PurchaseService.GetUserPurchases | src/services/purchaseService.ts:64-83 | `[]` on error; otherwise the user's newest `limit` (default 10) purchases, newest first, with none of the user's newer ones missing |
| PurchaseService.NewPurchaseListedFirst | src/services/purchaseService.ts:64-83 | the purchase just recorded heads the user's list |
| PurchaseService.InitialTickets | src/services/purchaseService.ts:177-181 | the starting allowance is exactly min(3, whole $100s of the recent purchases): 3 exactly when they reach $300 |
| PurchaseService.ReadLimit | src/services/purchaseService.ts:100-111 | a failed select is reported exactly under its label; the "no rows" error exactly when it is reported and the user has no row for the day; otherwise today's row of the user, if any |
| PurchaseService.PatchLimit | src/services/purchaseService.ts:113-128 | only the row with that id is patched |
| PurchaseService.LimitIdUnique | src/services/purchaseService.ts:113-128 | with increasing ids, a row is the only row carrying its id |
| PurchaseService.PatchLimitKeepsOneLimitPerDay | src/services/purchaseService.ts:118-124 | an update by id that keeps the user and day of the rows it changes keeps one row per user and day |
| PurchaseService.PatchFoundKeepsOneLimitPerDay | src/services/purchaseService.ts:113-124 | updating, by its id, the row the read of the day found into a row of the same user and day keeps one row per user and day |
| PurchaseService.PatchFoundLimit | src/services/purchaseService.ts:113-128 | patching the row found by its id changes today's row of the user by the patch and no other row |
| PurchaseService.PatchLimitKeepsInvariants | src/services/purchaseService.ts:113-128 | an id-preserving patch that keeps `used <= max_spins` keeps the table invariants |
| PurchaseService.AppendLimit | src/services/purchaseService.ts:129-143 | appending a row with the next id keeps ids increasing; a new row for a day with none becomes that day's row |
| PurchaseService.UpdateSpinLimitsAfterPurchase | src/services/purchaseService.ts:88-148 | under $50: nothing; today's row found: the amount and the tickets are added to it and nothing else; no row (null or the "no rows" error): a row is opened with the tickets and none used; a failed read or write changes nothing; one row per user and day is kept |
| PurchaseService.AddTickets | src/services/purchaseService.ts:113-128 | today's row gets the amount and tickets added; other rows unchanged; no change when the update fails; one row per user and day is kept |
| Database.OnlyLimitOfDay | src/services/purchaseService.ts:99-106 | with one row per user and day, the row a read of the day finds is the only row of that user and day |
| Database.AppendKeepsOneLimitPerDay | src/services/purchaseService.ts:129-143 | inserting a row for a user and day that has none keeps one row per user and day |
| Database.FilterKeepsOneLimitPerDay | src/services/cleanupService.ts:20-27 | deleting rows keeps one row per user and day |
| Database.TailOfOneLimitPerDay | src/services/cleanupService.ts:20-27 | without its first row the table still has one row per user and day, and no later row shares the first row's user and day |
| Database.ConsKeepsOneLimitPerDay | src/services/cleanupService.ts:20-27 | a row whose user and day no other row has, put in front of a table with one row per user and day, keeps that property |
| PurchaseService.OpenDay | src/services/purchaseService.ts:129-143 | a new row for the day with the tickets, none used and the amount; no change when the insert fails; when the day had no row, one row per user and day is kept |
| PurchaseService.GetTodaySpinLimits | src/services/purchaseService.ts:153-224 | a stored row is returned as is; a plain failure gives null; the "no rows" error opens the day with the starting allowance from the last ten purchases, or returns an unsaved default when that insert fails; `used <= max_spins` always; one row per user and day is kept |
| PurchaseService.RemainingSpins | src/services/purchaseService.ts:248 | no spin is left exactly when `used >= max_spins` |
| PurchaseService.CreateTodayLimits | src/services/purchaseService.ts:166-212 | the "no rows" branch: today's row is inserted with the allowance of the last ten purchases (none when that read fails), nothing used; a failed insert returns the unsaved default row with no spins; `used <= max_spins` always; when the day had no row, one row per user and day is kept |
| PurchaseService.ReplaceLimit | src/services/purchaseService.ts:118-124 | an update by id of today's row replaces that row and no other; the user's read of the day then finds the new row; one row per user and day is kept |
| PurchaseService.UseSpinTicket | src/services/purchaseService.ts:229-270 | succeeds exactly when today's row is read, has a spin left and the update succeeds; then `used` of that row grows by one and every other row stays as it was (`OneSpinUsed`); one row per user and day is kept |
| PurchaseService.InsertPurchase | src/services/purchaseService.ts:34-43 | appends the purchase with the next id and its XP, and it heads the user's purchase list |
| PurchaseService.CreatePurchase | src/services/purchaseService.ts:10-59 | a failed insert: null and nothing changes; otherwise the purchase is recorded with the next id and listed first among the user's purchases; the streak table becomes `StreaksAfterPurchase`, the rewards gain the milestone bonus exactly when `BonusEarned` says so, the stats become `StatsAfterXp` (XP and level), the spin limits become `LimitsAfterPurchase` (amount and tickets added to today's row, or the row opened), with ids taken in that order; users and wallets are unchanged; one spin-limit row per user and day is kept |
| PurchaseService.ApplyPurchase | src/services/purchaseService.ts:46-53 | the three steps after the insert, in order: the streak, bonus, stats and spin-limit tables as above, ids taken in order, the user's purchase list unchanged; one spin-limit row per user and day is kept |
| UserService.GetUserByWallet | src/services/userService.ts:8-45 | null when the wallet read fails or no wallet has the lower-cased address; a user returned is the owner of the first such wallet (no earlier wallet has the address); when both reads succeed and such a wallet exists, a user is returned exactly when its owner row exists |
| UserService.WalletFor | src/services/userService.ts:11-16 | a wallet is found exactly when one has the lower-cased address, and it is the first in table order |
| UserService.LookupIgnoresCase | src/services/userService.ts:14 | an address and its lower-cased form find the same user |
| UserService.GetUserWallets | src/services/userService.ts:162-179 | exactly the user's wallets; `[]` on error |
| UserService.UserByNewId | src/services/userService.ts:52-64 | the row with a fresh id is found by that id, and deleting by that id removes only it |
| UserService.InsertUser | src/services/userService.ts:52-64 | appends a connected user with the next id |
| UserService.InsertInitialRows | src/services/userService.ts:86-114 | appends fresh stats (level 1) and streak (0/0) rows, each skipped on its own failure |
| UserService.InsertPrimaryWallet | src/services/userService.ts:67-76 | the wallet row is appended with the address lower-cased; an address no wallet had before now finds it |
| UserService.CreateUserWithWallet | src/services/userService.ts:50-121 | a failed user insert: null, nothing written; a failed wallet insert: null and the user deleted again unless that delete fails; otherwise the user, a primary lower-cased wallet and the fresh rows are added and the address now finds the new user |
| UserService.GetOrCreateUserByWallet | src/services/userService.ts:126-133 | an existing owner is returned with nothing written; otherwise the outcome is `createUserWithWallet`'s: nothing written when the user insert fails, the user row removed again (unless that delete fails) when the wallet insert fails, and otherwise the user with the next id, its primary wallet and, unless their inserts fail, fresh stats and streak rows; purchases, rewards and spin limits never change; a new user is found by the address when no wallet had it before |
| CleanupService.ResetOutcome | src/services/cleanupService.ts:11-132 | with every call succeeding, the user has no spin limits, purchases or rewards, exactly one fresh streak and one fresh stats row, and only the first wallet, made primary |
| CleanupService.ResetKeepsOthers | src/services/cleanupService.ts:11-132 | whatever fails, the reset leaves every other user's rows in every table as they were |
| CleanupService.ResetIdempotent | src/services/cleanupService.ts:11-132 | resetting an account twice leaves every table as resetting it once |
| CleanupService.WalletsKeepOthers | src/services/cleanupService.ts:50-79 | the wallet step leaves other users' wallets as they were |
| CleanupService.StreaksKeepOthers | src/services/cleanupService.ts:82-101 | the streak step leaves other users' streaks as they were |
| CleanupService.StatsKeepOthers | src/services/cleanupService.ts:104-124 | the stats step leaves other users' stats as they were |
| CleanupService.WalletsResetIdempotent | src/services/cleanupService.ts:50-79 | the wallet step twice is the wallet step once |
| CleanupService.StreaksResetIdempotent | src/services/cleanupService.ts:82-101 | the streak step twice is the streak step once |
| CleanupService.StatsResetIdempotent | src/services/cleanupService.ts:104-124 | the stats step twice is the stats step once |
| CleanupService.DeleteLimitRows | src/services/cleanupService.ts:20-27 | the user's spin-limit rows are deleted unless the delete fails; one row per user and day is kept |
| CleanupService.DeletePurchaseRows | src/services/cleanupService.ts:30-37 | the user's purchases are deleted unless the delete fails |
| CleanupService.DeleteRewardRows | src/services/cleanupService.ts:40-47 | the user's rewards are deleted unless the delete fails |
| CleanupService.ResetWalletRows | src/services/cleanupService.ts:50-79 | the user's wallets are replaced by the first one made primary, step by step as each call succeeds |
| CleanupService.ResetStreakRows | src/services/cleanupService.ts:82-101 | the user's streak rows are replaced by a fresh one, step by step as each call succeeds |
| CleanupService.ResetStatsRows | src/services/cleanupService.ts:104-124 | the user's stats rows are replaced by a fresh one, step by step as each call succeeds |
| CleanupService.CleanupUserData | src/services/cleanupService.ts:11-132 | with no configured client: false and nothing changes; otherwise every step runs whatever fails before it, users are never touched, and the result is true; one spin-limit row per user and day is kept |
| AppStore.Toggled | src/stores/useAppStore.ts:74-77 | toggling always changes the theme |
| AppStore.ToggleTwice | src/stores/useAppStore.ts:74-77 | toggling twice restores the theme |
| AppStore.StoredAddress | src/stores/useAppStore.ts:52 | a missing or empty address is stored as null, any other is stored as given |
| AppStore.AfterUse | src/stores/useAppStore.ts:61-64 | using a ticket removes one and never goes below zero |
| AppStore.UsesFloorAtZero | src/stores/useAppStore.ts:61-64 | k uses from a non-negative count leave `max(0, tickets - k)` |
| AppStore.Store.constructor | src/stores/useAppStore.ts:43-90 | the initial state: home tab, not connected, 3 tickets, mini-app unknown, loading, dark theme, category "all", no XP or score |
| AppStore.Store.SetActiveTab | src/stores/useAppStore.ts:44 | only the tab changes |
| AppStore.Store.SetWalletInfo | src/stores/useAppStore.ts:49-53 | only the connection flag and the stored address change |
| AppStore.Store.AddSpinnerTickets | src/stores/useAppStore.ts:57-60 | only the ticket count changes, by `count` |
| AppStore.Store.UseSpinnerTicket | src/stores/useAppStore.ts:61-64 | only the ticket count changes, down by one and not below zero |
| AppStore.Store.SetMiniAppStatus | src/stores/useAppStore.ts:69-70 | only the mini-app and loading flags change |
| AppStore.Store.ToggleTheme | src/stores/useAppStore.ts:74-77 | only the theme changes, to the other one |
| AppStore.Store.SetGiftCardCategory | src/stores/useAppStore.ts:81-82 | only the category changes |
| AppStore.Store.AddXP | src/stores/useAppStore.ts:87-88 | only the XP changes, by `amount` |
| AppStore.Store.AddScore | src/stores/useAppStore.ts:89-90 | only the score changes, by `amount` |
| SpinWheel.RemainingSpins | src/components/SpinWheel.tsx:81 | spins left are never negative and equal `max - used` whenever any are left |
| SpinWheel.RemainingAgreesWithService | src/components/SpinWheel.tsx:81 | the wheel's count agrees with the service's count for a stored row |
| SpinWheel.CumulativeMonotone | src/components/SpinWheel.tsx:121-131 | cumulative weights never decrease |
| SpinWheel.WheelShape | src/components/SpinWheel.tsx:15-66 | twelve labels, colours, prizes and weights, and the weights total 144 |
| SpinWheel.PickFromFirstReached | src/components/SpinWheel.tsx:121-131 | the scan from any index stops at the first index whose cumulative weight reaches the draw |
| SpinWheel.PickIndexFirstReached | src/components/SpinWheel.tsx:121-131 | the slot chosen is the first whose cumulative weight reaches the draw, or 0 when none does |
| SpinWheel.PickIndexInterval | src/components/SpinWheel.tsx:121-131 | slot i is chosen exactly for the draws in its own stretch of the cumulative weights |
| SpinWheel.WheelDrawInSlot | src/components/SpinWheel.tsx:121-131 | a draw of `Math.random() * 144` chooses a slot whose stretch holds the draw |
| SpinWheel.SelectWeighted | src/components/SpinWheel.tsx:121-131 | the subtract-until-non-positive loop chooses the slot the cumulative definition chooses, always a valid slot |
| SpinWheel.PickPrize | src/components/SpinWheel.tsx:121-131 | the wheel's draw chooses a valid slot, the one the cumulative definition chooses |
| SpinWheel.WinCoupon | src/components/SpinWheel.tsx:153-167 | a fresh, unused coupon expiring 30 days after the win; a discount exactly when the label contains "OFF" |
| SpinWheel.TryAgainResult | src/components/SpinWheel.tsx:196-207 | the try-again result is already used and worth nothing |
| SpinWheel.DiscountRoundTrip | src/components/SpinWheel.tsx:156-160 | "N% OFF" decodes to a discount worth N |
| SpinWheel.FreebieRoundTrip | src/components/SpinWheel.tsx:156-160 | "$N FREE" decodes to a freebie worth N |
| SpinWheel.OptionsArePrizes | src/components/SpinWheel.tsx:15-64 | every label is the text of its prize |
| SpinWheel.PercentTexts | src/components/SpinWheel.tsx:15-64 | the percentage prizes 5, 10, 15, 20 and 25 are written "5% OFF" … "25% OFF" |
| SpinWheel.FreeTexts | src/components/SpinWheel.tsx:15-64 | the free-credit prizes 5 and 10 are written "$5 FREE" and "$10 FREE" |
| SpinWheel.OnlyNoPrizeReadsTryAgain | src/components/SpinWheel.tsx:15-64 | a label reads "TRY AGAIN" exactly when its slot offers no prize |
| SpinWheel.WheelCoupons | src/components/SpinWheel.tsx:153-167 | every winning slot decodes to the coupon its prize promises; only "TRY AGAIN" wins nothing |
| SpinWheel.RecordWin | src/components/SpinWheel.tsx:170-188 | a spin reward for the coupon's value and colour is appended; when the stats row is read and updated, every stats row of the user is patched by `WinPatch` and nothing else in the table changes; the coupon takes the saved reward's id, or keeps its random id when the insert fails |
| SpinWheel.SettleSpin | src/components/SpinWheel.tsx:153-207 | the stop on a slot is settled as `SettlesAs` describes: a win with a signed-in user yields the slot's coupon and appends its spin reward, and `SpinCounted` patches every stats row of the user by `WinPatch` when the row is read and the update succeeds, leaving the rest of the table as it was; "TRY AGAIN" or no user yields the try-again result and writes nothing; users, wallets, purchases, streaks and spin limits never change |
| SpinWheel.SettledCouponIsPrize | src/components/SpinWheel.tsx:153-188 | a settled coupon is what the slot's prize promises: worth the percentage or the dollars, a discount exactly for a percentage, unused, valid 30 days; the saved reward is worth the same and lends the coupon its id; a slot without a prize yields the try-again result and no reward |
| SpinWheel.Wheel.constructor | src/components/SpinWheel.tsx:72-78 | a wheel at rest on slot 0 that cannot yet spin |
| SpinWheel.Wheel.RefreshCanSpin | src/components/SpinWheel.tsx:85-98 | skipped while loading before the first run; otherwise the wheel may spin exactly when spins are left and it is not turning |
| SpinWheel.Wheel.SpinClick | src/components/SpinWheel.tsx:117-145 | ignored unless the wheel may spin, is at rest and a user is signed in; otherwise a spin starts exactly when today's row is read, has a spin left and the update succeeds, on the slot the weighted draw chooses, and then that row has one more spin used and no other row changes; one spin-limit row per user and day is kept |
| SpinWheel.Wheel.StopSpinning | src/components/SpinWheel.tsx:147-209 | the wheel stops on the same slot and stays blocked; the stop is settled as `SettlesAs` and `SpinCounted` describe (the try-again result and no write for "TRY AGAIN" or no user; for a win the slot's coupon, the spin reward appended and every stats row of the user patched by `WinPatch`, the rest of the table unchanged); users, wallets, purchases, streaks and spin limits never change |
| SpinWheel.Wheel.StopSpinningAsWritten | src/components/SpinWheel.tsx:147-209 | as written: a win for a signed-in user throws before any write, so nothing is stored and no coupon is handed out |
| SpinWheel.LostWinExample | src/components/SpinWheel.tsx:69-170 | slot 0 ("5% OFF", worth 5) is a winning slot the draw can choose |
| Progress.Clamp | src/components/ui/Progress.tsx:25 | the result lies in [0, 100] and equals the input when that already does |
| Progress.Percentage | src/components/ui/Progress.tsx:25 | NaN (here null) exactly for 0 of 0; otherwise in [0, 100], `value / max * 100` within range, 100 at or above max, 0 at or below zero |
| Progress.PercentageBounds | src/components/ui/Progress.tsx:25 | the raw ratio lies within range, above 100 or below 0 in the three cases |
| Progress.SortSorted | src/components/ui/Progress.tsx:78 | the sorted copy is ascending |
| Progress.SortPermutes | src/components/ui/Progress.tsx:78 | the sorted copy holds exactly the input's milestones, duplicates included |
| Progress.InsertSorted | src/components/ui/Progress.tsx:78 | inserting into an ascending list keeps it ascending |
| Progress.InsertKeepsElements | src/components/ui/Progress.tsx:78 | insertion adds exactly the new element |
| Progress.LastIsLargest | src/components/ui/Progress.tsx:79 | the last element of the sorted copy is a milestone, and every milestone is at most it |
| Progress.MilestoneProgress | src/components/ui/Progress.tsx:78-93 | one dot per milestone, none both active and complete; no milestones give a NaN fill |
| Progress.MarksAreSortedMilestones | src/components/ui/Progress.tsx:78-93 | the dots are the milestones in ascending order, none lost or added |
| Progress.ActiveIsFirstUnreached | src/components/ui/Progress.tsx:93 | a dot is active exactly when it is the first milestone above the current value |
| Progress.AtMostOneActive | src/components/ui/Progress.tsx:92-93 | at most one dot is active, and the complete dots form a prefix |
| Progress.ActiveUntilLast | src/components/ui/Progress.tsx:92-93 | some dot is active exactly while the largest milestone is not reached |
| StyleGuide.NonEmpty | src/lib/styleGuide.ts:184 | the pieces kept are arguments and are non-empty |
| StyleGuide.EmptyPiecesGiveEmpty | src/lib/styleGuide.ts:183-185 | no arguments, or only empty ones, give the empty class string |
| StyleGuide.SingleClassUnchanged | src/lib/styleGuide.ts:183-185 | a single argument comes back unchanged |
| StyleGuide.JoinEmpty | src/lib/styleGuide.ts:184 | joining non-empty pieces gives the empty string only for no pieces |
| StyleGuide.JoinAppend | src/lib/styleGuide.ts:184 | joining two non-empty lists is joining each, with one space between |
| StyleGuide.CreateStyleClassAppend | src/lib/styleGuide.ts:183-185 | class strings compose: the two halves with one space between when both are non-empty |
| StyleGuide.SplitJoin | src/lib/styleGuide.ts:184 | splitting a join of space-free pieces at its spaces gives the pieces back |
| StyleGuide.CreateStyleClassSplits | src/lib/styleGuide.ts:183-185 | for space-free class names, the class string splits back into exactly the non-empty arguments, in order |

## Left out

- Network, I/O and the hosted database client are not modelled. Each remote call is only a label that may fail. The database applies each single call atomically, and no two calls interleave, so concurrent sessions (two tabs spending one spin) are not modelled.
- Clocks are parameters:
  - `today` is a day number and `now` is a number of milliseconds;
  - the streak transition's day gap is `today - last`. In the source it is the floor, in whole days, of the current instant (`getCurrentDate()`, src/lib/dateUtils.ts:22-33, which is `new Date()` or the development test date) minus UTC midnight of the stored `last_purchase`; that floor is `today - last` when `today` is the UTC date of that instant, which is what `today` stands for here.
- Randomness is a parameter: `unit` stands for `Math.random()`, `randomId` for the random coupon id, and `username` for the random default username.
- Timestamps (`created_at`, `purchased_at`, `received_at`) are not stored. "Newest first" is reverse insertion order, and ids strictly increase along each table.
- Money is a non-negative whole number of cents. XP and ticket arithmetic on fractions of a cent is not modelled.
- Floating point is exact real arithmetic:
  - the wheel's draw is a `real`;
  - the progress bar's division by zero is modelled as IEEE does it (±infinity clamps to 100 or 0), with NaN as `None`.
- `parseInt` covers ASCII decimal digits only, and lower-casing covers ASCII letters only.
- `updateUser` (src/services/userService.ts:138-157) is not modelled. It is a plain partial update with no logic of its own.
- `getUserStats` is modelled only as the read that every stats operation starts with (`StatsService.StatsRow`).
- Outer `try`/`catch` blocks only turn a thrown exception into the same null, `[]` or `false` as an error result. The model has no exceptions, except the one in the finding below.
- The hooks that the wheel calls into (`useSpin`, `refreshData`, `getSpinLimit`, src/hooks/useSupabaseUser.ts) are not part of this model. `SpinWheel.Wheel.SpinClick` calls the service's `useSpinTicket` directly, which is what `useSpin` does for a signed-in user.
- React rendering, CSS classes, animation, the `onWin` callback's consumer and the spin-speed setting are not modelled.
- The wheel's effect comparing spin-limit props (src/components/SpinWheel.tsx:101-115) is not modelled. It only logs.
- The store's devtools middleware is not modelled.
- `SpinWheel.Wheel.StopSpinning` does not model the `onWin` call. Its result is the coupon that would be handed to it.

## Findings

| source | as written | input that shows it | evidently intended | confidence | as-written member | corrected member |
|---|---|---|---|---|---|---|
| src/components/SpinWheel.tsx:69-170 | `handleStopSpinning` calls `addWonCoupon` taken from the application store, but the store (src/stores/useAppStore.ts) defines no such action. On every win the call throws before `createSpinReward`, `recordSpinWin` and `onWin`. | `prizeNumber` 0 ("5% OFF", the slot every draw at or below 15 chooses) with a signed-in user | the spin reward and the stats are written, and the coupon, with the saved reward's id, is handed to `onWin` | not executed | SpinWheel.Wheel.StopSpinningAsWritten, SpinWheel.LostWinExample | SpinWheel.Wheel.StopSpinning, SpinWheel.SettleSpin, SpinWheel.SettledCouponIsPrize |
