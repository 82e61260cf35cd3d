/** The account reset (src/services/cleanupService.ts): delete the user's spin
    limits, purchases and rewards, keep one primary wallet, and put back a
    fresh streak and fresh stats. Each step ignores the error its call
    returns, so a failed call simply has no effect and the reset goes on. */
module CleanupService {
  import opened Common
  import opened Database

  /** The spin-limit rows left after `.delete().eq('user_id', u)`. */
  function ResetLimits(rows: seq<SpinLimit>, u: nat, fails: set<Call>): seq<SpinLimit>
  {
    if LimitDelete in fails then rows else Filter(rows, (l: SpinLimit) => l.userId != u)
  }

  function ResetPurchases(rows: seq<Purchase>, u: nat, fails: set<Call>): seq<Purchase>
  {
    if PurchaseDelete in fails then rows else Filter(rows, (p: Purchase) => p.userId != u)
  }

  function ResetRewards(rows: seq<Reward>, u: nat, fails: set<Call>): seq<Reward>
  {
    if RewardDelete in fails then rows else Filter(rows, (x: Reward) => x.userId != u)
  }

  /** The wallet step: the user's first wallet is read (nothing, if the read
      fails), all the user's wallets are deleted, and that first address is
      put back as the one primary, verified 'ethereum' wallet. */
  function ResetWallets(rows: seq<Wallet>, u: nat, fails: set<Call>): seq<Wallet>
  {
    var mine := if WalletSelect in fails then [] else Filter(rows, (w: Wallet) => w.userId == u);
    var kept := if WalletDelete in fails then rows else Filter(rows, (w: Wallet) => w.userId != u);
    if mine != [] && WalletInsert !in fails then kept + [Wallet(u, mine[0].address, "ethereum", true, true)] else kept
  }

  function ResetStreaks(rows: seq<Streak>, u: nat, fails: set<Call>): seq<Streak>
  {
    (if StreakDelete in fails then rows else Filter(rows, (s: Streak) => s.userId != u))
      + (if StreakInsert in fails then [] else [InitialStreak(u)])
  }

  function ResetStats(rows: seq<Stats>, u: nat, fails: set<Call>): seq<Stats>
  {
    (if StatsDelete in fails then rows else Filter(rows, (s: Stats) => s.userId != u))
      + (if StatsInsert in fails then [] else [InitialStats(u)])
  }

  /** With every call succeeding, the user ends with no spin limits, purchases
      or rewards, exactly the fresh streak and stats rows, and one primary
      wallet carrying the first wallet's address (none if there was none). */
  lemma ResetOutcome(u: nat, limits: seq<SpinLimit>, purchases: seq<Purchase>, rewards: seq<Reward>,
                     wallets: seq<Wallet>, streaks: seq<Streak>, stats: seq<Stats>)
    ensures forall l :: l in ResetLimits(limits, u, {}) ==> l.userId != u
    ensures forall p :: p in ResetPurchases(purchases, u, {}) ==> p.userId != u
    ensures forall x :: x in ResetRewards(rewards, u, {}) ==> x.userId != u
    ensures Filter(ResetStreaks(streaks, u, {}), (s: Streak) => s.userId == u) == [InitialStreak(u)]
    ensures Filter(ResetStats(stats, u, {}), (s: Stats) => s.userId == u) == [InitialStats(u)]
    ensures var mine := Filter(wallets, (w: Wallet) => w.userId == u);
      Filter(ResetWallets(wallets, u, {}), (w: Wallet) => w.userId == u) ==
        if mine == [] then [] else [Wallet(u, mine[0].address, "ethereum", true, true)]
  {
    OnlyOthersLeft(streaks, (s: Streak) => s.userId != u, (s: Streak) => s.userId == u, [InitialStreak(u)]);
    OnlyOthersLeft(stats, (s: Stats) => s.userId != u, (s: Stats) => s.userId == u, [InitialStats(u)]);
    var mine := Filter(wallets, (w: Wallet) => w.userId == u);
    var tail := if mine == [] then [] else [Wallet(u, mine[0].address, "ethereum", true, true)];
    OnlyOthersLeft(wallets, (w: Wallet) => w.userId != u, (w: Wallet) => w.userId == u, tail);
    if mine == [] {
      assert Filter(wallets, (w: Wallet) => w.userId != u) + [] == Filter(wallets, (w: Wallet) => w.userId != u);
    }
  }

  /** The rows `p` keeps and then the rows `extra`: selecting the `q` rows,
      where no `p` row is a `q` row and every `extra` row is, gives `extra`. */
  lemma OnlyOthersLeft<T>(rows: seq<T>, p: T -> bool, q: T -> bool, extra: seq<T>)
    requires forall x :: p(x) ==> !q(x)
    requires forall i :: 0 <= i < |extra| ==> q(extra[i])
    ensures Filter(Filter(rows, p) + extra, q) == extra
  {
    FilterAppend(Filter(rows, p), extra, q);
    FilterNoneMatch(Filter(rows, p), q);
    FilterAll(extra, q);
  }

  lemma {:induction false} FilterNoneMatch<T>(s: seq<T>, q: T -> bool)
    requires forall x :: x in s ==> !q(x)
    ensures Filter(s, q) == []
  {
    if s != [] {
      FilterNoneMatch(s[1..], q);
    }
  }

  /** Removing the rows of `u` leaves every other user's rows, in order. */
  lemma {:induction false} FilterOthers<T>(rows: seq<T>, notU: T -> bool, isV: T -> bool)
    requires forall x :: isV(x) ==> notU(x)
    ensures Filter(Filter(rows, notU), isV) == Filter(rows, isV)
  {
    if rows != [] {
      FilterOthers(rows[1..], notU, isV);
      if notU(rows[0]) {
        assert Filter(rows, notU) == [rows[0]] + Filter(rows[1..], notU);
        assert ([rows[0]] + Filter(rows[1..], notU))[1..] == Filter(rows[1..], notU);
      } else {
        assert Filter(rows, notU) == Filter(rows[1..], notU);
      }
    }
  }

  /** The reset never touches another user's rows, whatever fails. */
  lemma ResetKeepsOthers(u: nat, v: nat, fails: set<Call>, limits: seq<SpinLimit>, purchases: seq<Purchase>,
                         rewards: seq<Reward>, wallets: seq<Wallet>, streaks: seq<Streak>, stats: seq<Stats>)
    requires u != v
    ensures Filter(ResetLimits(limits, u, fails), (l: SpinLimit) => l.userId == v) == Filter(limits, (l: SpinLimit) => l.userId == v)
    ensures Filter(ResetPurchases(purchases, u, fails), (p: Purchase) => p.userId == v) == Filter(purchases, (p: Purchase) => p.userId == v)
    ensures Filter(ResetRewards(rewards, u, fails), (x: Reward) => x.userId == v) == Filter(rewards, (x: Reward) => x.userId == v)
    ensures Filter(ResetWallets(wallets, u, fails), (w: Wallet) => w.userId == v) == Filter(wallets, (w: Wallet) => w.userId == v)
    ensures Filter(ResetStreaks(streaks, u, fails), (s: Streak) => s.userId == v) == Filter(streaks, (s: Streak) => s.userId == v)
    ensures Filter(ResetStats(stats, u, fails), (s: Stats) => s.userId == v) == Filter(stats, (s: Stats) => s.userId == v)
  {
    FilterOthers(limits, (l: SpinLimit) => l.userId != u, (l: SpinLimit) => l.userId == v);
    FilterOthers(purchases, (p: Purchase) => p.userId != u, (p: Purchase) => p.userId == v);
    FilterOthers(rewards, (x: Reward) => x.userId != u, (x: Reward) => x.userId == v);
    WalletsKeepOthers(u, v, fails, wallets);
    StreaksKeepOthers(u, v, fails, streaks);
    StatsKeepOthers(u, v, fails, stats);
  }

  lemma WalletsKeepOthers(u: nat, v: nat, fails: set<Call>, wallets: seq<Wallet>)
    requires u != v
    ensures Filter(ResetWallets(wallets, u, fails), (w: Wallet) => w.userId == v) == Filter(wallets, (w: Wallet) => w.userId == v)
  {
    var isV := (w: Wallet) => w.userId == v;
    var kept := if WalletDelete in fails then wallets else Filter(wallets, (w: Wallet) => w.userId != u);
    FilterOthers(wallets, (w: Wallet) => w.userId != u, isV);
    var mine := if WalletSelect in fails then [] else Filter(wallets, (w: Wallet) => w.userId == u);
    if mine != [] && WalletInsert !in fails {
      FilterAppend(kept, [Wallet(u, mine[0].address, "ethereum", true, true)], isV);
    }
  }

  lemma StreaksKeepOthers(u: nat, v: nat, fails: set<Call>, streaks: seq<Streak>)
    requires u != v
    ensures Filter(ResetStreaks(streaks, u, fails), (s: Streak) => s.userId == v) == Filter(streaks, (s: Streak) => s.userId == v)
  {
    var kept := if StreakDelete in fails then streaks else Filter(streaks, (s: Streak) => s.userId != u);
    FilterOthers(streaks, (s: Streak) => s.userId != u, (s: Streak) => s.userId == v);
    FilterAppend(kept, if StreakInsert in fails then [] else [InitialStreak(u)], (s: Streak) => s.userId == v);
  }

  lemma StatsKeepOthers(u: nat, v: nat, fails: set<Call>, stats: seq<Stats>)
    requires u != v
    ensures Filter(ResetStats(stats, u, fails), (s: Stats) => s.userId == v) == Filter(stats, (s: Stats) => s.userId == v)
  {
    var kept := if StatsDelete in fails then stats else Filter(stats, (s: Stats) => s.userId != u);
    FilterOthers(stats, (s: Stats) => s.userId != u, (s: Stats) => s.userId == v);
    FilterAppend(kept, if StatsInsert in fails then [] else [InitialStats(u)], (s: Stats) => s.userId == v);
  }

  /** Resetting an account twice leaves the tables as resetting it once. */
  lemma ResetIdempotent(u: nat, limits: seq<SpinLimit>, purchases: seq<Purchase>, rewards: seq<Reward>,
                        wallets: seq<Wallet>, streaks: seq<Streak>, stats: seq<Stats>)
    ensures ResetLimits(ResetLimits(limits, u, {}), u, {}) == ResetLimits(limits, u, {})
    ensures ResetPurchases(ResetPurchases(purchases, u, {}), u, {}) == ResetPurchases(purchases, u, {})
    ensures ResetRewards(ResetRewards(rewards, u, {}), u, {}) == ResetRewards(rewards, u, {})
    ensures ResetWallets(ResetWallets(wallets, u, {}), u, {}) == ResetWallets(wallets, u, {})
    ensures ResetStreaks(ResetStreaks(streaks, u, {}), u, {}) == ResetStreaks(streaks, u, {})
    ensures ResetStats(ResetStats(stats, u, {}), u, {}) == ResetStats(stats, u, {})
  {
    FilterIdempotent(limits, (l: SpinLimit) => l.userId != u);
    FilterIdempotent(purchases, (p: Purchase) => p.userId != u);
    FilterIdempotent(rewards, (x: Reward) => x.userId != u);
    WalletsResetIdempotent(u, wallets);
    StreaksResetIdempotent(u, streaks);
    StatsResetIdempotent(u, stats);
  }

  lemma WalletsResetIdempotent(u: nat, wallets: seq<Wallet>)
    ensures ResetWallets(ResetWallets(wallets, u, {}), u, {}) == ResetWallets(wallets, u, {})
  {
    var notU := (w: Wallet) => w.userId != u;
    var isU := (w: Wallet) => w.userId == u;
    var kept := Filter(wallets, notU);
    var mine := Filter(wallets, isU);
    OnlyOthersLeft(wallets, notU, isU, []);
    FilterIdempotent(wallets, notU);
    if mine != [] {
      var w := Wallet(u, mine[0].address, "ethereum", true, true);
      assert ResetWallets(wallets, u, {}) == kept + [w];
      OnlyOthersLeft(wallets, notU, isU, [w]);
      DropAppended(kept, notU, w);
    } else {
      assert ResetWallets(wallets, u, {}) == kept;
      assert kept + [] == kept;
    }
  }

  lemma StreaksResetIdempotent(u: nat, streaks: seq<Streak>)
    ensures ResetStreaks(ResetStreaks(streaks, u, {}), u, {}) == ResetStreaks(streaks, u, {})
  {
    var notU := (s: Streak) => s.userId != u;
    DropAppended(Filter(streaks, notU), notU, InitialStreak(u));
  }

  lemma StatsResetIdempotent(u: nat, stats: seq<Stats>)
    ensures ResetStats(ResetStats(stats, u, {}), u, {}) == ResetStats(stats, u, {})
  {
    var notU := (s: Stats) => s.userId != u;
    DropAppended(Filter(stats, notU), notU, InitialStats(u));
  }

  /** Filtering a filtered table with one more row the filter drops gives the filtered table. */
  lemma DropAppended<T>(kept: seq<T>, p: T -> bool, row: T)
    requires forall i :: 0 <= i < |kept| ==> p(kept[i])
    requires !p(row)
    ensures Filter(kept + [row], p) == kept
  {
    FilterAppend(kept, [row], p);
    FilterAll(kept, p);
  }

  /** A property of every row holds of every row a filter keeps. */
  lemma FilterKeepsRows<T>(rows: seq<T>, p: T -> bool, inv: T -> bool)
    requires forall i :: 0 <= i < |rows| ==> inv(rows[i])
    ensures forall i :: 0 <= i < |Filter(rows, p)| ==> inv(Filter(rows, p)[i])
  {
    forall i | 0 <= i < |Filter(rows, p)| ensures inv(Filter(rows, p)[i]) {
      assert Filter(rows, p)[i] in rows;
    }
  }

  /** The delete-then-insert of one step, kept to one table per method. */
  method ResetStreakRows(db: Db, u: nat, fails: set<Call>)
    requires db.Valid()
    modifies db
    ensures db.Valid()
    ensures db.users == old(db.users) && db.wallets == old(db.wallets) && db.stats == old(db.stats)
    ensures db.purchases == old(db.purchases) && db.rewards == old(db.rewards)
    ensures db.spinLimits == old(db.spinLimits) && db.nextId == old(db.nextId)
    ensures db.streaks == ResetStreaks(old(db.streaks), u, fails)
    ensures VisibleStreaksOk(old(db.streaks)) ==> VisibleStreaksOk(db.streaks)
  {
    var isNotU := (s: Streak) => s.userId != u;
    if StreakDelete !in fails {
      ghost var before := db.streaks;
      db.streaks := Filter(db.streaks, isNotU);
      if VisibleStreaksOk(before) {
        forall v: nat | StreakOf(db.streaks, v).Some? ensures StreakOk(StreakOf(db.streaks, v).value) {
          if v != u {
            FirstFilter(before, isNotU, (s: Streak) => s.userId == v);
            assert StreakOf(db.streaks, v) == StreakOf(before, v);
          }
        }
      }
    }
    if StreakInsert !in fails {
      ghost var before := db.streaks;
      db.streaks := db.streaks + [InitialStreak(u)];
      if VisibleStreaksOk(before) {
        forall v: nat | StreakOf(db.streaks, v).Some? ensures StreakOk(StreakOf(db.streaks, v).value) {
          StreakOfAppend(before, InitialStreak(u), v);
        }
      }
    }
  }

  /** `.delete().eq('user_id', u)` on `spin_limits`. */
  method DeleteLimitRows(db: Db, u: nat, fails: set<Call>)
    requires db.Valid()
    modifies db
    ensures db.Valid()
    ensures db.users == old(db.users) && db.wallets == old(db.wallets) && db.stats == old(db.stats)
    ensures db.streaks == old(db.streaks) && db.nextId == old(db.nextId)
    ensures db.purchases == old(db.purchases) && db.rewards == old(db.rewards)
    ensures db.spinLimits == ResetLimits(old(db.spinLimits), u, fails)
    ensures OneLimitPerDay(old(db.spinLimits)) ==> OneLimitPerDay(db.spinLimits)
  {
    var bound := db.nextId;
    if LimitDelete !in fails {
      if OneLimitPerDay(db.spinLimits) {
        FilterKeepsOneLimitPerDay(db.spinLimits, (l: SpinLimit) => l.userId != u);
      }
      FilterKeepsLimitIds(db.spinLimits, (l: SpinLimit) => l.userId != u);
      FilterKeepsRows(db.spinLimits, (l: SpinLimit) => l.userId != u, (l: SpinLimit) => l.id < bound && l.used <= l.maxSpins);
      db.spinLimits := Filter(db.spinLimits, (l: SpinLimit) => l.userId != u);
    }
  }

  /** `.delete().eq('user_id', u)` on `purchases`. */
  method DeletePurchaseRows(db: Db, u: nat, fails: set<Call>)
    requires db.Valid()
    modifies db
    ensures db.Valid()
    ensures db.users == old(db.users) && db.wallets == old(db.wallets) && db.stats == old(db.stats)
    ensures db.streaks == old(db.streaks) && db.nextId == old(db.nextId)
    ensures db.spinLimits == old(db.spinLimits) && db.rewards == old(db.rewards)
    ensures db.purchases == ResetPurchases(old(db.purchases), u, fails)
  {
    var bound := db.nextId;
    if PurchaseDelete !in fails {
      FilterKeepsRows(db.purchases, (p: Purchase) => p.userId != u, (p: Purchase) => p.id < bound);
      db.purchases := Filter(db.purchases, (p: Purchase) => p.userId != u);
    }
  }

  /** `.delete().eq('user_id', u)` on `rewards`. */
  method DeleteRewardRows(db: Db, u: nat, fails: set<Call>)
    requires db.Valid()
    modifies db
    ensures db.Valid()
    ensures db.users == old(db.users) && db.wallets == old(db.wallets) && db.stats == old(db.stats)
    ensures db.streaks == old(db.streaks) && db.nextId == old(db.nextId)
    ensures db.spinLimits == old(db.spinLimits) && db.purchases == old(db.purchases)
    ensures db.rewards == ResetRewards(old(db.rewards), u, fails)
  {
    var bound := db.nextId;
    if RewardDelete !in fails {
      FilterKeepsIncreasing(db.rewards, (x: Reward) => x.userId != u);
      FilterKeepsRows(db.rewards, (x: Reward) => x.userId != u, (x: Reward) => x.id < bound);
      db.rewards := Filter(db.rewards, (x: Reward) => x.userId != u);
    }
  }

  /** The wallet step: read the first wallet, delete them all, put the first back as primary. */
  method ResetWalletRows(db: Db, u: nat, fails: set<Call>)
    requires db.Valid()
    modifies db
    ensures db.Valid()
    ensures db.users == old(db.users) && db.stats == old(db.stats) && db.purchases == old(db.purchases)
    ensures db.streaks == old(db.streaks) && db.rewards == old(db.rewards)
    ensures db.spinLimits == old(db.spinLimits) && db.nextId == old(db.nextId)
    ensures db.wallets == ResetWallets(old(db.wallets), u, fails)
  {
    var mine := if WalletSelect in fails then [] else Filter(db.wallets, (w: Wallet) => w.userId == u);
    if WalletDelete !in fails {
      db.wallets := Filter(db.wallets, (w: Wallet) => w.userId != u);
    }
    if mine != [] && WalletInsert !in fails {
      db.wallets := db.wallets + [Wallet(u, mine[0].address, "ethereum", true, true)];
    }
  }

  method ResetStatsRows(db: Db, u: nat, fails: set<Call>)
    requires db.Valid()
    modifies db
    ensures db.Valid()
    ensures db.users == old(db.users) && db.wallets == old(db.wallets) && db.purchases == old(db.purchases)
    ensures db.streaks == old(db.streaks) && db.rewards == old(db.rewards)
    ensures db.spinLimits == old(db.spinLimits) && db.nextId == old(db.nextId)
    ensures db.stats == ResetStats(old(db.stats), u, fails)
  {
    if StatsDelete !in fails {
      db.stats := Filter(db.stats, (s: Stats) => s.userId != u);
    }
    if StatsInsert !in fails {
      db.stats := db.stats + [InitialStats(u)];
    }
  }

  /** `cleanupUserData`: with no configured client it returns false and does
      nothing; otherwise it runs every step and returns true, whatever failed. */
  method CleanupUserData(db: Db, u: nat, clientConfigured: bool, fails: set<Call>) returns (ok: bool)
    requires db.Valid()
    modifies db
    ensures db.Valid()
    ensures ok == clientConfigured
    ensures !ok ==> unchanged(db)
    ensures db.users == old(db.users) && db.nextId == old(db.nextId)
    ensures ok ==>
      && db.spinLimits == ResetLimits(old(db.spinLimits), u, fails)
      && db.purchases == ResetPurchases(old(db.purchases), u, fails)
      && db.rewards == ResetRewards(old(db.rewards), u, fails)
      && db.wallets == ResetWallets(old(db.wallets), u, fails)
      && db.streaks == ResetStreaks(old(db.streaks), u, fails)
      && db.stats == ResetStats(old(db.stats), u, fails)
    ensures VisibleStreaksOk(old(db.streaks)) ==> VisibleStreaksOk(db.streaks)
    ensures OneLimitPerDay(old(db.spinLimits)) ==> OneLimitPerDay(db.spinLimits)
  {
    if !clientConfigured {
      return false;
    }
    DeleteLimitRows(db, u, fails);
    DeletePurchaseRows(db, u, fails);
    DeleteRewardRows(db, u, fails);
    ResetWalletRows(db, u, fails);
    ResetStreakRows(db, u, fails);
    ResetStatsRows(db, u, fails);
    ok := true;
  }
}
