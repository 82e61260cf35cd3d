/** The relational records of the loyalty layer and the hosted database that
    holds them, as in-memory tables.

    - Every table is a sequence of rows in insertion order. A `.limit(1)`
      query sees the first matching row; an `.update(...).eq(col, v)` patches
      every matching row; `created` / `purchased` ordering is insertion order.
    - Ids are drawn from one counter, so along every table that has ids they
      strictly increase: a larger id is a newer row.
    - Dates are day numbers (the UTC calendar date `YYYY-MM-DD`, counted in days);
      money is in cents. */
module Database {
  import opened Common

  /** A UTC calendar date, as a day number. */
  type Day = int

  /** An amount of money in cents. */
  type Cents = nat

  datatype User = User(id: nat, username: string, connected: bool)

  datatype Wallet = Wallet(userId: nat, address: string, chain: string, verified: bool, isPrimary: bool)

  datatype Stats = Stats(
    userId: nat,
    level: int,
    xp: int,
    achievements: seq<string>,
    favoriteCategory: Option<string>,
    spinsWon: int,
    bestSpin: int)

  datatype Purchase = Purchase(
    id: nat,
    userId: nat,
    amount: Cents,
    currency: string,
    name: Option<string>,
    category: Option<string>,
    orderId: Option<string>,
    xp: nat)

  datatype Streak = Streak(
    userId: nat,
    current: int,
    best: int,
    lastPurchase: Option<Day>,
    freezesUsed: int,
    multiplier: int)

  datatype RewardType = StreakBonus | SpinPrize

  datatype Reward = Reward(
    id: nat,
    userId: nat,
    rewardType: RewardType,
    name: Option<string>,
    amount: int,
    milestone: Option<nat>,
    rarity: Option<string>,
    color: Option<string>,
    status: Option<string>)

  datatype SpinLimit = SpinLimit(
    id: nat,
    userId: nat,
    date: Day,
    used: nat,
    maxSpins: nat,
    purchaseAmount: Cents)

  /** The remote calls the services make. A call named in a method's `fails`
      set returns an error and changes nothing. */
  datatype Call =
    | UserSelect | UserInsert | UserDelete
    | WalletSelect | WalletInsert | WalletDelete
    | StatsSelect | StatsInsert | StatsUpdate | StatsDelete
    | StreakSelect | StreakInsert | StreakUpdate | StreakDelete
    | PurchaseSelect | PurchaseInsert | PurchaseDelete
    | RewardSelect | RewardInsert | RewardUpdate | RewardDelete
    | LimitSelect | LimitSelectNoRows | LimitInsert | LimitUpdate | LimitDelete

  /** A streak row keeps `0 <= current <= best`, and a streak that has seen a
      purchase is at least one day long. */
  predicate StreakOk(s: Streak)
  {
    0 <= s.current <= s.best && (s.lastPurchase.Some? ==> s.current >= 1)
  }

  /** Fresh streak and stats rows, as created for a new or reset account. */
  function InitialStreak(u: nat): Streak { Streak(u, 0, 0, None, 0, 1) }
  function InitialStats(u: nat): Stats { Stats(u, 1, 0, [], None, 0, 0) }

  function StatsOf(rows: seq<Stats>, u: nat): Option<Stats> { First(rows, (s: Stats) => s.userId == u) }
  function StreakOf(rows: seq<Streak>, u: nat): Option<Streak> { First(rows, (s: Streak) => s.userId == u) }

  /** The spin-limit row that `.eq('user_id', u).eq('date', d).limit(1)` returns. */
  function LimitOf(rows: seq<SpinLimit>, u: nat, d: Day): Option<SpinLimit>
  {
    First(rows, (l: SpinLimit) => l.userId == u && l.date == d)
  }

  predicate RewardIdsIncreasing(rows: seq<Reward>)
  {
    forall i, j :: 0 <= i < j < |rows| ==> rows[i].id < rows[j].id
  }

  predicate LimitIdsIncreasing(rows: seq<SpinLimit>)
  {
    forall i, j :: 0 <= i < j < |rows| ==> rows[i].id < rows[j].id
  }

  /** The user and day a spin-limit row is for. */
  function LimitKey(l: SpinLimit): (nat, Day)
  {
    (l.userId, l.date)
  }

  /** At most one spin-limit row per user and day. */
  predicate OneLimitPerDay(rows: seq<SpinLimit>)
  {
    forall i, j {:trigger LimitKey(rows[i]), LimitKey(rows[j])} ::
      0 <= i < j < |rows| ==> LimitKey(rows[i]) != LimitKey(rows[j])
  }

  /** With one row per user and day, the row a read of `(u, d)` finds is the
      only row of that user and day. */
  lemma OnlyLimitOfDay(rows: seq<SpinLimit>, u: nat, d: Day)
    requires OneLimitPerDay(rows) && LimitOf(rows, u, d).Some?
    ensures forall i :: 0 <= i < |rows| && rows[i].userId == u && rows[i].date == d ==> rows[i] == LimitOf(rows, u, d).value
  {
    var k :| 0 <= k < |rows| && rows[k] == LimitOf(rows, u, d).value;
    forall i | 0 <= i < |rows| && rows[i].userId == u && rows[i].date == d
      ensures rows[i] == rows[k]
    {
      assert LimitKey(rows[i]) == LimitKey(rows[k]);
    }
  }

  /** Appending a row for a user and day that has none keeps one row per day. */
  lemma AppendKeepsOneLimitPerDay(rows: seq<SpinLimit>, row: SpinLimit)
    requires OneLimitPerDay(rows) && LimitOf(rows, row.userId, row.date).None?
    ensures OneLimitPerDay(rows + [row])
  {
  }

  /** Deleting rows keeps one row per day. */
  lemma {:induction false} FilterKeepsOneLimitPerDay(rows: seq<SpinLimit>, p: SpinLimit -> bool)
    requires OneLimitPerDay(rows)
    ensures OneLimitPerDay(Filter(rows, p))
  {
    if rows != [] {
      var tail := rows[1..];
      TailOfOneLimitPerDay(rows);
      FilterKeepsOneLimitPerDay(tail, p);
      var t := Filter(tail, p);
      if p(rows[0]) {
        assert Filter(rows, p) == [rows[0]] + t;
        ConsKeepsOneLimitPerDay(rows[0], t);
      } else {
        assert Filter(rows, p) == t;
      }
    }
  }

  /** Without its first row the table still has one row per user and day,
      and no later row shares the first row's user and day. */
  lemma TailOfOneLimitPerDay(rows: seq<SpinLimit>)
    requires OneLimitPerDay(rows) && rows != []
    ensures OneLimitPerDay(rows[1..])
    ensures forall x :: x in rows[1..] ==> LimitKey(x) != LimitKey(rows[0])
  {
    var tail := rows[1..];
    forall i, j | 0 <= i < j < |tail|
      ensures LimitKey(tail[i]) != LimitKey(tail[j])
    {
      assert tail[i] == rows[i + 1] && tail[j] == rows[j + 1];
    }
    forall x | x in tail
      ensures LimitKey(x) != LimitKey(rows[0])
    {
      var k :| 0 <= k < |tail| && tail[k] == x;
      assert rows[k + 1] == x;
    }
  }

  /** A row put in front of a table with one row per user and day, whose user
      and day no row of that table has, keeps one row per user and day. */
  lemma ConsKeepsOneLimitPerDay(h: SpinLimit, t: seq<SpinLimit>)
    requires OneLimitPerDay(t)
    requires forall x :: x in t ==> LimitKey(x) != LimitKey(h)
    ensures OneLimitPerDay([h] + t)
  {
    var r := [h] + t;
    forall i, j | 0 <= i < j < |r|
      ensures LimitKey(r[i]) != LimitKey(r[j])
    {
      assert r[j] == t[j - 1];
      if i == 0 {
        assert t[j - 1] in t;
      } else {
        assert r[i] == t[i - 1];
      }
    }
  }

  /** Every streak row a query can see (the first of its user) is well formed. */
  ghost predicate VisibleStreaksOk(rows: seq<Streak>)
  {
    forall u: nat :: StreakOf(rows, u).Some? ==> StreakOk(StreakOf(rows, u).value)
  }

  /** Every id is below the counter, reward and spin-limit ids increase along
      their tables, and no spin-limit row has used more spins than it allows. */
  ghost predicate TablesOk(users: seq<User>, purchases: seq<Purchase>, rewards: seq<Reward>,
                           spinLimits: seq<SpinLimit>, nextId: nat)
  {
    && (forall i :: 0 <= i < |users| ==> users[i].id < nextId)
    && (forall i :: 0 <= i < |purchases| ==> purchases[i].id < nextId)
    && (forall i :: 0 <= i < |rewards| ==> rewards[i].id < nextId)
    && (forall i :: 0 <= i < |spinLimits| ==> spinLimits[i].id < nextId)
    && RewardIdsIncreasing(rewards)
    && LimitIdsIncreasing(spinLimits)
    && (forall i :: 0 <= i < |spinLimits| ==> spinLimits[i].used <= spinLimits[i].maxSpins)
  }

  /** The hosted database. */
  class Db {
    var users: seq<User>
    var wallets: seq<Wallet>
    var stats: seq<Stats>
    var purchases: seq<Purchase>
    var streaks: seq<Streak>
    var rewards: seq<Reward>
    var spinLimits: seq<SpinLimit>
    var nextId: nat

    /** The table invariants every service operation keeps. The invariant on
        streak rows, `VisibleStreaksOk(streaks)`, is stated on its own by the
        operations that write streaks. */
    ghost predicate Valid()
      reads this
    {
      TablesOk(users, purchases, rewards, spinLimits, nextId)
    }

    constructor ()
      ensures Valid() && VisibleStreaksOk(streaks) && OneLimitPerDay(spinLimits)
      ensures users == [] && wallets == [] && stats == [] && purchases == []
      ensures streaks == [] && rewards == [] && spinLimits == [] && nextId == 0
    {
      users, wallets, stats, purchases := [], [], [], [];
      streaks, rewards, spinLimits, nextId := [], [], [], 0;
    }
  }

  /** Appending a row for another user leaves what `u` sees unchanged. */
  lemma StreakOfAppend(rows: seq<Streak>, row: Streak, u: nat)
    ensures StreakOf(rows + [row], u) ==
      if StreakOf(rows, u).Some? then StreakOf(rows, u)
      else if row.userId == u then Some(row) else None
  {
    FirstAppend(rows, [row], (s: Streak) => s.userId == u);
  }

  lemma StatsOfAppend(rows: seq<Stats>, row: Stats, u: nat)
    ensures StatsOf(rows + [row], u) ==
      if StatsOf(rows, u).Some? then StatsOf(rows, u)
      else if row.userId == u then Some(row) else None
  {
    FirstAppend(rows, [row], (s: Stats) => s.userId == u);
  }

  /** The rewards selected by `p`, ordered by `created` descending (newest first). */
  function NewestFirst(rows: seq<Reward>, p: Reward -> bool): (r: seq<Reward>)
    requires RewardIdsIncreasing(rows)
    ensures forall x :: x in r <==> x in rows && p(x)
    ensures forall i, j :: 0 <= i < j < |r| ==> r[i].id > r[j].id
  {
    var f := Filter(rows, p);
    FilterKeepsIncreasing(rows, p);
    forall x | x in rows && p(x) ensures x in f { FilterComplete(rows, p, x); }
    assert forall x :: x in Reverse(f) <==> x in multiset(Reverse(f));
    Reverse(f)
  }

  /** A filtered table keeps its ids increasing. */
  lemma {:induction false} FilterKeepsIncreasing(rows: seq<Reward>, p: Reward -> bool)
    requires RewardIdsIncreasing(rows)
    ensures RewardIdsIncreasing(Filter(rows, p))
    ensures forall x :: x in Filter(rows, p) ==> x.id >= (if rows == [] then 0 else rows[0].id)
  {
    if rows != [] {
      FilterKeepsIncreasing(rows[1..], p);
      forall x | x in Filter(rows[1..], p) ensures x.id > rows[0].id {
        var k :| 0 <= k < |rows[1..]| && rows[1..][k] == x;
        assert rows[k + 1] == x;
      }
    }
  }

  /** A filtered spin-limit table keeps its ids increasing. */
  lemma {:induction false} FilterKeepsLimitIds(rows: seq<SpinLimit>, p: SpinLimit -> bool)
    requires LimitIdsIncreasing(rows)
    ensures LimitIdsIncreasing(Filter(rows, p))
    ensures forall x :: x in Filter(rows, p) ==> x.id >= (if rows == [] then 0 else rows[0].id)
  {
    if rows != [] {
      FilterKeepsLimitIds(rows[1..], p);
      forall x | x in Filter(rows[1..], p) ensures x.id > rows[0].id {
        var k :| 0 <= k < |rows[1..]| && rows[1..][k] == x;
        assert rows[k + 1] == x;
      }
    }
  }
}
