/** Consecutive-day purchase streaks and the one-time milestone bonuses they unlock
    (src/services/streakService.ts). The day-to-day transition and the milestone
    choice are pure functions; reading and writing the `streaks` and `rewards`
    tables are methods on the database. */
module StreakService {
  import opened Common
  import opened Text
  import opened Database

  function Max(a: int, b: int): int { if a >= b then a else b }

  /** The fields a streak update writes; `None` leaves the column as it is. */
  datatype StreakPatch = StreakPatch(current: Option<int>, best: Option<int>, lastPurchase: Option<Day>)

  /** What a purchase on `today` does: nothing at all (a repeat purchase on the
      same day), or an update of the row together with the streak length that
      the milestone check is then run with. */
  datatype Advance = SameDay | Update(patch: StreakPatch, newStreak: int)

  function ApplyPatch(s: Streak, p: StreakPatch): Streak
  {
    s.(current := if p.current.Some? then p.current.value else s.current,
       best := if p.best.Some? then p.best.value else s.best,
       lastPurchase := if p.lastPurchase.Some? then p.lastPurchase else s.lastPurchase)
  }

  /** The streak transition for a purchase made on `today`. The day gap is
      `today - last`: the source measures from UTC midnight of the last
      purchase date to the current instant and rounds down. */
  function AdvanceStreak(s: Streak, today: Day): Advance
  {
    if s.lastPurchase.None? then
      Update(StreakPatch(Some(1), Some(Max(s.best, 1)), Some(today)), 1)
    else if s.lastPurchase.value == today then
      SameDay
    else
      var dayDiff := today - s.lastPurchase.value;
      if dayDiff == 1 then
        Update(StreakPatch(Some(s.current + 1), Some(Max(s.best, s.current + 1)), Some(today)), s.current + 1)
      else if dayDiff > 1 then
        Update(StreakPatch(Some(1), None, Some(today)), 1)
      else
        // last purchase dated after today: the update object stays empty
        Update(StreakPatch(None, None, None), s.current)
  }

  /** The row after a purchase on `today`, as the next read sees it. */
  function AfterPurchase(s: Streak, today: Day): Streak
  {
    match AdvanceStreak(s, today)
    case SameDay => s
    case Update(p, _) => ApplyPatch(s, p)
  }

  /** The four cases of the transition, each stated on its own. */
  lemma AdvanceCases(s: Streak, today: Day)
    ensures s.lastPurchase.None? ==>
      AfterPurchase(s, today) == s.(current := 1, best := Max(s.best, 1), lastPurchase := Some(today))
      && AdvanceStreak(s, today).Update? && AdvanceStreak(s, today).newStreak == 1
    ensures s.lastPurchase == Some(today) ==> AdvanceStreak(s, today) == SameDay
    ensures s.lastPurchase.Some? && today - s.lastPurchase.value == 1 ==>
      AfterPurchase(s, today) == s.(current := s.current + 1, best := Max(s.best, s.current + 1), lastPurchase := Some(today))
      && AdvanceStreak(s, today).Update? && AdvanceStreak(s, today).newStreak == s.current + 1
    ensures s.lastPurchase.Some? && today - s.lastPurchase.value > 1 ==>
      AfterPurchase(s, today) == s.(current := 1, lastPurchase := Some(today))
      && AdvanceStreak(s, today).Update? && AdvanceStreak(s, today).newStreak == 1
    ensures s.lastPurchase.Some? && today < s.lastPurchase.value ==>
      AfterPurchase(s, today) == s
      && AdvanceStreak(s, today).Update? && AdvanceStreak(s, today).newStreak == s.current
  {
  }

  /** One purchase keeps a well-formed streak well formed and never lowers `best`. */
  lemma AfterPurchaseOk(s: Streak, today: Day)
    requires StreakOk(s)
    ensures StreakOk(AfterPurchase(s, today))
    ensures AfterPurchase(s, today).best >= s.best
    ensures AfterPurchase(s, today).userId == s.userId
  {
  }

  /** The streak after purchases on each of `days`, in order. */
  function AfterPurchases(s: Streak, days: seq<Day>): Streak
    decreases |days|
  {
    if days == [] then s else AfterPurchases(AfterPurchase(s, days[0]), days[1..])
  }

  /** From any well-formed row (in particular the fresh one, 0 / 0), any run of
      purchases keeps `best >= current >= 0` and never lowers `best`. */
  lemma {:induction false} BestNeverDecreases(s: Streak, days: seq<Day>)
    requires StreakOk(s)
    ensures StreakOk(AfterPurchases(s, days))
    ensures AfterPurchases(s, days).best >= s.best
    decreases |days|
  {
    if days != [] {
      AfterPurchaseOk(s, days[0]);
      BestNeverDecreases(AfterPurchase(s, days[0]), days[1..]);
    }
  }

  /** Purchases on consecutive days `d, d+1, ..., d+k-1` starting from a fresh
      row give a streak of exactly `k`. */
  lemma {:induction false} ConsecutiveDays(u: nat, d: Day, k: nat)
    ensures AfterPurchases(InitialStreak(u), ConsecutiveRun(d, k)).current == k
    ensures AfterPurchases(InitialStreak(u), ConsecutiveRun(d, k)).best == k
    ensures k > 0 ==> AfterPurchases(InitialStreak(u), ConsecutiveRun(d, k)).lastPurchase == Some(d + k - 1)
  {
    if k > 0 {
      ConsecutiveDays(u, d, k - 1);
      RunSplit(InitialStreak(u), ConsecutiveRun(d, k - 1), d + k - 1);
      assert ConsecutiveRun(d, k) == ConsecutiveRun(d, k - 1) + [d + k - 1];
    }
  }

  function ConsecutiveRun(d: Day, k: nat): (r: seq<Day>)
    ensures |r| == k
    ensures forall i :: 0 <= i < k ==> r[i] == d + i
  {
    if k == 0 then [] else ConsecutiveRun(d, k - 1) + [d + k - 1]
  }

  lemma {:induction false} RunSplit(s: Streak, days: seq<Day>, last: Day)
    ensures AfterPurchases(s, days + [last]) == AfterPurchase(AfterPurchases(s, days), last)
    decreases |days|
  {
    if days == [] {
      assert [] + [last] == [last];
    } else {
      assert (days + [last])[1..] == days[1..] + [last];
      RunSplit(AfterPurchase(s, days[0]), days[1..], last);
    }
  }

  /** Streak lengths that unlock a bonus, ascending. */
  const Milestones: seq<nat> := [3, 5, 7, 10, 14, 21, 30, 60, 90]

  /** `milestones.filter(m => currentStreak >= m).pop()`: the largest milestone
      reached, or nothing below 3. */
  function ReachedMilestone(currentStreak: int): Option<nat>
  {
    LastReached(Milestones, currentStreak)
  }

  /** The last element of `ms` that `n` has reached, if any. */
  function LastReached(ms: seq<nat>, n: int): Option<nat>
  {
    var reached := Reached(ms, n);
    if reached == [] then None else Some(reached[|reached| - 1])
  }

  /** The milestone chosen is the largest one the streak has reached. */
  lemma ReachedMilestoneIsLargest(n: int)
    ensures ReachedMilestone(n).None? <==> n < 3
    ensures ReachedMilestone(n).Some? ==>
      var m := ReachedMilestone(n).value;
      m in Milestones && m <= n && forall m' :: m' in Milestones && m' <= n ==> m' <= m
  {
    MilestonesAscending();
    LastReachedIsLargest(Milestones, n);
  }

  lemma LastReachedIsLargest(ms: seq<nat>, n: int)
    requires |ms| > 0
    requires forall i, j :: 0 <= i < j < |ms| ==> ms[i] < ms[j]
    ensures LastReached(ms, n).None? <==> n < ms[0]
    ensures LastReached(ms, n).Some? ==>
      var m := LastReached(ms, n).value;
      m in ms && m <= n && forall m' :: m' in ms && m' <= n ==> m' <= m
  {
    var c := ReachedPrefix(ms, n);
    if c > 0 {
      forall m' | m' in ms && m' <= n ensures m' <= ms[c - 1] {
        var j :| 0 <= j < |ms| && ms[j] == m';
      }
    }
  }

  lemma MilestonesAscending()
    ensures forall i, j :: 0 <= i < j < |Milestones| ==> Milestones[i] < Milestones[j]
  {
  }

  /** The elements of `ms` that `n` has reached, in order. */
  function Reached(ms: seq<nat>, n: int): seq<nat>
  {
    Filter(ms, (m: nat) => n >= m)
  }

  /** On an ascending list, the milestones reached form a prefix. */
  lemma {:induction false} ReachedPrefix(s: seq<nat>, n: int) returns (c: nat)
    requires forall i, j :: 0 <= i < j < |s| ==> s[i] < s[j]
    ensures c <= |s| && Reached(s, n) == s[..c]
    ensures forall i :: 0 <= i < |s| ==> (i < c <==> s[i] <= n)
  {
    if s == [] {
      return 0;
    }
    if s[0] <= n {
      var c' := ReachedPrefix(s[1..], n);
      c := c' + 1;
      assert Reached(s, n) == [s[0]] + Reached(s[1..], n);
      assert s[..c] == [s[0]] + s[1..][..c'];
    } else {
      forall i | 0 <= i < |s| ensures s[i] > n {
        assert i > 0 ==> s[0] < s[i];
      }
      FilterNone(s, (m: nat) => n >= m);
      c := 0;
    }
  }

  lemma {:induction false} FilterNone<T>(s: seq<T>, p: T -> bool)
    requires forall i :: 0 <= i < |s| ==> !p(s[i])
    ensures Filter(s, p) == []
  {
    if s != [] {
      FilterNone(s[1..], p);
    }
  }

  /** The bonus amount (in dollars) for each milestone; 10 for anything else. */
  function BonusAmount(milestone: nat): int
  {
    match milestone
    case 3 => 5
    case 5 => 10
    case 7 => 20
    case 10 => 30
    case 14 => 50
    case 21 => 75
    case 30 => 100
    case 60 => 200
    case 90 => 300
    case _ => 10
  }

  /** The amount table grows with the milestone. */
  lemma BonusAmountIncreasing(i: nat, j: nat)
    requires i < j < |Milestones|
    ensures BonusAmount(Milestones[i]) < BonusAmount(Milestones[j])
  {
  }

  /** `${milestone}-Day Streak Bonus` */
  function BonusName(milestone: nat): string
  {
    NatToString(milestone) + "-Day Streak Bonus"
  }

  /** The name records the milestone it was given for. */
  lemma BonusNameDecodes(milestone: nat)
    ensures ParseInt(BonusName(milestone)) == Some(milestone)
  {
    ParseIntOfNatToString(milestone, "-Day Streak Bonus");
  }

  predicate IsStreakRewardFor(r: Reward, u: nat, milestone: nat)
  {
    r.userId == u && r.rewardType == StreakBonus && r.milestone == Some(milestone)
  }

  /** The rows `.eq('user_id', u).eq('reward_type', 'streak').eq('milestone', m)` selects. */
  function StreakRewardsFor(rows: seq<Reward>, u: nat, milestone: nat): seq<Reward>
  {
    Filter(rows, (r: Reward) => IsStreakRewardFor(r, u, milestone))
  }

  /** At most one bonus per user and milestone. */
  ghost predicate AtMostOneBonusEach(rows: seq<Reward>, u: nat)
  {
    forall m: nat :: |StreakRewardsFor(rows, u, m)| <= 1
  }

  function StreakRow(rows: seq<Streak>, u: nat, fails: set<Call>): (r: Option<Streak>)
    ensures StreakSelect in fails ==> r.None?
    ensures r.Some? ==> r.value in rows && r.value.userId == u
    ensures StreakSelect !in fails ==> (r.Some? <==> exists i :: 0 <= i < |rows| && rows[i].userId == u)
    ensures r.Some? ==>
      exists i :: 0 <= i < |rows| && rows[i] == r.value && forall k :: 0 <= k < i ==> rows[k].userId != u
  {
    FirstEarliest(rows, (s: Streak) => s.userId == u);
    if StreakSelect in fails then None else StreakOf(rows, u)
  }

  /** The patched table: every row of `u` gets the patch, other rows are untouched. */
  function PatchStreaks(rows: seq<Streak>, u: nat, p: StreakPatch): seq<Streak>
  {
    MapRows(rows, (s: Streak) => if s.userId == u then ApplyPatch(s, p) else s)
  }

  /** After patching, `u` sees its old row patched and every other user sees the same row. */
  lemma StreakOfPatch(rows: seq<Streak>, u: nat, p: StreakPatch, v: nat)
    ensures StreakOf(PatchStreaks(rows, u, p), v) ==
      if v == u && StreakOf(rows, u).Some? then Some(ApplyPatch(StreakOf(rows, u).value, p))
      else StreakOf(rows, v)
  {
    var f := (s: Streak) => if s.userId == u then ApplyPatch(s, p) else s;
    FirstMapRows(rows, (s: Streak) => s.userId == v, f);
  }

  /** The milestone bonus check after a streak update: insert one 'claimable'
      bonus for the largest milestone reached, unless that user already has a
      streak bonus for it. */
  method CheckAndCreateStreakRewards(db: Db, u: nat, currentStreak: int, fails: set<Call>)
    requires db.Valid()
    modifies db
    ensures db.Valid()
    ensures db.users == old(db.users) && db.wallets == old(db.wallets) && db.stats == old(db.stats)
    ensures db.purchases == old(db.purchases) && db.streaks == old(db.streaks) && db.spinLimits == old(db.spinLimits)
    ensures var m := ReachedMilestone(currentStreak);
      if m.Some? && RewardSelect !in fails && RewardInsert !in fails
         && StreakRewardsFor(old(db.rewards), u, m.value) == []
      then db.rewards == old(db.rewards) + [NewBonus(old(db.nextId), u, m.value)] && db.nextId == old(db.nextId) + 1
      else db.rewards == old(db.rewards) && db.nextId == old(db.nextId)
    ensures AtMostOneBonusEach(old(db.rewards), u) ==> AtMostOneBonusEach(db.rewards, u)
    ensures var m := ReachedMilestone(currentStreak);
      m.Some? && RewardSelect !in fails && RewardInsert !in fails ==> |StreakRewardsFor(db.rewards, u, m.value)| >= 1
  {
    var reached := ReachedMilestone(currentStreak);
    if reached.None? {
      return;
    }
    InsertBonusOnce(db, u, reached.value, fails);
  }

  function NewBonus(id: nat, u: nat, m: nat): Reward
  {
    Reward(id, u, StreakBonus, Some(BonusName(m)), BonusAmount(m), Some(m), None, None, Some("claimable"))
  }

  method InsertBonusOnce(db: Db, u: nat, m: nat, fails: set<Call>)
    requires db.Valid()
    modifies db
    ensures db.Valid()
    ensures db.users == old(db.users) && db.wallets == old(db.wallets) && db.stats == old(db.stats)
    ensures db.purchases == old(db.purchases) && db.streaks == old(db.streaks) && db.spinLimits == old(db.spinLimits)
    ensures if RewardSelect !in fails && RewardInsert !in fails && StreakRewardsFor(old(db.rewards), u, m) == []
      then db.rewards == old(db.rewards) + [NewBonus(old(db.nextId), u, m)] && db.nextId == old(db.nextId) + 1
      else db.rewards == old(db.rewards) && db.nextId == old(db.nextId)
    ensures AtMostOneBonusEach(old(db.rewards), u) ==> AtMostOneBonusEach(db.rewards, u)
    ensures RewardSelect !in fails && RewardInsert !in fails ==> |StreakRewardsFor(db.rewards, u, m)| >= 1
  {
    if RewardSelect in fails {
      return;
    }
    var existing := StreakRewardsFor(db.rewards, u, m);
    if |existing| > 0 {
      return;
    }
    if RewardInsert in fails {
      return;
    }
    var bonus := NewBonus(db.nextId, u, m);
    AppendBonus(db.rewards, bonus, u, m);
    AppendRewardKeepsIds(db.rewards, bonus, db.nextId);
    db.rewards := db.rewards + [bonus];
    db.nextId := db.nextId + 1;
  }

  /** Adding a bonus for a milestone that had none keeps "at most one each",
      and afterwards that milestone has exactly one. */
  lemma AppendBonus(before: seq<Reward>, bonus: Reward, u: nat, m: nat)
    requires IsStreakRewardFor(bonus, u, m) && StreakRewardsFor(before, u, m) == []
    ensures AtMostOneBonusEach(before, u) ==> AtMostOneBonusEach(before + [bonus], u)
    ensures |StreakRewardsFor(before + [bonus], u, m)| == 1
  {
    forall m': nat
      ensures StreakRewardsFor(before + [bonus], u, m') ==
        StreakRewardsFor(before, u, m') + (if m' == m then [bonus] else [])
    {
      FilterAppend(before, [bonus], (r: Reward) => IsStreakRewardFor(r, u, m'));
    }
  }

  lemma AppendRewardKeepsIds(rows: seq<Reward>, row: Reward, nextId: nat)
    requires RewardIdsIncreasing(rows) && (forall i :: 0 <= i < |rows| ==> rows[i].id < nextId)
    requires row.id == nextId
    ensures RewardIdsIncreasing(rows + [row])
    ensures forall i :: 0 <= i < |rows + [row]| ==> (rows + [row])[i].id < nextId + 1
  {
  }

  /** The streak table after a purchase on `today`: the buyer's rows get the
      transition's patch when the read finds a row, the day is a new one and
      the update succeeds; otherwise the table is as it was. */
  function StreaksAfterPurchase(rows: seq<Streak>, u: nat, today: Day, fails: set<Call>): seq<Streak>
  {
    var s := StreakRow(rows, u, fails);
    if s.None? then rows
    else match AdvanceStreak(s.value, today)
      case SameDay => rows
      case Update(p, _) => if StreakUpdate in fails then rows else PatchStreaks(rows, u, p)
  }

  /** The milestone whose bonus a purchase on `today` inserts, if any: the
      streak is updated, reaches a milestone, the user has no bonus for it yet
      and the reward read and insert succeed. */
  function BonusEarned(streaks: seq<Streak>, rewards: seq<Reward>, u: nat, today: Day, fails: set<Call>): Option<nat>
  {
    var s := StreakRow(streaks, u, fails);
    if s.Some? && AdvanceStreak(s.value, today).Update? && StreakUpdate !in fails then
      var m := ReachedMilestone(AfterPurchase(s.value, today).current);
      if m.Some? && RewardSelect !in fails && RewardInsert !in fails && StreakRewardsFor(rewards, u, m.value) == []
      then m else None
    else None
  }

  /** The id counter after a purchase's streak update: one id is taken when
      a bonus is inserted. */
  function IdAfterBonus(streaks: seq<Streak>, rewards: seq<Reward>, nextId: nat, u: nat, today: Day, fails: set<Call>): nat
  {
    if BonusEarned(streaks, rewards, u, today, fails).Some? then nextId + 1 else nextId
  }

  /** The update of a purchase on a new day: the user's rows get the
      transition's patch, the user then sees the row after the purchase, and
      every visible row stays well formed. */
  method WriteStreak(db: Db, u: nat, s: Streak, today: Day)
    requires db.Valid()
    requires StreakOf(db.streaks, u) == Some(s) && AdvanceStreak(s, today).Update?
    modifies db
    ensures db.Valid()
    ensures db.users == old(db.users) && db.wallets == old(db.wallets) && db.stats == old(db.stats)
    ensures db.purchases == old(db.purchases) && db.spinLimits == old(db.spinLimits)
    ensures db.rewards == old(db.rewards) && db.nextId == old(db.nextId)
    ensures db.streaks == PatchStreaks(old(db.streaks), u, AdvanceStreak(s, today).patch)
    ensures StreakOf(db.streaks, u) == Some(AfterPurchase(s, today))
    ensures VisibleStreaksOk(old(db.streaks)) ==> VisibleStreaksOk(db.streaks)
  {
    var p := AdvanceStreak(s, today).patch;
    ghost var before := db.streaks;
    db.streaks := PatchStreaks(db.streaks, u, p);
    if VisibleStreaksOk(before) {
      forall v: nat | StreakOf(db.streaks, v).Some?
        ensures StreakOk(StreakOf(db.streaks, v).value)
      {
        StreakOfPatch(before, u, p, v);
        if v == u {
          AfterPurchaseOk(s, today);
        }
      }
    }
    StreakOfPatch(before, u, p, u);
  }

  /** The new-day branch of a purchase: the transition is written, then the
      milestone check runs with the new length. */
  method AdvanceWithBonus(db: Db, u: nat, s: Streak, today: Day, fails: set<Call>) returns (r: Option<Streak>)
    requires db.Valid()
    requires StreakRow(db.streaks, u, fails) == Some(s) && AdvanceStreak(s, today).Update? && StreakUpdate !in fails
    modifies db
    ensures db.Valid()
    ensures db.users == old(db.users) && db.wallets == old(db.wallets) && db.stats == old(db.stats)
    ensures db.purchases == old(db.purchases) && db.spinLimits == old(db.spinLimits)
    ensures r == Some(AfterPurchase(s, today))
    ensures db.streaks == PatchStreaks(old(db.streaks), u, AdvanceStreak(s, today).patch)
    ensures StreakOf(db.streaks, u) == Some(AfterPurchase(s, today))
    ensures var m := ReachedMilestone(AfterPurchase(s, today).current);
      if m.Some? && RewardSelect !in fails && RewardInsert !in fails && StreakRewardsFor(old(db.rewards), u, m.value) == []
      then db.rewards == old(db.rewards) + [NewBonus(old(db.nextId), u, m.value)] && db.nextId == old(db.nextId) + 1
      else db.rewards == old(db.rewards) && db.nextId == old(db.nextId)
    ensures AtMostOneBonusEach(old(db.rewards), u) ==> AtMostOneBonusEach(db.rewards, u)
    ensures VisibleStreaksOk(old(db.streaks)) ==> VisibleStreaksOk(db.streaks)
  {
    WriteStreak(db, u, s, today);
    var updated := AfterPurchase(s, today);
    CheckAndCreateStreakRewards(db, u, updated.current, fails);
    r := Some(updated);
  }

  /** A purchase's effect on the buyer's streak: the row is read, the transition
      applied and written back, then the milestone check runs with the new length.
      A same-day repeat returns the row and writes nothing. */
  method UpdateStreakAfterPurchase(db: Db, u: nat, today: Day, fails: set<Call>) returns (r: Option<Streak>)
    requires db.Valid()
    modifies db
    ensures db.Valid()
    ensures db.users == old(db.users) && db.wallets == old(db.wallets) && db.stats == old(db.stats)
    ensures db.purchases == old(db.purchases) && db.spinLimits == old(db.spinLimits)
    ensures var s := StreakRow(old(db.streaks), u, fails);
      if s.None? then r.None? && db.streaks == old(db.streaks) && db.rewards == old(db.rewards)
      else match AdvanceStreak(s.value, today)
        case SameDay => r == s && db.streaks == old(db.streaks) && db.rewards == old(db.rewards)
        case Update(p, _) =>
          if StreakUpdate in fails then r.None? && db.streaks == old(db.streaks) && db.rewards == old(db.rewards)
          else r == Some(AfterPurchase(s.value, today)) && db.streaks == PatchStreaks(old(db.streaks), u, p)
    ensures StreakRow(old(db.streaks), u, fails).Some? && StreakUpdate !in fails ==>
      StreakOf(db.streaks, u) == Some(AfterPurchase(StreakRow(old(db.streaks), u, fails).value, today))
    ensures var s := StreakRow(old(db.streaks), u, fails);
      s.Some? && AdvanceStreak(s.value, today).Update? && StreakUpdate !in fails ==>
        var m := ReachedMilestone(AfterPurchase(s.value, today).current);
        if m.Some? && RewardSelect !in fails && RewardInsert !in fails
           && StreakRewardsFor(old(db.rewards), u, m.value) == []
        then db.rewards == old(db.rewards) + [NewBonus(old(db.nextId), u, m.value)]
        else db.rewards == old(db.rewards)
    ensures db.streaks == StreaksAfterPurchase(old(db.streaks), u, today, fails)
    ensures var b := BonusEarned(old(db.streaks), old(db.rewards), u, today, fails);
      db.rewards == old(db.rewards) + (if b.Some? then [NewBonus(old(db.nextId), u, b.value)] else [])
    ensures db.nextId == IdAfterBonus(old(db.streaks), old(db.rewards), old(db.nextId), u, today, fails)
    ensures AtMostOneBonusEach(old(db.rewards), u) ==> AtMostOneBonusEach(db.rewards, u)
    ensures VisibleStreaksOk(old(db.streaks)) ==> VisibleStreaksOk(db.streaks)
  {
    var s := StreakRow(db.streaks, u, fails);
    if s.None? {
      return None;
    }
    var adv := AdvanceStreak(s.value, today);
    if adv.SameDay? {
      return s;
    }
    if StreakUpdate in fails {
      return None;
    }
    r := AdvanceWithBonus(db, u, s.value, today, fails);
  }

  /** `getUserStreak`: the user's streak row, or null on error or when there is none. */
  function GetUserStreak(db: Db, u: nat, fails: set<Call>): (r: Option<Streak>)
    reads db
    requires VisibleStreaksOk(db.streaks)
    ensures r.Some? ==> r.value.userId == u && StreakOk(r.value)
    ensures StreakSelect !in fails && (exists i :: 0 <= i < |db.streaks| && db.streaks[i].userId == u) ==> r.Some?
  {
    StreakRow(db.streaks, u, fails)
  }

  /** `getUserStreakRewards`: the user's streak bonuses, newest first; [] on error. */
  function GetUserStreakRewards(db: Db, u: nat, fails: set<Call>): (r: seq<Reward>)
    reads db
    requires db.Valid()
    ensures RewardSelect in fails ==> r == []
    ensures forall x :: x in r ==> x in db.rewards && x.userId == u && x.rewardType == StreakBonus
    ensures RewardSelect !in fails ==>
      forall x :: x in db.rewards && x.userId == u && x.rewardType == StreakBonus ==> x in r
    ensures forall i, j :: 0 <= i < j < |r| ==> r[i].id > r[j].id
  {
    if RewardSelect in fails then []
    else NewestFirst(db.rewards, (x: Reward) => x.userId == u && x.rewardType == StreakBonus)
  }

  /** `claimStreakReward`: a 'claimable' reward with that id becomes 'claimed';
      any other status is left as it is. */
  method ClaimStreakReward(db: Db, rewardId: nat, fails: set<Call>) returns (ok: bool)
    requires db.Valid()
    modifies db
    ensures db.Valid()
    ensures ok <==> RewardUpdate !in fails
    ensures db.users == old(db.users) && db.wallets == old(db.wallets) && db.stats == old(db.stats)
    ensures db.purchases == old(db.purchases) && db.streaks == old(db.streaks)
    ensures db.spinLimits == old(db.spinLimits) && db.nextId == old(db.nextId)
    ensures |db.rewards| == |old(db.rewards)|
    ensures forall i :: 0 <= i < |db.rewards| ==>
      db.rewards[i] == if ok && old(db.rewards)[i].id == rewardId && old(db.rewards)[i].status == Some("claimable")
                       then old(db.rewards)[i].(status := Some("claimed")) else old(db.rewards)[i]
  {
    if RewardUpdate in fails {
      return false;
    }
    db.rewards := MapRows(db.rewards, (x: Reward) =>
      if x.id == rewardId && x.status == Some("claimable") then x.(status := Some("claimed")) else x);
    ok := true;
  }
}
