/** Rewards: spin prizes and streak bonuses kept in the `rewards` table
    (src/services/rewardService.ts). Lists are ordered by `created`
    descending, which over an id-ordered table is newest first. */
module RewardService {
  import opened Common
  import opened Database
  import Text
  import StreakService

  /** `getUserRewards`: every reward of `u`, newest first; `[]` on error. */
  function GetUserRewards(db: Db, u: nat, fails: set<Call>): (r: seq<Reward>)
    reads db
    requires db.Valid()
    ensures RewardSelect in fails ==> r == []
    ensures forall x :: x in r ==> x in db.rewards && x.userId == u
    ensures RewardSelect !in fails ==> forall x :: x in db.rewards && x.userId == u ==> x in r
    ensures forall i, j :: 0 <= i < j < |r| ==> r[i].id > r[j].id
  {
    if RewardSelect in fails then [] else NewestFirst(db.rewards, (x: Reward) => x.userId == u)
  }

  /** `getClaimableRewards`: the rewards of `u` whose status is `claimable`, newest first. */
  function GetClaimableRewards(db: Db, u: nat, fails: set<Call>): (r: seq<Reward>)
    reads db
    requires db.Valid()
    ensures RewardSelect in fails ==> r == []
    ensures forall x :: x in r ==> x in db.rewards && x.userId == u && x.status == Some("claimable")
    ensures RewardSelect !in fails ==>
      forall x :: x in db.rewards && x.userId == u && x.status == Some("claimable") ==> x in r
    ensures forall i, j :: 0 <= i < j < |r| ==> r[i].id > r[j].id
  {
    if RewardSelect in fails then []
    else NewestFirst(db.rewards, (x: Reward) => x.userId == u && x.status == Some("claimable"))
  }

  /** The claimable list is exactly the part of the user's list whose status is `claimable`. */
  lemma ClaimableAreUserRewards(db: Db, u: nat, fails: set<Call>)
    requires db.Valid()
    ensures forall x :: x in GetClaimableRewards(db, u, fails) <==>
      x in GetUserRewards(db, u, fails) && x.status == Some("claimable")
  {
  }

  /** A reward with the largest id of the table is the head of any newest-first
      list that selects it. */
  lemma NewestListedFirst(rows: seq<Reward>, p: Reward -> bool, x: Reward)
    requires RewardIdsIncreasing(rows)
    requires x in rows && p(x)
    requires forall i :: 0 <= i < |rows| ==> rows[i].id <= x.id
    ensures |NewestFirst(rows, p)| > 0 && NewestFirst(rows, p)[0] == x
  {
    var r := NewestFirst(rows, p);
    var k :| 0 <= k < |r| && r[k] == x;
    assert r[0].id >= x.id;
    assert r[0] in rows;
    var i :| 0 <= i < |rows| && rows[i] == r[0];
    var j :| 0 <= j < |rows| && rows[j] == x;
    assert i == j;
  }

  /** The row `createSpinReward` inserts. */
  function SpinReward(id: nat, u: nat, amount: int, name: string, rarity: string, color: Option<string>): Reward
  {
    Reward(id, u, SpinPrize, Some(name), amount, None, Some(rarity), color, None)
  }

  /** The row `createStreakReward` inserts: titled `<milestone>-Day Streak Bonus`. */
  function StreakReward(id: nat, u: nat, amount: int, milestone: nat, status: string): Reward
  {
    Reward(id, u, StreakBonus, Some(StreakService.BonusName(milestone)), amount, Some(milestone), None, None, Some(status))
  }

  /** Insert one reward row with the next id; `None` and no change when the insert fails. */
  method InsertReward(db: Db, row: Reward, fails: set<Call>) returns (r: Option<Reward>)
    requires db.Valid()
    requires row.id == db.nextId
    modifies db
    ensures db.Valid()
    ensures db.users == old(db.users) && db.wallets == old(db.wallets) && db.stats == old(db.stats)
    ensures db.purchases == old(db.purchases) && db.streaks == old(db.streaks) && db.spinLimits == old(db.spinLimits)
    ensures RewardInsert in fails ==> r.None? && db.rewards == old(db.rewards) && db.nextId == old(db.nextId)
    ensures RewardInsert !in fails ==>
      r == Some(row) && db.rewards == old(db.rewards) + [row] && db.nextId == old(db.nextId) + 1
    ensures RewardInsert !in fails ==> GetUserRewards(db, row.userId, {})[0] == row
  {
    if RewardInsert in fails {
      return None;
    }
    StreakService.AppendRewardKeepsIds(db.rewards, row, db.nextId);
    db.rewards := db.rewards + [row];
    db.nextId := db.nextId + 1;
    NewestListedFirst(db.rewards, (x: Reward) => x.userId == row.userId, row);
    r := Some(row);
  }

  /** `createSpinReward`: a new `spin` reward with no milestone and no status;
      a new reward heads the user's reward list. */
  method CreateSpinReward(db: Db, u: nat, amount: int, name: string, rarity: string, color: Option<string>, fails: set<Call>)
    returns (r: Option<Reward>)
    requires db.Valid()
    modifies db
    ensures db.Valid()
    ensures db.users == old(db.users) && db.wallets == old(db.wallets) && db.stats == old(db.stats)
    ensures db.purchases == old(db.purchases) && db.streaks == old(db.streaks) && db.spinLimits == old(db.spinLimits)
    ensures RewardInsert in fails ==> r.None? && db.rewards == old(db.rewards) && db.nextId == old(db.nextId)
    ensures RewardInsert !in fails ==>
      && r == Some(SpinReward(old(db.nextId), u, amount, name, rarity, color))
      && db.rewards == old(db.rewards) + [r.value] && db.nextId == old(db.nextId) + 1
      && GetUserRewards(db, u, {})[0] == r.value
  {
    r := InsertReward(db, SpinReward(db.nextId, u, amount, name, rarity, color), fails);
  }

  /** `createStreakReward`, its status defaulting to `claimable`. */
  method CreateStreakReward(db: Db, u: nat, amount: int, milestone: nat, fails: set<Call>, status: string := "claimable")
    returns (r: Option<Reward>)
    requires db.Valid()
    modifies db
    ensures db.Valid()
    ensures db.users == old(db.users) && db.wallets == old(db.wallets) && db.stats == old(db.stats)
    ensures db.purchases == old(db.purchases) && db.streaks == old(db.streaks) && db.spinLimits == old(db.spinLimits)
    ensures RewardInsert in fails ==> r.None? && db.rewards == old(db.rewards) && db.nextId == old(db.nextId)
    ensures RewardInsert !in fails ==>
      && r == Some(StreakReward(old(db.nextId), u, amount, milestone, status))
      && db.rewards == old(db.rewards) + [r.value] && db.nextId == old(db.nextId) + 1
      && GetUserRewards(db, u, {})[0] == r.value
  {
    r := InsertReward(db, StreakReward(db.nextId, u, amount, milestone, status), fails);
  }

  /** The streak reward's title carries its milestone back. */
  lemma StreakRewardNamesMilestone(id: nat, u: nat, amount: int, milestone: nat, status: string)
    ensures var x := StreakReward(id, u, amount, milestone, status);
      x.name.Some? && Text.ParseInt(x.name.value) == Some(milestone) && x.milestone == Some(milestone)
  {
    StreakService.BonusNameDecodes(milestone);
  }

  /** The rewards table after `.update({ status }).eq('id', rewardId)`. */
  function WithStatus(rows: seq<Reward>, rewardId: nat, status: string): (r: seq<Reward>)
    ensures |r| == |rows|
    ensures forall i :: 0 <= i < |rows| ==>
      r[i] == if rows[i].id == rewardId then rows[i].(status := Some(status)) else rows[i]
  {
    MapRows(rows, (x: Reward) => if x.id == rewardId then x.(status := Some(status)) else x)
  }

  /** Setting a status twice is setting it once, and the later of two status
      updates of the same reward wins. */
  lemma WithStatusLastWins(rows: seq<Reward>, rewardId: nat, s1: string, s2: string)
    ensures WithStatus(WithStatus(rows, rewardId, s1), rewardId, s2) == WithStatus(rows, rewardId, s2)
  {
  }

  /** `updateRewardStatus`. */
  method UpdateRewardStatus(db: Db, rewardId: nat, status: string, fails: set<Call>) returns (ok: bool)
    requires db.Valid()
    modifies db
    ensures db.Valid()
    ensures ok <==> RewardUpdate !in fails
    ensures db.users == old(db.users) && db.wallets == old(db.wallets) && db.stats == old(db.stats)
    ensures db.purchases == old(db.purchases) && db.streaks == old(db.streaks)
    ensures db.spinLimits == old(db.spinLimits) && db.nextId == old(db.nextId)
    ensures db.rewards == if ok then WithStatus(old(db.rewards), rewardId, status) else old(db.rewards)
  {
    if RewardUpdate in fails {
      return false;
    }
    db.rewards := WithStatus(db.rewards, rewardId, status);
    ok := true;
  }

  /** `useReward`: status `used`; a used reward leaves every claimable list. */
  method UseReward(db: Db, rewardId: nat, fails: set<Call>) returns (ok: bool)
    requires db.Valid()
    modifies db
    ensures db.Valid()
    ensures ok <==> RewardUpdate !in fails
    ensures db.users == old(db.users) && db.wallets == old(db.wallets) && db.stats == old(db.stats)
    ensures db.purchases == old(db.purchases) && db.streaks == old(db.streaks)
    ensures db.spinLimits == old(db.spinLimits) && db.nextId == old(db.nextId)
    ensures db.rewards == if ok then WithStatus(old(db.rewards), rewardId, "used") else old(db.rewards)
    ensures ok ==> forall u: nat, x :: x in GetClaimableRewards(db, u, {}) ==> x.id != rewardId
  {
    ok := UpdateRewardStatus(db, rewardId, "used", fails);
  }
}
