/** Accounts and their wallets (src/services/userService.ts). Addresses are
    stored lower-cased and looked up lower-cased. */
module UserService {
  import opened Common
  import opened Text
  import opened Database

  /** The first wallet stored under `address` lower-cased. */
  function WalletFor(rows: seq<Wallet>, address: string): (r: Option<Wallet>)
    ensures r.Some? <==> exists i :: 0 <= i < |rows| && rows[i].address == ToLower(address)
    ensures r.Some? ==>
      exists i :: 0 <= i < |rows| && rows[i] == r.value && r.value.address == ToLower(address)
        && forall k :: 0 <= k < i ==> rows[k].address != ToLower(address)
  {
    FirstEarliest(rows, (w: Wallet) => w.address == ToLower(address));
    First(rows, (w: Wallet) => w.address == ToLower(address))
  }

  function UserById(rows: seq<User>, id: nat): Option<User>
  {
    First(rows, (x: User) => x.id == id)
  }

  /** `getUserByWallet`: the owner of the first wallet with that address;
      null on any error, when no wallet matches, or when the owner row is gone. */
  function GetUserByWallet(db: Db, address: string, fails: set<Call>): (r: Option<User>)
    reads db
    ensures WalletSelect in fails || WalletFor(db.wallets, address).None? ==> r.None?
    ensures r.Some? ==>
      && r.value in db.users
      && exists w :: w in db.wallets && w.address == ToLower(address) && w.userId == r.value.id
    ensures r.Some? ==> r.value.id == WalletFor(db.wallets, address).value.userId
    ensures WalletSelect !in fails && UserSelect !in fails && WalletFor(db.wallets, address).Some? ==>
      (r.Some? <==> exists i :: 0 <= i < |db.users| && db.users[i].id == WalletFor(db.wallets, address).value.userId)
  {
    if WalletSelect in fails then None
    else match WalletFor(db.wallets, address)
      case None => None
      case Some(w) => if UserSelect in fails then None else UserById(db.users, w.userId)
  }

  /** Lookup ignores the case of ASCII letters: an address and its lower-cased
      form find the same user. */
  lemma LookupIgnoresCase(db: Db, address: string, fails: set<Call>)
    ensures GetUserByWallet(db, address, fails) == GetUserByWallet(db, ToLower(address), fails)
  {
    ToLowerIdempotent(address);
  }

  /** `getUserWallets`: exactly the wallets of `u`, in table order; `[]` on error. */
  function GetUserWallets(db: Db, u: nat, fails: set<Call>): (r: seq<Wallet>)
    reads db
    ensures WalletSelect in fails ==> r == []
    ensures forall w :: w in r ==> w in db.wallets && w.userId == u
    ensures WalletSelect !in fails ==> forall w :: w in db.wallets && w.userId == u ==> w in r
  {
    if WalletSelect in fails then []
    else
      var r := Filter(db.wallets, (w: Wallet) => w.userId == u);
      forall w | w in db.wallets && w.userId == u ensures w in r {
        FilterComplete(db.wallets, (w: Wallet) => w.userId == u, w);
      }
      r
  }

  /** The wallet a new account is created with. */
  function PrimaryWallet(u: nat, address: string): Wallet
  {
    Wallet(u, ToLower(address), "ethereum", true, true)
  }

  /** A new id is not yet taken, so the row carrying it is found by id. */
  lemma UserByNewId(rows: seq<User>, row: User, nextId: nat)
    requires forall i :: 0 <= i < |rows| ==> rows[i].id < nextId
    requires row.id == nextId
    ensures UserById(rows + [row], nextId) == Some(row)
    ensures Filter(rows + [row], (x: User) => x.id != nextId) == rows
  {
    FirstAppend(rows, [row], (x: User) => x.id == nextId);
    FilterAppend(rows, [row], (x: User) => x.id != nextId);
    FilterAll(rows, (x: User) => x.id != nextId);
  }

  /** The user insert of `createUserWithWallet`. */
  method InsertUser(db: Db, username: string) returns (user: User)
    requires db.Valid()
    modifies db
    ensures db.Valid()
    ensures db.wallets == old(db.wallets) && db.stats == old(db.stats) && db.purchases == old(db.purchases)
    ensures db.streaks == old(db.streaks) && db.rewards == old(db.rewards) && db.spinLimits == old(db.spinLimits)
    ensures user == User(old(db.nextId), username, true)
    ensures db.users == old(db.users) + [user] && db.nextId == old(db.nextId) + 1
    ensures UserById(db.users, user.id) == Some(user)
    ensures Filter(db.users, (x: User) => x.id != user.id) == old(db.users)
  {
    user := User(db.nextId, username, true);
    UserByNewId(db.users, user, db.nextId);
    db.users := db.users + [user];
    db.nextId := db.nextId + 1;
  }

  /** The wallet insert of `createUserWithWallet`: the address is stored
      lower-cased, and a lookup of an address no wallet had yet finds it. */
  method InsertPrimaryWallet(db: Db, u: nat, address: string)
    requires db.Valid()
    modifies db
    ensures db.Valid()
    ensures db.users == old(db.users) && db.stats == old(db.stats) && db.purchases == old(db.purchases)
    ensures db.streaks == old(db.streaks) && db.rewards == old(db.rewards) && db.spinLimits == old(db.spinLimits)
    ensures db.nextId == old(db.nextId)
    ensures db.wallets == old(db.wallets) + [PrimaryWallet(u, address)]
    ensures WalletFor(old(db.wallets), address).None? ==> WalletFor(db.wallets, address) == Some(PrimaryWallet(u, address))
  {
    FirstAppend(db.wallets, [PrimaryWallet(u, address)], (w: Wallet) => w.address == ToLower(address));
    db.wallets := db.wallets + [PrimaryWallet(u, address)];
  }

  /** The stats and streak inserts: each is skipped when it fails and the other still runs. */
  method InsertInitialRows(db: Db, u: nat, fails: set<Call>)
    requires db.Valid()
    modifies db
    ensures db.Valid()
    ensures db.users == old(db.users) && db.wallets == old(db.wallets) && db.purchases == old(db.purchases)
    ensures db.rewards == old(db.rewards) && db.spinLimits == old(db.spinLimits) && db.nextId == old(db.nextId)
    ensures db.stats == old(db.stats) + (if StatsInsert in fails then [] else [InitialStats(u)])
    ensures db.streaks == old(db.streaks) + (if StreakInsert in fails then [] else [InitialStreak(u)])
    ensures VisibleStreaksOk(old(db.streaks)) ==> VisibleStreaksOk(db.streaks)
  {
    if StatsInsert !in fails {
      db.stats := db.stats + [InitialStats(u)];
    }
    if StreakInsert !in fails {
      ghost var before := db.streaks;
      db.streaks := db.streaks + [InitialStreak(u)];
      if VisibleStreaksOk(before) {
        forall v: nat | StreakOf(db.streaks, v).Some? ensures StreakOk(StreakOf(db.streaks, v).value) {
          StreakOfAppend(before, InitialStreak(u), v);
        }
      }
    }
  }

  /** `createUserWithWallet`: a connected user (the random default username is
      a parameter), a primary verified 'ethereum' wallet, fresh stats and a
      fresh streak. When the wallet insert fails the user row is deleted again
      and null returned; stats and streak failures are only logged. */
  method CreateUserWithWallet(db: Db, address: string, username: string, fails: set<Call>) returns (r: Option<User>)
    requires db.Valid()
    modifies db
    ensures db.Valid()
    ensures VisibleStreaksOk(old(db.streaks)) ==> VisibleStreaksOk(db.streaks)
    ensures db.purchases == old(db.purchases) && db.rewards == old(db.rewards) && db.spinLimits == old(db.spinLimits)
    ensures UserInsert in fails ==> r.None? && unchanged(db)
    ensures UserInsert !in fails && WalletInsert in fails ==>
      && r.None?
      && db.wallets == old(db.wallets) && db.stats == old(db.stats) && db.streaks == old(db.streaks)
      && db.users == (if UserDelete in fails then old(db.users) + [User(old(db.nextId), username, true)] else old(db.users))
    ensures UserInsert !in fails && WalletInsert !in fails ==>
      var u := old(db.nextId);
      && r == Some(User(u, username, true))
      && db.users == old(db.users) + [r.value]
      && db.wallets == old(db.wallets) + [PrimaryWallet(u, address)]
      && db.stats == old(db.stats) + (if StatsInsert in fails then [] else [InitialStats(u)])
      && db.streaks == old(db.streaks) + (if StreakInsert in fails then [] else [InitialStreak(u)])
      && (WalletFor(old(db.wallets), address).None? ==> GetUserByWallet(db, address, {}) == r)
  {
    if UserInsert in fails {
      return None;
    }
    var user := InsertUser(db, username);
    if WalletInsert in fails {
      if UserDelete !in fails {
        db.users := Filter(db.users, (x: User) => x.id != user.id);
      }
      return None;
    }
    InsertPrimaryWallet(db, user.id, address);
    InsertInitialRows(db, user.id, fails);
    r := Some(user);
  }

  /** `getOrCreateUserByWallet`: an existing user is returned and nothing is
      written; otherwise a new account is created. */
  method GetOrCreateUserByWallet(db: Db, address: string, username: string, fails: set<Call>) returns (r: Option<User>)
    requires db.Valid()
    modifies db
    ensures db.Valid()
    ensures VisibleStreaksOk(old(db.streaks)) ==> VisibleStreaksOk(db.streaks)
    ensures var existing := old(GetUserByWallet(db, address, fails));
      existing.Some? ==> r == existing && unchanged(db)
    ensures old(GetUserByWallet(db, address, fails)).None? && r.Some? ==>
      r.value.id == old(db.nextId) && db.users == old(db.users) + [r.value]
    ensures old(GetUserByWallet(db, address, fails)).None? && r.Some? && WalletFor(old(db.wallets), address).None? ==>
      GetUserByWallet(db, address, {}) == r
    ensures db.purchases == old(db.purchases) && db.rewards == old(db.rewards) && db.spinLimits == old(db.spinLimits)
    ensures old(GetUserByWallet(db, address, fails)).None? && UserInsert in fails ==> r.None? && unchanged(db)
    ensures old(GetUserByWallet(db, address, fails)).None? && UserInsert !in fails && WalletInsert in fails ==>
      && r.None?
      && db.wallets == old(db.wallets) && db.stats == old(db.stats) && db.streaks == old(db.streaks)
      && db.users == (if UserDelete in fails then old(db.users) + [User(old(db.nextId), username, true)] else old(db.users))
    ensures old(GetUserByWallet(db, address, fails)).None? && UserInsert !in fails && WalletInsert !in fails ==>
      var u := old(db.nextId);
      && r == Some(User(u, username, true))
      && db.users == old(db.users) + [r.value]
      && db.wallets == old(db.wallets) + [PrimaryWallet(u, address)]
      && db.stats == old(db.stats) + (if StatsInsert in fails then [] else [InitialStats(u)])
      && db.streaks == old(db.streaks) + (if StreakInsert in fails then [] else [InitialStreak(u)])
  {
    var existing := GetUserByWallet(db, address, fails);
    if existing.Some? {
      return existing;
    }
    r := CreateUserWithWallet(db, address, username, fails);
  }
}
