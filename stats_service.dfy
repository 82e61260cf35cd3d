/** XP, levels, achievements and spin-win records kept in the `stats` table
    (src/services/statsService.ts). Every method reads the user's first stats
    row, computes the new fields from it, and patches every row of that user. */
module StatsService {
  import opened Common
  import opened Database

  /** `level = 1 + floor(xp / 1000)`. Dafny's `/` on `int` is Euclidean, which
      for the positive divisor 1000 is the floor the source takes, negative
      XP included. */
  function LevelFor(xp: int): (level: int)
    ensures 1000 * (level - 1) <= xp < 1000 * level
  {
    1 + xp / 1000
  }

  /** The level after XP changes to `xp`: raised to `LevelFor(xp)` when that is
      higher, never lowered. */
  function NextLevel(level: int, xp: int): int
  {
    var potential := LevelFor(xp);
    if potential > level then potential else level
  }

  /** The level rule: never lower than before, never lower than what the XP
      earns, and raised only to exactly what the XP earns. */
  lemma NextLevelBounds(level: int, xp: int)
    ensures NextLevel(level, xp) >= level
    ensures NextLevel(level, xp) >= LevelFor(xp)
    ensures NextLevel(level, xp) == level || NextLevel(level, xp) == LevelFor(xp)
  {
  }

  /** A user who only ever gains XP, starting at level 1 with 0 XP, is always at
      exactly the level the XP earns. */
  lemma {:induction false} LevelTracksXp(level: int, xp: int, gains: seq<nat>)
    requires level == LevelFor(xp)
    decreases |gains|
    ensures LevelAfter(level, xp, gains) == LevelFor(xp + Sum(gains))
  {
    if gains != [] {
      LevelMonotone(xp, xp + gains[0]);
      LevelTracksXp(NextLevel(level, xp + gains[0]), xp + gains[0], gains[1..]);
      assert xp + gains[0] + Sum(gains[1..]) == xp + Sum(gains);
    }
  }

  lemma LevelMonotone(a: int, b: int)
    requires a <= b
    ensures LevelFor(a) <= LevelFor(b)
  {
  }

  function Sum(xs: seq<nat>): nat
  {
    if xs == [] then 0 else xs[0] + Sum(xs[1..])
  }

  /** The level after a run of `addUserXP` calls with amounts `gains`. */
  function LevelAfter(level: int, xp: int, gains: seq<nat>): int
    decreases |gains|
  {
    if gains == [] then level else LevelAfter(NextLevel(level, xp + gains[0]), xp + gains[0], gains[1..])
  }

  /** Some row of the table belongs to `u`. */
  ghost predicate HasRow(rows: seq<Stats>, u: nat)
  {
    exists i :: 0 <= i < |rows| && rows[i].userId == u
  }

  /** `s` is a row of the table and no earlier row belongs to `u`. */
  ghost predicate IsFirstRow(rows: seq<Stats>, u: nat, s: Stats)
  {
    exists i :: 0 <= i < |rows| && rows[i] == s && forall k :: 0 <= k < i ==> rows[k].userId != u
  }

  /** `getUserStats`: the user's first stats row; null on error or when there is none. */
  function StatsRow(rows: seq<Stats>, u: nat, fails: set<Call>): (r: Option<Stats>)
    ensures StatsSelect in fails ==> r.None?
    ensures StatsSelect !in fails ==> r == StatsOf(rows, u)
    ensures r.Some? ==> r.value in rows && r.value.userId == u
    ensures StatsSelect !in fails ==> (r.Some? <==> HasRow(rows, u))
    ensures r.Some? ==> IsFirstRow(rows, u, r.value)
  {
    FirstEarliest(rows, (s: Stats) => s.userId == u);
    if StatsSelect in fails then None else StatsOf(rows, u)
  }

  /** Every stats row of `u` passed through `f`; other users' rows untouched. */
  function PatchStats(rows: seq<Stats>, u: nat, f: Stats -> Stats): (r: seq<Stats>)
    ensures |r| == |rows|
    ensures forall i :: 0 <= i < |rows| ==> r[i] == if rows[i].userId == u then f(rows[i]) else rows[i]
  {
    MapRows(rows, (s: Stats) => if s.userId == u then f(s) else s)
  }

  /** After a patch that keeps `userId`, `u` sees its old first row patched
      and every other user sees what it saw before. */
  lemma StatsOfPatch(rows: seq<Stats>, u: nat, f: Stats -> Stats, v: nat)
    requires forall s :: f(s).userId == s.userId
    ensures StatsOf(PatchStats(rows, u, f), v) ==
      if v == u && StatsOf(rows, u).Some? then Some(f(StatsOf(rows, u).value)) else StatsOf(rows, v)
  {
    FirstMapRows(rows, (s: Stats) => s.userId == v, (s: Stats) => if s.userId == u then f(s) else s);
  }

  /** The stats table after `addUserXP(u, amount)`: the user's rows get the
      new xp and the level it reaches when the read finds a row and the update
      succeeds; otherwise the table is as it was. */
  function StatsAfterXp(rows: seq<Stats>, u: nat, amount: int, fails: set<Call>): seq<Stats>
  {
    var s := StatsRow(rows, u, fails);
    if s.None? || StatsUpdate in fails then rows
    else
      var xp' := s.value.xp + amount;
      var level' := NextLevel(s.value.level, xp');
      PatchStats(rows, u, (t: Stats) => t.(xp := xp', level := level'))
  }

  /** `addUserXP`: add `amount` to the user's XP and apply the level rule.
      No stats row (or a failed read or write): null and nothing written. */
  method AddUserXP(db: Db, u: nat, amount: int, fails: set<Call>) returns (r: Option<Stats>)
    requires db.Valid()
    modifies db
    ensures db.Valid()
    ensures db.users == old(db.users) && db.wallets == old(db.wallets) && db.purchases == old(db.purchases)
    ensures db.streaks == old(db.streaks) && db.rewards == old(db.rewards)
    ensures db.spinLimits == old(db.spinLimits) && db.nextId == old(db.nextId)
    ensures var s := StatsRow(old(db.stats), u, fails);
      if s.None? || StatsUpdate in fails then r.None? && db.stats == old(db.stats)
      else
        var xp' := s.value.xp + amount;
        var level' := NextLevel(s.value.level, xp');
        && r == Some(s.value.(xp := xp', level := level'))
        && db.stats == PatchStats(old(db.stats), u, (t: Stats) => t.(xp := xp', level := level'))
        && StatsOf(db.stats, u) == r
    ensures r.Some? ==> r.value.level >= StatsRow(old(db.stats), u, fails).value.level
    ensures db.stats == StatsAfterXp(old(db.stats), u, amount, fails)
  {
    var s := StatsRow(db.stats, u, fails);
    if s.None? {
      return None;
    }
    var newXP := s.value.xp + amount;
    var newLevel := NextLevel(s.value.level, newXP);
    if StatsUpdate in fails {
      return None;
    }
    var f := (t: Stats) => t.(xp := newXP, level := newLevel);
    StatsOfPatch(db.stats, u, f, u);
    db.stats := PatchStats(db.stats, u, f);
    r := Some(f(s.value));
  }

  /** The achievement list after `addAchievement`: unchanged when already
      present, otherwise the new one at the end. */
  function WithAchievement(achievements: seq<string>, a: string): (r: seq<string>)
    ensures a in r
    ensures a in achievements ==> r == achievements
    ensures a !in achievements ==> |r| == |achievements| + 1 && r[..|achievements|] == achievements
  {
    if a in achievements then achievements else achievements + [a]
  }

  /** Adding the same achievement twice is adding it once. */
  lemma WithAchievementIdempotent(achievements: seq<string>, a: string)
    ensures WithAchievement(WithAchievement(achievements, a), a) == WithAchievement(achievements, a)
  {
  }

  /** `addAchievement`: idempotent append to the user's achievement list. */
  method AddAchievement(db: Db, u: nat, a: string, fails: set<Call>) returns (ok: bool)
    requires db.Valid()
    modifies db
    ensures db.Valid()
    ensures db.users == old(db.users) && db.wallets == old(db.wallets) && db.purchases == old(db.purchases)
    ensures db.streaks == old(db.streaks) && db.rewards == old(db.rewards)
    ensures db.spinLimits == old(db.spinLimits) && db.nextId == old(db.nextId)
    ensures var s := StatsRow(old(db.stats), u, fails);
      if s.None? then !ok && db.stats == old(db.stats)
      else if a in s.value.achievements then ok && db.stats == old(db.stats)
      else if StatsUpdate in fails then !ok && db.stats == old(db.stats)
      else ok && db.stats == PatchStats(old(db.stats), u, (t: Stats) => t.(achievements := s.value.achievements + [a]))
           && StatsOf(db.stats, u) == Some(s.value.(achievements := WithAchievement(s.value.achievements, a)))
  {
    var s := StatsRow(db.stats, u, fails);
    if s.None? {
      return false;
    }
    if a in s.value.achievements {
      return true;
    }
    var updated := s.value.achievements + [a];
    if StatsUpdate in fails {
      return false;
    }
    var f := (t: Stats) => t.(achievements := updated);
    StatsOfPatch(db.stats, u, f, u);
    db.stats := PatchStats(db.stats, u, f);
    ok := true;
  }

  /** A stats row after a win worth `winValue`: one more spin won, and the
      best spin raised to `winValue` when higher. */
  function AfterWin(s: Stats, winValue: int): Stats
  {
    s.(spinsWon := s.spinsWon + 1, bestSpin := if winValue > s.bestSpin then winValue else s.bestSpin)
  }

  /** The update `recordSpinWin` sends for the read row `s`: `spins_won` one
      more than `s`'s, and `best_spin` set to `winValue` only when it beats
      `s`'s. It keeps the user id, and applied to `s` itself gives `AfterWin`. */
  function WinPatch(s: Stats, winValue: int): (f: Stats -> Stats)
    ensures forall t :: f(t).userId == t.userId
    ensures f(s) == AfterWin(s, winValue)
  {
    (t: Stats) => if winValue > s.bestSpin then t.(spinsWon := s.spinsWon + 1, bestSpin := winValue) else t.(spinsWon := s.spinsWon + 1)
  }

  /** `recordSpinWin`: one more spin won; `best_spin` raised to `winValue` when higher. */
  method RecordSpinWin(db: Db, u: nat, winValue: int, fails: set<Call>) returns (ok: bool)
    requires db.Valid()
    modifies db
    ensures db.Valid()
    ensures db.users == old(db.users) && db.wallets == old(db.wallets) && db.purchases == old(db.purchases)
    ensures db.streaks == old(db.streaks) && db.rewards == old(db.rewards)
    ensures db.spinLimits == old(db.spinLimits) && db.nextId == old(db.nextId)
    ensures var s := StatsRow(old(db.stats), u, fails);
      if s.None? || StatsUpdate in fails then !ok && db.stats == old(db.stats)
      else
        && ok
        && db.stats == PatchStats(old(db.stats), u, WinPatch(s.value, winValue))
        && StatsOf(db.stats, u) == Some(AfterWin(s.value, winValue))
        && |db.stats| == |old(db.stats)|
        && (forall i :: 0 <= i < |db.stats| && old(db.stats)[i].userId != u ==> db.stats[i] == old(db.stats)[i])
  {
    var s := StatsRow(db.stats, u, fails);
    if s.None? {
      return false;
    }
    if StatsUpdate in fails {
      return false;
    }
    WriteWin(db, u, s.value, winValue);
    ok := true;
  }

  /** The update of a win: every row of the user gets the spin count and best
      spin computed from the row that was read, so the user then sees
      `AfterWin` of that row and no other user's row changes. */
  method WriteWin(db: Db, u: nat, s: Stats, winValue: int)
    requires db.Valid()
    requires StatsOf(db.stats, u) == Some(s)
    modifies db
    ensures db.Valid()
    ensures db.users == old(db.users) && db.wallets == old(db.wallets) && db.purchases == old(db.purchases)
    ensures db.streaks == old(db.streaks) && db.rewards == old(db.rewards)
    ensures db.spinLimits == old(db.spinLimits) && db.nextId == old(db.nextId)
    ensures db.stats == PatchStats(old(db.stats), u, WinPatch(s, winValue))
    ensures StatsOf(db.stats, u) == Some(AfterWin(s, winValue))
    ensures |db.stats| == |old(db.stats)|
    ensures forall i :: 0 <= i < |db.stats| && old(db.stats)[i].userId != u ==> db.stats[i] == old(db.stats)[i]
  {
    var f := WinPatch(s, winValue);
    StatsOfPatch(db.stats, u, f, u);
    db.stats := PatchStats(db.stats, u, f);
  }

  /** `updateFavoriteCategory`: sets only `favorite_category` on the user's rows.
      There is no read first, so it reports success even when the user has no row. */
  method UpdateFavoriteCategory(db: Db, u: nat, category: string, fails: set<Call>) returns (ok: bool)
    requires db.Valid()
    modifies db
    ensures db.Valid()
    ensures db.users == old(db.users) && db.wallets == old(db.wallets) && db.purchases == old(db.purchases)
    ensures db.streaks == old(db.streaks) && db.rewards == old(db.rewards)
    ensures db.spinLimits == old(db.spinLimits) && db.nextId == old(db.nextId)
    ensures ok <==> StatsUpdate !in fails
    ensures !ok ==> db.stats == old(db.stats)
    ensures ok ==> db.stats == PatchStats(old(db.stats), u, (t: Stats) => t.(favoriteCategory := Some(category)))
  {
    if StatsUpdate in fails {
      return false;
    }
    db.stats := PatchStats(db.stats, u, (t: Stats) => t.(favoriteCategory := Some(category)));
    ok := true;
  }
}
