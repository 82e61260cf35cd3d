/** Purchases and the daily spin allowance (src/services/purchaseService.ts).
    Money is in cents: one XP per whole dollar, one spin ticket per whole $50. */
module PurchaseService {
  import opened Common
  import opened Database
  import StreakService
  import StatsService

  /** XP earned by a purchase: `Math.floor(amount)` of a dollar amount. */
  function XpFor(amount: Cents): (xp: nat)
    ensures 100 * xp <= amount < 100 * (xp + 1)
  {
    amount / 100
  }

  /** Spin tickets earned by a purchase: `Math.floor(amount / 50)` of a dollar amount. */
  function TicketsFor(amount: Cents): (t: nat)
    ensures 5000 * t <= amount < 5000 * (t + 1)
  {
    amount / 5000
  }

  /** Tickets never shrink with the amount, and splitting a purchase in two
      never earns more tickets than buying it at once. */
  lemma TicketsMonotone(a: Cents, b: Cents)
    ensures a <= b ==> TicketsFor(a) <= TicketsFor(b)
    ensures TicketsFor(a) + TicketsFor(b) <= TicketsFor(a + b)
  {
  }

  /** The user's purchases in the order they were recorded. */
  function PurchasesOf(rows: seq<Purchase>, u: nat): seq<Purchase>
  {
    Filter(rows, (p: Purchase) => p.userId == u)
  }

  /** The user's purchases, `purchased` descending, at most `limit` of them. */
  function NewestPurchases(rows: seq<Purchase>, u: nat, limit: nat): (r: seq<Purchase>)
    ensures var mine := PurchasesOf(rows, u);
      && |r| == (if limit < |mine| then limit else |mine|)
      && forall i :: 0 <= i < |r| ==> r[i] == mine[|mine| - 1 - i]
  {
    var newest := Reverse(PurchasesOf(rows, u));
    if limit < |newest| then newest[..limit] else newest
  }

  /** `getUserPurchases`: the `limit` newest purchases of `u`; `[]` on error. */
  function GetUserPurchases(db: Db, u: nat, fails: set<Call>, limit: nat := 10): (r: seq<Purchase>)
    reads db
    ensures PurchaseSelect in fails ==> r == []
    ensures |r| <= limit
    ensures forall x :: x in r ==> x in db.purchases && x.userId == u
    ensures PurchaseSelect !in fails ==>
      var mine := PurchasesOf(db.purchases, u);
      && |r| == (if limit < |mine| then limit else |mine|)
      && forall i :: 0 <= i < |r| ==> r[i] == mine[|mine| - 1 - i]
  {
    if PurchaseSelect in fails then [] else NewestPurchases(db.purchases, u, limit)
  }

  /** The purchase just recorded is the first one listed. */
  lemma NewPurchaseListedFirst(rows: seq<Purchase>, p: Purchase, limit: nat)
    requires limit >= 1
    ensures |NewestPurchases(rows + [p], p.userId, limit)| > 0 && NewestPurchases(rows + [p], p.userId, limit)[0] == p
  {
    FilterAppend(rows, [p], (x: Purchase) => x.userId == p.userId);
    var mine := PurchasesOf(rows + [p], p.userId);
    assert mine == PurchasesOf(rows, p.userId) + [p];
    assert mine[|mine| - 1] == p;
  }

  function SumAmounts(ps: seq<Purchase>): nat
  {
    if ps == [] then 0 else ps[0].amount + SumAmounts(ps[1..])
  }

  /** The allowance a user gets on a day with no spin-limit row: one spin per
      $100 spent over the last ten purchases, at most three. */
  function InitialTickets(recent: seq<Purchase>): (t: nat)
    ensures t <= 3
    ensures t == 3 || 10000 * t <= SumAmounts(recent) < 10000 * (t + 1)
    ensures t == 3 <==> SumAmounts(recent) >= 30000
  {
    var total := SumAmounts(recent);
    if 3 < total / 10000 then 3 else total / 10000
  }

  /** What a `.select(...).limit(1).maybeSingle()` read of today's spin-limit row
      gives: an error, the `PGRST116` "no rows returned" error, or the row (if any). */
  datatype LimitRead = Failed | NoRowsError | Found(row: Option<SpinLimit>)

  /** The read of today's row. `LimitSelectNoRows` stands for the store
      reporting `PGRST116`, which it can only do when no row matches. */
  function ReadLimit(rows: seq<SpinLimit>, u: nat, today: Day, fails: set<Call>): (r: LimitRead)
    ensures r.Found? ==> r.row == LimitOf(rows, u, today)
    ensures r.Failed? <==> LimitSelect in fails
    ensures r.NoRowsError? <==> LimitSelect !in fails && LimitSelectNoRows in fails && LimitOf(rows, u, today).None?
  {
    if LimitSelect in fails then Failed
    else if LimitSelectNoRows in fails && LimitOf(rows, u, today).None? then NoRowsError
    else Found(LimitOf(rows, u, today))
  }

  /** The spin-limit table after `.update(...).eq('id', id)`. */
  function PatchLimit(rows: seq<SpinLimit>, id: nat, f: SpinLimit -> SpinLimit): (r: seq<SpinLimit>)
    ensures |r| == |rows|
    ensures forall i :: 0 <= i < |rows| ==> r[i] == if rows[i].id == id then f(rows[i]) else rows[i]
  {
    MapRows(rows, (l: SpinLimit) => if l.id == id then f(l) else l)
  }

  /** A patch by id that keeps the user and day of the rows it changes keeps
      one spin-limit row per user and day. */
  lemma PatchLimitKeepsOneLimitPerDay(rows: seq<SpinLimit>, id: nat, f: SpinLimit -> SpinLimit)
    requires OneLimitPerDay(rows)
    requires forall i :: 0 <= i < |rows| && rows[i].id == id ==>
      f(rows[i]).userId == rows[i].userId && f(rows[i]).date == rows[i].date
    ensures OneLimitPerDay(PatchLimit(rows, id, f))
  {
    var r := PatchLimit(rows, id, f);
    forall i, j | 0 <= i < j < |r|
      ensures LimitKey(r[i]) != LimitKey(r[j])
    {
      assert LimitKey(r[i]) == LimitKey(rows[i]) && LimitKey(r[j]) == LimitKey(rows[j]);
    }
  }

  /** Patching the row a read of `(u, today)` finds, by its id, into a row of
      the same user and day keeps one spin-limit row per user and day. */
  lemma PatchFoundKeepsOneLimitPerDay(rows: seq<SpinLimit>, u: nat, today: Day, f: SpinLimit -> SpinLimit)
    requires LimitIdsIncreasing(rows) && LimitOf(rows, u, today).Some?
    requires forall x :: f(x).userId == u && f(x).date == today
    ensures OneLimitPerDay(rows) ==> OneLimitPerDay(PatchLimit(rows, LimitOf(rows, u, today).value.id, f))
  {
    if OneLimitPerDay(rows) {
      var k :| 0 <= k < |rows| && rows[k] == LimitOf(rows, u, today).value;
      LimitIdUnique(rows, k);
      PatchLimitKeepsOneLimitPerDay(rows, rows[k].id, f);
    }
  }

  /** With increasing ids, a row is the only row carrying its id. */
  lemma LimitIdUnique(rows: seq<SpinLimit>, j: nat)
    requires LimitIdsIncreasing(rows) && j < |rows|
    ensures forall i :: 0 <= i < |rows| && rows[i].id == rows[j].id ==> i == j
  {
  }

  /** Patching the found row by its id patches that row alone, and moves the
      user's view of the day with it. */
  lemma PatchFoundLimit(rows: seq<SpinLimit>, u: nat, today: Day, f: SpinLimit -> SpinLimit)
    requires LimitIdsIncreasing(rows)
    requires LimitOf(rows, u, today).Some?
    requires var l := LimitOf(rows, u, today).value; f(l).userId == u && f(l).date == today && f(l).id == l.id
    ensures var l := LimitOf(rows, u, today).value;
      && (forall i :: 0 <= i < |rows| && rows[i].id == l.id ==> rows[i] == l)
      && LimitOf(PatchLimit(rows, l.id, f), u, today) == Some(f(l))
  {
    var l := LimitOf(rows, u, today).value;
    var j :| 0 <= j < |rows| && rows[j] == l;
    LimitIdUnique(rows, j);
    var g := (x: SpinLimit) => if x.id == l.id then f(x) else x;
    var p := (x: SpinLimit) => x.userId == u && x.date == today;
    assert forall i :: 0 <= i < |rows| ==> p(g(rows[i])) == p(rows[i]);
    FirstMapRows(rows, p, g);
  }

  /** A patch by id that keeps the id and keeps `used <= max_spins` on the
      patched rows keeps the spin-limit table invariants. */
  lemma PatchLimitKeepsInvariants(rows: seq<SpinLimit>, id: nat, f: SpinLimit -> SpinLimit, nextId: nat)
    requires LimitIdsIncreasing(rows) && (forall i :: 0 <= i < |rows| ==> rows[i].id < nextId)
    requires forall i :: 0 <= i < |rows| ==> rows[i].used <= rows[i].maxSpins
    requires forall i :: 0 <= i < |rows| && rows[i].id == id ==> f(rows[i]).id == id && f(rows[i]).used <= f(rows[i]).maxSpins
    ensures var r := PatchLimit(rows, id, f);
      && LimitIdsIncreasing(r) && (forall i :: 0 <= i < |r| ==> r[i].id < nextId)
      && (forall i :: 0 <= i < |r| ==> r[i].used <= r[i].maxSpins)
  {
  }

  lemma AppendLimit(rows: seq<SpinLimit>, row: SpinLimit, nextId: nat, u: nat, today: Day)
    requires LimitIdsIncreasing(rows) && (forall i :: 0 <= i < |rows| ==> rows[i].id < nextId)
    requires row.id == nextId
    ensures LimitIdsIncreasing(rows + [row])
    ensures forall i :: 0 <= i < |rows + [row]| ==> (rows + [row])[i].id < nextId + 1
    ensures LimitOf(rows, u, today).None? && row.userId == u && row.date == today ==>
      LimitOf(rows + [row], u, today) == Some(row)
    ensures LimitOf(rows, u, today).Some? ==> LimitOf(rows + [row], u, today) == LimitOf(rows, u, today)
  {
    FirstAppend(rows, [row], (l: SpinLimit) => l.userId == u && l.date == today);
  }

  /** The spin-limit table after a purchase of `amount` on `today`, `nextId`
      being the id the next insert takes: the day's row gains the amount and
      its tickets when it is found and updated; a row holding them is inserted
      when the read reports no row and the insert succeeds; a failed read or
      write, or a purchase worth no ticket, leaves the table as it was. */
  function LimitsAfterPurchase(rows: seq<SpinLimit>, u: nat, amount: Cents, today: Day, fails: set<Call>, nextId: nat): seq<SpinLimit>
  {
    var t := TicketsFor(amount);
    if t == 0 then rows
    else match ReadLimit(rows, u, today, fails)
      case Failed => rows
      case Found(Some(l)) =>
        if LimitUpdate in fails then rows
        else PatchLimit(rows, l.id, (x: SpinLimit) => l.(purchaseAmount := l.purchaseAmount + amount, maxSpins := l.maxSpins + t))
      case _ => if LimitInsert in fails then rows else rows + [SpinLimit(nextId, u, today, 0, t, amount)]
  }

  /** `updateSpinLimitsAfterPurchase`: a purchase of at least $50 adds its
      tickets to today's allowance, or opens today's row with them. */
  method UpdateSpinLimitsAfterPurchase(db: Db, u: nat, amount: Cents, today: Day, fails: set<Call>)
    requires db.Valid()
    modifies db
    ensures db.Valid()
    ensures db.users == old(db.users) && db.wallets == old(db.wallets) && db.stats == old(db.stats)
    ensures db.purchases == old(db.purchases) && db.streaks == old(db.streaks) && db.rewards == old(db.rewards)
    ensures var t := TicketsFor(amount);
      match ReadLimit(old(db.spinLimits), u, today, fails)
      case Found(Some(l)) =>
        if t > 0 && LimitUpdate !in fails then
          && |db.spinLimits| == |old(db.spinLimits)|
          && (forall i :: 0 <= i < |db.spinLimits| ==>
                db.spinLimits[i] == if old(db.spinLimits)[i].id == l.id
                  then l.(purchaseAmount := l.purchaseAmount + amount, maxSpins := l.maxSpins + t)
                  else old(db.spinLimits)[i])
          && LimitOf(db.spinLimits, u, today) == Some(l.(purchaseAmount := l.purchaseAmount + amount, maxSpins := l.maxSpins + t))
          && db.nextId == old(db.nextId)
        else db.spinLimits == old(db.spinLimits) && db.nextId == old(db.nextId)
      case Failed => db.spinLimits == old(db.spinLimits) && db.nextId == old(db.nextId)
      case _ =>
        if t > 0 && LimitInsert !in fails then
          && db.spinLimits == old(db.spinLimits) + [SpinLimit(old(db.nextId), u, today, 0, t, amount)]
          && db.nextId == old(db.nextId) + 1
        else db.spinLimits == old(db.spinLimits) && db.nextId == old(db.nextId)
    ensures var read := ReadLimit(old(db.spinLimits), u, today, fails);
      (read == Found(None) || read == NoRowsError) && TicketsFor(amount) > 0 && LimitInsert !in fails ==>
      LimitOf(db.spinLimits, u, today) == Some(SpinLimit(old(db.nextId), u, today, 0, TicketsFor(amount), amount))
    ensures var read := ReadLimit(old(db.spinLimits), u, today, fails);
      read.Found? && read.row.Some? && LimitUpdate !in fails ==>
        LimitOf(db.spinLimits, u, today).Some? &&
        LimitOf(db.spinLimits, u, today).value.maxSpins == read.row.value.maxSpins + TicketsFor(amount)
    ensures db.spinLimits == LimitsAfterPurchase(old(db.spinLimits), u, amount, today, fails, old(db.nextId))
    ensures db.nextId == old(db.nextId) + |db.spinLimits| - |old(db.spinLimits)|
    ensures OneLimitPerDay(old(db.spinLimits)) ==> OneLimitPerDay(db.spinLimits)
  {
    var tickets := TicketsFor(amount);
    if tickets <= 0 {
      return;
    }
    var read := ReadLimit(db.spinLimits, u, today, fails);
    if read.Failed? {
      return;
    }
    if read.Found? && read.row.Some? {
      AddTickets(db, u, today, read.row.value, amount, tickets, fails);
    } else {
      OpenDay(db, u, today, amount, tickets, fails);
    }
  }

  /** The update branch: today's row `l` gets the amount and the tickets added. */
  method AddTickets(db: Db, u: nat, today: Day, l: SpinLimit, amount: Cents, tickets: nat, fails: set<Call>)
    requires db.Valid()
    requires LimitOf(db.spinLimits, u, today) == Some(l)
    modifies db
    ensures db.Valid()
    ensures db.users == old(db.users) && db.wallets == old(db.wallets) && db.stats == old(db.stats)
    ensures db.purchases == old(db.purchases) && db.streaks == old(db.streaks) && db.rewards == old(db.rewards)
    ensures db.nextId == old(db.nextId)
    ensures LimitUpdate in fails ==> db.spinLimits == old(db.spinLimits)
    ensures LimitUpdate !in fails ==>
      && |db.spinLimits| == |old(db.spinLimits)|
      && (forall i :: 0 <= i < |db.spinLimits| ==>
            db.spinLimits[i] == if old(db.spinLimits)[i].id == l.id
              then l.(purchaseAmount := l.purchaseAmount + amount, maxSpins := l.maxSpins + tickets)
              else old(db.spinLimits)[i])
      && LimitOf(db.spinLimits, u, today) == Some(l.(purchaseAmount := l.purchaseAmount + amount, maxSpins := l.maxSpins + tickets))
    ensures OneLimitPerDay(old(db.spinLimits)) ==> OneLimitPerDay(db.spinLimits)
  {
    if LimitUpdate in fails {
      return;
    }
    ReplaceLimit(db, u, today, l, l.(purchaseAmount := l.purchaseAmount + amount, maxSpins := l.maxSpins + tickets));
  }

  /** `.update(...).eq('id', l.id)` on today's row `l`: that row, and no
      other, becomes `row`. */
  method ReplaceLimit(db: Db, u: nat, today: Day, l: SpinLimit, row: SpinLimit)
    requires db.Valid()
    requires LimitOf(db.spinLimits, u, today) == Some(l)
    requires row.id == l.id && row.userId == u && row.date == today && row.used <= row.maxSpins
    modifies db
    ensures db.Valid()
    ensures db.users == old(db.users) && db.wallets == old(db.wallets) && db.stats == old(db.stats)
    ensures db.purchases == old(db.purchases) && db.streaks == old(db.streaks) && db.rewards == old(db.rewards)
    ensures db.nextId == old(db.nextId)
    ensures |db.spinLimits| == |old(db.spinLimits)|
    ensures forall i :: 0 <= i < |db.spinLimits| ==>
      db.spinLimits[i] == if old(db.spinLimits)[i].id == l.id then row else old(db.spinLimits)[i]
    ensures LimitOf(db.spinLimits, u, today) == Some(row)
    ensures OneLimitPerDay(old(db.spinLimits)) ==> OneLimitPerDay(db.spinLimits)
  {
    var f := (x: SpinLimit) => row;
    PatchFoundLimit(db.spinLimits, u, today, f);
    PatchLimitKeepsInvariants(db.spinLimits, l.id, f, db.nextId);
    PatchFoundKeepsOneLimitPerDay(db.spinLimits, u, today, f);
    db.spinLimits := PatchLimit(db.spinLimits, l.id, f);
  }

  /** The insert branch: today's row is opened with the purchase's tickets and none used. */
  method OpenDay(db: Db, u: nat, today: Day, amount: Cents, tickets: nat, fails: set<Call>)
    requires db.Valid()
    modifies db
    ensures db.Valid()
    ensures db.users == old(db.users) && db.wallets == old(db.wallets) && db.stats == old(db.stats)
    ensures db.purchases == old(db.purchases) && db.streaks == old(db.streaks) && db.rewards == old(db.rewards)
    ensures LimitInsert in fails ==> db.spinLimits == old(db.spinLimits) && db.nextId == old(db.nextId)
    ensures LimitInsert !in fails ==>
      && db.spinLimits == old(db.spinLimits) + [SpinLimit(old(db.nextId), u, today, 0, tickets, amount)]
      && db.nextId == old(db.nextId) + 1
    ensures LimitInsert !in fails && LimitOf(old(db.spinLimits), u, today).None? ==>
      LimitOf(db.spinLimits, u, today) == Some(SpinLimit(old(db.nextId), u, today, 0, tickets, amount))
    ensures OneLimitPerDay(old(db.spinLimits)) && LimitOf(old(db.spinLimits), u, today).None? ==>
      OneLimitPerDay(db.spinLimits)
  {
    if LimitInsert in fails {
      return;
    }
    var row := SpinLimit(db.nextId, u, today, 0, tickets, amount);
    AppendLimit(db.spinLimits, row, db.nextId, u, today);
    if OneLimitPerDay(db.spinLimits) && LimitOf(db.spinLimits, u, today).None? {
      AppendKeepsOneLimitPerDay(db.spinLimits, row);
    }
    db.spinLimits := db.spinLimits + [row];
    db.nextId := db.nextId + 1;
  }

  /** What `getTodaySpinLimits` returns: no row, a stored row, or the unsaved
      fallback row (id `'default'`, nothing used, no spins) it builds when
      creating today's row fails. */
  datatype TodayLimits = NoLimits | Stored(limit: SpinLimit) | Fallback(userId: nat, date: Day)
  {
    function Used(): nat
    {
      if Stored? then limit.used else 0
    }

    function MaxSpins(): nat
    {
      if Stored? then limit.maxSpins else 0
    }
  }

  /** `getTodaySpinLimits`. Only the `PGRST116` error leads to creating today's
      row, seeded from the last ten purchases; any other error gives null. */
  method GetTodaySpinLimits(db: Db, u: nat, today: Day, fails: set<Call>) returns (r: TodayLimits)
    requires db.Valid()
    modifies db
    ensures db.Valid()
    ensures db.users == old(db.users) && db.wallets == old(db.wallets) && db.stats == old(db.stats)
    ensures db.purchases == old(db.purchases) && db.streaks == old(db.streaks) && db.rewards == old(db.rewards)
    ensures r.Used() <= r.MaxSpins()
    ensures match ReadLimit(old(db.spinLimits), u, today, fails)
      case Failed => r == NoLimits && db.spinLimits == old(db.spinLimits) && db.nextId == old(db.nextId)
      case Found(row) =>
        && r == (if row.Some? then Stored(row.value) else NoLimits)
        && db.spinLimits == old(db.spinLimits) && db.nextId == old(db.nextId)
      case NoRowsError =>
        var t := InitialTickets(if PurchaseSelect in fails then [] else NewestPurchases(old(db.purchases), u, 10));
        if LimitInsert in fails then
          r == Fallback(u, today) && db.spinLimits == old(db.spinLimits) && db.nextId == old(db.nextId)
        else
          && r == Stored(SpinLimit(old(db.nextId), u, today, 0, t, 0))
          && db.spinLimits == old(db.spinLimits) + [r.limit] && db.nextId == old(db.nextId) + 1
    ensures OneLimitPerDay(old(db.spinLimits)) ==> OneLimitPerDay(db.spinLimits)
  {
    var read := ReadLimit(db.spinLimits, u, today, fails);
    match read
    case Failed =>
      return NoLimits;
    case Found(row) =>
      if row.Some? {
        return Stored(row.value);
      }
      return NoLimits;
    case NoRowsError =>
      r := CreateTodayLimits(db, u, today, fails);
  }

  /** The `PGRST116` branch of `getTodaySpinLimits`: today's row is inserted
      with the allowance the last ten purchases earn, or, when the insert
      fails, the unsaved fallback row is returned. */
  method CreateTodayLimits(db: Db, u: nat, today: Day, fails: set<Call>) returns (r: TodayLimits)
    requires db.Valid()
    modifies db
    ensures db.Valid()
    ensures db.users == old(db.users) && db.wallets == old(db.wallets) && db.stats == old(db.stats)
    ensures db.purchases == old(db.purchases) && db.streaks == old(db.streaks) && db.rewards == old(db.rewards)
    ensures r.Used() <= r.MaxSpins()
    ensures var t := InitialTickets(if PurchaseSelect in fails then [] else NewestPurchases(old(db.purchases), u, 10));
      if LimitInsert in fails then
        r == Fallback(u, today) && db.spinLimits == old(db.spinLimits) && db.nextId == old(db.nextId)
      else
        && r == Stored(SpinLimit(old(db.nextId), u, today, 0, t, 0))
        && db.spinLimits == old(db.spinLimits) + [r.limit] && db.nextId == old(db.nextId) + 1
    ensures OneLimitPerDay(old(db.spinLimits)) && LimitOf(old(db.spinLimits), u, today).None? ==>
      OneLimitPerDay(db.spinLimits)
  {
    var recent := GetUserPurchases(db, u, fails);
    var initial := InitialTickets(recent);
    if LimitInsert in fails {
      return Fallback(u, today);
    }
    var row := SpinLimit(db.nextId, u, today, 0, initial, 0);
    AppendLimit(db.spinLimits, row, db.nextId, u, today);
    if OneLimitPerDay(db.spinLimits) && LimitOf(db.spinLimits, u, today).None? {
      AppendKeepsOneLimitPerDay(db.spinLimits, row);
    }
    db.spinLimits := db.spinLimits + [row];
    db.nextId := db.nextId + 1;
    r := Stored(row);
  }

  /** Spins left today on a row: never negative. */
  function RemainingSpins(l: SpinLimit): (n: nat)
    ensures n == 0 <==> l.used >= l.maxSpins
  {
    if l.used >= l.maxSpins then 0 else l.maxSpins - l.used
  }

  /** The spin-limit table after one spin of row `l` is used: the row
      carrying `l`'s id becomes `l` with one more spin used, and every other
      row stays as it was. */
  predicate OneSpinUsed(before: seq<SpinLimit>, after: seq<SpinLimit>, l: SpinLimit)
  {
    && |after| == |before|
    && forall i :: 0 <= i < |after| ==> after[i] == if before[i].id == l.id then l.(used := l.used + 1) else before[i]
  }

  /** `useSpinTicket`: consume one of today's spins, if one is left. */
  method UseSpinTicket(db: Db, u: nat, today: Day, fails: set<Call>) returns (ok: bool)
    requires db.Valid()
    modifies db
    ensures db.Valid()
    ensures db.users == old(db.users) && db.wallets == old(db.wallets) && db.stats == old(db.stats)
    ensures db.purchases == old(db.purchases) && db.streaks == old(db.streaks) && db.rewards == old(db.rewards)
    ensures db.nextId == old(db.nextId)
    ensures var read := ReadLimit(old(db.spinLimits), u, today, fails);
      ok <==> read.Found? && read.row.Some? && RemainingSpins(read.row.value) > 0 && LimitUpdate !in fails
    ensures !ok ==> db.spinLimits == old(db.spinLimits)
    ensures ok ==>
      var l := old(LimitOf(db.spinLimits, u, today)).value;
      && OneSpinUsed(old(db.spinLimits), db.spinLimits, l)
      && LimitOf(db.spinLimits, u, today) == Some(l.(used := l.used + 1))
      && RemainingSpins(LimitOf(db.spinLimits, u, today).value) == RemainingSpins(l) - 1
    ensures OneLimitPerDay(old(db.spinLimits)) ==> OneLimitPerDay(db.spinLimits)
  {
    var read := ReadLimit(db.spinLimits, u, today, fails);
    if !read.Found? {
      return false;
    }
    if read.row.None? || read.row.value.used >= read.row.value.maxSpins {
      return false;
    }
    var l := read.row.value;
    if LimitUpdate in fails {
      return false;
    }
    ReplaceLimit(db, u, today, l, l.(used := l.used + 1));
    ok := true;
  }

  /** The purchase insert itself; its XP is the whole dollars spent. */
  method InsertPurchase(db: Db, u: nat, amount: Cents, currency: string, name: Option<string>,
                        category: Option<string>, orderId: Option<string>)
    returns (p: Purchase)
    requires db.Valid()
    modifies db
    ensures db.Valid()
    ensures db.users == old(db.users) && db.wallets == old(db.wallets) && db.stats == old(db.stats)
    ensures db.streaks == old(db.streaks) && db.rewards == old(db.rewards) && db.spinLimits == old(db.spinLimits)
    ensures p == Purchase(old(db.nextId), u, amount, currency, name, category, orderId, XpFor(amount))
    ensures db.purchases == old(db.purchases) + [p] && db.nextId == old(db.nextId) + 1
    ensures |GetUserPurchases(db, u, {})| > 0 && GetUserPurchases(db, u, {})[0] == p
  {
    p := Purchase(db.nextId, u, amount, currency, name, category, orderId, XpFor(amount));
    NewPurchaseListedFirst(db.purchases, p, 10);
    db.purchases := db.purchases + [p];
    db.nextId := db.nextId + 1;
  }

  /** What `createPurchase` does once the purchase row is saved: advance the
      streak (with its milestone bonus), add the XP, then add the day's tickets. */
  method ApplyPurchase(db: Db, u: nat, amount: Cents, today: Day, fails: set<Call>)
    requires db.Valid()
    modifies db
    ensures db.Valid()
    ensures VisibleStreaksOk(old(db.streaks)) ==> VisibleStreaksOk(db.streaks)
    ensures db.users == old(db.users) && db.wallets == old(db.wallets) && db.purchases == old(db.purchases)
    ensures GetUserPurchases(db, u, {}) == old(GetUserPurchases(db, u, {}))
    ensures var s := StreakService.StreakRow(old(db.streaks), u, fails);
      s.Some? && StreakUpdate !in fails ==>
        StreakOf(db.streaks, u) == Some(StreakService.AfterPurchase(s.value, today))
    ensures var s := StatsService.StatsRow(old(db.stats), u, fails);
      s.Some? && StatsUpdate !in fails ==>
        StatsOf(db.stats, u).Some? && StatsOf(db.stats, u).value.xp == s.value.xp + XpFor(amount)
    ensures var read := ReadLimit(old(db.spinLimits), u, today, fails);
      read.Found? && read.row.Some? && LimitUpdate !in fails ==>
        LimitOf(db.spinLimits, u, today).Some? &&
        LimitOf(db.spinLimits, u, today).value.maxSpins == read.row.value.maxSpins + TicketsFor(amount)
    ensures db.streaks == StreakService.StreaksAfterPurchase(old(db.streaks), u, today, fails)
    ensures db.stats == StatsService.StatsAfterXp(old(db.stats), u, XpFor(amount), fails)
    ensures var b := StreakService.BonusEarned(old(db.streaks), old(db.rewards), u, today, fails);
      db.rewards == old(db.rewards) + (if b.Some? then [StreakService.NewBonus(old(db.nextId), u, b.value)] else [])
    ensures db.spinLimits == LimitsAfterPurchase(old(db.spinLimits), u, amount, today, fails,
      StreakService.IdAfterBonus(old(db.streaks), old(db.rewards), old(db.nextId), u, today, fails))
    ensures db.nextId ==
      StreakService.IdAfterBonus(old(db.streaks), old(db.rewards), old(db.nextId), u, today, fails) + |db.spinLimits| - |old(db.spinLimits)|
    ensures OneLimitPerDay(old(db.spinLimits)) ==> OneLimitPerDay(db.spinLimits)
  {
    ghost var limitsBefore := db.spinLimits;
    var _ := StreakService.UpdateStreakAfterPurchase(db, u, today, fails);
    var _ := StatsService.AddUserXP(db, u, XpFor(amount), fails);
    assert db.spinLimits == limitsBefore;
    UpdateSpinLimitsAfterPurchase(db, u, amount, today, fails);
  }

  /** `createPurchase`: record the purchase (its XP is the whole dollars spent),
      then advance the streak, add the XP and add the day's tickets. A failed
      insert returns null before anything else happens. */
  method CreatePurchase(db: Db, u: nat, amount: Cents, currency: string, name: Option<string>,
                        category: Option<string>, orderId: Option<string>, today: Day, fails: set<Call>)
    returns (r: Option<Purchase>)
    requires db.Valid()
    modifies db
    ensures db.Valid()
    ensures VisibleStreaksOk(old(db.streaks)) ==> VisibleStreaksOk(db.streaks)
    ensures db.users == old(db.users) && db.wallets == old(db.wallets)
    ensures PurchaseInsert in fails ==> r.None? && unchanged(db)
    ensures PurchaseInsert !in fails ==>
      && r == Some(Purchase(old(db.nextId), u, amount, currency, name, category, orderId, XpFor(amount)))
      && db.purchases == old(db.purchases) + [r.value]
      && |GetUserPurchases(db, u, {})| > 0 && GetUserPurchases(db, u, {})[0] == r.value
    ensures var s := StreakService.StreakRow(old(db.streaks), u, fails);
      PurchaseInsert !in fails && s.Some? && StreakUpdate !in fails ==>
        StreakOf(db.streaks, u) == Some(StreakService.AfterPurchase(s.value, today))
    ensures var s := StatsService.StatsRow(old(db.stats), u, fails);
      PurchaseInsert !in fails && s.Some? && StatsUpdate !in fails ==>
        StatsOf(db.stats, u).Some? && StatsOf(db.stats, u).value.xp == s.value.xp + XpFor(amount)
    ensures var read := ReadLimit(old(db.spinLimits), u, today, fails);
      PurchaseInsert !in fails && read.Found? && read.row.Some? && LimitUpdate !in fails ==>
        LimitOf(db.spinLimits, u, today).Some? &&
        LimitOf(db.spinLimits, u, today).value.maxSpins == read.row.value.maxSpins + TicketsFor(amount)
    ensures PurchaseInsert !in fails ==>
      && db.streaks == StreakService.StreaksAfterPurchase(old(db.streaks), u, today, fails)
      && db.stats == StatsService.StatsAfterXp(old(db.stats), u, XpFor(amount), fails)
    ensures PurchaseInsert !in fails ==>
      var b := StreakService.BonusEarned(old(db.streaks), old(db.rewards), u, today, fails);
      db.rewards == old(db.rewards) + (if b.Some? then [StreakService.NewBonus(old(db.nextId) + 1, u, b.value)] else [])
    ensures PurchaseInsert !in fails ==>
      var idAfterBonus := StreakService.IdAfterBonus(old(db.streaks), old(db.rewards), old(db.nextId) + 1, u, today, fails);
      && db.spinLimits == LimitsAfterPurchase(old(db.spinLimits), u, amount, today, fails, idAfterBonus)
      && db.nextId == idAfterBonus + |db.spinLimits| - |old(db.spinLimits)|
    ensures OneLimitPerDay(old(db.spinLimits)) ==> OneLimitPerDay(db.spinLimits)
  {
    if PurchaseInsert in fails {
      return None;
    }
    var p := InsertPurchase(db, u, amount, currency, name, category, orderId);
    ApplyPurchase(db, u, amount, today, fails);
    r := Some(p);
  }
}
