/** The prize wheel (src/components/SpinWheel.tsx): twelve slots, a weighted
    draw that picks one, the coupon a slot decodes to, and the component state
    that gates clicks while a spin is running. */
module SpinWheel {
  import opened Common
  import opened Text
  import opened Database
  import PurchaseService
  import RewardService
  import StatsService

  const TryAgain: string := "TRY AGAIN"

  /** The slot labels, clockwise from slot 0. */
  const Options: seq<string> := [
    "5% OFF", "10% OFF", "15% OFF", "$5 FREE", "20% OFF", "TRY AGAIN",
    "25% OFF", "$10 FREE", "TRY AGAIN", "15% OFF", "TRY AGAIN", "5% OFF"]

  /** The slot background colours; they alternate green and grey. */
  const Colors: seq<string> := [
    "#00ff00", "#1f2937", "#00ff00", "#1f2937", "#00ff00", "#1f2937",
    "#00ff00", "#1f2937", "#00ff00", "#1f2937", "#00ff00", "#1f2937"]

  /** Relative likelihood of each slot (higher is more likely). */
  const PrizeWeights: seq<nat> := [15, 20, 10, 15, 8, 25, 5, 2, 14, 10, 10, 10]

  /** What a slot offers. */
  datatype Prize = PercentOff(percent: nat) | DollarsFree(dollars: nat) | NoPrize

  /** The label a prize is written as on the wheel. */
  function OptionText(p: Prize): string
  {
    match p
    case PercentOff(n) => NatToString(n) + "% OFF"
    case DollarsFree(n) => "$" + NatToString(n) + " FREE"
    case NoPrize => TryAgain
  }

  const Prizes: seq<Prize> := [
    PercentOff(5), PercentOff(10), PercentOff(15), DollarsFree(5), PercentOff(20), NoPrize,
    PercentOff(25), DollarsFree(10), NoPrize, PercentOff(15), NoPrize, PercentOff(5)]

  /** `Math.max(0, max - used)`: spins left, never negative. */
  function RemainingSpins(max: int, used: int): (n: nat)
    ensures n >= max - used
    ensures n > 0 ==> n == max - used
  {
    if max - used > 0 then max - used else 0
  }

  /** The wheel's count agrees with the service's count for a stored row. */
  lemma RemainingAgreesWithService(l: SpinLimit)
    ensures RemainingSpins(l.maxSpins, l.used) == PurchaseService.RemainingSpins(l)
  {
  }

  /** The sum of the first `k` weights. */
  function Cumulative(ws: seq<nat>, k: nat): nat
    requires k <= |ws|
  {
    if k == 0 then 0 else Cumulative(ws, k - 1) + ws[k - 1]
  }

  lemma {:induction false} CumulativeMonotone(ws: seq<nat>, a: nat, b: nat)
    requires a <= b <= |ws|
    ensures Cumulative(ws, a) <= Cumulative(ws, b)
    decreases b - a
  {
    if a < b {
      CumulativeMonotone(ws, a, b - 1);
    }
  }

  /** The total weight of the indices up to and including `k`. */
  function Through(ws: seq<nat>, k: nat): nat
    requires k < |ws|
  {
    Cumulative(ws, k + 1)
  }

  /** The wheel has as many weights as slots, and the weights total 144. */
  lemma WheelShape()
    ensures |Options| == |PrizeWeights| == |Colors| == |Prizes| == 12
    ensures Cumulative(PrizeWeights, 12) == 144
  {
    assert Cumulative(PrizeWeights, 6) == 93;
  }

  /** The first index from `i` on whose cumulative weight reaches `draw`; 0 when none does. */
  function PickFrom(ws: seq<nat>, draw: real, i: nat): nat
    requires i <= |ws|
    decreases |ws| - i
  {
    if i == |ws| then 0
    else if draw <= Through(ws, i) as real then i
    else PickFrom(ws, draw, i + 1)
  }

  /** The slot a draw selects. */
  function PickIndex(ws: seq<nat>, draw: real): nat
  {
    PickFrom(ws, draw, 0)
  }

  lemma {:induction false} PickFromFirstReached(ws: seq<nat>, draw: real, i: nat)
    requires i <= |ws|
    ensures var r := PickFrom(ws, draw, i);
      if exists k :: i <= k < |ws| && draw <= Through(ws, k) as real then
        && i <= r < |ws| && draw <= Through(ws, r) as real
        && forall j :: i <= j < r ==> draw > Through(ws, j) as real
      else r == 0
    decreases |ws| - i
  {
    if i < |ws| && draw > Through(ws, i) as real {
      PickFromFirstReached(ws, draw, i + 1);
      if exists k :: i <= k < |ws| && draw <= Through(ws, k) as real {
        var k :| i <= k < |ws| && draw <= Through(ws, k) as real;
        assert k != i;
      }
    }
  }

  /** The selection is the first index whose cumulative weight reaches the
      draw, and 0 when no index does. */
  lemma PickIndexFirstReached(ws: seq<nat>, draw: real)
    ensures var r := PickIndex(ws, draw);
      if exists k :: 0 <= k < |ws| && draw <= Through(ws, k) as real then
        && r < |ws| && draw <= Through(ws, r) as real
        && forall j :: 0 <= j < r ==> draw > Through(ws, j) as real
      else r == 0
  {
    PickFromFirstReached(ws, draw, 0);
  }

  /** Slot `i` is selected exactly for the draws in its own stretch of the
      cumulative weights, a stretch as long as its weight: the likelihood the
      weight table promises. */
  lemma PickIndexInterval(ws: seq<nat>, draw: real, i: nat)
    requires i < |ws|
    requires draw <= Cumulative(ws, |ws|) as real
    ensures PickIndex(ws, draw) == i <==>
      (i == 0 || Cumulative(ws, i) as real < draw) && draw <= Through(ws, i) as real
  {
    PickIndexFirstReached(ws, draw);
    assert draw <= Through(ws, |ws| - 1) as real;
    var r := PickIndex(ws, draw);
    if r == i && i > 0 {
      assert draw > Through(ws, i - 1) as real;
    }
    if (i == 0 || Cumulative(ws, i) as real < draw) && draw <= Through(ws, i) as real {
      if r < i {
        CumulativeMonotone(ws, r + 1, i);
      }
    }
  }

  /** A draw of `Math.random() * 144` selects a wheel slot whose stretch holds the draw. */
  lemma WheelDrawInSlot(unit: real)
    requires 0.0 <= unit < 1.0
    ensures var i := PickIndex(PrizeWeights, unit * 144.0);
      && i < 12
      && (i == 0 || Cumulative(PrizeWeights, i) as real < unit * 144.0)
      && unit * 144.0 <= Through(PrizeWeights, i) as real
  {
    WheelShape();
    var i := PickIndex(PrizeWeights, unit * 144.0);
    PickIndexFirstReached(PrizeWeights, unit * 144.0);
    assert unit * 144.0 <= Through(PrizeWeights, 11) as real;
    PickIndexInterval(PrizeWeights, unit * 144.0, i);
  }

  /** The loop of `handleSpinClick`: subtract the weights from the draw in
      turn and stop at the first index where it drops to zero or below. */
  method SelectWeighted(ws: seq<nat>, draw: real) returns (index: nat)
    ensures index == PickIndex(ws, draw)
    ensures |ws| > 0 ==> index < |ws|
  {
    var random := draw;
    index := 0;
    var i := 0;
    while i < |ws|
      invariant i <= |ws|
      invariant random == draw - Cumulative(ws, i) as real
      invariant PickFrom(ws, draw, i) == PickIndex(ws, draw)
    {
      random := random - ws[i] as real;
      if random <= 0.0 {
        index := i;
        break;
      }
      i := i + 1;
    }
  }

  /** The weighted selection over the wheel; `unit` stands for `Math.random()`. */
  method PickPrize(unit: real) returns (index: nat)
    ensures index < |Options|
    ensures index == PickIndex(PrizeWeights, unit * 144.0)
  {
    WheelShape();
    var totalWeight := Cumulative(PrizeWeights, |PrizeWeights|);
    index := SelectWeighted(PrizeWeights, unit * totalWeight as real);
  }

  datatype CouponKind = Discount | Freebie

  /** The `WonCoupon` handed to `onWin`; `value` is `None` where `parseInt` gives `NaN`,
      and times are milliseconds. */
  datatype Coupon = Coupon(
    id: string,
    kind: CouponKind,
    value: Option<int>,
    title: string,
    description: string,
    expiresAt: int,
    wonAt: int,
    used: bool)

  const ThirtyDaysMs: int := 30 * 24 * 60 * 60 * 1000

  function KindOf(option: string): CouponKind
  {
    if Includes(option, "OFF") then Discount else Freebie
  }

  /** `parseInt` of the label with `% OFF`, or `$` and ` FREE`, removed. */
  function ValueOf(option: string): Option<int>
  {
    if Includes(option, "OFF") then ParseInt(ReplaceFirst(option, "% OFF", ""))
    else ParseInt(ReplaceFirst(ReplaceFirst(option, "$", ""), " FREE", ""))
  }

  function TitleOf(option: string): string
  {
    "Spin Wheel Prize: " + option
  }

  function DescriptionOf(option: string): string
  {
    if Includes(option, "OFF") then "Get " + option + " on your next purchase"
    else "Free " + ReplaceFirst(option, " FREE", "") + " credit"
  }

  /** The coupon for a winning label; `randomId` stands for the random base-36
      id and `now` for the clock. */
  function WinCoupon(option: string, randomId: string, now: int): (c: Coupon)
    ensures !c.used && c.expiresAt == c.wonAt + ThirtyDaysMs && c.wonAt == now
    ensures c.kind == Discount <==> Includes(option, "OFF")
  {
    Coupon(randomId, KindOf(option), ValueOf(option), TitleOf(option), DescriptionOf(option), now + ThirtyDaysMs, now, false)
  }

  /** The result shown for `TRY AGAIN`: already used, worth nothing. */
  function TryAgainResult(now: int): (c: Coupon)
    ensures c.id == "try-again" && c.value == Some(0) && c.used
  {
    Coupon("try-again", Discount, Some(0), "Try Again!",
      "Better luck next time! Keep spinning for amazing prizes.", now, now, true)
  }

  /** "N% OFF" decodes to a discount worth N. */
  lemma DiscountRoundTrip(n: nat)
    ensures KindOf(OptionText(PercentOff(n))) == Discount
    ensures ValueOf(OptionText(PercentOff(n))) == Some(n)
  {
    var ds := NatToString(n);
    var o := ds + "% OFF";
    assert o[|ds| + 2..|ds| + 5] == "OFF";
    IndexOfFromAt(o, "OFF", 0, |ds| + 2);
    assert o[|ds|..|ds| + 5] == "% OFF";
    IndexOfFromAt(o, "% OFF", 0, |ds|);
    assert o[..|ds|] + "" + o[|ds| + 5..] == ds;
    ParseIntOfNatToString(n, []);
    assert ds + [] == ds;
  }

  /** "$N FREE" decodes to a freebie worth N. */
  lemma FreebieRoundTrip(n: nat)
    ensures KindOf(OptionText(DollarsFree(n))) == Freebie
    ensures ValueOf(OptionText(DollarsFree(n))) == Some(n)
  {
    var ds := NatToString(n);
    IndexOfFromAbsent("$" + ds + " FREE", "OFF", 0);
    StripDollarFree(ds);
    ParseIntOfNatToString(n, []);
    assert ds + [] == ds;
  }

  lemma StripDollarFree(ds: string)
    requires AllDigits(ds)
    ensures ReplaceFirst(ReplaceFirst("$" + ds + " FREE", "$", ""), " FREE", "") == ds
  {
    var o := "$" + ds + " FREE";
    var t := ds + " FREE";
    assert o[0..1] == "$";
    ReplaceFirstAt(o, "$", "", 0);
    assert o[..0] + "" + o[1..] == t;
    assert t[|ds|..|ds| + 5] == " FREE";
    ReplaceFirstAt(t, " FREE", "", |ds|);
    assert t[..|ds|] + "" + t[|ds| + 5..] == ds;
  }

  /** Every slot label is the text of its prize. */
  lemma OptionsArePrizes()
    ensures forall i :: 0 <= i < 12 ==> Options[i] == OptionText(Prizes[i])
  {
    PercentTexts();
    FreeTexts();
  }

  /** The percentage labels of the prizes on the wheel. */
  lemma PercentTexts()
    ensures OptionText(PercentOff(5)) == "5% OFF" && OptionText(PercentOff(10)) == "10% OFF"
    ensures OptionText(PercentOff(15)) == "15% OFF" && OptionText(PercentOff(20)) == "20% OFF"
    ensures OptionText(PercentOff(25)) == "25% OFF"
  {
    TwoDigitText(10);
    TwoDigitText(15);
    TwoDigitText(20);
    TwoDigitText(25);
  }

  /** The free-credit labels of the prizes on the wheel. */
  lemma FreeTexts()
    ensures OptionText(DollarsFree(5)) == "$5 FREE" && OptionText(DollarsFree(10)) == "$10 FREE"
  {
    TwoDigitText(10);
  }

  lemma TwoDigitText(n: nat)
    requires 10 <= n < 100
    ensures NatToString(n) == [DigitChar(n / 10), DigitChar(n % 10)]
  {
  }

  /** Every winning slot decodes to the coupon its prize promises; only the
      `TRY AGAIN` slots carry no prize. */
  lemma WheelCoupons(i: nat)
    requires i < 12
    ensures Options[i] == TryAgain <==> Prizes[i] == NoPrize
    ensures Options[i] != TryAgain ==> ValueOf(Options[i]).Some?
    ensures Prizes[i].PercentOff? ==> KindOf(Options[i]) == Discount && ValueOf(Options[i]) == Some(Prizes[i].percent)
    ensures Prizes[i].DollarsFree? ==> KindOf(Options[i]) == Freebie && ValueOf(Options[i]) == Some(Prizes[i].dollars)
  {
    OptionsArePrizes();
    OnlyNoPrizeReadsTryAgain(Prizes[i]);
    match Prizes[i]
    case PercentOff(n) =>
      DiscountRoundTrip(n);
    case DollarsFree(n) =>
      FreebieRoundTrip(n);
    case NoPrize =>
  }

  /** Only the empty prize is written `TRY AGAIN`. */
  lemma OnlyNoPrizeReadsTryAgain(p: Prize)
    ensures OptionText(p) == TryAgain <==> p == NoPrize
  {
    if p.PercentOff? {
      assert OptionText(p)[0] != 'T';
    }
  }

  /** The writes for a win, as intended: `createSpinReward` with the coupon's
      value, title, rarity `common` and the slot colour, then `recordSpinWin`;
      a saved reward lends the coupon its id. */
  method RecordWin(db: Db, u: nat, option: string, value: int, color: string, randomId: string, now: int, fails: set<Call>)
    returns (won: Coupon)
    requires db.Valid()
    requires ValueOf(option) == Some(value)
    modifies db
    ensures db.Valid()
    ensures db.users == old(db.users) && db.wallets == old(db.wallets) && db.purchases == old(db.purchases)
    ensures db.streaks == old(db.streaks) && db.spinLimits == old(db.spinLimits)
    ensures won == WinCoupon(option, randomId, now).(id := if RewardInsert in fails then randomId else NatToString(old(db.nextId)))
    ensures db.rewards == old(db.rewards) +
      (if RewardInsert in fails then [] else [RewardService.SpinReward(old(db.nextId), u, value, TitleOf(option), "common", Some(color))])
    ensures var s := StatsService.StatsRow(old(db.stats), u, fails);
      && (s.None? || StatsUpdate in fails ==> db.stats == old(db.stats))
      && (s.Some? && StatsUpdate !in fails ==>
            && db.stats == StatsService.PatchStats(old(db.stats), u, StatsService.WinPatch(s.value, value))
            && StatsOf(db.stats, u) == Some(StatsService.AfterWin(s.value, value)))
  {
    var coupon := WinCoupon(option, randomId, now);
    var saved := RewardService.CreateSpinReward(db, u, value, coupon.title, "common", Some(color), fails);
    var _ := StatsService.RecordSpinWin(db, u, value, fails);
    if saved.Some? {
      coupon := coupon.(id := NatToString(saved.value.id));
    }
    won := coupon;
  }

  /** What stopping on `slot` yields: a winning slot with a signed-in user
      gives that slot's coupon (carrying the saved reward's id when the insert
      succeeds) and appends the reward row; anything else yields the
      `try-again` result and adds no reward. `nextId` and `before` are the
      counter and reward table before the stop, `after` the table after it. */
  predicate SettlesAs(slot: nat, user: Option<User>, randomId: string, now: int, fails: set<Call>,
                      nextId: nat, before: seq<Reward>, after: seq<Reward>, won: Coupon)
    requires slot < |Options|
  {
    if Options[slot] == TryAgain || user.None? then won == TryAgainResult(now) && after == before
    else
      var option := Options[slot];
      && ValueOf(option).Some?
      && won == WinCoupon(option, randomId, now).(id := if RewardInsert in fails then randomId else NatToString(nextId))
      && after == before +
           (if RewardInsert in fails then []
            else [RewardService.SpinReward(nextId, user.value.id, ValueOf(option).value, TitleOf(option), "common", Some(Colors[slot]))])
  }

  /** What stopping on `slot` does to `user_stats`: a win by a signed-in user
      counts the win on the user's stats row when that row is read and the
      update succeeds; otherwise the table is left as it was. */
  predicate SpinCounted(slot: nat, user: Option<User>, fails: set<Call>, before: seq<Stats>, after: seq<Stats>)
    requires slot < |Options|
  {
    if Options[slot] == TryAgain || user.None? || ValueOf(Options[slot]).None? then after == before
    else
      var s := StatsService.StatsRow(before, user.value.id, fails);
      && (s.None? || StatsUpdate in fails ==> after == before)
      && (s.Some? && StatsUpdate !in fails ==>
            && after == StatsService.PatchStats(before, user.value.id, StatsService.WinPatch(s.value, ValueOf(Options[slot]).value))
            && StatsOf(after, user.value.id) == Some(StatsService.AfterWin(s.value, ValueOf(Options[slot]).value)))
  }

  /** The coupon a stop yields is the one its slot's prize promises: worth the
      percentage or the dollars, unused and valid for thirty days; and the
      reward row saved for it is worth the same amount. */
  lemma SettledCouponIsPrize(slot: nat, user: Option<User>, randomId: string, now: int, fails: set<Call>,
                             nextId: nat, before: seq<Reward>, after: seq<Reward>, won: Coupon)
    requires slot < |Options| && user.Some?
    requires SettlesAs(slot, user, randomId, now, fails, nextId, before, after, won)
    ensures Prizes[slot] == NoPrize ==> won == TryAgainResult(now) && after == before
    ensures Prizes[slot] != NoPrize ==>
      && !won.used && won.wonAt == now && won.expiresAt == now + ThirtyDaysMs
      && won.value == Some(if Prizes[slot].PercentOff? then Prizes[slot].percent else Prizes[slot].dollars)
      && (won.kind == Discount <==> Prizes[slot].PercentOff?)
    ensures Prizes[slot] != NoPrize && RewardInsert !in fails ==>
      && |after| == |before| + 1
      && after[|before|].amount == won.value.value
      && after[|before|].id == nextId && won.id == NatToString(nextId)
  {
    WheelCoupons(slot);
  }

  /** What stopping on `slot` does: `SettlesAs`, and nothing is written for
      a `TRY AGAIN` slot or a signed-out user. */
  method SettleSpin(db: Db, user: Option<User>, slot: nat, randomId: string, now: int, fails: set<Call>) returns (won: Coupon)
    requires slot < |Options| && db.Valid()
    modifies db
    ensures db.Valid()
    ensures SettlesAs(slot, user, randomId, now, fails, old(db.nextId), old(db.rewards), db.rewards, won)
    ensures SpinCounted(slot, user, fails, old(db.stats), db.stats)
    ensures db.users == old(db.users) && db.wallets == old(db.wallets) && db.purchases == old(db.purchases)
    ensures db.streaks == old(db.streaks) && db.spinLimits == old(db.spinLimits)
    ensures Options[slot] == TryAgain || user.None? ==> unchanged(db)
  {
    var option := Options[slot];
    if option != TryAgain && user.Some? {
      WheelCoupons(slot);
      var value := ValueOf(option).value;
      won := RecordWin(db, user.value.id, option, value, Colors[slot], randomId, now, fails);
    } else {
      won := TryAgainResult(now);
    }
  }

  /** The component's own state. `initialized` is `initializedRef`. */
  class Wheel {
    var mustSpin: bool
    var prizeNumber: nat
    var isSpinning: bool
    var canSpinNow: bool
    var initialized: bool

    /** The prize is a wheel slot, the wheel turns exactly while a spin is
        running, and no click is accepted while it does. */
    predicate Valid()
      reads this
    {
      prizeNumber < |Options| && mustSpin == isSpinning && (isSpinning ==> !canSpinNow)
    }

    constructor ()
      ensures Valid()
      ensures !mustSpin && prizeNumber == 0 && !isSpinning && !canSpinNow && !initialized
    {
      mustSpin := false;
      prizeNumber := 0;
      isSpinning := false;
      canSpinNow := false;
      initialized := false;
    }

    /** The effect that recomputes `canSpinNow`: skipped on the first render
        while loading, and only while no spin is running. */
    method RefreshCanSpin(remaining: nat, loading: bool)
      requires Valid()
      modifies this
      ensures Valid()
      ensures mustSpin == old(mustSpin) && prizeNumber == old(prizeNumber) && isSpinning == old(isSpinning)
      ensures loading && !old(initialized) ==> canSpinNow == old(canSpinNow) && !initialized
      ensures !(loading && !old(initialized)) ==>
        && initialized
        && canSpinNow == (if isSpinning then old(canSpinNow) else remaining > 0)
    {
      if loading && !initialized {
        return;
      }
      initialized := true;
      if !isSpinning {
        canSpinNow := remaining > 0;
      }
    }

    /** `handleSpinClick`: ignored unless spinning is allowed, no spin is
        running and a user is signed in; otherwise the prize is drawn, a
        ticket consumed, and the wheel started only if that succeeded. */
    method SpinClick(db: Db, user: Option<User>, unit: real, today: Day, fails: set<Call>) returns (started: bool)
      requires Valid() && db.Valid()
      modifies this, db
      ensures Valid() && db.Valid()
      ensures initialized == old(initialized)
      ensures db.users == old(db.users) && db.wallets == old(db.wallets) && db.stats == old(db.stats)
      ensures db.purchases == old(db.purchases) && db.streaks == old(db.streaks) && db.rewards == old(db.rewards)
      ensures !old(canSpinNow) || old(isSpinning) || user.None? ==> !started && unchanged(db)
      ensures old(canSpinNow) && !old(isSpinning) && user.Some? ==>
        var read := PurchaseService.ReadLimit(old(db.spinLimits), user.value.id, today, fails);
        (started <==> read.Found? && read.row.Some? && PurchaseService.RemainingSpins(read.row.value) > 0 && LimitUpdate !in fails)
      ensures !started ==>
        && db.spinLimits == old(db.spinLimits)
        && mustSpin == old(mustSpin) && prizeNumber == old(prizeNumber)
        && isSpinning == old(isSpinning) && canSpinNow == old(canSpinNow)
      ensures started ==>
        && user.Some?
        && var read := PurchaseService.ReadLimit(old(db.spinLimits), user.value.id, today, fails);
        && read.Found? && read.row.Some? && PurchaseService.RemainingSpins(read.row.value) > 0
        && PurchaseService.OneSpinUsed(old(db.spinLimits), db.spinLimits, read.row.value)
        && LimitOf(db.spinLimits, user.value.id, today) == Some(read.row.value.(used := read.row.value.used + 1))
        && prizeNumber == PickIndex(PrizeWeights, unit * 144.0)
        && mustSpin && isSpinning && !canSpinNow
      ensures OneLimitPerDay(old(db.spinLimits)) ==> OneLimitPerDay(db.spinLimits)
    {
      if !canSpinNow || isSpinning || user.None? {
        return false;
      }
      var selected := PickPrize(unit);
      var spinUsed := PurchaseService.UseSpinTicket(db, user.value.id, today, fails);
      if !spinUsed {
        return false;
      }
      prizeNumber := selected;
      mustSpin := true;
      isSpinning := true;
      canSpinNow := false;
      started := true;
    }

    /** `handleStopSpinning` with the coupon stored as intended: the wheel
        stops and the slot it stopped on is settled by `SettleSpin`. */
    method StopSpinning(db: Db, user: Option<User>, randomId: string, now: int, fails: set<Call>) returns (won: Coupon)
      requires Valid() && db.Valid()
      modifies this, db
      ensures Valid() && db.Valid()
      ensures !mustSpin && !isSpinning
      ensures prizeNumber == old(prizeNumber) && canSpinNow == old(canSpinNow) && initialized == old(initialized)
      ensures SettlesAs(prizeNumber, user, randomId, now, fails, old(db.nextId), old(db.rewards), db.rewards, won)
      ensures SpinCounted(prizeNumber, user, fails, old(db.stats), db.stats)
      ensures db.users == old(db.users) && db.wallets == old(db.wallets) && db.purchases == old(db.purchases)
      ensures db.streaks == old(db.streaks) && db.spinLimits == old(db.spinLimits)
      ensures Options[prizeNumber] == TryAgain || user.None? ==> unchanged(db)
    {
      mustSpin, isSpinning := false, false;
      won := SettleSpin(db, user, prizeNumber, randomId, now, fails);
    }

    /** `handleStopSpinning` as written: `addWonCoupon` is read from a store
        that defines no such action, so calling it throws before any write,
        the async handler rejects, and `onWin` is never called for a win. */
    method StopSpinningAsWritten(db: Db, user: Option<User>, now: int) returns (won: Option<Coupon>)
      requires Valid() && db.Valid()
      modifies this
      ensures Valid()
      ensures !mustSpin && !isSpinning
      ensures prizeNumber == old(prizeNumber) && canSpinNow == old(canSpinNow) && initialized == old(initialized)
      ensures Options[prizeNumber] == TryAgain || user.None? ==> won == Some(TryAgainResult(now))
      ensures Options[prizeNumber] != TryAgain && user.Some? ==> won.None?
    {
      mustSpin := false;
      isSpinning := false;
      if Options[prizeNumber] != TryAgain && user.Some? {
        won := None;
      } else {
        won := Some(TryAgainResult(now));
      }
    }
  }

  /** Slot 0 (`5% OFF`) is a winning slot the draw selects for any draw up to
      its weight, and as written such a win is lost. */
  lemma LostWinExample()
    ensures PickIndex(PrizeWeights, 0.0) == 0 && Options[0] != TryAgain
    ensures ValueOf(Options[0]) == Some(5)
  {
    WheelCoupons(0);
  }
}
