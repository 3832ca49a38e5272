/**
 * The smart-trading service: time-of-day zones, the per-stock first-error
 * timer that forces an emergency sell after five minutes without analysis
 * data, the condition checks of each zone, signal generation and the
 * once-a-day order gate.
 *
 * Times of day are seconds since midnight (the zone thresholds are whole
 * minutes, so sub-second parts never change a zone); wall-clock timestamps
 * for the error timer are exact reals. Prices are integers, and every
 * percentage threshold is stated exactly.
 */
module SmartTrading {
  import opened Wrappers
  import PyNum
  import PriceTracker

  const GapTradingStart: int := 9 * 3600 + 5 * 60
  const MainTradingStart: int := 9 * 3600 + 30 * 60
  const AfternoonStart: int := 13 * 3600
  const ForceSellTime: int := 14 * 3600 + 40 * 60

  const HoldingZoneThreshold: real := 2.0
  const GapStrengthMin: real := 150.0
  const GapOpenRiseMin: real := 1.0
  const GapTradeAmountMin: int := 100000000
  const AfternoonHighDrop: real := 1.0
  const AfternoonBuyDrop: real := 1.0
  const ProfitZoneThreshold: real := 2.0
  const TrailingStopThreshold: real := 2.0
  const ProfitReturnThreshold: real := 2.0
  const ErrorDuration: int := 300

  /** How many of the most recent ticks the five-minute trade amount looks at. */
  const RecentTicks: nat := 60

  datatype Zone = GapTrading | MainTrading | Afternoon | ForceSell | Closed

  /** The half-open window of each zone, as the thresholds delimit it. */
  predicate InWindow(z: Zone, t: int) {
    match z
    case Closed => t < GapTradingStart
    case GapTrading => GapTradingStart <= t < MainTradingStart
    case MainTrading => MainTradingStart <= t < AfternoonStart
    case Afternoon => AfternoonStart <= t < ForceSellTime
    case ForceSell => ForceSellTime <= t
  }

  /** `get_current_time_zone`: the thresholds are tried from the latest down. */
  function ZoneAt(t: int): (z: Zone)
    ensures InWindow(z, t)
    ensures forall other: Zone :: InWindow(other, t) ==> other == z
  {
    if t >= ForceSellTime then ForceSell
    else if t >= AfternoonStart then Afternoon
    else if t >= MainTradingStart then MainTrading
    else if t >= GapTradingStart then GapTrading
    else Closed
  }

  /** The order in which the zones follow each other over the day. */
  function Rank(z: Zone): nat {
    match z
    case Closed => 0
    case GapTrading => 1
    case MainTrading => 2
    case Afternoon => 3
    case ForceSell => 4
  }

  /** Later in the day never means an earlier zone. */
  lemma ZonesFollowTheClock(t1: int, t2: int)
    requires t1 <= t2
    ensures Rank(ZoneAt(t1)) <= Rank(ZoneAt(t2))
  {
    var z1, z2 := ZoneAt(t1), ZoneAt(t2);
    assert InWindow(z1, t1) && InWindow(z2, t2);
  }

  /** `safe_percentage_change`: zero on a zero base. */
  function SafePct(current: real, base: real): (r: real)
    ensures base == 0.0 ==> r == 0.0
    ensures base != 0.0 ==> r * base == (current - base) * 100.0
  {
    if base == 0.0 then 0.0 else PyNum.PctChange(current, base)
  }

  // ---------------------------------------------------------------------
  // The first-error timer (in process memory, keyed by stock code)
  // ---------------------------------------------------------------------

  type ErrorTimes = map<string, real>

  /** `record_first_error_time`: only the first error of a run is stamped. */
  function RecordFirstError(errs: ErrorTimes, code: string, now: real): (r: ErrorTimes)
    ensures r.Keys == errs.Keys + {code}
    ensures forall c :: c in errs ==> r[c] == errs[c]
    ensures code !in errs ==> r[code] == now
  {
    if code in errs then errs else errs[code := now]
  }

  /** `clear_error_record`: forgets the stock's error time, and nothing else. */
  function ClearError(errs: ErrorTimes, code: string): (r: ErrorTimes)
    ensures r.Keys == errs.Keys - {code}
    ensures forall c :: c in r ==> r[c] == errs[c]
  {
    errs - {code}
  }

  /** Clearing right after a first error restores the timer as it was. */
  lemma ClearUndoesRecord(errs: ErrorTimes, code: string, now: real)
    requires code !in errs
    ensures ClearError(RecordFirstError(errs, code, now), code) == errs
  {
    var r := ClearError(RecordFirstError(errs, code, now), code);
    assert r.Keys == errs.Keys;
  }

  /**
   * `should_emergency_sell`: the whole seconds elapsed since the recorded
   * first error reach 300. Truncating the elapsed time does not move the
   * threshold, so this is exactly "at least 300 s have passed".
   */
  function ShouldEmergencySell(errs: ErrorTimes, code: string, now: real): (r: bool)
    ensures r <==> code in errs && now - errs[code] >= ErrorDuration as real
  {
    if code !in errs then false
    else
      PyNum.TruncAtLeast(now - errs[code], ErrorDuration);
      PyNum.Trunc(now - errs[code]) >= ErrorDuration
  }

  /** Errors that keep coming do not restart the five-minute clock. */
  lemma RepeatedErrorsKeepTheClock(errs: ErrorTimes, code: string, first: real, now: real)
    requires code !in errs && first <= now
    ensures var e := RecordFirstError(RecordFirstError(errs, code, first), code, now);
            ShouldEmergencySell(e, code, now) <==> now - first >= 300.0
  {
  }

  // ---------------------------------------------------------------------
  // Per-day stores (Redis keys suffixed with today's date)
  // ---------------------------------------------------------------------

  /** Today's trade counts and afternoon highs, keyed by stock code. */
  datatype Store = Store(counts: map<string, int>, highs: map<string, int>)

  /** `get_daily_trade_count`: zero when there is no key for today. */
  function DailyCount(s: Store, code: string): int {
    if code in s.counts then s.counts[code] else 0
  }

  /** `increment_daily_trade_count`: Redis INCR on today's key. */
  function IncrementDailyCount(s: Store, code: string): (r: Store)
    ensures DailyCount(r, code) == DailyCount(s, code) + 1
    ensures forall c :: c != code ==> DailyCount(r, c) == DailyCount(s, c)
    ensures r.highs == s.highs
  {
    s.(counts := s.counts[code := DailyCount(s, code) + 1])
  }

  /** `get_13h_highest_price`: zero when nothing is stored for today. */
  function Highest13(s: Store, code: string): int {
    if code in s.highs then s.highs[code] else 0
  }

  /** `update_13h_highest_price`: written only when the price beats the stored high. */
  function UpdateHighest13(s: Store, code: string, price: int): (r: Store)
    ensures Highest13(r, code) == PyNum.Max(Highest13(s, code), price)
    ensures forall c :: c != code ==> Highest13(r, c) == Highest13(s, c)
    ensures r.counts == s.counts
    ensures price <= Highest13(s, code) ==> r == s
  {
    if price > Highest13(s, code) then s.(highs := s.highs[code := price]) else s
  }

  // ---------------------------------------------------------------------
  // Condition checks
  // ---------------------------------------------------------------------

  /** The sum of the positive amounts. */
  function PositiveSum(amounts: seq<int>): (r: int)
    ensures r >= 0
  {
    if |amounts| == 0 then 0
    else PositiveSum(amounts[..|amounts| - 1]) + PyNum.Max(amounts[|amounts| - 1], 0)
  }

  /** Python's `xs[-60:]`: the last sixty entries, or all of them. */
  function LastTicks(amounts: seq<int>): (r: seq<int>)
    ensures |r| == if |amounts| <= RecentTicks then |amounts| else RecentTicks
    ensures forall i :: 0 <= i < |r| ==> r[i] == amounts[|amounts| - |r| + i]
  {
    if |amounts| <= RecentTicks then amounts else amounts[|amounts| - RecentTicks..]
  }

  /**
   * `get_5min_trade_amount`: the positive instant amounts of the latest
   * sixty ticks, added up.
   */
  function FiveMinTradeAmount(amounts: seq<int>): (r: int)
    ensures r >= 0
    ensures (forall i :: 0 <= i < |amounts| ==> amounts[i] <= 0) ==> r == 0
  {
    NonPositiveSumsToZero(LastTicks(amounts));
    PositiveSum(LastTicks(amounts))
  }

  lemma {:induction false} NonPositiveSumsToZero(amounts: seq<int>)
    ensures (forall i :: 0 <= i < |amounts| ==> amounts[i] <= 0) ==> PositiveSum(amounts) == 0
    decreases |amounts|
  {
    if |amounts| > 0 {
      NonPositiveSumsToZero(amounts[..|amounts| - 1]);
    }
  }

  /** Ticks older than the latest sixty do not count. */
  lemma OlderTicksDoNotCount(older: int, amounts: seq<int>)
    requires |amounts| >= RecentTicks
    ensures FiveMinTradeAmount([older] + amounts) == FiveMinTradeAmount(amounts)
  {
    assert LastTicks([older] + amounts) == LastTicks(amounts);
  }

  /** The latest tick of the analysis (`latest_data`), with absent keys read as 0. */
  datatype Latest = Latest(executionStrength: real, currentPrice: int, openPrice: int)

  /** The one-minute analysis (`analysis_1min`), with absent keys read as 0, "FLAT" and 50. */
  datatype OneMinute = OneMinute(executionStrength: real, momentum: string, buyRatio: real)

  /** A usable result of `analyze_stock_0b`. */
  datatype Analysis = Analysis(latest: Latest, oneMinute: OneMinute)

  /**
   * `check_gap_trading_conditions`: strength at least 150, a positive open
   * price risen at least 1 % and at least 100,000,000 won traded in five
   * minutes.
   */
  function GapConditions(l: Latest, tradeAmount: int): (r: bool)
    ensures r <==> l.executionStrength >= GapStrengthMin && l.openPrice > 0
                   && 100 * l.currentPrice >= 101 * l.openPrice && tradeAmount >= GapTradeAmountMin
  {
    if l.executionStrength < GapStrengthMin then false
    else if l.openPrice > 0 then
      PyNum.PctAtLeast(l.currentPrice as real, l.openPrice as real, GapOpenRiseMin);
      if SafePct(l.currentPrice as real, l.openPrice as real) < GapOpenRiseMin then false
      else tradeAmount >= GapTradeAmountMin
    else false
  }

  /**
   * `check_main_trading_conditions`: 3 for a strong buy, 2 for a buy, -2 for
   * a sell, 0 otherwise. A buy-strength score (2 or more) means exactly
   * strength above 100 with a buy ratio above 55.
   */
  function MainScore(a: OneMinute): (r: int)
    ensures r == 3 || r == 2 || r == -2 || r == 0
    ensures r >= 2 <==> a.executionStrength > 100.0 && a.buyRatio > 55.0
    ensures r == 3 <==> a.executionStrength > 120.0 && a.momentum == "UP" && a.buyRatio > 60.0
    ensures r == -2 <==> a.executionStrength < 80.0 && a.momentum == "DOWN" && a.buyRatio < 40.0
  {
    if a.executionStrength > 120.0 && a.momentum == "UP" && a.buyRatio > 60.0 then 3
    else if a.executionStrength > 100.0 && a.buyRatio > 55.0 then 2
    else if a.executionStrength < 80.0 && a.momentum == "DOWN" && a.buyRatio < 40.0 then -2
    else 0
  }

  /** `check_holding_zone`: within 2 % either way of a positive trade price. */
  function InHoldingZone(current: int, tradePrice: int): (r: bool)
    ensures r <==> tradePrice > 0 && 98 * tradePrice <= 100 * current <= 102 * tradePrice
  {
    if tradePrice <= 0 then false
    else
      PyNum.PctAtLeast(current as real, tradePrice as real, -HoldingZoneThreshold);
      PyNum.PctAtMost(current as real, tradePrice as real, HoldingZoneThreshold);
      PyNum.AbsReal(SafePct(current as real, tradePrice as real)) <= HoldingZoneThreshold
  }

  datatype ProfitExit = TrailingStop | ProfitReturn

  /**
   * `check_profit_zone_conditions`. Both exits need the price at least 2 %
   * above a positive trade price. The trailing stop also needs it 2 % below
   * a positive high; the profit-return exit needs it at or below the +2 %
   * target while at least +2 %, so in exact arithmetic it fires only when
   * the price sits exactly on the target.
   */
  function ProfitZoneSell(current: int, tradePrice: int, highest: int): (r: Option<ProfitExit>)
    ensures r.Some? ==> tradePrice > 0 && 100 * current >= 102 * tradePrice
    ensures r == Some(TrailingStop) <==>
              tradePrice > 0 && 100 * current >= 102 * tradePrice && highest > 0 && 100 * current <= 98 * highest
    ensures r == Some(ProfitReturn) <==>
              tradePrice > 0 && 100 * current == 102 * tradePrice && !(highest > 0 && 100 * current <= 98 * highest)
  {
    if tradePrice <= 0 then None
    else
      var c, t := current as real, tradePrice as real;
      var change := SafePct(c, t);
      PyNum.PctAtLeast(c, t, ProfitZoneThreshold);
      if change >= ProfitZoneThreshold then
        if highest > 0 && (PyNum.PctAtMost(c, highest as real, -TrailingStopThreshold);
                           SafePct(c, highest as real) <= -TrailingStopThreshold) then
          Some(TrailingStop)
        else
          var target := t * (1.0 + ProfitReturnThreshold / 100.0);
          if c <= target && change >= ProfitReturnThreshold then Some(ProfitReturn) else None
      else None
  }

  datatype AfternoonExit = FromAfternoonHigh | BelowTradePrice

  /**
   * `check_afternoon_sell_conditions`: 1 % under a positive high since
   * 13:00, or else 1 % under a positive trade price.
   */
  function AfternoonSell(current: int, tradePrice: int, high13: int): (r: Option<AfternoonExit>)
    ensures r == Some(FromAfternoonHigh) <==> high13 > 0 && 100 * current <= 99 * high13
    ensures r == Some(BelowTradePrice) <==>
              !(high13 > 0 && 100 * current <= 99 * high13) && tradePrice > 0 && 100 * current <= 99 * tradePrice
  {
    var c := current as real;
    if high13 > 0 && (PyNum.PctAtMost(c, high13 as real, -AfternoonHighDrop);
                      SafePct(c, high13 as real) <= -AfternoonHighDrop) then
      Some(FromAfternoonHigh)
    else if tradePrice > 0 && (PyNum.PctAtMost(c, tradePrice as real, -AfternoonBuyDrop);
                               SafePct(c, tradePrice as real) <= -AfternoonBuyDrop) then
      Some(BelowTradePrice)
    else None
  }

  // ---------------------------------------------------------------------
  // Signals
  // ---------------------------------------------------------------------

  /** The tracker fields the strategy reads, each 0 when absent. */
  datatype Position = Position(tradePrice: int, highestPrice: int, qtyToSell: int, qtyToBuy: int)

  /** `tracking_data.get(field, 0)` over the tracker record, or `{}` when there is none. */
  function PositionOf(t: Option<PriceTracker.Tracking>): Position {
    if t.None? then Position(0, 0, 0, 0)
    else Position(t.value.tradePrice, t.value.highestPrice, t.value.qtyToSell, t.value.qtyToBuy)
  }

  datatype Action = Buy | Sell | Neutral

  datatype Signal = Signal(action: Action, quantity: int, zone: Zone)

  /** A signal says what it carries: SELL the sell quantity, BUY the buy quantity, NEUTRAL nothing. */
  predicate Carries(s: Signal, p: Position) {
    && (s.action == Sell ==> s.quantity == p.qtyToSell > 0)
    && (s.action == Buy ==> s.quantity == p.qtyToBuy > 0)
    && (s.action == Neutral ==> s.quantity == 0)
  }

  /** In the main session a held position inside the holding zone sells only on a profit exit. */
  function MainSessionSignal(a: Analysis, p: Position): (r: Action)
    ensures r == Sell ==> p.qtyToSell > 0 && ProfitZoneSell(a.latest.currentPrice, p.tradePrice, p.highestPrice).Some?
    ensures r == Buy ==> p.qtyToBuy > 0 && MainScore(a.oneMinute) >= 2
    ensures p.qtyToSell > 0 && InHoldingZone(a.latest.currentPrice, p.tradePrice) ==> r != Buy
  {
    var c := a.latest.currentPrice;
    var exit := ProfitZoneSell(c, p.tradePrice, p.highestPrice);
    if p.qtyToSell > 0 && InHoldingZone(c, p.tradePrice) then
      if exit.Some? then Sell else Neutral
    else if p.qtyToSell > 0 && SafePct(c as real, p.tradePrice as real) > HoldingZoneThreshold && exit.Some? then
      Sell
    else if p.qtyToBuy > 0 && MainScore(a.oneMinute) >= 2 then
      Buy
    else
      Neutral
  }

  /**
   * The zone dispatch of `generate_trading_signal` once analysis data is in
   * hand. In the afternoon the high since 13:00 is updated with the current
   * price before the sell check reads it.
   */
  function ZoneSignal(zone: Zone, a: Analysis, p: Position, recent: seq<int>, s: Store, code: string)
    : (r: (Signal, Store))
    ensures r.0.zone == zone && Carries(r.0, p)
    ensures r.0.action == Buy ==> zone == GapTrading || zone == MainTrading
    ensures zone == ForceSell ==> (r.0.action == Sell <==> p.qtyToSell > 0)
    ensures zone == Afternoon ==> r.1 == UpdateHighest13(s, code, a.latest.currentPrice)
    ensures zone != Afternoon ==> r.1 == s
    ensures zone == Afternoon ==>
              (r.0.action == Sell <==>
                 p.qtyToSell > 0 && AfternoonSell(a.latest.currentPrice, p.tradePrice, Highest13(r.1, code)).Some?)
    ensures zone == GapTrading ==>
              (r.0.action == Buy <==> p.qtyToBuy > 0 && GapConditions(a.latest, FiveMinTradeAmount(recent)))
    ensures zone == GapTrading || zone == Closed ==> r.0.action != Sell
  {
    match zone
    case ForceSell =>
      if p.qtyToSell > 0 then (Signal(Sell, p.qtyToSell, zone), s) else (Signal(Neutral, 0, zone), s)
    case Closed =>
      (Signal(Neutral, 0, zone), s)
    case GapTrading =>
      if p.qtyToBuy > 0 && GapConditions(a.latest, FiveMinTradeAmount(recent)) then
        (Signal(Buy, p.qtyToBuy, zone), s)
      else (Signal(Neutral, 0, zone), s)
    case MainTrading =>
      var act := MainSessionSignal(a, p);
      if act == Sell then (Signal(Sell, p.qtyToSell, zone), s)
      else if act == Buy then (Signal(Buy, p.qtyToBuy, zone), s)
      else (Signal(Neutral, 0, zone), s)
    case Afternoon =>
      var s' := UpdateHighest13(s, code, a.latest.currentPrice);
      if p.qtyToSell > 0 && AfternoonSell(a.latest.currentPrice, p.tradePrice, Highest13(s', code)).Some? then
        (Signal(Sell, p.qtyToSell, zone), s')
      else (Signal(Neutral, 0, zone), s')
  }

  /** The service's state: the error timer in memory and today's Redis keys. */
  datatype State = State(errors: ErrorTimes, store: Store)

  /**
   * `generate_trading_signal` at time of day `t` and wall-clock time `now`,
   * given the analysis (None when it is missing or reports an error), the
   * tracker record and the recent instant amounts.
   */
  function GenerateSignal(st: State, code: string, t: int, now: real, analysis: Option<Analysis>,
                          tracking: Option<PriceTracker.Tracking>, recent: seq<int>): (r: (Signal, State))
    ensures r.0.zone == ZoneAt(t) && Carries(r.0, PositionOf(tracking))
    ensures r.0.action == Buy ==> analysis.Some? && (r.0.zone == GapTrading || r.0.zone == MainTrading)
    ensures r.1.store.counts == st.store.counts
    ensures DailyCount(st.store, code) >= 1 ==> r.0.action == Neutral && r.1 == st
    ensures DailyCount(st.store, code) < 1 && analysis.None? ==>
              r.1 == st.(errors := RecordFirstError(st.errors, code, now))
              && (r.0.action == Sell <==>
                    code in st.errors && now - st.errors[code] >= ErrorDuration as real
                    && PositionOf(tracking).qtyToSell > 0)
    ensures DailyCount(st.store, code) < 1 && analysis.Some? ==> r.1.errors == ClearError(st.errors, code)
  {
    var zone := ZoneAt(t);
    if DailyCount(st.store, code) >= 1 then (Signal(Neutral, 0, zone), st)
    else
      var p := PositionOf(tracking);
      if analysis.None? then
        var errs := RecordFirstError(st.errors, code, now);
        var st' := st.(errors := errs);
        if ShouldEmergencySell(errs, code, now) && p.qtyToSell > 0 then (Signal(Sell, p.qtyToSell, zone), st')
        else (Signal(Neutral, 0, zone), st')
      else
        var (sig, store) := ZoneSignal(zone, analysis.value, p, recent, st.store, code);
        (sig, State(ClearError(st.errors, code), store))
  }

  /**
   * The gate of `execute_trade_order` after the signal: nothing for a
   * NEUTRAL signal or a non-positive quantity, nothing without a positive
   * current price, and the daily count goes up exactly when the broker
   * accepts the order (`accepted` is its `return_code == 0`).
   */
  function Place(sig: Signal, price: Option<PriceTracker.PriceInfo>, accepted: bool, s: Store, code: string)
    : (r: (bool, Store))
    ensures r.0 <==> sig.action != Neutral && sig.quantity > 0 && price.Some? && price.value.currentPrice > 0 && accepted
    ensures r.0 ==> r.1 == IncrementDailyCount(s, code)
    ensures !r.0 ==> r.1 == s
  {
    if sig.action == Neutral || sig.quantity <= 0 then (false, s)
    else if price.None? || price.value.currentPrice <= 0 then (false, s)
    else if accepted then (true, IncrementDailyCount(s, code))
    else (false, s)
  }

  /** `execute_trade_order`: a fresh signal, then the order gate. */
  function ExecuteTradeOrder(st: State, code: string, t: int, now: real, analysis: Option<Analysis>,
                             tracking: Option<PriceTracker.Tracking>, recent: seq<int>,
                             price: Option<PriceTracker.PriceInfo>, accepted: bool): (r: (bool, State))
    ensures var (sig, st') := GenerateSignal(st, code, t, now, analysis, tracking, recent);
            (r.0 <==> sig.action != Neutral && price.Some? && price.value.currentPrice > 0 && accepted)
            && r.1.errors == st'.errors
            && DailyCount(r.1.store, code) == DailyCount(st.store, code) + (if r.0 then 1 else 0)
    ensures r.0 ==> DailyCount(st.store, code) < 1
  {
    var (sig, st') := GenerateSignal(st, code, t, now, analysis, tracking, recent);
    var (ok, store) := Place(sig, price, accepted, st'.store, code);
    (ok, st'.(store := store))
  }

  /**
   * After a successful order the stock trades no more that day, whatever
   * comes next (today's count only ever grows from zero).
   */
  lemma OneTradePerDay(st: State, code: string, t: int, now: real, analysis: Option<Analysis>,
                       tracking: Option<PriceTracker.Tracking>, recent: seq<int>,
                       price: Option<PriceTracker.PriceInfo>, accepted: bool,
                       t2: int, now2: real, analysis2: Option<Analysis>,
                       tracking2: Option<PriceTracker.Tracking>, recent2: seq<int>,
                       price2: Option<PriceTracker.PriceInfo>, accepted2: bool)
    requires DailyCount(st.store, code) >= 0
    requires ExecuteTradeOrder(st, code, t, now, analysis, tracking, recent, price, accepted).0
    ensures var st' := ExecuteTradeOrder(st, code, t, now, analysis, tracking, recent, price, accepted).1;
            !ExecuteTradeOrder(st', code, t2, now2, analysis2, tracking2, recent2, price2, accepted2).0
  {
  }
}
