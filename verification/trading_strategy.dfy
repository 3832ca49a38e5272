/**
 * The time-phased trading handler: the trading state of the time of day,
 * the unified buy price, the profit and loss exits, the validation of a
 * tick, the buy gates of each phase and the list bookkeeping around
 * orders (a sold code leaves the holdings, a bought code joins the
 * "traded today" list, and each is put back when the order call fails).
 *
 * Times of day are seconds since midnight; index values and percentages
 * are exact reals.
 */
module TradingStrategy {
  import opened Wrappers
  import PyNum
  import Decimal
  import PriceTracker
  import PyStr

  const Nine: int := 9 * 3600
  const NineThirty: int := 9 * 3600 + 30 * 60
  const Noon: int := 12 * 3600
  const FifteenThirty: int := 15 * 3600 + 30 * 60

  datatype TradingState = Observation | ActiveTrading | Conservative | Inactive

  /** `determine_trading_state`: half-open windows from 9:00, 9:30 and 12:00 to 15:30. */
  function DetermineTradingState(t: int): (s: TradingState)
    ensures s == Observation <==> Nine <= t < NineThirty
    ensures s == ActiveTrading <==> NineThirty <= t < Noon
    ensures s == Conservative <==> Noon <= t < FifteenThirty
    ensures s == Inactive <==> t < Nine || FifteenThirty <= t
  {
    if Nine <= t < NineThirty then Observation
    else if NineThirty <= t < Noon then ActiveTrading
    else if Noon <= t < FifteenThirty then Conservative
    else Inactive
  }

  /** `is_trading_time`: 9:00 to 15:30, both ends included. */
  predicate IsTradingTime(t: int) {
    Nine <= t <= FifteenThirty
  }

  /** Trading time is a trading state, except at 15:30 itself, which the state calls inactive. */
  lemma TradingTimeAndState(t: int)
    ensures IsTradingTime(t) <==> DetermineTradingState(t) != Inactive || t == FifteenThirty
  {
  }

  // ---------------------------------------------------------------------
  // Buy price
  // ---------------------------------------------------------------------

  /** The discount the index alone asks for: 1.5 % in a strong market, 2.5 % in a weak one, 2 % otherwise. */
  function BaseDiscount(kospi: real): (d: real)
    ensures 0.015 <= d <= 0.025
    ensures kospi >= 1.5 ==> d == 0.015
    ensures kospi <= -1.5 ==> d == 0.025
    ensures -1.5 < kospi < 1.5 ==> d == 0.02
  {
    if kospi >= 1.5 then 0.015 else if kospi <= -1.5 then 0.025 else 0.02
  }

  /** Half a percent more discount after a rise of over 1 % from the open, half a percent less after a fall of over 1 %. */
  function ExtraDiscount(current: int, open: int): (d: real)
    ensures d == 0.005 <==> open > 0 && 100 * (current - open) > open
    ensures d == -0.005 <==> open > 0 && 100 * (current - open) < -open
    ensures d == 0.0 <==> open <= 0 || -open <= 100 * (current - open) <= open
  {
    if open > 0 then
      var rate := (current - open) as real / open as real;
      PyNum.RatioAtMost((current - open) as real, open as real, 0.01);
      PyNum.RatioAtLeast((current - open) as real, open as real, -0.01);
      if rate > 0.01 then 0.005 else if rate < -0.01 then -0.005 else 0.0
    else 0.0
  }

  /** The price the discount applies to: the lower of the current and a positive open price. */
  function ReferencePrice(current: int, open: int): (p: int)
    ensures p <= current
    ensures open > 0 ==> p <= open && (p == current || p == open)
    ensures open <= 0 ==> p == current
  {
    if open > 0 then PyNum.Min(current, open) else current
  }

  /**
   * `calculate_unified_buy_price`: the reference price less a discount
   * between 1 % and 3 %, truncated, and never above a positive tracker
   * price.
   */
  function UnifiedBuyPrice(kospi: real, current: int, open: int, trackerPrice: int): (r: int)
    ensures trackerPrice > 0 ==> r <= trackerPrice
    ensures ReferencePrice(current, open) >= 0 ==> r <= ReferencePrice(current, open)
    ensures var p := ReferencePrice(current, open) as real;
            p >= 0.0 && (trackerPrice <= 0 || trackerPrice as real >= p) ==> 0.97 * p - 1.0 < r as real <= 0.99 * p
  {
    var d := BaseDiscount(kospi) + ExtraDiscount(current, open);
    var reference := ReferencePrice(current, open);
    DiscountedNotAbove(reference, d);
    DiscountBounds(reference, d);
    var calculated := PyNum.Trunc(reference as real * (1.0 - d));
    if trackerPrice > 0 then PyNum.Min(calculated, trackerPrice) else calculated
  }

  /** A non-negative discount never raises a non-negative price. */
  lemma DiscountedNotAbove(p: int, d: real)
    ensures p >= 0 && d >= 0.0 ==> PyNum.Trunc(p as real * (1.0 - d)) <= p
  {
    if p > 0 && d >= 0.0 {
      PyNum.ScaleUp(1.0 - d, 1.0, p as real);
    }
  }

  /** A discount between 1 % and 3 % keeps the truncated price between 97 % and 99 % of a non-negative price. */
  lemma DiscountBounds(p: int, d: real)
    ensures p >= 0 && 0.01 <= d <= 0.03 ==>
              0.97 * p as real - 1.0 < PyNum.Trunc(p as real * (1.0 - d)) as real <= 0.99 * p as real
  {
    var x := p as real * (1.0 - d);
    if p > 0 && 0.01 <= d <= 0.03 {
      DiscountedRange(p as real, 1.0 - d, x);
    } else if p == 0 {
      assert x == 0.0;
    }
  }

  /** A price scaled by a factor between 0.97 and 0.99 truncates to within those fractions of it. */
  lemma DiscountedRange(p: real, f: real, x: real)
    requires p > 0.0 && 0.97 <= f <= 0.99 && x == p * f
    ensures 0.97 * p - 1.0 < PyNum.Trunc(x) as real <= 0.99 * p
  {
    PyNum.ScaleUp(f, 0.99, p);
    PyNum.ScaleUp(0.97, f, p);
    assert 0.97 * p <= x <= 0.99 * p;
  }

  // ---------------------------------------------------------------------
  // Exits
  // ---------------------------------------------------------------------

  /** The return a profit exit asks for in each phase. */
  function TargetProfit(state: TradingState, longTerm: bool, kospi: Option<real>): (r: real)
    ensures r == 0.02 || r == 0.03
    ensures r == 0.03 <==> ((state == Observation && longTerm)
                            || (state == ActiveTrading && kospi.Some? && kospi.value >= -1.5))
  {
    match state
    case Observation => if longTerm then 0.03 else 0.02
    case ActiveTrading => if kospi.Some? && kospi.value >= -1.5 then 0.03 else 0.02
    case _ => 0.02
  }

  /**
   * `should_sell_for_profit`: a positive trade price, a return of at least
   * the phase's target, and, when the day's high is positive, a pull-back
   * of at least 0.5 % from it.
   */
  function ShouldSellForProfit(state: TradingState, longTerm: bool, kospi: Option<real>,
                               current: int, tradePrice: int, high: int): (r: bool)
    ensures r <==> tradePrice > 0
                   && (current - tradePrice) as real >= TargetProfit(state, longTerm, kospi) * tradePrice as real
                   && (high > 0 ==> (high - current) as real >= 0.005 * high as real)
  {
    if tradePrice <= 0 then false
    else
      var target := TargetProfit(state, longTerm, kospi);
      PyNum.RatioAtLeast((current - tradePrice) as real, tradePrice as real, target);
      if (current - tradePrice) as real / tradePrice as real < target then false
      else if high > 0 then
        PyNum.RatioAtLeast((high - current) as real, high as real, 0.005);
        (high - current) as real / high as real >= 0.005
      else true
  }

  /** `should_sell_for_loss`: a positive trade price and a loss of 10 % (long-term) or 5 % (otherwise) or more. */
  function ShouldSellForLoss(longTerm: bool, current: int, tradePrice: int): (r: bool)
    ensures r <==> tradePrice > 0 && (current - tradePrice) as real <= (if longTerm then -0.10 else -0.05) * tradePrice as real
  {
    if tradePrice <= 0 then false
    else
      var target := if longTerm then -0.10 else -0.05;
      PyNum.RatioAtMost((current - tradePrice) as real, tradePrice as real, target);
      (current - tradePrice) as real / tradePrice as real <= target
  }

  /** With a positive trade price, a loss exit and a profit exit never hold together. */
  lemma ExitsExclude(state: TradingState, longTerm: bool, kospi: Option<real>, current: int, tradePrice: int, high: int)
    ensures !(ShouldSellForProfit(state, longTerm, kospi, current, tradePrice, high) && ShouldSellForLoss(longTerm, current, tradePrice))
  {
    if ShouldSellForProfit(state, longTerm, kospi, current, tradePrice, high) {
      assert (current - tradePrice) as real >= 0.02 * tradePrice as real;
    }
  }

  // ---------------------------------------------------------------------
  // Ticks
  // ---------------------------------------------------------------------

  /** The prices of a tick, each `abs(int(...))` of its field, and its execution strength. */
  datatype MarketData = MarketData(stockCode: string, currentPrice: int, openPrice: int, highPrice: int,
                                   lowPrice: int, executionStrength: real)

  /** `values.get(key, "0")`. */
  function FieldText(values: map<string, string>, key: string): string {
    if key in values then values[key] else "0"
  }

  /** `abs(int(values.get(key, "0")))`: None when `int()` rejects the text. */
  function AbsField(values: map<string, string>, key: string): (r: Option<int>)
    ensures r.Some? <==> Decimal.ParseInt(FieldText(values, key)).Some?
    ensures r.Some? ==> r.value >= 0 && (r.value == Decimal.ParseInt(FieldText(values, key)).value
                                         || r.value == -Decimal.ParseInt(FieldText(values, key)).value)
    ensures key !in values ==> r == Some(0)
  {
    var text := FieldText(values, key);
    assert key !in values ==> Decimal.ParseInt(text) == Some(0) by {
      if key !in values {
        Decimal.ParseIntRoundTrip(0);
      }
    }
    var n := Decimal.ParseInt(text);
    if n.None? then None else Some(PyNum.Abs(n.value))
  }

  /** A price written as the decimal text of `n` reads back as its absolute value. */
  lemma PrintedPriceReads(values: map<string, string>, key: string, n: int)
    requires key in values && values[key] == Decimal.IntToStr(n)
    ensures AbsField(values, key) == Some(PyNum.Abs(n))
  {
    Decimal.ParseIntRoundTrip(n);
  }

  /** `float(values.get('228', '0'))`: the execution strength, None when `float()` rejects it. */
  function Strength(values: map<string, string>): (r: Option<real>)
    ensures "228" !in values ==> r == Some(0.0)
  {
    assert "228" !in values ==> Decimal.ParseFloat("0") == Some(0.0) by {
      Decimal.ParseFloatZero();
    }
    Decimal.ParseFloat(FieldText(values, "228"))
  }

  /**
   * The market data `handle_realtime_data` builds from a tick: the code with
   * one leading `A` removed, the current, open, high and low prices of
   * fields 10, 16, 17 and 18 and the strength of field 228. An empty code
   * returns early, and a field that `int()` or `float()` rejects raises
   * inside the handler's `try`, so either way the tick does nothing.
   */
  function ReadMarketData(item: string, values: map<string, string>): (r: Option<MarketData>)
    ensures r.Some? <==> |PyStr.DropA(item)| > 0
                         && AbsField(values, "10").Some? && AbsField(values, "16").Some?
                         && AbsField(values, "17").Some? && AbsField(values, "18").Some?
                         && Strength(values).Some?
    ensures r.Some? ==> r.value == MarketData(PyStr.DropA(item), AbsField(values, "10").value,
                                              AbsField(values, "16").value, AbsField(values, "17").value,
                                              AbsField(values, "18").value, Strength(values).value)
    ensures r.Some? ==> r.value.currentPrice >= 0 && r.value.openPrice >= 0
                        && r.value.highPrice >= 0 && r.value.lowPrice >= 0
  {
    var code := PyStr.DropA(item);
    if |code| == 0 then None
    else
      var c, o, h, l := AbsField(values, "10"), AbsField(values, "16"), AbsField(values, "17"), AbsField(values, "18");
      var strength := Strength(values);
      if c.None? || o.None? || h.None? || l.None? || strength.None? then None
      else Some(MarketData(code, c.value, o.value, h.value, l.value, strength.value))
  }

  /** A tick whose strength field `float()` rejects is dropped, whatever its prices. */
  lemma UnreadableStrengthDropsTick(item: string, values: map<string, string>)
    requires "228" in values && Decimal.ParseFloat(values["228"]).None?
    ensures ReadMarketData(item, values).None?
  {
  }

  /**
   * A tick whose four prices are written as the decimal text of `c`, `o`,
   * `h` and `l`, with no strength field, reads as those prices made
   * non-negative and a strength of 0.
   */
  lemma PrintedTickReads(item: string, values: map<string, string>, c: int, o: int, h: int, l: int)
    requires |PyStr.DropA(item)| > 0 && "228" !in values
    requires "10" in values && values["10"] == Decimal.IntToStr(c)
    requires "16" in values && values["16"] == Decimal.IntToStr(o)
    requires "17" in values && values["17"] == Decimal.IntToStr(h)
    requires "18" in values && values["18"] == Decimal.IntToStr(l)
    ensures ReadMarketData(item, values)
            == Some(MarketData(PyStr.DropA(item), PyNum.Abs(c), PyNum.Abs(o), PyNum.Abs(h), PyNum.Abs(l), 0.0))
  {
    PrintedPriceReads(values, "10", c);
    PrintedPriceReads(values, "16", o);
    PrintedPriceReads(values, "17", h);
    PrintedPriceReads(values, "18", l);
  }

  /**
   * `validate_market_data` as written: the first required field is the
   * stock code, and comparing that string with 0 raises a TypeError, which
   * ends the handler.
   */
  function ValidateMarketDataAsWritten(m: MarketData): (r: Result<bool, string>)
    ensures r.Failure?
  {
    Failure("TypeError: '<=' not supported between instances of 'str' and 'int'")
  }

  /** `validate_market_data` as meant: every required price is positive. */
  function ValidateMarketData(m: MarketData): (r: bool)
    ensures r <==> m.currentPrice > 0 && m.openPrice > 0 && m.highPrice > 0 && m.lowPrice > 0
  {
    m.currentPrice > 0 && m.openPrice > 0 && m.highPrice > 0 && m.lowPrice > 0
  }

  /** A perfectly good tick is rejected by the written check and accepted by the meant one. */
  lemma WrittenValidationRejectsGoodTicks(m: MarketData)
    requires m.currentPrice > 0 && m.openPrice > 0 && m.highPrice > 0 && m.lowPrice > 0
    ensures ValidateMarketDataAsWritten(m).Failure? && ValidateMarketData(m)
  {
  }

  // ---------------------------------------------------------------------
  // The handler
  // ---------------------------------------------------------------------

  /** The long-term buy plan of a code; the fields of an absent plan read as 0. */
  datatype LongPlan = LongPlan(buyPrice: int, buyQty: int)

  /** The handler's lists and the index value it works with. */
  datatype Handler = Handler(
    kospi: real,
    holding: seq<string>,
    tradeDone: seq<string>,
    longCodes: seq<string>,
    longData: map<string, LongPlan>)

  /** The tracker fields the handler reads, each 0 when absent. */
  datatype TrackerView = TrackerView(tradePrice: int, qtyToSell: int, qtyToBuy: int, priceToBuy: int)

  datatype SellReason = TakeProfit | StopLoss

  datatype Order = NoOrder | SellOrder(qty: int, reason: SellReason) | BuyOrder(qty: int, price: int)

  /**
   * The sell logic shared by the three phases: nothing without tracker data,
   * a positive trade price and a positive sell quantity; then the profit
   * exit before the loss exit. The observation and active phases pass the
   * index to the profit rule, the conservative phase does not.
   */
  function SellLogic(h: Handler, state: TradingState, m: MarketData, view: Option<TrackerView>): (r: Order)
    ensures r.SellOrder? ==> view.Some? && view.value.tradePrice > 0 && r.qty == view.value.qtyToSell > 0
    ensures r.SellOrder? && r.reason == StopLoss ==>
              ShouldSellForLoss(m.stockCode in h.longCodes, m.currentPrice, view.value.tradePrice)
    ensures r.SellOrder? && r.reason == TakeProfit ==>
              (m.currentPrice - view.value.tradePrice) as real >= 0.02 * view.value.tradePrice as real
    ensures !r.BuyOrder?
  {
    if view.None? || view.value.tradePrice <= 0 || view.value.qtyToSell <= 0 then NoOrder
    else
      var v := view.value;
      var longTerm := m.stockCode in h.longCodes;
      var kospi := if state == Conservative then None else Some(h.kospi);
      if ShouldSellForProfit(state, longTerm, kospi, m.currentPrice, v.tradePrice, m.highPrice) then
        SellOrder(v.qtyToSell, TakeProfit)
      else if ShouldSellForLoss(longTerm, m.currentPrice, v.tradePrice) then
        SellOrder(v.qtyToSell, StopLoss)
      else NoOrder
  }

  /** `emergency_buy_logic`: at or below the plan's positive price, once a day. */
  function EmergencyBuy(h: Handler, m: MarketData): (r: Order)
    ensures r.BuyOrder? <==>
              var p := if m.stockCode in h.longData then h.longData[m.stockCode] else LongPlan(0, 0);
              p.buyPrice > 0 && p.buyQty > 0 && m.currentPrice <= p.buyPrice && m.stockCode !in h.tradeDone
    ensures r.BuyOrder? ==> r == BuyOrder(h.longData[m.stockCode].buyQty, h.longData[m.stockCode].buyPrice)
    ensures !r.SellOrder?
  {
    var p := if m.stockCode in h.longData then h.longData[m.stockCode] else LongPlan(0, 0);
    if p.buyPrice <= 0 || p.buyQty <= 0 then NoOrder
    else if m.currentPrice <= p.buyPrice && m.stockCode !in h.tradeDone then BuyOrder(p.buyQty, p.buyPrice)
    else NoOrder
  }

  /**
   * `active_buy_logic`: blocked when the index is down 3 % or more, for a
   * code outside the long-term list or already traded today, and without
   * tracker data or a positive buy quantity; otherwise a buy at the unified
   * price when the current price is at or below it and within 2 % of a
   * positive low.
   */
  function ActiveBuy(h: Handler, m: MarketData, view: Option<TrackerView>): (r: Order)
    ensures r.BuyOrder? <==>
              h.kospi > -3.0 && m.stockCode in h.longCodes && m.stockCode !in h.tradeDone && view.Some?
              && view.value.qtyToBuy > 0
              && m.currentPrice <= UnifiedBuyPrice(h.kospi, m.currentPrice, m.openPrice, view.value.priceToBuy)
              && m.lowPrice > 0 && 100 * m.currentPrice <= 102 * m.lowPrice
    ensures r.BuyOrder? ==>
              r == BuyOrder(view.value.qtyToBuy, UnifiedBuyPrice(h.kospi, m.currentPrice, m.openPrice, view.value.priceToBuy))
    ensures !r.SellOrder?
  {
    if h.kospi <= -3.0 || m.stockCode !in h.longCodes || m.stockCode in h.tradeDone || view.None? then NoOrder
    else if view.value.qtyToBuy <= 0 then NoOrder
    else
      var price := UnifiedBuyPrice(h.kospi, m.currentPrice, m.openPrice, view.value.priceToBuy);
      if m.currentPrice <= price then
        if m.lowPrice > 0 && m.currentPrice as real <= m.lowPrice as real * 1.02 then BuyOrder(view.value.qtyToBuy, price)
        else NoOrder
      else NoOrder
  }

  /** `conservative_buy_logic`: only at or below a positive tracker buy price, once a day, for a long-term code. */
  function ConservativeBuy(h: Handler, m: MarketData, view: Option<TrackerView>): (r: Order)
    ensures r.BuyOrder? <==>
              m.stockCode in h.longCodes && m.stockCode !in h.tradeDone && view.Some?
              && view.value.qtyToBuy > 0 && view.value.priceToBuy > 0 && m.currentPrice <= view.value.priceToBuy
    ensures r.BuyOrder? ==> r == BuyOrder(view.value.qtyToBuy, view.value.priceToBuy)
    ensures !r.SellOrder?
  {
    if m.stockCode !in h.longCodes || m.stockCode in h.tradeDone || view.None? then NoOrder
    else if view.value.qtyToBuy <= 0 || view.value.priceToBuy <= 0 then NoOrder
    else if m.currentPrice <= view.value.priceToBuy then BuyOrder(view.value.qtyToBuy, view.value.priceToBuy)
    else NoOrder
  }

  /** The phase dispatch: holdings go to the sell logic, the rest to the phase's buy logic. */
  function Strategy(h: Handler, state: TradingState, m: MarketData, view: Option<TrackerView>): (r: Order)
    ensures r.SellOrder? ==> m.stockCode in h.holding && state != Inactive
    ensures r.BuyOrder? ==> m.stockCode !in h.holding && m.stockCode !in h.tradeDone && state != Inactive
    ensures r.BuyOrder? && state != Observation ==> m.stockCode in h.longCodes
    ensures state == Inactive ==> r == NoOrder
  {
    match state
    case Observation =>
      if m.stockCode in h.holding then SellLogic(h, state, m, view)
      else if h.kospi <= -3.0 && m.stockCode in h.longData then EmergencyBuy(h, m)
      else NoOrder
    case ActiveTrading =>
      if m.stockCode in h.holding then SellLogic(h, state, m, view) else ActiveBuy(h, m, view)
    case Conservative =>
      if m.stockCode in h.holding then SellLogic(h, state, m, view) else ConservativeBuy(h, m, view)
    case Inactive => NoOrder
  }

  /** Python's `list.remove`: drops the first occurrence. */
  function RemoveFirst(s: seq<string>, x: string): (r: seq<string>)
    ensures x !in s ==> r == s
    ensures x in s ==> |r| == |s| - 1 && multiset(r) == multiset(s) - multiset{x}
  {
    if |s| == 0 then []
    else if s[0] == x then
      assert s == [s[0]] + s[1..];
      s[1..]
    else
      var rest := RemoveFirst(s[1..], x);
      assert s == [s[0]] + s[1..];
      [s[0]] + rest
  }

  /** Removing what was just appended restores the list. */
  lemma {:induction false} RemoveFirstAppended(s: seq<string>, x: string)
    requires x !in s
    ensures RemoveFirst(s + [x], x) == s
  {
    if |s| > 0 {
      assert (s + [x])[1..] == s[1..] + [x];
      RemoveFirstAppended(s[1..], x);
      assert s == [s[0]] + s[1..];
    }
  }

  lemma RemoveAppendedWhenAbsent(s: seq<string>, x: string)
    ensures x !in s ==> RemoveFirst(s + [x], x) == s
  {
    if x !in s {
      RemoveFirstAppended(s, x);
    }
  }

  /**
   * `execute_sell_order`: the code leaves the holdings before the order is
   * sent; when the order call fails it is appended again if no longer held.
   */
  function AfterSell(holding: seq<string>, code: string, sent: bool): (r: seq<string>)
    ensures sent ==> r == RemoveFirst(holding, code)
    ensures !sent ==> code in r && forall x :: x in holding ==> x in r
  {
    var h := RemoveFirst(holding, code);
    assert forall x :: x in holding && x != code ==> x in h by {
      forall x | x in holding && x != code ensures x in h {
        if code in holding {
          assert x in multiset(holding);
          assert x in multiset(h);
        }
      }
    }
    if sent then h else if code in h then h else h + [code]
  }

  /**
   * The buy side: the code joins the traded list before the order is sent
   * and leaves it again (its first occurrence) when the order call fails.
   */
  function AfterBuy(tradeDone: seq<string>, code: string, sent: bool): (r: seq<string>)
    ensures sent ==> r == tradeDone + [code]
    ensures !sent && code !in tradeDone ==> r == tradeDone
  {
    var d := tradeDone + [code];
    if sent then d
    else
      RemoveAppendedWhenAbsent(tradeDone, code);
      RemoveFirst(d, code)
  }

  /**
   * `handle_realtime_data` from a validated tick: the phase's order and the
   * lists after it, where `sent` says whether the order call returned.
   */
  function HandleTick(h: Handler, t: int, m: MarketData, view: Option<TrackerView>, sent: bool): (r: (Order, Handler))
    ensures r.0 == (if ValidateMarketData(m) then Strategy(h, DetermineTradingState(t), m, view) else NoOrder)
    ensures r.0.NoOrder? ==> r.1 == h
    ensures r.0.BuyOrder? ==> r.1 == h.(tradeDone := if sent then h.tradeDone + [m.stockCode] else h.tradeDone)
    ensures r.0.SellOrder? ==> r.1 == h.(holding := AfterSell(h.holding, m.stockCode, sent))
    ensures r.0.SellOrder? && !sent ==> m.stockCode in r.1.holding
  {
    if !ValidateMarketData(m) then (NoOrder, h)
    else
      var order := Strategy(h, DetermineTradingState(t), m, view);
      match order
      case NoOrder => (order, h)
      case BuyOrder(_, _) => (order, h.(tradeDone := AfterBuy(h.tradeDone, m.stockCode, sent)))
      case SellOrder(_, _) => (order, h.(holding := AfterSell(h.holding, m.stockCode, sent)))
  }

  /** A code bought once is not bought again the same day, whatever the next tick says. */
  lemma NoSecondBuy(h: Handler, t: int, m: MarketData, view: Option<TrackerView>,
                    t2: int, m2: MarketData, view2: Option<TrackerView>, sent2: bool)
    requires m2.stockCode == m.stockCode
    requires HandleTick(h, t, m, view, true).0.BuyOrder?
    ensures !HandleTick(HandleTick(h, t, m, view, true).1, t2, m2, view2, sent2).0.BuyOrder?
  {
  }
  // ---------------------------------------------------------------------
  // Where the tracker view comes from
  // ---------------------------------------------------------------------

  /**
   * The view as written: every sell and buy logic reads `get_price_info`,
   * whose dictionary holds the trade price but no `qty_to_sell`,
   * `qty_to_buy` or `price_to_buy`, so `.get(key, 0)` reads each of them
   * as 0. A missing dictionary is no view.
   */
  function PriceInfoView(info: Option<PriceTracker.PriceInfo>): (v: Option<TrackerView>)
    ensures v.Some? <==> info.Some?
    ensures v.Some? ==> v.value.tradePrice == info.value.tradePrice
    ensures v.Some? ==> v.value.qtyToSell == 0 && v.value.qtyToBuy == 0 && v.value.priceToBuy == 0
  {
    if info.None? then None else Some(TrackerView(info.value.tradePrice, 0, 0, 0))
  }

  /**
   * The view as meant: the full record of `get_tracking_data`, which holds
   * the trade price and both quantities. The record stores no buy price,
   * so `price_to_buy` still reads as 0; an empty answer is no view.
   */
  function TrackingView(t: Option<PriceTracker.Tracking>): (v: Option<TrackerView>)
    ensures v.Some? <==> t.Some?
    ensures v.Some? ==> v.value.tradePrice == t.value.tradePrice && v.value.qtyToSell == t.value.qtyToSell
                        && v.value.qtyToBuy == t.value.qtyToBuy && v.value.priceToBuy == 0
  {
    if t.None? then None else Some(TrackerView(t.value.tradePrice, t.value.qtyToSell, t.value.qtyToBuy, 0))
  }

  /**
   * A view without quantities stops the sell logic and both tracker-driven
   * buys, leaving only the emergency buy of the observation phase.
   */
  lemma NoQuantityNoTrackerOrder(h: Handler, state: TradingState, m: MarketData, view: Option<TrackerView>)
    requires view.Some? ==> view.value.qtyToSell == 0 && view.value.qtyToBuy == 0
    ensures SellLogic(h, state, m, view) == NoOrder
    ensures ActiveBuy(h, m, view) == NoOrder
    ensures ConservativeBuy(h, m, view) == NoOrder
    ensures Strategy(h, state, m, view) != NoOrder ==> state == Observation && Strategy(h, state, m, view) == EmergencyBuy(h, m)
  {
  }

  /**
   * The handler with the view as written (and the validation as meant):
   * it never sells, and its only buy is the emergency buy of the
   * observation phase.
   */
  function HandleTickOnPriceInfo(h: Handler, t: int, m: MarketData, db: PriceTracker.Redis, sent: bool)
    : (r: (Order, Handler))
    ensures !r.0.SellOrder?
    ensures r.0.BuyOrder? ==> DetermineTradingState(t) == Observation && r.0 == EmergencyBuy(h, m)
    ensures r.0.NoOrder? ==> r.1 == h
  {
    var view := PriceInfoView(PriceTracker.GetPriceInfo(db, m.stockCode));
    NoQuantityNoTrackerOrder(h, DetermineTradingState(t), m, view);
    HandleTick(h, t, m, view, sent)
  }

  /**
   * The handler with the view as meant: a sell is of the tracker's whole
   * quantity to sell, an active buy is of its quantity to buy, and no
   * conservative buy happens, since no buy price is stored.
   */
  function HandleTickOnTracking(h: Handler, t: int, m: MarketData, db: PriceTracker.Redis, sent: bool)
    : (r: (Order, Handler))
    ensures var tr := PriceTracker.GetTrackingData(db, m.stockCode);
            r.0.SellOrder? ==> tr.Some? && tr.value.tradePrice > 0 && r.0.qty == tr.value.qtyToSell > 0
    ensures var tr := PriceTracker.GetTrackingData(db, m.stockCode);
            r.0.BuyOrder? && DetermineTradingState(t) == ActiveTrading ==> tr.Some? && r.0.qty == tr.value.qtyToBuy > 0
    ensures r.0.BuyOrder? ==> DetermineTradingState(t) != Conservative
    ensures r.0.NoOrder? ==> r.1 == h
  {
    HandleTick(h, t, m, TrackingView(PriceTracker.GetTrackingData(db, m.stockCode)), sent)
  }

  /**
   * The difference: a held stock whose tracker has a positive trade price
   * and shares to sell, ticking past its stop-loss, is sold when the view
   * is the tracker's record and kept when it is `get_price_info`.
   */
  lemma StopLossNeedsTheRecord(h: Handler, t: int, m: MarketData, db: PriceTracker.Redis, sent: bool)
    requires ValidateMarketData(m) && DetermineTradingState(t) != Inactive && m.stockCode in h.holding
    requires var tr := PriceTracker.GetTrackingData(db, m.stockCode);
             tr.Some? && tr.value.tradePrice > 0 && tr.value.qtyToSell > 0
             && ShouldSellForLoss(m.stockCode in h.longCodes, m.currentPrice, tr.value.tradePrice)
    ensures HandleTickOnPriceInfo(h, t, m, db, sent).0 == NoOrder
    ensures HandleTickOnTracking(h, t, m, db, sent).0.SellOrder?
  {
    var tr := PriceTracker.GetTrackingData(db, m.stockCode).value;
    var view := TrackingView(Some(tr));
    assert SellLogic(h, DetermineTradingState(t), m, view).SellOrder?;
  }
}
