/**
 * The variant of the smart-trading service kept beside it at the top of the
 * repository: the same zones, thresholds and condition checks, but without
 * the first-error timer. Missing analysis data is simply a NEUTRAL signal.
 */
module SmartTradingVariant {
  import opened Wrappers
  import PriceTracker
  import opened SmartTrading

  /**
   * `generate_trading_signal` of the variant: the daily limit first, then
   * NEUTRAL without analysis data, then the shared zone dispatch.
   */
  function GenerateSignal(s: Store, code: string, t: int, analysis: Option<Analysis>,
                          tracking: Option<PriceTracker.Tracking>, recent: seq<int>): (r: (Signal, Store))
    ensures r.0.zone == ZoneAt(t) && Carries(r.0, PositionOf(tracking))
    ensures DailyCount(s, code) >= 1 || analysis.None? ==> r.0.action == Neutral && r.1 == s
    ensures r.0.action == Buy ==> r.0.zone == GapTrading || r.0.zone == MainTrading
    ensures r.0.zone == ForceSell && analysis.Some? && DailyCount(s, code) < 1 ==>
              (r.0.action == Sell <==> PositionOf(tracking).qtyToSell > 0)
    ensures r.1.counts == s.counts
  {
    var zone := ZoneAt(t);
    if DailyCount(s, code) >= 1 then (Signal(Neutral, 0, zone), s)
    else if analysis.None? then (Signal(Neutral, 0, zone), s)
    else ZoneSignal(zone, analysis.value, PositionOf(tracking), recent, s, code)
  }

  /** `execute_trade_order` of the variant: the same gate after its own signal. */
  function ExecuteTradeOrder(s: Store, code: string, t: int, analysis: Option<Analysis>,
                             tracking: Option<PriceTracker.Tracking>, recent: seq<int>,
                             price: Option<PriceTracker.PriceInfo>, accepted: bool): (r: (bool, Store))
    ensures r.0 ==> analysis.Some? && DailyCount(s, code) < 1 && accepted
    ensures DailyCount(r.1, code) == DailyCount(s, code) + (if r.0 then 1 else 0)
    ensures !r.0 ==> r.1 == GenerateSignal(s, code, t, analysis, tracking, recent).1
  {
    var (sig, s') := GenerateSignal(s, code, t, analysis, tracking, recent);
    Place(sig, price, accepted, s', code)
  }

  /**
   * With analysis data in hand the variant and the service emit the same
   * signal and leave today's keys alike; they differ only in the service's
   * error timer.
   */
  lemma AgreesWithServiceOnData(st: State, code: string, t: int, now: real, a: Analysis,
                                tracking: Option<PriceTracker.Tracking>, recent: seq<int>)
    ensures var v := GenerateSignal(st.store, code, t, Some(a), tracking, recent);
            var w := SmartTrading.GenerateSignal(st, code, t, now, Some(a), tracking, recent);
            v.0 == w.0 && v.1 == w.1.store
  {
  }

  /**
   * Without analysis data, a stock whose data has been failing for five
   * minutes is sold by the service but only held by the variant.
   */
  lemma ServiceAloneSellsOnStaleData(st: State, code: string, t: int, now: real,
                                     tracking: Option<PriceTracker.Tracking>, recent: seq<int>)
    requires DailyCount(st.store, code) < 1
    requires code in st.errors && now - st.errors[code] >= 300.0
    requires tracking.Some? && tracking.value.qtyToSell > 0
    ensures SmartTrading.GenerateSignal(st, code, t, now, None, tracking, recent).0.action == Sell
    ensures GenerateSignal(st.store, code, t, None, tracking, recent).0.action == Neutral
  {
  }
}
