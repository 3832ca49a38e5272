/**
 * The older signal strategy kept among the backups: a price-position
 * analysis against the baseline band, a strength-momentum analysis of the
 * execution strengths, a first-rule-wins decision table and the gate that
 * forwards only signals of strength 70 or more to execution.
 */
module BackupStrategy {
  import opened Wrappers
  import PyNum
  import BaselineCacheModel

  // ---------------------------------------------------------------------
  // Price position
  // ---------------------------------------------------------------------

  datatype PriceZone = BuyStrongZone | BuyZone | NeutralZone | SellZone | SellStrongZone

  /** The analysis `calculate_price_position` returns when it does not fail. */
  datatype PricePosition = PricePosition(
    position: real,
    zone: PriceZone,
    currentToDecision: real,
    currentToLow: real,
    highToCurrent: real,
    openToDecision: real)

  /** The band zone of a clamped position: cut at 0.1, 0.3, 0.7 and 0.9, each bound inclusive. */
  function ZoneOf(position: real): (z: PriceZone)
    ensures z == BuyStrongZone <==> position <= 0.1
    ensures z == BuyZone <==> 0.1 < position <= 0.3
    ensures z == NeutralZone <==> 0.3 < position <= 0.7
    ensures z == SellZone <==> 0.7 < position <= 0.9
    ensures z == SellStrongZone <==> 0.9 < position
  {
    if position <= 0.1 then BuyStrongZone
    else if position <= 0.3 then BuyZone
    else if position <= 0.7 then NeutralZone
    else if position <= 0.9 then SellZone
    else SellStrongZone
  }

  /** `(a - b) / b * 100` with Python's division by zero turned into a failure. */
  function PctOrFail(a: int, b: int): (r: Option<real>)
    ensures r.Some? <==> b != 0
    ensures r.Some? ==> r.value * b as real == (a - b) as real * 100.0
  {
    if b == 0 then None else Some(PyNum.PctChange(a as real, b as real))
  }

  /**
   * `calculate_price_position`: a failure when the band is empty or
   * inverted, or when one of the ratios divides by zero (the decision
   * price, the low price or the current price being 0); otherwise the
   * position of the price in the band, clamped to [0, 1], and its zone.
   */
  function CalculatePricePosition(current: int, open: int, low: int, high: int, decision: int)
    : (r: Result<PricePosition, string>)
    ensures r.Success? <==> high - low > 0 && decision != 0 && low != 0 && current != 0
    ensures r.Success? ==> var p := r.value.position;
              0.0 <= p <= 1.0
              && (current <= low ==> p == 0.0)
              && (current >= high ==> p == 1.0)
              && (low < current < high ==> p * (high - low) as real == (current - low) as real)
              && r.value.zone == ZoneOf(p)
  {
    var range := high - low;
    if range <= 0 then Failure("invalid price range")
    else
      var raw := (current - low) as real / range as real;
      PyNum.DivFacts((current - low) as real, range as real);
      var position := PyNum.MaxReal(0.0, PyNum.MinReal(1.0, raw));
      var toDecision := PctOrFail(current, decision);
      var toLow := PctOrFail(current, low);
      var highToCurrent := PctOrFail(high, current);
      var openToDecision := PctOrFail(open, decision);
      if toDecision.None? || toLow.None? || highToCurrent.None? || openToDecision.None? then
        Failure("division by zero")
      else
        Success(PricePosition(position, ZoneOf(position), toDecision.value, toLow.value,
                              highToCurrent.value, openToDecision.value))
  }

  // ---------------------------------------------------------------------
  // Strength momentum
  // ---------------------------------------------------------------------

  datatype StrengthLevel = VeryStrong | Strong | Normal | Weak | VeryWeak

  /** `get_strength_level`: thresholds 200, 150, 120 and 80, each inclusive. */
  function LevelOf(strength: real): (l: StrengthLevel)
    ensures l == VeryStrong <==> strength >= 200.0
    ensures l == Strong <==> 150.0 <= strength < 200.0
    ensures l == Normal <==> 120.0 <= strength < 150.0
    ensures l == Weak <==> 80.0 <= strength < 120.0
    ensures l == VeryWeak <==> strength < 80.0
  {
    if strength >= 200.0 then VeryStrong
    else if strength >= 150.0 then Strong
    else if strength >= 120.0 then Normal
    else if strength >= 80.0 then Weak
    else VeryWeak
  }

  function LevelRank(l: StrengthLevel): nat {
    match l
    case VeryWeak => 0
    case Weak => 1
    case Normal => 2
    case Strong => 3
    case VeryStrong => 4
  }

  /** A stronger execution never gets a weaker level. */
  lemma LevelIsMonotone(a: real, b: real)
    requires a <= b
    ensures LevelRank(LevelOf(a)) <= LevelRank(LevelOf(b))
  {
  }

  datatype Trend = StrongRising | Rising | Recovering | Stable | Correcting | Falling | StrongFalling

  predicate Upward(t: Trend) {
    t == StrongRising || t == Rising || t == Recovering
  }

  predicate Downward(t: Trend) {
    t == StrongFalling || t == Falling || t == Correcting
  }

  /**
   * `get_trend_direction` over the one-minute (short), five-minute (long)
   * and day strengths. The recovering and correcting branches come after
   * branches whose conditions they imply, so they are never taken.
   */
  function TrendOf(short: real, long: real, day: real): (t: Trend)
    ensures t != Recovering && t != Correcting
    ensures t == StrongRising <==> short > long > day && short - long > 20.0
    ensures Upward(t) <==> short > long || (long > day && long - day > 10.0)
    ensures t == StrongFalling <==> !Upward(t) && short < long < day && short - long < -20.0
    ensures Downward(t) <==> !Upward(t) && (short < long || (long < day && long - day < -10.0))
    ensures t == Stable <==> short == long && -10.0 <= long - day <= 10.0
  {
    if short > long > day && short - long > 20.0 then StrongRising
    else if short > long || (long > day && long - day > 10.0) then Rising
    else if short < long < day && short - long < -20.0 then StrongFalling
    else if short < long || (long < day && long - day < -10.0) then Falling
    else if short > long > day && short - long > 15.0 then Recovering
    else if short < long < day && short - long < -15.0 then Correcting
    else Stable
  }

  /** The momentum weight of each trend. */
  function Weight(t: Trend): real {
    match t
    case StrongRising => 1.3
    case Rising => 1.15
    case Recovering => 1.1
    case Stable => 1.0
    case Correcting => 0.9
    case Falling => 0.85
    case StrongFalling => 0.7
  }

  datatype StrengthAnalysis = StrengthAnalysis(
    level: StrengthLevel,
    trend: Trend,
    shortTrend: real,
    longTrend: real,
    dayTrend: real,
    strengthScore: real,
    momentumScore: real,
    overallScore: real)

  /**
   * `analyze_strength_momentum`: the level of the one-minute strength, the
   * trend, a strength score capped at 100 and a momentum score clamped to
   * [0, 100] around 50, moved by the weighted change from the day strength
   * to the one-minute strength.
   */
  function AnalyzeStrength(day: real, short: real, long: real): (r: StrengthAnalysis)
    ensures r.level == LevelOf(short) && r.trend == TrendOf(short, long, day)
    ensures r.shortTrend == short && r.longTrend == long && r.dayTrend == day
    ensures r.strengthScore <= 100.0 && (r.strengthScore == 100.0 || r.strengthScore * 2.0 == short)
    ensures 0.0 <= r.momentumScore <= 100.0
    ensures short == day ==> r.momentumScore == 50.0
    ensures r.overallScore * 2.0 == r.strengthScore + r.momentumScore
  {
    var trend := TrendOf(short, long, day);
    var strengthScore := PyNum.MinReal(100.0, short / 200.0 * 100.0);
    var raw := (short - long) + (long - day);
    var weighted := raw * Weight(trend);
    var momentumScore := PyNum.MinReal(100.0, PyNum.MaxReal(0.0, 50.0 + weighted));
    StrengthAnalysis(LevelOf(short), trend, short, long, day, strengthScore, momentumScore,
                     (strengthScore + momentumScore) / 2.0)
  }

  // ---------------------------------------------------------------------
  // Decision
  // ---------------------------------------------------------------------

  datatype TradingAction = BuyStrong | BuyWeak | Hold | SellWeak | SellStrong

  datatype Signal = Signal(action: TradingAction, strength: int, quantity: int, priceTarget: Option<int>)

  /**
   * The confidence-band figures the decision reads with a default of 0:
   * the return against the decision price and the distances to the low and
   * high prices.
   */
  datatype Band = Band(decisionReturn: real, distanceToLow: real, distanceToHigh: real)

  /** The price analysis carries none of the band keys, so every read gives the default. */
  function BandOf(p: PricePosition): Band
  {
    Band(0.0, 0.0, 0.0)
  }

  predicate ConfidentBuy(b: Band, s: StrengthAnalysis) {
    -1.5 <= b.decisionReturn <= 1.5 && b.distanceToLow > 3.0 && Upward(s.trend)
  }

  predicate ConfidentSell(b: Band, s: StrengthAnalysis) {
    -1.5 <= b.decisionReturn <= 1.5 && !(b.distanceToLow > 3.0 && Upward(s.trend))
    && b.distanceToHigh < -3.0 && Downward(s.trend)
  }

  predicate StrongBuy(p: PricePosition, s: StrengthAnalysis) {
    p.position <= 0.5 && s.shortTrend >= 200.0 && Upward(s.trend)
  }

  predicate WeakBuy(s: StrengthAnalysis) {
    s.shortTrend >= 150.0 && s.longTrend >= 150.0 && s.trend == StrongRising
  }

  predicate StrongSell(p: PricePosition, s: StrengthAnalysis) {
    p.position >= 0.5 && s.shortTrend <= 70.0 && Downward(s.trend)
  }

  predicate WeakSell(s: StrengthAnalysis) {
    s.shortTrend <= 70.0 && s.longTrend <= 70.0 && s.trend == StrongFalling
  }

  /**
   * `_decide_trading_action` for given band figures: the rules are tried in
   * order, the `trade_done` flag lets only the first that holds produce the
   * signal, and with none it is HOLD of strength 10 and quantity 0.
   */
  function DecideWith(b: Band, current: int, quantity: int, p: PricePosition, s: StrengthAnalysis): (r: Signal)
    ensures r.priceTarget == Some(current)
    ensures r.strength == 95 <==> ConfidentBuy(b, s) || ConfidentSell(b, s)
    ensures r.action == Hold <==>
              !(ConfidentBuy(b, s) || ConfidentSell(b, s) || StrongBuy(p, s) || WeakBuy(s) || StrongSell(p, s) || WeakSell(s))
    ensures r.action == Hold <==> r.quantity == 0 && r.strength == 10
    ensures r.action != Hold ==> r.quantity == quantity && r.strength >= 80
    ensures r.action == SellWeak ==> WeakSell(s) && !StrongBuy(p, s) && !WeakBuy(s) && !StrongSell(p, s)
  {
    if ConfidentBuy(b, s) then Signal(BuyStrong, 95, quantity, Some(current))
    else if ConfidentSell(b, s) then Signal(SellStrong, 95, quantity, Some(current))
    else if StrongBuy(p, s) then Signal(BuyStrong, 90, quantity, Some(current))
    else if WeakBuy(s) then Signal(BuyWeak, 80, quantity, Some(current))
    else if StrongSell(p, s) then Signal(SellStrong, 90, quantity, Some(current))
    else if WeakSell(s) then Signal(SellWeak, 80, quantity, Some(current))
    else Signal(Hold, 10, 0, Some(current))
  }

  /** The decision as the strategy runs it, on the band figures its price analysis provides. */
  function Decide(current: int, quantity: int, p: PricePosition, s: StrengthAnalysis): (r: Signal)
    ensures r == DecideWith(BandOf(p), current, quantity, p, s)
    ensures r.strength != 95
  {
    DecideWith(BandOf(p), current, quantity, p, s)
  }

  /**
   * `generate_trading_signal`: HOLD of strength 0 when the price analysis
   * fails, otherwise the decision over both analyses.
   */
  function GenerateSignal(current: int, open: int, decision: int, low: int, high: int, quantity: int,
                          day: real, short: real, long: real): (r: Signal)
    ensures CalculatePricePosition(current, open, low, high, decision).Failure? ==>
              r == Signal(Hold, 0, 0, None)
    ensures CalculatePricePosition(current, open, low, high, decision).Success? ==>
              r == Decide(current, quantity, CalculatePricePosition(current, open, low, high, decision).value,
                          AnalyzeStrength(day, short, long))
  {
    var p := CalculatePricePosition(current, open, low, high, decision);
    if p.Failure? then Signal(Hold, 0, 0, None)
    else Decide(current, quantity, p.value, AnalyzeStrength(day, short, long))
  }

  // ---------------------------------------------------------------------
  // Opportunity check and the execution gate
  // ---------------------------------------------------------------------

  predicate Truthy(x: Option<int>) {
    x.Some? && x.value != 0
  }

  /** The latest tick and the two strength averages of the analysis, with absent strengths read as 0. */
  datatype Market = Market(currentPrice: Option<int>, dayStrength: real, oneMinuteStrength: real, fiveMinuteStrength: real)

  /**
   * `check_trading_opportunity`: the cached entry at the stock's last step
   * must exist with every price and the quantity non-zero, and the current
   * price must be present and positive; then the strategy's signal.
   */
  function CheckOpportunity(c: BaselineCacheModel.Cache, code: string, m: Market): (r: Option<Signal>)
    ensures r.Some? ==>
              var e := BaselineCacheModel.GetBaselineInfo(c, code, BaselineCacheModel.GetLastStep(c, code));
              e.Some? && Truthy(e.value.decisionPrice) && Truthy(e.value.quantity) && Truthy(e.value.openPrice)
              && Truthy(e.value.lowPrice) && Truthy(e.value.highPrice)
              && m.currentPrice.Some? && m.currentPrice.value > 0
    ensures r.Some? ==>
              var e := BaselineCacheModel.GetBaselineInfo(c, code, BaselineCacheModel.GetLastStep(c, code)).value;
              r.value == GenerateSignal(m.currentPrice.value, e.openPrice.value, e.decisionPrice.value,
                                        e.lowPrice.value, e.highPrice.value, e.quantity.value,
                                        m.dayStrength, m.oneMinuteStrength, m.fiveMinuteStrength)
  {
    var e := BaselineCacheModel.GetBaselineInfo(c, code, BaselineCacheModel.GetLastStep(c, code));
    if e.None? then None
    else
      var b := e.value;
      if !(Truthy(b.decisionPrice) && Truthy(b.quantity) && Truthy(b.openPrice)
           && Truthy(b.lowPrice) && Truthy(b.highPrice)) then None
      else if m.currentPrice.None? || m.currentPrice.value <= 0 then None
      else
        Some(GenerateSignal(m.currentPrice.value, b.openPrice.value, b.decisionPrice.value,
                            b.lowPrice.value, b.highPrice.value, b.quantity.value,
                            m.dayStrength, m.oneMinuteStrength, m.fiveMinuteStrength))
  }

  /** `process_trading_signals` forwards a signal to execution only at strength 70 or more. */
  predicate Forwarded(r: Option<Signal>) {
    r.Some? && r.value.strength >= 70
  }

  /**
   * Exactly the trading signals reach execution: every BUY or SELL the
   * strategy produces is strong enough, and no HOLD is.
   */
  lemma ForwardedExactlyWhenActing(c: BaselineCacheModel.Cache, code: string, m: Market)
    ensures var r := CheckOpportunity(c, code, m);
            Forwarded(r) <==> r.Some? && r.value.action != Hold
  {
    var r := CheckOpportunity(c, code, m);
    if r.Some? {
      var e := BaselineCacheModel.GetBaselineInfo(c, code, BaselineCacheModel.GetLastStep(c, code)).value;
      var p := CalculatePricePosition(m.currentPrice.value, e.openPrice.value, e.lowPrice.value,
                                      e.highPrice.value, e.decisionPrice.value);
      if p.Success? {
        var s := AnalyzeStrength(m.dayStrength, m.oneMinuteStrength, m.fiveMinuteStrength);
        assert r.value == DecideWith(BandOf(p.value), m.currentPrice.value, e.quantity.value, p.value, s);
      }
    }
  }
}
