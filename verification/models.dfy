/**
 * The two persisted records of the trading service: a baseline (one
 * planned step of a stock, with its decision price and expected price
 * band) and a step manager (the running state of a stock's trades,
 * whose trade prices live in a JSON text column).
 */
module Models {
  import opened Wrappers
  import PriceListJson

  datatype BaseLine = BaseLine(
    stockCode: string,
    step: int,
    decisionPrice: int,
    quantity: int,
    lowPrice: Option<int>,
    highPrice: Option<int>)
  {
    /** `price_range`: the width of the expected band when both ends are known. */
    function PriceRange(): (r: Option<int>)
      ensures r.Some? <==> lowPrice.Some? && highPrice.Some?
      ensures r.Some? ==> lowPrice.value + r.value == highPrice.value
    {
      if highPrice.Some? && lowPrice.Some? then Some(highPrice.value - lowPrice.value) else None
    }

    /** `price_range_percentage`: the band width as a percentage of the decision price. */
    function PriceRangePercentage(): (r: Option<real>)
      ensures r.Some? <==> lowPrice.Some? && highPrice.Some? && decisionPrice > 0
      ensures r.Some? ==> r.value * decisionPrice as real == (PriceRange().value * 100) as real
    {
      if highPrice.Some? && lowPrice.Some? && decisionPrice > 0 then
        Some(((highPrice.value - lowPrice.value) as real / decisionPrice as real) * 100.0)
      else None
    }

    /** `is_price_in_range`: whether the decision price lies inside the band, when both ends are known. */
    function IsPriceInRange(): (r: Option<bool>)
      ensures r.Some? <==> lowPrice.Some? && highPrice.Some?
      ensures r == Some(true) ==> lowPrice.value <= decisionPrice <= highPrice.value
      ensures r == Some(false) ==> decisionPrice < lowPrice.value || highPrice.value < decisionPrice
    {
      if highPrice.Some? && lowPrice.Some? then
        Some(lowPrice.value <= decisionPrice <= highPrice.value)
      else None
    }

    function TotalValue(): int {
      decisionPrice * quantity
    }

    function EstimatedLowValue(): (r: Option<int>)
      ensures r.Some? <==> lowPrice.Some?
    {
      if lowPrice.Some? then Some(lowPrice.value * quantity) else None
    }

    function EstimatedHighValue(): (r: Option<int>)
      ensures r.Some? <==> highPrice.Some?
    {
      if highPrice.Some? then Some(highPrice.value * quantity) else None
    }
  }

  /**
   * A decision price inside its band, with a non-negative quantity, puts
   * the total value between the estimated low and high values, and the
   * band is not inverted.
   */
  lemma ValueWithinEstimates(b: BaseLine)
    requires b.IsPriceInRange() == Some(true) && b.quantity >= 0
    ensures b.PriceRange().value >= 0
    ensures b.EstimatedLowValue().value <= b.TotalValue() <= b.EstimatedHighValue().value
  {
    MulMono(b.lowPrice.value, b.decisionPrice, b.quantity);
    MulMono(b.decisionPrice, b.highPrice.value, b.quantity);
  }

  lemma MulMono(a: int, b: int, q: int)
    requires a <= b && q >= 0
    ensures a * q <= b * q
  {
  }

  /**
   * A step manager. The trade prices are kept as the list the
   * `last_trade_prices` property presents; the text column that stores
   * them is `Column()`, and `ReadColumn` is the getter that reads it back.
   */
  datatype StepManager = StepManager(
    code: string,
    kind: bool,
    market: string,
    finalPrice: int,
    totalQty: int,
    tradeQty: int,
    tradeStep: int,
    holdQty: int,
    lastTradeTime: Option<int>,
    lastTradePrices: seq<int>)
  {
    /** The `last_trade_prices` setter: the text stored for the list, none at all for the empty list. */
    function Column(): (r: Option<string>)
      ensures r.None? <==> |lastTradePrices| == 0
      ensures ReadColumn(r) == lastTradePrices
    {
      PriceListJson.RoundTrip(lastTradePrices);
      if |lastTradePrices| == 0 then None else Some(PriceListJson.Encode(lastTradePrices))
    }

    /** `last_trade_price`. */
    function LastTradePrice(): Option<int> {
      LastOf(lastTradePrices)
    }

    function TotalValue(): int {
      finalPrice * totalQty
    }

    function HoldValue(): int {
      finalPrice * holdQty
    }

    function TradeValue(): int {
      finalPrice * tradeQty
    }

    /** `last_trade_value`. */
    function LastTradeValue(): (r: Option<int>)
      ensures r.Some? <==> |lastTradePrices| > 0
      ensures r.Some? ==> r.value == lastTradePrices[|lastTradePrices| - 1] * tradeQty
    {
      var last := LastTradePrice();
      if last.Some? then Some(last.value * tradeQty) else None
    }

    /** `profit_loss`. */
    function ProfitLoss(): Option<int> {
      ProfitLossOf(lastTradePrices, finalPrice, tradeQty)
    }

    function RemainingQty(): int {
      totalQty - tradeQty
    }

    function IsFullyTraded(): bool {
      tradeQty >= totalQty
    }

    /** `add_trade_price`: exactly one price appended after the existing ones; nothing else changes. */
    function AddTradePrice(price: int): (r: StepManager)
      ensures |r.lastTradePrices| == |lastTradePrices| + 1
      ensures r.lastTradePrices[..|lastTradePrices|] == lastTradePrices
      ensures r.LastTradePrice() == Some(price)
      ensures r.(lastTradePrices := lastTradePrices) == this
    {
      var r := this.(lastTradePrices := lastTradePrices + [price]);
      assert r.lastTradePrices[..|lastTradePrices|] == lastTradePrices;
      r
    }

    /** `get_average_trade_price`. */
    function AverageTradePrice(): Option<real> {
      AverageOf(lastTradePrices)
    }

    /** `get_price_by_step`. */
    function PriceByStep(step: int): Option<int> {
      PriceAt(lastTradePrices, step)
    }
  }

  /**
   * The `last_trade_prices` getter on the stored text: no text, or text
   * that is not a list of integers, reads as the empty list.
   */
  function ReadColumn(json: Option<string>): (r: seq<int>)
    ensures json.None? ==> r == []
  {
    match json
    case None => []
    case Some(t) => PriceListJson.Decode(t).GetOr([])
  }

  /** The most recent of a list of trade prices, if any. */
  function LastOf(prices: seq<int>): (r: Option<int>)
    ensures r.Some? <==> |prices| > 0
    ensures r.Some? ==> r.value == prices[|prices| - 1]
  {
    if |prices| > 0 then Some(prices[|prices| - 1]) else None
  }

  /**
   * What the traded quantity gained between the last trade price and the
   * final price: the current value less the value at the last price, absent
   * when no price was recorded.
   */
  function ProfitLossOf(prices: seq<int>, finalPrice: int, tradeQty: int): (r: Option<int>)
    ensures r.Some? <==> |prices| > 0
    ensures r.Some? ==> r.value == (finalPrice - prices[|prices| - 1]) * tradeQty
  {
    var last := LastOf(prices);
    if last.Some? then
      var currentValue := finalPrice * tradeQty;
      var lastValue := last.value * tradeQty;
      MulSubDistrib(finalPrice, last.value, tradeQty);
      Some(currentValue - lastValue)
    else None
  }

  /** The mean of a list of prices, absent for the empty list. */
  function AverageOf(prices: seq<int>): (r: Option<real>)
    ensures r.Some? <==> |prices| > 0
    ensures r.Some? ==> r.value * |prices| as real == Sum(prices) as real
  {
    if |prices| > 0 then
      DivMul(Sum(prices) as real, |prices| as real);
      Some(Sum(prices) as real / |prices| as real)
    else None
  }

  /** The price recorded at a step, for steps inside the list only. */
  function PriceAt(prices: seq<int>, step: int): (r: Option<int>)
    ensures r.Some? <==> 0 <= step < |prices|
    ensures r.Some? ==> r.value == prices[step]
  {
    if 0 <= step < |prices| then Some(prices[step]) else None
  }

  function Sum(xs: seq<int>): int
  {
    if |xs| == 0 then 0 else Sum(xs[..|xs| - 1]) + xs[|xs| - 1]
  }

  /** The remaining quantity and the fully-traded flag agree. */
  lemma FullyTradedIffNothingRemains(m: StepManager)
    ensures m.IsFullyTraded() <==> m.RemainingQty() <= 0
    ensures m.RemainingQty() + m.tradeQty == m.totalQty
  {
  }

  /** The total value splits into held and traded value exactly when the quantities do. */
  lemma ValueSplit(m: StepManager)
    requires m.finalPrice != 0
    ensures m.TotalValue() == m.HoldValue() + m.TradeValue() <==> m.totalQty == m.holdQty + m.tradeQty
  {
    assert m.HoldValue() + m.TradeValue() == m.finalPrice * (m.holdQty + m.tradeQty);
    if m.TotalValue() == m.HoldValue() + m.TradeValue() {
      MulCancel(m.finalPrice, m.totalQty, m.holdQty + m.tradeQty);
    }
  }

  lemma MulCancel(c: int, a: int, b: int)
    requires c != 0 && c * a == c * b
    ensures a == b
  {
  }

  lemma MulSubDistrib(a: int, b: int, q: int)
    ensures a * q - b * q == (a - b) * q
  {
  }

  lemma DivMul(x: real, n: real)
    requires n != 0.0
    ensures (x / n) * n == x
  {
  }

  /** The sum of a list lies between its length times any lower and upper bound of its elements. */
  lemma {:induction false} SumBounds(xs: seq<int>, lo: int, hi: int)
    requires forall k :: 0 <= k < |xs| ==> lo <= xs[k] <= hi
    ensures |xs| * lo <= Sum(xs) <= |xs| * hi
  {
    if |xs| > 0 {
      SumBounds(xs[..|xs| - 1], lo, hi);
    }
  }

  lemma RealBetween(avg: real, n: real, total: real, lo: real, hi: real)
    requires n > 0.0 && avg * n == total && lo * n <= total <= hi * n
    ensures lo <= avg <= hi
  {

  }

  /** The average trade price lies between the lowest and the highest recorded price. */
  lemma AverageWithinPrices(xs: seq<int>, lo: int, hi: int)
    requires |xs| > 0
    requires forall k :: 0 <= k < |xs| ==> lo <= xs[k] <= hi
    ensures lo as real <= AverageOf(xs).value <= hi as real
  {
    SumBounds(xs, lo, hi);
    var avg := AverageOf(xs).value;
    RealBetween(avg, |xs| as real, Sum(xs) as real, lo as real, hi as real);
  }

  /** The smallest of a non-empty list, `min(xs)`. */
  function MinOf(xs: seq<int>): (m: int)
    requires |xs| > 0
    ensures m in xs && forall k :: 0 <= k < |xs| ==> m <= xs[k]
  {
    if |xs| == 1 then xs[0]
    else
      var rest := MinOf(xs[1..]);
      assert forall k :: 1 <= k < |xs| ==> xs[k] == xs[1..][k - 1];
      if xs[0] <= rest then xs[0] else rest
  }

  /** The largest of a non-empty list, `max(xs)`. */
  function MaxOf(xs: seq<int>): (m: int)
    requires |xs| > 0
    ensures m in xs && forall k :: 0 <= k < |xs| ==> xs[k] <= m
  {
    if |xs| == 1 then xs[0]
    else
      var rest := MaxOf(xs[1..]);
      assert forall k :: 1 <= k < |xs| ==> xs[k] == xs[1..][k - 1];
      if xs[0] >= rest then xs[0] else rest
  }
}
