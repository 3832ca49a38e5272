/**
 * The 0B tick analyser: ticks read back from the per-code sorted set are
 * parsed, and the last five minutes and the last minute are summarised —
 * volume-weighted execution strength, buy and sell volume, price momentum,
 * volume extremes and buy/sell ratios.
 *
 * A tick's volume is signed: positive for a buy, negative for a sell.
 * Rounding of the reported reals to two places is not modelled.
 */
module StockAnalysis {
  import opened Wrappers
  import PyNum
  import PyStr
  import Decimal
  import KstTime

  // ---------------------------------------------------------------------
  // Parsing
  // ---------------------------------------------------------------------

  /**
   * `parse_execution_time`: an HHMMSS string of exactly six characters is
   * today's time at that clock reading (`dayStart` is today's midnight);
   * any other length, a slice `int()` rejects, or a reading outside the
   * clock gives `now`.
   */
  function ParseExecutionTime(s: string, dayStart: real, now: real): (r: real)
    ensures |s| != 6 ==> r == now
    ensures r == now || dayStart <= r < dayStart + 86400.0
  {
    if |s| != 6 then now
    else
      var h, m, sec := Decimal.ParseInt(s[..2]), Decimal.ParseInt(s[2..4]), Decimal.ParseInt(s[4..]);
      if h.None? || m.None? || sec.None? then now
      else if !(0 <= h.value < 24 && 0 <= m.value < 60 && 0 <= sec.value < 60) then now
      else dayStart + (h.value * 3600 + m.value * 60 + sec.value) as real
  }

  /** Six digits within the clock read as that time of today. */
  lemma ReadsTheClock(s: string, dayStart: real, now: real)
    requires |s| == 6 && PyStr.IsDigits(s)
    requires 10 * Decimal.DigitValue(s[0]) + Decimal.DigitValue(s[1]) < 24
    requires Decimal.DigitValue(s[2]) < 6 && Decimal.DigitValue(s[4]) < 6
    ensures ParseExecutionTime(s, dayStart, now)
            == dayStart + ((10 * Decimal.DigitValue(s[0]) + Decimal.DigitValue(s[1])) * 3600
                           + (10 * Decimal.DigitValue(s[2]) + Decimal.DigitValue(s[3])) * 60
                           + 10 * Decimal.DigitValue(s[4]) + Decimal.DigitValue(s[5])) as real
  {
    assert PyStr.IsDigit(s[0]) && PyStr.IsDigit(s[1]) && PyStr.IsDigit(s[2]) && PyStr.IsDigit(s[3]) && PyStr.IsDigit(s[4]) && PyStr.IsDigit(s[5]);
    KstTime.PairValue(s[..2], s[0], s[1]);
    KstTime.PairValue(s[2..4], s[2], s[3]);
    KstTime.PairValue(s[4..], s[4], s[5]);
  }

  /** The fields of a tick the analysis reads. */
  datatype Tick = Tick(stockCode: string, currentPrice: int, volume: int, executionStrength: real)

  /** The integer fields `parse_0b_data` converts with `int()`, any of which can reject the tick. */
  const IntFields: seq<string> := ["10", "11", "27", "28", "15", "13", "14", "16", "17", "18", "1031", "1030", "1313", "1314"]

  /** Where the price (`10`) and the volume (`15`) sit among the integer fields, and the strength (`228`) among the real ones. */
  const PriceField: nat := 0
  const VolumeField: nat := 4
  const StrengthField: nat := 1

  /** The real fields `parse_0b_data` converts with `float()`: change rate, strength, market cap, buy ratio. */
  const FloatFields: seq<string> := ["12", "228", "311", "1032"]

  /** `values.get(key, '0')`. */
  function Field(values: map<string, string>, key: string): string {
    if key in values then values[key] else "0"
  }

  /** Every field `parse_0b_data` converts is accepted by `int()` or `float()`. */
  predicate Readable(values: map<string, string>) {
    (forall k :: k in IntFields ==> Decimal.ParseInt(Field(values, k)).Some?)
    && (forall k :: k in FloatFields ==> Decimal.ParseFloat(Field(values, k)).Some?)
  }

  /**
   * `parse_0b_data`, and the skip of `get_recent_0b_data` around it: a tick
   * with any field that `int()` or `float()` rejects is dropped; otherwise
   * the code loses one leading `A` and the strength is `float` of field 228.
   */
  function ParseTick(item: string, values: map<string, string>): (r: Option<Tick>)
    ensures r.Some? <==> Readable(values)
    ensures r.Some? ==> r.value == Tick(PyStr.DropA(item), Decimal.ParseInt(Field(values, IntFields[PriceField])).value,
                                        Decimal.ParseInt(Field(values, IntFields[VolumeField])).value,
                                        Decimal.ParseFloat(Field(values, FloatFields[StrengthField])).value)
  {
    if Readable(values) then
      IntFieldRead(values, PriceField);
      IntFieldRead(values, VolumeField);
      FloatFieldRead(values, StrengthField);
      Some(Tick(PyStr.DropA(item), Decimal.ParseInt(Field(values, IntFields[PriceField])).value,
                Decimal.ParseInt(Field(values, IntFields[VolumeField])).value,
                Decimal.ParseFloat(Field(values, FloatFields[StrengthField])).value))
    else None
  }

  /** A readable tick's integer field `i` is accepted by `int()`. */
  lemma IntFieldRead(values: map<string, string>, i: nat)
    requires Readable(values) && i < |IntFields|
    ensures Decimal.ParseInt(Field(values, IntFields[i])).Some?
  {
  }

  /** A readable tick's real field `i` is accepted by `float()`. */
  lemma FloatFieldRead(values: map<string, string>, i: nat)
    requires Readable(values) && i < |FloatFields|
    ensures Decimal.ParseFloat(Field(values, FloatFields[i])).Some?
  {
  }

  /** A tick whose strength field `float()` rejects is dropped, whatever the other fields hold. */
  lemma BadStrengthDropsTick(item: string, values: map<string, string>)
    requires "228" in values && Decimal.ParseFloat(values["228"]).None?
    ensures ParseTick(item, values).None?
  {
    assert Field(values, FloatFields[StrengthField]) == values["228"];
    assert !Readable(values) by {
      if Readable(values) {
        FloatFieldRead(values, StrengthField);
      }
    }
  }

  /** An absent field reads as `'0'`, which `int()` accepts. */
  lemma AbsentFieldIsZero(values: map<string, string>, key: string)
    requires key !in values
    ensures Decimal.ParseInt(Field(values, key)) == Some(0)
  {
    Decimal.ParseIntRoundTrip(0);
  }

  /**
   * One member of the per-code sorted set: its score (the receive time),
   * whether its `type` is `0B`, and the tick `ParseTick` read from it
   * (`None` when the JSON or a field was rejected).
   */
  datatype Stored = Stored(score: real, zeroB: bool, tick: Option<Tick>)

  /** A member `get_recent_0b_data` returns: scored within the last `seconds`, of type 0B, and readable. */
  predicate Kept(e: Stored, now: real, seconds: real) {
    now - seconds <= e.score <= now && e.zeroB && e.tick.Some?
  }

  /**
   * `get_recent_0b_data`: the ticks of the members scored between
   * `now - seconds` and `now`, in score order, skipping members of another
   * type and members that fail to parse.
   */
  function RecentTicks(stored: seq<Stored>, now: real, seconds: real): (r: seq<Tick>)
    ensures |r| <= |stored|
    ensures forall t :: t in r <==> exists i :: 0 <= i < |stored| && Kept(stored[i], now, seconds) && stored[i].tick == Some(t)
    ensures |r| == 0 <==> forall i :: 0 <= i < |stored| ==> !Kept(stored[i], now, seconds)
  {
    if |stored| == 0 then []
    else
      var rest := RecentTicks(stored[1..], now, seconds);
      assert forall i :: 1 <= i < |stored| ==> stored[i] == stored[1..][i - 1];
      if Kept(stored[0], now, seconds) then [stored[0].tick.value] + rest else rest
  }

  /** A wider window never holds fewer ticks: the last minute is part of the last five. */
  lemma {:induction false} WiderWindowHoldsMore(stored: seq<Stored>, now: real, narrow: real, wide: real)
    requires narrow <= wide
    ensures |RecentTicks(stored, now, narrow)| <= |RecentTicks(stored, now, wide)|
    decreases |stored|
  {
    if |stored| > 0 {
      WiderWindowHoldsMore(stored[1..], now, narrow, wide);
    }
  }

  // ---------------------------------------------------------------------
  // Aggregates
  // ---------------------------------------------------------------------

  /** A tick that takes part in the weighted strength: nonzero volume and positive strength. */
  predicate Weighs(t: Tick) {
    t.volume != 0 && t.executionStrength > 0.0
  }

  /** What one tick adds to the weighted sum. */
  function Contribution(t: Tick): (r: real)
    ensures r >= 0.0 && (r > 0.0 <==> Weighs(t))
  {
    if Weighs(t) then
      PyNum.ScaleUpStrict(0.0, t.executionStrength, PyNum.Abs(t.volume) as real);
      t.executionStrength * PyNum.Abs(t.volume) as real
    else 0.0
  }

  /** What one tick adds to the weighing volume (a whole number, kept as a real). */
  function WeighedVolume(t: Tick): real
  {
    if Weighs(t) then PyNum.Abs(t.volume) as real else 0.0
  }

  /** Σ strength·|volume| over the weighing ticks. */
  function WeightedSum(ticks: seq<Tick>): real
  {
    if |ticks| == 0 then 0.0
    else WeightedSum(ticks[..|ticks| - 1]) + Contribution(ticks[|ticks| - 1])
  }

  /** Σ |volume| over the weighing ticks. */
  function WeighingVolume(ticks: seq<Tick>): real
  {
    if |ticks| == 0 then 0.0
    else WeighingVolume(ticks[..|ticks| - 1]) + WeighedVolume(ticks[|ticks| - 1])
  }

  /** The weighing volume is never negative, and it is 0 exactly when no tick weighs. */
  lemma {:induction false} WeighingVolumeZero(ticks: seq<Tick>)
    ensures WeighingVolume(ticks) >= 0.0
    ensures WeighingVolume(ticks) == 0.0 <==> forall i :: 0 <= i < |ticks| ==> !Weighs(ticks[i])
    decreases |ticks|
  {
    if |ticks| > 0 {
      var init := ticks[..|ticks| - 1];
      WeighingVolumeZero(init);
      assert forall i :: 0 <= i < |init| ==> init[i] == ticks[i];
    }
  }

  /** What one tick would add to the weighted sum if its strength were `m`. */
  function CappedContribution(t: Tick, m: real): real
  {
    if Weighs(t) then m * WeighedVolume(t) else 0.0
  }

  /** Σ m·|volume| over the weighing ticks: the weighted sum with every strength replaced by `m`. */
  function CappedSum(ticks: seq<Tick>, m: real): real
  {
    if |ticks| == 0 then 0.0
    else CappedSum(ticks[..|ticks| - 1], m) + CappedContribution(ticks[|ticks| - 1], m)
  }

  /** When no weighing tick is stronger than `m`, the weighted sum is at most the capped sum. */
  lemma {:induction false} WeightedSumBounded(ticks: seq<Tick>, m: real)
    requires forall i :: 0 <= i < |ticks| && Weighs(ticks[i]) ==> ticks[i].executionStrength <= m
    ensures WeightedSum(ticks) <= CappedSum(ticks, m)
    decreases |ticks|
  {
    if |ticks| > 0 {
      var init, t := ticks[..|ticks| - 1], ticks[|ticks| - 1];
      forall i | 0 <= i < |init| && Weighs(init[i])
        ensures init[i].executionStrength <= m
      {
        assert init[i] == ticks[i];
      }
      WeightedSumBounded(init, m);
      TickBound(t, m);
    }
  }

  /** A tick no stronger than `m` adds at most what a tick of strength `m` would. */
  lemma TickBound(t: Tick, m: real)
    requires Weighs(t) ==> t.executionStrength <= m
    ensures Contribution(t) <= CappedContribution(t, m)
  {
    if Weighs(t) {
      PyNum.ScaleUp(t.executionStrength, m, PyNum.Abs(t.volume) as real);
    }
  }

  /** The capped sum is `m` times the weighing volume. */
  lemma {:induction false} CappedSumIsProduct(ticks: seq<Tick>, m: real)
    ensures CappedSum(ticks, m) == m * WeighingVolume(ticks)
    decreases |ticks|
  {
    if |ticks| == 0 {
      ZeroTimes(m, WeighingVolume(ticks));
    } else {
      var init, t := ticks[..|ticks| - 1], ticks[|ticks| - 1];
      CappedSumIsProduct(init, m);
      CappedTick(t, m);
      Distribute(m, WeighingVolume(init), WeighedVolume(t),
                 CappedSum(init, m), CappedSum(ticks, m), WeighingVolume(ticks));
    }
  }

  lemma CappedTick(t: Tick, m: real)
    ensures CappedContribution(t, m) == m * WeighedVolume(t)
  {
  }

  lemma ZeroTimes(m: real, v: real)
    requires v == 0.0
    ensures m * v == 0.0
  {
  }

  lemma Distribute(m: real, a: real, b: real, x: real, y: real, v: real)
    requires x == m * a && y == x + m * b && v == a + b
    ensures y == m * v
  {
  }

  /**
   * `calculate_5min_execution_strength`: the volume-weighted mean strength
   * of the weighing ticks, 0 when there are none; never above the strongest
   * of them.
   */
  function ExecutionStrength(ticks: seq<Tick>): (r: real)
    ensures WeighingVolume(ticks) == 0.0 ==> r == 0.0
    ensures WeighingVolume(ticks) > 0.0 ==> r * WeighingVolume(ticks) == WeightedSum(ticks) && r > 0.0
  {
    var v := WeighingVolume(ticks);
    WeighingVolumeZero(ticks);
    if v == 0.0 then 0.0
    else
      var s := WeightedSum(ticks);
      PyNum.DivFacts(s, v);
      WeightedSumPositive(ticks);
      PyNum.RatioAtLeast(s, v, 0.0);
      s / v
  }

  /** The weighted strength is never above the strongest weighing tick. */
  lemma StrengthAtMostStrongest(ticks: seq<Tick>, m: real)
    requires forall i :: 0 <= i < |ticks| && Weighs(ticks[i]) ==> ticks[i].executionStrength <= m
    ensures WeighingVolume(ticks) > 0.0 ==> ExecutionStrength(ticks) <= m
  {
    var v := WeighingVolume(ticks);
    if v > 0.0 {
      var q, s, c := ExecutionStrength(ticks), WeightedSum(ticks), CappedSum(ticks, m);
      WeightedSumBounded(ticks, m);
      CappedSumIsProduct(ticks, m);
      QuotientAtMost(q, s, c, v, m);
    }
  }

  lemma QuotientAtMost(q: real, s: real, c: real, v: real, m: real)
    requires v > 0.0 && q * v == s && s <= c && c == m * v
    ensures q <= m
  {
    if q > m {
      PyNum.ScaleUpStrict(m, q, v);
    }
  }

  /** The weighted sum is never negative, and some weighing volume makes it positive. */
  lemma {:induction false} WeightedSumPositive(ticks: seq<Tick>)
    ensures WeightedSum(ticks) >= 0.0
    ensures WeighingVolume(ticks) > 0.0 ==> WeightedSum(ticks) > 0.0
    decreases |ticks|
  {
    if |ticks| > 0 {
      WeightedSumPositive(ticks[..|ticks| - 1]);
    }
  }

  /** Total, buy and sell volume of `calculate_volume_metrics`. */
  datatype Volumes = Volumes(total: nat, buy: nat, sell: nat)

  /**
   * `calculate_volume_metrics`: every |volume| counts in the total, a
   * positive volume as a buy, a negative one as a sell of its absolute
   * value, and zero in neither.
   */
  function VolumeMetrics(ticks: seq<Tick>): (r: Volumes)
    ensures r.total == r.buy + r.sell
    ensures r.buy == 0 <==> forall i :: 0 <= i < |ticks| ==> ticks[i].volume <= 0
    ensures r.sell == 0 <==> forall i :: 0 <= i < |ticks| ==> ticks[i].volume >= 0
  {
    if |ticks| == 0 then Volumes(0, 0, 0)
    else
      var rest := VolumeMetrics(ticks[..|ticks| - 1]);
      var v := ticks[|ticks| - 1].volume;
      assert forall i :: 0 <= i < |ticks| - 1 ==> ticks[..|ticks| - 1][i] == ticks[i];
      Volumes(rest.total + PyNum.Abs(v),
              rest.buy + (if v > 0 then v else 0),
              rest.sell + (if v < 0 then -v else 0))
  }

  /** Splitting the ticks splits the volumes. */
  lemma {:induction false} VolumeMetricsAdd(a: seq<Tick>, b: seq<Tick>)
    ensures VolumeMetrics(a + b) == Volumes(VolumeMetrics(a).total + VolumeMetrics(b).total,
                                            VolumeMetrics(a).buy + VolumeMetrics(b).buy,
                                            VolumeMetrics(a).sell + VolumeMetrics(b).sell)
    decreases |b|
  {
    if |b| > 0 {
      var init := b[..|b| - 1];
      assert (a + b)[..|a + b| - 1] == a + init;
      assert (a + b)[|a + b| - 1] == b[|b| - 1];
      VolumeMetricsAdd(a, init);
    } else {
      assert a + b == a;
    }
  }

  datatype Momentum = Up | Down | Flat

  /** `calculate_price_momentum`: the change from the oldest to the latest price. */
  datatype PriceMomentum = PriceMomentum(change: int, changeRate: real, momentum: Momentum)

  /**
   * `calculate_price_momentum`: FLAT with no change for fewer than two
   * ticks or an oldest price of 0; otherwise the direction of latest minus
   * oldest, and the change as a percentage of the oldest.
   */
  function PriceMomentumOf(ticks: seq<Tick>): (r: PriceMomentum)
    ensures |ticks| < 2 || ticks[0].currentPrice == 0 ==> r == PriceMomentum(0, 0.0, Flat)
    ensures |ticks| >= 2 && ticks[0].currentPrice != 0 ==>
              r.change == ticks[|ticks| - 1].currentPrice - ticks[0].currentPrice
              && r.changeRate * ticks[0].currentPrice as real == r.change as real * 100.0
    ensures r.momentum == Up <==> r.change > 0
    ensures r.momentum == Down <==> r.change < 0
  {
    if |ticks| < 2 || ticks[0].currentPrice == 0 then PriceMomentum(0, 0.0, Flat)
    else
      var oldest, latest := ticks[0].currentPrice, ticks[|ticks| - 1].currentPrice;
      var change := latest - oldest;
      PriceMomentum(change, PyNum.PctChange(latest as real, oldest as real),
                    if change > 0 then Up else if change < 0 then Down else Flat)
  }

  /** Largest and smallest |volume|, as `calculate_additional_metrics` reports them. */
  datatype VolumeRange = VolumeRange(maxVolume: nat, minVolume: nat)

  /** `max` and `min` of the |volume| of every tick; both 0 for no ticks. */
  function VolumeExtremes(ticks: seq<Tick>): (r: VolumeRange)
    ensures |ticks| == 0 ==> r == VolumeRange(0, 0)
    ensures forall i :: 0 <= i < |ticks| ==> r.minVolume <= PyNum.Abs(ticks[i].volume) <= r.maxVolume
    ensures |ticks| > 0 ==> (exists i :: 0 <= i < |ticks| && PyNum.Abs(ticks[i].volume) == r.maxVolume)
                            && (exists j :: 0 <= j < |ticks| && PyNum.Abs(ticks[j].volume) == r.minVolume)
  {
    if |ticks| == 0 then VolumeRange(0, 0)
    else if |ticks| == 1 then
      var v := PyNum.Abs(ticks[0].volume);
      VolumeRange(v, v)
    else
      var init := ticks[..|ticks| - 1];
      var rest := VolumeExtremes(init);
      var v := PyNum.Abs(ticks[|ticks| - 1].volume);
      assert forall i :: 0 <= i < |init| ==> init[i] == ticks[i];
      VolumeRange(PyNum.Max(rest.maxVolume, v), PyNum.Min(rest.minVolume, v))
  }

  /** The mean of the positive strengths, 0 when there is none. */
  function AverageStrength(ticks: seq<Tick>): (r: real)
    ensures r >= 0.0
    ensures PositiveStrengthCount(ticks) == 0 ==> r == 0.0
    ensures PositiveStrengthCount(ticks) > 0 ==> r * PositiveStrengthCount(ticks) as real == PositiveStrengthSum(ticks)
  {
    var n := PositiveStrengthCount(ticks);
    if n == 0 then 0.0
    else
      PyNum.DivFacts(PositiveStrengthSum(ticks), n as real);
      PyNum.RatioAtLeast(PositiveStrengthSum(ticks), n as real, 0.0);
      PositiveStrengthSum(ticks) / n as real
  }

  function PositiveStrengthSum(ticks: seq<Tick>): (r: real)
    ensures r >= 0.0
  {
    if |ticks| == 0 then 0.0
    else
      var s := ticks[|ticks| - 1].executionStrength;
      PositiveStrengthSum(ticks[..|ticks| - 1]) + (if s > 0.0 then s else 0.0)
  }

  function PositiveStrengthCount(ticks: seq<Tick>): (r: nat)
    ensures r <= |ticks|
  {
    if |ticks| == 0 then 0
    else PositiveStrengthCount(ticks[..|ticks| - 1]) + (if ticks[|ticks| - 1].executionStrength > 0.0 then 1 else 0)
  }

  // ---------------------------------------------------------------------
  // The two-window analysis
  // ---------------------------------------------------------------------

  /** `part / total * 100` when the total is positive, 0 otherwise. */
  function Ratio(part: nat, total: nat): (r: real)
    ensures total == 0 ==> r == 0.0
    ensures total > 0 ==> r * total as real == part as real * 100.0
    ensures part <= total ==> 0.0 <= r <= 100.0
  {
    if total == 0 then 0.0
    else
      PyNum.PercentVersus(part, total, 100.0);
      PyNum.PercentVersus(part, total, 0.0);
      PyNum.Percent(part, total)
  }

  /** Buy and sell shares of a positive total add up to 100 %. */
  lemma RatiosSumToHundred(buy: nat, sell: nat)
    ensures buy + sell > 0 ==> Ratio(buy, buy + sell) + Ratio(sell, buy + sell) == 100.0
  {
    if buy + sell > 0 {
      var t := (buy + sell) as real;
      var x, y := Ratio(buy, buy + sell), Ratio(sell, buy + sell);
      assert (x + y) * t == x * t + y * t;
      if x + y < 100.0 {
        PyNum.ScaleUpStrict(x + y, 100.0, t);
      } else if x + y > 100.0 {
        PyNum.ScaleUpStrict(100.0, x + y, t);
      }
    }
  }

  /** One window's summary. */
  datatype Window = Window(
    executionStrength: real,
    volumes: Volumes,
    buyRatio: real,
    sellRatio: real,
    momentum: PriceMomentum,
    extremes: VolumeRange,
    averageStrength: real,
    dataPoints: nat)

  function Summarise(ticks: seq<Tick>): (w: Window)
    ensures w.dataPoints == |ticks| && w.volumes == VolumeMetrics(ticks)
    ensures w.volumes.total > 0 ==> w.buyRatio + w.sellRatio == 100.0
    ensures w.volumes.total == 0 ==> w.buyRatio == 0.0 && w.sellRatio == 0.0
  {
    var v := VolumeMetrics(ticks);
    var b, s := Ratio(v.buy, v.total), Ratio(v.sell, v.total);
    RatiosSumToHundred(v.buy, v.sell);
    Window(ExecutionStrength(ticks), v, b, s, PriceMomentumOf(ticks),
           VolumeExtremes(ticks), AverageStrength(ticks), |ticks|)
  }

  datatype StockAnalysis = StockAnalysis(latest: Tick, fiveMinutes: Window, oneMinute: Window)

  /**
   * `analyze_stock_0b`: an error result without five-minute data; otherwise
   * the latest tick and a summary of each window.
   */
  function AnalyzeStock(fiveMinutes: seq<Tick>, oneMinute: seq<Tick>): (r: Result<StockAnalysis, string>)
    ensures r.Failure? <==> |fiveMinutes| == 0
    ensures r.Success? ==> r.value.latest == fiveMinutes[|fiveMinutes| - 1]
                           && r.value.fiveMinutes.dataPoints == |fiveMinutes|
                           && r.value.oneMinute.dataPoints == |oneMinute|
  {
    if |fiveMinutes| == 0 then Failure("No data available")
    else Success(StockAnalysis(fiveMinutes[|fiveMinutes| - 1], Summarise(fiveMinutes), Summarise(oneMinute)))
  }

  /**
   * `analyze_stock_0b` over the stored set: the five-minute and one-minute
   * windows are read at the same moment. The analysis fails exactly when no
   * readable 0B member is scored within the last 300 seconds, and never
   * summarises more one-minute points than five-minute points.
   */
  function AnalyzeStored(stored: seq<Stored>, now: real): (r: Result<StockAnalysis, string>)
    ensures r.Failure? <==> forall i :: 0 <= i < |stored| ==> !Kept(stored[i], now, 300.0)
    ensures r.Success? ==> r.value.oneMinute.dataPoints <= r.value.fiveMinutes.dataPoints
  {
    WiderWindowHoldsMore(stored, now, 60.0, 300.0);
    AnalyzeStock(RecentTicks(stored, now, 300.0), RecentTicks(stored, now, 60.0))
  }
}
