/**
 * Helpers over the order-book quote (the `0D` message): the resistance and
 * support levels read from the ten sell and ten buy levels, the buy/sell
 * remainder ratio, and the tolerant time reader used for execution times.
 *
 * A quote is a map from field number to text. Sell prices are fields 41 to
 * 50 with volumes 61 to 70; buy prices are 51 to 60 with volumes 71 to 80.
 */
module MarketUtils {
  import opened Wrappers
  import opened PyStr
  import Decimal
  import KstTime

  /** One side of the book as read: the kept levels' prices and volumes, in level order. */
  datatype Side = Side(prices: seq<real>, volumes: seq<int>)

  predicate WellFormedSide(side: Side)
  {
    |side.prices| == |side.volumes| && forall k :: 0 <= k < |side.prices| ==> side.prices[k] > 0.0
  }

  /** `ask_bid_data.get(key, "0")`. */
  function Get(data: map<string, string>, key: string): string
  {
    if key in data then data[key] else "0"
  }

  /**
   * Level `i` of a side: its price (`float`) and volume (`int`), when both
   * read and the price is positive. A volume of 0 is kept.
   */
  function Level(data: map<string, string>, priceBase: int, volumeBase: int, i: int): Option<(real, int)>
  {
    var price := Decimal.ParseFloat(Get(data, Decimal.IntToStr(priceBase + i)));
    var volume := Decimal.ParseInt(Get(data, Decimal.IntToStr(volumeBase + i)));
    if price.Some? && volume.Some? && price.value > 0.0 then Some((price.value, volume.value)) else None
  }

  /** Levels 1 to 10 of a side, as read or rejected. */
  function Levels(data: map<string, string>, priceBase: int, volumeBase: int): (r: seq<Option<(real, int)>>)
    ensures |r| == 10
    ensures forall k :: 0 <= k < 10 ==> r[k] == Level(data, priceBase, volumeBase, k + 1)
  {
    seq(10, k requires 0 <= k < 10 => Level(data, priceBase, volumeBase, k + 1))
  }

  /** The levels that read, in order; the rest are skipped. */
  function Keep(levels: seq<Option<(real, int)>>): (r: Side)
    requires forall k :: 0 <= k < |levels| && levels[k].Some? ==> levels[k].value.0 > 0.0
    ensures WellFormedSide(r) && |r.prices| <= |levels|
    ensures (forall k :: 0 <= k < |levels| ==> levels[k].Some?) ==> |r.prices| == |levels|
    ensures (forall k :: 0 <= k < |levels| ==> levels[k].None?) ==> r == Side([], [])
  {
    if |levels| == 0 then Side([], [])
    else
      var side := Keep(levels[..|levels| - 1]);
      match levels[|levels| - 1]
      case Some(level) => Side(side.prices + [level.0], side.volumes + [level.1])
      case None => side
  }

  /** Every kept level is one of the levels that read. */
  lemma {:induction false} KeptLevelsAreLevels(levels: seq<Option<(real, int)>>)
    requires forall k :: 0 <= k < |levels| && levels[k].Some? ==> levels[k].value.0 > 0.0
    ensures var r := Keep(levels);
            forall k :: 0 <= k < |r.prices| ==> Some((r.prices[k], r.volumes[k])) in levels
  {
    if |levels| > 0 {
      var init := levels[..|levels| - 1];
      KeptLevelsAreLevels(init);
      var side := Keep(init);
      var r := Keep(levels);
      forall k | 0 <= k < |r.prices|
        ensures Some((r.prices[k], r.volumes[k])) in levels
      {
        if k < |side.prices| {
          assert r.prices[k] == side.prices[k] && r.volumes[k] == side.volumes[k];
          assert side == Keep(init);
          assert 0 <= k < |side.prices|;
          assert Some((side.prices[k], side.volumes[k])) in init;
        } else {
          assert levels[|levels| - 1] == Some((r.prices[k], r.volumes[k]));
        }
      }
    }
  }

  /** One side of the book: levels 1 to 10, those that read. */
  function ReadSide(data: map<string, string>, priceBase: int, volumeBase: int): (r: Side)
    ensures WellFormedSide(r) && |r.prices| <= 10
  {
    Keep(Levels(data, priceBase, volumeBase))
  }

  /** `float("0")` is 0. */
  lemma ZeroText(z: string)
    requires z == ['0']
    ensures Decimal.ParseFloat(z) == Some(0.0)
  {
    assert IsDigits(z) && |z| == 1 && !IsSpace(z[0]);
    StripNoEdgeSpace(z);
    assert z[..0] == [];
    assert Decimal.DigitsValue(z) == 0;
    DigitsFloat(z);
  }

  lemma DigitsFloat(s: string)
    requires IsDigits(s) && Strip(s) == s
    ensures Decimal.ParseFloat(s) == Some(Decimal.DigitsValue(s) as real)
  {
  }

  /** A missing field reads as `"0"`, which is no level, so an empty quote has none. */
  lemma EmptyQuoteHasNoLevels(priceBase: int, volumeBase: int)
    ensures ReadSide(map[], priceBase, volumeBase) == Side([], [])
  {
    var levels := Levels(map[], priceBase, volumeBase);
    forall k | 0 <= k < 10
      ensures levels[k].None?
    {
      ZeroText(Get(map[], Decimal.IntToStr(priceBase + k + 1)));
    }
  }

  function Sum(v: seq<int>): int
  {
    if |v| == 0 then 0 else Sum(v[..|v| - 1]) + v[|v| - 1]
  }

  /** The first index whose volume is above `mean`. */
  function FirstAbove(v: seq<int>, mean: real): (r: Option<nat>)
    ensures r.Some? ==> r.value < |v| && v[r.value] as real > mean &&
                        forall k :: 0 <= k < r.value ==> v[k] as real <= mean
    ensures r.None? ==> forall k :: 0 <= k < |v| ==> v[k] as real <= mean
  {
    if |v| == 0 then None
    else if v[0] as real > mean then Some(0)
    else
      match FirstAbove(v[1..], mean)
      case Some(i) => Some(i + 1)
      case None => None
  }

  /**
   * One side's line: the price of the first level whose volume is above the
   * mean volume; when none is, the last price; with no levels, 0.
   */
  function Line(side: Side): (r: real)
    requires WellFormedSide(side)
    ensures r >= 0.0
    ensures r == 0.0 <==> |side.prices| == 0
    ensures |side.prices| > 0 ==> r in side.prices
    ensures |side.prices| > 0 ==>
              var mean := Sum(side.volumes) as real / |side.volumes| as real;
              var first := FirstAbove(side.volumes, mean);
              r == if first.Some? then side.prices[first.value] else side.prices[|side.prices| - 1]
  {
    if |side.volumes| == 0 then 0.0
    else
      var mean := Sum(side.volumes) as real / |side.volumes| as real;
      var first := FirstAbove(side.volumes, mean);
      var found := if first.Some? then side.prices[first.value] else 0.0;
      if found == 0.0 && |side.prices| > 0 then side.prices[|side.prices| - 1] else found
  }

  /** No volume is above the mean exactly when all the volumes are equal. */
  lemma NoneAboveIffAllEqual(v: seq<int>)
    requires |v| > 0
    ensures var mean := Sum(v) as real / |v| as real;
            FirstAbove(v, mean).None? <==> forall k :: 0 <= k < |v| ==> v[k] == v[0]
  {
    var mean := Sum(v) as real / |v| as real;
    if FirstAbove(v, mean).None? {
      NoneAboveMeansEqual(v, mean);
    } else if forall k :: 0 <= k < |v| ==> v[k] == v[0] {
      EqualMeansNoneAbove(v);
    }
  }

  lemma EqualMeansNoneAbove(v: seq<int>)
    requires |v| > 0 && forall k :: 0 <= k < |v| ==> v[k] == v[0]
    ensures FirstAbove(v, Sum(v) as real / |v| as real).None?
  {
    SumOfEqual(v);
    DivCancel(|v|, v[0]);
    assert Sum(v) as real / |v| as real == v[0] as real;
  }

  lemma DivCancel(n: int, x: int)
    requires n > 0
    ensures (n * x) as real / n as real == x as real
  {
    assert (n * x) as real == n as real * x as real;
  }

  lemma NoneAboveMeansEqual(v: seq<int>, mean: real)
    requires |v| > 0 && mean == Sum(v) as real / |v| as real
    requires forall k :: 0 <= k < |v| ==> v[k] as real <= mean
    ensures forall k :: 0 <= k < |v| ==> v[k] == v[0]
  {
    assert Sum(v) as real == |v| as real * mean;
    forall k | 0 <= k < |v|
      ensures v[k] as real == mean
    {
      if v[k] as real < mean {
        SumBelow(v, mean, k);
      }
    }
  }

  /** Volumes all at most `m`, one of them below it, sum to less than `|v| * m`. */
  lemma {:induction false} SumBelow(v: seq<int>, m: real, j: int)
    requires forall k :: 0 <= k < |v| ==> v[k] as real <= m
    requires 0 <= j < |v| && v[j] as real < m
    ensures (Sum(v) as real) < |v| as real * m
  {
    var init := v[..|v| - 1];
    if j == |v| - 1 {
      SumAtMost(init, m);
    } else {
      SumBelow(init, m, j);
    }
  }

  lemma {:induction false} SumAtMost(v: seq<int>, m: real)
    requires forall k :: 0 <= k < |v| ==> v[k] as real <= m
    ensures (Sum(v) as real) <= |v| as real * m
  {
    if |v| > 0 {
      SumAtMost(v[..|v| - 1], m);
    }
  }

  /** Equal volumes sum to their count times the first. */
  lemma {:induction false} SumOfEqual(v: seq<int>)
    requires |v| > 0 && forall k :: 0 <= k < |v| ==> v[k] == v[0]
    ensures Sum(v) == |v| * v[0]
  {
    if |v| > 1 {
      SumOfEqual(v[..|v| - 1]);
    }
  }

  /**
   * `calculate_resistance_support`: the sell resistance and buy support.
   * The function's catch-all never fires on text values: every conversion
   * error only skips its level.
   */
  function ResistanceSupport(data: map<string, string>): (r: (real, real))
    ensures r.0 == Line(ReadSide(data, 40, 60)) && r.1 == Line(ReadSide(data, 50, 70))
    ensures r.0 >= 0.0 && r.1 >= 0.0
  {
    (Line(ReadSide(data, 40, 60)), Line(ReadSide(data, 50, 70)))
  }

  /** With every level equally deep, the line falls back to the last (deepest) level. */
  lemma EvenBookTakesLastLevel(side: Side)
    requires WellFormedSide(side) && |side.prices| > 0
    requires forall k :: 0 <= k < |side.volumes| ==> side.volumes[k] == side.volumes[0]
    ensures Line(side) == side.prices[|side.prices| - 1]
  {
    NoneAboveIffAllEqual(side.volumes);
  }

  /** `calculate_buy_sell_ratio`: buy over sell remainder as a percentage, 100 when nothing is offered. */
  function BuySellRatio(buyTotal: int, sellTotal: int): (r: real)
    ensures sellTotal <= 0 ==> r == 100.0
    ensures sellTotal > 0 ==> r * sellTotal as real == buyTotal as real * 100.0
    ensures sellTotal > 0 ==> (r >= 100.0 <==> buyTotal >= sellTotal)
  {
    if sellTotal <= 0 then 100.0
    else
      var r := (buyTotal as real / sellTotal as real) * 100.0;
      assert r * sellTotal as real == buyTotal as real * 100.0;
      r
  }

  /**
   * `convert_to_timestamp`: the compact `HHMMSS` form or colon text with at
   * least three parts, on today's date; anything else, and any error, is
   * the current moment (the local clock rather than Korea Standard Time).
   */
  function ConvertToTimestamp(s: string): (r: KstTime.Moment)
    ensures r.Today? ==> KstTime.ValidClock(r.clock)
    ensures !KstTime.Compact(s) && ':' !in s ==> r == KstTime.Now
    ensures KstTime.Compact(s) ==>
              r == if KstTime.ValidClock(KstTime.CompactClock(s)) then KstTime.Today(KstTime.CompactClock(s)) else KstTime.Now
  {
    if KstTime.Compact(s) then
      var c := KstTime.CompactClock(s);
      if KstTime.ValidClock(c) then KstTime.Today(c) else KstTime.Now
    else if ':' in s then
      var parts := Split(s, ':');
      if |parts| >= 3 then
        var c := KstTime.MakeClock(Decimal.ParseInt(parts[0]), Decimal.ParseInt(parts[1]), Decimal.ParseInt(parts[2]));
        if c.Success? then KstTime.Today(c.value) else KstTime.Now
      else KstTime.Now
    else KstTime.Now
  }

  /** This reader and the Korea Standard Time reader agree, except that an error here is the current moment instead of an exception. */
  lemma ConvertAgreesWithKstReader(s: string)
    ensures ConvertToTimestamp(s) ==
              match KstTime.TimeStringToKst(s)
              case Success(m) => m
              case Failure(_) => KstTime.Now
  {
  }
}
