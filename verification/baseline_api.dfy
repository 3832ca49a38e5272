/**
 * The rules inside the baseline HTTP handlers: validated creation, search
 * by price bounds, per-stock statistics, the confirmed delete-all, the
 * price-band risk analysis and the sync from real-time groups. A handler
 * either answers with a value or fails with an HTTP status.
 */
module BaselineApi {
  import opened Wrappers
  import opened Models
  import BaselineTable
  import PyNum

  type Table = BaselineTable.Table

  const BadRequest: int := 400
  const NotFound: int := 404
  const ServerError: int := 500

  /** Python truthiness of an optional integer: present and not zero. */
  predicate Truthy(x: Option<int>)
  {
    x.Some? && x.value != 0
  }

  // ---------------------------------------------------------------------
  // create_baseline_with_validation
  // ---------------------------------------------------------------------

  /**
   * The band check: the decision price must lie in `[low, high]`, and its
   * distance from the band's midpoint, relative to the midpoint, must not
   * exceed `maxDeviation`. A midpoint of 0 divides by zero, which the
   * handler reports as a bad request too.
   */
  function CheckBand(decision: int, low: int, high: int, maxDeviation: real): (r: Option<int>)
    ensures r.Some? ==> r.value == BadRequest
    ensures !(low <= decision <= high) ==> r.Some?
    ensures low + high == 0 ==> r.Some?
    ensures low <= decision <= high && low + high > 0 ==>
              var mid := (high + low) as real / 2.0;
              (r.None? <==> PyNum.AbsReal(decision as real - mid) <= maxDeviation * mid)
  {
    if !(low <= decision <= high) then Some(BadRequest)
    else
      var mid := (high + low) as real / 2.0;
      if mid == 0.0 then Some(BadRequest)
      else
        var deviation := PyNum.AbsReal(decision as real - mid) / mid;
        var verdict := if deviation > maxDeviation then Some(BadRequest) else None;
        if mid > 0.0 then
          RelativeBound(PyNum.AbsReal(decision as real - mid), mid, maxDeviation);
          verdict
        else verdict
  }

  /** For a positive midpoint, `d / mid <= m` is `d <= m * mid`. */
  lemma RelativeBound(d: real, mid: real, m: real)
    requires mid > 0.0
    ensures d / mid <= m <==> d <= m * mid
  {
    PyNum.DivFacts(d, mid);
    if d / mid <= m {
      assert d == (d / mid) * mid;
      assert (d / mid) * mid <= m * mid;
    } else {
      assert d == (d / mid) * mid;
      assert (d / mid) * mid > m * mid;
    }
  }

  /**
   * `create_baseline_with_validation`: when validation is on and both band
   * ends are truthy the band is checked first; then the baseline is created
   * as `create_new` does, and its refusal is a bad request as well.
   */
  function CreateWithValidation(t: Table, code: string, decision: int, quantity: int,
                                low: Option<int>, high: Option<int>,
                                validate: bool, maxDeviation: real): (r: Result<(Table, BaseLine), int>)
    ensures r.Failure? ==> r.error == BadRequest
    ensures r.Success? ==> BaselineTable.CreateNew(t, code, decision, quantity, low, high) == Success(r.value)
    ensures !(validate && Truthy(low) && Truthy(high)) ==>
              (r.Success? <==> !BaselineTable.HasCode(t, code))
    ensures validate && Truthy(low) && Truthy(high) && r.Success? ==>
              low.value <= decision <= high.value
    ensures validate && Truthy(low) && Truthy(high) ==>
              (r.Success? <==> CheckBand(decision, low.value, high.value, maxDeviation).None? && !BaselineTable.HasCode(t, code))
  {
    if validate && Truthy(low) && Truthy(high) && CheckBand(decision, low.value, high.value, maxDeviation).Some? then
      Failure(BadRequest)
    else
      match BaselineTable.CreateNew(t, code, decision, quantity, low, high)
      case Success(v) => Success(v)
      case Failure(_) => Failure(BadRequest)
  }

  /** A decision price at the middle of a positive band passes any non-negative deviation allowance. */
  lemma CentredDecisionPasses(t: Table, code: string, decision: int, quantity: int,
                              low: int, high: int, maxDeviation: real)
    requires 0 < low <= high && 2 * decision == low + high && maxDeviation >= 0.0
    requires !BaselineTable.HasCode(t, code)
    ensures CreateWithValidation(t, code, decision, quantity, Some(low), Some(high), true, maxDeviation).Success?
  {
    var mid := (high + low) as real / 2.0;
    assert decision as real == mid;
    assert CheckBand(decision, low, high, maxDeviation).None?;
  }

  // ---------------------------------------------------------------------
  // search_baselines_by_price_range
  // ---------------------------------------------------------------------

  /** The six optional bounds of a search. */
  datatype Bounds = Bounds(minLow: Option<int>, maxLow: Option<int>,
                           minHigh: Option<int>, maxHigh: Option<int>,
                           minDecision: Option<int>, maxDecision: Option<int>)

  /**
   * Whether a row survives the search: a bound applies only when it is
   * truthy; a low or high bound then also needs that end to be present.
   */
  predicate Passes(b: BaseLine, q: Bounds)
  {
    (Truthy(q.minLow) ==> b.lowPrice.Some? && b.lowPrice.value >= q.minLow.value) &&
    (Truthy(q.maxLow) ==> b.lowPrice.Some? && b.lowPrice.value <= q.maxLow.value) &&
    (Truthy(q.minHigh) ==> b.highPrice.Some? && b.highPrice.value >= q.minHigh.value) &&
    (Truthy(q.maxHigh) ==> b.highPrice.Some? && b.highPrice.value <= q.maxHigh.value) &&
    (Truthy(q.minDecision) ==> b.decisionPrice >= q.minDecision.value) &&
    (Truthy(q.maxDecision) ==> b.decisionPrice <= q.maxDecision.value)
  }

  /** `search_baselines_by_price_range`: the rows that pass, in table order. */
  function Search(all: Table, q: Bounds): (r: Table)
    ensures |r| <= |all|
    ensures forall b :: b in r <==> b in all && Passes(b, q)
  {
    if |all| == 0 then []
    else
      var rest := Search(all[..|all| - 1], q);
      var b := all[|all| - 1];
      assert all == all[..|all| - 1] + [b];
      if Passes(b, q) then rest + [b] else rest
  }

  /** Two bound sets that pass the same rows select the same rows. */
  lemma {:induction false} SameFilterSameSearch(all: Table, q1: Bounds, q2: Bounds)
    requires forall b :: Passes(b, q1) <==> Passes(b, q2)
    ensures Search(all, q1) == Search(all, q2)
  {
    if |all| > 0 {
      SameFilterSameSearch(all[..|all| - 1], q1, q2);
    }
  }

  /** A zero bound is falsy, so it filters nothing: it searches like an absent bound. */
  lemma ZeroBoundIsIgnored(all: Table, q: Bounds)
    ensures Search(all, q.(minLow := Some(0), maxDecision := Some(0))) == Search(all, q.(minLow := None, maxDecision := None))
  {
    SameFilterSameSearch(all, q.(minLow := Some(0), maxDecision := Some(0)), q.(minLow := None, maxDecision := None));
  }

  // ---------------------------------------------------------------------
  // get_stock_baseline_stats
  // ---------------------------------------------------------------------

  /** The rows of one code, in table order. */
  function RowsOf(t: Table, code: string): (r: Table)
    ensures |r| == BaselineTable.Count(t, code)
    ensures forall b :: b in r <==> b in t && b.stockCode == code
  {
    if |t| == 0 then []
    else
      var rest := RowsOf(t[..|t| - 1], code);
      var b := t[|t| - 1];
      assert t == t[..|t| - 1] + [b];
      if b.stockCode == code then rest + [b] else rest
  }

  function Prices(rows: Table): (r: seq<int>)
    ensures |r| == |rows| && forall k :: 0 <= k < |rows| ==> r[k] == rows[k].decisionPrice
  {
    seq(|rows|, k requires 0 <= k < |rows| => rows[k].decisionPrice)
  }

  function Quantities(rows: Table): (r: seq<int>)
    ensures |r| == |rows| && forall k :: 0 <= k < |rows| ==> r[k] == rows[k].quantity
  {
    seq(|rows|, k requires 0 <= k < |rows| => rows[k].quantity)
  }

  function Values(rows: Table): (r: seq<int>)
    ensures |r| == |rows| && forall k :: 0 <= k < |rows| ==> r[k] == rows[k].TotalValue()
  {
    seq(|rows|, k requires 0 <= k < |rows| => rows[k].TotalValue())
  }

  /** The rows whose band has both ends. */
  function Ranged(rows: Table): (r: Table)
    ensures |r| <= |rows|
    ensures forall b :: b in r <==> b in rows && b.lowPrice.Some? && b.highPrice.Some?
    ensures forall k :: 0 <= k < |r| ==> r[k].lowPrice.Some? && r[k].highPrice.Some?
  {
    if |rows| == 0 then []
    else
      var rest := Ranged(rows[..|rows| - 1]);
      var b := rows[|rows| - 1];
      assert rows == rows[..|rows| - 1] + [b];
      if b.lowPrice.Some? && b.highPrice.Some? then rest + [b] else rest
  }

  /** The lower ends of rows that all have one. */
  function Lows(rows: Table): (r: seq<int>)
    requires forall k :: 0 <= k < |rows| ==> rows[k].lowPrice.Some?
    ensures |r| == |rows| && forall k :: 0 <= k < |rows| ==> r[k] == rows[k].lowPrice.value
  {
    seq(|rows|, k requires 0 <= k < |rows| => rows[k].lowPrice.value)
  }

  /** The upper ends of rows that all have one. */
  function Highs(rows: Table): (r: seq<int>)
    requires forall k :: 0 <= k < |rows| ==> rows[k].highPrice.Some?
    ensures |r| == |rows| && forall k :: 0 <= k < |rows| ==> r[k] == rows[k].highPrice.value
  {
    seq(|rows|, k requires 0 <= k < |rows| => rows[k].highPrice.value)
  }

  /** The mean lower and upper band ends over rows that all carry a band, absent when there are none. */
  function BandAverages(ranged: Table): (r: (Option<real>, Option<real>))
    requires forall k :: 0 <= k < |ranged| ==> ranged[k].lowPrice.Some? && ranged[k].highPrice.Some?
    ensures (r.0.Some? <==> |ranged| > 0) && (r.1.Some? <==> |ranged| > 0)
    ensures r.0.Some? ==> r.0.value * |ranged| as real == Sum(Lows(ranged)) as real
    ensures r.1.Some? ==> r.1.value * |ranged| as real == Sum(Highs(ranged)) as real
  {
    (AverageOf(Lows(ranged)), AverageOf(Highs(ranged)))
  }

  /** The mean decision price of some rows: times their count it is their summed price. */
  function MeanPrice(rows: Table): (r: real)
    requires |rows| > 0
    ensures r * |rows| as real == Sum(Prices(rows)) as real
  {
    AverageOf(Prices(rows)).value
  }

  datatype Stats = Stats(totalSteps: nat, totalQuantity: int, totalValue: int, averagePrice: real,
                         minPrice: int, maxPrice: int, averageLowPrice: Option<real>,
                         averageHighPrice: Option<real>, priceRangeDataCount: nat)

  /**
   * `get_stock_baseline_stats`: not found for a code without baselines;
   * otherwise the step count, the summed quantity and value, the mean,
   * lowest and highest decision price, the mean lower and upper band end
   * over the rows that carry a band (absent when none does), and how many
   * rows carry one.
   */
  function GetStats(t: Table, code: string): (r: Result<Stats, int>)
    ensures r.Failure? <==> !BaselineTable.HasCode(t, code)
    ensures r.Failure? ==> r.error == NotFound
    ensures r.Success? ==>
              var rows := RowsOf(t, code);
              var s := r.value;
              s.totalSteps == BaselineTable.Count(t, code) == |rows| &&
              s.totalQuantity == Sum(Quantities(rows)) &&
              s.totalValue == Sum(Values(rows)) &&
              s.averagePrice == MeanPrice(rows) &&
              s.minPrice as real <= s.averagePrice <= s.maxPrice as real &&
              (forall b :: b in t && b.stockCode == code ==> s.minPrice <= b.decisionPrice <= s.maxPrice) &&
              (exists b :: b in t && b.stockCode == code && b.decisionPrice == s.minPrice) &&
              (exists b :: b in t && b.stockCode == code && b.decisionPrice == s.maxPrice) &&
              s.priceRangeDataCount == |Ranged(rows)| <= s.totalSteps &&
              (s.averageLowPrice, s.averageHighPrice) == BandAverages(Ranged(rows))
  {
    var rows := RowsOf(t, code);
    if |rows| == 0 then Failure(NotFound)
    else
      var prices := Prices(rows);
      var lo := MinOf(prices);
      var hi := MaxOf(prices);
      AverageWithinPrices(prices, lo, hi);
      PricesOfRows(rows);
      var ranged := Ranged(rows);
      var bands := BandAverages(ranged);
      Success(Stats(|rows|, Sum(Quantities(rows)), Sum(Values(rows)), MeanPrice(rows),
                    lo, hi, bands.0, bands.1, |ranged|))
  }

  /** A price of the list belongs to a row, and each row's price is in the list. */
  lemma PricesOfRows(rows: Table)
    ensures forall p :: p in Prices(rows) <==> exists b :: b in rows && b.decisionPrice == p
  {
    var prices := Prices(rows);
    forall p | p in prices
      ensures exists b :: b in rows && b.decisionPrice == p
    {
      var k :| 0 <= k < |prices| && prices[k] == p;
      assert rows[k] in rows;
    }
    forall b | b in rows
      ensures b.decisionPrice in prices
    {
      var k :| 0 <= k < |rows| && rows[k] == b;
      assert prices[k] == b.decisionPrice;
    }
  }

  // ---------------------------------------------------------------------
  // delete_all_baselines
  // ---------------------------------------------------------------------

  /** The distinct stock codes of the table, in order of first appearance. */
  function DistinctCodes(t: Table): (r: seq<string>)
    ensures forall c :: c in r <==> BaselineTable.HasCode(t, c)
    ensures forall i, j :: 0 <= i < j < |r| ==> r[i] != r[j]
  {
    if |t| == 0 then []
    else
      var init := t[..|t| - 1];
      var rest := DistinctCodes(init);
      var c := t[|t| - 1].stockCode;
      assert forall d :: BaselineTable.HasCode(init, d) ==> BaselineTable.HasCode(t, d) by {
        forall d | BaselineTable.HasCode(init, d) ensures BaselineTable.HasCode(t, d) {
          var i :| 0 <= i < |init| && init[i].stockCode == d;
          assert t[i].stockCode == d;
        }
      }
      assert forall d :: BaselineTable.HasCode(t, d) ==> BaselineTable.HasCode(init, d) || d == c by {
        forall d | BaselineTable.HasCode(t, d) ensures BaselineTable.HasCode(init, d) || d == c {
          var i :| 0 <= i < |t| && t[i].stockCode == d;
          if i < |t| - 1 {
            assert init[i].stockCode == d;
          }
        }
      }
      if c in rest then rest else rest + [c]
  }

  /** Deleting each listed code in turn; the result is the remaining table and the number of rows removed. */
  function DeleteCodes(t: Table, codes: seq<string>): (r: (Table, nat))
    ensures |r.0| + r.1 == |t|
    ensures forall c :: c in codes ==> !BaselineTable.HasCode(r.0, c)
    ensures forall b :: b in r.0 ==> b in t
    decreases |codes|
  {
    if |codes| == 0 then (t, 0)
    else
      var (t1, n1) := BaselineTable.DeleteByCode(t, codes[0]);
      var (t2, n2) := DeleteCodes(t1, codes[1..]);
      (t2, n1 + n2)
  }

  /**
   * `delete_all_baselines`: refused without confirmation; otherwise every
   * code is deleted, and the answer counts the codes and the rows removed.
   */
  function DeleteAll(t: Table, confirm: bool): (r: Result<(Table, nat, nat), int>)
    ensures !confirm ==> r == Failure(BadRequest)
    ensures confirm ==> r.Success? && r.value.0 == [] && r.value.2 == |t|
    ensures r.Success? ==> r.value.1 == |DistinctCodes(t)|
  {
    if !confirm then Failure(BadRequest)
    else
      var codes := DistinctCodes(t);
      var (rest, deleted) := DeleteCodes(t, codes);
      assert rest == [] by {
        if |rest| > 0 {
          assert rest[0] in t;
          var i :| 0 <= i < |t| && t[i] == rest[0];
          assert BaselineTable.HasCode(t, rest[0].stockCode);
          assert BaselineTable.HasCode(rest, rest[0].stockCode);
          assert false;
        }
      }
      Success(([], |codes|, deleted))
  }

  // ---------------------------------------------------------------------
  // get_price_range_analysis
  // ---------------------------------------------------------------------

  datatype Risk = NoData | LowRisk | MediumRisk | HighRisk

  /** The risk of an average band width: below 5000 low, below 15000 medium, otherwise high. */
  function RiskOf(averageSpread: real): (r: Risk)
    ensures r != NoData
    ensures r == LowRisk <==> averageSpread < 5000.0
    ensures r == HighRisk <==> averageSpread >= 15000.0
  {
    if averageSpread < 5000.0 then LowRisk
    else if averageSpread < 15000.0 then MediumRisk
    else HighRisk
  }

  function Rank(r: Risk): int
  {
    match r
    case NoData => 0
    case LowRisk => 1
    case MediumRisk => 2
    case HighRisk => 3
  }

  /** A wider average band never lowers the risk. */
  lemma RiskMonotone(a: real, b: real)
    requires a <= b
    ensures Rank(RiskOf(a)) <= Rank(RiskOf(b))
  {
  }

  function Spreads(rows: Table): (r: seq<int>)
    requires forall b :: b in rows ==> b.lowPrice.Some? && b.highPrice.Some?
    ensures |r| == |rows|
    ensures forall k :: 0 <= k < |rows| ==> r[k] == rows[k].highPrice.value - rows[k].lowPrice.value
  {
    seq(|rows|, k requires 0 <= k < |rows| => rows[k].highPrice.value - rows[k].lowPrice.value)
  }

  /**
   * `get_price_range_analysis`: not found without baselines; no data when
   * no row has a band; otherwise the risk of the average band width. A band
   * whose ends sum to 0 divides by zero when its accuracy ratio is taken,
   * which the handler reports as a server error.
   */
  function PriceRangeAnalysis(t: Table, code: string): (r: Result<Risk, int>)
    ensures r.Failure? <==> !BaselineTable.HasCode(t, code) ||
                            exists b :: b in Ranged(RowsOf(t, code)) && b.lowPrice.value + b.highPrice.value == 0
    ensures !BaselineTable.HasCode(t, code) ==> r == Failure(NotFound)
    ensures r == Success(NoData) <==> BaselineTable.HasCode(t, code) && |Ranged(RowsOf(t, code))| == 0
    ensures r.Success? && r.value != NoData ==>
              var ranged := Ranged(RowsOf(t, code));
              r.value == RiskOf(AverageOf(Spreads(ranged)).value)
  {
    var rows := RowsOf(t, code);
    if |rows| == 0 then Failure(NotFound)
    else
      var ranged := Ranged(rows);
      if |ranged| == 0 then Success(NoData)
      else if exists b :: b in ranged && b.lowPrice.value + b.highPrice.value == 0 then Failure(ServerError)
      else Success(RiskOf(AverageOf(Spreads(ranged)).value))
  }

  // ---------------------------------------------------------------------
  // sync_baseline_from_realtime_groups
  // ---------------------------------------------------------------------

  /** The codes of all groups, each once, in order of first appearance. */
  function GroupCodes(groups: seq<seq<string>>): (r: seq<string>)
    ensures forall c :: c in r <==> exists g :: g in groups && c in g
    ensures forall i, j :: 0 <= i < j < |r| ==> r[i] != r[j]
  {
    if |groups| == 0 then []
    else
      var init := groups[..|groups| - 1];
      var rest := GroupCodes(init);
      assert forall g :: g in groups <==> g in init || g == groups[|groups| - 1];
      AddCodes(rest, groups[|groups| - 1])
  }

  /** `codes` followed by the new codes of `more`, each once. */
  function AddCodes(codes: seq<string>, more: seq<string>): (r: seq<string>)
    requires forall i, j :: 0 <= i < j < |codes| ==> codes[i] != codes[j]
    ensures forall c :: c in r <==> c in codes || c in more
    ensures forall i, j :: 0 <= i < j < |r| ==> r[i] != r[j]
    decreases |more|
  {
    if |more| == 0 then codes
    else
      var next := if more[0] in codes then codes else codes + [more[0]];
      assert forall c :: c in more <==> c == more[0] || c in more[1..];
      AddCodes(next, more[1..])
  }

  /** The counters of a sync. */
  datatype SyncCount = SyncCount(created: nat, skipped: nat, errors: nat)

  /**
   * The sync loop: a code that already has baselines is skipped; a code
   * whose database calls fail (the failing set, an input) counts as an
   * error; any other code gets a step-0 baseline with price and quantity 0.
   */
  function SyncCodes(t: Table, codes: seq<string>, failing: set<string>): (r: (Table, SyncCount))
    ensures r.1.created + r.1.skipped + r.1.errors == |codes|
    ensures |r.0| == |t| + r.1.created
    ensures t <= r.0
    ensures forall c :: c in codes && c !in failing ==> BaselineTable.HasCode(r.0, c)
    decreases |codes|
  {
    if |codes| == 0 then (t, SyncCount(0, 0, 0))
    else
      var c := codes[0];
      var (t1, step) :=
        if c in failing then (t, SyncCount(0, 0, 1))
        else if BaselineTable.HasCode(t, c) then (t, SyncCount(0, 1, 0))
        else (t + [BaseLine(c, 0, 0, 0, None, None)], SyncCount(1, 0, 0));
      assert BaselineTable.HasCode(t1, c) || c in failing by {
        if c !in failing && !BaselineTable.HasCode(t, c) {
          assert t1[|t|].stockCode == c;
        }
      }
      var (t2, rest) := SyncCodes(t1, codes[1..], failing);
      assert BaselineTable.HasCode(t1, c) ==> BaselineTable.HasCode(t2, c) by {
        if BaselineTable.HasCode(t1, c) {
          var i :| 0 <= i < |t1| && t1[i].stockCode == c;
          assert t2[i] == t1[i];
        }
      }
      (t2, SyncCount(step.created + rest.created, step.skipped + rest.skipped, step.errors + rest.errors))
  }

  /** `sync_baseline_from_realtime_groups`: the new table, the counters, and the success rate in percent. */
  function SyncFromGroups(t: Table, groups: seq<seq<string>>, failing: set<string>): (r: (Table, SyncCount, real))
    ensures r.1.created + r.1.skipped + r.1.errors == |GroupCodes(groups)|
    ensures r.2 == PyNum.Percent(r.1.created, |GroupCodes(groups)|)
    ensures forall g, c :: g in groups && c in g && c !in failing ==> BaselineTable.HasCode(r.0, c)
  {
    var codes := GroupCodes(groups);
    var sync := SyncCodes(t, codes, failing);
    (sync.0, sync.1, PyNum.Percent(sync.1.created, |codes|))
  }

  /** Codes that all have baselines already are all skipped or errors: the loop creates nothing and leaves the table alone. */
  lemma {:induction false} KnownCodesCreateNothing(t: Table, codes: seq<string>, failing: set<string>)
    requires forall c :: c in codes ==> BaselineTable.HasCode(t, c)
    ensures SyncCodes(t, codes, failing).1.created == 0
    ensures SyncCodes(t, codes, failing).0 == t
    decreases |codes|
  {
    if |codes| > 0 {
      KnownCodesCreateNothing(t, codes[1..], failing);
    }
  }

  /** A second sync from the same groups creates nothing: every code got its baseline the first time. */
  lemma SecondSyncCreatesNothing(t: Table, groups: seq<seq<string>>)
    ensures var first := SyncFromGroups(t, groups, {});
            var second := SyncFromGroups(first.0, groups, {});
            second.1.created == 0 && second.0 == first.0 &&
            second.1.skipped == |GroupCodes(groups)|
  {
    var first := SyncFromGroups(t, groups, {});
    var codes := GroupCodes(groups);
    forall c | c in codes ensures BaselineTable.HasCode(first.0, c) {
      var g :| g in groups && c in g;
    }
    KnownCodesCreateNothing(first.0, codes, {});
    NoFailuresNoErrors(first.0, codes);
  }

  /** With no failing code, the loop counts no errors. */
  lemma {:induction false} NoFailuresNoErrors(t: Table, codes: seq<string>)
    ensures SyncCodes(t, codes, {}).1.errors == 0
    decreases |codes|
  {
    if |codes| > 0 {
      var c := codes[0];
      var t1 := if BaselineTable.HasCode(t, c) then t else t + [BaseLine(c, 0, 0, 0, None, None)];
      NoFailuresNoErrors(t1, codes[1..]);
    }
  }

  /** After a confirmed delete-all, statistics for any code are not found. */
  lemma DeleteAllLeavesNothing(t: Table, code: string)
    ensures GetStats(DeleteAll(t, true).value.0, code) == Failure(NotFound)
  {
  }
}
