/**
 * The rules inside the older step-manager HTTP handlers: the price
 * volatility risk band of a stock, the rebalancing table and its priority
 * order, the bulk price addition, the stock comparison's precondition, the
 * per-step statistics and the portfolio's overall risk. Percentages are
 * exact; the two-decimal rounding of the answers is not modelled.
 */
module StepManagerApi {
  import opened Wrappers
  import opened Models
  import StepManagerStore
  import PyNum

  const BadRequest: int := 400

  // ---------------------------------------------------------------------
  // Volatility risk (performance analysis and risk analysis)
  // ---------------------------------------------------------------------

  datatype Level = Low | Medium | High | Unknown

  /** The band of a volatility rate in percent: below 5 low, below 15 medium, otherwise high. */
  function Band(rate: real): (r: Level)
    ensures r != Unknown
    ensures r == Low <==> rate < 5.0
    ensures r == High <==> rate >= 15.0
  {
    if rate < 5.0 then Low else if rate < 15.0 then Medium else High
  }

  /**
   * The risk of a stock from its trade prices: unknown with at most one
   * price; otherwise the band of `(max - min) / average * 100`, where an
   * average of 0 is falsy and makes the rate 0. For a positive price sum
   * the bands are the cross-multiplied comparisons of the spread with the
   * sum.
   */
  function PriceRisk(prices: seq<int>): (r: Level)
    ensures r == Unknown <==> |prices| <= 1
    ensures |prices| > 1 && Sum(prices) <= 0 ==> r == Low
    ensures |prices| > 1 && Sum(prices) > 0 ==>
              (r == Low <==> Spread(prices) < 5 * Sum(prices)) &&
              (r == High <==> Spread(prices) >= 15 * Sum(prices))
  {
    if |prices| <= 1 then Unknown else Band(VolatilityRate(prices))
  }

  /** `(max - min) / average * 100`, with a falsy (zero) average giving 0. */
  function VolatilityRate(prices: seq<int>): (rate: real)
    requires |prices| > 1
    ensures Sum(prices) <= 0 ==> rate <= 0.0
    ensures Sum(prices) > 0 ==>
              (rate < 5.0 <==> Spread(prices) < 5 * Sum(prices)) &&
              (rate < 15.0 <==> Spread(prices) < 15 * Sum(prices))
  {
    var lo, hi := MinOf(prices), MaxOf(prices);
    assert lo <= prices[0] <= hi;
    var avg := AverageOf(prices).value;
    var rate := if avg != 0.0 then (hi - lo) as real / avg * 100.0 else 0.0;
    RateBands(hi - lo, |prices|, Sum(prices), avg, rate, Spread(prices));
    rate
  }

  /** The price range times 100 times the number of prices: the rate's numerator, cross-multiplied by the count. */
  function Spread(prices: seq<int>): int
    requires |prices| > 0
  {
    (MaxOf(prices) - MinOf(prices)) * 100 * |prices|
  }

  /** The rate's bands for an average `avg` of `n` prices summing to `sum`, with a spread of `d`. */
  lemma RateBands(d: int, n: int, sum: int, avg: real, rate: real, spread: int)
    requires d >= 0 && n > 0 && avg * n as real == sum as real
    requires rate == if avg != 0.0 then d as real / avg * 100.0 else 0.0
    requires spread == d * 100 * n
    ensures sum <= 0 ==> rate <= 0.0
    ensures sum > 0 ==> (rate < 5.0 <==> spread < 5 * sum) && (rate < 15.0 <==> spread < 15 * sum)
  {
    var nr, sr, dr := n as real, sum as real, d as real;
    assert (d * 100 * n) as real == dr * 100.0 * nr;
    if avg < 0.0 {
      NonPositiveRate(dr, avg);
      assert sr < 0.0 by { PyNum.ScaleUpStrict(avg, 0.0, nr); }
    } else if avg > 0.0 {
      assert sr > 0.0 by { PyNum.ScaleUpStrict(0.0, avg, nr); }
      RateVersusSum(dr, avg, nr, sr, 5.0);
      RateVersusSum(dr, avg, nr, sr, 15.0);
    }
  }

  /** A non-negative spread over a negative average is a rate of at most 0. */
  lemma NonPositiveRate(spread: real, avg: real)
    requires spread >= 0.0 && avg < 0.0
    ensures spread / avg * 100.0 <= 0.0
  {
    PyNum.DivFacts(-spread, -avg);
    assert spread / avg == -spread / -avg;
  }

  /** With `avg * n == sum` for a positive average, comparing the rate with `k` is comparing `spread * 100 * n` with `k * sum`. */
  lemma RateVersusSum(spread: real, avg: real, n: real, sum: real, k: real)
    requires avg > 0.0 && n > 0.0 && avg * n == sum
    ensures spread / avg * 100.0 < k <==> spread * 100.0 * n < k * sum
  {
    var q := spread / avg;
    PyNum.DivFacts(spread, avg);
    if q * 100.0 < k {
      PyNum.ScaleUpStrict(q * 100.0, k, avg);
      assert spread * 100.0 < k * avg;
      PyNum.ScaleUpStrict(spread * 100.0, k * avg, n);
    } else {
      PyNum.ScaleUp(k, q * 100.0, avg);
      assert k * avg <= spread * 100.0;
      PyNum.ScaleUp(k * avg, spread * 100.0, n);
    }
  }

  /**
   * The completion rate of a manager, `trade_qty / total_qty * 100`, or 0
   * for a non-positive total; and the return rate, the change of the final
   * price against the average trade price in percent, 0 without prices or
   * with an average of 0.
   */
  function ReturnRate(m: StepManager): (r: real)
    ensures |m.lastTradePrices| == 0 || Sum(m.lastTradePrices) == 0 ==> r == 0.0
    ensures |m.lastTradePrices| > 0 && Sum(m.lastTradePrices) != 0 ==>
              r * Sum(m.lastTradePrices) as real ==
              (m.finalPrice * |m.lastTradePrices| - Sum(m.lastTradePrices)) as real * 100.0
  {
    var avg := AverageOf(m.lastTradePrices);
    if avg.Some? && avg.value != 0.0 then
      var r := PyNum.PctChange(m.finalPrice as real, avg.value);
      ScaledByCount(r, avg.value, m.finalPrice as real, |m.lastTradePrices| as real);
      r
    else 0.0
  }

  /** `r * avg == (x - avg) * 100` scaled by `n` is `r * (avg * n) == (x * n - avg * n) * 100`. */
  lemma ScaledByCount(r: real, avg: real, x: real, n: real)
    requires r * avg == (x - avg) * 100.0
    ensures r * (avg * n) == (x * n - avg * n) * 100.0
  {
    calc {
      r * (avg * n);
      (r * avg) * n;
      ((x - avg) * 100.0) * n;
      (x * n - avg * n) * 100.0;
    }
  }

  /** The performance answer of one manager, as far as it is decided by rules. */
  datatype Performance = Performance(completionRate: real, returnRate: real, risk: Level)

  /** `get_performance_analysis` for a known manager. */
  function AnalysePerformance(m: StepManager): (r: Performance)
    ensures m.totalQty > 0 ==> r.completionRate * m.totalQty as real == m.tradeQty as real * 100.0
    ensures m.totalQty <= 0 ==> r.completionRate == 0.0
    ensures r.risk == Unknown <==> |m.lastTradePrices| <= 1
    ensures r.risk == PriceRisk(m.lastTradePrices)
    ensures r.returnRate == ReturnRate(m)
  {
    Performance(PyNum.Percent(m.tradeQty, m.totalQty), ReturnRate(m), PriceRisk(m.lastTradePrices))
  }

  // ---------------------------------------------------------------------
  // Rebalancing recommendations
  // ---------------------------------------------------------------------

  datatype Action = StartBuying | IncreasePosition | ContinueBuying | Monitor | ConsiderSelling | Hold

  datatype Priority = LowPriority | MediumPriority | HighPriority

  datatype Recommendation = Recommendation(code: string, step: int, action: Action, priority: Priority)

  /** Buying has started: a positive planned quantity and some traded quantity. */
  predicate Started(m: StepManager)
  {
    m.totalQty > 0 && m.tradeQty != 0
  }

  /** The final price is more than 5% below the (truthy) average trade price. */
  predicate Cheap(m: StepManager)
  {
    |m.lastTradePrices| > 0 && Sum(m.lastTradePrices) != 0 &&
    20 * m.finalPrice * |m.lastTradePrices| < 19 * Sum(m.lastTradePrices)
  }

  /** The final price is more than 10% above the (truthy) average trade price. */
  predicate Dear(m: StepManager)
  {
    |m.lastTradePrices| > 0 && Sum(m.lastTradePrices) != 0 &&
    10 * m.finalPrice * |m.lastTradePrices| > 11 * Sum(m.lastTradePrices)
  }

  /**
   * The recommendation for one manager, by completion rate: 0% starts
   * buying; below 50% buys more, urgently when the price fell 5% under the
   * average; below 80% monitors; 100% or more considers selling after a
   * 10% rise and otherwise holds; from 80% to 100% the default hold stays.
   */
  function Recommend(m: StepManager): (r: Recommendation)
    ensures r.code == m.code && r.step == m.tradeStep
    ensures !Started(m) ==> r.action == StartBuying && r.priority == HighPriority
    ensures Started(m) && 2 * m.tradeQty < m.totalQty ==>
              if Cheap(m) then r.action == IncreasePosition && r.priority == HighPriority
              else r.action == ContinueBuying && r.priority == MediumPriority
    ensures Started(m) && m.totalQty <= 2 * m.tradeQty && 5 * m.tradeQty < 4 * m.totalQty ==>
              r.action == Monitor && r.priority == LowPriority
    ensures Started(m) && m.tradeQty >= m.totalQty ==>
              if Dear(m) then r.action == ConsiderSelling && r.priority == MediumPriority
              else r.action == Hold && r.priority == LowPriority
    ensures Started(m) && 4 * m.totalQty <= 5 * m.tradeQty < 5 * m.totalQty ==>
              r.action == Hold && r.priority == LowPriority
  {
    var rate := PyNum.Percent(m.tradeQty, m.totalQty);
    var avg := AverageOf(m.lastTradePrices);
    var truthy := avg.Some? && avg.value != 0.0;
    var price := m.finalPrice as real;
    var (action, priority) :=
      if rate == 0.0 then (StartBuying, HighPriority)
      else if rate < 50.0 then
        if truthy && price < avg.value * 0.95 then (IncreasePosition, HighPriority)
        else (ContinueBuying, MediumPriority)
      else if rate < 80.0 then (Monitor, LowPriority)
      else if rate >= 100.0 then
        if truthy && price > avg.value * 1.1 then (ConsiderSelling, MediumPriority)
        else (Hold, LowPriority)
      else (Hold, LowPriority);
    CompletionBands(m);
    if truthy then
      var n := |m.lastTradePrices| as real;
      MeanVersus(price, avg.value, n, Sum(m.lastTradePrices) as real, 0.95);
      MeanVersus(price, avg.value, n, Sum(m.lastTradePrices) as real, 1.1);
      Recommendation(m.code, m.tradeStep, action, priority)
    else
      Recommendation(m.code, m.tradeStep, action, priority)
  }

  /** The completion rate's bands as integer comparisons of traded and planned quantity. */
  lemma CompletionBands(m: StepManager)
    ensures PyNum.Percent(m.tradeQty, m.totalQty) == 0.0 <==> !Started(m)
    ensures Started(m) ==>
              (PyNum.Percent(m.tradeQty, m.totalQty) < 50.0 <==> 2 * m.tradeQty < m.totalQty) &&
              (PyNum.Percent(m.tradeQty, m.totalQty) < 80.0 <==> 5 * m.tradeQty < 4 * m.totalQty) &&
              (PyNum.Percent(m.tradeQty, m.totalQty) < 100.0 <==> m.tradeQty < m.totalQty)
  {
    if m.totalQty > 0 {
      PyNum.PercentVersus(m.tradeQty, m.totalQty, 50.0);
      PyNum.PercentVersus(m.tradeQty, m.totalQty, 80.0);
      PyNum.PercentVersus(m.tradeQty, m.totalQty, 100.0);
      PyNum.PercentVersus(m.tradeQty, m.totalQty, 0.0);
    }
  }

  /** With `avg * n == sum` and `n > 0`, comparing a price with `avg * f` is comparing `price * n` with `f * sum`. */
  lemma MeanVersus(price: real, avg: real, n: real, sum: real, f: real)
    requires n > 0.0 && avg * n == sum
    ensures price < avg * f <==> price * n < f * sum
    ensures price > avg * f <==> price * n > f * sum
  {
    assert (avg * f) * n == f * sum;
    if price < avg * f { PyNum.ScaleUpStrict(price, avg * f, n); } else { PyNum.ScaleUp(avg * f, price, n); }
    if price > avg * f { PyNum.ScaleUpStrict(avg * f, price, n); } else { PyNum.ScaleUp(price, avg * f, n); }
  }

  function Rank(p: Priority): int
  {
    match p
    case HighPriority => 3
    case MediumPriority => 2
    case LowPriority => 1
  }

  /** The recommendations of one priority, in their order. */
  function WithPriority(rs: seq<Recommendation>, p: Priority): (r: seq<Recommendation>)
    ensures |r| <= |rs|
    ensures forall k :: 0 <= k < |r| ==> r[k].priority == p
    ensures forall x :: x in r <==> x in rs && x.priority == p
  {
    if |rs| == 0 then []
    else
      var rest := WithPriority(rs[..|rs| - 1], p);
      var x := rs[|rs| - 1];
      assert rs == rs[..|rs| - 1] + [x];
      if x.priority == p then rest + [x] else rest
  }

  /**
   * `recommendations.sort(key=priority, reverse=True)`: highest priority
   * first, a permutation of the input, and stable — the recommendations of
   * each priority keep their relative order.
   */
  function SortByPriority(rs: seq<Recommendation>): (r: seq<Recommendation>)
    ensures forall i, j :: 0 <= i < j < |r| ==> Rank(r[i].priority) >= Rank(r[j].priority)
    ensures multiset(r) == multiset(rs)
    ensures forall p :: WithPriority(r, p) == WithPriority(rs, p)
  {
    var hi, mid, lo := WithPriority(rs, HighPriority), WithPriority(rs, MediumPriority), WithPriority(rs, LowPriority);
    PartsMakeWhole(rs);
    PartsInOrder(hi, mid, lo);
    forall p ensures WithPriority(hi + mid + lo, p) == WithPriority(rs, p) {
      PartsStable(rs, p);
    }
    hi + mid + lo
  }

  /** High, then medium, then low parts concatenate to a list ordered by descending priority. */
  lemma PartsInOrder(hi: seq<Recommendation>, mid: seq<Recommendation>, lo: seq<Recommendation>)
    requires forall k :: 0 <= k < |hi| ==> hi[k].priority == HighPriority
    requires forall k :: 0 <= k < |mid| ==> mid[k].priority == MediumPriority
    requires forall k :: 0 <= k < |lo| ==> lo[k].priority == LowPriority
    ensures var r := hi + mid + lo;
            forall i, j :: 0 <= i < j < |r| ==> Rank(r[i].priority) >= Rank(r[j].priority)
  {
    var r := hi + mid + lo;
    forall i, j | 0 <= i < j < |r| ensures Rank(r[i].priority) >= Rank(r[j].priority) {
      assert i < |hi| ==> r[i] == hi[i];
      assert |hi| <= i < |hi| + |mid| ==> r[i] == mid[i - |hi|];
      assert |hi| + |mid| <= i ==> r[i] == lo[i - |hi| - |mid|];
      assert j < |hi| ==> r[j] == hi[j];
      assert |hi| <= j < |hi| + |mid| ==> r[j] == mid[j - |hi|];
      assert |hi| + |mid| <= j ==> r[j] == lo[j - |hi| - |mid|];
    }
  }

  /** Filtering the concatenated parts by a priority gives the input's recommendations of that priority. */
  lemma PartsStable(rs: seq<Recommendation>, p: Priority)
    ensures var hi, mid, lo := WithPriority(rs, HighPriority), WithPriority(rs, MediumPriority), WithPriority(rs, LowPriority);
            WithPriority(hi + mid + lo, p) == WithPriority(rs, p)
  {
    var hi, mid, lo := WithPriority(rs, HighPriority), WithPriority(rs, MediumPriority), WithPriority(rs, LowPriority);
    FilterConcat(hi + mid, lo, p);
    FilterConcat(hi, mid, p);
    FilterTwice(rs, HighPriority, p);
    FilterTwice(rs, MediumPriority, p);
    FilterTwice(rs, LowPriority, p);
  }

  /** The three priority parts together hold every recommendation. */
  lemma {:induction false} PartsMakeWhole(rs: seq<Recommendation>)
    ensures multiset(WithPriority(rs, HighPriority)) + multiset(WithPriority(rs, MediumPriority)) +
            multiset(WithPriority(rs, LowPriority)) == multiset(rs)
  {
    if |rs| > 0 {
      var init := rs[..|rs| - 1];
      var x := rs[|rs| - 1];
      PartsMakeWhole(init);
      assert multiset(rs) == multiset(init) + multiset{x} by {
        assert rs == init + [x];
      }
      FilterStep(rs, HighPriority);
      FilterStep(rs, MediumPriority);
      FilterStep(rs, LowPriority);
      AddToParts(multiset(WithPriority(init, HighPriority)), multiset(WithPriority(init, MediumPriority)),
                 multiset(WithPriority(init, LowPriority)), multiset(init), x);
    }
  }

  /** Adding one element to the part of its priority adds it to the whole. */
  lemma AddToParts(h: multiset<Recommendation>, m: multiset<Recommendation>, l: multiset<Recommendation>,
                   whole: multiset<Recommendation>, x: Recommendation)
    requires h + m + l == whole
    ensures (h + (if x.priority == HighPriority then multiset{x} else multiset{})) +
            (m + (if x.priority == MediumPriority then multiset{x} else multiset{})) +
            (l + (if x.priority == LowPriority then multiset{x} else multiset{})) == whole + multiset{x}
  {
  }

  /** Filtering a list takes what filtering its prefix took, and its last element when that has the priority. */
  lemma FilterStep(rs: seq<Recommendation>, p: Priority)
    requires |rs| > 0
    ensures multiset(WithPriority(rs, p)) ==
              multiset(WithPriority(rs[..|rs| - 1], p)) +
              (if rs[|rs| - 1].priority == p then multiset{rs[|rs| - 1]} else multiset{})
  {
    var rest := WithPriority(rs[..|rs| - 1], p);
    if rs[|rs| - 1].priority == p {
      assert WithPriority(rs, p) == rest + [rs[|rs| - 1]];
    }
  }

  /** Filtering distributes over concatenation. */
  lemma {:induction false} FilterConcat(a: seq<Recommendation>, b: seq<Recommendation>, p: Priority)
    ensures WithPriority(a + b, p) == WithPriority(a, p) + WithPriority(b, p)
    decreases |b|
  {
    if |b| > 0 {
      var bi := b[..|b| - 1];
      assert (a + b)[..|a + b| - 1] == a + bi;
      FilterConcat(a, bi, p);
    } else {
      assert a + b == a;
    }
  }

  /** Filtering a filtered list by the same priority keeps it, and by another empties it. */
  lemma {:induction false} FilterTwice(rs: seq<Recommendation>, q: Priority, p: Priority)
    ensures WithPriority(WithPriority(rs, q), p) == if p == q then WithPriority(rs, q) else []
  {
    if |rs| > 0 {
      var init := rs[..|rs| - 1];
      var x := rs[|rs| - 1];
      FilterTwice(init, q, p);
      if x.priority == q {
        var f := WithPriority(init, q);
        assert WithPriority(rs, q) == f + [x];
        assert (f + [x])[..|f + [x]| - 1] == f;
      }
    }
  }

  /**
   * `get_rebalancing_recommendations`: one recommendation per manager, in
   * priority order, those of one priority in the order of their managers.
   */
  function Rebalance(ms: seq<StepManager>): (r: seq<Recommendation>)
    ensures |r| == |ms|
    ensures forall i, j :: 0 <= i < j < |r| ==> Rank(r[i].priority) >= Rank(r[j].priority)
    ensures multiset(r) == multiset(RecommendAll(ms))
    ensures forall p :: WithPriority(r, p) == WithPriority(RecommendAll(ms), p)
  {
    var r := SortByPriority(RecommendAll(ms));
    assert |r| == |multiset(r)| == |multiset(RecommendAll(ms))| == |ms|;
    r
  }

  function RecommendAll(ms: seq<StepManager>): (r: seq<Recommendation>)
    ensures |r| == |ms| && forall k :: 0 <= k < |ms| ==> r[k] == Recommend(ms[k])
  {
    seq(|ms|, k requires 0 <= k < |ms| => Recommend(ms[k]))
  }

  /** A fully bought stock whose price sits at its (positive) average trade price is held. */
  lemma FullAtAverageHolds(m: StepManager)
    requires Started(m) && m.tradeQty >= m.totalQty
    requires |m.lastTradePrices| > 0 && m.finalPrice * |m.lastTradePrices| == Sum(m.lastTradePrices)
    requires Sum(m.lastTradePrices) > 0
    ensures Recommend(m).action == Hold
  {
    assert 10 * m.finalPrice * |m.lastTradePrices| == 10 * Sum(m.lastTradePrices);
  }

  // ---------------------------------------------------------------------
  // bulk_add_trade_prices
  // ---------------------------------------------------------------------

  /** One entry of the request body; a missing key is `None`. */
  datatype BulkItem = BulkItem(code: Option<string>, tradePrice: Option<int>)

  /** Both fields present and truthy. */
  predicate WellFormed(d: BulkItem)
  {
    d.code.Some? && |d.code.value| > 0 && d.tradePrice.Some? && d.tradePrice.value != 0
  }

  datatype BulkResult = BulkResult(store: StepManagerStore.Store, success: nat, errors: nat)

  /** How many entries are well formed and name a stored manager: the independent count of the successes. */
  function CountKnown(keys: set<string>, items: seq<BulkItem>): (n: nat)
    ensures n <= |items|
  {
    if |items| == 0 then 0
    else
      var d := items[|items| - 1];
      CountKnown(keys, items[..|items| - 1]) + if WellFormed(d) && d.code.value in keys then 1 else 0
  }

  /**
   * `bulk_add_trade_prices`: each well-formed entry adds its price through
   * the store; a malformed entry or an unknown code is an error. Every
   * entry is counted once, and the store gains no code.
   */
  function BulkAdd(store: StepManagerStore.Store, items: seq<BulkItem>): (r: BulkResult)
    ensures r.success + r.errors == |items|
    ensures r.store.Keys == store.Keys
    ensures r.success == CountKnown(store.Keys, items)
    ensures forall c :: c in store && (forall k :: 0 <= k < |items| ==> items[k].code != Some(c)) ==>
              r.store[c] == store[c]
  {
    if |items| == 0 then BulkResult(store, 0, 0)
    else
      var init := items[..|items| - 1];
      var prev := BulkAdd(store, init);
      var d := items[|items| - 1];
      if !WellFormed(d) then BulkResult(prev.store, prev.success, prev.errors + 1)
      else
        var out := StepManagerStore.AddTradePrice(prev.store, d.code.value, d.tradePrice.value);
        if out.record.Some? then BulkResult(out.store, prev.success + 1, prev.errors)
        else BulkResult(out.store, prev.success, prev.errors + 1)
  }

  /** The success rate of a bulk request, in percent of the entries: the share of well-formed entries naming a stored manager. */
  function BulkSuccessRate(store: StepManagerStore.Store, items: seq<BulkItem>): (r: real)
    ensures r == PyNum.Percent(CountKnown(store.Keys, items), |items|)
  {
    PyNum.Percent(BulkAdd(store, items).success, |items|)
  }

  // ---------------------------------------------------------------------
  // compare_stocks
  // ---------------------------------------------------------------------

  /**
   * `compare_stocks`: fewer than two codes is a bad request; otherwise the
   * codes split, in request order, into those with a manager and those
   * without.
   */
  function CompareStocks(store: StepManagerStore.Store, codes: seq<string>): (r: Result<(seq<string>, seq<string>), int>)
    ensures r.Failure? <==> |codes| < 2
    ensures r.Failure? ==> r.error == BadRequest
    ensures r.Success? ==>
              var (found, missing) := r.value;
              |found| + |missing| == |codes| &&
              (forall c :: c in found <==> c in codes && c in store) &&
              (forall c :: c in missing <==> c in codes && c !in store)
  {
    if |codes| < 2 then Failure(BadRequest) else Success(Partition(store, codes))
  }

  function Partition(store: StepManagerStore.Store, codes: seq<string>): (r: (seq<string>, seq<string>))
    ensures |r.0| + |r.1| == |codes|
    ensures forall c :: c in r.0 <==> c in codes && c in store
    ensures forall c :: c in r.1 <==> c in codes && c !in store
  {
    if |codes| == 0 then ([], [])
    else
      var init := codes[..|codes| - 1];
      var (found, missing) := Partition(store, init);
      var c := codes[|codes| - 1];
      assert codes == init + [c];
      if c in store then (found + [c], missing) else (found, missing + [c])
  }

  // ---------------------------------------------------------------------
  // get_step_statistics
  // ---------------------------------------------------------------------

  /** How many managers are at step `s`. */
  function StepCount(ms: seq<StepManager>, s: int): (n: nat)
    ensures n <= |ms|
    ensures n > 0 <==> exists k :: 0 <= k < |ms| && ms[k].tradeStep == s
  {
    if |ms| == 0 then 0
    else
      var init := ms[..|ms| - 1];
      var n := StepCount(init, s) + if ms[|ms| - 1].tradeStep == s then 1 else 0;
      assert forall k :: 0 <= k < |init| ==> init[k] == ms[k];
      n
  }

  /** The steps present, in order of first appearance, as the statistics dictionary keeps them. */
  function DistinctSteps(ms: seq<StepManager>): (r: seq<int>)
    ensures forall s :: s in r <==> exists k :: 0 <= k < |ms| && ms[k].tradeStep == s
    ensures forall i, j :: 0 <= i < j < |r| ==> r[i] != r[j]
  {
    if |ms| == 0 then []
    else
      var init := ms[..|ms| - 1];
      var rest := DistinctSteps(init);
      var s := ms[|ms| - 1].tradeStep;
      assert forall k :: 0 <= k < |init| ==> init[k] == ms[k];
      if s in rest then rest else rest + [s]
  }

  /** The counts of the listed steps, added up. */
  function CountsOf(ms: seq<StepManager>, steps: seq<int>): int
  {
    if |steps| == 0 then 0 else CountsOf(ms, steps[..|steps| - 1]) + StepCount(ms, steps[|steps| - 1])
  }

  /** The step distribution: each present step with its count. */
  function StepDistribution(ms: seq<StepManager>): (r: map<int, nat>)
    ensures forall s :: s in r <==> exists k :: 0 <= k < |ms| && ms[k].tradeStep == s
    ensures forall s :: s in r ==> r[s] == StepCount(ms, s) && r[s] > 0
  {
    map s | s in DistinctSteps(ms) :: StepCount(ms, s)
  }

  /** The counts of the distribution add up to the number of managers. */
  lemma {:induction false} CountsCoverManagers(ms: seq<StepManager>)
    ensures CountsOf(ms, DistinctSteps(ms)) == |ms|
  {
    if |ms| > 0 {
      var init := ms[..|ms| - 1];
      var m := ms[|ms| - 1];
      var d := DistinctSteps(init);
      assert ms == init + [m];
      CountsCoverManagers(init);
      CountsAfterAppend(init, m, d);
      if m.tradeStep in d {
        assert DistinctSteps(ms) == d;
      } else {
        assert DistinctSteps(ms) == d + [m.tradeStep];
        assert (d + [m.tradeStep])[..|d|] == d;
        assert StepCount(ms, m.tradeStep) == 1 by {
          assert ms[..|ms| - 1] == init;
          assert StepCount(init, m.tradeStep) == 0;
        }
      }
    }
  }

  /** Appending a manager raises the counts of a distinct step list by one when its step is listed. */
  lemma {:induction false} CountsAfterAppend(init: seq<StepManager>, m: StepManager, d: seq<int>)
    requires forall i, j :: 0 <= i < j < |d| ==> d[i] != d[j]
    ensures CountsOf(init + [m], d) == CountsOf(init, d) + if m.tradeStep in d then 1 else 0
  {
    var ms := init + [m];
    assert ms[..|ms| - 1] == init;
    if |d| > 0 {
      var di := d[..|d| - 1];
      CountsAfterAppend(init, m, di);
      assert d == di + [d[|d| - 1]];
      assert m.tradeStep in d <==> m.tradeStep in di || m.tradeStep == d[|d| - 1];
    }
  }

  /** The progression counters of the statistics answer. */
  datatype Progression = Progression(step0: nat, step1: nat, step2: nat, step3Plus: nat)

  /** How many managers are at step 3 or beyond. */
  function CountFrom(ms: seq<StepManager>, s: int): (n: nat)
    ensures n <= |ms|
  {
    if |ms| == 0 then 0
    else CountFrom(ms[..|ms| - 1], s) + if ms[|ms| - 1].tradeStep >= s then 1 else 0
  }

  /** How many managers have a negative step: they appear in the distribution but in no progression counter. */
  function CountNegative(ms: seq<StepManager>): (n: nat)
    ensures n <= |ms|
  {
    if |ms| == 0 then 0
    else CountNegative(ms[..|ms| - 1]) + if ms[|ms| - 1].tradeStep < 0 then 1 else 0
  }

  /**
   * `step_progression`: the counts of steps 0, 1 and 2 and the count of
   * steps 3 and beyond; together with the negative steps they are all the
   * managers.
   */
  function StepProgression(ms: seq<StepManager>): (r: Progression)
    ensures r.step0 == StepCount(ms, 0) && r.step1 == StepCount(ms, 1) && r.step2 == StepCount(ms, 2)
    ensures r.step3Plus == CountFrom(ms, 3)
    ensures r.step0 + r.step1 + r.step2 + r.step3Plus + CountNegative(ms) == |ms|
  {
    ProgressionCovers(ms);
    Progression(StepCount(ms, 0), StepCount(ms, 1), StepCount(ms, 2), CountFrom(ms, 3))
  }

  lemma {:induction false} ProgressionCovers(ms: seq<StepManager>)
    ensures StepCount(ms, 0) + StepCount(ms, 1) + StepCount(ms, 2) + CountFrom(ms, 3) + CountNegative(ms) == |ms|
  {
    if |ms| > 0 {
      ProgressionCovers(ms[..|ms| - 1]);
    }
  }

  /**
   * `most_common_step`: Python's `max` over the dictionary in insertion
   * order keeps the first step with the highest count.
   */
  function MostCommonStep(ms: seq<StepManager>): (r: Option<int>)
    ensures r.None? <==> |ms| == 0
    ensures r.Some? ==> StepCount(ms, r.value) > 0 &&
                        forall s :: s in DistinctSteps(ms) ==> StepCount(ms, s) <= StepCount(ms, r.value)
    ensures r.Some? ==>
              forall i :: (0 <= i < |DistinctSteps(ms)| && DistinctSteps(ms)[i] != r.value &&
                           StepCount(ms, DistinctSteps(ms)[i]) == StepCount(ms, r.value)) ==>
                          exists j :: 0 <= j < i && DistinctSteps(ms)[j] == r.value
  {
    var d := DistinctSteps(ms);
    if |d| == 0 then
      assert |ms| > 0 ==> ms[0].tradeStep in d;
      None
    else Some(d[FirstMax(ms, d)])
  }

  /** The index of the first listed step with the highest count. */
  function FirstMax(ms: seq<StepManager>, d: seq<int>): (i: nat)
    requires |d| > 0
    ensures i < |d|
    ensures forall k :: 0 <= k < |d| ==> StepCount(ms, d[k]) <= StepCount(ms, d[i])
    ensures forall k :: 0 <= k < i ==> StepCount(ms, d[k]) < StepCount(ms, d[i])
  {
    if |d| == 1 then 0
    else
      var j := FirstMax(ms, d[..|d| - 1]);
      if StepCount(ms, d[|d| - 1]) > StepCount(ms, d[j]) then |d| - 1 else j
  }

  // ---------------------------------------------------------------------
  // get_risk_analysis
  // ---------------------------------------------------------------------

  /** How many managers fall in a risk level. */
  function CountLevel(ms: seq<StepManager>, level: Level): (n: nat)
    ensures n <= |ms|
  {
    if |ms| == 0 then 0
    else CountLevel(ms[..|ms| - 1], level) + if PriceRisk(ms[|ms| - 1].lastTradePrices) == level then 1 else 0
  }

  /** Every manager falls in exactly one risk level. */
  lemma {:induction false} LevelsCoverManagers(ms: seq<StepManager>)
    ensures CountLevel(ms, Low) + CountLevel(ms, Medium) + CountLevel(ms, High) + CountLevel(ms, Unknown) == |ms|
  {
    if |ms| > 0 {
      LevelsCoverManagers(ms[..|ms| - 1]);
    }
  }

  /** The overall level from the share of high-risk stocks: above 30% high, above 15% medium, otherwise low. */
  function OverallOf(high: nat, total: nat): (r: Level)
    ensures total == 0 ==> r == Low
    ensures total > 0 ==> (r == High <==> 10 * high > 3 * total) &&
                          (r == Low <==> 20 * high <= 3 * total) &&
                          r != Unknown
  {
    var ratio := PyNum.Percent(high, total);
    ShareBands(high, total);
    if ratio > 30.0 then High else if ratio > 15.0 then Medium else Low
  }

  lemma ShareBands(high: nat, total: nat)
    ensures total > 0 ==> (PyNum.Percent(high, total) > 30.0 <==> 10 * high > 3 * total)
    ensures total > 0 ==> (PyNum.Percent(high, total) > 15.0 <==> 20 * high > 3 * total)
  {
    if total > 0 {
      PyNum.PercentVersus(high, total, 30.0);
      PyNum.PercentVersus(high, total, 15.0);
    }
  }

  function LevelRank(l: Level): int
  {
    match l
    case Unknown => 0
    case Low => 1
    case Medium => 2
    case High => 3
  }

  /** More high-risk stocks in the same portfolio never lower the overall level. */
  lemma OverallMonotone(h1: nat, h2: nat, total: nat)
    requires h1 <= h2
    ensures LevelRank(OverallOf(h1, total)) <= LevelRank(OverallOf(h2, total))
  {
  }

  /** `overall_risk_level`: unknown for an empty portfolio, otherwise from the high-risk share. */
  function OverallRisk(ms: seq<StepManager>): (r: Level)
    ensures r == Unknown <==> |ms| == 0
    ensures |ms| > 0 ==> (r == High <==> 10 * CountLevel(ms, High) > 3 * |ms|)
  {
    if |ms| == 0 then Unknown else OverallOf(CountLevel(ms, High), |ms|)
  }

  function HoldValues(ms: seq<StepManager>): (r: seq<int>)
    ensures |r| == |ms| && forall k :: 0 <= k < |ms| ==> r[k] == ms[k].HoldValue()
  {
    seq(|ms|, k requires 0 <= k < |ms| => ms[k].HoldValue())
  }

  /** A manager holds more than 20% of a positive portfolio value. */
  predicate Concentrated(m: StepManager, total: int)
  {
    total > 0 && PyNum.Percent(m.HoldValue(), total) > 20.0
  }

  lemma ConcentratedMeans(m: StepManager, total: int)
    ensures Concentrated(m, total) <==> total > 0 && m.HoldValue() * 100 > 20 * total
  {
    if total > 0 {
      PyNum.PercentVersus(m.HoldValue(), total, 20.0);
    }
  }

  /** The managers flagged for concentration, in portfolio order. */
  function ConcentratedManagers(ms: seq<StepManager>, total: int): (r: seq<StepManager>)
    ensures |r| <= |ms|
    ensures forall m :: m in r <==> m in ms && Concentrated(m, total)
    ensures total > 0 ==> forall m :: m in r ==> m.HoldValue() * 100 > 20 * total
  {
    if |ms| == 0 then []
    else
      var rest := ConcentratedManagers(ms[..|ms| - 1], total);
      var m := ms[|ms| - 1];
      assert ms == ms[..|ms| - 1] + [m];
      ConcentratedMeans(m, total);
      if Concentrated(m, total) then rest + [m] else rest
  }

  /**
   * With non-negative holdings, at most four stocks can each hold more than
   * a fifth of the portfolio.
   */
  lemma AtMostFourConcentrated(ms: seq<StepManager>)
    requires forall k :: 0 <= k < |ms| ==> ms[k].HoldValue() >= 0
    ensures |ConcentratedManagers(ms, Sum(HoldValues(ms)))| <= 4
  {
    var total := Sum(HoldValues(ms));
    var f := ConcentratedManagers(ms, total);
    if |f| > 0 {
      assert f[0] in f;
      assert total > 0;
      FlaggedShareBounded(ms, total);
      ExceedEach(f, total);
      FewerThanFive(|f|, total);
    }
  }

  lemma FewerThanFive(n: int, t: int)
    requires t > 0 && 20 * t * n < 100 * t
    ensures n < 5
  {
    if n >= 5 {
      MulMono(5, n, 20 * t);
    }
  }

  /** The flagged holdings add up to no more than all the holdings. */
  lemma {:induction false} FlaggedShareBounded(ms: seq<StepManager>, total: int)
    requires forall k :: 0 <= k < |ms| ==> ms[k].HoldValue() >= 0
    ensures Sum(HoldValues(ConcentratedManagers(ms, total))) <= Sum(HoldValues(ms))
  {
    if |ms| > 0 {
      var init, m := ms[..|ms| - 1], ms[|ms| - 1];
      assert ms == init + [m];
      assert m.HoldValue() >= 0;
      FlaggedShareBounded(init, total);
      var f0 := ConcentratedManagers(init, total);
      ConcentratedStep(ms, total);
      SumHoldAppend(init, m);
      SumHoldAppend(f0, m);
    }
  }

  /** One more manager either joins the flagged ones at the end or leaves them as they were. */
  lemma ConcentratedStep(ms: seq<StepManager>, total: int)
    requires |ms| > 0
    ensures var f0 := ConcentratedManagers(ms[..|ms| - 1], total);
            ConcentratedManagers(ms, total) == f0 || ConcentratedManagers(ms, total) == f0 + [ms[|ms| - 1]]
  {
  }

  /** The holdings of a list with one more manager add up to one more holding. */
  lemma SumHoldAppend(ms: seq<StepManager>, m: StepManager)
    ensures Sum(HoldValues(ms + [m])) == Sum(HoldValues(ms)) + m.HoldValue()
  {
    assert HoldValues(ms + [m])[..|ms|] == HoldValues(ms);
  }

  /** Holdings that each exceed a fifth of `total` add up to more than a fifth of it per holding. */
  lemma {:induction false} ExceedEach(f: seq<StepManager>, total: int)
    requires |f| > 0
    requires forall m :: m in f ==> m.HoldValue() * 100 > 20 * total
    ensures Sum(HoldValues(f)) * 100 > 20 * total * |f|
  {
    var init := f[..|f| - 1];
    assert HoldValues(f)[..|f| - 1] == HoldValues(init);
    assert f[|f| - 1] in f;
    if |init| > 0 {
      forall m | m in init ensures m.HoldValue() * 100 > 20 * total {
        assert m in f;
      }
      ExceedEach(init, total);
    }
  }
}
