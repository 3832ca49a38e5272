/**
 * Daily-chart analysis of the long-term strategy: moving-average crossover
 * runs, zig-zag price pivots, the closes that would keep each moving average
 * flat, rankings of highs and lows, and volatility counts.
 *
 * A chart is a sequence of processed daily bars, newest first, as the chart
 * processing step leaves it (absolute prices, integer moving averages, and
 * the per-day `open_close` and `high_low` percentages).
 */
module LongTrading {
  import opened Wrappers
  import PyNum
  import Sorting

  datatype DayBar = DayBar(
    date: string,
    high: real,
    low: real,
    close: real,
    ma5: int,
    ma10: int,
    ma20: int,
    openClose: real,
    highLow: real)

  /** `df.head(n)`: the first `n` rows; a negative `n` drops that many rows from the end. */
  function Head<T>(s: seq<T>, n: int): (r: seq<T>)
    ensures n >= 0 ==> |r| == PyNum.Min(n, |s|)
    ensures n < 0 ==> |r| == PyNum.Max(0, |s| + n)
    ensures r == s[..|r|]
  {
    if n >= 0 then (if n <= |s| then s[..n] else s)
    else if |s| + n >= 0 then s[..|s| + n]
    else []
  }

  // ---------------------------------------------------------------------
  // ma_cross_analysis
  // ---------------------------------------------------------------------

  /** Oldest first: whether MA5 is at or above MA10 on each of the latest 20 days. */
  function CrossStates(chart: seq<DayBar>): (r: seq<bool>)
    ensures |r| == PyNum.Min(20, |chart|)
    ensures forall i :: 0 <= i < |r| ==> r[i] == (chart[|r| - 1 - i].ma5 >= chart[|r| - 1 - i].ma10)
  {
    var recent := Sorting.Reverse(Head(chart, 20));
    seq(|recent|, i requires 0 <= i < |recent| => recent[i].ma5 >= recent[i].ma10)
  }

  function Run(b: bool, n: nat): (r: seq<bool>)
    ensures |r| == n
    ensures forall i :: 0 <= i < n ==> r[i] == b
  {
    seq(n, _ => b)
  }

  /** The days a list of signed run lengths stands for: a positive entry is that many days at or above, a negative one that many days below. */
  function Expand(runs: seq<int>): seq<bool>
  {
    if |runs| == 0 then []
    else Expand(runs[..|runs| - 1]) + Run(runs[|runs| - 1] > 0, PyNum.Abs(runs[|runs| - 1]))
  }

  function AbsSum(runs: seq<int>): nat
  {
    if |runs| == 0 then 0 else AbsSum(runs[..|runs| - 1]) + PyNum.Abs(runs[|runs| - 1])
  }

  /** Every run is non-empty and consecutive runs have opposite signs. */
  predicate WellFormedRuns(runs: seq<int>)
  {
    (forall k :: 0 <= k < |runs| ==> runs[k] != 0) &&
    (forall k :: 0 <= k < |runs| - 1 ==> (runs[k] > 0) != (runs[k + 1] > 0))
  }

  lemma ExpandAppend(runs: seq<int>, e: int)
    ensures Expand(runs + [e]) == Expand(runs) + Run(e > 0, PyNum.Abs(e))
  {
    assert (runs + [e])[..|runs|] == runs;
  }

  lemma {:induction false} ExpandLength(runs: seq<int>)
    ensures |Expand(runs)| == AbsSum(runs)
    decreases |runs|
  {
    if |runs| > 0 {
      ExpandLength(runs[..|runs| - 1]);
    }
  }

  /** The run length encoding of the crossover states, oldest first. */
  method MaCrossAnalysis(chart: seq<DayBar>) returns (runs: seq<int>)
    ensures Expand(runs) == CrossStates(chart)
    ensures WellFormedRuns(runs)
    ensures AbsSum(runs) == PyNum.Min(20, |chart|)
    ensures |runs| == 0 <==> |chart| == 0
  {
    runs := RunLengths(CrossStates(chart));
  }

  /** Groups consecutive equal states: a run at or above as its length, a run below as its negated length. */
  method RunLengths(states: seq<bool>) returns (runs: seq<int>)
    ensures Expand(runs) == states
    ensures WellFormedRuns(runs)
    ensures AbsSum(runs) == |states|
    ensures |runs| == 0 <==> |states| == 0
  {
    if |states| < 1 {
      return [];
    }
    var current, count;
    runs, current, count := ClosedRuns(states);
    var e := if current then count as int else -(count as int);
    ExpandAppend(runs, e);
    WellFormedAppend(runs, e);
    runs := runs + [e];
    assert states[..|states|] == states;
    ExpandLength(runs);
  }

  /** All runs but the last, which is still open: its state and how many days it has so far. */
  method ClosedRuns(states: seq<bool>) returns (runs: seq<int>, current: bool, count: nat)
    requires |states| >= 1
    ensures count >= 1
    ensures Expand(runs) + Run(current, count) == states
    ensures WellFormedRuns(runs)
    ensures |runs| > 0 ==> (runs[|runs| - 1] > 0) != current
  {
    runs := [];
    current := states[0];
    count := 1;
    var i := 1;
    assert states[..1] == Run(current, 1);
    while i < |states|
      invariant 1 <= i <= |states|
      invariant 1 <= count <= i
      invariant Expand(runs) + Run(current, count) == states[..i]
      invariant WellFormedRuns(runs)
      invariant |runs| > 0 ==> (runs[|runs| - 1] > 0) != current
    {
      if states[i] == current {
        SameStateExtends(Expand(runs), current, count, states, i);
        count := count + 1;
      } else {
        var e := if current then count as int else -(count as int);
        NewStateExtends(runs, current, count, states, i);
        WellFormedAppend(runs, e);
        runs := runs + [e];
        current := states[i];
        count := 1;
      }
      i := i + 1;
    }
    assert states[..i] == states;
  }

  lemma WellFormedAppend(runs: seq<int>, e: int)
    requires WellFormedRuns(runs) && e != 0
    requires |runs| > 0 ==> (runs[|runs| - 1] > 0) != (e > 0)
    ensures WellFormedRuns(runs + [e])
  {
  }

  lemma SameStateExtends(done: seq<bool>, current: bool, count: nat, states: seq<bool>, i: nat)
    requires i < |states| && states[i] == current
    requires done + Run(current, count) == states[..i]
    ensures done + Run(current, count + 1) == states[..i + 1]
  {
    assert states[..i + 1] == states[..i] + [states[i]];
    assert Run(current, count + 1) == Run(current, count) + [current];
  }

  lemma NewStateExtends(runs: seq<int>, current: bool, count: nat, states: seq<bool>, i: nat)
    requires i < |states| && states[i] != current && count >= 1
    requires Expand(runs) + Run(current, count) == states[..i]
    ensures Expand(runs + [if current then count as int else -(count as int)]) + Run(states[i], 1) == states[..i + 1]
  {
    var e := if current then count as int else -(count as int);
    ExpandAppend(runs, e);
    assert states[..i + 1] == states[..i] + [states[i]];
    assert Run(states[i], 1) == [states[i]];
  }

  /** How many days at the end share the last day's state. */
  function TrailingRun(s: seq<bool>): nat
  {
    if |s| == 0 then 0
    else if |s| >= 2 && s[|s| - 2] == s[|s| - 1] then 1 + TrailingRun(s[..|s| - 1])
    else 1
  }

  lemma {:induction false} TrailingOfRun(x: seq<bool>, b: bool, n: nat)
    requires n >= 1
    requires |x| == 0 || x[|x| - 1] != b
    ensures TrailingRun(x + Run(b, n)) == n
    decreases n
  {
    var s := x + Run(b, n);
    if n >= 2 {
      assert s[..|s| - 1] == x + Run(b, n - 1);
      TrailingOfRun(x, b, n - 1);
    }
  }

  lemma WellFormedPrefix(runs: seq<int>)
    requires WellFormedRuns(runs) && |runs| > 0
    ensures WellFormedRuns(runs[..|runs| - 1])
  {
  }

  /** The last day of a well-formed expansion carries the last run's sign. */
  lemma {:induction false} ExpandEnds(runs: seq<int>)
    requires WellFormedRuns(runs) && |runs| > 0
    ensures |Expand(runs)| > 0
    ensures Expand(runs)[|Expand(runs)| - 1] == (runs[|runs| - 1] > 0)
  {
  }

  /** The last run of a well-formed list is exactly the trailing run of its days. */
  lemma {:induction false} LastRunIsTrailing(runs: seq<int>)
    requires WellFormedRuns(runs) && |runs| > 0
    ensures TrailingRun(Expand(runs)) == PyNum.Abs(runs[|runs| - 1])
  {
    var init := runs[..|runs| - 1];
    var last := runs[|runs| - 1];
    WellFormedPrefix(runs);
    if |init| > 0 {
      ExpandEnds(init);
    }
    TrailingOfRun(Expand(init), last > 0, PyNum.Abs(last));
  }

  /** Run length encoding is unique: two well-formed lists with the same days are the same list. */
  lemma {:induction false} RunsAreUnique(a: seq<int>, b: seq<int>)
    requires WellFormedRuns(a) && WellFormedRuns(b)
    requires Expand(a) == Expand(b)
    ensures a == b
    decreases |a|
  {
    if |a| == 0 || |b| == 0 {
      if |a| > 0 {
        ExpandEnds(a);
      }
      if |b| > 0 {
        ExpandEnds(b);
      }
    } else {
      LastRunIsTrailing(a);
      LastRunIsTrailing(b);
      ExpandEnds(a);
      ExpandEnds(b);
      var la := a[|a| - 1];
      var lb := b[|b| - 1];
      assert la == lb;
      var ia := a[..|a| - 1];
      var ib := b[..|b| - 1];
      assert Expand(a) == Expand(ia) + Run(la > 0, PyNum.Abs(la));
      assert Expand(b) == Expand(ib) + Run(lb > 0, PyNum.Abs(lb));
      assert Expand(ia) == Expand(a)[..|Expand(ia)|];
      assert Expand(ib) == Expand(b)[..|Expand(ib)|];
      WellFormedPrefix(a);
      WellFormedPrefix(b);
      RunsAreUnique(ia, ib);
      assert a == ia + [la] && b == ib + [lb];
    }
  }

  // ---------------------------------------------------------------------
  // price_pattern
  // ---------------------------------------------------------------------

  datatype PivotKind = Start | High | Low

  datatype Pivot = Pivot(date: string, price: int, kind: PivotKind)

  /** The trend being followed: none yet, `'up'` or `'down'`. */
  datatype Trend = Undecided | Rising | Falling

  datatype Scan = Scan(pivots: seq<Pivot>, trend: Trend, extreme: int, extremeDate: string)

  datatype Point = Point(date: string, price: int)

  /**
   * How a pivot may follow its predecessor: the first turn is any move away
   * from the start, a high after a low is more than 3% above it, and a low
   * after a high is more than 3% below it.
   */
  predicate Follows(a: Pivot, b: Pivot)
  {
    match b.kind
    case Start => false
    case High =>
      (a.kind == Start && b.price > a.price) ||
      (a.kind == Low && (b.price as real) > (a.price as real) * 1.03)
    case Low =>
      (a.kind == Start && b.price < a.price) ||
      (a.kind == High && (b.price as real) < (a.price as real) * 0.97)
  }

  predicate ZigZag(pivots: seq<Pivot>)
  {
    forall k :: 0 < k < |pivots| ==> Follows(pivots[k - 1], pivots[k])
  }

  /** What the scan keeps true: the pivots so far zig-zag, and the running extreme could follow the last one. */
  predicate ScanInvariant(s: Scan, start: Point)
  {
    |s.pivots| >= 1 &&
    s.pivots[0] == Pivot(start.date, start.price, Start) &&
    ZigZag(s.pivots) &&
    (s.trend == Undecided ==> |s.pivots| == 1 && s.extreme == start.price) &&
    (s.trend == Rising ==> Follows(s.pivots[|s.pivots| - 1], Pivot(s.extremeDate, s.extreme, High))) &&
    (s.trend == Falling ==> Follows(s.pivots[|s.pivots| - 1], Pivot(s.extremeDate, s.extreme, Low)))
  }

  /** One iteration of the scan over the closes. */
  function Step(s: Scan, start: int, p: Point): (r: Scan)
    ensures |s.pivots| <= |r.pivots| <= |s.pivots| + 1 && r.pivots[..|s.pivots|] == s.pivots
    ensures |r.pivots| == |s.pivots| + 1 ==>
              (s.trend == Rising && (p.price as real) < (s.extreme as real) * 0.97 && r.trend == Falling) ||
              (s.trend == Falling && (p.price as real) > (s.extreme as real) * 1.03 && r.trend == Rising)
  {
    match s.trend
    case Undecided =>
      if p.price > start then Scan(s.pivots, Rising, p.price, p.date)
      else if p.price < start then Scan(s.pivots, Falling, p.price, p.date)
      else s
    case Rising =>
      if p.price > s.extreme then s.(extreme := p.price, extremeDate := p.date)
      else if (p.price as real) < (s.extreme as real) * 0.97 then
        Scan(s.pivots + [Pivot(s.extremeDate, s.extreme, High)], Falling, p.price, p.date)
      else s
    case Falling =>
      if p.price < s.extreme then s.(extreme := p.price, extremeDate := p.date)
      else if (p.price as real) > (s.extreme as real) * 1.03 then
        Scan(s.pivots + [Pivot(s.extremeDate, s.extreme, Low)], Rising, p.price, p.date)
      else s
  }

  lemma StepKeepsInvariant(s: Scan, start: Point, p: Point)
    requires ScanInvariant(s, start)
    ensures ScanInvariant(Step(s, start.price, p), start)
  {
  }

  /** The scan after the first `n` points. */
  function ScanUpTo(points: seq<Point>, n: nat): (r: Scan)
    requires 1 <= n <= |points|
    ensures ScanInvariant(r, points[0])
  {
    if n == 1 then Scan([Pivot(points[0].date, points[0].price, Start)], Undecided, points[0].price, points[0].date)
    else
      var prev := ScanUpTo(points, n - 1);
      StepKeepsInvariant(prev, points[0], points[n - 1]);
      Step(prev, points[0].price, points[n - 1])
  }

  /** The closing extreme, added when it goes beyond the last pivot in the trend's direction. */
  function Finish(s: Scan): (r: seq<Pivot>)
    requires |s.pivots| >= 1
    ensures |r| == |s.pivots| || |r| == |s.pivots| + 1
    ensures r[..|s.pivots|] == s.pivots
  {
    var last := s.pivots[|s.pivots| - 1];
    if s.trend == Rising && s.extreme > last.price then s.pivots + [Pivot(s.extremeDate, s.extreme, High)]
    else if s.trend == Falling && s.extreme < last.price then s.pivots + [Pivot(s.extremeDate, s.extreme, Low)]
    else s.pivots
  }

  lemma FinishKeepsZigZag(s: Scan, start: Point)
    requires ScanInvariant(s, start)
    ensures ZigZag(Finish(s))
  {
    var r := Finish(s);
    var n := |s.pivots|;
    if |r| == n + 1 {
      forall k | 0 < k < |r| ensures Follows(r[k - 1], r[k]) {
        if k < n {
          assert r[k - 1] == s.pivots[k - 1] && r[k] == s.pivots[k];
        }
      }
    }
  }

  function Points(bars: seq<DayBar>): (r: seq<Point>)
    ensures |r| == |bars|
    ensures forall i :: 0 <= i < |r| ==> r[i] == Point(bars[i].date, PyNum.Trunc(bars[i].close))
  {
    seq(|bars|, i requires 0 <= i < |bars| => Point(bars[i].date, PyNum.Trunc(bars[i].close)))
  }

  function ByDate(b: DayBar): string
  {
    b.date
  }

  /**
   * The turning points of the closes, oldest first: the first close as the
   * start, then alternating highs and lows, each a reversal of more than 3%
   * from the previous pivot.
   */
  function PricePattern(chart: seq<DayBar>): (r: seq<Pivot>)
    ensures |chart| < 3 ==> r == []
    ensures |chart| >= 3 ==>
              |r| >= 1 && r[0].kind == Start &&
              exists b :: b in chart && r[0] == Pivot(b.date, PyNum.Trunc(b.close), Start) &&
                          forall c :: c in chart ==> Sorting.StrLe(b.date, c.date)
    ensures ZigZag(r)
  {
    if |chart| < 3 then []
    else
      var sorted := Sorting.SortBy(chart, ByDate);
      var points := Points(sorted);
      var s := ScanUpTo(points, |points|);
      FinishKeepsZigZag(s, points[0]);
      var r := Finish(s);
      EarliestFirst(chart, sorted);
      r
  }

  lemma EarliestFirst(chart: seq<DayBar>, sorted: seq<DayBar>)
    requires |sorted| >= 1
    requires multiset(sorted) == multiset(chart) && Sorting.SortedBy(sorted, ByDate)
    ensures sorted[0] in chart
    ensures forall c :: c in chart ==> Sorting.StrLe(sorted[0].date, c.date)
  {
    assert sorted[0] in multiset(sorted);
    forall c | c in chart ensures Sorting.StrLe(sorted[0].date, c.date) {
      assert c in multiset(sorted);
      var j :| 0 <= j < |sorted| && sorted[j] == c;
      if j > 0 {
        assert Sorting.StrLe(ByDate(sorted[0]), ByDate(sorted[j]));
      } else {
        Sorting.StrLeTotal(c.date, c.date);
      }
    }
  }

  // ---------------------------------------------------------------------
  // decision_price
  // ---------------------------------------------------------------------

  function Sum(s: seq<real>): real
  {
    if |s| == 0 then 0.0 else Sum(s[..|s| - 1]) + s[|s| - 1]
  }

  function Closes(chart: seq<DayBar>): (r: seq<real>)
    ensures |r| == |chart|
    ensures forall i :: 0 <= i < |r| ==> r[i] == chart[i].close
  {
    seq(|chart|, i requires 0 <= i < |chart| => chart[i].close)
  }

  /**
   * The close that would keep an `n`-day average at `ma` tomorrow, from the
   * latest `n - 1` closes: with fewer closes, the average itself. Never negative.
   */
  function DecisionFor(ma: int, n: nat, closes: seq<real>): (r: int)
    requires n >= 1
    ensures r >= 0
    ensures |closes| < n - 1 ==> r == PyNum.Max(0, ma)
    ensures |closes| >= n - 1 && r > 0 ==>
              var kept := Sum(closes[..n - 1]);
              kept + r as real <= (ma as real) * (n as real) < kept + r as real + 1.0
    ensures |closes| >= n - 1 && r == 0 ==> (ma as real) * (n as real) < Sum(closes[..n - 1]) + 1.0
  {
    if |closes| >= n - 1 then PyNum.Max(0, PyNum.Trunc((ma as real) * (n as real) - Sum(closes[..n - 1])))
    else PyNum.Max(0, ma)
  }

  datatype Decision = Decision(ma5: int, ma10: int, ma20: int)

  /** The break-even closes for MA5, MA10 and MA20; all zero on fewer than two bars. */
  function DecisionPrice(chart: seq<DayBar>): (r: Decision)
    ensures |chart| < 2 ==> r == Decision(0, 0, 0)
    ensures r.ma5 >= 0 && r.ma10 >= 0 && r.ma20 >= 0
    ensures |chart| >= 2 ==>
              r.ma5 == DecisionFor(chart[0].ma5, 5, Closes(chart)) &&
              r.ma10 == DecisionFor(chart[0].ma10, 10, Closes(chart)) &&
              r.ma20 == DecisionFor(chart[0].ma20, 20, Closes(chart))
  {
    if |chart| < 2 then Decision(0, 0, 0)
    else
      var closes := Closes(chart);
      Decision(DecisionFor(chart[0].ma5, 5, closes),
               DecisionFor(chart[0].ma10, 10, closes),
               DecisionFor(chart[0].ma20, 20, closes))
  }

  /** With at least four bars, a positive MA5 decision price keeps the next five-day average within a fifth of today's. */
  lemma DecisionKeepsFiveDayAverage(chart: seq<DayBar>)
    requires |chart| >= 4
    requires DecisionPrice(chart).ma5 > 0
    ensures var avg := (Sum(Closes(chart)[..4]) + DecisionPrice(chart).ma5 as real) / 5.0;
            avg <= chart[0].ma5 as real < avg + 0.2
  {
  }

  // ---------------------------------------------------------------------
  // price_expectation, get_price_rankings, volatility counts
  // ---------------------------------------------------------------------

  datatype Expectation = Expectation(short: real, middle: real, long: real)

  /** The closes 5, 10 and 20 bars back, or the latest close three times on a short chart; nothing on an empty one. */
  function PriceExpectation(chart: seq<DayBar>): (r: Option<Expectation>)
    ensures r.None? <==> |chart| == 0
    ensures 0 < |chart| < 20 ==> r == Some(Expectation(chart[0].close, chart[0].close, chart[0].close))
    ensures |chart| >= 20 ==> r == Some(Expectation(chart[4].close, chart[9].close, chart[19].close))
  {
    if |chart| == 0 then None
    else if |chart| < 20 then Some(Expectation(chart[0].close, chart[0].close, chart[0].close))
    else Some(Expectation(chart[4].close, chart[9].close, chart[19].close))
  }

  /** Every expectation is the close of one of the latest 20 bars. */
  lemma ExpectationsAreRecentCloses(chart: seq<DayBar>)
    requires |chart| > 0
    ensures var e := PriceExpectation(chart).value;
            var recent := Closes(Head(chart, 20));
            e.short in recent && e.middle in recent && e.long in recent
  {
    var recent := Closes(Head(chart, 20));
    assert recent[0] == chart[0].close;
    if |chart| >= 20 {
      assert recent[4] == chart[4].close && recent[9] == chart[9].close && recent[19] == chart[19].close;
    }
  }

  function Highs(chart: seq<DayBar>): (r: seq<real>)
    ensures |r| == |chart|
    ensures forall i :: 0 <= i < |r| ==> r[i] == chart[i].high
  {
    seq(|chart|, i requires 0 <= i < |chart| => chart[i].high)
  }

  function Lows(chart: seq<DayBar>): (r: seq<real>)
    ensures |r| == |chart|
    ensures forall i :: 0 <= i < |r| ==> r[i] == chart[i].low
  {
    seq(|chart|, i requires 0 <= i < |chart| => chart[i].low)
  }

  datatype Rankings = Rankings(highs: seq<real>, lows: seq<real>)

  /** Over the first `periods` bars: the highs from highest down, and the lows from lowest up. */
  function PriceRankings(chart: seq<DayBar>, periods: int): (r: Rankings)
    ensures multiset(r.highs) == multiset(Highs(Head(chart, periods)))
    ensures multiset(r.lows) == multiset(Lows(Head(chart, periods)))
    ensures Sorting.Descending(r.highs) && Sorting.Ascending(r.lows)
  {
    var recent := Head(chart, periods);
    Rankings(Sorting.SortRealsDescending(Highs(recent)), Sorting.SortReals(Lows(recent)))
  }

  /** A chart column to measure volatility on. */
  datatype Column = OpenClose | HighLow

  function ValueOf(b: DayBar, column: Column): real
  {
    match column
    case OpenClose => b.openClose
    case HighLow => b.highLow
  }

  function CountAtLeast(chart: seq<DayBar>, threshold: real, column: Column): nat
  {
    if |chart| == 0 then 0
    else CountAtLeast(chart[..|chart| - 1], threshold, column) +
         (if PyNum.AbsReal(ValueOf(chart[|chart| - 1], column)) >= threshold then 1 else 0)
  }

  function VolatileDays(chart: seq<DayBar>, threshold: real, column: Column): set<int>
  {
    set i | 0 <= i < |chart| && PyNum.AbsReal(ValueOf(chart[i], column)) >= threshold
  }

  lemma {:induction false} CountIsVolatileDays(chart: seq<DayBar>, threshold: real, column: Column)
    ensures CountAtLeast(chart, threshold, column) == |VolatileDays(chart, threshold, column)|
    decreases |chart|
  {
    if |chart| > 0 {
      var n := |chart| - 1;
      CountIsVolatileDays(chart[..n], threshold, column);
      VolatileExtend(chart, threshold, column);
      if PyNum.AbsReal(ValueOf(chart[n], column)) >= threshold {
        assert n !in VolatileDays(chart[..n], threshold, column);
      }
    }
  }

  /** The volatile days of a chart are those of its prefix, plus the last bar when it is volatile. */
  lemma VolatileExtend(chart: seq<DayBar>, threshold: real, column: Column)
    requires |chart| > 0
    ensures var n := |chart| - 1;
            VolatileDays(chart, threshold, column) ==
              VolatileDays(chart[..n], threshold, column) +
              (if PyNum.AbsReal(ValueOf(chart[n], column)) >= threshold then {n} else {})
  {
    var n := |chart| - 1;
    forall i | 0 <= i < n
      ensures chart[..n][i] == chart[i]
    {
    }
  }

  /** The number of bars whose column value is at least `threshold` in absolute value. */
  function HighVolatilityDays(chart: seq<DayBar>, threshold: real, column: Column): (r: nat)
    ensures r == |VolatileDays(chart, threshold, column)|
    ensures r <= |chart|
  {
    CountIsVolatileDays(chart, threshold, column);
    CountBounded(chart, threshold, column);
    CountAtLeast(chart, threshold, column)
  }

  lemma {:induction false} CountBounded(chart: seq<DayBar>, threshold: real, column: Column)
    ensures CountAtLeast(chart, threshold, column) <= |chart|
    decreases |chart|
  {
    if |chart| > 0 {
      CountBounded(chart[..|chart| - 1], threshold, column);
    }
  }

  /** `count_high_range_days`: the same count on the high-low column, 7% by default. */
  function HighRangeDays(chart: seq<DayBar>, threshold: real): (r: nat)
    ensures r == |VolatileDays(chart, threshold, HighLow)|
  {
    HighVolatilityDays(chart, threshold, HighLow)
  }

  /** Raising the threshold never counts more days. */
  lemma {:induction false} HigherThresholdFewerDays(chart: seq<DayBar>, low: real, high: real, column: Column)
    requires low <= high
    ensures CountAtLeast(chart, high, column) <= CountAtLeast(chart, low, column)
    decreases |chart|
  {
    if |chart| > 0 {
      HigherThresholdFewerDays(chart[..|chart| - 1], low, high, column);
    }
  }
}
