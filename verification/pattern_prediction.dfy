/**
 * The pattern-based next-open predictor: for a stock that rose 2 % or more
 * today, tomorrow's open is predicted from how today's open and close sit
 * against yesterday's, with one table for a rising yesterday and one for a
 * falling one. Batch prediction groups daily rows by stock code, orders each
 * group by date and predicts from its last two rows.
 */
module PatternPrediction {
  import opened Wrappers
  import PyStr
  import Decimal
  import Sorting

  // ---------------------------------------------------------------------
  // Prices from rows
  // ---------------------------------------------------------------------

  /** A row value: a number, a string, or anything else. */
  datatype Value = Num(n: real) | Str(s: string) | Other

  /**
   * `parse_price`: numbers pass through; a string has its commas removed
   * and goes through `float`, except that the empty string is 0; anything
   * else is 0. None is the ValueError of a string `float` rejects.
   */
  function ParsePrice(v: Value): (r: Option<real>)
    ensures v.Num? ==> r == Some(v.n)
    ensures v.Other? || v == Str("") ==> r == Some(0.0)
    ensures v.Str? && v.s != "" ==> r == Decimal.ParseFloat(PyStr.Remove(v.s, ','))
  {
    match v
    case Num(n) => Some(n)
    case Str(s) => if s == "" then Some(0.0) else Decimal.ParseFloat(PyStr.Remove(s, ','))
    case Other => Some(0.0)
  }

  /** Thousands separators make no difference to a price. */
  lemma CommasDoNotMatter(s: string)
    requires s != "" && PyStr.Remove(s, ',') != ""
    ensures ParsePrice(Str(s)) == ParsePrice(Str(PyStr.Remove(s, ',')))
  {
    PyStr.RemoveAbsent(PyStr.Remove(s, ','), ',');
  }

  /** A lone comma is not a price: it leaves nothing for `float`. */
  lemma LoneCommaIsRejected()
    ensures ParsePrice(Str(",")) == None
  {
    assert PyStr.Remove(",", ',') == "";
    assert PyStr.Strip("") == "";
    assert PyStr.Split("", '.') == [""];
  }

  // ---------------------------------------------------------------------
  // The prediction tables
  // ---------------------------------------------------------------------

  /** `calculate_change_rate`: percent change from open to close, 0 for an open of 0. */
  function ChangeRate(open: real, close: real): (r: real)
    ensures open == 0.0 ==> r == 0.0
    ensures open != 0.0 ==> r * open == (close - open) * 100.0
  {
    if open == 0.0 then 0.0 else (close - open) / open * 100.0
  }

  /** `is_rising_stock`: a change rate of 2 % or more. */
  predicate IsRising(open: real, close: real) {
    ChangeRate(open, close) >= 2.0
  }

  /** On a positive open, rising means a close at least 2 % above it. */
  lemma RisingOnPositiveOpen(open: real, close: real)
    requires open > 0.0
    ensures IsRising(open, close) <==> close * 100.0 >= open * 102.0
  {
    var r := ChangeRate(open, close);
    if r >= 2.0 {
      assert r * open >= 2.0 * open;
    } else {
      assert r * open < 2.0 * open;
    }
  }

  /** Which case of a table decided the prediction. */
  datatype Case = GapAbove | FromInsideUp | Inside | FromBelowUp | FromBelowInside | ClosedBelow | Default

  /** `_predict_after_rising_day`: the first matching case wins. */
  function AfterRisingDay(yOpen: real, yClose: real, tOpen: real, tClose: real): (r: (real, Case))
    ensures r.0 == (tOpen + tClose) / 2.0 || r.0 == yClose || r.0 == tClose || r.0 == yOpen
    ensures r.1 == GapAbove <==> tOpen > yClose
    ensures r.1 == GapAbove || r.1 == Inside || r.1 == Default ==> r.0 == (tOpen + tClose) / 2.0
    ensures r.1 == FromInsideUp || r.1 == FromBelowUp ==> r.0 == yClose && tClose > yClose
  {
    if tOpen > yClose then ((tOpen + tClose) / 2.0, GapAbove)
    else if yOpen <= tOpen <= yClose && tClose > yClose then (yClose, FromInsideUp)
    else if yOpen <= tOpen <= yClose && yOpen <= tClose <= yClose then ((tOpen + tClose) / 2.0, Inside)
    else if tOpen < yOpen && tClose > yClose then (yClose, FromBelowUp)
    else if tOpen < yOpen && yOpen <= tClose <= yClose then (tClose, FromBelowInside)
    else if tClose < yOpen then (yOpen, ClosedBelow)
    else ((tOpen + tClose) / 2.0, Default)
  }

  /** `_predict_after_falling_day`: the first matching case wins. */
  function AfterFallingDay(yOpen: real, yClose: real, tOpen: real, tClose: real): (r: (real, Case))
    ensures r.0 == tClose || r.0 == yOpen || r.0 == yClose
    ensures r.1 == GapAbove <==> tOpen > yClose
    ensures r.1 == FromInsideUp || r.1 == FromBelowUp ==> r.0 == yOpen
  {
    if tOpen > yClose then (tClose, GapAbove)
    else if yClose <= tOpen <= yOpen && tClose > yClose then (yOpen, FromInsideUp)
    else if yClose <= tOpen <= yOpen && yClose <= tClose <= yOpen then (tClose, Inside)
    else if tOpen < yOpen && tClose > yClose then (yOpen, FromBelowUp)
    else if tOpen < yOpen && yClose <= tClose <= yOpen then (tClose, FromBelowInside)
    else if tClose < yOpen then (yClose, ClosedBelow)
    else (tClose, Default)
  }

  /** After a rising yesterday the default case is unreachable: the six cases cover every day. */
  lemma RisingTableIsComplete(yOpen: real, yClose: real, tOpen: real, tClose: real)
    requires yClose > yOpen
    ensures AfterRisingDay(yOpen, yClose, tOpen, tClose).1 != Default
  {
  }

  /** After a rising yesterday and a rising today, the prediction is never below yesterday's open. */
  lemma RisingDayPredictionAtLeastYesterdayOpen(yOpen: real, yClose: real, tOpen: real, tClose: real)
    requires yClose > yOpen && tOpen > 0.0 && IsRising(tOpen, tClose)
    ensures AfterRisingDay(yOpen, yClose, tOpen, tClose).0 >= yOpen
  {
    RisingOnPositiveOpen(tOpen, tClose);
  }

  /** After a falling yesterday and a rising today, the prediction is never below yesterday's close. */
  lemma FallingDayPredictionAtLeastYesterdayClose(yOpen: real, yClose: real, tOpen: real, tClose: real)
    requires yClose <= yOpen && tOpen > 0.0 && IsRising(tOpen, tClose)
    ensures AfterFallingDay(yOpen, yClose, tOpen, tClose).0 >= yClose
  {
    RisingOnPositiveOpen(tOpen, tClose);
  }

  /** One day's prices and volumes as `extract_stock_data` returns them. */
  datatype Day = Day(open: real, close: real, high: real, low: real, volume: real, tradeAmount: real)

  /**
   * `predict_tomorrow_open`: a ValueError unless today rose 2 % or more;
   * otherwise the table of a rising yesterday (close above open) or of a
   * falling one.
   */
  function PredictTomorrowOpen(yesterday: Day, today: Day): (r: Result<real, string>)
    ensures r.Success? <==> IsRising(today.open, today.close)
    ensures r.Success? && yesterday.close > yesterday.open ==>
              r.value == AfterRisingDay(yesterday.open, yesterday.close, today.open, today.close).0
    ensures r.Success? && yesterday.close <= yesterday.open ==>
              r.value == AfterFallingDay(yesterday.open, yesterday.close, today.open, today.close).0
  {
    if !IsRising(today.open, today.close) then Failure("ValueError: today did not rise 2 %")
    else if yesterday.close > yesterday.open then
      Success(AfterRisingDay(yesterday.open, yesterday.close, today.open, today.close).0)
    else Success(AfterFallingDay(yesterday.open, yesterday.close, today.open, today.close).0)
  }

  /**
   * A daily row as stored: code, date, and the six values `extract_stock_data`
   * reads (`open_pric`, `cur_prc`, `high_pric`, `low_pric`, `trde_qty`,
   * `trde_prica`).
   */
  datatype Row = Row(code: string, date: string, open: Value, close: Value,
                     high: Value, low: Value, volume: Value, amount: Value)

  /**
   * `extract_stock_data`: every value goes through `parse_price`, so the
   * row is rejected when any of the six is.
   */
  function Extract(row: Row): (r: Option<Day>)
    ensures r.Some? <==> ParsePrice(row.open).Some? && ParsePrice(row.close).Some?
                         && ParsePrice(row.high).Some? && ParsePrice(row.low).Some?
                         && ParsePrice(row.volume).Some? && ParsePrice(row.amount).Some?
    ensures r.Some? ==> r.value == Day(ParsePrice(row.open).value, ParsePrice(row.close).value,
                                       ParsePrice(row.high).value, ParsePrice(row.low).value,
                                       ParsePrice(row.volume).value, ParsePrice(row.amount).value)
  {
    var o, c := ParsePrice(row.open), ParsePrice(row.close);
    var h, l := ParsePrice(row.high), ParsePrice(row.low);
    var v, a := ParsePrice(row.volume), ParsePrice(row.amount);
    if o.None? || c.None? || h.None? || l.None? || v.None? || a.None? then None
    else Some(Day(o.value, c.value, h.value, l.value, v.value, a.value))
  }

  // ---------------------------------------------------------------------
  // Batch prediction
  // ---------------------------------------------------------------------

  function DateOf(row: Row): string {
    row.date
  }

  /** The codes of the rows, each once, in order of first appearance (the dict's key order). */
  function Codes(rows: seq<Row>): (r: seq<string>)
    ensures forall c :: c in r <==> exists i :: 0 <= i < |rows| && rows[i].code == c
    ensures forall i, j :: 0 <= i < j < |r| ==> r[i] != r[j]
  {
    if |rows| == 0 then []
    else
      var init := Codes(rows[..|rows| - 1]);
      var c := rows[|rows| - 1].code;
      assert forall i :: 0 <= i < |rows| - 1 ==> rows[..|rows| - 1][i] == rows[i];
      if c in init then init else init + [c]
  }

  /** The rows of one code, in input order. */
  function RowsOf(rows: seq<Row>, code: string): (r: seq<Row>)
    ensures forall i :: 0 <= i < |r| ==> r[i].code == code
    ensures multiset(r) == multiset(Filter(rows, code))
    ensures |r| <= |rows|
  {
    Filter(rows, code)
  }

  function Filter(rows: seq<Row>, code: string): (r: seq<Row>)
    ensures forall i :: 0 <= i < |r| ==> r[i].code == code
    ensures forall x :: x in r <==> x in rows && x.code == code
    ensures |r| <= |rows|
  {
    if |rows| == 0 then []
    else
      var init := Filter(rows[..|rows| - 1], code);
      var last := rows[|rows| - 1];
      assert forall x :: x in rows <==> x in rows[..|rows| - 1] || x == last;
      if last.code == code then init + [last] else init
  }

  /** `process_stock_data_list`: one group per code, sorted by date. */
  function Group(rows: seq<Row>, code: string): (r: seq<Row>)
    ensures multiset(r) == multiset(Filter(rows, code)) && |r| == |Filter(rows, code)|
    ensures Sorting.SortedBy(r, DateOf)
    ensures forall x :: x in r <==> x in rows && x.code == code
  {
    var g := Sorting.SortBy(Filter(rows, code), DateOf);
    assert forall x :: x in g <==> x in multiset(g);
    g
  }

  /** The groups together hold every row exactly once. */
  lemma GroupsPartitionRows(rows: seq<Row>)
    ensures SumOfGroupSizes(rows, Codes(rows)) == |rows|
  {
    GroupSizesAreFilterSizes(rows, Codes(rows));
    FiltersPartitionRows(rows);
  }

  function SumOfGroupSizes(rows: seq<Row>, codes: seq<string>): nat {
    if |codes| == 0 then 0
    else SumOfGroupSizes(rows, codes[..|codes| - 1]) + |Group(rows, codes[|codes| - 1])|
  }

  /** The same sum over the unsorted selections. */
  function SumOfFilterSizes(rows: seq<Row>, codes: seq<string>): nat {
    if |codes| == 0 then 0
    else SumOfFilterSizes(rows, codes[..|codes| - 1]) + |Filter(rows, codes[|codes| - 1])|
  }

  /** Sorting a group does not change its size. */
  lemma {:induction false} GroupSizesAreFilterSizes(rows: seq<Row>, codes: seq<string>)
    ensures SumOfGroupSizes(rows, codes) == SumOfFilterSizes(rows, codes)
    decreases |codes|
  {
    if |codes| > 0 {
      GroupSizesAreFilterSizes(rows, codes[..|codes| - 1]);
    }
  }

  /** The selections of the distinct codes together hold every row exactly once. */
  lemma {:induction false} FiltersPartitionRows(rows: seq<Row>)
    ensures SumOfFilterSizes(rows, Codes(rows)) == |rows|
    decreases |rows|
  {
    if |rows| > 0 {
      var init, last := rows[..|rows| - 1], rows[|rows| - 1];
      assert rows == init + [last];
      FiltersPartitionRows(init);
      var codes := Codes(init);
      FilterAppend(init, last);
      if last.code in codes {
        SizesGrowAtOne(init, last, codes);
      } else {
        SizesIgnoreNewCode(init, last, codes);
        assert Codes(rows) == codes + [last.code];
        SizesSplit(rows, codes, [last.code]);
      }
    }
  }

  lemma FilterAppend(rows: seq<Row>, last: Row)
    ensures forall c :: Filter(rows + [last], c) == Filter(rows, c) + (if last.code == c then [last] else [])
  {
    assert (rows + [last])[..|rows + [last]| - 1] == rows;
  }

  lemma {:induction false} SizesSplit(rows: seq<Row>, a: seq<string>, b: seq<string>)
    ensures SumOfFilterSizes(rows, a + b) == SumOfFilterSizes(rows, a) + SumOfFilterSizes(rows, b)
    decreases |b|
  {
    if |b| > 0 {
      assert (a + b)[..|a + b| - 1] == a + b[..|b| - 1];
      SizesSplit(rows, a, b[..|b| - 1]);
    } else {
      assert a + b == a;
    }
  }

  lemma {:induction false} SizesIgnoreNewCode(init: seq<Row>, last: Row, codes: seq<string>)
    requires last.code !in codes
    requires forall c :: Filter(init + [last], c) == Filter(init, c) + (if last.code == c then [last] else [])
    ensures SumOfFilterSizes(init + [last], codes) == SumOfFilterSizes(init, codes)
    decreases |codes|
  {
    if |codes| > 0 {
      SizesIgnoreNewCode(init, last, codes[..|codes| - 1]);
    }
  }

  lemma {:induction false} SizesGrowAtOne(init: seq<Row>, last: Row, codes: seq<string>)
    requires last.code in codes
    requires forall i, j :: 0 <= i < j < |codes| ==> codes[i] != codes[j]
    requires forall c :: Filter(init + [last], c) == Filter(init, c) + (if last.code == c then [last] else [])
    ensures SumOfFilterSizes(init + [last], codes) == SumOfFilterSizes(init, codes) + 1
    decreases |codes|
  {
    var front := codes[..|codes| - 1];
    if codes[|codes| - 1] == last.code {
      SizesIgnoreNewCode(init, last, front);
    } else {
      assert last.code in front;
      SizesGrowAtOne(init, last, front);
    }
  }

  /** One batch result. */
  datatype Prediction = Prediction(code: string, yesterday: Day, today: Day, changeRate: real, predictedOpen: real)

  /**
   * The prediction of one group: none for fewer than two rows, for rows
   * whose prices are rejected, or when today did not rise 2 %; otherwise
   * from the group's last two rows.
   */
  function PredictGroup(code: string, group: seq<Row>): (r: Option<Prediction>)
    ensures r.Some? ==> |group| >= 2
                        && Extract(group[|group| - 2]) == Some(r.value.yesterday)
                        && Extract(group[|group| - 1]) == Some(r.value.today)
                        && r.value.changeRate >= 2.0 && r.value.code == code
                        && Success(r.value.predictedOpen) == PredictTomorrowOpen(r.value.yesterday, r.value.today)
    ensures (|group| >= 2 && Extract(group[|group| - 2]).Some? && Extract(group[|group| - 1]).Some?
             && IsRising(Extract(group[|group| - 1]).value.open, Extract(group[|group| - 1]).value.close)) ==> r.Some?
  {
    if |group| < 2 then None
    else
      var y, t := Extract(group[|group| - 2]), Extract(group[|group| - 1]);
      if y.None? || t.None? then None
      else
        var p := PredictTomorrowOpen(y.value, t.value);
        if p.Failure? then None
        else Some(Prediction(code, y.value, t.value, ChangeRate(t.value.open, t.value.close), p.value))
  }

  /** A volume `float()` rejects in either of the last two rows leaves the code without a prediction. */
  lemma BadVolumeSkipsGroup(code: string, group: seq<Row>, k: int)
    requires |group| >= 2 && (k == |group| - 1 || k == |group| - 2)
    requires group[k].volume == Str("x")
    ensures PredictGroup(code, group).None?
  {
    assert PyStr.Remove("x", ',') == "x";
    PyStr.SplitWithout("x", '.');
  }

  /** The values of the present options, in order. */
  function Somes(ps: seq<Option<Prediction>>): (r: seq<Prediction>)
    ensures |r| <= |ps|
    ensures forall k :: 0 <= k < |r| ==> Some(r[k]) in ps
    ensures forall p :: Some(p) in ps ==> p in r
  {
    if |ps| == 0 then []
    else
      var init := Somes(ps[..|ps| - 1]);
      var last := ps[|ps| - 1];
      assert forall x :: x in ps <==> x in ps[..|ps| - 1] || x == last;
      if last.Some? then init + [last.value] else init
  }

  /**
   * `batch_predict_from_raw_data`: the predictions of the groups that give
   * one, in code order; every group that gives one is there.
   */
  function BatchPredict(rows: seq<Row>): (r: seq<Prediction>)
    ensures forall k :: 0 <= k < |r| ==> Some(r[k]) in Candidates(rows, Codes(rows))
    ensures forall p :: Some(p) in Candidates(rows, Codes(rows)) ==> p in r
  {
    Somes(Candidates(rows, Codes(rows)))
  }

  /** The prediction of each code's group, code by code. */
  function Candidates(rows: seq<Row>, codes: seq<string>): (r: seq<Option<Prediction>>)
    ensures |r| == |codes|
    ensures forall i :: 0 <= i < |codes| ==> r[i] == PredictGroup(codes[i], Group(rows, codes[i]))
  {
    if |codes| == 0 then []
    else [PredictGroup(codes[0], Group(rows, codes[0]))] + Candidates(rows, codes[1..])
  }
}
