/**
 * The order processor: the bookkeeping that turns the broker's order and
 * balance reports into fill increments, holding quantities and tracker
 * updates, the parsers for the account and condition-search replies, and
 * the sweep that sorts stale orders into completed, closed and to-cancel.
 * Times are whole seconds; "now" is a parameter.
 */
module Processor {
  import opened Wrappers
  import opened PyStr
  import Decimal
  import PyNum
  import PriceTracker
  import RealtimeGroups

  /** A value as it arrives in a report: missing, a number, text or anything else. */
  datatype Value = Null | Int(i: int) | Float(x: real) | Str(s: string) | Other

  /** The characters `safe_int_convert` lets through to `float`. */
  predicate NumberChar(c: char) {
    IsDigit(c) || c == '.' || c == '-' || c == '+'
  }

  predicate AllNumberChars(s: string) {
    forall i :: 0 <= i < |s| ==> NumberChar(s[i])
  }

  /**
   * `safe_int_convert`: numbers pass through (`int` truncates a float);
   * text is stripped, its commas removed, and read with `int(float(...))`
   * when it holds nothing but digits, `.`, `-` and `+`; everything else,
   * and text `float` refuses, gives the default.
   */
  function SafeIntConvert(v: Value, default: int): (r: int)
    ensures v.Null? || v.Other? ==> r == default
    ensures v.Int? ==> r == v.i
    ensures v.Float? ==> r == PyNum.Trunc(v.x)
    ensures v.Str? && Strip(v.s) == "" ==> r == default
    ensures v.Str? && r != default ==>
              AllNumberChars(Remove(Strip(v.s), ',')) && Decimal.FloatTrunc(Remove(Strip(v.s), ',')) == Some(r)
  {
    match v
    case Null => default
    case Int(i) => i
    case Float(x) => PyNum.Trunc(x)
    case Str(s) =>
      var cleaned := Strip(s);
      if cleaned == "" then default
      else
        var digits := Remove(cleaned, ',');
        if !AllNumberChars(digits) then default
        else Decimal.FloatTrunc(digits).GetOr(default)
    case Other => default
  }

  /** A character that makes `safe_int_convert` give up: not a digit, sign, point, comma or whitespace. */
  predicate Foreign(c: char) {
    !NumberChar(c) && c != ',' && !IsSpace(c)
  }

  /** Text holding any foreign character, wherever it stands, converts to the default. */
  lemma {:induction false} SafeIntConvertRejectsForeign(s: string, c: char, default: int)
    requires c in s && Foreign(c)
    ensures SafeIntConvert(Str(s), default) == default
  {
    StripKeepsNonSpace(s, c);
    var digits := Remove(Strip(s), ',');
    assert c in digits;
    var i :| 0 <= i < |digits| && digits[i] == c;
  }

  /** The decimal text of any integer converts back to that integer. */
  lemma {:induction false} SafeIntConvertReadsIntegers(n: int, default: int)
    ensures SafeIntConvert(Str(Decimal.IntToStr(n)), default) == n
  {
    var t := Decimal.IntToStr(n);
    StripNoEdgeSpace(t);
    assert ',' !in t by {
      if n < 0 {
        assert forall i :: 1 <= i < |t| ==> IsDigit(t[i]) by {
          assert forall i :: 1 <= i < |t| ==> t[i] == t[1..][i - 1];
        }
      }
    }
    RemoveAbsent(t, ',');
    if n < 0 {
      assert forall i :: 1 <= i < |t| ==> t[i] == t[1..][i - 1];
    }
    Decimal.FloatTruncOfIntToStr(n);
  }

  /** Grouped digits read as one number: `"1,234"` gives 1234. */
  lemma {:induction false} SafeIntConvertIgnoresGrouping(a: string, b: string, default: int)
    requires IsDigits(a) && IsDigits(b)
    ensures SafeIntConvert(Str(a + "," + b), default) == Decimal.DigitsValue(a + b)
  {
    var s := a + "," + b;
    assert s[0] == a[0] && s[|s| - 1] == b[|b| - 1];
    StripNoEdgeSpace(s);
    Decimal.DigitsExclude(a, ',');
    Decimal.DigitsExclude(b, ',');
    RemoveSplices(a, b, ',');
    assert IsDigits(a + b) by {
      assert forall i :: 0 <= i < |a + b| ==> (a + b)[i] == if i < |a| then a[i] else b[i - |a|];
    }
    FloatTruncOfDigits(a + b);
  }

  /** Removing a character drops exactly the one occurrence between two parts that do not hold it. */
  lemma {:induction false} RemoveSplices(a: string, b: string, c: char)
    requires c !in a && c !in b
    ensures Remove(a + [c] + b, c) == a + b
    decreases |a|
  {
    if |a| == 0 {
      assert a + [c] + b == [c] + b;
      assert ([c] + b)[1..] == b;
      RemoveAbsent(b, c);
    } else {
      assert (a + [c] + b)[1..] == a[1..] + [c] + b;
      RemoveSplices(a[1..], b, c);
      assert a + b == [a[0]] + (a[1..] + b);
    }
  }

  lemma {:induction false} FloatTruncOfDigits(s: string)
    requires IsDigits(s)
    ensures Decimal.FloatTrunc(s) == Some(Decimal.DigitsValue(s))
  {
    Decimal.DigitsExclude(s, '.');
    SplitWithout(s, '.');
  }

  /** `s.lstrip(c)`: every leading `c` removed. */
  function DropLeading(s: string, c: char): (r: string)
    ensures |r| <= |s| && r == s[|s| - |r|..]
    ensures |r| > 0 ==> r[0] != c
    ensures forall i :: 0 <= i < |s| - |r| ==> s[i] == c
  {
    if |s| > 0 && s[0] == c then
      var r := DropLeading(s[1..], c);
      assert forall i :: 1 <= i < |s| ==> s[i] == s[1..][i - 1];
      r
    else s
  }

  /**
   * `clean_deposit` on the orderable amount the broker reports: commas
   * removed, stripped, and its absolute value taken when what follows the
   * leading minus signs is all digits. None is the `ValueError` that `int`
   * raises on more than one minus sign.
   */
  function CleanDeposit(amount: string): (r: Option<int>)
    ensures var cleaned := Strip(Remove(amount, ','));
            r.None? <==> IsDigits(DropLeading(cleaned, '-')) && Decimal.ParseInt(cleaned).None?
    ensures r.Some? ==> r.value >= 0
    ensures r.Some? && r.value != 0 ==> Decimal.ParseInt(Strip(Remove(amount, ','))).Some?
  {
    var cleaned := Strip(Remove(amount, ','));
    if IsDigits(DropLeading(cleaned, '-')) then
      var n := Decimal.ParseInt(cleaned);
      if n.None? then None else Some(PyNum.Abs(n.value))
    else Some(0)
  }

  /** The amount `str(n)` reads back as `abs(n)`. */
  lemma {:induction false} CleanDepositReadsAmounts(n: int)
    ensures CleanDeposit(Decimal.IntToStr(n)) == Some(PyNum.Abs(n))
  {
    var t := Decimal.IntToStr(n);
    assert ',' !in t by {
      if n < 0 {
        assert forall i :: 1 <= i < |t| ==> t[i] == t[1..][i - 1];
      }
    }
    RemoveAbsent(t, ',');
    StripNoEdgeSpace(t);
    Decimal.ParseIntRoundTrip(n);
    if n < 0 {
      assert DropLeading(t, '-') == t[1..];
    } else {
      assert DropLeading(t, '-') == t;
    }
  }

  /** Two minus signs pass the digit test but make `int` raise: `"--5"` is an error. */
  lemma CleanDepositRaisesOnDoubleMinus(s: string)
    requires |s| > 2 && s[0] == '-' && s[1] == '-' && IsDigits(s[2..])
    ensures CleanDeposit(s) == None
  {
    assert ',' !in s by {
      assert forall i :: 2 <= i < |s| ==> s[i] == s[2..][i - 2];
    }
    RemoveAbsent(s, ',');
    DoubleMinusDropped(s);
    assert Decimal.ParseInt(s) == None by {
      assert !IsSpace(s[|s| - 1]) by { assert s[|s| - 1] == s[2..][|s| - 3]; }
      StripNoEdgeSpace(s);
      assert !IsDigits(s[1..]);
    }
  }

  lemma DoubleMinusDropped(s: string)
    requires |s| > 2 && s[0] == '-' && s[1] == '-' && IsDigits(s[2..])
    ensures DropLeading(s, '-') == s[2..]
  {
    assert s[1..][0] == '-' && s[1..][1..] == s[2..];
    assert s[2..][0] != '-';
    assert DropLeading(s[2..], '-') == s[2..];
  }

  /** What the order-execution tracker keeps for an order still open. */
  datatype Execution = Execution(orderQty: int, tradeQty: int, untradeQty: int)

  type ExecutionTracker = map<string, Execution>

  /** The cumulative filled quantity the tracker holds for an order, zero when it has none. */
  function Cumulative(tracker: ExecutionTracker, order: string): int {
    if order in tracker then tracker[order].tradeQty else 0
  }

  /** An order is done when its cumulative fill reaches the order quantity and nothing is left open. */
  predicate Completes(orderQty: int, tradeQty: int, untradeQty: int) {
    tradeQty >= orderQty && untradeQty == 0
  }

  /**
   * `track_order_execution`: the quantity filled since the last report of
   * the order, and the tracker with the new cumulative quantity, or without
   * the order once it completes.
   */
  function TrackOrderExecution(tracker: ExecutionTracker, order: string, orderQty: int, tradeQty: int, untradeQty: int)
    : (r: (ExecutionTracker, int))
    ensures r.1 >= 0
    ensures r.1 >= tradeQty - Cumulative(tracker, order)
    ensures r.1 > 0 ==> Cumulative(tracker, order) + r.1 == tradeQty
    ensures order in r.0 <==> !Completes(orderQty, tradeQty, untradeQty)
    ensures order in r.0 ==> r.0[order] == Execution(orderQty, tradeQty, untradeQty)
    ensures forall o :: o != order ==> (o in r.0 <==> o in tracker)
    ensures forall o :: o != order && o in r.0 ==> r.0[o] == tracker[o]
  {
    var previous := Cumulative(tracker, order);
    var stored := tracker[order := Execution(orderQty, tradeQty, untradeQty)];
    var after := if Completes(orderQty, tradeQty, untradeQty) then stored - {order} else stored;
    (after, PyNum.Max(tradeQty - previous, 0))
  }

  /** One report of an order: its quantity, its cumulative fill and its open quantity. */
  datatype Fill = Fill(orderQty: int, tradeQty: int, untradeQty: int)

  /** The tracker after a run of reports of one order, and the increments it returned in total. */
  function TrackAll(tracker: ExecutionTracker, order: string, fills: seq<Fill>): (ExecutionTracker, int)
    decreases |fills|
  {
    if |fills| == 0 then (tracker, 0)
    else
      var f := fills[0];
      var step := TrackOrderExecution(tracker, order, f.orderQty, f.tradeQty, f.untradeQty);
      var rest := TrackAll(step.0, order, fills[1..]);
      (rest.0, step.1 + rest.1)
  }

  /** Cumulative fills that never fall, starting from `from`. */
  predicate Rising(from: int, fills: seq<Fill>) {
    (|fills| > 0 ==> from <= fills[0].tradeQty)
    && forall i :: 0 < i < |fills| ==> fills[i - 1].tradeQty <= fills[i].tradeQty
  }

  /**
   * The increments telescope: over reports whose cumulative fill never
   * falls and that complete the order at most on the last one, they add up
   * to the last cumulative fill less what was already counted.
   */
  lemma {:induction false} IncrementsTelescope(tracker: ExecutionTracker, order: string, fills: seq<Fill>)
    requires |fills| > 0
    requires Rising(Cumulative(tracker, order), fills)
    requires forall i :: 0 <= i < |fills| - 1 ==> !Completes(fills[i].orderQty, fills[i].tradeQty, fills[i].untradeQty)
    ensures TrackAll(tracker, order, fills).1 == fills[|fills| - 1].tradeQty - Cumulative(tracker, order)
    decreases |fills|
  {
    var f := fills[0];
    var step := TrackOrderExecution(tracker, order, f.orderQty, f.tradeQty, f.untradeQty);
    if |fills| > 1 {
      assert Cumulative(step.0, order) == f.tradeQty;
      assert Rising(f.tradeQty, fills[1..]) by {
        assert forall i :: 0 <= i < |fills[1..]| ==> fills[1..][i] == fills[i + 1];
      }
      IncrementsTelescope(step.0, order, fills[1..]);
    }
  }

  /** How a report's status (field 905) and state (field 913) classify it. */
  datatype OrderKind = Cancelled | Rejected | Buy | Sell | Unknown

  predicate SaysCancelled(status: string, state: string) {
    Contains(status, "취소") || Contains(state, "취소")
  }

  predicate SaysRejected(status: string, state: string) {
    Contains(status, "거부") || Contains(state, "거부")
  }

  /**
   * The order classification of the report handler: a cancel or a reject
   * anywhere is neither a buy nor a sell; otherwise the status decides, a
   * buy first.
   */
  function Classify(status: string, state: string): (r: OrderKind)
    ensures r.Cancelled? <==> SaysCancelled(status, state)
    ensures r.Rejected? <==> !SaysCancelled(status, state) && SaysRejected(status, state)
    ensures (r.Buy? || r.Sell?) ==> !SaysCancelled(status, state) && !SaysRejected(status, state)
    ensures r.Buy? <==> Contains(status, "매수") && !SaysCancelled(status, state) && !SaysRejected(status, state)
    ensures r.Sell? <==> Contains(status, "매도") && !Contains(status, "매수")
                         && !SaysCancelled(status, state) && !SaysRejected(status, state)
  {
    if SaysCancelled(status, state) then Cancelled
    else if SaysRejected(status, state) then Rejected
    else if Contains(status, "매수") then Buy
    else if Contains(status, "매도") then Sell
    else Unknown
  }

  /**
   * The holding quantities after a fill: a buy moves the increment from
   * what may be bought to what may be sold, a sell the other way; both are
   * floored at zero.
   */
  function ApplyFill(buy: bool, qtyToSell: int, qtyToBuy: int, increment: int): (r: (int, int))
    ensures r.0 >= 0 && r.1 >= 0
    ensures buy ==> r.0 == PyNum.Max(qtyToSell + increment, 0) && r.1 == PyNum.Max(qtyToBuy - increment, 0)
    ensures !buy ==> r.0 == PyNum.Max(qtyToSell - increment, 0) && r.1 == PyNum.Max(qtyToBuy + increment, 0)
  {
    if buy then (PyNum.Max(qtyToSell + increment, 0), PyNum.Max(qtyToBuy - increment, 0))
    else (PyNum.Max(qtyToSell - increment, 0), PyNum.Max(qtyToBuy + increment, 0))
  }

  /**
   * A fill that needs no flooring keeps the total of the two quantities,
   * and a sell of what was just bought restores them.
   */
  lemma FillConservesQuantities(qtyToSell: int, qtyToBuy: int, increment: int)
    requires qtyToSell >= 0 && qtyToBuy >= increment >= 0
    ensures var b := ApplyFill(true, qtyToSell, qtyToBuy, increment);
            b.0 + b.1 == qtyToSell + qtyToBuy
            && ApplyFill(false, b.0, b.1, increment) == (qtyToSell, qtyToBuy)
  {
  }

  /** `values.get('item')` with its exchange prefix removed; the empty string when it is missing. */
  function StockCode(item: Option<string>): (r: string)
    ensures item.None? ==> r == ""
  {
    if item.Some? then DropA(item.value) else ""
  }

  /** An order number the handlers act on: present, not empty and not `"0"`. */
  predicate ValidOrderNumber(n: Option<string>) {
    n.Some? && n.value != "" && n.value != "0"
  }

  /** A status text field, stripped; missing reads as empty. */
  function StatusText(v: Option<string>): string {
    Strip(v.GetOr(""))
  }

  /** The fields of an order report (real-time type 00) as they arrive. */
  datatype RawOrderReport = RawOrderReport(
    item: Option<string>,
    orderNumber: Option<string>,
    orderQty: Value,
    tradeQty: Value,
    untradeQty: Value,
    price: Value,
    status: Option<string>,
    state: Option<string>)

  /** An order report once the handler has read it: quantities and price as integers, texts stripped. */
  datatype OrderReport = OrderReport(
    code: string,
    orderNumber: Option<string>,
    orderQty: int,
    tradeQty: int,
    untradeQty: int,
    price: int,
    status: string,
    state: string)
  {
    function Kind(): OrderKind {
      Classify(status, state)
    }
  }

  /** How the handler reads a report: `safe_int_convert` with default 0 on the numbers, `strip` on the texts. */
  function ReadOrderReport(raw: RawOrderReport): (r: OrderReport)
    ensures r.code == StockCode(raw.item) && r.orderNumber == raw.orderNumber
    ensures r.orderQty == SafeIntConvert(raw.orderQty, 0) && r.tradeQty == SafeIntConvert(raw.tradeQty, 0)
    ensures r.untradeQty == SafeIntConvert(raw.untradeQty, 0) && r.price == SafeIntConvert(raw.price, 0)
    ensures r.status == StatusText(raw.status) && r.state == StatusText(raw.state)
  {
    OrderReport(StockCode(raw.item), raw.orderNumber, SafeIntConvert(raw.orderQty, 0), SafeIntConvert(raw.tradeQty, 0),
                SafeIntConvert(raw.untradeQty, 0), SafeIntConvert(raw.price, 0), StatusText(raw.status), StatusText(raw.state))
  }

  /**
   * `type_callback_00` on a report it has read: the execution tracker
   * takes every report with a stock code and a valid order number; a buy
   * or sell fill with a positive increment and price rewrites the stock's
   * tracker with the execution price, the moved quantities and the side; a
   * cancel or reject, a report of another kind, or a stock without a
   * readable tracker changes no tracker. The deposit refresh is a broker
   * call and is not part of the model.
   */
  function OnOrderReport(tracker: ExecutionTracker, db: PriceTracker.Redis, report: OrderReport, now: int)
    : (r: (ExecutionTracker, PriceTracker.Redis))
    ensures report.code == "" || !ValidOrderNumber(report.orderNumber) ==> r == (tracker, db)
    ensures report.code != "" && ValidOrderNumber(report.orderNumber) ==>
              r.0 == TrackOrderExecution(tracker, report.orderNumber.value, report.orderQty, report.tradeQty, report.untradeQty).0
    ensures !(report.Kind().Buy? || report.Kind().Sell?) ==> r.1 == db
    ensures r.1 == db || (PriceTracker.Key(report.code) in db && PriceTracker.Key(report.code) in r.1
                          && r.1 == db[PriceTracker.Key(report.code) := r.1[PriceTracker.Key(report.code)]])
  {
    if report.code == "" || !ValidOrderNumber(report.orderNumber) then (tracker, db)
    else
      var tracked := TrackOrderExecution(tracker, report.orderNumber.value, report.orderQty, report.tradeQty, report.untradeQty);
      var kind := report.Kind();
      if !(kind.Buy? || kind.Sell?) || tracked.1 <= 0 || report.price <= 0 then (tracked.0, db)
      else
        var t := PriceTracker.GetTrackingData(db, report.code);
        if t.None? then (tracked.0, db)
        else (tracked.0, PriceTracker.UpdateTrackingData(db, report.code, FillRequest(kind.Buy?, t.value, tracked.1, report.price), now).0)
  }

  /** The tracker update a fill asks for: the execution price, the moved quantities and the side. */
  function FillRequest(buy: bool, t: PriceTracker.Tracking, increment: int, price: int): (q: PriceTracker.Request)
    ensures q.Updates() && q.currentPrice.None? && !q.resetExtremes && !q.forceUpdate
  {
    var moved := ApplyFill(buy, t.qtyToSell, t.qtyToBuy, increment);
    PriceTracker.Request(None, Some(price), Some(moved.0), Some(moved.1), None,
                         Some(if buy then "BUY" else "SELL"), None, None, false, false)
  }

  /**
   * A fill with a readable tracker is recorded in it: reading the tracker
   * back gives the moved quantities, the execution price and time, and the
   * side, with every other field as it was.
   */
  lemma FillRecordedInTracker(tracker: ExecutionTracker, db: PriceTracker.Redis, report: OrderReport, now: int)
    requires report.code != "" && ValidOrderNumber(report.orderNumber)
    requires report.Kind().Buy? || report.Kind().Sell?
    requires report.price > 0
    requires PriceTracker.GetTrackingData(db, report.code).Some?
    ensures var t := PriceTracker.GetTrackingData(db, report.code).value;
            var increment := TrackOrderExecution(tracker, report.orderNumber.value, report.orderQty, report.tradeQty, report.untradeQty).1;
            var moved := ApplyFill(report.Kind().Buy?, t.qtyToSell, t.qtyToBuy, increment);
            increment > 0 ==>
              PriceTracker.GetTrackingData(OnOrderReport(tracker, db, report, now).1, report.code)
              == Some(t.(qtyToSell := moved.0, qtyToBuy := moved.1, tradePrice := report.price,
                         tradeTime := now, lastUpdated := now, tradeType := if report.Kind().Buy? then "BUY" else "SELL"))
  {
    var t := PriceTracker.GetTrackingData(db, report.code).value;
    var increment := TrackOrderExecution(tracker, report.orderNumber.value, report.orderQty, report.tradeQty, report.untradeQty).1;
    if increment > 0 {
      var q := FillRequest(report.Kind().Buy?, t, increment, report.price);
      FillRewritesTracker(db, report.code, q, t, now);
    }
  }

  /** Reading back a tracker after an update that gives the trade price and both quantities. */
  lemma FillRewritesTracker(db: PriceTracker.Redis, code: string, q: PriceTracker.Request, t: PriceTracker.Tracking, now: int)
    requires PriceTracker.GetTrackingData(db, code) == Some(t)
    requires q.currentPrice.None? && q.tradePrice.Some? && q.qtyToSell.Some? && q.qtyToBuy.Some? && q.tradeType.Some?
    requires q.periodType.None? && q.isfirst.None? && q.isafternoon.None? && !q.resetExtremes && !q.forceUpdate
    ensures var db' := PriceTracker.UpdateStore(db, code, q, now);
            db'.Some?
            && PriceTracker.GetTrackingData(db'.value, code)
               == Some(t.(qtyToSell := q.qtyToSell.value, qtyToBuy := q.qtyToBuy.value, tradePrice := q.tradePrice.value,
                          tradeTime := now, lastUpdated := now, tradeType := q.tradeType.value))
  {
    var k := PriceTracker.Key(code);
    var h := db[k];
    var h' := h.(tradePrice := Some(PriceTracker.Num(q.tradePrice.value)), tradeTime := Some(PriceTracker.Num(now)),
                 qtyToSell := Some(PriceTracker.Num(q.qtyToSell.value)), qtyToBuy := Some(PriceTracker.Num(q.qtyToBuy.value)),
                 tradeType := Some(PriceTracker.Word(q.tradeType.value)), lastUpdated := Some(PriceTracker.Num(now)));
    TradeUpdateWrites(db, code, q, now);
    ReadAfterTrade(h, t, q.tradePrice.value, q.qtyToSell.value, q.qtyToBuy.value, q.tradeType.value, now);
  }

  /** The hash after such an update: exactly the six fields it gives are rewritten. */
  lemma TradeUpdateWrites(db: PriceTracker.Redis, code: string, q: PriceTracker.Request, now: int)
    requires PriceTracker.Key(code) in db
    requires q.currentPrice.None? && q.tradePrice.Some? && q.qtyToSell.Some? && q.qtyToBuy.Some? && q.tradeType.Some?
    requires q.periodType.None? && q.isfirst.None? && q.isafternoon.None? && !q.resetExtremes && !q.forceUpdate
    ensures var h := db[PriceTracker.Key(code)];
            var db' := PriceTracker.UpdateStore(db, code, q, now);
            db'.Some? && db'.value[PriceTracker.Key(code)]
              == h.(tradePrice := Some(PriceTracker.Num(q.tradePrice.value)), tradeTime := Some(PriceTracker.Num(now)),
                    qtyToSell := Some(PriceTracker.Num(q.qtyToSell.value)), qtyToBuy := Some(PriceTracker.Num(q.qtyToBuy.value)),
                    tradeType := Some(PriceTracker.Word(q.tradeType.value)), lastUpdated := Some(PriceTracker.Num(now)))
  {
  }

  /** A readable hash with those six fields rewritten reads as the record with them replaced. */
  lemma ReadAfterTrade(h: PriceTracker.Hash, t: PriceTracker.Tracking, price: int, sell: int, buy: int, side: string, now: int)
    requires PriceTracker.FromHash(h) == Some(t)
    ensures PriceTracker.FromHash(h.(tradePrice := Some(PriceTracker.Num(price)), tradeTime := Some(PriceTracker.Num(now)),
                                     qtyToSell := Some(PriceTracker.Num(sell)), qtyToBuy := Some(PriceTracker.Num(buy)),
                                     tradeType := Some(PriceTracker.Word(side)), lastUpdated := Some(PriceTracker.Num(now))))
            == Some(t.(qtyToSell := sell, qtyToBuy := buy, tradePrice := price, tradeTime := now, lastUpdated := now, tradeType := side))
  {
  }

  /**
   * `abs(int(text.replace(',', '')))` where the text is given, 0 where it
   * is missing or empty; None is the `ValueError` of text `int` refuses.
   */
  function AbsQuantity(text: Option<string>): (r: Option<int>)
    ensures text.None? || text.value == "" ==> r == Some(0)
    ensures r.Some? ==> r.value >= 0
    ensures text.Some? && text.value != "" ==>
              (r.None? <==> Decimal.ParseInt(Remove(text.value, ',')).None?)
  {
    if text.None? || text.value == "" then Some(0)
    else
      var n := Decimal.ParseInt(Remove(text.value, ','));
      if n.None? then None else Some(PyNum.Abs(n.value))
  }

  /** Held quantities by stock code. */
  type Holdings = map<string, int>

  predicate AllPositive(h: Holdings) {
    forall k :: k in h ==> h[k] > 0
  }

  /**
   * `type_callback_04`, a balance report: a positive held quantity is
   * stored for the stock, a zero one removes it; nothing changes without a
   * stock code or when either number does not parse. The exchange prefix
   * is dropped twice, as the handler does.
   */
  function OnBalance(h: Holdings, item: Option<string>, quantity: Option<string>, avgPrice: Option<string>): (r: Holdings)
    ensures var code := DropA(StockCode(item));
            var q := AbsQuantity(quantity);
            if StockCode(item) == "" || q.None? || AbsQuantity(avgPrice).None? then r == h
            else (code in r <==> q.value > 0) && (code in r ==> r[code] == q.value)
                 && (forall k :: k != code ==> (k in r <==> k in h) && (k in r ==> r[k] == h[k]))
    ensures AllPositive(h) ==> AllPositive(r)
  {
    var first := StockCode(item);
    var q := AbsQuantity(quantity);
    if first == "" || q.None? || AbsQuantity(avgPrice).None? then h
    else
      var code := DropA(first);
      if q.value > 0 then h[code := q.value] else h - {code}
  }

  /**
   * The buy quantity a stock's first tick sets: the money assigned to the
   * stock over the price, in whole lots of ten, rounded up.
   */
  function FirstTickQty(budget: int, price: int): (r: int)
    requires price > 0
    ensures r % 10 == 0
    ensures r * price >= budget
    ensures (r - 10) * price < budget
  {
    var lots := PyNum.Ceil((budget as real / price as real) / 10.0);
    LotsCover(budget, price, lots);
    lots * 10
  }

  lemma LotsCover(budget: int, price: int, lots: int)
    requires price > 0
    requires lots as real - 1.0 < (budget as real / price as real) / 10.0 <= lots as real
    ensures (lots * 10) * price >= budget && (lots * 10 - 10) * price < budget
  {
    PyNum.DivFacts(budget as real, price as real);
    LotsAround(budget, price, lots, budget as real / price as real);
  }

  lemma LotsAround(budget: int, price: int, lots: int, x: real)
    requires price > 0 && x * price as real == budget as real
    requires lots as real - 1.0 < x / 10.0 <= lots as real
    ensures (lots * 10) * price >= budget && (lots * 10 - 10) * price < budget
  {
    var hi := (lots * 10) as real;
    var lo := (lots * 10 - 10) as real;
    Bracket(budget as real, price as real, x, lo, hi);
    PyNum.CastProduct(lots * 10, price);
    PyNum.CastProduct(lots * 10 - 10, price);
  }

  /** A quotient that lies between two bounds puts the dividend between the bounds times the divisor. */
  lemma Bracket(b: real, p: real, x: real, lo: real, hi: real)
    requires p > 0.0 && x * p == b && lo < x <= hi
    ensures lo * p < b <= hi * p
  {
    PyNum.ScaleUp(x, hi, p);
    PyNum.ScaleUpStrict(lo, x, p);
  }

  /**
   * `type_callback_0B` as written: on a positive price it first calls
   * `update_price`, which the price tracker does not define; the error is
   * caught and logged, so no price tick changes any tracker.
   */
  function OnPriceTickAsWritten(db: PriceTracker.Redis, item: Option<string>, price: Option<string>, budget: int, now: int)
    : (r: PriceTracker.Redis)
    ensures r == db
  {
    var code := StockCode(item);
    if code == "" then db
    else
      var p := TickPrice(price);
      if p.None? || p.value <= 0 then db
      else db
  }

  /** `abs(int(values.get('10', '0')))`; None where `int` raises. */
  function TickPrice(price: Option<string>): (r: Option<int>)
    ensures r.Some? ==> r.value >= 0
    ensures price.None? ==> r == Some(0)
  {
    Decimal.ParseZero();
    var n := Decimal.ParseInt(price.GetOr("0"));
    if n.None? then None else Some(PyNum.Abs(n.value))
  }

  /**
   * `type_callback_0B` without the missing call: a stock's first tick
   * restarts its tracker with the first-tick buy quantity and the first-run
   * flag cleared; a later tick records the current price, which moves the
   * running extremes.
   */
  function OnPriceTick(db: PriceTracker.Redis, item: Option<string>, price: Option<string>, budget: int, now: int)
    : (r: PriceTracker.Redis)
    ensures var code := StockCode(item);
            var p := TickPrice(price);
            code == "" || p.None? || p.value <= 0 ==> r == db
    ensures var k := PriceTracker.Key(StockCode(item));
            r == db || (k in r && r == db[k := r[k]])
  {
    var code := StockCode(item);
    var p := TickPrice(price);
    if code == "" || p.None? || p.value <= 0 then db
    else if PriceTracker.GetIsFirst(db, code) == Some(true) then FirstTickTracker(db, code, p.value, budget, now)
    else PriceTracker.UpdateTrackingData(db, code, TickRequest(p.value), now).0
  }

  /** A first tick restarts the stock's tracker with the first-tick buy quantity and the first-run flag cleared. */
  function FirstTickTracker(db: PriceTracker.Redis, code: string, price: int, budget: int, now: int): (r: PriceTracker.Redis)
    requires price > 0
    ensures PriceTracker.Key(code) in r && r == db[PriceTracker.Key(code) := r[PriceTracker.Key(code)]]
  {
    PriceTracker.InitializeTracking(db, code, 0, 0, false, false, true, 0, FirstTickQty(budget, price), "HOLD", now).0
  }

  /** The restarted tracker reads back with a buy quantity covering the budget in whole lots of ten, and with the flag cleared. */
  lemma FirstTickTrackerReadsBack(db: PriceTracker.Redis, code: string, price: int, budget: int, now: int)
    requires price > 0
    ensures var db' := FirstTickTracker(db, code, price, budget, now);
            var t := PriceTracker.GetTrackingData(db', code);
            t.Some? && t.value.qtyToBuy * price >= budget && t.value.qtyToBuy % 10 == 0
            && (t.value.qtyToBuy - 10) * price < budget
            && PriceTracker.GetIsFirst(db', code) == Some(false)
  {
    var qty := FirstTickQty(budget, price);
    PriceTracker.TrackingReadsBackAfterStart(db, code, 0, 0, false, false, true, 0, qty, "HOLD", now);
    PriceTracker.StartSetsFirstFlag(db, code, 0, 0, false, false, true, 0, qty, "HOLD", now);
  }

  /** The update a later tick asks for: the current price alone. */
  function TickRequest(price: int): (q: PriceTracker.Request)
    ensures q.currentPrice == Some(price) && q.tradePrice.None? && !q.resetExtremes && !q.forceUpdate
  {
    PriceTracker.Request(Some(price), None, None, None, None, None, None, None, false, false)
  }

  /** A price written out in decimal reads back as itself. */
  lemma TickPriceReadsBack(price: int)
    requires price >= 0
    ensures TickPrice(Some(Decimal.IntToStr(price))) == Some(price)
  {
    Decimal.ParseIntRoundTrip(price);
  }

  /**
   * A positive tick on a stock whose first-run flag is set leaves it with a
   * buy quantity that covers the budget money in whole lots of ten, and
   * with the flag cleared, so the next tick is not a first one.
   */
  lemma FirstTickStartsTracking(db: PriceTracker.Redis, item: Option<string>, price: Option<string>, budget: int, now: int,
                                code: string, p: int)
    requires code == StockCode(item) && TickPrice(price) == Some(p)
    requires code != "" && p > 0 && PriceTracker.GetIsFirst(db, code) == Some(true)
    ensures var db' := OnPriceTick(db, item, price, budget, now);
            var t := PriceTracker.GetTrackingData(db', code);
            t.Some? && t.value.qtyToBuy * p >= budget && t.value.qtyToBuy % 10 == 0
            && (t.value.qtyToBuy - 10) * p < budget
            && PriceTracker.GetIsFirst(db', code) == Some(false)
  {
    FirstTickTrackerReadsBack(db, code, p, budget, now);
  }

  /**
   * A positive tick on any other stock with readable extremes records the
   * price and moves the extremes outward to take it in.
   */
  lemma LaterTickMovesExtremes(db: PriceTracker.Redis, item: Option<string>, price: Option<string>, budget: int, now: int)
    requires StockCode(item) != "" && TickPrice(price).Some? && TickPrice(price).value > 0
    requires PriceTracker.GetIsFirst(db, StockCode(item)) != Some(true)
    requires PriceTracker.Key(StockCode(item)) in db
    requires PriceTracker.StoredExtremes(db[PriceTracker.Key(StockCode(item))]).Known?
    ensures var k, p := PriceTracker.Key(StockCode(item)), TickPrice(price).value;
            var e := PriceTracker.StoredExtremes(db[k]);
            var db' := OnPriceTick(db, item, price, budget, now);
            k in db' && db'[k].currentPrice == Some(PriceTracker.Num(p))
            && PriceTracker.StoredExtremes(db'[k]) == PriceTracker.Known(if p > e.highest then p else e.highest,
                                                                          if p < e.lowest then p else e.lowest)
  {
    var code, p := StockCode(item), TickPrice(price).value;
    PriceTracker.ExtremesFollowCurrentPrice(db, code, TickRequest(p), now);
    PriceTracker.UpdateWritesGivenFields(db, code, TickRequest(p), now);
  }

  /**
   * The difference: on a stock whose tracker still has its first-run flag
   * set, a positive tick leaves the tracker alone as written, while the
   * intended handler gives it a buy quantity covering the budget money and
   * clears the flag, so the next tick is not a first one.
   */
  lemma FirstTickIsLost(db: PriceTracker.Redis, code: string, price: int, budget: int, now: int)
    requires code != "" && code[0] != 'A' && price > 0
    requires PriceTracker.GetIsFirst(db, code) == Some(true)
    ensures OnPriceTickAsWritten(db, Some(code), Some(Decimal.IntToStr(price)), budget, now) == db
    ensures var db' := OnPriceTick(db, Some(code), Some(Decimal.IntToStr(price)), budget, now);
            var t := PriceTracker.GetTrackingData(db', code);
            t.Some? && t.value.qtyToBuy * price >= budget && t.value.qtyToBuy % 10 == 0
            && PriceTracker.GetIsFirst(db', code) == Some(false)
  {
    TickPriceReadsBack(price);
    assert StockCode(Some(code)) == code;
    FirstTickStartsTracking(db, Some(code), Some(Decimal.IntToStr(price)), budget, now, code, price);
  }

  /** A row of the account-return query: the stock code and the remaining quantity, each text when present. */
  datatype AccountItem = AccountItem(code: Option<string>, remaining: Option<string>)

  /** The remaining quantity: the stripped text without commas when it is all digits, else 0. */
  function RemainingQty(remaining: Option<string>): (r: int)
    ensures r >= 0
    ensures !IsDigits(Remove(Strip(remaining.GetOr("0")), ',')) ==> r == 0
  {
    var t := Remove(Strip(remaining.GetOr("0")), ',');
    if IsDigits(t) then Decimal.DigitsValue(t) else 0
  }

  /** A quantity written by `str` reads back as itself. */
  lemma RemainingQtyReadsCounts(n: nat)
    ensures RemainingQty(Some(Decimal.IntToStr(n))) == n
  {
    var t := Decimal.IntToStr(n);
    StripNoEdgeSpace(t);
    assert ',' !in t by {
      assert forall i :: 0 <= i < |t| ==> IsDigit(t[i]);
    }
    RemoveAbsent(t, ',');
    Decimal.DigitsRoundTrip(n);
  }

  /** A row once read: its stripped code and its quantity. */
  datatype Row = Row(code: string, qty: int) {
    /** A row the holdings keep: it has a code and a positive quantity. */
    predicate Qualifies() {
      code != "" && qty > 0
    }

    function HoldingKey(): string {
      DropA(code)
    }
  }

  function ReadRow(item: AccountItem): (r: Row)
    ensures r.qty >= 0
  {
    Row(Strip(item.code.GetOr("")), RemainingQty(item.remaining))
  }

  /** The holdings the rows give, a later row for a code overriding an earlier one. */
  function CollectHoldings(rows: seq<Row>): (h: Holdings)
    ensures AllPositive(h)
    decreases |rows|
  {
    if |rows| == 0 then map[]
    else
      var h := CollectHoldings(rows[..|rows| - 1]);
      var last := rows[|rows| - 1];
      if last.Qualifies() then h[last.HoldingKey() := last.qty] else h
  }

  /** No later qualifying row has the same code as row `i`. */
  predicate LastFor(rows: seq<Row>, i: int)
    requires 0 <= i < |rows|
  {
    forall j :: i < j < |rows| && rows[j].Qualifies() ==> rows[j].HoldingKey() != rows[i].HoldingKey()
  }

  /** Some qualifying row among the first `n` has code `k`. */
  predicate HasRowFor(rows: seq<Row>, k: string) {
    exists i :: 0 <= i < |rows| && rows[i].Qualifies() && rows[i].HoldingKey() == k
  }

  /** The holdings list exactly the codes of the qualifying rows. */
  lemma {:induction false} HoldingsKeys(rows: seq<Row>, k: string)
    ensures k in CollectHoldings(rows) <==> HasRowFor(rows, k)
    decreases |rows|
  {
    if |rows| > 0 {
      var front := rows[..|rows| - 1];
      HoldingsKeys(front, k);
      if HasRowFor(front, k) {
        var i :| 0 <= i < |front| && front[i].Qualifies() && front[i].HoldingKey() == k;
        assert rows[i] == front[i];
      }
      if HasRowFor(rows, k) {
        var i :| 0 <= i < |rows| && rows[i].Qualifies() && rows[i].HoldingKey() == k;
        if i < |front| {
          assert front[i] == rows[i];
        }
      }
    }
  }

  /** Each code holds the quantity of its last qualifying row. */
  lemma {:induction false} HoldingsTakeLastRow(rows: seq<Row>, i: int)
    requires 0 <= i < |rows| && rows[i].Qualifies() && LastFor(rows, i)
    ensures var h := CollectHoldings(rows);
            rows[i].HoldingKey() in h && h[rows[i].HoldingKey()] == rows[i].qty
    decreases |rows|
  {
    var front := rows[..|rows| - 1];
    if i < |front| {
      assert front[i] == rows[i];
      assert LastFor(front, i) by {
        forall j | i < j < |front| && front[j].Qualifies()
          ensures front[j].HoldingKey() != front[i].HoldingKey()
        {
          assert front[j] == rows[j];
        }
      }
      HoldingsTakeLastRow(front, i);
    }
  }

  function ReadRows(data: seq<AccountItem>): (rows: seq<Row>)
    ensures |rows| == |data| && forall i :: 0 <= i < |data| ==> rows[i] == ReadRow(data[i])
  {
    seq(|data|, i requires 0 <= i < |data| => ReadRow(data[i]))
  }

  /**
   * `get_account_return`: without the return list nothing changes and the
   * answer is empty; with it the holdings are rebuilt from its rows alone,
   * row by row, and returned.
   */
  function AccountReturn(h: Holdings, data: Option<seq<AccountItem>>): (r: (Holdings, Holdings))
    ensures data.None? ==> r.0 == h && r.1 == map[]
    ensures data.Some? ==> r.0 == r.1 && AllPositive(r.0)
    ensures data.Some? ==> r.0 == CollectHoldings(ReadRows(data.value))
  {
    if data.None? then (h, map[])
    else
      var collected := CollectHoldings(ReadRows(data.value));
      (collected, collected)
  }

  /** An item of a condition-search result, with its `9001` code when that is text. */
  datatype ConditionItem = NotObject | Item(code: Option<string>)

  /** A six-digit stock code. */
  predicate IsStockCode(c: string) {
    |c| == 6 && IsDigits(c)
  }

  /** The code an item contributes: longer than one character, and six digits once the prefix goes. */
  function ConditionCode(item: ConditionItem): (r: Option<string>)
    ensures r.Some? ==> IsStockCode(r.value)
    ensures r.Some? <==> item.Item? && item.code.Some? && |item.code.value| > 1 && IsStockCode(DropA(item.code.value))
  {
    if item.Item? && item.code.Some? && |item.code.value| > 1 && IsStockCode(DropA(item.code.value))
    then Some(DropA(item.code.value))
    else None
  }

  /** The codes the items contribute. */
  function AcceptedCodes(items: seq<ConditionItem>): (r: set<string>)
    ensures forall c :: c in r ==> IsStockCode(c)
    decreases |items|
  {
    if |items| == 0 then {}
    else
      var rest := AcceptedCodes(items[..|items| - 1]);
      match ConditionCode(items[|items| - 1])
      case Some(c) => rest + {c}
      case None => rest
  }

  /** A code is accepted exactly when some item contributes it. */
  lemma {:induction false} AcceptedCodesAreContributed(items: seq<ConditionItem>, c: string)
    ensures c in AcceptedCodes(items) <==> exists i :: 0 <= i < |items| && ConditionCode(items[i]) == Some(c)
    decreases |items|
  {
    if |items| > 0 {
      var front := items[..|items| - 1];
      AcceptedCodesAreContributed(front, c);
      if exists i :: 0 <= i < |front| && ConditionCode(front[i]) == Some(c) {
        var i :| 0 <= i < |front| && ConditionCode(front[i]) == Some(c);
        assert items[i] == front[i];
      }
      if exists i :: 0 <= i < |items| && ConditionCode(items[i]) == Some(c) {
        var i :| 0 <= i < |items| && ConditionCode(items[i]) == Some(c);
        if i < |front| {
          assert front[i] == items[i];
        }
      }
    }
  }

  /** The KOSPI and KOSDAQ condition-search code sets. */
  datatype ConditionLists = ConditionLists(kospi: set<string>, kosdaq: set<string>)

  /** The market a result belongs to: its `seq` as `int` reads it. */
  function ConditionSeq(seqValue: Option<string>): Option<int> {
    if seqValue.None? then None else Decimal.ParseInt(seqValue.value)
  }

  /**
   * `stock_codes_grouping`: a result with sequence 0 adds its accepted codes
   * to the KOSPI set, one with sequence 1 to the KOSDAQ set; a missing or
   * unreadable sequence, a missing or empty item list, or another sequence
   * changes nothing.
   */
  function StockCodesGrouping(lists: ConditionLists, seqValue: Option<string>, items: Option<seq<ConditionItem>>)
    : (r: ConditionLists)
    ensures var n := ConditionSeq(seqValue);
            if n.None? || items.None? || |items.value| == 0 then r == lists
            else if n.value == 0 then r.kosdaq == lists.kosdaq && r.kospi == lists.kospi + AcceptedCodes(items.value)
            else if n.value == 1 then r.kospi == lists.kospi && r.kosdaq == lists.kosdaq + AcceptedCodes(items.value)
            else r == lists
    ensures forall c :: c in r.kospi - lists.kospi ==> IsStockCode(c)
    ensures forall c :: c in r.kosdaq - lists.kosdaq ==> IsStockCode(c)
  {
    var n := ConditionSeq(seqValue);
    if n.None? || items.None? || |items.value| == 0 then lists
    else if n.value == 0 then lists.(kospi := lists.kospi + AcceptedCodes(items.value))
    else if n.value == 1 then lists.(kosdaq := lists.kosdaq + AcceptedCodes(items.value))
    else lists
  }

  /**
   * The group additions that follow: every code of a set, in the order the
   * set is walked, goes into the realtime group; an unknown group stays
   * unknown and other groups are untouched.
   */
  function AddCodesToGroup(gs: RealtimeGroups.Groups, group: int, codes: seq<string>): (r: RealtimeGroups.Groups)
    ensures r.Keys == gs.Keys
    ensures group !in gs ==> r == gs
    ensures forall g :: g in gs && g != group ==> r[g] == gs[g]
    ensures group in gs ==> r[group].strategy == gs[group].strategy && r[group].dataType == gs[group].dataType
    ensures group in gs ==> forall c :: c in r[group].stockCode <==> c in gs[group].stockCode || c in codes
    ensures group in gs && RealtimeGroups.NoDuplicates(gs[group].stockCode) ==> RealtimeGroups.NoDuplicates(r[group].stockCode)
    decreases |codes|
  {
    if |codes| == 0 then gs
    else
      var next := RealtimeGroups.AddStockToGroup(gs, group, codes[0]).0;
      if group in gs && RealtimeGroups.NoDuplicates(gs[group].stockCode) then
        RealtimeGroups.MembershipKeepsNoDuplicates(gs, group, codes[0]);
        AddCodesToGroup(next, group, codes[1..])
      else
        AddCodesToGroup(next, group, codes[1..])
  }

  /** An entry of an order report set (`redis:00:<code>`), decoded: not JSON, JSON but not an object, or a report. */
  datatype Stored =
    | Unparsable
    | NotObject
    | Report(kind: Option<string>, number: Option<string>, report: OrderReport)

  /** An entry with its score, the time it was stored. */
  datatype Entry = Entry(data: Stored, score: int)

  /** The ten minutes before `now`, both ends included, that the sweep reads. */
  predicate InWindow(e: Entry, now: int) {
    now - 600 <= e.score <= now
  }

  /** `str(order_data.get('9203', '0'))`. */
  function SweepNumber(d: Stored): string
    requires d.Report?
  {
    d.number.GetOr("0")
  }

  /** Entry `i` is an order report in the window with a usable order number. */
  predicate Counts(entries: seq<Entry>, now: int, i: int)
    requires 0 <= i < |entries|
  {
    var e := entries[i];
    InWindow(e, now) && e.data.Report? && e.data.kind == Some("00")
    && SweepNumber(e.data) != "" && SweepNumber(e.data) != "0"
  }

  /** Entry `j` is in the window and not an object, which ends the sweep of its set. */
  predicate Breaks(entries: seq<Entry>, now: int, j: int)
    requires 0 <= j < |entries|
  {
    InWindow(entries[j], now) && entries[j].data.NotObject?
  }

  /**
   * Where the walk over one set stands: the unparsable entries it has
   * dropped, and either the latest entry per order number so far or, once
   * an entry was not an object, nothing more.
   */
  datatype Scan = Scanned(unparsable: set<int>, latest: map<string, int>) | Aborted(unparsable: set<int>)

  /** The walk over the first `n` entries of a set, in score order. */
  function ScanEntries(entries: seq<Entry>, now: int, n: nat): (r: Scan)
    requires n <= |entries|
    ensures forall i :: i in r.unparsable ==> 0 <= i < n && InWindow(entries[i], now) && entries[i].data.Unparsable?
    ensures r.Scanned? ==> forall k :: k in r.latest ==>
              0 <= r.latest[k] < n && Counts(entries, now, r.latest[k]) && SweepNumber(entries[r.latest[k]].data) == k
    decreases n
  {
    if n == 0 then Scanned({}, map[])
    else
      var prev := ScanEntries(entries, now, n - 1);
      var e := entries[n - 1];
      if prev.Aborted? || !InWindow(e, now) then prev
      else if e.data.Unparsable? then prev.(unparsable := prev.unparsable + {n - 1})
      else if e.data.NotObject? then Aborted(prev.unparsable)
      else if !Counts(entries, now, n - 1) then prev
      else
        var k := SweepNumber(e.data);
        if k !in prev.latest || e.score > entries[prev.latest[k]].score then prev.(latest := prev.latest[k := n - 1])
        else prev
  }

  /** The walk gives up exactly when some entry in the window is not an object. */
  lemma {:induction false} ScanAbortsOnNonObject(entries: seq<Entry>, now: int, n: nat)
    requires n <= |entries|
    ensures ScanEntries(entries, now, n).Aborted? <==> exists j :: 0 <= j < n && Breaks(entries, now, j)
    decreases n
  {
    if n > 0 {
      ScanAbortsOnNonObject(entries, now, n - 1);
      if !Breaks(entries, now, n - 1) {
        assert forall j :: 0 <= j < n && Breaks(entries, now, j) ==> j < n - 1;
      }
    }
  }

  /** No entry before `i` ends the walk. */
  predicate Reaches(entries: seq<Entry>, now: int, i: int)
    requires i <= |entries|
  {
    forall j :: 0 <= j < i ==> !Breaks(entries, now, j)
  }

  /** An unparsable entry in the window is dropped exactly when no earlier entry ended the walk. */
  lemma {:induction false} ScanDropsUnparsable(entries: seq<Entry>, now: int, n: nat, i: int)
    requires n <= |entries| && 0 <= i < n
    ensures i in ScanEntries(entries, now, n).unparsable <==>
              InWindow(entries[i], now) && entries[i].data.Unparsable? && Reaches(entries, now, i)
    decreases n
  {
    UnparsableStep(entries, now, n);
    if i == n - 1 {
      ScanAbortsOnNonObject(entries, now, i);
      assert ScanEntries(entries, now, i).Scanned? <==> Reaches(entries, now, i);
    } else {
      ScanDropsUnparsable(entries, now, n - 1, i);
    }
  }

  /** One step of the walk adds the new entry to the dropped ones exactly when it is an unparsable entry the walk reaches. */
  lemma UnparsableStep(entries: seq<Entry>, now: int, n: nat)
    requires 0 < n <= |entries|
    ensures var prev := ScanEntries(entries, now, n - 1);
            var e := entries[n - 1];
            n - 1 !in prev.unparsable &&
            ScanEntries(entries, now, n).unparsable ==
              prev.unparsable + (if prev.Scanned? && InWindow(e, now) && e.data.Unparsable? then {n - 1} else {})
  {
  }

  /**
   * The latest entry kept for an order number is the report of that number
   * with the highest score, the first of equal ones.
   */
  lemma {:induction false} ScanKeepsNewest(entries: seq<Entry>, now: int, n: nat, i: int)
    requires n <= |entries| && 0 <= i < n && Counts(entries, now, i)
    ensures var r := ScanEntries(entries, now, n);
            var k := SweepNumber(entries[i].data);
            r.Scanned? ==>
              (k in r.latest
               && (entries[i].score < entries[r.latest[k]].score
                   || (entries[i].score == entries[r.latest[k]].score && r.latest[k] <= i)))
    decreases n
  {
    if i < n - 1 {
      ScanKeepsNewest(entries, now, n - 1, i);
    }
  }

  /** What the sweep does with the latest report of an order. */
  datatype Decision = Completed | Closed | ToCancel | Keep

  /**
   * A fully traded order is done; a cancelled or rejected one is closed;
   * one still open after five minutes is cancelled; anything else is kept.
   */
  function Decide(report: OrderReport, score: int, now: int): (r: Decision)
    ensures r.Completed? ==> Completes(report.orderQty, report.tradeQty, report.untradeQty)
    ensures r.Closed? <==> !r.Completed? && (report.Kind().Cancelled? || report.Kind().Rejected?)
    ensures r.ToCancel? ==> score <= now - 300 && report.untradeQty > 0
                            && !Completes(report.orderQty, report.tradeQty, report.untradeQty)
                            && !report.Kind().Cancelled? && !report.Kind().Rejected?
    ensures score > now - 300 ==> !r.ToCancel?
    ensures (score <= now - 300 && report.untradeQty > 0
             && !report.Kind().Cancelled? && !report.Kind().Rejected?) ==> r.ToCancel?
    ensures r.Keep? <==> !r.Completed? && !r.Closed? && !(score <= now - 300 && report.untradeQty > 0)
  {
    if report.orderQty > 0 && report.tradeQty > 0 && report.orderQty == report.tradeQty && report.untradeQty == 0 then Completed
    else if SaysCancelled(report.status, report.state) || SaysRejected(report.status, report.state) then Closed
    else if score <= now - 300 && report.untradeQty > 0 then ToCancel
    else Keep
  }

  /** The outcome for one set: the entries removed, and those of them whose orders are cancelled. */
  datatype Outcome = Outcome(removed: set<int>, cancels: set<int>)

  /**
   * `check_and_cancel_old_orders` on one set: unparsable entries go as they
   * are met; the latest report of each order is removed when it is
   * completed, closed or cancelled, the cancel request also being sent in
   * the last case (`cancel_old_order` removes the entry whatever the broker
   * answers); after an entry that is not an object nothing is decided.
   */
  function SweepKey(entries: seq<Entry>, now: int): (r: Outcome)
    ensures r.cancels <= r.removed
    ensures forall i :: i in r.removed ==> 0 <= i < |entries| && InWindow(entries[i], now)
    ensures forall i :: i in r.cancels ==>
              (entries[i].data.Report?
               && entries[i].score <= now - 300 && entries[i].data.report.untradeQty > 0
               && !entries[i].data.report.Kind().Cancelled? && !entries[i].data.report.Kind().Rejected?)
    ensures ScanEntries(entries, now, |entries|).Aborted? ==> r.cancels == {}
    ensures ScanEntries(entries, now, |entries|).unparsable <= r.removed
    ensures var scan := ScanEntries(entries, now, |entries|);
            scan.Scanned? ==> forall k :: k in scan.latest ==>
              var d := Decide(entries[scan.latest[k]].data.report, entries[scan.latest[k]].score, now);
              (scan.latest[k] in r.removed <==> !d.Keep?) && (scan.latest[k] in r.cancels <==> d.ToCancel?)
  {
    var scan := ScanEntries(entries, now, |entries|);
    if scan.Aborted? then Outcome(scan.unparsable, {})
    else
      var latest := scan.latest;
      var decided := set k | k in latest && !Decide(entries[latest[k]].data.report, entries[latest[k]].score, now).Keep? :: latest[k];
      var cancels := set k | k in latest && Decide(entries[latest[k]].data.report, entries[latest[k]].score, now).ToCancel? :: latest[k];
      Outcome(scan.unparsable + decided, cancels)
  }

  /**
   * Entry `i` is the report the sweep decides on for its order number: no
   * report of that number in the window is newer, and none as new comes
   * earlier.
   */
  predicate Newest(entries: seq<Entry>, now: int, i: int)
    requires 0 <= i < |entries|
  {
    Counts(entries, now, i)
    && forall j :: 0 <= j < |entries| && Counts(entries, now, j) && SweepNumber(entries[j].data) == SweepNumber(entries[i].data) ==>
         entries[j].score < entries[i].score || (entries[j].score == entries[i].score && i <= j)
  }

  /**
   * On a set where no entry ends the walk, the newest report of every order
   * is removed exactly when it is completed, closed or overdue, and its
   * order is cancelled exactly when it is still open after five minutes.
   */
  lemma SweepActsOnNewest(entries: seq<Entry>, now: int, i: int)
    requires 0 <= i < |entries| && Newest(entries, now, i) && Reaches(entries, now, |entries|)
    ensures var r := SweepKey(entries, now);
            var d := Decide(entries[i].data.report, entries[i].score, now);
            (i in r.removed <==> !d.Keep?) && (i in r.cancels <==> d.ToCancel?)
  {
    ScanAbortsOnNonObject(entries, now, |entries|);
    ScanKeepsNewest(entries, now, |entries|, i);
    var scan := ScanEntries(entries, now, |entries|);
    var k := SweepNumber(entries[i].data);
    assert scan.latest[k] == i;
  }

  /** The entries of a set not removed, in their order. */
  function Prune(entries: seq<Entry>, removed: set<int>, from: nat): (r: seq<Entry>)
    requires from <= |entries|
    ensures |r| <= |entries| - from
    ensures forall i :: from <= i < |entries| && i !in removed ==> entries[i] in r
    ensures forall e :: e in r ==> exists i :: from <= i < |entries| && i !in removed && entries[i] == e
    decreases |entries| - from
  {
    if from == |entries| then []
    else
      var rest := Prune(entries, removed, from + 1);
      if from in removed then rest else [entries[from]] + rest
  }

  /**
   * The sweep over every order report set: each set loses its removed
   * entries, and the cancel requests name the set and the entry.
   */
  function SweepOrders(store: map<string, seq<Entry>>, now: int): (r: (map<string, seq<Entry>>, set<(string, int)>))
    ensures r.0.Keys == store.Keys
    ensures forall k :: k in store ==> r.0[k] == Prune(store[k], SweepKey(store[k], now).removed, 0)
    ensures forall c :: c in r.1 <==> c.0 in store && c.1 in SweepKey(store[c.0], now).cancels
  {
    var pruned := map k | k in store :: Prune(store[k], SweepKey(store[k], now).removed, 0);
    var cancels := set k, i | k in store && i in SweepKey(store[k], now).cancels :: (k, i);
    (pruned, cancels)
  }

  /** The number of stocks the deposit is split over: the count, or 50 when there are none. */
  function ShareCount(count: int): (n: int)
    ensures n >= 1
    ensures count >= 1 ==> n == count
  {
    if count >= 1 then count else 50
  }

  /**
   * `assigned_per_stock`: `int(deposit / n)`, the share of the deposit each
   * stock may spend; for a deposit that is not negative it is the largest
   * amount that `n` stocks can all spend within it.
   */
  function AssignedPerStock(deposit: int, count: int): (r: int)
    ensures var n := ShareCount(count);
            deposit >= 0 ==> r >= 0 && r * n <= deposit < (r + 1) * n
  {
    var n := ShareCount(count);
    SharesFit(deposit, n);
    PyNum.Trunc(deposit as real / n as real)
  }

  lemma SharesFit(deposit: int, n: int)
    requires n >= 1
    ensures var r := PyNum.Trunc(deposit as real / n as real);
            deposit >= 0 ==> r >= 0 && r * n <= deposit < (r + 1) * n
  {
    if deposit >= 0 {
      var x := deposit as real / n as real;
      PyNum.DivFacts(deposit as real, n as real);
      PyNum.DivNonNegative(deposit as real, n as real);
      Fits(deposit, n, x, PyNum.Trunc(x));
    }
  }

  /** An integer within one below a quotient bounds the dividend in whole multiples of the divisor. */
  lemma Fits(deposit: int, n: int, x: real, r: int)
    requires n >= 1 && x * n as real == deposit as real && r as real <= x < r as real + 1.0
    ensures r * n <= deposit < (r + 1) * n
  {
    PyNum.ScaleUp(r as real, x, n as real);
    PyNum.ScaleUpStrict(x, r as real + 1.0, n as real);
    PyNum.CastProduct(r, n);
    PyNum.CastProduct(r + 1, n);
  }

  /** Python's `time` of day, compared field by field. */
  datatype Clock = Clock(hour: int, minute: int, second: int, micro: int) {
    predicate Valid() {
      0 <= hour < 24 && 0 <= minute < 60 && 0 <= second < 60 && 0 <= micro < 1000000
    }

    predicate NotAfter(o: Clock) {
      hour < o.hour || (hour == o.hour && (minute < o.minute || (minute == o.minute &&
      (second < o.second || (second == o.second && micro <= o.micro)))))
    }

    /** Microseconds since midnight. */
    function Micros(): int {
      ((hour * 60 + minute) * 60 + second) * 1000000 + micro
    }
  }

  /** `is_market_time`: 09:00 through 15:30 inclusive. */
  predicate IsMarketTime(t: Clock) {
    Clock(9, 0, 0, 0).NotAfter(t) && t.NotAfter(Clock(15, 30, 0, 0))
  }

  /** Comparing two valid clocks field by field is comparing their microseconds since midnight. */
  lemma NotAfterIsMicros(a: Clock, b: Clock)
    requires a.Valid() && b.Valid()
    ensures a.NotAfter(b) <==> a.Micros() <= b.Micros()
  {
    var sa := (a.hour * 60 + a.minute) * 60 + a.second;
    var sb := (b.hour * 60 + b.minute) * 60 + b.second;
    assert a.Micros() == sa * 1000000 + a.micro;
    assert b.Micros() == sb * 1000000 + b.micro;
    assert sa < sb ==> a.Micros() < b.Micros();
    assert sb < sa ==> b.Micros() < a.Micros();
  }

  /** The market is open from second 32400 of the day through second 55800, the last instant included. */
  lemma MarketTimeWindow(t: Clock)
    requires t.Valid()
    ensures IsMarketTime(t) <==> 32400 * 1000000 <= t.Micros() <= 55800 * 1000000
  {
    NotAfterIsMicros(Clock(9, 0, 0, 0), t);
    NotAfterIsMicros(t, Clock(15, 30, 0, 0));
  }
}
