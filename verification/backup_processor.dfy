/**
 * The earlier order processor: its one-minute sweep of order reports, its
 * holding updates on fills, its own integer reader, the condition-search
 * grouping, and the rules its baseline set-up uses to seed baselines.
 */
module BackupProcessor {
  import opened Wrappers
  import opened PyStr
  import Decimal
  import PyNum
  import Processor
  import BaselineTable
  import Models

  /**
   * The handler's nested `safe_int_convert`: text is stripped, and empty or
   * unreadable text gives the default; numbers convert by truncation;
   * anything else gives the default. Unlike the later reader, a comma is
   * not removed.
   */
  function SafeInt(v: Processor.Value, default: int): (r: int)
    ensures v.Null? || v.Other? ==> r == default
    ensures v.Int? ==> r == v.i
    ensures v.Float? ==> r == PyNum.Trunc(v.x)
    ensures v.Str? && Strip(v.s) == "" ==> r == default
    ensures v.Str? && r != default ==> Decimal.ParseInt(Strip(v.s)) == Some(r)
  {
    match v
    case Str(s) =>
      var t := Strip(s);
      if t == "" then default
      else
        var n := Decimal.ParseInt(t);
        if n.None? then default else n.value
    case Int(i) => i
    case Float(x) => PyNum.Trunc(x)
    case _ => default
  }

  /** What `str` writes reads back. */
  lemma SafeIntReadsIntegers(n: int, default: int)
    ensures SafeInt(Processor.Str(Decimal.IntToStr(n)), default) == n
  {
    var t := Decimal.IntToStr(n);
    StripNoEdgeSpace(t);
    StripIdempotent(t);
    Decimal.ParseIntRoundTrip(n);
  }

  /** Grouped digits are unreadable here: `"1,234"` gives the default, where the later reader gives 1234. */
  lemma SafeIntRefusesGrouping(a: string, b: string, default: int)
    requires IsDigits(a) && IsDigits(b)
    ensures SafeInt(Processor.Str(a + "," + b), default) == default
  {
    var s := a + "," + b;
    assert s[0] == a[0] && s[|s| - 1] == b[|b| - 1];
    StripNoEdgeSpace(s);
    assert s[|a|] == ',';
    assert !IsDigits(s);
    assert !(s[0] == '-' || s[0] == '+');
  }

  /** A fill report as the earlier handler reads it. */
  datatype Fill = Fill(item: string, status: string, state: string, tradeQty: int, price: int)
  {
    predicate Cancelled() {
      Contains(status, "취소") || Contains(state, "취소")
    }

    predicate IsBuy() {
      Contains(status, "매수") && !Contains(status, "취소")
    }

    predicate IsSell() {
      Contains(status, "매도") && !Contains(status, "취소")
    }
  }

  /**
   * The holding update of the earlier `type_callback_00`: a cancelled order
   * changes no holding and has its unfilled quantity stored as 0; a fill
   * with positive quantity and price, on a stock whose latest baseline is
   * cached, adds the traded quantity on a buy and takes it away on a sell,
   * dropping a holding that reaches zero. The answer's second half says
   * whether the unfilled quantity was forced to 0.
   */
  function OnFill(h: Processor.Holdings, f: Fill, cached: bool): (r: (Processor.Holdings, bool))
    ensures r.1 <==> f.Cancelled()
    ensures f.Cancelled() || f.tradeQty <= 0 || f.price <= 0 || !cached || (!f.IsBuy() && !f.IsSell()) ==> r.0 == h
    ensures var code := DropA(f.item);
            var held := if code in h then h[code] else 0;
            !f.Cancelled() && f.tradeQty > 0 && f.price > 0 && cached ==>
              (f.IsBuy() ==> r.0 == h[code := held + f.tradeQty])
              && (!f.IsBuy() && f.IsSell() ==>
                    (held - f.tradeQty <= 0 ==> r.0 == h - {code})
                    && (held - f.tradeQty > 0 ==> r.0 == h[code := held - f.tradeQty]))
    ensures f.tradeQty > 0 && Processor.AllPositive(h) ==> Processor.AllPositive(r.0)
  {
    if f.Cancelled() then (h, true)
    else if f.tradeQty > 0 && f.price > 0 && cached then
      var code := DropA(f.item);
      var held := if code in h then h[code] else 0;
      if f.IsBuy() then (h[code := held + f.tradeQty], false)
      else if f.IsSell() then
        var left := PyNum.Max(0, held - f.tradeQty);
        if left <= 0 then (h - {code}, false) else (h[code := left], false)
      else (h, false)
    else (h, false)
  }

  /** Selling what a buy just added restores the holdings. */
  lemma SellUndoesBuy(h: Processor.Holdings, item: string, tradeQty: int, price: int)
    requires Processor.AllPositive(h) && tradeQty > 0 && price > 0
    ensures var bought := OnFill(h, Fill(item, "매수", "", tradeQty, price), true).0;
            OnFill(bought, Fill(item, "매도", "", tradeQty, price), true).0 == h
  {
    var code := DropA(item);
    assert Contains("매수", "매수") by { assert OccursAt("매수", "매수", 0); }
    assert Contains("매도", "매도") by { assert OccursAt("매도", "매도", 0); }
    assert !Contains("매수", "취소") && !Contains("", "취소") && !Contains("매도", "취소");
    assert !Contains("매도", "매수");
    if code !in h {
      assert h - {code} == h;
    }
  }

  /** An entry of an order report set as the earlier sweep sees it. */
  datatype Stored =
    | Unparsable
    | Malformed
    | Report(number: Option<string>, code: Option<string>, unclosed: Option<string>, status: string, state: string)

  datatype Entry = Entry(data: Stored, score: int)

  /** The earlier sweep reads everything stored at least a minute ago. */
  predicate Old(e: Entry, now: int) {
    0 <= e.score <= now - 60
  }

  /** What the sweep does with an old report. */
  datatype Action = Target | Drop | Stay

  /**
   * A report with a positive unfilled quantity and no cancel in either
   * status is a cancel target; one whose unfilled quantity is zero or
   * unreadable, or that is cancelled, is dropped; the rest stay.
   */
  function Judge(d: Stored): (r: Action)
    requires d.Report?
    ensures var n := Decimal.ParseInt(d.unclosed.GetOr("0"));
            var cancelled := Contains(d.status, "취소") || Contains(d.state, "취소");
            (r.Target? <==> n.Some? && n.value > 0 && !cancelled)
            && (r.Drop? <==> n.None? || n.value == 0 || cancelled)
  {
    var n := Decimal.ParseInt(d.unclosed.GetOr("0"));
    var cancelled := Contains(d.status, "취소") || Contains(d.state, "취소");
    if n.Some? && n.value > 0 && !cancelled then Target
    else if n.None? || n.value == 0 || cancelled then Drop
    else Stay
  }

  /** A target names an order and a stock, so `cancel_old_order` asks the broker to cancel it. */
  predicate Cancellable(d: Stored)
    requires d.Report?
  {
    d.number.Some? && d.number.value != "" && d.code.Some? && d.code.value != ""
  }

  /**
   * An entry as the sweep meets it: outside the range read, with fields
   * that are not text (which ends the whole sweep), or judged; an
   * unparsable entry is judged Drop.
   */
  datatype Seen = Skipped | Broken | Judged(action: Action, cancellable: bool)

  function See(e: Entry, now: int): (s: Seen)
    ensures s.Skipped? <==> !Old(e, now)
    ensures s.Broken? <==> Old(e, now) && e.data.Malformed?
    ensures Old(e, now) && e.data.Unparsable? ==> s == Judged(Drop, false)
    ensures Old(e, now) && e.data.Report? ==> s == Judged(Judge(e.data), Cancellable(e.data))
  {
    if !Old(e, now) then Skipped
    else match e.data
      case Unparsable => Judged(Drop, false)
      case Malformed => Broken
      case Report(_, _, _, _, _) => Judged(Judge(e.data), Cancellable(e.data))
  }

  /** The walk over the first `n` entries of all sets in turn. */
  datatype Walk = Walk(dropped: set<int>, targets: set<int>, aborted: bool)

  function WalkSeen(seen: seq<Seen>, n: nat): (r: Walk)
    requires n <= |seen|
    ensures forall i :: i in r.dropped ==> 0 <= i < n && seen[i].Judged? && seen[i].action.Drop?
    ensures forall i :: i in r.targets ==> 0 <= i < n && seen[i].Judged? && seen[i].action.Target?
    decreases n
  {
    if n == 0 then Walk({}, {}, false)
    else
      var prev := WalkSeen(seen, n - 1);
      var s := seen[n - 1];
      if prev.aborted || s.Skipped? then prev
      else if s.Broken? then prev.(aborted := true)
      else if s.action.Drop? then prev.(dropped := prev.dropped + {n - 1})
      else if s.action.Target? then prev.(targets := prev.targets + {n - 1})
      else prev
  }

  /** Nothing before `n` ended the sweep. */
  predicate Clean(seen: seq<Seen>, n: int)
    requires 0 <= n <= |seen|
  {
    forall j :: 0 <= j < n ==> !seen[j].Broken?
  }

  lemma {:induction false} WalkAbortsOnBroken(seen: seq<Seen>, n: nat)
    requires n <= |seen|
    ensures WalkSeen(seen, n).aborted <==> !Clean(seen, n)
    decreases n
  {
    if n > 0 {
      WalkAbortsOnBroken(seen, n - 1);
      if !seen[n - 1].Broken? {
        assert forall j :: 0 <= j < n && seen[j].Broken? ==> j < n - 1;
      }
    }
  }

  /**
   * The walk drops an entry exactly when it is judged Drop and nothing
   * earlier ended the sweep, and collects a target exactly when it is
   * judged Target and nothing earlier ended it.
   */
  lemma {:induction false} WalkMeetsEntries(seen: seq<Seen>, n: nat, i: int)
    requires n <= |seen| && 0 <= i < n
    ensures var w := WalkSeen(seen, n);
            (i in w.dropped <==> seen[i].Judged? && seen[i].action.Drop? && Clean(seen, i))
            && (i in w.targets <==> seen[i].Judged? && seen[i].action.Target? && Clean(seen, i))
    decreases n
  {
    WalkAbortsOnBroken(seen, i);
    if i < n - 1 {
      WalkMeetsEntries(seen, n - 1, i);
    }
  }

  function SeeAll(entries: seq<Entry>, now: int): (seen: seq<Seen>)
    ensures |seen| == |entries| && forall i :: 0 <= i < |entries| ==> seen[i] == See(entries[i], now)
  {
    seq(|entries|, i requires 0 <= i < |entries| => See(entries[i], now))
  }

  /** Entry `i` is old and its fields are not text. */
  predicate Breaks(entries: seq<Entry>, now: int, i: int)
    requires 0 <= i < |entries|
  {
    Old(entries[i], now) && entries[i].data.Malformed?
  }

  /**
   * The outcome of the earlier `check_and_cancel_old_orders`: the removed
   * entries, and the targets a cancel request is sent for.
   */
  datatype Outcome = Outcome(removed: set<int>, cancels: set<int>)

  /**
   * The earlier sweep: entries judged Drop and unparsable ones go as they
   * are met; once the walk ends normally every target goes too, with a
   * cancel request when it names an order and a stock
   * (`cancel_old_order` removes the entry on every path). An old entry
   * whose fields are not text ends the sweep, and then no target is acted on.
   */
  function Sweep(entries: seq<Entry>, now: int): (r: Outcome)
    ensures r.cancels <= r.removed
    ensures forall i :: i in r.removed ==> 0 <= i < |entries| && Old(entries[i], now)
    ensures forall i :: i in r.cancels ==>
              (0 <= i < |entries| && entries[i].data.Report? && Judge(entries[i].data).Target?
               && Cancellable(entries[i].data))
    ensures (exists j :: 0 <= j < |entries| && Breaks(entries, now, j)) ==> r.cancels == {}
  {
    var seen := SeeAll(entries, now);
    var w := WalkSeen(seen, |seen|);
    WalkAbortsOnBroken(seen, |seen|);
    if w.aborted then Outcome(w.dropped, {})
    else
      var cancels := set i | i in w.targets && seen[i].cancellable;
      Outcome(w.dropped + w.targets, cancels)
  }

  /**
   * On a store with no malformed old entry, an old report judged Target is
   * removed, with a cancel request exactly when it names an order and a
   * stock; one judged Drop is removed without a request; one judged Stay
   * is kept.
   */
  lemma SweepActsOnOldReports(entries: seq<Entry>, now: int, i: int)
    requires 0 <= i < |entries| && forall j :: 0 <= j < |entries| ==> !Breaks(entries, now, j)
    requires Old(entries[i], now) && entries[i].data.Report?
    ensures var d := entries[i].data;
            var r := Sweep(entries, now);
            (Judge(d).Target? ==> i in r.removed && (i in r.cancels <==> Cancellable(d)))
            && (Judge(d).Drop? ==> i in r.removed && i !in r.cancels)
            && (Judge(d).Stay? ==> i !in r.removed)
  {
    var seen := SeeAll(entries, now);
    assert Clean(seen, |seen|) by {
      forall j | 0 <= j < |seen| ensures !seen[j].Broken? {
        assert !Breaks(entries, now, j);
      }
    }
    WalkAbortsOnBroken(seen, |seen|);
    WalkMeetsEntries(seen, |seen|, i);
  }

  /**
   * The earlier grouping: the sequence number is read first, then every
   * item's `9001` code loses its first character, whatever it is, and goes
   * into the KOSPI set for sequence 0 or the KOSDAQ set for sequence 1; an
   * item without a code ends the walk, keeping what was added before.
   */
  function Grouping(lists: Processor.ConditionLists, seqValue: Option<string>, items: seq<Option<string>>)
    : (r: Processor.ConditionLists)
    ensures seqValue.None? || Decimal.ParseInt(seqValue.value).None? ==> r == lists
    ensures lists.kospi <= r.kospi && lists.kosdaq <= r.kosdaq
    ensures r.kospi == lists.kospi || r.kosdaq == lists.kosdaq
    ensures forall c :: c in r.kospi + r.kosdaq ==> c in lists.kospi + lists.kosdaq || exists i :: 0 <= i < |items| && items[i].Some? && DropFirst(items[i].value) == c
    ensures seqValue.Some? && Decimal.ParseInt(seqValue.value) == Some(0) ==>
              r.kosdaq == lists.kosdaq && r.kospi == lists.kospi + CodesUntilMissing(items, 0)
    ensures seqValue.Some? && Decimal.ParseInt(seqValue.value) == Some(1) ==>
              r.kospi == lists.kospi && r.kosdaq == lists.kosdaq + CodesUntilMissing(items, 0)
    ensures seqValue.Some? && Decimal.ParseInt(seqValue.value).Some? && Decimal.ParseInt(seqValue.value).value !in {0, 1} ==> r == lists
    ensures seqValue.Some? && Decimal.ParseInt(seqValue.value) == Some(0) ==>
              forall i :: 0 <= i < |items| && Unbroken(items, 0, i) ==> DropFirst(items[i].value) in r.kospi
  {
    if seqValue.None? then lists
    else
      var n := Decimal.ParseInt(seqValue.value);
      if n.None? then lists
      else if n.value == 0 then lists.(kospi := lists.kospi + CodesUntilMissing(items, 0))
      else if n.value == 1 then lists.(kosdaq := lists.kosdaq + CodesUntilMissing(items, 0))
      else lists
  }

  /** `s[1:]`. */
  function DropFirst(s: string): string {
    if |s| == 0 then "" else s[1..]
  }

  /** Every item from `k` to `i` has a code. */
  predicate Unbroken(items: seq<Option<string>>, k: nat, i: int)
    requires i < |items|
  {
    forall j :: k <= j <= i ==> items[j].Some?
  }

  /** The codes of the items from `k` on, up to the first item without one. */
  function CodesUntilMissing(items: seq<Option<string>>, k: nat): (r: set<string>)
    requires k <= |items|
    ensures forall c :: c in r ==> exists i :: k <= i < |items| && Unbroken(items, k, i) && DropFirst(items[i].value) == c
    ensures forall i :: k <= i < |items| && Unbroken(items, k, i) ==> DropFirst(items[i].value) in r
    decreases |items| - k
  {
    if k == |items| || items[k].None? then {}
    else
      var rest := CodesUntilMissing(items, k + 1);
      assert forall i :: k + 1 <= i < |items| ==> (Unbroken(items, k + 1, i) <==> Unbroken(items, k, i));
      {DropFirst(items[k].value)} + rest
  }

  /**
   * Where the later grouping checks the code, the earlier one takes any:
   * an item `"A12"` puts `"12"` into the KOSPI set here, while the later
   * grouping refuses an `A`-prefixed code of fewer than seven characters.
   */
  lemma GroupingAcceptsShortCodes(lists: Processor.ConditionLists, raw: string)
    requires 1 < |raw| < 7 && raw[0] == 'A'
    ensures raw[1..] in Grouping(lists, Some(Decimal.IntToStr(0)), [Some(raw)]).kospi
    ensures Processor.ConditionCode(Processor.Item(Some(raw))).None?
  {
    Decimal.ParseIntRoundTrip(0);
    assert StartsWith(raw, "A");
    assert CodesUntilMissing([Some(raw)], 1) == {};
  }

  /** `int(price * 0.97)` and `int(price * 1.03)`: the band a new holding's baseline gets. */
  function HoldingBand(price: int): (r: (int, int))
    ensures price >= 0 ==> 0 <= r.0 <= price <= r.1
    ensures price >= 0 ==> r.0 as real <= price as real * 0.97 < r.0 as real + 1.0
    ensures price >= 0 ==> r.1 as real <= price as real * 1.03 < r.1 as real + 1.0
  {
    (PyNum.Trunc(price as real * 0.97), PyNum.Trunc(price as real * 1.03))
  }

  /**
   * The quantity a new condition-search baseline gets: the money per stock
   * over the predicted open, truncated, and never below 1; 1 when there is
   * no money or no positive prediction.
   */
  function SeedQty(tradeMoney: real, predictedOpen: Option<int>): (q: int)
    ensures q >= 1
    ensures tradeMoney > 0.0 && predictedOpen.Some? && predictedOpen.value > 0 ==>
              var t := PyNum.Trunc(tradeMoney / predictedOpen.value as real);
              q == (if t <= 0 then 1 else t) && (q - 1) as real * predictedOpen.value as real <= tradeMoney
  {
    if tradeMoney > 0.0 && predictedOpen.Some? && predictedOpen.value > 0 then
      var p := predictedOpen.value as real;
      var t := PyNum.Trunc(tradeMoney / p);
      assert t as real <= tradeMoney / p;
      TruncTimes(tradeMoney, p, t);
      if t <= 0 then 1 else t
    else 1
  }

  lemma TruncTimes(m: real, p: real, t: int)
    requires m > 0.0 && p > 0.0 && t as real <= m / p
    ensures (t - 1) as real * p <= m
  {
    assert (m / p) * p == m;
    assert t as real * p <= (m / p) * p by { PyNum.ScaleUp(t as real, m / p, p); }
  }

  /** The codes of the table not held, in the order `codes` lists them. */
  function Unheld(codes: seq<string>, held: set<string>): (r: seq<string>)
    ensures forall c :: c in r <==> c in codes && c !in held
  {
    if |codes| == 0 then []
    else if codes[0] in held then Unheld(codes[1..], held)
    else [codes[0]] + Unheld(codes[1..], held)
  }

  /** Deleting every row of each code in turn. */
  function DeleteCodes(t: BaselineTable.Table, codes: seq<string>): (r: BaselineTable.Table)
    ensures forall b :: b in r <==> b in t && b.stockCode !in codes
    decreases |codes|
  {
    if |codes| == 0 then t
    else
      var next := BaselineTable.DeleteByCode(t, codes[0]).0;
      DeleteCodes(next, codes[1..])
  }

  /**
   * The first-run clean-up of the earlier baseline set-up as written: the
   * deletion of each unheld code's baselines is started without `await`,
   * so it never runs and the table is unchanged.
   */
  function ClearUnheldAsWritten(t: BaselineTable.Table, held: set<string>): (r: BaselineTable.Table)
    ensures r == t
  {
    var clear := Unheld(RowCodes(t), held);
    t
  }

  /** The clean-up as intended: every baseline of a code not held is deleted, the rest stay. */
  function ClearUnheld(t: BaselineTable.Table, held: set<string>): (r: BaselineTable.Table)
    ensures forall b :: b in r <==> b in t && b.stockCode in held
    ensures forall c :: BaselineTable.HasCode(r, c) ==> c in held
  {
    var codes := RowCodes(t);
    var clear := Unheld(codes, held);
    var r := DeleteCodes(t, clear);
    assert forall b :: b in t ==> b.stockCode in codes by {
      forall b | b in t ensures b.stockCode in codes {
        var i :| 0 <= i < |t| && t[i] == b;
        assert BaselineTable.HasCode(t, b.stockCode);
      }
    }
    assert forall c :: BaselineTable.HasCode(r, c) ==> c in held by {
      forall c | BaselineTable.HasCode(r, c) ensures c in held {
        var i :| 0 <= i < |r| && r[i].stockCode == c;
        assert r[i] in r;
      }
    }
    r
  }

  /** The code of every row, in row order. */
  function RowCodes(t: BaselineTable.Table): (r: seq<string>)
    ensures |r| == |t| && forall i :: 0 <= i < |t| ==> r[i] == t[i].stockCode
  {
    seq(|t|, i requires 0 <= i < |t| => t[i].stockCode)
  }

  /**
   * The difference: a baseline for a stock no longer held survives the
   * clean-up as written and is gone after the intended one.
   */
  lemma UnheldBaselineSurvives(t: BaselineTable.Table, held: set<string>, i: int)
    requires 0 <= i < |t| && t[i].stockCode !in held
    ensures t[i] in ClearUnheldAsWritten(t, held)
    ensures t[i] !in ClearUnheld(t, held)
  {
  }
}
