/**
 * The in-memory baseline cache: the list of baseline rows as loaded, and
 * a nested dictionary stock code -> step -> entry, where each entry adds
 * the per-session flags `isfirst` and `open_price` to the row's prices.
 * Time stamps are integers supplied by the caller.
 */
module BaselineCacheModel {
  import opened Wrappers
  import opened Models

  /** One cached step. The numeric fields are optional because an update can store None in them. */
  datatype Entry = Entry(
    isfirst: bool,
    openPrice: Option<int>,
    decisionPrice: Option<int>,
    quantity: Option<int>,
    lowPrice: Option<int>,
    highPrice: Option<int>,
    step: int,
    updatedAt: int)

  type Steps = map<int, Entry>

  datatype Cache = Cache(baseline: seq<BaseLine>, dict: map<string, Steps>)

  /** The entry a loaded row gets: first access pending, no open price yet, update time 0. */
  function EntryOf(b: BaseLine): (e: Entry)
    ensures e.isfirst && e.openPrice == Some(0) && e.step == b.step && e.updatedAt == 0
    ensures e.decisionPrice == Some(b.decisionPrice) && e.quantity == Some(b.quantity)
    ensures e.lowPrice == b.lowPrice && e.highPrice == b.highPrice
  {
    Entry(true, Some(0), Some(b.decisionPrice), Some(b.quantity), b.lowPrice, b.highPrice, b.step, 0)
  }

  /** A set with a positive size has an element. */
  lemma HasElement(s: set<int>)
    requires |s| > 0
    ensures exists x :: x in s
  {
    if forall x :: x !in s {
      assert false;
    }
  }

  /** A non-empty set of integers has a largest element. */
  lemma MaxExists(s: set<int>)
    requires |s| > 0
    ensures exists m :: m in s && forall y :: y in s ==> y <= m
    decreases |s|
  {
    HasElement(s);
    var x :| x in s;
    var rest := s - {x};
    if |rest| > 0 {
      MaxExists(rest);
      var m :| m in rest && forall y :: y in rest ==> y <= m;
      if x > m {
        assert forall y :: y in s ==> y == x || y in rest;
      } else {
        assert forall y :: y in s ==> y == x || y in rest;
      }
    } else {
      assert forall y :: y in s ==> y == x || y in rest;
    }
  }

  /** `max(steps.keys())`. */
  function MaxKey(steps: Steps): (m: int)
    requires |steps| > 0
    ensures m in steps && forall k :: k in steps ==> k <= m
  {
    MaxExists(steps.Keys);
    var m :| m in steps.Keys && forall y :: y in steps.Keys ==> y <= m;
    m
  }

  /** `get_last_step`: the largest cached step, or -1 when the stock is absent or has no steps. */
  function GetLastStep(c: Cache, code: string): (r: int)
    ensures r == -1 <== code !in c.dict || |c.dict[code]| == 0
    ensures code in c.dict && |c.dict[code]| > 0 ==>
              r in c.dict[code] && forall k :: k in c.dict[code] ==> k <= r
  {
    if code !in c.dict || |c.dict[code]| == 0 then -1
    else MaxKey(c.dict[code])
  }

  /** `get_baseline_info`: the entry at (`code`, `step`), if cached. */
  function GetBaselineInfo(c: Cache, code: string, step: int): (r: Option<Entry>)
    ensures r.Some? <==> code in c.dict && step in c.dict[code]
    ensures r.Some? ==> r.value == c.dict[code][step]
  {
    if code in c.dict && step in c.dict[code] then Some(c.dict[code][step]) else None
  }

  /** `get_decision_price_v2`: the decision price through the dictionary. */
  function DecisionPriceByDict(c: Cache, code: string, step: int): (r: Option<int>)
    ensures r.Some? ==> GetBaselineInfo(c, code, step).Some?
                        && GetBaselineInfo(c, code, step).value.decisionPrice == r
    ensures GetBaselineInfo(c, code, step).Some? ==> r == GetBaselineInfo(c, code, step).value.decisionPrice
  {
    var e := GetBaselineInfo(c, code, step);
    if e.Some? then e.value.decisionPrice else None
  }

  /** `get_decision_price_v1`: the decision price of the first listed row at (`code`, `step`). */
  function DecisionPriceByList(rows: seq<BaseLine>, code: string, step: int): (r: Option<int>)
    ensures r.None? <==> forall i :: 0 <= i < |rows| ==> !(rows[i].stockCode == code && rows[i].step == step)
    ensures r.Some? ==> exists i :: 0 <= i < |rows| && rows[i].stockCode == code && rows[i].step == step
                                    && r.value == rows[i].decisionPrice
  {
    if |rows| == 0 then None
    else if rows[0].stockCode == code && rows[0].step == step then Some(rows[0].decisionPrice)
    else
      var rest := DecisionPriceByList(rows[1..], code, step);
      assert forall i :: 1 <= i < |rows| ==> rows[1..][i - 1] == rows[i];
      rest
  }

  /** `get_latest_decision_price`: the decision price at the largest cached step. */
  function GetLatestDecisionPrice(c: Cache, code: string): (r: Option<int>)
    ensures code !in c.dict || |c.dict[code]| == 0 ==> r.None?
    ensures code in c.dict && |c.dict[code]| > 0 ==>
              r == c.dict[code][GetLastStep(c, code)].decisionPrice
  {
    if code !in c.dict || |c.dict[code]| == 0 then None
    else c.dict[code][MaxKey(c.dict[code])].decisionPrice
  }

  /** `get_isfirst`: the cached flag, False for an absent entry. */
  function GetIsFirst(c: Cache, code: string, step: int): (r: bool)
    ensures r <==> GetBaselineInfo(c, code, step).Some? && GetBaselineInfo(c, code, step).value.isfirst
  {
    var e := GetBaselineInfo(c, code, step);
    e.Some? && e.value.isfirst
  }

  /** A Python value counts as true: present and not zero. */
  predicate Truthy(x: Option<int>) {
    x.Some? && x.value != 0
  }

  /** The `price_range` that `get_price_info` reports: present only when both band ends are truthy. */
  function PriceRangeOf(e: Entry): (r: Option<int>)
    ensures r.Some? <==> Truthy(e.highPrice) && Truthy(e.lowPrice)
    ensures r.Some? ==> e.lowPrice.value + r.value == e.highPrice.value
  {
    if Truthy(e.highPrice) && Truthy(e.lowPrice) then Some(e.highPrice.value - e.lowPrice.value) else None
  }

  /** What `get_open_price_status` reports for a cached entry. */
  datatype OpenPriceStatus = Missing | Status(isfirst: bool, openPriceSet: bool, needsOpenPrice: bool)

  function GetOpenPriceStatus(c: Cache, code: string, step: int): (r: OpenPriceStatus)
    ensures r.Missing? <==> GetBaselineInfo(c, code, step).None?
    ensures r.Status? ==> var e := c.dict[code][step];
              r.isfirst == e.isfirst
              && (r.openPriceSet <==> e.openPrice.Some? && e.openPrice.value > 0)
              && (r.needsOpenPrice <==> e.isfirst && !r.openPriceSet)
  {
    var e := GetBaselineInfo(c, code, step);
    if e.None? then Missing
    else
      var set_ := e.value.openPrice.Some? && e.value.openPrice.value > 0;
      Status(e.value.isfirst, set_, e.value.isfirst && !set_)
  }

  /** The dictionary after loading `rows` in order over `d`: a later row overwrites an earlier one at the same step. */
  function LoadRows(d: map<string, Steps>, rows: seq<BaseLine>): (r: map<string, Steps>)
    ensures forall code :: code in d ==> code in r
    ensures forall i :: 0 <= i < |rows| ==> rows[i].stockCode in r
    decreases |rows|
  {
    if |rows| == 0 then d
    else
      var b := rows[0];
      var steps := if b.stockCode in d then d[b.stockCode] else map[];
      LoadRows(d[b.stockCode := steps[b.step := EntryOf(b)]], rows[1..])
  }

  /**
   * `initialize_baseline_cache`: `rows` is what the table returned, or None
   * when reading it raised. Success replaces the list and adds or
   * overwrites entries without clearing the old ones; failure empties both.
   */
  function Initialize(c: Cache, rows: Option<seq<BaseLine>>): (r: Cache)
    ensures rows.None? ==> r == Cache([], map[])
    ensures rows.Some? ==> r.baseline == rows.value
    ensures rows.Some? ==> forall code :: code in c.dict ==> code in r.dict
  {
    if rows.None? then Cache([], map[])
    else Cache(rows.value, LoadRows(c.dict, rows.value))
  }

  /** No two rows share both stock code and step. */
  ghost predicate UniqueRows(rows: seq<BaseLine>) {
    forall i, j :: 0 <= i < j < |rows| ==> !(rows[i].stockCode == rows[j].stockCode && rows[i].step == rows[j].step)
  }

  /** After loading, a loaded (code, step) holds its row's entry; every other (code, step) is as before. */
  lemma {:induction false} LoadRowsLookup(d: map<string, Steps>, rows: seq<BaseLine>, code: string, step: int)
    requires UniqueRows(rows)
    ensures var r := LoadRows(d, rows);
            forall i :: 0 <= i < |rows| && rows[i].stockCode == code && rows[i].step == step ==>
              code in r && step in r[code] && r[code][step] == EntryOf(rows[i])
    ensures var r := LoadRows(d, rows);
            (forall i :: 0 <= i < |rows| ==> !(rows[i].stockCode == code && rows[i].step == step)) ==>
              ((code in d && step in d[code]) <==> (code in r && step in r[code]))
              && (code in d && step in d[code] ==> r[code][step] == d[code][step])
    decreases |rows|
  {
    if |rows| > 0 {
      var b := rows[0];
      var steps := if b.stockCode in d then d[b.stockCode] else map[];
      var d' := d[b.stockCode := steps[b.step := EntryOf(b)]];
      assert UniqueRows(rows[1..]) by {
        forall i, j | 0 <= i < j < |rows[1..]|
          ensures !(rows[1..][i].stockCode == rows[1..][j].stockCode && rows[1..][i].step == rows[1..][j].step)
        {
          assert rows[1..][i] == rows[i + 1] && rows[1..][j] == rows[j + 1];
        }
      }
      LoadRowsLookup(d', rows[1..], code, step);
      forall i | 0 <= i < |rows| && rows[i].stockCode == code && rows[i].step == step
        ensures code in LoadRows(d, rows) && step in LoadRows(d, rows)[code]
                && LoadRows(d, rows)[code][step] == EntryOf(rows[i])
      {
        if i == 0 {
          forall j | 0 <= j < |rows[1..]|
            ensures !(rows[1..][j].stockCode == code && rows[1..][j].step == step)
          {
            assert rows[1..][j] == rows[j + 1];
          }
        } else {
          assert rows[1..][i - 1] == rows[i];
        }
      }
    }
  }

  /**
   * After a successful load of rows with unique (code, step), the list
   * lookup and the dictionary lookup give the same decision price for
   * every loaded row.
   */
  lemma ListAndDictAgree(c: Cache, rows: seq<BaseLine>, code: string, step: int)
    requires UniqueRows(rows)
    requires exists i :: 0 <= i < |rows| && rows[i].stockCode == code && rows[i].step == step
    ensures var r := Initialize(c, Some(rows));
            DecisionPriceByList(r.baseline, code, step) == DecisionPriceByDict(r, code, step)
  {
    var r := Initialize(c, Some(rows));
    LoadRowsLookup(c.dict, rows, code, step);
    var p := DecisionPriceByList(rows, code, step);
    var i :| 0 <= i < |rows| && rows[i].stockCode == code && rows[i].step == step && p.value == rows[i].decisionPrice;
    assert r.dict[code][step] == EntryOf(rows[i]);
  }

  /** The fields `add_baseline_cache` reads from its argument; None stands for a missing key. */
  datatype Info = Info(
    decisionPrice: Option<int>,
    quantity: Option<int>,
    lowPrice: Option<int>,
    highPrice: Option<int>,
    step: Option<int>,
    isfirst: Option<bool>,
    openPrice: Option<int>,
    updatedAt: Option<int>)

  /** The step `add_baseline_cache` uses: the given one, or one past the last cached step (0 when none). */
  function StepFor(c: Cache, code: string, info: Info): (s: int)
    ensures info.step.Some? ==> s == info.step.value
    ensures info.step.None? && GetLastStep(c, code) < 0 ==> s == 0
    ensures info.step.None? && code in c.dict ==> forall k :: k in c.dict[code] && k >= 0 ==> k < s
  {
    if info.step.Some? then info.step.value
    else
      var last := GetLastStep(c, code);
      if last >= 0 then last + 1 else 0
  }

  /**
   * `add_baseline_cache`: rejects an empty code, a missing band or price or
   * quantity, and an existing (code, step); otherwise appends the row and
   * adds the entry, with `isfirst` defaulting to true and the open price to 0.
   */
  function AddBaselineCache(c: Cache, code: string, info: Info, now: int): (r: (Cache, bool))
    ensures !r.1 ==> r.0 == c
    ensures r.1 <==> |code| > 0 && info.decisionPrice.Some? && info.quantity.Some?
                     && info.lowPrice.Some? && info.highPrice.Some?
                     && !(code in c.dict && StepFor(c, code, info) in c.dict[code])
    ensures r.1 ==>
              var step := StepFor(c, code, info);
              code in r.0.dict && step in r.0.dict[code]
              && var e := r.0.dict[code][step];
              e.isfirst == info.isfirst.GetOr(true) && e.openPrice == Some(info.openPrice.GetOr(0))
              && e.decisionPrice == info.decisionPrice && e.quantity == info.quantity
              && e.lowPrice == info.lowPrice && e.highPrice == info.highPrice && e.step == step
              && |r.0.baseline| == |c.baseline| + 1
              && (forall other :: other in c.dict && other != code ==> other in r.0.dict && r.0.dict[other] == c.dict[other])
              && (code in c.dict ==> forall k :: k in c.dict[code] ==> k in r.0.dict[code] && r.0.dict[code][k] == c.dict[code][k])
  {
    if |code| == 0 then (c, false)
    else if info.decisionPrice.None? || info.quantity.None? || info.lowPrice.None? || info.highPrice.None? then (c, false)
    else
      var step := StepFor(c, code, info);
      if code in c.dict && step in c.dict[code] then (c, false)
      else
        var row := BaseLine(code, step, info.decisionPrice.value, info.quantity.value, info.lowPrice, info.highPrice);
        var e := Entry(info.isfirst.GetOr(true), Some(info.openPrice.GetOr(0)), info.decisionPrice, info.quantity,
                       info.lowPrice, info.highPrice, step, info.updatedAt.GetOr(now));
        var steps := if code in c.dict then c.dict[code] else map[];
        (Cache(c.baseline + [row], c.dict[code := steps[step := e]]), true)
  }

  /**
   * `update_baseline_cache` as written: every given field among decision
   * price, quantity and the band ends receives the `open_price` argument,
   * not its own. Returns false and changes nothing for an absent entry.
   */
  function UpdateBaselineCache(
    c: Cache, code: string, step: int, isfirst: Option<bool>, openPrice: Option<int>,
    decisionPrice: Option<int>, quantity: Option<int>, lowPrice: Option<int>, highPrice: Option<int>, now: int)
    : (r: (Cache, bool))
    ensures r.1 <==> GetBaselineInfo(c, code, step).Some?
    ensures !r.1 ==> r.0 == c
    ensures r.1 ==>
              code in r.0.dict && step in r.0.dict[code]
              && var e := c.dict[code][step];
              var e' := r.0.dict[code][step];
              e'.updatedAt == now
              && (decisionPrice.Some? ==> e'.decisionPrice == openPrice)
              && (quantity.Some? ==> e'.quantity == openPrice)
              && (lowPrice.Some? ==> e'.lowPrice == openPrice)
              && (highPrice.Some? ==> e'.highPrice == openPrice)
  {
    if code !in c.dict || step !in c.dict[code] then (c, false)
    else
      var e := c.dict[code][step];
      var e' := e.(
        isfirst := isfirst.GetOr(e.isfirst),
        openPrice := if openPrice.Some? then openPrice else e.openPrice,
        decisionPrice := if decisionPrice.Some? then openPrice else e.decisionPrice,
        quantity := if quantity.Some? then openPrice else e.quantity,
        lowPrice := if lowPrice.Some? then openPrice else e.lowPrice,
        highPrice := if highPrice.Some? then openPrice else e.highPrice,
        updatedAt := now);
      (c.(dict := c.dict[code := c.dict[code][step := e']]), true)
  }

  /** `update_baseline_cache` as its parameters evidently intend: each given field receives its own argument. */
  function UpdateBaselineCacheIntended(
    c: Cache, code: string, step: int, isfirst: Option<bool>, openPrice: Option<int>,
    decisionPrice: Option<int>, quantity: Option<int>, lowPrice: Option<int>, highPrice: Option<int>, now: int)
    : (r: (Cache, bool))
    ensures r.1 <==> GetBaselineInfo(c, code, step).Some?
    ensures !r.1 ==> r.0 == c
    ensures r.1 ==>
              code in r.0.dict && step in r.0.dict[code]
              && var e := c.dict[code][step];
              var e' := r.0.dict[code][step];
              e'.updatedAt == now && e'.step == e.step
              && e'.isfirst == isfirst.GetOr(e.isfirst)
              && e'.openPrice == (if openPrice.Some? then openPrice else e.openPrice)
              && e'.decisionPrice == (if decisionPrice.Some? then decisionPrice else e.decisionPrice)
              && e'.quantity == (if quantity.Some? then quantity else e.quantity)
              && e'.lowPrice == (if lowPrice.Some? then lowPrice else e.lowPrice)
              && e'.highPrice == (if highPrice.Some? then highPrice else e.highPrice)
  {
    if code !in c.dict || step !in c.dict[code] then (c, false)
    else
      var e := c.dict[code][step];
      var e' := e.(
        isfirst := isfirst.GetOr(e.isfirst),
        openPrice := if openPrice.Some? then openPrice else e.openPrice,
        decisionPrice := if decisionPrice.Some? then decisionPrice else e.decisionPrice,
        quantity := if quantity.Some? then quantity else e.quantity,
        lowPrice := if lowPrice.Some? then lowPrice else e.lowPrice,
        highPrice := if highPrice.Some? then highPrice else e.highPrice,
        updatedAt := now);
      (c.(dict := c.dict[code := c.dict[code][step := e']]), true)
  }

  /**
   * Setting a new decision price alone, as written, erases the cached
   * decision price; the intended update stores the new price.
   */
  lemma UpdateDecisionPriceErases(c: Cache, code: string, step: int, price: int, now: int)
    requires GetBaselineInfo(c, code, step).Some?
    ensures var r := UpdateBaselineCache(c, code, step, None, None, Some(price), None, None, None, now);
            r.1 && DecisionPriceByDict(r.0, code, step).None?
    ensures var r := UpdateBaselineCacheIntended(c, code, step, None, None, Some(price), None, None, None, now);
            r.1 && DecisionPriceByDict(r.0, code, step) == Some(price)
  {
  }

  /**
   * `remove_from_cache`: with no step, every row and the whole entry of the
   * stock go; with a step, that step goes and the stock's entry is dropped
   * once it has no steps left.
   */
  function RemoveFromCache(c: Cache, code: string, step: Option<int>): (r: Cache)
    ensures forall b :: b in r.baseline <==> b in c.baseline && !(b.stockCode == code && (step.None? || b.step == step.value))
    ensures step.None? ==> code !in r.dict
    ensures step.Some? ==> !(code in r.dict && step.value in r.dict[code])
    ensures code in r.dict ==> |r.dict[code]| > 0 || (code in c.dict && r.dict[code] == c.dict[code])
    ensures forall other :: other != code ==> (other in r.dict <==> other in c.dict)
    ensures forall other :: other != code && other in r.dict ==> r.dict[other] == c.dict[other]
    ensures step.Some? && code in r.dict ==> code in c.dict && forall k :: k in r.dict[code] <==> k in c.dict[code] && k != step.value
  {
    var kept := KeepRows(c.baseline, code, step);
    if code !in c.dict then Cache(kept, c.dict)
    else if step.None? then Cache(kept, c.dict - {code})
    else if step.value in c.dict[code] then
      var steps := c.dict[code] - {step.value};
      if |steps| == 0 then Cache(kept, c.dict - {code})
      else Cache(kept, c.dict[code := steps])
    else Cache(kept, c.dict)
  }

  /** The rows that `remove_from_cache` keeps in the list. */
  function KeepRows(rows: seq<BaseLine>, code: string, step: Option<int>): (r: seq<BaseLine>)
    ensures |r| <= |rows|
    ensures forall b :: b in r <==> b in rows && !(b.stockCode == code && (step.None? || b.step == step.value))
  {
    if |rows| == 0 then []
    else
      var rest := KeepRows(rows[1..], code, step);
      assert rows == [rows[0]] + rows[1..];
      if rows[0].stockCode == code && (step.None? || rows[0].step == step.value) then rest
      else [rows[0]] + rest
  }

  /** Adding a new step for a stock and then removing it leaves that stock's steps as they were. */
  lemma RemoveUndoesAdd(c: Cache, code: string, info: Info, now: int)
    requires code in c.dict && |c.dict[code]| > 0
    requires AddBaselineCache(c, code, info, now).1
    ensures var added := AddBaselineCache(c, code, info, now).0;
            var step := StepFor(c, code, info);
            var removed := RemoveFromCache(added, code, Some(step));
            code in removed.dict && removed.dict[code] == c.dict[code]
  {
    var added := AddBaselineCache(c, code, info, now).0;
    var step := StepFor(c, code, info);
    var removed := RemoveFromCache(added, code, Some(step));
    assert added.dict[code] - {step} == c.dict[code];
  }
}
