/**
 * The step-manager table as a map from stock code to record, and the
 * record transitions the step-manager module performs on it. Each
 * operation returns the new table and the record it returns (absent
 * where the module returns None).
 */
module StepManagerStore {
  import opened Wrappers
  import opened Models

  type Store = map<string, StepManager>

  datatype Outcome = Outcome(store: Store, record: Option<StepManager>)

  /** The store after `r` is written back under `code`, and `r` returned. */
  function Saved(store: Store, code: string, r: StepManager): Outcome {
    Outcome(store[code := r], Some(r))
  }

  /** Only the record under `code` differs, and it is the returned one. */
  ghost predicate OnlyRecordChanged(store: Store, code: string, r: Outcome) {
    r.record.Some? && code in r.store && r.store[code] == r.record.value
    && r.store.Keys == store.Keys + {code}
    && forall c :: c in store && c != code ==> r.store[c] == store[c]
  }

  /** The identifying and valuation fields are untouched. */
  ghost predicate SameIdentity(a: StepManager, b: StepManager) {
    a.code == b.code && a.kind == b.kind && a.market == b.market
    && a.finalPrice == b.finalPrice && a.totalQty == b.totalQty
  }

  /** `create_new`: refuses a code that already has a manager; otherwise stores the new record. */
  function CreateNew(
    store: Store, code: string, kind: bool, market: string, finalPrice: int, totalQty: int,
    tradeQty: int, tradeStep: int, holdQty: Option<int>, lastTradeTime: Option<int>,
    prices: Option<seq<int>>): (r: Result<Outcome, string>)
    ensures r.Failure? <==> code in store
    ensures r.Success? ==> OnlyRecordChanged(store, code, r.value)
    ensures r.Success? ==>
              var m := r.value.record.value;
              m.code == code && m.finalPrice == finalPrice && m.totalQty == totalQty
              && m.tradeQty == tradeQty && m.tradeStep == tradeStep
              && m.holdQty == (if holdQty.Some? then holdQty.value else totalQty - tradeQty)
              && m.lastTradePrices == (if prices.Some? then prices.value else [])
              && m.Column().None? == (prices.None? || |prices.value| == 0)
  {
    if code in store then Failure("a step manager already exists for " + code)
    else
      var hold := if holdQty.None? then totalQty - tradeQty else holdQty.value;
      var list := if prices.None? then [] else prices.value;
      Success(Saved(store, code, StepManager(code, kind, market, finalPrice, totalQty, tradeQty, tradeStep, hold, lastTradeTime, list)))
  }

  /** The optional arguments of `update_by_code`; an absent one leaves its field alone. */
  datatype Changes = Changes(
    finalPrice: Option<int>,
    totalQty: Option<int>,
    tradeQty: Option<int>,
    tradeStep: Option<int>,
    holdQty: Option<int>,
    lastTradeTime: Option<int>,
    prices: Option<seq<int>>)

  /** The given value when there is one, the current value otherwise. */
  function Pick<T>(given: Option<T>, current: T): (r: T)
    ensures given.None? ==> r == current
    ensures given.Some? ==> r == given.value
  {
    if given.Some? then given.value else current
  }

  /** `update_by_code`: overwrites exactly the given fields of an existing manager. */
  function UpdateByCode(store: Store, code: string, c: Changes): (r: Outcome)
    ensures r.record.None? <==> code !in store
    ensures r.record.None? ==> r.store == store
    ensures r.record.Some? ==> OnlyRecordChanged(store, code, r)
    ensures r.record.Some? ==>
              var old_ := store[code];
              var m := r.record.value;
              m.code == old_.code && m.kind == old_.kind && m.market == old_.market
              && (c.finalPrice.None? ==> m.finalPrice == old_.finalPrice)
              && (c.totalQty.None? ==> m.totalQty == old_.totalQty)
              && (c.tradeQty.None? ==> m.tradeQty == old_.tradeQty)
              && (c.tradeStep.None? ==> m.tradeStep == old_.tradeStep)
              && (c.holdQty.None? ==> m.holdQty == old_.holdQty)
              && (c.lastTradeTime.None? ==> m.lastTradeTime == old_.lastTradeTime)
              && (c.prices.None? ==> m.lastTradePrices == old_.lastTradePrices)
              && (c.finalPrice.Some? ==> m.finalPrice == c.finalPrice.value)
              && (c.totalQty.Some? ==> m.totalQty == c.totalQty.value)
              && (c.tradeQty.Some? ==> m.tradeQty == c.tradeQty.value)
              && (c.tradeStep.Some? ==> m.tradeStep == c.tradeStep.value)
              && (c.holdQty.Some? ==> m.holdQty == c.holdQty.value)
              && (c.lastTradeTime.Some? ==> m.lastTradeTime == c.lastTradeTime)
              && (c.prices.Some? ==> m.lastTradePrices == c.prices.value)
  {
    if code !in store then Outcome(store, None)
    else
      var m0 := store[code];
      Saved(store, code, m0.(
        finalPrice := Pick(c.finalPrice, m0.finalPrice),
        totalQty := Pick(c.totalQty, m0.totalQty),
        tradeQty := Pick(c.tradeQty, m0.tradeQty),
        tradeStep := Pick(c.tradeStep, m0.tradeStep),
        holdQty := Pick(c.holdQty, m0.holdQty),
        lastTradeTime := if c.lastTradeTime.Some? then c.lastTradeTime else m0.lastTradeTime,
        lastTradePrices := Pick(c.prices, m0.lastTradePrices)))
  }

  /**
   * `update_trade_info`: sets the traded quantity and step, stamps the
   * trade time, recomputes the held quantity from the total, and appends
   * the trade price.
   */
  function UpdateTradeInfo(store: Store, code: string, tradeQty: int, tradeStep: int, tradePrice: int, now: int): (r: Outcome)
    ensures r.record.None? <==> code !in store
    ensures r.record.None? ==> r.store == store
    ensures r.record.Some? ==> OnlyRecordChanged(store, code, r)
    ensures r.record.Some? ==>
              var old_ := store[code];
              var m := r.record.value;
              SameIdentity(m, old_)
              && m.tradeQty == tradeQty && m.tradeStep == tradeStep && m.lastTradeTime == Some(now)
              && m.holdQty + m.tradeQty == m.totalQty
              && |m.lastTradePrices| == |old_.lastTradePrices| + 1
              && m.lastTradePrices[..|old_.lastTradePrices|] == old_.lastTradePrices
              && m.LastTradePrice() == Some(tradePrice)
  {
    if code !in store then Outcome(store, None)
    else
      var m0 := store[code];
      var m1 := m0.(tradeQty := tradeQty, tradeStep := tradeStep, lastTradeTime := Some(now),
                    holdQty := m0.totalQty - tradeQty);
      Saved(store, code, m1.AddTradePrice(tradePrice))
  }

  /** `add_trade_price`: one more price at the end and one more step. */
  function AddTradePrice(store: Store, code: string, tradePrice: int): (r: Outcome)
    ensures r.record.None? <==> code !in store
    ensures r.record.None? ==> r.store == store
    ensures r.record.Some? ==> OnlyRecordChanged(store, code, r)
    ensures r.record.Some? ==>
              var old_ := store[code];
              var m := r.record.value;
              SameIdentity(m, old_) && m.tradeQty == old_.tradeQty && m.holdQty == old_.holdQty
              && m.lastTradeTime == old_.lastTradeTime
              && |m.lastTradePrices| == |old_.lastTradePrices| + 1
              && m.lastTradePrices[..|old_.lastTradePrices|] == old_.lastTradePrices
              && m.LastTradePrice() == Some(tradePrice)
              && m.tradeStep == old_.tradeStep + 1
  {
    if code !in store then Outcome(store, None)
    else
      var m0 := store[code];
      var m1 := m0.AddTradePrice(tradePrice);
      Saved(store, code, m1.(tradeStep := m1.tradeStep + 1))
  }

  /**
   * `delete_trade_price`: drops the last price and steps back once, never
   * below step 0; with no prices it returns None and writes nothing.
   */
  function DeleteTradePrice(store: Store, code: string): (r: Outcome)
    ensures r.record.None? <==> code !in store || |store[code].lastTradePrices| == 0
    ensures r.record.None? ==> r.store == store
    ensures r.record.Some? ==> OnlyRecordChanged(store, code, r)
    ensures r.record.Some? ==>
              var old_ := store[code];
              var m := r.record.value;
              SameIdentity(m, old_) && m.tradeQty == old_.tradeQty && m.holdQty == old_.holdQty
              && m.lastTradePrices + [old_.lastTradePrices[|old_.lastTradePrices| - 1]] == old_.lastTradePrices
              && (old_.tradeStep > 0 ==> m.tradeStep + 1 == old_.tradeStep)
              && (old_.tradeStep <= 0 ==> m.tradeStep == old_.tradeStep)
  {
    if code !in store then Outcome(store, None)
    else
      var m0 := store[code];
      var prices := m0.lastTradePrices;
      if |prices| == 0 then Outcome(store, None)
      else
        var step := if m0.tradeStep > 0 then m0.tradeStep - 1 else m0.tradeStep;
        assert prices[..|prices| - 1] + [prices[|prices| - 1]] == prices;
        Saved(store, code, m0.(lastTradePrices := prices[..|prices| - 1], tradeStep := step))
  }

  /** The list without its element at `i`. */
  function RemoveAt(xs: seq<int>, i: int): (r: seq<int>)
    requires 0 <= i < |xs|
    ensures |r| + 1 == |xs|
    ensures forall k :: 0 <= k < i ==> r[k] == xs[k]
    ensures forall k :: i <= k < |r| ==> r[k] == xs[k + 1]
  {
    xs[..i] + xs[i + 1..]
  }

  /**
   * `delete_trade_price_by_index`: removes the price at a valid index and
   * makes the step equal to the number of prices left; an index outside the
   * list returns None and writes nothing.
   */
  function DeleteTradePriceByIndex(store: Store, code: string, index: int): (r: Outcome)
    ensures r.record.None? <==> code !in store || !(0 <= index < |store[code].lastTradePrices|)
    ensures r.record.None? ==> r.store == store
    ensures r.record.Some? ==> OnlyRecordChanged(store, code, r)
    ensures r.record.Some? ==>
              var old_ := store[code];
              var m := r.record.value;
              SameIdentity(m, old_) && m.tradeQty == old_.tradeQty && m.holdQty == old_.holdQty
              && m.lastTradePrices == RemoveAt(old_.lastTradePrices, index)
              && m.tradeStep == |m.lastTradePrices| == |old_.lastTradePrices| - 1
  {
    if code !in store then Outcome(store, None)
    else
      var m0 := store[code];
      var prices := m0.lastTradePrices;
      if |prices| == 0 || index < 0 || index >= |prices| then Outcome(store, None)
      else
        var kept := RemoveAt(prices, index);
        Saved(store, code, m0.(lastTradePrices := kept, tradeStep := |kept|))
  }

  /**
   * `update_trade_price_by_index`: replaces the price at a valid index and
   * nothing else; the number of prices and the step are unchanged.
   */
  function UpdateTradePriceByIndex(store: Store, code: string, index: int, newPrice: int): (r: Outcome)
    ensures r.record.None? <==> code !in store || !(0 <= index < |store[code].lastTradePrices|)
    ensures r.record.None? ==> r.store == store
    ensures r.record.Some? ==> OnlyRecordChanged(store, code, r)
    ensures r.record.Some? ==>
              var old_ := store[code];
              var m := r.record.value;
              SameIdentity(m, old_) && m.tradeQty == old_.tradeQty && m.holdQty == old_.holdQty
              && m.tradeStep == old_.tradeStep
              && |m.lastTradePrices| == |old_.lastTradePrices|
              && m.lastTradePrices[index] == newPrice
              && (forall k :: 0 <= k < |m.lastTradePrices| && k != index ==> m.lastTradePrices[k] == old_.lastTradePrices[k])
  {
    if code !in store then Outcome(store, None)
    else
      var m0 := store[code];
      var prices := m0.lastTradePrices;
      if |prices| == 0 || index < 0 || index >= |prices| then Outcome(store, None)
      else Saved(store, code, m0.(lastTradePrices := prices[index := newPrice]))
  }

  /** `sync_trade_step_with_prices`: the step becomes the number of recorded prices. */
  function SyncTradeStepWithPrices(store: Store, code: string): (r: Outcome)
    ensures r.record.None? <==> code !in store
    ensures r.record.None? ==> r.store == store
    ensures r.record.Some? ==> OnlyRecordChanged(store, code, r)
    ensures r.record.Some? ==>
              var old_ := store[code];
              var m := r.record.value;
              SameIdentity(m, old_) && m.lastTradePrices == old_.lastTradePrices
              && m.tradeStep == |old_.lastTradePrices|
  {
    if code !in store then Outcome(store, None)
    else
      var m0 := store[code];
      Saved(store, code, m0.(tradeStep := |m0.lastTradePrices|))
  }

  /** `reset_trade_prices`: no prices and step 0. */
  function ResetTradePrices(store: Store, code: string): (r: Outcome)
    ensures r.record.None? <==> code !in store
    ensures r.record.None? ==> r.store == store
    ensures r.record.Some? ==> OnlyRecordChanged(store, code, r)
    ensures r.record.Some? ==>
              var old_ := store[code];
              var m := r.record.value;
              SameIdentity(m, old_) && m.tradeQty == old_.tradeQty && m.holdQty == old_.holdQty
              && m.lastTradePrices == [] && m.Column().None? && m.tradeStep == 0
  {
    if code !in store then Outcome(store, None)
    else
      var m0 := store[code];
      Saved(store, code, m0.(lastTradePrices := [], tradeStep := 0))
  }

  /** `delete_by_code`: True and the record gone when it existed, False otherwise. */
  function DeleteByCode(store: Store, code: string): (r: (Store, bool))
    ensures r.1 <==> code in store
    ensures code !in r.0 && r.0.Keys == store.Keys - {code}
    ensures forall c :: c in r.0 ==> r.0[c] == store[c]
  {
    (store - {code}, code in store)
  }

  /** Deleting the last price undoes adding one: the list and, for a non-negative step, the step are restored. */
  lemma DeleteUndoesAdd(store: Store, code: string, price: int)
    requires code in store
    ensures var added := AddTradePrice(store, code, price);
            var deleted := DeleteTradePrice(added.store, code);
            deleted.record.Some?
            && deleted.record.value.lastTradePrices == store[code].lastTradePrices
            && (store[code].tradeStep >= 0 ==> deleted.record.value == store[code])
  {
  }

  /** Syncing makes the step agree with the price count, and syncing again changes nothing. */
  lemma SyncIdempotent(store: Store, code: string)
    requires code in store
    ensures var s1 := SyncTradeStepWithPrices(store, code);
            s1.record.value.tradeStep == |s1.record.value.lastTradePrices|
            && SyncTradeStepWithPrices(s1.store, code) == s1
  {
  }

  /**
   * Each operation that keeps a manager under its code keeps the step in
   * step with the price list when it was already: adding a price, deleting
   * one by index, syncing and resetting.
   */
  lemma StepTracksPrices(store: Store, code: string, price: int, index: int)
    requires code in store && store[code].tradeStep == |store[code].lastTradePrices|
    ensures var r := AddTradePrice(store, code, price); r.record.value.tradeStep == |r.record.value.lastTradePrices|
    ensures var r := DeleteTradePrice(store, code);
            r.record.Some? ==> r.record.value.tradeStep == |r.record.value.lastTradePrices|
    ensures var r := UpdateTradePriceByIndex(store, code, index, price);
            r.record.Some? ==> r.record.value.tradeStep == |r.record.value.lastTradePrices|
  {
  }

  /** The stored column of every manager reads back as its price list. */
  lemma ColumnReadsBack(store: Store, code: string)
    requires code in store
    ensures ReadColumn(store[code].Column()) == store[code].lastTradePrices
  {
  }

  /**
   * `get_fully_traded_positions` as written: it selects the managers whose
   * held quantity has reached the total, which under `hold = total - trade`
   * are the ones with nothing traded.
   */
  function FullyTradedPositionsAsWritten(store: Store): (r: set<string>)
    ensures forall c :: c in r <==> c in store && store[c].holdQty >= store[c].totalQty
  {
    set c | c in store && store[c].holdQty >= store[c].totalQty
  }

  /** The fully traded positions, by the record's own `is_fully_traded`. */
  function FullyTradedPositions(store: Store): (r: set<string>)
    ensures forall c :: c in r <==> c in store && store[c].IsFullyTraded()
  {
    set c | c in store && store[c].IsFullyTraded()
  }

  /** A manager with ten shares planned and none traded is reported as fully traded by the query as written. */
  lemma FullyTradedQueryDisagrees()
    ensures var m := StepManager("005930", true, "kospi", 75000, 10, 0, 0, 10, None, []);
            var store := map["005930" := m];
            "005930" in FullyTradedPositionsAsWritten(store)
            && "005930" !in FullyTradedPositions(store)
  {
  }

  /**
   * The corrected query agrees with the held quantity on consistent
   * records: where `hold = total - trade`, a manager is fully traded
   * exactly when nothing is left to hold beyond a non-positive amount.
   */
  lemma FullyTradedMeansNothingHeld(store: Store, c: string)
    requires c in store && store[c].holdQty == store[c].totalQty - store[c].tradeQty
    ensures c in FullyTradedPositions(store) <==> store[c].holdQty <= 0
  {
  }
}
