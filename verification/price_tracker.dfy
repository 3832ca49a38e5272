/**
 * The price tracker: one Redis hash per stock under `redis:PT:<code>`,
 * holding the current price, the running highest and lowest prices since
 * the last trade, the last trade, and the quantities the trader may sell
 * and buy. Redis keeps every value as text: numbers are written with
 * `str` and read back with `int`, flags are written as `True`/`False` and
 * read back case-insensitively. A cell here remembers what was written
 * together with its text (`Text`), and `AsInt`/`AsFlag` are proved to be
 * `int(text)` and `text.lower() == "true"`. Timestamps are whole seconds.
 */
module PriceTracker {
  import opened Wrappers
  import opened PyStr
  import Decimal

  /** One value of a hash: what was written, as a number, a flag or a word. */
  datatype Cell = Num(n: int) | Flag(b: bool) | Word(s: string)

  /** A tracker hash: each of its fields holds a value or is absent. */
  datatype Hash = Hash(
    stockCode: Option<Cell>,
    isfirst: Option<Cell>,
    isafternoon: Option<Cell>,
    currentPrice: Option<Cell>,
    highestPrice: Option<Cell>,
    lowestPrice: Option<Cell>,
    tradePrice: Option<Cell>,
    periodType: Option<Cell>,
    tradeTime: Option<Cell>,
    lastUpdated: Option<Cell>,
    qtyToSell: Option<Cell>,
    qtyToBuy: Option<Cell>,
    tradeType: Option<Cell>)

  /** The hash with no field; Redis does not keep such a hash. */
  const NoFields := Hash(None, None, None, None, None, None, None, None, None, None, None, None, None)

  /** The Redis database, by key. */
  type Redis = map<string, Hash>

  /** `str(b)` for a flag. */
  function BoolText(b: bool): string {
    if b then "True" else "False"
  }

  /** The text Redis holds for a cell. */
  function Text(c: Cell): string {
    match c
    case Num(n) => Decimal.IntToStr(n)
    case Flag(b) => BoolText(b)
    case Word(s) => s
  }

  /** `s.lower() == "true"`. */
  predicate ReadsTrue(s: string) {
    Lower(s) == "true"
  }

  /** `int(text)`; None where `int` raises. */
  function AsInt(c: Cell): Option<int> {
    match c
    case Num(n) => Some(n)
    case Flag(_) => None
    case Word(s) => Decimal.ParseInt(s)
  }

  /** `text.lower() == "true"`. */
  predicate AsFlag(c: Cell) {
    match c
    case Num(_) => false
    case Flag(b) => b
    case Word(s) => ReadsTrue(s)
  }

  /** Whether the text is non-empty, as `if text:` tests it. */
  predicate NonEmpty(c: Cell) {
    !c.Word? || c.s != ""
  }

  /** Reading a cell is reading its text: `AsInt` is `int` and `AsFlag` is the case-insensitive test. */
  lemma CellReadsItsText(c: Cell)
    ensures AsInt(c) == Decimal.ParseInt(Text(c))
    ensures AsFlag(c) == ReadsTrue(Text(c))
    ensures NonEmpty(c) <==> Text(c) != ""
  {
    match c
    case Num(n) => NumberReadsBack(n);
    case Flag(b) => FlagReadsBack(b);
    case Word(s) =>
  }

  lemma NumberReadsBack(n: int)
    ensures Decimal.ParseInt(Decimal.IntToStr(n)) == Some(n)
    ensures !ReadsTrue(Decimal.IntToStr(n))
  {
    Decimal.ParseIntRoundTrip(n);
    var t := Decimal.IntToStr(n);
    assert Lower(t)[0] == LowerChar(t[0]);
  }

  lemma FlagReadsBack(b: bool)
    ensures Decimal.ParseInt(BoolText(b)) == None
    ensures ReadsTrue(BoolText(b)) == b
  {
    var t := BoolText(b);
    StripNoEdgeSpace(t);
    assert !IsDigit(t[0]);
    if b {
      assert Lower(t) == "true";
    } else {
      assert |Lower(t)| != |"true"|;
    }
  }

  const KeyPrefix: string := "redis:PT:"

  /** `_get_redis_key`. */
  function Key(code: string): (k: string)
    ensures |k| == |KeyPrefix| + |code| && k[..|KeyPrefix|] == KeyPrefix && k[|KeyPrefix|..] == code
  {
    KeyPrefix + code
  }

  /** Different stocks never share a hash. */
  lemma KeyInjective(a: string, b: string)
    ensures Key(a) == Key(b) <==> a == b
  {
    if Key(a) == Key(b) {
      assert a == Key(a)[|KeyPrefix|..];
    }
  }

  /** A tracker record, as `_from_hash_data` presents it (it has no afternoon flag). */
  datatype Tracking = Tracking(
    stockCode: string,
    isfirst: bool,
    currentPrice: int,
    highestPrice: int,
    lowestPrice: int,
    tradePrice: int,
    periodType: bool,
    tradeTime: int,
    lastUpdated: int,
    qtyToSell: int,
    qtyToBuy: int,
    tradeType: string)

  /** `_to_hash_data`: every field of the record but the afternoon flag. */
  function ToHash(t: Tracking): (h: Hash)
    ensures h.isafternoon.None? && h != NoFields
  {
    Hash(Some(Word(t.stockCode)), Some(Flag(t.isfirst)), None,
         Some(Num(t.currentPrice)), Some(Num(t.highestPrice)), Some(Num(t.lowestPrice)), Some(Num(t.tradePrice)),
         Some(Flag(t.periodType)), Some(Num(t.tradeTime)), Some(Num(t.lastUpdated)),
         Some(Num(t.qtyToSell)), Some(Num(t.qtyToBuy)), Some(Word(t.tradeType)))
  }

  /** `int(hash.get(field, "0"))`. */
  function IntField(c: Option<Cell>): Option<int> {
    if c.Some? then AsInt(c.value) else Some(0)
  }

  /** `hash.get(field, default)` read as a flag. */
  predicate FlagField(c: Option<Cell>, default: bool) {
    if c.Some? then AsFlag(c.value) else default
  }

  /** `hash.get(field, default)` read as text. */
  function WordField(c: Option<Cell>, default: string): string {
    if c.Some? then Text(c.value) else default
  }

  /**
   * `_from_hash_data`, with `get_tracking_data`'s handling around it: an
   * empty hash and a hash whose numbers do not parse both read as no
   * record (the `{}` the source returns).
   */
  function FromHash(h: Hash): (r: Option<Tracking>)
    ensures h == NoFields ==> r.None?
  {
    if h == NoFields then None
    else
      var current := IntField(h.currentPrice);
      var highest := IntField(h.highestPrice);
      var lowest := IntField(h.lowestPrice);
      var trade := IntField(h.tradePrice);
      var tradeTime := IntField(h.tradeTime);
      var lastUpdated := IntField(h.lastUpdated);
      var sell := IntField(h.qtyToSell);
      var buy := IntField(h.qtyToBuy);
      if current.None? || highest.None? || lowest.None? || trade.None? || tradeTime.None?
         || lastUpdated.None? || sell.None? || buy.None? then None
      else
        Some(Tracking(
          WordField(h.stockCode, ""),
          FlagField(h.isfirst, true),
          current.value, highest.value, lowest.value, trade.value,
          FlagField(h.periodType, false),
          tradeTime.value, lastUpdated.value, sell.value, buy.value,
          WordField(h.tradeType, "HOLD")))
  }

  /** Reading back what `_to_hash_data` wrote gives the record again. */
  lemma HashRoundTrip(t: Tracking)
    ensures FromHash(ToHash(t)) == Some(t)
  {
  }

  /** The record read from a non-empty hash does not depend on its afternoon flag. */
  lemma FromHashIgnoresAfternoon(h: Hash, flag: Option<Cell>)
    requires h != NoFields && h.(isafternoon := flag) != NoFields
    ensures FromHash(h.(isafternoon := flag)) == FromHash(h)
  {
  }

  /** One field of `HSET key mapping`: a value in the mapping overwrites. */
  function Over(stored: Option<Cell>, given: Option<Cell>): (r: Option<Cell>)
    ensures given.Some? ==> r == given
    ensures given.None? ==> r == stored
  {
    if given.Some? then given else stored
  }

  /** `HSET key mapping`: the fields in the mapping overwrite, the others stay. */
  function Merge(h: Hash, w: Hash): Hash {
    Hash(Over(h.stockCode, w.stockCode), Over(h.isfirst, w.isfirst), Over(h.isafternoon, w.isafternoon),
         Over(h.currentPrice, w.currentPrice), Over(h.highestPrice, w.highestPrice),
         Over(h.lowestPrice, w.lowestPrice), Over(h.tradePrice, w.tradePrice),
         Over(h.periodType, w.periodType), Over(h.tradeTime, w.tradeTime), Over(h.lastUpdated, w.lastUpdated),
         Over(h.qtyToSell, w.qtyToSell), Over(h.qtyToBuy, w.qtyToBuy), Over(h.tradeType, w.tradeType))
  }

  /** Writing an empty mapping changes nothing. */
  lemma MergeNothing(h: Hash)
    ensures Merge(h, NoFields) == h
  {
  }

  /** The stock's hash; Redis shows a missing key as a hash with no fields. */
  function Stored(db: Redis, code: string): Hash {
    if Key(code) in db then db[Key(code)] else NoFields
  }

  /**
   * `initialize_tracking`: the record starts with the highest and lowest
   * prices at the trade price, or at the current price when no trade price
   * is given (zero); both timestamps are `now`. The afternoon flag is
   * accepted but not written, so whatever afternoon flag the hash held stays.
   */
  function InitializeTracking(db: Redis, code: string, currentPrice: int, tradePrice: int, periodType: bool,
                              isfirst: bool, isafternoon: bool, qtyToSell: int, qtyToBuy: int,
                              tradeType: string, now: int): (r: (Redis, Tracking))
    ensures var t := r.1;
            t.highestPrice == t.lowestPrice == (if tradePrice != 0 then tradePrice else currentPrice)
            && t.stockCode == code && t.currentPrice == currentPrice && t.tradePrice == tradePrice
            && t.isfirst == isfirst && t.periodType == periodType && t.tradeTime == now && t.lastUpdated == now
            && t.qtyToSell == qtyToSell && t.qtyToBuy == qtyToBuy && t.tradeType == tradeType
    ensures Key(code) in r.0 && r.0 == db[Key(code) := r.0[Key(code)]]
    ensures FromHash(r.0[Key(code)]) == Some(r.1)
    ensures r.0[Key(code)].isafternoon == Stored(db, code).isafternoon
  {
    var update := if tradePrice != 0 then tradePrice else currentPrice;
    var t := Tracking(code, isfirst, currentPrice, update, update, tradePrice, periodType, now, now,
                      qtyToSell, qtyToBuy, tradeType);
    var h := Merge(Stored(db, code), ToHash(t));
    HashRoundTrip(t);
    FromHashIgnoresAfternoon(ToHash(t), Stored(db, code).isafternoon);
    assert h == ToHash(t).(isafternoon := Stored(db, code).isafternoon);
    (db[Key(code) := h], t)
  }

  /**
   * `get_tracking_data`: the stock's record, or None (the `{}` the source
   * returns) when the stock has no hash or its hash does not read back.
   */
  function GetTrackingData(db: Redis, code: string): (r: Option<Tracking>)
    ensures Key(code) !in db ==> r.None?
    ensures r.Some? ==> r.value.stockCode == WordField(db[Key(code)].stockCode, "")
  {
    FromHash(Stored(db, code))
  }

  /** A tracker reads back, right after it starts, as the record it was started with. */
  lemma TrackingReadsBackAfterStart(db: Redis, code: string, currentPrice: int, tradePrice: int, periodType: bool,
                                    isfirst: bool, isafternoon: bool, qtyToSell: int, qtyToBuy: int,
                                    tradeType: string, now: int)
    ensures var r := InitializeTracking(db, code, currentPrice, tradePrice, periodType, isfirst, isafternoon,
                                        qtyToSell, qtyToBuy, tradeType, now);
            GetTrackingData(r.0, code) == Some(r.1)
  {
  }

  /** The optional arguments of `update_tracking_data`. */
  datatype Request = Request(
    currentPrice: Option<int>,
    tradePrice: Option<int>,
    qtyToSell: Option<int>,
    qtyToBuy: Option<int>,
    periodType: Option<bool>,
    tradeType: Option<string>,
    isfirst: Option<bool>,
    isafternoon: Option<bool>,
    resetExtremes: bool,
    forceUpdate: bool)
  {
    /** Whether any field was given; the two switches alone are not an update. */
    predicate Updates() {
      currentPrice.Some? || tradePrice.Some? || qtyToSell.Some? || qtyToBuy.Some?
      || periodType.Some? || tradeType.Some? || isfirst.Some? || isafternoon.Some?
    }
  }

  /** `hget` gives a value whose text is not empty. */
  predicate Truthy(c: Option<Cell>) {
    c.Some? && NonEmpty(c.value)
  }

  /** The stored extremes as the update reads them. */
  datatype Extremes = Unknown | Unreadable | Known(highest: int, lowest: int)

  /**
   * The pipelined read of the stored highest and lowest prices: unknown
   * when either is missing or empty, unreadable when `int` raises on one.
   */
  function StoredExtremes(h: Hash): (r: Extremes)
    ensures r.Unknown? <==> !(Truthy(h.highestPrice) && Truthy(h.lowestPrice))
    ensures r.Unreadable? <==> Truthy(h.highestPrice) && Truthy(h.lowestPrice)
                               && (AsInt(h.highestPrice.value).None? || AsInt(h.lowestPrice.value).None?)
    ensures r.Known? ==> AsInt(h.highestPrice.value) == Some(r.highest) && AsInt(h.lowestPrice.value) == Some(r.lowest)
  {
    if !(Truthy(h.highestPrice) && Truthy(h.lowestPrice)) then Unknown
    else
      var highest := AsInt(h.highestPrice.value);
      var lowest := AsInt(h.lowestPrice.value);
      if highest.None? || lowest.None? then Unreadable else Known(highest.value, lowest.value)
  }

  function Given<T>(v: Option<T>, cell: T -> Cell): (r: Option<Cell>)
    ensures r.Some? <==> v.Some?
    ensures v.Some? ==> r == Some(cell(v.value))
  {
    if v.Some? then Some(cell(v.value)) else None
  }

  /**
   * The extremes the update writes, before it looks at the stored ones:
   * both at the current price on a forced update, then both at the trade
   * price on a trade with `reset_extremes`.
   */
  function ResetExtremes(q: Request): (r: Option<int>)
    ensures q.tradePrice.Some? && q.resetExtremes ==> r == q.tradePrice
    ensures !(q.tradePrice.Some? && q.resetExtremes) ==> r == (if q.forceUpdate then q.currentPrice else None)
  {
    if q.tradePrice.Some? && q.resetExtremes then q.tradePrice
    else if q.currentPrice.Some? && q.forceUpdate then q.currentPrice
    else None
  }

  /**
   * The mapping `update_tracking_data` writes, given the stored hash: None
   * where reading the stored extremes raises. A current price is compared
   * with the extremes already stored, not with the ones this update writes.
   */
  function UpdateFields(stored: Hash, q: Request, now: int): (r: Option<Hash>)
    ensures r.None? <==> q.currentPrice.Some? && StoredExtremes(stored).Unreadable?
    ensures r.Some? ==> (r.value == NoFields <==> !q.Updates())
    ensures r.Some? ==> (r.value.lastUpdated.Some? <==> q.Updates())
    ensures r.Some? && q.Updates() ==> r.value.lastUpdated == Some(Num(now))
  {
    var reset := Given(ResetExtremes(q), (n: int) => Num(n));
    var extremes: Option<(Option<Cell>, Option<Cell>)> :=
      if q.currentPrice.Some? then
        var c := q.currentPrice.value;
        match StoredExtremes(stored)
        case Unknown => Some((reset, reset))
        case Unreadable => None
        case Known(highest, lowest) =>
          Some((if c > highest then Some(Num(c)) else reset, if c < lowest then Some(Num(c)) else reset))
      else Some((reset, reset));
    if extremes.None? then None
    else
      Some(Hash(
        None,
        Given(q.isfirst, (b: bool) => Flag(b)),
        Given(q.isafternoon, (b: bool) => Flag(b)),
        Given(q.currentPrice, (n: int) => Num(n)),
        extremes.value.0,
        extremes.value.1,
        Given(q.tradePrice, (n: int) => Num(n)),
        Given(q.periodType, (b: bool) => Flag(b)),
        if q.tradePrice.Some? then Some(Num(now)) else None,
        if q.Updates() then Some(Num(now)) else None,
        Given(q.qtyToSell, (n: int) => Num(n)),
        Given(q.qtyToBuy, (n: int) => Num(n)),
        Given(q.tradeType, (s: string) => Word(s))))
  }

  /**
   * The database after `update_tracking_data`: None (and nothing written)
   * when the stock has no hash or reading its extremes raises; the hash is
   * rewritten only when some field was given.
   */
  function UpdateStore(db: Redis, code: string, q: Request, now: int): (r: Option<Redis>)
    ensures r.None? <==> Key(code) !in db || UpdateFields(db[Key(code)], q, now).None?
    ensures r.Some? ==> Key(code) in r.value && r.value == db[Key(code) := r.value[Key(code)]]
    ensures r.Some? ==> r.value[Key(code)] == Merge(db[Key(code)], UpdateFields(db[Key(code)], q, now).value)
    ensures r.Some? && !q.Updates() ==> r.value == db
  {
    var k := Key(code);
    if k !in db then None
    else
      var fields := UpdateFields(db[k], q, now);
      if fields.None? then None
      else if q.Updates() then Some(db[k := Merge(db[k], fields.value)])
      else
        MergeNothing(db[k]);
        Some(db)
  }

  /**
   * `update_tracking_data`: the new database and what the call returns.
   * The outer None is the source's None (no hash for the stock, or reading
   * the stored extremes raised); `Some(None)` is the `{}` returned when the
   * updated hash does not read back as a record.
   */
  function UpdateTrackingData(db: Redis, code: string, q: Request, now: int): (r: (Redis, Option<Option<Tracking>>))
    ensures Key(code) !in db ==> r == (db, None)
    ensures r.1.None? <==> UpdateStore(db, code, q, now).None?
    ensures r.1.None? ==> r.0 == db
    ensures r.1.Some? ==> r.0 == UpdateStore(db, code, q, now).value && r.1.value == FromHash(r.0[Key(code)])
  {
    var db' := UpdateStore(db, code, q, now);
    if db'.None? then (db, None) else (db'.value, Some(FromHash(db'.value[Key(code)])))
  }

  /** `last_updated` is written, with `now`, exactly when some field was given. */
  lemma LastUpdatedOnlyOnUpdate(db: Redis, code: string, q: Request, now: int)
    requires UpdateStore(db, code, q, now).Some?
    ensures var h := UpdateStore(db, code, q, now).value[Key(code)];
            (q.Updates() ==> h.lastUpdated == Some(Num(now)))
            && (!q.Updates() ==> h == db[Key(code)])
  {
  }

  /**
   * Each field the request gives is written with the given value, and
   * each field it leaves out keeps its stored value; the stock code is
   * never written.
   */
  lemma UpdateWritesGivenFields(db: Redis, code: string, q: Request, now: int)
    requires UpdateStore(db, code, q, now).Some?
    ensures var h := UpdateStore(db, code, q, now).value[Key(code)];
            var old_ := db[Key(code)];
            h.stockCode == old_.stockCode
            && h.qtyToSell == (if q.qtyToSell.Some? then Some(Num(q.qtyToSell.value)) else old_.qtyToSell)
            && h.qtyToBuy == (if q.qtyToBuy.Some? then Some(Num(q.qtyToBuy.value)) else old_.qtyToBuy)
            && h.tradeType == (if q.tradeType.Some? then Some(Word(q.tradeType.value)) else old_.tradeType)
            && h.periodType == (if q.periodType.Some? then Some(Flag(q.periodType.value)) else old_.periodType)
            && h.isfirst == (if q.isfirst.Some? then Some(Flag(q.isfirst.value)) else old_.isfirst)
            && h.isafternoon == (if q.isafternoon.Some? then Some(Flag(q.isafternoon.value)) else old_.isafternoon)
            && h.tradePrice == (if q.tradePrice.Some? then Some(Num(q.tradePrice.value)) else old_.tradePrice)
            && h.tradeTime == (if q.tradePrice.Some? then Some(Num(now)) else old_.tradeTime)
            && h.currentPrice == (if q.currentPrice.Some? then Some(Num(q.currentPrice.value)) else old_.currentPrice)
  {
  }

  /**
   * A current price moves the running extremes outward: the highest
   * becomes the larger of the stored highest and the current price, the
   * lowest the smaller, when neither a forced reset nor a trade reset is
   * asked for.
   */
  lemma ExtremesFollowCurrentPrice(db: Redis, code: string, q: Request, now: int)
    requires Key(code) in db && StoredExtremes(db[Key(code)]).Known?
    requires q.currentPrice.Some? && !q.forceUpdate && !(q.resetExtremes && q.tradePrice.Some?)
    ensures var r := UpdateStore(db, code, q, now);
            var c := q.currentPrice.value;
            var e := StoredExtremes(db[Key(code)]);
            r.Some?
            && StoredExtremes(r.value[Key(code)]) == Known(if c > e.highest then c else e.highest,
                                                           if c < e.lowest then c else e.lowest)
  {
  }

  /** `force_update` with a current price puts both extremes at that price. */
  lemma ForceUpdateResetsExtremes(db: Redis, code: string, q: Request, now: int)
    requires UpdateStore(db, code, q, now).Some?
    requires q.currentPrice.Some? && q.forceUpdate && !(q.resetExtremes && q.tradePrice.Some?)
    ensures var h := UpdateStore(db, code, q, now).value[Key(code)];
            StoredExtremes(h) == Known(q.currentPrice.value, q.currentPrice.value)
  {
  }

  /** `reset_extremes` with a trade price and no current price puts both extremes at the trade price. */
  lemma TradeResetsExtremes(db: Redis, code: string, q: Request, now: int)
    requires Key(code) in db
    requires q.tradePrice.Some? && q.resetExtremes && q.currentPrice.None?
    ensures var r := UpdateStore(db, code, q, now);
            r.Some? && StoredExtremes(r.value[Key(code)]) == Known(q.tradePrice.value, q.tradePrice.value)
  {
  }

  /**
   * With a trade reset and a current price together, the extremes are
   * compared with the stored ones, so the highest can end up below the
   * current price: stored 100/80, a trade at 90 with `reset_extremes` and a
   * current price of 95 leave the highest at 90.
   */
  lemma ResetThenCurrentUsesStoredExtremes(db: Redis, code: string, now: int)
    requires Key(code) in db && db[Key(code)].highestPrice == Some(Num(100)) && db[Key(code)].lowestPrice == Some(Num(80))
    ensures var q := Request(Some(95), Some(90), None, None, None, None, None, None, true, false);
            var r := UpdateStore(db, code, q, now);
            r.Some? && StoredExtremes(r.value[Key(code)]) == Known(90, 90)
  {
  }

  /** The fast price view of `get_price_info`; the ratios are percentages of the trade price. */
  datatype PriceInfo = PriceInfo(
    stockCode: string,
    currentPrice: int,
    highestPrice: int,
    lowestPrice: int,
    tradePrice: int,
    tradeType: Option<string>,
    changeFromTrade: real,
    highestGain: real,
    lowestLoss: real)

  /** `(price - trade) / trade * 100`, or zero when there is no positive trade price. */
  function ChangePct(price: int, trade: int): (r: real)
    ensures trade > 0 ==> r * trade as real == ((price - trade) * 100) as real
    ensures trade <= 0 ==> r == 0.0
    ensures trade > 0 ==> (r > 0.0 <==> price > trade) && (r == 0.0 <==> price == trade)
  {
    if trade > 0 then ((price - trade) as real / trade as real) * 100.0 else 0.0
  }

  /**
   * `get_price_info`: None when any of the four prices is missing or empty,
   * or does not parse.
   */
  function GetPriceInfo(db: Redis, code: string): (r: Option<PriceInfo>)
    ensures var h := Stored(db, code);
            r.Some? <==> Truthy(h.currentPrice) && Truthy(h.highestPrice) && Truthy(h.lowestPrice) && Truthy(h.tradePrice)
                         && AsInt(h.currentPrice.value).Some? && AsInt(h.highestPrice.value).Some?
                         && AsInt(h.lowestPrice.value).Some? && AsInt(h.tradePrice.value).Some?
    ensures r.Some? ==> var i := r.value; var h := Stored(db, code);
            i.stockCode == code
            && AsInt(h.currentPrice.value) == Some(i.currentPrice) && AsInt(h.tradePrice.value) == Some(i.tradePrice)
            && AsInt(h.highestPrice.value) == Some(i.highestPrice) && AsInt(h.lowestPrice.value) == Some(i.lowestPrice)
            && i.changeFromTrade == ChangePct(i.currentPrice, i.tradePrice)
            && i.highestGain == ChangePct(i.highestPrice, i.tradePrice)
            && i.lowestLoss == ChangePct(i.lowestPrice, i.tradePrice)
  {
    var h := Stored(db, code);
    if !(Truthy(h.currentPrice) && Truthy(h.highestPrice) && Truthy(h.lowestPrice) && Truthy(h.tradePrice)) then None
    else
      var c := AsInt(h.currentPrice.value);
      var hi := AsInt(h.highestPrice.value);
      var lo := AsInt(h.lowestPrice.value);
      var t := AsInt(h.tradePrice.value);
      if c.None? || hi.None? || lo.None? || t.None? then None
      else
        var tradeType := if h.tradeType.Some? then Some(Text(h.tradeType.value)) else None;
        Some(PriceInfo(code, c.value, hi.value, lo.value, t.value, tradeType,
                       ChangePct(c.value, t.value), ChangePct(hi.value, t.value), ChangePct(lo.value, t.value)))
  }

  /**
   * Right after a tracker starts on a positive trade price, the price view
   * shows the record's prices, and neither a gain nor a loss against the
   * trade price.
   */
  lemma FreshTrackerShowsNoGain(db: Redis, code: string, currentPrice: int, tradePrice: int, periodType: bool,
                                isfirst: bool, isafternoon: bool, qtyToSell: int, qtyToBuy: int,
                                tradeType: string, now: int)
    requires tradePrice > 0
    ensures var db' := InitializeTracking(db, code, currentPrice, tradePrice, periodType, isfirst, isafternoon,
                                          qtyToSell, qtyToBuy, tradeType, now).0;
            var i := GetPriceInfo(db', code);
            i.Some? && i.value.currentPrice == currentPrice && i.value.tradePrice == tradePrice
            && i.value.highestPrice == i.value.lowestPrice == tradePrice
            && i.value.highestGain == 0.0 && i.value.lowestLoss == 0.0
            && i.value.tradeType == Some(tradeType)
  {
  }

  /** `isfirst`: the stored flag read case-insensitively; None without a flag. */
  function GetIsFirst(db: Redis, code: string): (r: Option<bool>)
    ensures r.Some? <==> Stored(db, code).isfirst.Some?
    ensures r.Some? ==> (r.value <==> ReadsTrue(Text(Stored(db, code).isfirst.value)))
  {
    var c := Stored(db, code).isfirst;
    if c.Some? then
      CellReadsItsText(c.value);
      Some(AsFlag(c.value))
    else None
  }

  /** `isafternoon`: as `isfirst`, for the afternoon flag. */
  function GetIsAfternoon(db: Redis, code: string): (r: Option<bool>)
    ensures r.Some? <==> Stored(db, code).isafternoon.Some?
    ensures r.Some? ==> (r.value <==> ReadsTrue(Text(Stored(db, code).isafternoon.value)))
  {
    var c := Stored(db, code).isafternoon;
    if c.Some? then
      CellReadsItsText(c.value);
      Some(AsFlag(c.value))
    else None
  }

  /** `set_isfirst`: False and nothing written when the stock has no hash. */
  function SetIsFirst(db: Redis, code: string, value: bool): (r: (Redis, bool))
    ensures r.1 <==> Key(code) in db
    ensures !r.1 ==> r.0 == db
    ensures r.1 ==> r.0 == db[Key(code) := db[Key(code)].(isfirst := Some(Flag(value)))]
  {
    if Key(code) !in db then (db, false)
    else (db[Key(code) := db[Key(code)].(isfirst := Some(Flag(value)))], true)
  }

  /** `set_isafternoon`: as `set_isfirst`, for the afternoon flag. */
  function SetIsAfternoon(db: Redis, code: string, value: bool): (r: (Redis, bool))
    ensures r.1 <==> Key(code) in db
    ensures !r.1 ==> r.0 == db
    ensures r.1 ==> r.0 == db[Key(code) := db[Key(code)].(isafternoon := Some(Flag(value)))]
  {
    if Key(code) !in db then (db, false)
    else (db[Key(code) := db[Key(code)].(isafternoon := Some(Flag(value)))], true)
  }

  /** The flags read back as they were set, and the first-run flag as it was given when tracking started. */
  lemma FlagsReadBack(db: Redis, code: string, value: bool)
    ensures Key(code) in db ==> GetIsFirst(SetIsFirst(db, code, value).0, code) == Some(value)
    ensures Key(code) in db ==> GetIsAfternoon(SetIsAfternoon(db, code, value).0, code) == Some(value)
  {
  }

  /** The first-run flag given when tracking starts reads back as given. */
  lemma StartSetsFirstFlag(db: Redis, code: string, currentPrice: int, tradePrice: int, periodType: bool,
                           isfirst: bool, isafternoon: bool, qtyToSell: int, qtyToBuy: int,
                           tradeType: string, now: int)
    ensures var r := InitializeTracking(db, code, currentPrice, tradePrice, periodType, isfirst, isafternoon,
                                        qtyToSell, qtyToBuy, tradeType, now);
            GetIsFirst(r.0, code) == Some(isfirst)
  {
    var r := InitializeTracking(db, code, currentPrice, tradePrice, periodType, isfirst, isafternoon,
                                qtyToSell, qtyToBuy, tradeType, now);
    assert Stored(r.0, code).isfirst == Some(Flag(isfirst));
  }

  /** A fresh tracker carries no afternoon flag, whatever flag it was started with. */
  lemma FreshTrackerHasNoAfternoonFlag(db: Redis, code: string, isafternoon: bool)
    requires Key(code) !in db
    ensures GetIsAfternoon(InitializeTracking(db, code, 0, 0, false, false, isafternoon, 0, 0, "HOLD", 0).0, code).None?
  {
  }
}
