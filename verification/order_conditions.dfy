/**
 * The order-condition book: per stock code, a list of "up" and a list of
 * "down" conditions, each a small dictionary whose direction key (`up1` ..
 * `up7`, `down1` .. `down7`) holds a target price. Every public operation
 * refuses to run before the manager is initialised.
 *
 * Saving to the JSON file is an input: `saved` is what the save reported.
 * The clock is an input too (`now`, the ISO timestamp the save records).
 */
module OrderConditions {
  import opened Wrappers
  import PyStr
  import Decimal

  datatype Field = Num(n: int) | Text(s: string)

  /** One condition dictionary, e.g. `{"up1": 75000, "timestamp": ..., "volume": 100000}`. */
  type Condition = map<string, Field>

  /** The per-stock entry, normally `{"up": [...], "down": [...]}`; a loaded file may lack a direction. */
  type Book = map<string, seq<Condition>>

  datatype Manager = Manager(initialized: bool, orders: map<string, Book>)

  datatype Error =
    | NotInitialized    // RuntimeError
    | InvalidArgument   // ValueError
    | MissingKey        // KeyError on a direction the stock entry lacks
    | MissingAttribute  // AttributeError: calling a method the class does not define

  /** The state after a call, and what it returned or raised; a raise keeps what was changed before it. */
  datatype Outcome<T> = Outcome(state: Manager, value: Result<T, Error>)

  function NewBook(): (r: Book)
    ensures r.Keys == {"up", "down"} && r["up"] == [] && r["down"] == []
  {
    map["up" := [], "down" := []]
  }

  predicate IsDirection(direction: string)
  {
    direction == "up" || direction == "down"
  }

  /** `f"{direction}{condition_num}"`. */
  function ConditionKey(direction: string, num: int): string
  {
    direction + Decimal.IntToStr(num)
  }

  /** The first condition holding `key`, if any. */
  function FirstWith(conds: seq<Condition>, key: string): (r: Option<nat>)
    ensures r.Some? ==> r.value < |conds| && key in conds[r.value]
    ensures r.Some? ==> forall j :: 0 <= j < r.value ==> key !in conds[j]
    ensures r.None? ==> forall j :: 0 <= j < |conds| ==> key !in conds[j]
  {
    if |conds| == 0 then None
    else if key in conds[0] then Some(0)
    else
      match FirstWith(conds[1..], key)
      case None => None
      case Some(i) => Some(i + 1)
  }

  // ---------------------------------------------------------------------
  // Lifecycle
  // ---------------------------------------------------------------------

  /** What reading the order file gave: no file, a decode or read error, or the stored book. */
  datatype Loaded = NoFile | Unreadable | Stored(orders: map<string, Book>)

  /** `initialize`: load the file (an empty book when it is missing or unreadable) and mark the manager ready. */
  function Initialize(m: Manager, file: Loaded): (r: Manager)
    ensures r.initialized
    ensures file.Stored? ==> r.orders == file.orders
    ensures !file.Stored? ==> r.orders == map[]
  {
    match file
    case Stored(orders) => Manager(true, orders)
    case _ => Manager(true, map[])
  }

  /** `shutdown`: an initialised manager saves and becomes uninitialised; otherwise nothing happens. */
  function Shutdown(m: Manager): (r: Manager)
    ensures !r.initialized && r.orders == m.orders
  {
    m.(initialized := false)
  }

  // ---------------------------------------------------------------------
  // Stocks
  // ---------------------------------------------------------------------

  /** `add_stock`: an empty book for a new code, returning the save's result; `False` and no change for a known code. */
  function AddStock(m: Manager, code: string, saved: bool): (r: Outcome<bool>)
    ensures !m.initialized ==> r == Outcome(m, Failure(NotInitialized))
    ensures m.initialized && code in m.orders ==> r == Outcome(m, Success(false))
    ensures m.initialized && code !in m.orders ==>
              r.value == Success(saved) &&
              r.state.orders == m.orders[code := NewBook()] &&
              r.state.initialized
  {
    if !m.initialized then Outcome(m, Failure(NotInitialized))
    else if code !in m.orders then Outcome(m.(orders := m.orders[code := NewBook()]), Success(saved))
    else Outcome(m, Success(false))
  }

  /** The book with `code` present, as `add_condition` and `add_condition_dict` ensure before using it. */
  function EnsureStock(orders: map<string, Book>, code: string): (r: map<string, Book>)
    ensures code in r
    ensures code in orders ==> r == orders
    ensures code !in orders ==> r == orders[code := NewBook()]
  {
    if code in orders then orders else orders[code := NewBook()]
  }

  /** `delete_stock`: removes a known code; `False` for an unknown one. */
  function DeleteStock(m: Manager, code: string, saved: bool): (r: Outcome<bool>)
    ensures !m.initialized ==> r == Outcome(m, Failure(NotInitialized))
    ensures m.initialized && code !in m.orders ==> r == Outcome(m, Success(false))
    ensures m.initialized && code in m.orders ==>
              r.value == Success(saved) && r.state.orders == m.orders - {code} && r.state.initialized
  {
    if !m.initialized then Outcome(m, Failure(NotInitialized))
    else if code in m.orders then Outcome(m.(orders := m.orders - {code}), Success(saved))
    else Outcome(m, Success(false))
  }

  /** `get_stock_conditions`. */
  function StockConditions(m: Manager, code: string): (r: Outcome<Option<Book>>)
    ensures r.state == m
    ensures !m.initialized ==> r.value == Failure(NotInitialized)
    ensures m.initialized ==> r.value.Success? && (r.value.value.Some? <==> code in m.orders)
    ensures m.initialized && code in m.orders ==> r.value.value == Some(m.orders[code])
  {
    if !m.initialized then Outcome(m, Failure(NotInitialized))
    else if code in m.orders then Outcome(m, Success(Some(m.orders[code])))
    else Outcome(m, Success(None))
  }

  // ---------------------------------------------------------------------
  // Conditions
  // ---------------------------------------------------------------------

  /** `{condition_key: price, 'timestamp': now, **kwargs}`: later keys win. */
  function NewCondition(key: string, price: int, now: string, extra: Condition): (r: Condition)
    ensures key in r && "timestamp" in r
    ensures forall k :: k in extra ==> k in r && r[k] == extra[k]
    ensures key !in extra && key != "timestamp" ==> r[key] == Num(price)
  {
    map[key := Num(price), "timestamp" := Text(now)] + extra
  }

  /** The arguments `add_condition` accepts: a direction, a number from 1 to 7, a positive price. */
  predicate ValidCondition(direction: string, num: int, price: int)
  {
    IsDirection(direction) && 1 <= num <= 7 && price > 0
  }

  /**
   * `add_condition`: validates its arguments, creates the stock when missing,
   * then replaces the first condition holding the same key in place or
   * appends a new one.
   */
  function AddCondition(m: Manager, code: string, direction: string, num: int, price: int,
                        extra: Condition, now: string, saved: bool): (r: Outcome<bool>)
    ensures !m.initialized ==> r == Outcome(m, Failure(NotInitialized))
    ensures m.initialized && !ValidCondition(direction, num, price) ==> r == Outcome(m, Failure(InvalidArgument))
    ensures m.initialized && ValidCondition(direction, num, price) ==>
              var orders := EnsureStock(m.orders, code);
              r.state.initialized &&
              (r.value.Success? <==> direction in orders[code]) &&
              (r.value.Success? ==> r.value.value == saved) &&
              (r.value.Failure? ==> r.value.error == MissingKey && r.state.orders == orders)
    ensures r.value.Success? ==>
              var orders := EnsureStock(m.orders, code);
              direction in orders[code] && code in r.state.orders && direction in r.state.orders[code] &&
              var before := orders[code][direction];
              var after := r.state.orders[code][direction];
              var cond := NewCondition(ConditionKey(direction, num), price, now, extra);
              r.state.orders == orders[code := orders[code][direction := after]] &&
              match FirstWith(before, ConditionKey(direction, num))
              case Some(i) => after == before[i := cond]
              case None => after == before + [cond]
  {
    if !m.initialized then Outcome(m, Failure(NotInitialized))
    else if !IsDirection(direction) || !(1 <= num <= 7) || price <= 0 then Outcome(m, Failure(InvalidArgument))
    else
      var orders := EnsureStock(m.orders, code);
      var book := orders[code];
      if direction !in book then Outcome(Manager(true, orders), Failure(MissingKey))
      else
        var key := ConditionKey(direction, num);
        var cond := NewCondition(key, price, now, extra);
        var conds := book[direction];
        var after := match FirstWith(conds, key)
                     case Some(i) => conds[i := cond]
                     case None => conds + [cond];
        Outcome(Manager(true, orders[code := book[direction := after]]), Success(saved))
  }

  /** An existing key keeps the list's length; a new key adds exactly one condition. */
  lemma AddConditionLength(m: Manager, code: string, direction: string, num: int, price: int,
                           extra: Condition, now: string, saved: bool)
    requires AddCondition(m, code, direction, num, price, extra, now, saved).value.Success?
    ensures var before := EnsureStock(m.orders, code)[code][direction];
            var after := AddCondition(m, code, direction, num, price, extra, now, saved).state.orders[code][direction];
            (exists j :: 0 <= j < |before| && ConditionKey(direction, num) in before[j]) <==> |after| == |before|
  {
    var before := EnsureStock(m.orders, code)[code][direction];
    var key := ConditionKey(direction, num);
    match FirstWith(before, key)
    case Some(i) =>
    case None =>
  }

  /** `get_condition`: the first condition holding the key; `None` for an unknown stock or an absent key. */
  function GetCondition(m: Manager, code: string, direction: string, num: int): (r: Outcome<Option<Condition>>)
    ensures r.state == m
    ensures !m.initialized ==> r.value == Failure(NotInitialized)
    ensures m.initialized && code !in m.orders ==> r.value == Success(None)
    ensures m.initialized && code in m.orders ==>
              (r.value.Failure? <==> direction !in m.orders[code]) &&
              (r.value.Failure? ==> r.value.error == MissingKey)
    ensures r.value.Success? && r.value.value.Some? ==>
              code in m.orders && direction in m.orders[code] &&
              exists i :: 0 <= i < |m.orders[code][direction]| &&
                r.value.value.value == m.orders[code][direction][i] &&
                ConditionKey(direction, num) in m.orders[code][direction][i] &&
                forall j :: 0 <= j < i ==> ConditionKey(direction, num) !in m.orders[code][direction][j]
    ensures r.value.Success? && r.value.value.None? && code in m.orders ==>
              forall j :: 0 <= j < |m.orders[code][direction]| ==> ConditionKey(direction, num) !in m.orders[code][direction][j]
  {
    if !m.initialized then Outcome(m, Failure(NotInitialized))
    else if code !in m.orders then Outcome(m, Success(None))
    else if direction !in m.orders[code] then Outcome(m, Failure(MissingKey))
    else
      var conds := m.orders[code][direction];
      match FirstWith(conds, ConditionKey(direction, num))
      case Some(i) => Outcome(m, Success(Some(conds[i])))
      case None => Outcome(m, Success(None))
  }

  /** Whatever `add_condition` stored is what `get_condition` then finds. */
  lemma AddThenGet(m: Manager, code: string, direction: string, num: int, price: int,
                   extra: Condition, now: string, saved: bool)
    requires AddCondition(m, code, direction, num, price, extra, now, saved).value.Success?
    ensures var s := AddCondition(m, code, direction, num, price, extra, now, saved).state;
            GetCondition(s, code, direction, num).value ==
              Success(Some(NewCondition(ConditionKey(direction, num), price, now, extra)))
  {
    var s := AddCondition(m, code, direction, num, price, extra, now, saved).state;
    var key := ConditionKey(direction, num);
    var cond := NewCondition(key, price, now, extra);
    var before := EnsureStock(m.orders, code)[code][direction];
    var after := s.orders[code][direction];
    match FirstWith(before, key)
    case Some(i) =>
      assert FirstWith(after, key) == Some(i) by {
        FirstWithUnique(after, key, i);
      }
    case None =>
      assert FirstWith(after, key) == Some(|before|) by {
        FirstWithUnique(after, key, |before|);
      }
  }

  /** `FirstWith` is determined by its contract. */
  lemma FirstWithUnique(conds: seq<Condition>, key: string, i: nat)
    requires i < |conds| && key in conds[i]
    requires forall j :: 0 <= j < i ==> key !in conds[j]
    ensures FirstWith(conds, key) == Some(i)
  {
    match FirstWith(conds, key)
    case None =>
    case Some(k) =>
  }

  /** `update_condition`: sets `key` and an `updated` stamp on the first condition holding `key`; `False` when nothing matches. */
  function UpdateCondition(m: Manager, code: string, direction: string, key: string, value: Field,
                           now: string, saved: bool): (r: Outcome<bool>)
    ensures !m.initialized ==> r == Outcome(m, Failure(NotInitialized))
    ensures m.initialized ==> r.value.Success? && r.state.initialized
    ensures m.initialized && (code !in m.orders || direction !in m.orders[code]) ==> r == Outcome(m, Success(false))
    ensures m.initialized && code in m.orders && direction in m.orders[code] ==>
              var before := m.orders[code][direction];
              match FirstWith(before, key)
              case None => r == Outcome(m, Success(false))
              case Some(i) =>
                r.value == Success(saved) &&
                code in r.state.orders && direction in r.state.orders[code] &&
                var after := r.state.orders[code][direction];
                r.state.orders == m.orders[code := m.orders[code][direction := after]] &&
                |after| == |before| &&
                after[i] == before[i][key := value]["updated" := Text(now)] &&
                forall j :: 0 <= j < |before| && j != i ==> after[j] == before[j]
  {
    if !m.initialized then Outcome(m, Failure(NotInitialized))
    else if code in m.orders && direction in m.orders[code] then
      var conds := m.orders[code][direction];
      match FirstWith(conds, key)
      case Some(i) =>
        var changed := conds[i := conds[i][key := value]["updated" := Text(now)]];
        Outcome(m.(orders := m.orders[code := m.orders[code][direction := changed]]), Success(saved))
      case None => Outcome(m, Success(false))
    else Outcome(m, Success(false))
  }

  /** The keys of a condition dictionary that start with the direction. */
  function DirectionKeys(cond: Condition, direction: string): (r: set<string>)
    ensures forall k :: k in r <==> k in cond && PyStr.StartsWith(k, direction)
  {
    set k | k in cond && PyStr.StartsWith(k, direction)
  }

  /** One of `direction1` .. `direction7`. */
  predicate IsValidKey(k: string, direction: string)
  {
    exists i :: 1 <= i <= 7 && k == ConditionKey(direction, i)
  }

  /**
   * `add_condition_dict`: creates the stock when missing (even if the call
   * then raises), checks the direction and the direction keys, and appends the
   * condition with a timestamp; an existing key is not replaced.
   */
  function AddConditionDict(m: Manager, code: string, direction: string, cond: Condition,
                            now: string, saved: bool): (r: Outcome<bool>)
    ensures !m.initialized ==> r == Outcome(m, Failure(NotInitialized))
    ensures m.initialized ==> r.state.initialized && code in r.state.orders
    ensures m.initialized && !IsDirection(direction) ==>
              r == Outcome(Manager(true, EnsureStock(m.orders, code)), Failure(InvalidArgument))
    ensures m.initialized && IsDirection(direction) ==>
              ((DirectionKeys(cond, direction) == {} ||
                exists k :: k in DirectionKeys(cond, direction) && !IsValidKey(k, direction)) <==>
               r.value == Failure(InvalidArgument))
    ensures r.value.Success? ==>
              var orders := EnsureStock(m.orders, code);
              direction in orders[code] &&
              r.value.value == saved &&
              r.state.orders == orders[code := orders[code][direction := orders[code][direction] + [cond["timestamp" := Text(now)]]]]
  {
    if !m.initialized then Outcome(m, Failure(NotInitialized))
    else
      var orders := EnsureStock(m.orders, code);
      var after := Manager(true, orders);
      if !IsDirection(direction) then Outcome(after, Failure(InvalidArgument))
      else
        var keys := DirectionKeys(cond, direction);
        if keys == {} || exists k :: k in keys && !IsValidKey(k, direction) then Outcome(after, Failure(InvalidArgument))
        else if direction !in orders[code] then Outcome(after, Failure(MissingKey))
        else
          var book := orders[code];
          var stamped := cond["timestamp" := Text(now)];
          Outcome(Manager(true, orders[code := book[direction := book[direction] + [stamped]]]), Success(saved))
  }

  // ---------------------------------------------------------------------
  // Available numbers
  // ---------------------------------------------------------------------

  /** The number a key carries after the direction: `int(key[len(direction):])` when that part is all digits. */
  function NumberOf(k: string, direction: string): (r: Option<nat>)
    ensures r.Some? <==> PyStr.StartsWith(k, direction) && PyStr.IsDigits(k[|direction|..])
  {
    if PyStr.StartsWith(k, direction) && PyStr.IsDigits(k[|direction|..]) then Some(Decimal.DigitsValue(k[|direction|..]))
    else None
  }

  lemma NumberOfConditionKey(direction: string, num: nat)
    ensures NumberOf(ConditionKey(direction, num), direction) == Some(num)
  {
    var k := ConditionKey(direction, num);
    assert k[..|direction|] == direction;
    assert k[|direction|..] == Decimal.NatToDigits(num);
    Decimal.DigitsRoundTrip(num);
  }

  /** Some condition in the list carries the number `n` for this direction. */
  predicate Used(conds: seq<Condition>, direction: string, n: int)
  {
    exists i, k :: 0 <= i < |conds| && k in conds[i] && NumberOf(k, direction) == Some(n)
  }

  function FreeFrom(conds: seq<Condition>, direction: string, n: int): (r: seq<int>)
    requires 1 <= n <= 8
    ensures forall i, j :: 0 <= i < j < |r| ==> r[i] < r[j]
    ensures forall x :: x in r <==> n <= x <= 7 && !Used(conds, direction, x)
    decreases 8 - n
  {
    if n == 8 then []
    else if Used(conds, direction, n) then FreeFrom(conds, direction, n + 1)
    else
      var rest := FreeFrom(conds, direction, n + 1);
      assert forall j :: 0 <= j < |rest| ==> rest[j] in rest;
      [n] + rest
  }

  /** `get_available_condition_nums`: the numbers from 1 to 7 no condition of that direction uses, ascending. */
  function AvailableNums(m: Manager, code: string, direction: string): (r: Outcome<seq<int>>)
    ensures r.state == m
    ensures !m.initialized ==> r.value == Failure(NotInitialized)
    ensures m.initialized && code !in m.orders ==> r.value == Success([1, 2, 3, 4, 5, 6, 7])
    ensures m.initialized && code in m.orders ==>
              (r.value.Failure? <==> direction !in m.orders[code]) &&
              (r.value.Failure? ==> r.value.error == MissingKey)
    ensures r.value.Success? ==> forall i, j :: 0 <= i < j < |r.value.value| ==> r.value.value[i] < r.value.value[j]
    ensures r.value.Success? && code in m.orders ==>
              forall x :: x in r.value.value <==> 1 <= x <= 7 && !Used(m.orders[code][direction], direction, x)
  {
    if !m.initialized then Outcome(m, Failure(NotInitialized))
    else if code !in m.orders then Outcome(m, Success([1, 2, 3, 4, 5, 6, 7]))
    else if direction !in m.orders[code] then Outcome(m, Failure(MissingKey))
    else Outcome(m, Success(FreeFrom(m.orders[code][direction], direction, 1)))
  }

  /** A number just added with `add_condition` is no longer offered as available. */
  lemma AddedNumberIsTaken(m: Manager, code: string, direction: string, num: int, price: int,
                           extra: Condition, now: string, saved: bool)
    requires AddCondition(m, code, direction, num, price, extra, now, saved).value.Success?
    ensures var s := AddCondition(m, code, direction, num, price, extra, now, saved).state;
            AvailableNums(s, code, direction).value.Success? &&
            num !in AvailableNums(s, code, direction).value.value
  {
    var s := AddCondition(m, code, direction, num, price, extra, now, saved).state;
    var key := ConditionKey(direction, num);
    AddThenGet(m, code, direction, num, price, extra, now, saved);
    var conds := s.orders[code][direction];
    var i :| 0 <= i < |conds| && key in conds[i];
    NumberOfConditionKey(direction, num);
    assert Used(conds, direction, num);
  }

  // ---------------------------------------------------------------------
  // Deleting conditions (see the findings in the README)
  // ---------------------------------------------------------------------

  /**
   * `delete_condition_by_num` as written: it forwards to `delete_condition`,
   * which the class never defines (its body sits, unreachable, after the
   * `return` of `get_available_condition_nums`), so an initialised manager
   * raises AttributeError.
   */
  function DeleteConditionByNumAsWritten(m: Manager, code: string, direction: string, num: int): (r: Outcome<bool>)
    ensures r.state == m && r.value.Failure?
    ensures m.initialized <==> r.value.error == MissingAttribute
  {
    if !m.initialized then Outcome(m, Failure(NotInitialized))
    else Outcome(m, Failure(MissingAttribute))
  }

  /** The stranded `delete_condition` body: removes the first condition holding `key`; `False` when there is none. */
  function DeleteCondition(m: Manager, code: string, direction: string, key: string, saved: bool): (r: Outcome<bool>)
    ensures !m.initialized ==> r == Outcome(m, Failure(NotInitialized))
    ensures m.initialized ==> r.value.Success? && r.state.initialized
    ensures m.initialized && (code !in m.orders || direction !in m.orders[code]) ==> r == Outcome(m, Success(false))
    ensures m.initialized && code in m.orders && direction in m.orders[code] ==>
              var before := m.orders[code][direction];
              match FirstWith(before, key)
              case None => r == Outcome(m, Success(false))
              case Some(i) =>
                r.value == Success(saved) &&
                r.state.orders == m.orders[code := m.orders[code][direction := before[..i] + before[i + 1..]]]
  {
    if !m.initialized then Outcome(m, Failure(NotInitialized))
    else if code in m.orders && direction in m.orders[code] then
      var conds := m.orders[code][direction];
      match FirstWith(conds, key)
      case Some(i) =>
        Outcome(m.(orders := m.orders[code := m.orders[code][direction := conds[..i] + conds[i + 1..]]]), Success(saved))
      case None => Outcome(m, Success(false))
    else Outcome(m, Success(false))
  }

  /** `delete_condition_by_num` as intended: delete by the key `f"{direction}{num}"`. */
  function DeleteConditionByNum(m: Manager, code: string, direction: string, num: int, saved: bool): (r: Outcome<bool>)
    ensures !m.initialized ==> r == Outcome(m, Failure(NotInitialized))
    ensures m.initialized ==> r.value.Success?
  {
    DeleteCondition(m, code, direction, ConditionKey(direction, num), saved)
  }

  /** Deleting a condition just added with a fresh number restores the list it was added to. */
  lemma AddThenDeleteRestores(m: Manager, code: string, direction: string, num: int, price: int,
                              extra: Condition, now: string, saved: bool)
    requires AddCondition(m, code, direction, num, price, extra, now, saved).value.Success?
    requires var before := EnsureStock(m.orders, code)[code][direction];
             forall j :: 0 <= j < |before| ==> ConditionKey(direction, num) !in before[j]
    ensures var s := AddCondition(m, code, direction, num, price, extra, now, saved).state;
            DeleteConditionByNum(s, code, direction, num, saved).state.orders == EnsureStock(m.orders, code)
  {
    var s := AddCondition(m, code, direction, num, price, extra, now, saved).state;
    var orders := EnsureStock(m.orders, code);
    var before := orders[code][direction];
    var key := ConditionKey(direction, num);
    var after := s.orders[code][direction];
    assert after == before + [NewCondition(key, price, now, extra)];
    FirstWithUnique(after, key, |before|);
    assert after[..|before|] + after[|before| + 1..] == before;
    assert s.orders[code][direction := before] == orders[code];
    assert s.orders[code := orders[code]] == orders;
  }

  /** Every operation raises RuntimeError and changes nothing before `initialize`. */
  lemma UninitializedRefusesEverything(m: Manager, code: string, direction: string, num: int, price: int,
                                       key: string, value: Field, cond: Condition, now: string, saved: bool)
    requires !m.initialized
    ensures AddStock(m, code, saved) == Outcome(m, Failure(NotInitialized))
    ensures AddCondition(m, code, direction, num, price, cond, now, saved) == Outcome(m, Failure(NotInitialized))
    ensures AddConditionDict(m, code, direction, cond, now, saved) == Outcome(m, Failure(NotInitialized))
    ensures UpdateCondition(m, code, direction, key, value, now, saved) == Outcome(m, Failure(NotInitialized))
    ensures GetCondition(m, code, direction, num) == Outcome(m, Failure(NotInitialized))
    ensures AvailableNums(m, code, direction) == Outcome(m, Failure(NotInitialized))
    ensures DeleteConditionByNum(m, code, direction, num, saved) == Outcome(m, Failure(NotInitialized))
    ensures DeleteStock(m, code, saved) == Outcome(m, Failure(NotInitialized))
    ensures StockConditions(m, code) == Outcome(m, Failure(NotInitialized))
  {
  }
}
