/**
 * The baseline table: rows of (stock code, step) with a decision price,
 * quantity and optional price band, kept in insertion order. The
 * baseline module's operations are transitions on this sequence.
 */
module BaselineTable {
  import opened Wrappers
  import opened Models

  type Table = seq<BaseLine>

  /** No two rows share both stock code and step. */
  ghost predicate Unique(t: Table) {
    forall i, j :: 0 <= i < j < |t| ==> !(t[i].stockCode == t[j].stockCode && t[i].step == t[j].step)
  }

  /** Whether any row belongs to `code`. */
  predicate HasCode(t: Table, code: string) {
    exists i :: 0 <= i < |t| && t[i].stockCode == code
  }

  /** The number of rows of `code`. */
  function Count(t: Table, code: string): (n: nat)
    ensures n <= |t|
    ensures n == 0 <==> !HasCode(t, code)
  {
    if |t| == 0 then 0
    else
      var rest := Count(t[..|t| - 1], code);
      assert forall i :: 0 <= i < |t| - 1 ==> t[..|t| - 1][i] == t[i];
      rest + (if t[|t| - 1].stockCode == code then 1 else 0)
  }

  /** `get_last_step`: the largest step recorded for `code`, if any row has it. */
  function LastStep(t: Table, code: string): (r: Option<int>)
    ensures r.None? <==> !HasCode(t, code)
    ensures r.Some? ==> exists i :: 0 <= i < |t| && t[i].stockCode == code && t[i].step == r.value
    ensures r.Some? ==> forall i :: 0 <= i < |t| && t[i].stockCode == code ==> t[i].step <= r.value
  {
    if |t| == 0 then None
    else
      var rest := LastStep(t[..|t| - 1], code);
      var b := t[|t| - 1];
      assert forall i :: 0 <= i < |t| - 1 ==> t[..|t| - 1][i] == t[i];
      if b.stockCode != code then rest
      else if rest.Some? && rest.value >= b.step then rest
      else Some(b.step)
  }

  /** `create_new`: refused when the code already has any baseline; otherwise appends step 0. */
  function CreateNew(t: Table, code: string, decisionPrice: int, quantity: int, low: Option<int>, high: Option<int>)
    : (r: Result<(Table, BaseLine), string>)
    ensures r.Failure? <==> HasCode(t, code)
    ensures r.Success? ==> r.value.0 == t + [r.value.1]
    ensures r.Success? ==> r.value.1 == BaseLine(code, 0, decisionPrice, quantity, low, high)
  {
    if HasCode(t, code) then Failure("a baseline already exists for " + code)
    else
      var b := BaseLine(code, 0, decisionPrice, quantity, low, high);
      Success((t + [b], b))
  }

  /**
   * The step `add_step` gives the next row: one past the last step, except
   * that a missing or zero last step (both falsy) gives step 1.
   */
  function NextStep(t: Table, code: string): (s: int)
    ensures s >= 1 || (LastStep(t, code).Some? && LastStep(t, code).value < 0)
    ensures forall i :: 0 <= i < |t| && t[i].stockCode == code ==> t[i].step < s
  {
    var last := LastStep(t, code);
    if last.Some? && last.value != 0 then last.value + 1 else 1
  }

  /** `add_step`: appends a row for `code` at the next step. */
  function AddStep(t: Table, code: string, decisionPrice: int, quantity: int, low: Option<int>, high: Option<int>)
    : (r: (Table, BaseLine))
    ensures r.0 == t + [r.1]
    ensures r.1.stockCode == code && r.1.decisionPrice == decisionPrice && r.1.quantity == quantity
    ensures r.1.lowPrice == low && r.1.highPrice == high
    ensures LastStep(r.0, code) == Some(r.1.step)
  {
    var b := BaseLine(code, NextStep(t, code), decisionPrice, quantity, low, high);
    var t' := t + [b];
    assert t'[|t'| - 1] == b;
    assert forall i :: 0 <= i < |t| ==> t'[i] == t[i];
    (t', b)
  }

  /** The position of the first row for (`code`, `step`), if any. */
  function FindStep(t: Table, code: string, step: int): (r: Option<nat>)
    ensures r.None? <==> forall i :: 0 <= i < |t| ==> !(t[i].stockCode == code && t[i].step == step)
    ensures r.Some? ==> r.value < |t| && t[r.value].stockCode == code && t[r.value].step == step
    ensures r.Some? ==> forall i :: 0 <= i < r.value ==> !(t[i].stockCode == code && t[i].step == step)
  {
    if |t| == 0 then None
    else if t[0].stockCode == code && t[0].step == step then Some(0)
    else
      var rest := FindStep(t[1..], code, step);
      if rest.Some? then Some(rest.value + 1) else None
  }

  /** `get_by_step`. */
  function GetByStep(t: Table, code: string, step: int): (r: Option<BaseLine>)
    ensures r.None? <==> forall i :: 0 <= i < |t| ==> !(t[i].stockCode == code && t[i].step == step)
    ensures r.Some? ==> r.value in t && r.value.stockCode == code && r.value.step == step
  {
    var k := FindStep(t, code, step);
    if k.Some? then Some(t[k.value]) else None
  }

  /**
   * `update_by_step`: replaces the price, quantity and both band ends of the
   * row at (`code`, `step`) -- an absent band end clears the stored one --
   * and returns None, changing nothing, when there is no such row.
   */
  function UpdateByStep(t: Table, code: string, step: int, newPrice: int, newQuantity: int, low: Option<int>, high: Option<int>)
    : (r: (Table, Option<BaseLine>))
    ensures r.1.None? <==> GetByStep(t, code, step).None?
    ensures r.1.None? ==> r.0 == t
    ensures r.1.Some? ==>
              r.1.value == BaseLine(code, step, newPrice, newQuantity, low, high)
              && |r.0| == |t|
              && exists k :: 0 <= k < |t| && t[k].stockCode == code && t[k].step == step
                             && r.0 == t[k := r.1.value]
  {
    var k := FindStep(t, code, step);
    if k.None? then (t, None)
    else
      var b := t[k.value].(decisionPrice := newPrice, quantity := newQuantity, lowPrice := low, highPrice := high);
      (t[k.value := b], Some(b))
  }

  /** `delete_by_step`: removes the row at (`code`, `step`), reporting whether there was one. */
  function DeleteByStep(t: Table, code: string, step: int): (r: (Table, bool))
    ensures r.1 <==> GetByStep(t, code, step).Some?
    ensures !r.1 ==> r.0 == t
    ensures r.1 ==> |r.0| + 1 == |t|
    ensures r.1 ==> exists k :: 0 <= k < |t| && t[k].stockCode == code && t[k].step == step
                                && r.0 == t[..k] + t[k + 1..]
  {
    var k := FindStep(t, code, step);
    if k.None? then (t, false)
    else (t[..k.value] + t[k.value + 1..], true)
  }

  /**
   * `delete_last_step`: False when the code has no baseline; otherwise the
   * row at the code's largest step is removed.
   */
  function DeleteLastStep(t: Table, code: string): (r: (Table, bool))
    ensures r.1 <==> HasCode(t, code)
    ensures !r.1 ==> r.0 == t
    ensures r.1 ==> |r.0| + 1 == |t|
    ensures r.1 ==> exists k :: 0 <= k < |t| && t[k].stockCode == code
                                && t[k].step == LastStep(t, code).value
                                && r.0 == t[..k] + t[k + 1..]
  {
    var last := LastStep(t, code);
    if last.None? then (t, false)
    else DeleteByStep(t, code, last.value)
  }

  /** The rows not belonging to `code`, in their order. */
  function WithoutCode(t: Table, code: string): (r: Table)
    ensures |r| + Count(t, code) == |t|
    ensures forall b :: b in r <==> b in t && b.stockCode != code
  {
    if |t| == 0 then []
    else
      var rest := WithoutCode(t[..|t| - 1], code);
      var b := t[|t| - 1];
      assert t == t[..|t| - 1] + [b];
      if b.stockCode == code then rest else rest + [b]
  }

  /** `delete_by_code`: removes every row of `code` and returns how many there were. */
  function DeleteByCode(t: Table, code: string): (r: (Table, nat))
    ensures r.1 == Count(t, code)
    ensures !HasCode(r.0, code)
    ensures forall b :: b in t && b.stockCode != code ==> b in r.0
    ensures |r.0| + r.1 == |t|
  {
    (WithoutCode(t, code), Count(t, code))
  }

  /** The distinct stock codes of the table. */
  function Codes(t: Table): (r: set<string>)
    ensures forall c :: c in r <==> HasCode(t, c)
  {
    set i | 0 <= i < |t| :: t[i].stockCode
  }

  /** The largest number of rows any one code has, over the rows from `k` on. */
  function MaxCountFrom(t: Table, k: nat): (m: nat)
    requires k <= |t|
    ensures forall i :: k <= i < |t| ==> Count(t, t[i].stockCode) <= m
    ensures k < |t| ==> exists i :: k <= i < |t| && Count(t, t[i].stockCode) == m
    ensures k == |t| ==> m == 0
    decreases |t| - k
  {
    if k == |t| then 0
    else
      var rest := MaxCountFrom(t, k + 1);
      var here := Count(t, t[k].stockCode);
      if here >= rest then here else rest
  }

  /** The smallest number of rows any one code has, over the rows from `k` on (0 past the end). */
  function MinCountFrom(t: Table, k: nat): (m: nat)
    requires k <= |t|
    ensures forall i :: k <= i < |t| ==> m <= Count(t, t[i].stockCode)
    ensures k < |t| ==> exists i :: k <= i < |t| && Count(t, t[i].stockCode) == m
    ensures k == |t| ==> m == 0
    decreases |t| - k
  {
    if k == |t| then 0
    else
      var here := Count(t, t[k].stockCode);
      if k + 1 == |t| then here
      else
        var rest := MinCountFrom(t, k + 1);
        if here <= rest then here else rest
  }

  /** `get_baseline_summary`, without the code list and per-code map that restate `Codes` and `Count`. */
  datatype Summary = Summary(totalBaselines: nat, uniqueStocks: nat, maxStepsPerStock: nat, minStepsPerStock: nat)

  function GetBaselineSummary(t: Table): (s: Summary)
    ensures s.totalBaselines == |t|
    ensures s.uniqueStocks == |Codes(t)|
    ensures |t| == 0 ==> s.maxStepsPerStock == 0 && s.minStepsPerStock == 0
    ensures forall c :: c in Codes(t) ==> s.minStepsPerStock <= Count(t, c) <= s.maxStepsPerStock
    ensures |t| > 0 ==> exists c :: c in Codes(t) && Count(t, c) == s.maxStepsPerStock
    ensures |t| > 0 ==> exists c :: c in Codes(t) && Count(t, c) == s.minStepsPerStock
  {
    Summary(|t|, |Codes(t)|, MaxCountFrom(t, 0), MinCountFrom(t, 0))
  }

  /** Every code that is present has at least one row, so a non-empty table's minimum is positive. */
  lemma MinStepsPositive(t: Table)
    requires |t| > 0
    ensures GetBaselineSummary(t).minStepsPerStock >= 1
  {
    var s := GetBaselineSummary(t);
    var c :| c in Codes(t) && Count(t, c) == s.minStepsPerStock;
    assert HasCode(t, c);
  }

  /** Appending a new step keeps (code, step) unique: the new step is past every step the code has. */
  lemma AddStepKeepsUnique(t: Table, code: string, decisionPrice: int, quantity: int, low: Option<int>, high: Option<int>)
    requires Unique(t)
    ensures Unique(AddStep(t, code, decisionPrice, quantity, low, high).0)
  {
    var r := AddStep(t, code, decisionPrice, quantity, low, high);
    forall i, j | 0 <= i < j < |r.0|
      ensures !(r.0[i].stockCode == r.0[j].stockCode && r.0[i].step == r.0[j].step)
    {
      if j == |t| {
        assert r.0[i] == t[i];
      } else {
        assert r.0[i] == t[i] && r.0[j] == t[j];
      }
    }
  }

  /** After `create_new` succeeds, the code's last step is 0 and the next `add_step` makes step 1. */
  lemma CreateThenAdd(t: Table, code: string, p: int, q: int, low: Option<int>, high: Option<int>)
    requires !HasCode(t, code)
    ensures var created := CreateNew(t, code, p, q, low, high).value.0;
            LastStep(created, code) == Some(0)
            && AddStep(created, code, p, q, low, high).1.step == 1
  {
    var created := CreateNew(t, code, p, q, low, high).value.0;
    assert created[|t|].stockCode == code;
    assert forall i :: 0 <= i < |t| ==> created[i] == t[i];
  }

  /** Deleting the last step right after adding one gives back the original table. */
  lemma DeleteLastUndoesAdd(t: Table, code: string, p: int, q: int, low: Option<int>, high: Option<int>)
    ensures var added := AddStep(t, code, p, q, low, high).0;
            DeleteLastStep(added, code) == (t, true)
  {
    var r := AddStep(t, code, p, q, low, high);
    var added := r.0;
    assert LastStep(added, code) == Some(r.1.step);
    assert added[|t|] == r.1;
    var k := FindStep(added, code, r.1.step);
    assert forall i :: 0 <= i < |t| ==> added[i] == t[i];
    assert k == Some(|t|);
    assert DeleteLastStep(added, code) == DeleteByStep(added, code, r.1.step);
    assert added[..|t|] + added[|t| + 1..] == t;
  }
}
