/**
 * Realtime groups: a map from group number to the strategy, the realtime
 * data types subscribed and the stock codes in the group, with the
 * realtime-group module's transitions.
 */
module RealtimeGroups {
  import opened Wrappers

  datatype Group = Group(group: int, strategy: int, dataType: seq<string>, stockCode: seq<string>)

  type Groups = map<int, Group>

  /** `create_new`: refused when the group exists; otherwise stored as given. */
  function CreateNew(gs: Groups, group: int, dataType: seq<string>, stockCode: seq<string>, strategy: int)
    : (r: Result<(Groups, Group), string>)
    ensures r.Failure? <==> group in gs
    ensures r.Success? ==> r.value.0 == gs[group := r.value.1] && group !in gs
    ensures r.Success? ==> r.value.1 == Group(group, strategy, dataType, stockCode)
  {
    if group in gs then Failure("the group already exists")
    else
      var g := Group(group, strategy, dataType, stockCode);
      Success((gs[group := g], g))
  }

  /** `update_by_group`: replaces only the given fields; None for an unknown group. */
  function UpdateByGroup(gs: Groups, group: int, strategy: Option<int>, dataType: Option<seq<string>>, stockCode: Option<seq<string>>)
    : (r: (Groups, Option<Group>))
    ensures r.1.None? <==> group !in gs
    ensures r.1.None? ==> r.0 == gs
    ensures r.1.Some? ==>
              var g := gs[group];
              var g' := r.1.value;
              r.0 == gs[group := g'] && g'.group == g.group
              && g'.strategy == strategy.GetOr(g.strategy)
              && g'.dataType == dataType.GetOr(g.dataType)
              && g'.stockCode == stockCode.GetOr(g.stockCode)
  {
    if group !in gs then (gs, None)
    else
      var g := gs[group];
      var g' := g.(strategy := strategy.GetOr(g.strategy), dataType := dataType.GetOr(g.dataType),
                   stockCode := stockCode.GetOr(g.stockCode));
      (gs[group := g'], Some(g'))
  }

  /** `delete_by_group`: True and the group gone when it existed, False and nothing changed otherwise. */
  function DeleteByGroup(gs: Groups, group: int): (r: (Groups, bool))
    ensures r.1 <==> group in gs
    ensures group !in r.0 && r.0.Keys == gs.Keys - {group}
    ensures forall k :: k in r.0 ==> r.0[k] == gs[k]
    ensures !r.1 ==> r.0 == gs
  {
    (gs - {group}, group in gs)
  }

  /** `update_strategy`: only the strategy changes; None for an unknown group. */
  function UpdateStrategy(gs: Groups, group: int, newStrategy: int): (r: (Groups, Option<Group>))
    ensures r.1.None? <==> group !in gs
    ensures r.1.None? ==> r.0 == gs
    ensures r.1.Some? ==> r.0 == gs[group := r.1.value] && r.1.value == gs[group].(strategy := newStrategy)
  {
    if group !in gs then (gs, None)
    else
      var g' := gs[group].(strategy := newStrategy);
      (gs[group := g'], Some(g'))
  }

  /** `add_stock_to_group`: appends the code when it is not already listed; None for an unknown group. */
  function AddStockToGroup(gs: Groups, group: int, code: string): (r: (Groups, Option<Group>))
    ensures r.1.None? <==> group !in gs
    ensures r.1.None? ==> r.0 == gs
    ensures r.1.Some? ==>
              var old_ := gs[group].stockCode;
              var new_ := r.1.value.stockCode;
              r.0 == gs[group := r.1.value]
              && r.1.value == gs[group].(stockCode := new_)
              && code in new_
              && (code in old_ ==> new_ == old_)
              && (code !in old_ ==> new_ == old_ + [code])
  {
    if group !in gs then (gs, None)
    else
      var g := gs[group];
      if code in g.stockCode then (gs, Some(g))
      else
        var g' := g.(stockCode := g.stockCode + [code]);
        (gs[group := g'], Some(g'))
  }

  /** The codes other than `code`, in their order. */
  function Without(codes: seq<string>, code: string): (r: seq<string>)
    ensures |r| <= |codes|
    ensures forall c :: c in r <==> c in codes && c != code
    ensures code !in codes ==> r == codes
  {
    if |codes| == 0 then []
    else
      var rest := Without(codes[1..], code);
      assert codes == [codes[0]] + codes[1..];
      if codes[0] == code then rest else [codes[0]] + rest
  }

  /** `remove_stock_from_group`: drops every occurrence of the code; None for an unknown group. */
  function RemoveStockFromGroup(gs: Groups, group: int, code: string): (r: (Groups, Option<Group>))
    ensures r.1.None? <==> group !in gs
    ensures r.1.None? ==> r.0 == gs
    ensures r.1.Some? ==>
              var old_ := gs[group].stockCode;
              var new_ := r.1.value.stockCode;
              r.0 == gs[group := r.1.value]
              && r.1.value == gs[group].(stockCode := new_)
              && code !in new_
              && (forall c :: c in new_ <==> c in old_ && c != code)
              && (code !in old_ ==> new_ == old_)
  {
    if group !in gs then (gs, None)
    else
      var g := gs[group];
      if code !in g.stockCode then (gs, Some(g))
      else
        var g' := g.(stockCode := Without(g.stockCode, code));
        (gs[group := g'], Some(g'))
  }

  /** No code appears twice. */
  predicate NoDuplicates(codes: seq<string>) {
    forall i, j :: 0 <= i < j < |codes| ==> codes[i] != codes[j]
  }

  /** Removing keeps a duplicate-free list duplicate-free. */
  lemma {:induction false} WithoutKeepsNoDuplicates(codes: seq<string>, code: string)
    requires NoDuplicates(codes)
    ensures NoDuplicates(Without(codes, code))
  {
    if |codes| > 0 {
      assert NoDuplicates(codes[1..]) by {
        forall i, j | 0 <= i < j < |codes[1..]|
          ensures codes[1..][i] != codes[1..][j]
        {
          assert codes[1..][i] == codes[i + 1] && codes[1..][j] == codes[j + 1];
        }
      }
      WithoutKeepsNoDuplicates(codes[1..], code);
      var rest := Without(codes[1..], code);
      if codes[0] != code {
        assert codes[0] !in codes[1..] by {
          forall k | 0 <= k < |codes[1..]|
            ensures codes[1..][k] != codes[0]
          {
            assert codes[1..][k] == codes[k + 1];
          }
        }
        assert codes[0] !in rest;
        var r := [codes[0]] + rest;
        forall i, j | 0 <= i < j < |r|
          ensures r[i] != r[j]
        {
          if i == 0 {
            assert r[j] == rest[j - 1];
            assert r[j] in rest;
          } else {
            assert r[i] == rest[i - 1] && r[j] == rest[j - 1];
          }
        }
      }
    }
  }

  /** Adding and removing codes never introduces a duplicate into a group's list. */
  lemma MembershipKeepsNoDuplicates(gs: Groups, group: int, code: string)
    requires group in gs && NoDuplicates(gs[group].stockCode)
    ensures var r := AddStockToGroup(gs, group, code); NoDuplicates(r.1.value.stockCode)
    ensures var r := RemoveStockFromGroup(gs, group, code); NoDuplicates(r.1.value.stockCode)
  {
    var codes := gs[group].stockCode;
    if code !in codes {
      var r := codes + [code];
      forall i, j | 0 <= i < j < |r|
        ensures r[i] != r[j]
      {
        if j == |codes| {
          assert r[i] == codes[i];
        } else {
          assert r[i] == codes[i] && r[j] == codes[j];
        }
      }
    } else {
      WithoutKeepsNoDuplicates(codes, code);
    }
  }

  /** Adding a new code and then removing it restores the group. */
  lemma RemoveUndoesAdd(gs: Groups, group: int, code: string)
    requires group in gs && code !in gs[group].stockCode
    ensures var added := AddStockToGroup(gs, group, code).0;
            RemoveStockFromGroup(added, group, code).1 == Some(gs[group])
  {
    var codes := gs[group].stockCode;
    WithoutAppend(codes, code);
  }

  lemma {:induction false} WithoutAppend(codes: seq<string>, code: string)
    requires code !in codes
    ensures Without(codes + [code], code) == codes
  {
    if |codes| > 0 {
      assert (codes + [code])[1..] == codes[1..] + [code];
      WithoutAppend(codes[1..], code);
      assert codes == [codes[0]] + codes[1..];
    }
  }
}
