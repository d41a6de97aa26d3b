/** A payment that the reserved value covers and that cannot be built: a run of the keeper and of the builder. */
module SmallOutputs {
  import opened Utxos
  import opened UtxoSelection
  import opened UtxoKeeper
  import opened MergeChain

  /** One large output and five of one, all of one account. */
  ghost predicate AreSmall(big: Utxo, small: seq<Utxo>, q: Query, height: nat) {
    && |small| == 5 && big.amount == 100_000_000 && NoDuplicates([big] + small)
    && (forall i :: 0 <= i < 5 ==> small[i].amount == 1)
    && (forall u :: u in [big] + small ==> Matches(u, q) && u.validHeight <= height)
  }

  /**
   * A payment of 5 reserves the five small outputs and, for the gas of their merge, the large one. That
   * covers the payment and the gas of both merges, and the chain is not built.
   */
  method SmallRun(big: Utxo, small: seq<Utxo>, q: Query, height: nat, w: Wallet)
    returns (first: Outcome, second: Outcome, result: BuildResult)
    requires AreSmall(big, small, q, height)
    requires forall u :: u in [big] + small ==> w.knowsAddress(u) && w.canSign(u)
    ensures first.Granted? && IdsOf(first.res.utxos) == IdsOf(small) && Total(first.res.utxos) == 5
    ensures second.Granted? && second.res.utxos == [big]
    ensures Total(first.res.utxos + second.res.utxos) >= 5 + GasFor(6, PRODUCTION)
    ensures result == Failed(BadAmount)
  {
    hide Lists, Selected, GoodSelection, IsPick, MatureIds, ImmatureIds, Consistent, Worth, Total, Keyed, IdsOf,
      AreSmall, Stored, CanSignAll, Asked, CanMerge, GasFor, NoDuplicates, Descending;
    var us := [big] + small;
    ghost var m := Stored(map[], us);
    SmallSources(big, small, q, height, m);
    var k := new Keeper(Stored(map[], us), map[]);
    ghost var nothing: set<Hash> := {};
    assert k.FreeUtxos(q, false, height) == Found(m.Keys, m, nothing, map[]);
    ghost var list, idx;
    first, list, idx := k.Reserve(q, 5, false, 0, height);
    LargeIsFirst(list, big, small, q, height, m, nothing);
    SmallAreChosen(list, big, small);
    assert first.res.utxos == list[1..];
    assert k.FreeUtxos(q, false, height) == Found({big.outputID}, m, nothing, map[]);
    LargeIsWorth(big, m);
    second, list, idx := k.Reserve(q, PRODUCTION.mergeGas, false, 0, height);
    LargeIsLeft(list, big, m, nothing, PRODUCTION.mergeGas);
    assert second.res.utxos == [big];
    RunFails(first.res.utxos, big, us, w);
    result := BuildBtmTxChain(first.res.utxos + second.res.utxos, PRODUCTION, w);
  }

  lemma SmallSources(big: Utxo, small: seq<Utxo>, q: Query, height: nat, m: map<Hash, Utxo>)
    requires AreSmall(big, small, q, height) && m == Stored(map[], [big] + small)
    ensures Keyed(m) && m.Keys == MatureIds(m, q, height) == IdsOf([big] + small)
    ensures Worth(m.Keys, m) == 100_000_005 && Worth({}, m) == 0
    ensures NoDuplicates([big] + small) && m.Keys - {} == m.Keys && Keyed(map[])
    ensures big.amount == 100_000_000 && big in [big] + small
  {
    var us := [big] + small;
    Records(us, m);
    assert {} + IdsOf(us) == IdsOf(us);
    TotalIsWorth(us, m.Keys, m);
    TotalConcat([big], small);
    TotalAppend([], big);
    assert [] + [big] == [big];
    SmallTotal(small, 5);
    assert small[..5] == small;
    forall h | h in m ensures h in MatureIds(m, q, height) {
      var u :| u in us && u.outputID == h;
    }
  }

  lemma Records(us: seq<Utxo>, m: map<Hash, Utxo>)
    requires NoDuplicates(us) && m == Stored(map[], us)
    ensures Keyed(m) && m.Keys == IdsOf(us) && Enumerates(us, m.Keys, m)
    ensures forall u :: u in us ==> u.outputID in m && m[u.outputID] == u
  {
    StoredKeys(map[], us);
    forall i | 0 <= i < |us| ensures us[i].outputID in m && m[us[i].outputID] == us[i] {
      StoredIsLast(map[], us, i);
    }
    DistinctAreEnumerated(us, m);
  }

  /** Two lists of the same records have the same length and members. */
  lemma SameRecords(list: seq<Utxo>, us: seq<Utxo>, m: map<Hash, Utxo>, none: set<Hash>)
    requires Enumerates(us, m.Keys, m) && none == {} && Lists(list, Found(m.Keys, m, none, map[]))
    ensures |list| == |us| && NoDuplicates(list) && IdsOf(list) == IdsOf(us) == m.Keys
    ensures forall i :: 0 <= i < |list| ==> list[i].outputID in m && m[list[i].outputID] == list[i]
  {
    ListsDistinct(list, Found(m.Keys, m, none, map[]));
    assert m.Keys + none == m.Keys && m + map[] == m;
    TotalIsWorth(list, m.Keys, m);
    TotalIsWorth(us, m.Keys, m);
    ListedIds(list, m.Keys, m);
    ListedIds(us, m.Keys, m);
  }

  lemma LargeLeads(list: seq<Utxo>, big: Utxo, small: seq<Utxo>)
    requires |list| == 6 && |small| == 5 && Descending(list) && NoDuplicates(list)
    requires big.amount > 1 && forall i :: 0 <= i < 5 ==> small[i].amount == 1
    requires forall i :: 0 <= i < 6 ==> list[i] in [big] + small
    requires big in list
    ensures list[0] == big && forall i :: 1 <= i < 6 ==> list[i].amount == 1
  {
    var j :| 0 <= j < 6 && list[j] == big;
    assert list[0].amount >= big.amount;
    assert list[0] == big;
    forall i | 1 <= i < 6 ensures list[i].amount == 1 {
      assert list[i].outputID != list[0].outputID;
    }
  }

  lemma OthersOf(us: seq<Utxo>)
    requires us != [] && NoDuplicates(us)
    ensures IdsOf(us[1..]) == IdsOf(us) - {us[0].outputID}
  {
    forall u | u in us[1..] ensures u.outputID != us[0].outputID {
      var i :| 0 <= i < |us[1..]| && us[1..][i] == u;
      assert us[i + 1].outputID != us[0].outputID;
    }
    assert us == [us[0]] + us[1..];
  }

  lemma MembersOf(list: seq<Utxo>, us: seq<Utxo>, m: map<Hash, Utxo>)
    requires IdsOf(list) == IdsOf(us)
    requires forall u :: u in us ==> u.outputID in m && m[u.outputID] == u
    requires forall i :: 0 <= i < |list| ==> list[i].outputID in m && m[list[i].outputID] == list[i]
    ensures forall u :: u in list <==> u in us
  {
    forall u | u in list ensures u in us {
      assert u.outputID in IdsOf(list);
      var v :| v in us && v.outputID == u.outputID;
    }
    forall u | u in us ensures u in list {
      assert u.outputID in IdsOf(us);
      var v :| v in list && v.outputID == u.outputID;
    }
  }

  /** Whatever the order of equal amounts, the large output is first. */
  lemma LargeIsFirst(
    list: seq<Utxo>, big: Utxo, small: seq<Utxo>, q: Query, height: nat, m: map<Hash, Utxo>, none: set<Hash>)
    requires AreSmall(big, small, q, height) && m == Stored(map[], [big] + small) && none == {}
    requires Lists(list, Found(m.Keys, m, none, map[])) && Descending(list)
    ensures |list| == 6 && list[0] == big && NoDuplicates(list) && IdsOf(list) == IdsOf([big] + small) == m.Keys
    ensures forall i :: 1 <= i < 6 ==> list[i].amount == 1 && list[i] in [big] + small
    ensures big.outputID in m && m[big.outputID] == big
  {
    hide Lists, Stored, IdsOf, Enumerates;
    var us := [big] + small;
    Records(us, m);
    SameRecords(list, us, m, none);
    MembersOf(list, us, m);
    assert big in us;
    LargeLeads(list, big, small);
  }

  /** The small ones are selected. */
  lemma SmallAreChosen(list: seq<Utxo>, big: Utxo, small: seq<Utxo>)
    requires |list| == 6 && list[0] == big && big.amount > 5 && forall i :: 1 <= i < 6 ==> list[i].amount == 1
    requires NoDuplicates(list) && NoDuplicates([big] + small) && IdsOf(list) == IdsOf([big] + small)
    ensures Selected(list, 0, 5, []) == list[1..] && Total(list[1..]) == 5
    ensures IdsOf(list[1..]) == IdsOf(small) && IdsOf(list) - IdsOf(list[1..]) == {big.outputID}
  {
    hide Selected, IdsOf, Total, NoDuplicates;
    SmallAreSelected(big, list[1..]);
    assert [big] + list[1..] == list && ([big] + small)[1..] == small;
    SmallTotal(list[1..], 5);
    assert list[1..][..5] == list[1..];
    OthersOf(list);
    OthersOf([big] + small);
    assert big.outputID in IdsOf(list) by { MemberHasId(big, list); }
  }

  lemma MemberHasId(u: Utxo, us: seq<Utxo>)
    requires u in us
    ensures u.outputID in IdsOf(us)
  {
  }

  lemma LargeIsLeft(list: seq<Utxo>, big: Utxo, m: map<Hash, Utxo>, none: set<Hash>, amount: nat)
    requires big.outputID in m && m[big.outputID] == big && none == {} && 0 < amount <= big.amount
    requires Lists(list, Found({big.outputID}, m, none, map[]))
    ensures list == [big] && Selected(list, 0, amount, []) == [big]
  {
    var n := |list| - 1;
    assert list[n] == big && {big.outputID} - {big.outputID} == none;
    assert list[..n] == [];
    assert list == [big] && [] + [big] == [big];
    TotalAppend([], big);
    SelectedStep([big], 0, amount, []);
    SelectedEnd([big], amount, [big]);
  }

  lemma LargeIsWorth(big: Utxo, m: map<Hash, Utxo>)
    requires big.outputID in m && m[big.outputID] == big
    ensures Worth({big.outputID}, m) == big.amount
  {
    WorthSplit({big.outputID}, m, big.outputID);
    assert {big.outputID} - {big.outputID} == {};
  }

  lemma RunFails(ones: seq<Utxo>, big: Utxo, us: seq<Utxo>, w: Wallet)
    requires |ones| == 5 && big.amount == 100_000_000 && big in us
    requires forall i :: 0 <= i < 5 ==> ones[i].amount == 1 && ones[i] in us
    requires forall u :: u in us ==> w.knowsAddress(u) && w.canSign(u)
    ensures var all := ones + [big];
      && Total(all) <= 100_000_005 && Total(all) >= 5 + GasFor(6, PRODUCTION)
      && |all| > 1 && w.knowsAddress(all[0]) && CanSignAll(Asked(all, PRODUCTION, w), w)
      && !CanMerge(all, PRODUCTION)
  {
    hide Chain, Asked, CanMerge, GasFor, Total;
    var all := ones + [big];
    SmallAreNotMerged(ones, big, w);
    MergesIff(all, PRODUCTION, w);
    TotalAppend(ones, big);
    AskedNext(all, PRODUCTION, w);
    assert all[..Width(6, PRODUCTION)] == ones;
  }
}
