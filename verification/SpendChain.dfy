/** Spending through a merge chain: reserve enough for the payment and for the gas of merging. */
module SpendChain {
  import opened Wrappers
  import opened Utxos
  import opened UtxoChoice
  import opened UtxoKeeper
  import opened MergeChain
  import Word64

  /** t is base with some more reservations, which are numbered by rids. */
  ghost predicate Extends(base: Table, t: Table, rids: set<nat>) {
    && base.reservations == t.reservations - rids
    && base.reserved.Keys <= t.reserved.Keys
    && forall o :: o in t.reserved ==>
         if o in base.reserved then t.reserved[o] == base.reserved[o] && t.reserved[o] !in rids
         else t.reserved[o] in rids
  }

  function Members(rids: seq<nat>): set<nat> {
    set r | r in rids
  }

  lemma GrantExtends(base: Table, t: Table, rids: set<nat>, utxos: seq<Utxo>, change: nat, expiry: nat)
    requires Consistent(t) && Extends(base, t, rids) && IdsOf(utxos) !! t.reserved.Keys
    ensures Extends(base, Grant(t, utxos, change, expiry), rids + {t.nextIndex + 1})
  {
    var t' := Grant(t, utxos, change, expiry);
    var rids' := rids + {t.nextIndex + 1};
    assert t.nextIndex + 1 !in t.reservations;
    AddedAndDropped(t.reservations, rids, t.nextIndex + 1, Reservation(t.nextIndex + 1, utxos, change, expiry));
    forall o | o in t'.reserved
      ensures if o in base.reserved then t'.reserved[o] == base.reserved[o] && t'.reserved[o] !in rids'
              else t'.reserved[o] in rids'
    {
      assert o in t.reserved ==> t.reserved[o] <= t.nextIndex;
    }
  }

  lemma AddedAndDropped<V>(m: map<nat, V>, rids: set<nat>, rid: nat, v: V)
    requires rid !in m
    ensures m[rid := v] - (rids + {rid}) == m - rids
  {
  }

  lemma RevokeExtends(base: Table, t: Table, rids: set<nat>, rid: nat)
    requires Consistent(t) && Extends(base, t, rids) && rid in rids
    ensures Extends(base, Revoke(t, rid), rids - {rid})
  {
    if rid in t.reservations {
      var t' := Revoke(t, rid);
      assert t'.reservations - (rids - {rid}) == t.reservations - rids;
      forall o | o in base.reserved ensures o in t'.reserved {
        assert t.reserved[o] == base.reserved[o] && t.reserved[o] !in rids;
      }
      forall o | o in t'.reserved
        ensures if o in base.reserved then t'.reserved[o] == base.reserved[o] && t'.reserved[o] !in rids - {rid}
                else t'.reserved[o] in rids - {rid}
      {
        assert o in IdsOf(t.reservations[t.reserved[o]].utxos);
      }
    } else {
      assert t.reservations - (rids - {rid}) == t.reservations - rids;
      assert forall o :: o in t.reserved ==> t.reserved[o] in t.reservations;
    }
  }

  /** The rollbacks registered with the transaction builder, run in order. */
  method Rollback(k: Keeper, rollbacks: seq<nat>, ghost base: Table)
    requires k.Valid() && Extends(base, k.Snapshot(), Members(rollbacks))
    modifies k`reserved, k`reservations
    ensures k.Valid()
    ensures k.reserved == base.reserved && k.reservations == base.reservations
  {
    ghost var left := Members(rollbacks);
    for n := 0 to |rollbacks|
      invariant k.Valid() && left == Members(rollbacks[n..])
      invariant Extends(base, k.Snapshot(), left)
    {
      assert rollbacks[n..] == [rollbacks[n]] + rollbacks[n + 1..];
      RevokeExtends(base, k.Snapshot(), left, rollbacks[n]);
      k.Cancel(rollbacks[n]);
      if rollbacks[n] !in rollbacks[n + 1..] {
        left := left - {rollbacks[n]};
      }
    }
    ExtendsByNothing(base, k.Snapshot());
  }

  lemma ExtendsByNothing(base: Table, t: Table)
    requires Extends(base, t, {})
    ensures t.reserved == base.reserved && t.reservations == base.reservations
  {
    assert t.reservations - {} == t.reservations;
  }

  /** The progress of the reservation loop: what was free at the start and what was taken since. */
  ghost predicate Reserving(
    free0: set<Hash>, taken: set<Hash>, m: map<Hash, Utxo>, utxos: seq<Utxo>, amount: nat)
  {
    && taken <= free0 <= m.Keys
    && Enumerates(utxos, taken, m)
    && (utxos == [] || amount <= Total(utxos))
  }

  /** The part of the selection's promise that the chain needs: no record is taken twice. */
  ghost predicate IsTakenFrom(free: set<Hash>, m: map<Hash, Utxo>, us: seq<Utxo>) {
    IdsOf(us) <= free && Enumerates(us, IdsOf(us), m)
  }

  lemma ChoiceIsTaken(free: set<Hash>, m: map<Hash, Utxo>, wanted: nat, us: seq<Utxo>)
    requires free <= m.Keys && GoodChoice(free, m, wanted, us)
    ensures IsTakenFrom(free, m, us)
  {
    DistinctAreEnumerated(us, m);
  }

  lemma ReserveStep(
    free0: set<Hash>, taken: set<Hash>, m: map<Hash, Utxo>, utxos: seq<Utxo>, amount: nat,
    wanted: nat, change: nat, more: seq<Utxo>)
    requires Reserving(free0, taken, m, utxos, amount)
    requires IsTakenFrom(free0 - taken, m, more)
    requires Total(more) == wanted + change && wanted > 0 && amount <= Total(utxos) + wanted
    ensures IdsOf(more) <= free0 - taken && IdsOf(more) != {}
    ensures Reserving(free0, taken + IdsOf(more), m, utxos + more, amount)
    ensures Total(utxos + more) == Total(utxos) + Total(more)
    ensures free0 - taken - IdsOf(more) == free0 - (taken + IdsOf(more))
  {
    EnumeratesConcat(utxos, more, taken, IdsOf(more), m);
    TotalConcat(utxos, more);
    assert more[0].outputID in IdsOf(more);
  }

  /** How the value available at the start is split between what was taken and what is left. */
  lemma ReservingTotals(
    free0: set<Hash>, taken: set<Hash>, m: map<Hash, Utxo>, utxos: seq<Utxo>, amount: nat, p: MergeParams)
    requires Reserving(free0, taken, m, utxos, amount) && Usable(p)
    ensures Worth(free0, m) == Total(utxos) + Worth(free0 - taken, m)
    ensures Total(utxos) <= Worth(m.Keys, m)
    ensures |utxos| <= |free0| && GasFor(|utxos|, p) <= GasFor(|m|, p)
  {
    hide Enumerates, Worth, Total, GasFor;
    TotalIsWorth(utxos, taken, m);
    WorthUnion(taken, free0 - taken, m);
    assert taken + (free0 - taken) == free0;
    WorthOfSubset(free0, m.Keys, m);
    SubsetIsSmaller(taken, free0);
    SubsetIsSmaller(free0, m.Keys);
    GasForIsMonotonic(|utxos|, |free0|, p);
    GasForIsMonotonic(|free0|, |m|, p);
  }

  lemma SubsetIsSmaller(a: set<Hash>, b: set<Hash>)
    requires a <= b
    ensures |a| <= |b|
  {
    assert b == a + (b - a);
  }

  lemma MarkedAreTaken(mature: set<Hash>, reserved: map<Hash, nat>, ids: set<Hash>, r: nat)
    ensures Mark(reserved, ids, r).Keys == reserved.Keys + ids
    ensures mature - Mark(reserved, ids, r).Keys == mature - reserved.Keys - ids
  {
  }

  /** The value the loop still has to reserve; none once the amount and the gas are covered. */
  lemma WantedIsExact(reservedAmount: nat, gasAmount: nat, amount: nat)
    requires amount < Word64.LIMIT
    requires reservedAmount <= Word64.MAX_INT64 && gasAmount <= Word64.MAX_INT64
    requires amount <= Word64.MAX_INT64 || (reservedAmount == 0 && gasAmount == 0)
    ensures Word64.Add(gasAmount, amount) == gasAmount + amount
    ensures reservedAmount < gasAmount + amount ==>
              Word64.Sub(Word64.Add(amount, gasAmount), reservedAmount) == amount + gasAmount - reservedAmount
  {
  }

  lemma NothingNeedsNothing(p: MergeParams)
    requires Usable(p)
    ensures GasFor(0, p) == 0 && Total([]) == 0
  {
  }

  lemma MembersAppend(rids: seq<nat>, rid: nat)
    ensures Members(rids + [rid]) == Members(rids) + {rid}
  {
  }

  /** What the loop was asked for, and what it found when it started. */
  datatype Request = Request(
    q: Query, useUnconfirmed: bool, expiry: nat, height: nat, amount: nat, p: MergeParams)

  datatype Start = Start(free: set<Hash>, m: map<Hash, Utxo>, base: Table)

  ghost predicate Progress(
    t: Table, r: Request, s: Start, utxos: seq<Utxo>, rollbacks: seq<nat>, taken: set<Hash>)
  {
    && Consistent(t)
    && Extends(s.base, t, Members(rollbacks))
    && Free(t, r, s) == s.free - taken
    && Reserving(s.free, taken, s.m, utxos, r.amount)
    && t.reserved.Keys == s.base.reserved.Keys + taken
  }

  function Free(t: Table, r: Request, s: Start): set<Hash> {
    MatureIds(s.m, r.q, r.height) - t.reserved.Keys
  }

  ghost predicate Bounded(r: Request, s: Start) {
    && Usable(r.p) && r.amount < Word64.LIMIT
    && Worth(s.m.Keys, s.m) <= Word64.MAX_INT64
    && GasFor(|s.m|, r.p) <= Word64.MAX_INT64
  }

  lemma StartProgress(r: Request, s: Start)
    requires Consistent(s.base) && s.free <= s.m.Keys && s.free == Free(s.base, r, s)
    requires Usable(r.p)
    ensures Progress(s.base, r, s, [], [], {})
    ensures Total([]) == 0 && GasFor(0, r.p) == 0
  {
    assert s.base.reservations - {} == s.base.reservations;
  }

  /** What the loop may add without wrapping around. */
  lemma ProgressIsBounded(
    t: Table, r: Request, s: Start, utxos: seq<Utxo>, rollbacks: seq<nat>, taken: set<Hash>)
    requires Progress(t, r, s, utxos, rollbacks, taken) && Bounded(r, s)
    ensures Total(utxos) <= Word64.MAX_INT64 && GasFor(|utxos|, r.p) <= Word64.MAX_INT64
    ensures r.amount <= Word64.MAX_INT64 || (Total(utxos) == 0 && GasFor(|utxos|, r.p) == 0)
  {
    hide Extends, Consistent, Enumerates, IdsOf, Worth, Total, GasFor, Free;
    ReservingTotals(s.free, taken, s.m, utxos, r.amount, r.p);
    NothingNeedsNothing(r.p);
  }

  lemma GrantKeepsProgress(
    t: Table, r: Request, s: Start, utxos: seq<Utxo>, rollbacks: seq<nat>, taken: set<Hash>,
    wanted: nat, change: nat, more: seq<Utxo>)
    requires Progress(t, r, s, utxos, rollbacks, taken)
    requires IsTakenFrom(s.free - taken, s.m, more)
    requires Total(more) == wanted + change && wanted > 0 && r.amount <= Total(utxos) + wanted
    ensures Progress(
              Grant(t, more, change, r.expiry), r, s,
              utxos + more, rollbacks + [t.nextIndex + 1], taken + IdsOf(more))
    ensures Total(utxos + more) == Total(utxos) + Total(more)
    ensures s.free - (taken + IdsOf(more)) < s.free - taken
  {
    hide Extends, Consistent, Enumerates, Total, IdsOf;
    var ids := IdsOf(more);
    FreeIsUnreserved(t, r, s, ids);
    GrantKeepsConsistency(t, more, change, r.expiry);
    GrantExtends(s.base, t, Members(rollbacks), more, change, r.expiry);
    MembersAppend(rollbacks, t.nextIndex + 1);
    MarkedAreTaken(MatureIds(s.m, r.q, r.height), t.reserved, ids, t.nextIndex + 1);
    ReserveStep(s.free, taken, s.m, utxos, r.amount, wanted, change, more);
    assert s.base.reserved.Keys + taken + ids == s.base.reserved.Keys + (taken + ids);
  }

  lemma FreeIsUnreserved(t: Table, r: Request, s: Start, ids: set<Hash>)
    requires ids <= Free(t, r, s)
    ensures ids !! t.reserved.Keys
  {
  }

  /** The outputs of all passes, in order. */
  ghost function Flat(passes: seq<seq<Utxo>>): seq<Utxo> {
    if passes == [] then [] else Flat(passes[..|passes| - 1]) + passes[|passes| - 1]
  }

  /** What is missing after some passes: the amount and the gas of merging, less what they reserved. */
  ghost function Wanted(r: Request, passes: seq<seq<Utxo>>): int
    requires Usable(r.p)
  {
    r.amount + GasFor(|Flat(passes)|, r.p) - Total(Flat(passes))
  }

  /** A pass chooses well, for what was missing before it, among what the earlier ones have left. */
  ghost predicate IsPass(r: Request, s: Start, earlier: seq<seq<Utxo>>, pass: seq<Utxo>)
    requires Usable(r.p) && s.free <= s.m.Keys
  {
    Wanted(r, earlier) > 0 && GoodChoice(s.free - IdsOf(Flat(earlier)), s.m, Wanted(r, earlier), pass)
  }

  ghost predicate IsReserved(t: Table, r: Request, rid: nat, earlier: seq<seq<Utxo>>, pass: seq<Utxo>)
    requires Usable(r.p)
  {
    && rid in t.reservations && rid <= t.nextIndex && Total(pass) >= Wanted(r, earlier)
    && t.reservations[rid] == Reservation(rid, pass, Total(pass) - Wanted(r, earlier), r.expiry)
  }

  /** Every pass was needed, chose well, and is on record under the number that will cancel it. */
  ghost predicate ArePasses(t: Table, r: Request, s: Start, passes: seq<seq<Utxo>>, rollbacks: seq<nat>)
    requires Usable(r.p) && s.free <= s.m.Keys
  {
    && |rollbacks| == |passes|
    && forall i :: 0 <= i < |passes| ==>
         IsPass(r, s, passes[..i], passes[i]) && IsReserved(t, r, rollbacks[i], passes[..i], passes[i])
  }

  lemma OnePassMore(
    t: Table, r: Request, s: Start, passes: seq<seq<Utxo>>, rollbacks: seq<nat>, more: seq<Utxo>, change: nat)
    requires Usable(r.p) && s.free <= s.m.Keys && ArePasses(t, r, s, passes, rollbacks)
    requires IsPass(r, s, passes, more) && Total(more) == Wanted(r, passes) + change
    ensures ArePasses(
              Grant(t, more, change, r.expiry), r, s, passes + [more], rollbacks + [t.nextIndex + 1])
    ensures Flat(passes + [more]) == Flat(passes) + more
  {
    hide IsPass, Flat, Wanted, Total;
    FlatNext(passes, more);
    var all := passes + [more];
    forall i | 0 <= i < |all|
      ensures IsPass(r, s, all[..i], all[i])
      ensures IsReserved(Grant(t, more, change, r.expiry), r, (rollbacks + [t.nextIndex + 1])[i], all[..i], all[i])
    {
      if i < |passes| {
        assert all[..i] == passes[..i];
      } else {
        assert all[..i] == passes;
      }
    }
  }

  lemma FlatNext(passes: seq<seq<Utxo>>, more: seq<Utxo>)
    ensures Flat(passes + [more]) == Flat(passes) + more
  {
    assert (passes + [more])[..|passes|] == passes;
  }

  /** Reserve, reduced to what the chain needs of it. */
  method ReservePass(k: Keeper, r: Request, wanted: nat, ghost free: set<Hash>, ghost m: map<Hash, Utxo>)
    returns (outcome: Outcome)
    requires k.Valid() && k.DistinctSources() && wanted > 0
    requires k.Visible(r.useUnconfirmed) == m && Worth(m.Keys, m) < Word64.LIMIT
    requires k.Available(r.q, r.useUnconfirmed, r.height) == free && free <= m.Keys
    modifies k`nextIndex, k`reserved, k`reservations
    ensures outcome.Refused? ==>
              && k.Snapshot() == old(k.Snapshot()) && Worth(free, m) < wanted
              && k.RefusalIsRight(r.q, r.useUnconfirmed, r.height, wanted, outcome.error)
    ensures outcome.Granted? ==>
              var res := outcome.res;
              && IsTakenFrom(free, m, res.utxos) && GoodChoice(free, m, wanted, res.utxos)
              && Total(res.utxos) == wanted + res.change
              && k.Snapshot() == Grant(old(k.Snapshot()), res.utxos, res.change, r.expiry)
              && res.id == old(k.nextIndex) + 1
  {
    hide Extends, Consistent, Enumerates, IdsOf, Total, GoodChoice, IsTakenFrom;
    k.DistinctWorth(r.useUnconfirmed);
    assert k.AvailableWorth(r.q, r.useUnconfirmed, r.height) == Worth(free, m);
    ghost var list, idx;
    outcome, list, idx := k.Reserve(r.q, wanted, r.useUnconfirmed, r.expiry, r.height);
    if outcome.Granted? {
      ChoiceIsTaken(free, m, wanted, outcome.res.utxos);
    }
  }

  lemma TakenAreListed(s: Start, r: Request, utxos: seq<Utxo>, taken: set<Hash>)
    requires Reserving(s.free, taken, s.m, utxos, r.amount)
    ensures IdsOf(utxos) == taken
  {
    ListedIds(utxos, taken, s.m);
  }

  /** One reservation of the wanted value: the progress it makes, without its arithmetic. */
  method ReserveOne(
    k: Keeper, r: Request, wanted: nat, ghost utxos: seq<Utxo>, ghost rollbacks: seq<nat>,
    ghost taken: set<Hash>, ghost s: Start, ghost passes: seq<seq<Utxo>>)
    returns (outcome: Outcome, ghost taken': set<Hash>)
    requires Bounded(r, s) && k.DistinctSources() && k.Visible(r.useUnconfirmed) == s.m
    requires Progress(k.Snapshot(), r, s, utxos, rollbacks, taken)
    requires wanted > 0 && r.amount <= Total(utxos) + wanted
    requires s.free <= s.m.Keys && ArePasses(k.Snapshot(), r, s, passes, rollbacks)
    requires Flat(passes) == utxos && wanted == Wanted(r, passes)
    modifies k`nextIndex, k`reserved, k`reservations
    ensures outcome.Refused? ==>
              && k.Snapshot() == old(k.Snapshot()) && Worth(s.free, s.m) - Total(utxos) < wanted
              && k.RefusalIsRight(r.q, r.useUnconfirmed, r.height, wanted, outcome.error)
    ensures outcome.Granted? ==>
              && ArePasses(
                   k.Snapshot(), r, s, passes + [outcome.res.utxos], rollbacks + [outcome.res.id])
              && Flat(passes + [outcome.res.utxos]) == utxos + outcome.res.utxos
    ensures outcome.Granted? ==>
              && Progress(
                   k.Snapshot(), r, s, utxos + outcome.res.utxos, rollbacks + [outcome.res.id], taken')
              && Total(utxos + outcome.res.utxos) == Total(utxos) + wanted + outcome.res.change
              && s.free - taken' < s.free - taken
  {
    hide Extends, Consistent, Reserving, Enumerates, Grant, IdsOf, Total, Worth, ArePasses, Flat, Wanted, GoodChoice;
    ghost var before := k.Snapshot();
    TakenAreListed(s, r, utxos, taken);
    ReservingTotals(s.free, taken, s.m, utxos, r.amount, r.p);
    outcome := ReservePass(k, r, wanted, s.free - taken, s.m);
    taken' := taken;
    if outcome.Granted? {
      ghost var res := outcome.res;
      taken' := taken + IdsOf(res.utxos);
      GrantKeepsProgress(before, r, s, utxos, rollbacks, taken, wanted, res.change, res.utxos);
      OnePassMore(before, r, s, passes, rollbacks, res.utxos, res.change);
    }
  }

  /** The body of the reservation loop: one more reservation, and the gas it makes necessary. */
  method ReserveMore(
    k: Keeper, r: Request, reservedAmount: nat, gasAmount: nat, utxos: seq<Utxo>, rollbacks: seq<nat>,
    ghost taken: set<Hash>, ghost s: Start, ghost passes: seq<seq<Utxo>>)
    returns (error: Option<Error>, reservedAmount': nat, gasAmount': nat, utxos': seq<Utxo>,
             rollbacks': seq<nat>, ghost taken': set<Hash>, ghost passes': seq<seq<Utxo>>)
    requires Bounded(r, s) && k.DistinctSources() && k.Visible(r.useUnconfirmed) == s.m
    requires Progress(k.Snapshot(), r, s, utxos, rollbacks, taken)
    requires reservedAmount == Total(utxos) < gasAmount + r.amount && gasAmount == GasFor(|utxos|, r.p)
    requires s.free <= s.m.Keys && ArePasses(k.Snapshot(), r, s, passes, rollbacks) && Flat(passes) == utxos
    modifies k`nextIndex, k`reserved, k`reservations
    ensures Progress(k.Snapshot(), r, s, utxos', rollbacks', taken')
    ensures ArePasses(k.Snapshot(), r, s, passes', rollbacks') && Flat(passes') == utxos'
    ensures reservedAmount' == Total(utxos') && gasAmount' == GasFor(|utxos'|, r.p)
    ensures error.None? ==> s.free - taken' < s.free - taken
    ensures error.Some? ==>
              && Worth(s.free, s.m) < gasAmount' + r.amount && Wanted(r, passes') > 0
              && k.RefusalIsRight(r.q, r.useUnconfirmed, r.height, Wanted(r, passes'), error.value)
  {
    hide Extends, Consistent, Enumerates, Grant, IdsOf, Worth, Total, GasFor, ArePasses, Flat;
    error, reservedAmount', gasAmount' := None, reservedAmount, gasAmount;
    utxos', rollbacks', passes' := utxos, rollbacks, passes;
    ReservingTotals(s.free, taken, s.m, utxos, r.amount, r.p);
    NothingNeedsNothing(r.p);
    WantedIsExact(reservedAmount, gasAmount, r.amount);
    var reserveAmount: int := Word64.Sub(Word64.Add(r.amount, gasAmount), reservedAmount);
    var outcome: Outcome;
    outcome, taken' := ReserveOne(k, r, reserveAmount, utxos, rollbacks, taken, s, passes);
    if outcome.Refused? {
      taken' := taken;
      error := Some(outcome.error);
      return;
    }
    var res := outcome.res;
    rollbacks', passes' := rollbacks + [res.id], passes + [res.utxos];
    utxos' := utxos + res.utxos;
    ReservingTotals(s.free, taken', s.m, utxos', r.amount, r.p);
    reservedAmount' := Word64.Add(reservedAmount, Word64.Add(reserveAmount, res.change));
    GasForIsPerMerge(|utxos'|, r.p);
    gasAmount' := CalcMergeGas(|utxos'|, r.p);
  }

  ghost function StartOf(k: Keeper, r: Request): (s: Start)
    reads k
    ensures s.free <= s.m.Keys
  {
    Start(k.Available(r.q, r.useUnconfirmed, r.height), k.Visible(r.useUnconfirmed), k.Snapshot())
  }

  /**
   * Reserve until the reserved value covers the amount and the gas of merging what was reserved.
   * taken is what has been reserved when the method returns, with or without an error.
   */
  method ReserveBtmUtxoChain(k: Keeper, r: Request)
    returns (error: Option<Error>, utxos: seq<Utxo>, rollbacks: seq<nat>, ghost taken: set<Hash>,
             ghost passes: seq<seq<Utxo>>)
    requires k.Valid() && k.DistinctSources() && r.q.assetID == BTM_ASSET_ID && r.q.vote == []
    requires Bounded(r, StartOf(k, r))
    modifies k`nextIndex, k`reserved, k`reservations
    ensures k.Valid() && Extends(old(k.Snapshot()), k.Snapshot(), Members(rollbacks))
    ensures taken <= old(k.Available(r.q, r.useUnconfirmed, r.height))
    ensures Enumerates(utxos, taken, k.Visible(r.useUnconfirmed))
    ensures k.reserved.Keys == old(k.reserved.Keys) + taken
    ensures Flat(passes) == utxos && ArePasses(k.Snapshot(), r, old(StartOf(k, r)), passes, rollbacks)
    ensures error.None? <==> Wanted(r, passes) <= 0
    ensures error.Some? <==> old(k.AvailableWorth(r.q, r.useUnconfirmed, r.height)) < r.amount + GasFor(|utxos|, r.p)
    ensures error.Some? ==>
              k.RefusalIsRight(r.q, r.useUnconfirmed, r.height, Wanted(r, passes), error.value)
  {
    hide Extends, Consistent, Enumerates, Worth, Total, GasFor, ArePasses, Progress, Flat, Wanted, Bounded,
      ExplainsRefusal, WorthOfFound, MatureIds, ImmatureIds, Minus, Meet;
    ghost var s := StartOf(k, r);
    BoundedIsUsable(r, s);
    StartProgress(r, s);
    NoPasses(r, s);
    error, utxos, rollbacks, taken, passes := ReserveUntilCovered(k, r, s);
    WantedIs(r, passes);
    ProgressIsKept(k.Snapshot(), r, s, utxos, rollbacks, taken);
    TakenIsAvailable(s, utxos, taken);
  }

  lemma BoundedIsUsable(r: Request, s: Start)
    requires Bounded(r, s)
    ensures Usable(r.p)
  {
  }

  /** The loop, from any start. */
  method ReserveUntilCovered(k: Keeper, r: Request, ghost s: Start)
    returns (error: Option<Error>, utxos: seq<Utxo>, rollbacks: seq<nat>, ghost taken: set<Hash>,
             ghost passes: seq<seq<Utxo>>)
    requires Bounded(r, s) && k.DistinctSources() && k.Visible(r.useUnconfirmed) == s.m && s.free <= s.m.Keys
    requires Progress(k.Snapshot(), r, s, [], [], {}) && ArePasses(k.Snapshot(), r, s, [], []) && Flat([]) == []
    modifies k`nextIndex, k`reserved, k`reservations
    ensures Progress(k.Snapshot(), r, s, utxos, rollbacks, taken) && k.Visible(r.useUnconfirmed) == s.m
    ensures ArePasses(k.Snapshot(), r, s, passes, rollbacks) && Flat(passes) == utxos
    ensures error.None? ==> Total(utxos) >= r.amount + GasFor(|utxos|, r.p)
    ensures error.Some? ==>
              && Worth(s.free, s.m) < r.amount + GasFor(|utxos|, r.p) && Wanted(r, passes) > 0
              && k.RefusalIsRight(r.q, r.useUnconfirmed, r.height, Wanted(r, passes), error.value)
  {
    hide Extends, Consistent, Enumerates, Worth, Total, GasFor, ArePasses, Progress, Flat, Wanted,
      ExplainsRefusal, WorthOfFound, MatureIds, ImmatureIds, Minus, Meet;
    var reservedAmount, gasAmount := 0, 0;
    utxos, rollbacks, taken, passes := [], [], {}, [];
    error := None;
    NothingNeedsNothing(r.p);
    WantedIsExact(reservedAmount, gasAmount, r.amount);
    while reservedAmount < Word64.Add(gasAmount, r.amount)
      invariant Progress(k.Snapshot(), r, s, utxos, rollbacks, taken)
      invariant reservedAmount == Total(utxos) && gasAmount == GasFor(|utxos|, r.p)
      invariant ArePasses(k.Snapshot(), r, s, passes, rollbacks) && Flat(passes) == utxos
      invariant Word64.Add(gasAmount, r.amount) == gasAmount + r.amount && error.None?
      invariant k.Visible(r.useUnconfirmed) == s.m
      decreases s.free - taken
    {
      error, reservedAmount, gasAmount, utxos, rollbacks, taken, passes :=
        ReserveMore(k, r, reservedAmount, gasAmount, utxos, rollbacks, taken, s, passes);
      if error.Some? {
        break;
      }
      ProgressIsBounded(k.Snapshot(), r, s, utxos, rollbacks, taken);
      WantedIsExact(reservedAmount, gasAmount, r.amount);
    }
  }

  lemma WantedIs(r: Request, passes: seq<seq<Utxo>>)
    requires Usable(r.p)
    ensures Wanted(r, passes) == r.amount + GasFor(|Flat(passes)|, r.p) - Total(Flat(passes))
  {
  }

  lemma NoPasses(r: Request, s: Start)
    requires Usable(r.p) && s.free <= s.m.Keys
    ensures ArePasses(s.base, r, s, [], []) && Flat([]) == []
  {
  }

  lemma TakenIsAvailable(s: Start, utxos: seq<Utxo>, taken: set<Hash>)
    requires taken <= s.free <= s.m.Keys && Enumerates(utxos, taken, s.m)
    ensures Total(utxos) <= Worth(s.free, s.m)
  {
    TotalIsWorth(utxos, taken, s.m);
    WorthOfSubset(taken, s.free, s.m);
  }

  lemma ProgressIsKept(
    t: Table, r: Request, s: Start, utxos: seq<Utxo>, rollbacks: seq<nat>, taken: set<Hash>)
    requires Progress(t, r, s, utxos, rollbacks, taken)
    ensures Consistent(t) && Extends(s.base, t, Members(rollbacks)) && taken <= s.free
    ensures Enumerates(utxos, taken, s.m) && t.reserved.Keys == s.base.reserved.Keys + taken
  {
    hide Extends, Consistent, Enumerates, Free;
  }

  datatype SpendResult =
    | Spending(merges: seq<Merge>, input: Utxo, change: nat)
    | NotReserved(reason: Error)
    | NotBuilt(cause: BuildError)

  /** Which of the errors there is a cause for, in the order in which they are noticed; none, and it is paid. */
  ghost predicate IsOutcome(result: SpendResult, utxos: seq<Utxo>, r: Request, w: Wallet)
    requires Usable(r.p)
  {
    match result
    case NotReserved(_) => false
    case NotBuilt(NoInputs) => utxos == []
    case NotBuilt(UnknownAddress) => |utxos| > 1 && !w.knowsAddress(utxos[0])
    case NotBuilt(CannotSign) => |utxos| > 1 && w.knowsAddress(utxos[0]) && !CanSignAll(Asked(utxos, r.p, w), w)
    case NotBuilt(BadAmount) => |utxos| > 1 && IsSigned(utxos, r.p, w) && !CanMerge(utxos, r.p)
    case Spending(merges, input, change) =>
      && utxos != [] && (|utxos| > 1 ==> IsSigned(utxos, r.p, w)) && CanMerge(utxos, r.p)
      && Chain(utxos, r.p, w) == Some((merges, input)) && IsExact(merges, input, change, utxos, r)
  }

  ghost predicate IsSigned(utxos: seq<Utxo>, p: MergeParams, w: Wallet)
    requires Usable(p) && |utxos| > 1
  {
    w.knowsAddress(utxos[0]) && CanSignAll(Asked(utxos, p, w), w)
  }

  /** The payment spends what was reserved and nothing else, pays the gas, and its change is what is left. */
  ghost predicate IsExact(merges: seq<Merge>, input: Utxo, change: nat, utxos: seq<Utxo>, r: Request)
    requires Usable(r.p)
  {
    && Total(utxos) == r.amount + change + r.p.mergeGas * |merges|
    && input.amount == r.amount + change
    && Spent(merges) + [input] == utxos + Outputs(merges)
    && |merges| == MergeCount(|utxos|, r.p)
    && forall i :: 0 <= i < |merges| ==> WellFormed(merges[i], r.p)
  }

  /** The half of a payment that only computes. */
  method Pay(utxos: seq<Utxo>, r: Request, w: Wallet) returns (result: SpendResult)
    requires Usable(r.p) && r.amount + GasFor(|utxos|, r.p) <= Total(utxos) <= Word64.MAX_INT64
    ensures IsOutcome(result, utxos, r, w)
    ensures result == NotBuilt(BadAmount) ==> !AreWorth(utxos, r.p.mergeGas)
  {
    hide Chain, CanMerge, Asked, CanSignAll, Spent, Outputs, WellFormed;
    var built := BuildBtmTxChain(utxos, r.p, w);
    if built.Failed? {
      if built.error == BadAmount && AreWorth(utxos, r.p.mergeGas) {
        WorthyAreMerged(utxos, r.p, w);
        MergesIff(utxos, r.p, w);
      }
      return NotBuilt(built.error);
    }
    ChainSpendsEverythingOnce(utxos, r.p, w);
    ChainConservesValue(utxos, r.p, w);
    GasForIsPerMerge(|utxos|, r.p);
    var change := if built.last.amount > r.amount then built.last.amount - r.amount else 0;
    return Spending(built.merges, built.last, change);
  }

  /**
   * Pay an amount out of one UTXO, which a chain of merges provides. The payment is refused exactly when
   * what was free is worth less than the amount and the gas of merging what could be reserved; otherwise
   * its outcome is determined by what was reserved.
   */
  method SpendAccountChain(k: Keeper, r: Request, w: Wallet)
    returns (result: SpendResult, rollbacks: seq<nat>, ghost utxos: seq<Utxo>, ghost taken: set<Hash>,
             ghost passes: seq<seq<Utxo>>)
    requires k.Valid() && k.DistinctSources() && r.q.assetID == BTM_ASSET_ID && r.q.vote == []
    requires Bounded(r, StartOf(k, r))
    modifies k`nextIndex, k`reserved, k`reservations
    ensures k.Valid() && Extends(old(k.Snapshot()), k.Snapshot(), Members(rollbacks))
    ensures taken <= old(k.Available(r.q, r.useUnconfirmed, r.height))
    ensures Enumerates(utxos, taken, k.Visible(r.useUnconfirmed)) && Flat(passes) == utxos
    ensures ArePasses(k.Snapshot(), r, old(StartOf(k, r)), passes, rollbacks)
    ensures result.NotReserved? <==>
              old(k.AvailableWorth(r.q, r.useUnconfirmed, r.height)) < r.amount + GasFor(|utxos|, r.p)
    ensures result.NotReserved? <==> Wanted(r, passes) > 0
    ensures result.NotReserved? ==>
              k.RefusalIsRight(r.q, r.useUnconfirmed, r.height, Wanted(r, passes), result.reason)
    ensures !result.NotReserved? ==> IsOutcome(result, utxos, r, w)
    ensures result == NotBuilt(NoInputs) <==> r.amount == 0
    ensures result == NotBuilt(BadAmount) ==> !AreWorth(utxos, r.p.mergeGas)
  {
    hide Extends, Consistent, Enumerates, Total, ArePasses, IsOutcome, GasFor, Flat;
    var error, reserved;
    error, reserved, rollbacks, taken, passes := ReserveBtmUtxoChain(k, r);
    utxos := reserved;
    NothingReservedIff(k.Snapshot(), r, old(StartOf(k, r)), passes, rollbacks);
    if error.Some? {
      result := NotReserved(error.value);
      return;
    }
    ReservedIsBounded(k.Visible(r.useUnconfirmed), utxos, taken);
    result := Pay(reserved, r, w);
    NoInputsIff(result, utxos, r, w);
  }

  lemma NoInputsIff(result: SpendResult, utxos: seq<Utxo>, r: Request, w: Wallet)
    requires Usable(r.p) && IsOutcome(result, utxos, r, w)
    ensures result == NotBuilt(NoInputs) <==> utxos == []
    ensures !result.NotReserved?
  {
  }

  /** Nothing is reserved only if nothing was asked for. */
  lemma NothingReservedIff(t: Table, r: Request, s: Start, passes: seq<seq<Utxo>>, rollbacks: seq<nat>)
    requires Usable(r.p) && s.free <= s.m.Keys && ArePasses(t, r, s, passes, rollbacks)
    ensures r.amount == 0 ==> Flat(passes) == [] && Wanted(r, passes) == 0
    ensures Wanted(r, passes) <= 0 && Flat(passes) == [] ==> r.amount == 0
  {
    if passes != [] {
      assert IsPass(r, s, passes[..0], passes[0]) && passes[..0] == [];
    }
  }

  lemma ReservedIsBounded(m: map<Hash, Utxo>, utxos: seq<Utxo>, taken: set<Hash>)
    requires Enumerates(utxos, taken, m) && Worth(m.Keys, m) <= Word64.MAX_INT64
    ensures Total(utxos) <= Word64.MAX_INT64
  {
    TotalIsWorth(utxos, taken, m);
    WorthOfSubset(taken, m.Keys, m);
  }
}
