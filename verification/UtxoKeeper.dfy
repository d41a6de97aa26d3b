/** The UTXO keeper: which outputs are promised to which pending spend. */
module UtxoKeeper {
  import opened Wrappers
  import opened Utxos
  import opened UtxoSelection
  import opened UtxoChoice
  import Word64

  datatype Reservation = Reservation(id: nat, utxos: seq<Utxo>, change: nat, expiry: nat)

  datatype Error = Insufficient | Immature | AlreadyReserved | NoSuchUtxo

  datatype Outcome = Granted(res: Reservation) | Refused(error: Error)

  datatype Query = Query(accountID: string, assetID: Hash, vote: seq<nat>)

  predicate Matches(u: Utxo, q: Query) {
    u.accountID == q.accountID && u.assetID == q.assetID && u.vote == q.vote
  }

  function MatureIds(m: map<Hash, Utxo>, q: Query, height: nat): set<Hash> {
    set h | h in m && Matches(m[h], q) && m[h].validHeight <= height
  }

  function ImmatureIds(m: map<Hash, Utxo>, q: Query, height: nat): set<Hash> {
    set h | h in m && Matches(m[h], q) && m[h].validHeight > height
  }

  /** The reservation table, as a value. */
  datatype Table = Table(nextIndex: nat, reserved: map<Hash, nat>, reservations: map<nat, Reservation>)

  /** reserved is exactly the inverse of the live reservations. */
  ghost predicate Consistent(t: Table) {
    && (forall r :: r in t.reservations ==> r <= t.nextIndex && t.reservations[r].id == r)
    && (forall r, o :: r in t.reservations && o in IdsOf(t.reservations[r].utxos) ==>
          o in t.reserved && t.reserved[o] == r)
    && (forall o :: o in t.reserved ==>
          t.reserved[o] in t.reservations && o in IdsOf(t.reservations[t.reserved[o]].utxos))
  }

  function Grant(t: Table, utxos: seq<Utxo>, change: nat, expiry: nat): Table {
    var id := t.nextIndex + 1;
    Table(
      id,
      Mark(t.reserved, IdsOf(utxos), id),
      t.reservations[id := Reservation(id, utxos, change, expiry)])
  }

  function Mark(reserved: map<Hash, nat>, ids: set<Hash>, r: nat): map<Hash, nat> {
    map h | h in reserved.Keys + ids :: if h in ids then r else reserved[h]
  }

  function Revoke(t: Table, rid: nat): Table {
    if rid !in t.reservations then t
    else
      t.(reserved := t.reserved - IdsOf(t.reservations[rid].utxos),
         reservations := t.reservations - {rid})
  }

  function Unexpired(t: Table, now: nat): Table {
    t.(reserved := map o | o in t.reserved && !Expired(t, t.reserved[o], now) :: t.reserved[o],
       reservations := map r | r in t.reservations && !Expired(t, r, now) :: t.reservations[r])
  }

  predicate Expired(t: Table, rid: nat, now: nat) {
    rid in t.reservations && t.reservations[rid].expiry < now
  }

  lemma NoOutputIsPromisedTwice(t: Table, r: nat, s: nat)
    requires Consistent(t) && r in t.reservations && s in t.reservations && r != s
    ensures IdsOf(t.reservations[r].utxos) !! IdsOf(t.reservations[s].utxos)
  {
    forall o | o in IdsOf(t.reservations[r].utxos) ensures o !in IdsOf(t.reservations[s].utxos) {
      assert t.reserved[o] == r;
    }
  }

  lemma GrantKeepsConsistency(t: Table, utxos: seq<Utxo>, change: nat, expiry: nat)
    requires Consistent(t) && IdsOf(utxos) !! t.reserved.Keys
    ensures Consistent(Grant(t, utxos, change, expiry))
  {
    var t' := Grant(t, utxos, change, expiry);
    forall r, o | r in t'.reservations && o in IdsOf(t'.reservations[r].utxos)
      ensures o in t'.reserved && t'.reserved[o] == r
    {
      assert r != t'.nextIndex ==> o in t.reserved && t.reserved[o] == r;
    }
    forall o | o in t'.reserved
      ensures t'.reserved[o] in t'.reservations
      ensures o in IdsOf(t'.reservations[t'.reserved[o]].utxos)
    {
      assert o !in IdsOf(utxos) ==> t.reserved[o] in t.reservations;
    }
  }

  lemma RevokeKeepsConsistency(t: Table, rid: nat)
    requires Consistent(t)
    ensures Consistent(Revoke(t, rid))
  {
    if rid in t.reservations {
      var t' := Revoke(t, rid);
      forall r, o | r in t'.reservations && o in IdsOf(t'.reservations[r].utxos)
        ensures o in t'.reserved && t'.reserved[o] == r
      {
        NoOutputIsPromisedTwice(t, r, rid);
      }
      forall o | o in t'.reserved
        ensures t'.reserved[o] in t'.reservations
        ensures o in IdsOf(t'.reservations[t'.reserved[o]].utxos)
      {
        assert t.reserved[o] in t.reservations;
      }
    }
  }

  /** Cancelling what was just granted leaves nothing behind but a used reservation number. */
  lemma RevokeUndoesGrant(t: Table, utxos: seq<Utxo>, change: nat, expiry: nat)
    requires Consistent(t) && IdsOf(utxos) !! t.reserved.Keys
    ensures Revoke(Grant(t, utxos, change, expiry), t.nextIndex + 1) == t.(nextIndex := t.nextIndex + 1)
  {
    var t' := Revoke(Grant(t, utxos, change, expiry), t.nextIndex + 1);
    assert t'.reserved == t.reserved;
    assert t'.reservations == t.reservations;
  }

  /** Two grants never overlap, and revoking one leaves the other as it was. */
  lemma RevokeIsLocal(t: Table, rid: nat, other: nat, o: Hash)
    requires Consistent(t) && other in t.reservations && other != rid
    requires o in IdsOf(t.reservations[other].utxos)
    ensures var t' := Revoke(t, rid);
      && other in t'.reservations && t'.reservations[other] == t.reservations[other]
      && o in t'.reserved && t'.reserved[o] == other
  {
    if rid in t.reservations {
      NoOutputIsPromisedTwice(t, rid, other);
    }
  }

  /** The totals that decide between the errors of Reserve: what is free, promised already, and immature. */
  ghost predicate ExplainsRefusal(free: nat, promised: nat, immature: nat, amount: nat, e: Error) {
    match e
    case Insufficient => free + promised + immature < amount
    case Immature => free + promised < amount <= free + promised + immature
    case AlreadyReserved => free < amount <= free + promised
    case NoSuchUtxo => false
  }

  function Decide(optAmount: nat, reservedAmount: nat, immatureAmount: nat, amount: nat): Option<Error> {
    if Word64.Add(Word64.Add(optAmount, reservedAmount), immatureAmount) < amount then Some(Insufficient)
    else if Word64.Add(optAmount, reservedAmount) < amount then Some(Immature)
    else if optAmount < amount then Some(AlreadyReserved)
    else None
  }

  /** No later record of the list has the same id. */
  predicate IsLastOf(us: seq<Utxo>, i: nat)
    requires i < |us|
  {
    forall k :: i < k < |us| ==> us[k].outputID != us[i].outputID
  }

  /** The records stored one after another. */
  function Stored(m: map<Hash, Utxo>, us: seq<Utxo>): map<Hash, Utxo> {
    if us == [] then m else Stored(m, us[..|us| - 1])[us[|us| - 1].outputID := us[|us| - 1]]
  }

  lemma StoredNext(m: map<Hash, Utxo>, us: seq<Utxo>, n: nat)
    requires n < |us|
    ensures Stored(m, us[..n + 1]) == Stored(m, us[..n])[us[n].outputID := us[n]]
  {
    assert us[..n + 1][..n] == us[..n];
  }

  lemma {:induction false} StoredKeys(m: map<Hash, Utxo>, us: seq<Utxo>)
    ensures Stored(m, us).Keys == m.Keys + IdsOf(us)
    ensures forall h :: h in m && h !in IdsOf(us) ==> Stored(m, us)[h] == m[h]
    ensures Keyed(m) ==> Keyed(Stored(m, us))
  {
    if us != [] {
      hide IdsOf;
      var n := |us| - 1;
      StoredKeys(m, us[..n]);
      IdsGrow(us, n);
      assert us[..n + 1] == us;
    }
  }

  /** Of several records with one id the last is kept. */
  lemma {:induction false} StoredIsLast(m: map<Hash, Utxo>, us: seq<Utxo>, i: nat)
    requires i < |us| && IsLastOf(us, i)
    ensures us[i].outputID in Stored(m, us) && Stored(m, us)[us[i].outputID] == us[i]
    decreases |us|
  {
    var n := |us| - 1;
    if i < n {
      assert us[n].outputID != us[i].outputID;
      assert IsLastOf(us[..n], i) && us[..n][i] == us[i];
      StoredIsLast(m, us[..n], i);
    }
  }

  class Keeper {
    var nextIndex: nat
    var standard: map<Hash, Utxo>
    var contract: map<Hash, Utxo>
    var unconfirmed: map<Hash, Utxo>
    var reserved: map<Hash, nat>
    var reservations: map<nat, Reservation>

    constructor (standard: map<Hash, Utxo>, contract: map<Hash, Utxo>)
      ensures Valid() && Snapshot() == Table(0, map[], map[])
      ensures this.standard == standard && this.contract == contract && unconfirmed == map[]
    {
      this.standard, this.contract := standard, contract;
      nextIndex, unconfirmed, reserved, reservations := 0, map[], map[], map[];
    }

    function Snapshot(): Table
      reads this`nextIndex, this`reserved, this`reservations
    {
      Table(nextIndex, reserved, reservations)
    }

    ghost predicate Valid()
      reads this`nextIndex, this`reserved, this`reservations
    {
      Consistent(Snapshot())
    }

    /** The records a reservation may draw on. */
    function Visible(useUnconfirmed: bool): map<Hash, Utxo>
      reads this`standard, this`unconfirmed
    {
      if useUnconfirmed then standard + unconfirmed else standard
    }

    /** Records are stored under their ids, and no confirmed output is also listed as unconfirmed. */
    ghost predicate DistinctSources()
      reads this`standard, this`contract, this`unconfirmed
    {
      && Keyed(standard) && Keyed(contract) && Keyed(unconfirmed)
      && standard.Keys !! unconfirmed.Keys
    }

    function Available(q: Query, useUnconfirmed: bool, height: nat): (ids: set<Hash>)
      reads this`standard, this`unconfirmed, this`reserved
      ensures ids <= Visible(useUnconfirmed).Keys
    {
      MatureIds(Visible(useUnconfirmed), q, height) - reserved.Keys
    }

    /** The records of both sources that match a query: those that could be spent now, and those that could be later. */
    function MatureUtxos(q: Query, useUnconfirmed: bool, height: nat): (f: Found)
      reads this`standard, this`unconfirmed
      ensures IsFound(f)
    {
      Found(MatureIds(standard, q, height), standard,
            if useUnconfirmed then MatureIds(unconfirmed, q, height) else {}, unconfirmed)
    }

    function ImmatureUtxos(q: Query, useUnconfirmed: bool, height: nat): (f: Found)
      reads this`standard, this`unconfirmed
      ensures IsFound(f)
    {
      Found(ImmatureIds(standard, q, height), standard,
            if useUnconfirmed then ImmatureIds(unconfirmed, q, height) else {}, unconfirmed)
    }

    function FreeUtxos(q: Query, useUnconfirmed: bool, height: nat): (f: Found)
      reads this`standard, this`unconfirmed, this`reserved
      ensures IsFound(f)
    {
      Minus(MatureUtxos(q, useUnconfirmed, height), reserved.Keys)
    }

    /** The value of the free records; what both sources have counts twice. */
    ghost function FreeWorth(q: Query, useUnconfirmed: bool, height: nat): nat
      reads this`standard, this`unconfirmed, this`reserved
    {
      WorthOfFound(FreeUtxos(q, useUnconfirmed, height))
    }

    ghost function AvailableWorth(q: Query, useUnconfirmed: bool, height: nat): nat
      reads this`standard, this`unconfirmed, this`reserved
    {
      Worth(Available(q, useUnconfirmed, height), Visible(useUnconfirmed))
    }

    /** When no output is in both sources, the free ones are those among all that are visible. */
    lemma FreeIsAvailable(q: Query, useUnconfirmed: bool, height: nat)
      requires DistinctSources()
      ensures var f := FreeUtxos(q, useUnconfirmed, height);
        && f.first + f.second == Available(q, useUnconfirmed, height) && f.first !! f.second
        && FreeWorth(q, useUnconfirmed, height) == AvailableWorth(q, useUnconfirmed, height)
    {
      var f, m := FreeUtxos(q, useUnconfirmed, height), Visible(useUnconfirmed);
      assert f.first + f.second == Available(q, useUnconfirmed, height);
      WorthUnion(f.first, f.second, m);
      WorthOfAgreeing(f.first, standard, m);
      if useUnconfirmed {
        WorthOfAgreeing(f.second, unconfirmed, m);
      }
    }

    ghost predicate RefusalIsRight(q: Query, useUnconfirmed: bool, height: nat, amount: nat, e: Error)
      reads this`standard, this`unconfirmed, this`reserved
    {
      ExplainsRefusal(
        FreeWorth(q, useUnconfirmed, height),
        WorthOfFound(Meet(MatureUtxos(q, useUnconfirmed, height), reserved.Keys)),
        WorthOfFound(ImmatureUtxos(q, useUnconfirmed, height)), amount, e)
    }

    method AddUnconfirmedUtxo(utxos: seq<Utxo>)
      modifies this`unconfirmed
      ensures unconfirmed.Keys == old(unconfirmed.Keys) + IdsOf(utxos)
      ensures forall h :: h in old(unconfirmed) && h !in IdsOf(utxos) ==>
                unconfirmed[h] == old(unconfirmed)[h]
      ensures forall i :: 0 <= i < |utxos| && IsLastOf(utxos, i) ==>
                unconfirmed[utxos[i].outputID] == utxos[i]
      ensures old(Keyed(unconfirmed)) ==> Keyed(unconfirmed)
    {
      for n := 0 to |utxos|
        invariant unconfirmed == Stored(old(unconfirmed), utxos[..n])
      {
        StoredNext(old(unconfirmed), utxos, n);
        unconfirmed := unconfirmed[utxos[n].outputID := utxos[n]];
      }
      assert utxos[..|utxos|] == utxos;
      StoredKeys(old(unconfirmed), utxos);
      forall i | 0 <= i < |utxos| && IsLastOf(utxos, i) ensures unconfirmed[utxos[i].outputID] == utxos[i] {
        StoredIsLast(old(unconfirmed), utxos, i);
      }
    }

    method RemoveUnconfirmedUtxo(hashes: seq<Hash>)
      modifies this`unconfirmed
      ensures unconfirmed == old(unconfirmed) - set h | h in hashes
    {
      for n := 0 to |hashes|
        invariant unconfirmed == old(unconfirmed) - set h | h in hashes[..n]
      {
        assert hashes[..n + 1] == hashes[..n] + [hashes[n]];
        unconfirmed := unconfirmed - {hashes[n]};
      }
      assert hashes[..|hashes|] == hashes;
    }

    method Cancel(rid: nat)
      requires Valid()
      modifies this`reserved, this`reservations
      ensures Valid() && Snapshot() == Revoke(old(Snapshot()), rid)
    {
      hide Consistent;
      RevokeKeepsConsistency(Snapshot(), rid);
      if rid !in reservations {
        return;
      }
      var utxos := reservations[rid].utxos;
      reservations := reservations - {rid};
      for n := 0 to |utxos|
        invariant reserved == old(reserved) - IdsOf(utxos[..n])
        invariant reservations == old(reservations) - {rid}
      {
        hide IdsOf;
        IdsGrow(utxos, n);
        reserved := reserved - {utxos[n].outputID};
      }
      assert utxos[..|utxos|] == utxos;
    }

    method ExpireReservation(now: nat)
      requires Valid()
      modifies this`reserved, this`reservations
      ensures Valid() && Snapshot() == Unexpired(old(Snapshot()), now)
    {
      var rest := reservations.Keys;
      ghost var before := Snapshot();
      while rest != {}
        invariant Valid() && nextIndex == before.nextIndex
        invariant rest <= before.reservations.Keys
        invariant PartlyExpired(before, Snapshot(), now, rest)
      {
        var rid :| rid in rest;
        ghost var t := Snapshot();
        if rid in reservations && reservations[rid].expiry < now {
          Cancel(rid);
        }
        ExpireOne(before, t, now, rest, rid);
        rest := rest - {rid};
      }
      assert Snapshot() == Unexpired(before, now);
    }

    /** The value of all records that a search goes through, those twice that are in both sources. */
    ghost function WorthOfSources(useUnconfirmed: bool): nat
      reads this`standard, this`unconfirmed
    {
      Worth(standard.Keys, standard) + if useUnconfirmed then Worth(unconfirmed.Keys, unconfirmed) else 0
    }

    /**
     * Find the matching records: those that can be spent now, and the value of those that cannot. The
     * first n come from the database, the others are unconfirmed. An output is listed twice exactly
     * when both sources have it.
     */
    method FindUtxos(q: Query, useUnconfirmed: bool, height: nat)
      returns (utxos: seq<Utxo>, immatureAmount: nat, ghost n: nat)
      requires Keyed(standard) && Keyed(unconfirmed) && WorthOfSources(useUnconfirmed) < Word64.LIMIT
      ensures n <= |utxos| && Enumerates(utxos[..n], MatureIds(standard, q, height), standard)
      ensures if useUnconfirmed then Enumerates(utxos[n..], MatureIds(unconfirmed, q, height), unconfirmed)
              else n == |utxos|
      ensures immatureAmount ==
              Worth(ImmatureIds(standard, q, height), standard) +
              if useUnconfirmed then Worth(ImmatureIds(unconfirmed, q, height), unconfirmed) else 0
      ensures NoDuplicates(utxos) <==>
              (useUnconfirmed ==> MatureIds(standard, q, height) !! MatureIds(unconfirmed, q, height))
    {
      hide Enumerates, IdsOf, MatureIds, ImmatureIds, NoDuplicates;
      utxos, immatureAmount := Scan(standard, q, height);
      n := |utxos|;
      assert utxos[..n] == utxos;
      ListedIds(utxos, MatureIds(standard, q, height), standard);
      if !useUnconfirmed {
        return;
      }
      ghost var found := utxos;
      var more, moreAmount := Scan(unconfirmed, q, height);
      ListedIds(more, MatureIds(unconfirmed, q, height), unconfirmed);
      ImmatureIsLess(standard, q, height);
      ImmatureIsLess(unconfirmed, q, height);
      utxos, immatureAmount := utxos + more, Word64.Add(immatureAmount, moreAmount);
      assert utxos[..n] == found && utxos[n..] == more;
      DuplicatesIff(found, more);
    }

    /** Choose among the records that are not promised yet; list has those in the order of the choice. */
    method OptUtxos(utxos: seq<Utxo>, amount: nat, ghost f: Found)
      returns (opt: seq<Utxo>, optAmount: nat, reservedAmount: nat, ghost list: seq<Utxo>, ghost idx: seq<nat>)
      requires Lists(utxos, f) && WorthOfFound(f) < Word64.LIMIT
      requires amount > 0 || Minus(f, reserved.Keys).first == Minus(f, reserved.Keys).second == {}
      ensures Lists(list, Minus(f, reserved.Keys)) && Descending(list) && IsPick(list, |list|, idx, opt)
      ensures GoodSelection(list, amount, opt) && opt == Selected(list, 0, amount, []) && optAmount == Total(opt)
      ensures reservedAmount == WorthOfFound(Meet(f, reserved.Keys))
    {
      hide Lists, Descending, IsPick, GoodSelection, Selected;
      ListsTotal(utxos, f);
      var sorted := SortByAmount(utxos, f);
      ListsTotal(sorted, f);
      UntakenLists(sorted, f, reserved.Keys);
      var unreserved: seq<Utxo>;
      unreserved, reservedAmount := FilterReserved(sorted, reserved);
      UntakenDescends(sorted, reserved.Keys);
      ListsTotal(unreserved, Minus(f, reserved.Keys));
      if amount == 0 {
        NothingListed(unreserved, Minus(f, reserved.Keys));
      }
      opt, optAmount, idx := SelectFrom(unreserved, amount);
      list := unreserved;
    }

    lemma DistinctWorth(useUnconfirmed: bool)
      requires DistinctSources()
      ensures WorthOfSources(useUnconfirmed) == Worth(Visible(useUnconfirmed).Keys, Visible(useUnconfirmed))
    {
      if useUnconfirmed {
        var m := standard + unconfirmed;
        WorthUnion(standard.Keys, unconfirmed.Keys, m);
        assert m.Keys == standard.Keys + unconfirmed.Keys;
        WorthOfAgreeing(standard.Keys, standard, m);
        WorthOfAgreeing(unconfirmed.Keys, unconfirmed, m);
      }
    }

    /** What is promised: some of the free records, well chosen, that cover the amount. */
    ghost predicate IsChosen(
      q: Query, useUnconfirmed: bool, height: nat, amount: nat, list: seq<Utxo>, idx: seq<nat>, opt: seq<Utxo>)
      reads this`standard, this`unconfirmed, this`reserved
    {
      && Lists(list, FreeUtxos(q, useUnconfirmed, height)) && Descending(list) && IsPick(list, |list|, idx, opt)
      && GoodSelection(list, amount, opt) && opt == Selected(list, 0, amount, []) && Total(opt) >= amount
    }

    /** The same without lists: each record at most once. */
    ghost predicate IsGoodChoice(q: Query, useUnconfirmed: bool, height: nat, amount: nat, opt: seq<Utxo>)
      reads this`standard, this`unconfirmed, this`reserved
    {
      var free := Available(q, useUnconfirmed, height);
      IdsOf(opt) <= free && GoodChoice(free, Visible(useUnconfirmed), amount, opt)
    }

    /** When no output is in both sources, the choice is one among records, each at most once. */
    lemma ChosenIsGoodChoice(
      q: Query, useUnconfirmed: bool, height: nat, amount: nat, list: seq<Utxo>, idx: seq<nat>, opt: seq<Utxo>)
      requires DistinctSources() && IsChosen(q, useUnconfirmed, height, amount, list, idx, opt)
      ensures IsGoodChoice(q, useUnconfirmed, height, amount, opt)
    {
      hide GoodSelection, IsPick, GoodChoice, Selected, Descending;
      var f, m := FreeUtxos(q, useUnconfirmed, height), Visible(useUnconfirmed);
      var free := Available(q, useUnconfirmed, height);
      FreeIsAvailable(q, useUnconfirmed, height);
      ListsDistinct(list, f);
      if !useUnconfirmed {
        hide Enumerates;
        EnumeratesAgreeing(list, free, f.a + f.b, m);
      }
      SelectionIsGoodChoice(list, free, m, amount, idx, opt);
      ChoiceIsBounded(m, free, amount, opt);
    }

    /** The read-only half of Reserve: which records to promise, or why none can be. */
    method Choose(q: Query, amount: nat, useUnconfirmed: bool, height: nat)
      returns (error: Option<Error>, opt: seq<Utxo>, optAmount: nat, ghost list: seq<Utxo>, ghost idx: seq<nat>)
      requires Keyed(standard) && Keyed(unconfirmed) && WorthOfSources(useUnconfirmed) < Word64.LIMIT
      requires amount > 0 || NoneFree(q, useUnconfirmed, height)
      ensures error.None? <==> FreeWorth(q, useUnconfirmed, height) >= amount
      ensures error.None? ==>
                IsChosen(q, useUnconfirmed, height, amount, list, idx, opt) && optAmount == Total(opt)
      ensures error.Some? ==> RefusalIsRight(q, useUnconfirmed, height, amount, error.value)
    {
      hide Lists, Descending, IsPick, GoodSelection, Selected, Enumerates, MatureIds, ImmatureIds, NoDuplicates;
      ghost var f := MatureUtxos(q, useUnconfirmed, height);
      var utxos, immatureAmount, n := FindUtxos(q, useUnconfirmed, height);
      FoundIsMature(q, useUnconfirmed, height, utxos, n);
      SourcesCover(q, useUnconfirmed, height);
      var reservedAmount: nat;
      opt, optAmount, reservedAmount, list, idx := OptUtxos(utxos, amount, f);
      ListsTotal(list, FreeUtxos(q, useUnconfirmed, height));
      SelectionIsBounded(list, amount, idx, opt);
      DecisionIsRight(
        FreeWorth(q, useUnconfirmed, height), reservedAmount, immatureAmount, amount, optAmount);
      error := Decide(optAmount, reservedAmount, immatureAmount, amount);
    }

    ghost predicate NoneFree(q: Query, useUnconfirmed: bool, height: nat)
      reads this`standard, this`unconfirmed, this`reserved
    {
      var f := FreeUtxos(q, useUnconfirmed, height);
      f.first == {} && f.second == {}
    }

    lemma FoundIsMature(q: Query, useUnconfirmed: bool, height: nat, utxos: seq<Utxo>, n: nat)
      requires n <= |utxos| && Enumerates(utxos[..n], MatureIds(standard, q, height), standard)
      requires if useUnconfirmed then Enumerates(utxos[n..], MatureIds(unconfirmed, q, height), unconfirmed)
               else n == |utxos|
      ensures Lists(utxos, MatureUtxos(q, useUnconfirmed, height))
    {
      hide MatureIds;
      assert utxos == utxos[..n] + utxos[n..];
      ListsParts(utxos[..n], utxos[n..], MatureUtxos(q, useUnconfirmed, height));
    }

    /** What is free, promised and immature is together at most what the sources hold. */
    lemma SourcesCover(q: Query, useUnconfirmed: bool, height: nat)
      ensures WorthOfFound(MatureUtxos(q, useUnconfirmed, height)) +
              WorthOfFound(ImmatureUtxos(q, useUnconfirmed, height)) <= WorthOfSources(useUnconfirmed)
      ensures WorthOfFound(MatureUtxos(q, useUnconfirmed, height)) ==
              WorthOfFound(FreeUtxos(q, useUnconfirmed, height)) +
              WorthOfFound(Meet(MatureUtxos(q, useUnconfirmed, height), reserved.Keys))
    {
      PartsOfSource(standard, q, height, reserved.Keys);
      if useUnconfirmed {
        PartsOfSource(unconfirmed, q, height, reserved.Keys);
      } else {
        assert {} - reserved.Keys == {} && {} * reserved.Keys == {};
      }
    }

    /** The writing half: record the promise under the next reservation number. */
    method Register(utxos: seq<Utxo>, change: nat, expiry: nat) returns (res: Reservation)
      requires Valid() && IdsOf(utxos) !! reserved.Keys
      modifies this`nextIndex, this`reserved, this`reservations
      ensures Valid() && Snapshot() == Grant(old(Snapshot()), utxos, change, expiry)
      ensures res == Reservation(nextIndex, utxos, change, expiry)
    {
      hide Consistent, IdsOf;
      GrantKeepsConsistency(Snapshot(), utxos, change, expiry);
      nextIndex := nextIndex + 1;
      res := Reservation(nextIndex, utxos, change, expiry);
      reservations := reservations[nextIndex := res];
      MarkReserved(utxos);
    }

    /**
     * Granted exactly when the free records, counted in every source, are worth the amount. If an output
     * is free in both sources, it may be promised twice, and its value counts twice.
     */
    method Reserve(q: Query, amount: nat, useUnconfirmed: bool, expiry: nat, height: nat)
      returns (outcome: Outcome, ghost list: seq<Utxo>, ghost idx: seq<nat>)
      requires Valid() && Keyed(standard) && Keyed(unconfirmed)
      requires amount > 0 || NoneFree(q, useUnconfirmed, height)
      requires WorthOfSources(useUnconfirmed) < Word64.LIMIT
      modifies this`nextIndex, this`reserved, this`reservations
      ensures Valid()
      ensures outcome.Granted? <==> old(FreeWorth(q, useUnconfirmed, height)) >= amount
      ensures outcome.Granted? ==>
                var res, free := outcome.res, old(FreeUtxos(q, useUnconfirmed, height));
                && Snapshot() == Grant(old(Snapshot()), res.utxos, res.change, expiry)
                && res == Reservation(nextIndex, res.utxos, res.change, expiry)
                && Total(res.utxos) == amount + res.change
                && old(IsChosen(q, useUnconfirmed, height, amount, list, idx, res.utxos))
                && IdsOf(res.utxos) <= free.first + free.second
                && (NoDuplicates(list) <==> free.first !! free.second)
                && (free.first !! free.second ==> NoDuplicates(res.utxos))
      ensures DistinctSources() ==>
                && (outcome.Granted? <==> old(AvailableWorth(q, useUnconfirmed, height)) >= amount)
                && (outcome.Granted? ==> old(IsGoodChoice(q, useUnconfirmed, height, amount, outcome.res.utxos)))
      ensures outcome.Refused? ==>
                && Snapshot() == old(Snapshot())
                && RefusalIsRight(q, useUnconfirmed, height, amount, outcome.error)
    {
      hide Lists, Descending, IsPick, GoodSelection, Selected, GoodChoice, MatureIds, ImmatureIds, NoDuplicates, IdsOf,
        Consistent;
      ghost var free := FreeUtxos(q, useUnconfirmed, height);
      var error, opt, optAmount;
      error, opt, optAmount, list, idx := Choose(q, amount, useUnconfirmed, height);
      if DistinctSources() {
        FreeIsAvailable(q, useUnconfirmed, height);
        if error.None? {
          ChosenIsGoodChoice(q, useUnconfirmed, height, amount, list, idx, opt);
        }
      }
      if error.Some? {
        return Refused(error.value), list, idx;
      }
      ChosenAreFree(list, free, idx, opt);
      FreeAreUnreserved(q, useUnconfirmed, height);
      var res := Register(opt, optAmount - amount, expiry);
      return Granted(res), list, idx;
    }

    lemma FreeAreUnreserved(q: Query, useUnconfirmed: bool, height: nat)
      ensures var free := FreeUtxos(q, useUnconfirmed, height);
        free.first + free.second !! reserved.Keys
    {
    }

    method MarkReserved(utxos: seq<Utxo>)
      modifies this`reserved
      ensures reserved == Mark(old(reserved), IdsOf(utxos), nextIndex)
    {
      for n := 0 to |utxos|
        invariant reserved == Mark(old(reserved), IdsOf(utxos[..n]), nextIndex)
      {
        assert utxos[..n + 1] == utxos[..n] + [utxos[n]];
        reserved := reserved[utxos[n].outputID := nextIndex];
      }
      assert utxos[..|utxos|] == utxos;
    }

    function FindUtxo(outHash: Hash, useUnconfirmed: bool): Option<Utxo>
      reads this`standard, this`contract, this`unconfirmed
    {
      if useUnconfirmed && outHash in unconfirmed then Some(unconfirmed[outHash])
      else if outHash in standard then Some(standard[outHash])
      else if outHash in contract then Some(contract[outHash])
      else None
    }

    method ReserveParticular(outHash: Hash, useUnconfirmed: bool, expiry: nat, height: nat)
      returns (outcome: Outcome)
      requires Valid() && Keyed(standard) && Keyed(contract) && Keyed(unconfirmed)
      modifies this`nextIndex, this`reserved, this`reservations
      ensures Valid()
      ensures outcome.Granted? <==>
              && outHash !in old(reserved)
              && FindUtxo(outHash, useUnconfirmed).Some?
              && FindUtxo(outHash, useUnconfirmed).value.validHeight <= height
      ensures outcome.Granted? ==>
                && outcome.res == Reservation(nextIndex, [FindUtxo(outHash, useUnconfirmed).value], 0, expiry)
                && Snapshot() == Grant(old(Snapshot()), outcome.res.utxos, 0, expiry)
      ensures outcome.Refused? ==>
                && Snapshot() == old(Snapshot())
                && outcome.error == (if outHash in reserved then AlreadyReserved
                                     else if FindUtxo(outHash, useUnconfirmed).None? then NoSuchUtxo
                                     else Immature)
    {
      if outHash in reserved {
        return Refused(AlreadyReserved);
      }
      var found := FindUtxo(outHash, useUnconfirmed);
      if found.None? {
        return Refused(NoSuchUtxo);
      }
      var u := found.value;
      if u.validHeight > height {
        return Refused(Immature);
      }
      assert IdsOf([u]) == {outHash};
      var res := Register([u], 0, expiry);
      return Granted(res);
    }
  }

  /** Every expired reservation outside rest is gone, and nothing else is. */
  ghost predicate PartlyExpired(before: Table, t: Table, now: nat, rest: set<nat>) {
    && (forall r :: r in t.reservations <==> r in before.reservations && (r in rest || !Expired(before, r, now)))
    && (forall r :: r in t.reservations ==> t.reservations[r] == before.reservations[r])
    && (forall o :: o in t.reserved <==>
          o in before.reserved && (before.reserved[o] in rest || !Expired(before, before.reserved[o], now)))
    && (forall o :: o in t.reserved ==> t.reserved[o] == before.reserved[o])
  }

  lemma RevokedOnly(t: Table, rid: nat)
    requires Consistent(t) && rid in t.reservations
    ensures var t' := Revoke(t, rid);
      && t'.reservations == t.reservations - {rid}
      && forall o :: o in t'.reserved <==> o in t.reserved && t.reserved[o] != rid
    ensures forall o :: o in Revoke(t, rid).reserved ==> Revoke(t, rid).reserved[o] == t.reserved[o]
  {
    forall o | o in t.reserved
      ensures o in Revoke(t, rid).reserved <==> t.reserved[o] != rid
    {
      assert o in IdsOf(t.reservations[rid].utxos) <==> t.reserved[o] == rid;
    }
  }

  lemma ExpireOne(before: Table, t: Table, now: nat, rest: set<nat>, rid: nat)
    requires Consistent(before) && Consistent(t) && PartlyExpired(before, t, now, rest)
    requires rid in rest && rest <= before.reservations.Keys
    ensures PartlyExpired(before, if Expired(t, rid, now) then Revoke(t, rid) else t, now, rest - {rid})
  {
    hide Consistent, Revoke;
    if Expired(t, rid, now) {
      RevokedOnly(t, rid);
    }
  }

  lemma {:induction false} WorthOfAgreeing(ids: set<Hash>, m: map<Hash, Utxo>, m': map<Hash, Utxo>)
    requires ids <= m.Keys && ids <= m'.Keys
    requires forall h :: h in ids ==> m[h] == m'[h]
    ensures Worth(ids, m) == Worth(ids, m')
  {
    if h :| h in ids {
      WorthSplit(ids, m, h);
      WorthSplit(ids, m', h);
      WorthOfAgreeing(ids - {h}, m, m');
    }
  }

  /** One pass over a source of records. */
  method Scan(m: map<Hash, Utxo>, q: Query, height: nat)
    returns (utxos: seq<Utxo>, immatureAmount: nat)
    requires Keyed(m) && Worth(m.Keys, m) < Word64.LIMIT
    ensures Enumerates(utxos, MatureIds(m, q, height), m)
    ensures immatureAmount == Worth(ImmatureIds(m, q, height), m)
  {
    utxos, immatureAmount := [], 0;
    var rest := m.Keys;
    while rest != {}
      invariant rest <= m.Keys
      invariant Enumerates(utxos, MatureIds(m, q, height) - rest, m)
      invariant immatureAmount == Worth(ImmatureIds(m, q, height) - rest, m)
    {
      var h :| h in rest;
      ScanStep(m, q, height, rest, h);
      if Matches(m[h], q) {
        if m[h].validHeight > height {
          immatureAmount := Word64.Add(immatureAmount, m[h].amount);
        } else {
          EnumeratesOneMore(utxos, MatureIds(m, q, height) - rest, m, h);
          utxos := utxos + [m[h]];
        }
      }
      rest := rest - {h};
    }
    assert MatureIds(m, q, height) - rest == MatureIds(m, q, height);
    assert ImmatureIds(m, q, height) - rest == ImmatureIds(m, q, height);
  }

  lemma ScanStep(m: map<Hash, Utxo>, q: Query, height: nat, rest: set<Hash>, h: Hash)
    requires h in rest && rest <= m.Keys
    ensures var mature := MatureIds(m, q, height);
      mature - (rest - {h}) == if h in mature then mature - rest + {h} else mature - rest
    ensures var immature := ImmatureIds(m, q, height);
      && immature - (rest - {h}) == (if h in immature then immature - rest + {h} else immature - rest)
      && Worth(immature - (rest - {h}), m) ==
         Worth(immature - rest, m) + (if h in immature then m[h].amount else 0) <= Worth(m.Keys, m)
  {
    var immature := ImmatureIds(m, q, height);
    var grown := immature - (rest - {h});
    WorthOfSubset(grown, m.Keys, m);
    if h in immature {
      WorthSplit(grown, m, h);
      assert grown - {h} == immature - rest;
    } else {
      assert grown == immature - rest;
    }
  }

  lemma ImmatureIsLess(m: map<Hash, Utxo>, q: Query, height: nat)
    ensures Worth(ImmatureIds(m, q, height), m) <= Worth(m.Keys, m)
  {
    WorthOfSubset(ImmatureIds(m, q, height), m.Keys, m);
  }

  lemma DuplicatesIff(a: seq<Utxo>, b: seq<Utxo>)
    requires NoDuplicates(a) && NoDuplicates(b)
    ensures NoDuplicates(a + b) <==> IdsOf(a) !! IdsOf(b)
  {
    var all := a + b;
    if IdsOf(a) !! IdsOf(b) {
      forall i, k | 0 <= i < k < |all| ensures all[i].outputID != all[k].outputID {
        if i < |a| <= k {
          assert a[i].outputID in IdsOf(a) && b[k - |a|].outputID in IdsOf(b);
        }
      }
    } else {
      var h :| h in IdsOf(a) && h in IdsOf(b);
      var i :| 0 <= i < |a| && a[i].outputID == h;
      var k :| 0 <= k < |b| && b[k].outputID == h;
      assert all[i].outputID == all[|a| + k].outputID;
    }
  }

  /** Set aside what is already promised. */
  method FilterReserved(sorted: seq<Utxo>, reserved: map<Hash, nat>) returns (list: seq<Utxo>, reservedAmount: nat)
    requires Total(sorted) < Word64.LIMIT
    ensures list == Untaken(sorted, reserved.Keys) && reservedAmount == Total(sorted) - Total(list)
  {
    list, reservedAmount := [], 0;
    assert sorted[..0] == [];
    for n := 0 to |sorted|
      invariant list == Untaken(sorted[..n], reserved.Keys)
      invariant reservedAmount == Total(sorted[..n]) - Total(list)
    {
      FilterStep(sorted, n, reserved.Keys);
      if sorted[n].outputID in reserved {
        reservedAmount := Word64.Add(reservedAmount, sorted[n].amount);
      } else {
        list := list + [sorted[n]];
      }
    }
    assert sorted[..|sorted|] == sorted;
  }

  lemma FilterStep(sorted: seq<Utxo>, n: nat, taken: set<Hash>)
    requires n < |sorted|
    ensures var u, before := sorted[n], Untaken(sorted[..n], taken);
      && Untaken(sorted[..n + 1], taken) == (if u.outputID in taken then before else before + [u])
      && Total(sorted[..n + 1]) == Total(sorted[..n]) + u.amount <= Total(sorted)
      && Total(before + [u]) == Total(before) + u.amount
  {
    assert sorted[..n + 1] == sorted[..n] + [sorted[n]] && sorted[..n + 1][..n] == sorted[..n];
    TotalAppend(sorted[..n], sorted[n]);
    TotalAppend(Untaken(sorted[..n], taken), sorted[n]);
    SumAgrees(sorted[..n + 1], sorted, n + 1);
    SumIsMonotonic(sorted, n + 1, |sorted|);
  }

  lemma NothingListed(list: seq<Utxo>, f: Found)
    requires Lists(list, f) && f.first == {} && f.second == {}
    ensures list == []
  {
  }

  lemma SelectionIsBounded(list: seq<Utxo>, amount: nat, idx: seq<nat>, opt: seq<Utxo>)
    requires IsPick(list, |list|, idx, opt) && GoodSelection(list, amount, opt)
    ensures Total(opt) <= Total(list)
    ensures Total(opt) < amount ==> Total(opt) == Total(list)
  {
    PickIsBounded(list, |list|, idx, opt, |opt|, |list|);
  }

  lemma PartsOfSource(m: map<Hash, Utxo>, q: Query, height: nat, taken: set<Hash>)
    ensures var mature, immature := MatureIds(m, q, height), ImmatureIds(m, q, height);
      && Worth(mature, m) == Worth(mature - taken, m) + Worth(mature * taken, m)
      && Worth(mature, m) + Worth(immature, m) <= Worth(m.Keys, m)
  {
    var mature, immature := MatureIds(m, q, height), ImmatureIds(m, q, height);
    WorthUnion(mature - taken, mature * taken, m);
    assert mature - taken + mature * taken == mature;
    WorthUnion(mature, immature, m);
    WorthOfSubset(mature + immature, m.Keys, m);
  }

  lemma ChosenAreFree(list: seq<Utxo>, free: Found, idx: seq<nat>, opt: seq<Utxo>)
    requires Lists(list, free) && IsPick(list, |list|, idx, opt)
    ensures IdsOf(opt) <= free.first + free.second
    ensures NoDuplicates(list) <==> free.first !! free.second
    ensures free.first !! free.second ==> NoDuplicates(opt)
  {
    hide Lists;
    ListsTotal(list, free);
    ListsOnceIff(list, free);
  }

  /** The three comparisons, made on amounts that do not wrap around, find the right outcome. */
  lemma DecisionIsRight(free: nat, promised: nat, immature: nat, amount: nat, optAmount: nat)
    requires free + promised + immature < Word64.LIMIT
    requires optAmount <= free && (optAmount < amount ==> optAmount == free)
    ensures var error := Decide(optAmount, promised, immature, amount);
      && (error.None? ==> optAmount >= amount)
      && (error.None? <==> free >= amount)
      && (error.Some? ==> ExplainsRefusal(free, promised, immature, amount, error.value))
  {
    DecideWithoutWrap(optAmount, promised, immature, amount);
  }

  lemma DecideWithoutWrap(optAmount: nat, reservedAmount: nat, immatureAmount: nat, amount: nat)
    requires optAmount + reservedAmount + immatureAmount < Word64.LIMIT
    ensures Decide(optAmount, reservedAmount, immatureAmount, amount) ==
            if optAmount + reservedAmount + immatureAmount < amount then Some(Insufficient)
            else if optAmount + reservedAmount < amount then Some(Immature)
            else if optAmount < amount then Some(AlreadyReserved)
            else None
  {
  }

  lemma ChoiceIsBounded(m: map<Hash, Utxo>, available: set<Hash>, amount: nat, opt: seq<Utxo>)
    requires available <= m.Keys && GoodChoice(available, m, amount, opt)
    ensures IdsOf(opt) <= available
    ensures Total(opt) <= Worth(available, m)
    ensures Total(opt) < amount ==> Total(opt) == Worth(available, m)
  {
    var chosen := IdsOf(opt);
    DistinctAreEnumerated(opt, m);
    TotalIsWorth(opt, chosen, m);
    WorthOfSubset(chosen, available, m);
  }

  /** An output that is confirmed while the keeper still lists it as unconfirmed is promised twice. */
  method PromisedTwice(u: Utxo) returns (k: Keeper, outcome: Outcome)
    requires u.amount == 5
    ensures outcome.Granted? && outcome.res.utxos == [u, u] && outcome.res.change == 2
    ensures fresh(k) && k.Valid() && k.standard == k.unconfirmed == map[u.outputID := u]
  {
    hide Lists, Selected, GoodSelection, GoodChoice, IsPick, MatureIds, ImmatureIds, Consistent, Worth, Total, Keyed;
    ghost var ids := IdsOf([u]);
    k := new Keeper(map[u.outputID := u], map[]);
    k.AddUnconfirmedUtxo([u]);
    OneRecord(u, k.standard, k.unconfirmed);
    var q := Query(u.accountID, u.assetID, u.vote);
    ghost var list, idx;
    assert k.FreeUtxos(q, true, u.validHeight) == Found(ids, k.standard, ids, k.standard);
    outcome, list, idx := k.Reserve(q, 8, true, 0, u.validHeight);
    assert outcome.Granted?;
    TwiceListed(list, ids, k.standard, u);
    BothSelected(u);
  }

  lemma OneRecord(u: Utxo, standard: map<Hash, Utxo>, unconfirmed: map<Hash, Utxo>)
    requires standard == map[u.outputID := u]
    requires unconfirmed.Keys == {} + IdsOf([u])
    requires IsLastOf([u], 0) ==> unconfirmed[u.outputID] == u
    ensures unconfirmed == standard && Keyed(standard)
    ensures MatureIds(standard, Query(u.accountID, u.assetID, u.vote), u.validHeight) == IdsOf([u]) == standard.Keys
    ensures Worth(standard.Keys, standard) == u.amount && IdsOf([u]) - {} == IdsOf([u])
  {
    assert IdsOf([u]) == {u.outputID};
    WorthSplit({u.outputID}, standard, u.outputID);
  }

  lemma TwiceListed(list: seq<Utxo>, ids: set<Hash>, m: map<Hash, Utxo>, u: Utxo)
    requires ids == {u.outputID} && m == map[u.outputID := u]
    requires Lists(list, Found(ids, m, ids, m))
    ensures list == [u, u]
  {
    var n := |list| - 1;
    var before := list[..n];
    assert list[n] == u && ids - {u.outputID} == {};
    assert Lists(before, Found({}, m, ids, m)) || Lists(before, Found(ids, m, {}, m));
    assert before != [] && before[|before| - 1] == u;
    assert {} - {u.outputID} == {};
    assert Lists(before[..|before| - 1], Found({}, m, {}, m));
    assert before == [u];
  }

  lemma BothSelected(u: Utxo)
    requires u.amount == 5
    ensures Selected([u, u], 0, 8, []) == [u, u] && Total([u, u]) == 10
  {
    assert [] + [u] == [u] && [u] + [u] == [u, u];
    TotalAppend([], u);
    TotalAppend([u], u);
    SelectedStep([u, u], 0, 8, []);
    SelectedStep([u, u], 1, 8, [u]);
    SelectedEnd([u, u], 8, [u, u]);
  }
}
