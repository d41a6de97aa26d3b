/** The four maps of the transaction pool as one value, and what promoting an orphan does to them. */
module TxPoolState {
  /** What an output is. An output id is the hash of the output's entry, so it fixes the kind. */
  datatype Kind = Original | Vote | Retirement

  datatype OutputID = OutputID(kind: Kind, digest: nat)

  type TxID = nat

  datatype Tx = Tx(id: TxID, spent: seq<OutputID>, results: seq<OutputID>)

  datatype Orphan = Orphan(tx: Tx, expiration: nat)

  type Index = map<OutputID, map<TxID, Orphan>>

  datatype State = State(
    pool: map<TxID, Tx>,
    utxo: map<OutputID, Tx>,
    orphans: map<TxID, Orphan>,
    byPrev: Index)

  function Spent(tx: Tx): set<OutputID> {
    set h | h in tx.spent
  }

  function Results(tx: Tx): set<OutputID> {
    set h | h in tx.results
  }

  /** The results that the pool records as spendable: neither votes nor retirements. */
  function Outs(tx: Tx): set<OutputID> {
    Originals(tx.results)
  }

  function Originals(hashes: seq<OutputID>): set<OutputID> {
    set h | h in hashes && h.kind == Original
  }

  predicate Has(byPrev: Index, h: OutputID, o: TxID) {
    h in byPrev && o in byPrev[h]
  }

  function Unindex(byPrev: Index, o: TxID, hs: set<OutputID>): Index {
    map h | h in byPrev && !(h in hs && byPrev[h] - {o} == map[]) ::
      if h in hs then byPrev[h] - {o} else byPrev[h]
  }

  function WithOuts(utxo: map<OutputID, Tx>, tx: Tx): map<OutputID, Tx> {
    Assign(utxo, Outs(tx), tx)
  }

  function Assign(utxo: map<OutputID, Tx>, hs: set<OutputID>, tx: Tx): map<OutputID, Tx> {
    map h | h in utxo.Keys + hs :: if h in hs then tx else utxo[h]
  }

  /** A transaction enters the pool, and the buckets of its results are emptied. */
  function Enter(s: State, tx: Tx): State {
    s.(pool := s.pool[tx.id := tx], utxo := WithOuts(s.utxo, tx), byPrev := s.byPrev - Results(tx))
  }

  /** An orphan leaves the orphans and enters the pool, and the buckets of its results are emptied. */
  function Promote(s: State, tx: Tx): State {
    State(
      s.pool[tx.id := tx],
      WithOuts(s.utxo, tx),
      s.orphans - {tx.id},
      Unindex(s.byPrev - Results(tx), tx.id, Spent(tx)))
  }

  /** What becomes of an orphan that a full pool does not take: it is an orphan no more either. */
  function Lose(s: State, tx: Tx): State {
    Promote(s, tx).(pool := s.pool, utxo := s.utxo)
  }

  /** Every orphan is indexed under exactly the outputs it misses. */
  ghost predicate Exact(s: State, avail: set<OutputID>) {
    forall h, o :: Has(s.byPrev, h, o) <==>
                   o in s.orphans && h in Spent(s.orphans[o].tx) && h !in avail
  }

  /** The same but for what has been cleared, and for orphans that were stranded: those may lack entries. */
  ghost predicate IsIndexed(s: State, cleared: set<OutputID>, stranded: set<TxID>) {
    && (forall h, o :: Has(s.byPrev, h, o) ==>
          o in s.orphans && h in Spent(s.orphans[o].tx) && h !in cleared)
    && (forall h, o :: o in s.orphans && o !in stranded && h in Spent(s.orphans[o].tx) && h !in cleared ==>
          Has(s.byPrev, h, o))
  }

  /** No orphan waits for one of the outputs whose buckets were emptied although they did not appear. */
  ghost predicate NoneStranded(s: State, avail: set<OutputID>, gone: set<OutputID>) {
    forall o :: o in s.orphans ==> Spent(s.orphans[o].tx) * gone <= avail
  }

  /** Records are stored under their ids, no bucket is empty, and an id names one transaction. */
  ghost predicate Tidy(s: State) {
    && (forall h :: h in s.byPrev ==> s.byPrev[h] != map[])
    && (forall h, o :: Has(s.byPrev, h, o) ==> o in s.orphans && s.byPrev[h][o].tx == s.orphans[o].tx)
    && (forall o :: o in s.orphans ==> s.orphans[o].tx.id == o)
    && (forall t :: t in s.pool ==> s.pool[t].id == t)
    && (forall t :: t in s.pool && t in s.orphans ==> s.pool[t] == s.orphans[t].tx)
  }

  /** utxo holds exactly the original outputs of the pooled transactions. */
  ghost predicate OutputsKnown(s: State) {
    && (forall h :: h in s.utxo ==>
          s.utxo[h].id in s.pool && s.pool[s.utxo[h].id] == s.utxo[h] && h in Outs(s.utxo[h]))
    && (forall t :: t in s.pool ==> Outs(s.pool[t]) <= s.utxo.Keys)
  }

  ghost predicate NoneReady(s: State, avail: set<OutputID>, stranded: set<TxID>) {
    forall o :: o in s.orphans && o !in stranded ==> !(Spent(s.orphans[o].tx) <= avail)
  }

  /** The orphans that have lost an entry: those from before, and those that wait for an output that is gone. */
  ghost function NowStranded(
    s: State, avail: set<OutputID>, stranded: set<TxID>, gone: set<OutputID>): set<TxID>
  {
    set o | o in s.orphans && (o in stranded || !(Spent(s.orphans[o].tx) * gone <= avail))
  }

  ghost predicate PoolFunded(s: State, avail: set<OutputID>) {
    forall t :: t in s.pool ==> Spent(s.pool[t]) <= avail
  }

  /** The ids name transactions: a transaction with a known id is the known transaction. */
  ghost predicate Genuine(s: State, tx: Tx) {
    && (tx.id in s.pool ==> s.pool[tx.id] == tx)
    && (tx.id in s.orphans ==> s.orphans[tx.id].tx == tx)
  }

  lemma HasAfterUnindex(byPrev: Index, o: TxID, hs: set<OutputID>, h: OutputID, other: TxID)
    ensures Has(Unindex(byPrev, o, hs), h, other) <==> Has(byPrev, h, other) && !(other == o && h in hs)
  {
    if h in byPrev && other in byPrev[h] && other != o {
      assert other in byPrev[h] - {o};
    }
  }

  /**
   * Promoting a transaction keeps the index exact precisely when no other orphan waits for a result
   * of it that the pool does not record. The bucket of such a result is emptied all the same.
   */
  lemma PromoteKeepsIndexIff(s: State, avail: set<OutputID>, tx: Tx)
    requires Tidy(s) && Exact(s, avail) && Genuine(s, tx)
    ensures Exact(Promote(s, tx), avail + Outs(tx)) <==>
            forall h, o :: Has(s.byPrev, h, o) && h in Results(tx) && o != tx.id ==> h in Outs(tx)
  {
    var s' := Promote(s, tx);
    var avail' := avail + Outs(tx);
    forall h, o
      ensures Has(s'.byPrev, h, o) <==>
              Has(s.byPrev, h, o) && h !in Results(tx) && !(o == tx.id && h in Spent(tx))
    {
      HasAfterUnindex(s.byPrev - Results(tx), tx.id, Spent(tx), h, o);
    }
    if Exact(s', avail') {
      forall h, o | Has(s.byPrev, h, o) && h in Results(tx) && o != tx.id ensures h in Outs(tx) {
        assert !Has(s'.byPrev, h, o);
      }
    }
  }

  lemma EnterKeepsIndexed(s: State, cleared: set<OutputID>, stranded: set<TxID>, tx: Tx)
    requires IsIndexed(s, cleared, stranded)
    ensures IsIndexed(Enter(s, tx), cleared + Results(tx), stranded)
  {
    forall h, o ensures Has(s.byPrev - Results(tx), h, o) <==> Has(s.byPrev, h, o) && h !in Results(tx) {
    }
  }

  /** Whatever its results are, promoting an orphan clears them and nothing else. */
  lemma PromoteKeepsIndexed(s: State, cleared: set<OutputID>, stranded: set<TxID>, tx: Tx)
    requires IsIndexed(s, cleared, stranded) && (tx.id in s.orphans ==> s.orphans[tx.id].tx == tx)
    ensures IsIndexed(Promote(s, tx), cleared + Results(tx), stranded)
    ensures IsIndexed(Lose(s, tx), cleared + Results(tx), stranded)
  {
    var s' := Promote(s, tx);
    forall h, o
      ensures Has(s'.byPrev, h, o) <==>
              Has(s.byPrev, h, o) && h !in Results(tx) && !(o == tx.id && h in Spent(tx))
    {
      HasAfterUnindex(s.byPrev - Results(tx), tx.id, Spent(tx), h, o);
    }
  }

  /** Exactly the orphans that wait for an output that is gone have lost an entry. */
  lemma GoneStrands(s: State, avail: set<OutputID>, stranded: set<TxID>, gone: set<OutputID>)
    requires IsIndexed(s, avail + gone, stranded)
    ensures IsIndexed(s, avail, NowStranded(s, avail, stranded, gone))
    ensures forall o :: o in s.orphans && o !in stranded ==>
              (o in NowStranded(s, avail, stranded, gone) <==> LacksEntry(s, avail, o))
  {
    hide Has;
    forall o | o in s.orphans && o !in stranded
      ensures o in NowStranded(s, avail, stranded, gone) <==> LacksEntry(s, avail, o)
    {
      if !(Spent(s.orphans[o].tx) * gone <= avail) {
        var h :| h in Spent(s.orphans[o].tx) * gone && h !in avail;
        assert !Has(s.byPrev, h, o);
      }
    }
  }

  /** If no orphan was stranded before, the index is exact exactly when none is now. */
  lemma ExactIffNoneStranded(s: State, avail: set<OutputID>, gone: set<OutputID>)
    requires IsIndexed(s, avail + gone, {})
    ensures Exact(s, avail) <==> NowStranded(s, avail, {}, gone) == {}
  {
    hide Has;
    assert Exact(s, avail + gone);
    ExactIff(s, avail, gone);
    if NowStranded(s, avail, {}, gone) == {} {
      forall o | o in s.orphans ensures Spent(s.orphans[o].tx) * gone <= avail {
        assert o !in NowStranded(s, avail, {}, gone);
      }
    }
  }

  ghost predicate LacksEntry(s: State, avail: set<OutputID>, o: TxID)
    requires o in s.orphans
  {
    exists h :: h in Spent(s.orphans[o].tx) && h !in avail && !Has(s.byPrev, h, o)
  }

  /** An index that is exact but for the outputs that are gone is exact when no orphan waits for those. */
  lemma ExactIff(s: State, avail: set<OutputID>, gone: set<OutputID>)
    requires Exact(s, avail + gone)
    ensures Exact(s, avail) <==> NoneStranded(s, avail, gone)
  {
    if Exact(s, avail) {
      forall o, h | o in s.orphans && h in Spent(s.orphans[o].tx) * gone ensures h in avail {
        assert !Has(s.byPrev, h, o);
      }
    }
  }

  /** Losing an orphan keeps the index exact precisely when no other orphan waits for a result of it. */
  lemma LosingKeepsIndexIff(s: State, avail: set<OutputID>, tx: Tx)
    requires Exact(s, avail) && tx.id in s.orphans && s.orphans[tx.id].tx == tx
    ensures Exact(Lose(s, tx), avail) <==>
            forall h, o :: Has(s.byPrev, h, o) && o != tx.id ==> h !in Results(tx)
  {
    PromoteKeepsIndexed(s, avail, {}, tx);
    assert Exact(Lose(s, tx), avail + Results(tx));
    ExactIff(Lose(s, tx), avail, Results(tx));
    if NoneStranded(Lose(s, tx), avail, Results(tx)) {
      forall h, o | Has(s.byPrev, h, o) && o != tx.id ensures h !in Results(tx) {
        assert o in Lose(s, tx).orphans && h in Spent(s.orphans[o].tx);
      }
    } else {
      var o :| o in Lose(s, tx).orphans && !(Spent(s.orphans[o].tx) * Results(tx) <= avail);
      var h :| h in Spent(s.orphans[o].tx) * Results(tx) && h !in avail;
      assert Has(s.byPrev, h, o);
    }
  }

  lemma PromoteKeepsTidy(s: State, tx: Tx)
    requires Tidy(s) && OutputsKnown(s) && Genuine(s, tx)
    requires forall h :: Has(s.byPrev, h, tx.id) ==> h in Spent(tx)
    ensures Tidy(Promote(s, tx)) && OutputsKnown(Promote(s, tx))
    ensures Tidy(Lose(s, tx)) && OutputsKnown(Lose(s, tx))
  {
    var s' := Promote(s, tx);
    forall h, o | Has(s'.byPrev, h, o)
      ensures o in s'.orphans && s'.byPrev[h][o].tx == s'.orphans[o].tx
    {
      assert Has(s.byPrev, h, o);
    }
  }

  lemma EnterKeepsTidy(s: State, tx: Tx)
    requires Tidy(s) && OutputsKnown(s) && Genuine(s, tx)
    ensures Tidy(Enter(s, tx)) && OutputsKnown(Enter(s, tx))
  {
    var s' := Enter(s, tx);
    forall h, o | Has(s'.byPrev, h, o)
      ensures o in s'.orphans && s'.byPrev[h][o].tx == s'.orphans[o].tx
    {
      assert Has(s.byPrev, h, o);
    }
  }
}
