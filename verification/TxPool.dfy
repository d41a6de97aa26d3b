/** The transaction pool: unconfirmed transactions, and orphans that wait for outputs. */
module TxPool {
  import opened TxPoolState
  import opened OrphanClosure

  /** How many transactions the node's pool holds; what is proved holds of every capacity. */
  const MAX_NEW_TX_NUM: nat := 10000
  const MAX_ORPHAN_NUM: nat := 2000
  /** Ten minutes, in nanoseconds. */
  const ORPHAN_TTL: nat := 600_000_000_000

  function IndexUnder(byPrev: Index, hs: set<OutputID>, orphan: Orphan): Index {
    map h | h in byPrev.Keys + hs ::
      if h in hs then Bucket(byPrev, h)[orphan.tx.id := orphan] else byPrev[h]
  }

  function Bucket(byPrev: Index, h: OutputID): map<TxID, Orphan> {
    if h in byPrev then byPrev[h] else map[]
  }

  /**
   * What holds of the pool after every step, given the outputs that can be spent and the orphans that
   * have lost an entry of the index. All others are indexed under exactly what they miss, and miss something.
   */
  ghost predicate Settled(s: State, avail: set<OutputID>, stranded: set<TxID>) {
    && IsKept(s, avail) && stranded <= s.orphans.Keys
    && IsIndexed(s, avail, stranded) && NoneReady(s, avail, stranded)
  }

  function Members(hashes: seq<OutputID>): set<OutputID> {
    set h | h in hashes
  }

  function Ids(queue: seq<Orphan>): set<TxID> {
    set e | e in queue :: e.tx.id
  }

  ghost predicate QueueSound(queue: seq<Orphan>, known: Waiting) {
    forall e :: e in queue ==> e.tx.id in known && known[e.tx.id] == e.tx
  }

  function WaitingOn(byPrev: Index, hs: set<OutputID>): set<TxID> {
    set h, o | h in byPrev && h in hs && o in byPrev[h] :: o
  }

  ghost predicate BucketsSound(byPrev: Index, known: Waiting) {
    forall h, o :: Has(byPrev, h, o) ==>
      o in known && known[o] == byPrev[h][o].tx && byPrev[h][o].tx.id == o
  }

  /** What the worklist starts from: tx has entered, entered are the orphans that are in some bucket. */
  datatype Work = Work(
    known: Waiting, avail0: set<OutputID>, stranded: set<TxID>, tx: Tx, indexed: set<TxID>)

  /** The outputs whose buckets have been emptied since the start. */
  function Gone(w: Work, ids: set<TxID>): set<OutputID> {
    Results(w.tx) + ResultsOf(ids, w.known)
  }

  function IndexedIds(byPrev: Index): set<TxID> {
    set h, o | h in byPrev && o in byPrev[h] :: o
  }

  /**
   * The state of the worklist: p has been promoted since the start and lost was lost to a full pool,
   * every orphan that is ready and was not stranded before waits in the queue, and the index is as
   * it should be but for the buckets that have been emptied.
   */
  ghost predicate Promoting(
    w: Work, s: State, avail: set<OutputID>, p: set<TxID>, lost: set<TxID>, queue: seq<Orphan>)
  {
    && IsKept(s, avail) && IsIndexed(s, avail + Gone(w, p + lost), w.stranded)
    && IsSplit(w, s, avail, p, lost) && IsQueued(w, s, avail, queue)
  }

  ghost predicate IsKept(s: State, avail: set<OutputID>) {
    Tidy(s) && OutputsKnown(s) && PoolFunded(s, avail)
  }

  ghost predicate IsSplit(w: Work, s: State, avail: set<OutputID>, p: set<TxID>, lost: set<TxID>) {
    && p + lost <= Closure(w.known, w.avail0) && p + lost <= w.indexed
    && avail == w.avail0 + OutsOf(p, w.known) && Outs(w.tx) <= w.avail0
    && TxsOf(s.orphans) == w.known - (p + lost) && IndexedIds(s.byPrev) <= w.indexed
    && (forall o :: o in p ==> o in s.pool && s.pool[o] == w.known[o])
    && (forall o :: o in lost ==> o in w.known && o !in p && Spent(w.known[o]) <= avail)
  }

  ghost predicate IsQueued(w: Work, s: State, avail: set<OutputID>, queue: seq<Orphan>) {
    && QueueSound(queue, w.known) && Ids(queue) <= w.indexed
    && (forall o :: o in s.orphans && o !in w.stranded && Spent(s.orphans[o].tx) <= avail ==> o in Ids(queue))
    && (forall o :: o in Ids(queue) && o in s.orphans ==> o !in s.pool)
  }

  /** Orphans are only lost to a full pool. */
  ghost predicate Crowded(size: nat, capacity: nat, lost: set<TxID>) {
    size <= capacity && (lost != {} ==> size == capacity)
  }

  class TxPool {
    /** The outputs that the store's view can spend. */
    const spendable: set<OutputID>
    const capacity: nat
    var pool: map<TxID, Tx>
    var utxo: map<OutputID, Tx>
    var orphans: map<TxID, Orphan>
    var byPrev: Index
    /** The orphans that have lost an entry of the index at some time: nobody may notice when they are ready. */
    ghost var stranded: set<TxID>

    constructor (spendable: set<OutputID>, capacity: nat := MAX_NEW_TX_NUM)
      ensures Valid() && Snapshot() == State(map[], map[], map[], map[])
      ensures this.spendable == spendable && this.capacity == capacity && stranded == {}
    {
      this.spendable, this.capacity, stranded := spendable, capacity, {};
      pool, utxo, orphans, byPrev := map[], map[], map[], map[];
    }

    function Snapshot(): State
      reads this`pool, this`utxo, this`orphans, this`byPrev
    {
      State(pool, utxo, orphans, byPrev)
    }

    function Avail(): set<OutputID>
      reads this`utxo
    {
      spendable + utxo.Keys
    }

    ghost predicate Valid()
      reads this
    {
      Settled(Snapshot(), Avail(), stranded)
    }

    method CheckOrphanUtxos(tx: Tx) returns (hashes: seq<OutputID>)
      ensures Members(hashes) == Spent(tx) - Avail()
    {
      hashes := [];
      for n := 0 to |tx.spent|
        invariant Members(hashes) == Members(tx.spent[..n]) - Avail()
      {
        assert tx.spent[..n + 1] == tx.spent[..n] + [tx.spent[n]];
        MembersAppend(tx.spent[..n], tx.spent[n]);
        if tx.spent[n] !in spendable && tx.spent[n] !in utxo {
          MembersAppend(hashes, tx.spent[n]);
          hashes := hashes + [tx.spent[n]];
        }
      }
      assert tx.spent[..|tx.spent|] == tx.spent;
    }

    method AddOrphan(tx: Tx, requireParents: seq<OutputID>, now: nat) returns (ok: bool)
      modifies this`orphans, this`byPrev
      ensures ok <==> |old(orphans)| < 2000
      ensures !ok ==> Snapshot() == old(Snapshot())
      ensures ok ==>
                var orphan := Orphan(tx, now + 600_000_000_000);
                && orphans == old(orphans)[tx.id := orphan]
                && byPrev == IndexUnder(old(byPrev), Members(requireParents), orphan)
    {
      if |orphans| >= MAX_ORPHAN_NUM {
        return false;
      }
      var orphan := Orphan(tx, now + ORPHAN_TTL);
      orphans := orphans[tx.id := orphan];
      for n := 0 to |requireParents|
        invariant orphans == old(orphans)[tx.id := orphan]
        invariant byPrev == IndexUnder(old(byPrev), Members(requireParents[..n]), orphan)
      {
        var hash := requireParents[n];
        assert requireParents[..n + 1] == requireParents[..n] + [hash];
        MembersAppend(requireParents[..n], hash);
        IndexOneMore(old(byPrev), Members(requireParents[..n]), hash, orphan);
        byPrev := byPrev[hash := Bucket(byPrev, hash)[tx.id := orphan]];
      }
      assert requireParents[..|requireParents|] == requireParents;
      return true;
    }

    method AddTransaction(tx: Tx) returns (ok: bool)
      modifies this`pool, this`utxo
      ensures ok <==> |old(pool)| < capacity
      ensures !ok ==> Snapshot() == old(Snapshot())
      ensures ok ==> pool == old(pool)[tx.id := tx] && utxo == WithOuts(old(utxo), tx)
    {
      if |pool| >= capacity {
        return false;
      }
      pool := pool[tx.id := tx];
      for n := 0 to |tx.results|
        invariant pool == old(pool)[tx.id := tx]
        invariant utxo == Assign(old(utxo), Originals(tx.results[..n]), tx)
      {
        assert tx.results[..n + 1] == tx.results[..n] + [tx.results[n]];
        AssignOneMore(old(utxo), tx.results[..n], tx.results[n], tx);
        if tx.results[n].kind == Original {
          utxo := utxo[tx.results[n] := tx];
        }
      }
      assert tx.results[..|tx.results|] == tx.results;
      return true;
    }

    method RemoveOrphan(id: TxID)
      modifies this`orphans, this`byPrev
      ensures id !in old(orphans) ==> Snapshot() == old(Snapshot())
      ensures id in old(orphans) ==>
                && orphans == old(orphans) - {id}
                && byPrev == Unindex(old(byPrev), id, Spent(old(orphans)[id].tx))
    {
      if id !in orphans {
        return;
      }
      var spent := orphans[id].tx.spent;
      for n := 0 to |spent|
        invariant orphans == old(orphans)
        invariant byPrev == Unindex(old(byPrev), id, Members(spent[..n]))
      {
        assert spent[..n + 1] == spent[..n] + [spent[n]];
        UnindexOneMore(old(byPrev), id, Members(spent[..n]), spent[n]);
        if spent[n] in byPrev {
          var rest := byPrev[spent[n]] - {id};
          byPrev := if rest == map[] then byPrev - {spent[n]} else byPrev[spent[n] := rest];
        }
      }
      assert spent[..|spent|] == spent;
      orphans := orphans - {id};
    }

    /** Move the orphans that wait for a result of tx from their buckets to the queue. */
    method AddRely(tx: Tx, queue: seq<Orphan>, ghost known: Waiting) returns (queue': seq<Orphan>)
      requires BucketsSound(byPrev, known) && QueueSound(queue, known)
      modifies this`byPrev
      ensures byPrev == old(byPrev) - Results(tx)
      ensures queue <= queue' && QueueSound(queue', known)
      ensures Ids(queue') == Ids(queue) + WaitingOn(old(byPrev), Results(tx))
      ensures Results(tx) !! old(byPrev).Keys ==> queue' == queue
    {
      hide Ids, WaitingOn, BucketsSound, QueueSound;
      queue' := queue;
      NoneWaitOnNone(byPrev);
      for n := 0 to |tx.results|
        invariant byPrev == old(byPrev) - Members(tx.results[..n])
        invariant queue <= queue' && QueueSound(queue', known)
        invariant Ids(queue') == Ids(queue) + WaitingOn(old(byPrev), Members(tx.results[..n]))
        invariant Results(tx) !! old(byPrev).Keys ==> queue' == queue
      {
        assert tx.results[..n + 1] == tx.results[..n] + [tx.results[n]];
        var outHash := tx.results[n];
        MembersAppend(tx.results[..n], outHash);
        WaitingOneMore(old(byPrev), Members(tx.results[..n]), outHash, known);
        if outHash in byPrev {
          queue' := Enqueue(queue', byPrev[outHash], known);
          byPrev := byPrev - {outHash};
        }
      }
      assert tx.results[..|tx.results|] == tx.results;
    }

    /** The three steps that move a queued orphan to the pool; a full pool loses it. */
    method PromoteQueued(tx: Tx, queue: seq<Orphan>, ghost known: Waiting) returns (queue': seq<Orphan>)
      requires BucketsSound(byPrev, known) && QueueSound(queue, known)
      requires tx.id in orphans ==> orphans[tx.id].tx == tx
      modifies this`pool, this`utxo, this`orphans, this`byPrev
      ensures queue <= queue' && QueueSound(queue', known)
      ensures Ids(queue') == Ids(queue) + WaitingOn(old(byPrev), Results(tx))
      ensures Results(tx) !! old(byPrev).Keys ==> queue' == queue
      ensures tx.id in old(orphans) ==>
                Snapshot() == if |old(pool)| < capacity then Promote(old(Snapshot()), tx) else Lose(old(Snapshot()), tx)
      ensures tx.id !in old(orphans) ==>
                && orphans == old(orphans) && byPrev == old(byPrev) - Results(tx)
                && pool == (if |old(pool)| < capacity then old(pool)[tx.id := tx] else old(pool))
                && utxo == (if |old(pool)| < capacity then WithOuts(old(utxo), tx) else old(utxo))
    {
      queue' := AddRely(tx, queue, known);
      RemoveOrphan(tx.id);
      var _ := AddTransaction(tx);
    }

    /**
     * Promote the orphans that tx makes available, directly or through other promoted orphans, as far
     * as the pool has room. s is the pool before tx was added to it, avail what could be spent then.
     */
    method ProcessOrphans(tx: Tx, ghost s: State, ghost avail: set<OutputID>)
      returns (ghost p: set<TxID>, ghost lost: set<TxID>)
      requires Settled(s, avail, stranded) && Genuine(s, tx) && Spent(tx) <= avail
      requires Snapshot() == s.(pool := s.pool[tx.id := tx], utxo := WithOuts(s.utxo, tx))
      requires Avail() == avail + Outs(tx) && |pool| <= capacity
      modifies this`pool, this`utxo, this`orphans, this`byPrev
      ensures Processed(StartOf(s, avail, stranded, tx), Snapshot(), Avail(), capacity, p, lost)
      ensures Tracked(s, TxsOf(s.orphans), old(pool), pool, orphans, p, lost)
    {
      hide Tidy, OutputsKnown, IsIndexed, Promoting, Closure, Has, Genuine, OutsOf, Ids, WaitingOn, Tracked,
        TxsOf, Outs, WithOuts, BucketsSound, QueueSound, NoneReady, Spent, Processed, StartOf;
      ghost var w := StartOf(s, avail, stranded, tx);
      p, lost := {}, {};
      StartTracking(s, avail, stranded, tx);
      var queue := AddRely(tx, [], w.known);
      StartPromoting(s, avail, stranded, tx, queue);
      while |queue| > 0
        invariant Promoting(w, Snapshot(), Avail(), p, lost, queue)
        invariant Crowded(|pool|, capacity, lost) && Tracked(s, w.known, old(pool), pool, orphans, p, lost)
        decreases orphans.Keys, |queue|
      {
        queue, p, lost := ProcessQueued(queue, s, w, old(pool), p, lost);
      }
      FinishPromoting(w, Snapshot(), Avail(), capacity, p, lost);
    }

    /** One turn of the worklist: promote the orphan at its head if it misses nothing any more. */
    method ProcessQueued(
      queue: seq<Orphan>, ghost s: State, ghost w: Work, ghost before: map<TxID, Tx>,
      ghost p: set<TxID>, ghost lost: set<TxID>)
      returns (queue': seq<Orphan>, ghost p': set<TxID>, ghost lost': set<TxID>)
      requires queue != [] && Promoting(w, Snapshot(), Avail(), p, lost, queue)
      requires Crowded(|pool|, capacity, lost) && Tracked(s, w.known, before, pool, orphans, p, lost)
      modifies this`pool, this`utxo, this`orphans, this`byPrev
      ensures Promoting(w, Snapshot(), Avail(), p', lost', queue')
      ensures Crowded(|pool|, capacity, lost') && Tracked(s, w.known, before, pool, orphans, p', lost')
      ensures orphans.Keys < old(orphans.Keys) || (orphans == old(orphans) && |queue'| < |queue|)
    {
      hide Tidy, OutputsKnown, IsIndexed, Promoting, Closure, Has, Genuine, OutsOf, Ids, WaitingOn, Tracked;
      ghost var now, availNow := Snapshot(), Avail();
      PromotingFacts(w, now, availNow, p, lost, queue);
      var tx := queue[0].tx;
      p', lost' := p, lost;
      var requireParents := CheckOrphanUtxos(tx);
      if |requireParents| > 0 {
        SomethingMissing(requireParents, Spent(tx), availNow);
        StepSkip(w, now, availNow, p, lost, queue);
        queue' := queue[1..];
        return;
      }
      NothingMissing(requireParents, Spent(tx), availNow);
      queue' := PromoteQueued(tx, queue, w.known);
      if tx.id !in now.orphans {
        StepAgain(w, now, availNow, p, lost, queue, queue');
      } else if |now.pool| < capacity {
        TrackOne(s, w.known, before, now.pool, now.orphans, p, lost, tx);
        KeysCount(now.pool, tx.id, tx);
        StepPromote(w, now, availNow, p, lost, queue, queue');
        p' := p + {tx.id};
        PromoteAvail(spendable, now, tx);
      } else {
        TrackLost(s, w.known, before, now.pool, now.orphans, p, lost, tx);
        StepLose(w, now, availNow, p, lost, queue, queue');
        lost' := lost + {tx.id};
        PromoteAvail(spendable, now, tx);
      }
      queue' := queue'[1..];
    }

    /** The one way into the pool. It keeps the invariant, whatever is sent and in whatever order. */
    method ProcessTransaction(tx: Tx, dust: bool, now: nat)
      returns (isOrphan: bool, full: bool, ghost promoted: set<TxID>, ghost lost: set<TxID>)
      requires Valid() && Genuine(Snapshot(), tx)
      modifies this`pool, this`utxo, this`orphans, this`byPrev, this`stranded
      ensures Valid()
      ensures dust ==> !isOrphan && !full && Snapshot() == old(Snapshot())
      ensures !dust ==> (isOrphan <==> !(Spent(tx) <= old(Avail())))
      ensures dust || isOrphan || full ==> promoted == lost == {}
      ensures dust || full ==> stranded == old(stranded)
      ensures isOrphan ==>
                && (full <==> |old(orphans)| >= 2000)
                && pool == old(pool) && utxo == old(utxo)
                && orphans == (if full then old(orphans) else old(orphans)[tx.id := Orphan(tx, now + ORPHAN_TTL)])
                && (full || stranded == old(stranded) - {tx.id})
      ensures !dust && !isOrphan ==>
                && (full <==> |old(pool)| >= capacity)
                && (full ==> Snapshot() == old(Snapshot()))
      ensures !dust && !isOrphan && !full ==>
                var w := StartOf(old(Snapshot()), old(Avail()), old(stranded), tx);
                var gone := Gone(w, promoted + lost);
                && Tracked(old(Snapshot()), w.known, old(pool)[tx.id := tx], pool, orphans, promoted, lost)
                && Processed(w, Snapshot(), Avail(), capacity, promoted, lost)
                && stranded == NowStranded(Snapshot(), Avail(), old(stranded), gone)
      ensures !dust && !isOrphan && !full && old(stranded) == {} ==>
                var known, before := TxsOf(old(orphans)), old(pool)[tx.id := tx];
                var closure := Closure(known, old(Avail()) + Outs(tx));
                && (lost == {} <==> |before| + |closure| <= capacity)
                && (lost == {} <==> promoted == closure)
                && (stranded == {} <==> Exact(Snapshot(), Avail()))
                && (lost == {} ==>
                      (stranded == {} <==> NoneLeftBehind(StartOf(old(Snapshot()), old(Avail()), {}, tx))))
    {
      hide Tidy, OutputsKnown, IsIndexed, Closure, Has, Genuine, OutsOf, Tracked, NoneReady, PoolFunded, IndexUnder,
        TxsOf, Processed, NowStranded, Gone, Exact, NoneLeftBehind;
      promoted, lost := {}, {};
      if dust {
        return false, false, {}, {};
      }
      ghost var s, avail, before := Snapshot(), Avail(), stranded;
      var requireParents := CheckOrphanUtxos(tx);
      if |requireParents| > 0 {
        SomethingMissing(requireParents, Spent(tx), avail);
        var ok := AddOrphan(tx, requireParents, now);
        if ok {
          AddedOrphanIsSettled(s, avail, before, tx, Members(requireParents), now + ORPHAN_TTL);
          stranded := stranded - {tx.id};
        }
        return true, !ok, {}, {};
      }
      NothingMissing(requireParents, Spent(tx), avail);
      var ok := AddTransaction(tx);
      if !ok {
        return false, true, {}, {};
      }
      promoted, lost := ProcessOrphans(tx, s, avail);
      ghost var w := StartOf(s, avail, before, tx);
      LostIffTooMany(s, w, s.pool[tx.id := tx], Snapshot(), Avail(), capacity, promoted, lost);
      ProcessedIsSettled(w, Snapshot(), Avail(), capacity, promoted, lost);
      if before == {} && lost == {} {
        LeftBehindIff(s, w, s.pool[tx.id := tx], Snapshot(), Avail(), capacity, promoted, lost);
      }
      stranded := NowStranded(Snapshot(), Avail(), before, Gone(w, promoted + lost));
      return false, false, promoted, lost;
    }

    method ExpireOrphan(now: nat)
      requires Valid()
      modifies this`orphans, this`byPrev, this`stranded
      ensures Valid() && stranded == old(stranded) * orphans.Keys
      ensures orphans == map o | o in old(orphans) && old(orphans)[o].expiration >= now :: old(orphans)[o]
    {
      hide Tidy, OutputsKnown, IsIndexed, Has, NoneReady, PoolFunded, Unindex;
      var rest := orphans.Keys;
      while rest != {}
        invariant Valid() && rest <= old(orphans).Keys && stranded == old(stranded) * orphans.Keys
        invariant orphans ==
                  map o | o in old(orphans) && (o in rest || old(orphans)[o].expiration >= now) :: old(orphans)[o]
      {
        var o :| o in rest;
        if o in orphans && orphans[o].expiration < now {
          DroppedOrphanIsSettled(Snapshot(), Avail(), stranded, o);
          RemoveOrphan(o);
          stranded := stranded - {o};
        }
        rest := rest - {o};
      }
    }

    /**
     * A transaction leaves the pool. If no other transaction of the pool has one of its results or spends
     * one that stops being available, the invariant stays; the orphans that spend such a result are stranded.
     */
    method RemoveTransaction(id: TxID)
      requires Tidy(Snapshot())
      modifies this`pool, this`utxo, this`stranded
      ensures Tidy(Snapshot()) && pool == old(pool) - {id}
      ensures utxo == if id in old(pool) then old(utxo) - Results(old(pool)[id]) else old(utxo)
      ensures stranded == old(stranded) + if id in old(pool) then Deprived(old(Snapshot()), spendable, id) else {}
      ensures old(Valid()) && id in old(pool) && IsSpare(old(Snapshot()), spendable, id) ==> Valid()
      ensures old(Valid()) && id !in old(pool) ==> Valid()
    {
      if id !in pool {
        assert pool - {id} == pool;
        return;
      }
      hide IsSpare, Deprived, Settled;
      var results := pool[id].results;
      for n := 0 to |results|
        invariant pool == old(pool) && utxo == old(utxo) - Members(results[..n]) && stranded == old(stranded)
      {
        assert results[..n + 1] == results[..n] + [results[n]];
        MembersAppend(results[..n], results[n]);
        utxo := utxo - {results[n]};
      }
      assert results[..|results|] == results;
      stranded := stranded + Deprived(old(Snapshot()), spendable, id);
      pool := pool - {id};
      assert Snapshot() == Without(old(Snapshot()), id);
      if old(Valid()) && IsSpare(old(Snapshot()), spendable, id) {
        RemovalIsSettled(old(Snapshot()), spendable, old(stranded), id);
      }
    }
  }

  /** The results of a pooled transaction that stop being available with it. */
  function Vanishing(s: State, spendable: set<OutputID>, id: TxID): set<OutputID>
    requires id in s.pool
  {
    s.utxo.Keys * Results(s.pool[id]) - spendable
  }

  ghost function Deprived(s: State, spendable: set<OutputID>, id: TxID): set<TxID>
    requires id in s.pool
  {
    set o | o in s.orphans && !(Spent(s.orphans[o].tx) !! Vanishing(s, spendable, id))
  }

  /** Nobody else in the pool needs it. */
  ghost predicate IsSpare(s: State, spendable: set<OutputID>, id: TxID)
    requires id in s.pool
  {
    forall t :: t in s.pool && t != id ==>
      Results(s.pool[t]) !! Results(s.pool[id]) && Spent(s.pool[t]) !! Vanishing(s, spendable, id)
  }

  function Without(s: State, id: TxID): State
    requires id in s.pool
  {
    s.(pool := s.pool - {id}, utxo := s.utxo - Results(s.pool[id]))
  }

  lemma RemovalIsSettled(s: State, spendable: set<OutputID>, stranded: set<TxID>, id: TxID)
    requires Settled(s, spendable + s.utxo.Keys, stranded) && id in s.pool && IsSpare(s, spendable, id)
    ensures Settled(
              Without(s, id), spendable + Without(s, id).utxo.Keys, stranded + Deprived(s, spendable, id))
  {
    hide IsIndexed, OutputsKnown, Tidy, PoolFunded, NoneReady, Deprived;
    RemovalKeepsOthers(s, spendable, id);
    RemovalKeepsIndexed(s, spendable, stranded, id);
    RemovalMakesNoneReady(s, spendable, stranded, id);
    DeprivedAreOrphans(s, spendable, id);
  }

  lemma RemovalKeepsOthers(s: State, spendable: set<OutputID>, id: TxID)
    requires IsKept(s, spendable + s.utxo.Keys) && id in s.pool && IsSpare(s, spendable, id)
    ensures IsKept(Without(s, id), spendable + Without(s, id).utxo.Keys)
  {
    RemovalKeepsOutputs(s, s.pool[id]);
    hide OutputsKnown;
    forall t | t in s.pool && t != id ensures Spent(s.pool[t]) <= spendable + Without(s, id).utxo.Keys {
    }
  }

  lemma RemovalMakesNoneReady(s: State, spendable: set<OutputID>, stranded: set<TxID>, id: TxID)
    requires NoneReady(s, spendable + s.utxo.Keys, stranded) && id in s.pool
    ensures NoneReady(Without(s, id), spendable + Without(s, id).utxo.Keys, stranded + Deprived(s, spendable, id))
  {
    hide Spent;
  }

  lemma DeprivedAreOrphans(s: State, spendable: set<OutputID>, id: TxID)
    requires id in s.pool
    ensures Deprived(s, spendable, id) <= s.orphans.Keys
  {
  }

  lemma RemovalKeepsIndexed(s: State, spendable: set<OutputID>, stranded: set<TxID>, id: TxID)
    requires IsIndexed(s, spendable + s.utxo.Keys, stranded) && id in s.pool
    ensures IsIndexed(
              Without(s, id), spendable + Without(s, id).utxo.Keys, stranded + Deprived(s, spendable, id))
  {
    hide Has;
    var avail, avail' := spendable + s.utxo.Keys, spendable + Without(s, id).utxo.Keys;
    forall h | h !in avail' ensures h !in avail || h in Vanishing(s, spendable, id) {
    }
    forall o | o in s.orphans && o !in stranded + Deprived(s, spendable, id)
      ensures Spent(s.orphans[o].tx) !! Vanishing(s, spendable, id)
    {
      assert o !in Deprived(s, spendable, id);
    }
  }

  method Enqueue(queue: seq<Orphan>, bucket: map<TxID, Orphan>, ghost known: Waiting)
    returns (queue': seq<Orphan>)
    requires QueueSound(queue, known)
    requires forall o :: o in bucket ==> o in known && known[o] == bucket[o].tx && bucket[o].tx.id == o
    ensures queue <= queue' && QueueSound(queue', known)
    ensures Ids(queue') == Ids(queue) + bucket.Keys
  {
    queue' := queue;
    var rest := bucket.Keys;
    while rest != {}
      invariant rest <= bucket.Keys
      invariant queue <= queue' && QueueSound(queue', known)
      invariant Ids(queue') == Ids(queue) + (bucket.Keys - rest)
    {
      var o :| o in rest;
      IdsAppend(queue', bucket[o]);
      queue' := queue' + [bucket[o]];
      rest := rest - {o};
    }
  }

  lemma IdsAppend(queue: seq<Orphan>, e: Orphan)
    ensures Ids(queue + [e]) == Ids(queue) + {e.tx.id}
    ensures forall known :: QueueSound(queue, known) && e.tx.id in known && known[e.tx.id] == e.tx ==>
              QueueSound(queue + [e], known)
  {
    forall f | f in queue ensures f in queue + [e] {
    }
    assert e in queue + [e];
  }

  lemma MembersAppend(hashes: seq<OutputID>, h: OutputID)
    ensures Members(hashes + [h]) == Members(hashes) + {h}
  {
  }

  lemma AssignOneMore(utxo: map<OutputID, Tx>, hashes: seq<OutputID>, h: OutputID, tx: Tx)
    ensures Assign(utxo, Originals(hashes + [h]), tx) ==
            if h.kind == Original then Assign(utxo, Originals(hashes), tx)[h := tx]
            else Assign(utxo, Originals(hashes), tx)
  {
    assert Originals(hashes + [h]) == Originals(hashes) + if h.kind == Original then {h} else {};
  }

  lemma IndexOneMore(byPrev: Index, hs: set<OutputID>, h: OutputID, orphan: Orphan)
    ensures var once := IndexUnder(byPrev, hs, orphan);
      IndexUnder(byPrev, hs + {h}, orphan) == once[h := Bucket(once, h)[orphan.tx.id := orphan]]
  {
    var once := IndexUnder(byPrev, hs, orphan);
    var bucket: map<TxID, Orphan> := Bucket(byPrev, h);
    assert bucket[orphan.tx.id := orphan][orphan.tx.id := orphan] == bucket[orphan.tx.id := orphan];
    assert IndexUnder(byPrev, hs + {h}, orphan).Keys == once.Keys + {h};
  }

  lemma UnindexOneMore(byPrev: Index, o: TxID, hs: set<OutputID>, h: OutputID)
    ensures var once := Unindex(byPrev, o, hs);
      Unindex(byPrev, o, hs + {h}) ==
        if h !in once then once
        else if once[h] - {o} == map[] then once - {h}
        else once[h := once[h] - {o}]
  {
    var once := Unindex(byPrev, o, hs);
    if h in once && h in hs {
      assert byPrev[h] - {o} - {o} == byPrev[h] - {o};
    }
  }

  lemma IdsTail(queue: seq<Orphan>, known: Waiting)
    requires queue != []
    ensures Ids(queue) == Ids(queue[1..]) + {queue[0].tx.id}
    ensures QueueSound(queue, known) ==> QueueSound(queue[1..], known)
  {
    assert queue == [queue[0]] + queue[1..];
  }

  /** As long as nothing is lost, an original output whose bucket was emptied has appeared. */
  ghost predicate IsRecorded(gone: set<OutputID>, avail: set<OutputID>) {
    forall h :: h in gone && h.kind == Original ==> h in avail
  }

  lemma GoneIsRecorded(w: Work, s: State, avail: set<OutputID>, p: set<TxID>, lost: set<TxID>)
    requires IsSplit(w, s, avail, p, lost) && lost == {}
    ensures IsRecorded(Gone(w, p + lost), avail)
  {
    hide Closure;
    forall h | h in Gone(w, p + lost) && h.kind == Original ensures h in avail {
      if h !in Results(w.tx) {
        var o :| o in p + lost && o in w.known && h in Results(w.known[o]);
        assert h in Outs(w.known[o]) && h in OutsOf(p, w.known);
      } else {
        assert h in Outs(w.tx);
      }
    }
  }

  lemma NewlyReadyWait(
    s: State, avail: set<OutputID>, gone: set<OutputID>, stranded: set<TxID>, tx: Tx, o: TxID)
    requires IsIndexed(s, avail + gone, stranded) && IsRecorded(gone, avail) && o in s.orphans && o !in stranded
    requires Spent(s.orphans[o].tx) <= avail + Outs(tx) && !(Spent(s.orphans[o].tx) <= avail)
    ensures o in WaitingOn(s.byPrev, Results(tx))
  {
    var h :| h in Spent(s.orphans[o].tx) && h !in avail;
    assert Has(s.byPrev, h, o);
    assert h in Results(tx);
  }

  lemma NoneWaitOnNone(byPrev: Index)
    ensures WaitingOn(byPrev, Members([])) == {} && byPrev - Members([]) == byPrev
  {
  }

  lemma WaitingOneMore(byPrev: Index, hs: set<OutputID>, h: OutputID, known: Waiting)
    requires BucketsSound(byPrev, known)
    ensures WaitingOn(byPrev, hs + {h}) == WaitingOn(byPrev, hs) + if h in byPrev then byPrev[h].Keys else {}
    ensures h in byPrev && h in hs ==> byPrev[h].Keys <= WaitingOn(byPrev, hs)
    ensures byPrev - (hs + {h}) == byPrev - hs - {h}
    ensures h in byPrev ==>
              forall o :: o in byPrev[h] ==> o in known && known[o] == byPrev[h][o].tx && byPrev[h][o].tx.id == o
  {
    if h in byPrev {
      forall o | o in byPrev[h] ensures o in known && known[o] == byPrev[h][o].tx && byPrev[h][o].tx.id == o {
        assert Has(byPrev, h, o);
      }
    }
  }

  lemma OneMore(p: set<TxID>, o: TxID, known: Waiting)
    requires o in known
    ensures OutsOf(p + {o}, known) == OutsOf(p, known) + Outs(known[o])
    ensures ResultsOf(p + {o}, known) == ResultsOf(p, known) + Results(known[o])
  {
  }

  function StartOf(s: State, avail: set<OutputID>, stranded: set<TxID>, tx: Tx): Work {
    Work(TxsOf(s.orphans), avail + Outs(tx), stranded, tx, IndexedIds(s.byPrev))
  }

  /** What the worklist's calls need to know about its state. */
  lemma PromotingFacts(
    w: Work, s: State, avail: set<OutputID>, p: set<TxID>, lost: set<TxID>, queue: seq<Orphan>)
    requires Promoting(w, s, avail, p, lost, queue)
    ensures BucketsSound(s.byPrev, w.known) && QueueSound(queue, w.known) && IndexedIds(s.byPrev) <= w.indexed
    ensures queue != [] ==>
              var tx := queue[0].tx;
              && tx.id in w.known && w.known[tx.id] == tx && tx.id in w.indexed
              && (tx.id in s.orphans ==> s.orphans[tx.id].tx == tx && tx.id !in s.pool)
              && (tx.id !in s.orphans ==> tx.id in lost || (tx.id in p && tx.id in s.pool && s.pool[tx.id] == tx))
  {
    hide Closure, OutsOf, Outs, Spent, Gone, IsIndexed;
    forall h, o | Has(s.byPrev, h, o)
      ensures o in w.known && w.known[o] == s.byPrev[h][o].tx && s.byPrev[h][o].tx.id == o
    {
      assert o in TxsOf(s.orphans);
    }
    if queue != [] {
      assert queue[0] in queue && queue[0].tx.id in Ids(queue);
      assert queue[0].tx.id !in s.orphans ==> queue[0].tx.id !in TxsOf(s.orphans);
      assert queue[0].tx.id in s.orphans ==> queue[0].tx.id in TxsOf(s.orphans);
    }
  }

  /**
   * How far the worklist has come: p has moved from the orphans to the pool, lost is in neither, the
   * rest is as it was.
   */
  ghost predicate Tracked(
    s: State, known: Waiting, before: map<TxID, Tx>, pool: map<TxID, Tx>, orphans: map<TxID, Orphan>,
    p: set<TxID>, lost: set<TxID>)
  {
    && p <= known.Keys && lost <= known.Keys && p !! lost && orphans == s.orphans - (p + lost)
    && before.Keys !! p && pool.Keys == before.Keys + p
    && (forall t :: t in before ==> pool[t] == before[t])
    && (forall o :: o in p ==> pool[o] == known[o])
  }

  /**
   * The worklist has ended. Only orphans of the closure that were in some bucket have left, into the pool
   * or lost to it; unless some were lost, these are all that can be reached without stranded ones. No
   * other orphan is ready, and the index is as it should be but for the buckets that were emptied.
   */
  ghost predicate Processed(
    w: Work, s: State, avail: set<OutputID>, capacity: nat, p: set<TxID>, lost: set<TxID>)
  {
    && p + lost <= Closure(w.known, w.avail0) && p + lost <= w.indexed
    && avail == w.avail0 + OutsOf(p, w.known)
    && Crowded(|s.pool|, capacity, lost)
    && (lost == {} ==> Closure(w.known - w.stranded, w.avail0) <= p)
    && (forall o :: o in lost ==> o in w.known && Spent(w.known[o]) <= avail)
    && IsKept(s, avail) && NoneReady(s, avail, w.stranded)
    && IsIndexed(s, avail + Gone(w, p + lost), w.stranded)
  }

  lemma ProcessedIsSettled(
    w: Work, s: State, avail: set<OutputID>, capacity: nat, p: set<TxID>, lost: set<TxID>)
    requires Processed(w, s, avail, capacity, p, lost)
    ensures Settled(s, avail, NowStranded(s, avail, w.stranded, Gone(w, p + lost)))
    ensures w.stranded == {} ==>
              (Exact(s, avail) <==> NowStranded(s, avail, w.stranded, Gone(w, p + lost)) == {})
  {
    hide Closure, Gone, IsIndexed, OutsOf, Spent, IsKept, Exact;
    GoneStrands(s, avail, w.stranded, Gone(w, p + lost));
    if w.stranded == {} {
      ExactIffNoneStranded(s, avail, Gone(w, p + lost));
    }
  }

  /**
   * No orphan outside the closure waits for a result of the transaction or of the closure that is not
   * recorded. This looks only at what is there before the call.
   */
  ghost predicate NoneLeftBehind(w: Work) {
    var closure := Closure(w.known, w.avail0);
    forall o :: o in w.known && o !in closure ==>
      Spent(w.known[o]) * Gone(w, closure) <= w.avail0 + OutsOf(closure, w.known)
  }

  lemma LeftAre(orphans: map<TxID, Orphan>, ids: set<TxID>)
    ensures forall o :: o in orphans - ids <==> o in TxsOf(orphans) && o !in ids
    ensures forall o :: o in orphans ==> TxsOf(orphans)[o] == orphans[o].tx
  {
  }

  /** When the whole closure finds room, whether an orphan is stranded could be seen before. */
  lemma LeftBehindIff(
    s0: State, w: Work, before: map<TxID, Tx>, s: State, avail: set<OutputID>, capacity: nat,
    p: set<TxID>, lost: set<TxID>)
    requires Processed(w, s, avail, capacity, p, lost) && Tracked(s0, w.known, before, s.pool, s.orphans, p, lost)
    requires w.known == TxsOf(s0.orphans) && w.stranded == {} && lost == {}
    ensures NowStranded(s, avail, w.stranded, Gone(w, p + lost)) == {} <==> NoneLeftBehind(w)
  {
    hide OutsOf, Gone, IsIndexed, IsKept, NoneReady, Spent, Closure;
    LostIffTooMany(s0, w, before, s, avail, capacity, p, lost);
    var closure := Closure(w.known, w.avail0);
    assert p + lost == closure;
    LeftAre(s0.orphans, closure);
    hide TxsOf, Tracked, Processed;
    if NowStranded(s, avail, w.stranded, Gone(w, p + lost)) == {} {
      forall o | o in w.known && o !in closure
        ensures Spent(w.known[o]) * Gone(w, closure) <= w.avail0 + OutsOf(closure, w.known)
      {
        assert o !in NowStranded(s, avail, w.stranded, Gone(w, p + lost));
      }
    }
  }

  lemma StartTracking(s: State, avail: set<OutputID>, stranded: set<TxID>, tx: Tx)
    requires Settled(s, avail, stranded) && Spent(tx) <= avail && Genuine(s, tx)
    ensures BucketsSound(s.byPrev, TxsOf(s.orphans)) && StartOf(s, avail, stranded, tx).known == TxsOf(s.orphans)
    ensures QueueSound([], TxsOf(s.orphans)) && Ids([]) == {}
    ensures Tracked(s, TxsOf(s.orphans), s.pool[tx.id := tx], s.pool[tx.id := tx], s.orphans, {}, {})
  {
    hide IsIndexed, NoneReady, PoolFunded, OutputsKnown;
    assert s.orphans - ({} + {}) == s.orphans;
    assert TxsOf(s.orphans).Keys == s.orphans.Keys;
  }

  lemma TrackOne(
    s: State, known: Waiting, before: map<TxID, Tx>, pool: map<TxID, Tx>, orphans: map<TxID, Orphan>,
    p: set<TxID>, lost: set<TxID>, tx: Tx)
    requires Tracked(s, known, before, pool, orphans, p, lost)
    requires tx.id in orphans && tx.id in known && known[tx.id] == tx && tx.id !in pool
    ensures Tracked(s, known, before, pool[tx.id := tx], orphans - {tx.id}, p + {tx.id}, lost)
  {
    MinusMinus(s.orphans, p + lost, tx.id);
    assert p + lost + {tx.id} == p + {tx.id} + lost;
    assert tx.id !in lost;
    assert pool[tx.id := tx].Keys == before.Keys + (p + {tx.id});
  }

  lemma KeysCount<V>(m: map<TxID, V>, o: TxID, v: V)
    requires o !in m
    ensures |m[o := v]| == |m| + 1
  {
    assert m[o := v].Keys == m.Keys + {o};
    assert |m[o := v]| == |m[o := v].Keys| && |m| == |m.Keys|;
  }

  lemma TrackLost(
    s: State, known: Waiting, before: map<TxID, Tx>, pool: map<TxID, Tx>, orphans: map<TxID, Orphan>,
    p: set<TxID>, lost: set<TxID>, tx: Tx)
    requires Tracked(s, known, before, pool, orphans, p, lost)
    requires tx.id in orphans && tx.id in known
    ensures Tracked(s, known, before, pool, orphans - {tx.id}, p, lost + {tx.id})
  {
    MinusMinus(s.orphans, p + lost, tx.id);
    assert p + lost + {tx.id} == p + (lost + {tx.id});
  }

  lemma MinusMinus<V>(m: map<TxID, V>, p: set<TxID>, o: TxID)
    ensures m - p - {o} == m - (p + {o})
  {
  }

  lemma TxsOfMinus(orphans: map<TxID, Orphan>, o: TxID)
    ensures TxsOf(orphans - {o}) == TxsOf(orphans) - {o}
  {
  }

  lemma NothingMissing(hashes: seq<OutputID>, spent: set<OutputID>, avail: set<OutputID>)
    requires hashes == [] && Members(hashes) == spent - avail
    ensures spent <= avail
  {
    forall h | h in spent ensures h in avail {
      assert h !in spent - avail;
    }
  }

  lemma SomethingMissing(hashes: seq<OutputID>, spent: set<OutputID>, avail: set<OutputID>)
    requires hashes != [] && Members(hashes) == spent - avail
    ensures !(spent <= avail) && Members(hashes) != {}
  {
    assert hashes[0] in Members(hashes);
  }

  lemma PromoteAvail(spendable: set<OutputID>, s: State, tx: Tx)
    ensures spendable + Promote(s, tx).utxo.Keys == spendable + s.utxo.Keys + Outs(tx)
    ensures Lose(s, tx).orphans == Promote(s, tx).orphans
    ensures tx.id in s.orphans ==> Promote(s, tx).orphans.Keys < s.orphans.Keys
  {
  }

  lemma StartPromoting(s: State, avail: set<OutputID>, stranded: set<TxID>, tx: Tx, queue: seq<Orphan>)
    requires Settled(s, avail, stranded) && Genuine(s, tx) && Spent(tx) <= avail
    requires QueueSound(queue, TxsOf(s.orphans)) && Ids(queue) == WaitingOn(s.byPrev, Results(tx))
    ensures Promoting(StartOf(s, avail, stranded, tx), Enter(s, tx), avail + Outs(tx), {}, {}, queue)
  {
    hide IsKept, IsIndexed, IsSplit, IsQueued, Settled, Has, Gone;
    var w, s', avail' := StartOf(s, avail, stranded, tx), Enter(s, tx), avail + Outs(tx);
    EnteredIsKept(s, avail, stranded, tx);
    EnterKeepsIndexed(s, avail, stranded, tx);
    assert IsIndexed(s', avail' + Gone(w, {} + {}), stranded) by { GoneAtFirst(w, avail); }
    StartsSplit(s, avail, stranded, tx);
    StartsQueued(s, avail, stranded, tx, queue);
  }

  lemma GoneAtFirst(w: Work, avail: set<OutputID>)
    ensures Gone(w, {} + {}) == Results(w.tx)
    ensures avail + Outs(w.tx) + Results(w.tx) == avail + Results(w.tx)
  {
  }

  lemma EnteredIsKept(s: State, avail: set<OutputID>, stranded: set<TxID>, tx: Tx)
    requires Settled(s, avail, stranded) && Genuine(s, tx) && Spent(tx) <= avail
    ensures IsKept(Enter(s, tx), avail + Outs(tx)) && IsIndexed(s, avail, stranded)
  {
    hide IsIndexed, NoneReady, Has;
    EnterKeepsTidy(s, tx);
  }

  lemma StartsSplit(s: State, avail: set<OutputID>, stranded: set<TxID>, tx: Tx)
    ensures IsSplit(StartOf(s, avail, stranded, tx), Enter(s, tx), avail + Outs(tx), {}, {})
  {
    hide Closure;
    var known := TxsOf(s.orphans);
    assert known - ({} + {}) == known && OutsOf({}, known) == {};
  }

  lemma StartsQueued(s: State, avail: set<OutputID>, stranded: set<TxID>, tx: Tx, queue: seq<Orphan>)
    requires Settled(s, avail, stranded) && Genuine(s, tx) && Spent(tx) <= avail
    requires QueueSound(queue, TxsOf(s.orphans)) && Ids(queue) == WaitingOn(s.byPrev, Results(tx))
    ensures IsQueued(StartOf(s, avail, stranded, tx), Enter(s, tx), avail + Outs(tx), queue)
  {
    hide QueueSound, Ids, WithOuts, OutputsKnown;
    forall o | o in s.orphans && o !in stranded && Spent(s.orphans[o].tx) <= avail + Outs(tx) ensures o in Ids(queue) {
      assert avail + {} == avail;
      NewlyReadyWait(s, avail, {}, stranded, tx, o);
    }
    forall o | o in Ids(queue) ensures o in s.orphans && o !in s.pool && o != tx.id && o in IndexedIds(s.byPrev) {
      WaitingMissSomething(s, avail, Results(tx), stranded, avail, o);
    }
  }

  /** An orphan in a bucket misses something, so it is neither in the pool nor any transaction that is ready. */
  lemma WaitingMissSomething(
    s: State, avail: set<OutputID>, hs: set<OutputID>, stranded: set<TxID>, cleared: set<OutputID>, o: TxID)
    requires IsIndexed(s, cleared, stranded) && avail <= cleared && o in WaitingOn(s.byPrev, hs)
    ensures o in s.orphans && !(Spent(s.orphans[o].tx) <= avail) && o in IndexedIds(s.byPrev)
    ensures Tidy(s) && PoolFunded(s, avail) ==> o !in s.pool
  {
    var h :| h in s.byPrev && h in hs && o in s.byPrev[h];
    assert Has(s.byPrev, h, o);
  }

  lemma StepSkip(
    w: Work, s: State, avail: set<OutputID>, p: set<TxID>, lost: set<TxID>, queue: seq<Orphan>)
    requires Promoting(w, s, avail, p, lost, queue) && queue != []
    requires !(Spent(queue[0].tx) <= avail)
    ensures Promoting(w, s, avail, p, lost, queue[1..])
  {
    PromotingFacts(w, s, avail, p, lost, queue);
    hide IsKept, IsSplit, IsIndexed, Gone, Ids, QueueSound;
    IdsTail(queue, w.known);
  }

  lemma StepPromote(
    w: Work, s: State, avail: set<OutputID>, p: set<TxID>, lost: set<TxID>, queue: seq<Orphan>, queue': seq<Orphan>)
    requires Promoting(w, s, avail, p, lost, queue) && queue != [] && lost == {}
    requires Spent(queue[0].tx) <= avail && queue[0].tx.id in s.orphans
    requires queue <= queue' && QueueSound(queue', w.known)
    requires Ids(queue') == Ids(queue) + WaitingOn(s.byPrev, Results(queue[0].tx))
    ensures var tx := queue[0].tx;
      Promoting(w, Promote(s, tx), avail + Outs(tx), p + {tx.id}, lost, queue'[1..])
  {
    hide IsKept, IsSplit, IsQueued, IsIndexed, Has, OutsOf, Closure, WaitingOn, Promote, Spent, Ids, QueueSound, Gone;
    var tx := queue[0].tx;
    PromotingFacts(w, s, avail, p, lost, queue);
    var gone := Gone(w, p + lost);
    PromotedIsKept(s, avail, avail + gone, w.stranded, tx);
    PromoteKeepsIndexed(s, avail + gone, w.stranded, tx);
    assert p + {tx.id} + lost == p + lost + {tx.id};
    GoneGrows(w, p + lost, tx, avail);
    SplitPromotes(w, s, avail, p, lost, tx);
    GoneIsRecorded(w, s, avail, p, lost);
    ReadyAreQueued(w, s, avail, gone, tx, queue, queue');
  }

  lemma GoneGrows(w: Work, ids: set<TxID>, tx: Tx, avail: set<OutputID>)
    requires tx.id in w.known && w.known[tx.id] == tx
    ensures Gone(w, ids + {tx.id}) == Gone(w, ids) + Results(tx)
    ensures avail + Outs(tx) + Gone(w, ids + {tx.id}) == avail + Gone(w, ids) + Results(tx)
    ensures avail + Gone(w, ids + {tx.id}) == avail + Gone(w, ids) + Results(tx)
  {
    OneMore(ids, tx.id, w.known);
  }

  lemma PromotedIsKept(s: State, avail: set<OutputID>, cleared: set<OutputID>, stranded: set<TxID>, tx: Tx)
    requires IsKept(s, avail) && IsIndexed(s, cleared, stranded) && Spent(tx) <= avail
    requires tx.id in s.orphans && s.orphans[tx.id].tx == tx && tx.id !in s.pool
    ensures IsKept(Promote(s, tx), avail + Outs(tx)) && IsKept(Lose(s, tx), avail)
  {
    forall h | Has(s.byPrev, h, tx.id) ensures h in Spent(tx) {
    }
    hide IsIndexed, Has, Spent;
    PromoteKeepsTidy(s, tx);
  }

  lemma IndexedShrink(s: State, tx: Tx)
    ensures IndexedIds(Promote(s, tx).byPrev) <= IndexedIds(s.byPrev)
  {
    hide WithOuts;
    forall o | o in IndexedIds(Promote(s, tx).byPrev) ensures o in IndexedIds(s.byPrev) {
      var h :| h in Promote(s, tx).byPrev && o in Promote(s, tx).byPrev[h];
      assert h in s.byPrev && o in s.byPrev[h];
    }
  }

  lemma SplitPromotes(w: Work, s: State, avail: set<OutputID>, p: set<TxID>, lost: set<TxID>, tx: Tx)
    requires IsSplit(w, s, avail, p, lost) && lost == {} && tx.id in w.indexed
    requires tx.id in w.known && w.known[tx.id] == tx && Spent(tx) <= avail
    ensures IsSplit(w, Promote(s, tx), avail + Outs(tx), p + {tx.id}, lost)
  {
    hide OutsOf, Closure, Spent, Outs, Unindex, WithOuts, IndexedIds;
    MoreIsReady(w.known, w.avail0, p, tx.id);
    OneMore(p, tx.id, w.known);
    TxsOfMinus(s.orphans, tx.id);
    IndexedShrink(s, tx);
    assert p + {tx.id} + lost == p + lost + {tx.id};
    MinusMinus(w.known, p + lost, tx.id);
  }

  /** A full pool: the head leaves the orphans, and what waits for its results leaves the index. */
  lemma StepLose(
    w: Work, s: State, avail: set<OutputID>, p: set<TxID>, lost: set<TxID>, queue: seq<Orphan>, queue': seq<Orphan>)
    requires Promoting(w, s, avail, p, lost, queue) && queue != []
    requires Spent(queue[0].tx) <= avail && queue[0].tx.id in s.orphans
    requires queue <= queue' && QueueSound(queue', w.known)
    requires Ids(queue') == Ids(queue) + WaitingOn(s.byPrev, Results(queue[0].tx))
    ensures var tx := queue[0].tx;
      Promoting(w, Lose(s, tx), avail, p, lost + {tx.id}, queue'[1..])
  {
    hide IsKept, IsSplit, IsQueued, IsIndexed, Has, OutsOf, Closure, WaitingOn, Lose, Spent, Ids, QueueSound, Gone;
    var tx := queue[0].tx;
    PromotingFacts(w, s, avail, p, lost, queue);
    PromotedIsKept(s, avail, avail + Gone(w, p + lost), w.stranded, tx);
    PromoteKeepsIndexed(s, avail + Gone(w, p + lost), w.stranded, tx);
    assert p + (lost + {tx.id}) == p + lost + {tx.id};
    GoneGrows(w, p + lost, tx, avail);
    SplitLoses(w, s, avail, p, lost, tx);
    OthersAreQueued(w, s, avail, avail + Gone(w, p + lost), tx, queue, queue');
  }

  lemma SplitLoses(w: Work, s: State, avail: set<OutputID>, p: set<TxID>, lost: set<TxID>, tx: Tx)
    requires IsSplit(w, s, avail, p, lost) && tx.id in w.indexed
    requires tx.id in w.known && w.known[tx.id] == tx && Spent(tx) <= avail && tx.id in s.orphans
    ensures IsSplit(w, Lose(s, tx), avail, p, lost + {tx.id})
  {
    hide OutsOf, Closure, Spent, Outs, Unindex, WithOuts, IndexedIds;
    MoreIsReady(w.known, w.avail0, p, tx.id);
    assert tx.id in TxsOf(s.orphans);
    TxsOfMinus(s.orphans, tx.id);
    IndexedShrink(s, tx);
    assert p + (lost + {tx.id}) == p + lost + {tx.id};
    MinusMinus(w.known, p + lost, tx.id);
  }

  lemma OthersAreQueued(
    w: Work, s: State, avail: set<OutputID>, cleared: set<OutputID>, tx: Tx, queue: seq<Orphan>, queue': seq<Orphan>)
    requires queue' != [] && queue'[0].tx.id == tx.id && QueueSound(queue', w.known)
    requires IsQueued(w, s, avail, queue) && Ids(queue') == Ids(queue) + WaitingOn(s.byPrev, Results(tx))
    requires IsKept(s, avail) && IsIndexed(s, cleared, w.stranded) && avail <= cleared
    requires IndexedIds(s.byPrev) <= w.indexed
    ensures IsQueued(w, Lose(s, tx), avail, queue'[1..])
  {
    hide Ids, QueueSound, Spent, Unindex, WithOuts, IsIndexed, WaitingOn, IndexedIds, OutputsKnown;
    IdsTail(queue', w.known);
    forall o | o in WaitingOn(s.byPrev, Results(tx)) ensures o in w.indexed && o !in s.pool {
      WaitingMissSomething(s, avail, Results(tx), w.stranded, cleared, o);
    }
  }

  lemma ReadyAreQueued(
    w: Work, s: State, avail: set<OutputID>, gone: set<OutputID>, tx: Tx, queue: seq<Orphan>, queue': seq<Orphan>)
    requires IsIndexed(s, avail + gone, w.stranded) && IsRecorded(gone, avail) && IsKept(s, avail)
    requires queue' != [] && queue'[0].tx.id == tx.id && QueueSound(queue', w.known)
    requires IsQueued(w, s, avail, queue) && Ids(queue') == Ids(queue) + WaitingOn(s.byPrev, Results(tx))
    requires IndexedIds(s.byPrev) <= w.indexed
    ensures IsQueued(w, Promote(s, tx), avail + Outs(tx), queue'[1..])
  {
    hide QueueSound, Has, Unindex, WithOuts, Ids, WaitingOn, IndexedIds, IsIndexed, OutputsKnown;
    IdsTail(queue', w.known);
    forall o | o in s.orphans - {tx.id} && o !in w.stranded && Spent(s.orphans[o].tx) <= avail + Outs(tx)
      ensures o in Ids(queue'[1..])
    {
      if !(Spent(s.orphans[o].tx) <= avail) {
        NewlyReadyWait(s, avail, gone, w.stranded, tx, o);
      }
    }
    forall o | o in WaitingOn(s.byPrev, Results(tx)) ensures o in w.indexed && o !in s.pool {
      WaitingMissSomething(s, avail, Results(tx), w.stranded, avail + gone, o);
    }
  }

  lemma NothingWaits(s: State, cleared: set<OutputID>, stranded: set<TxID>, tx: Tx)
    requires Tidy(s) && IsIndexed(s, cleared, stranded) && Results(tx) <= cleared
    ensures s.byPrev - Results(tx) == s.byPrev && Results(tx) !! s.byPrev.Keys
    ensures WaitingOn(s.byPrev, Results(tx)) == {}
  {
    forall h | h in s.byPrev ensures h !in Results(tx) {
      var o :| o in s.byPrev[h];
      assert Has(s.byPrev, h, o);
    }
  }

  lemma ReaddKeepsState(s: State, avail: set<OutputID>, tx: Tx)
    requires IsKept(s, avail) && tx.id in s.pool && s.pool[tx.id] == tx
    ensures var s' := s.(pool := s.pool[tx.id := tx], utxo := WithOuts(s.utxo, tx));
      && s'.pool == s.pool && s'.utxo.Keys == s.utxo.Keys && IsKept(s', avail)
  {
    assert s.pool[tx.id := tx] == s.pool;
  }

  /** A queued orphan that has been promoted or lost before: nothing waits for it any more. */
  lemma StepAgain(
    w: Work, s: State, avail: set<OutputID>, p: set<TxID>, lost: set<TxID>, queue: seq<Orphan>, queue': seq<Orphan>)
    requires Promoting(w, s, avail, p, lost, queue) && queue != []
    requires queue[0].tx.id !in s.orphans
    requires queue <= queue' && QueueSound(queue', w.known)
    requires Ids(queue') == Ids(queue) + WaitingOn(s.byPrev, Results(queue[0].tx))
    ensures var tx := queue[0].tx;
      && s.byPrev - Results(tx) == s.byPrev && Results(tx) !! s.byPrev.Keys
      && Promoting(w, s, avail, p, lost, queue'[1..])
      && (tx.id !in lost ==>
            && s.pool[tx.id := tx] == s.pool && WithOuts(s.utxo, tx).Keys == s.utxo.Keys
            && Promoting(
                 w, s.(pool := s.pool[tx.id := tx], utxo := WithOuts(s.utxo, tx)), avail, p, lost, queue'[1..]))
  {
    hide Has, Ids, WaitingOn, QueueSound, Gone, WithOuts, IsSplit, IsIndexed, IsKept;
    var tx := queue[0].tx;
    PromotingFacts(w, s, avail, p, lost, queue);
    GoneMember(w, p + lost, tx);
    assert Tidy(s) by { KeptIsTidy(s, avail); }
    NothingWaits(s, avail + Gone(w, p + lost), w.stranded, tx);
    IdsTail(queue', w.known);
    if tx.id !in lost {
      ReaddKeepsState(s, avail, tx);
      ReaddKeepsIndexed(s, avail + Gone(w, p + lost), w.stranded, tx);
      ReaddKeepsSplit(w, s, avail, p, lost, tx);
    }
  }

  lemma KeptIsTidy(s: State, avail: set<OutputID>)
    requires IsKept(s, avail)
    ensures Tidy(s)
  {
  }

  lemma ReaddKeepsIndexed(s: State, cleared: set<OutputID>, stranded: set<TxID>, tx: Tx)
    requires IsIndexed(s, cleared, stranded)
    ensures IsIndexed(s.(pool := s.pool[tx.id := tx], utxo := WithOuts(s.utxo, tx)), cleared, stranded)
  {
  }

  lemma ReaddKeepsSplit(w: Work, s: State, avail: set<OutputID>, p: set<TxID>, lost: set<TxID>, tx: Tx)
    requires IsSplit(w, s, avail, p, lost) && s.pool[tx.id := tx] == s.pool
    ensures IsSplit(w, s.(pool := s.pool[tx.id := tx], utxo := WithOuts(s.utxo, tx)), avail, p, lost)
  {
    hide OutsOf, Closure, Spent, WithOuts, IndexedIds, Outs;
  }

  lemma GoneMember(w: Work, ids: set<TxID>, tx: Tx)
    requires tx.id in ids && tx.id in w.known && w.known[tx.id] == tx
    ensures Results(tx) <= Gone(w, ids)
  {
  }

  lemma FinishPromoting(w: Work, s: State, avail: set<OutputID>, capacity: nat, p: set<TxID>, lost: set<TxID>)
    requires Promoting(w, s, avail, p, lost, []) && Crowded(|s.pool|, capacity, lost)
    ensures Processed(w, s, avail, capacity, p, lost)
  {
    hide Gone, IsIndexed, IsKept, Closure;
    if lost == {} {
      var live := w.known - w.stranded;
      var q := p * live.Keys;
      assert OutsOf(q, live) <= OutsOf(p, w.known);
      forall o | o in live && Spent(live[o]) <= w.avail0 + OutsOf(q, live) ensures o in q {
        assert o !in p ==> o in TxsOf(s.orphans);
      }
      ClosureIsLeast(live, w.avail0, q);
    }
  }

  /**
   * The pool has room for the whole closure exactly when it loses nothing, and then the closure is
   * promoted, if no orphan was stranded before.
   */
  lemma LostIffTooMany(
    s0: State, w: Work, before: map<TxID, Tx>, s: State, avail: set<OutputID>, capacity: nat,
    p: set<TxID>, lost: set<TxID>)
    requires Processed(w, s, avail, capacity, p, lost) && Tracked(s0, w.known, before, s.pool, s.orphans, p, lost)
    ensures |before| + |Closure(w.known, w.avail0)| <= capacity ==> lost == {}
    ensures lost == {} ==> |before| + |Closure(w.known - w.stranded, w.avail0)| <= capacity
    ensures w.stranded == {} ==>
              && (lost == {} <==> |before| + |Closure(w.known, w.avail0)| <= capacity)
              && (lost == {} <==> p == Closure(w.known, w.avail0))
  {
    hide Closure, OutsOf, IsIndexed, IsKept, NoneReady, Gone, Spent;
    Sizes(s0, w, before, s, p, lost);
    hide Tracked;
    var closure, live := Closure(w.known, w.avail0), Closure(w.known - w.stranded, w.avail0);
    if lost != {} {
      SubsetIsSmaller(p + lost, closure);
    } else {
      SubsetIsSmaller(live, p);
      if w.stranded == {} {
        assert w.known - w.stranded == w.known;
      }
    }
  }

  lemma Sizes(
    s0: State, w: Work, before: map<TxID, Tx>, s: State, p: set<TxID>, lost: set<TxID>)
    requires Tracked(s0, w.known, before, s.pool, s.orphans, p, lost)
    ensures |s.pool| == |before| + |p| && |p + lost| == |p| + |lost| && (lost != {} ==> p + lost != p)
  {
    assert |before| == |before.Keys| && |s.pool| == |s.pool.Keys|;
    assert |before.Keys + p| == |before.Keys| + |p|;
    if lost != {} {
      var o :| o in lost;
      assert o !in p && o in p + lost;
    }
  }

  lemma {:induction false} SubsetIsSmaller(a: set<TxID>, b: set<TxID>)
    requires a <= b
    ensures |a| <= |b|
  {
    assert b == a + (b - a);
  }

  lemma AddedOrphanIsSettled(
    s: State, avail: set<OutputID>, stranded: set<TxID>, tx: Tx, missing: set<OutputID>, expiration: nat)
    requires Settled(s, avail, stranded) && Genuine(s, tx)
    requires missing == Spent(tx) - avail && missing != {}
    ensures Settled(Added(s, Orphan(tx, expiration), missing), avail, stranded - {tx.id})
  {
    hide Tidy, IsIndexed, Has, IndexUnder;
    AddedKeepsIndexed(s, avail, stranded, Orphan(tx, expiration), missing);
    AddedKeepsTidy(s, Orphan(tx, expiration), missing);
  }

  function Added(s: State, orphan: Orphan, missing: set<OutputID>): State {
    s.(orphans := s.orphans[orphan.tx.id := orphan], byPrev := IndexUnder(s.byPrev, missing, orphan))
  }

  lemma AddedKeepsIndexed(
    s: State, avail: set<OutputID>, stranded: set<TxID>, orphan: Orphan, missing: set<OutputID>)
    requires IsIndexed(s, avail, stranded) && Genuine(s, orphan.tx) && missing == Spent(orphan.tx) - avail
    ensures IsIndexed(Added(s, orphan, missing), avail, stranded - {orphan.tx.id})
  {
    hide IndexUnder, Has, Spent;
    HasAfterIndex(s.byPrev, missing, orphan);
  }

  lemma AddedKeepsTidy(s: State, orphan: Orphan, missing: set<OutputID>)
    requires Tidy(s) && Genuine(s, orphan.tx)
    ensures Tidy(Added(s, orphan, missing))
  {
    HasAfterIndex(s.byPrev, missing, orphan);
  }

  lemma HasAfterIndex(byPrev: Index, hs: set<OutputID>, orphan: Orphan)
    ensures var byPrev' := IndexUnder(byPrev, hs, orphan);
      && (forall h, o :: Has(byPrev', h, o) <==> Has(byPrev, h, o) || (o == orphan.tx.id && h in hs))
      && (forall h, o :: Has(byPrev', h, o) ==>
            byPrev'[h][o] == if o == orphan.tx.id && h in hs then orphan else byPrev[h][o])
      && (forall h :: h in hs ==> byPrev'[h] != map[])
  {
    forall h | h in hs ensures orphan.tx.id in IndexUnder(byPrev, hs, orphan)[h] {
    }
  }

  lemma DroppedOrphanIsSettled(s: State, avail: set<OutputID>, stranded: set<TxID>, o: TxID)
    requires Settled(s, avail, stranded) && o in s.orphans
    ensures Settled(
              s.(orphans := s.orphans - {o}, byPrev := Unindex(s.byPrev, o, Spent(s.orphans[o].tx))), avail,
              stranded - {o})
  {
    var s' := s.(orphans := s.orphans - {o}, byPrev := Unindex(s.byPrev, o, Spent(s.orphans[o].tx)));
    forall h, t ensures Has(s'.byPrev, h, t) <==> Has(s.byPrev, h, t) && t != o {
      HasAfterUnindex(s.byPrev, o, Spent(s.orphans[o].tx), h, t);
    }
  }

  /**
   * Removing a transaction keeps the index exact precisely when no orphan spends an output that
   * stops being available: such an orphan is never indexed under it.
   */
  lemma RemovalKeepsIndexIff(s: State, spendable: set<OutputID>, tx: Tx)
    requires Exact(s, spendable + s.utxo.Keys)
    ensures var gone := s.utxo.Keys * Results(tx) - spendable;
      Exact(s.(pool := s.pool - {tx.id}, utxo := s.utxo - Results(tx)), spendable + (s.utxo.Keys - Results(tx)))
      <==> forall o :: o in s.orphans ==> Spent(s.orphans[o].tx) !! gone
  {
    var gone := s.utxo.Keys * Results(tx) - spendable;
    var s' := s.(pool := s.pool - {tx.id}, utxo := s.utxo - Results(tx));
    var avail' := spendable + (s.utxo.Keys - Results(tx));
    if Exact(s', avail') {
      forall o, h | o in s.orphans && h in Spent(s.orphans[o].tx) ensures h !in gone {
        assert Has(s'.byPrev, h, o) == Has(s.byPrev, h, o);
      }
    }
  }

  /** Distinct pooled transactions have distinct results; then removal keeps the outputs right too. */
  lemma RemovalKeepsOutputs(s: State, tx: Tx)
    requires OutputsKnown(s) && Tidy(s) && tx.id in s.pool && s.pool[tx.id] == tx
    requires forall t :: t in s.pool && t != tx.id ==> Results(s.pool[t]) !! Results(tx)
    ensures OutputsKnown(s.(pool := s.pool - {tx.id}, utxo := s.utxo - Results(tx)))
  {
  }

  /** A vote output shows that the condition above is needed: its bucket goes, and the orphan stays. */
  lemma VoteOutputStrandsOrphan()
    ensures exists s: State, avail: set<OutputID>, tx: Tx ::
              && Tidy(s) && OutputsKnown(s) && Exact(s, avail) && NoneReady(s, avail, {}) && Genuine(s, tx)
              && Spent(tx) <= avail
              && !Exact(Promote(s, tx), avail + Outs(tx))
  {
    var vote := OutputID(Vote, 1);
    var orphan := Orphan(Tx(2, [vote], []), 0);
    var s := State(map[], map[], map[2 := orphan], map[vote := map[2 := orphan]]);
    var tx := Tx(1, [], [vote]);
    assert Has(s.byPrev, vote, 2);
    assert Exact(s, {}) && vote in Spent(orphan.tx);
    PromoteKeepsIndexIff(s, {}, tx);
  }

  ghost predicate Strands(s: State, avail: set<OutputID>, tx: Tx) {
    && Tidy(s) && OutputsKnown(s) && Exact(s, avail)
    && tx.id in s.orphans && s.orphans[tx.id].tx == tx && Spent(tx) <= avail
    && !Exact(Lose(s, tx), avail)
  }

  /** Losing 2 empties the bucket of its output, and 3, which waits for that output, stays without an entry. */
  lemma LostOrphanStrandsDependent()
    ensures exists s: State, avail: set<OutputID>, tx: Tx :: Strands(s, avail, tx)
  {
    hide Tidy, OutputsKnown, Exact, Lose;
    var a, b := OutputID(Original, 1), OutputID(Original, 2);
    var tx2, tx3 := Tx(2, [a], [b]), Tx(3, [b], []);
    var orphans := map[2 := Orphan(tx2, 0), 3 := Orphan(tx3, 0)];
    var s := State(map[], map[], orphans, map[b := map[3 := Orphan(tx3, 0)]]);
    HalfReady(s, a, b);
    assert Has(s.byPrev, b, 3) && b in Results(tx2) && Spent(tx2) == {a};
    LosingKeepsIndexIff(s, {a}, tx2);
    assert Strands(s, {a}, tx2);
  }

  lemma HalfReady(s: State, a: OutputID, b: OutputID)
    requires a != b && s.pool == map[] && s.utxo == map[] && s.orphans.Keys == {2, 3}
    requires s.orphans[2].tx == Tx(2, [a], [b]) && s.orphans[3].tx == Tx(3, [b], [])
    requires s.byPrev == map[b := map[3 := s.orphans[3]]]
    ensures Tidy(s) && OutputsKnown(s) && Exact(s, {a})
  {
    assert Spent(s.orphans[2].tx) == {a} && Spent(s.orphans[3].tx) == {b};
    assert 3 in s.byPrev[b];
    assert forall h, o :: Has(s.byPrev, h, o) <==> h == b && o == 3;
    NothingKnown(s);
    hide Has, Spent, OutputsKnown;
  }

  lemma NothingKnown(s: State)
    requires s.pool == map[] && s.utxo == map[]
    ensures OutputsKnown(s)
  {
    assert forall h: OutputID :: h !in s.utxo;
    assert forall t: TxID :: t !in s.pool;
  }

  /** What a transaction with this input and this result spends and leaves. */
  lemma SpentOfOne(tx: Tx, h: OutputID)
    requires tx.spent == [h]
    ensures Spent(tx) == {h}
  {
  }

  lemma ResultOfOne(tx: Tx, h: OutputID)
    requires tx.results == [h]
    ensures Results(tx) == {h} && Outs(tx) == if h.kind == Original then {h} else {}
  {
  }

  lemma SpendsNothing(tx: Tx)
    requires tx.spent == []
    ensures Spent(tx) == {}
  {
  }

  lemma LeavesNothing(tx: Tx)
    requires tx.results == []
    ensures Results(tx) == {} && Outs(tx) == {}
  {
  }

  /** A run: 2 waits for a vote output of 1. When 1 arrives, 2 stays an orphan without any entry in the index. */
  method VoteRunStrandsOrphan() returns (t: TxPool)
    ensures fresh(t) && t.Valid() && 2 in t.orphans && (forall h :: !Has(t.byPrev, h, 2)) && 2 in t.stranded
  {
    hide Settled, Tracked, Processed, Closure, Has, OutsOf, TxsOf, Spent, Outs, Results, NoneLeftBehind, Exact, Gone,
      NowStranded, IndexedIds;
    var vote := OutputID(Vote, 1);
    t := OneWaits(vote, 1);
    var tx1 := Tx(1, [], [vote]);
    SpendsNothing(tx1);
    ghost var s, avail := t.Snapshot(), t.Avail();
    var _, _, p, lost := t.ProcessTransaction(tx1, false, 0);
    OneIsStranded(s, avail, tx1, vote, t.Snapshot(), t.Avail(), 1, p, lost);
  }

  method OneWaits(h: OutputID, capacity: nat) returns (t: TxPool)
    ensures fresh(t) && t.Valid() && t.spendable == {} && t.capacity == capacity && t.stranded == {}
    ensures t.pool == map[] && t.utxo == map[] && t.orphans.Keys == {2}
    ensures t.orphans[2].tx == Tx(2, [h], [])
  {
    hide Settled;
    t := new TxPool({}, capacity);
    SendWaiting(t, Tx(2, [h], []), h);
    assert t.stranded == {};
  }

  /** A transaction whose only input is missing becomes an orphan. */
  method SendWaiting(t: TxPool, tx: Tx, h: OutputID)
    requires t.Valid() && tx.spent == [h] && h !in t.Avail() && tx.id !in t.pool && tx.id !in t.orphans
    requires |t.orphans| < MAX_ORPHAN_NUM
    modifies t`pool, t`utxo, t`orphans, t`byPrev, t`stranded
    ensures t.Valid() && t.pool == old(t.pool) && t.utxo == old(t.utxo) && t.stranded == old(t.stranded) - {tx.id}
    ensures t.orphans == old(t.orphans)[tx.id := Orphan(tx, ORPHAN_TTL)]
  {
    hide Settled, Tracked, Processed, Closure, NoneLeftBehind, Exact, NowStranded, Gone, TxsOf, Outs, Spent;
    SpentOfOne(tx, h);
    var isOrphan, full, _, _ := t.ProcessTransaction(tx, false, 0);
    assert isOrphan && !full;
  }

  lemma OneIsStranded(
    s0: State, avail0: set<OutputID>, tx: Tx, vote: OutputID, s: State, avail: set<OutputID>, capacity: nat,
    p: set<TxID>, lost: set<TxID>)
    requires vote.kind == Vote && tx.results == [vote] && avail0 == {}
    requires s0.orphans.Keys == {2} && s0.orphans[2].tx == Tx(2, [vote], [])
    requires Tracked(s0, TxsOf(s0.orphans), s0.pool[tx.id := tx], s.pool, s.orphans, p, lost)
    requires Processed(StartOf(s0, avail0, {}, tx), s, avail, capacity, p, lost)
    ensures 2 in s.orphans && (forall h :: !Has(s.byPrev, h, 2))
    ensures 2 in NowStranded(s, avail, {}, Gone(StartOf(s0, avail0, {}, tx), p + lost))
  {
    hide Has, Closure, Processed, NowStranded, Gone, IndexedIds;
    NothingUnlocked(s0, avail0, tx, vote);
    var w := StartOf(s0, avail0, {}, tx);
    hide StartOf, TxsOf;
    NothingLeaves(w, s, avail, capacity, p, lost);
    assert 2 in s.orphans && s.orphans[2] == s0.orphans[2];
    StrandedAlone(w, s, avail, capacity, p, lost, vote);
  }

  lemma NothingUnlocked(s0: State, avail0: set<OutputID>, tx: Tx, vote: OutputID)
    requires vote.kind == Vote && tx.results == [vote] && avail0 == {}
    requires s0.orphans.Keys == {2} && s0.orphans[2].tx == Tx(2, [vote], [])
    ensures var w := StartOf(s0, avail0, {}, tx);
      Closure(w.known, w.avail0) == {} && w.avail0 == {} && w.stranded == {} && w.tx == tx
  {
    var w := StartOf(s0, avail0, {}, tx);
    hide Spent, Outs, Results, IndexedIds;
    ResultOfOne(tx, vote);
    SpentOfOne(w.known[2], vote);
    assert w.avail0 == {};
    assert Ready(w.known, {}) == {};
  }

  lemma StrandedAlone(
    w: Work, s: State, avail: set<OutputID>, capacity: nat, p: set<TxID>, lost: set<TxID>, vote: OutputID)
    requires Processed(w, s, avail, capacity, p, lost) && w.stranded == {} && w.tx.results == [vote] && avail == {}
    requires 2 in s.orphans && s.orphans[2].tx == Tx(2, [vote], [])
    ensures (forall h :: !Has(s.byPrev, h, 2)) && 2 in NowStranded(s, avail, {}, Gone(w, p + lost))
  {
    hide Has, Closure, Spent, Outs, Results, OutsOf, ResultsOf, NoneReady, IsKept, IsIndexed, NowStranded;
    ResultOfOne(w.tx, vote);
    SpentOfOne(s.orphans[2].tx, vote);
    NoEntryFor(s, avail, Gone(w, p + lost), 2);
  }

  lemma NothingLeaves(
    w: Work, s: State, avail: set<OutputID>, capacity: nat, p: set<TxID>, lost: set<TxID>)
    requires Processed(w, s, avail, capacity, p, lost) && Closure(w.known, w.avail0) == {}
    ensures p == {} && lost == {} && avail == w.avail0
  {
    hide IsKept, NoneReady, IsIndexed, Spent, Closure;
    NoOutsOfNone(w.known);
  }

  lemma NoOutsOfNone(known: Waiting)
    ensures OutsOf({}, known) == {}
  {
  }

  lemma NoEntryFor(s: State, avail: set<OutputID>, gone: set<OutputID>, o: TxID)
    requires IsIndexed(s, avail + gone, {}) && o in s.orphans
    requires Spent(s.orphans[o].tx) <= gone && !(Spent(s.orphans[o].tx) <= avail)
    ensures (forall h :: !Has(s.byPrev, h, o)) && o in NowStranded(s, avail, {}, gone)
  {
    hide Has;
  }

  /** One transaction takes up room, 2 waits for an output of 1, and 3 for one of 2. */
  method TwoWait(a: OutputID, b: OutputID) returns (t: TxPool)
    ensures fresh(t) && t.Valid() && t.spendable == {} && t.capacity == 2 && t.stranded == {}
    ensures t.pool == map[9 := Tx(9, [], [])] && t.utxo == map[] && t.orphans.Keys == {2, 3}
    ensures t.orphans[2].tx == Tx(2, [a], [b]) && t.orphans[3].tx == Tx(3, [b], [])
  {
    hide Settled;
    var filler := Tx(9, [], []);
    t := new TxPool({}, 2);
    AddFiller(t, filler);
    SendWaiting(t, Tx(2, [a], [b]), a);
    assert t.orphans.Keys == {2} && t.stranded == {};
    SendWaiting(t, Tx(3, [b], []), b);
    assert t.stranded == {};
  }

  method AddFiller(t: TxPool, filler: Tx)
    requires t.Valid() && t.Snapshot() == State(map[], map[], map[], map[]) && t.spendable == {} && t.stranded == {}
    requires filler == Tx(9, [], []) && t.capacity == 2
    modifies t`pool, t`utxo, t`orphans, t`byPrev, t`stranded
    ensures t.Valid() && t.stranded == {} && t.pool == map[9 := filler] && t.utxo == map[] && t.orphans == map[]
  {
    hide Settled, Closure, Has, NoneLeftBehind, Exact, Outs, Spent, OutsOf, IndexedIds, WithOuts;
    SpendsNothing(filler);
    LeavesNothing(filler);
    ghost var s := t.Snapshot();
    var _, _, p, lost := t.ProcessTransaction(filler, false, 0);
    NothingToPromote(StartOf(s, {}, {}, filler), t.Snapshot(), t.Avail(), p, lost);
  }

  lemma NothingToPromote(w: Work, s: State, avail: set<OutputID>, p: set<TxID>, lost: set<TxID>)
    requires Processed(w, s, avail, 2, p, lost) && w.known == map[] && w.avail0 == {}
    ensures p == {} && lost == {} && avail == {}
  {
    hide IsKept, NoneReady, IsIndexed, Spent;
    assert Closure(w.known, w.avail0) <= w.known.Keys;
    NoOutsOfNone(w.known);
  }

  /** What is left of the run below when 1 has arrived: 3 is an orphan that waits for the lost 2. */
  ghost predicate IsCrowdedOut(t: TxPool, a: OutputID, b: OutputID)
    reads t
  {
    && t.Valid() && t.spendable == {} && t.capacity == 2 && t.stranded == {3}
    && t.pool.Keys == {1, 9} && t.pool[9] == Tx(9, [], []) && t.pool[1] == Tx(1, [], [a]) && t.utxo.Keys == {a}
    && t.orphans.Keys == {3} && t.orphans[3].tx == Tx(3, [b], [])
    && forall h :: !Has(t.byPrev, h, 3)
  }

  /**
   * A run of a pool with room for two, one of them taken. When 1 arrives, 2 is lost, and 3 stays an orphan
   * without any entry in the index.
   */
  method FullPoolStrandsDependent(a: OutputID, b: OutputID) returns (t: TxPool)
    requires a != b && a.kind == b.kind == Original
    ensures fresh(t) && IsCrowdedOut(t, a, b)
  {
    hide Settled, Tracked, Processed, Closure, Has, OutsOf, TxsOf, Spent, Outs, Results, NoneLeftBehind, Exact, Gone,
      NowStranded, IndexedIds;
    var tx1 := Tx(1, [], [a]);
    t := TwoWait(a, b);
    SpendsNothing(tx1);
    ghost var s := t.Snapshot();
    assert t.Avail() == {};
    ghost var before := s.pool[1 := tx1];
    assert before.Keys == {1, 9};
    var _, _, p, lost := t.ProcessTransaction(tx1, false, 0);
    OnlyOneFits(s, tx1, a, b, before, t.Snapshot(), t.Avail(), p, lost);
  }

  lemma OnlyOneFits(
    s0: State, tx: Tx, a: OutputID, b: OutputID, before: map<TxID, Tx>, s: State, avail: set<OutputID>,
    p: set<TxID>, lost: set<TxID>)
    requires a != b && a.kind == b.kind == Original && before.Keys == {1, 9} && tx == Tx(1, [], [a])
    requires before[9] == Tx(9, [], []) && before[1] == tx
    requires s0.orphans.Keys == {2, 3}
    requires s0.orphans[2].tx == Tx(2, [a], [b]) && s0.orphans[3].tx == Tx(3, [b], [])
    requires Tracked(s0, TxsOf(s0.orphans), before, s.pool, s.orphans, p, lost)
    requires Processed(StartOf(s0, {}, {}, tx), s, avail, 2, p, lost)
    requires lost == {} <==> |before| + |Closure(TxsOf(s0.orphans), {} + Outs(tx))| <= 2
    ensures s.pool.Keys == {1, 9} && s.orphans.Keys == {3} && s.orphans[3].tx == Tx(3, [b], []) && avail == {a}
    ensures s.pool[9] == Tx(9, [], []) && s.pool[1] == tx
    ensures forall h :: !Has(s.byPrev, h, 3)
    ensures NowStranded(s, avail, {}, Gone(StartOf(s0, {}, {}, tx), p + lost)) == {3}
  {
    hide Closure, Has, Spent, Outs, Results, OutsOf, ResultsOf, IsKept, IsIndexed, NowStranded, IndexedIds, NoneReady;
    var w := StartOf(s0, {}, {}, tx);
    var known := w.known;
    ResultOfOne(tx, a);
    assert w.avail0 == {a};
    SpentOfOne(known[2], a);
    SpentOfOne(known[3], b);
    ResultOfOne(known[2], b);
    TwoAreUnlocked(known, {a}, a, b);
    SubsetIsSmaller({2, 3}, Closure(known, {a}));
    Sizes(s0, w, before, s, p, lost);
    SizeOfTwo(before);
    NothingMore(p);
    NoOutsOfNone(known);
    assert avail == {a};
    OnlyTwoIsLost(lost, known, a, b);
    assert s.orphans.Keys == {3} by { OrphansMinus(s0.orphans); }
    GoneOfTwo(w, b);
    NoEntryFor(s, avail, Gone(w, p + lost), 3);
    OnlyThree(s, avail, Gone(w, p + lost));
  }

  lemma SizeOfTwo(before: map<TxID, Tx>)
    requires before.Keys == {1, 9}
    ensures |before| == 2
  {
    assert |before| == |before.Keys|;
  }

  lemma NothingMore(p: set<TxID>)
    ensures |p| <= 0 ==> p == {}
  {
  }

  lemma OnlyTwoIsLost(lost: set<TxID>, known: Waiting, a: OutputID, b: OutputID)
    requires lost <= known.Keys == {2, 3} && lost != {} && a != b && Spent(known[3]) == {b}
    requires forall o :: o in lost ==> Spent(known[o]) <= {a}
    ensures lost == {2}
  {
    hide Spent;
    assert b in Spent(known[3]) && b !in {a};
    var o :| o in lost;
  }

  lemma OrphansMinus(orphans: map<TxID, Orphan>)
    requires orphans.Keys == {2, 3}
    ensures (orphans - ({} + {2})).Keys == {3}
  {
  }

  lemma GoneOfTwo(w: Work, b: OutputID)
    requires 2 in w.known && b in Results(w.known[2])
    ensures b in Gone(w, {} + {2})
  {
  }

  lemma OnlyThree(s: State, avail: set<OutputID>, gone: set<OutputID>)
    requires s.orphans.Keys == {3} && 3 in NowStranded(s, avail, {}, gone)
    ensures NowStranded(s, avail, {}, gone) == {3}
  {
  }

  lemma TwoAreUnlocked(known: Waiting, avail: set<OutputID>, a: OutputID, b: OutputID)
    requires 2 in known && known[2] == Tx(2, [a], [b]) && 3 in known && known[3] == Tx(3, [b], [])
    requires a in avail && b.kind == Original
    ensures {2, 3} <= Closure(known, avail)
  {
    ClosureIsClosed(known, avail, 2);
    assert b in Outs(known[2]);
    assert b in OutsOf(Closure(known, avail), known);
    ClosureIsClosed(known, avail, 3);
  }

  /**
   * The same run goes on: there is room again, and the lost transaction is sent once more. Its dependent
   * then misses nothing, but is in no bucket, and stays an orphan.
   */
  method LostParentReturns(a: OutputID, b: OutputID) returns (t: TxPool)
    requires a != b && a.kind == b.kind == Original
    ensures fresh(t) && t.Valid() && 2 in t.pool && 3 in t.orphans && Spent(t.orphans[3].tx) <= t.Avail()
  {
    hide Settled, Tracked, Processed, Closure, Has, OutsOf, TxsOf, Spent, Outs, Results, NoneLeftBehind, Exact, Gone,
      NowStranded, IndexedIds, IsSpare, Deprived;
    t := FullPoolStrandsDependent(a, b);
    FillerIsSpare(t.Snapshot(), t.spendable);
    SettledIsTidy(t.Snapshot(), t.Avail(), t.stranded);
    t.RemoveTransaction(9);
    assert t.Valid();
    var tx2 := Tx(2, [a], [b]);
    SpentOfOne(tx2, a);
    ghost var s, avail, stranded := t.Snapshot(), t.Avail(), t.stranded;
    var _, _, p, lost := t.ProcessTransaction(tx2, false, 0);
    NobodyNotices(s, avail, stranded, tx2, b, t.Snapshot(), t.Avail(), p, lost);
  }

  lemma SettledIsTidy(s: State, avail: set<OutputID>, stranded: set<TxID>)
    requires Settled(s, avail, stranded)
    ensures Tidy(s)
  {
  }

  lemma FillerIsSpare(s: State, spendable: set<OutputID>)
    requires 9 in s.pool && s.pool[9] == Tx(9, [], [])
    ensures IsSpare(s, spendable, 9) && s.utxo - Results(s.pool[9]) == s.utxo && Deprived(s, spendable, 9) == {}
  {
    LeavesNothing(s.pool[9]);
  }

  lemma NoEntryIsUnindexed(byPrev: Index, o: TxID)
    requires forall h :: !Has(byPrev, h, o)
    ensures o !in IndexedIds(byPrev)
  {
    if o in IndexedIds(byPrev) {
      var h :| h in byPrev && o in byPrev[h];
      assert Has(byPrev, h, o);
    }
  }

  lemma NobodyNotices(
    s0: State, avail0: set<OutputID>, stranded: set<TxID>, tx: Tx, b: OutputID, s: State, avail: set<OutputID>,
    p: set<TxID>, lost: set<TxID>)
    requires b.kind == Original && tx.id == 2 && tx.results == [b]
    requires s0.orphans.Keys == {3} && s0.orphans[3].tx == Tx(3, [b], [])
    requires forall h :: !Has(s0.byPrev, h, 3)
    requires Tracked(s0, TxsOf(s0.orphans), s0.pool[2 := tx], s.pool, s.orphans, p, lost)
    requires Processed(StartOf(s0, avail0, stranded, tx), s, avail, 2, p, lost)
    ensures 2 in s.pool && 3 in s.orphans && Spent(s.orphans[3].tx) <= avail
  {
    hide Closure, Spent, Outs, Results, OutsOf, ResultsOf, IsKept, IsIndexed, NoneReady, NowStranded, Gone;
    var w := StartOf(s0, avail0, stranded, tx);
    NoEntryIsUnindexed(s0.byPrev, 3);
    hide IndexedIds;
    ResultOfOne(tx, b);
    SpentOfOne(s0.orphans[3].tx, b);
  }
}
