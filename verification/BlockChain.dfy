/** The chain that reorganises itself around the best tip that the fork choice reports. */
module BlockChain {
  import opened Wrappers
  import opened Headers
  import opened MainChain

  datatype Outcome = Done | NotFound | Refused

  class Chain {
    ghost const genesis: Hash
    var headers: Tree
    var blocks: map<Hash, seq<TxId>>
    var index: map<Height, Hash>
    var status: Header
    var cache: map<Height, Hash>
    var bestBlockHeader: Header
    var pool: set<TxId>

    ghost function Snapshot(): State
      reads this
    {
      State(headers, blocks, index, status, cache, bestBlockHeader, pool)
    }

    ghost predicate Valid()
      reads this
    {
      IsSound(Snapshot(), genesis)
    }

    constructor (first: Header, txs: seq<TxId>)
      requires first.height == 0 && txs != []
      ensures Valid() && genesis == first.hash && bestBlockHeader == first && pool == {}
    {
      genesis := first.hash;
      headers, blocks := map[first.hash := first], map[first.hash := txs];
      index, cache, status, bestBlockHeader, pool := map[0 := first.hash], map[], first, first, {};
      new;
      assert IsTree(headers, genesis) by {
        forall h | h in headers ensures LinksUp(headers, genesis, h) {
        }
      }
    }

    /** A validated block on a known parent. */
    method SaveBlock(header: Header, txs: seq<TxId>)
      requires Valid() && txs != []
      requires header.previous in headers && header.height == headers[header.previous].height + 1
      requires header.hash in headers ==> headers[header.hash] == header && blocks[header.hash] == txs
      modifies this`headers, this`blocks
      ensures Valid()
      ensures headers == old(headers)[header.hash := header] && blocks == old(blocks)[header.hash := txs]
    {
      hide IsTree, Ancestry, CacheAgrees, Indexes;
      ghost var before := headers;
      if header.hash in headers {
        return;
      }
      TreeGrows(headers, genesis, header);
      headers, blocks := headers[header.hash := header], blocks[header.hash := txs];
      AncestryIsKept(before, headers, genesis, bestBlockHeader.hash);
    }

    /** The lookup through the cache; dropped is what the cache forgets to make room. */
    method LookupMainChainHash(height: Height, dropped: set<Height>) returns (hash: Option<Hash>)
      requires Valid()
      modifies this`cache
      ensures Valid()
      ensures hash == if height in index then Some(index[height]) else None
      ensures cache ==
        if height in old(cache) || height !in index then old(cache)
        else old(cache)[height := index[height]] - dropped
    {
      hide IsTree, Ancestry, Indexes;
      if height in cache {
        return Some(cache[height]);
      }
      if height !in index {
        return None;
      }
      hash := Some(index[height]);
      cache := cache[height := index[height]] - dropped;
    }

    /** Whether a block is in the main chain, as the index has it. */
    method InMainChain(hash: Hash, dropped: set<Height>) returns (isMain: bool)
      requires Valid()
      modifies this`cache
      ensures Valid()
      ensures hash !in headers ==> !isMain
      ensures hash in headers && headers[hash].height <= bestBlockHeader.height ==>
        (isMain <==> IsAncestor(headers, genesis, hash, bestBlockHeader.hash))
      ensures hash in headers && headers[hash].height > bestBlockHeader.height ==>
        var height := headers[hash].height;
        && (isMain <==> height in index && index[height] == hash)
        && !IsAncestor(headers, genesis, hash, bestBlockHeader.hash)
    {
      hide IsTree, Ancestry, Indexes, CacheAgrees;
      if hash !in headers {
        return false;
      }
      var height := headers[hash].height;
      if height <= bestBlockHeader.height {
        IndexMeansAncestry(Snapshot(), genesis, hash);
      } else {
        NothingAboveIsAncestor(Snapshot(), genesis, hash);
      }
      var blockHash := LookupMainChainHash(height, dropped);
      if blockHash.None? {
        return false;
      }
      return blockHash.value == hash;
    }

    /** One batch for the database, and then an eviction for every height written. */
    method SaveChainStatus(header: Header, mainBlockHeaders: seq<Header>)
      modifies this`index, this`status, this`cache
      ensures index == Written(old(index), mainBlockHeaders)
      ensures cache == Evicted(old(cache), mainBlockHeaders)
      ensures status == header
    {
      var batch := index;
      var cleared := [];
      for i := 0 to |mainBlockHeaders|
        invariant batch == Written(old(index), mainBlockHeaders[..i])
        invariant |cleared| == i && forall k :: 0 <= k < i ==> cleared[k] == mainBlockHeaders[k].height
      {
        assert mainBlockHeaders[..i + 1][..i] == mainBlockHeaders[..i];
        batch := batch[mainBlockHeaders[i].height := mainBlockHeaders[i].hash];
        cleared := cleared + [mainBlockHeaders[i].height];
      }
      status, index := header, batch;
      assert mainBlockHeaders[..|mainBlockHeaders|] == mainBlockHeaders;
      for i := 0 to |cleared|
        modifies this`cache
        invariant cache == Evicted(old(cache), mainBlockHeaders[..i])
      {
        assert mainBlockHeaders[..i + 1][..i] == mainBlockHeaders[..i];
        cache := cache - {cleared[i]};
      }
    }

    method SetState(header: Header, mainBlockHeaders: seq<Header>)
      modifies this`index, this`status, this`cache, this`bestBlockHeader
      ensures Snapshot() == Reorganized(old(Snapshot()), header, mainBlockHeaders, old(pool))
    {
      SaveChainStatus(header, mainBlockHeaders);
      bestBlockHeader := header;
    }

    /** The first pass: every transaction of the detached blocks is to be restored. */
    method CollectDetached(detach: seq<Header>) returns (restore: set<TxId>)
      requires Have(blocks, detach)
      ensures restore == Members(Listed(blocks, detach))
    {
      hide Listed, Members;
      restore := {};
      NothingListed(blocks);
      assert detach[..0] == [];
      for i := 0 to |detach|
        invariant restore == Members(Listed(blocks, detach[..i]))
      {
        ListedNext(blocks, detach, i);
        var txs := blocks[detach[i].hash][1..];
        ghost var before := Listed(blocks, detach[..i]);
        assert before + txs[..0] == before;
        for k := 0 to |txs|
          invariant restore == Members(before + txs[..k])
        {
          assert before + txs[..k + 1] == (before + txs[..k]) + [txs[k]];
          MembersNext(before + txs[..k], txs[k]);
          restore := restore + {txs[k]};
        }
        assert txs[..|txs|] == txs;
      }
      assert detach[..|detach|] == detach;
    }

    /** The second pass: what is attached again is not restored, and what is new leaves the pool. */
    method CollectAttached(attach: seq<Header>, detached: set<TxId>) returns (restore: set<TxId>, remove: set<TxId>)
      requires Have(blocks, attach)
      ensures Separates(Listed(blocks, attach), detached, restore, remove)
    {
      hide Listed, Members, Separates, NoRepeats;
      restore, remove := detached, {};
      NothingListed(blocks);
      NothingSeparated(detached);
      assert attach[..0] == [];
      for i := 0 to |attach|
        invariant Separates(Listed(blocks, attach[..i]), detached, restore, remove)
      {
        ListedNext(blocks, attach, i);
        var txs := blocks[attach[i].hash][1..];
        ghost var before := Listed(blocks, attach[..i]);
        assert before + txs[..0] == before;
        for k := 0 to |txs|
          invariant Separates(before + txs[..k], detached, restore, remove)
        {
          assert before + txs[..k + 1] == (before + txs[..k]) + [txs[k]];
          SeparatesNext(before + txs[..k], detached, restore, remove, txs[k]);
          if txs[k] !in restore {
            remove := remove + {txs[k]};
          } else {
            restore := restore - {txs[k]};
          }
        }
        assert txs[..|txs|] == txs;
      }
      assert attach[..|attach|] == attach;
    }

    /**
     * Switch to another tip. The views may refuse a block, and then nothing changes;
     * accepted are the transactions that validation lets back into the pool.
     */
    method ReorganizeChain(header: Header, refused: bool, accepted: set<TxId>)
      returns (r: Outcome, ghost attach: seq<Header>, ghost detach: seq<Header>, ghost fork: nat)
      requires Valid() && header.hash in headers && headers[header.hash] == header
      modifies this`index, this`status, this`cache, this`bestBlockHeader, this`pool
      ensures Valid() && r == if refused then Refused else Done
      ensures IsReorganization(headers, genesis, header.hash, old(bestBlockHeader).hash, attach, detach, fork)
      ensures refused ==> Snapshot() == old(Snapshot())
      ensures !refused ==> Snapshot() == Reorganized(old(Snapshot()), header, attach, pool)
      ensures !refused ==>
        && Have(blocks, attach) && Have(blocks, detach)
        && IsPoolSwitched(blocks, attach, detach, accepted, old(pool), pool)
      ensures old(IsPoolFresh(Snapshot(), genesis) && HasNoRepeats(Snapshot(), genesis)) ==>
        IsPoolFresh(Snapshot(), genesis)
    {
      hide IsTree, Ancestry, IsReorganization, Have, Listed, Members, Separates, CacheAgrees, Indexes, Written, Evicted;
      ghost var before := Snapshot();
      var attachNodes, detachNodes;
      attachNodes, detachNodes := CalcReorganizeChain(headers, genesis, header, bestBlockHeader);
      fork :| IsReorganization(headers, genesis, header.hash, bestBlockHeader.hash, attachNodes, detachNodes, fork);
      attach, detach := attachNodes, detachNodes;
      ListsHaveBlocks(before, genesis, header.hash, attach, detach, fork);
      var detached := CollectDetached(detachNodes);
      var restore, remove := CollectAttached(attachNodes, detached);
      if refused {
        return Refused, attach, detach, fork;
      }
      SetState(header, attachNodes);
      pool := pool - remove;
      pool := pool + (restore * accepted);
      ReorganizedIsSound(before, genesis, header, attach, detach, fork, pool);
      if IsPoolFresh(before, genesis) && HasNoRepeats(before, genesis) {
        hide IsPoolFresh, HasNoRepeats;
        RestoredAndRemoved(Listed(blocks, attach), Members(Listed(blocks, detach)), restore, remove, accepted);
        SwitchKeepsFresh(before, genesis, header, attach, detach, fork, remove, restore * accepted, Snapshot());
      }
      r := Done;
    }

    /**
     * The switch that the fork choice asks for: nothing to do, an unknown block, a block that the views
     * refuse, or the reorganisation to it.
     */
    method TryReorganize(bestHash: Hash, refused: bool, accepted: set<TxId>)
      returns (r: Outcome, ghost attach: seq<Header>, ghost detach: seq<Header>, ghost fork: nat)
      requires Valid()
      modifies this`index, this`status, this`cache, this`bestBlockHeader, this`pool
      ensures Valid()
      ensures r == NotFound <==> bestHash !in headers
      ensures r == Refused <==> bestHash in headers && old(bestBlockHeader).hash != bestHash && refused
      ensures r == Done ==> bestBlockHeader == headers[bestHash] && status == bestBlockHeader
      ensures r != Done || old(bestBlockHeader).hash == bestHash ==> Snapshot() == old(Snapshot())
      ensures r == Done && old(bestBlockHeader).hash != bestHash ==>
        && IsReorganization(headers, genesis, bestHash, old(bestBlockHeader).hash, attach, detach, fork)
        && Snapshot() == Reorganized(old(Snapshot()), headers[bestHash], attach, pool)
        && Have(blocks, attach) && Have(blocks, detach)
        && IsPoolSwitched(blocks, attach, detach, accepted, old(pool), pool)
      ensures old(IsPoolFresh(Snapshot(), genesis) && HasNoRepeats(Snapshot(), genesis)) ==>
        IsPoolFresh(Snapshot(), genesis)
    {
      hide IsTree, Ancestry, CacheAgrees, Indexes, IsReorganization, Written, Evicted, IsPoolSwitched, Have;
      attach, detach, fork := [], [], 0;
      if bestBlockHeader.hash == bestHash {
        return Done, attach, detach, fork;
      }
      if bestHash !in headers {
        return NotFound, attach, detach, fork;
      }
      PreviousIsHash(headers, genesis, bestHash);
      r, attach, detach, fork := ReorganizeChain(headers[bestHash], refused, accepted);
    }
  }

  /** What is attached anew leaves the pool, and of what is only detached validation lets some back in. */
  ghost predicate IsPoolSwitched(
    blocks: map<Hash, seq<TxId>>, attach: seq<Header>, detach: seq<Header>, accepted: set<TxId>,
    before: set<TxId>, after: set<TxId>)
    requires Have(blocks, attach) && Have(blocks, detach)
  {
    exists restore, remove ::
      && Separates(Listed(blocks, attach), Members(Listed(blocks, detach)), restore, remove)
      && after == (before - remove) + (restore * accepted)
  }

  /** What two passes over the detached and the attached transactions have found. */
  ghost predicate Separates(attached: seq<TxId>, detached: set<TxId>, restore: set<TxId>, remove: set<TxId>) {
    var all := Members(attached);
    && restore == detached - all
    && all - detached <= remove <= all
    && (NoRepeats(attached) ==> remove == all - detached)
  }

  lemma RestoredAndRemoved(
    attached: seq<TxId>, detached: set<TxId>, restore: set<TxId>, remove: set<TxId>, accepted: set<TxId>)
    requires Separates(attached, detached, restore, remove)
    ensures Members(attached) - detached <= remove && restore * accepted <= detached - Members(attached)
  {
    hide Members, NoRepeats;
  }

  lemma SeparatesNext(attached: seq<TxId>, detached: set<TxId>, restore: set<TxId>, remove: set<TxId>, x: TxId)
    requires Separates(attached, detached, restore, remove)
    ensures if x in restore then Separates(attached + [x], detached, restore - {x}, remove)
            else Separates(attached + [x], detached, restore, remove + {x})
  {
    hide Members, NoRepeats;
    MembersNext(attached, x);
  }

  lemma NothingSeparated(detached: set<TxId>)
    ensures Separates([], detached, detached, {})
  {
  }

  lemma NothingListed(blocks: map<Hash, seq<TxId>>)
    ensures Listed(blocks, []) == [] && Members([]) == {} && NoRepeats([])
  {
  }
}
