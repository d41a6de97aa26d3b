/** The main chain: the best block, the index by height behind its cache, and the pool across reorganisations. */
module MainChain {
  import opened Headers

  type Height = nat

  type TxId = nat

  /** index and status are what the database holds; the first transaction of a block is its coinbase. */
  datatype State = State(
    headers: Tree, blocks: map<Hash, seq<TxId>>, index: map<Height, Hash>, status: Header,
    cache: map<Height, Hash>, best: Header, pool: set<TxId>)

  ghost predicate CacheAgrees(cache: map<Height, Hash>, index: map<Height, Hash>) {
    forall h :: h in cache ==> h in index && cache[h] == index[h]
  }

  /** Up to its end, the index lists the line. */
  ghost predicate Indexes(index: map<Height, Hash>, line: seq<Header>) {
    forall h :: 0 <= h < |line| ==> h in index && index[h] == line[h].hash
  }

  ghost predicate HaveBlocks(headers: Tree, blocks: map<Hash, seq<TxId>>) {
    forall h :: h in headers ==> h in blocks && blocks[h] != []
  }

  ghost predicate IsSound(s: State, genesis: Hash) {
    && IsTree(s.headers, genesis) && HaveBlocks(s.headers, s.blocks)
    && s.best.hash in s.headers && s.headers[s.best.hash] == s.best && s.status == s.best
    && CacheAgrees(s.cache, s.index)
    && Indexes(s.index, Ancestry(s.headers, genesis, s.best.hash))
  }

  /** The index after a batch of writes, one by one. */
  function Written(index: map<Height, Hash>, line: seq<Header>): map<Height, Hash> {
    if line == [] then index
    else Written(index, line[..|line| - 1])[line[|line| - 1].height := line[|line| - 1].hash]
  }

  function Evicted(cache: map<Height, Hash>, line: seq<Header>): map<Height, Hash> {
    if line == [] then cache else Evicted(cache, line[..|line| - 1]) - {line[|line| - 1].height}
  }

  /** Evicting what was written keeps the cache in agreement with the database. */
  lemma {:induction false} EvictionKeepsAgreement(cache: map<Height, Hash>, index: map<Height, Hash>, line: seq<Header>)
    requires CacheAgrees(cache, index)
    ensures CacheAgrees(Evicted(cache, line), Written(index, line))
  {
    if line != [] {
      EvictionKeepsAgreement(cache, index, line[..|line| - 1]);
    }
  }

  /** Writing the top of a line over an index of its bottom indexes the line. */
  lemma {:induction false} WritingExtends(index: map<Height, Hash>, line: seq<Header>, f: nat, n: nat)
    requires f <= n <= |line| && Indexes(index, line[..f])
    requires forall i :: 0 <= i < |line| ==> line[i].height == i
    ensures Indexes(Written(index, line[f..n]), line[..n])
    decreases n
  {
    if f < n {
      WritingExtends(index, line, f, n - 1);
      var part := line[f..n];
      assert part[..|part| - 1] == line[f..n - 1];
      assert line[n - 1].height == n - 1;
      var before := Written(index, line[f..n - 1]);
      assert Written(index, part) == before[n - 1 := line[n - 1].hash];
      assert forall h :: 0 <= h < n - 1 ==> line[..n - 1][h] == line[..n][h];
    } else {
      assert line[f..n] == [];
    }
  }

  lemma LineHeights(t: Tree, genesis: Hash, h: Hash)
    requires IsTree(t, genesis) && h in t
    ensures forall i :: 0 <= i < |Ancestry(t, genesis, h)| ==> Ancestry(t, genesis, h)[i].height == i
  {
    hide IsTree, Ancestry;
    forall i | 0 <= i < |Ancestry(t, genesis, h)| ensures Ancestry(t, genesis, h)[i].height == i {
      AncestryOfMember(t, genesis, h, i);
    }
  }

  /** What setState leaves behind. */
  function Reorganized(s: State, tip: Header, attach: seq<Header>, pool: set<TxId>): State {
    s.(index := Written(s.index, attach), cache := Evicted(s.cache, attach), status := tip, best := tip, pool := pool)
  }

  /** Switching to any other tip, even a lower one, keeps index and cache in order. */
  lemma ReorganizedIsSound(
    s: State, genesis: Hash, tip: Header, attach: seq<Header>, detach: seq<Header>, f: nat, pool: set<TxId>)
    requires IsSound(s, genesis) && tip.hash in s.headers && s.headers[tip.hash] == tip
    requires IsReorganization(s.headers, genesis, tip.hash, s.best.hash, attach, detach, f)
    ensures IsSound(Reorganized(s, tip, attach, pool), genesis)
  {
    hide IsTree, Ancestry, Reversed, Written, Evicted, CacheAgrees;
    var a, d := Ancestry(s.headers, genesis, tip.hash), Ancestry(s.headers, genesis, s.best.hash);
    EvictionKeepsAgreement(s.cache, s.index, attach);
    LineHeights(s.headers, genesis, tip.hash);
    IndexesPrefix(s.index, d, f + 1);
    WritingExtends(s.index, a, f + 1, |a|);
    assert a[f + 1..|a|] == attach && a[..|a|] == a;
  }

  lemma IndexesPrefix(index: map<Height, Hash>, line: seq<Header>, n: nat)
    requires Indexes(index, line) && n <= |line|
    ensures Indexes(index, line[..n])
  {
  }

  /** Up to the best height, the index answers exactly whether a block is an ancestor of the best one. */
  lemma IndexMeansAncestry(s: State, genesis: Hash, h: Hash)
    requires IsSound(s, genesis) && h in s.headers && s.headers[h].height <= s.best.height
    ensures var height := s.headers[h].height;
      height in s.index && (s.index[height] == h <==> IsAncestor(s.headers, genesis, h, s.best.hash))
  {
    hide IsTree, Ancestry;
    var height := s.headers[h].height;
    var line := Ancestry(s.headers, genesis, s.best.hash);
    assert line[height].hash == s.index[height];
    if IsAncestor(s.headers, genesis, h, s.best.hash) {
      var i :| 0 <= i <= s.best.height && line[i].hash == h;
      AncestryOfMember(s.headers, genesis, s.best.hash, i);
    }
  }

  /** Above the best height nothing is an ancestor of the best block. */
  lemma NothingAboveIsAncestor(s: State, genesis: Hash, h: Hash)
    requires IsSound(s, genesis) && h in s.headers && s.headers[h].height > s.best.height
    ensures !IsAncestor(s.headers, genesis, h, s.best.hash)
  {
    hide IsTree, Ancestry;
    if IsAncestor(s.headers, genesis, h, s.best.hash) {
      var i :| 0 <= i <= s.best.height && Ancestry(s.headers, genesis, s.best.hash)[i].hash == h;
      AncestryOfMember(s.headers, genesis, s.best.hash, i);
    }
  }

  lemma {:induction false} OtherHeightsAreKept(index: map<Height, Hash>, line: seq<Header>, h: Height)
    requires forall i :: 0 <= i < |line| ==> line[i].height != h
    ensures h in Written(index, line) <==> h in index
    ensures h in index ==> Written(index, line)[h] == index[h]
  {
    if line != [] {
      OtherHeightsAreKept(index, line[..|line| - 1], h);
    }
  }

  /** After a switch to a lower tip the index still lists the detached blocks above it. */
  lemma StaleAboveBest(
    s: State, genesis: Hash, tip: Header, attach: seq<Header>, detach: seq<Header>, f: nat, pool: set<TxId>, h: Height)
    requires IsSound(s, genesis) && tip.hash in s.headers && s.headers[tip.hash] == tip
    requires IsReorganization(s.headers, genesis, tip.hash, s.best.hash, attach, detach, f)
    requires tip.height < h <= s.best.height
    ensures var gone, now := Ancestry(s.headers, genesis, s.best.hash)[h], Reorganized(s, tip, attach, pool);
      && gone in detach && h in now.index && now.index[h] == gone.hash && gone.hash in s.headers
      && !IsAncestor(s.headers, genesis, gone.hash, tip.hash)
  {
    hide IsTree, Ancestry, Reversed, Written, Evicted;
    var a, d := Ancestry(s.headers, genesis, tip.hash), Ancestry(s.headers, genesis, s.best.hash);
    LineHeights(s.headers, genesis, tip.hash);
    OtherHeightsAreKept(s.index, attach, h);
    AncestryOfMember(s.headers, genesis, s.best.hash, h);
    assert d[f + 1..][h - f - 1] == d[h];
    ReversedAt(d[f + 1..], |d| - 1 - h);
    assert detach[|d| - 1 - h] == d[h];
    ReorganizedIsSound(s, genesis, tip, attach, detach, f, pool);
    NothingAboveIsAncestor(Reorganized(s, tip, attach, pool), genesis, d[h].hash);
  }

  ghost predicate Have(blocks: map<Hash, seq<TxId>>, line: seq<Header>) {
    forall i :: 0 <= i < |line| ==> line[i].hash in blocks && blocks[line[i].hash] != []
  }

  /** The transactions of the blocks, coinbases aside. */
  ghost function Listed(blocks: map<Hash, seq<TxId>>, line: seq<Header>): seq<TxId>
    requires Have(blocks, line)
  {
    if line == [] then [] else Listed(blocks, line[..|line| - 1]) + blocks[line[|line| - 1].hash][1..]
  }

  ghost function Members(txs: seq<TxId>): set<TxId> {
    if txs == [] then {} else Members(txs[..|txs| - 1]) + {txs[|txs| - 1]}
  }

  ghost predicate NoRepeats(txs: seq<TxId>) {
    txs != [] ==> NoRepeats(txs[..|txs| - 1]) && txs[|txs| - 1] !in Members(txs[..|txs| - 1])
  }

  lemma ListedNext(blocks: map<Hash, seq<TxId>>, line: seq<Header>, i: nat)
    requires i < |line| && Have(blocks, line)
    ensures Listed(blocks, line[..i + 1]) == Listed(blocks, line[..i]) + blocks[line[i].hash][1..]
  {
    assert line[..i + 1][..i] == line[..i];
  }

  lemma MembersNext(txs: seq<TxId>, x: TxId)
    ensures Members(txs + [x]) == Members(txs) + {x}
    ensures NoRepeats(txs + [x]) <==> NoRepeats(txs) && x !in Members(txs)
  {
    assert (txs + [x])[..|txs|] == txs;
  }

  lemma {:induction false} MembersOfTwo(s: seq<TxId>, t: seq<TxId>)
    ensures Members(s + t) == Members(s) + Members(t)
    ensures NoRepeats(s + t) ==> NoRepeats(s) && Members(s) !! Members(t)
  {
    if t == [] {
      assert s + t == s;
    } else {
      var t', x := t[..|t| - 1], t[|t| - 1];
      MembersOfTwo(s, t');
      assert s + t == (s + t') + [x] && t == t' + [x];
      MembersNext(s + t', x);
      MembersNext(t', x);
    }
  }

  lemma {:induction false} ListedOfTwo(blocks: map<Hash, seq<TxId>>, s: seq<Header>, t: seq<Header>)
    requires Have(blocks, s) && Have(blocks, t)
    ensures Have(blocks, s + t) && Listed(blocks, s + t) == Listed(blocks, s) + Listed(blocks, t)
  {
    if t == [] {
      assert s + t == s;
    } else {
      var t' := t[..|t| - 1];
      ListedOfTwo(blocks, s, t');
      assert (s + t)[..|s + t| - 1] == s + t';
    }
  }

  lemma {:induction false} ReversedHasSameMembers(blocks: map<Hash, seq<TxId>>, line: seq<Header>)
    requires Have(blocks, line)
    ensures Have(blocks, Reversed(line))
    ensures Members(Listed(blocks, Reversed(line))) == Members(Listed(blocks, line))
  {
    hide Members;
    if line != [] {
      var tail, first := line[1..], [line[0]];
      ReversedHasSameMembers(blocks, tail);
      assert line == first + tail && Have(blocks, first) && Have(blocks, tail);
      ListedOfTwo(blocks, first, tail);
      ListedOfTwo(blocks, Reversed(tail), first);
      MembersOfTwo(Listed(blocks, first), Listed(blocks, tail));
      MembersOfTwo(Listed(blocks, Reversed(tail)), Listed(blocks, first));
    }
  }

  lemma LineHasBlocks(s: State, genesis: Hash, h: Hash)
    requires IsTree(s.headers, genesis) && HaveBlocks(s.headers, s.blocks) && h in s.headers
    ensures Have(s.blocks, Ancestry(s.headers, genesis, h))
  {
    hide IsTree, Ancestry;
    var line := Ancestry(s.headers, genesis, h);
    forall i | 0 <= i < |line| ensures line[i].hash in s.blocks && s.blocks[line[i].hash] != [] {
      AncestryOfMember(s.headers, genesis, h, i);
    }
  }

  lemma ListsHaveBlocks(
    s: State, genesis: Hash, tip: Hash, attach: seq<Header>, detach: seq<Header>, f: nat)
    requires IsSound(s, genesis) && tip in s.headers
    requires IsReorganization(s.headers, genesis, tip, s.best.hash, attach, detach, f)
    ensures Have(s.blocks, attach) && Have(s.blocks, detach)
  {
    hide IsTree, Ancestry, Reversed;
    LineHasBlocks(s, genesis, tip);
    LineHasBlocks(s, genesis, s.best.hash);
    var d := Ancestry(s.headers, genesis, s.best.hash);
    forall k | 0 <= k < |detach| ensures detach[k].hash in s.blocks && s.blocks[detach[k].hash] != [] {
      ReversedAt(d[f + 1..], k);
    }
  }

  /** No transaction of the pool is on the line. */
  ghost predicate IsFresh(s: State, genesis: Hash, tip: Hash, pool: set<TxId>)
    requires IsTree(s.headers, genesis) && HaveBlocks(s.headers, s.blocks) && tip in s.headers
  {
    LineHasBlocks(s, genesis, tip);
    Members(Listed(s.blocks, Ancestry(s.headers, genesis, tip))) !! pool
  }

  /** No transaction of the pool is on the main chain. */
  ghost predicate IsPoolFresh(s: State, genesis: Hash)
    requires IsSound(s, genesis)
  {
    IsFresh(s, genesis, s.best.hash, s.pool)
  }

  /** No transaction is twice on the main chain. */
  ghost predicate HasNoRepeats(s: State, genesis: Hash)
    requires IsSound(s, genesis)
  {
    LineHasBlocks(s, genesis, s.best.hash);
    NoRepeats(Listed(s.blocks, Ancestry(s.headers, genesis, s.best.hash)))
  }

  /** The same with the state after the switch, as one step. */
  lemma SwitchKeepsFresh(
    s: State, genesis: Hash, tip: Header, attach: seq<Header>, detach: seq<Header>, f: nat,
    removed: set<TxId>, accepted: set<TxId>, s': State)
    requires IsSound(s, genesis) && IsSound(s', genesis) && tip.hash in s.headers && s.headers[tip.hash] == tip
    requires IsReorganization(s.headers, genesis, tip.hash, s.best.hash, attach, detach, f)
    requires Have(s.blocks, attach) && Have(s.blocks, detach)
    requires var a, d := Members(Listed(s.blocks, attach)), Members(Listed(s.blocks, detach));
      a - d <= removed && accepted <= d - a
    requires s'.headers == s.headers && s'.blocks == s.blocks && s'.best == tip
    requires s'.pool == (s.pool - removed) + accepted
    requires IsPoolFresh(s, genesis) && HasNoRepeats(s, genesis)
    ensures IsPoolFresh(s', genesis)
  {
    hide IsTree, Ancestry, Listed, Members, NoRepeats, IsReorganization;
    LineHasBlocks(s, genesis, s.best.hash);
    PoolStaysFresh(s, genesis, tip, attach, detach, f, removed, accepted);
  }

  lemma ListedSplits(blocks: map<Hash, seq<TxId>>, line: seq<Header>, n: nat)
    requires Have(blocks, line) && n <= |line|
    ensures Listed(blocks, line) == Listed(blocks, line[..n]) + Listed(blocks, line[n..])
  {
    hide Listed;
    assert line == line[..n] + line[n..];
    ListedOfTwo(blocks, line[..n], line[n..]);
  }

  /** A pool with nothing from the old chain has nothing from the new one after the switch. */
  lemma PoolStaysFresh(
    s: State, genesis: Hash, tip: Header, attach: seq<Header>, detach: seq<Header>, f: nat,
    removed: set<TxId>, accepted: set<TxId>)
    requires IsSound(s, genesis) && tip.hash in s.headers && s.headers[tip.hash] == tip
    requires IsReorganization(s.headers, genesis, tip.hash, s.best.hash, attach, detach, f)
    requires Have(s.blocks, attach) && Have(s.blocks, detach)
    requires Have(s.blocks, Ancestry(s.headers, genesis, s.best.hash))
    requires NoRepeats(Listed(s.blocks, Ancestry(s.headers, genesis, s.best.hash)))
    requires IsFresh(s, genesis, s.best.hash, s.pool)
    requires var a, d := Members(Listed(s.blocks, attach)), Members(Listed(s.blocks, detach));
      a - d <= removed && accepted <= d - a
    ensures IsFresh(s, genesis, tip.hash, (s.pool - removed) + accepted)
  {
    hide IsTree, Ancestry, Reversed, Listed, Members, NoRepeats;
    var a, d := Ancestry(s.headers, genesis, tip.hash), Ancestry(s.headers, genesis, s.best.hash);
    LineHasBlocks(s, genesis, tip.hash);
    ListedSplits(s.blocks, a, f + 1);
    ListedSplits(s.blocks, d, f + 1);
    ReversedHasSameMembers(s.blocks, d[f + 1..]);
    MembersOfTwo(Listed(s.blocks, a[..f + 1]), Listed(s.blocks, a[f + 1..]));
    MembersOfTwo(Listed(s.blocks, d[..f + 1]), Listed(s.blocks, d[f + 1..]));
  }

  /** New blocks do not change the lines of old ones. */
  lemma {:induction false} AncestryIsKept(t: Tree, more: Tree, genesis: Hash, h: Hash)
    requires IsTree(t, genesis) && IsTree(more, genesis) && h in t
    requires forall x :: x in t ==> x in more && more[x] == t[x]
    ensures Ancestry(more, genesis, h) == Ancestry(t, genesis, h)
    decreases t[h].height
  {
    assert LinksUp(t, genesis, h);
    if t[h].height > 0 {
      AncestryIsKept(t, more, genesis, t[h].previous);
    }
  }

  lemma TreeGrows(t: Tree, genesis: Hash, header: Header)
    requires IsTree(t, genesis) && header.hash !in t
    requires header.previous in t && header.height == t[header.previous].height + 1
    ensures IsTree(t[header.hash := header], genesis)
  {
    var more := t[header.hash := header];
    forall h | h in more ensures LinksUp(more, genesis, h) {
      if h != header.hash {
        assert LinksUp(t, genesis, h);
      }
    }
  }
}
