/** Blocks whose parent is not known yet, indexed by hash and by parent. */
module OrphanManage {
  import opened Wrappers

  type Hash = nat

  datatype Orphan = Orphan(previous: Hash, expiration: int)

  const LIMIT: nat := 256
  const TTL: int := 3600

  predicate Contains(list: seq<Hash>, h: Hash) {
    list != [] && (list[0] == h || Contains(list[1..], h))
  }

  predicate NoRepeats(list: seq<Hash>) {
    list != [] ==> !Contains(list[1..], list[0]) && NoRepeats(list[1..])
  }

  function Without(list: seq<Hash>, h: Hash): seq<Hash> {
    if list == [] then [] else if list[0] == h then list[1..] else [list[0]] + Without(list[1..], h)
  }

  lemma {:induction false} ContainsAppended(list: seq<Hash>, h: Hash, x: Hash)
    ensures Contains(list + [h], x) <==> Contains(list, x) || x == h
    ensures NoRepeats(list + [h]) <==> NoRepeats(list) && !Contains(list, h)
  {
    if list == [] {
      assert (list + [h])[1..] == [];
    } else {
      assert (list + [h])[1..] == list[1..] + [h];
      ContainsAppended(list[1..], h, x);
      ContainsAppended(list[1..], h, list[0]);
    }
  }

  lemma {:induction false} ContainsWithout(list: seq<Hash>, h: Hash, x: Hash)
    requires NoRepeats(list)
    ensures Contains(Without(list, h), x) <==> Contains(list, x) && x != h
    ensures NoRepeats(Without(list, h))
  {
    if list != [] && list[0] != h {
      assert ([list[0]] + Without(list[1..], h))[1..] == Without(list[1..], h);
      ContainsWithout(list[1..], h, x);
      ContainsWithout(list[1..], h, list[0]);
    }
  }

  lemma {:induction false} WithoutAt(list: seq<Hash>, i: nat)
    requires i < |list| && NoRepeats(list)
    ensures Without(list, list[i]) == list[..i] + list[i + 1..]
    ensures Contains(list, list[i])
  {
    if i > 0 {
      var tail := list[1..];
      WithoutAt(tail, i - 1);
      CutInTail(list, tail, i);
    }
  }

  lemma CutInTail(list: seq<Hash>, tail: seq<Hash>, i: nat)
    requires 0 < i < |list| && tail == list[1..]
    ensures list[..i] + list[i + 1..] == [list[0]] + (tail[..i - 1] + tail[i..])
  {
  }

  lemma {:induction false} ContainsAt(list: seq<Hash>, h: Hash) returns (i: nat)
    requires Contains(list, h)
    ensures i < |list| && list[i] == h
  {
    if list[0] == h {
      i := 0;
    } else {
      i := ContainsAt(list[1..], h);
      i := i + 1;
    }
  }

  /** Each parent lists exactly once each of its stored children, and no parent lists nothing. */
  ghost predicate IsExact(orphans: map<Hash, Orphan>, children: map<Hash, seq<Hash>>) {
    && (forall p :: p in children ==> children[p] != [] && NoRepeats(children[p]))
    && (forall p, h :: p in children && Contains(children[p], h) ==> h in orphans && orphans[h].previous == p)
    && (forall h :: h in orphans ==>
          orphans[h].previous in children && Contains(children[orphans[h].previous], h))
  }

  function Listed(children: map<Hash, seq<Hash>>, p: Hash): seq<Hash> {
    if p in children then children[p] else []
  }

  function Registered(children: map<Hash, seq<Hash>>, p: Hash, h: Hash): map<Hash, seq<Hash>> {
    children[p := Listed(children, p) + [h]]
  }

  function Unregistered(children: map<Hash, seq<Hash>>, p: Hash, h: Hash): map<Hash, seq<Hash>> {
    if |Listed(children, p)| <= 1 then children - {p} else children[p := Without(children[p], h)]
  }

  lemma AddKeepsExact(orphans: map<Hash, Orphan>, children: map<Hash, seq<Hash>>, h: Hash, block: Orphan)
    requires IsExact(orphans, children) && h !in orphans
    ensures IsExact(orphans[h := block], Registered(children, block.previous, h))
  {
    hide Contains, NoRepeats;
    var p := block.previous;
    var list := Listed(children, p);
    NothingContained();
    forall x ensures Contains(list + [h], x) <==> Contains(list, x) || x == h {
      ContainsAppended(list, h, x);
    }
    ContainsAppended(list, h, h);
  }

  lemma NothingContained()
    ensures NoRepeats([]) && forall h :: !Contains([], h)
  {
  }

  lemma DeleteKeepsExact(orphans: map<Hash, Orphan>, children: map<Hash, seq<Hash>>, h: Hash)
    requires IsExact(orphans, children) && h in orphans
    ensures IsExact(orphans - {h}, Unregistered(children, orphans[h].previous, h))
  {
    hide Contains, NoRepeats, Without;
    var p := orphans[h].previous;
    var list := children[p];
    forall x ensures Contains(Without(list, h), x) <==> Contains(list, x) && x != h {
      ContainsWithout(list, h, x);
    }
    ContainsWithout(list, h, h);
    if |list| == 1 {
      forall x | Contains(list, x) ensures x == h {
        OnlyOneContained(list, h, x);
      }
    } else {
      TwoContained(list, h);
    }
  }

  lemma IsListed(orphans: map<Hash, Orphan>, children: map<Hash, seq<Hash>>, h: Hash)
    requires IsExact(orphans, children) && h in orphans
    ensures var p := orphans[h].previous;
      p in children && Contains(children[p], h) && NoRepeats(children[p]) && children[p] != []
  {
    hide Contains, NoRepeats;
  }

  lemma OnlyOneContained(list: seq<Hash>, h: Hash, x: Hash)
    requires |list| == 1 && Contains(list, h) && Contains(list, x)
    ensures x == h
  {
  }

  lemma TwoContained(list: seq<Hash>, h: Hash)
    requires |list| > 1
    ensures Without(list, h) != []
  {
  }

  class Manager {
    var orphan: map<Hash, Orphan>
    var prevOrphans: map<Hash, seq<Hash>>

    ghost predicate Valid()
      reads this
    {
      IsExact(orphan, prevOrphans) && |orphan| <= LIMIT
    }

    constructor ()
      ensures Valid() && orphan == map[]
    {
      orphan, prevOrphans := map[], map[];
    }

    /** evicted is the block that made room, if there was none left. */
    method Add(blockHash: Hash, previous: Hash, now: int) returns (ghost evicted: Option<Hash>)
      requires Valid()
      modifies this
      ensures Valid() && blockHash in orphan
      ensures blockHash in old(orphan) || |old(orphan)| < 256 ==> evicted == None
      ensures blockHash in old(orphan) ==> orphan == old(orphan) && prevOrphans == old(prevOrphans)
      ensures blockHash !in old(orphan) && |old(orphan)| < 256 ==>
        && orphan == old(orphan)[blockHash := Orphan(previous, now + 3600)]
        && prevOrphans == Registered(old(prevOrphans), previous, blockHash)
      ensures blockHash !in old(orphan) && |old(orphan)| >= 256 ==>
        && evicted.Some? && evicted.value in old(orphan)
        && (forall h :: h in old(orphan) ==> old(orphan)[evicted.value].expiration <= old(orphan)[h].expiration)
        && orphan == (old(orphan) - {evicted.value})[blockHash := Orphan(previous, now + 3600)]
    {
      hide IsExact;
      evicted := None;
      if blockHash in orphan {
        return;
      }
      if |orphan| >= LIMIT {
        evicted := DeleteLRU();
      }
      AddKeepsExact(orphan, prevOrphans, blockHash, Orphan(previous, now + TTL));
      orphan := orphan[blockHash := Orphan(previous, now + TTL)];
      prevOrphans := prevOrphans[previous := Listed(prevOrphans, previous) + [blockHash]];
    }

    method Delete(hash: Hash)
      requires Valid()
      modifies this
      ensures Valid() && orphan == old(orphan) - {hash}
      ensures hash in old(orphan) ==>
        prevOrphans == Unregistered(old(prevOrphans), old(orphan)[hash].previous, hash)
      ensures hash !in old(orphan) ==> prevOrphans == old(prevOrphans)
    {
      hide Contains, NoRepeats, Without, IsExact;
      if hash !in orphan {
        assert orphan - {hash} == orphan;
        return;
      }
      DeleteKeepsExact(orphan, prevOrphans, hash);
      IsListed(orphan, prevOrphans, hash);
      var block := orphan[hash];
      var list := prevOrphans[block.previous];
      orphan := orphan - {hash};
      if |list| == 1 {
        prevOrphans := prevOrphans - {block.previous};
        return;
      }
      ghost var at := ContainsAt(list, hash);
      for i := 0 to |list|
        invariant i <= at
        invariant prevOrphans == old(prevOrphans)
      {
        if list[i] == hash {
          WithoutAt(list, i);
          prevOrphans := prevOrphans[block.previous := list[..i] + list[i + 1..]];
          return;
        }
      }
    }

    /** One of those that expire first. */
    method DeleteLRU() returns (ghost deleted: Option<Hash>)
      requires Valid()
      modifies this
      ensures Valid()
      ensures deleted.None? ==> old(orphan) == map[] && orphan == map[]
      ensures deleted.Some? ==>
        && deleted.value in old(orphan) && orphan == old(orphan) - {deleted.value}
        && forall h :: h in old(orphan) ==> old(orphan)[deleted.value].expiration <= old(orphan)[h].expiration
    {
      hide IsExact;
      var deleteBlock: Option<Hash> := None;
      var left := orphan.Keys;
      while left != {}
        invariant left <= orphan.Keys
        invariant deleteBlock.None? ==> left == orphan.Keys
        invariant deleteBlock.Some? ==>
          && deleteBlock.value in orphan
          && forall h :: h in orphan && h !in left ==> orphan[deleteBlock.value].expiration <= orphan[h].expiration
        decreases |left|
      {
        var h :| h in left;
        left := left - {h};
        if deleteBlock.None? || orphan[h].expiration < orphan[deleteBlock.value].expiration {
          deleteBlock := Some(h);
        }
      }
      deleted := deleteBlock;
      if deleteBlock.Some? {
        Delete(deleteBlock.value);
      }
    }

    /** Everything that has expired, and nothing else. */
    method OrphanExpire(now: int)
      requires Valid()
      modifies this
      ensures Valid()
      ensures forall h :: h in orphan <==> h in old(orphan) && old(orphan)[h].expiration >= now
      ensures forall h :: h in orphan ==> orphan[h] == old(orphan)[h]
    {
      hide IsExact;
      var left := orphan.Keys;
      while left != {}
        invariant Valid() && left <= old(orphan).Keys
        invariant forall h :: h in left ==> h in orphan
        invariant forall h :: h in orphan ==> h in old(orphan) && orphan[h] == old(orphan)[h]
        invariant forall h :: h in old(orphan) && h !in left ==>
                    (h in orphan <==> old(orphan)[h].expiration >= now)
        decreases |left|
      {
        var h :| h in left;
        left := left - {h};
        if orphan[h].expiration < now {
          Delete(h);
        }
      }
    }
  }
}
