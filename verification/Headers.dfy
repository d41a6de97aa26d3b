/** The tree of block headers, and the way from one tip to another. */
module Headers {
  type Hash = nat

  datatype Header = Header(height: nat, hash: Hash, previous: Hash)

  type Tree = map<Hash, Header>

  ghost predicate LinksUp(t: Tree, genesis: Hash, h: Hash)
    requires h in t
  {
    && t[h].hash == h
    && if t[h].height == 0 then h == genesis else t[h].previous in t && t[t[h].previous].height + 1 == t[h].height
  }

  /** Every header but the first is one above its parent. */
  ghost predicate IsTree(t: Tree, genesis: Hash) {
    && genesis in t && t[genesis].height == 0
    && forall h {:trigger LinksUp(t, genesis, h)} :: h in t ==> LinksUp(t, genesis, h)
  }

  /** The headers from the first one up to h. */
  ghost function Ancestry(t: Tree, genesis: Hash, h: Hash): (line: seq<Header>)
    requires IsTree(t, genesis) && h in t
    ensures |line| == t[h].height + 1 && line[|line| - 1] == t[h]
    decreases t[h].height
  {
    assert LinksUp(t, genesis, h);
    if t[h].height == 0 then [t[h]] else Ancestry(t, genesis, t[h].previous) + [t[h]]
  }

  /** The line of any member is the start of the line. */
  lemma {:induction false} AncestryOfMember(t: Tree, genesis: Hash, h: Hash, i: nat)
    requires IsTree(t, genesis) && h in t && i <= t[h].height
    ensures var x := Ancestry(t, genesis, h)[i];
      && x.hash in t && t[x.hash] == x && x.height == i
      && Ancestry(t, genesis, x.hash) == Ancestry(t, genesis, h)[..i + 1]
    decreases t[h].height
  {
    assert LinksUp(t, genesis, h);
    var line := Ancestry(t, genesis, h);
    if i == t[h].height {
      assert line[..i + 1] == line;
    } else {
      AncestryOfMember(t, genesis, t[h].previous, i);
      assert line[..i + 1] == Ancestry(t, genesis, t[h].previous)[..i + 1];
    }
  }

  ghost predicate IsAncestor(t: Tree, genesis: Hash, x: Hash, h: Hash)
    requires IsTree(t, genesis) && h in t
  {
    exists i :: 0 <= i <= t[h].height && Ancestry(t, genesis, h)[i].hash == x
  }

  ghost function Reversed(s: seq<Header>): (r: seq<Header>)
    ensures |r| == |s|
  {
    if s == [] then [] else Reversed(s[1..]) + [s[0]]
  }

  /** The two lines agree up to height f and nowhere above it. */
  ghost predicate ForksAt(a: seq<Header>, d: seq<Header>, f: nat) {
    && f < |a| && f < |d| && a[..f + 1] == d[..f + 1]
    && forall i :: f < i < |a| && i < |d| ==> a[i] != d[i]
  }

  /** Down from the old tip to just above the fork, and up from there to the new tip. */
  ghost predicate IsReorganization(
    t: Tree, genesis: Hash, newTip: Hash, oldTip: Hash, attach: seq<Header>, detach: seq<Header>, f: nat)
    requires IsTree(t, genesis) && newTip in t && oldTip in t
  {
    var a, d := Ancestry(t, genesis, newTip), Ancestry(t, genesis, oldTip);
    ForksAt(a, d, f) && attach == a[f + 1..] && detach == Reversed(d[f + 1..])
  }

  lemma ReversedNext(s: seq<Header>, i: nat)
    requires i < |s|
    ensures Reversed(s[i..]) == Reversed(s[i + 1..]) + [s[i]]
  {
    assert s[i..][1..] == s[i + 1..];
  }

  lemma {:induction false} ReversedAt(s: seq<Header>, k: nat)
    requires k < |s|
    ensures Reversed(s)[k] == s[|s| - 1 - k]
  {
    if k < |s| - 1 {
      ReversedAt(s[1..], k);
    }
  }

  lemma ParentOnLine(t: Tree, genesis: Hash, h: Hash, i: nat)
    requires IsTree(t, genesis) && h in t && 0 < i <= t[h].height
    ensures var line := Ancestry(t, genesis, h);
      line[i].previous in t && t[line[i].previous] == line[i - 1] && line[i - 1].height == i - 1
  {
    AncestryOfMember(t, genesis, h, i);
    AncestryOfMember(t, genesis, h, i - 1);
    var x := Ancestry(t, genesis, h)[i];
    assert LinksUp(t, genesis, x.hash);
    assert Ancestry(t, genesis, x.hash)[i - 1] == Ancestry(t, genesis, x.previous)[i - 1];
  }

  /** Headers of height zero are the first one, so the lines meet there at the latest. */
  lemma LinesStartTogether(t: Tree, genesis: Hash, x: Hash, y: Hash)
    requires IsTree(t, genesis) && x in t && y in t && t[x].height == t[y].height == 0
    ensures x == y
  {
    assert LinksUp(t, genesis, x) && LinksUp(t, genesis, y);
  }

  lemma LinesAgreeBelow(t: Tree, genesis: Hash, x: Hash, y: Hash, f: nat)
    requires IsTree(t, genesis) && x in t && y in t && f <= t[x].height && f <= t[y].height
    requires Ancestry(t, genesis, x)[f] == Ancestry(t, genesis, y)[f]
    ensures Ancestry(t, genesis, x)[..f + 1] == Ancestry(t, genesis, y)[..f + 1]
  {
    AncestryOfMember(t, genesis, x, f);
    AncestryOfMember(t, genesis, y, f);
  }

  ghost predicate IsOnLine(t: Tree, line: seq<Header>, h: Header) {
    h.height < |line| && line[h.height] == h && h.hash in t && t[h.hash] == h
  }

  lemma TipIsOnLine(t: Tree, genesis: Hash, tip: Header)
    requires IsTree(t, genesis) && tip.hash in t && t[tip.hash] == tip
    ensures var line := Ancestry(t, genesis, tip.hash);
      |line| == tip.height + 1 && IsOnLine(t, line, tip) && line[tip.height + 1..] == []
  {
  }

  lemma StepDown(t: Tree, genesis: Hash, tip: Hash, h: Header)
    requires IsTree(t, genesis) && tip in t && IsOnLine(t, Ancestry(t, genesis, tip), h) && h.height > 0
    ensures h.previous in t && t[h.previous].height == h.height - 1
    ensures IsOnLine(t, Ancestry(t, genesis, tip), t[h.previous])
  {
    hide IsTree, Ancestry;
    ParentOnLine(t, genesis, tip, h.height);
    AncestryOfMember(t, genesis, tip, h.height - 1);
  }

  /** Wherever one of the lines has been passed, they disagree. */
  ghost predicate DisagreeAbove(a: seq<Header>, d: seq<Header>, i: int, j: int) {
    forall k :: (i < k || j < k) && 0 <= k < |a| && k < |d| ==> a[k] != d[k]
  }

  lemma DisagreeBelow(a: seq<Header>, d: seq<Header>, x: Header, y: Header)
    requires DisagreeAbove(a, d, x.height, y.height) && x != y
    requires x.height < |a| && a[x.height] == x && y.height < |d| && d[y.height] == y
    ensures x.height >= y.height ==>
      DisagreeAbove(a, d, x.height - 1, if x.height == y.height then y.height - 1 else y.height)
    ensures x.height < y.height ==> DisagreeAbove(a, d, x.height, y.height - 1)
  {
  }

  lemma NotBothLowest(t: Tree, genesis: Hash, x: Header, y: Header)
    requires IsTree(t, genesis) && x.hash in t && y.hash in t && t[x.hash] == x && t[y.hash] == y
    requires x.hash != y.hash
    ensures x.height > 0 || y.height > 0
  {
    if x.height == y.height == 0 {
      LinesStartTogether(t, genesis, x.hash, y.hash);
    }
  }

  lemma LinesMeet(t: Tree, genesis: Hash, x: Hash, y: Hash, h: Header)
    requires IsTree(t, genesis) && x in t && y in t
    requires var a, d := Ancestry(t, genesis, x), Ancestry(t, genesis, y);
      IsOnLine(t, a, h) && IsOnLine(t, d, h) && DisagreeAbove(a, d, h.height, h.height)
    ensures ForksAt(Ancestry(t, genesis, x), Ancestry(t, genesis, y), h.height)
  {
    hide IsTree, Ancestry;
    LinesAgreeBelow(t, genesis, x, y, h.height);
  }

  method CalcReorganizeChain(t: Tree, ghost genesis: Hash, beginAttach: Header, beginDetach: Header)
    returns (attach: seq<Header>, detach: seq<Header>)
    requires IsTree(t, genesis)
    requires beginAttach.hash in t && t[beginAttach.hash] == beginAttach
    requires beginDetach.hash in t && t[beginDetach.hash] == beginDetach
    ensures exists f :: IsReorganization(t, genesis, beginAttach.hash, beginDetach.hash, attach, detach, f)
  {
    hide IsTree, Ancestry, Reversed, DisagreeAbove, ForksAt;
    ghost var a, d := Ancestry(t, genesis, beginAttach.hash), Ancestry(t, genesis, beginDetach.hash);
    attach, detach := [], [];
    var attachHeader, detachHeader := beginAttach, beginDetach;
    NothingReversed();
    TipIsOnLine(t, genesis, beginAttach);
    TipIsOnLine(t, genesis, beginDetach);
    TipsDisagree(a, d);
    while detachHeader.hash != attachHeader.hash
      invariant IsOnLine(t, a, attachHeader) && IsOnLine(t, d, detachHeader)
      invariant attach == a[attachHeader.height + 1..]
      invariant detach == Reversed(d[detachHeader.height + 1..])
      invariant DisagreeAbove(a, d, attachHeader.height, detachHeader.height)
      decreases attachHeader.height + detachHeader.height
    {
      NotBothLowest(t, genesis, attachHeader, detachHeader);
      DisagreeBelow(a, d, attachHeader, detachHeader);
      var attachRollback := attachHeader.height >= detachHeader.height;
      if attachRollback {
        attach := [attachHeader] + attach;
      }
      var detachRollback := attachHeader.height <= detachHeader.height;
      if detachRollback {
        ReversedNext(d, detachHeader.height);
        detach := detach + [detachHeader];
      }
      if attachRollback {
        StepDown(t, genesis, beginAttach.hash, attachHeader);
        attachHeader := t[attachHeader.previous];
      }
      if detachRollback {
        StepDown(t, genesis, beginDetach.hash, detachHeader);
        detachHeader := t[detachHeader.previous];
      }
    }
    LinesMeet(t, genesis, beginAttach.hash, beginDetach.hash, attachHeader);
    assert IsReorganization(
        t, genesis, beginAttach.hash, beginDetach.hash, attach, detach, attachHeader.height);
  }

  lemma TipsDisagree(a: seq<Header>, d: seq<Header>)
    ensures DisagreeAbove(a, d, |a| - 1, |d| - 1)
  {
  }

  lemma NothingReversed()
    ensures Reversed([]) == []
  {
  }

  /** There is only one way from tip to tip. */
  lemma ReorganizationIsUnique(
    t: Tree, genesis: Hash, newTip: Hash, oldTip: Hash,
    attach: seq<Header>, detach: seq<Header>, f: nat, attach': seq<Header>, detach': seq<Header>, f': nat)
    requires IsTree(t, genesis) && newTip in t && oldTip in t
    requires IsReorganization(t, genesis, newTip, oldTip, attach, detach, f)
    requires IsReorganization(t, genesis, newTip, oldTip, attach', detach', f')
    ensures f == f' && attach == attach' && detach == detach'
  {
    hide IsTree, Ancestry, Reversed;
    var a, d := Ancestry(t, genesis, newTip), Ancestry(t, genesis, oldTip);
    assert a[f'] == a[..f' + 1][f'] == d[..f' + 1][f'] == d[f'];
    assert a[f] == a[..f + 1][f] == d[..f + 1][f] == d[f];
  }

  /** What is detached is not attached, and each list is linked from parent to child. */
  lemma ReorganizationIsLinked(
    t: Tree, genesis: Hash, newTip: Hash, oldTip: Hash, attach: seq<Header>, detach: seq<Header>, f: nat)
    requires IsTree(t, genesis) && newTip in t && oldTip in t
    requires IsReorganization(t, genesis, newTip, oldTip, attach, detach, f)
    ensures forall i, k :: 0 <= i < |attach| && 0 <= k < |detach| ==> attach[i].hash != detach[k].hash
    ensures forall i :: 0 < i < |attach| ==> attach[i].previous == attach[i - 1].hash
    ensures forall k :: 0 < k < |detach| ==> detach[k - 1].previous == detach[k].hash
  {
    hide IsTree, Ancestry, Reversed;
    var a, d := Ancestry(t, genesis, newTip), Ancestry(t, genesis, oldTip);
    var up := d[f + 1..];
    forall i | 0 <= i < |attach|
      ensures attach[i].height == f + 1 + i && attach[i].hash in t && t[attach[i].hash] == attach[i]
      ensures i > 0 ==> attach[i].previous == attach[i - 1].hash
    {
      AncestryOfMember(t, genesis, newTip, f + 1 + i);
      if i > 0 {
        ParentOnLine(t, genesis, newTip, f + 1 + i);
        AncestryOfMember(t, genesis, newTip, f + i);
        assert a[f + i] == attach[i - 1];
        PreviousIsHash(t, genesis, a[f + 1 + i].previous);
      }
    }
    forall k | 0 <= k < |detach|
      ensures detach[k] == d[|d| - 1 - k] && detach[k].height == |d| - 1 - k
      ensures detach[k].hash in t && t[detach[k].hash] == detach[k]
      ensures k > 0 ==> detach[k - 1].previous == detach[k].hash
    {
      ReversedAt(up, k);
      AncestryOfMember(t, genesis, oldTip, |d| - 1 - k);
      if k > 0 {
        ReversedAt(up, k - 1);
        ParentOnLine(t, genesis, oldTip, |d| - k);
        PreviousIsHash(t, genesis, d[|d| - k].previous);
      }
    }
    forall i, k | 0 <= i < |attach| && 0 <= k < |detach| ensures attach[i].hash != detach[k].hash {
      assert a[f + 1 + i] == attach[i];
      assert d[|d| - 1 - k] == detach[k];
    }
  }

  lemma PreviousIsHash(t: Tree, genesis: Hash, h: Hash)
    requires IsTree(t, genesis) && h in t
    ensures t[h].hash == h
  {
    assert LinksUp(t, genesis, h);
  }
}
