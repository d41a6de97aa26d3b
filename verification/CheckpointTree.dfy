/** The tree of checkpoints, grown level by level from the stored ones. */
module CheckpointTree {
  import opened ForkChoice

  /** A checkpoint with the hash of its parent. */
  datatype Stored = Stored(cp: Checkpoint, parent: nat)

  class TreeNode {
    const cp: Checkpoint
    var children: seq<TreeNode>

    constructor (cp: Checkpoint)
      ensures this.cp == cp && children == []
    {
      this.cp := cp;
      children := [];
    }
  }

  /** The stored checkpoints below a hash, in the order of the list. */
  function Below(list: seq<Stored>, hash: nat): seq<Checkpoint> {
    if list == [] then []
    else
      var rest := Below(list[..|list| - 1], hash);
      if list[|list| - 1].parent == hash then rest + [list[|list| - 1].cp] else rest
  }

  /** Parents are lower than their children, and nothing is higher than the limit. */
  ghost predicate IsRising(list: seq<Stored>, limit: nat) {
    && (forall i :: 0 <= i < |list| ==> list[i].cp.height <= limit)
    && forall i, k :: 0 <= i < |list| && 0 <= k < |list| && list[i].parent == list[k].cp.hash ==>
         list[k].cp.height < list[i].cp.height
  }

  ghost predicate IsAbove(list: seq<Stored>, cp: Checkpoint) {
    forall i :: 0 <= i < |list| && list[i].parent == cp.hash ==> cp.height < list[i].cp.height
  }

  ghost predicate AllAbove(list: seq<Stored>, cps: seq<Checkpoint>, floor: nat, limit: nat) {
    forall i :: 0 <= i < |cps| ==> IsAbove(list, cps[i]) && floor < cps[i].height <= limit
  }

  lemma {:induction false} BelowAreStored(list: seq<Stored>, prefix: seq<Stored>, hash: nat, i: nat)
    requires prefix <= list && i < |Below(prefix, hash)|
    ensures exists k :: 0 <= k < |list| && list[k].parent == hash && list[k].cp == Below(prefix, hash)[i]
  {
    if prefix != [] {
      var init := prefix[..|prefix| - 1];
      if i < |Below(init, hash)| {
        BelowAreStored(list, init, hash, i);
      } else {
        assert list[|prefix| - 1].parent == hash;
      }
    }
  }

  lemma BelowRise(list: seq<Stored>, limit: nat, cp: Checkpoint)
    requires IsRising(list, limit) && IsAbove(list, cp)
    ensures AllAbove(list, Below(list, cp.hash), cp.height, limit)
  {
    hide Below;
    var cps := Below(list, cp.hash);
    forall i | 0 <= i < |cps| ensures IsAbove(list, cps[i]) && cp.height < cps[i].height <= limit {
      BelowAreStored(list, list, cp.hash, i);
      var k :| 0 <= k < |list| && list[k].parent == cp.hash && list[k].cp == cps[i];
    }
  }

  /** The tree that the parent hashes describe. */
  ghost function Grown(list: seq<Stored>, limit: nat, cp: Checkpoint): (t: Tree)
    requires IsRising(list, limit) && IsAbove(list, cp) && cp.height <= limit
    ensures t.cp == cp
    decreases limit - cp.height, 1
  {
    BelowRise(list, limit, cp);
    Node(cp, AllGrown(list, limit, cp.height, Below(list, cp.hash)))
  }

  ghost function AllGrown(list: seq<Stored>, limit: nat, floor: nat, cps: seq<Checkpoint>): (ts: seq<Tree>)
    requires IsRising(list, limit) && AllAbove(list, cps, floor, limit)
    ensures |ts| == |cps|
    decreases limit - floor, 0, |cps|
  {
    if cps == [] then []
    else
      assert IsAbove(list, cps[0]) && floor < cps[0].height <= limit;
      [Grown(list, limit, cps[0])] + AllGrown(list, limit, floor, cps[1..])
  }

  ghost function Size(t: Tree): nat
    decreases t, 0
  {
    1 + SizeOfAll(t.children)
  }

  ghost function SizeOfAll(ts: seq<Tree>): nat
    decreases ts, 1
  {
    if ts == [] then 0 else Size(ts[0]) + SizeOfAll(ts[1..])
  }

  /** The checkpoints are ready to be grown. */
  ghost predicate AreReady(list: seq<Stored>, limit: nat, cps: seq<Checkpoint>) {
    forall i :: 0 <= i < |cps| ==> IsAbove(list, cps[i]) && cps[i].height <= limit
  }

  /** How many nodes the checkpoints in the queue will become. */
  ghost function Pending(list: seq<Stored>, limit: nat, cps: seq<Checkpoint>): nat
    requires IsRising(list, limit) && AreReady(list, limit, cps)
  {
    if cps == [] then 0 else Size(Grown(list, limit, cps[0])) + Pending(list, limit, cps[1..])
  }

  lemma {:induction false} PendingIsSize(list: seq<Stored>, limit: nat, floor: nat, cps: seq<Checkpoint>)
    requires IsRising(list, limit) && AllAbove(list, cps, floor, limit)
    ensures AreReady(list, limit, cps) && Pending(list, limit, cps) == SizeOfAll(AllGrown(list, limit, floor, cps))
    decreases |cps|
  {
    hide Grown, Size, IsAbove;
    if cps != [] {
      PendingIsSize(list, limit, floor, cps[1..]);
      var ts := AllGrown(list, limit, floor, cps);
      assert ts == [Grown(list, limit, cps[0])] + AllGrown(list, limit, floor, cps[1..]);
      assert ts[1..] == AllGrown(list, limit, floor, cps[1..]);
    }
  }

  lemma {:induction false} PendingOfTwo(list: seq<Stored>, limit: nat, a: seq<Checkpoint>, b: seq<Checkpoint>)
    requires IsRising(list, limit) && AreReady(list, limit, a) && AreReady(list, limit, b)
    ensures AreReady(list, limit, a + b)
    ensures Pending(list, limit, a + b) == Pending(list, limit, a) + Pending(list, limit, b)
    decreases |a|
  {
    hide Grown, Size, IsAbove;
    if a == [] {
      assert a + b == b;
    } else {
      assert (a + b)[1..] == a[1..] + b;
      PendingOfTwo(list, limit, a[1..], b);
    }
  }

  /** Replacing the head of the queue by its children takes one node away. */
  lemma PendingStep(list: seq<Stored>, limit: nat, cps: seq<Checkpoint>)
    requires IsRising(list, limit) && AreReady(list, limit, cps) && cps != []
    ensures var below := Below(list, cps[0].hash);
      && AreReady(list, limit, cps[1..] + below)
      && Pending(list, limit, cps) == 1 + Pending(list, limit, cps[1..] + below)
  {
    hide Below, IsRising, IsAbove;
    var cp := cps[0];
    var below := Below(list, cp.hash);
    BelowRise(list, limit, cp);
    PendingIsSize(list, limit, cp.height, below);
    PendingOfTwo(list, limit, cps[1..], below);
  }

  function Checkpoints(nodes: seq<TreeNode>): (cps: seq<Checkpoint>)
    ensures |cps| == |nodes| && forall i :: 0 <= i < |nodes| ==> cps[i] == nodes[i].cp
  {
    seq(|nodes|, i requires 0 <= i < |nodes| => nodes[i].cp)
  }

  /** A node whose children are those that the list has for it. */
  ghost predicate IsDone(list: seq<Stored>, all: set<TreeNode>, node: TreeNode)
    reads node
  {
    && Checkpoints(node.children) == Below(list, node.cp.hash)
    && AreIn(node.children, all)
  }

  ghost predicate AreIn(nodes: seq<TreeNode>, all: set<TreeNode>) {
    forall k :: 0 <= k < |nodes| ==> nodes[k] in all
  }

  ghost function Members(nodes: seq<TreeNode>): set<TreeNode> {
    set n | n in nodes
  }

  lemma MembersGrow(a: seq<TreeNode>, b: seq<TreeNode>)
    ensures Members(a + b) == Members(a) + Members(b) && AreIn(b, Members(a + b))
    ensures forall nodes :: AreIn(nodes, Members(a)) ==> AreIn(nodes, Members(a + b))
  {
  }

  /** The heap below the node has the shape of the tree. */
  ghost predicate Represents(all: set<TreeNode>, node: TreeNode, t: Tree)
    reads all
    decreases t
  {
    && node in all && node.cp == t.cp && |node.children| == |t.children|
    && forall i :: 0 <= i < |t.children| ==> Represents(all, node.children[i], t.children[i])
  }

  ghost predicate AllDone(list: seq<Stored>, all: set<TreeNode>)
    reads all
  {
    forall n :: n in all ==> IsDone(list, all, n)
  }

  lemma {:induction false} GrownAt(
    list: seq<Stored>, limit: nat, floor: nat, cps: seq<Checkpoint>, i: nat)
    requires IsRising(list, limit) && AllAbove(list, cps, floor, limit) && i < |cps|
    ensures IsAbove(list, cps[i]) && cps[i].height <= limit
    ensures AllGrown(list, limit, floor, cps)[i] == Grown(list, limit, cps[i])
    decreases |cps|
  {
    hide Grown;
    if i > 0 {
      GrownAt(list, limit, floor, cps[1..], i - 1);
    }
  }

  /** When every node has its children, the heap is the tree that the parent hashes describe. */
  lemma {:induction false} DoneIsGrown(list: seq<Stored>, limit: nat, all: set<TreeNode>, node: TreeNode)
    requires IsRising(list, limit) && AllDone(list, all) && node in all
    requires IsAbove(list, node.cp) && node.cp.height <= limit
    ensures Represents(all, node, Grown(list, limit, node.cp))
    decreases limit - node.cp.height
  {
    hide Below, IsRising;
    var below := Below(list, node.cp.hash);
    BelowRise(list, limit, node.cp);
    var t := Grown(list, limit, node.cp);
    assert IsDone(list, all, node);
    forall i | 0 <= i < |t.children| ensures Represents(all, node.children[i], t.children[i]) {
      assert node.children[i].cp == below[i];
      GrownAt(list, limit, node.cp.height, below, i);
      DoneIsGrown(list, limit, all, node.children[i]);
    }
  }

  function Found(groups: map<nat, seq<Checkpoint>>, hash: nat): seq<Checkpoint> {
    if hash in groups then groups[hash] else []
  }

  method GroupByParent(successors: seq<Stored>) returns (groups: map<nat, seq<Checkpoint>>)
    ensures forall h :: Found(groups, h) == Below(successors, h)
  {
    groups := map[];
    for i := 0 to |successors|
      invariant forall h :: Found(groups, h) == Below(successors[..i], h)
    {
      var s := successors[i];
      assert successors[..i + 1][..i] == successors[..i];
      groups := groups[s.parent := Found(groups, s.parent) + [s.cp]];
    }
    assert successors[..|successors|] == successors;
  }

  lemma MembersAre(nodes: seq<TreeNode>)
    ensures forall n :: n in Members(nodes) <==> exists i :: 0 <= i < |nodes| && nodes[i] == n
  {
  }

  ghost predicate AreDifferent(nodes: seq<TreeNode>) {
    forall i, k :: 0 <= i < k < |nodes| ==> nodes[i] != nodes[k]
  }

  lemma MoreAreDifferent(made: seq<TreeNode>, fringe: seq<TreeNode>)
    requires AreDifferent(made) && AreDifferent(fringe)
    requires forall i, k :: 0 <= i < |made| && 0 <= k < |fringe| ==> made[i] != fringe[k]
    ensures AreDifferent(made + fringe)
  {
  }

  lemma NextIsDifferent(made: seq<TreeNode>, done: nat)
    requires AreDifferent(made) && done < |made|
    ensures forall i :: 0 <= i < |made| && i != done ==> made[i] != made[done]
  {
  }

  method AddChildren(node: TreeNode, below: seq<Checkpoint>) returns (fringe: seq<TreeNode>)
    requires node.children == []
    modifies node
    ensures node.children == fringe && Checkpoints(fringe) == below
    ensures forall k :: 0 <= k < |fringe| ==> fresh(fringe[k]) && fringe[k].children == []
    ensures AreDifferent(fringe)
  {
    fringe := [];
    for i := 0 to |below|
      invariant |fringe| == i && node.children == fringe
      invariant Checkpoints(fringe) == below[..i]
      invariant forall k :: 0 <= k < i ==> fresh(fringe[k]) && fringe[k].children == []
      invariant forall j, k :: 0 <= j < k < i ==> fringe[j] != fringe[k]
    {
      var child := new TreeNode(below[i]);
      node.children := node.children + [child];
      fringe := fringe + [child];
    }
  }

  /** Level by level: each node of the queue gets its children, which join the queue. */
  method MakeTree(root: Checkpoint, successors: seq<Stored>, ghost limit: nat)
    returns (rootNode: TreeNode, ghost all: set<TreeNode>)
    requires IsRising(successors, limit) && IsAbove(successors, root) && root.height <= limit
    ensures fresh(all) && Represents(all, rootNode, Grown(successors, limit, root))
  {
    hide IsRising, IsAbove, Grown, Pending, Below, AreIn, Members;
    var parentToSuccessors := GroupByParent(successors);
    rootNode := new TreeNode(root);
    var nodes := [rootNode];
    ghost var made := nodes;
    ghost var done := 0;
    assert AreDifferent(made) && AreReady(successors, limit, Checkpoints(nodes));
    hide AreDifferent, AreReady;
    while |nodes| != 0
      invariant done <= |made| && nodes == made[done..] && 0 < |made| && made[0] == rootNode
      invariant forall i :: 0 <= i < |made| ==> fresh(made[i])
      invariant AreDifferent(made)
      invariant forall i :: 0 <= i < done ==> IsDone(successors, Members(made), made[i])
      invariant forall i :: done <= i < |made| ==> made[i].children == []
      invariant AreReady(successors, limit, Checkpoints(nodes))
      decreases Pending(successors, limit, Checkpoints(nodes))
    {
      var node := nodes[0];
      var below := Found(parentToSuccessors, node.cp.hash);
      PendingStep(successors, limit, Checkpoints(nodes));
      ghost var before := Checkpoints(nodes);
      NextIsDifferent(made, done);
      var fringe := AddChildren(node, below);
      MembersGrow(made, fringe);
      MoreAreDifferent(made, fringe);
      made := made + fringe;
      nodes := nodes[1..] + fringe;
      assert Checkpoints(nodes) == before[1..] + below;
      done := done + 1;
    }
    all := Members(made);
    assert AllDone(successors, all) && fresh(all) && rootNode in all by {
      MembersAre(made);
    }
    DoneIsGrown(successors, limit, all, rootNode);
  }

  ghost predicate IsStored(list: seq<Stored>, child: Checkpoint, parent: Checkpoint) {
    exists k :: 0 <= k < |list| && list[k].cp == child && list[k].parent == parent.hash
  }

  /** Every checkpoint of the way down, after the first, is stored below the one before it. */
  ghost predicate IsLinked(list: seq<Stored>, path: seq<Checkpoint>) {
    |path| > 1 ==> IsStored(list, path[1], path[0]) && IsLinked(list, path[1..])
  }

  lemma {:induction false} StoredIsBelow(list: seq<Stored>, prefix: seq<Stored>, k: nat) returns (i: nat)
    requires prefix <= list && k < |prefix|
    ensures i < |Below(prefix, list[k].parent)| && Below(prefix, list[k].parent)[i] == list[k].cp
  {
    var init := prefix[..|prefix| - 1];
    if k == |prefix| - 1 {
      i := |Below(init, list[k].parent)|;
    } else {
      i := StoredIsBelow(list, init, k);
    }
  }

  /** The ways down the grown tree are exactly the chains of stored parent hashes. */
  lemma {:induction false} PathsAreLinks(list: seq<Stored>, limit: nat, cp: Checkpoint, path: seq<Checkpoint>)
    requires IsRising(list, limit) && IsAbove(list, cp) && cp.height <= limit
    ensures IsPath(Grown(list, limit, cp), path) <==> path != [] && path[0] == cp && IsLinked(list, path)
    decreases |path|
  {
    hide Below, IsRising, AllGrown;
    var t := Grown(list, limit, cp);
    var below := Below(list, cp.hash);
    BelowRise(list, limit, cp);
    if |path| > 1 && path[0] == cp {
      forall i | 0 <= i < |below|
        ensures t.children[i] == Grown(list, limit, below[i]) && IsAbove(list, below[i]) && below[i].height <= limit
        ensures IsPath(t.children[i], path[1..]) <==> path[1] == below[i] && IsLinked(list, path[1..])
      {
        GrownAt(list, limit, cp.height, below, i);
        PathsAreLinks(list, limit, below[i], path[1..]);
      }
      if IsLinked(list, path) {
        var k :| 0 <= k < |list| && list[k].cp == path[1] && list[k].parent == path[0].hash;
        var i := StoredIsBelow(list, list, k);
        assert IsPath(t.children[i], path[1..]);
      }
      if IsPath(t, path) {
        var i :| 0 <= i < |t.children| && IsPath(t.children[i], path[1..]);
        BelowAreStored(list, list, cp.hash, i);
      }
    }
  }

  /** The grown tree is one on which the fork choice is right. */
  lemma {:induction false} GrownIsGrowing(list: seq<Stored>, limit: nat, cp: Checkpoint)
    requires IsRising(list, limit) && IsAbove(list, cp) && cp.height <= limit
    ensures IsGrowing(Grown(list, limit, cp))
    decreases limit - cp.height
  {
    hide Below, IsRising, AllGrown;
    var t := Grown(list, limit, cp);
    var below := Below(list, cp.hash);
    BelowRise(list, limit, cp);
    forall i | 0 <= i < |t.children| ensures cp.height < t.children[i].cp.height && IsGrowing(t.children[i]) {
      GrownAt(list, limit, cp.height, below, i);
      GrownIsGrowing(list, limit, below[i]);
    }
  }
}
