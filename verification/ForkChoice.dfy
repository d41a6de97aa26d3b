/** The fork choice on the tree of checkpoints. */
module ForkChoice {
  import opened Wrappers

  datatype Status = Growing | Unjustified | Justified | Finalized

  /** The hash is the number that its 64 hexadecimal digits write: texts of one length compare as numbers do. */
  datatype Checkpoint = Checkpoint(height: nat, hash: nat, status: Status)

  datatype Tree = Node(cp: Checkpoint, children: seq<Tree>)

  /** A checkpoint and the height of the last justified one on its path. */
  datatype Entry = Entry(justified: nat, cp: Checkpoint)

  /** The lexicographic order on justified height, height and hash. */
  predicate IsLess(a: Entry, b: Entry) {
    || a.justified < b.justified
    || (a.justified == b.justified && a.cp.height < b.cp.height)
    || (a.justified == b.justified && a.cp.height == b.cp.height && a.cp.hash < b.cp.hash)
  }

  function JustifiedAt(cp: Checkpoint, inherited: nat): nat {
    if cp.status == Justified then cp.height else inherited
  }

  /** Every checkpoint of the tree, each with the justified height on its path. */
  ghost function Entries(t: Tree, inherited: nat): set<Entry>
    decreases t, 0
  {
    var own := JustifiedAt(t.cp, inherited);
    {Entry(own, t.cp)} + EntriesOfAll(t.children, own)
  }

  ghost function EntriesOfAll(ts: seq<Tree>, inherited: nat): set<Entry>
    decreases ts, 1
  {
    if ts == [] then {} else EntriesOfAll(ts[..|ts| - 1], inherited) + Entries(ts[|ts| - 1], inherited)
  }

  ghost predicate IsMaximum(best: Entry, entries: set<Entry>) {
    best in entries && forall e :: e in entries ==> !IsLess(best, e)
  }

  method BestNode(t: Tree, justifiedHeight: nat) returns (best: Checkpoint, bestJustified: nat)
    ensures IsMaximum(Entry(bestJustified, best), Entries(t, justifiedHeight))
    ensures forall e :: e in Entries(t, justifiedHeight) ==>
      && e.justified <= bestJustified
      && (e.justified == bestJustified ==> e.cp.height <= best.height)
      && (e.justified == bestJustified && e.cp.height == best.height ==> e.cp.hash <= best.hash)
    decreases t
  {
    hide EntriesOfAll;
    var justified := JustifiedAt(t.cp, justifiedHeight);
    best, bestJustified := t.cp, justified;
    NoEntries(justified);
    for i := 0 to |t.children|
      invariant IsMaximum(Entry(bestJustified, best),
                          {Entry(justified, t.cp)} + EntriesOfAll(t.children[..i], justified))
    {
      var child := t.children[i];
      EntriesNext(t.children, i, justified);
      var bestChild, childJustified := BestNode(child, justified);
      if childJustified > bestJustified || (childJustified == bestJustified && bestChild.height > best.height) ||
        (childJustified == bestJustified && bestChild.height == best.height && bestChild.hash > best.hash) {
        best, bestJustified := bestChild, childJustified;
      }
    }
    assert t.children[..|t.children|] == t.children;
  }

  lemma NoEntries(inherited: nat)
    ensures EntriesOfAll([], inherited) == {}
  {
  }

  lemma EntriesNext(ts: seq<Tree>, i: nat, inherited: nat)
    requires i < |ts|
    ensures EntriesOfAll(ts[..i + 1], inherited) == EntriesOfAll(ts[..i], inherited) + Entries(ts[i], inherited)
  {
    hide Entries;
    assert ts[..i + 1][..i] == ts[..i];
  }

  /** One hash, one checkpoint. */
  ghost predicate AreDistinct(entries: set<Entry>) {
    forall a, b :: a in entries && b in entries && a.cp.hash == b.cp.hash ==> a == b
  }

  lemma MaximumIsUnique(a: Entry, b: Entry, entries: set<Entry>)
    requires IsMaximum(a, entries) && IsMaximum(b, entries) && AreDistinct(entries)
    ensures a == b
  {
    assert !IsLess(a, b) && !IsLess(b, a);
  }

  ghost predicate AreInverse(f: seq<nat>, g: seq<nat>) {
    && |f| == |g|
    && (forall i {:trigger f[i]} :: 0 <= i < |f| ==> f[i] < |g| && g[f[i]] == i)
    && (forall k {:trigger g[k]} :: 0 <= k < |g| ==> g[k] < |f| && f[g[k]] == k)
  }

  /** The same tree, with the children of each node in any order. */
  ghost predicate IsReordering(t: Tree, u: Tree)
    decreases t
  {
    && t.cp == u.cp && |t.children| == |u.children|
    && exists f: seq<nat>, g: seq<nat> ::
      && AreInverse(f, g) && |f| == |t.children|
      && forall i {:trigger f[i]} :: 0 <= i < |f| ==> IsReordering(t.children[i], u.children[f[i]])
  }

  ghost predicate OneHas(ts: seq<Tree>, inherited: nat, e: Entry) {
    exists i :: 0 <= i < |ts| && e in Entries(ts[i], inherited)
  }

  lemma {:induction false} EntriesOfOne(ts: seq<Tree>, inherited: nat, e: Entry)
    ensures e in EntriesOfAll(ts, inherited) <==> OneHas(ts, inherited, e)
  {
    hide Entries;
    if ts != [] {
      var init := ts[..|ts| - 1];
      EntriesOfOne(init, inherited, e);
      if OneHas(init, inherited, e) {
        var i :| 0 <= i < |init| && e in Entries(init[i], inherited);
        assert e in Entries(ts[i], inherited);
      }
      if OneHas(ts, inherited, e) {
        var i :| 0 <= i < |ts| && e in Entries(ts[i], inherited);
        assert i < |init| ==> init[i] == ts[i];
      }
    }
  }

  lemma {:induction false} ReorderingKeepsEntries(t: Tree, u: Tree, inherited: nat)
    requires IsReordering(t, u)
    ensures Entries(t, inherited) == Entries(u, inherited)
    decreases t, 1
  {
    hide EntriesOfAll, OneHas, Entries;
    var own := JustifiedAt(t.cp, inherited);
    forall e ensures e in EntriesOfAll(t.children, own) <==> e in EntriesOfAll(u.children, own) {
      EntriesOfOne(t.children, own, e);
      EntriesOfOne(u.children, own, e);
      if OneHas(t.children, own, e) {
        OtherHas(t, u, own, e);
      }
      if OneHas(u.children, own, e) {
        FirstHas(t, u, own, e);
      }
    }
    SplitEntries(t, inherited);
    SplitEntries(u, inherited);
  }

  lemma SplitEntries(t: Tree, inherited: nat)
    ensures var own := JustifiedAt(t.cp, inherited);
      Entries(t, inherited) == {Entry(own, t.cp)} + EntriesOfAll(t.children, own)
  {
    hide EntriesOfAll;
  }

  lemma {:induction false} OtherHas(t: Tree, u: Tree, own: nat, e: Entry)
    requires IsReordering(t, u) && OneHas(t.children, own, e)
    ensures OneHas(u.children, own, e)
    decreases t, 0
  {
    hide Entries;
    var i :| 0 <= i < |t.children| && e in Entries(t.children[i], own);
    var f: seq<nat>, g: seq<nat> :| AreInverse(f, g) && |f| == |t.children|
      && forall i {:trigger f[i]} :: 0 <= i < |f| ==> IsReordering(t.children[i], u.children[f[i]]);
    ReorderingKeepsEntries(t.children[i], u.children[f[i]], own);
    assert e in Entries(u.children[f[i]], own);
  }

  lemma {:induction false} FirstHas(t: Tree, u: Tree, own: nat, e: Entry)
    requires IsReordering(t, u) && OneHas(u.children, own, e)
    ensures OneHas(t.children, own, e)
    decreases t, 0
  {
    hide Entries;
    var k :| 0 <= k < |u.children| && e in Entries(u.children[k], own);
    var f: seq<nat>, g: seq<nat> :| AreInverse(f, g) && |f| == |t.children|
      && forall i {:trigger f[i]} :: 0 <= i < |f| ==> IsReordering(t.children[i], u.children[f[i]]);
    assert f[g[k]] == k;
    ReorderingKeepsEntries(t.children[g[k]], u.children[k], own);
    assert e in Entries(t.children[g[k]], own);
  }

  /** The order in which the children came does not matter to the choice. */
  lemma OrderDoesNotMatter(t: Tree, u: Tree, inherited: nat, a: Entry, b: Entry)
    requires IsReordering(t, u) && AreDistinct(Entries(t, inherited))
    requires IsMaximum(a, Entries(t, inherited)) && IsMaximum(b, Entries(u, inherited))
    ensures a == b
  {
    hide Entries, IsReordering, IsMaximum, AreDistinct;
    ReorderingKeepsEntries(t, u, inherited);
    MaximumIsUnique(a, b, Entries(t, inherited));
  }

  /** The way from the root down to a checkpoint. */
  ghost predicate IsPath(t: Tree, path: seq<Checkpoint>)
    decreases t
  {
    && path != [] && path[0] == t.cp
    && (|path| == 1 || exists i :: 0 <= i < |t.children| && IsPath(t.children[i], path[1..]))
  }

  /** The height of the last justified checkpoint on a path. */
  ghost function DeepestJustified(path: seq<Checkpoint>, inherited: nat): nat {
    if path == [] then inherited else DeepestJustified(path[1..], JustifiedAt(path[0], inherited))
  }

  /** The path ends in the entry's checkpoint, and its deepest justified height is the entry's. */
  ghost predicate Leads(t: Tree, inherited: nat, path: seq<Checkpoint>, e: Entry) {
    IsPath(t, path) && path[|path| - 1] == e.cp && DeepestJustified(path, inherited) == e.justified
  }

  lemma LeadsFurther(t: Tree, inherited: nat, i: nat, path: seq<Checkpoint>, e: Entry)
    requires i < |t.children| && Leads(t.children[i], JustifiedAt(t.cp, inherited), path, e)
    ensures Leads(t, inherited, [t.cp] + path, e)
  {
    var longer := [t.cp] + path;
    assert longer[1..] == path;
  }

  /** Every entry has a path. */
  lemma {:induction false} EntryHasPath(t: Tree, inherited: nat, e: Entry) returns (path: seq<Checkpoint>)
    requires e in Entries(t, inherited)
    ensures Leads(t, inherited, path, e)
    decreases t
  {
    hide EntriesOfAll;
    var own := JustifiedAt(t.cp, inherited);
    EntriesOfOne(t.children, own, e);
    if e == Entry(own, t.cp) {
      path := [t.cp];
      assert path[1..] == [];
      assert IsPath(t, path);
      assert DeepestJustified(path, inherited) == DeepestJustified([], own);
    } else {
      var i :| 0 <= i < |t.children| && e in Entries(t.children[i], own);
      path := EntryHasPath(t.children[i], own, e);
      LeadsFurther(t, inherited, i, path, e);
      path := [t.cp] + path;
    }
  }

  /** Every path has an entry. */
  lemma {:induction false} PathHasEntry(t: Tree, inherited: nat, path: seq<Checkpoint>, e: Entry)
    requires Leads(t, inherited, path, e)
    ensures e in Entries(t, inherited)
    decreases t
  {
    hide EntriesOfAll;
    var own := JustifiedAt(t.cp, inherited);
    EntriesOfOne(t.children, own, e);
    if |path| == 1 {
      assert path[1..] == [];
    } else {
      var i :| 0 <= i < |t.children| && IsPath(t.children[i], path[1..]);
      assert path[1..][|path| - 2] == e.cp;
      PathHasEntry(t.children[i], own, path[1..], e);
      assert OneHas(t.children, own, e);
    }
  }

  /** Heights grow from parent to child. */
  ghost predicate IsGrowing(t: Tree)
    decreases t
  {
    forall i :: 0 <= i < |t.children| ==> t.cp.height < t.children[i].cp.height && IsGrowing(t.children[i])
  }

  ghost predicate IsJustifiedIn(t: Tree, cp: Checkpoint)
    decreases t
  {
    || (cp == t.cp && cp.status == Justified)
    || exists i :: 0 <= i < |t.children| && IsJustifiedIn(t.children[i], cp)
  }

  /** The selected checkpoint is as high as any justified one of the tree. */
  ghost predicate Covers(t: Tree, selected: Option<Checkpoint>) {
    forall cp :: IsJustifiedIn(t, cp) ==> selected.Some? && cp.height <= selected.value.height
  }

  ghost predicate CoversAll(ts: seq<Tree>, selected: Option<Checkpoint>) {
    ts != [] ==> CoversAll(ts[..|ts| - 1], selected) && Covers(ts[|ts| - 1], selected)
  }

  ghost predicate AtMost(a: Option<Checkpoint>, b: Option<Checkpoint>) {
    a.Some? ==> b.Some? && a.value.height <= b.value.height
  }

  lemma {:induction false} CoversAllGrows(ts: seq<Tree>, a: Option<Checkpoint>, b: Option<Checkpoint>)
    requires CoversAll(ts, a) && AtMost(a, b)
    ensures CoversAll(ts, b)
  {
    if ts != [] {
      CoversAllGrows(ts[..|ts| - 1], a, b);
    }
  }

  lemma {:induction false} CoversAt(ts: seq<Tree>, selected: Option<Checkpoint>, i: nat)
    requires CoversAll(ts, selected) && i < |ts|
    ensures Covers(ts[i], selected)
  {
    hide Covers;
    if i < |ts| - 1 {
      CoversAt(ts[..|ts| - 1], selected, i);
    }
  }

  lemma CoversTree(t: Tree, selected: Option<Checkpoint>)
    requires CoversAll(t.children, selected)
    requires t.cp.status == Justified ==> selected.Some? && t.cp.height <= selected.value.height
    ensures Covers(t, selected)
  {
    forall cp | IsJustifiedIn(t, cp) ensures selected.Some? && cp.height <= selected.value.height {
      if !(cp == t.cp && cp.status == Justified) {
        var i :| 0 <= i < |t.children| && IsJustifiedIn(t.children[i], cp);
        CoversAt(t.children, selected, i);
      }
    }
  }

  /** The justified checkpoints, each before those below it, and the children from left to right. */
  function JustifiedOf(t: Tree): seq<Checkpoint>
    decreases t, 0
  {
    (if t.cp.status == Justified then [t.cp] else []) + JustifiedOfAll(t.children)
  }

  function JustifiedOfAll(ts: seq<Tree>): seq<Checkpoint>
    decreases ts, 1
  {
    if ts == [] then [] else JustifiedOfAll(ts[..|ts| - 1]) + JustifiedOf(ts[|ts| - 1])
  }

  function Higher(a: Option<Checkpoint>, b: Option<Checkpoint>): Option<Checkpoint> {
    if b.None? || (a.Some? && b.value.height <= a.value.height) then a else b
  }

  function FirstHighest(cps: seq<Checkpoint>): Option<Checkpoint> {
    if cps == [] then None else Higher(FirstHighest(cps[..|cps| - 1]), Some(cps[|cps| - 1]))
  }

  /** No earlier one is as high, and no later one higher. */
  ghost predicate IsFirstHighest(cps: seq<Checkpoint>, i: nat) {
    && i < |cps| && (forall k :: 0 <= k < i ==> cps[k].height < cps[i].height)
    && forall k :: i <= k < |cps| ==> cps[k].height <= cps[i].height
  }

  lemma {:induction false} FirstHighestIs(cps: seq<Checkpoint>) returns (i: nat)
    ensures FirstHighest(cps) == None <==> cps == []
    ensures cps != [] ==> IsFirstHighest(cps, i) && FirstHighest(cps) == Some(cps[i])
  {
    i := 0;
    if cps != [] {
      var n := |cps| - 1;
      i := FirstHighestIs(cps[..n]);
      if n == 0 || cps[n].height > cps[..n][i].height {
        i := n;
      }
    }
  }

  lemma {:induction false} HighestOfBoth(a: seq<Checkpoint>, b: seq<Checkpoint>)
    ensures FirstHighest(a + b) == Higher(FirstHighest(a), FirstHighest(b))
  {
    if b == [] {
      assert a + b == a;
    } else {
      var n := |b| - 1;
      assert (a + b)[..|a| + n] == a + b[..n];
      HighestOfBoth(a, b[..n]);
    }
  }

  lemma HighestNext(own: seq<Checkpoint>, ts: seq<Tree>, i: nat)
    requires i < |ts|
    ensures FirstHighest(own + JustifiedOfAll(ts[..i + 1])) ==
            Higher(FirstHighest(own + JustifiedOfAll(ts[..i])), FirstHighest(JustifiedOf(ts[i])))
  {
    hide JustifiedOf, FirstHighest;
    assert ts[..i + 1][..i] == ts[..i];
    var before := JustifiedOfAll(ts[..i]);
    assert own + (before + JustifiedOf(ts[i])) == own + before + JustifiedOf(ts[i]);
    HighestOfBoth(own + before, JustifiedOf(ts[i]));
  }

  /** The highest justified checkpoint, if there is one; of several the one that comes first. */
  method LastJustified(t: Tree) returns (selected: Option<Checkpoint>)
    ensures selected.Some? ==> IsJustifiedIn(t, selected.value)
    ensures Covers(t, selected) && selected == FirstHighest(JustifiedOf(t))
    decreases t
  {
    hide Covers, FirstHighest, JustifiedOfAll;
    ghost var own := if t.cp.status == Justified then [t.cp] else [];
    OwnIsHighest(t.cp);
    selected := None;
    if t.cp.status == Justified {
      selected := Some(t.cp);
    }
    for i := 0 to |t.children|
      invariant selected.Some? ==> IsJustifiedIn(t, selected.value)
      invariant t.cp.status == Justified ==> selected.Some? && t.cp.height <= selected.value.height
      invariant CoversAll(t.children[..i], selected)
      invariant selected == FirstHighest(own + JustifiedOfAll(t.children[..i]))
    {
      assert t.children[..i + 1][..i] == t.children[..i];
      HighestNext(own, t.children, i);
      var childSelected := LastJustified(t.children[i]);
      ghost var higher :=
        if childSelected.None? || (selected.Some? && childSelected.value.height <= selected.value.height)
        then selected else childSelected;
      CoversAllGrows(t.children[..i], selected, higher);
      CoversGrows(t.children[i], childSelected, higher);
      if childSelected.None? {
        continue;
      } else if selected.None? || childSelected.value.height > selected.value.height {
        selected := childSelected;
      }
    }
    assert t.children[..|t.children|] == t.children;
    CoversTree(t, selected);
  }

  lemma OwnIsHighest(cp: Checkpoint)
    ensures FirstHighest([cp] + JustifiedOfAll([])) == Some(cp) && FirstHighest([] + JustifiedOfAll([])) == None
  {
  }

  lemma CoversGrows(t: Tree, a: Option<Checkpoint>, b: Option<Checkpoint>)
    requires Covers(t, a) && AtMost(a, b)
    ensures Covers(t, b)
  {
  }

  lemma {:induction false} JustifiedHasEntry(t: Tree, inherited: nat, cp: Checkpoint)
    requires IsJustifiedIn(t, cp)
    ensures Entry(cp.height, cp) in Entries(t, inherited)
    decreases t
  {
    hide EntriesOfAll;
    var own := JustifiedAt(t.cp, inherited);
    if !(cp == t.cp && cp.status == Justified) {
      var i :| 0 <= i < |t.children| && IsJustifiedIn(t.children[i], cp);
      JustifiedHasEntry(t.children[i], own, cp);
      EntriesOfOne(t.children, own, Entry(cp.height, cp));
      assert OneHas(t.children, own, Entry(cp.height, cp));
    }
  }

  lemma {:induction false} OnlyRootIsLow(t: Tree, cp: Checkpoint)
    requires IsGrowing(t) && IsJustifiedIn(t, cp)
    ensures cp.height > t.cp.height || (cp == t.cp && cp.status == Justified)
    decreases t
  {
    if !(cp == t.cp && cp.status == Justified) {
      var i :| 0 <= i < |t.children| && IsJustifiedIn(t.children[i], cp);
      OnlyRootIsLow(t.children[i], cp);
    }
  }

  lemma {:induction false} PathIsInTree(t: Tree, path: seq<Checkpoint>, k: nat)
    requires IsPath(t, path) && k < |path| && path[k].status == Justified
    ensures IsJustifiedIn(t, path[k])
    decreases t
  {
    if k > 0 {
      var i :| 0 <= i < |t.children| && IsPath(t.children[i], path[1..]);
      PathIsInTree(t.children[i], path[1..], k - 1);
    }
  }

  /** The deepest justified height is inherited only when the path has none of its own. */
  lemma {:induction false} DeepestIsOnPath(path: seq<Checkpoint>, inherited: nat)
    ensures
      || (exists k :: 0 <= k < |path| && path[k].status == Justified
            && path[k].height == DeepestJustified(path, inherited))
      || (DeepestJustified(path, inherited) == inherited && forall k :: 0 <= k < |path| ==> path[k].status != Justified)
  {
    if path != [] {
      var tail := path[1..];
      DeepestIsOnPath(tail, JustifiedAt(path[0], inherited));
      if k :| 0 <= k < |tail| && tail[k].status == Justified
            && tail[k].height == DeepestJustified(path, inherited) {
        assert path[k + 1] == tail[k];
      } else {
        assert forall k :: 0 < k < |path| ==> path[k] == tail[k - 1];
      }
    }
  }

  /** The best node descends from, or is, a justified checkpoint as high as the last justified one. */
  lemma BestFollowsJustified(t: Tree, inherited: nat, best: Entry, last: Checkpoint)
    returns (path: seq<Checkpoint>, k: nat)
    requires IsGrowing(t) && inherited <= t.cp.height && IsMaximum(best, Entries(t, inherited))
    requires IsJustifiedIn(t, last) && Covers(t, Some(last))
    ensures best.justified == last.height
    ensures IsPath(t, path) && path[|path| - 1] == best.cp
    ensures k < |path| && path[k].status == Justified && path[k].height == last.height
  {
    hide Entries;
    JustifiedHasEntry(t, inherited, last);
    assert !IsLess(best, Entry(last.height, last));
    path := EntryHasPath(t, inherited, best);
    DeepestIsOnPath(path, inherited);
    OnlyRootIsLow(t, last);
    assert path[0] == t.cp;
    k :| 0 <= k < |path| && path[k].status == Justified && path[k].height == DeepestJustified(path, inherited);
    PathIsInTree(t, path, k);
  }

  /** A node of the tree with everything below it. */
  ghost predicate IsNode(t: Tree, sub: Tree)
    decreases t
  {
    t == sub || exists i :: 0 <= i < |t.children| && IsNode(t.children[i], sub)
  }

  /** The best node has no children: the fork choice follows a branch to its end. */
  lemma BestIsLeaf(t: Tree, inherited: nat, best: Entry) returns (leaf: Tree)
    requires IsGrowing(t) && inherited <= t.cp.height && IsMaximum(best, Entries(t, inherited))
    ensures IsNode(t, leaf) && leaf.cp == best.cp && leaf.children == []
  {
    leaf := LeafOf(t, inherited, best, Entries(t, inherited));
  }

  lemma {:induction false} LeafOf(t: Tree, inherited: nat, best: Entry, all: set<Entry>) returns (leaf: Tree)
    requires IsGrowing(t) && inherited <= t.cp.height && IsMaximum(best, all)
    requires best in Entries(t, inherited) && Entries(t, inherited) <= all
    ensures IsNode(t, leaf) && leaf.cp == best.cp && leaf.children == []
    decreases t
  {
    hide EntriesOfAll, IsMaximum;
    var own := JustifiedAt(t.cp, inherited);
    EntriesOfOne(t.children, own, best);
    if i :| 0 <= i < |t.children| && best in Entries(t.children[i], own) {
      ChildEntries(t, inherited, i);
      leaf := LeafOf(t.children[i], own, best, all);
    } else {
      leaf := t;
      if t.children != [] {
        ChildEntries(t, inherited, 0);
        var child := t.children[0].cp;
        var entry := Entry(JustifiedAt(child, own), child);
        assert entry in Entries(t.children[0], own) && IsLess(best, entry);
        NothingIsGreater(best, entry, all);
      }
    }
  }

  lemma ChildEntries(t: Tree, inherited: nat, i: nat)
    requires i < |t.children|
    ensures Entries(t.children[i], JustifiedAt(t.cp, inherited)) <= Entries(t, inherited)
  {
    hide EntriesOfAll;
    var own := JustifiedAt(t.cp, inherited);
    forall e | e in Entries(t.children[i], own) ensures e in Entries(t, inherited) {
      EntriesOfOne(t.children, own, e);
      assert OneHas(t.children, own, e);
    }
  }

  lemma NothingIsGreater(best: Entry, e: Entry, all: set<Entry>)
    requires IsMaximum(best, all) && e in all
    ensures !IsLess(best, e)
  {
  }

  ghost predicate Lacks(t: Tree, hash: nat)
    decreases t, 0
  {
    t.cp.hash != hash && AllLack(t.children, hash)
  }

  ghost predicate AllLack(ts: seq<Tree>, hash: nat)
    decreases ts, 1
  {
    ts != [] ==> AllLack(ts[..|ts| - 1], hash) && Lacks(ts[|ts| - 1], hash)
  }

  /** The node with a hash, depth first. */
  method NodeByHash(t: Tree, hash: nat) returns (node: Option<Tree>)
    ensures node.Some? ==> IsNode(t, node.value) && node.value.cp.hash == hash
    ensures node.None? <==> Lacks(t, hash)
    decreases t
  {
    if t.cp.hash == hash {
      return Some(t);
    }
    for i := 0 to |t.children|
      invariant AllLack(t.children[..i], hash)
    {
      assert t.children[..i + 1][..i] == t.children[..i];
      node := NodeByHash(t.children[i], hash);
      if node.Some? {
        LackingAt(t.children, hash, i);
        return;
      }
    }
    assert t.children[..|t.children|] == t.children;
    return None;
  }

  lemma {:induction false} LackingAt(ts: seq<Tree>, hash: nat, i: nat)
    requires i < |ts|
    ensures AllLack(ts, hash) ==> Lacks(ts[i], hash)
  {
    if i < |ts| - 1 {
      LackingAt(ts[..|ts| - 1], hash, i);
    }
  }

  /** A tree that lacks the hash has it nowhere on any way down. */
  lemma {:induction false} LackingHasNoPath(t: Tree, hash: nat, path: seq<Checkpoint>)
    requires Lacks(t, hash) && IsPath(t, path)
    ensures path[|path| - 1].hash != hash
    decreases t
  {
    if |path| > 1 {
      var i :| 0 <= i < |t.children| && IsPath(t.children[i], path[1..]);
      LackingAt(t.children, hash, i);
      LackingHasNoPath(t.children[i], hash, path[1..]);
    }
  }
}
