/** From the list form of the selection to sets of records: order and sorting disappear. */
module UtxoChoice {
  import opened Utxos
  import opened UtxoSelection

  /** The set form of the selection's promise: it no longer mentions any order. */
  ghost predicate GoodChoice(available: set<Hash>, m: map<Hash, Utxo>, amount: nat, opt: seq<Utxo>)
    requires available <= m.Keys
  {
    && NoDuplicates(opt)
    && (forall i :: 0 <= i < |opt| ==> opt[i].outputID in available && m[opt[i].outputID] == opt[i])
    && if Worth(available, m) < amount then
         Total(opt) == Worth(available, m)
       else
         && Total(opt) >= amount
         && (forall i :: 0 <= i < |opt| ==> Total(opt) - opt[i].amount < amount)
         && (|opt| <= 5 || NoSmallerCover(available, m, amount, |opt|))
  }

  ghost predicate NoSmallerCover(available: set<Hash>, m: map<Hash, Utxo>, amount: nat, size: nat)
    requires available <= m.Keys
  {
    forall other :: other <= available && Worth(other, m) >= amount ==> size <= |other|
  }

  /** The members of a set of records, in the order of a list that contains them. */
  lemma {:induction false} PickSubset(
    list: seq<Utxo>, m: map<Hash, Utxo>, n: nat, sub: set<Hash>)
    returns (idx: seq<nat>, picked: seq<Utxo>)
    requires NoDuplicates(list) && n <= |list| && sub <= IdsOf(list[..n])
    requires forall i :: 0 <= i < |list| ==> list[i].outputID in m && m[list[i].outputID] == list[i]
    ensures IsPick(list, n, idx, picked) && Enumerates(picked, sub, m)
    decreases n
  {
    if n == 0 {
      idx, picked := [], [];
    } else {
      hide IsPick, Enumerates, IdsOf, NoDuplicates;
      var h := list[n - 1].outputID;
      IdsGrow(list, n - 1);
      idx, picked := PickSubset(list, m, n - 1, sub - {h});
      PickOneMore(list, n - 1, idx, picked);
      if h in sub {
        EnumeratesOneMore(picked, sub - {h}, m, h);
        idx, picked := idx + [n - 1], picked + [list[n - 1]];
        assert sub - {h} + {h} == sub;
      } else {
        assert sub - {h} == sub;
      }
    }
  }

  lemma PickIsDistinct(
    list: seq<Utxo>, ids: set<Hash>, m: map<Hash, Utxo>, idx: seq<nat>, opt: seq<Utxo>)
    requires Enumerates(list, ids, m) && IsPick(list, |list|, idx, opt)
    ensures NoDuplicates(opt)
    ensures forall i :: 0 <= i < |opt| ==> opt[i].outputID in ids && m[opt[i].outputID] == opt[i]
  {
    ListedIds(list, ids, m);
  }

  lemma CoverIsSmallest(
    list: seq<Utxo>, ids: set<Hash>, m: map<Hash, Utxo>, amount: nat, size: nat)
    requires Enumerates(list, ids, m) && IsSmallestCover(list, amount, size)
    ensures NoSmallerCover(ids, m, amount, size)
  {
    forall other | other <= ids && Worth(other, m) >= amount ensures size <= |other| {
      assert list[..|list|] == list;
      ListedIds(list, ids, m);
      var idx, picked := PickSubset(list, m, |list|, other);
      TotalIsWorth(picked, other, m);
    }
  }

  lemma SelectionIsGoodChoice(
    list: seq<Utxo>, ids: set<Hash>, m: map<Hash, Utxo>, amount: nat, idx: seq<nat>, opt: seq<Utxo>)
    requires Enumerates(list, ids, m)
    requires IsPick(list, |list|, idx, opt) && GoodSelection(list, amount, opt)
    ensures GoodChoice(ids, m, amount, opt)
  {
    PickIsDistinct(list, ids, m, idx, opt);
    TotalIsWorth(list, ids, m);
    if IsSmallestCover(list, amount, |opt|) {
      CoverIsSmallest(list, ids, m, amount, |opt|);
    }
  }

  /** The records in any order, the bigger amounts in front. */
  method SortByAmount(us: seq<Utxo>, ghost f: Found) returns (sorted: seq<Utxo>)
    requires Lists(us, f)
    ensures Lists(sorted, f) && Descending(sorted)
  {
    hide Lists, Descending;
    sorted := [];
    ghost var rest, done := f, f.(first := {}, second := {});
    NothingSorted(us, f);
    for n := |us| downto 0
      invariant Lists(us[..n], rest) && Lists(sorted, done) && Descending(sorted)
      invariant Complement(f, rest, done)
    {
      ghost var first;
      rest, first := TakeLast(us, n, f, rest, done);
      sorted := Insert(sorted, us[n], done, first);
      done := Joined(done, us[n], first);
    }
    EverythingSorted(us, sorted, f, rest, done);
  }

  /** What is not yet sorted and what is, together everything. */
  ghost predicate Complement(f: Found, rest: Found, done: Found) {
    && rest.a == done.a == f.a && rest.b == done.b == f.b
    && rest.first + done.first == f.first && rest.first !! done.first
    && rest.second + done.second == f.second && rest.second !! done.second
  }

  lemma NothingSorted(us: seq<Utxo>, f: Found)
    requires Lists(us, f)
    ensures us[..|us|] == us && Lists([], f.(first := {}, second := {})) && Descending([])
    ensures Complement(f, f, f.(first := {}, second := {}))
  {
  }

  lemma TakeLast(us: seq<Utxo>, n: nat, f: Found, rest: Found, done: Found) returns (rest': Found, first: bool)
    requires n < |us| && Lists(us[..n + 1], rest) && Complement(f, rest, done)
    ensures Lists(us[..n], rest') && Complement(f, rest', Joined(done, us[n], first))
    ensures if first then us[n].outputID !in done.first && us[n].outputID in done.a && done.a[us[n].outputID] == us[n]
            else us[n].outputID !in done.second && us[n].outputID in done.b && done.b[us[n].outputID] == us[n]
  {
    var u := us[n];
    assert us[..n + 1][..n] == us[..n] && us[..n + 1][n] == u;
    first := IsInFirst(rest, u) && Lists(us[..n], rest.(first := rest.first - {u.outputID}));
    rest' := if first then rest.(first := rest.first - {u.outputID}) else rest.(second := rest.second - {u.outputID});
  }

  lemma EverythingSorted(us: seq<Utxo>, sorted: seq<Utxo>, f: Found, rest: Found, done: Found)
    requires Lists(us[..0], rest) && Lists(sorted, done) && Complement(f, rest, done)
    ensures Lists(sorted, f)
  {
    assert done == f;
  }

  method Insert(us: seq<Utxo>, u: Utxo, ghost f: Found, ghost first: bool) returns (us': seq<Utxo>)
    requires Lists(us, f) && Descending(us)
    requires if first then u.outputID !in f.first && u.outputID in f.a && f.a[u.outputID] == u
             else u.outputID !in f.second && u.outputID in f.b && f.b[u.outputID] == u
    ensures Lists(us', Joined(f, u, first)) && Descending(us')
  {
    hide Lists;
    var i := 0;
    while i < |us| && us[i].amount >= u.amount
      invariant 0 <= i <= |us|
      invariant forall k :: 0 <= k < i ==> us[k].amount >= u.amount
    {
      i := i + 1;
    }
    assert us == us[..i] + us[i..];
    ListsInserted(us[..i], us[i..], f, u, first);
    InsertSorted(us, u, i);
    us' := us[..i] + [u] + us[i..];
  }

  lemma InsertSorted(us: seq<Utxo>, u: Utxo, i: nat)
    requires Descending(us) && i <= |us|
    requires forall k :: 0 <= k < i ==> us[k].amount >= u.amount
    requires i < |us| ==> us[i].amount < u.amount
    ensures Descending(us[..i] + [u] + us[i..])
  {
  }
}
