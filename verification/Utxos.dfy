/** Account UTXOs and the value that a list or a set of them carries. */
module Utxos {
  type Hash = nat

  datatype Utxo = Utxo(
    outputID: Hash,
    assetID: Hash,
    amount: nat,
    vote: seq<nat>,
    accountID: string,
    validHeight: nat)

  /** The value of the first n UTXOs. */
  function Sum(us: seq<Utxo>, n: nat): nat
    requires n <= |us|
  {
    if n == 0 then 0 else Sum(us, n - 1) + us[n - 1].amount
  }

  function Total(us: seq<Utxo>): nat {
    Sum(us, |us|)
  }

  ghost predicate Descending(us: seq<Utxo>) {
    forall i, j :: 0 <= i < j < |us| ==> us[i].amount >= us[j].amount
  }

  ghost predicate NoDuplicates(us: seq<Utxo>) {
    forall i, j :: 0 <= i < j < |us| ==> us[i].outputID != us[j].outputID
  }

  function IdsOf(us: seq<Utxo>): set<Hash> {
    set u | u in us :: u.outputID
  }

  /** Every record is stored under its own output id. */
  ghost predicate Keyed(m: map<Hash, Utxo>) {
    forall h :: h in m ==> m[h].outputID == h
  }

  /** us lists the records of ids, each exactly once and in any order. */
  ghost predicate Enumerates(us: seq<Utxo>, ids: set<Hash>, m: map<Hash, Utxo>) {
    && ids <= m.Keys
    && if us == [] then ids == {}
       else
         var u := us[|us| - 1];
         && u.outputID in ids && m[u.outputID] == u
         && Enumerates(us[..|us| - 1], ids - {u.outputID}, m)
  }

  /** The value of a set of records. */
  ghost function Worth(ids: set<Hash>, m: map<Hash, Utxo>): nat
    requires ids <= m.Keys
  {
    if ids == {} then 0
    else
      var h :| h in ids;
      m[h].amount + Worth(ids - {h}, m)
  }

  lemma {:induction false} WorthSplit(ids: set<Hash>, m: map<Hash, Utxo>, h: Hash)
    requires ids <= m.Keys && h in ids
    ensures Worth(ids, m) == m[h].amount + Worth(ids - {h}, m)
  {
    var g :| g in ids && Worth(ids, m) == m[g].amount + Worth(ids - {g}, m);
    if g != h {
      WorthSplit(ids - {g}, m, h);
      WorthSplit(ids - {h}, m, g);
      assert ids - {g} - {h} == ids - {h} - {g};
    }
  }

  lemma {:induction false} WorthUnion(a: set<Hash>, b: set<Hash>, m: map<Hash, Utxo>)
    requires a <= m.Keys && b <= m.Keys && a !! b
    ensures Worth(a + b, m) == Worth(a, m) + Worth(b, m)
  {
    if h :| h in a {
      WorthSplit(a, m, h);
      WorthSplit(a + b, m, h);
      assert a + b - {h} == (a - {h}) + b;
      WorthUnion(a - {h}, b, m);
    } else {
      assert a + b == b;
    }
  }

  lemma WorthOfSubset(a: set<Hash>, b: set<Hash>, m: map<Hash, Utxo>)
    requires a <= b <= m.Keys
    ensures Worth(a, m) <= Worth(b, m)
  {
    WorthUnion(a, b - a, m);
    assert a + (b - a) == b;
  }

  /** Sums over sequences with the same first n elements agree. */
  lemma {:induction false} SumAgrees(a: seq<Utxo>, b: seq<Utxo>, n: nat)
    requires n <= |a| && n <= |b|
    requires forall i :: 0 <= i < n ==> a[i] == b[i]
    ensures Sum(a, n) == Sum(b, n)
  {
    if n > 0 {
      SumAgrees(a, b, n - 1);
    }
  }

  lemma {:induction false} SumIsMonotonic(us: seq<Utxo>, m: nat, n: nat)
    requires m <= n <= |us|
    ensures Sum(us, m) <= Sum(us, n)
  {
    if m < n {
      SumIsMonotonic(us, m, n - 1);
    }
  }

  lemma {:induction false} SumConcat(a: seq<Utxo>, b: seq<Utxo>, n: nat)
    requires n <= |b|
    ensures Sum(a + b, |a| + n) == Total(a) + Sum(b, n)
  {
    if n == 0 {
      SumAgrees(a + b, a, |a|);
    } else {
      SumConcat(a, b, n - 1);
    }
  }

  lemma TotalAppend(us: seq<Utxo>, u: Utxo)
    ensures Total(us + [u]) == Total(us) + u.amount
  {
    SumAgrees(us + [u], us, |us|);
  }

  lemma TotalConcat(a: seq<Utxo>, b: seq<Utxo>)
    ensures Total(a + b) == Total(a) + Total(b)
  {
    SumConcat(a, b, |b|);
  }

  /** However a set of records is listed, the list is worth what the set is worth. */
  lemma {:induction false} TotalIsWorth(us: seq<Utxo>, ids: set<Hash>, m: map<Hash, Utxo>)
    requires Enumerates(us, ids, m)
    ensures Total(us) == Worth(ids, m) && |us| == |ids|
  {
    if us != [] {
      var n := |us| - 1;
      TotalIsWorth(us[..n], ids - {us[n].outputID}, m);
      SumAgrees(us, us[..n], n);
      WorthSplit(ids, m, us[n].outputID);
    }
  }

  lemma {:induction false} ListedIds(us: seq<Utxo>, ids: set<Hash>, m: map<Hash, Utxo>)
    requires Enumerates(us, ids, m)
    ensures IdsOf(us) == ids && NoDuplicates(us)
    ensures forall i :: 0 <= i < |us| ==> us[i].outputID in ids && m[us[i].outputID] == us[i]
  {
    if us != [] {
      hide IdsOf;
      var n := |us| - 1;
      ListedIds(us[..n], ids - {us[n].outputID}, m);
      IdsGrow(us, n);
      assert us[..n + 1] == us;
    }
  }

  lemma {:induction false} DistinctAreEnumerated(us: seq<Utxo>, m: map<Hash, Utxo>)
    requires NoDuplicates(us)
    requires forall i :: 0 <= i < |us| ==> us[i].outputID in m && m[us[i].outputID] == us[i]
    ensures Enumerates(us, IdsOf(us), m)
  {
    if us != [] {
      var n := |us| - 1;
      DistinctAreEnumerated(us[..n], m);
      IdsGrow(us, n);
      assert us[..n + 1] == us;
      assert IdsOf(us) - {us[n].outputID} == IdsOf(us[..n]);
    }
  }

  lemma IdsGrow(us: seq<Utxo>, n: nat)
    requires n < |us|
    ensures IdsOf(us[..n + 1]) == IdsOf(us[..n]) + {us[n].outputID}
    ensures NoDuplicates(us) ==> us[n].outputID !in IdsOf(us[..n])
  {
    assert us[..n + 1] == us[..n] + [us[n]];
  }

  lemma EnumeratesOneMore(us: seq<Utxo>, ids: set<Hash>, m: map<Hash, Utxo>, h: Hash)
    requires Enumerates(us, ids, m) && h in m && h !in ids && m[h].outputID == h
    ensures Enumerates(us + [m[h]], ids + {h}, m)
  {
    assert (us + [m[h]])[..|us|] == us;
    assert ids + {h} - {h} == ids;
  }

  lemma {:induction false} EnumeratesConcat(
    us: seq<Utxo>, more: seq<Utxo>, ia: set<Hash>, ib: set<Hash>, m: map<Hash, Utxo>)
    requires Enumerates(us, ia, m) && Enumerates(more, ib, m) && ia !! ib
    ensures Enumerates(us + more, ia + ib, m)
  {
    if more == [] {
      assert us + more == us && ia + ib == ia;
    } else {
      var n := |more| - 1;
      var h := more[n].outputID;
      EnumeratesConcat(us, more[..n], ia, ib - {h}, m);
      assert (us + more)[..|us| + n] == us + more[..n];
      assert ia + ib - {h} == ia + (ib - {h});
    }
  }

  lemma {:induction false} EnumeratesAgreeing(
    us: seq<Utxo>, ids: set<Hash>, m: map<Hash, Utxo>, m': map<Hash, Utxo>)
    requires Enumerates(us, ids, m) && ids <= m'.Keys
    requires forall h :: h in ids ==> m[h] == m'[h]
    ensures Enumerates(us, ids, m')
  {
    if us != [] {
      EnumeratesAgreeing(us[..|us| - 1], ids - {us[|us| - 1].outputID}, m, m');
    }
  }

  /** Records of two sources, which may both have an output. */
  datatype Found = Found(first: set<Hash>, a: map<Hash, Utxo>, second: set<Hash>, b: map<Hash, Utxo>)

  function Minus(f: Found, taken: set<Hash>): Found {
    f.(first := f.first - taken, second := f.second - taken)
  }

  function Meet(f: Found, taken: set<Hash>): Found {
    f.(first := f.first * taken, second := f.second * taken)
  }

  ghost predicate IsFound(f: Found) {
    f.first <= f.a.Keys && f.second <= f.b.Keys
  }

  ghost function WorthOfFound(f: Found): nat
    requires IsFound(f)
  {
    Worth(f.first, f.a) + Worth(f.second, f.b)
  }

  predicate IsInFirst(f: Found, u: Utxo) {
    u.outputID in f.first && u.outputID in f.a && f.a[u.outputID] == u
  }

  predicate IsInSecond(f: Found, u: Utxo) {
    u.outputID in f.second && u.outputID in f.b && f.b[u.outputID] == u
  }

  /** us lists the records of both sources, each of each source once and in any order. */
  ghost predicate Lists(us: seq<Utxo>, f: Found) {
    && IsFound(f)
    && if us == [] then f.first == {} && f.second == {}
       else
         var u, before := us[|us| - 1], us[..|us| - 1];
         || (IsInFirst(f, u) && Lists(before, f.(first := f.first - {u.outputID})))
         || (IsInSecond(f, u) && Lists(before, f.(second := f.second - {u.outputID})))
  }

  lemma {:induction false} ListsTotal(us: seq<Utxo>, f: Found)
    requires Lists(us, f)
    ensures Total(us) == WorthOfFound(f) && IdsOf(us) == f.first + f.second
  {
    if us == [] {
    } else {
      var n := |us| - 1;
      var u := us[n];
      assert us == us[..n] + [u];
      TotalAppend(us[..n], u);
      IdsGrow(us, n);
      assert us[..n + 1] == us;
      if IsInFirst(f, u) && Lists(us[..n], f.(first := f.first - {u.outputID})) {
        ListsTotal(us[..n], f.(first := f.first - {u.outputID}));
        WorthSplit(f.first, f.a, u.outputID);
      } else {
        ListsTotal(us[..n], f.(second := f.second - {u.outputID}));
        WorthSplit(f.second, f.b, u.outputID);
      }
    }
  }

  /** An output is listed twice exactly when both sources have it. */
  lemma {:induction false} ListsOnceIff(us: seq<Utxo>, f: Found)
    requires Lists(us, f)
    ensures NoDuplicates(us) <==> f.first !! f.second
  {
    if us != [] {
      var n := |us| - 1;
      var u := us[n];
      assert us[..n + 1] == us;
      LastTwiceIff(us);
      if IsInFirst(f, u) && Lists(us[..n], f.(first := f.first - {u.outputID})) {
        ListsTotal(us[..n], f.(first := f.first - {u.outputID}));
        ListsOnceIff(us[..n], f.(first := f.first - {u.outputID}));
      } else {
        ListsTotal(us[..n], f.(second := f.second - {u.outputID}));
        ListsOnceIff(us[..n], f.(second := f.second - {u.outputID}));
      }
    }
  }

  lemma LastTwiceIff(us: seq<Utxo>)
    requires us != []
    ensures var n := |us| - 1;
      NoDuplicates(us) <==> NoDuplicates(us[..n]) && us[n].outputID !in IdsOf(us[..n])
  {
    var n := |us| - 1;
    if NoDuplicates(us) {
      forall i, j | 0 <= i < j < n ensures us[..n][i].outputID != us[..n][j].outputID {
        assert us[i].outputID != us[j].outputID;
      }
      forall u | u in us[..n] ensures u.outputID != us[n].outputID {
        var i :| 0 <= i < n && us[..n][i] == u;
        assert us[i].outputID != us[n].outputID;
      }
    }
    if NoDuplicates(us[..n]) && us[n].outputID !in IdsOf(us[..n]) {
      forall i, j | 0 <= i < j < |us| ensures us[i].outputID != us[j].outputID {
        if j == n {
          assert us[..n][i] in us[..n];
        } else {
          assert us[..n][i].outputID != us[..n][j].outputID;
        }
      }
    }
  }

  lemma {:induction false} ListsInserted(x: seq<Utxo>, y: seq<Utxo>, f: Found, u: Utxo, first: bool)
    requires Lists(x + y, f)
    requires if first then u.outputID !in f.first && u.outputID in f.a && f.a[u.outputID] == u
             else u.outputID !in f.second && u.outputID in f.b && f.b[u.outputID] == u
    ensures Lists(x + [u] + y, Joined(f, u, first))
  {
    var f' := Joined(f, u, first);
    if y == [] {
      assert x + y == x && x + [u] + y == x + [u] && (x + [u])[..|x|] == x;
      assert f.first + {u.outputID} - {u.outputID} == f.first || !first;
      assert f.second + {u.outputID} - {u.outputID} == f.second || first;
    } else {
      var n := |y| - 1;
      var v := y[n];
      assert (x + y)[..|x| + n] == x + y[..n] && (x + y)[|x| + n] == v;
      assert (x + [u] + y)[..|x| + 1 + n] == x + [u] + y[..n] && (x + [u] + y)[|x| + 1 + n] == v;
      if IsInFirst(f, v) && Lists(x + y[..n], f.(first := f.first - {v.outputID})) {
        var g := f.(first := f.first - {v.outputID});
        ListsInserted(x, y[..n], g, u, first);
        assert Joined(g, u, first) == f'.(first := f'.first - {v.outputID}) by { JoinedMinus(f, u, v, first); }
        assert IsInFirst(f', v);
      } else {
        var g := f.(second := f.second - {v.outputID});
        ListsInserted(x, y[..n], g, u, first);
        assert Joined(g, u, first) == f'.(second := f'.second - {v.outputID}) by { JoinedMinus(f, u, v, first); }
        assert IsInSecond(f', v);
      }
    }
  }

  function Joined(f: Found, u: Utxo, first: bool): Found {
    if first then f.(first := f.first + {u.outputID}) else f.(second := f.second + {u.outputID})
  }

  lemma JoinedMinus(f: Found, u: Utxo, v: Utxo, first: bool)
    requires if first then u.outputID !in f.first else u.outputID !in f.second
    ensures v.outputID in f.first ==>
              Joined(f.(first := f.first - {v.outputID}), u, first).first == Joined(f, u, first).first - {v.outputID}
    ensures v.outputID in f.second ==>
              Joined(f.(second := f.second - {v.outputID}), u, first).second
              == Joined(f, u, first).second - {v.outputID}
  {
  }

  /** One source after the other. */
  lemma {:induction false} ListsParts(x: seq<Utxo>, y: seq<Utxo>, f: Found)
    requires Enumerates(x, f.first, f.a) && Enumerates(y, f.second, f.b)
    ensures Lists(x + y, f)
    decreases |x| + |y|
  {
    if y != [] {
      var n := |y| - 1;
      assert (x + y)[..|x| + n] == x + y[..n];
      ListsParts(x, y[..n], f.(second := f.second - {y[n].outputID}));
    } else if x != [] {
      assert x + y == x;
      ListsParts(x[..|x| - 1], y, f.(first := f.first - {x[|x| - 1].outputID}));
      assert x[..|x| - 1] + y == x[..|x| - 1];
    }
  }

  /** When the sources have no output in common, they are one set of records. */
  lemma {:induction false} ListsDistinct(us: seq<Utxo>, f: Found)
    requires Lists(us, f) && f.a.Keys !! f.b.Keys
    ensures Enumerates(us, f.first + f.second, f.a + f.b)
  {
    if us != [] {
      var n := |us| - 1;
      var u := us[n];
      if IsInFirst(f, u) && Lists(us[..n], f.(first := f.first - {u.outputID})) {
        ListsDistinct(us[..n], f.(first := f.first - {u.outputID}));
        assert f.first + f.second - {u.outputID} == f.first - {u.outputID} + f.second;
      } else {
        ListsDistinct(us[..n], f.(second := f.second - {u.outputID}));
        assert f.first + f.second - {u.outputID} == f.first + (f.second - {u.outputID});
      }
    }
  }

  /** The records whose output is not taken, in the same order. */
  function Untaken(us: seq<Utxo>, taken: set<Hash>): seq<Utxo> {
    if us == [] then []
    else
      var u, before := us[|us| - 1], Untaken(us[..|us| - 1], taken);
      if u.outputID in taken then before else before + [u]
  }

  lemma {:induction false} UntakenLists(us: seq<Utxo>, f: Found, taken: set<Hash>)
    requires Lists(us, f)
    ensures Lists(Untaken(us, taken), Minus(f, taken))
    ensures Total(us) == Total(Untaken(us, taken)) + WorthOfFound(Meet(f, taken))
    decreases |us|, 0
  {
    if us != [] {
      var n := |us| - 1;
      var u := us[n];
      assert us == us[..n] + [u];
      TotalAppend(us[..n], u);
      if IsInFirst(f, u) && Lists(us[..n], f.(first := f.first - {u.outputID})) {
        UntakenOne(us[..n], f.(first := f.first - {u.outputID}), f, taken, u, true);
      } else {
        UntakenOne(us[..n], f.(second := f.second - {u.outputID}), f, taken, u, false);
      }
    } else {
      assert Minus(f, taken).first == {} && Meet(f, taken).first == {};
    }
  }

  lemma {:induction false} UntakenOne(us: seq<Utxo>, g: Found, f: Found, taken: set<Hash>, u: Utxo, first: bool)
    requires Lists(us, g) && (if first then IsInFirst(f, u) else IsInSecond(f, u))
    requires g == if first then f.(first := f.first - {u.outputID}) else f.(second := f.second - {u.outputID})
    requires IsFound(f)
    ensures var before := Untaken(us, taken);
      if u.outputID in taken
      then Lists(before, Minus(f, taken)) && Total(us) + u.amount == Total(before) + WorthOfFound(Meet(f, taken))
      else Lists(before + [u], Minus(f, taken)) &&
           Total(us) + u.amount == Total(before + [u]) + WorthOfFound(Meet(f, taken))
    decreases |us|, 1
  {
    UntakenLists(us, g, taken);
    var before, h := Untaken(us, taken), u.outputID;
    if h in taken {
      assert Minus(f, taken) == Minus(g, taken) by { TakenMinus(f, taken, h, first); }
      if first {
        WorthSplit(f.first * taken, f.a, h);
        assert f.first * taken - {h} == g.first * taken;
      } else {
        WorthSplit(f.second * taken, f.b, h);
        assert f.second * taken - {h} == g.second * taken;
      }
    } else {
      TotalAppend(before, u);
      assert (before + [u])[..|before|] == before;
      if first {
        assert Minus(f, taken).first - {h} == Minus(g, taken).first && g.first * taken == f.first * taken;
      } else {
        assert Minus(f, taken).second - {h} == Minus(g, taken).second && g.second * taken == f.second * taken;
      }
    }
  }

  lemma TakenMinus(f: Found, taken: set<Hash>, h: Hash, first: bool)
    requires h in taken
    ensures first ==> Minus(f, taken) == Minus(f.(first := f.first - {h}), taken)
    ensures !first ==> Minus(f, taken) == Minus(f.(second := f.second - {h}), taken)
  {
    assert f.first - taken == f.first - {h} - taken;
    assert f.second - taken == f.second - {h} - taken;
  }

  lemma {:induction false} UntakenDescends(us: seq<Utxo>, taken: set<Hash>)
    requires Descending(us)
    ensures Descending(Untaken(us, taken)) && |Untaken(us, taken)| <= |us|
    ensures var left := Untaken(us, taken);
      left != [] ==> us != [] && left[|left| - 1].amount >= us[|us| - 1].amount
  {
    if us != [] {
      var n := |us| - 1;
      UntakenDescends(us[..n], taken);
    }
  }
}
