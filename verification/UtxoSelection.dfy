/** The choice of UTXOs that pay for an amount. */
module UtxoSelection {
  import opened Utxos
  import opened Wrappers
  import Word64

  /** The size above which the selection no longer trades one large UTXO for several small ones. */
  const DESIRE_UTXO_COUNT: nat := 5

  /** picked holds the UTXOs at the positions idx, which ascend and stay below n. */
  ghost predicate IsPick(us: seq<Utxo>, n: nat, idx: seq<nat>, picked: seq<Utxo>) {
    && |picked| == |idx| && n <= |us|
    && (forall i :: 0 <= i < |idx| ==> idx[i] < n && picked[i] == us[idx[i]])
    && (forall i, j :: 0 <= i < j < |idx| ==> idx[i] < idx[j])
  }

  lemma {:induction false} SumWithoutFirst(us: seq<Utxo>, n: nat)
    requires n < |us|
    ensures Sum(us, n + 1) == us[0].amount + Sum(us[1..], n)
  {
    if n > 0 {
      SumWithoutFirst(us, n - 1);
    }
  }

  lemma {:induction false} PickIsBounded(us: seq<Utxo>, n: nat, idx: seq<nat>, picked: seq<Utxo>, k: nat, m: nat)
    requires IsPick(us, n, idx, picked) && k <= |picked| && m <= |us|
    requires k > 0 ==> idx[k - 1] < m
    ensures Sum(picked, k) <= Sum(us, m)
    decreases m
  {
    if m > 0 {
      if k > 0 && idx[k - 1] == m - 1 {
        PickIsBounded(us, n, idx, picked, k - 1, m - 1);
      } else {
        PickIsBounded(us, n, idx, picked, k, m - 1);
      }
    }
  }

  /** No k of the UTXOs are worth more than the k first of the descending list. */
  lemma {:induction false} FirstAreHeaviest(us: seq<Utxo>, n: nat, idx: seq<nat>, picked: seq<Utxo>, k: nat)
    requires Descending(us) && IsPick(us, n, idx, picked) && k <= |picked|
    ensures k <= n && Sum(picked, k) <= Sum(us, k)
    ensures k > 0 ==> idx[k - 1] >= k - 1
  {
    if k > 0 {
      FirstAreHeaviest(us, n, idx, picked, k - 1);
      assert idx[k - 1] < n;
    }
  }

  /**
   * What a caller of the selection relies on. Either everything available was taken and it is too
   * little, or the amount is reached, no member can be spared, and a selection of more than
   * five members has as few members as any that reaches the amount.
   */
  ghost predicate GoodSelection(list: seq<Utxo>, amount: nat, opt: seq<Utxo>) {
    if Total(list) < amount then
      opt == list
    else
      && Total(opt) >= amount
      && (forall i :: 0 <= i < |opt| ==> Total(opt) - opt[i].amount < amount)
      && (|opt| <= 5 || IsSmallestCover(list, amount, |opt|))
  }

  ghost predicate IsSmallestCover(list: seq<Utxo>, amount: nat, size: nat) {
    forall idx: seq<nat>, other: seq<Utxo> ::
      IsPick(list, |list|, idx, other) && Total(other) >= amount ==> size <= |other|
  }

  ghost predicate IsPrefix(list: seq<Utxo>, opt: seq<Utxo>) {
    |opt| <= |list| && forall i {:trigger opt[i]} :: 0 <= i < |opt| ==> opt[i] == list[i]
  }

  /** The state of the selection once the amount is reached: the last member taken was needed. */
  ghost predicate Reached(list: seq<Utxo>, amount: nat, opt: seq<Utxo>) {
    && opt != []
    && Total(opt) >= amount > Sum(opt, |opt| - 1)
    && (|opt| <= DESIRE_UTXO_COUNT || IsPrefix(list, opt))
  }

  /** What holds between two steps: a greedy prefix at first, then a selection that suffices. */
  ghost predicate Selecting(list: seq<Utxo>, i: nat, amount: nat, idx: seq<nat>, opt: seq<Utxo>) {
    && IsPick(list, i, idx, opt)
    && if Total(opt) < amount then |opt| == i && IsPrefix(list, opt) else Reached(list, amount, opt)
  }

  /** The first of the next members that cover the amount together with the candidate, and where they end. */
  function Replaced(list: seq<Utxo>, i: nat, amount: nat, candidate: seq<Utxo>): Option<(nat, seq<Utxo>)>
    requires i <= |list|
    decreases |list| - i
  {
    if i == |list| || |candidate| >= DESIRE_UTXO_COUNT then None
    else
      var more := candidate + [list[i]];
      if Total(more) >= amount then Some((i + 1, more)) else Replaced(list, i + 1, amount, more)
  }

  lemma {:induction false} ReplacedEnds(list: seq<Utxo>, i: nat, amount: nat, candidate: seq<Utxo>)
    requires i <= |list|
    ensures var r := Replaced(list, i, amount, candidate);
      r.Some? ==> i < r.value.0 <= |list| && r.value.1 != []
    decreases |list| - i
  {
    if i < |list| && |candidate| < DESIRE_UTXO_COUNT {
      ReplacedEnds(list, i + 1, amount, candidate + [list[i]]);
    }
  }

  /** What is selected out of a sorted list. */
  function Selected(list: seq<Utxo>, i: nat, amount: nat, opt: seq<Utxo>): seq<Utxo>
    requires i <= |list|
    decreases |list| - i
  {
    if i == |list| then opt
    else if Total(opt) < amount then Selected(list, i + 1, amount, opt + [list[i]])
    else if opt == [] then opt
    else
      var r := Replaced(list, i, amount, opt[1..]);
      ReplacedEnds(list, i, amount, opt[1..]);
      if r.None? then opt else Selected(list, r.value.0, amount, r.value.1)
  }

  /** A large output and five of one: for an amount of five, the small ones replace the large one. */
  lemma SmallAreSelected(big: Utxo, small: seq<Utxo>)
    requires big.amount > 5 && |small| == 5 && forall i :: 0 <= i < 5 ==> small[i].amount == 1
    ensures Selected([big] + small, 0, 5, []) == small
  {
    var list := [big] + small;
    assert Total([big]) == Sum([big], 0) + big.amount;
    assert [] + [list[0]] == [big] && [big][1..] == [];
    assert Selected(list, 0, 5, []) == Selected(list, 1, 5, [big]);
    AllReplace(list, small, 0);
    assert Selected(list, 6, 5, small) == small;
  }

  lemma {:induction false} AllReplace(list: seq<Utxo>, small: seq<Utxo>, k: nat)
    requires |small| == 5 && forall i :: 0 <= i < 5 ==> small[i].amount == 1
    requires |list| == 6 && list[1..] == small && k < 5
    ensures Replaced(list, k + 1, 5, small[..k]) == Some((6, small))
    decreases 5 - k
  {
    var more := small[..k] + [list[k + 1]];
    assert list[k + 1] == list[1..][k] == small[k];
    assert more == small[..k + 1];
    SmallTotal(small, k + 1);
    if k == 4 {
      assert more == small;
    } else {
      AllReplace(list, small, k + 1);
    }
  }

  lemma {:induction false} SmallTotal(small: seq<Utxo>, n: nat)
    requires n <= |small| && forall i :: 0 <= i < |small| ==> small[i].amount == 1
    ensures Total(small[..n]) == n
  {
    if n > 0 {
      SmallTotal(small, n - 1);
      assert small[..n] == small[..n - 1] + [small[n - 1]];
      TotalAppend(small[..n - 1], small[n - 1]);
    }
  }

  /**
   * Take the largest UTXOs until the amount is reached, then go on replacing the largest member by
   * smaller ones as long as the amount stays covered and the selection does not outgrow its limit.
   */
  method SelectFrom(list: seq<Utxo>, amount: nat)
    returns (opt: seq<Utxo>, optAmount: nat, ghost idx: seq<nat>)
    requires (amount > 0 || list == []) && Descending(list) && Total(list) < Word64.LIMIT
    ensures IsPick(list, |list|, idx, opt) && optAmount == Total(opt)
    ensures GoodSelection(list, amount, opt) && opt == Selected(list, 0, amount, [])
  {
    opt, optAmount, idx := [], 0, [];
    var i := 0;
    var more := true;
    assert (list == [] || Selecting(list, i, amount, idx, opt)) && Total(opt) == 0;
    EmptySelection(amount);
    hide Selecting, Selected, Replaced, IsPick, Reached, Descending, Total, GoodSelection;
    while more && i < |list|
      invariant 0 <= i <= |list|
      invariant if list == [] then opt == [] && idx == [] else Selecting(list, i, amount, idx, opt)
      invariant optAmount == Total(opt)
      invariant !more ==> optAmount >= amount
      invariant Selected(list, 0, amount, []) == if more then Selected(list, i, amount, opt) else opt
      decreases more, |list| - i
    {
      SelectedStep(list, i, amount, opt);
      if optAmount < amount {
        TakeNext(list, i, amount, idx, opt);
        opt, idx := opt + [list[i]], idx + [i];
        optAmount := Word64.Add(optAmount, list[i].amount);
        i := i + 1;
      } else {
        SelectingEnough(list, i, amount, idx, opt);
        i, opt, optAmount, idx, more := ReplaceLargest(list, i, amount, opt, optAmount, idx);
        EnoughIsSelecting(list, i, amount, idx, opt);
      }
    }
    SelectedEnd(list, amount, opt);
    if list != [] {
      Finish(list, i, amount, idx, opt);
    }
  }

  lemma SelectedStep(list: seq<Utxo>, i: nat, amount: nat, opt: seq<Utxo>)
    requires i < |list|
    ensures Total(opt) < amount ==> Selected(list, i, amount, opt) == Selected(list, i + 1, amount, opt + [list[i]])
    ensures Total(opt) >= amount && opt != [] ==>
              var r := Replaced(list, i, amount, opt[1..]);
              && (r.None? ==> Selected(list, i, amount, opt) == opt)
              && (r.Some? ==>
                    && r.value.0 <= |list|
                    && Selected(list, i, amount, opt) == Selected(list, r.value.0, amount, r.value.1))
  {
    hide Replaced, Total;
    if opt != [] {
      ReplacedEnds(list, i, amount, opt[1..]);
    }
  }

  lemma EmptySelection(amount: nat)
    ensures IsPick([], 0, [], []) && GoodSelection([], amount, [])
  {
  }

  lemma SelectedEnd(list: seq<Utxo>, amount: nat, opt: seq<Utxo>)
    ensures Selected(list, |list|, amount, opt) == opt
  {
  }

  lemma SelectingEnough(list: seq<Utxo>, i: nat, amount: nat, idx: seq<nat>, opt: seq<Utxo>)
    requires Selecting(list, i, amount, idx, opt) && Total(opt) >= amount
    ensures IsPick(list, i, idx, opt) && Reached(list, amount, opt)
  {
  }

  lemma EnoughIsSelecting(list: seq<Utxo>, i: nat, amount: nat, idx: seq<nat>, opt: seq<Utxo>)
    requires IsPick(list, i, idx, opt) && Reached(list, amount, opt)
    ensures Selecting(list, i, amount, idx, opt) && Total(opt) >= amount
  {
  }

  /**
   * One attempt to cover the amount without the largest member. It returns the position after the
   * last UTXO it looked at, and whether it replaced anything: if not, the selection is final.
   */
  method ReplaceLargest(
    list: seq<Utxo>, node: nat, amount: nat, opt: seq<Utxo>, optAmount: nat, ghost idx: seq<nat>)
    returns (i: nat, opt': seq<Utxo>, optAmount': nat, ghost idx': seq<nat>, replaced: bool)
    requires Total(list) < Word64.LIMIT && Descending(list) && node < |list|
    requires IsPick(list, node, idx, opt) && optAmount == Total(opt) && Reached(list, amount, opt)
    ensures node <= i <= |list| && (replaced ==> node < i)
    ensures IsPick(list, i, idx', opt') && optAmount' == Total(opt') && Reached(list, amount, opt')
    ensures opt != [] && Replaced(list, node, amount, opt[1..]) == if replaced then Some((i, opt')) else None
    ensures !replaced ==> opt' == opt
  {
    hide Trying, IsPick, Reached, Replaced, Descending, Total;
    opt', optAmount', idx', replaced := opt, optAmount, idx, false;
    i := node;
    StartTrying(list, node, amount, idx, opt);
    ghost var candidateIdx, candidate := idx[1..], opt[1..];
    var replacement, replaceAmount: int := [], Word64.Sub(optAmount, opt[0].amount);
    while i < |list| && |replacement| <= DESIRE_UTXO_COUNT - |opt|
      invariant node <= i <= |list| && candidate == opt[1..] + replacement
      invariant Trying(list, node, i, amount, opt[1..], candidateIdx, candidate)
      invariant replaceAmount == Total(candidate)
    {
      TryNext(list, node, i, amount, opt[1..], candidateIdx, candidate);
      JoinNext(opt[1..], replacement, list[i]);
      candidate, candidateIdx := candidate + [list[i]], candidateIdx + [i];
      replacement := replacement + [list[i]];
      replaceAmount := Word64.Add(replaceAmount, list[i].amount);
      i := i + 1;
      if replaceAmount >= amount {
        opt', optAmount', idx', replaced := opt[1..] + replacement, replaceAmount, candidateIdx, true;
        return;
      }
    }
    TryEnds(list, node, i, amount, opt[1..], candidateIdx, candidate);
    IsPickUpTo(list, node, i, idx, opt);
  }

  /** The state of the attempt: too little so far, and the rest decides. */
  ghost predicate Trying(
    list: seq<Utxo>, node: nat, i: nat, amount: nat, base: seq<Utxo>, idx: seq<nat>, candidate: seq<Utxo>)
    requires node <= |list| && i <= |list|
  {
    && IsPick(list, i, idx, candidate) && Total(candidate) < amount
    && Replaced(list, node, amount, base) == Replaced(list, i, amount, candidate)
  }

  lemma StartTrying(list: seq<Utxo>, node: nat, amount: nat, idx: seq<nat>, opt: seq<Utxo>)
    requires Total(list) < Word64.LIMIT && Descending(list) && node < |list|
    requires IsPick(list, node, idx, opt) && Reached(list, amount, opt)
    ensures opt != [] && |idx| == |opt| && opt[1..] + [] == opt[1..]
    ensures Trying(list, node, node, amount, opt[1..], idx[1..], opt[1..])
    ensures Word64.Sub(Total(opt), opt[0].amount) == Total(opt[1..])
  {
    hide Replaced;
    CanSpareFirst(list, node, amount, idx, opt);
  }

  lemma TryNext(
    list: seq<Utxo>, node: nat, i: nat, amount: nat, base: seq<Utxo>, idx: seq<nat>, candidate: seq<Utxo>)
    requires node <= |list| && i < |list| && |candidate| < DESIRE_UTXO_COUNT
    requires Trying(list, node, i, amount, base, idx, candidate)
    ensures var more := candidate + [list[i]];
      && Total(more) == Total(candidate) + list[i].amount <= Total(list)
      && if Total(more) < amount then Trying(list, node, i + 1, amount, base, idx + [i], more)
         else
           && IsPick(list, i + 1, idx + [i], more) && Reached(list, amount, more)
           && Replaced(list, node, amount, base) == Some((i + 1, more))
  {
    hide IsPick;
    var more := candidate + [list[i]];
    Extend(list, i, idx, candidate);
    if Total(more) >= amount {
      ReachedByLast(list, amount, more);
    }
  }

  lemma TryEnds(
    list: seq<Utxo>, node: nat, i: nat, amount: nat, base: seq<Utxo>, idx: seq<nat>, candidate: seq<Utxo>)
    requires node <= |list| && i <= |list| && (i == |list| || |candidate| >= DESIRE_UTXO_COUNT)
    requires Trying(list, node, i, amount, base, idx, candidate)
    ensures Replaced(list, node, amount, base) == None
  {
  }

  lemma JoinNext(a: seq<Utxo>, b: seq<Utxo>, u: Utxo)
    ensures a + b + [u] == a + (b + [u])
  {
  }

  lemma ReachedByLast(list: seq<Utxo>, amount: nat, opt: seq<Utxo>)
    requires 0 < |opt| <= DESIRE_UTXO_COUNT && Total(opt) >= amount > Sum(opt, |opt| - 1)
    ensures Reached(list, amount, opt)
  {
  }

  lemma IsPickUpTo(list: seq<Utxo>, m: nat, n: nat, idx: seq<nat>, opt: seq<Utxo>)
    requires m <= n <= |list| && IsPick(list, m, idx, opt)
    ensures IsPick(list, n, idx, opt)
  {
  }

  lemma PickOneMore(list: seq<Utxo>, n: nat, idx: seq<nat>, picked: seq<Utxo>)
    requires n < |list| && IsPick(list, n, idx, picked)
    ensures IsPick(list, n + 1, idx, picked) && IsPick(list, n + 1, idx + [n], picked + [list[n]])
  {
  }

  lemma Extend(list: seq<Utxo>, i: nat, idx: seq<nat>, opt: seq<Utxo>)
    requires i < |list| && IsPick(list, i, idx, opt)
    ensures IsPick(list, i + 1, idx + [i], opt + [list[i]])
    ensures Sum(opt + [list[i]], |opt|) == Total(opt)
    ensures Total(opt + [list[i]]) == Total(opt) + list[i].amount <= Total(list)
  {
    hide IsPick;
    PickOneMore(list, i, idx, opt);
    SumAgrees(opt + [list[i]], opt, |opt|);
    PickIsBounded(list, i + 1, idx + [i], opt + [list[i]], |opt| + 1, |list|);
  }

  lemma TakeNext(list: seq<Utxo>, i: nat, amount: nat, idx: seq<nat>, opt: seq<Utxo>)
    requires i < |list| && Selecting(list, i, amount, idx, opt) && Total(opt) < amount
    ensures Selecting(list, i + 1, amount, idx + [i], opt + [list[i]])
    ensures Total(opt + [list[i]]) == Total(opt) + list[i].amount <= Total(list)
  {
    Extend(list, i, idx, opt);
  }

  lemma CanSpareFirst(list: seq<Utxo>, i: nat, amount: nat, idx: seq<nat>, opt: seq<Utxo>)
    requires Total(list) < Word64.LIMIT && Descending(list)
    requires IsPick(list, i, idx, opt) && Reached(list, amount, opt)
    ensures IsPick(list, i, idx[1..], opt[1..])
    ensures Total(opt[1..]) == Word64.Sub(Total(opt), opt[0].amount) < amount
  {
    SumWithoutFirst(opt, |opt| - 1);
    PickIsBounded(list, i, idx, opt, |opt|, |list|);
  }

  lemma Finish(list: seq<Utxo>, i: nat, amount: nat, idx: seq<nat>, opt: seq<Utxo>)
    requires Descending(list) && Selecting(list, i, amount, idx, opt)
    requires i == |list| || Total(opt) >= amount
    ensures GoodSelection(list, amount, opt) && IsPick(list, |list|, idx, opt)
  {
    if Total(opt) < amount {
      assert opt == list;
    } else {
      PickIsBounded(list, i, idx, opt, |opt|, |list|);
      if |opt| > DESIRE_UTXO_COUNT {
        PrefixIsSmallestCover(list, amount, opt);
      }
    }
  }

  lemma PrefixIsSmallestCover(list: seq<Utxo>, amount: nat, opt: seq<Utxo>)
    requires Descending(list) && Reached(list, amount, opt) && IsPrefix(list, opt)
    ensures IsSmallestCover(list, amount, |opt|)
  {
    forall idx: seq<nat>, other: seq<Utxo>
      | IsPick(list, |list|, idx, other) && Total(other) >= amount
      ensures |opt| <= |other|
    {
      FirstAreHeaviest(list, |list|, idx, other, |other|);
      SumAgrees(opt, list, |opt| - 1);
      if |other| < |opt| {
        SumIsMonotonic(list, |other|, |opt| - 1);
      }
    }
  }
}
