/** Merging many UTXOs into one by a chain of transactions that pay their own gas. */
module MergeChain {
  import opened Numbers
  import opened Wrappers
  import opened Utxos
  import Word64

  const BTM_ASSET_ID: Hash := 0xFFFFFFFF_FFFFFFFF_FFFFFFFF_FFFFFFFF_FFFFFFFF_FFFFFFFF_FFFFFFFF_FFFFFFFF

  /** The two package variables of the transaction builder. */
  datatype MergeParams = MergeParams(utxoNum: nat, mergeGas: nat)

  const PRODUCTION := MergeParams(5, 6_000_000)

  predicate Usable(p: MergeParams) {
    p.utxoNum >= 2 && p.mergeGas <= Word64.MAX_INT64
  }

  /** How many merges turn n UTXOs into one. */
  function MergeCount(n: int, p: MergeParams): nat
    requires Usable(p)
    decreases n
  {
    if n <= 1 then 0 else 1 + MergeCount(n - (p.utxoNum - 1), p)
  }

  function GasFor(n: int, p: MergeParams): nat
    requires Usable(p)
    decreases n
  {
    if n <= 1 then 0 else p.mergeGas + GasFor(n - (p.utxoNum - 1), p)
  }

  lemma {:induction false} GasForIsPerMerge(n: int, p: MergeParams)
    requires Usable(p)
    ensures GasFor(n, p) == p.mergeGas * MergeCount(n, p)
    decreases n
  {
    if n > 1 {
      GasForIsPerMerge(n - (p.utxoNum - 1), p);
    }
  }

  lemma {:induction false} GasForIsMonotonic(m: int, n: int, p: MergeParams)
    requires Usable(p) && m <= n
    ensures GasFor(m, p) <= GasFor(n, p)
    decreases m
  {
    if m > 1 {
      GasForIsMonotonic(m - (p.utxoNum - 1), n - (p.utxoNum - 1), p);
    }
  }

  method CalcMergeGas(num: int, p: MergeParams) returns (gas: nat)
    requires Usable(p) && GasFor(num, p) < Word64.LIMIT
    ensures gas == p.mergeGas * MergeCount(num, p)
  {
    gas := 0;
    var n := num;
    while n > 1
      invariant gas + GasFor(n, p) == GasFor(num, p)
      decreases n
    {
      gas := Word64.Add(gas, p.mergeGas);
      n := n - (p.utxoNum - 1);
    }
    GasForIsPerMerge(num, p);
  }

  /** A merge transaction: the UTXOs it spends and its only output. */
  datatype Merge = Merge(inputs: seq<Utxo>, output: Utxo)

  /** What the builder asks of the wallet and of the transaction hash. */
  datatype Wallet = Wallet(knowsAddress: Utxo -> bool, canSign: Utxo -> bool, idOf: seq<Utxo> -> Hash)

  datatype BuildError = NoInputs | UnknownAddress | CannotSign | BadAmount

  datatype BuildResult = Built(merges: seq<Merge>, last: Utxo) | Failed(error: BuildError)

  function Width(n: nat, p: MergeParams): nat {
    if n < p.utxoNum then n else p.utxoNum
  }

  function MergeOf(inputs: seq<Utxo>, amount: nat, w: Wallet): Merge {
    Merge(inputs, Utxo(w.idOf(inputs), BTM_ASSET_ID, amount, [], "", 0))
  }

  /**
   * The chain as a queue: the front of the queue is merged and the output joins the back, until one
   * UTXO is left. None when the front is not worth the gas of merging it.
   */
  function Chain(queue: seq<Utxo>, p: MergeParams, w: Wallet): (result: Option<(seq<Merge>, Utxo)>)
    requires Usable(p) && queue != []
    decreases |queue|
  {
    if |queue| == 1 then Some(([], queue[0]))
    else
      var front := queue[..Width(|queue|, p)];
      if Total(front) < p.mergeGas then None
      else
        var m := MergeOf(front, Total(front) - p.mergeGas, w);
        Prepend([m], Chain(queue[|front|..] + [m.output], p, w))
  }

  function Prepend(merges: seq<Merge>, rest: Option<(seq<Merge>, Utxo)>): Option<(seq<Merge>, Utxo)> {
    if rest.None? then None else Some((merges + rest.value.0, rest.value.1))
  }

  function Spent(merges: seq<Merge>): seq<Utxo> {
    if merges == [] then [] else merges[0].inputs + Spent(merges[1..])
  }

  function Outputs(merges: seq<Merge>): seq<Utxo> {
    if merges == [] then [] else [merges[0].output] + Outputs(merges[1..])
  }

  /** Two to five inputs, and one output of the native asset that is worth them less the gas. */
  ghost predicate WellFormed(m: Merge, p: MergeParams) {
    && 2 <= |m.inputs| <= p.utxoNum && Total(m.inputs) == m.output.amount + p.mergeGas
    && m.output == Utxo(m.output.outputID, BTM_ASSET_ID, m.output.amount, [], "", 0)
  }

  /** All 32 octets of its identifier are 255. */
  lemma NativeAsset()
    ensures BTM_ASSET_ID == Pow256(32) - 1
  {
    assert Pow256(4) == 0x1_00000000;
    assert Pow256(8) == 0x1_00000000_00000000;
    assert Pow256(12) == 0x1_00000000_00000000_00000000;
    assert Pow256(16) == 0x1_00000000_00000000_00000000_00000000;
    assert Pow256(20) == 0x1_00000000_00000000_00000000_00000000_00000000;
    assert Pow256(24) == 0x1_00000000_00000000_00000000_00000000_00000000_00000000;
    assert Pow256(28) == 0x1_00000000_00000000_00000000_00000000_00000000_00000000_00000000;
    assert Pow256(32) == 0x1_00000000_00000000_00000000_00000000_00000000_00000000_00000000_00000000;
  }

  /**
   * Every UTXO of the queue and every intermediate output is spent exactly once, in order, and only
   * the last output is left over; the number of merges is the one the gas was reserved for.
   */
  lemma {:induction false} ChainSpendsEverythingOnce(queue: seq<Utxo>, p: MergeParams, w: Wallet)
    requires Usable(p) && queue != [] && Chain(queue, p, w).Some?
    ensures var (merges, last) := Chain(queue, p, w).value;
      && Spent(merges) + [last] == queue + Outputs(merges)
      && |merges| == MergeCount(|queue|, p)
      && forall i :: 0 <= i < |merges| ==> WellFormed(merges[i], p)
    decreases |queue|
  {
    if |queue| == 1 {
      assert [] + [queue[0]] == queue + [];
    } else {
      hide Chain, Spent, Outputs, WellFormed;
      var m, back := ChainNext(queue, p, w);
      ChainSpendsEverythingOnce(back, p, w);
      var (rest, last) := Chain(back, p, w).value;
      OneMoreMerge(queue, m.inputs, m, rest, last);
    }
  }

  lemma ChainNext(queue: seq<Utxo>, p: MergeParams, w: Wallet) returns (m: Merge, back: seq<Utxo>)
    requires Usable(p) && |queue| > 1 && Chain(queue, p, w).Some?
    ensures m.inputs == queue[..Width(|queue|, p)] && back == queue[|m.inputs|..] + [m.output] && WellFormed(m, p)
    ensures Chain(back, p, w).Some?
    ensures Chain(queue, p, w).value == ([m] + Chain(back, p, w).value.0, Chain(back, p, w).value.1)
  {
    var front := queue[..Width(|queue|, p)];
    m := MergeOf(front, Total(front) - p.mergeGas, w);
    back := queue[|front|..] + [m.output];
  }

  lemma OneMoreMerge(queue: seq<Utxo>, front: seq<Utxo>, m: Merge, rest: seq<Merge>, last: Utxo)
    requires front <= queue && m.inputs == front
    requires Spent(rest) + [last] == queue[|front|..] + [m.output] + Outputs(rest)
    ensures Spent([m] + rest) + [last] == queue + Outputs([m] + rest)
  {
    assert ([m] + rest)[1..] == rest;
    calc {
      Spent([m] + rest) + [last];
      front + (Spent(rest) + [last]);
      front + queue[|front|..] + ([m.output] + Outputs(rest));
    }
    assert front + queue[|front|..] == queue;
  }

  /** The value that goes in comes out again, less the gas of the merges. */
  lemma {:induction false} ChainConservesValue(queue: seq<Utxo>, p: MergeParams, w: Wallet)
    requires Usable(p) && queue != [] && Chain(queue, p, w).Some?
    ensures Total(queue) == Chain(queue, p, w).value.1.amount + GasFor(|queue|, p)
    decreases |queue|
  {
    if |queue| == 1 {
      assert Total(queue) == Sum(queue, 0) + queue[0].amount;
    } else {
      var front := queue[..Width(|queue|, p)];
      var m := MergeOf(front, Total(front) - p.mergeGas, w);
      var back := queue[|front|..] + [m.output];
      ChainConservesValue(back, p, w);
      TotalConcat(front, queue[|front|..]);
      assert front + queue[|front|..] == queue;
      TotalAppend(queue[|front|..], m.output);
      assert GasFor(|back|, p) == GasFor(|queue| - (p.utxoNum - 1), p);
    }
  }

  /** The UTXOs that the wallet is asked to sign for, in order: the fronts, up to one that cannot be merged. */
  function Asked(queue: seq<Utxo>, p: MergeParams, w: Wallet): seq<Utxo>
    requires Usable(p) && queue != []
    decreases |queue|
  {
    if |queue| == 1 then []
    else
      var front := queue[..Width(|queue|, p)];
      if Total(front) < p.mergeGas then front
      else front + Asked(queue[|front|..] + [MergeOf(front, Total(front) - p.mergeGas, w).output], p, w)
  }

  /** The merges that are made before the builder is done or fails. */
  function Merged(queue: seq<Utxo>, p: MergeParams, w: Wallet): seq<Merge>
    requires Usable(p) && queue != []
    decreases |queue|
  {
    if |queue| == 1 then []
    else
      var front := queue[..Width(|queue|, p)];
      if Total(front) < p.mergeGas then []
      else
        var m := MergeOf(front, Total(front) - p.mergeGas, w);
        [m] + Merged(queue[|front|..] + [m.output], p, w)
  }

  ghost predicate CanSignAll(us: seq<Utxo>, w: Wallet) {
    forall i :: 0 <= i < |us| ==> w.canSign(us[i])
  }

  /** The wallet is only asked about what was reserved and about outputs of merges, in the order of the queue. */
  lemma {:induction false} AskedInOrder(queue: seq<Utxo>, p: MergeParams, w: Wallet)
    requires Usable(p) && queue != []
    ensures Asked(queue, p, w) <= queue + Outputs(Merged(queue, p, w))
    decreases |queue|
  {
    if |queue| > 1 {
      hide Asked, Merged, Total, Outputs, Spent, MergeOf, Width;
      var front, tail, m := AskedOfFront(queue, p, w);
      if m.None? {
        assert queue + Outputs(Merged(queue, p, w)) == front + (tail + Outputs(Merged(queue, p, w)));
      } else {
        var back := tail + [m.value.output];
        AskedInOrder(back, p, w);
        OutputsOfMore(m.value, Merged(back, p, w));
        PrefixAfter(front, tail, m.value.output, Asked(back, p, w), Outputs(Merged(back, p, w)));
      }
    }
  }

  lemma AskedOfFront(queue: seq<Utxo>, p: MergeParams, w: Wallet)
    returns (front: seq<Utxo>, tail: seq<Utxo>, m: Option<Merge>)
    requires Usable(p) && |queue| > 1
    ensures queue == front + tail && |front| >= 2
    ensures if m.None? then Asked(queue, p, w) == front && Merged(queue, p, w) == []
            else
              var back := tail + [m.value.output];
              && Asked(queue, p, w) == front + Asked(back, p, w)
              && Merged(queue, p, w) == [m.value] + Merged(back, p, w)
  {
    hide Asked, Merged, Total;
    AskedNext(queue, p, w);
    front, tail := queue[..Width(|queue|, p)], queue[Width(|queue|, p)..];
    m := if Total(front) < p.mergeGas then None else Some(MergeOf(front, Total(front) - p.mergeGas, w));
  }

  lemma AskedNext(queue: seq<Utxo>, p: MergeParams, w: Wallet)
    requires Usable(p) && |queue| > 1
    ensures var front := queue[..Width(|queue|, p)];
      if Total(front) < p.mergeGas then Asked(queue, p, w) == front && Merged(queue, p, w) == []
      else
        var m := MergeOf(front, Total(front) - p.mergeGas, w);
        var back := queue[|front|..] + [m.output];
        && Asked(queue, p, w) == front + Asked(back, p, w)
        && Merged(queue, p, w) == [m] + Merged(back, p, w)
  {
    hide Total;
  }

  lemma OutputsOfMore(m: Merge, rest: seq<Merge>)
    ensures Outputs([m] + rest) == [m.output] + Outputs(rest)
    ensures Spent([m] + rest) == m.inputs + Spent(rest)
  {
    assert ([m] + rest)[1..] == rest;
  }

  lemma PrefixAfter(front: seq<Utxo>, tail: seq<Utxo>, u: Utxo, a: seq<Utxo>, b: seq<Utxo>)
    requires a <= tail + [u] + b
    ensures front + a <= front + tail + ([u] + b)
  {
    var all := tail + [u] + b;
    assert all == a + all[|a|..];
    assert front + tail + ([u] + b) == front + a + all[|a|..];
  }

  /** When everything is merged, the wallet was asked about exactly what was spent. */
  lemma {:induction false} AskedIsSpent(queue: seq<Utxo>, p: MergeParams, w: Wallet)
    requires Usable(p) && queue != [] && Chain(queue, p, w).Some?
    ensures Chain(queue, p, w).value.0 == Merged(queue, p, w) && Asked(queue, p, w) == Spent(Merged(queue, p, w))
    decreases |queue|
  {
    if |queue| > 1 {
      var front := queue[..Width(|queue|, p)];
      var m := MergeOf(front, Total(front) - p.mergeGas, w);
      var back := queue[|front|..] + [m.output];
      assert Merged(queue, p, w) == [m] + Merged(back, p, w);
      assert Asked(queue, p, w) == front + Asked(back, p, w);
      AskedIsSpent(back, p, w);
      hide Asked, Merged, Spent;
      OutputsOfMore(m, Merged(back, p, w));
    }
  }

  /** What is gathered in a member of the queue: the reserved value, and the merges that led to it. */
  datatype Load = Load(worth: nat, merges: nat)

  function LoadsOf(us: seq<Utxo>): (loads: seq<Load>)
    ensures |loads| == |us|
  {
    seq(|us|, i requires 0 <= i < |us| => Load(us[i].amount, 0))
  }

  function WorthOf(loads: seq<Load>): nat {
    if loads == [] then 0 else WorthOf(loads[..|loads| - 1]) + loads[|loads| - 1].worth
  }

  function MergesOf(loads: seq<Load>): nat {
    if loads == [] then 0 else MergesOf(loads[..|loads| - 1]) + loads[|loads| - 1].merges
  }

  /** What every merge of the queue would gather, whether its inputs are worth their gas or not. */
  function Gathered(loads: seq<Load>, p: MergeParams): seq<Load>
    requires Usable(p)
    decreases |loads|
  {
    if |loads| <= 1 then []
    else
      var front := loads[..Width(|loads|, p)];
      var g := Load(WorthOf(front), MergesOf(front) + 1);
      [g] + Gathered(loads[|front|..] + [g], p)
  }

  /** Each merge gathers at least the gas of all merges that led to it. */
  ghost predicate ArePaid(gathered: seq<Load>, gas: nat) {
    forall i :: 0 <= i < |gathered| ==> gathered[i].worth >= gas * gathered[i].merges
  }

  /** Every member is worth what was gathered in it, less the gas that was paid. */
  ghost predicate Carry(us: seq<Utxo>, loads: seq<Load>, gas: nat) {
    |us| == |loads| && forall i :: 0 <= i < |us| ==> us[i].amount == loads[i].worth - gas * loads[i].merges
  }

  lemma {:induction false} CarriedTotal(us: seq<Utxo>, loads: seq<Load>, gas: nat)
    requires Carry(us, loads, gas)
    ensures Total(us) == WorthOf(loads) - gas * MergesOf(loads)
  {
    if us == [] {
      assert gas * 0 == 0;
    } else {
      var n := |us| - 1;
      CarriedTotal(us[..n], loads[..n], gas);
      assert us == us[..n] + [us[n]];
      TotalAppend(us[..n], us[n]);
      GasDistributes(gas, MergesOf(loads[..n]), loads[n].merges);
    }
  }

  lemma GasDistributes(gas: nat, a: nat, b: nat)
    ensures gas * (a + b) == gas * a + gas * b
  {
  }

  /** The chain succeeds exactly when every merge has gathered the gas of itself and of those before it. */
  lemma {:induction false} ChainIffPaid(us: seq<Utxo>, loads: seq<Load>, p: MergeParams, w: Wallet)
    requires Usable(p) && us != [] && Carry(us, loads, p.mergeGas)
    ensures Chain(us, p, w).Some? <==> ArePaid(Gathered(loads, p), p.mergeGas)
    decreases |us|
  {
    if |us| > 1 {
      var n := Width(|us|, p);
      var front, group := us[..n], loads[..n];
      var g := Load(WorthOf(group), MergesOf(group) + 1);
      CarriedTotal(front, group, p.mergeGas);
      GasDistributes(p.mergeGas, MergesOf(group), 1);
      var later := Gathered(loads[n..] + [g], p);
      assert Gathered(loads, p) == [g] + later;
      if Total(front) >= p.mergeGas {
        var m := MergeOf(front, Total(front) - p.mergeGas, w);
        ChainIffPaid(us[n..] + [m.output], loads[n..] + [g], p, w);
        FirstIsPaid(g, later, p.mergeGas);
      } else {
        assert !ArePaid([g] + later, p.mergeGas) by { assert ([g] + later)[0] == g; }
      }
    }
  }

  lemma FirstIsPaid(g: Load, later: seq<Load>, gas: nat)
    requires g.worth >= gas * g.merges
    ensures ArePaid([g] + later, gas) <==> ArePaid(later, gas)
  {
    if ArePaid([g] + later, gas) {
      forall i | 0 <= i < |later| ensures later[i].worth >= gas * later[i].merges {
        assert ([g] + later)[i + 1] == later[i];
      }
    }
  }

  /** Whether reserved outputs can be merged can be seen from their amounts and their order. */
  ghost predicate CanMerge(us: seq<Utxo>, p: MergeParams)
    requires Usable(p)
  {
    ArePaid(Gathered(LoadsOf(us), p), p.mergeGas)
  }

  lemma MergesIff(us: seq<Utxo>, p: MergeParams, w: Wallet)
    requires Usable(p) && us != []
    ensures Chain(us, p, w).Some? <==> CanMerge(us, p)
  {
    hide Chain, Gathered, ArePaid;
    NoGasYet(us, p.mergeGas);
    ChainIffPaid(us, LoadsOf(us), p, w);
  }

  lemma NoGasYet(us: seq<Utxo>, gas: nat)
    ensures Carry(us, LoadsOf(us), gas)
  {
    assert gas * 0 == 0;
  }

  ghost predicate AreWorth(us: seq<Utxo>, gas: nat) {
    forall i :: 0 <= i < |us| ==> us[i].amount >= gas
  }

  /** Outputs that are each worth the gas of a merge can always be merged. */
  lemma {:induction false} WorthyAreMerged(queue: seq<Utxo>, p: MergeParams, w: Wallet)
    requires Usable(p) && queue != [] && AreWorth(queue, p.mergeGas)
    ensures Chain(queue, p, w).Some?
    decreases |queue|
  {
    if |queue| > 1 {
      var front := queue[..Width(|queue|, p)];
      assert front == front[..|front| - 1] + [front[|front| - 1]];
      TotalAppend(front[..|front| - 1], front[|front| - 1]);
      assert front[..|front| - 1] == front[..|front| - 2] + [front[|front| - 2]];
      TotalAppend(front[..|front| - 2], front[|front| - 2]);
      var m := MergeOf(front, Total(front) - p.mergeGas, w);
      WorthyAreMerged(queue[|front|..] + [m.output], p, w);
    }
  }

  /** Five small outputs in front: together they are not worth the gas of their merge. */
  lemma SmallAreNotMerged(small: seq<Utxo>, big: Utxo, w: Wallet)
    requires |small| == 5 && forall i :: 0 <= i < 5 ==> small[i].amount == 1
    requires big.amount == 100_000_000
    ensures Total(small) == 5 && Total(small + [big]) >= 5 + GasFor(6, PRODUCTION)
    ensures Chain(small + [big], PRODUCTION, w).None?
  {
    var queue := small + [big];
    assert Sum(small, 1) == 1 && Sum(small, 2) == 2 && Sum(small, 3) == 3 && Sum(small, 4) == 4;
    TotalAppend(small, big);
    assert queue[..Width(6, PRODUCTION)] == small;
    assert GasFor(2, PRODUCTION) == 6_000_000;
  }

  method BuildBtmTxChain(reserved: seq<Utxo>, p: MergeParams, w: Wallet) returns (r: BuildResult)
    requires Usable(p) && Total(reserved) <= Word64.MAX_INT64
    ensures r == Failed(NoInputs) <==> reserved == []
    ensures r == Failed(UnknownAddress) <==> |reserved| > 1 && !w.knowsAddress(reserved[0])
    ensures r == Failed(CannotSign) <==>
              |reserved| > 1 && w.knowsAddress(reserved[0]) && !CanSignAll(Asked(reserved, p, w), w)
    ensures r == Failed(BadAmount) <==>
              && |reserved| > 1 && w.knowsAddress(reserved[0]) && CanSignAll(Asked(reserved, p, w), w)
              && !CanMerge(reserved, p)
    ensures r.Built? ==> reserved != [] && CanMerge(reserved, p)
    ensures r.Built? ==> Chain(reserved, p, w) == Some((r.merges, r.last))
  {
    hide Chain, Asked, CanSignAll, Building, MergeOf, CanMerge;
    if reserved == [] {
      return Failed(NoInputs);
    }
    MergesIff(reserved, p, w);
    if |reserved| == 1 {
      OneIsDone(reserved, p, w);
      return Built([], reserved[0]);
    }
    if !w.knowsAddress(reserved[0]) {
      return Failed(UnknownAddress);
    }
    var utxos, merges := reserved, [];
    var inputs, buildAmount := [], 0;
    var index := 0;
    StartBuilding(reserved, p, w);
    while true
      invariant Building(reserved, utxos, index, inputs, merges, p, w) && buildAmount == Total(inputs)
      decreases |inputs| + |utxos| - index, |utxos| - index
    {
      BuildingFacts(reserved, utxos, index, inputs, merges, p, w);
      if !w.canSign(utxos[index]) {
        return Failed(CannotSign);
      }
      inputs := inputs + [utxos[index]];
      buildAmount := Word64.Add(buildAmount, utxos[index].amount);
      if |inputs| != p.utxoNum && index != |utxos| - 1 {
        index := index + 1;
        continue;
      }
      var outAmount: int := Word64.Sub(buildAmount, p.mergeGas);
      if outAmount > Word64.MAX_INT64 {
        FlushFails(reserved, utxos, index, inputs, merges, p, w);
        return Failed(BadAmount);
      }
      var m := MergeOf(inputs, outAmount, w);
      Flush(reserved, utxos, index, inputs, merges, m, p, w);
      utxos, merges := utxos + [m.output], merges + [m];
      inputs, buildAmount := [], 0;
      if index == |utxos| - 2 {
        return Built(merges, utxos[|utxos| - 1]);
      }
      index := index + 1;
    }
  }

  /** What is still to be merged: the inputs collected so far, all signed, and the queue from the index on. */
  ghost predicate Building(
    reserved: seq<Utxo>, utxos: seq<Utxo>, index: nat, inputs: seq<Utxo>, merges: seq<Merge>, p: MergeParams,
    w: Wallet)
    requires Usable(p) && reserved != []
  {
    && index < |utxos| && |inputs| < p.utxoNum && |inputs| + |utxos| - index >= 2
    && Total(inputs + utxos[index..]) <= Word64.MAX_INT64
    && Leads(reserved, inputs + utxos[index..], merges, p, w)
    && CanSignAll(inputs, w)
  }

  /** The rest of the queue decides: what it becomes and what the wallet says about it. */
  ghost predicate Leads(reserved: seq<Utxo>, queue: seq<Utxo>, merges: seq<Merge>, p: MergeParams, w: Wallet)
    requires Usable(p) && reserved != [] && queue != []
  {
    && Chain(reserved, p, w) == Prepend(merges, Chain(queue, p, w))
    && (CanSignAll(Asked(reserved, p, w), w) <==> CanSignAll(Asked(queue, p, w), w))
  }

  lemma OneIsDone(queue: seq<Utxo>, p: MergeParams, w: Wallet)
    requires Usable(p) && |queue| == 1
    ensures Chain(queue, p, w) == Some(([], queue[0])) && CanSignAll(Asked(queue, p, w), w)
  {
  }

  lemma StartBuilding(reserved: seq<Utxo>, p: MergeParams, w: Wallet)
    requires Usable(p) && |reserved| > 1 && Total(reserved) <= Word64.MAX_INT64
    ensures Building(reserved, reserved, 0, [], [], p, w) && Total([]) == 0
  {
    hide Chain, Asked;
    assert [] + reserved[0..] == reserved;
    PrependNothing(Chain(reserved, p, w));
  }

  /** The next member of the queue is one that the wallet is asked about, and it joins the inputs. */
  lemma BuildingFacts(
    reserved: seq<Utxo>, utxos: seq<Utxo>, index: nat, inputs: seq<Utxo>, merges: seq<Merge>, p: MergeParams,
    w: Wallet)
    requires Usable(p) && reserved != [] && Building(reserved, utxos, index, inputs, merges, p, w)
    ensures index < |utxos| && |inputs| < p.utxoNum && |inputs| + |utxos| - index >= 2
    ensures !w.canSign(utxos[index]) ==> !CanSignAll(Asked(reserved, p, w), w)
    ensures var inputs' := inputs + [utxos[index]];
      && Total(inputs') == Total(inputs) + utxos[index].amount <= Word64.MAX_INT64
      && (w.canSign(utxos[index]) ==>
            CanSignAll(inputs', w) && Leads(reserved, inputs' + utxos[index + 1..], merges, p, w))
      && (w.canSign(utxos[index]) && |inputs'| != p.utxoNum && index != |utxos| - 1 ==>
            Building(reserved, utxos, index + 1, inputs', merges, p, w))
      && Total(inputs' + utxos[index + 1..]) <= Word64.MAX_INT64
  {
    hide Chain, Asked;
    TakeInput(utxos, index, inputs);
    var queue := inputs + utxos[index..];
    FrontIsAsked(queue, |inputs|, p, w);
  }

  lemma FrontIsAsked(queue: seq<Utxo>, i: nat, p: MergeParams, w: Wallet)
    requires Usable(p) && |queue| > 1 && i < |queue| && i < p.utxoNum
    ensures CanSignAll(Asked(queue, p, w), w) ==> w.canSign(queue[i])
  {
    hide Chain;
    assert Asked(queue, p, w)[i] == queue[i];
  }

  lemma TakeInput(utxos: seq<Utxo>, index: nat, inputs: seq<Utxo>)
    requires index < |utxos|
    ensures inputs + [utxos[index]] + utxos[index + 1..] == inputs + utxos[index..]
    ensures Total(inputs + [utxos[index]]) == Total(inputs) + utxos[index].amount
    ensures Total(inputs + [utxos[index]]) <= Total(inputs + utxos[index..])
  {
    TotalAppend(inputs, utxos[index]);
    TotalConcat(inputs + [utxos[index]], utxos[index + 1..]);
    assert inputs + [utxos[index]] + utxos[index + 1..] == inputs + utxos[index..];
  }

  /** A full front, or a last one, becomes a merge, and its output joins the queue. */
  lemma Flush(
    reserved: seq<Utxo>, utxos: seq<Utxo>, index: nat, inputs: seq<Utxo>, merges: seq<Merge>, m: Merge,
    p: MergeParams, w: Wallet)
    requires Usable(p) && reserved != [] && index < |utxos| && 2 <= |inputs| <= p.utxoNum
    requires |inputs| == p.utxoNum || index == |utxos| - 1
    requires Total(inputs) >= p.mergeGas && m == MergeOf(inputs, Total(inputs) - p.mergeGas, w)
    requires Leads(reserved, inputs + utxos[index + 1..], merges, p, w) && CanSignAll(inputs, w)
    requires Total(inputs + utxos[index + 1..]) <= Word64.MAX_INT64
    ensures index < |utxos| - 1 ==> Building(reserved, utxos + [m.output], index + 1, [], merges + [m], p, w)
    ensures index == |utxos| - 1 ==>
              Chain(reserved, p, w) == Some((merges + [m], m.output)) && CanSignAll(Asked(reserved, p, w), w)
    ensures Total([]) == 0
  {
    var queue, back := inputs + utxos[index + 1..], utxos[index + 1..] + [m.output];
    assert [] + (utxos + [m.output])[index + 1..] == back;
    QueueAdvances(queue, inputs, m, p, w);
    assert queue[|inputs|..] == utxos[index + 1..];
    hide Chain, Asked;
    PrependTwice(merges, m, Chain(back, p, w));
    TotalConcat(inputs, utxos[index + 1..]);
    TotalAppend(utxos[index + 1..], m.output);
    assert Leads(reserved, back, merges + [m], p, w);
    if index == |utxos| - 1 {
      OneIsDone(back, p, w);
      assert merges + [m] + [] == merges + [m];
    }
  }

  lemma QueueAdvances(queue: seq<Utxo>, inputs: seq<Utxo>, m: Merge, p: MergeParams, w: Wallet)
    requires Usable(p) && |queue| > 1 && inputs == queue[..Width(|queue|, p)] && CanSignAll(inputs, w)
    requires Total(inputs) >= p.mergeGas && m == MergeOf(inputs, Total(inputs) - p.mergeGas, w)
    ensures var back := queue[|inputs|..] + [m.output];
      && Chain(queue, p, w) == Prepend([m], Chain(back, p, w))
      && (CanSignAll(Asked(queue, p, w), w) <==> CanSignAll(Asked(back, p, w), w))
  {
    hide Total, CanSignAll, MergeOf;
    var later := Asked(queue[|inputs|..] + [m.output], p, w);
    assert Asked(queue, p, w) == inputs + later;
    SignsBoth(inputs, later, w);
  }

  lemma SignsBoth(a: seq<Utxo>, b: seq<Utxo>, w: Wallet)
    requires CanSignAll(a, w)
    ensures CanSignAll(a + b, w) <==> CanSignAll(b, w)
  {
    if CanSignAll(a + b, w) {
      forall i | 0 <= i < |b| ensures w.canSign(b[i]) {
        assert (a + b)[|a| + i] == b[i];
      }
    }
  }

  lemma FlushFails(
    reserved: seq<Utxo>, utxos: seq<Utxo>, index: nat, inputs: seq<Utxo>, merges: seq<Merge>, p: MergeParams,
    w: Wallet)
    requires Usable(p) && reserved != [] && index < |utxos| && 2 <= |inputs| <= p.utxoNum
    requires |inputs| == p.utxoNum || index == |utxos| - 1
    requires Leads(reserved, inputs + utxos[index + 1..], merges, p, w) && CanSignAll(inputs, w)
    requires Total(inputs) < p.mergeGas
    ensures Chain(reserved, p, w).None? && CanSignAll(Asked(reserved, p, w), w)
  {
    var queue := inputs + utxos[index + 1..];
    assert queue[..Width(|queue|, p)] == inputs;
  }

  lemma PrependNothing(rest: Option<(seq<Merge>, Utxo)>)
    ensures Prepend([], rest) == rest
  {
    if rest.Some? {
      assert [] + rest.value.0 == rest.value.0;
    }
  }

  lemma PrependTwice(merges: seq<Merge>, m: Merge, rest: Option<(seq<Merge>, Utxo)>)
    ensures Prepend(merges, Prepend([m], rest)) == Prepend(merges + [m], rest)
  {
    if rest.Some? {
      assert merges + ([m] + rest.value.0) == merges + [m] + rest.value.0;
    }
  }
}
