/** How two nodes find the point where their chains part: one samples its chain, the other looks the samples up. */
module Locator {
  import opened Numbers
  import opened Headers
  import opened Word64

  /** The main chain by height, and every known header by hash. */
  datatype View = View(main: seq<Header>, known: map<Hash, Header>)

  ghost predicate IsView(v: View) {
    && 0 < |v.main| < LIMIT
    && (forall i :: 0 <= i < |v.main| ==>
          v.main[i].height == i && v.main[i].hash in v.known && v.known[v.main[i].hash] == v.main[i])
    && (forall h :: h in v.known ==> v.known[h].hash == h)
  }

  predicate InMainChain(v: View, hash: Hash) {
    hash in v.known && v.known[hash].height < |v.main| && v.main[v.known[hash].height].hash == hash
  }

  /** How far below the best block the i-th sample is taken: 0, 1, ..., 9, 11, 15, 23, ... */
  function Depth(i: nat): (d: nat) {
    if i <= 9 then i else 7 + Pow2(i - 8)
  }

  /** The height of the i-th sample; beyond the first block there is only the first block. */
  function SampleHeight(best: nat, i: nat): nat {
    if Depth(i) <= best then best - Depth(i) else 0
  }

  /** The distance to the next sample. */
  function Step(i: nat): (s: nat)
    ensures s > 0
  {
    if i <= 8 then 1 else Pow2(i - 8)
  }

  lemma DepthGrows(i: nat)
    ensures Depth(i + 1) == Depth(i) + Step(i)
  {
    if i == 9 {
      assert Pow2(2) == 4 && Pow2(1) == 2;
    } else if i > 9 {
      assert Pow2(i - 7) == 2 * Pow2(i - 8);
    }
  }

  /** The samples end with the first block and nothing earlier is the first block. */
  ghost predicate IsLocator(main: seq<Header>, locator: seq<Hash>)
    requires main != []
  {
    var best := |main| - 1;
    && locator != []
    && (forall i :: 0 <= i < |locator| ==> locator[i] == main[SampleHeight(best, i)].hash)
    && SampleHeight(best, |locator| - 1) == 0
    && (forall i :: 0 <= i < |locator| - 1 ==> SampleHeight(best, i) > 0)
  }

  method BlockLocator(v: View) returns (locator: seq<Hash>)
    requires IsView(v) && |v.main| <= 0x8000_0000_0000_0000
    ensures IsLocator(v.main, locator)
  {
    hide Pow2, Depth, Step;
    ghost var best := |v.main| - 1;
    var header := v.main[|v.main| - 1];
    locator := [];
    var step: nat := 1;
    DepthStarts();
    while true
      invariant header.height == SampleHeight(best, |locator|) && header == v.main[header.height]
      invariant header.height > 0 ==> step == Step(|locator|) < LIMIT
      invariant forall i :: 0 <= i < |locator| ==>
                  locator[i] == v.main[SampleHeight(best, i)].hash && SampleHeight(best, i) > 0
      decreases header.height
    {
      DepthGrows(|locator|);
      StepGrows(|locator|);
      locator := locator + [header.hash];
      if header.height == 0 {
        break;
      }
      if header.height < step {
        header := v.main[0];
      } else {
        header := v.main[header.height - step];
      }
      if |locator| >= 9 {
        step := (step * 2) % LIMIT;
      }
    }
  }

  lemma StepGrows(i: nat)
    ensures Step(i + 1) == if i >= 8 then 2 * Step(i) else Step(i)
  {
    if i == 8 {
      assert Pow2(1) == 2 * Pow2(0);
    } else if i > 8 {
      assert Pow2(i - 7) == 2 * Pow2(i - 8);
    }
  }

  lemma DepthStarts()
    ensures Depth(0) == 0 && Step(0) == 1
  {
  }

  lemma {:induction false} DepthIsMonotonic(i: nat, j: nat)
    requires i <= j
    ensures Depth(i) <= Depth(j) && (i < j ==> Depth(i) < Depth(j))
    decreases j
  {
    hide Depth, Step;
    if i < j {
      DepthIsMonotonic(i, j - 1);
      DepthGrows(j - 1);
    }
  }

  /** The samples go strictly down. */
  lemma SamplesDescend(main: seq<Header>, locator: seq<Hash>, i: nat, j: nat)
    requires main != [] && IsLocator(main, locator) && i < j < |locator|
    ensures SampleHeight(|main| - 1, i) > SampleHeight(|main| - 1, j)
  {
    hide Depth;
    DepthIsMonotonic(i, j);
    if i < |locator| - 1 {
      assert SampleHeight(|main| - 1, i) > 0;
    }
  }

  /** There are at most about ten more samples than the logarithm of the height. */
  lemma LocatorIsShort(main: seq<Header>, locator: seq<Hash>)
    requires main != [] && IsLocator(main, locator) && |locator| > 11
    ensures Pow2(|locator| - 10) + 7 < |main| - 1
  {
    var last := |locator| - 2;
    assert SampleHeight(|main| - 1, last) > 0;
    assert Depth(last) == 7 + Pow2(last - 8);
  }

  datatype Result = Ok(headers: seq<Header>) | NotFound

  /** The first sample in the responder's main chain, or the first block. */
  ghost predicate StartsAt(v: View, locator: seq<Hash>, start: Header)
    requires IsView(v)
  {
    || (exists i :: 0 <= i < |locator| && IsFirst(v, locator, i) && start == v.known[locator[i]])
    || (start == v.main[0] && forall k :: 0 <= k < |locator| ==> !InMainChain(v, locator[k]))
  }

  ghost predicate IsFirst(v: View, locator: seq<Hash>, i: nat) {
    i < |locator| && InMainChain(v, locator[i]) && forall k :: 0 <= k < i ==> !InMainChain(v, locator[k])
  }

  /** The index that the k-th step would reach if numbers had no end. */
  function Reached(start: nat, stride: nat, k: nat): nat {
    if k == 0 then start else Reached(start, stride, k - 1) + stride
  }

  /** Every stride-th header from the start, then the stop header; at most max of them. */
  ghost predicate IsSample(main: seq<Header>, headers: seq<Header>, start: nat, stop: nat, stride: nat, max: nat)
    requires start <= stop < |main|
  {
    && 0 < |headers| <= max
    && (forall k :: 0 <= k < |headers| ==>
          headers[k] == main[if Reached(start, stride, k) < stop then Reached(start, stride, k) else stop])
    && (forall k :: 0 <= k < |headers| - 1 ==> Reached(start, stride, k) < stop)
    && (headers[|headers| - 1] == main[stop] || |headers| == max)
  }

  ghost predicate IsAscending(headers: seq<Header>) {
    forall k :: 0 < k < |headers| ==> headers[k - 1].height < headers[k].height
  }

  /** Some step that is taken goes past the largest 64-bit number. */
  ghost predicate Wraps(start: nat, stop: nat, stride: nat, max: nat) {
    exists k: nat :: k + 1 < max && Reached(start, stride, k) < stop && Reached(start, stride, k) + stride >= LIMIT
  }

  lemma {:induction false} ReachedIsLinear(start: nat, stride: nat, k: nat)
    ensures Reached(start, stride, k) == start + stride * k
  {
    if k == 0 {
      assert stride * 0 == 0;
    } else {
      ReachedIsLinear(start, stride, k - 1);
      assert stride * k == stride * (k - 1) + stride;
    }
  }

  /** Only the last step before the stop header can wrap around. */
  lemma WrapsIff(start: nat, stop: nat, stride: nat, max: nat)
    requires stride > 0 && stop < LIMIT
    ensures Wraps(start, stop, stride, max) <==>
            start < stop && var last := (stop - 1 - start) / stride;
              last + 1 < max && start + stride * last + stride >= LIMIT
  {
    hide Reached;
    if start < stop {
      var last := (stop - 1 - start) / stride;
      assert stop - 1 - start == stride * last + (stop - 1 - start) % stride;
      ReachedIsLinear(start, stride, last);
      forall k: nat | Reached(start, stride, k) < stop && Reached(start, stride, k) + stride >= LIMIT
        ensures k == last
      {
        ReachedIsLinear(start, stride, k);
        OnlyLast(stop - 1 - start, stride, k);
      }
    } else {
      forall k: nat ensures Reached(start, stride, k) >= start {
        ReachedIsLinear(start, stride, k);
      }
    }
  }

  lemma {:induction false} Multiples(d: nat, j: nat, k: nat)
    requires j < k
    ensures d * j + d <= d * k
    decreases k
  {
    assert d * k == d * (k - 1) + d;
    if j < k - 1 {
      Multiples(d, j, k - 1);
    }
  }

  lemma OnlyLast(n: nat, d: nat, k: nat)
    requires d > 0 && d * k <= n < d * k + d
    ensures n / d == k
  {
    Quotient(n, d, n / d, n % d);
    if n / d < k {
      Multiples(d, n / d, k);
    } else if n / d > k {
      Multiples(d, k, n / d);
    }
  }

  lemma Quotient(n: nat, d: nat, q: nat, r: nat)
    requires d > 0 && q == n / d && r == n % d
    ensures d * q + r == n && r < d
  {
  }

  /** A peer can ask for the greatest skip; then the first step goes nowhere. */
  lemma GreatestSkipWraps(stop: nat, max: nat)
    requires 0 < stop < LIMIT && max >= 2
    ensures Wraps(0, stop, LIMIT - 1 + 1, max)
  {
    assert Reached(0, LIMIT, 0) == 0;
  }

  /** A maximum of zero is one less than none, which is the largest number. */
  function Limit(maxNum: nat): nat { if maxNum == 0 then LIMIT else maxNum }

  /** The headers after one, in steps that wrap around: the stop header ends them. */
  function After(main: seq<Header>, index: nat, stop: nat, skip: nat, left: nat): seq<Header>
    requires stop < |main|
    decreases left
  {
    if left == 0 then []
    else
      var next := Add(index, Add(skip, 1));
      if next >= stop then [main[stop]] else [main[next]] + After(main, next, stop, skip, left - 1)
  }

  function Answer(main: seq<Header>, start: nat, stop: nat, skip: nat, maxNum: nat): seq<Header>
    requires start < |main| && stop < |main|
  {
    [main[start]] + if start == stop then [] else After(main, start, stop, skip, Sub(maxNum, 1))
  }

  method LocateHeaders(v: View, locator: seq<Hash>, stopHash: Hash, skip: nat, maxNum: nat)
    returns (r: Result, ghost start: Header)
    requires IsView(v) && skip < LIMIT && maxNum < LIMIT
    ensures StartsAt(v, locator, start) && start.height < |v.main| && v.main[start.height] == start
    ensures r.NotFound? <==> stopHash !in v.known
    ensures r.Ok? ==>
      var stop := v.known[stopHash];
      if !InMainChain(v, stopHash) || stop.height < start.height then r.headers == []
      else
        && r.headers == Answer(v.main, start.height, stop.height, skip, maxNum)
        && if Wraps(start.height, stop.height, skip + 1, Limit(maxNum))
           then !IsAscending(r.headers)
           else IsSample(v.main, r.headers, start.height, stop.height, skip + 1, Limit(maxNum))
  {
    hide IsSample, Wraps, IsAscending, StartsAt, Limit, Answer;
    start := v.main[0];
    var startHeader := FindStart(v, locator);
    start := startHeader;
    if stopHash !in v.known {
      return NotFound, start;
    }
    var stopHeader := v.known[stopHash];
    if !InMainChain(v, stopHash) || stopHeader.height < startHeader.height {
      return Ok([]), start;
    }
    var headers := Collect(v, startHeader, stopHeader, skip, maxNum);
    return Ok(headers), start;
  }

  method FindStart(v: View, locator: seq<Hash>) returns (start: Header)
    requires IsView(v)
    ensures StartsAt(v, locator, start) && start.height < |v.main| && v.main[start.height] == start
  {
    start := v.main[0];
    for i := 0 to |locator|
      invariant start == v.main[0]
      invariant forall k :: 0 <= k < i ==> !InMainChain(v, locator[k])
    {
      if InMainChain(v, locator[i]) {
        start := v.known[locator[i]];
        assert IsFirst(v, locator, i);
        HashesAreDistinct(v, v.main[start.height], start);
        return;
      }
    }
  }

  lemma HashesAreDistinct(v: View, a: Header, b: Header)
    requires IsView(v) && a.hash in v.known && b.hash in v.known
    requires v.known[a.hash] == a && v.known[b.hash] == b && a.hash == b.hash
    ensures a == b
  {
  }

  /** No step has wrapped so far, and the stop header is still ahead. */
  ghost predicate Tracks(
    main: seq<Header>, headers: seq<Header>, start: nat, stop: nat, stride: nat, num: nat, index: nat)
    requires start <= stop < |main|
  {
    && |headers| == num + 1 && index == Reached(start, stride, num)
    && (forall k :: 0 <= k <= num ==> Reached(start, stride, k) < stop && headers[k] == main[Reached(start, stride, k)])
    && forall k :: 0 <= k < num ==> Reached(start, stride, k) + stride < LIMIT
  }

  lemma {:induction false} ReachedIsMonotonic(start: nat, stride: nat, j: nat, k: nat)
    requires j <= k
    ensures Reached(start, stride, j) <= Reached(start, stride, k)
    decreases k
  {
    if j < k {
      ReachedIsMonotonic(start, stride, j, k - 1);
    }
  }

  lemma NextReached(start: nat, stride: nat, k: nat)
    ensures Reached(start, stride, k + 1) == Reached(start, stride, k) + stride
  {
  }

  lemma TracksOn(main: seq<Header>, headers: seq<Header>, start: nat, stop: nat, stride: nat, num: nat, index: nat)
    requires start <= stop < |main| && Tracks(main, headers, start, stop, stride, num, index)
    requires index + stride < LIMIT && index + stride < stop
    ensures Tracks(main, headers + [main[index + stride]], start, stop, stride, num + 1, index + stride)
  {
    hide Reached;
    NextReached(start, stride, num);
  }

  lemma TracksToStop(
    main: seq<Header>, headers: seq<Header>, start: nat, stop: nat, stride: nat, num: nat, index: nat, max: nat)
    requires start <= stop < |main| && Tracks(main, headers, start, stop, stride, num, index) && num + 1 < max
    requires stop <= index + stride < LIMIT
    ensures IsSample(main, headers + [main[stop]], start, stop, stride, max) && !Wraps(start, stop, stride, max)
  {
    hide Reached;
    NextReached(start, stride, num);
    forall k: nat | num < k ensures Reached(start, stride, k) >= stop {
      ReachedIsMonotonic(start, stride, num + 1, k);
    }
  }

  lemma TracksToMaximum(
    main: seq<Header>, headers: seq<Header>, start: nat, stop: nat, stride: nat, num: nat, index: nat, max: nat)
    requires start <= stop < |main| && Tracks(main, headers, start, stop, stride, num, index) && num + 1 == max
    ensures IsSample(main, headers, start, stop, stride, max) && !Wraps(start, stop, stride, max)
  {
    hide Reached;
  }

  lemma NothingToCollect(main: seq<Header>, start: nat, stride: nat, max: nat)
    requires start < |main| && max > 0
    ensures IsSample(main, [main[start]], start, start, stride, max) && !Wraps(start, start, stride, max)
  {
    forall k: nat ensures Reached(start, stride, k) >= start {
      ReachedIsMonotonic(start, stride, 0, k);
    }
  }

  lemma WrapsHere(
    main: seq<Header>, headers: seq<Header>, start: nat, stop: nat, stride: nat, num: nat, index: nat, max: nat)
    requires start <= stop < |main| && Tracks(main, headers, start, stop, stride, num, index) && num + 1 < max
    requires index + stride >= LIMIT
    ensures Wraps(start, stop, stride, max)
  {
    hide Reached;
  }

  lemma NotAscending(headers: seq<Header>, next: Header)
    requires headers != []
    requires !IsAscending(headers) || next.height <= headers[|headers| - 1].height
    ensures !IsAscending(headers + [next])
  {
    var more := headers + [next];
    if !IsAscending(headers) {
      var k :| 0 < k < |headers| && headers[k - 1].height >= headers[k].height;
      assert more[k - 1].height >= more[k].height;
    } else {
      assert more[|headers| - 1].height >= more[|headers|].height;
    }
  }

  method Collect(v: View, startHeader: Header, stopHeader: Header, skip: nat, maxNum: nat)
    returns (headers: seq<Header>)
    requires IsView(v) && skip < LIMIT && maxNum < LIMIT
    requires startHeader.height <= stopHeader.height < |v.main|
    requires v.main[startHeader.height] == startHeader && v.main[stopHeader.height] == stopHeader
    ensures if Wraps(startHeader.height, stopHeader.height, skip + 1, Limit(maxNum))
            then !IsAscending(headers)
            else IsSample(v.main, headers, startHeader.height, stopHeader.height, skip + 1, Limit(maxNum))
    ensures headers == Answer(v.main, startHeader.height, stopHeader.height, skip, maxNum)
  {
    hide Reached, IsAscending, IsSample, Wraps, After;
    headers := [startHeader];
    ghost var start, stop, stride, max := startHeader.height, stopHeader.height, skip + 1, Limit(maxNum);
    if stopHeader.height == startHeader.height {
      NothingToCollect(v.main, start, stride, max);
      return;
    }
    var num, index: nat := 0, startHeader.height;
    var last := Sub(maxNum, 1);
    ghost var wrapped := false;
    TracksFirst(v.main, start, stop, stride);
    while num < last
      invariant num + 1 <= max && |headers| == num + 1 && index < stop && headers[num] == v.main[index]
      invariant !wrapped ==> Tracks(v.main, headers, start, stop, stride, num, index)
      invariant wrapped ==> !IsAscending(headers) && Wraps(start, stop, stride, max)
      invariant headers + After(v.main, index, stop, skip, last - num) ==
                Answer(v.main, start, stop, skip, maxNum)
      decreases last - num
    {
      hide Tracks;
      ghost var before, sofar := index, headers;
      AfterNext(v.main, index, stop, skip, last - num);
      index := Add(index, Add(skip, 1));
      if !wrapped && before + stride >= LIMIT {
        WrapsHere(v.main, headers, start, stop, stride, num, before, max);
        wrapped := true;
        NotAscending(headers, v.main[index]);
      } else if wrapped {
        NotAscending(headers, if index >= stop then stopHeader else v.main[index]);
      }
      if index >= stopHeader.height {
        if !wrapped {
          TracksToStop(v.main, headers, start, stop, stride, num, before, max);
        }
        headers := headers + [stopHeader];
        return;
      }
      if !wrapped {
        TracksOn(v.main, headers, start, stop, stride, num, before);
      }
      headers := headers + [v.main[index]];
      assert sofar + ([v.main[index]] + After(v.main, index, stop, skip, last - num - 1)) ==
             headers + After(v.main, index, stop, skip, last - num - 1);
      num := num + 1;
    }
    NothingAfter(v.main, index, stop, skip, headers);
    if !wrapped {
      TracksToMaximum(v.main, headers, start, stop, stride, num, index, max);
    }
  }

  lemma AfterNext(main: seq<Header>, index: nat, stop: nat, skip: nat, left: nat)
    requires stop < |main| && left > 0
    ensures var next := Add(index, Add(skip, 1));
      After(main, index, stop, skip, left) ==
        if next >= stop then [main[stop]] else [main[next]] + After(main, next, stop, skip, left - 1)
  {
  }

  lemma NothingAfter(main: seq<Header>, index: nat, stop: nat, skip: nat, headers: seq<Header>)
    requires stop < |main|
    ensures headers + After(main, index, stop, skip, 0) == headers
  {
  }

  lemma TracksFirst(main: seq<Header>, start: nat, stop: nat, stride: nat)
    requires start < stop < |main|
    ensures Tracks(main, [main[start]], start, stop, stride, 0, start)
  {
  }

  /** What the responder sends is strictly ascending, on its main chain, and not above the stop header. */
  lemma SampleAscends(v: View, headers: seq<Header>, start: nat, stop: nat, stride: nat, max: nat)
    requires IsView(v) && start <= stop < |v.main| && stride > 0
    requires IsSample(v.main, headers, start, stop, stride, max)
    ensures IsAscending(headers) && headers[0] == v.main[start]
    ensures forall k :: 0 <= k < |headers| ==> headers[k].height <= stop && v.main[headers[k].height] == headers[k]
  {
    hide Reached;
    NothingReached(start, stride);
    forall k | 0 < k < |headers| ensures headers[k - 1].height < headers[k].height {
      NextReached(start, stride, k - 1);
    }
  }

  lemma NothingReached(start: nat, stride: nat)
    ensures Reached(start, stride, 0) == start
  {
  }

  /** Without a maximum of at least one, the promise to send at most that many is broken. */
  lemma ZeroIsNoMaximum(main: seq<Header>, headers: seq<Header>, start: nat, stop: nat, stride: nat, maxNum: nat)
    requires start <= stop < |main| && IsSample(main, headers, start, stop, stride, Limit(maxNum))
    ensures |headers| <= maxNum <==> maxNum >= 1
  {
    hide Reached;
  }

  /** One hash, one header, on whatever node. */
  ghost predicate SameHeaders(a: View, b: View) {
    forall h :: h in a.known && h in b.known ==> a.known[h] == b.known[h]
  }

  lemma SharedUpToFork(mine: View, theirs: View, f: nat, h: nat)
    requires IsView(mine) && IsView(theirs) && SameHeaders(mine, theirs)
    requires ForksAt(mine.main, theirs.main, f) && h < |mine.main|
    ensures InMainChain(theirs, mine.main[h].hash) <==> h <= f
    ensures h <= f ==> theirs.known[mine.main[h].hash] == mine.main[h]
  {
    var x := mine.main[h];
    assert h <= f ==> x == mine.main[..f + 1][h] == theirs.main[h];
    if InMainChain(theirs, x.hash) {
      assert theirs.known[x.hash] == x && theirs.main[x.height].hash == x.hash;
      assert theirs.known[theirs.main[h].hash] == theirs.main[h];
    }
  }

  /** The depth at which the locator first reaches the fork, or passes it. */
  lemma {:induction false} FirstDepth(d: nat, i: nat)
    requires Depth(i) >= d && forall k :: 0 <= k < i ==> Depth(k) < d
    ensures d <= 9 ==> Depth(i) == d
    ensures d > 9 ==> d <= Depth(i) <= 2 * d - 9
  {
    assert d <= 9 ==> Depth(d) == d;
    if d > 9 {
      assert Depth(i - 1) < d;
      if i > 10 {
        assert Pow2(i - 8) == 2 * Pow2(i - 9);
      } else if i == 10 {
        assert Pow2(2) == 2 * Pow2(1) && Pow2(1) == 2 * Pow2(0);
      }
    }
  }

  /**
   * The responder starts at the fork when it is at most nine blocks below my best block,
   * and otherwise at most twice as deep.
   */
  lemma StartIsClose(mine: View, theirs: View, locator: seq<Hash>, f: nat, start: Header)
    requires IsView(mine) && IsView(theirs) && SameHeaders(mine, theirs)
    requires ForksAt(mine.main, theirs.main, f)
    requires IsLocator(mine.main, locator) && StartsAt(theirs, locator, start)
    ensures var best := |mine.main| - 1;
      && start.height <= f
      && (best - f <= 9 ==> start.height == f)
      && (best - f > 9 ==> best - start.height <= 2 * (best - f) - 9)
  {
    hide Depth, IsView, ForksAt;
    var best := |mine.main| - 1;
    assert f <= best by { ForkIsBelowTips(mine.main, theirs.main, f); }
    forall k | 0 <= k < |locator|
      ensures InMainChain(theirs, locator[k]) <==> Depth(k) >= best - f
      ensures InMainChain(theirs, locator[k]) ==> theirs.known[locator[k]].height == SampleHeight(best, k)
    {
      SharedUpToFork(mine, theirs, f, SampleHeight(best, k));
      HeightAt(mine, SampleHeight(best, k));
    }
    var last := |locator| - 1;
    assert InMainChain(theirs, locator[last]);
    var i :| 0 <= i < |locator| && IsFirst(theirs, locator, i) && start == theirs.known[locator[i]];
    FirstDepth(best - f, i);
  }

  lemma ForkIsBelowTips(a: seq<Header>, b: seq<Header>, f: nat)
    requires ForksAt(a, b, f)
    ensures f < |a| && f < |b|
  {
  }

  lemma HeightAt(v: View, h: nat)
    requires IsView(v) && h < |v.main|
    ensures v.main[h].height == h && v.main[h].hash in v.known && v.known[v.main[h].hash] == v.main[h]
  {
  }
}
