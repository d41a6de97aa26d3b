/** Regrouping bits: the same string of bits, cut into groups of another width. */
module ConvertBits {
  type Byte = bv8

  type Bits = seq<bool>

  function Mask(i: nat): Byte
    requires i < 8
  {
    if i == 0 then 1 else if i == 1 then 2 else if i == 2 then 4 else if i == 3 then 8
    else if i == 4 then 16 else if i == 5 then 32 else if i == 6 then 64 else 128
  }

  /** Bit i, counted from the least significant. */
  function Bit(b: Byte, i: nat): bool
    requires i < 8
  {
    b & Mask(i) != 0
  }

  function Left(b: Byte, k: nat): Byte
    requires k <= 8
  {
    if k == 0 then b else if k == 1 then b << 1 else if k == 2 then b << 2 else if k == 3 then b << 3
    else if k == 4 then b << 4 else if k == 5 then b << 5 else if k == 6 then b << 6
    else if k == 7 then b << 7 else 0
  }

  function Right(b: Byte, k: nat): Byte
    requires k <= 8
  {
    if k == 0 then b else if k == 1 then b >> 1 else if k == 2 then b >> 2 else if k == 3 then b >> 3
    else if k == 4 then b >> 4 else if k == 5 then b >> 5 else if k == 6 then b >> 6
    else if k == 7 then b >> 7 else 0
  }

  function Or(a: Byte, b: Byte): Byte { a | b }

  lemma BitOfLeft(b: Byte, k: nat, j: nat)
    requires k <= 8 && j < 8
    ensures Bit(Left(b, k), j) == (j >= k && Bit(b, j - k))
  {
  }

  lemma BitOfRight(b: Byte, k: nat, j: nat)
    requires k <= 8 && j < 8
    ensures Bit(Right(b, k), j) == (j + k < 8 && Bit(b, j + k))
  {
  }

  lemma BitOfOr(a: Byte, b: Byte, j: nat)
    requires j < 8
    ensures Bit(Or(a, b), j) == (Bit(a, j) || Bit(b, j))
  {
    hide Mask;
  }

  lemma BitsDetermine(a: Byte, b: Byte)
    requires forall j :: 0 <= j < 8 ==> Bit(a, j) == Bit(b, j)
    ensures a == b
  {
    assert Bit(a, 0) == Bit(b, 0) && Bit(a, 1) == Bit(b, 1) && Bit(a, 2) == Bit(b, 2) && Bit(a, 3) == Bit(b, 3);
    assert Bit(a, 4) == Bit(b, 4) && Bit(a, 5) == Bit(b, 5) && Bit(a, 6) == Bit(b, 6) && Bit(a, 7) == Bit(b, 7);
  }

  /** The n low bits, the most significant first. */
  function Low(b: Byte, n: nat): (s: Bits)
    requires n <= 8
    ensures |s| == n && forall i :: 0 <= i < n ==> s[i] == Bit(b, n - 1 - i)
  {
    seq(n, i requires 0 <= i < n => Bit(b, n - 1 - i))
  }

  /** The n high bits, the most significant first. */
  function High(b: Byte, n: nat): (s: Bits)
    requires n <= 8
    ensures |s| == n && forall i :: 0 <= i < n ==> s[i] == Bit(b, 7 - i)
  {
    seq(n, i requires 0 <= i < n => Bit(b, 7 - i))
  }

  /** No bit beyond the n low ones is set. */
  ghost predicate Fits(b: Byte, n: nat)
    requires n <= 8
  {
    forall j :: n <= j < 8 ==> !Bit(b, j)
  }

  ghost predicate AllFit(data: seq<Byte>, n: nat)
    requires n <= 8
  {
    forall i :: 0 <= i < |data| ==> Fits(data[i], n)
  }

  /** The bits of a string of groups of n bits. */
  function Unpacked(data: seq<Byte>, n: nat): Bits
    requires n <= 8
  {
    if data == [] then [] else Unpacked(data[..|data| - 1], n) + Low(data[|data| - 1], n)
  }

  function Zeros(n: nat): (s: Bits)
    ensures |s| == n && forall i :: 0 <= i < n ==> !s[i]
  {
    seq(n, i => false)
  }

  /** What is left of a string of bits after its whole groups. */
  function Rest(bits: Bits, n: nat): (s: Bits)
    requires n > 0
    ensures |s| < n
    decreases |bits|
  {
    if |bits| < n then bits else Rest(bits[n..], n)
  }

  lemma UnpackedBack(data: seq<Byte>, n: nat, init: seq<Byte>, last: Byte)
    requires n <= 8 && data == init + [last]
    ensures Unpacked(data, n) == Unpacked(init, n) + Low(last, n)
  {
    hide Low;
    assert data[..|data| - 1] == init;
  }

  lemma {:induction false} UnpackedFront(data: seq<Byte>, n: nat)
    requires n <= 8 && data != []
    ensures Unpacked(data, n) == Low(data[0], n) + Unpacked(data[1..], n)
  {
    hide Low, Unpacked;
    var init, last := data[..|data| - 1], data[|data| - 1];
    UnpackedBack(data, n, init, last);
    UnpackedNothing(n);
    if |data| == 1 {
      assert init == [] && data[1..] == [];
    } else {
      UnpackedFront(init, n);
      UnpackedBack(data[1..], n, init[1..], last);
      Regroup(Low(data[0], n), Unpacked(init[1..], n), Low(last, n));
    }
  }

  lemma Regroup(a: Bits, b: Bits, c: Bits)
    ensures (a + b) + c == a + (b + c)
  {
  }

  /** Whole groups leave nothing; what follows them is the rest. */
  lemma {:induction false} RestAfterGroups(data: seq<Byte>, n: nat, tail: Bits)
    requires 0 < n <= 8
    ensures Rest(Unpacked(data, n) + tail, n) == Rest(tail, n)
  {
    hide Bit, Low;
    if data == [] {
      assert [] + tail == tail;
    } else {
      UnpackedFront(data, n);
      var bits := Unpacked(data, n) + tail;
      assert bits[n..] == Unpacked(data[1..], n) + tail;
      RestAfterGroups(data[1..], n, tail);
    }
  }

  lemma {:induction false} UnpackedIsInjective(s: seq<Byte>, t: seq<Byte>, n: nat)
    requires 0 < n <= 8 && AllFit(s, n) && AllFit(t, n) && Unpacked(s, n) == Unpacked(t, n)
    ensures s == t
  {
    hide Bit, Low, Fits;
    OnlyNothingIsEmpty(s, n);
    OnlyNothingIsEmpty(t, n);
    if s != [] {
      var s', t' := s[..|s| - 1], t[..|t| - 1];
      var a, b := s[|s| - 1], t[|t| - 1];
      assert |Unpacked(s', n)| == |Unpacked(t', n)|;
      assert Unpacked(s', n) == Unpacked(s, n)[..|Unpacked(s', n)|] == Unpacked(t', n);
      assert Low(a, n) == Unpacked(s, n)[|Unpacked(s', n)|..] == Low(b, n);
      UnpackedIsInjective(s', t', n);
      LowDetermines(a, b, n);
      assert s == s' + [a] && t == t' + [b];
    }
  }

  lemma OnlyNothingIsEmpty(s: seq<Byte>, n: nat)
    requires 0 < n <= 8
    ensures Unpacked(s, n) == [] <==> s == []
  {
    hide Bit;
  }

  lemma LowDetermines(a: Byte, b: Byte, n: nat)
    requires n <= 8 && Fits(a, n) && Fits(b, n) && Low(a, n) == Low(b, n)
    ensures a == b
  {
    hide Bit;
    forall j | 0 <= j < 8 ensures Bit(a, j) == Bit(b, j) {
      if j < n {
        assert Low(a, n)[n - 1 - j] == Low(b, n)[n - 1 - j];
      }
    }
    BitsDetermine(a, b);
  }

  lemma ZeroFits(n: nat)
    requires n <= 8
    ensures Fits(0, n) && Low(0, n) == Zeros(n)
  {
  }

  lemma LowIsZero(b: Byte, n: nat)
    requires n <= 8 && Fits(b, n)
    ensures b == 0 <==> Low(b, n) == Zeros(n)
  {
    hide Bit, Fits, Low;
    ZeroFits(n);
    if Low(b, n) == Zeros(n) {
      LowDetermines(b, 0, n);
    }
  }

  /** Discarding the unused high bits brings the others to the top. */
  lemma ShiftToTop(b: Byte, n: nat)
    requires 1 <= n <= 8
    ensures High(Left(b, 8 - n), n) == Low(b, n)
  {
    hide Bit, Left;
    forall i | 0 <= i < n ensures High(Left(b, 8 - n), n)[i] == Low(b, n)[i] {
      BitOfLeft(b, 8 - n, 7 - i);
    }
  }

  lemma TopIsTaken(b: Byte, n: nat, k: nat)
    requires k <= n <= 8
    ensures High(b, n) == High(b, k) + High(Left(b, k), n - k)
  {
    hide Bit, Left;
    var all, rest := High(b, n), High(Left(b, k), n - k);
    forall i | 0 <= i < |rest| ensures rest[i] == all[k + i] {
      BitOfLeft(b, k, 7 - i);
    }
  }

  function Joined(next: Byte, b: Byte, k: nat): Byte
    requires k <= 8
  {
    Or(Left(next, k), Right(b, 8 - k))
  }

  /** The top k bits of b enter at the low end. */
  lemma JoinedBits(next: Byte, filled: nat, b: Byte, k: nat)
    requires filled + k <= 8 && Fits(next, filled)
    ensures Low(Joined(next, b, k), filled + k) == Low(next, filled) + High(b, k)
    ensures Fits(Joined(next, b, k), filled + k)
  {
    hide Bit, Left, Right, Or;
    var joined := Joined(next, b, k);
    forall j | 0 <= j < 8
      ensures Bit(joined, j) == if j < k then Bit(b, 8 - k + j) else Bit(next, j - k)
    {
      BitOfOr(Left(next, k), Right(b, 8 - k), j);
      BitOfLeft(next, k, j);
      BitOfRight(b, 8 - k, j);
    }
  }

  lemma PaddedBits(next: Byte, filled: nat, n: nat)
    requires filled <= n <= 8 && Fits(next, filled)
    ensures Low(Left(next, n - filled), n) == Low(next, filled) + Zeros(n - filled)
    ensures Fits(Left(next, n - filled), n)
  {
    hide Bit, Left;
    var padded := Left(next, n - filled);
    forall j | 0 <= j < 8
      ensures Bit(padded, j) == (j >= n - filled && Bit(next, j - (n - filled)))
    {
      BitOfLeft(next, n - filled, j);
    }
  }

  datatype Result<T> = Ok(value: T) | BadGroupSize | IncompleteGroup

  /** How many zero bits complete the last group. */
  function Padding(bits: Bits, n: nat): nat
    requires n > 0
  {
    if Rest(bits, n) == [] then 0 else n - |Rest(bits, n)|
  }

  /** A group that the source calls incomplete but does not mind. */
  ghost predicate IsHarmless(rest: Bits) {
    |rest| <= 4 && rest == Zeros(|rest|)
  }

  /** The same bits in groups of m, with zeros to fill the last one. */
  ghost predicate IsPadded(data: seq<Byte>, n: nat, regrouped: seq<Byte>, m: nat)
    requires n <= 8 && 0 < m <= 8
  {
    var bits := Unpacked(data, n);
    AllFit(regrouped, m) && Unpacked(regrouped, m) == bits + Zeros(Padding(bits, m))
  }

  /** The same bits in groups of m, without an incomplete last group. */
  ghost predicate IsStripped(data: seq<Byte>, n: nat, regrouped: seq<Byte>, m: nat)
    requires n <= 8 && 0 < m <= 8
  {
    var bits := Unpacked(data, n);
    AllFit(regrouped, m) && Unpacked(regrouped, m) + Rest(bits, m) == bits
  }

  method Convert(data: seq<Byte>, fromBits: nat, toBits: nat, pad: bool) returns (r: Result<seq<Byte>>)
    ensures r.BadGroupSize? <==> !(1 <= fromBits <= 8 && 1 <= toBits <= 8)
    ensures r.IncompleteGroup? <==>
      1 <= fromBits <= 8 && 1 <= toBits <= 8 && !pad && !IsHarmless(Rest(Unpacked(data, fromBits), toBits))
    ensures r.Ok? ==>
      if pad then IsPadded(data, fromBits, r.value, toBits) else IsStripped(data, fromBits, r.value, toBits)
  {
    hide Bit, Left, Right, Or, Joined, Low, High, Fits, AllFit, Rest, Unpacked;
    if fromBits < 1 || fromBits > 8 || toBits < 1 || toBits > 8 {
      return BadGroupSize;
    }
    var regrouped: seq<Byte> := [];
    var nextByte: Byte := 0;
    var filledBits: nat := 0;
    ZeroFits(0);
    UnpackedNothing(toBits);
    UnpackedNothing(fromBits);
    for i := 0 to |data|
      invariant filledBits < toBits && Fits(nextByte, filledBits) && AllFit(regrouped, toBits)
      invariant Unpacked(regrouped, toBits) + Low(nextByte, filledBits) == Unpacked(data[..i], fromBits)
    {
      UnpackedNext(data, i, fromBits);
      ShiftToTop(data[i], fromBits);
      var b := Left(data[i], 8 - fromBits);
      var remFromBits: nat := fromBits;
      while remFromBits > 0
        invariant remFromBits <= fromBits && filledBits < toBits
        invariant Fits(nextByte, filledBits) && AllFit(regrouped, toBits)
        invariant Unpacked(regrouped, toBits) + Low(nextByte, filledBits) + High(b, remFromBits)
          == Unpacked(data[..i + 1], fromBits)
      {
        var remToBits: nat := toBits - filledBits;
        var toExtract: nat := remFromBits;
        if remToBits < toExtract {
          toExtract := remToBits;
        }
        JoinedBits(nextByte, filledBits, b, toExtract);
        TopIsTaken(b, remFromBits, toExtract);
        BitsMove(Unpacked(regrouped, toBits), Low(nextByte, filledBits), High(b, toExtract),
                 High(Left(b, toExtract), remFromBits - toExtract));
        nextByte := Joined(nextByte, b, toExtract);
        b := Left(b, toExtract);
        remFromBits := remFromBits - toExtract;
        filledBits := filledBits + toExtract;
        if filledBits == toBits {
          AppendGroup(regrouped, nextByte, toBits);
          BitsMove(Unpacked(regrouped, toBits), Low(nextByte, filledBits), [], []);
          regrouped := regrouped + [nextByte];
          filledBits := 0;
          nextByte := 0;
          ZeroFits(0);
        }
      }
    }
    assert data[..|data|] == data;
    ghost var bits := Unpacked(data, fromBits);
    RestAfterGroups(regrouped, toBits, Low(nextByte, filledBits));
    ShortRest(Low(nextByte, filledBits), toBits);
    if pad && filledBits > 0 {
      PaddedBits(nextByte, filledBits, toBits);
      nextByte := Left(nextByte, toBits - filledBits);
      AppendGroup(regrouped, nextByte, toBits);
      regrouped := regrouped + [nextByte];
      return Ok(regrouped);
    }
    LowIsZero(nextByte, filledBits);
    if filledBits > 0 && (filledBits > 4 || nextByte != 0) {
      return IncompleteGroup;
    }
    return Ok(regrouped);
  }

  lemma UnpackedNothing(n: nat)
    requires n <= 8
    ensures Unpacked([], n) == [] && AllFit([], n)
  {
  }

  lemma UnpackedNext(data: seq<Byte>, i: nat, n: nat)
    requires i < |data| && n <= 8
    ensures Unpacked(data[..i + 1], n) == Unpacked(data[..i], n) + Low(data[i], n)
  {
    hide Low;
    assert data[..i + 1][..i] == data[..i];
  }

  lemma ShortRest(bits: Bits, n: nat)
    requires 0 < n && |bits| < n
    ensures Rest(bits, n) == bits
  {
  }

  lemma BitsMove(done: Bits, low: Bits, top: Bits, high: Bits)
    ensures done + (low + top) + high == done + low + (top + high)
    ensures done + (low + top) + [] == done + (low + top)
  {
  }

  lemma AppendGroup(data: seq<Byte>, b: Byte, n: nat)
    requires n <= 8 && AllFit(data, n) && Fits(b, n)
    ensures AllFit(data + [b], n)
    ensures Unpacked(data + [b], n) == Unpacked(data, n) + Low(b, n)
  {
    hide Fits, Low;
    assert (data + [b])[..|data|] == data;
  }

  lemma {:induction false} TailIsPadding(bits: Bits, tail: Bits, n: nat)
    requires n > 0 && |tail| < n && Rest(bits + tail, n) == []
    ensures |tail| == Padding(bits, n)
    decreases |bits|
  {
    if |bits| < n {
      if |bits + tail| >= n {
        assert |(bits + tail)[n..]| < n;
      }
    } else {
      assert (bits + tail)[n..] == bits[n..] + tail;
      TailIsPadding(bits[n..], tail, n);
    }
  }

  lemma EveryByteFits(data: seq<Byte>)
    ensures AllFit(data, 8)
  {
  }

  /** Going from octets to padded groups of five and back gives the octets again. */
  lemma StrippingUndoesPadding(data: seq<Byte>, groups: seq<Byte>)
    requires IsPadded(data, 8, groups, 5)
    ensures IsHarmless(Rest(Unpacked(groups, 5), 8)) && IsStripped(groups, 5, data, 8)
    ensures forall back :: IsStripped(groups, 5, back, 8) ==> back == data
  {
    hide Unpacked, AllFit, Rest;
    var bits := Unpacked(data, 8);
    var zeros := Zeros(Padding(bits, 5));
    RestAfterGroups(data, 8, zeros);
    ShortRest(zeros, 8);
    EveryByteFits(data);
    forall back | IsStripped(groups, 5, back, 8) ensures back == data {
      assert Unpacked(back, 8) + zeros == bits + zeros;
      assert Unpacked(back, 8) == (bits + zeros)[..|bits|] == bits;
      EveryByteFits(back);
      UnpackedIsInjective(back, data, 8);
    }
  }

  /** Groups of five that can be turned into octets come back from them unchanged. */
  lemma PaddingUndoesStripping(groups: seq<Byte>, data: seq<Byte>, again: seq<Byte>)
    requires AllFit(groups, 5) && IsHarmless(Rest(Unpacked(groups, 5), 8))
    requires IsStripped(groups, 5, data, 8) && IsPadded(data, 8, again, 5)
    ensures again == groups
  {
    hide Unpacked, AllFit, Rest;
    var bits, tail := Unpacked(data, 8), Rest(Unpacked(groups, 5), 8);
    assert Rest(bits + tail, 5) == [] by {
      assert Unpacked(groups, 5) + [] == bits + tail;
      RestAfterGroups(groups, 5, []);
      ShortRest([], 5);
    }
    TailIsPadding(bits, tail, 5);
    UnpackedIsInjective(again, groups, 5);
  }

  lemma {:induction false} UnpackedLength(data: seq<Byte>, n: nat)
    requires n <= 8
    ensures |Unpacked(data, n)| == |data| * n
  {
    hide Low;
    if data != [] {
      UnpackedLength(data[..|data| - 1], n);
      OneMore(|data|, n);
    }
  }

  lemma OneMore(k: nat, n: nat)
    ensures (k - 1) * n + n == k * n
  {
  }
}
