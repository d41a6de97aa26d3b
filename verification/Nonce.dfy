/** The nonces of a secret connection: counters kept as 24 octets, the most significant first. */
module Nonce {
  import opened Numbers

  type Byte = bv8

  type Octets = seq<Byte>

  const SIZE: nat := 24

  function Value(s: Octets): nat {
    if s == [] then 0 else 256 * Value(s[..|s| - 1]) + s[|s| - 1] as nat
  }

  /** Counting up by one, with the carry running to the left. */
  function Incremented(s: Octets): (t: Octets)
    ensures |t| == |s|
  {
    if s == [] then []
    else if s[|s| - 1] == 255 then Incremented(s[..|s| - 1]) + [0]
    else s[..|s| - 1] + [s[|s| - 1] + 1]
  }

  function Twice(s: Octets): (t: Octets)
    ensures |t| == |s|
  {
    Incremented(Incremented(s))
  }

  lemma NextByte(b: Byte)
    ensures b != 255 ==> (b + 1) as nat == b as nat + 1
    ensures b == 255 <==> b as nat == 255
    ensures b + 1 == 0 <==> b == 255
    ensures b as nat < 256
  {
  }

  lemma ValueOfTwo(init: Octets, last: Byte)
    ensures Value(init + [last]) == 256 * Value(init) + last as nat
  {
    assert (init + [last])[..|init|] == init;
  }

  lemma {:induction false} ValueIsBelow(s: Octets)
    ensures Value(s) < Pow256(|s|)
  {
    if s != [] {
      ValueIsBelow(s[..|s| - 1]);
      NextByte(s[|s| - 1]);
    }
  }

  /** Octet by octet, this is adding one and starting over after the largest value. */
  lemma {:induction false} IncrementedAddsOne(s: Octets)
    ensures Value(Incremented(s)) == if Value(s) + 1 == Pow256(|s|) then 0 else Value(s) + 1
  {
    if s != [] {
      var init, last := s[..|s| - 1], s[|s| - 1];
      IncrementedAddsOne(init);
      ValueIsBelow(init);
      NextByte(last);
      ValueOfTwo(Incremented(init), 0);
      ValueOfTwo(init, last + 1);
    }
  }

  lemma DigitsDetermine(x: nat, a: Byte, y: nat, b: Byte)
    requires 256 * x + a as nat == 256 * y + b as nat
    ensures x == y && a == b
  {
    NextByte(a);
    NextByte(b);
    assert x == y;
    assert (a as nat) as Byte == a && (b as nat) as Byte == b;
  }

  lemma {:induction false} ValueDetermines(s: Octets, t: Octets)
    requires |s| == |t| && Value(s) == Value(t)
    ensures s == t
  {
    if s == [] {
    } else {
      DigitsDetermine(Value(s[..|s| - 1]), s[|s| - 1], Value(t[..|t| - 1]), t[|t| - 1]);
      hide Value;
      ValueDetermines(s[..|s| - 1], t[..|t| - 1]);
      assert s == s[..|s| - 1] + [s[|s| - 1]] && t == t[..|t| - 1] + [t[|t| - 1]];
    }
  }

  function Zeros(n: nat): (s: Octets)
    ensures |s| == n && forall i :: 0 <= i < n ==> s[i] == 0
  {
    seq(n, i => 0)
  }

  /** In place, from the last octet on, until one does not wrap around. */
  method IncrNonce(nonce: array<Byte>)
    requires nonce.Length == SIZE
    modifies nonce
    ensures nonce[..] == Incremented(old(nonce[..]))
  {
    hide Incremented;
    ghost var was := nonce[..];
    assert was[..SIZE] == was;
    for i := SIZE downto 0
      invariant nonce[..] == was[..i] + Zeros(SIZE - i)
      invariant Incremented(was) == Incremented(was[..i]) + Zeros(SIZE - i)
    {
      NextByte(nonce[i]);
      assert nonce[i] == was[i];
      IncrementedStep(was, i);
      nonce[i] := nonce[i] + 1;
      if nonce[i] != 0 {
        assert nonce[..] == was[..i] + [was[i] + 1] + Zeros(SIZE - i - 1);
        return;
      }
      assert [0] + Zeros(SIZE - i - 1) == Zeros(SIZE - i);
    }
    IncrementedNothing();
    assert was[..0] == [];
  }

  lemma IncrementedNothing()
    ensures Incremented([]) == []
  {
  }

  lemma IncrementedStep(s: Octets, i: nat)
    requires i < |s|
    ensures Incremented(s[..i + 1]) ==
      if s[i] == 255 then Incremented(s[..i]) + [0] else s[..i] + [s[i] + 1]
  {
    assert s[..i + 1][..i] == s[..i];
  }

  method Incr2Nonce(nonce: array<Byte>)
    requires nonce.Length == SIZE
    modifies nonce
    ensures nonce[..] == Twice(old(nonce[..]))
  {
    IncrNonce(nonce);
    IncrNonce(nonce);
  }

  /** The nonce of frame k. */
  function After(start: Octets, k: nat): (t: Octets)
    ensures |t| == |start|
  {
    if k == 0 then start else Twice(After(start, k - 1))
  }

  lemma PowerIsEven(n: nat)
    requires n > 0
    ensures Pow256(n) % 2 == 0 && Pow256(n) >= 256
  {
  }

  lemma TwiceAddsTwo(s: Octets)
    requires s != []
    ensures Value(Twice(s)) ==
      if Value(s) + 2 < Pow256(|s|) then Value(s) + 2 else Value(s) + 2 - Pow256(|s|)
    ensures Value(s) < Pow256(|s|)
  {
    hide Incremented, Value, Pow256;
    PowerIsEven(|s|);
    ValueIsBelow(s);
    IncrementedAddsOne(s);
    IncrementedAddsOne(Incremented(s));
  }

  /** The two directions use nonces of different parity, for ever. */
  lemma {:induction false} ParityIsKept(start: Octets, k: nat)
    requires start != []
    ensures Value(After(start, k)) % 2 == Value(start) % 2
  {
    hide Twice, Value, Pow256;
    if k > 0 {
      ParityIsKept(start, k - 1);
      TwiceAddsTwo(After(start, k - 1));
      PowerIsEven(|start|);
    }
  }

  /** Up to wrapping around once, the k-th nonce is 2k further. */
  lemma {:induction false} AfterIsAhead(start: Octets, k: nat)
    requires start != [] && 2 * k < Pow256(|start|)
    ensures Value(After(start, k)) ==
      if Value(start) + 2 * k < Pow256(|start|) then Value(start) + 2 * k
      else Value(start) + 2 * k - Pow256(|start|)
  {
    hide Twice, Value, Pow256;
    TwiceAddsTwo(start);
    if k > 0 {
      AfterIsAhead(start, k - 1);
      TwiceAddsTwo(After(start, k - 1));
      PowerIsEven(|start|);
    }
  }

  lemma {:induction false} AfterAfter(start: Octets, j: nat, k: nat)
    ensures After(After(start, j), k) == After(start, j + k)
  {
    hide Twice;
    if k > 0 {
      AfterAfter(start, j, k - 1);
    }
  }

  /** No nonce comes twice within 2^191 frames: that is half of the values of 24 octets. */
  lemma NoncesAreFresh(start: Octets, j: nat, k: nat)
    requires |start| == SIZE && j < k && 2 * (k - j) < Pow256(24)
    ensures After(start, j) != After(start, k)
  {
    hide After, Value, Pow256;
    var from := After(start, j);
    AfterAfter(start, j, k - j);
    AfterIsAhead(from, k - j);
    ValueIsBelow(from);
  }

  /** The bound is exact: after 2^191 frames the same nonce comes again. */
  lemma NoncesRepeat(start: Octets, j: nat)
    requires |start| == SIZE
    ensures After(start, j) == After(start, j + Pow256(24) / 2)
  {
    hide After, Value, Pow256;
    var from, k := After(start, j), Pow256(SIZE) / 2;
    PowerIsEven(SIZE);
    AfterIsAhead(from, k - 1);
    TwiceAddsTwo(After(from, k - 1));
    ValueIsBelow(from);
    AfterStep(from, k - 1);
    ValueDetermines(After(from, k), from);
    AfterAfter(start, j, k);
  }

  lemma AfterStep(start: Octets, k: nat)
    ensures After(start, k + 1) == Twice(After(start, k))
  {
    hide Twice;
  }

  /** The source makes both nonces of one hash, and flips the last bit of one of them. */
  method GenNonces(hash: Octets, locIsLo: bool) returns (recv: array<Byte>, send: array<Byte>)
    requires |hash| == SIZE
    ensures fresh(recv) && fresh(send) && recv != send && recv.Length == send.Length == SIZE
    ensures recv[..] == if locIsLo then hash else Flipped(hash)
    ensures send[..] == if locIsLo then Flipped(hash) else hash
  {
    var nonce1 := new Byte[SIZE](i requires 0 <= i < SIZE => hash[i]);
    var nonce2 := new Byte[SIZE](i requires 0 <= i < SIZE => hash[i]);
    nonce2[SIZE - 1] := nonce2[SIZE - 1] ^ 1;
    assert nonce1[..] == hash;
    assert nonce2[..] == Flipped(hash);
    if locIsLo {
      return nonce1, nonce2;
    }
    return nonce2, nonce1;
  }

  function Flipped(s: Octets): (t: Octets)
    requires s != []
    ensures |t| == |s|
  {
    s[..|s| - 1] + [s[|s| - 1] ^ 1]
  }

  lemma FlippedByte(b: Byte)
    ensures ((b ^ 1) as nat) % 2 != b as nat % 2
  {
  }

  /** No frame of one direction ever has the nonce of a frame of the other. */
  lemma DirectionsNeverMeet(hash: Octets, j: nat, k: nat)
    requires |hash| == SIZE
    ensures After(hash, j) != After(Flipped(hash), k)
  {
    hide After, Value, Flipped;
    ParityIsKept(hash, j);
    ParityIsKept(Flipped(hash), k);
    FlippedParity(hash);
  }

  lemma FlippedParity(s: Octets)
    requires s != []
    ensures Value(Flipped(s)) % 2 != Value(s) % 2
  {
    var init, last := s[..|s| - 1], s[|s| - 1];
    FlippedByte(last);
    assert s == init + [last];
    LastByteParity(init, last);
    LastByteParity(init, last ^ 1);
  }

  lemma LastByteParity(init: Octets, last: Byte)
    ensures Value(init + [last]) % 2 == last as nat % 2
  {
    ValueOfTwo(init, last);
    EvenPlus(Value(init), last as nat);
  }

  lemma EvenPlus(v: nat, b: nat)
    ensures (256 * v + b) % 2 == b % 2
  {
  }
}
