/** smix: fill the memory, walk it, and convert between octets and words on the way. */
module ScryptMix {
  import opened Numbers
  import opened ScryptSpec
  import opened ScryptIndex
  import Scrypt

  type Octet = bv8

  /** Four octets, the least significant first. */
  function WordOf(b0: Octet, b1: Octet, b2: Octet, b3: Octet): Word {
    (b0 as bv32) | ((b1 as bv32) << 8) | ((b2 as bv32) << 16) | ((b3 as bv32) << 24)
  }

  function OctetOf(w: Word, k: nat): Octet
    requires k < 4
  {
    if k == 0 then (w & 0xFF) as bv8
    else if k == 1 then ((w >> 8) & 0xFF) as bv8
    else if k == 2 then ((w >> 16) & 0xFF) as bv8
    else ((w >> 24) & 0xFF) as bv8
  }

  function Words(s: seq<Octet>, n: nat): (x: Block)
    requires |s| >= 4 * n
    ensures |x| == n
  {
    if n == 0 then [] else Words(s, n - 1) + [WordOf(s[4 * n - 4], s[4 * n - 3], s[4 * n - 2], s[4 * n - 1])]
  }

  function Octets(x: Block, n: nat): (s: seq<Octet>)
    requires n <= |x|
    ensures |s| == 4 * n
  {
    if n == 0 then []
    else
      var w := x[n - 1];
      Octets(x, n - 1) + [OctetOf(w, 0), OctetOf(w, 1), OctetOf(w, 2), OctetOf(w, 3)]
  }

  lemma OctetsOfWord(b0: Octet, b1: Octet, b2: Octet, b3: Octet)
    ensures var w := WordOf(b0, b1, b2, b3);
      OctetOf(w, 0) == b0 && OctetOf(w, 1) == b1 && OctetOf(w, 2) == b2 && OctetOf(w, 3) == b3
  {
  }

  /** Writing back the words that were read gives the octets again. */
  lemma {:induction false} OctetsOfWords(s: seq<Octet>, n: nat)
    requires |s| >= 4 * n
    ensures Octets(Words(s, n), n) == s[..4 * n]
  {
    hide WordOf, OctetOf;
    if n > 0 {
      var x := Words(s, n);
      OctetsOfWords(s, n - 1);
      OctetsAgree(Words(s, n - 1), x, n - 1);
      OctetsOfWord(s[4 * n - 4], s[4 * n - 3], s[4 * n - 2], s[4 * n - 1]);
    }
  }

  lemma {:induction false} OctetsAgree(x: Block, y: Block, n: nat)
    requires n <= |x| && n <= |y| && forall i :: 0 <= i < n ==> x[i] == y[i]
    ensures Octets(x, n) == Octets(y, n)
  {
    hide OctetOf;
    if n > 0 {
      OctetsAgree(x, y, n - 1);
    }
  }

  /** The first n slots of the memory hold V[0], ..., V[n - 1]. */
  ghost predicate Filled(v: Block, b: Block, r: nat, n: nat)
    requires r > 0 && |b| == 32 * r
  {
    n > 0 ==>
      && Filled(v, b, r, n - 1)
      && 0 <= Slot(n - 1, r) && Slot(n - 1, r) + 32 * r <= |v|
      && v[Slot(n - 1, r)..Slot(n - 1, r) + 32 * r] == Stored(b, r, n - 1)
  }

  /** Where slot j of the memory starts. */
  function Slot(j: nat, r: nat): (at: nat) {
    j * (32 * r)
  }

  lemma SlotsFollow(i: nat, j: nat, r: nat)
    requires i < j
    ensures Slot(i, r) + 32 * r <= Slot(j, r)
  {
    SlotsAdd(i, j - i - 1, 32 * r);
  }

  lemma SlotsAdd(i: nat, gap: nat, d: nat)
    ensures (i + gap + 1) * d == i * d + gap * d + d && gap * d >= 0
  {
  }

  lemma {:induction false} FilledAt(v: Block, b: Block, r: nat, n: nat, j: nat)
    requires r > 0 && |b| == 32 * r && Filled(v, b, r, n) && j < n
    ensures Slot(j, r) + 32 * r <= |v| && v[Slot(j, r)..Slot(j, r) + 32 * r] == Stored(b, r, j)
  {
    hide Stored, Slot;
    if j < n - 1 {
      FilledAt(v, b, r, n - 1, j);
    }
  }

  lemma {:induction false} FilledIsKept(v: Block, n: nat, piece: Block, b: Block, r: nat, m: nat)
    requires r > 0 && |b| == 32 * r && Filled(v, b, r, m) && m <= n && Slot(n, r) + |piece| <= |v|
    ensures Filled(Scrypt.Overwrite(v, Slot(n, r), piece), b, r, m)
  {
    hide Stored, Slot, Scrypt.Overwrite;
    if m > 0 {
      FilledIsKept(v, n, piece, b, r, m - 1);
      SlotsFollow(m - 1, n, r);
      Scrypt.OverwriteElsewhere(v, Slot(n, r), piece, Slot(m - 1, r), Slot(m - 1, r) + 32 * r);
    }
  }

  lemma FilledGrows(v: Block, b: Block, r: nat, n: nat)
    requires r > 0 && |b| == 32 * r && Filled(v, b, r, n) && Slot(n, r) + 32 * r <= |v|
    ensures Filled(Scrypt.Overwrite(v, Slot(n, r), Stored(b, r, n)), b, r, n + 1)
  {
    hide Stored, Slot;
    FilledIsKept(v, n, Stored(b, r, n), b, r, n);
  }

  lemma OverwrittenPiece(s: Block, at: nat, piece: Block)
    requires at + |piece| <= |s|
    ensures Scrypt.Overwrite(s, at, piece)[at..at + |piece|] == piece
  {
  }

  /** Half a turn of the filling loop: V[i] goes to the memory, and its mix to the other buffer. */
  method Fill(
    tmp: array<Word>, v: array<Word>, i: nat, xy: array<Word>, from: nat, to: nat, r: nat, ghost b: Block)
    requires r > 0 && tmp.Length == 16 && tmp != xy && tmp != v && v != xy && |b| == 32 * r
    requires from + 32 * r <= xy.Length && to + 32 * r <= xy.Length
    requires from + 32 * r <= to || to + 32 * r <= from
    requires Slot(i, r) + 32 * r <= v.Length
    requires xy[from..from + 32 * r] == Stored(b, r, i) && Filled(v[..], b, r, i)
    modifies tmp, v, xy
    ensures xy[to..to + 32 * r] == Stored(b, r, i + 1) && Filled(v[..], b, r, i + 1)
  {
    hide Stored, Slot, Filled, Scrypt.Overwrite, BlockMix;
    StoredStep(b, r, i);
    FilledGrows(v[..], b, r, i);
    Scrypt.BlockCopy(v, Slot(i, r), xy, from, 32 * r);
    ghost var was := xy[..];
    Scrypt.BlockMix(tmp, xy, from, xy, to, r, Stored(b, r, i));
    OverwrittenPiece(was, to, Stored(b, r, i + 1));
    assert xy[to..to + 32 * r] == xy[..][to..to + 32 * r];
  }

  lemma StoredStep(b: Block, r: nat, i: nat)
    requires r > 0 && |b| == 32 * r
    ensures Stored(b, r, i + 1) == BlockMix(Stored(b, r, i), r)
  {
    hide BlockMix;
  }

  lemma WalkedStep(b: Block, r: nat, N: nat, i: nat)
    requires r > 0 && |b| == 32 * r && N > 0
    ensures var x := Walked(b, r, N, i);
      Walked(b, r, N, i + 1) == BlockMix(Xor(x, Stored(b, r, Integerify(x, r) % N)), r)
  {
    hide BlockMix, Stored, Integerify;
  }

  /** Half a turn of the walking loop, from one buffer into the other. */
  method Walk(
    tmp: array<Word>, v: array<Word>, xy: array<Word>, from: nat, to: nat, r: nat, N: nat,
    ghost b: Block, ghost k: nat, ghost i: nat)
    requires r > 0 && tmp.Length == 16 && tmp != xy && tmp != v && v != xy && |b| == 32 * r
    requires from + 32 * r <= xy.Length && to + 32 * r <= xy.Length
    requires from + 32 * r <= to || to + 32 * r <= from
    requires N == Pow2(k) && k <= 64 && Filled(v[..], b, r, N)
    requires xy[from..from + 32 * r] == Walked(b, r, N, i)
    modifies tmp, xy
    ensures xy[to..to + 32 * r] == Walked(b, r, N, i + 1)
  {
    hide Stored, Slot, Filled, Walked, Scrypt.Overwrite, BlockMix, Xor, Pow2, And, Integer, Integerify;
    ghost var x := Walked(b, r, N, i);
    WalkedStep(b, r, N, i);
    MaskedIndex(x, r, k);
    var j := And(Integer(xy[from..from + 32 * r], r), N - 1);
    FilledAt(v[..], b, r, N, j);
    ghost var was := xy[..];
    ghost var mixed := Xor(x, Stored(b, r, j));
    assert v[Slot(j, r)..Slot(j, r) + 32 * r] == Stored(b, r, j);
    Scrypt.BlockXor(xy, from, v, Slot(j, r), 32 * r);
    OverwrittenPiece(was, from, mixed);
    assert xy[from..from + 32 * r] == xy[..][from..from + 32 * r];
    ghost var now := xy[..];
    Scrypt.BlockMix(tmp, xy, from, xy, to, r, mixed);
    OverwrittenPiece(now, to, Walked(b, r, N, i + 1));
    assert xy[to..to + 32 * r] == xy[..][to..to + 32 * r];
  }

  /** Both loops, on the words in the first half of xy. */
  method MixWords(v: array<Word>, xy: array<Word>, r: nat, N: nat, ghost b: Block, ghost k: nat)
    requires r > 0 && v != xy && xy.Length >= 64 * r && v.Length >= Slot(N, r)
    requires N == Pow2(k) && 1 <= k <= 64 && |b| == 32 * r && xy[..32 * r] == b
    modifies v, xy
    ensures xy[..32 * r] == ROMix(b, r, N)
  {
    hide Stored, Slot, Filled, Walked, Pow2;
    var tmp := new Word[16];
    Pow2IsEven(k);
    StartFilling(v[..], b, r, N);
    assert xy[0..0 + 32 * r] == b;
    var i := 0;
    while i < N
      invariant i <= N && i % 2 == 0
      invariant Filled(v[..], b, r, i) && xy[0..0 + 32 * r] == Stored(b, r, i)
    {
      SlotsFollow(i, i + 1, r);
      if i + 1 < N { SlotsFollow(i + 1, N, r); }
      Fill(tmp, v, i, xy, 0, 32 * r, r, b);
      Fill(tmp, v, i + 1, xy, 32 * r, 0, r, b);
      i := i + 2;
    }
    i := 0;
    while i < N
      invariant i <= N && i % 2 == 0
      invariant Filled(v[..], b, r, N) && xy[0..0 + 32 * r] == Walked(b, r, N, i)
    {
      Walk(tmp, v, xy, 0, 32 * r, r, N, b, k, i);
      Walk(tmp, v, xy, 32 * r, 0, r, N, b, k, i + 1);
      i := i + 2;
    }
  }

  lemma Pow2IsEven(k: nat)
    requires k > 0
    ensures Pow2(k) % 2 == 0
  {
  }

  lemma StartFilling(v: Block, b: Block, r: nat, N: nat)
    requires r > 0 && |b| == 32 * r && N > 0
    ensures Filled(v, b, r, 0) && Stored(b, r, 0) == b && Walked(b, r, N, 0) == Stored(b, r, N)
  {
    hide BlockMix;
  }
}
