/** smix on octets, and the key derivation around it. */
module ScryptKey {
  import opened Numbers
  import opened ScryptSpec
  import opened ScryptIndex
  import opened ScryptMix

  /** scryptROMix on 128r octets, in little-endian words. */
  function MixOctets(s: seq<Octet>, r: nat, N: nat): (mixed: seq<Octet>)
    requires r > 0 && N > 0 && |s| == 128 * r
    ensures |mixed| == 128 * r
  {
    Octets(ROMix(Words(s, 32 * r), r, N), 32 * r)
  }

  lemma {:induction false} WordsAt(s: seq<Octet>, n: nat, i: nat)
    requires |s| >= 4 * n && i < n
    ensures Words(s, n)[i] == WordOf(s[4 * i], s[4 * i + 1], s[4 * i + 2], s[4 * i + 3])
  {
    hide WordOf;
    if i < n - 1 {
      WordsAt(s, n - 1, i);
    }
  }

  lemma {:induction false} OctetsAt(x: Block, n: nat, i: nat, k: nat)
    requires n <= |x| && i < n && k < 4
    ensures Octets(x, n)[4 * i + k] == OctetOf(x[i], k)
  {
    hide OctetOf;
    if i < n - 1 {
      OctetsAt(x, n - 1, i, k);
    }
  }

  method Load(b: array<Octet>, off: nat, r: nat, x: array<Word>)
    requires off + 128 * r <= b.Length && x.Length >= 32 * r
    modifies x
    ensures x[..32 * r] == Words(b[off..off + 128 * r], 32 * r)
  {
    hide WordOf, Words;
    ghost var s := b[off..off + 128 * r];
    var j := 0;
    for i := 0 to 32 * r
      invariant j == 4 * i
      invariant forall k :: 0 <= k < i ==> x[k] == Words(s, 32 * r)[k]
    {
      WordsAt(s, 32 * r, i);
      assert s[4 * i] == b[off + j] && s[4 * i + 1] == b[off + j + 1];
      assert s[4 * i + 2] == b[off + j + 2] && s[4 * i + 3] == b[off + j + 3];
      x[i] := WordOf(b[off + j], b[off + j + 1], b[off + j + 2], b[off + j + 3]);
      j := j + 4;
    }
  }

  method Store(x: array<Word>, r: nat, b: array<Octet>, off: nat)
    requires off + 128 * r <= b.Length && x.Length >= 32 * r
    modifies b
    ensures b[..off] == old(b[..off]) && b[off + 128 * r..] == old(b[off + 128 * r..])
    ensures b[off..off + 128 * r] == Octets(x[..32 * r], 32 * r)
  {
    hide OctetOf, Octets;
    ghost var words := x[..32 * r];
    ghost var s := Octets(words, 32 * r);
    var j := 0;
    for i := 0 to 32 * r
      invariant j == 4 * i
      invariant forall k :: 0 <= k < off || off + 128 * r <= k < b.Length ==> b[k] == old(b[k])
      invariant forall k :: 0 <= k < j ==> b[off + k] == s[k]
    {
      OctetsAt(words, 32 * r, i, 0);
      OctetsAt(words, 32 * r, i, 1);
      OctetsAt(words, 32 * r, i, 2);
      OctetsAt(words, 32 * r, i, 3);
      b[off + j], b[off + j + 1] := OctetOf(x[i], 0), OctetOf(x[i], 1);
      b[off + j + 2], b[off + j + 3] := OctetOf(x[i], 2), OctetOf(x[i], 3);
      j := j + 4;
    }
  }

  /** scryptROMix, in place, on the 128r octets from position off on. */
  method SMix(b: array<Octet>, off: nat, r: nat, N: nat, v: array<Word>, xy: array<Word>, ghost k: nat)
    requires r > 0 && v != xy && off + 128 * r <= b.Length
    requires xy.Length >= 64 * r && v.Length >= Slot(N, r) && N == Pow2(k) && 1 <= k <= 64
    modifies b, v, xy
    ensures b[..off] == old(b[..off]) && b[off + 128 * r..] == old(b[off + 128 * r..])
    ensures b[off..off + 128 * r] == MixOctets(old(b[off..off + 128 * r]), r, N)
  {
    hide Words, Octets, ROMix, Slot, Pow2;
    Load(b, off, r, xy);
    MixWords(v, xy, r, N, Words(b[off..off + 128 * r], 32 * r), k);
    Store(xy, r, b, off);
  }

  /** A number above one shares no bit with its predecessor exactly when it is a power of two. */
  function Exponent(n: nat): (k: nat)
    requires n > 0
    ensures And(n, n - 1) == 0 ==> n == Pow2(k)
  {
    if n == 1 then 0
    else
      OnlyOneBit(n);
      Exponent(n / 2) + 1
  }

  lemma OnlyOneBit(n: nat)
    requires n > 1
    ensures And(n, n - 1) == 0 ==> n % 2 == 0 && And(n / 2, n / 2 - 1) == 0
  {
    hide And;
    var h := n / 2;
    HalfOfPredecessor(n);
    AndUnfolds(n, n - 1);
    if n % 2 == 1 {
      AndSelf(h);
    }
  }

  lemma HalfOfPredecessor(n: nat)
    requires n > 0
    ensures n % 2 == 1 ==> (n - 1) / 2 == n / 2 && (n - 1) % 2 == 0
    ensures n % 2 == 0 ==> (n - 1) / 2 == n / 2 - 1 && (n - 1) % 2 == 1
  {
  }

  lemma {:induction false} AndSelf(n: nat)
    ensures And(n, n) == n
  {
    if n == 0 {
      AndNothing(0);
    } else {
      hide And;
      AndSelf(n / 2);
      AndUnfolds(n, n);
      assert n % 2 * (n % 2) == n % 2;
    }
  }

  lemma {:induction false} PowersPass(k: nat)
    ensures And(Pow2(k), Pow2(k) - 1) == 0
  {
    if k > 0 {
      var p := Pow2(k - 1);
      PowersPass(k - 1);
      assert (2 * p - 1) / 2 == p - 1 && 2 * p % 2 == 0;
    }
  }

  const MAX_INT := 0x7FFF_FFFF_FFFF_FFFF

  /** The greatest int of 64 bits. */
  lemma MaxInt()
    ensures 2 * (MAX_INT + 1) == Pow256(8)
  {
    assert Pow256(4) == 0x1_0000_0000;
  }

  datatype Result<T> = Ok(value: T) | NotPowerOfTwo | TooLarge

  /** p pieces of 128r octets, each mixed on its own. */
  function MixAll(s: seq<Octet>, r: nat, N: nat, p: nat): (mixed: seq<Octet>)
    requires r > 0 && N > 0 && |s| >= Piece(p, r)
    ensures |mixed| == Piece(p, r)
  {
    if p == 0 then []
    else
      PiecesFollow(p - 1, r);
      MixAll(s, r, N, p - 1) + MixOctets(s[Piece(p - 1, r)..Piece(p, r)], r, N)
  }

  function Piece(i: nat, r: nat): nat {
    i * 128 * r
  }

  lemma PiecesFollow(i: nat, r: nat)
    ensures Piece(i + 1, r) == Piece(i, r) + 128 * r
  {
  }

  lemma {:induction false} PieceIsMonotonic(i: nat, j: nat, r: nat)
    requires i <= j
    ensures Piece(i, r) <= Piece(j, r)
    decreases j
  {
    hide Piece;
    if i < j {
      PieceIsMonotonic(i, j - 1, r);
      PiecesFollow(j - 1, r);
    }
  }

  /** The two uses of PBKDF2 that scrypt makes, with any pseudorandom function. */
  ghost predicate Derives(kdf: (seq<Octet>, seq<Octet>, nat) -> seq<Octet>) {
    forall password, salt, n :: |kdf(password, salt, n)| == n
  }

  ghost predicate Small(N: nat, r: nat, p: nat)
    requires r > 0 && p > 0
  {
    r * p < 0x4000_0000 && r <= MAX_INT / 128 / p && r <= MAX_INT / 256 && N <= MAX_INT / 128 / r
  }

  method Key(
    kdf: (seq<Octet>, seq<Octet>, nat) -> seq<Octet>, password: seq<Octet>, salt: seq<Octet>,
    N: nat, r: nat, p: nat, keyLen: nat) returns (result: Result<seq<Octet>>)
    requires Derives(kdf) && r > 0 && p > 0
    ensures result.NotPowerOfTwo? <==> N <= 1 || forall k :: N != Pow2(k)
    ensures result.TooLarge? <==> !result.NotPowerOfTwo? && !Small(N, r, p)
    ensures result.Ok? ==>
      result.value == kdf(password, MixAll(kdf(password, salt, Piece(p, r)), r, N, p), keyLen)
  {
    hide And, Pow2, Exponent, Small, MixOctets, Derives;
    if N <= 1 || And(N, N - 1) != 0 {
      forall k ensures N <= 1 || N != Pow2(k) { PowersPass(k); }
      return NotPowerOfTwo;
    }
    ghost var k := Exponent(N);
    assert N == Pow2(k);
    var large := IsTooLarge(N, r, p);
    if large {
      return TooLarge;
    }
    ExponentIsSmall(N, r, p, k);
    ghost var s := kdf(password, salt, Piece(p, r));
    var b := Start(kdf, password, salt, Piece(p, r));
    var xy := new Word[64 * r];
    var v := new Word[Slot(N, r)];
    MixPieces(b, r, N, p, v, xy, k);
    result := Ok(kdf(password, b[..], keyLen));
  }

  /** The product of the 64-bit r and p may wrap around, but then the second test fires. */
  method IsTooLarge(N: nat, r: nat, p: nat) returns (large: bool)
    requires r > 0 && p > 0
    ensures large == !Small(N, r, p)
  {
    ghost var q := MAX_INT / 128 / p;
    if r <= q {
      ProductIsSmall(r, q, p);
    }
    var product := r * p;
    var wrapped := product % 0x1_0000_0000_0000_0000;
    large := wrapped >= 0x4000_0000 || r > MAX_INT / 128 / p || r > MAX_INT / 256 || N > MAX_INT / 128 / r;
  }

  lemma ProductIsSmall(r: nat, q: nat, p: nat)
    requires p > 0 && q == MAX_INT / 128 / p && r <= q
    ensures r * p <= MAX_INT / 128
  {
    assert q * p <= MAX_INT / 128;
    TimesAtLeast(1, (q - r) * p);
    assert (q - r) * p == q * p - r * p;
  }

  lemma ExponentIsSmall(N: nat, r: nat, p: nat, k: nat)
    requires r > 0 && p > 0 && N > 1 && N == Pow2(k) && Small(N, r, p)
    ensures 1 <= k <= 64
  {
    DivideAtMost(MAX_INT / 128, r);
    if k > 64 {
      Pow2Grows(64, k);
      Pow2Of64();
    }
  }

  lemma DivideAtMost(x: nat, d: nat)
    requires d > 0
    ensures x / d <= x
  {
    var q, m := x / d, x % d;
    assert x == d * q + m && 0 <= m;
    if q > x {
      TimesAtLeast(d, q);
    }
  }

  lemma TimesAtLeast(d: int, q: int)
    requires d > 0 && q >= 0
    ensures d * q >= q
  {
    assert d * q == q + (d - 1) * q;
  }

  lemma {:induction false} Pow2Grows(j: nat, k: nat)
    requires j <= k
    ensures Pow2(j) <= Pow2(k)
    decreases k
  {
    if j < k {
      Pow2Grows(j, k - 1);
    }
  }

  /** The octets derived from the password, in an array. */
  method Start(
    kdf: (seq<Octet>, seq<Octet>, nat) -> seq<Octet>, password: seq<Octet>, salt: seq<Octet>, n: nat)
    returns (b: array<Octet>)
    requires Derives(kdf)
    ensures fresh(b) && b[..] == kdf(password, salt, n) && b.Length == n
  {
    var derived := kdf(password, salt, n);
    b := new Octet[n](i requires 0 <= i < n => derived[i]);
  }

  method MixPieces(b: array<Octet>, r: nat, N: nat, p: nat, v: array<Word>, xy: array<Word>, ghost k: nat)
    requires r > 0 && v != xy && b.Length == Piece(p, r)
    requires xy.Length >= 64 * r && v.Length >= Slot(N, r) && N == Pow2(k) && 1 <= k <= 64
    modifies b, v, xy
    ensures b[..] == MixAll(old(b[..]), r, N, p)
  {
    hide MixOctets, Slot, Pow2, Piece, MixAll;
    ghost var s := b[..];
    MixNone(s, r, N);
    for i := 0 to p
      invariant Piece(i, r) <= b.Length
      invariant b[..Piece(i, r)] == MixAll(s, r, N, i) && b[Piece(i, r)..] == s[Piece(i, r)..]
    {
      var off := Piece(i, r);
      PiecesFollow(i, r);
      PieceIsMonotonic(i + 1, p, r);
      MixOneMore(s, r, N, i);
      assert b[off..off + 128 * r] == b[off..][..128 * r] == s[off..off + 128 * r];
      ghost var rest := b[off + 128 * r..];
      assert rest == b[off..][128 * r..] == s[off + 128 * r..];
      SMix(b, off, r, N, v, xy, k);
      assert b[..off + 128 * r] == b[..off] + b[off..off + 128 * r];
    }
  }

  lemma MixNone(s: seq<Octet>, r: nat, N: nat)
    requires r > 0 && N > 0
    ensures Piece(0, r) == 0 && MixAll(s, r, N, 0) == []
  {
  }

  lemma MixOneMore(s: seq<Octet>, r: nat, N: nat, i: nat)
    requires r > 0 && N > 0 && |s| >= Piece(i + 1, r)
    ensures Piece(i + 1, r) == Piece(i, r) + 128 * r
    ensures MixAll(s, r, N, i + 1) == MixAll(s, r, N, i) + MixOctets(s[Piece(i, r)..Piece(i + 1, r)], r, N)
  {
    hide MixOctets;
    PiecesFollow(i, r);
  }
}
