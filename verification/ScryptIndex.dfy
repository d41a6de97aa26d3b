/** The index arithmetic of scrypt: a mask of the low 64 bits stands for a remainder of 512 bits. */
module ScryptIndex {
  import opened Numbers
  import opened ScryptSpec

  /** The bitwise and of two numbers. */
  function And(a: nat, b: nat): nat {
    if a == 0 || b == 0 then 0 else (a % 2) * (b % 2) + 2 * And(a / 2, b / 2)
  }

  lemma AndUnfolds(a: nat, b: nat)
    ensures And(a, b) == (a % 2) * (b % 2) + 2 * And(a / 2, b / 2)
  {
  }

  lemma MulAtLeast(d: int, z: int)
    requires d > 0
    ensures z >= 1 ==> d * z >= d
    ensures z <= -1 ==> d * z <= -d
  {
    if z >= 1 {
      assert d * z == d + d * (z - 1) && d * (z - 1) >= 0;
    } else if z <= -1 {
      assert d * z == -d + d * (z + 1) && d * (z + 1) <= 0;
    }
  }

  lemma ModIsUnique(x: int, d: int, q: int, m: int)
    requires d > 0 && x == d * q + m && 0 <= m < d
    ensures x % d == m
  {
    var q', m' := x / d, x % d;
    assert x == d * q' + m' && 0 <= m' < d;
    var z := q' - q;
    assert d * z == d * q' - d * q;
    MulAtLeast(d, z);
  }

  lemma DoubledMod(x: nat, p: nat)
    requires p > 0
    ensures x % (2 * p) == x % 2 + 2 * (x / 2 % p)
  {
    var h := x / 2;
    var q, m := h / p, h % p;
    assert h == p * q + m;
    assert 2 * p * q == 2 * (p * q);
    ModIsUnique(x, 2 * p, q, 2 * m + x % 2);
  }

  lemma {:induction false} AndMask(x: nat, k: nat)
    ensures And(x, Pow2(k) - 1) == x % Pow2(k)
  {
    hide And, Pow2;
    if k == 0 {
      assert Pow2(0) == 1 by { PowerOfNone(); }
      ModIsUnique(x, 1, x, 0);
      AndNothing(x);
    } else {
      var p := Pow2(k - 1);
      Pow2Next(k - 1);
      AndMask(x / 2, k - 1);
      DoubledMod(x, p);
      MaskHalves(p);
      AndUnfolds(x, 2 * p - 1);
    }
  }

  lemma PowerOfNone()
    ensures Pow2(0) == 1
  {
  }

  lemma AndNothing(x: nat)
    ensures And(x, 0) == 0
  {
  }

  lemma MaskHalves(p: nat)
    requires p > 0
    ensures (2 * p - 1) / 2 == p - 1 && (2 * p - 1) % 2 == 1
  {
  }

  lemma {:induction false} Pow2Adds(a: nat, b: nat)
    ensures Pow2(a + b) == Pow2(a) * Pow2(b)
  {
    if a == 0 {
      assert Pow2(0) == 1;
    } else {
      hide Pow2;
      Pow2Adds(a - 1, b);
      Pow2Next(a - 1);
      Pow2Next(a - 1 + b);
      DoubledProduct(Pow2(a - 1), Pow2(b));
    }
  }

  lemma Pow2Next(k: nat)
    ensures Pow2(k + 1) == 2 * Pow2(k)
  {
  }

  lemma DoubledProduct(p: nat, q: nat)
    ensures 2 * (p * q) == (2 * p) * q
  {
  }

  lemma Pow2Of64()
    ensures Pow2(64) == 0x1_0000_0000_0000_0000
  {
    assert Pow2(4) == 16;
    hide Pow2;
    Pow2Adds(4, 4);
    Pow2Adds(8, 8);
    Pow2Adds(16, 16);
    Pow2Adds(32, 32);
  }

  lemma ModIgnoresMultiples(x: nat, d: nat, m: nat)
    requires d > 0
    ensures (x + d * m) % d == x % d
  {
    var q := x / d;
    assert x == d * q + x % d;
    assert d * (q + m) == d * q + d * m;
    ModIsUnique(x + d * m, d, q + m, x % d);
  }

  /** The two low words of the last block, as the source reads them. */
  function Integer(b: Block, r: nat): nat
    requires r > 0 && |b| == 32 * r
  {
    var j := (2 * r - 1) * 16;
    (b[j] as nat) + 0x1_0000_0000 * (b[j + 1] as nat)
  }

  function High(b: Block, r: nat): nat
    requires r > 0 && |b| == 32 * r
  {
    LittleEndian(At(b, 2 * r - 1)[2..])
  }

  lemma IntegerifySplits(b: Block, r: nat)
    requires r > 0 && |b| == 32 * r
    ensures Integerify(b, r) == Integer(b, r) + 0x1_0000_0000_0000_0000 * High(b, r)
  {
    var last := At(b, 2 * r - 1);
    assert last[1..][1..] == last[2..];
    assert LittleEndian(last[1..]) == (last[1] as nat) + 0x1_0000_0000 * High(b, r);
  }

  /** For a power of two up to 2^64, the mask picks the index that the definition asks for. */
  lemma MaskedIndex(b: Block, r: nat, k: nat)
    requires r > 0 && |b| == 32 * r && k <= 64
    ensures And(Integer(b, r), Pow2(k) - 1) == Integerify(b, r) % Pow2(k) < Pow2(k)
  {
    hide Integer, Integerify, And, High, Pow2;
    AndMask(Integer(b, r), k);
    IntegerifySplits(b, r);
    Pow2Of64();
    Pow2Adds(k, 64 - k);
    MulAssoc(Pow2(k), Pow2(64 - k), High(b, r));
    ModIgnoresMultiples(Integer(b, r), Pow2(k), Pow2(64 - k) * High(b, r));
  }

  lemma MulAssoc(x: nat, y: nat, z: nat)
    ensures x * y * z == x * (y * z)
  {
  }
}
