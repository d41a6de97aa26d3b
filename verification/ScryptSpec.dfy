/** The definitions of sections 3, 4 and 5 of RFC 7914, on sequences of 32-bit words. */
module ScryptSpec {
  type Word = bv32

  type Block = seq<Word>

  datatype Row = Row(a: Word, b: Word, c: Word, d: Word)

  datatype Matrix = Matrix(r0: Row, r1: Row, r2: Row, r3: Row)

  /** The three operations of Salsa20: addition, and exclusive or with a rotated word. */
  function Plus(x: Word, y: Word): Word { x + y }

  function Mix7(x: Word, u: Word): Word { x ^ ((u << 7) | (u >> 25)) }

  function Mix9(x: Word, u: Word): Word { x ^ ((u << 9) | (u >> 23)) }

  function Mix13(x: Word, u: Word): Word { x ^ ((u << 13) | (u >> 19)) }

  function Mix18(x: Word, u: Word): Word { x ^ ((u << 18) | (u >> 14)) }

  function QuarterRound(x: Row): Row {
    var b := Mix7(x.b, Plus(x.a, x.d));
    var c := Mix9(x.c, Plus(b, x.a));
    var d := Mix13(x.d, Plus(c, b));
    Row(Mix18(x.a, Plus(d, c)), b, c, d)
  }

  /** The quarter round of row i starts at the diagonal. */
  function RowRound(m: Matrix): Matrix {
    var q0 := QuarterRound(m.r0);
    var q1 := QuarterRound(Row(m.r1.b, m.r1.c, m.r1.d, m.r1.a));
    var q2 := QuarterRound(Row(m.r2.c, m.r2.d, m.r2.a, m.r2.b));
    var q3 := QuarterRound(Row(m.r3.d, m.r3.a, m.r3.b, m.r3.c));
    Matrix(
      q0,
      Row(q1.d, q1.a, q1.b, q1.c),
      Row(q2.c, q2.d, q2.a, q2.b),
      Row(q3.b, q3.c, q3.d, q3.a))
  }

  function Transpose(m: Matrix): Matrix {
    Matrix(
      Row(m.r0.a, m.r1.a, m.r2.a, m.r3.a),
      Row(m.r0.b, m.r1.b, m.r2.b, m.r3.b),
      Row(m.r0.c, m.r1.c, m.r2.c, m.r3.c),
      Row(m.r0.d, m.r1.d, m.r2.d, m.r3.d))
  }

  function DoubleRound(m: Matrix): Matrix {
    RowRound(Transpose(RowRound(Transpose(m))))
  }

  function DoubleRounds(m: Matrix, n: nat): Matrix {
    if n == 0 then m else DoubleRound(DoubleRounds(m, n - 1))
  }

  function AddRows(x: Row, y: Row): Row {
    Row(Plus(x.a, y.a), Plus(x.b, y.b), Plus(x.c, y.c), Plus(x.d, y.d))
  }

  function AddMatrices(x: Matrix, y: Matrix): Matrix {
    Matrix(AddRows(x.r0, y.r0), AddRows(x.r1, y.r1), AddRows(x.r2, y.r2), AddRows(x.r3, y.r3))
  }

  function ToMatrix(b: Block): Matrix
    requires |b| == 16
  {
    Matrix(
      Row(b[0], b[1], b[2], b[3]), Row(b[4], b[5], b[6], b[7]),
      Row(b[8], b[9], b[10], b[11]), Row(b[12], b[13], b[14], b[15]))
  }

  function FromRow(r: Row): Block {
    [r.a, r.b, r.c, r.d]
  }

  function FromMatrix(m: Matrix): (b: Block)
    ensures |b| == 16
  {
    FromRow(m.r0) + FromRow(m.r1) + FromRow(m.r2) + FromRow(m.r3)
  }

  /** Salsa20/8 core: eight rounds and the feed-forward. */
  function Salsa(b: Block): (out: Block)
    requires |b| == 16
    ensures |out| == 16
  {
    var m := ToMatrix(b);
    FromMatrix(AddMatrices(DoubleRounds(m, 4), m))
  }

  function XorWord(x: Word, y: Word): Word { x ^ y }

  function Xor(x: Block, y: Block): (z: Block)
    requires |x| == |y|
    ensures |z| == |x| && forall i :: 0 <= i < |x| ==> z[i] == XorWord(x[i], y[i])
  {
    seq(|x|, i requires 0 <= i < |x| => XorWord(x[i], y[i]))
  }

  /** The i-th 64-octet block. */
  function At(b: Block, i: nat): (block: Block)
    requires 16 * i + 16 <= |b|
    ensures |block| == 16
  {
    b[16 * i..16 * i + 16]
  }

  /** scryptBlockMix: the running block X after i steps; Y[i] is the one after i + 1 steps. */
  function Running(b: Block, r: nat, i: nat): (x: Block)
    requires r > 0 && |b| == 32 * r && i <= 2 * r
    ensures |x| == 16
  {
    if i == 0 then At(b, 2 * r - 1) else Salsa(Xor(Running(b, r, i - 1), At(b, i - 1)))
  }

  /** Y[0], Y[2], ..., Y[2n - 2] */
  function Evens(b: Block, r: nat, n: nat): (y: Block)
    requires r > 0 && |b| == 32 * r && n <= r
    ensures |y| == 16 * n
  {
    if n == 0 then [] else Evens(b, r, n - 1) + Running(b, r, 2 * n - 1)
  }

  /** Y[1], Y[3], ..., Y[2n - 1] */
  function Odds(b: Block, r: nat, n: nat): (y: Block)
    requires r > 0 && |b| == 32 * r && n <= r
    ensures |y| == 16 * n
  {
    if n == 0 then [] else Odds(b, r, n - 1) + Running(b, r, 2 * n)
  }

  function BlockMix(b: Block, r: nat): (mixed: Block)
    requires r > 0 && |b| == 32 * r
    ensures |mixed| == 32 * r
  {
    Evens(b, r, r) + Odds(b, r, r)
  }

  /** scryptROMix: V[i], the block after i mixes. */
  function Stored(b: Block, r: nat, i: nat): (x: Block)
    requires r > 0 && |b| == 32 * r
    ensures |x| == 32 * r
  {
    if i == 0 then b else BlockMix(Stored(b, r, i - 1), r)
  }

  /** The octets of a block as a little-endian integer. */
  function LittleEndian(b: Block): nat {
    if b == [] then 0 else (b[0] as nat) + 0x1_0000_0000 * LittleEndian(b[1..])
  }

  function Integerify(b: Block, r: nat): nat
    requires r > 0 && |b| == 32 * r
  {
    LittleEndian(At(b, 2 * r - 1))
  }

  /** The block after i of the N data-dependent steps. */
  function Walked(b: Block, r: nat, N: nat, i: nat): (x: Block)
    requires r > 0 && |b| == 32 * r && N > 0
    ensures |x| == 32 * r
  {
    if i == 0 then Stored(b, r, N)
    else
      var x := Walked(b, r, N, i - 1);
      BlockMix(Xor(x, Stored(b, r, Integerify(x, r) % N)), r)
  }

  function ROMix(b: Block, r: nat, N: nat): (x: Block)
    requires r > 0 && |b| == 32 * r && N > 0
    ensures |x| == 32 * r
  {
    Walked(b, r, N, N)
  }
}
