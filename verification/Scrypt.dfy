/** The unrolled, double-buffered scrypt core, on arrays of 32-bit words. */
module Scrypt {
  import opened ScryptSpec

  /** The words of s, with piece in place of those from position at on. */
  function Overwrite(s: Block, at: nat, piece: Block): (s': Block)
    requires at + |piece| <= |s|
    ensures |s'| == |s|
  {
    s[..at] + piece + s[at + |piece|..]
  }

  method BlockCopy(dst: array<Word>, to: nat, src: array<Word>, from: nat, n: nat)
    requires to + n <= dst.Length && from + n <= src.Length
    modifies dst
    ensures dst[..] == Overwrite(old(dst[..]), to, old(src[from..from + n]))
  {
    forall i | 0 <= i < n {
      dst[to + i] := src[from + i];
    }
  }

  method BlockXor(dst: array<Word>, to: nat, src: array<Word>, from: nat, n: nat)
    requires to + n <= dst.Length && from + n <= src.Length && dst != src
    modifies dst
    ensures dst[..] == Overwrite(old(dst[..]), to, Xor(old(dst[to..to + n]), src[from..from + n]))
  {
    hide XorWord;
    ghost var was, mask := dst[to..to + n], src[from..from + n];
    ghost var goal := Xor(was, mask);
    for i := 0 to n
      invariant forall k :: 0 <= k < to || to + i <= k < dst.Length ==> dst[k] == old(dst[k])
      invariant forall k :: 0 <= k < i ==> dst[to + k] == goal[k]
    {
      assert goal[i] == XorWord(was[i], mask[i]);
      dst[to + i] := XorWord(dst[to + i], src[from + i]);
    }
  }

  /** One double round, unrolled: the columns first, then the rows. */
  method DoubleRoundUnrolled(m: Matrix) returns (m': Matrix)
    ensures m' == DoubleRound(m)
  {
    hide Plus, Mix7, Mix9, Mix13, Mix18;
    var x0, x1, x2, x3 := m.r0.a, m.r0.b, m.r0.c, m.r0.d;
    var x4, x5, x6, x7 := m.r1.a, m.r1.b, m.r1.c, m.r1.d;
    var x8, x9, x10, x11 := m.r2.a, m.r2.b, m.r2.c, m.r2.d;
    var x12, x13, x14, x15 := m.r3.a, m.r3.b, m.r3.c, m.r3.d;
    var u := Plus(x0, x12);
    x4 := Mix7(x4, u);
    u := Plus(x4, x0);
    x8 := Mix9(x8, u);
    u := Plus(x8, x4);
    x12 := Mix13(x12, u);
    u := Plus(x12, x8);
    x0 := Mix18(x0, u);

    u := Plus(x5, x1);
    x9 := Mix7(x9, u);
    u := Plus(x9, x5);
    x13 := Mix9(x13, u);
    u := Plus(x13, x9);
    x1 := Mix13(x1, u);
    u := Plus(x1, x13);
    x5 := Mix18(x5, u);

    u := Plus(x10, x6);
    x14 := Mix7(x14, u);
    u := Plus(x14, x10);
    x2 := Mix9(x2, u);
    u := Plus(x2, x14);
    x6 := Mix13(x6, u);
    u := Plus(x6, x2);
    x10 := Mix18(x10, u);

    u := Plus(x15, x11);
    x3 := Mix7(x3, u);
    u := Plus(x3, x15);
    x7 := Mix9(x7, u);
    u := Plus(x7, x3);
    x11 := Mix13(x11, u);
    u := Plus(x11, x7);
    x15 := Mix18(x15, u);

    u := Plus(x0, x3);
    x1 := Mix7(x1, u);
    u := Plus(x1, x0);
    x2 := Mix9(x2, u);
    u := Plus(x2, x1);
    x3 := Mix13(x3, u);
    u := Plus(x3, x2);
    x0 := Mix18(x0, u);

    u := Plus(x5, x4);
    x6 := Mix7(x6, u);
    u := Plus(x6, x5);
    x7 := Mix9(x7, u);
    u := Plus(x7, x6);
    x4 := Mix13(x4, u);
    u := Plus(x4, x7);
    x5 := Mix18(x5, u);

    u := Plus(x10, x9);
    x11 := Mix7(x11, u);
    u := Plus(x11, x10);
    x8 := Mix9(x8, u);
    u := Plus(x8, x11);
    x9 := Mix13(x9, u);
    u := Plus(x9, x8);
    x10 := Mix18(x10, u);

    u := Plus(x15, x14);
    x12 := Mix7(x12, u);
    u := Plus(x12, x15);
    x13 := Mix9(x13, u);
    u := Plus(x13, x12);
    x14 := Mix13(x14, u);
    u := Plus(x14, x13);
    x15 := Mix18(x15, u);
    m' := Matrix(Row(x0, x1, x2, x3), Row(x4, x5, x6, x7), Row(x8, x9, x10, x11), Row(x12, x13, x14, x15));
  }

  method EightRounds(w: Matrix) returns (x: Matrix)
    ensures x == DoubleRounds(w, 4)
  {
    hide DoubleRound;
    x := w;
    for i := 0 to 4
      invariant x == DoubleRounds(w, i)
    {
      x := DoubleRoundUnrolled(x);
    }
  }

  /** Salsa20/8 of the exclusive or of tmp and 16 words of the input, into both tmp and the output. */
  method SalsaXor(tmp: array<Word>, input: array<Word>, from: nat, out: array<Word>, to: nat)
    requires tmp.Length == 16 && tmp != input && tmp != out
    requires from + 16 <= input.Length && to + 16 <= out.Length
    modifies tmp, out
    ensures tmp[..] == Salsa(Xor(old(tmp[..]), old(input[from..from + 16])))
    ensures out[..] == Overwrite(old(out[..]), to, tmp[..])
  {
    hide Xor, AddMatrices, ToMatrix, FromMatrix, DoubleRounds;
    var mixed := Xor(tmp[..], input[from..from + 16]);
    var w := ToMatrix(mixed);
    var x := EightRounds(w);
    var words := FromMatrix(AddMatrices(x, w));
    for k := 0 to 16
      invariant tmp[..k] == words[..k]
      invariant forall j :: 0 <= j < k ==> out[to + j] == words[j]
      invariant forall j :: 0 <= j < to || to + k <= j < out.Length ==> out[j] == old(out[j])
    {
      out[to + k], tmp[k] := words[k], words[k];
    }
  }

  lemma OverwriteElsewhere(s: Block, at: nat, piece: Block, lo: nat, hi: nat)
    requires at + |piece| <= |s| && lo <= hi <= |s|
    requires hi <= at || at + |piece| <= lo
    ensures Overwrite(s, at, piece)[lo..hi] == s[lo..hi]
  {
  }

  lemma OverwriteExtends(s: Block, at: nat, piece: Block, lo: nat)
    requires at + |piece| <= |s| && lo <= at
    ensures Overwrite(s, at, piece)[lo..at + |piece|] == s[lo..at] + piece
  {
  }

  /** out is like before, except for the first n even and the first n odd blocks of the mix of b. */
  ghost predicate Mixed(before: Block, out: Block, to: nat, b: Block, r: nat, n: nat) {
    && r > 0 && |b| == 32 * r && n <= r
    && |out| == |before| && to + 32 * r <= |out|
    && out[0..to] == before[0..to] && out[to + 32 * r..|out|] == before[to + 32 * r..|out|]
    && out[to..to + 16 * n] == Evens(b, r, n)
    && out[to + 16 * r..to + 16 * r + 16 * n] == Odds(b, r, n)
  }

  lemma MixedAll(before: Block, out: Block, to: nat, b: Block, r: nat)
    requires Mixed(before, out, to, b, r, r)
    ensures out == Overwrite(before, to, ScryptSpec.BlockMix(b, r))
  {
    hide Evens, Odds;
    var mid, hi := to + 16 * r, to + 32 * r;
    SplitSlice(out, to, mid, hi);
    SplitSlice(out, 0, to, hi);
    SplitSlice(out, 0, hi, |out|);
    assert out[0..|out|] == out;
  }

  lemma SplitSlice(s: Block, lo: nat, mid: nat, hi: nat)
    requires lo <= mid <= hi <= |s|
    ensures s[lo..hi] == s[lo..mid] + s[mid..hi]
  {
  }

  lemma SliceOfSlice(s: Block, from: nat, n: nat, lo: nat, hi: nat)
    requires from + n <= |s| && lo <= hi <= n
    ensures s[from..from + n][lo..hi] == s[from + lo..from + hi]
  {
    var part := s[from..from + n];
    forall k | 0 <= k < hi - lo ensures part[lo..hi][k] == s[from + lo..from + hi][k] {
      assert part[lo + k] == s[from + (lo + k)];
    }
  }

  lemma MixedStep(before: Block, out: Block, to: nat, b: Block, r: nat, n: nat)
    requires Mixed(before, out, to, b, r, n) && n < r
    ensures var even, odd := Running(b, r, 2 * n + 1), Running(b, r, 2 * n + 2);
      var once := Overwrite(out, to + 16 * n, even);
      Mixed(before, Overwrite(once, to + 16 * r + 16 * n, odd), to, b, r, n + 1)
  {
    hide Overwrite, Running, Evens, Odds;
    var even, odd := Running(b, r, 2 * n + 1), Running(b, r, 2 * n + 2);
    HalvesGrow(b, r, n);
    EvenBlockIsAdded(out, to, r, n, even, odd);
    OddBlockIsAdded(out, to, r, n, even, odd);
    OutsideIsKept(out, to, r, n, even, odd, 0, to);
    OutsideIsKept(out, to, r, n, even, odd, to + 32 * r, |out|);
  }

  /** Both blocks of a pair, each in its half. */
  function WithPair(out: Block, to: nat, r: nat, n: nat, even: Block, odd: Block): (twice: Block)
    requires n < r && to + 32 * r <= |out| && |even| == |odd| == 16
    ensures |twice| == |out|
  {
    Overwrite(Overwrite(out, to + 16 * n, even), to + 16 * r + 16 * n, odd)
  }

  lemma EvenBlockIsAdded(out: Block, to: nat, r: nat, n: nat, even: Block, odd: Block)
    requires n < r && to + 32 * r <= |out| && |even| == |odd| == 16
    ensures WithPair(out, to, r, n, even, odd)[to..to + 16 * (n + 1)] == out[to..to + 16 * n] + even
  {
    hide Overwrite;
    OverwriteExtends(out, to + 16 * n, even, to);
    OverwriteElsewhere(Overwrite(out, to + 16 * n, even), to + 16 * r + 16 * n, odd, to, to + 16 * n + 16);
  }

  lemma OddBlockIsAdded(out: Block, to: nat, r: nat, n: nat, even: Block, odd: Block)
    requires n < r && to + 32 * r <= |out| && |even| == |odd| == 16
    ensures var lo := to + 16 * r;
      WithPair(out, to, r, n, even, odd)[lo..lo + 16 * (n + 1)] == out[lo..lo + 16 * n] + odd
  {
    hide Overwrite;
    var lo := to + 16 * r;
    OverwriteElsewhere(out, to + 16 * n, even, lo, lo + 16 * n);
    OverwriteExtends(Overwrite(out, to + 16 * n, even), lo + 16 * n, odd, lo);
  }

  lemma OutsideIsKept(out: Block, to: nat, r: nat, n: nat, even: Block, odd: Block, lo: nat, hi: nat)
    requires n < r && to + 32 * r <= |out| && |even| == |odd| == 16
    requires lo <= hi <= |out| && (hi <= to || to + 32 * r <= lo)
    ensures WithPair(out, to, r, n, even, odd)[lo..hi] == out[lo..hi]
  {
    hide Overwrite;
    OverwriteElsewhere(out, to + 16 * n, even, lo, hi);
    OverwriteElsewhere(Overwrite(out, to + 16 * n, even), to + 16 * r + 16 * n, odd, lo, hi);
  }

  lemma HalvesGrow(b: Block, r: nat, n: nat)
    requires r > 0 && |b| == 32 * r && n < r
    ensures Evens(b, r, n + 1) == Evens(b, r, n) + Running(b, r, 2 * n + 1)
    ensures Odds(b, r, n + 1) == Odds(b, r, n) + Running(b, r, 2 * n + 2)
  {
    hide Running;
  }

  lemma RunningStep(b: Block, r: nat, i: nat)
    requires r > 0 && |b| == 32 * r && i < 2 * r
    ensures Running(b, r, i + 1) == Salsa(Xor(Running(b, r, i), At(b, i)))
  {
    hide Salsa, Xor, At;
  }

  /**
   * Mix 2r blocks of the input into as many blocks of the output: the even results go straight to
   * the first half and the odd ones to the second.
   */
  method BlockMix(
    tmp: array<Word>, input: array<Word>, from: nat, out: array<Word>, to: nat, r: nat, ghost b: Block)
    requires r > 0 && tmp.Length == 16 && tmp != input && tmp != out
    requires from + 32 * r <= input.Length && to + 32 * r <= out.Length
    requires input != out || from + 32 * r <= to || to + 32 * r <= from
    requires b == input[from..from + 32 * r]
    modifies tmp, out
    ensures out[..] == Overwrite(old(out[..]), to, ScryptSpec.BlockMix(b, r))
  {
    hide Mixed, Evens, Odds, Running, Salsa, ScryptSpec.BlockMix;
    ghost var before := out[..];
    BlockCopy(tmp, 0, input, from + (2 * r - 1) * 16, 16);
    StartMixing(before, to, b, r);
    assert tmp[..] == At(b, 2 * r - 1);
    for n := 0 to r
      invariant tmp[..] == Running(b, r, 2 * n)
      invariant input[from..from + 32 * r] == b
      invariant Mixed(before, out[..], to, b, r, n)
    {
      hide Overwrite;
      MixedStep(before, out[..], to, b, r, n);
      MixPair(tmp, input, from, out, to, r, b, n);
    }
    MixedAll(before, out[..], to, b, r);
  }

  /** One even and one odd block. */
  method MixPair(
    tmp: array<Word>, input: array<Word>, from: nat, out: array<Word>, to: nat, r: nat, ghost b: Block, n: nat)
    requires r > 0 && n < r && tmp.Length == 16 && tmp != input && tmp != out
    requires from + 32 * r <= input.Length && to + 32 * r <= out.Length
    requires input != out || from + 32 * r <= to || to + 32 * r <= from
    requires b == input[from..from + 32 * r] && tmp[..] == Running(b, r, 2 * n)
    modifies tmp, out
    ensures input[from..from + 32 * r] == b && tmp[..] == Running(b, r, 2 * n + 2)
    ensures var even, odd := Running(b, r, 2 * n + 1), Running(b, r, 2 * n + 2);
      out[..] == Overwrite(Overwrite(old(out[..]), to + 16 * n, even), to + 16 * r + 16 * n, odd)
  {
    hide Running, Salsa, Overwrite;
    RunningStep(b, r, 2 * n);
    MixOne(tmp, input, from, out, to, to + 16 * n, r, b, 2 * n);
    RunningStep(b, r, 2 * n + 1);
    MixOne(tmp, input, from, out, to, to + 16 * r + 16 * n, r, b, 2 * n + 1);
  }

  lemma StartMixing(before: Block, to: nat, b: Block, r: nat)
    requires r > 0 && |b| == 32 * r && to + 32 * r <= |before|
    ensures Mixed(before, before, to, b, r, 0) && Running(b, r, 0) == At(b, 2 * r - 1)
  {
  }

  /** Salsa on the i-th block, written to a part of the output that does not touch the input. */
  method MixOne(
    tmp: array<Word>, input: array<Word>, from: nat, out: array<Word>, to: nat, at: nat, r: nat, ghost b: Block,
    i: nat)
    requires r > 0 && i < 2 * r && tmp.Length == 16 && tmp != input && tmp != out
    requires from + 32 * r <= input.Length && to <= at && at + 16 <= to + 32 * r <= out.Length
    requires input != out || from + 32 * r <= to || to + 32 * r <= from
    requires b == input[from..from + 32 * r]
    modifies tmp, out
    ensures tmp[..] == Salsa(Xor(old(tmp[..]), At(b, i)))
    ensures out[..] == Overwrite(old(out[..]), at, tmp[..])
    ensures input[from..from + 32 * r] == b
  {
    hide Salsa, Xor, Overwrite;
    ghost var before := input[..];
    assert input[from + 16 * i..from + 16 * i + 16] == At(b, i) by {
      SliceOfSlice(before, from, 32 * r, 16 * i, 16 * i + 16);
      assert input[from + 16 * i..from + 16 * i + 16] == before[from + 16 * i..from + 16 * i + 16];
      assert b == before[from..from + 32 * r];
    }
    SalsaXor(tmp, input, from + 16 * i, out, at);
    if input == out {
      OverwriteElsewhere(before, at, tmp[..], from, from + 32 * r);
      assert input[..][from..from + 32 * r] == before[from..from + 32 * r];
    }
  }
}
