/** The checksum of bech32: a linear code over groups of five bits. */
module Bech32Checksum {
  type Byte = bv8

  type Word = bv32

  /** The state of the checksum always fits in 30 bits. */
  ghost predicate IsState(c: Word) { c < 0x4000_0000 }

  function Xor(a: Word, b: Word): Word { a ^ b }

  function Generator(i: nat): Word
    requires i < 5
  {
    if i == 0 then 0x3b6a57b2 else if i == 1 then 0x26508e6d else if i == 2 then 0x1ea119fa
    else if i == 3 then 0x3d4233dd else 0x2a1462b3
  }

  function Bit(b: Word, i: nat): bool
    requires i < 5
  {
    if i == 0 then b & 1 == 1 else if i == 1 then (b >> 1) & 1 == 1 else if i == 2 then (b >> 2) & 1 == 1
    else if i == 3 then (b >> 3) & 1 == 1 else (b >> 4) & 1 == 1
  }

  function Tap(b: Word, i: nat): Word
    requires i < 5
  {
    if Bit(b, i) then Generator(i) else 0
  }

  /** The generators that the first n bits of b select, on top of c. */
  function Feedback(c: Word, b: Word, n: nat): Word
    requires n <= 5
  {
    if n == 0 then c else Xor(Feedback(c, b, n - 1), Tap(b, n - 1))
  }

  function Top(c: Word): Word { c >> 25 }

  function Shifted(c: Word): Word { (c & 0x1ffffff) << 5 }

  /** One step of the polynomial remainder. */
  function Step(c: Word, v: Word): Word {
    Feedback(Xor(Shifted(c), v), Top(c), 5)
  }

  lemma StepUnfolds(c: Word, v: Word)
    ensures var b := Top(c);
      Step(c, v) == Xor(Xor(Xor(Xor(Xor(Xor(Shifted(c), v), Tap(b, 0)), Tap(b, 1)), Tap(b, 2)), Tap(b, 3)), Tap(b, 4))
  {
    hide Xor, Tap, Shifted;
    var b, c0 := Top(c), Xor(Shifted(c), v);
    assert Feedback(c0, b, 1) == Xor(c0, Tap(b, 0));
    assert Feedback(c0, b, 2) == Xor(Feedback(c0, b, 1), Tap(b, 1));
    assert Feedback(c0, b, 3) == Xor(Feedback(c0, b, 2), Tap(b, 2));
    assert Feedback(c0, b, 4) == Xor(Feedback(c0, b, 3), Tap(b, 3));
  }

  lemma TapIsLinear(a: Word, b: Word, i: nat)
    requires i < 5
    ensures Tap(Xor(a, b), i) == Xor(Tap(a, i), Tap(b, i))
  {
    hide Bit, Xor, Generator;
    BitIsLinear(a, b, i);
    XorZero(Generator(i));
    XorZero(0);
    XorIsZero(Generator(i), Generator(i));
    XorCommutes(Generator(i), 0);
  }

  lemma BitIsLinear(a: Word, b: Word, i: nat)
    requires i < 5
    ensures Bit(Xor(a, b), i) <==> Bit(a, i) != Bit(b, i)
  {
  }

  lemma XorSwaps(a: Word, b: Word, c: Word, d: Word)
    ensures Xor(Xor(a, b), Xor(c, d)) == Xor(Xor(a, c), Xor(b, d))
  {
    hide Xor;
    XorGroups(a, b, Xor(c, d));
    XorGroups(b, c, d);
    XorGroups(c, b, d);
    XorGroups(a, c, Xor(b, d));
    XorCommutes(b, c);
  }

  lemma XorGroups(a: Word, b: Word, c: Word)
    ensures Xor(Xor(a, b), c) == Xor(a, Xor(b, c))
  {
  }

  lemma XorCommutes(a: Word, b: Word)
    ensures Xor(a, b) == Xor(b, a)
  {
  }

  lemma {:induction false} FeedbackIsLinear(c: Word, d: Word, a: Word, b: Word, n: nat)
    requires n <= 5
    ensures Feedback(Xor(c, d), Xor(a, b), n) == Xor(Feedback(c, a, n), Feedback(d, b, n))
  {
    hide Xor, Tap;
    if n > 0 {
      FeedbackIsLinear(c, d, a, b, n - 1);
      TapIsLinear(a, b, n - 1);
      XorSwaps(Feedback(c, a, n - 1), Feedback(d, b, n - 1), Tap(a, n - 1), Tap(b, n - 1));
    }
  }

  lemma PartsAreLinear(a: Word, b: Word)
    ensures Top(Xor(a, b)) == Xor(Top(a), Top(b))
    ensures Shifted(Xor(a, b)) == Xor(Shifted(a), Shifted(b))
  {
  }

  /** The step of a difference is the difference of the steps. */
  lemma StepIsLinear(a: Word, b: Word, v: Word, w: Word)
    ensures Step(Xor(a, b), Xor(v, w)) == Xor(Step(a, v), Step(b, w))
  {
    hide Xor, Feedback, Top, Shifted;
    PartsAreLinear(a, b);
    XorSwaps(Shifted(a), Shifted(b), v, w);
    FeedbackIsLinear(Xor(Shifted(a), v), Xor(Shifted(b), w), Top(a), Top(b), 5);
  }

  lemma TapIsState(b: Word, i: nat)
    requires i < 5
    ensures IsState(Tap(b, i))
  {
    hide Bit;
  }

  lemma PartsAreState(c: Word, v: Word)
    requires v < 256
    ensures IsState(Shifted(c)) && IsState(v)
  {
  }

  lemma StepKeepsState(c: Word, v: Word)
    requires IsState(c) && v < 256
    ensures IsState(Step(c, v))
  {
    hide Step, Tap, Xor, IsState, Shifted, Top;
    StepUnfolds(c, v);
    PartsAreState(c, v);
    var b, x := Top(c), Xor(Shifted(c), v);
    XorKeepsState(Shifted(c), v);
    for i := 0 to 5
      invariant IsState(Feedback(x, b, i))
    {
      TapIsState(b, i);
      XorKeepsState(Feedback(x, b, i), Tap(b, i));
    }
    assert Step(c, v) == Feedback(x, b, 5) by { StepIsFeedback(c, v); }
  }

  lemma StepIsFeedback(c: Word, v: Word)
    ensures Step(c, v) == Feedback(Xor(Shifted(c), v), Top(c), 5)
  {
    hide Xor, Shifted, Top, Feedback;
  }

  /** The five lowest bits. */
  function Low(c: Word): Word { c & 31 }

  lemma LowOfXor(a: Word, b: Word)
    ensures Low(Xor(a, b)) == Xor(Low(a), Low(b))
  {
  }

  lemma LowOfShifted(c: Word)
    ensures Low(Xor(Shifted(c), 0)) == 0
  {
  }

  /** The generators differ in their five lowest bits so that no choice of them cancels there. */
  function LowOfTaps(b0: bool, b1: bool, b2: bool, b3: bool, b4: bool): Word {
    Xor(Xor(Xor(Xor(Xor(0, if b0 then 18 else 0), if b1 then 13 else 0), if b2 then 26 else 0),
      if b3 then 29 else 0), if b4 then 19 else 0)
  }

  lemma LowOfTap(b: Word)
    ensures Low(Tap(b, 0)) == if Bit(b, 0) then 18 else 0
    ensures Low(Tap(b, 1)) == if Bit(b, 1) then 13 else 0
    ensures Low(Tap(b, 2)) == if Bit(b, 2) then 26 else 0
    ensures Low(Tap(b, 3)) == if Bit(b, 3) then 29 else 0
    ensures Low(Tap(b, 4)) == if Bit(b, 4) then 19 else 0
  {
    hide Bit;
  }

  lemma LowTapsCancelNever(b0: bool, b1: bool, b2: bool, b3: bool, b4: bool)
    requires LowOfTaps(b0, b1, b2, b3, b4) == 0
    ensures !b0 && !b1 && !b2 && !b3 && !b4
  {
  }

  lemma NoBitsInTop(c: Word)
    requires IsState(c)
    requires !Bit(Top(c), 0) && !Bit(Top(c), 1) && !Bit(Top(c), 2) && !Bit(Top(c), 3) && !Bit(Top(c), 4)
    ensures c < 0x200_0000
  {
  }

  lemma LowOfStep(c: Word)
    ensures var b := Top(c);
      Low(Step(c, 0)) == LowOfTaps(Bit(b, 0), Bit(b, 1), Bit(b, 2), Bit(b, 3), Bit(b, 4))
  {
    hide Step, Tap, Xor, Low, Shifted, Top, Bit;
    StepUnfolds(c, 0);
    var b, x := Top(c), Xor(Shifted(c), 0);
    LowOfShifted(c);
    LowOfTap(b);
    LowOfXor(x, Tap(b, 0));
    LowOfXor(Xor(x, Tap(b, 0)), Tap(b, 1));
    LowOfXor(Xor(Xor(x, Tap(b, 0)), Tap(b, 1)), Tap(b, 2));
    LowOfXor(Xor(Xor(Xor(x, Tap(b, 0)), Tap(b, 1)), Tap(b, 2)), Tap(b, 3));
    LowOfXor(Xor(Xor(Xor(Xor(x, Tap(b, 0)), Tap(b, 1)), Tap(b, 2)), Tap(b, 3)), Tap(b, 4));
  }

  lemma StepIsInjective(c: Word)
    requires IsState(c) && Step(c, 0) == 0
    ensures c == 0
  {
    hide Step, LowOfTaps, Low, Bit, Append;
    var b := Top(c);
    LowOfStep(c);
    assert Low(0) == 0 by { NothingLow(); }
    LowTapsCancelNever(Bit(b, 0), Bit(b, 1), Bit(b, 2), Bit(b, 3), Bit(b, 4));
    NoBitsInTop(c);
    StepShifts(c, 0);
    assert Append(0, 0) == 0 by { NothingAppended(); }
    AppendIsInjective(c, 0, 0, 0);
  }

  lemma NothingLow()
    ensures Low(0) == 0
  {
  }

  lemma NothingAppended()
    ensures Append(0, 0) == 0
  {
  }

  lemma StepShifts(c: Word, v: Word)
    requires c < 0x200_0000
    ensures Step(c, v) == Append(c, v)
  {
    hide Step, Tap, Xor;
    StepUnfolds(c, v);
    NoTaps(c);
    XorZero(Append(c, v));
  }

  lemma XorZero(c: Word)
    ensures Xor(c, 0) == c
  {
  }

  lemma NoTaps(c: Word)
    requires c < 0x200_0000
    ensures forall i: nat :: i < 5 ==> Tap(Top(c), i) == 0
  {
    assert Top(c) == 0;
  }

  method PolymodStep(c: Word, v: Word) returns (c': Word)
    ensures c' == Step(c, v)
  {
    hide Bit, Xor, Generator, Top, Shifted;
    var b := Top(c);
    c' := Xor(Shifted(c), v);
    ghost var c0 := c';
    for i := 0 to 5
      invariant c' == Feedback(c0, b, i)
    {
      TapAdds(c', b, i);
      if Bit(b, i) {
        c' := Xor(c', Generator(i));
      }
    }
  }

  lemma TapAdds(c: Word, b: Word, i: nat)
    requires i < 5
    ensures Xor(c, Tap(b, i)) == if Bit(b, i) then Xor(c, Generator(i)) else c
  {
    hide Bit, Generator;
  }

  /** The state after all of s. */
  function Fold(c: Word, s: seq<Word>): Word {
    if s == [] then c else Step(Fold(c, s[..|s| - 1]), s[|s| - 1])
  }

  ghost predicate AreBytes(s: seq<Word>) {
    forall i :: 0 <= i < |s| ==> s[i] < 256
  }

  ghost predicate AreGroups(s: seq<Word>) {
    forall i :: 0 <= i < |s| ==> s[i] < 32
  }

  lemma {:induction false} FoldConcatenates(c: Word, s: seq<Word>, t: seq<Word>)
    ensures Fold(c, s + t) == Fold(Fold(c, s), t)
  {
    hide Step;
    if t == [] {
      assert s + t == s;
    } else {
      assert (s + t)[..|s + t| - 1] == s + t[..|t| - 1];
      FoldConcatenates(c, s, t[..|t| - 1]);
    }
  }

  lemma {:induction false} FoldKeepsState(c: Word, s: seq<Word>)
    requires IsState(c) && AreBytes(s)
    ensures IsState(Fold(c, s))
  {
    hide Step, IsState;
    if s != [] {
      FoldKeepsState(c, s[..|s| - 1]);
      StepKeepsState(Fold(c, s[..|s| - 1]), s[|s| - 1]);
    }
  }

  /** Different states stay different, whatever follows. */
  lemma {:induction false} DifferenceSurvives(a: Word, b: Word, s: seq<Word>)
    requires IsState(a) && IsState(b) && AreBytes(s) && a != b
    ensures Fold(a, s) != Fold(b, s)
  {
    hide Step, Xor, IsState;
    if s != [] {
      var s', v := s[..|s| - 1], s[|s| - 1];
      var a', b' := Fold(a, s'), Fold(b, s');
      DifferenceSurvives(a, b, s');
      FoldKeepsState(a, s');
      FoldKeepsState(b, s');
      StepIsLinear(a', b', v, v);
      XorIsZero(v, v);
      XorIsZero(a', b');
      XorIsZero(Step(a', v), Step(b', v));
      XorKeepsState(a', b');
      if Step(a', v) == Step(b', v) {
        StepIsInjective(Xor(a', b'));
      }
    }
  }

  lemma XorIsZero(a: Word, b: Word)
    ensures Xor(a, b) == 0 <==> a == b
  {
  }

  lemma XorKeepsState(a: Word, b: Word)
    requires IsState(a) && IsState(b)
    ensures IsState(Xor(a, b))
  {
  }

  /** At most six groups side by side in one word. */
  function Pack(s: seq<Word>): Word {
    if s == [] then 0 else Append(Pack(s[..|s| - 1]), s[|s| - 1])
  }

  function Append(p: Word, v: Word): Word { Xor(Shifted(p), v) }

  ghost predicate IsBelow(p: Word, n: nat)
    requires n <= 6
  {
    if n == 0 then p == 0 else if n == 1 then p < 0x20 else if n == 2 then p < 0x400 else if n == 3 then p < 0x8000
    else if n == 4 then p < 0x10_0000 else if n == 5 then p < 0x200_0000 else p < 0x4000_0000
  }

  lemma AppendGrows(p: Word, v: Word, n: nat)
    requires n < 6 && IsBelow(p, n) && v < 32
    ensures IsBelow(Append(p, v), n + 1) && p < 0x200_0000
  {
  }

  lemma AppendIsInjective(p: Word, v: Word, q: Word, w: Word)
    requires p < 0x200_0000 && q < 0x200_0000 && v < 32 && w < 32 && Append(p, v) == Append(q, w)
    ensures p == q && v == w
  {
  }

  lemma AppendIsLinear(p: Word, q: Word, v: Word, w: Word)
    requires p < 0x200_0000 && q < 0x200_0000
    ensures Step(Xor(p, q), Xor(v, w)) == Xor(Append(p, v), Append(q, w))
  {
    hide Step, Xor, Shifted;
    assert Xor(p, q) < 0x200_0000 by { XorIsBelow(p, q); }
    StepShifts(Xor(p, q), Xor(v, w));
    PartsAreLinear(p, q);
    XorSwaps(Shifted(p), Shifted(q), v, w);
  }

  lemma XorIsBelow(p: Word, q: Word)
    requires p < 0x200_0000 && q < 0x200_0000
    ensures Xor(p, q) < 0x200_0000
  {
  }

  lemma {:induction false} PackIsBelow(s: seq<Word>)
    requires |s| <= 6 && AreGroups(s)
    ensures IsBelow(Pack(s), |s|)
  {
    hide Append, IsBelow;
    if s != [] {
      PackIsBelow(s[..|s| - 1]);
      AppendGrows(Pack(s[..|s| - 1]), s[|s| - 1], |s| - 1);
    } else {
      assert IsBelow(0, 0) by { NothingIsBelow(); }
    }
  }

  lemma NothingIsBelow()
    ensures IsBelow(0, 0)
  {
  }

  lemma {:induction false} PackIsInjective(s: seq<Word>, t: seq<Word>)
    requires |s| == |t| <= 6 && AreGroups(s) && AreGroups(t) && Pack(s) == Pack(t)
    ensures s == t
  {
    hide Append, IsBelow;
    if s != [] {
      var s', t' := s[..|s| - 1], t[..|t| - 1];
      PackIsBelow(s');
      PackIsBelow(t');
      AppendGrows(Pack(s'), s[|s| - 1], |s'|);
      AppendGrows(Pack(t'), t[|s| - 1], |s'|);
      AppendIsInjective(Pack(s'), s[|s| - 1], Pack(t'), t[|s| - 1]);
      PackIsInjective(s', t');
      assert s == s' + [s[|s| - 1]] && t == t' + [t[|s| - 1]];
    }
  }

  /** Six groups are too few for the feedback of one to be cancelled by another. */
  lemma {:induction false} WindowIsPacked(c: Word, s: seq<Word>, t: seq<Word>)
    requires |s| == |t| <= 6 && AreGroups(s) && AreGroups(t)
    ensures Xor(Fold(c, s), Fold(c, t)) == Xor(Pack(s), Pack(t))
  {
    hide Append, IsBelow, Xor, Step;
    if s == [] {
      XorIsZero(c, c);
      XorIsZero(0, 0);
    } else {
      var s', t' := s[..|s| - 1], t[..|t| - 1];
      WindowIsPacked(c, s', t');
      PackIsBelow(s');
      PackIsBelow(t');
      AppendGrows(Pack(s'), s[|s| - 1], |s'|);
      AppendGrows(Pack(t'), t[|s| - 1], |s'|);
      AppendIsLinear(Pack(s'), Pack(t'), s[|s| - 1], t[|s| - 1]);
      StepIsLinear(Fold(c, s'), Fold(c, t'), s[|s| - 1], t[|s| - 1]);
    }
  }

  /** Any change within six neighbouring groups changes the remainder. */
  lemma BurstIsDetected(c: Word, before: seq<Word>, s: seq<Word>, t: seq<Word>, after: seq<Word>)
    requires IsState(c) && AreBytes(before) && AreBytes(after)
    requires |s| == |t| <= 6 && AreGroups(s) && AreGroups(t) && s != t
    ensures Fold(c, before + s + after) != Fold(c, before + t + after)
  {
    hide Xor, Step, IsState;
    var d := Fold(c, before);
    FoldKeepsState(c, before);
    FoldConcatenates(c, before, s);
    FoldConcatenates(c, before, t);
    FoldConcatenates(c, before + s, after);
    FoldConcatenates(c, before + t, after);
    WindowIsPacked(d, s, t);
    FoldKeepsState(d, s);
    FoldKeepsState(d, t);
    XorIsZero(Fold(d, s), Fold(d, t));
    XorIsZero(Pack(s), Pack(t));
    if Pack(s) == Pack(t) {
      PackIsInjective(s, t);
    }
    DifferenceSurvives(Fold(d, s), Fold(d, t), after);
  }

  const ZEROS: seq<Word> := [0, 0, 0, 0, 0, 0]

  /** The six groups of a word, the highest first. */
  function Groups(p: Word): (s: seq<Word>)
    ensures |s| == 6 && AreGroups(s)
  {
    [(p >> 25) & 31, (p >> 20) & 31, (p >> 15) & 31, (p >> 10) & 31, (p >> 5) & 31, p & 31]
  }

  lemma PackOfSix(s: seq<Word>)
    requires |s| == 6
    ensures Pack(s) == Append(Append(Append(Append(Append(Append(0, s[0]), s[1]), s[2]), s[3]), s[4]), s[5])
  {
    hide Append;
    assert s[..5][..4] == s[..4] && s[..4][..3] == s[..3] && s[..3][..2] == s[..2] && s[..2][..1] == s[..1];
    assert s[..1][..0] == [];
    assert Pack(s[..1]) == Append(Pack(s[..0]), s[0]);
    assert Pack(s[..2]) == Append(Pack(s[..1]), s[1]);
    assert Pack(s[..3]) == Append(Pack(s[..2]), s[2]);
    assert Pack(s[..4]) == Append(Pack(s[..3]), s[3]);
    assert Pack(s[..5]) == Append(Pack(s[..4]), s[4]);
  }

  lemma GroupsArePacked(p: Word)
    requires IsState(p)
    ensures Pack(Groups(p)) == p && Pack(ZEROS) == 0
  {
    PackOfSix(Groups(p));
    PackOfSix(ZEROS);
  }

  /** Appending the groups of the remainder, with its last bit flipped, makes the remainder one. */
  lemma ChecksumIsRight(c: Word)
    requires IsState(c)
    ensures var p := Fold(c, ZEROS);
      IsState(p) && Fold(c, Groups(Xor(p, 1))) == 1
  {
    hide Step, Groups;
    var p := Fold(c, ZEROS);
    var q := Xor(p, 1);
    FoldKeepsState(c, ZEROS);
    GroupsArePacked(q);
    WindowIsPacked(c, Groups(q), ZEROS);
    XorCancels(Fold(c, Groups(q)), p, q);
  }

  lemma XorCancels(a: Word, p: Word, q: Word)
    requires Xor(a, p) == Xor(q, 0) && q == Xor(p, 1)
    ensures a == 1
  {
  }
}
