/** The code of BIP 173, and two of its test vectors. */
module Bech32Vectors {
  import opened Bech32Checksum
  import opened Bech32

  /** Twice an element of the field of 32 elements in which a^5 is a^3 + 1. */
  function Double(g: Word): (d: Word)
    requires g < 32
    ensures d < 32
  {
    if g & 16 == 16 then ((g << 1) & 31) ^ 9 else g << 1
  }

  /** The i-th power of two times g. */
  function Doubled(g: Word, i: nat): (d: Word)
    requires g < 32
    ensures d < 32
  {
    if i == 0 then g else Double(Doubled(g, i - 1))
  }

  /** The coefficients of the generator polynomial below the leading one, the highest first. */
  const COEFFICIENTS: seq<Word> := [29, 22, 20, 21, 29, 18]

  lemma FirstGenerator()
    ensures Groups(Generator(0)) == COEFFICIENTS
  {
  }

  lemma NextGenerator(i: nat, k: nat)
    requires i < 4 && k < 6
    ensures Groups(Generator(i + 1))[k] == Double(Groups(Generator(i))[k])
  {
  }

  /** Each generator is a power of two times the generator polynomial. */
  lemma {:induction false} GeneratorIsMultiple(i: nat, k: nat)
    requires i < 5 && k < 6
    ensures Groups(Generator(i))[k] == Doubled(COEFFICIENTS[k], i)
  {
    hide Generator, Groups, Double;
    if i == 0 {
      FirstGenerator();
    } else {
      GeneratorIsMultiple(i - 1, k);
      NextGenerator(i - 1, k);
    }
  }

  /** The product in the field: the powers of two that b selects, times g. */
  function Times(b: Word, g: Word, n: nat): Word
    requires g < 32 && n <= 5
  {
    if n == 0 then 0 else Xor(Times(b, g, n - 1), if Bit(b, n - 1) then Doubled(g, n - 1) else 0)
  }

  lemma GroupOfXor(a: Word, b: Word, k: nat)
    requires k < 6
    ensures Groups(Xor(a, b))[k] == Xor(Groups(a)[k], Groups(b)[k])
  {
    GroupAt(Xor(a, b), k);
    GroupAt(a, k);
    GroupAt(b, k);
    hide Groups, Group, Xor;
    PartOfXor(a, b, k);
  }

  lemma PartOfXor(a: Word, b: Word, k: nat)
    requires k < 6
    ensures Group(Xor(a, b), k) == Xor(Group(a, k), Group(b, k))
  {
    if k == 0 {
    } else if k == 1 {
    } else if k == 2 {
    } else if k == 3 {
    } else if k == 4 {
    } else {
    }
  }

  lemma {:induction false} FeedbackIsTimes(c: Word, b: Word, n: nat, k: nat)
    requires n <= 5 && k < 6
    ensures Groups(Feedback(c, b, n))[k] == Xor(Groups(c)[k], Times(b, COEFFICIENTS[k], n))
  {
    hide Xor, Bit, Generator, Groups, Doubled;
    if n == 0 {
      XorZero(Groups(c)[k]);
    } else {
      FeedbackIsTimes(c, b, n - 1, k);
      GroupOfXor(Feedback(c, b, n - 1), Tap(b, n - 1), k);
      GroupOfTap(b, n - 1, k);
      XorGroups(
        Groups(c)[k], Times(b, COEFFICIENTS[k], n - 1), if Bit(b, n - 1) then Doubled(COEFFICIENTS[k], n - 1) else 0);
    }
  }

  lemma GroupOfTap(b: Word, i: nat, k: nat)
    requires i < 5 && k < 6
    ensures Groups(Tap(b, i))[k] == if Bit(b, i) then Doubled(COEFFICIENTS[k], i) else 0
  {
    hide Bit, Doubled, Generator;
    GeneratorIsMultiple(i, k);
    if !Bit(b, i) {
      assert Groups(0)[k] == 0;
    }
  }

  lemma GroupOfShifted(c: Word, v: Word, k: nat)
    requires v < 32 && k < 6
    ensures Groups(Xor(Shifted(c), v))[k] == if k < 5 then Groups(c)[k + 1] else v
  {
  }

  /**
   * A step is a step of the division by the generator polynomial: the groups move up by one, the next one
   * comes in, and the leading one times the polynomial is taken off.
   */
  lemma StepIsDivision(c: Word, v: Word, k: nat)
    requires IsState(c) && v < 32 && k < 6
    ensures Groups(Step(c, v))[k] ==
            Xor(if k < 5 then Groups(c)[k + 1] else v, Times(Groups(c)[0], COEFFICIENTS[k], 5))
  {
    hide Xor, Feedback, Groups, Shifted, Top, Times;
    LeadingGroup(c);
    FeedbackIsTimes(Xor(Shifted(c), v), Top(c), 5, k);
    GroupOfShifted(c, v, k);
  }

  lemma LeadingGroup(c: Word)
    requires IsState(c)
    ensures Groups(c)[0] == Top(c)
  {
  }

  function Sum(a: Word, b: Word, c: Word): Word { Xor(a, b) ^ c }

  lemma SumIsXor(a: Word, b: Word, c: Word)
    ensures Sum(a, b, c) == Xor(Xor(a, b), c)
  {
  }

  /** A step in one expression. */
  function Unrolled(c: Word, v: Word): Word {
    var x := Sum(Shifted(c), v, if (c >> 25) & 1 == 1 then 0x3b6a57b2 else 0);
    var y := Sum(x, if (c >> 26) & 1 == 1 then 0x26508e6d else 0, if (c >> 27) & 1 == 1 then 0x1ea119fa else 0);
    Sum(y, if (c >> 28) & 1 == 1 then 0x3d4233dd else 0, if (c >> 29) & 1 == 1 then 0x2a1462b3 else 0)
  }

  lemma TapsOfTop(c: Word)
    ensures Tap(Top(c), 0) == if (c >> 25) & 1 == 1 then 0x3b6a57b2 else 0
    ensures Tap(Top(c), 1) == if (c >> 26) & 1 == 1 then 0x26508e6d else 0
    ensures Tap(Top(c), 2) == if (c >> 27) & 1 == 1 then 0x1ea119fa else 0
    ensures Tap(Top(c), 3) == if (c >> 28) & 1 == 1 then 0x3d4233dd else 0
    ensures Tap(Top(c), 4) == if (c >> 29) & 1 == 1 then 0x2a1462b3 else 0
  {
    assert Bit(Top(c), 0) <==> (c >> 25) & 1 == 1;
    assert Bit(Top(c), 1) <==> (c >> 26) & 1 == 1;
    assert Bit(Top(c), 2) <==> (c >> 27) & 1 == 1;
    assert Bit(Top(c), 3) <==> (c >> 28) & 1 == 1;
    assert Bit(Top(c), 4) <==> (c >> 29) & 1 == 1;
    hide Bit, Top;
  }

  lemma UnrolledIsStep(c: Word, v: Word)
    ensures Unrolled(c, v) == Step(c, v)
  {
    hide Step, Tap, Top, Xor, Shifted, Sum;
    var b := Top(c);
    StepUnfolds(c, v);
    TapsOfTop(c);
    var x := Sum(Shifted(c), v, Tap(b, 0));
    var y := Sum(x, Tap(b, 1), Tap(b, 2));
    SumIsXor(Shifted(c), v, Tap(b, 0));
    SumIsXor(x, Tap(b, 1), Tap(b, 2));
    SumIsXor(y, Tap(b, 3), Tap(b, 4));
  }

  /** t lists the states on the way through s. */
  lemma {:induction false} FoldTraced(s: seq<Word>, t: seq<Word>)
    requires |t| == |s| + 1 && forall i :: 0 <= i < |s| ==> Unrolled(t[i], s[i]) == t[i + 1]
    ensures Fold(t[0], s) == t[|s|]
  {
    hide Step, Unrolled;
    if s != [] {
      var n := |s| - 1;
      FoldTraced(s[..n], t[..|s|]);
      UnrolledIsStep(t[n], s[n]);
    }
  }

  /** The octets of "a12uel5l". */
  const SHORT: Text := [0x61, 0x31, 0x32, 0x75, 0x65, 0x6c, 0x35, 0x6c]

  const LONG_HRP: Text := [0x61, 0x62, 0x63, 0x64, 0x65, 0x66]

  const LONG_DATA: Text :=
    [0x71, 0x70, 0x7a, 0x72, 0x79, 0x39, 0x78, 0x38, 0x67, 0x66, 0x32, 0x74, 0x76, 0x64, 0x77, 0x30,
     0x73, 0x33, 0x6a, 0x6e, 0x35, 0x34, 0x6b, 0x68, 0x63, 0x65, 0x36, 0x6d, 0x75, 0x61, 0x37, 0x6c]

  const LONG_END: Text := [0x6d, 0x71, 0x71, 0x71, 0x78, 0x77]

  /** The octets of "abcdef1qpzry9x8gf2tvdw0s3jn54khce6mua7lmqqqxw". */
  const LONG: Text := LONG_HRP + [0x31] + (LONG_DATA + LONG_END)

  lemma ShortSteps1()
    ensures Unrolled(1, 3) == 0x00000023 && Unrolled(0x00000023, 0) == 0x00000460
    ensures Unrolled(0x00000460, 1) == 0x00008c01 && Unrolled(0x00008c01, 10) == 0x0011802a
    ensures Unrolled(0x0011802a, 28) == 0x0230055c && Unrolled(0x0230055c, 25) == 0x3d6afc2b
    ensures Unrolled(0x3d6afc2b, 31) == 0x02f84386 && Unrolled(0x02f84386, 20) == 0x24622766
    ensures Unrolled(0x24622766, 31) == 1
  {
  }

  lemma ShortPart1()
    ensures Fold(1, [3, 0, 1, 10, 28, 25, 31, 20, 31]) == 1
  {
    hide Fold, Step, Unrolled;
    ShortSteps1();
    FoldTraced(
      [3, 0, 1, 10, 28, 25, 31, 20, 31],
      [0x00000001, 0x00000023, 0x00000460, 0x00008c01, 0x0011802a, 0x0230055c, 0x3d6afc2b,
       0x02f84386, 0x24622766, 0x00000001]);
  }

  lemma LongSteps1()
    ensures Unrolled(1, 3) == 0x00000023 && Unrolled(0x00000023, 3) == 0x00000463
    ensures Unrolled(0x00000463, 3) == 0x00008c63 && Unrolled(0x00008c63, 3) == 0x00118c63
    ensures Unrolled(0x00118c63, 3) == 0x02318c63 && Unrolled(0x02318c63, 3) == 0x3d5bdbd1
    ensures Unrolled(0x3d5bdbd1, 0) == 0x04dcbcd9 && Unrolled(0x04dcbcd9, 1) == 0x3dc7154c
    ensures Unrolled(0x3dc7154c, 2) == 0x17456f7b && Unrolled(0x17456f7b, 3) == 0x08d50561
    ensures Unrolled(0x08d50561, 4) == 0x0401b5de && Unrolled(0x0401b5de, 5) == 0x266635a8
    ensures Unrolled(0x266635a8, 6) == 0x3be80e6a
  {
  }

  lemma LongPart1()
    ensures Fold(1, [3, 3, 3, 3, 3, 3, 0, 1, 2, 3, 4, 5, 6]) == 0x3be80e6a
  {
    hide Fold, Step, Unrolled;
    LongSteps1();
    FoldTraced(
      [3, 3, 3, 3, 3, 3, 0, 1, 2, 3, 4, 5, 6],
      [0x00000001, 0x00000023, 0x00000463, 0x00008c63, 0x00118c63, 0x02318c63, 0x3d5bdbd1,
       0x04dcbcd9, 0x3dc7154c, 0x17456f7b, 0x08d50561, 0x0401b5de, 0x266635a8, 0x3be80e6a]);
  }

  lemma LongSteps2()
    ensures Unrolled(0x3be80e6a, 0) == 0x0f9cd266 && Unrolled(0x0f9cd266, 1) == 0x30018ce4
    ensures Unrolled(0x30018ce4, 2) == 0x1767cdec && Unrolled(0x1767cdec, 3) == 0x0c815781
    ensures Unrolled(0x0c815781, 4) == 0x28db67b3 && Unrolled(0x28db67b3, 5) == 0x2fd98d2c
    ensures Unrolled(0x2fd98d2c, 6) == 0x12be0710 && Unrolled(0x12be0710, 7) == 0x11e88668
    ensures Unrolled(0x11e88668, 8) == 0x0052fed5 && Unrolled(0x0052fed5, 9) == 0x0a5fdaa9
    ensures Unrolled(0x0a5fdaa9, 10) == 0x2e301b62 && Unrolled(0x2e301b62, 11) == 0x2f8ccedd
    ensures Unrolled(0x2f8ccedd, 12) == 0x1816793a && Unrolled(0x1816793a, 13) == 0x212c0d6a
    ensures Unrolled(0x212c0d6a, 14) == 0x0f95cffd && Unrolled(0x0f95cffd, 15) == 0x31223f8a
  {
  }

  lemma LongPart2()
    ensures Fold(0x3be80e6a, [0, 1, 2, 3, 4, 5, 6, 7, 8, 9, 10, 11, 12, 13, 14, 15]) == 0x31223f8a
  {
    hide Fold, Step, Unrolled;
    LongSteps2();
    FoldTraced(
      [0, 1, 2, 3, 4, 5, 6, 7, 8, 9, 10, 11, 12, 13, 14, 15],
      [0x3be80e6a, 0x0f9cd266, 0x30018ce4, 0x1767cdec, 0x0c815781, 0x28db67b3, 0x2fd98d2c,
       0x12be0710, 0x11e88668, 0x0052fed5, 0x0a5fdaa9, 0x2e301b62, 0x2f8ccedd, 0x1816793a,
       0x212c0d6a, 0x0f95cffd, 0x31223f8a]);
  }

  lemma LongSteps3()
    ensures Unrolled(0x31223f8a, 16) == 0x3311a03e && Unrolled(0x3311a03e, 17) == 0x0e08010d
    ensures Unrolled(0x0e08010d, 18) == 0x029be197 && Unrolled(0x029be197, 19) == 0x28166541
    ensures Unrolled(0x28166541, 20) == 0x3679d37d && Unrolled(0x3679d37d, 21) == 0x0556e704
    ensures Unrolled(0x0556e704, 22) == 0x0c8c6efb && Unrolled(0x0c8c6efb, 23) == 0x297c48e0
    ensures Unrolled(0x297c48e0, 24) == 0x1b3c6751 && Unrolled(0x1b3c6751, 25) == 0x3f0597ac
    ensures Unrolled(0x3f0597ac, 26) == 0x347f64d1 && Unrolled(0x347f64d1, 27) == 0x3eea4538
    ensures Unrolled(0x3eea4538, 28) == 0x09853657 && Unrolled(0x09853657, 29) == 0x2e07d307
    ensures Unrolled(0x2e07d307, 30) == 0x2975c268 && Unrolled(0x2975c268, 31) == 0x1a0d3656
  {
  }

  lemma LongPart3()
    ensures Fold(0x31223f8a, [16, 17, 18, 19, 20, 21, 22, 23, 24, 25, 26, 27, 28, 29, 30, 31]) == 0x1a0d3656
  {
    hide Fold, Step, Unrolled;
    LongSteps3();
    FoldTraced(
      [16, 17, 18, 19, 20, 21, 22, 23, 24, 25, 26, 27, 28, 29, 30, 31],
      [0x31223f8a, 0x3311a03e, 0x0e08010d, 0x029be197, 0x28166541, 0x3679d37d, 0x0556e704,
       0x0c8c6efb, 0x297c48e0, 0x1b3c6751, 0x3f0597ac, 0x347f64d1, 0x3eea4538, 0x09853657,
       0x2e07d307, 0x2975c268, 0x1a0d3656]);
  }

  lemma LongSteps4()
    ensures Unrolled(0x1a0d3656, 27) == 0x192fb74e && Unrolled(0x192fb74e, 0) == 0x0615c3e7
    ensures Unrolled(0x0615c3e7, 0) == 0x1f82a53f && Unrolled(0x1f82a53f, 0) == 0x0e8d5418
    ensures Unrolled(0x0e8d5418, 6) == 0x12314323 && Unrolled(0x12314323, 14) == 1
  {
  }

  lemma LongPart4()
    ensures Fold(0x1a0d3656, [27, 0, 0, 0, 6, 14]) == 1
  {
    hide Fold, Step, Unrolled;
    LongSteps4();
    FoldTraced(
      [27, 0, 0, 0, 6, 14],
      [0x1a0d3656, 0x192fb74e, 0x0615c3e7, 0x1f82a53f, 0x0e8d5418, 0x12314323, 0x00000001]);
  }

  ghost predicate IsPlain(s: Text) {
    forall i :: 0 <= i < |s| ==> IsPrintable(s[i]) && ToLower(s[i]) == s[i]
  }

  /** A lower-case text that is well formed, spells groups, and has the checksum. */
  lemma LowerIsAccepted(text: Text, hrp: Text, chars: Text, full: seq<Byte>)
    requires 8 <= |text| <= 90 && hrp != [] && |full| >= 6 && text == hrp + [SEPARATOR] + chars
    requires IsPlain(hrp) && Spells(full, chars) && HasChecksum(hrp, full)
    ensures Accepts(text, hrp, full[..|full| - 6])
  {
    hide HasChecksum, Symbol;
    SpelledText(full, chars);
    assert text == Lower(text);
    assert text[|hrp| + 1..] == chars;
  }

  const SHORT_HRP: Text := [0x61]

  const SHORT_FULL: seq<Byte> := [10, 28, 25, 31, 20, 31]

  lemma ShortParts()
    ensures SHORT == SHORT_HRP + [SEPARATOR] + SHORT[2..] && IsPlain(SHORT_HRP)
    ensures Spells(SHORT_FULL, SHORT[2..])
  {
  }

  lemma ShortExpands()
    ensures Expanded(SHORT_HRP) + Wide(SHORT_FULL) == [3, 0, 1, 10, 28, 25, 31, 20, 31]
  {
  }

  /** A part of one character and no data. */
  lemma ShortIsAccepted()
    ensures Accepts(SHORT, SHORT_HRP, [])
  {
    hide Fold, Spells, Accepts, Expanded;
    ShortParts();
    ShortExpands();
    ShortPart1();
    LowerIsAccepted(SHORT, SHORT_HRP, SHORT[2..], SHORT_FULL);
  }

  const LONG_SUM: seq<Byte> := [27, 0, 0, 0, 6, 14]

  function All(): (s: seq<Byte>)
    ensures |s| == 32 && forall i :: 0 <= i < 32 ==> s[i] == i as Byte
  {
    seq(32, i requires 0 <= i < 32 => i as Byte)
  }

  /** The characters of all groups, in order, are the character set. */
  lemma AllSpelled()
    ensures Spells(All(), Charset())
  {
    hide Charset, All;
    forall i | 0 <= i < 32 ensures IsGroup(All()[i]) && Symbol(All()[i]) == Charset()[i] {
      SymbolAt(i);
    }
  }

  lemma LongText()
    ensures LONG == LONG_HRP + [SEPARATOR] + (Charset() + LONG_END) && |LONG| == 45
  {
  }

  lemma LongParts()
    ensures IsPlain(LONG_HRP) && Spells(LONG_SUM, LONG_END)
  {
  }

  lemma SpellsBoth(a: seq<Byte>, x: Text, b: seq<Byte>, y: Text)
    requires Spells(a, x) && Spells(b, y)
    ensures Spells(a + b, x + y)
  {
    hide Symbol, IsGroup;
  }

  lemma LongExpands()
    ensures Expanded(LONG_HRP) == [3, 3, 3, 3, 3, 3, 0, 1, 2, 3, 4, 5, 6]
    ensures Wide(LONG_SUM) == [27, 0, 0, 0, 6, 14]
  {
  }

  lemma WideQuarter1()
    ensures Wide(All())[..8] == [0, 1, 2, 3, 4, 5, 6, 7]
  {
  }

  lemma WideQuarter2()
    ensures Wide(All())[8..16] == [8, 9, 10, 11, 12, 13, 14, 15]
  {
  }

  lemma WideQuarter3()
    ensures Wide(All())[16..24] == [16, 17, 18, 19, 20, 21, 22, 23]
  {
  }

  lemma WideQuarter4()
    ensures Wide(All())[24..] == [24, 25, 26, 27, 28, 29, 30, 31]
  {
  }

  lemma WideAll()
    ensures Wide(All()) == [0, 1, 2, 3, 4, 5, 6, 7, 8, 9, 10, 11, 12, 13, 14, 15] +
                           [16, 17, 18, 19, 20, 21, 22, 23, 24, 25, 26, 27, 28, 29, 30, 31]
  {
    hide All, Wide;
    WideQuarter1();
    WideQuarter2();
    WideQuarter3();
    WideQuarter4();
    var w := Wide(All());
    assert w == w[..8] + w[8..16] + (w[16..24] + w[24..]);
  }

  lemma LongFolds()
    ensures HasChecksum(LONG_HRP, All() + LONG_SUM)
  {
    hide Fold, All, Wide, Expanded;
    LongExpands();
    WideAll();
    LongPart1();
    LongPart2();
    LongPart3();
    LongPart4();
    var a: seq<Word>, b: seq<Word> := Expanded(LONG_HRP), Wide(LONG_SUM);
    var low: seq<Word> := [0, 1, 2, 3, 4, 5, 6, 7, 8, 9, 10, 11, 12, 13, 14, 15];
    var high: seq<Word> := [16, 17, 18, 19, 20, 21, 22, 23, 24, 25, 26, 27, 28, 29, 30, 31];
    assert Wide(All() + LONG_SUM) == low + high + b by { WideBoth(All(), LONG_SUM); }
    FoldOfFour(a, low, high, b);
  }

  lemma WideBoth(a: seq<Byte>, b: seq<Byte>)
    ensures Wide(a + b) == Wide(a) + Wide(b)
  {
  }

  lemma FoldOfFour(a: seq<Word>, b: seq<Word>, c: seq<Word>, d: seq<Word>)
    ensures Fold(1, a + (b + c + d)) == Fold(Fold(Fold(Fold(1, a), b), c), d)
  {
    hide Fold;
    FoldConcatenates(1, a, b + c + d);
    FoldConcatenates(Fold(1, a), b + c, d);
    FoldConcatenates(Fold(1, a), b, c);
  }

  /** All groups in order: every character is used. */
  lemma LongIsAccepted()
    ensures Accepts(LONG, LONG_HRP, All())
  {
    hide Fold, Spells, Accepts, Expanded, All, Wide, Charset;
    var full := All() + LONG_SUM;
    LongText();
    LongParts();
    AllSpelled();
    SpellsBoth(All(), Charset(), LONG_SUM, LONG_END);
    LongFolds();
    LowerIsAccepted(LONG, LONG_HRP, Charset() + LONG_END, full);
    assert full[..32] == All();
  }

  /** In ASCII, case is one bit of a letter. */
  lemma CaseIsOneBit(c: Byte)
    ensures ToLower(c) == if 65 <= c <= 90 then c | 0x20 else c
    ensures ToUpper(c) == if 97 <= c <= 122 then c & 0xdf else c
  {
  }

  /** The octets of "A12UEL5L". */
  const UPPER: Text := [0x41, 0x31, 0x32, 0x55, 0x45, 0x4c, 0x35, 0x4c]

  /** The text in capital letters stands for the same. */
  lemma UpperIsAccepted()
    ensures Accepts(UPPER, SHORT_HRP, [])
  {
    hide IsEncoding;
    assert UPPER == Upper(UPPER) && Lower(UPPER) == SHORT;
    ShortIsAccepted();
    assert Lower(SHORT) == SHORT;
  }
}
