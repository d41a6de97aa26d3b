/** For which alphabets and padding characters base32 gives back what it was given. */
module Base32Laws {
  import opened Wrappers
  import opened Base32
  import opened Base32Stream

  /** The eight groups are the forty bits of five octets, the first bit first. */
  lemma GroupsAreBits(s0: Byte, s1: Byte, s2: Byte, s3: Byte, s4: Byte)
    ensures ((Group0(s0) as bv40) << 35) | ((Group1(s0, s1) as bv40) << 30) | ((Group2(s1) as bv40) << 25)
            | ((Group3(s1, s2) as bv40) << 20) | ((Group4(s2, s3) as bv40) << 15) | ((Group5(s3) as bv40) << 10)
            | ((Group6(s3, s4) as bv40) << 5) | (Group7(s4) as bv40)
            == ((s0 as bv40) << 32) | ((s1 as bv40) << 24) | ((s2 as bv40) << 16) | ((s3 as bv40) << 8) | (s4 as bv40)
  {
    hide Octet0, Octet1, Octet2, Octet3, Octet4;
  }

  /** As many symbols as it takes to hold the bits. */
  lemma SymbolsHoldBits(n: nat)
    requires 0 < n <= 5
    ensures SymbolCount(n) == (8 * n + 4) / 5
  {
  }

  /** The line ends that are dropped are carriage return and line feed. */
  lemma NewlinesAre(b: Byte)
    ensures IsNewline(b) <==> b == 13 || b == 10
  {
  }

  /** What DecodeString makes of the encoding of some octets. */
  function ReadBack(e: Encoding, s: Bytes): Option<Bytes>
    requires |e.encode| == 32
  {
    Decoded(e, WithoutNewlines(Encoded(e, s)))
  }

  /**
   * Everything is read back exactly when the symbols differ, when none is a line end or the padding
   * character, and when that is no line end. Without padding the octet 255 counts as padding character.
   */
  lemma RoundTripIff(e: Encoding)
    requires |e.encode| == 32
    ensures (forall s :: ReadBack(e, s) == Some(s)) <==> IsEncoding(e)
  {
    hide ReadBack, Digit;
    if IsEncoding(e) {
      forall s ensures ReadBack(e, s) == Some(s) {
        IsReadBack(e, s);
      }
    } else if i :| 0 <= i < 32 && IsNewline(e.encode[i]) {
      NewlineIsDropped(e, Digit(i));
    } else if IsNewline(PadByte(e)) {
      PaddingIsDropped(e);
    } else if i :| 0 <= i < 32 && e.encode[i] == PadByte(e) {
      SymbolEndsInput(e, Digit(i));
    } else {
      var i, j :| 0 <= i < j < 32 && e.encode[i] == e.encode[j];
      SymbolHasTwoDigits(e, Digit(i), Digit(j));
    }
  }

  function Digit(i: nat): (g: Byte)
    requires i < 32
    ensures g < 32 && g as nat == i
  {
    assert i % 256 == i;
    i as Byte
  }

  lemma IsReadBack(e: Encoding, s: Bytes)
    requires IsEncoding(e)
    ensures ReadBack(e, s) == Some(s)
  {
    hide Decoded, Encoded, WithoutNewlines, IsEncoding;
    Has32(e);
    EncodedHasNoNewlines(e, s);
    NothingToDrop(Encoded(e, s));
    DecodedEncoded(e, s);
  }

  /** One octet whose high bits name a symbol: that symbol, the first one of the alphabet, and padding. */
  lemma HighBits(e: Encoding, g: Byte)
    requires |e.encode| == 32 && g < 32
    ensures Encoded(e, [g << 3]) == [e.encode[g as nat], e.encode[0]] + Pads(e, 6)
  {
    HighGroups(g);
    GroupsFit([g << 3]);
    assert Groups([g << 3])[..2] == [g, 0];
    assert Symbols(e, [g, 0]) == [e.encode[g as nat], e.encode[0]];
  }

  lemma HighGroups(g: Byte)
    requires g < 32
    ensures Groups([g << 3])[0] == g && Groups([g << 3])[1] == 0
  {
  }

  lemma {:induction false} FewerWithoutNewlines(s: Bytes, i: nat)
    requires i < |s| && IsNewline(s[i])
    ensures |WithoutNewlines(s)| < |s|
    decreases |s|
  {
    AtMostWithoutNewlines(s[1..]);
    if i > 0 {
      FewerWithoutNewlines(s[1..], i - 1);
    }
  }

  lemma {:induction false} AtMostWithoutNewlines(s: Bytes)
    ensures |WithoutNewlines(s)| <= |s|
  {
    if s != [] {
      AtMostWithoutNewlines(s[1..]);
    }
  }

  /** Too few symbols for an octet give none. */
  lemma TooShort(e: Encoding, text: Bytes, s: Byte)
    requires |e.encode| == 32 && |text| < EncodedLen(e, 1)
    ensures Decoded(e, text) != Some([s])
  {
    hide Take;
    if text != [] {
      DecodedNext(e, text);
      TakenLengths(e, text);
    }
  }

  lemma NewlineIsDropped(e: Encoding, g: Byte)
    requires |e.encode| == 32 && g < 32 && IsNewline(e.encode[g as nat])
    ensures ReadBack(e, [g << 3]) != Some([g << 3])
  {
    hide Decoded, Encoded, WithoutNewlines;
    HighBits(e, g);
    var text := Encoded(e, [g << 3]);
    assert text[0] == e.encode[g as nat];
    FewerWithoutNewlines(text, 0);
    TooShort(e, WithoutNewlines(text), g << 3);
  }

  lemma PaddingIsDropped(e: Encoding)
    requires |e.encode| == 32 && IsNewline(PadByte(e))
    ensures ReadBack(e, [0 << 3]) != Some([0 << 3])
  {
    hide Decoded, Encoded, WithoutNewlines;
    HighBits(e, 0);
    var text := Encoded(e, [0 << 3]);
    assert text[2] == PadByte(e);
    FewerWithoutNewlines(text, 2);
    TooShort(e, WithoutNewlines(text), 0 << 3);
  }

  /** A symbol that is the padding character, or 255 when there is none, ends the input at the third place. */
  lemma SymbolEndsInput(e: Encoding, g: Byte)
    requires |e.encode| == 32 && g < 32 && e.encode[g as nat] == PadByte(e)
    requires !IsNewline(PadByte(e)) && forall i :: 0 <= i < 32 ==> !IsNewline(e.encode[i])
    ensures ReadBack(e, [0, g << 1]) != Some([0, g << 1])
  {
    hide Decoded, Encoded, WithoutNewlines, Take;
    var text := Encoded(e, [0, g << 1]);
    MiddleBits(e, g);
    NothingToDrop(text);
    DecodedNext(e, text);
    EndsAtThird(e, text);
    assert |[0, g << 1]| == 2;
  }

  lemma MiddleBits(e: Encoding, g: Byte)
    requires |e.encode| == 32 && g < 32
    ensures Encoded(e, [0, g << 1]) ==
            [e.encode[0], e.encode[0], e.encode[g as nat], e.encode[0]] + Pads(e, 4)
  {
    MiddleGroups(g);
    GroupsFit([0, g << 1]);
    assert Groups([0, g << 1])[..4] == [0, 0, g, 0];
    assert Symbols(e, [0, 0, g, 0]) == [e.encode[0], e.encode[0], e.encode[g as nat], e.encode[0]];
  }

  lemma MiddleGroups(g: Byte)
    requires g < 32
    ensures var s := [0, g << 1];
      Groups(s)[0] == 0 && Groups(s)[1] == 0 && Groups(s)[2] == g && Groups(s)[3] == 0
  {
  }

  lemma EndsAtThird(e: Encoding, text: Bytes)
    requires |e.encode| == 32 && 3 <= |text| <= 8 && text[2] == PadByte(e)
    ensures var r := Take(e, text, []);
      r == Corrupt || (r.Last? && |r.digits| <= 2)
  {
    hide DecodeMap, IsGoodPadding;
    TakeStep(e, text, []);
    if DecodeMap(e, text[0]) != 0xFF {
      var d := [DecodeMap(e, text[0])];
      assert [] + d == d;
      TakeStep(e, text[1..], d);
      if DecodeMap(e, text[1]) != 0xFF {
        TakeStep(e, text[2..], d + [DecodeMap(e, text[1])]);
        assert text[1..][1..] == text[2..];
      }
    }
  }

  /** A symbol that stands for two digits is read as the second. */
  lemma SymbolHasTwoDigits(e: Encoding, g: Byte, h: Byte)
    requires |e.encode| == 32 && g < 32 && h < 32 && g as nat < h as nat && e.encode[g as nat] == e.encode[h as nat]
    requires forall i :: 0 <= i < 32 ==> e.encode[i] != PadByte(e) && !IsNewline(e.encode[i])
    requires !IsNewline(PadByte(e))
    ensures ReadBack(e, [g << 3]) != Some([g << 3])
  {
    hide Decoded, Encoded, WithoutNewlines, Take, DecodeMap;
    HighBits(e, g);
    var text := Encoded(e, [g << 3]);
    NothingToDrop(text);
    DecodedNext(e, text);
    LaterDigit(e, g, h);
    TwoDigits(e, text);
    OtherOctet(g, DecodeMap(e, e.encode[g as nat]), DecodeMap(e, e.encode[0]));
  }

  lemma LaterDigit(e: Encoding, g: Byte, h: Byte)
    requires |e.encode| == 32 && g < 32 && h < 32 && g as nat < h as nat && e.encode[g as nat] == e.encode[h as nat]
    ensures g != DecodeMap(e, e.encode[g as nat]) && DecodeMap(e, e.encode[g as nat]) < 32
    ensures DecodeMap(e, e.encode[0]) < 32
  {
    hide Digit;
    LastIsLate(e.encode, h as nat);
    DigitOf(e, e.encode[h as nat]);
    DigitOf(e, e.encode[0]);
  }

  lemma DigitOf(e: Encoding, b: Byte)
    requires |e.encode| == 32 && b in e.encode
    ensures var i := LastIndex(e.encode, b);
      0 <= i && DecodeMap(e, b) == Digit(i)
  {
  }

  lemma {:induction false} LastIsLate(s: Bytes, i: nat)
    requires i < |s|
    ensures i <= LastIndex(s, s[i])
    decreases |s|
  {
    if i < |s| - 1 && s[|s| - 1] != s[i] {
      LastIsLate(s[..|s| - 1], i);
    }
  }

  /** Two symbols and padding, or two symbols alone: two digits. */
  lemma TwoDigits(e: Encoding, text: Bytes)
    requires |e.encode| == 32 && |text| >= 2 && text[2..] == Pads(e, 6)
    requires text[0] != PadByte(e) && text[1] != PadByte(e)
    requires DecodeMap(e, text[0]) < 32 && DecodeMap(e, text[1]) < 32
    ensures var r := Take(e, text, []);
      r.Last? && r.digits == [DecodeMap(e, text[0]), DecodeMap(e, text[1])]
  {
    hide DecodeMap;
    var d := [DecodeMap(e, text[0])];
    assert [] + d == d;
    TakeStep(e, text, []);
    TakeStep(e, text[1..], d);
    var both := d + [DecodeMap(e, text[1])];
    TakeStep(e, text[2..], both);
    assert text[1..][1..] == text[2..];
    if e.padChar.Some? {
      assert text[2..][0] == PadByte(e);
      assert IsGoodPadding(e, text[2..][1..], 2);
    }
  }

  lemma OtherOctet(g: Byte, d: Byte, f: Byte)
    requires g < 32 && g != d && d < 32 && f < 32
    ensures Octets([d, f]) == [Octet0(d, f)] && Octet0(d, f) != g << 3
  {
  }
}
