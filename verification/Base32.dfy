/** Base32 of section 6 of RFC 4648: five octets to eight symbols, and back. */
module Base32 {
  import opened Wrappers

  type Byte = bv8

  type Bytes = seq<Byte>

  /** An alphabet of 32 symbols and, unless padding is off, a padding character. */
  datatype Encoding = Encoding(encode: Bytes, padChar: Option<Byte>)

  /**
   * What it takes to read back whatever was encoded. NewEncoding checks none of it, and WithPadding only
   * that a padding character is neither a symbol nor a line end.
   */
  ghost predicate IsEncoding(e: Encoding) {
    && |e.encode| == 32
    && (forall i, j :: 0 <= i < j < 32 ==> e.encode[i] != e.encode[j])
    && (forall i :: 0 <= i < 32 ==> e.encode[i] != PadByte(e) && !IsNewline(e.encode[i]))
    && !IsNewline(PadByte(e))
  }

  /** Without padding the character is -1, which is the octet 255. */
  function PadByte(e: Encoding): Byte {
    if e.padChar.None? then 0xFF else e.padChar.value
  }

  predicate IsNewline(b: Byte) { b == 0x0A || b == 0x0D }

  function Or(a: Byte, b: Byte): Byte { a | b }

  /** The part of a group that comes from one octet: the last bits of it, or the first. */
  function Last3(s: Byte): Byte { (s << 2) & 0x1F }

  function First2(s: Byte): Byte { (s >> 6) & 0x1F }

  function Middle1(s: Byte): Byte { (s >> 1) & 0x1F }

  function Last1(s: Byte): Byte { (s << 4) & 0x1F }

  function First4(s: Byte): Byte { (s >> 4) & 0x1F }

  function Last4(s: Byte): Byte { (s << 1) & 0x1F }

  function First1(s: Byte): Byte { s >> 7 }

  function Middle3(s: Byte): Byte { (s >> 2) & 0x1F }

  function Last2(s: Byte): Byte { (s << 3) & 0x1F }

  function First3(s: Byte): Byte { s >> 5 }

  function Group0(s0: Byte): Byte { s0 >> 3 }

  function Group1(s0: Byte, s1: Byte): Byte { Or(First2(s1), Last3(s0)) }

  function Group2(s1: Byte): Byte { Middle1(s1) }

  function Group3(s1: Byte, s2: Byte): Byte { Or(First4(s2), Last1(s1)) }

  function Group4(s2: Byte, s3: Byte): Byte { Or(First1(s3), Last4(s2)) }

  function Group5(s3: Byte): Byte { Middle3(s3) }

  function Group6(s3: Byte, s4: Byte): Byte { Or(First3(s4), Last2(s3)) }

  function Group7(s4: Byte): Byte { s4 & 0x1F }

  function At(s: Bytes, i: nat): Byte { if i < |s| then s[i] else 0 }

  /** The eight groups of five bits of at most five octets, with zeros for those that are missing. */
  function Groups(s: Bytes): (g: Bytes)
    ensures |g| == 8
  {
    var s0, s1, s2, s3, s4 := At(s, 0), At(s, 1), At(s, 2), At(s, 3), At(s, 4);
    [Group0(s0), Group1(s0, s1), Group2(s1), Group3(s1, s2), Group4(s2, s3), Group5(s3), Group6(s3, s4), Group7(s4)]
  }

  function Octet0(g0: Byte, g1: Byte): Byte { (g0 << 3) | (g1 >> 2) }

  function Octet1(g1: Byte, g2: Byte, g3: Byte): Byte { (g1 << 6) | (g2 << 1) | (g3 >> 4) }

  function Octet2(g3: Byte, g4: Byte): Byte { (g3 << 4) | (g4 >> 1) }

  function Octet3(g4: Byte, g5: Byte, g6: Byte): Byte { (g4 << 7) | (g5 << 2) | (g6 >> 3) }

  function Octet4(g6: Byte, g7: Byte): Byte { (g6 << 5) | g7 }

  /** The octets that the first groups determine. */
  function Octets(g: Bytes): Bytes {
    if |g| >= 8 then
      [Octet0(g[0], g[1]), Octet1(g[1], g[2], g[3]), Octet2(g[3], g[4]), Octet3(g[4], g[5], g[6]), Octet4(g[6], g[7])]
    else if |g| == 7 then
      [Octet0(g[0], g[1]), Octet1(g[1], g[2], g[3]), Octet2(g[3], g[4]), Octet3(g[4], g[5], g[6])]
    else if |g| == 5 then [Octet0(g[0], g[1]), Octet1(g[1], g[2], g[3]), Octet2(g[3], g[4])]
    else if |g| == 4 then [Octet0(g[0], g[1]), Octet1(g[1], g[2], g[3])]
    else if |g| == 2 then [Octet0(g[0], g[1])]
    else []
  }

  /** How many symbols stand for n octets. */
  function SymbolCount(n: nat): (c: nat)
    ensures c <= 8
  {
    if n == 0 then 0 else if n == 1 then 2 else if n == 2 then 4 else if n == 3 then 5 else if n == 4 then 7 else 8
  }

  lemma GroupsFit(s: Bytes)
    ensures forall i :: 0 <= i < 8 ==> Groups(s)[i] < 32
  {
  }

  lemma OctetsOfGroups(s0: Byte, s1: Byte, s2: Byte, s3: Byte, s4: Byte)
    ensures Octet0(Group0(s0), Group1(s0, s1)) == s0
    ensures Octet1(Group1(s0, s1), Group2(s1), Group3(s1, s2)) == s1
    ensures Octet2(Group3(s1, s2), Group4(s2, s3)) == s2
    ensures Octet3(Group4(s2, s3), Group5(s3), Group6(s3, s4)) == s3
    ensures Octet4(Group6(s3, s4), Group7(s4)) == s4
  {
  }

  /** The groups that stand for the octets give them back. */
  lemma QuantumIsReadBack(s: Bytes)
    requires 0 < |s| <= 5
    ensures Octets(Groups(s)[..SymbolCount(|s|)]) == s
  {
    hide Group0, Group1, Group2, Group3, Group4, Group5, Group6, Group7, Octet0, Octet1, Octet2, Octet3, Octet4;
    OctetsOfGroups(At(s, 0), At(s, 1), At(s, 2), At(s, 3), At(s, 4));
    var g, c := Groups(s), SymbolCount(|s|);
    var cut := g[..c];
    assert forall i :: 0 <= i < c ==> cut[i] == g[i];
    if |s| == 1 {
      assert Octets(cut) == [s[0]];
    } else if |s| == 2 {
      assert Octets(cut) == [s[0], s[1]];
    } else if |s| == 3 {
      assert Octets(cut) == [s[0], s[1], s[2]];
    } else if |s| == 4 {
      assert Octets(cut) == [s[0], s[1], s[2], s[3]];
    } else {
      assert Octets(cut) == [s[0], s[1], s[2], s[3], s[4]];
    }
  }

  function Symbols(e: Encoding, g: Bytes): (s: Bytes)
    requires |e.encode| == 32 && forall i :: 0 <= i < |g| ==> g[i] < 32
    ensures |s| == |g| && forall i :: 0 <= i < |g| ==> s[i] == e.encode[g[i] as nat]
  {
    seq(|g|, i requires 0 <= i < |g| => e.encode[g[i] as nat])
  }

  function Pads(e: Encoding, n: nat): (s: Bytes)
    ensures e.padChar.None? ==> s == []
    ensures e.padChar.Some? ==> |s| == n && forall i :: 0 <= i < n ==> s[i] == e.padChar.value
  {
    if e.padChar.None? then [] else seq(n, i => e.padChar.value)
  }

  /** The symbols of at most five octets, and the padding up to eight. */
  function EncodedQuantum(e: Encoding, s: Bytes): (t: Bytes)
    requires |e.encode| == 32 && 0 < |s| <= 5
    ensures |t| == if e.padChar.None? then SymbolCount(|s|) else 8
  {
    GroupsFit(s);
    Symbols(e, Groups(s)[..SymbolCount(|s|)]) + Pads(e, 8 - SymbolCount(|s|))
  }

  function Encoded(e: Encoding, s: Bytes): Bytes
    requires |e.encode| == 32
  {
    if s == [] then []
    else if |s| <= 5 then EncodedQuantum(e, s)
    else EncodedQuantum(e, s[..5]) + Encoded(e, s[5..])
  }

  function EncodedLen(e: Encoding, n: nat): nat {
    if e.padChar.None? then (n * 8 + 4) / 5 else (n + 4) / 5 * 8
  }

  lemma {:induction false} EncodedLength(e: Encoding, s: Bytes)
    requires |e.encode| == 32
    ensures |Encoded(e, s)| == EncodedLen(e, |s|)
    decreases |s|
  {
    hide EncodedQuantum;
    if |s| > 5 {
      EncodedLength(e, s[5..]);
    }
  }

  /** The groups of the first octets, missing ones counting as zero. */
  method Unpack(src: Bytes) returns (b: Bytes)
    requires src != []
    ensures b == Groups(if |src| <= 5 then src else src[..5])
  {
    hide Or, Last3, First2, Middle1, Last1, First4, Last4, First1, Middle3, Last2, First3, Group0, Group7;
    PartsOfNothing();
    var b0, b1, b2, b3, b4, b5, b6, b7: Byte := 0, 0, 0, 0, 0, 0, 0, 0;
    if |src| >= 5 {
      b7 := Group7(src[4]);
      b6 := First3(src[4]);
    }
    if |src| >= 4 {
      b6 := Or(b6, Last2(src[3]));
      b5 := Middle3(src[3]);
      b4 := First1(src[3]);
    }
    if |src| >= 3 {
      b4 := Or(b4, Last4(src[2]));
      b3 := First4(src[2]);
    }
    if |src| >= 2 {
      b3 := Or(b3, Last1(src[1]));
      b2 := Middle1(src[1]);
      b1 := First2(src[1]);
    }
    b1 := Or(b1, Last3(src[0]));
    b0 := Group0(src[0]);
    b := [b0, b1, b2, b3, b4, b5, b6, b7];
  }

  lemma PartsOfNothing()
    ensures Or(0, 0) == 0 && Last3(0) == 0 && First2(0) == 0 && Middle1(0) == 0 && Last1(0) == 0
    ensures First4(0) == 0 && Last4(0) == 0 && First1(0) == 0 && Middle3(0) == 0 && Last2(0) == 0
    ensures First3(0) == 0 && Group7(0) == 0
  {
  }

  /** A quantum is its symbols and then its padding. */
  lemma AssembleQuantum(e: Encoding, chunk: Bytes, window: Bytes)
    requires |e.encode| == 32 && 0 < |chunk| <= 5 && |window| == |EncodedQuantum(e, chunk)|
    requires forall i :: 0 <= i < 8 ==> Groups(chunk)[i] < 32
    requires window[..SymbolCount(|chunk|)] == Symbols(e, Groups(chunk))[..SymbolCount(|chunk|)]
    requires e.padChar.Some? ==> window[SymbolCount(|chunk|)..] == Pads(e, 8 - SymbolCount(|chunk|))
    ensures window == EncodedQuantum(e, chunk)
  {
    hide Groups, Pads;
    var count := SymbolCount(|chunk|);
    assert Symbols(e, Groups(chunk)[..count]) == Symbols(e, Groups(chunk))[..count];
    assert window == window[..count] + window[count..];
  }

  /** One quantum at a place of the output: symbols as far as there is room, then padding. */
  method EncodeQuantum(e: Encoding, dst: array<Byte>, at: nat, src: Bytes)
    requires |e.encode| == 32 && src != []
    requires at + |EncodedQuantum(e, if |src| <= 5 then src else src[..5])| <= dst.Length
    modifies dst
    ensures dst[..at] == old(dst[..at])
    ensures var t := EncodedQuantum(e, if |src| <= 5 then src else src[..5]);
      dst[at..at + |t|] == t
  {
    hide Groups, Symbols, Pads, EncodedQuantum;
    ghost var chunk := if |src| <= 5 then src else src[..5];
    ghost var count := SymbolCount(|chunk|);
    var b := Unpack(src);
    GroupsFit(chunk);
    ghost var n := |EncodedQuantum(e, chunk)|;
    var size := WriteSymbols(e, dst, at, b);
    SliceParts(dst[..], at, size, count);
    ghost var first := dst[..];
    if |src| < 5 && e.padChar.Some? {
      PadQuantum(dst, at, |src|, e);
    }
    NoPads(e);
    FirstPart(first, dst[..], at, count);
    SliceParts(dst[..], at, n, count);
    AssembleQuantum(e, chunk, dst[..][at..at + n]);
  }

  lemma SliceParts(s: Bytes, at: nat, n: nat, count: nat)
    requires at + n <= |s| && count <= n
    ensures s[at..at + n][..count] == s[at..at + count] && s[at..at + n][count..] == s[at + count..at + n]
  {
  }

  lemma FirstPart(s: Bytes, t: Bytes, at: nat, count: nat)
    requires at + count <= |s| && at + count <= |t| && s[..at + count] == t[..at + count]
    ensures s[at..at + count] == t[at..at + count] && s[..at] == t[..at]
  {
    assert s[at..at + count] == s[..at + count][at..] && t[at..at + count] == t[..at + count][at..];
    assert s[..at] == s[..at + count][..at] && t[..at] == t[..at + count][..at];
  }

  method WriteSymbols(e: Encoding, dst: array<Byte>, at: nat, b: Bytes) returns (size: nat)
    requires |e.encode| == 32 && |b| == 8 && at <= dst.Length && forall i :: 0 <= i < 8 ==> b[i] < 32
    modifies dst
    ensures size == if dst.Length - at > 8 then 8 else dst.Length - at
    ensures dst[..at] == old(dst[..at]) && dst[at..at + size] == Symbols(e, b)[..size]
  {
    hide Symbols;
    size := dst.Length - at;
    if size > 8 {
      size := 8;
    }
    ghost var all := Symbols(e, b);
    for i := 0 to size
      invariant dst[..at] == old(dst[..at])
      invariant dst[at..at + i] == all[..i]
    {
      dst[at + i] := e.encode[b[i] as nat];
      assert dst[at..at + i + 1] == dst[at..at + i] + [all[i]];
    }
  }

  lemma NoPads(e: Encoding)
    ensures Pads(e, 0) == []
  {
  }

  /** The padding of a quantum of n octets. */
  method PadQuantum(dst: array<Byte>, at: nat, n: nat, e: Encoding)
    requires 0 < n < 5 && at + 8 <= dst.Length && e.padChar.Some?
    modifies dst
    ensures dst[..at + SymbolCount(n)] == old(dst[..at + SymbolCount(n)])
    ensures dst[at + SymbolCount(n)..at + 8] == Pads(e, 8 - SymbolCount(n))
  {
    var padChar := e.padChar.value;
    dst[at + 7] := padChar;
    if n < 4 {
      dst[at + 6], dst[at + 5] := padChar, padChar;
      if n < 3 {
        dst[at + 4] := padChar;
        if n < 2 {
          dst[at + 3], dst[at + 2] := padChar, padChar;
        }
      }
    }
  }

  method Encode(e: Encoding, dst: array<Byte>, src: Bytes)
    requires |e.encode| == 32 && dst.Length >= |Encoded(e, src)|
    modifies dst
    ensures dst[..|Encoded(e, src)|] == Encoded(e, src)
  {
    hide EncodedQuantum, Encoded;
    var left: Bytes, at: nat := src, 0;
    while |left| > 0
      invariant at + |Encoded(e, left)| == |Encoded(e, src)|
      invariant dst[..at] + Encoded(e, left) == Encoded(e, src)
      decreases |left|
    {
      ghost var before := dst[..at];
      EncodedNext(e, left);
      EncodeQuantum(e, dst, at, left);
      ghost var q := EncodedQuantum(e, if |left| <= 5 then left else left[..5]);
      TakeBoth(dst[..], at, |q|);
      if |left| < 5 {
        return;
      }
      assert before + (q + Encoded(e, left[5..])) == before + q + Encoded(e, left[5..]);
      left := left[5..];
      at := at + 8;
    }
    EncodedNothing(e);
  }

  lemma TakeBoth(s: Bytes, at: nat, n: nat)
    requires at + n <= |s|
    ensures s[..at + n] == s[..at] + s[at..at + n]
  {
  }

  lemma EncodedNothing(e: Encoding)
    requires |e.encode| == 32
    ensures Encoded(e, []) == []
  {
  }

  lemma EncodedNext(e: Encoding, s: Bytes)
    requires |e.encode| == 32 && s != []
    ensures |s| < 5 ==> Encoded(e, s) == EncodedQuantum(e, s)
    ensures |s| >= 5 ==>
      && Encoded(e, s) == EncodedQuantum(e, if |s| <= 5 then s else s[..5]) + Encoded(e, s[5..])
      && |EncodedQuantum(e, if |s| <= 5 then s else s[..5])| == 8
  {
    hide EncodedQuantum;
    if |s| >= 5 {
      EncodedFive(e, s);
      assert |s| == 5 ==> s[..5] == s;
    }
  }

  lemma EncodedFive(e: Encoding, s: Bytes)
    requires |e.encode| == 32 && |s| >= 5
    ensures Encoded(e, s) == EncodedQuantum(e, s[..5]) + Encoded(e, s[5..])
    ensures |EncodedQuantum(e, s[..5])| == 8
  {
    hide EncodedQuantum;
    if |s| == 5 {
      assert s[..5] == s && s[5..] == [];
    }
  }

  method EncodeToString(e: Encoding, src: Bytes) returns (s: Bytes)
    requires |e.encode| == 32
    ensures s == Encoded(e, src)
  {
    hide Encoded;
    EncodedLength(e, src);
    var buf := new Byte[EncodedLen(e, |src|)];
    Encode(e, buf, src);
    s := buf[..];
    assert s == buf[..|Encoded(e, src)|];
  }

  /** The last place of a symbol in the alphabet, or -1. */
  function LastIndex(s: Bytes, b: Byte): (i: int)
    ensures -1 <= i < |s|
    ensures if i < 0 then b !in s else s[i] == b
  {
    if s == [] then -1 else if s[|s| - 1] == b then |s| - 1 else LastIndex(s[..|s| - 1], b)
  }

  /** The table of the decoder: 255 for what is no symbol. */
  function DecodeMap(e: Encoding, b: Byte): Byte
    requires |e.encode| == 32
  {
    if LastIndex(e.encode, b) < 0 then 0xFF else LastIndex(e.encode, b) as Byte
  }

  lemma SymbolIsDecoded(e: Encoding, g: Byte)
    requires IsEncoding(e) && g < 32
    ensures DecodeMap(e, e.encode[g as nat]) == g && g != 0xFF && e.encode[g as nat] != PadByte(e)
  {
    var i := LastIndex(e.encode, e.encode[g as nat]);
    assert e.encode[g as nat] in e.encode;
    assert i == g as nat;
    assert i % 256 == i;
  }

  /** Eight digits, or fewer at the end of the input, or bad input. */
  datatype Taken = Whole(digits: Bytes, rest: Bytes) | Last(digits: Bytes, rest: Bytes) | Corrupt

  /** After a padding character: enough of them, nothing else, and a number of digits that makes sense. */
  predicate IsGoodPadding(e: Encoding, rest: Bytes, n: nat)
    requires n < 8
  {
    && |rest| + n >= 7
    && (forall k :: 0 <= k < 7 - n && k < |rest| ==> rest[k] == PadByte(e))
    && n != 1 && n != 3 && n != 6
  }

  /** The next quantum, after some digits of it. */
  function Take(e: Encoding, src: Bytes, digits: Bytes): (r: Taken)
    requires |e.encode| == 32 && |digits| <= 8
    ensures r.Whole? ==> |r.digits| == 8 && |digits| + |src| == 8 + |r.rest|
    ensures r.Last? ==> |r.digits| < 8 && |digits| + |src| >= (if e.padChar.None? then |r.digits| else 8)
    decreases |src|
  {
    if |digits| == 8 then Whole(digits, src)
    else if src == [] then (if e.padChar.None? then Last(digits, []) else Corrupt)
    else if src[0] == PadByte(e) && |digits| >= 2 && |src| - 1 < 8 then
      (if IsGoodPadding(e, src[1..], |digits|) then Last(digits, src[1..]) else Corrupt)
    else if DecodeMap(e, src[0]) == 0xFF then Corrupt
    else Take(e, src[1..], digits + [DecodeMap(e, src[0])])
  }

  function Decoded(e: Encoding, src: Bytes): Option<Bytes>
    requires |e.encode| == 32
    decreases |src|
  {
    if src == [] then Some([])
    else
      match Take(e, src, [])
      case Whole(digits, rest) =>
        var later := Decoded(e, rest);
        if later.None? then None else Some(Octets(digits) + later.value)
      case Last(digits, _) => Some(Octets(digits))
      case Corrupt => None
  }

  lemma {:induction false} SymbolsAreTaken(e: Encoding, g: Bytes, rest: Bytes, digits: Bytes)
    requires IsEncoding(e) && |digits| + |g| <= 8 && forall i :: 0 <= i < |g| ==> g[i] < 32
    ensures Take(e, Symbols(e, g) + rest, digits) == Take(e, rest, digits + g)
    decreases |g|
  {
    hide DecodeMap, PadByte, IsEncoding, IsGoodPadding;
    assert |e.encode| == 32 by { Has32(e); }
    var s := Symbols(e, g) + rest;
    if g == [] {
      assert s == rest && digits + g == digits;
    } else {
      SymbolIsDecoded(e, g[0]);
      assert s[1..] == Symbols(e, g[1..]) + rest;
      assert digits + [g[0]] + g[1..] == digits + g;
      SymbolsAreTaken(e, g[1..], rest, digits + [g[0]]);
    }
  }

  lemma Has32(e: Encoding)
    requires IsEncoding(e)
    ensures |e.encode| == 32
  {
  }

  /** A quantum that is not the last, or is complete. */
  lemma WholeIsTaken(e: Encoding, s: Bytes, rest: Bytes)
    requires IsEncoding(e) && |s| == 5
    ensures Take(e, EncodedQuantum(e, s) + rest, []) == Whole(Groups(s), rest)
  {
    hide Groups, Pads, Symbols;
    GroupsFit(s);
    NoPads(e);
    var g := Groups(s);
    assert g[..8] == g && [] + g == g;
    assert EncodedQuantum(e, s) == Symbols(e, g);
    SymbolsAreTaken(e, g, rest, []);
  }

  lemma PadsEnd(e: Encoding, n: nat, g: Bytes)
    requires IsEncoding(e) && 0 < n < 5 && |g| == SymbolCount(n)
    ensures var r := Take(e, Pads(e, 8 - |g|), g);
      r.Last? && r.digits == g
  {
    hide IsEncoding, DecodeMap;
    assert |e.encode| == 32 by { Has32(e); }
    var pads := Pads(e, 8 - |g|);
    if e.padChar.Some? {
      assert pads[0] == PadByte(e);
      assert IsGoodPadding(e, pads[1..], |g|);
    }
  }

  lemma LastIsTaken(e: Encoding, s: Bytes)
    requires IsEncoding(e) && 0 < |s| < 5
    ensures var r := Take(e, EncodedQuantum(e, s), []);
      r.Last? && r.digits == Groups(s)[..SymbolCount(|s|)]
  {
    hide Groups, Symbols, Pads, Take, IsEncoding;
    assert |e.encode| == 32 by { Has32(e); }
    GroupsFit(s);
    var g := Groups(s)[..SymbolCount(|s|)];
    assert [] + g == g;
    SymbolsAreTaken(e, g, Pads(e, 8 - |g|), []);
    PadsEnd(e, |s|, g);
  }

  /** What was encoded is decoded to itself, with any padding and without. */
  lemma {:induction false} DecodedEncoded(e: Encoding, s: Bytes)
    requires IsEncoding(e)
    ensures Decoded(e, Encoded(e, s)) == Some(s)
    decreases |s|
  {
    hide EncodedQuantum, Take, Groups, IsEncoding, Octets;
    Has32(e);
    if s != [] {
      if |s| >= 5 {
        var first, rest := s[..5], s[5..];
        EncodedFive(e, s);
        WholeIsTaken(e, first, Encoded(e, rest));
        QuantumIsReadBack(first);
        assert Groups(first)[..8] == Groups(first);
        DecodedEncoded(e, rest);
        assert s == first + rest;
      } else {
        LastIsTaken(e, s);
        QuantumIsReadBack(s);
      }
    }
  }
}
