/** Bech32 text: a human-readable part, a separator, groups of five bits as characters, and a checksum. */
module Bech32 {
  import opened Bech32Checksum

  type Text = seq<Byte>

  datatype Result<T> = Ok(value: T) | Err(error: Error)

  datatype Error =
    | BadLength | BadCharacter | MixedCase | BadSeparator | NotInCharset | BadChecksum | BadGroup

  /** The octets of "qpzry9x8gf2tvdw0s3jn54khce6mua7l". */
  function Charset(): (s: Text)
    ensures |s| == 32
  {
    [0x71, 0x70, 0x7a, 0x72, 0x79, 0x39, 0x78, 0x38, 0x67, 0x66, 0x32, 0x74, 0x76, 0x64, 0x77, 0x30,
     0x73, 0x33, 0x6a, 0x6e, 0x35, 0x34, 0x6b, 0x68, 0x63, 0x65, 0x36, 0x6d, 0x75, 0x61, 0x37, 0x6c]
  }

  const SEPARATOR: Byte := 0x31

  predicate IsGroup(b: Byte) { b < 32 }

  ghost predicate AllGroups(data: seq<Byte>) {
    forall i :: 0 <= i < |data| ==> IsGroup(data[i])
  }

  function Symbol(b: Byte): Byte
    requires IsGroup(b)
  {
    Charset()[b as nat]
  }

  /** The characters spell the groups, one by one. */
  ghost predicate Spells(data: seq<Byte>, chars: Text) {
    && |data| == |chars|
    && AllGroups(data)
    && forall i :: 0 <= i < |data| ==> Symbol(data[i]) == chars[i]
  }

  ghost predicate InCharset(c: Byte) {
    exists b :: IsGroup(b) && Symbol(b) == c
  }

  lemma CharsetIsInjective(a: Byte, b: Byte)
    requires IsGroup(a) && IsGroup(b) && Symbol(a) == Symbol(b)
    ensures a == b
  {
  }

  lemma CharsetIsLowercase(b: Byte)
    requires IsGroup(b)
    ensures ToLower(Symbol(b)) == Symbol(b) && IsPrintable(Symbol(b)) && Symbol(b) != SEPARATOR
  {
  }

  predicate IsPrintable(c: Byte) { 33 <= c <= 126 }

  function ToLower(c: Byte): Byte { if 0x41 <= c <= 0x5a then c + 0x20 else c }

  function ToUpper(c: Byte): Byte { if 0x61 <= c <= 0x7a then c - 0x20 else c }

  function Lower(s: Text): (t: Text)
    ensures |t| == |s| && forall i :: 0 <= i < |s| ==> t[i] == ToLower(s[i])
  {
    seq(|s|, i requires 0 <= i < |s| => ToLower(s[i]))
  }

  function Upper(s: Text): (t: Text)
    ensures |t| == |s| && forall i :: 0 <= i < |s| ==> t[i] == ToUpper(s[i])
  {
    seq(|s|, i requires 0 <= i < |s| => ToUpper(s[i]))
  }

  /** Where c occurs first, or -1. */
  function IndexByte(s: Text, c: Byte): (i: int)
    ensures -1 <= i < |s|
    ensures if i < 0 then c !in s else s[i] == c && c !in s[..i]
  {
    if s == [] then -1
    else if s[0] == c then 0
    else
      var i := IndexByte(s[1..], c);
      assert i >= 0 ==> s[..i + 1] == [s[0]] + s[1..][..i];
      if i < 0 then -1 else i + 1
  }

  /** Where c occurs last, or -1. */
  function LastIndexByte(s: Text, c: Byte): (i: int)
    ensures -1 <= i < |s|
    ensures i >= 0 ==> s[i] == c
    ensures forall k :: i < k < |s| ==> s[k] != c
  {
    if s == [] then -1
    else if s[|s| - 1] == c then |s| - 1
    else LastIndexByte(s[..|s| - 1], c)
  }

  lemma SymbolAt(i: nat)
    requires i < 32
    ensures IsGroup(i as Byte) && Symbol(i as Byte) == Charset()[i]
  {
    hide Charset;
    assert i % 256 == i;
    assert (i as Byte) as nat == i;
  }

  lemma CharsetHas(c: Byte)
    ensures var i := IndexByte(Charset(), c);
      if i < 0 then !InCharset(c) else InCharset(c) && IsGroup(i as Byte) && Symbol(i as Byte) == c
  {
    hide Charset, IndexByte;
    var i := IndexByte(Charset(), c);
    if i >= 0 {
      SymbolAt(i);
    } else {
      forall b | IsGroup(b) ensures Symbol(b) != c {
        assert Charset()[b as nat] in Charset();
      }
    }
  }

  method ToBytes(chars: Text) returns (r: Result<seq<Byte>>)
    ensures r.Ok? <==> forall i :: 0 <= i < |chars| ==> InCharset(chars[i])
    ensures if r.Ok? then Spells(r.value, chars) else r.error == NotInCharset
  {
    hide Charset, IndexByte, IsGroup, Symbol, InCharset;
    var decoded: seq<Byte> := [];
    for i := 0 to |chars|
      invariant Spells(decoded, chars[..i])
      invariant forall k :: 0 <= k < i ==> InCharset(chars[k])
    {
      var index := IndexByte(Charset(), chars[i]);
      CharsetHas(chars[i]);
      if index < 0 {
        return Err(NotInCharset);
      }
      decoded := decoded + [index as Byte];
    }
    assert chars[..|chars|] == chars;
    return Ok(decoded);
  }

  method ToChars(data: seq<Byte>) returns (r: Result<Text>)
    ensures r.Ok? <==> AllGroups(data)
    ensures if r.Ok? then Spells(data, r.value) else r.error == BadGroup
  {
    hide Symbol;
    var result: Text := [];
    for i := 0 to |data|
      invariant Spells(data[..i], result)
    {
      if data[i] as nat >= |Charset()| {
        assert !IsGroup(data[i]);
        return Err(BadGroup);
      }
      result := result + [Symbol(data[i])];
    }
    assert data[..|data|] == data;
    return Ok(result);
  }

  function Widen(b: Byte): (w: Word)
    ensures w < 256
  {
    b as Word
  }

  function HighPart(c: Byte): Byte { c >> 5 }

  function LowPart(c: Byte): Byte { c & 31 }

  function Wide(data: seq<Byte>): (s: seq<Word>)
    ensures |s| == |data| && AreBytes(s)
    ensures forall i :: 0 <= i < |s| ==> s[i] == Widen(data[i])
  {
    seq(|data|, i requires 0 <= i < |data| => Widen(data[i]))
  }

  function HighBits(hrp: Text): (s: seq<Word>)
    ensures |s| == |hrp| && AreBytes(s)
    ensures forall i :: 0 <= i < |s| ==> s[i] == Widen(HighPart(hrp[i]))
  {
    seq(|hrp|, i requires 0 <= i < |hrp| => Widen(HighPart(hrp[i])))
  }

  function LowBits(hrp: Text): (s: seq<Word>)
    ensures |s| == |hrp| && AreBytes(s)
    ensures forall i :: 0 <= i < |s| ==> s[i] == Widen(LowPart(hrp[i]))
  {
    seq(|hrp|, i requires 0 <= i < |hrp| => Widen(LowPart(hrp[i])))
  }

  function Expanded(hrp: Text): (s: seq<Word>)
    ensures AreBytes(s)
  {
    HighBits(hrp) + [0] + LowBits(hrp)
  }

  method HrpExpand(hrp: Text) returns (v: seq<Word>)
    ensures v == Expanded(hrp)
  {
    v := [];
    for i := 0 to |hrp|
      invariant v == HighBits(hrp)[..i]
    {
      v := v + [Widen(HighPart(hrp[i]))];
    }
    v := v + [0];
    for i := 0 to |hrp|
      invariant v == HighBits(hrp) + [0] + LowBits(hrp)[..i]
    {
      v := v + [Widen(LowPart(hrp[i]))];
    }
  }

  method Polymod(values: seq<Word>) returns (chk: Word)
    ensures chk == Fold(1, values)
  {
    hide Step;
    chk := 1;
    for i := 0 to |values|
      invariant chk == Fold(1, values[..i])
    {
      assert values[..i + 1][..i] == values[..i];
      chk := PolymodStep(chk, values[i]);
    }
    assert values[..|values|] == values;
  }

  /** The remainder of the whole, checksum included, is one. */
  ghost predicate HasChecksum(hrp: Text, full: seq<Byte>) {
    Fold(1, Expanded(hrp) + Wide(full)) == 1
  }

  method VerifyChecksum(hrp: Text, data: seq<Byte>) returns (ok: bool)
    ensures ok <==> HasChecksum(hrp, data)
  {
    hide Fold;
    var expanded := HrpExpand(hrp);
    var polymod := Polymod(expanded + Wide(data));
    ok := polymod == 1;
  }

  function Narrow(w: Word): Byte
    requires w < 32
  {
    w as Byte
  }

  lemma NarrowIsGroup(w: Word)
    requires w < 32
    ensures IsGroup(Narrow(w)) && Widen(Narrow(w)) == w
  {
  }

  function Group(p: Word, i: nat): (w: Word)
    requires i < 6
    ensures w < 32
  {
    if i == 0 then (p >> 25) & 31 else if i == 1 then (p >> 20) & 31 else if i == 2 then (p >> 15) & 31
    else if i == 3 then (p >> 10) & 31 else if i == 4 then (p >> 5) & 31 else p & 31
  }

  lemma GroupAt(p: Word, i: nat)
    requires i < 6
    ensures Group(p, i) == Groups(p)[i]
  {
  }

  method Checksum(hrp: Text, data: seq<Byte>) returns (res: seq<Byte>)
    ensures |res| == 6 && AllGroups(res) && HasChecksum(hrp, data + res)
  {
    hide Fold, Group, Groups, Xor, IsGroup, Narrow, Widen;
    var expanded := HrpExpand(hrp);
    var before := expanded + Wide(data);
    var remainder := Polymod(before + ZEROS);
    var polymod := Xor(remainder, 1);
    res := [];
    for i := 0 to 6
      invariant |res| == i && AllGroups(res) && Wide(res) == Groups(polymod)[..i]
    {
      GroupAt(polymod, i);
      NarrowIsGroup(Group(polymod, i));
      res := res + [Narrow(Group(polymod, i))];
    }
    AppendedChecksum(hrp, data, res);
  }

  lemma AppendedChecksum(hrp: Text, data: seq<Byte>, res: seq<Byte>)
    requires Wide(res) == Groups(Xor(Fold(1, Expanded(hrp) + Wide(data) + ZEROS), 1))
    ensures HasChecksum(hrp, data + res)
  {
    hide Fold, Groups, Xor, Expanded;
    var before := Expanded(hrp) + Wide(data);
    FoldKeepsState(1, before);
    FoldConcatenates(1, before, ZEROS);
    ChecksumIsRight(Fold(1, before));
    FoldConcatenates(1, before, Wide(res));
    assert Expanded(hrp) + Wide(data + res) == before + Wide(res);
  }

  /** The text for a human-readable part and groups of data: the checksum is the last six characters. */
  ghost predicate IsEncoding(text: Text, hrp: Text, data: seq<Byte>) {
    && |text| == |hrp| + 1 + |data| + 6
    && text[..|hrp|] == hrp
    && text[|hrp|] == SEPARATOR
    && exists full :: Spells(full, text[|hrp| + 1..]) && full[..|data|] == data && HasChecksum(hrp, full)
  }

  method Encode(hrp: Text, data: seq<Byte>) returns (r: Result<Text>)
    ensures r.Ok? <==> AllGroups(data)
    ensures if r.Ok? then IsEncoding(r.value, hrp, data) else r.error == BadGroup
  {
    hide HasChecksum, IsGroup, Symbol;
    var checksum := Checksum(hrp, data);
    var combined := data + checksum;
    var dataChars := ToChars(combined);
    if dataChars.Err? {
      return Err(BadGroup);
    }
    var text := hrp + [SEPARATOR] + dataChars.value;
    assert text[|hrp| + 1..] == dataChars.value;
    assert combined[..|data|] == data;
    assert text[..|hrp|] == hrp;
    assert forall i :: 0 <= i < |data| ==> data[i] == combined[i];
    return Ok(text);
  }

  ghost predicate AllPrintable(text: Text) {
    forall i :: 0 <= i < |text| ==> IsPrintable(text[i])
  }

  /** What a bech32 string is allowed to look like, whatever its checksum. */
  ghost predicate IsWellFormed(text: Text) {
    && 8 <= |text| <= 90
    && AllPrintable(text)
    && (text == Lower(text) || text == Upper(text))
  }

  /** There is a human-readable part, and room for a checksum after the last separator. */
  predicate HasParts(text: Text) {
    1 <= LastIndexByte(Lower(text), SEPARATOR) <= |text| - 7
  }

  function DataPart(text: Text): Text
    requires HasParts(text)
  {
    Lower(text)[LastIndexByte(Lower(text), SEPARATOR) + 1..]
  }

  ghost predicate AllInCharset(chars: Text) {
    forall i :: 0 <= i < |chars| ==> InCharset(chars[i])
  }

  /** The string stands for this human-readable part and these groups. */
  ghost predicate Accepts(text: Text, hrp: Text, data: seq<Byte>) {
    IsWellFormed(text) && hrp != [] && IsEncoding(Lower(text), hrp, data)
  }

  datatype Decoded = Decoded(hrp: Text, data: seq<Byte>)

  method Decode(bech: Text) returns (r: Result<Decoded>)
    ensures r.Ok? ==> Accepts(bech, r.value.hrp, r.value.data)
    ensures r.Err? ==> forall hrp, data :: !Accepts(bech, hrp, data)
    ensures r == Err(BadLength) <==> !(8 <= |bech| <= 90)
    ensures r == Err(BadCharacter) <==> 8 <= |bech| <= 90 && !AllPrintable(bech)
    ensures r == Err(MixedCase) <==> 8 <= |bech| <= 90 && AllPrintable(bech) && !IsWellFormed(bech)
    ensures r == Err(BadSeparator) <==> IsWellFormed(bech) && !HasParts(bech)
    ensures r == Err(NotInCharset) <==> IsWellFormed(bech) && HasParts(bech) && !AllInCharset(DataPart(bech))
    ensures r == Err(BadChecksum) ==> IsWellFormed(bech) && HasParts(bech) && AllInCharset(DataPart(bech))
    ensures r != Err(BadGroup)
  {
    hide HasChecksum, Symbol, ToLower, ToUpper, IsEncoding;
    if |bech| < 8 || |bech| > 90 {
      return Err(BadLength);
    }
    for i := 0 to |bech|
      invariant forall k :: 0 <= k < i ==> IsPrintable(bech[k])
    {
      if bech[i] < 33 || bech[i] > 126 {
        return Err(BadCharacter);
      }
    }
    var lower, upper := Lower(bech), Upper(bech);
    if bech != lower && bech != upper {
      return Err(MixedCase);
    }
    var one := LastIndexByte(lower, SEPARATOR);
    SeparatorIsLast(lower);
    if one < 1 || one + 7 > |lower| {
      return Err(BadSeparator);
    }
    var hrp, chars := lower[..one], lower[one + 1..];
    var decoded := ToBytes(chars);
    if decoded.Err? {
      ghost var i :| 0 <= i < |chars| && !InCharset(chars[i]);
      assert chars[i] == lower[one + 1 + i];
      CharsAreInCharset(lower, hrp);
      return Err(NotInCharset);
    }
    var full := decoded.value;
    var ok := VerifyChecksum(hrp, full);
    ChecksumDecides(lower, hrp, full);
    if !ok {
      return Err(BadChecksum);
    }
    return Ok(Decoded(hrp, full[..|full| - 6]));
  }

  lemma SpelledText(data: seq<Byte>, chars: Text)
    requires Spells(data, chars)
    ensures forall i :: 0 <= i < |chars| ==>
      InCharset(chars[i]) && ToLower(chars[i]) == chars[i] && IsPrintable(chars[i]) && chars[i] != SEPARATOR
  {
    hide Symbol, IsGroup, ToLower, IsPrintable;
    forall i | 0 <= i < |chars|
      ensures InCharset(chars[i])
      ensures ToLower(chars[i]) == chars[i] && IsPrintable(chars[i]) && chars[i] != SEPARATOR
    {
      assert IsGroup(data[i]) && Symbol(data[i]) == chars[i];
      CharsetIsLowercase(data[i]);
    }
  }

  lemma SpelledIsUnique(s: seq<Byte>, t: seq<Byte>, chars: Text)
    requires Spells(s, chars) && Spells(t, chars)
    ensures s == t
  {
    hide Symbol, IsGroup;
    forall i | 0 <= i < |s| ensures s[i] == t[i] {
      CharsetIsInjective(s[i], t[i]);
    }
  }

  /** The separator of an encoding is the last one of the text. */
  lemma SeparatorIsLast(text: Text)
    ensures forall hrp, data :: IsEncoding(text, hrp, data) ==>
      LastIndexByte(text, SEPARATOR) == |hrp| && |hrp| + 7 <= |text| && hrp == text[..|hrp|]
  {
    hide Symbol, HasChecksum, IsGroup;
    forall hrp: Text, data: seq<Byte> | IsEncoding(text, hrp, data)
      ensures LastIndexByte(text, SEPARATOR) == |hrp|
    {
      var full :| Spells(full, text[|hrp| + 1..]);
      SpelledText(full, text[|hrp| + 1..]);
      assert forall k :: |hrp| < k < |text| ==> text[k] == text[|hrp| + 1..][k - |hrp| - 1];
    }
  }

  lemma CharsAreInCharset(text: Text, hrp: Text)
    requires |hrp| + 7 <= |text|
    ensures forall data :: IsEncoding(text, hrp, data) ==>
      forall i :: |hrp| < i < |text| ==> InCharset(text[i])
  {
    hide HasChecksum, Symbol, IsGroup, InCharset;
    forall data: seq<Byte> | IsEncoding(text, hrp, data)
      ensures forall i :: |hrp| < i < |text| ==> InCharset(text[i])
    {
      var full :| Spells(full, text[|hrp| + 1..]);
      SpelledText(full, text[|hrp| + 1..]);
      assert forall k :: |hrp| < k < |text| ==> text[k] == text[|hrp| + 1..][k - |hrp| - 1];
    }
  }

  lemma ChecksumDecides(text: Text, hrp: Text, full: seq<Byte>)
    requires |hrp| + 7 <= |text| && text[..|hrp|] == hrp && text[|hrp|] == SEPARATOR
    requires Spells(full, text[|hrp| + 1..])
    ensures HasChecksum(hrp, full) ==> IsEncoding(text, hrp, full[..|full| - 6])
    ensures !HasChecksum(hrp, full) ==> forall data :: !IsEncoding(text, hrp, data)
  {
    hide HasChecksum, Symbol, IsGroup, AllGroups;
    forall data | IsEncoding(text, hrp, data) ensures HasChecksum(hrp, full) {
      var full' :| Spells(full', text[|hrp| + 1..]) && HasChecksum(hrp, full');
      SpelledIsUnique(full, full', text[|hrp| + 1..]);
    }
  }
}
