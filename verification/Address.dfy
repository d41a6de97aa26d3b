/** Segregated witness addresses: a version and a program in bech32. */
module Address {
  import opened Bech32Checksum
  import opened Bech32
  import opened Bech32Laws
  import B = ConvertBits

  datatype AddressError =
    | Malformed | NoVersion | BadVersion | BadProgramLength | Mismatch
    | UnknownAddressType | UnsupportedVersion | UnsupportedLength

  datatype Outcome<T> = Success(value: T) | Failure(error: AddressError)

  datatype Witness = Witness(version: Byte, program: seq<Byte>)

  /** An address of version zero, under the human-readable part of its network. */
  datatype Address = PubKeyHash(hrp: Text, program: seq<Byte>) | ScriptHash(hrp: Text, program: seq<Byte>)

  ghost predicate IsValid(a: Address) {
    |a.program| == if a.PubKeyHash? then 20 else 32
  }

  /** The lengths that a program may have. */
  ghost predicate IsLength(version: Byte, n: nat) {
    2 <= n <= 40 && (version == 0 ==> n == 20 || n == 32)
  }

  /** The groups of five that follow the human-readable part, checksum aside. */
  ghost predicate Holds(data: seq<Byte>, w: Witness) {
    && data != [] && data[0] == w.version && w.version <= 16
    && B.IsHarmless(B.Rest(B.Unpacked(data[1..], 5), 8))
    && B.IsStripped(data[1..], 5, w.program, 8)
  }

  ghost predicate Carries(data: seq<Byte>, w: Witness) {
    Holds(data, w) && IsLength(w.version, |w.program|)
  }

  ghost predicate IsWitness(text: Text, hrp: Text, data: seq<Byte>, w: Witness) {
    Accepts(text, hrp, data) && Carries(data, w)
  }

  method DecodeSegWitAddress(address: Text) returns (r: Outcome<Witness>)
    ensures r.Success? ==> exists hrp, data :: IsWitness(address, hrp, data, r.value)
    ensures r.Failure? ==> forall hrp, data, w :: !IsWitness(address, hrp, data, w)
    ensures r == Failure(NoVersion) <==> exists hrp :: Accepts(address, hrp, [])
    ensures r == Failure(BadVersion) <==>
      exists hrp, data :: Accepts(address, hrp, data) && data != [] && data[0] > 16
    ensures r == Failure(BadProgramLength) <==>
      exists hrp, data, w :: Accepts(address, hrp, data) && Holds(data, w) && !IsLength(w.version, |w.program|)
    ensures r.Failure? ==>
      r.error == Malformed || r.error == NoVersion || r.error == BadVersion || r.error == BadProgramLength
  {
    hide Accepts, B.Unpacked, B.Rest, B.IsHarmless, B.IsStripped;
    var bech := Decode(address);
    if bech.Err? {
      return Failure(Malformed);
    }
    var groups := bech.value.data;
    OnlyOneReading(address, bech.value.hrp, groups);
    if |groups| < 1 {
      return Failure(NoVersion);
    }
    var version := groups[0];
    if version > 16 {
      return Failure(BadVersion);
    }
    var regrouped := B.Convert(groups[1..], 5, 8, false);
    if !regrouped.Ok? {
      return Failure(Malformed);
    }
    OnlyOneProgram(groups, Witness(version, regrouped.value));
    if |regrouped.value| < 2 || |regrouped.value| > 40 {
      return Failure(BadProgramLength);
    }
    if version == 0 && |regrouped.value| != 20 && |regrouped.value| != 32 {
      return Failure(BadProgramLength);
    }
    assert IsWitness(address, bech.value.hrp, groups, Witness(version, regrouped.value));
    return Success(Witness(version, regrouped.value));
  }

  lemma OnlyOneReading(text: Text, hrp: Text, data: seq<Byte>)
    requires Accepts(text, hrp, data)
    ensures forall hrp', data' :: Accepts(text, hrp', data') ==> hrp' == hrp && data' == data
  {
    hide Accepts;
    forall hrp', data' | Accepts(text, hrp', data') ensures hrp' == hrp && data' == data {
      AcceptedIsUnique(text, hrp, data, hrp', data');
    }
  }

  lemma OnlyOneProgram(data: seq<Byte>, w: Witness)
    requires data != [] && data[0] == w.version && B.IsStripped(data[1..], 5, w.program, 8)
    ensures forall w' :: Holds(data, w') ==> w' == w
    ensures forall w' :: Carries(data, w') ==> w' == w
  {
    hide B.Unpacked, B.Rest, B.AllFit, B.IsHarmless;
    forall w' | Holds(data, w') ensures w' == w {
      var bits := B.Unpacked(data[1..], 5);
      var rest := B.Rest(bits, 8);
      var a, b := B.Unpacked(w.program, 8), B.Unpacked(w'.program, 8);
      assert a == (a + rest)[..|bits| - |rest|] == (b + rest)[..|bits| - |rest|] == b;
      B.UnpackedIsInjective(w.program, w'.program, 8);
    }
  }

  method EncodeSegWitAddress(hrp: Text, w: Witness) returns (r: Outcome<Text>, ghost data: seq<Byte>)
    ensures r.Success? ==> IsEncoding(r.value, hrp, data) && data != [] && data[0] == w.version
    ensures r.Success? ==> B.IsPadded(w.program, 8, data[1..], 5)
    ensures r.Success? ==> exists hrp', data' :: IsWitness(r.value, hrp', data', w)
    ensures r.Failure? ==>
      forall text, hrp', data' :: IsEncoding(text, hrp, data) ==> !IsWitness(text, hrp', data', w)
    ensures IsLowercaseHrp(hrp) ==>
      (r.Success? <==> w.version <= 16 && IsLength(w.version, |w.program|) && |hrp| + Groups(|w.program|) <= 82)
  {
    hide IsEncoding, Accepts, IsLowercaseHrp, B.Unpacked, B.Rest, B.IsHarmless, B.IsStripped, B.IsPadded, IsLength,
      IsWitness, AllGroups, B.AllFit;
    var converted := B.Convert(w.program, 8, 5, true);
    var combined := [w.version] + converted.value;
    assert combined[1..] == converted.value;
    data := combined;
    assert B.AllFit(converted.value, 5) by { PaddedFits(w.program, converted.value); }
    FittingIsGroups(w.version, converted.value);
    var bech := Encode(hrp, combined);
    if bech.Err? {
      OnlyGroupsAreEncoded(hrp, data);
      return Failure(Malformed), data;
    }
    var text := bech.value;
    OneText(text, hrp, data);
    if IsLowercaseHrp(hrp) {
      EncodingIsWitness(text, hrp, data, w);
    }
    var decoded := DecodeSegWitAddress(text);
    if decoded.Failure? {
      return Failure(decoded.error), data;
    }
    ghost var hrp', data' :| IsWitness(text, hrp', data', decoded.value);
    OneWitness(text, hrp', data', decoded.value);
    if decoded.value.version != w.version || decoded.value.program != w.program {
      return Failure(Mismatch), data;
    }
    return Success(text), data;
  }

  lemma OnlyGroupsAreEncoded(hrp: Text, data: seq<Byte>)
    ensures forall text :: IsEncoding(text, hrp, data) ==> AllGroups(data)
  {
    hide IsEncoding, AllGroups;
    forall text | IsEncoding(text, hrp, data) ensures AllGroups(data) {
      EncodedGroups(text, hrp, data);
    }
  }

  lemma OneText(text: Text, hrp: Text, data: seq<Byte>)
    requires IsEncoding(text, hrp, data)
    ensures forall text' :: IsEncoding(text', hrp, data) ==> text' == text
  {
    hide IsEncoding;
    forall text' | IsEncoding(text', hrp, data) ensures text' == text {
      EncodingIsUnique(hrp, data, text, text');
    }
  }

  /** How many groups of five hold n octets. */
  function Groups(n: nat): nat { (8 * n + 4) / 5 }

  lemma PaddedFits(program: seq<Byte>, groups: seq<Byte>)
    requires B.IsPadded(program, 8, groups, 5)
    ensures B.AllFit(groups, 5)
  {
  }

  lemma PaddedLength(program: seq<Byte>, groups: seq<Byte>)
    requires B.IsPadded(program, 8, groups, 5)
    ensures |groups| == Groups(|program|)
  {
    hide B.Unpacked, B.Rest, B.AllFit;
    B.UnpackedLength(program, 8);
    B.UnpackedLength(groups, 5);
  }

  lemma FitsIsGroup(b: Byte)
    ensures B.Fits(b, 5) <==> IsGroup(b)
  {
    hide B.Mask;
    assert B.Fits(b, 5) <==> !B.Bit(b, 5) && !B.Bit(b, 6) && !B.Bit(b, 7);
    HighBitsOf(b);
  }

  lemma HighBitsOf(b: Byte)
    ensures !B.Bit(b, 5) && !B.Bit(b, 6) && !B.Bit(b, 7) <==> b < 32
  {
  }

  lemma FittingIsGroups(version: Byte, groups: seq<Byte>)
    requires B.AllFit(groups, 5)
    ensures AllGroups([version] + groups) <==> version < 32
  {
    hide B.Fits;
    var data := [version] + groups;
    forall i | 0 < i < |data| ensures IsGroup(data[i]) {
      assert B.Fits(groups[i - 1], 5);
      FitsIsGroup(groups[i - 1]);
    }
    assert IsGroup(data[0]) <==> version < 32;
  }

  lemma EncodedLength(text: Text, hrp: Text, data: seq<Byte>)
    requires IsEncoding(text, hrp, data)
    ensures |text| == |hrp| + 7 + |data|
  {
  }

  lemma CarriesBack(data: seq<Byte>, w: Witness)
    requires data != [] && data[0] == w.version && B.IsPadded(w.program, 8, data[1..], 5)
    ensures Carries(data, w) <==> w.version <= 16 && IsLength(w.version, |w.program|)
    ensures B.IsStripped(data[1..], 5, w.program, 8)
  {
    hide B.Unpacked, B.Rest, B.AllFit, B.IsHarmless, B.IsStripped, B.IsPadded;
    B.StrippingUndoesPadding(w.program, data[1..]);
  }

  /** Whether the text is a witness hangs on the length of the text and on the program alone. */
  lemma EncodingIsWitness(text: Text, hrp: Text, data: seq<Byte>, w: Witness)
    requires IsLowercaseHrp(hrp) && IsEncoding(text, hrp, data)
    requires data != [] && data[0] == w.version && B.IsPadded(w.program, 8, data[1..], 5)
    ensures IsWitness(text, hrp, data, w) <==>
      w.version <= 16 && IsLength(w.version, |w.program|) && |hrp| + Groups(|w.program|) <= 82
    ensures forall hrp', data', w' :: IsWitness(text, hrp', data', w') ==> hrp' == hrp && data' == data && w' == w
  {
    hide IsEncoding, IsLowercaseHrp, B.IsPadded, B.IsStripped, B.Unpacked, B.Rest, B.IsHarmless, Carries;
    EncodedLength(text, hrp, data);
    PaddedLength(w.program, data[1..]);
    CarriesBack(data, w);
    OnlyOneProgram(data, w);
    assert hrp != [] by { HrpIsNotEmpty(hrp); }
    if |text| <= 90 {
      EncodingIsAccepted(text, hrp, data);
      OnlyOneReading(text, hrp, data);
    }
  }

  lemma HrpIsNotEmpty(hrp: Text)
    requires IsLowercaseHrp(hrp)
    ensures hrp != []
  {
  }

  /** The network's part with its letters in any case, and the separator. */
  predicate IsNetworkPrefix(prefix: Text, network: Text) {
    && |prefix| == |network| + 1 && prefix[|network|] == SEPARATOR
    && forall i :: 0 <= i < |network| ==> ToLower(prefix[i]) == network[i]
  }

  /** Of the text of a witness, the part up to the last separator tells whether the witness is of the network. */
  method IsBech32SegwitPrefix(prefix: Text, network: Text) returns (ok: bool)
    ensures ok <==> IsNetworkPrefix(prefix, network)
    ensures forall addr, hrp, data, w :: IsWitness(addr, hrp, data, w) ==>
      LastIndexByte(addr, SEPARATOR) == |hrp| < |addr| && (prefix == addr[..|hrp| + 1] ==> (ok <==> hrp == network))
  {
    ok := Lower(prefix) == network + [SEPARATOR];
    PrefixIff(prefix, network);
    forall addr, hrp, data, w | IsWitness(addr, hrp, data, w)
      ensures LastIndexByte(addr, SEPARATOR) == |hrp| < |addr|
      ensures prefix == addr[..|hrp| + 1] ==> (ok <==> hrp == network)
    {
      PrefixTells(addr, hrp, data, w, network);
    }
  }

  lemma PrefixIff(prefix: Text, network: Text)
    ensures IsNetworkPrefix(prefix, network) <==> Lower(prefix) == network + [SEPARATOR]
  {
    hide ToLower;
    var lower := Lower(prefix);
    if |prefix| == |network| + 1 {
      OnlySeparatorIsSeparator(prefix[|network|]);
      forall i | 0 <= i < |prefix| ensures lower[i] == ToLower(prefix[i]) {
      }
      if lower == network + [SEPARATOR] {
        forall i | 0 <= i < |network| ensures ToLower(prefix[i]) == network[i] {
          assert (network + [SEPARATOR])[i] == network[i];
        }
        assert (network + [SEPARATOR])[|network|] == SEPARATOR;
      }
    }
  }

  lemma PrefixTells(addr: Text, hrp: Text, data: seq<Byte>, w: Witness, network: Text)
    requires IsWitness(addr, hrp, data, w)
    ensures LastIndexByte(addr, SEPARATOR) == |hrp| < |addr|
    ensures Lower(addr[..|hrp| + 1]) == network + [SEPARATOR] <==> hrp == network
  {
    hide IsWitness, Lower, LastIndexByte;
    PrefixOfWitness(addr, hrp);
    assert hrp == (hrp + [SEPARATOR])[..|hrp|] && network == (network + [SEPARATOR])[..|network|];
    if hrp + [SEPARATOR] == network + [SEPARATOR] {
      assert |hrp| == |network|;
    }
  }

  /** The text before its last separator is the network's part, in any case, and not too short. */
  predicate HasPrefix(addr: Text, network: Text) {
    var one := LastIndexByte(addr, SEPARATOR);
    one > 1 && IsNetworkPrefix(addr[..one + 1], network)
  }

  method DecodeAddress(addr: Text, network: Text) returns (r: Outcome<Address>)
    ensures r.Success? ==>
      && IsValid(r.value) && r.value.hrp == network && |network| > 1
      && exists data :: IsWitness(addr, network, data, Witness(0, r.value.program))
    ensures r.Failure? ==> |network| > 1 ==>
      forall data, program :: !IsWitness(addr, network, data, Witness(0, program))
    ensures r == Failure(UnknownAddressType) <==> !HasPrefix(addr, network)
    ensures r == Failure(UnsupportedVersion) <==>
      HasPrefix(addr, network) && exists hrp, data, w :: IsWitness(addr, hrp, data, w) && w.version != 0
    ensures r != Failure(UnsupportedLength)
  {
    hide Accepts, B.Unpacked, B.Rest, B.IsHarmless, B.IsStripped, IsEncoding;
    var oneIndex := LastIndexByte(addr, SEPARATOR);
    PrefixOfWitness(addr, network);
    if oneIndex > 1 {
      var prefix := addr[..oneIndex + 1];
      var known := IsBech32SegwitPrefix(prefix, network);
      if known {
        var found := DecodeSegWitAddress(addr);
        if found.Failure? {
          return Failure(found.error);
        }
        ghost var hrp, data :| IsWitness(addr, hrp, data, found.value);
        OneWitness(addr, hrp, data, found.value);
        if found.value.version != 0 {
          return Failure(UnsupportedVersion);
        }
        var program := found.value.program;
        var h := Lower(prefix[..|prefix| - 1]);
        assert h == network by {
          assert h == Lower(prefix)[..oneIndex];
        }
        HrpOfWitness(addr, hrp, data, found.value, network);
        if |program| == 20 {
          return Success(PubKeyHash(h, program));
        } else if |program| == 32 {
          return Success(ScriptHash(h, program));
        } else {
          return Failure(UnsupportedLength);
        }
      }
    }
    return Failure(UnknownAddressType);
  }

  /** The lower-case text of a witness starts with its human-readable part and the last separator. */
  lemma PrefixOfWitness(addr: Text, network: Text)
    ensures forall data, w :: IsWitness(addr, network, data, w) ==>
      var one := LastIndexByte(addr, SEPARATOR);
      one == |network| && Lower(addr[..one + 1]) == network + [SEPARATOR]
  {
    hide Spells, HasChecksum, IsWellFormed, Carries;
    LowerKeepsSeparators(addr);
    SeparatorIsLast(Lower(addr));
    forall data, w | IsWitness(addr, network, data, w)
      ensures var one := LastIndexByte(addr, SEPARATOR);
        one == |network| && Lower(addr[..one + 1]) == network + [SEPARATOR]
    {
      var one := |network|;
      assert IsEncoding(Lower(addr), network, data);
      assert Lower(addr[..one + 1]) == Lower(addr)[..one + 1] == Lower(addr)[..one] + [Lower(addr)[one]];
    }
  }

  lemma LowerKeepsSeparators(text: Text)
    ensures LastIndexByte(Lower(text), SEPARATOR) == LastIndexByte(text, SEPARATOR)
  {
    hide LastIndexByte, ToLower;
    var i, j := LastIndexByte(Lower(text), SEPARATOR), LastIndexByte(text, SEPARATOR);
    forall k | 0 <= k < |text| ensures text[k] == SEPARATOR <==> Lower(text)[k] == SEPARATOR {
      OnlySeparatorIsSeparator(text[k]);
    }
    assert j >= 0 ==> Lower(text)[j] == SEPARATOR;
    assert i >= 0 ==> text[i] == SEPARATOR;
  }

  lemma OnlySeparatorIsSeparator(c: Byte)
    ensures ToLower(c) == SEPARATOR <==> c == SEPARATOR
  {
  }

  lemma HrpOfWitness(addr: Text, hrp: Text, data: seq<Byte>, w: Witness, network: Text)
    requires IsWitness(addr, hrp, data, w)
    requires var one := LastIndexByte(addr, SEPARATOR);
      one > 1 && Lower(addr[..one + 1]) == network + [SEPARATOR]
    ensures hrp == network
  {
    hide Spells, HasChecksum, IsWellFormed, Carries;
    PrefixOfWitness(addr, hrp);
    assert hrp == (hrp + [SEPARATOR])[..|hrp|] && network == (network + [SEPARATOR])[..|network|];
  }

  lemma OneWitness(addr: Text, hrp: Text, data: seq<Byte>, w: Witness)
    requires IsWitness(addr, hrp, data, w)
    ensures forall hrp', data', w' :: IsWitness(addr, hrp', data', w') ==> w' == w
  {
    hide Accepts, B.Unpacked, B.Rest, B.IsHarmless, B.IsStripped;
    OnlyOneReading(addr, hrp, data);
    OnlyOneProgram(data, w);
  }

  /** An address that cannot be encoded becomes the empty text. */
  method EncodeAddress(a: Address) returns (text: Text, ghost data: seq<Byte>)
    requires IsValid(a)
    ensures text != [] ==>
      && IsEncoding(text, a.hrp, data) && data != [] && data[0] == 0 && B.IsPadded(a.program, 8, data[1..], 5)
    ensures IsLowercaseHrp(a.hrp) ==> (text != [] <==> |a.hrp| <= if a.PubKeyHash? then 50 else 30)
  {
    hide IsEncoding, IsLowercaseHrp, B.IsPadded;
    var encoded, groups := EncodeSegWitAddress(a.hrp, Witness(0, a.program));
    data := groups;
    if encoded.Failure? {
      return [], data;
    }
    EncodedLength(encoded.value, a.hrp, data);
    return encoded.value, data;
  }

  /** Decoding an encoded address gives the address, exactly when its network's part is long enough. */
  method RoundTrip(a: Address) returns (text: Text, r: Outcome<Address>)
    requires IsValid(a) && IsLowercaseHrp(a.hrp) && |a.hrp| <= if a.PubKeyHash? then 50 else 30
    ensures if |a.hrp| > 1 then r == Success(a) else r.Failure?
  {
    hide IsEncoding, IsLowercaseHrp, B.IsPadded, IsWitness;
    ghost var data;
    text, data := EncodeAddress(a);
    EncodingIsWitness(text, a.hrp, data, Witness(0, a.program));
    r := DecodeAddress(text, a.hrp);
  }

  /** Encoding a decoded address gives the text, in lower case. */
  method Canonical(addr: Text, network: Text) returns (r: Outcome<Address>, text: Text)
    requires IsLowercaseHrp(network)
    ensures r.Success? ==> text == Lower(addr)
  {
    hide IsEncoding, IsLowercaseHrp, B.IsPadded, Accepts, Carries;
    ghost var again;
    text := [];
    r := DecodeAddress(addr, network);
    if r.Success? {
      ghost var hrp := network;
      ghost var data :| IsWitness(addr, hrp, data, Witness(0, r.value.program));
      SameGroups(addr, hrp, data, Witness(0, r.value.program));
      text, again := EncodeAddress(r.value);
      SameText(addr, hrp, data, text, again, r.value);
    }
  }

  lemma SameGroups(addr: Text, hrp: Text, data: seq<Byte>, w: Witness)
    requires IsWitness(addr, hrp, data, w)
    ensures forall again :: B.IsPadded(w.program, 8, again, 5) ==> again == data[1..]
    ensures |hrp| + Groups(|w.program|) <= 82
  {
    hide B.Unpacked, B.Rest, B.IsHarmless, B.IsStripped, B.IsPadded, IsEncoding;
    assert AllGroups(data) by { EncodedGroups(Lower(addr), hrp, data); }
    forall i | 0 <= i < |data| - 1 ensures B.Fits(data[1..][i], 5) {
      assert IsGroup(data[i + 1]);
      FitsIsGroup(data[i + 1]);
    }
    forall again | B.IsPadded(w.program, 8, again, 5) ensures again == data[1..] {
      B.PaddingUndoesStripping(data[1..], w.program, again);
    }
    GroupsNeeded(data[1..], w.program);
    EncodedLength(Lower(addr), hrp, data);
  }

  lemma EncodedGroups(text: Text, hrp: Text, data: seq<Byte>)
    requires IsEncoding(text, hrp, data)
    ensures AllGroups(data)
  {
    hide HasChecksum, Symbol, IsGroup;
    var full :| Spells(full, text[|hrp| + 1..]) && full[..|data|] == data;
    forall i | 0 <= i < |data| ensures IsGroup(data[i]) {
      assert data[i] == full[..|data|][i];
    }
  }

  lemma GroupsNeeded(groups: seq<Byte>, program: seq<Byte>)
    requires B.IsHarmless(B.Rest(B.Unpacked(groups, 5), 8)) && B.IsStripped(groups, 5, program, 8)
    ensures |groups| == Groups(|program|)
  {
    hide B.Unpacked, B.Rest, B.AllFit;
    B.UnpackedLength(groups, 5);
    B.UnpackedLength(program, 8);
  }

  lemma SameText(addr: Text, hrp: Text, data: seq<Byte>, text: Text, again: seq<Byte>, a: Address)
    requires IsWitness(addr, hrp, data, Witness(0, a.program)) && a.hrp == hrp
    requires IsEncoding(text, hrp, again) && again != [] && again[0] == 0
    requires B.IsPadded(a.program, 8, again[1..], 5)
    ensures text == Lower(addr)
  {
    hide IsEncoding, IsWellFormed, B.Unpacked, B.Rest, B.IsHarmless, B.IsStripped, B.IsPadded;
    SameGroups(addr, hrp, data, Witness(0, a.program));
    assert again == [again[0]] + again[1..] && data == [data[0]] + data[1..];
    DecodingIsReencoded(addr, hrp, data, text);
  }
}
