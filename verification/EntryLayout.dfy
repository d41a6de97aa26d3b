/** The octets that are hashed for each kind of entry, field by field. */
module EntryLayout {
  import opened Wrappers
  import opened Numbers
  import opened Encoding
  import opened HashFormat
  import opened EntryHash

  lemma {:induction false} LittleEndianAt(v: nat, n: nat, k: nat)
    requires k < n
    ensures LittleEndian(v, n)[k] == v / Pow256(k) % 256
  {
    if k > 0 {
      LittleEndianAt(v / 256, n - 1, k - 1);
      assert v / 256 / Pow256(k - 1) == v / Pow256(k) by { QuotientOfQuotient(v, Pow256(k - 1)); }
    }
  }

  lemma {:induction false} BigEndianAt(v: nat, n: nat, k: nat)
    requires k < n
    ensures BigEndian(v, n)[n - 1 - k] == v / Pow256(k) % 256
  {
    if k > 0 {
      BigEndianAt(v / 256, n - 1, k - 1);
      assert v / 256 / Pow256(k - 1) == v / Pow256(k) by { QuotientOfQuotient(v, Pow256(k - 1)); }
    }
  }

  lemma QuotientOfQuotient(v: nat, d: nat)
    requires d > 0
    ensures v / 256 / d == v / (256 * d)
  {
    var q, r := v / (256 * d), v % (256 * d);
    assert v == (256 * d) * q + r;
    assert v / 256 == d * q + r / 256 && r / 256 < d by {
      assert (256 * d) * q == 256 * (d * q);
    }
    DivisionIsUnique(d * q + r / 256, d, q, r / 256);
  }

  lemma DivisionIsUnique(n: nat, d: nat, q: nat, r: nat)
    requires d > 0 && r < d && n == d * q + r
    ensures n / d == q
  {
    var x, y := n / d, n % d;
    assert d * x + y == d * q + r;
    if x < q {
      NextMultiple(d, x, q);
    } else if x > q {
      NextMultiple(d, q, x);
    }
  }

  lemma NextMultiple(d: nat, x: nat, y: nat)
    requires x < y
    ensures d * x + d <= d * y
  {
    assert d * (x + 1) <= d * y;
  }

  /** The greatest lengths and numbers that are written take 31 and 63 bits. */
  lemma LimitsOfVarints()
    ensures 2 * (MAX_INT32 + 1) == Pow256(4) && 2 * (MAX_INT64 + 1) == Pow256(8)
  {
    assert Pow256(4) == 0x1_0000_0000;
  }

  /** The octets of "entryid:". */
  const PREFIX: Bytes := [0x65, 0x6e, 0x74, 0x72, 0x79, 0x69, 0x64, 0x3a]

  /** The kind as octets, with the colon after it. */
  function Tag(e: Entry): Bytes {
    match e
    // mux1:
    case Mux(_, _) =>
      [0x6d, 0x75, 0x78, 0x31, 0x3a]
    // originalOutput1:
    case OriginalOutput(_, _, _, _) =>
      [0x6f, 0x72, 0x69, 0x67, 0x69, 0x6e, 0x61, 0x6c, 0x4f, 0x75, 0x74, 0x70, 0x75, 0x74,
       0x31, 0x3a]
    // voteOutput1:
    case VoteOutput(_, _, _, _, _) =>
      [0x76, 0x6f, 0x74, 0x65, 0x4f, 0x75, 0x74, 0x70, 0x75, 0x74, 0x31, 0x3a]
    // txheader:
    case TxHeader(_, _, _, _) =>
      [0x74, 0x78, 0x68, 0x65, 0x61, 0x64, 0x65, 0x72, 0x3a]
    // blockheader:
    case BlockHeader(_, _, _, _, _) =>
      [0x62, 0x6c, 0x6f, 0x63, 0x6b, 0x68, 0x65, 0x61, 0x64, 0x65, 0x72, 0x3a]
    // coinbase1:
    case Coinbase(_) =>
      [0x63, 0x6f, 0x69, 0x6e, 0x62, 0x61, 0x73, 0x65, 0x31, 0x3a]
    // issuance1:
    case Issuance(_, _, _) =>
      [0x69, 0x73, 0x73, 0x75, 0x61, 0x6e, 0x63, 0x65, 0x31, 0x3a]
    // retirement1:
    case Retirement(_, _) =>
      [0x72, 0x65, 0x74, 0x69, 0x72, 0x65, 0x6d, 0x65, 0x6e, 0x74, 0x31, 0x3a]
    // spend1:
    case Spend(_, _) =>
      [0x73, 0x70, 0x65, 0x6e, 0x64, 0x31, 0x3a]
    // vetoInput1:
    case VetoInput(_, _) =>
      [0x76, 0x65, 0x74, 0x6f, 0x49, 0x6e, 0x70, 0x75, 0x74, 0x31, 0x3a]
  }

  /** What the identifier is the hash of. */
  lemma PreimageLayout(e: Entry, hash: Bytes -> Hash)
    ensures Preimage(e, hash) == PREFIX + Tag(e) + HashBytes(hash(AllEncoded(Body(e))))
  {
    hide AllEncoded, Body, HashBytes;
    assert Ascii("entryid:") == PREFIX;
    assert Ascii(Typ(e)) + Ascii(":") == Tag(e) by { TagOctets(e); }
    var h := HashBytes(hash(AllEncoded(Body(e))));
    assert Ascii("entryid:") + Ascii(Typ(e)) + Ascii(":") + h == PREFIX + (Ascii(Typ(e)) + Ascii(":")) + h;
  }

  lemma TagOctets(e: Entry)
    ensures Ascii(Typ(e)) + Ascii(":") == Tag(e)
  {
    hide Ascii, Tag, Typ;
    if KindOf(e) < 3 {
      FirstTags(e);
    } else if KindOf(e) < 6 {
      MiddleTags(e);
    } else {
      LastTags(e);
    }
  }

  lemma FirstTags(e: Entry)
    requires KindOf(e) < 3
    ensures Ascii(Typ(e)) + Ascii(":") == Tag(e)
  {
  }

  lemma MiddleTags(e: Entry)
    requires 3 <= KindOf(e) < 6
    ensures Ascii(Typ(e)) + Ascii(":") == Tag(e)
  {
  }

  lemma LastTags(e: Entry)
    requires KindOf(e) >= 6
    ensures Ascii(Typ(e)) + Ascii(":") == Tag(e)
  {
  }

  lemma NoHashIsZero()
    ensures HashBytes(ZERO) == seq(32, i => 0)
  {
    forall i | 0 <= i < 8 ensures BigEndian(0, 8)[i] == 0 {
      BigEndianAt(0, 8, 7 - i);
    }
  }

  function RefOctets(h: Option<Hash>): Bytes { HashBytes(if h.None? then ZERO else h.value) }

  function NumberOctets(n: Uint64): Bytes { LittleEndian(n, 8) }

  function AmountOctets(a: Option<AssetAmount>): Bytes {
    if a.None? then [] else RefOctets(a.value.assetId) + NumberOctets(a.value.amount)
  }

  function SourceOctets(s: Option<ValueSource>): Bytes {
    if s.None? then []
    else RefOctets(s.value.ref) + AmountOctets(s.value.value) + NumberOctets(s.value.position)
  }

  function ProgramOctets(p: Option<Program>): Bytes {
    if p.None? then [] else NumberOctets(p.value.vmVersion) + Varstr(p.value.code)
  }

  function AllSources(ss: seq<Option<ValueSource>>): Bytes {
    if ss == [] then [] else AllSources(ss[..|ss| - 1]) + SourceOctets(ss[|ss| - 1])
  }

  function AllRefs(hs: seq<Option<Hash>>): Bytes {
    if hs == [] then [] else AllRefs(hs[..|hs| - 1]) + RefOctets(hs[|hs| - 1])
  }

  /** The fields in the order in which they are written, missing structs leaving nothing. */
  function Layout(e: Entry): Bytes {
    match e
    case Mux(sources, program) => Uvarint(|sources|) + AllSources(sources) + ProgramOctets(program)
    case OriginalOutput(source, program, stateData, _) =>
      SourceOctets(source) + ProgramOctets(program) + VarstrList(stateData)
    case VoteOutput(source, program, vote, stateData, _) =>
      SourceOctets(source) + ProgramOctets(program) + Varstr(vote) + VarstrList(stateData)
    case TxHeader(version, _, timeRange, resultIds) =>
      NumberOctets(version) + NumberOctets(timeRange) + (Uvarint(|resultIds|) + AllRefs(resultIds))
    case BlockHeader(version, height, previous, timestamp, root) =>
      NumberOctets(version) + NumberOctets(height) + RefOctets(previous) + NumberOctets(timestamp) + RefOctets(root)
    case Coinbase(arbitrary) => Varstr(arbitrary)
    case Issuance(nonceHash, value, _) => RefOctets(nonceHash) + AmountOctets(value)
    case Retirement(source, _) => SourceOctets(source)
    case Spend(spent, _) => RefOctets(spent)
    case VetoInput(spent, _) => RefOctets(spent)
  }

  lemma EncodedOfOne(a: Value)
    ensures AllEncoded([a]) == Encoded(a)
  {
    hide Encoded;
    assert [a][1..] == [];
    assert Encoded(a) + [] == Encoded(a);
  }

  lemma EncodedOfMore(a: Value, vs: seq<Value>)
    ensures AllEncoded([a] + vs) == Encoded(a) + AllEncoded(vs)
  {
    hide Encoded;
    assert ([a] + vs)[1..] == vs;
  }

  lemma EncodedOfTwo(a: Value, b: Value)
    ensures AllEncoded([a, b]) == Encoded(a) + Encoded(b)
  {
    hide Encoded, AllEncoded;
    EncodedOfOne(b);
    EncodedOfMore(a, [b]);
    assert [a, b] == [a] + [b];
  }

  lemma EncodedOfThree(a: Value, b: Value, c: Value)
    ensures AllEncoded([a, b, c]) == Encoded(a) + Encoded(b) + Encoded(c)
  {
    hide Encoded, AllEncoded;
    EncodedOfTwo(b, c);
    EncodedOfMore(a, [b, c]);
    assert [a, b, c] == [a] + [b, c];
    assert Encoded(a) + (Encoded(b) + Encoded(c)) == Encoded(a) + Encoded(b) + Encoded(c);
  }

  lemma EncodedOfFour(a: Value, b: Value, c: Value, d: Value)
    ensures AllEncoded([a, b, c, d]) == Encoded(a) + Encoded(b) + Encoded(c) + Encoded(d)
  {
    hide Encoded, AllEncoded;
    EncodedOfThree(b, c, d);
    EncodedOfMore(a, [b, c, d]);
    assert [a, b, c, d] == [a] + [b, c, d];
    assert Encoded(a) + (Encoded(b) + Encoded(c) + Encoded(d)) == Encoded(a) + Encoded(b) + Encoded(c) + Encoded(d);
  }

  lemma AmountIsLaidOut(a: Option<AssetAmount>)
    ensures Encoded(OfAmount(a)) == AmountOctets(a)
  {
    hide HashBytes;
    if a.Some? {
      EncodedOfTwo(HashRef(a.value.assetId), Number(a.value.amount));
    }
  }

  lemma SourceIsLaidOut(s: Option<ValueSource>)
    ensures Encoded(OfSource(s)) == SourceOctets(s)
  {
    hide HashBytes, OfAmount, AmountOctets;
    if s.Some? {
      EncodedOfThree(HashRef(s.value.ref), OfAmount(s.value.value), Number(s.value.position));
      AmountIsLaidOut(s.value.value);
    }
  }

  lemma ProgramIsLaidOut(p: Option<Program>)
    ensures Encoded(OfProgram(p)) == ProgramOctets(p)
  {
    if p.Some? {
      EncodedOfTwo(Number(p.value.vmVersion), Text(p.value.code));
    }
  }

  lemma {:induction false} SourcesAreLaidOut(ss: seq<Option<ValueSource>>)
    ensures AllEncoded(OfSources(ss)) == AllSources(ss)
  {
    hide SourceOctets, OfSource, Encoded;
    if ss != [] {
      var n := |ss| - 1;
      SourcesAreLaidOut(ss[..n]);
      SourceIsLaidOut(ss[n]);
      SourcesGrow(ss[..n], ss[n]);
      assert ss == ss[..n] + [ss[n]];
    }
  }

  lemma {:induction false} SourcesGrow(ss: seq<Option<ValueSource>>, s: Option<ValueSource>)
    ensures AllEncoded(OfSources(ss + [s])) == AllEncoded(OfSources(ss)) + Encoded(OfSource(s))
  {
    hide OfSource, Encoded;
    if ss == [] {
      assert ([] + [s])[1..] == [];
      EncodedOfOne(OfSource(s));
      assert OfSources([] + [s]) == [OfSource(s)];
    } else {
      SourcesGrow(ss[1..], s);
      assert (ss + [s])[1..] == ss[1..] + [s];
      EncodedOfMore(OfSource(ss[0]), OfSources(ss[1..]));
      EncodedOfMore(OfSource(ss[0]), OfSources(ss[1..] + [s]));
    }
  }

  lemma {:induction false} RefsAreLaidOut(hs: seq<Option<Hash>>)
    ensures AllEncoded(OfHashes(hs)) == AllRefs(hs)
  {
    hide RefOctets, Encoded;
    if hs != [] {
      var n := |hs| - 1;
      RefsAreLaidOut(hs[..n]);
      RefsGrow(hs[..n], hs[n]);
      assert Encoded(HashRef(hs[n])) == RefOctets(hs[n]) by { RefIsLaidOut(hs[n]); }
      assert hs == hs[..n] + [hs[n]];
    }
  }

  lemma RefIsLaidOut(h: Option<Hash>)
    ensures Encoded(HashRef(h)) == RefOctets(h)
  {
  }

  lemma {:induction false} RefsGrow(hs: seq<Option<Hash>>, h: Option<Hash>)
    ensures AllEncoded(OfHashes(hs + [h])) == AllEncoded(OfHashes(hs)) + Encoded(HashRef(h))
  {
    hide Encoded;
    if hs == [] {
      assert ([] + [h])[1..] == [];
      EncodedOfOne(HashRef(h));
      assert OfHashes([] + [h]) == [HashRef(h)];
    } else {
      RefsGrow(hs[1..], h);
      assert (hs + [h])[1..] == hs[1..] + [h];
      EncodedOfMore(HashRef(hs[0]), OfHashes(hs[1..]));
      EncodedOfMore(HashRef(hs[0]), OfHashes(hs[1..] + [h]));
    }
  }

  /** The octets of a body are its fields, one after another. */
  lemma BodyLayout(e: Entry)
    ensures AllEncoded(Body(e)) == Layout(e)
  {
    hide AllEncoded, Body, Layout;
    if KindOf(e) == 0 {
      MuxLayout(e);
    } else if KindOf(e) == 1 || KindOf(e) == 2 {
      OutputLayout(e);
    } else if KindOf(e) == 3 || KindOf(e) == 4 {
      HeaderLayout(e);
    } else {
      InputLayout(e);
    }
  }

  lemma MuxLayout(e: Entry)
    requires KindOf(e) == 0
    ensures AllEncoded(Body(e)) == Layout(e)
  {
    hide ProgramOctets, OfProgram, AllEncoded, Uvarint, AllSources, OfSources;
    SourcesAreLaidOut(e.sources);
    ProgramIsLaidOut(e.program);
    EncodedOfTwo(List(OfSources(e.sources)), OfProgram(e.program));
  }

  lemma OutputLayout(e: Entry)
    requires KindOf(e) == 1 || KindOf(e) == 2
    ensures AllEncoded(Body(e)) == Layout(e)
  {
    hide SourceOctets, ProgramOctets, OfSource, OfProgram, AllEncoded, Varstr, VarstrList;
    SourceIsLaidOut(e.source);
    ProgramIsLaidOut(e.controlProgram);
    if e.OriginalOutput? {
      EncodedOfThree(OfSource(e.source), OfProgram(e.controlProgram), Texts(e.stateData));
    } else {
      EncodedOfFour(OfSource(e.source), OfProgram(e.controlProgram), Text(e.vote), Texts(e.stateData));
    }
  }

  lemma HeaderLayout(e: Entry)
    requires KindOf(e) == 3 || KindOf(e) == 4
    ensures AllEncoded(Body(e)) == Layout(e)
  {
    hide AllEncoded, HashBytes, LittleEndian, Uvarint, AllRefs, OfHashes;
    match e
    case TxHeader(version, _, timeRange, resultIds) =>
      RefsAreLaidOut(resultIds);
      EncodedOfThree(Number(version), Number(timeRange), List(OfHashes(resultIds)));
    case BlockHeader(version, height, previous, timestamp, root) =>
      var a, b, c, d, f := Number(version), Number(height), HashRef(previous), Number(timestamp), HashRef(root);
      EncodedOfFour(b, c, d, f);
      EncodedOfMore(a, [b, c, d, f]);
      assert [a, b, c, d, f] == [a] + [b, c, d, f];
  }

  lemma InputLayout(e: Entry)
    requires KindOf(e) >= 5
    ensures AllEncoded(Body(e)) == Layout(e)
  {
    hide SourceOctets, AmountOctets, OfSource, OfAmount, AllEncoded, HashBytes, Varstr;
    match e
    case Coinbase(arbitrary) => EncodedOfOne(Text(arbitrary));
    case Issuance(nonceHash, value, _) =>
      AmountIsLaidOut(value);
      EncodedOfTwo(HashRef(nonceHash), OfAmount(value));
    case Retirement(source, _) =>
      SourceIsLaidOut(source);
      EncodedOfOne(OfSource(source));
    case Spend(spent, _) => EncodedOfOne(HashRef(spent));
    case VetoInput(spent, _) => EncodedOfOne(HashRef(spent));
  }
}
