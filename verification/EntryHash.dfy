/** The identifiers of entries: a hash of the kind and of a hash of the body. */
module EntryHash {
  import opened Wrappers
  import opened Encoding
  import opened HashFormat
  import opened Numbers

  datatype Program = Program(vmVersion: Uint64, code: Bytes)

  datatype AssetAmount = AssetAmount(assetId: Option<Hash>, amount: Uint64)

  datatype ValueSource = ValueSource(ref: Option<Hash>, value: Option<AssetAmount>, position: Uint64)

  /** The entries, with the fields that are hashed and the ordinals and sizes that are not. */
  datatype Entry =
    | Mux(sources: seq<Option<ValueSource>>, program: Option<Program>)
    | OriginalOutput(
        source: Option<ValueSource>, controlProgram: Option<Program>, stateData: seq<Bytes>, ordinal: Uint64)
    | VoteOutput(
        source: Option<ValueSource>, controlProgram: Option<Program>, vote: Bytes, stateData: seq<Bytes>,
        ordinal: Uint64)
    | TxHeader(version: Uint64, serializedSize: Uint64, timeRange: Uint64, resultIds: seq<Option<Hash>>)
    | BlockHeader(
        version: Uint64, height: Uint64, previousBlockId: Option<Hash>, timestamp: Uint64,
        transactionsRoot: Option<Hash>)
    | Coinbase(arbitrary: Bytes)
    | Issuance(nonceHash: Option<Hash>, value: Option<AssetAmount>, ordinal: Uint64)
    | Retirement(source: Option<ValueSource>, ordinal: Uint64)
    | Spend(spentOutputId: Option<Hash>, ordinal: Uint64)
    | VetoInput(spentOutputId: Option<Hash>, ordinal: Uint64)

  function Typ(e: Entry): string {
    match e
    case Mux(_, _) => "mux1"
    case OriginalOutput(_, _, _, _) => "originalOutput1"
    case VoteOutput(_, _, _, _, _) => "voteOutput1"
    case TxHeader(_, _, _, _) => "txheader"
    case BlockHeader(_, _, _, _, _) => "blockheader"
    case Coinbase(_) => "coinbase1"
    case Issuance(_, _, _) => "issuance1"
    case Retirement(_, _) => "retirement1"
    case Spend(_, _) => "spend1"
    case VetoInput(_, _) => "vetoInput1"
  }

  function OfProgram(p: Option<Program>): Value {
    Ptr(if p.None? then None else Some(Struct([Number(p.value.vmVersion), Text(p.value.code)])))
  }

  function OfAmount(a: Option<AssetAmount>): Value {
    Ptr(if a.None? then None else Some(Struct([HashRef(a.value.assetId), Number(a.value.amount)])))
  }

  function OfSource(s: Option<ValueSource>): Value {
    Ptr(if s.None? then None
        else Some(Struct([HashRef(s.value.ref), OfAmount(s.value.value), Number(s.value.position)])))
  }

  function OfSources(ss: seq<Option<ValueSource>>): (vs: seq<Value>)
    ensures |vs| == |ss|
  {
    if ss == [] then [] else [OfSource(ss[0])] + OfSources(ss[1..])
  }

  function OfHashes(hs: seq<Option<Hash>>): (vs: seq<Value>)
    ensures |vs| == |hs|
  {
    if hs == [] then [] else [HashRef(hs[0])] + OfHashes(hs[1..])
  }

  /** The fields that the kind's own writer names, in its order. */
  function Body(e: Entry): seq<Value> {
    match e
    case Mux(sources, program) => [List(OfSources(sources)), OfProgram(program)]
    case OriginalOutput(source, program, stateData, _) => [OfSource(source), OfProgram(program), Texts(stateData)]
    case VoteOutput(source, program, vote, stateData, _) =>
      [OfSource(source), OfProgram(program), Text(vote), Texts(stateData)]
    case TxHeader(version, _, timeRange, resultIds) =>
      [Number(version), Number(timeRange), List(OfHashes(resultIds))]
    case BlockHeader(version, height, previous, timestamp, root) =>
      [Number(version), Number(height), HashRef(previous), Number(timestamp), HashRef(root)]
    case Coinbase(arbitrary) => [Text(arbitrary)]
    case Issuance(nonceHash, value, _) => [HashRef(nonceHash), OfAmount(value)]
    case Retirement(source, _) => [OfSource(source)]
    case Spend(spent, _) => [HashRef(spent)]
    case VetoInput(spent, _) => [HashRef(spent)]
  }

  const PROGRAM: Shape := PtrShape(StructShape([NumberShape, TextShape]))
  const AMOUNT: Shape := PtrShape(StructShape([HashShape, NumberShape]))
  const SOURCE: Shape := PtrShape(StructShape([HashShape, AMOUNT, NumberShape]))

  function BodyShape(e: Entry): seq<Shape> {
    match e
    case Mux(_, _) => [ListShape(SOURCE), PROGRAM]
    case OriginalOutput(_, _, _, _) => [SOURCE, PROGRAM, TextsShape]
    case VoteOutput(_, _, _, _, _) => [SOURCE, PROGRAM, TextShape, TextsShape]
    case TxHeader(_, _, _, _) => [NumberShape, NumberShape, ListShape(HashShape)]
    case BlockHeader(_, _, _, _, _) => [NumberShape, NumberShape, HashShape, NumberShape, HashShape]
    case Coinbase(_) => [TextShape]
    case Issuance(_, _, _) => [HashShape, AMOUNT]
    case Retirement(_, _) => [SOURCE]
    case Spend(_, _) => [HashShape]
    case VetoInput(_, _) => [HashShape]
  }

  ghost predicate IsSourceWhole(s: Option<ValueSource>) { s.Some? && s.value.value.Some? }

  /** Every nested struct is there. */
  ghost predicate IsWhole(e: Entry) {
    match e
    case Mux(sources, program) =>
      program.Some? && forall i :: 0 <= i < |sources| ==> IsSourceWhole(sources[i])
    case OriginalOutput(source, program, _, _) => IsSourceWhole(source) && program.Some?
    case VoteOutput(source, program, _, _, _) => IsSourceWhole(source) && program.Some?
    case Issuance(_, value, _) => value.Some?
    case Retirement(source, _) => IsSourceWhole(source)
    case _ => true
  }

  lemma ShapeOfOne(a: Value, s: Shape)
    ensures HaveShapes([a], [s]) <==> HasShape(a, s)
  {
    hide HasShape;
    assert [a][1..] == [] && [s][1..] == [];
    assert HaveShapes([], []);
  }

  lemma ShapeOfTwo(a: Value, b: Value, s: Shape, t: Shape)
    ensures HaveShapes([a, b], [s, t]) <==> HasShape(a, s) && HasShape(b, t)
  {
    hide HasShape;
    assert [a, b][1..] == [b] && [s, t][1..] == [t];
    ShapeOfOne(b, t);
  }

  lemma ShapeOfThree(a: Value, b: Value, c: Value, s: Shape, t: Shape, u: Shape)
    ensures HaveShapes([a, b, c], [s, t, u]) <==> HasShape(a, s) && HasShape(b, t) && HasShape(c, u)
  {
    hide HasShape;
    assert [a, b, c][1..] == [b, c] && [s, t, u][1..] == [t, u];
    ShapeOfTwo(b, c, t, u);
  }

  lemma ProgramShape(p: Option<Program>)
    requires p.Some?
    ensures HasShape(OfProgram(p), PROGRAM)
  {
    ShapeOfTwo(Number(p.value.vmVersion), Text(p.value.code), NumberShape, TextShape);
  }

  lemma AmountShape(a: Option<AssetAmount>)
    requires a.Some?
    ensures HasShape(OfAmount(a), AMOUNT)
  {
    ShapeOfTwo(HashRef(a.value.assetId), Number(a.value.amount), HashShape, NumberShape);
  }

  lemma SourceShape(s: Option<ValueSource>)
    requires IsSourceWhole(s)
    ensures HasShape(OfSource(s), SOURCE)
  {
    AmountShape(s.value.value);
    ShapeOfThree(HashRef(s.value.ref), OfAmount(s.value.value), Number(s.value.position),
                 HashShape, AMOUNT, NumberShape);
  }

  lemma ShapeOfFour(a: Value, b: Value, c: Value, d: Value, s: Shape, t: Shape, u: Shape, v: Shape)
    ensures HaveShapes([a, b, c, d], [s, t, u, v]) <==>
      HasShape(a, s) && HasShape(b, t) && HasShape(c, u) && HasShape(d, v)
  {
    hide HasShape;
    assert [a, b, c, d][1..] == [b, c, d] && [s, t, u, v][1..] == [t, u, v];
    ShapeOfThree(b, c, d, t, u, v);
  }

  lemma {:induction false} SourcesShape(ss: seq<Option<ValueSource>>)
    requires forall i :: 0 <= i < |ss| ==> IsSourceWhole(ss[i])
    ensures AllHaveShape(OfSources(ss), SOURCE)
  {
    hide HasShape, OfSource, IsSourceWhole;
    if ss != [] {
      SourceShape(ss[0]);
      SourcesShape(ss[1..]);
    }
  }

  lemma {:induction false} HashesShape(hs: seq<Option<Hash>>)
    ensures AllHaveShape(OfHashes(hs), HashShape)
  {
    if hs != [] {
      HashesShape(hs[1..]);
    }
  }

  /** A whole entry's body has the shape of its kind. */
  lemma BodyHasShape(e: Entry)
    requires IsWhole(e)
    ensures HaveShapes(Body(e), BodyShape(e))
  {
    hide HaveShapes, OfSource, OfProgram, OfAmount, IsSourceWhole, AllHaveShape;
    match e
    case Mux(sources, program) =>
      SourcesShape(sources);
      ProgramShape(program);
      ShapeOfTwo(List(OfSources(sources)), OfProgram(program), ListShape(SOURCE), PROGRAM);
    case OriginalOutput(source, program, stateData, _) =>
      SourceShape(source);
      ProgramShape(program);
      ShapeOfThree(OfSource(source), OfProgram(program), Texts(stateData), SOURCE, PROGRAM, TextsShape);
    case VoteOutput(source, program, vote, stateData, _) =>
      SourceShape(source);
      ProgramShape(program);
      ShapeOfFour(OfSource(source), OfProgram(program), Text(vote), Texts(stateData),
                  SOURCE, PROGRAM, TextShape, TextsShape);
    case TxHeader(version, _, timeRange, resultIds) =>
      HashesShape(resultIds);
      ShapeOfThree(Number(version), Number(timeRange), List(OfHashes(resultIds)),
                   NumberShape, NumberShape, ListShape(HashShape));
    case BlockHeader(version, height, previous, timestamp, root) =>
      var a, b, c, d, f := Number(version), Number(height), HashRef(previous), Number(timestamp), HashRef(root);
      ShapeOfFour(b, c, d, f, NumberShape, HashShape, NumberShape, HashShape);
      ShapesOfMore(a, [b, c, d, f], NumberShape, [NumberShape, HashShape, NumberShape, HashShape]);
      assert Body(e) == [a] + [b, c, d, f];
      assert BodyShape(e) == [NumberShape] + [NumberShape, HashShape, NumberShape, HashShape];
    case Coinbase(arbitrary) => ShapeOfOne(Text(arbitrary), TextShape);
    case Issuance(nonceHash, value, _) =>
      AmountShape(value);
      ShapeOfTwo(HashRef(nonceHash), OfAmount(value), HashShape, AMOUNT);
    case Retirement(source, _) =>
      SourceShape(source);
      ShapeOfOne(OfSource(source), SOURCE);
    case Spend(spent, _) => ShapeOfOne(HashRef(spent), HashShape);
    case VetoInput(spent, _) => ShapeOfOne(HashRef(spent), HashShape);
  }

  lemma ShapesOfMore(a: Value, vs: seq<Value>, s: Shape, ss: seq<Shape>)
    requires HasShape(a, s) && HaveShapes(vs, ss)
    ensures HaveShapes([a] + vs, [s] + ss)
  {
    hide HasShape;
    assert ([a] + vs)[1..] == vs && ([s] + ss)[1..] == ss;
  }

  /** The names of the kinds differ. */
  lemma TypDetermines(e: Entry, f: Entry)
    requires Typ(e) == Typ(f)
    ensures BodyShape(e) == BodyShape(f) && KindOf(e) == KindOf(f)
  {
    assert KindOf(e) == KindOf(f) by {
      assert Typ(e)[0] == Typ(f)[0] && Typ(e)[1] == Typ(f)[1] && |Typ(e)| == |Typ(f)|;
    }
  }

  ghost function KindOf(e: Entry): nat {
    match e
    case Mux(_, _) => 0
    case OriginalOutput(_, _, _, _) => 1
    case VoteOutput(_, _, _, _, _) => 2
    case TxHeader(_, _, _, _) => 3
    case BlockHeader(_, _, _, _, _) => 4
    case Coinbase(_) => 5
    case Issuance(_, _, _) => 6
    case Retirement(_, _) => 7
    case Spend(_, _) => 8
    case VetoInput(_, _) => 9
  }

  /** The same kind, and bodies that differ at most in missing against zero hashes. */
  ghost predicate Agree(e: Entry, f: Entry) {
    Typ(e) == Typ(f) && AreSame(Body(e), Body(f))
  }

  /** The octets that the hasher is fed tell the bodies of one kind apart. */
  lemma BodiesDecode(e: Entry, f: Entry)
    requires IsWhole(e) && IsWhole(f) && Typ(e) == Typ(f)
    requires AreWritable(Body(e)) && AreWritable(Body(f))
    ensures AllEncoded(Body(e)) == AllEncoded(Body(f)) <==> Agree(e, f)
  {
    hide Body, BodyShape, HaveShapes, AreWritable, AllEncoded, AreSame, IsWhole, Typ;
    TypDetermines(e, f);
    BodyHasShape(e);
    BodyHasShape(f);
    if AllEncoded(Body(e)) == AllEncoded(Body(f)) {
      FieldsDecode(Body(e), Body(f), BodyShape(e), [], []);
    }
    if Agree(e, f) {
      SameAreEncodedAlike(Body(e), Body(f));
    }
  }

  function Ascii(s: string): (b: Bytes)
    ensures |b| == |s|
  {
    seq(|s|, i requires 0 <= i < |s| => (s[i] as int) % 256)
  }

  ghost predicate IsAscii(s: string) {
    forall i :: 0 <= i < |s| ==> s[i] as int < 256
  }

  lemma AsciiIsInjective(s: string, t: string)
    requires IsAscii(s) && IsAscii(t) && Ascii(s) == Ascii(t)
    ensures s == t
  {
    forall i | 0 <= i < |s| ensures s[i] == t[i] {
      assert Ascii(s)[i] == Ascii(t)[i];
    }
  }

  lemma TypIsAscii(e: Entry)
    ensures IsAscii(Typ(e))
  {
  }

  /** What the outer hash is taken of. */
  function Preimage(e: Entry, hash: Bytes -> Hash): Bytes {
    Ascii("entryid:") + Ascii(Typ(e)) + Ascii(":") + HashBytes(hash(AllEncoded(Body(e))))
  }

  /** Writing fails only on lengths of more than 31 bits; the source panics then. */
  method EntryID(entry: Option<Entry>, hash: Bytes -> Hash) returns (id: Result<Hash>)
    ensures entry.None? ==> id == Ok(ZERO)
    ensures entry.Some? ==>
      var e := entry.value;
      id == if AreWritable(Body(e)) then Ok(hash(Preimage(e, hash))) else Err(OutOfRange)
  {
    hide Body, AreWritable, AllEncoded, Typ, HashBytes, Ascii;
    if entry.None? {
      return Ok(ZERO);
    }
    var e := entry.value;
    var hasher := new Writer();
    hasher.Write(Ascii("entryid:"));
    hasher.Write(Ascii(Typ(e)));
    hasher.Write(Ascii(":"));
    var bh := new Writer();
    var ok := WriteAllForHash(bh, Body(e));
    if !ok {
      return Err(OutOfRange);
    }
    assert bh.bytes == AllEncoded(Body(e));
    hasher.Write(HashBytes(hash(bh.bytes)));
    assert hasher.bytes == Preimage(e, hash);
    id := Ok(hash(hasher.bytes));
  }

  /** Two inputs on which the hash function fails to be collision-free. */
  ghost predicate Collide(hash: Bytes -> Hash, a: Bytes, b: Bytes) {
    a != b && hash(a) == hash(b)
  }

  /** Entries have one identifier exactly when they agree, or else a collision has been found. */
  lemma EntryIDIdentifies(e: Entry, f: Entry, hash: Bytes -> Hash)
    requires IsWhole(e) && IsWhole(f) && AreWritable(Body(e)) && AreWritable(Body(f))
    requires !Collide(hash, Preimage(e, hash), Preimage(f, hash))
    requires !Collide(hash, AllEncoded(Body(e)), AllEncoded(Body(f)))
    ensures hash(Preimage(e, hash)) == hash(Preimage(f, hash)) <==> Agree(e, f)
  {
    hide IsWhole, AreWritable, Body, AllEncoded, Typ, AreSame, Ascii, HashBytes;
    var a, b := hash(AllEncoded(Body(e))), hash(AllEncoded(Body(f)));
    if Preimage(e, hash) == Preimage(f, hash) {
      assert |Ascii(Typ(e))| == |Ascii(Typ(f))|;
      SplitEqual(Ascii("entryid:") + Ascii(Typ(e)) + Ascii(":"), HashBytes(a),
                 Ascii("entryid:") + Ascii(Typ(f)) + Ascii(":"), HashBytes(b));
      SplitEqual(Ascii("entryid:") + Ascii(Typ(e)), Ascii(":"), Ascii("entryid:") + Ascii(Typ(f)), Ascii(":"));
      SplitEqual(Ascii("entryid:"), Ascii(Typ(e)), Ascii("entryid:"), Ascii(Typ(f)));
      TypIsAscii(e);
      TypIsAscii(f);
      AsciiIsInjective(Typ(e), Typ(f));
      HashBytesAreInjective(a, b);
    }
    if Typ(e) == Typ(f) {
      BodiesDecode(e, f);
    }
  }

  /** Each source is missing, or whole. */
  ghost predicate HasGaps(sources: seq<Option<ValueSource>>) {
    forall i :: 0 <= i < |sources| ==> sources[i].None? || IsSourceWhole(sources[i])
  }

  /**
   * Which multiplexers have one body when sources may be missing: with programs of one length, those
   * with as many places, the same sources in the same order, and the same program.
   */
  lemma MuxBodiesDecodeIff(e: Entry, f: Entry)
    requires e.Mux? && f.Mux? && HasGaps(e.sources) && HasGaps(f.sources)
    requires e.program.Some? && f.program.Some? && |e.program.value.code| == |f.program.value.code|
    requires AreWritable(Body(e)) && AreWritable(Body(f))
    ensures AllEncoded(Body(e)) == AllEncoded(Body(f)) <==>
      && |e.sources| == |f.sources|
      && AreSame(Present(OfSources(e.sources)), Present(OfSources(f.sources)))
      && e.program == f.program
  {
    hide Encoded, AllEncoded, AreSame, Present, OfSources, OfSource, OfProgram, AreTraced, IsWritable, HasShape;
    var v, w := List(OfSources(e.sources)), List(OfSources(f.sources));
    var p, q := OfProgram(e.program), OfProgram(f.program);
    BodyOfTwo(v, p);
    BodyOfTwo(w, q);
    SourcesAreTraced(e.sources);
    SourcesAreTraced(f.sources);
    ListsDecodeIff(v.elements, w.elements, SOURCE);
    ProgramLength(e.program.value);
    ProgramLength(f.program.value);
    if AllEncoded(Body(e)) == AllEncoded(Body(f)) {
      var n := |Encoded(v)|;
      assert |Encoded(v) + Encoded(p)| == |Encoded(w) + Encoded(q)|;
      SplitEqual(Encoded(v), Encoded(p), Encoded(w), Encoded(q));
      ProgramShape(e.program);
      ProgramShape(f.program);
      EncodingDecodes(p, q, PROGRAM, [], []);
      SamePrograms(e.program.value, f.program.value);
    }
  }

  lemma BodyOfTwo(v: Value, p: Value)
    ensures AllEncoded([v, p]) == Encoded(v) + Encoded(p)
    ensures AreWritable([v, p]) <==> IsWritable(v) && IsWritable(p)
  {
    hide Encoded, IsWritable;
    assert [v, p][1..] == [p] && [p][1..] == [];
    assert AllEncoded([p]) == Encoded(p) + AllEncoded([]);
    assert AreWritable([]);
  }

  lemma ProgramLength(p: Program)
    ensures |Encoded(OfProgram(Some(p)))| == 8 + |Uvarint(|p.code|)| + |p.code|
  {
    hide Uvarint, LittleEndian;
    BodyOfTwo(Number(p.vmVersion), Text(p.code));
  }

  lemma {:induction false} SourcesAreTraced(ss: seq<Option<ValueSource>>)
    requires HasGaps(ss)
    ensures AreTraced(OfSources(ss), SOURCE)
  {
    hide HasShape, OfSource, IsSourceWhole, Encoded;
    if ss != [] {
      if ss[0].Some? {
        SourceShape(ss[0]);
        SourceLeavesOctets(ss[0].value);
      } else {
        assert OfSource(ss[0]) == Ptr(None) by { MissingSource(); }
      }
      SourcesAreTraced(ss[1..]);
    }
  }

  lemma MissingSource()
    ensures OfSource(None) == Ptr(None)
  {
  }

  lemma SourceLeavesOctets(s: ValueSource)
    ensures Encoded(OfSource(Some(s))) != []
  {
    hide HashBytes, OfAmount;
    var fields := [HashRef(s.ref), OfAmount(s.value), Number(s.position)];
    assert AllEncoded(fields) == Encoded(fields[0]) + AllEncoded(fields[1..]);
  }

  /** Two different multiplexers with one identifier, whatever the hash function: a missing source moves. */
  lemma MissingSourceIsAmbiguous(source: Option<ValueSource>, program: Option<Program>, hash: Bytes -> Hash)
    requires IsSourceWhole(source) && program.Some? && |program.value.code| <= MAX_INT32
    ensures var e, f := Mux([None, source], program), Mux([source, None], program);
      && AreWritable(Body(e)) && AreWritable(Body(f))
      && Preimage(e, hash) == Preimage(f, hash) && e != f && !Agree(e, f)
  {
    hide Encoded, AllEncoded, AreSame, OfProgram, IsWritable, IsSame, AreWritable, Ascii, HashBytes;
    var gap, s, p := Ptr(None), OfSource(source), OfProgram(program);
    PairOfSources(None, source);
    PairOfSources(source, None);
    MissingSource();
    ListOfTwo(gap, s);
    ListOfTwo(s, gap);
    SourceIsWritable(source.value);
    ProgramIsWritable(program.value);
    BodyOfTwo(List([gap, s]), p);
    BodyOfTwo(List([s, gap]), p);
    GapIsNothing(s);
    SameOfTwo(List([gap, s]), p, List([s, gap]), p);
    SameLists([gap, s], [s, gap]);
    SameOfTwo(gap, s, s, gap);
  }

  lemma PairOfSources(a: Option<ValueSource>, b: Option<ValueSource>)
    ensures OfSources([a, b]) == [OfSource(a), OfSource(b)]
  {
    hide OfSource;
    assert [a, b][1..] == [b] && [b][1..] == [];
    assert OfSources([b]) == [OfSource(b)] + OfSources([]);
  }

  lemma ListOfTwo(v: Value, w: Value)
    ensures Encoded(List([v, w])) == Uvarint(2) + (Encoded(v) + Encoded(w))
    ensures IsWritable(List([v, w])) <==> IsWritable(v) && IsWritable(w)
  {
    BodyOfTwo(v, w);
    hide AllEncoded, AreWritable, Uvarint;
  }

  lemma GapIsNothing(s: Value)
    requires s.Ptr? && s.target.Some?
    ensures Encoded(Ptr(None)) + Encoded(s) == Encoded(s) + Encoded(Ptr(None))
    ensures !IsSame(Ptr(None), s) && IsWritable(Ptr(None))
  {
    assert Encoded(Ptr(None)) == [];
  }

  lemma SameLists(vs: seq<Value>, ws: seq<Value>)
    ensures IsSame(List(vs), List(ws)) <==> AreSame(vs, ws)
  {
    hide AreSame;
  }

  lemma SourceIsWritable(s: ValueSource)
    requires s.value.Some?
    ensures IsWritable(OfSource(Some(s)))
  {
    var amount := OfAmount(s.value);
    WritableOfTwo(HashRef(s.value.value.assetId), Number(s.value.value.amount));
    assert IsWritable(amount);
    WritableOfTwo(amount, Number(s.position));
    var fields := [HashRef(s.ref), amount, Number(s.position)];
    assert fields[1..] == [amount, Number(s.position)];
    hide OfAmount;
    assert AreWritable(fields);
  }

  lemma ProgramIsWritable(p: Program)
    requires |p.code| <= MAX_INT32
    ensures IsWritable(OfProgram(Some(p)))
  {
    WritableOfTwo(Number(p.vmVersion), Text(p.code));
  }

  lemma WritableOfTwo(v: Value, w: Value)
    requires IsWritable(v) && IsWritable(w)
    ensures AreWritable([v, w])
  {
    BodyOfTwo(v, w);
  }

  /** The condition on programs is needed: the octets of a source and a program can be those of a longer program. */
  lemma ProgramCanHideSource(hash: Bytes -> Hash) returns (e: Entry, f: Entry)
    ensures e.Mux? && f.Mux? && HasGaps(e.sources) && HasGaps(f.sources)
    ensures AreWritable(Body(e)) && AreWritable(Body(f)) && Preimage(e, hash) == Preimage(f, hash)
    ensures |e.sources| == |f.sources| == 1 && e.sources != f.sources
  {
    hide Encoded, AllEncoded, AreWritable, Ascii, HashBytes, OfSource, OfProgram, Body;
    var ref := HidingHash();
    var source := ValueSource(Some(ref), Some(AssetAmount(None, 0)), 0);
    var long := HidingProgram(source);
    e, f := Mux([Some(source)], Some(Program(0, []))), Mux([None], Some(long));
    BodyOfOneSource(Some(source), Program(0, []));
    BodyOfOneSource(None, long);
    assert Encoded(OfSource(None)) == [] by { GapHasNoOctets(); }
    assert [] + Encoded(OfProgram(Some(long))) == Encoded(OfProgram(Some(long)));
  }

  lemma HidingHash() returns (h: Hash)
    ensures h.v0 == 0 && h.v1 == 80 * Pow256(7)
  {
    assert Pow256(4) == 0x1_0000_0000;
    h := Hash(0, 80 * Pow256(7), 0, 0);
  }

  /** The program that starts with zero, a length of 80, and then whatever the source and the short program have. */
  lemma HidingProgram(s: ValueSource) returns (long: Program)
    requires s.ref.Some? && s.ref.value.v0 == 0 && s.ref.value.v1 == 80 * Pow256(7) && s.value.Some?
    ensures |long.code| == 80
    ensures Encoded(OfProgram(Some(long))) == Encoded(OfSource(Some(s))) + Encoded(OfProgram(Some(Program(0, []))))
  {
    hide Encoded, OfSource, OfProgram, Pow256, LittleEndian, Uvarint;
    SourceStarts(s);
    ProgramLength(Program(0, []));
    assert |Uvarint(0)| == 1 by { UvarintOfNone(); }
    var octets := Encoded(OfSource(Some(s))) + Encoded(OfProgram(Some(Program(0, []))));
    long := Program(0, octets[9..]);
    ProgramOctets(long);
    assert octets[..8] == LittleEndian(0, 8) && octets[8] == 80;
    assert octets == octets[..8] + ([octets[8]] + octets[9..]);
  }

  lemma UvarintOfNone()
    ensures |Uvarint(0)| == 1
  {
  }

  lemma BodyOfOneSource(s: Option<ValueSource>, p: Program)
    requires (s.None? || IsSourceWhole(s)) && |p.code| <= MAX_INT32
    ensures var e := Mux([s], Some(p));
      && AllEncoded(Body(e)) == Uvarint(1) + (Encoded(OfSource(s)) + Encoded(OfProgram(Some(p))))
      && AreWritable(Body(e))
  {
    hide Encoded, AllEncoded, AreWritable, IsWritable, OfSource, OfProgram, Uvarint;
    OneSource(s);
    ListOfOne(OfSource(s));
    if s.Some? {
      SourceIsWritable(s.value);
    } else {
      MissingSource();
      assert IsWritable(OfSource(s)) by { GapHasNoOctets(); }
    }
    ProgramIsWritable(p);
    BodyOfTwo(List([OfSource(s)]), OfProgram(Some(p)));
  }

  lemma SourceStarts(s: ValueSource)
    requires s.ref.Some? && s.ref.value.v0 == 0 && s.ref.value.v1 == 80 * Pow256(7) && s.value.Some?
    ensures var octets := Encoded(OfSource(Some(s)));
      |octets| == 80 && octets[..8] == LittleEndian(0, 8) && octets[8] == 80
  {
    hide BigEndian, LittleEndian, Pow256;
    var amount := [HashRef(s.value.value.assetId), Number(s.value.value.amount)];
    BodyOfTwo(amount[0], amount[1]);
    var fields := [HashRef(s.ref), OfAmount(s.value), Number(s.position)];
    assert fields[1..] == [OfAmount(s.value), Number(s.position)];
    BodyOfTwo(OfAmount(s.value), Number(s.position));
    assert AllEncoded(fields) == Encoded(fields[0]) + AllEncoded(fields[1..]);
    ZeroOctets(8);
    TopOctet(80, 8);
    var h := HashBytes(s.ref.value);
    assert h[..8] == BigEndian(0, 8) && h[8] == BigEndian(80 * Pow256(7), 8)[0];
  }

  lemma {:induction false} ZeroOctets(n: nat)
    ensures BigEndian(0, n) == LittleEndian(0, n) == seq(n, i => 0)
  {
    if n > 0 {
      ZeroOctets(n - 1);
    }
  }

  lemma {:induction false} TopOctet(c: nat, n: nat)
    requires c < 256 && n > 0
    ensures BigEndian(c * Pow256(n - 1), n)[0] == c
  {
    if n == 1 {
      assert c * Pow256(0) == c;
    } else {
      var p := Pow256(n - 2);
      TopOctet(c, n - 1);
      assert c * (256 * p) == 256 * (c * p);
    }
  }

  lemma ProgramOctets(p: Program)
    requires |p.code| == 80 && p.vmVersion == 0
    ensures Encoded(OfProgram(Some(p))) == LittleEndian(0, 8) + ([80] + p.code)
  {
    hide LittleEndian;
    BodyOfTwo(Number(p.vmVersion), Text(p.code));
    assert Uvarint(80) == [80];
  }

  lemma OneSource(s: Option<ValueSource>)
    ensures OfSources([s]) == [OfSource(s)]
  {
    hide OfSource;
    assert OfSources([s]) == [OfSource(s)] + OfSources([]);
  }

  lemma ListOfOne(v: Value)
    ensures Encoded(List([v])) == Uvarint(1) + Encoded(v)
    ensures IsWritable(List([v])) <==> IsWritable(v)
  {
    hide Uvarint;
    assert [v][1..] == [];
    assert AllEncoded([v]) == Encoded(v) + AllEncoded([]);
    assert AreWritable([v]) <==> IsWritable(v) && AreWritable([]);
  }

  lemma GapHasNoOctets()
    ensures OfSource(None) == Ptr(None) && Encoded(Ptr(None)) == [] && IsWritable(Ptr(None))
  {
  }

  /** For outputs, agreement means equal programs, state, position and amount, and equal hashes up to zero. */
  lemma OutputsAgree(e: Entry, f: Entry)
    requires e.OriginalOutput? && f.OriginalOutput? && IsWhole(e) && IsWhole(f)
    ensures Agree(e, f) <==>
      && e.controlProgram == f.controlProgram && e.stateData == f.stateData
      && e.source.value.position == f.source.value.position
      && e.source.value.value.value.amount == f.source.value.value.value.amount
      && IsSame(HashRef(e.source.value.ref), HashRef(f.source.value.ref))
      && IsSame(HashRef(e.source.value.value.value.assetId), HashRef(f.source.value.value.value.assetId))
  {
    hide IsSame, OfSource, OfProgram;
    SameOfThree(
      OfSource(e.source), OfProgram(e.controlProgram), Texts(e.stateData),
      OfSource(f.source), OfProgram(f.controlProgram), Texts(f.stateData));
    SameSources(e.source.value, f.source.value);
    SamePrograms(e.controlProgram.value, f.controlProgram.value);
    SameTexts(e.stateData, f.stateData);
  }

  lemma SameOfTwo(a: Value, b: Value, c: Value, d: Value)
    ensures AreSame([a, b], [c, d]) <==> IsSame(a, c) && IsSame(b, d)
  {
    hide IsSame;
    assert [a, b][1..] == [b] && [c, d][1..] == [d] && [b][1..] == [] && [d][1..] == [];
    assert AreSame([], []);
    assert AreSame([b], [d]) <==> IsSame(b, d);
  }

  lemma SameOfThree(a: Value, b: Value, c: Value, d: Value, e: Value, f: Value)
    ensures AreSame([a, b, c], [d, e, f]) <==> IsSame(a, d) && IsSame(b, e) && IsSame(c, f)
  {
    hide IsSame;
    assert [a, b, c][1..] == [b, c] && [d, e, f][1..] == [e, f];
    SameOfTwo(b, c, e, f);
  }

  lemma SameTexts(a: seq<Bytes>, b: seq<Bytes>)
    ensures IsSame(Texts(a), Texts(b)) <==> a == b
  {
  }

  lemma SamePrograms(p: Program, q: Program)
    ensures IsSame(OfProgram(Some(p)), OfProgram(Some(q))) <==> p == q
  {
    SameOfTwo(Number(p.vmVersion), Text(p.code), Number(q.vmVersion), Text(q.code));
  }

  lemma SameSources(s: ValueSource, t: ValueSource)
    requires s.value.Some? && t.value.Some?
    ensures IsSame(OfSource(Some(s)), OfSource(Some(t))) <==>
      && IsSame(HashRef(s.ref), HashRef(t.ref)) && s.position == t.position
      && s.value.value.amount == t.value.value.amount
      && IsSame(HashRef(s.value.value.assetId), HashRef(t.value.value.assetId))
  {
    hide AreSame, IsSame;
    var a, b := s.value.value, t.value.value;
    SameStructs([HashRef(s.ref), OfAmount(s.value), Number(s.position)],
                [HashRef(t.ref), OfAmount(t.value), Number(t.position)]);
    SameOfThree(HashRef(s.ref), OfAmount(s.value), Number(s.position),
                HashRef(t.ref), OfAmount(t.value), Number(t.position));
    SameStructs([HashRef(a.assetId), Number(a.amount)], [HashRef(b.assetId), Number(b.amount)]);
    SameOfTwo(HashRef(a.assetId), Number(a.amount), HashRef(b.assetId), Number(b.amount));
    SameNumbers(s.position, t.position);
    SameNumbers(a.amount, b.amount);
  }

  lemma SameNumbers(m: Uint64, n: Uint64)
    ensures IsSame(Number(m), Number(n)) <==> m == n
  {
  }

  lemma SameStructs(fs: seq<Value>, gs: seq<Value>)
    ensures IsSame(Ptr(Some(Struct(fs))), Ptr(Some(Struct(gs)))) <==> AreSame(fs, gs)
  {
    hide AreSame;
    assert IsSame(Struct(fs), Struct(gs)) <==> AreSame(fs, gs);
  }
}
