/** The octets that are hashed for a value: which values they tell apart. */
module HashFormat {
  import opened Numbers
  import opened Wrappers
  import opened Encoding

  type Uint64 = n: nat | n < LIMIT

  datatype Hash = Hash(v0: Uint64, v1: Uint64, v2: Uint64, v3: Uint64)

  const ZERO: Hash := Hash(0, 0, 0, 0)

  /** The values that the reflective writer knows; Ptr points to a struct. */
  datatype Value =
    | Octet(b: Byte)
    | Number(n: Uint64)
    | Text(s: Bytes)
    | Texts(l: seq<Bytes>)
    | HashRef(h: Option<Hash>)
    | Ptr(target: Option<Value>)
    | List(elements: seq<Value>)
    | Struct(fields: seq<Value>)

  datatype Shape =
    | OctetShape | NumberShape | TextShape | TextsShape | HashShape
    | PtrShape(of: Shape) | ListShape(element: Shape) | StructShape(fields: seq<Shape>)

  /** n octets of a number, the most significant first. */
  function BigEndian(v: nat, n: nat): (s: Bytes)
    ensures |s| == n
  {
    if n == 0 then [] else BigEndian(v / 256, n - 1) + [v % 256]
  }

  function LittleEndian(v: nat, n: nat): (s: Bytes)
    ensures |s| == n
  {
    if n == 0 then [] else [v % 256] + LittleEndian(v / 256, n - 1)
  }

  function HashBytes(h: Hash): (s: Bytes)
    ensures |s| == 32
  {
    BigEndian(h.v0, 8) + BigEndian(h.v1, 8) + BigEndian(h.v2, 8) + BigEndian(h.v3, 8)
  }

  /** Every length that is written as a prefix fits in 31 bits. */
  ghost predicate IsWritable(v: Value) {
    match v
    case Text(s) => |s| <= MAX_INT32
    case Texts(l) => |l| <= MAX_INT32 && AllShort(l)
    case Ptr(t) => t.Some? ==> IsWritable(t.value)
    case List(e) => |e| <= MAX_INT32 && AreWritable(e)
    case Struct(f) => AreWritable(f)
    case _ => true
  }

  ghost predicate AreWritable(vs: seq<Value>) {
    vs != [] ==> IsWritable(vs[0]) && AreWritable(vs[1..])
  }

  function Encoded(v: Value): Bytes {
    match v
    case Octet(b) => [b]
    case Number(n) => LittleEndian(n, 8)
    case Text(s) => Varstr(s)
    case Texts(l) => VarstrList(l)
    case HashRef(h) => HashBytes(if h.None? then ZERO else h.value)
    case Ptr(t) => if t.None? then [] else Encoded(t.value)
    case List(e) => Uvarint(|e|) + AllEncoded(e)
    case Struct(f) => AllEncoded(f)
  }

  function AllEncoded(vs: seq<Value>): Bytes {
    if vs == [] then [] else Encoded(vs[0]) + AllEncoded(vs[1..])
  }

  ghost predicate HasShape(v: Value, s: Shape) {
    match s
    case OctetShape => v.Octet?
    case NumberShape => v.Number?
    case TextShape => v.Text?
    case TextsShape => v.Texts?
    case HashShape => v.HashRef?
    case PtrShape(of) => v.Ptr? && v.target.Some? && HasShape(v.target.value, of)
    case ListShape(element) => v.List? && AllHaveShape(v.elements, element)
    case StructShape(fields) => v.Struct? && HaveShapes(v.fields, fields)
  }

  ghost predicate AllHaveShape(vs: seq<Value>, s: Shape) {
    vs != [] ==> HasShape(vs[0], s) && AllHaveShape(vs[1..], s)
  }

  ghost predicate HaveShapes(vs: seq<Value>, ss: seq<Shape>) {
    |vs| == |ss| && (vs != [] ==> HasShape(vs[0], ss[0]) && HaveShapes(vs[1..], ss[1..]))
  }

  /** The same value, a missing hash being the zero hash. */
  ghost predicate IsSame(v: Value, w: Value) {
    match (v, w)
    case (HashRef(g), HashRef(h)) =>
      (if g.None? then ZERO else g.value) == (if h.None? then ZERO else h.value)
    case (Ptr(s), Ptr(t)) => s.Some? == t.Some? && (s.Some? ==> IsSame(s.value, t.value))
    case (List(a), List(b)) => AreSame(a, b)
    case (Struct(a), Struct(b)) => AreSame(a, b)
    case _ => v == w
  }

  ghost predicate AreSame(vs: seq<Value>, ws: seq<Value>) {
    |vs| == |ws| && (vs != [] ==> IsSame(vs[0], ws[0]) && AreSame(vs[1..], ws[1..]))
  }

  lemma {:induction false} BigEndianIsInjective(v: nat, w: nat, n: nat)
    requires v < Pow256(n) && w < Pow256(n) && BigEndian(v, n) == BigEndian(w, n)
    ensures v == w
  {
    if n > 0 {
      var a, b := BigEndian(v, n), BigEndian(w, n);
      assert a[..n - 1] == BigEndian(v / 256, n - 1) && b[..n - 1] == BigEndian(w / 256, n - 1);
      BigEndianIsInjective(v / 256, w / 256, n - 1);
      assert a[n - 1] == v % 256 && b[n - 1] == w % 256;
    }
  }

  lemma {:induction false} LittleEndianIsInjective(v: nat, w: nat, n: nat)
    requires v < Pow256(n) && w < Pow256(n) && LittleEndian(v, n) == LittleEndian(w, n)
    ensures v == w
  {
    if n > 0 {
      var a, b := LittleEndian(v, n), LittleEndian(w, n);
      assert a[1..] == LittleEndian(v / 256, n - 1) && b[1..] == LittleEndian(w / 256, n - 1);
      LittleEndianIsInjective(v / 256, w / 256, n - 1);
      assert a[0] == v % 256 && b[0] == w % 256;
    }
  }

  lemma Pow256Of8()
    ensures Pow256(8) == LIMIT
  {
    assert Pow256(4) == 0x1_0000_0000;
  }

  lemma SplitEqual<T>(a: seq<T>, s: seq<T>, b: seq<T>, t: seq<T>)
    requires |a| == |b| && a + s == b + t
    ensures a == b && s == t
  {
    assert a == (a + s)[..|a|] && b == (b + t)[..|a|];
    assert s == (a + s)[|a|..] && t == (b + t)[|a|..];
  }

  lemma HashBytesAreInjective(g: Hash, h: Hash)
    requires HashBytes(g) == HashBytes(h)
    ensures g == h
  {
    hide BigEndian, Pow256;
    Pow256Of8();
    var a0, a1, a2, a3 := BigEndian(g.v0, 8), BigEndian(g.v1, 8), BigEndian(g.v2, 8), BigEndian(g.v3, 8);
    var b0, b1, b2, b3 := BigEndian(h.v0, 8), BigEndian(h.v1, 8), BigEndian(h.v2, 8), BigEndian(h.v3, 8);
    SplitEqual(a0 + a1 + a2, a3, b0 + b1 + b2, b3);
    SplitEqual(a0 + a1, a2, b0 + b1, b2);
    SplitEqual(a0, a1, b0, b1);
    BigEndianIsInjective(g.v0, h.v0, 8);
    BigEndianIsInjective(g.v1, h.v1, 8);
    BigEndianIsInjective(g.v2, h.v2, 8);
    BigEndianIsInjective(g.v3, h.v3, 8);
  }

  lemma UvarintsDecode(n: nat, m: nat, s: Bytes, t: Bytes)
    requires n <= MAX_INT32 && m <= MAX_INT32 && Uvarint(n) + s == Uvarint(m) + t
    ensures n == m && s == t
  {
    hide Uvarint, ParseVarint;
    VarintIsReadBack(n, MAX_INT32, s);
    VarintIsReadBack(m, MAX_INT32, t);
  }

  lemma NumbersDecode(n: Uint64, m: Uint64, s: Bytes, t: Bytes)
    requires LittleEndian(n, 8) + s == LittleEndian(m, 8) + t
    ensures n == m && s == t
  {
    hide LittleEndian, Pow256;
    SplitEqual(LittleEndian(n, 8), s, LittleEndian(m, 8), t);
    Pow256Of8();
    LittleEndianIsInjective(n, m, 8);
  }

  /** Values of one shape with the same octets in front are the same, and so is what follows. */
  lemma {:induction false} EncodingDecodes(v: Value, w: Value, shape: Shape, s: Bytes, t: Bytes)
    requires HasShape(v, shape) && HasShape(w, shape) && IsWritable(v) && IsWritable(w)
    requires Encoded(v) + s == Encoded(w) + t
    ensures IsSame(v, w) && s == t
    decreases v
  {
    hide Uvarint, Varstr, VarstrList, LittleEndian, HashBytes, ParseVarstr, ParseVarstrList, AllShort, AreSame,
      AllEncoded, AllHaveShape, HaveShapes, AreWritable;
    match v
    case Octet(b) => SplitEqual([b], s, [w.b], t);
    case Number(n) => NumbersDecode(n, w.n, s, t);
    case Text(x) =>
      VarstrIsReadBack(x, s);
      VarstrIsReadBack(w.s, t);
    case Texts(l) =>
      VarstrListIsReadBack(l, s);
      VarstrListIsReadBack(w.l, t);
    case HashRef(h) =>
      SplitEqual(Encoded(v), s, Encoded(w), t);
      HashBytesAreInjective(if h.None? then ZERO else h.value, if w.h.None? then ZERO else w.h.value);
    case Ptr(p) => EncodingDecodes(p.value, w.target.value, shape.of, s, t);
    case List(e) =>
      assert Encoded(v) + s == Uvarint(|e|) + (AllEncoded(e) + s);
      assert Encoded(w) + t == Uvarint(|w.elements|) + (AllEncoded(w.elements) + t);
      UvarintsDecode(|e|, |w.elements|, AllEncoded(e) + s, AllEncoded(w.elements) + t);
      ElementsDecode(e, w.elements, shape.element, s, t);
    case Struct(f) => FieldsDecode(f, w.fields, shape.fields, s, t);
  }

  lemma {:induction false} ElementsDecode(vs: seq<Value>, ws: seq<Value>, shape: Shape, s: Bytes, t: Bytes)
    requires |vs| == |ws| && AllHaveShape(vs, shape) && AllHaveShape(ws, shape)
    requires AreWritable(vs) && AreWritable(ws) && AllEncoded(vs) + s == AllEncoded(ws) + t
    ensures AreSame(vs, ws) && s == t
    decreases vs
  {
    hide Encoded, HasShape, IsWritable, IsSame;
    if vs == [] {
      assert AllEncoded(vs) + s == s && AllEncoded(ws) + t == t;
    } else {
      var s', t' := AllEncoded(vs[1..]) + s, AllEncoded(ws[1..]) + t;
      assert AllEncoded(vs) + s == Encoded(vs[0]) + s' && AllEncoded(ws) + t == Encoded(ws[0]) + t';
      EncodingDecodes(vs[0], ws[0], shape, s', t');
      ElementsDecode(vs[1..], ws[1..], shape, s, t);
    }
  }

  lemma {:induction false} FieldsDecode(vs: seq<Value>, ws: seq<Value>, shapes: seq<Shape>, s: Bytes, t: Bytes)
    requires HaveShapes(vs, shapes) && HaveShapes(ws, shapes)
    requires AreWritable(vs) && AreWritable(ws) && AllEncoded(vs) + s == AllEncoded(ws) + t
    ensures AreSame(vs, ws) && s == t
    decreases vs
  {
    hide Encoded, HasShape, IsWritable, IsSame;
    if vs == [] {
      assert AllEncoded(vs) + s == s && AllEncoded(ws) + t == t;
    } else {
      var s', t' := AllEncoded(vs[1..]) + s, AllEncoded(ws[1..]) + t;
      assert AllEncoded(vs) + s == Encoded(vs[0]) + s' && AllEncoded(ws) + t == Encoded(ws[0]) + t';
      EncodingDecodes(vs[0], ws[0], shapes[0], s', t');
      FieldsDecode(vs[1..], ws[1..], shapes[1..], s, t);
    }
  }

  /** The same values have the same octets. */
  lemma {:induction false} SameIsEncodedAlike(v: Value, w: Value)
    requires IsSame(v, w)
    ensures Encoded(v) == Encoded(w)
    decreases v
  {
    hide Uvarint, Varstr, VarstrList, LittleEndian, HashBytes, AllEncoded, AreSame;
    match v
    case Ptr(p) => if p.Some? { SameIsEncodedAlike(p.value, w.target.value); }
    case List(e) =>
      SameAreEncodedAlike(e, w.elements);
    case Struct(f) => SameAreEncodedAlike(f, w.fields);
    case _ =>
  }

  lemma {:induction false} SameAreEncodedAlike(vs: seq<Value>, ws: seq<Value>)
    requires AreSame(vs, ws)
    ensures |vs| == |ws| && AllEncoded(vs) == AllEncoded(ws)
    decreases vs
  {
    hide Encoded, IsSame;
    if vs != [] {
      SameIsEncodedAlike(vs[0], ws[0]);
      SameAreEncodedAlike(vs[1..], ws[1..]);
    }
  }

  /** What a list says once the missing structs, which leave no trace, are dropped. */
  function Present(vs: seq<Value>): seq<Value> {
    if vs == [] then []
    else if vs[0] == Ptr(None) then Present(vs[1..])
    else [vs[0]] + Present(vs[1..])
  }

  /** Every element is missing, or of this shape and written with at least one octet. */
  ghost predicate AreTraced(vs: seq<Value>, shape: Shape) {
    vs != [] ==> (vs[0] == Ptr(None) || (HasShape(vs[0], shape) && Encoded(vs[0]) != [])) && AreTraced(vs[1..], shape)
  }

  lemma {:induction false} PresentIsEnough(vs: seq<Value>, shape: Shape)
    requires AreTraced(vs, shape) && AreWritable(vs)
    ensures AllEncoded(Present(vs)) == AllEncoded(vs)
    ensures AreFull(Present(vs), shape) && AreWritable(Present(vs))
  {
    hide HasShape, IsWritable;
    if vs != [] {
      PresentIsEnough(vs[1..], shape);
      if vs[0] == Ptr(None) {
        assert Encoded(vs[0]) == [];
      } else {
        hide Encoded;
        var more := [vs[0]] + Present(vs[1..]);
        assert more[1..] == Present(vs[1..]);
      }
    }
  }

  ghost predicate AreFull(vs: seq<Value>, shape: Shape) {
    vs != [] ==> HasShape(vs[0], shape) && Encoded(vs[0]) != [] && AreFull(vs[1..], shape)
  }

  /** Elements that all leave octets are told apart even when their number is not known. */
  lemma {:induction false} FullElementsDecode(vs: seq<Value>, ws: seq<Value>, shape: Shape)
    requires AreFull(vs, shape) && AreFull(ws, shape) && AreWritable(vs) && AreWritable(ws)
    requires AllEncoded(vs) == AllEncoded(ws)
    ensures AreSame(vs, ws)
  {
    hide Encoded, HasShape, IsWritable, IsSame;
    if vs != [] && ws != [] {
      EncodingDecodes(vs[0], ws[0], shape, AllEncoded(vs[1..]), AllEncoded(ws[1..]));
      FullElementsDecode(vs[1..], ws[1..], shape);
    }
  }

  /**
   * A missing struct leaves no trace: lists are told apart by their lengths and by what is present, in
   * order, and by nothing else.
   */
  lemma ListsDecodeIff(vs: seq<Value>, ws: seq<Value>, shape: Shape)
    requires AreTraced(vs, shape) && AreTraced(ws, shape) && IsWritable(List(vs)) && IsWritable(List(ws))
    ensures Encoded(List(vs)) == Encoded(List(ws)) <==> |vs| == |ws| && AreSame(Present(vs), Present(ws))
  {
    hide Uvarint, AllEncoded, AreSame, Present, AreTraced, AreFull, AreWritable;
    PresentIsEnough(vs, shape);
    PresentIsEnough(ws, shape);
    if Encoded(List(vs)) == Encoded(List(ws)) {
      UvarintsDecode(|vs|, |ws|, AllEncoded(vs), AllEncoded(ws));
      FullElementsDecode(Present(vs), Present(ws), shape);
    }
    if |vs| == |ws| && AreSame(Present(vs), Present(ws)) {
      SameAreEncodedAlike(Present(vs), Present(ws));
    }
  }

  /** The reflective writer; it fails exactly on a length of more than 31 bits. */
  method WriteForHash(w: Writer, v: Value) returns (ok: bool)
    modifies w
    ensures ok <==> IsWritable(v)
    ensures ok ==> w.bytes == old(w.bytes) + Encoded(v)
    decreases v
  {
    hide Uvarint, Varstr, VarstrList, LittleEndian, HashBytes, AllShort, AllEncoded, AreWritable;
    match v
    case Octet(b) =>
      w.Write([b]);
      return true;
    case Number(n) =>
      w.Write(LittleEndian(n, 8));
      return true;
    case Text(s) =>
      ok := w.WriteVarstr31(s);
    case Texts(l) =>
      ok := w.WriteVarstrList(l);
    case HashRef(h) =>
      w.Write(HashBytes(if h.None? then ZERO else h.value));
      return true;
    case Ptr(t) =>
      if t.None? {
        return true;
      }
      ok := WriteForHash(w, t.value);
    case List(e) =>
      ok := w.WriteVarint31(|e|);
      if !ok {
        return;
      }
      ghost var start := old(w.bytes);
      ok := WriteAllForHash(w, e);
      assert start + Uvarint(|e|) + AllEncoded(e) == start + (Uvarint(|e|) + AllEncoded(e));
    case Struct(f) =>
      ok := WriteAllForHash(w, f);
  }

  /** The elements of a list or the fields of a struct, one after another. */
  method WriteAllForHash(w: Writer, vs: seq<Value>) returns (ok: bool)
    modifies w
    ensures ok <==> AreWritable(vs)
    ensures ok ==> w.bytes == old(w.bytes) + AllEncoded(vs)
    decreases vs
  {
    hide Encoded, IsWritable;
    ghost var start := w.bytes;
    AllStarts(vs, start);
    for i := 0 to |vs|
      invariant start + AllEncoded(vs) == w.bytes + AllEncoded(vs[i..])
      invariant AreWritable(vs) <==> AreWritable(vs[i..])
    {
      ghost var before := w.bytes;
      assert vs[i..][1..] == vs[i + 1..];
      ok := WriteForHash(w, vs[i]);
      if !ok {
        return;
      }
      assert before + (Encoded(vs[i]) + AllEncoded(vs[i + 1..])) == w.bytes + AllEncoded(vs[i + 1..]);
    }
    assert w.bytes + AllEncoded(vs[|vs|..]) == w.bytes;
    return true;
  }

  lemma AllStarts(vs: seq<Value>, start: Bytes)
    ensures vs[0..] == vs && start + AllEncoded(vs) == start + AllEncoded(vs[0..])
  {
  }
}
