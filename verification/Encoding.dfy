/** The encoding of numbers and strings: what is read back is what was written, and nothing more is consumed. */
module Encoding {
  import opened Wrappers

  type Byte = n: nat | n < 256

  type Bytes = seq<Byte>

  const MAX_INT32: nat := 0x7FFF_FFFF
  const MAX_INT64: nat := 0x7FFF_FFFF_FFFF_FFFF
  const LIMIT: nat := 0x1_0000_0000_0000_0000

  datatype Result<T> = Ok(value: T) | Err(error: Error)

  datatype Error = OutOfRange | EndOfFile | Overflow

  /** A value and what follows it. */
  datatype Parsed<T> = Parsed(value: T, rest: Bytes)

  /** Seven bits to an octet, the least significant first; all but the last are marked. */
  function Uvarint(n: nat): (s: Bytes)
    ensures s != []
  {
    if n < 128 then [n] else [n % 128 + 128] + Uvarint(n / 128)
  }

  function Pow128(k: nat): (p: nat)
    ensures p > 0
  {
    if k == 0 then 1 else 128 * Pow128(k - 1)
  }

  lemma {:induction false} UvarintLength(n: nat, k: nat)
    requires k > 0 && n < Pow128(k)
    ensures |Uvarint(n)| <= k
  {
    assert Pow128(1) == 128 * Pow128(0);
    if n >= 128 && k > 1 {
      UvarintLength(n / 128, k - 1);
    }
  }

  lemma Pow128Of9()
    ensures Pow128(9) == MAX_INT64 + 1
  {
    assert Pow128(3) == 0x20_0000;
    assert Pow128(6) == 0x400_0000_0000;
  }

  lemma UvarintNext(x: nat)
    ensures Uvarint(x) == if x < 128 then [x] else [x % 128 + 128] + Uvarint(x / 128)
    ensures x >= 128 ==> Uvarint(x / 128) != []
  {
  }

  /** PutUvarint of the standard library, into the nine octets that the callers provide. */
  method PutUvarint(buf: array<Byte>, val: nat) returns (n: nat)
    requires buf.Length == 9 && val <= MAX_INT64
    modifies buf
    ensures n <= 9 && buf[..n] == Uvarint(val)
  {
    hide Pow128, Uvarint;
    Pow128Of9();
    UvarintLength(val, 9);
    var x := val;
    n := 0;
    while x >= 128
      invariant n + |Uvarint(x)| == |Uvarint(val)| && n < 9
      invariant Uvarint(val) == buf[..n] + Uvarint(x)
      decreases x
    {
      ghost var before := buf[..n];
      buf[n] := x % 128 + 128;
      UvarintNext(x);
      assert before + ([x % 128 + 128] + Uvarint(x / 128)) == buf[..n + 1] + Uvarint(x / 128);
      x := x / 128;
      n := n + 1;
    }
    ghost var before := buf[..n];
    buf[n] := x;
    UvarintNext(x);
    assert before + [x] == buf[..n + 1];
    n := n + 1;
  }

  /** What binary.ReadUvarint makes of the octets, from the i-th on. */
  function ParseUvarint(s: Bytes, i: nat): (r: Result<Parsed<nat>>)
    ensures r.Ok? ==> |r.value.rest| < |s|
    decreases s
  {
    if s == [] then Err(EndOfFile)
    else if i >= 10 then Err(Overflow)
    else if s[0] < 128 then
      if i == 9 && s[0] > 1 then Err(Overflow) else Ok(Parsed(s[0], s[1..]))
    else
      var later := ParseUvarint(s[1..], i + 1);
      if later.Err? then later else Ok(Parsed(s[0] % 128 + 128 * later.value.value, later.value.rest))
  }

  lemma {:induction false} ParseUndoesUvarint(n: nat, i: nat, rest: Bytes)
    requires i < 9 && n < Pow128(9 - i)
    ensures ParseUvarint(Uvarint(n) + rest, i) == Ok(Parsed(n, rest))
    decreases n
  {
    var s := Uvarint(n) + rest;
    assert Pow128(1) == 128 * Pow128(0);
    if n < 128 {
      assert s[1..] == rest;
    } else if i < 8 {
      assert s[1..] == Uvarint(n / 128) + rest;
      ParseUndoesUvarint(n / 128, i + 1, rest);
      assert s[0] % 128 == n % 128;
    }
  }

  function ParseVarint(s: Bytes, max: nat): Result<Parsed<nat>> {
    var r := ParseUvarint(s, 0);
    if r.Ok? && r.value.value > max then Err(OutOfRange) else r
  }

  lemma VarintIsReadBack(n: nat, max: nat, rest: Bytes)
    requires n <= max <= MAX_INT64
    ensures ParseVarint(Uvarint(n) + rest, max) == Ok(Parsed(n, rest))
  {
    Pow128Of9();
    ParseUndoesUvarint(n, 0, rest);
  }

  function Varstr(str: Bytes): Bytes { Uvarint(|str|) + str }

  function ParseVarstr(s: Bytes): (r: Result<Parsed<Bytes>>)
    ensures r.Ok? ==> |r.value.rest| < |s|
  {
    var l := ParseVarint(s, MAX_INT32);
    if l.Err? then Err(l.error)
    else if l.value.value > |l.value.rest| then Err(EndOfFile)
    else Ok(Parsed(l.value.rest[..l.value.value], l.value.rest[l.value.value..]))
  }

  lemma VarstrIsReadBack(str: Bytes, rest: Bytes)
    requires |str| <= MAX_INT32
    ensures ParseVarstr(Varstr(str) + rest) == Ok(Parsed(str, rest))
  {
    hide ParseVarint, Uvarint;
    assert Varstr(str) + rest == Uvarint(|str|) + (str + rest);
    VarintIsReadBack(|str|, MAX_INT32, str + rest);
  }

  function Varstrs(l: seq<Bytes>): Bytes {
    if l == [] then [] else Varstr(l[0]) + Varstrs(l[1..])
  }

  function VarstrList(l: seq<Bytes>): Bytes { Uvarint(|l|) + Varstrs(l) }

  function ParseVarstrs(s: Bytes, n: nat): Result<Parsed<seq<Bytes>>>
    decreases n
  {
    if n == 0 then Ok(Parsed([], s))
    else
      var first := ParseVarstr(s);
      if first.Err? then Err(first.error)
      else
        var later := ParseVarstrs(first.value.rest, n - 1);
        if later.Err? then later else Ok(Parsed([first.value.value] + later.value.value, later.value.rest))
  }

  function ParseVarstrList(s: Bytes): Result<Parsed<seq<Bytes>>> {
    var n := ParseVarint(s, MAX_INT32);
    if n.Err? then Err(n.error) else ParseVarstrs(n.value.rest, n.value.value)
  }

  ghost predicate AllShort(l: seq<Bytes>) {
    forall i :: 0 <= i < |l| ==> |l[i]| <= MAX_INT32
  }

  lemma {:induction false} VarstrsAreReadBack(l: seq<Bytes>, rest: Bytes)
    requires AllShort(l)
    ensures ParseVarstrs(Varstrs(l) + rest, |l|) == Ok(Parsed(l, rest))
    decreases |l|
  {
    hide ParseVarstr, Varstr;
    if l == [] {
      assert Varstrs(l) + rest == rest;
    } else {
      assert Varstrs(l) + rest == Varstr(l[0]) + (Varstrs(l[1..]) + rest);
      VarstrIsReadBack(l[0], Varstrs(l[1..]) + rest);
      VarstrsAreReadBack(l[1..], rest);
      assert l == [l[0]] + l[1..];
    }
  }

  lemma VarstrListIsReadBack(l: seq<Bytes>, rest: Bytes)
    requires |l| <= MAX_INT32 && AllShort(l)
    ensures ParseVarstrList(VarstrList(l) + rest) == Ok(Parsed(l, rest))
  {
    hide ParseVarint, ParseVarstrs, Uvarint, Varstrs;
    assert VarstrList(l) + rest == Uvarint(|l|) + (Varstrs(l) + rest);
    VarintIsReadBack(|l|, MAX_INT32, Varstrs(l) + rest);
    VarstrsAreReadBack(l, rest);
  }

  /** Where the octets go: a hasher or a buffer. */
  class Writer {
    var bytes: Bytes

    constructor ()
      ensures bytes == []
    {
      bytes := [];
    }

    method Write(s: Bytes)
      modifies this
      ensures bytes == old(bytes) + s
    {
      bytes := bytes + s;
    }

    method WriteVarint31(val: nat) returns (ok: bool)
      modifies this
      ensures ok == (val <= MAX_INT32)
      ensures bytes == if ok then old(bytes) + Uvarint(val) else old(bytes)
    {
      if val > MAX_INT32 {
        return false;
      }
      var buf := new Byte[9];
      var n := PutUvarint(buf, val);
      Write(buf[..n]);
      return true;
    }

    method WriteVarint63(val: nat) returns (ok: bool)
      modifies this
      ensures ok == (val <= MAX_INT64)
      ensures bytes == if ok then old(bytes) + Uvarint(val) else old(bytes)
    {
      if val > MAX_INT64 {
        return false;
      }
      var buf := new Byte[9];
      var n := PutUvarint(buf, val);
      Write(buf[..n]);
      return true;
    }

    method WriteVarstr31(str: Bytes) returns (ok: bool)
      modifies this
      ensures ok == (|str| <= MAX_INT32)
      ensures bytes == if ok then old(bytes) + Varstr(str) else old(bytes)
    {
      ok := WriteVarint31(|str|);
      if !ok {
        return;
      }
      Write(str);
    }

    /** When an element is too long, the elements before it have already been written. */
    method WriteVarstrList(l: seq<Bytes>) returns (ok: bool)
      modifies this
      ensures ok <==> |l| <= MAX_INT32 && AllShort(l)
      ensures ok ==> bytes == old(bytes) + VarstrList(l)
      ensures old(bytes) <= bytes
    {
      hide Varstr, Uvarint, Varstrs, AllShort, HasWritten;
      ghost var start := bytes;
      ok := WriteVarint31(|l|);
      if !ok {
        return;
      }
      StartWriting(start, l);
      for i := 0 to |l|
        invariant HasWritten(start, bytes, l, i)
      {
        KeepWriting(start, bytes, l, i);
        ok := WriteVarstr31(l[i]);
        if !ok {
          return;
        }
      }
      DoneWriting(start, bytes, l);
    }
  }

  ghost predicate HasWritten(start: Bytes, bytes: Bytes, l: seq<Bytes>, i: nat) {
    i <= |l| && AllShort(l[..i]) && bytes == start + (Uvarint(|l|) + Varstrs(l[..i]))
  }

  lemma StartWriting(start: Bytes, l: seq<Bytes>)
    ensures HasWritten(start, start + Uvarint(|l|), l, 0)
  {
    hide Uvarint;
  }

  lemma KeepWriting(start: Bytes, bytes: Bytes, l: seq<Bytes>, i: nat)
    requires HasWritten(start, bytes, l, i) && i < |l|
    ensures start <= bytes
    ensures if |l[i]| <= MAX_INT32 then HasWritten(start, bytes + Varstr(l[i]), l, i + 1) else !AllShort(l)
  {
    hide Uvarint, Varstr, AllShort, Varstrs;
    AllShortNext(l, i);
    assert l[..i + 1] == l[..i] + [l[i]];
    VarstrsNext(l[..i], l[i]);
    ConcatenationGroups(start, Uvarint(|l|), Varstrs(l[..i]), Varstr(l[i]));
  }

  lemma ConcatenationGroups(a: Bytes, b: Bytes, c: Bytes, d: Bytes)
    ensures a + (b + c) + d == a + (b + (c + d))
  {
  }

  lemma DoneWriting(start: Bytes, bytes: Bytes, l: seq<Bytes>)
    requires HasWritten(start, bytes, l, |l|)
    ensures AllShort(l) && bytes == start + VarstrList(l) && start <= bytes
  {
    hide Uvarint, Varstrs;
    assert l[..|l|] == l;
  }

  lemma AllShortNext(l: seq<Bytes>, i: nat)
    requires i < |l|
    ensures AllShort(l[..i + 1]) <==> AllShort(l[..i]) && |l[i]| <= MAX_INT32
    ensures AllShort(l) ==> |l[i]| <= MAX_INT32
  {
    assert l[..i + 1] == l[..i] + [l[i]];
    assert AllShort(l[..i + 1]) ==> |l[..i + 1][i]| <= MAX_INT32;
    if AllShort(l[..i + 1]) {
      forall k | 0 <= k < i ensures |l[..i][k]| <= MAX_INT32 {
        assert l[..i][k] == l[..i + 1][k];
      }
    }
  }

  lemma {:induction false} VarstrsNext(l: seq<Bytes>, s: Bytes)
    ensures Varstrs(l + [s]) == Varstrs(l) + Varstr(s)
  {
    hide Varstr;
    if l == [] {
      assert (l + [s])[1..] == [];
    } else {
      assert (l + [s])[1..] == l[1..] + [s];
      VarstrsNext(l[1..], s);
    }
  }

  /** The source of octets; what has been read is gone. */
  class Reader {
    var buf: Bytes

    constructor (b: Bytes)
      ensures buf == b
    {
      buf := b;
    }

    method ReadByte() returns (r: Result<Byte>)
      modifies this
      ensures if old(buf) == [] then r == Err(EndOfFile) && buf == [] else r == Ok(old(buf)[0]) && buf == old(buf)[1..]
    {
      if |buf| == 0 {
        return Err(EndOfFile);
      }
      var b := buf[0];
      buf := buf[1..];
      return Ok(b);
    }

    method ReadUvarint() returns (r: Result<nat>)
      modifies this
      ensures Reads(ParseUvarint(old(buf), 0), r, buf)
    {
      hide ParseUvarint, Continues;
      var x: nat, i: nat, scale: nat := 0, 0, 1;
      StartParsing(buf);
      while true
        invariant Continues(ParseUvarint(old(buf), 0), x, scale, ParseUvarint(buf, i))
        decreases |buf|
      {
        ParseNext(ParseUvarint(old(buf), 0), x, scale, buf, i);
        var b := ReadByte();
        if b.Err? {
          return Err(b.error);
        }
        if i >= 10 {
          return Err(Overflow);
        }
        if b.value < 128 {
          if i == 9 && b.value > 1 {
            return Err(Overflow);
          }
          x := x + b.value * scale;
          return Ok(x);
        }
        x := x + b.value % 128 * scale;
        scale := scale * 128;
        i := i + 1;
      }
    }

    method ReadVarint31() returns (r: Result<nat>)
      modifies this
      ensures Reads(ParseVarint(old(buf), MAX_INT32), r, buf)
    {
      hide ParseUvarint;
      var val := ReadUvarint();
      if val.Err? {
        return val;
      }
      if val.value > MAX_INT32 {
        return Err(OutOfRange);
      }
      return val;
    }

    method ReadVarint63() returns (r: Result<nat>)
      modifies this
      ensures Reads(ParseVarint(old(buf), MAX_INT64), r, buf)
    {
      hide ParseUvarint;
      var val := ReadUvarint();
      if val.Err? {
        return val;
      }
      if val.value > MAX_INT64 {
        return Err(OutOfRange);
      }
      return val;
    }

    method ReadVarstr31() returns (r: Result<Bytes>)
      modifies this
      ensures Reads(ParseVarstr(old(buf)), r, buf)
    {
      hide ParseVarint;
      var l := ReadVarint31();
      if l.Err? {
        return Err(l.error);
      }
      if l.value == 0 {
        return Ok([]);
      }
      if l.value > |buf| {
        return Err(EndOfFile);
      }
      var str := buf[..l.value];
      buf := buf[l.value..];
      return Ok(str);
    }

    /** The elements that were read are returned with the error too, an empty one for the one that failed. */
    method ReadVarstrList() returns (result: seq<Bytes>, err: Option<Error>)
      modifies this
      ensures var n := ParseVarint(old(buf), MAX_INT32);
        if n.Err? then result == [] && err == Some(n.error)
        else
          var all := ReadElements(n.value.rest, n.value.value);
          && result == all.elements
          && err == if all.error.Some? && 2 * |all.elements| < n.value.value then Some(EndOfFile) else all.error
      ensures var p := ParseVarstrList(old(buf));
        && (err.None? <==> p.Ok?)
        && (p.Ok? ==> result == p.value.value && buf == p.value.rest)
    {
      hide ParseVarint, ParseVarstr, ParseVarstrs, ReadElements;
      var n := ReadVarint31();
      if n.Err? {
        return [], Some(n.error);
      }
      ghost var start := buf;
      ElementsParse(start, n.value);
      ElementsNone(start);
      result, err := [], None;
      if n.value == 0 {
        return;
      }
      var nelts: nat := n.value;
      while nelts > 0 && err == None
        invariant nelts <= n.value && |result| == n.value - nelts
        invariant err.None? ==> Gathers(ReadElements(start, n.value), result, ReadElements(buf, nelts))
        invariant err.Some? ==> ReadElements(start, n.value) == Elements(result, err, [])
        decreases nelts, err == None
      {
        ElementsNext(ReadElements(start, n.value), result, buf, nelts);
        var s := ReadVarstr31();
        err := if s.Err? then Some(s.error) else None;
        result := result + [if s.Err? then [] else s.value];
        nelts := nelts - 1;
      }
      ElementsNone(buf);
      assert result + [] == result;
      if |result| < nelts {
        err := Some(EndOfFile);
      }
    }
  }

  /** What reading n elements yields, whether it fails or not. */
  datatype Elements = Elements(elements: seq<Bytes>, error: Option<Error>, rest: Bytes)

  function ReadElements(s: Bytes, n: nat): Elements
    decreases n
  {
    if n == 0 then Elements([], None, s)
    else
      var first := ParseVarstr(s);
      if first.Err? then Elements([[]], Some(first.error), [])
      else
        var later := ReadElements(first.value.rest, n - 1);
        later.(elements := [first.value.value] + later.elements)
  }

  lemma {:induction false} ElementsParse(s: Bytes, n: nat)
    ensures var all, p := ReadElements(s, n), ParseVarstrs(s, n);
      && (all.error.None? <==> p.Ok?) && (p.Ok? ==> p.value == Parsed(all.elements, all.rest))
      && (p.Err? ==> all.error == Some(p.error) && 0 < |all.elements| <= n)
    decreases n
  {
    hide ParseVarstr;
    if n > 0 && ParseVarstr(s).Ok? {
      ElementsParse(ParseVarstr(s).value.rest, n - 1);
    }
  }

  ghost predicate Gathers(whole: Elements, before: seq<Bytes>, part: Elements) {
    whole == part.(elements := before + part.elements)
  }

  lemma ElementsNext(whole: Elements, before: seq<Bytes>, s: Bytes, n: nat)
    requires n > 0 && Gathers(whole, before, ReadElements(s, n))
    ensures var first := ParseVarstr(s);
      if first.Err? then whole == Elements(before + [[]], Some(first.error), [])
      else Gathers(whole, before + [first.value.value], ReadElements(first.value.rest, n - 1))
  {
    hide ParseVarstr;
    var first := ParseVarstr(s);
    if first.Ok? {
      var later := ReadElements(first.value.rest, n - 1);
      assert before + ([first.value.value] + later.elements) == before + [first.value.value] + later.elements;
    }
  }

  lemma ElementsNone(s: Bytes)
    ensures ReadElements(s, 0) == Elements([], None, s)
    ensures forall n: nat :: Gathers(ReadElements(s, n), [], ReadElements(s, n))
  {
    forall n: nat ensures Gathers(ReadElements(s, n), [], ReadElements(s, n)) {
      assert [] + ReadElements(s, n).elements == ReadElements(s, n).elements;
    }
  }

  /** A count of three and a length out of range: too few elements were read, and that hides the real error. */
  lemma FirstErrorIsHidden(rest: Bytes)
    ensures var all := ReadElements(Uvarint(MAX_INT32 + 1) + rest, 3);
      all.error == Some(OutOfRange) && 2 * |all.elements| < 3
  {
    hide Uvarint, ParseVarint;
    VarintIsReadBack(MAX_INT32 + 1, MAX_INT64, rest);
    TooLong(Uvarint(MAX_INT32 + 1) + rest);
  }

  lemma TooLong(s: Bytes)
    requires ParseVarint(s, MAX_INT64).Ok? && ParseVarint(s, MAX_INT64).value.value > MAX_INT32
    ensures ParseVarint(s, MAX_INT32) == Err(OutOfRange)
  {
    hide ParseUvarint;
  }

  /** The method has done what the parser says. */
  ghost predicate Reads<T>(p: Result<Parsed<T>>, r: Result<T>, buf: Bytes) {
    if p.Ok? then r == Ok(p.value.value) && buf == p.value.rest else r == Err(p.error)
  }

  /** With x and the scale from the octets before, the rest adds up to the whole. */
  ghost predicate Continues(whole: Result<Parsed<nat>>, x: nat, scale: nat, part: Result<Parsed<nat>>) {
    if part.Err? then whole == part
    else whole == Ok(Parsed(x + scale * part.value.value, part.value.rest))
  }

  lemma StartParsing(s: Bytes)
    ensures Continues(ParseUvarint(s, 0), 0, 1, ParseUvarint(s, 0))
  {
    hide ParseUvarint;
  }

  lemma ParseNext(whole: Result<Parsed<nat>>, x: nat, scale: nat, s: Bytes, i: nat)
    requires Continues(whole, x, scale, ParseUvarint(s, i))
    ensures s == [] ==> whole == Err(EndOfFile)
    ensures s != [] && (i >= 10 || (i == 9 && 1 < s[0] < 128)) ==> whole == Err(Overflow)
    ensures s != [] && i < 10 && s[0] < 128 && !(i == 9 && s[0] > 1) ==> whole == Ok(Parsed(x + s[0] * scale, s[1..]))
    ensures s != [] && i < 10 && s[0] >= 128 ==>
      Continues(whole, x + s[0] % 128 * scale, scale * 128, ParseUvarint(s[1..], i + 1))
  {
    if s != [] && i < 10 && s[0] >= 128 {
      var later := ParseUvarint(s[1..], i + 1);
      if later.Ok? {
        Distribute(x, scale, s[0] % 128, later.value.value);
      }
    }
  }

  lemma Distribute(x: nat, scale: nat, b: nat, v: nat)
    ensures x + scale * (b + 128 * v) == x + b * scale + scale * 128 * v
  {
  }

  /** The consumer of a string with extensions takes a part and reports how much. */
  method ReadExtensibleString(r: Reader, f: Bytes -> Result<nat>) returns (suffix: Result<Bytes>)
    requires forall s :: f(s).Ok? ==> f(s).value <= |s|
    modifies r
    ensures var p := ParseVarstr(old(r.buf));
      if p.Err? then suffix == Err(p.error)
      else
        && r.buf == p.value.rest
        && var used := f(p.value.value);
           suffix == if used.Err? then Err(used.error) else Ok(p.value.value[used.value..])
  {
    hide ParseVarstr;
    var s := r.ReadVarstr31();
    if s.Err? {
      return s;
    }
    var used := f(s.value);
    if used.Err? {
      return Err(used.error);
    }
    return Ok(s.value[used.value..]);
  }

  method WriteExtensibleString(w: Writer, suffix: Bytes, body: Bytes) returns (ok: bool)
    modifies w
    ensures ok == (|body| + |suffix| <= MAX_INT32)
    ensures w.bytes == if ok then old(w.bytes) + Varstr(body + suffix) else old(w.bytes)
  {
    var buf := new Writer();
    buf.Write(body);
    if |suffix| > 0 {
      buf.Write(suffix);
    }
    assert body + suffix == buf.bytes;
    ok := w.WriteVarstr31(buf.bytes);
  }
}
