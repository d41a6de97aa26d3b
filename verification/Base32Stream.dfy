/** The decoder of base32 in place, and the encoder that takes its input in pieces. */
module Base32Stream {
  import opened Wrappers
  import opened Base32

  function DecodedLen(e: Encoding, n: nat): nat {
    if e.padChar.None? then n * 5 / 8 else n / 8 * 5
  }

  /** The digits of one quantum. */
  method TakeQuantum(e: Encoding, src: Bytes) returns (r: Taken)
    requires |e.encode| == 32
    ensures r == Take(e, src, [])
  {
    hide Take, IsGoodPadding, DecodeMap;
    var left: Bytes, dbuf: Bytes := src, [];
    while |dbuf| < 8
      invariant |dbuf| <= 8 && Take(e, src, []) == Take(e, left, dbuf)
      decreases |left|
    {
      TakeStep(e, left, dbuf);
      if |left| == 0 && e.padChar.Some? {
        return Corrupt;
      }
      if |left| == 0 && e.padChar.None? {
        return Last(dbuf, []);
      }
      var symbol := left[0];
      left := left[1..];
      if symbol == PadByte(e) && |dbuf| >= 2 && |left| < 8 {
        var good := CheckPadding(e, left, |dbuf|);
        if !good {
          return Corrupt;
        }
        return Last(dbuf, left);
      }
      var digit := DecodeMap(e, symbol);
      if digit == 0xFF {
        return Corrupt;
      }
      dbuf := dbuf + [digit];
    }
    TakeStep(e, left, dbuf);
    return Whole(dbuf, left);
  }

  lemma TakeStep(e: Encoding, src: Bytes, digits: Bytes)
    requires |e.encode| == 32 && |digits| <= 8
    ensures Take(e, src, digits) ==
      if |digits| == 8 then Whole(digits, src)
      else if src == [] then (if e.padChar.None? then Last(digits, []) else Corrupt)
      else if src[0] == PadByte(e) && |digits| >= 2 && |src| - 1 < 8 then
        (if IsGoodPadding(e, src[1..], |digits|) then Last(digits, src[1..]) else Corrupt)
      else if DecodeMap(e, src[0]) == 0xFF then Corrupt
      else Take(e, src[1..], digits + [DecodeMap(e, src[0])])
  {
    hide IsGoodPadding, DecodeMap;
  }

  method CheckPadding(e: Encoding, rest: Bytes, n: nat) returns (good: bool)
    requires n < 8
    ensures good == IsGoodPadding(e, rest, n)
  {
    if |rest| + n < 8 - 1 {
      return false;
    }
    for k := 0 to 8 - 1 - n
      invariant forall i :: 0 <= i < k && i < |rest| ==> rest[i] == PadByte(e)
    {
      if |rest| > k && rest[k] != PadByte(e) {
        return false;
      }
    }
    return !(n == 1 || n == 3 || n == 6);
  }

  function OctetCount(digits: nat): nat {
    if digits >= 8 then 5 else if digits == 7 then 4 else if digits == 5 then 3 else if digits == 4 then 2
    else if digits == 2 then 1 else 0
  }

  lemma OctetsLength(g: Bytes)
    ensures |Octets(g)| == OctetCount(|g|)
  {
  }

  /** Eight digits to five octets, from the last octet to the first; fewer digits to fewer. */
  method PackQuantum(dst: array<Byte>, at: nat, dbuf: Bytes)
    requires at + OctetCount(|dbuf|) <= dst.Length && |dbuf| <= 8
    modifies dst
    ensures dst[..at] == old(dst[..at]) && dst[at..at + OctetCount(|dbuf|)] == Octets(dbuf)
  {
    hide Octet0, Octet1, Octet2, Octet3, Octet4;
    var dlen := |dbuf|;
    if dlen == 8 {
      dst[at + 4] := Octet4(dbuf[6], dbuf[7]);
    }
    if dlen == 8 || dlen == 7 {
      dst[at + 3] := Octet3(dbuf[4], dbuf[5], dbuf[6]);
    }
    if dlen == 8 || dlen == 7 || dlen == 5 {
      dst[at + 2] := Octet2(dbuf[3], dbuf[4]);
    }
    if dlen == 8 || dlen == 7 || dlen == 5 || dlen == 4 {
      dst[at + 1] := Octet1(dbuf[1], dbuf[2], dbuf[3]);
    }
    if dlen == 8 || dlen == 7 || dlen == 5 || dlen == 4 || dlen == 2 {
      dst[at] := Octet0(dbuf[0], dbuf[1]);
    }
  }

  lemma RoomForQuantum(e: Encoding, total: nat, quanta: nat, left: nat, digits: nat)
    requires total == 8 * quanta + left && digits <= 8
    requires digits == 8 ==> left >= 8
    requires digits < 8 ==> left >= if e.padChar.None? then digits else 8
    ensures 5 * quanta + OctetCount(digits) <= DecodedLen(e, total)
  {
  }

  /** The octets of the quanta up to the end, or up to the first that is not well formed. */
  function Salvaged(e: Encoding, src: Bytes): Bytes
    requires |e.encode| == 32
    decreases |src|
  {
    if src == [] then []
    else
      match Take(e, src, [])
      case Whole(digits, rest) => Octets(digits) + Salvaged(e, rest)
      case Last(digits, _) => Octets(digits)
      case Corrupt => []
  }

  lemma {:induction false} SalvagedIsDecoded(e: Encoding, src: Bytes)
    requires |e.encode| == 32 && Decoded(e, src).Some?
    ensures Salvaged(e, src) == Decoded(e, src).value
    decreases |src|
  {
    hide Take, Octets;
    if src != [] && Take(e, src, []).Whole? {
      SalvagedIsDecoded(e, Take(e, src, []).rest);
    }
  }

  /** What has been written, and what the rest of the input adds, is what can be salvaged of all of it. */
  ghost predicate Leads(e: Encoding, src: Bytes, written: Bytes, left: Bytes, end: bool)
    requires |e.encode| == 32
  {
    if end then Salvaged(e, src) == written && Decoded(e, src).Some?
    else Salvaged(e, src) == written + Salvaged(e, left) && Decoded(e, src).Some? == Decoded(e, left).Some?
  }

  lemma StartLeads(e: Encoding, src: Bytes)
    requires |e.encode| == 32
    ensures Leads(e, src, [], src, false)
  {
    hide Salvaged, Decoded;
    assert [] + Salvaged(e, src) == Salvaged(e, src);
  }

  lemma QuantumLeads(e: Encoding, src: Bytes, written: Bytes, left: Bytes)
    requires |e.encode| == 32 && left != [] && Leads(e, src, written, left, false)
    ensures var r := Take(e, left, []);
      if r == Corrupt then Salvaged(e, src) == written && Decoded(e, src) == None
      else Leads(e, src, written + Octets(r.digits), r.rest, r.Last?)
  {
    hide Take, Octets;
    DecodedNext(e, left);
    var r := Take(e, left, []);
    if r.Whole? {
      assert written + (Octets(r.digits) + Salvaged(e, r.rest)) == written + Octets(r.digits) + Salvaged(e, r.rest);
    } else if r == Corrupt {
      assert written + [] == written;
    }
  }

  lemma LeadsToEnd(e: Encoding, src: Bytes, written: Bytes, left: Bytes, end: bool)
    requires |e.encode| == 32 && Leads(e, src, written, left, end) && (end || left == [])
    ensures Salvaged(e, src) == written && Decoded(e, src) == Some(written)
  {
    if !end {
      assert written + [] == written;
    }
    SalvagedIsDecoded(e, src);
  }

  lemma DecodedNext(e: Encoding, src: Bytes)
    requires |e.encode| == 32 && src != []
    ensures match Take(e, src, [])
      case Whole(digits, rest) =>
        var later := Decoded(e, rest);
        Decoded(e, src) == if later.None? then None else Some(Octets(digits) + later.value)
      case Last(digits, _) => Decoded(e, src) == Some(Octets(digits))
      case Corrupt => Decoded(e, src) == None
  {
    hide Take, Octets;
  }

  /** Whatever the input, nothing is written past the length that the caller was told to provide. */
  method DecodeInto(e: Encoding, dst: array<Byte>, src: Bytes) returns (n: nat, ok: bool)
    requires |e.encode| == 32 && dst.Length >= DecodedLen(e, |src|)
    modifies dst
    ensures n <= dst.Length && dst[..n] == Salvaged(e, src)
    ensures ok == Decoded(e, src).Some?
    ensures ok ==> Decoded(e, src) == Some(dst[..n])
  {
    hide Octets, Take, Decoded, DecodedLen, Leads, Salvaged;
    var left: Bytes, at: nat, end := src, 0, false;
    ghost var quanta: nat := 0;
    n := 0;
    StartLeads(e, src);
    while |left| > 0 && !end
      invariant n <= dst.Length && Leads(e, src, dst[..n], left, end)
      invariant !end ==> n == at == 5 * quanta && |src| == 8 * quanta + |left|
      decreases !end, |left|
    {
      ghost var before := dst[..n];
      var taken := TakeQuantum(e, left);
      QuantumLeads(e, src, before, left);
      TakenLengths(e, left);
      if taken == Corrupt {
        return n, false;
      }
      OctetsLength(taken.digits);
      RoomForQuantum(e, |src|, quanta, |left|, |taken.digits|);
      PackQuantum(dst, at, taken.digits);
      var count := OctetCount(|taken.digits|);
      assert dst[..at + count] == before + Octets(taken.digits);
      if taken.Last? {
        end := true;
      } else {
        at := at + 5;
        quanta := quanta + 1;
      }
      left := taken.rest;
      n := n + count;
    }
    LeadsToEnd(e, src, dst[..n], left, end);
    return n, true;
  }

  lemma TakenLengths(e: Encoding, src: Bytes)
    requires |e.encode| == 32
    ensures var r := Take(e, src, []);
      && (r.Whole? ==> |r.digits| == 8 && |src| == 8 + |r.rest|)
      && (r.Last? ==> |r.digits| < 8 && |src| >= (if e.padChar.None? then |r.digits| else 8))
  {
    hide Take;
  }

  /** Line ends are dropped before decoding. */
  function WithoutNewlines(s: Bytes): Bytes {
    if s == [] then [] else (if IsNewline(s[0]) then [] else [s[0]]) + WithoutNewlines(s[1..])
  }

  method DecodeString(e: Encoding, s: Bytes) returns (r: Option<Bytes>)
    requires |e.encode| == 32
    ensures r == Decoded(e, WithoutNewlines(s))
  {
    hide Decoded, WithoutNewlines;
    var src := WithoutNewlines(s);
    var dbuf := new Byte[DecodedLen(e, |src|)];
    var n, ok := DecodeInto(e, dbuf, src);
    return if ok then Some(dbuf[..n]) else None;
  }

  lemma {:induction false} NothingToDrop(s: Bytes)
    requires forall i :: 0 <= i < |s| ==> !IsNewline(s[i])
    ensures WithoutNewlines(s) == s
  {
    if s != [] {
      NothingToDrop(s[1..]);
    }
  }

  lemma {:induction false} EncodedHasNoNewlines(e: Encoding, s: Bytes)
    requires IsEncoding(e)
    ensures forall i :: 0 <= i < |Encoded(e, s)| ==> !IsNewline(Encoded(e, s)[i])
    decreases |s|
  {
    hide EncodedQuantum;
    if s != [] {
      QuantumHasNoNewlines(e, if |s| <= 5 then s else s[..5]);
      if |s| > 5 {
        EncodedHasNoNewlines(e, s[5..]);
      }
    }
  }

  lemma QuantumHasNoNewlines(e: Encoding, s: Bytes)
    requires IsEncoding(e) && 0 < |s| <= 5
    ensures var q := EncodedQuantum(e, s);
      forall i :: 0 <= i < |q| ==> !IsNewline(q[i])
  {
    hide Groups;
    GroupsFit(s);
  }

  /** Decoding an encoded string gives it back, with padding and without. */
  method RoundTrip(e: Encoding, s: Bytes) returns (text: Bytes, r: Option<Bytes>)
    requires IsEncoding(e)
    ensures r == Some(s) && |text| == EncodedLen(e, |s|)
  {
    hide Encoded, Decoded, WithoutNewlines, EncodedLen, IsEncoding;
    Has32(e);
    EncodedHasNoNewlines(e, s);
    text := EncodeToString(e, s);
    EncodedLength(e, s);
    NothingToDrop(text);
    DecodedEncoded(e, s);
    r := DecodeString(e, text);
  }

  /** Cutting at a multiple of five does not change the encoding. */
  lemma {:induction false} EncodedInPieces(e: Encoding, a: Bytes, b: Bytes)
    requires |e.encode| == 32 && |a| % 5 == 0
    ensures Encoded(e, a + b) == Encoded(e, a) + Encoded(e, b)
    decreases |a|
  {
    hide EncodedQuantum, Encoded;
    EncodedNothing(e);
    if a == [] {
      assert a + b == b;
    } else {
      var first, rest := a[..5], a[5..];
      assert (a + b)[..5] == first && (a + b)[5..] == rest + b;
      EncodedFive(e, a + b);
      EncodedFive(e, a);
      EncodedInPieces(e, rest, b);
    }
  }

  /** The encoder of a stream: up to four octets wait for company. */
  class Encoder {
    const enc: Encoding
    const buf: array<Byte>
    const out: array<Byte>
    var nbuf: nat
    var written: Bytes
    ghost var flushed: Bytes
    ghost var data: Bytes

    ghost predicate HasBuffers()
    {
      |enc.encode| == 32 && buf.Length == 5 && out.Length == 1024 && buf != out
    }

    /** What has been written is the encoding of some whole quanta. */
    ghost predicate IsFlushed()
      requires HasBuffers()
      reads this`flushed, this`written
    {
      |flushed| % 5 == 0 && written == Encoded(enc, flushed)
    }

    /** All the data that was given: the flushed part, and a few octets that wait. */
    ghost predicate Valid()
      reads this, buf
    {
      HasBuffers() && IsFlushed() && nbuf < 5 && data == flushed + buf[..nbuf]
    }

    constructor (enc: Encoding)
      requires |enc.encode| == 32
      ensures Valid() && data == [] && written == [] && this.enc == enc
      ensures fresh(buf) && fresh(out)
    {
      this.enc := enc;
      buf := new Byte[5];
      out := new Byte[1024];
      nbuf, written, data, flushed := 0, [], [], [];
    }

    /** Encode some whole quanta and pass them on. */
    method Emit(chunk: Bytes)
      requires HasBuffers() && IsFlushed() && |chunk| % 5 == 0 && |chunk| <= 640
      modifies this`written, this`flushed, out
      ensures IsFlushed() && flushed == old(flushed) + chunk
    {
      hide Encoded;
      EncodedLength(enc, chunk);
      Encode(enc, out, chunk);
      written := written + out[..|chunk| / 5 * 8];
      EncodedInPieces(enc, flushed, chunk);
      flushed := flushed + chunk;
    }

    /** The octets that wait, and as many of p as complete a quantum with them. */
    method FillFringe(p: Bytes) returns (i: nat)
      requires HasBuffers() && 0 < nbuf < 5
      modifies this`nbuf, buf
      ensures i == (if |p| < 5 - old(nbuf) then |p| else 5 - old(nbuf))
      ensures nbuf == old(nbuf) + i && buf[..nbuf] == old(buf[..nbuf]) + p[..i]
    {
      i := 0;
      while i < |p| && nbuf < 5
        invariant i <= |p| && nbuf == old(nbuf) + i && nbuf <= 5
        invariant buf[..nbuf] == old(buf[..nbuf]) + p[..i]
      {
        ghost var before := buf[..nbuf];
        buf[nbuf] := p[i];
        assert buf[..nbuf + 1] == before + [p[i]];
        nbuf := nbuf + 1;
        i := i + 1;
      }
    }

    /** Large interior chunks. */
    method EmitInterior(p: Bytes) returns (n: nat)
      requires HasBuffers() && IsFlushed()
      modifies this`written, this`flushed, out
      ensures n <= |p| < n + 5 && IsFlushed() && flushed == old(flushed) + p[..n]
    {
      hide IsFlushed;
      n := 0;
      var left := p;
      while |left| >= 5
        invariant n <= |p| && left == p[n..] && IsFlushed() && flushed == old(flushed) + p[..n]
        decreases |left|
      {
        var nn := 1024 / 8 * 5;
        if nn > |left| {
          nn := |left|;
          nn := nn - nn % 5;
        }
        Emit(left[..nn]);
        assert p[..n + nn] == p[..n] + left[..nn];
        n := n + nn;
        left := left[nn..];
      }
    }

    method Write(p: Bytes) returns (n: nat)
      requires Valid()
      modifies this`nbuf, this`written, this`flushed, this`data, buf, out
      ensures Valid() && n == |p| && data == old(data) + p
    {
      hide IsFlushed;
      n := 0;
      if nbuf > 0 {
        n := FillFringe(p);
        data := data + p[..n];
        if nbuf < 5 {
          assert p[..n] == p;
          return;
        }
        assert buf[..] == buf[..nbuf];
        Emit(buf[..]);
        nbuf := 0;
      }
      ghost var k := n;
      JoinBack(old(data), p, k);
      var more := WriteRest(p[n..]);
      n := n + more;
    }

    /** Nothing waits: whole quanta pass through, and what is left over will wait. */
    method WriteRest(p: Bytes) returns (n: nat)
      requires HasBuffers() && IsFlushed() && nbuf == 0 && data == flushed
      modifies this`nbuf, this`written, this`flushed, this`data, buf, out
      ensures Valid() && n == |p| && data == old(data) + p
    {
      hide IsFlushed;
      n := EmitInterior(p);
      var left := p[n..];
      JoinBack(data, p, n);
      KeepFringe(left);
      nbuf := |left|;
      data := data + p;
      n := n + |left|;
    }

    method KeepFringe(left: Bytes)
      requires buf.Length == 5 && |left| < 5
      modifies buf
      ensures buf[..|left|] == left
    {
      for i := 0 to |left|
        invariant buf[..i] == left[..i]
      {
        buf[i] := left[i];
        assert buf[..i + 1] == buf[..i] + [left[i]];
      }
    }

    /**
     * The output now starts with the encoding of all that was written, however it was cut. It is that
     * encoding exactly if there is padding or nothing waited: eight octets are passed on in any case.
     */
    method Close()
      requires Valid()
      modifies this`nbuf, this`written, out
      ensures nbuf == 0 && Encoded(enc, data) <= written
      ensures |written| == |old(written)| + if old(nbuf) > 0 then 8 else 0
      ensures written == Encoded(enc, data) <==> enc.padChar.Some? || old(nbuf) == 0
    {
      hide Encoded;
      EncodedNothing(enc);
      EncodedInPieces(enc, flushed, buf[..nbuf]);
      if nbuf > 0 {
        var rest := buf[..nbuf];
        EncodedLength(enc, rest);
        Encode(enc, out, rest);
        ghost var n := |Encoded(enc, rest)|;
        assert n <= 8 && (n == 8 <==> enc.padChar.Some?);
        assert out[..8] == Encoded(enc, rest) + out[n..8];
        nbuf := 0;
        assert written + out[..8] == written + Encoded(enc, rest) + out[n..8];
        written := written + out[..8];
      }
    }
  }

  lemma JoinBack(a: Bytes, p: Bytes, n: nat)
    requires n <= |p|
    ensures a + p[..n] + p[n..] == a + p
  {
    assert p == p[..n] + p[n..];
  }

  /** Without padding, one octet is closed with six octets too many. */
  method ClosedTooLong(enc: Encoding, x: Byte) returns (e: Encoder)
    requires |enc.encode| == 32 && enc.padChar.None?
    ensures |e.written| == 8 && |Encoded(enc, [x])| == 2 && e.written[..2] == Encoded(enc, [x])
  {
    hide Encoded;
    e := new Encoder(enc);
    var n := e.Write([x]);
    assert |e.flushed| == 0 && e.nbuf == 1 && e.data == [x];
    EncodedNothing(enc);
    EncodedLength(enc, [x]);
    e.Close();
    assert Encoded(enc, [x]) <= e.written;
  }
}
