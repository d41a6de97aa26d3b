/** Frames of at most 1024 octets, each sealed under the next nonce. */
module SecretConnection {
  import opened Numbers
  import opened Wrappers
  import opened Nonce

  const MAX_DATA: nat := 1024
  const FRAME_SIZE: nat := 1026

  /** Sealing is taken as ideal: a frame opens only under the nonce it was sealed with. */
  datatype Sealed = Sealed(nonce: Octets, frame: Octets)

  /** The length in two octets, the data, and zeros up to the fixed size. */
  function FrameOf(chunk: Octets): (frame: Octets)
    requires |chunk| <= MAX_DATA
    ensures |frame| == FRAME_SIZE
  {
    [(|chunk| / 256) as Byte, (|chunk| % 256) as Byte] + chunk + Zeros(MAX_DATA - |chunk|)
  }

  function LengthOf(frame: Octets): nat
    requires |frame| == FRAME_SIZE
  {
    256 * (frame[0] as nat) + frame[1] as nat
  }

  function ChunkOf(frame: Octets): (chunk: Option<Octets>)
    requires |frame| == FRAME_SIZE
  {
    if LengthOf(frame) > MAX_DATA then None else Some(frame[2..2 + LengthOf(frame)])
  }

  lemma ByteOfNumber(n: nat)
    requires n < 256
    ensures (n as Byte) as nat == n
  {
    assert n % 256 == n;
  }

  lemma ChunkOfFrame(chunk: Octets)
    requires |chunk| <= MAX_DATA
    ensures LengthOf(FrameOf(chunk)) == |chunk| && ChunkOf(FrameOf(chunk)) == Some(chunk)
  {
    ByteOfNumber(|chunk| / 256);
    ByteOfNumber(|chunk| % 256);
  }

  /** What a writer at this nonce puts on the wire for the data. */
  function Framed(data: Octets, nonce: Octets): (frames: seq<Sealed>)
    decreases |data|
  {
    if data == [] then []
    else
      var n := Min(MAX_DATA, |data|);
      [Sealed(nonce, FrameOf(data[..n]))] + Framed(data[n..], Twice(nonce))
  }

  /** What a reader at this nonce makes of the frames, with a buffer that takes a whole frame. */
  function Opened(frames: seq<Sealed>, nonce: Octets): Option<Octets> {
    if frames == [] then Some([])
    else if frames[0].nonce != nonce || |frames[0].frame| != FRAME_SIZE then None
    else
      var chunk, later := ChunkOf(frames[0].frame), Opened(frames[1..], Twice(nonce));
      if chunk.None? || later.None? then None else Some(chunk.value + later.value)
  }

  lemma AfterNext(nonce: Octets, k: nat)
    ensures After(Twice(nonce), k) == After(nonce, k + 1)
  {
    hide Twice;
    AfterAfter(nonce, 1, k);
    assert After(nonce, 1) == Twice(After(nonce, 0));
  }

  /** The frames of a write are opened to the data, and the reader is then at the writer's next nonce. */
  lemma {:induction false} OpenedFramed(data: Octets, nonce: Octets, more: seq<Sealed>)
    ensures var frames := Framed(data, nonce);
      var later := Opened(more, After(nonce, |frames|));
      Opened(frames + more, nonce) == if later.None? then None else Some(data + later.value)
    decreases |data|
  {
    hide FrameOf, Twice, Opened, After;
    var frames := Framed(data, nonce);
    var later := Opened(more, After(nonce, |frames|));
    if data == [] {
      assert frames + more == more && After(nonce, 0) == nonce by { AfterNone(nonce); }
      assert later.Some? ==> data + later.value == later.value;
    } else {
      var n := Min(MAX_DATA, |data|);
      var first, left := data[..n], data[n..];
      var rest := Framed(left, Twice(nonce));
      OpenedFramed(left, Twice(nonce), more);
      AfterNext(nonce, |rest|);
      assert frames + more == [Sealed(nonce, FrameOf(first))] + (rest + more);
      OpenedNext(nonce, first, rest + more);
      assert data == first + left;
      assert later.Some? ==> first + (left + later.value) == data + later.value;
    }
  }

  lemma AfterNone(nonce: Octets)
    ensures After(nonce, 0) == nonce
  {
  }

  lemma OpenedNext(nonce: Octets, chunk: Octets, rest: seq<Sealed>)
    requires |chunk| <= MAX_DATA
    ensures var later := Opened(rest, Twice(nonce));
      Opened([Sealed(nonce, FrameOf(chunk))] + rest, nonce) ==
        if later.None? then None else Some(chunk + later.value)
  {
    hide FrameOf, ChunkOf, Twice;
    ChunkOfFrame(chunk);
    assert ([Sealed(nonce, FrameOf(chunk))] + rest)[1..] == rest;
  }

  /** The frames of several writes, one after another. */
  function AllFramed(writes: seq<Octets>, nonce: Octets): seq<Sealed> {
    if writes == [] then []
    else
      var frames := Framed(writes[0], nonce);
      frames + AllFramed(writes[1..], After(nonce, |frames|))
  }

  function Concatenated(writes: seq<Octets>): Octets {
    if writes == [] then [] else writes[0] + Concatenated(writes[1..])
  }

  /** Whatever was written in whatever pieces is what is read. */
  lemma {:induction false} ReaderRecovers(writes: seq<Octets>, nonce: Octets)
    ensures Opened(AllFramed(writes, nonce), nonce) == Some(Concatenated(writes))
    decreases |writes|
  {
    hide Framed, After;
    if writes != [] {
      var frames := Framed(writes[0], nonce);
      ReaderRecovers(writes[1..], After(nonce, |frames|));
      OpenedFramed(writes[0], nonce, AllFramed(writes[1..], After(nonce, |frames|)));
    }
  }

  datatype Error = NoFrame | BadSeal | BadLength

  datatype Outcome = Done(n: nat) | Failed(error: Error)

  /** One end: outgoing is what it has put on the wire, incoming what it has not yet taken from it. */
  class Secret {
    const sendNonce: array<Byte>
    const recvNonce: array<Byte>
    var recvBuffer: Octets
    var outgoing: seq<Sealed>
    var incoming: seq<Sealed>

    ghost predicate Valid()
      reads this`incoming
    {
      && sendNonce.Length == recvNonce.Length == SIZE && sendNonce != recvNonce
      && forall i :: 0 <= i < |incoming| ==> |incoming[i].frame| == FRAME_SIZE
    }

    constructor (recv: array<Byte>, send: array<Byte>)
      requires recv.Length == send.Length == SIZE && recv != send
      ensures Valid() && sendNonce == send && recvNonce == recv
      ensures recvBuffer == [] && outgoing == [] && incoming == []
    {
      sendNonce, recvNonce := send, recv;
      recvBuffer, outgoing, incoming := [], [], [];
    }

    method Write(data: Octets) returns (n: nat)
      requires Valid()
      modifies this`outgoing, sendNonce
      ensures n == |data|
      ensures outgoing == old(outgoing) + Framed(data, old(sendNonce[..]))
      ensures sendNonce[..] == After(old(sendNonce[..]), |Framed(data, old(sendNonce[..]))|)
    {
      hide FrameOf, Twice;
      var left := data;
      n := 0;
      ghost var start := sendNonce[..];
      ghost var written: seq<Sealed> := [];
      while 0 < |left|
        invariant n == |data| - |left| && outgoing == old(outgoing) + written
        invariant sendNonce[..] == After(start, |written|)
        invariant Framed(data, start) == written + Framed(left, sendNonce[..])
        decreases |left|
      {
        var chunk;
        ghost var before, nonce := left, sendNonce[..];
        if MAX_DATA < |left| {
          chunk := left[..MAX_DATA];
          left := left[MAX_DATA..];
        } else {
          chunk := left;
          left := [];
        }
        FramedNext(before, nonce, chunk, left);
        outgoing := outgoing + [Sealed(sendNonce[..], FrameOf(chunk))];
        written := written + [Sealed(nonce, FrameOf(chunk))];
        Incr2Nonce(sendNonce);
        n := n + |chunk|;
      }
      assert Framed(left, sendNonce[..]) == [];
    }

    /** The count of octets taken from the buffer of a previous frame is not reported. */
    method Read(data: array<Byte>) returns (r: Outcome)
      requires Valid() && data != recvNonce && data != sendNonce
      modifies this`recvBuffer, this`incoming, recvNonce, data
      ensures Valid()
      ensures old(recvBuffer) != [] ==>
        var n := Min(data.Length, |old(recvBuffer)|);
        && r == Done(0) && data[..n] == old(recvBuffer)[..n] && recvBuffer == old(recvBuffer)[n..]
        && incoming == old(incoming) && recvNonce[..] == old(recvNonce[..])
      ensures old(recvBuffer) == [] && r.Done? ==>
        && old(incoming) != [] && incoming == old(incoming)[1..] && recvNonce[..] == Twice(old(recvNonce[..]))
        && old(incoming)[0].nonce == old(recvNonce[..])
        && r.n <= data.Length && (recvBuffer != [] ==> r.n == data.Length < MAX_DATA)
        && ChunkOf(old(incoming)[0].frame) == Some(data[..r.n] + recvBuffer)
      ensures r.Failed? ==>
        && recvBuffer == old(recvBuffer) && data[..] == old(data[..])
        && incoming == (if old(incoming) == [] then [] else old(incoming)[1..])
        && recvNonce[..] == if r.error == BadLength then Twice(old(recvNonce[..])) else old(recvNonce[..])
      ensures r == Failed(NoFrame) <==> old(recvBuffer) == [] && old(incoming) == []
      ensures r == Failed(BadSeal) <==>
        old(recvBuffer) == [] && old(incoming) != [] && old(incoming)[0].nonce != old(recvNonce[..])
      ensures r == Failed(BadLength) <==>
        && old(recvBuffer) == [] && old(incoming) != [] && old(incoming)[0].nonce == old(recvNonce[..])
        && ChunkOf(old(incoming)[0].frame) == None
    {
      hide FrameOf, Twice;
      if 0 < |recvBuffer| {
        var n' := Min(data.Length, |recvBuffer|);
        Copy(data, recvBuffer);
        recvBuffer := recvBuffer[n'..];
        return Done(0);
      }
      if incoming == [] {
        return Failed(NoFrame);
      }
      var sealedFrame := incoming[0];
      incoming := incoming[1..];
      if sealedFrame.nonce != recvNonce[..] {
        return Failed(BadSeal);
      }
      Incr2Nonce(recvNonce);
      var chunkLength := LengthOf(sealedFrame.frame);
      if chunkLength > MAX_DATA {
        return Failed(BadLength);
      }
      var chunk := sealedFrame.frame[2..2 + chunkLength];
      var n := Min(data.Length, |chunk|);
      Copy(data, chunk);
      recvBuffer := chunk[n..];
      assert data[..n] + recvBuffer == chunk;
      return Done(n);
    }

    /** As many octets as fit. */
    static method Copy(data: array<Byte>, source: Octets)
      modifies data
      ensures var n := Min(data.Length, |source|);
        data[..n] == source[..n] && data[n..] == old(data[n..])
    {
      var n := Min(data.Length, |source|);
      forall i | 0 <= i < n {
        data[i] := source[i];
      }
    }
  }

  /** What a reader with room for so many octets is told of the frames: the start of each chunk. */
  function Reported(frames: seq<Sealed>, nonce: Octets, room: nat): Option<Octets> {
    if frames == [] then Some([])
    else if frames[0].nonce != nonce || |frames[0].frame| != FRAME_SIZE then None
    else
      var chunk, later := ChunkOf(frames[0].frame), Reported(frames[1..], Twice(nonce), room);
      if chunk.None? || later.None? then None
      else Some(chunk.value[..Min(room, |chunk.value|)] + later.value)
  }

  predicate ChunksFit(frames: seq<Sealed>, room: nat) {
    frames != [] ==>
      && (|frames[0].frame| == FRAME_SIZE ==> LengthOf(frames[0].frame) <= room)
      && ChunksFit(frames[1..], room)
  }

  /** A reader is told all the octets exactly when its buffer takes every chunk: the rest of a chunk is not reported. */
  lemma {:induction false} ReportedIff(frames: seq<Sealed>, nonce: Octets, room: nat)
    ensures Reported(frames, nonce, room).Some? == Opened(frames, nonce).Some?
    ensures Opened(frames, nonce).Some? ==>
              && |Reported(frames, nonce, room).value| <= |Opened(frames, nonce).value|
              && (Reported(frames, nonce, room) == Opened(frames, nonce) <==> ChunksFit(frames, room))
  {
    hide Twice;
    if frames != [] {
      ReportedIff(frames[1..], Twice(nonce), room);
      if Opened(frames, nonce).Some? {
        var chunk := ChunkOf(frames[0].frame).value;
        var told, later := Reported(frames[1..], Twice(nonce), room).value, Opened(frames[1..], Twice(nonce)).value;
        if |chunk| <= room {
          assert chunk[..Min(room, |chunk|)] == chunk;
          assert (chunk + told)[|chunk|..] == told && (chunk + later)[|chunk|..] == later;
        } else {
          assert |chunk[..room] + told| < |chunk + later|;
        }
      }
    }
  }

  /** Chunks never exceed what a frame holds. */
  lemma {:induction false} OpenedFit(frames: seq<Sealed>, nonce: Octets, room: nat)
    requires Opened(frames, nonce).Some? && room >= MAX_DATA
    ensures ChunksFit(frames, room)
  {
    hide Twice;
    if frames != [] {
      OpenedFit(frames[1..], Twice(nonce), room);
    }
  }

  /** Reading until nothing is left, with one buffer of any size. */
  method ReadAll(c: Secret, buf: array<Byte>) returns (ok: bool, got: Octets)
    requires c.Valid() && c.recvBuffer == [] && 0 < buf.Length && buf != c.recvNonce && buf != c.sendNonce
    modifies c`recvBuffer, c`incoming, c.recvNonce, buf
    ensures c.Valid()
    ensures ok == Opened(old(c.incoming), old(c.recvNonce[..])).Some?
    ensures ok ==> c.incoming == [] && c.recvBuffer == []
    ensures ok ==> Some(got) == Reported(old(c.incoming), old(c.recvNonce[..]), buf.Length)
    ensures ok && buf.Length >= MAX_DATA ==> Some(got) == Opened(old(c.incoming), old(c.recvNonce[..]))
  {
    hide Twice, Opened, Reported, ChunkOf, ChunksFit;
    ghost var frames, nonce, room := c.incoming, c.recvNonce[..], buf.Length;
    got := [];
    while |c.incoming| > 0 || |c.recvBuffer| > 0
      invariant c.Valid()
      invariant Continues(frames, nonce, room, got, c.incoming, c.recvNonce[..])
      decreases |c.incoming|, |c.recvBuffer|
    {
      ghost var incoming, current, buffered := c.incoming, c.recvNonce[..], c.recvBuffer;
      var r := c.Read(buf);
      if buffered == [] {
        ContinuesNext(frames, nonce, room, got, incoming, current);
      }
      if r.Failed? {
        return false, got;
      }
      ghost var told := got;
      got := got + buf[..r.n];
      if buffered == [] {
        assert buf[..r.n] == (buf[..r.n] + c.recvBuffer)[..r.n];
      } else {
        assert got == told;
      }
    }
    ContinuesToEnd(frames, nonce, room, got, c.recvNonce[..]);
    return true, got;
  }

  /** got is what was told of the frames that have been taken, and the outcome is that of the remaining ones. */
  ghost predicate Continues(
    frames: seq<Sealed>, nonce: Octets, room: nat, got: Octets, left: seq<Sealed>, current: Octets)
  {
    var all, rest := Reported(frames, nonce, room), Reported(left, current, room);
    all.Some? == rest.Some? && (rest.Some? ==> all.value == got + rest.value)
  }

  lemma ContinuesNext(
    frames: seq<Sealed>, nonce: Octets, room: nat, got: Octets, left: seq<Sealed>, current: Octets)
    requires Continues(frames, nonce, room, got, left, current) && left != [] && |left[0].frame| == FRAME_SIZE
    ensures var chunk := ChunkOf(left[0].frame);
      if left[0].nonce != current || chunk.None? then Opened(frames, nonce) == None
      else Continues(frames, nonce, room, got + chunk.value[..Min(room, |chunk.value|)], left[1..], Twice(current))
  {
    hide Twice, ChunkOf, Opened;
    ReportedIff(frames, nonce, room);
    var chunk := ChunkOf(left[0].frame);
    var rest := Reported(left[1..], Twice(current), room);
    if left[0].nonce == current && chunk.Some? && rest.Some? {
      var start := chunk.value[..Min(room, |chunk.value|)];
      assert got + (start + rest.value) == got + start + rest.value;
    }
  }

  lemma ContinuesToEnd(frames: seq<Sealed>, nonce: Octets, room: nat, got: Octets, current: Octets)
    requires Continues(frames, nonce, room, got, [], current)
    ensures Reported(frames, nonce, room) == Some(got) && Opened(frames, nonce).Some?
    ensures room >= MAX_DATA ==> Opened(frames, nonce) == Some(got)
  {
    hide Opened, ChunksFit;
    assert got + [] == got;
    ReportedIff(frames, nonce, room);
    if room >= MAX_DATA {
      OpenedFit(frames, nonce, room);
    }
  }

  method WriteAll(c: Secret, writes: seq<Octets>)
    requires c.Valid()
    modifies c`outgoing, c.sendNonce
    ensures c.outgoing == old(c.outgoing) + AllFramed(writes, old(c.sendNonce[..]))
  {
    hide Framed, After;
    ghost var start := c.sendNonce[..];
    for i := 0 to |writes|
      invariant c.outgoing + AllFramed(writes[i..], c.sendNonce[..]) == old(c.outgoing) + AllFramed(writes, start)
    {
      ghost var before, nonce := c.outgoing, c.sendNonce[..];
      assert writes[i..][0] == writes[i] && writes[i..][1..] == writes[i + 1..];
      var _ := c.Write(writes[i]);
      ghost var frames := Framed(writes[i], nonce);
      ghost var later := AllFramed(writes[i + 1..], c.sendNonce[..]);
      assert before + (frames + later) == c.outgoing + later;
    }
  }

  /** Whether every piece, cut into frames, fits into a buffer. */
  ghost predicate PiecesFit(writes: seq<Octets>, room: nat) {
    forall i :: 0 <= i < |writes| ==> Min(MAX_DATA, |writes[i]|) <= room
  }

  lemma {:induction false} PieceFitsIff(data: Octets, nonce: Octets, more: seq<Sealed>, room: nat)
    ensures ChunksFit(Framed(data, nonce) + more, room) <==> Min(MAX_DATA, |data|) <= room && ChunksFit(more, room)
    decreases |data|
  {
    hide FrameOf, LengthOf, ChunkOf, Twice;
    if data == [] {
      assert Framed(data, nonce) + more == more;
    } else {
      hide Framed;
      var n := Min(MAX_DATA, |data|);
      ChunkOfFrame(data[..n]);
      assert MAX_DATA >= |data| ==> data[..n] == data && data[n..] == [];
      FramedNext(data, nonce, data[..n], data[n..]);
      var rest := Framed(data[n..], Twice(nonce));
      assert (Framed(data, nonce) + more)[1..] == rest + more;
      PieceFitsIff(data[n..], Twice(nonce), more, room);
    }
  }

  lemma {:induction false} PiecesFitIff(writes: seq<Octets>, nonce: Octets, room: nat)
    ensures ChunksFit(AllFramed(writes, nonce), room) <==> PiecesFit(writes, room)
    decreases |writes|
  {
    hide Framed, After;
    if writes != [] {
      var later := After(nonce, |Framed(writes[0], nonce)|);
      PieceFitsIff(writes[0], nonce, AllFramed(writes[1..], later), room);
      PiecesFitIff(writes[1..], later, room);
      assert writes == [writes[0]] + writes[1..];
    }
  }

  /**
   * Two ends that made their nonces of one hash: whatever one of them writes, in whatever pieces, is
   * what the other reads, whichever of them is the lower end, exactly when the pieces fit the buffer.
   */
  method Transfer(hash: Octets, locIsLo: bool, writes: seq<Octets>, buf: array<Byte>)
    returns (ok: bool, got: Octets)
    requires |hash| == SIZE && buf.Length > 0
    modifies buf
    ensures ok && |got| <= |Concatenated(writes)|
    ensures got == Concatenated(writes) <==> PiecesFit(writes, buf.Length)
    ensures buf.Length >= MAX_DATA ==> got == Concatenated(writes)
  {
    hide AllFramed, Opened, Reported, Flipped, ChunksFit;
    var recv, send := GenNonces(hash, locIsLo);
    var here := new Secret(recv, send);
    recv, send := GenNonces(hash, !locIsLo);
    var there := new Secret(recv, send);
    ghost var nonce := there.recvNonce[..];
    assert here.sendNonce[..] == nonce;
    WriteAll(here, writes);
    FramesHaveSize(writes, nonce);
    assert [] + AllFramed(writes, nonce) == AllFramed(writes, nonce);
    there.incoming := here.outgoing;
    ReaderRecovers(writes, nonce);
    ReportedIff(there.incoming, nonce, buf.Length);
    PiecesFitIff(writes, nonce, buf.Length);
    ok, got := ReadAll(there, buf);
  }

  /** One frame of two octets read with a buffer of one: the second octet arrives and is not reported. */
  method SmallBufferRun(c: Secret, x: Byte, y: Byte, buf: array<Byte>) returns (first: Outcome, second: Outcome)
    requires c.Valid() && c.recvBuffer == [] && c.incoming == Framed([x, y], c.recvNonce[..])
    requires buf.Length == 1 && buf != c.recvNonce && buf != c.sendNonce
    modifies c`recvBuffer, c`incoming, c.recvNonce, buf
    ensures first == Done(1) && second == Done(0) && buf[..] == [y] && c.recvBuffer == [] && c.incoming == []
    ensures Reported(Framed([x, y], old(c.recvNonce[..])), old(c.recvNonce[..]), 1) == Some([x])
  {
    hide FrameOf, ChunkOf, Twice;
    ghost var nonce := c.recvNonce[..];
    FramedNext([x, y], nonce, [x, y], []);
    ChunkOfFrame([x, y]);
    assert Framed([x, y], nonce) == [Sealed(nonce, FrameOf([x, y]))];
    first := c.Read(buf);
    assert buf[..first.n] + c.recvBuffer == [x, y];
    second := c.Read(buf);
    assert buf[..] == buf[..1];
    assert Reported([], Twice(nonce), 1) == Some([]) && [x, y][..Min(1, 2)] + [] == [x];
  }

  lemma {:induction false} FramesHaveSize(writes: seq<Octets>, nonce: Octets)
    ensures forall i :: 0 <= i < |AllFramed(writes, nonce)| ==> |AllFramed(writes, nonce)[i].frame| == FRAME_SIZE
    decreases |writes|
  {
    hide Framed, After;
    if writes != [] {
      FramesOfOne(writes[0], nonce);
      FramesHaveSize(writes[1..], After(nonce, |Framed(writes[0], nonce)|));
    }
  }

  lemma {:induction false} FramesOfOne(data: Octets, nonce: Octets)
    ensures forall i :: 0 <= i < |Framed(data, nonce)| ==> |Framed(data, nonce)[i].frame| == FRAME_SIZE
    decreases |data|
  {
    hide Twice, FrameOf;
    if data != [] {
      FramesOfOne(data[Min(MAX_DATA, |data|)..], Twice(nonce));
    }
  }

  lemma FramedNext(data: Octets, nonce: Octets, chunk: Octets, left: Octets)
    requires data != []
    requires if MAX_DATA < |data| then chunk == data[..MAX_DATA] && left == data[MAX_DATA..]
             else chunk == data && left == []
    ensures |chunk| <= MAX_DATA
    ensures Framed(data, nonce) == [Sealed(nonce, FrameOf(chunk))] + Framed(left, Twice(nonce))
  {
    hide FrameOf, Twice;
    var n := Min(MAX_DATA, |data|);
    assert data[..n] == chunk && data[n..] == left;
  }
}
