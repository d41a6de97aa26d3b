/** One channel of a multiplexed connection: messages are cut into packets and put together again. */
module Channel {
  import opened Numbers
  import opened Wrappers

  type Byte = bv8

  type Message = seq<Byte>

  type Id = nat

  const MAX_INT64: nat := 0x7FFF_FFFF_FFFF_FFFF

  const MAX_PAYLOAD: nat := 1024

  datatype Packet = Packet(channel: Id, bytes: seq<Byte>, eof: bool)

  /** What is still to be sent, and the counter that others look at. */
  datatype Outgoing = Outgoing(sending: seq<Byte>, queue: seq<Message>, size: int)

  /** Take the next message when the last one is gone. */
  function Refilled(o: Outgoing): Outgoing {
    if o.sending == [] && o.queue != [] then o.(sending := o.queue[0], queue := o.queue[1..]) else o
  }

  predicate IsPending(o: Outgoing) { o.sending != [] || o.queue != [] }

  function NextPacket(id: Id, o: Outgoing): (p: Packet)
    ensures |p.bytes| == if |o.sending| < 1024 then |o.sending| else 1024
    ensures p.eof <==> |o.sending| <= 1024
  {
    Packet(id, o.sending[..Min(MAX_PAYLOAD, |o.sending|)], |o.sending| <= MAX_PAYLOAD)
  }

  function AfterPacket(o: Outgoing): Outgoing {
    if |o.sending| <= MAX_PAYLOAD then o.(sending := [], size := o.size - 1)
    else o.(sending := o.sending[MAX_PAYLOAD..])
  }

  function Enqueued(o: Outgoing, message: Message): Outgoing {
    o.(queue := o.queue + [message], size := o.size + 1)
  }

  datatype Received = Overflow | Partial(recving: seq<Byte>) | Complete(message: Message)

  function Receive(recving: seq<Byte>, p: Packet, capacity: nat): Received {
    if capacity < |recving| + |p.bytes| then Overflow
    else if p.eof then Complete(recving + p.bytes)
    else Partial(recving + p.bytes)
  }

  class Channel {
    const id: Id
    const priority: nat
    const queueCapacity: nat
    const receiveCapacity: nat
    var sendQueue: seq<Message>
    var sendQueueSize: int
    var sending: seq<Byte>
    var recving: seq<Byte>
    var recentlySent: nat

    ghost function Out(): Outgoing
      reads this`sending, this`sendQueue, this`sendQueueSize
    {
      Outgoing(sending, sendQueue, sendQueueSize)
    }

    constructor (id: Id, priority: nat, queueCapacity: nat, receiveCapacity: nat)
      requires priority > 0
      ensures Out() == Outgoing([], [], 0) && recving == [] && recentlySent == 0
      ensures this.id == id && this.priority == priority
      ensures this.queueCapacity == queueCapacity && this.receiveCapacity == receiveCapacity
    {
      this.id, this.priority := id, priority;
      this.queueCapacity, this.receiveCapacity := queueCapacity, receiveCapacity;
      sendQueue, sendQueueSize, sending, recving, recentlySent := [], 0, [], [], 0;
    }

    method IsSendPending() returns (pending: bool)
      modifies this`sending, this`sendQueue
      ensures Out() == Refilled(old(Out())) && pending == IsPending(old(Out()))
    {
      if |sending| == 0 {
        if |sendQueue| == 0 {
          return false;
        }
        sending := sendQueue[0];
        sendQueue := sendQueue[1..];
      }
      return true;
    }

    method NextMsgPacket() returns (packet: Packet)
      modifies this`sending, this`sendQueueSize
      ensures packet == NextPacket(id, old(Out())) && Out() == AfterPacket(old(Out()))
    {
      var bytes := sending[..Min(MAX_PAYLOAD, |sending|)];
      if |sending| <= MAX_PAYLOAD {
        packet := Packet(id, bytes, true);
        sending := [];
        sendQueueSize := sendQueueSize - 1;
      } else {
        packet := Packet(id, bytes, false);
        sending := sending[Min(MAX_PAYLOAD, |sending|)..];
      }
    }

    method RecvMsgPacket(packet: Packet) returns (overflow: bool, message: Option<Message>)
      modifies this`recving
      ensures match Receive(old(recving), packet, receiveCapacity)
        case Overflow => overflow && message == None && recving == old(recving)
        case Partial(more) => !overflow && message == None && recving == more
        case Complete(whole) => !overflow && message == Some(whole) && recving == []
    {
      if receiveCapacity < |recving| + |packet.bytes| {
        return true, None;
      }
      recving := recving + packet.bytes;
      if packet.eof {
        message := Some(recving);
        recving := [];
        return false, message;
      }
      return false, None;
    }

    method TrySendBytes(message: Message) returns (ok: bool)
      modifies this`sendQueue, this`sendQueueSize
      ensures ok == (|old(sendQueue)| < queueCapacity)
      ensures Out() == if ok then Enqueued(old(Out()), message) else old(Out())
    {
      ok := |sendQueue| < queueCapacity;
      if ok {
        sendQueue := sendQueue + [message];
        sendQueueSize := sendQueueSize + 1;
      }
    }
  }

  /** Larger than any ratio of 64-bit numbers. */
  const MAX_FLOAT32: real := 340282346638528859811704183484516925440.0

  ghost predicate AreDistinct(channels: seq<Channel>) {
    && (forall i, k :: 0 <= i < k < |channels| ==> channels[i] != channels[k])
    && forall i :: 0 <= i < |channels| ==> channels[i].priority > 0
  }

  function Ratio(c: Channel): real
    requires c.priority > 0
    reads c`recentlySent
  {
    c.recentlySent as real / c.priority as real
  }

  /** Every channel takes its next message; the pending one with the least ratio of recent traffic to priority. */
  method FindLeastChannel(channels: seq<Channel>) returns (leastChannel: Option<Channel>, ghost least: nat)
    requires AreDistinct(channels)
    requires forall i :: 0 <= i < |channels| ==> channels[i].recentlySent <= MAX_INT64
    modifies (set c | c in channels)`sending, (set c | c in channels)`sendQueue
    ensures leastChannel == None <==> forall i :: 0 <= i < |channels| ==> !IsPending(old(channels[i].Out()))
    ensures leastChannel.Some? ==>
      && least < |channels| && leastChannel.value == channels[least] && IsPending(old(channels[least].Out()))
      && forall i :: 0 <= i < |channels| && IsPending(old(channels[i].Out())) ==>
           old(Ratio(channels[least])) <= old(Ratio(channels[i]))
    ensures forall i :: 0 <= i < |channels| ==> channels[i].Out() == Refilled(old(channels[i].Out()))
  {
    hide Refilled, IsPending, IsLeast;
    ghost var outs := seq(|channels|, k requires 0 <= k < |channels| reads channels => channels[k].Out());
    ghost var ratios := seq(|channels|, k requires 0 <= k < |channels| && channels[k].priority > 0
      reads channels => Ratio(channels[k]));
    var leastRatio := MAX_FLOAT32;
    leastChannel, least := None, 0;
    NothingIsLeast(outs, ratios);
    for i := 0 to |channels|
      invariant IsLeast(outs, ratios, i, leastChannel.Some?, least, leastRatio)
      invariant leastChannel.Some? ==> least < i && leastChannel.value == channels[least]
      invariant forall k :: 0 <= k < i ==> channels[k].Out() == Refilled(outs[k])
      invariant forall k :: i <= k < |channels| ==> channels[k].Out() == outs[k]
    {
      var channel := channels[i];
      var pending := channel.IsSendPending();
      RatioIsSmall(channel.recentlySent, channel.priority);
      LeastStays(outs, ratios, i, leastChannel.Some?, least, leastRatio);
      if !pending {
        continue;
      }
      var ratio := Ratio(channel);
      if ratio < leastRatio {
        leastRatio := ratio;
        leastChannel := Some(channel);
        least := i;
      }
    }
    LeastIsFound(outs, ratios, leastChannel.Some?, least, leastRatio);
  }

  /** One packet of the pending channel with the least ratio of recent traffic to priority. */
  method SendMsgPacket(channels: seq<Channel>, written: nat)
    returns (exhausted: bool, packet: Option<Packet>, ghost least: nat)
    requires AreDistinct(channels)
    requires forall i :: 0 <= i < |channels| ==> channels[i].recentlySent <= MAX_INT64
    modifies (set c | c in channels)`sending, (set c | c in channels)`sendQueue
    modifies (set c | c in channels)`sendQueueSize, (set c | c in channels)`recentlySent
    ensures exhausted <==> forall i :: 0 <= i < |channels| ==> !IsPending(old(channels[i].Out()))
    ensures exhausted ==>
      packet == None && forall i :: 0 <= i < |channels| ==> channels[i].Out() == old(channels[i].Out())
    ensures !exhausted ==>
      && least < |channels| && IsPending(old(channels[least].Out()))
      && packet == Some(NextPacket(channels[least].id, Refilled(old(channels[least].Out()))))
      && channels[least].Out() == AfterPacket(Refilled(old(channels[least].Out())))
      && (forall i :: 0 <= i < |channels| && i != least ==> channels[i].Out() == Refilled(old(channels[i].Out())))
      && forall i :: 0 <= i < |channels| && IsPending(old(channels[i].Out())) ==>
           old(Ratio(channels[least])) <= old(Ratio(channels[i]))
    ensures forall i :: 0 <= i < |channels| ==>
      && channels[i].recving == old(channels[i].recving)
      && channels[i].recentlySent ==
           old(channels[i].recentlySent) + (if !exhausted && i == least then written else 0)
  {
    hide Refilled, AfterPacket, NextPacket, IsPending, Ratio;
    var leastChannel: Option<Channel>;
    leastChannel, least := FindLeastChannel(channels);
    if leastChannel == None {
      NothingRefilled();
      return true, None, 0;
    }
    var p := leastChannel.value.NextMsgPacket();
    leastChannel.value.recentlySent := leastChannel.value.recentlySent + written;
    return false, Some(p), least;
  }

  /** The channel found so far among the first n: pending, and of least ratio among those that are. */
  ghost predicate IsLeast(
    outs: seq<Outgoing>, ratios: seq<real>, n: nat, found: bool, least: nat, leastRatio: real)
    requires n <= |outs| == |ratios|
  {
    && (!found <==> forall k :: 0 <= k < n ==> !IsPending(outs[k]))
    && (found ==> least < n && IsPending(outs[least]) && leastRatio == ratios[least])
    && (!found ==> leastRatio == MAX_FLOAT32)
    && forall k :: 0 <= k < n && IsPending(outs[k]) ==> leastRatio <= ratios[k]
  }

  lemma NothingIsLeast(outs: seq<Outgoing>, ratios: seq<real>)
    requires |outs| == |ratios|
    ensures IsLeast(outs, ratios, 0, false, 0, MAX_FLOAT32)
  {
  }

  /** One more channel: it is the least one when it is pending with a smaller ratio. */
  lemma LeastStays(outs: seq<Outgoing>, ratios: seq<real>, n: nat, found: bool, least: nat, leastRatio: real)
    requires n < |outs| == |ratios| && IsLeast(outs, ratios, n, found, least, leastRatio)
    requires ratios[n] < MAX_FLOAT32
    ensures if IsPending(outs[n]) && ratios[n] < leastRatio then IsLeast(outs, ratios, n + 1, true, n, ratios[n])
            else IsLeast(outs, ratios, n + 1, found, least, leastRatio)
  {
    hide IsPending;
  }

  lemma LeastIsFound(outs: seq<Outgoing>, ratios: seq<real>, found: bool, least: nat, leastRatio: real)
    requires |outs| == |ratios| && IsLeast(outs, ratios, |outs|, found, least, leastRatio)
    ensures !found <==> forall k :: 0 <= k < |outs| ==> !IsPending(outs[k])
    ensures found ==>
              && least < |outs| && IsPending(outs[least])
              && forall k :: 0 <= k < |outs| && IsPending(outs[k]) ==> ratios[least] <= ratios[k]
  {
    hide IsPending;
  }

  lemma RatioIsSmall(sent: nat, priority: nat)
    requires sent <= MAX_INT64 && priority > 0
    ensures sent as real / priority as real < MAX_FLOAT32
  {
    var q, p := sent as real / priority as real, priority as real;
    assert q * p == sent as real;
    if q > sent as real {
      assert q * p >= q * 1.0;
    }
  }

  lemma NothingRefilled()
    ensures forall o :: !IsPending(o) ==> Refilled(o) == o
  {
  }
}
