/** The channels of both ends of a connection as objects, and the abstract system whose runs they perform. */
module Connection {
  import opened Wrappers
  import opened Ch = Channel
  import opened Transport

  ghost function OutsOf(channels: seq<Ch.Channel>): (outs: seq<Outgoing>)
    reads (set c | c in channels)`sending, (set c | c in channels)`sendQueue, (set c | c in channels)`sendQueueSize
    ensures |outs| == |channels| && forall i :: 0 <= i < |channels| ==> outs[i] == channels[i].Out()
  {
    if channels == [] then [] else OutsOf(channels[..|channels| - 1]) + [channels[|channels| - 1].Out()]
  }

  ghost function RecvingOf(channels: seq<Ch.Channel>): (recving: seq<seq<Byte>>)
    reads (set c | c in channels)`recving
    ensures |recving| == |channels| && forall i :: 0 <= i < |channels| ==> recving[i] == channels[i].recving
  {
    if channels == [] then [] else RecvingOf(channels[..|channels| - 1]) + [channels[|channels| - 1].recving]
  }

  method EnqueueOn(channels: seq<Ch.Channel>, i: nat, message: Message) returns (ok: bool)
    requires AreDistinct(channels) && i < |channels|
    modifies (set c | c in channels)`sendQueue, (set c | c in channels)`sendQueueSize
    ensures ok == (|old(channels[i].sendQueue)| < channels[i].queueCapacity)
    ensures var outs := old(OutsOf(channels));
      OutsOf(channels) == if ok then outs[i := Enqueued(outs[i], message)] else outs
  {
    hide OutsOf, Enqueued;
    ok := channels[i].TrySendBytes(message);
  }

  /** The state of both ends: what the channels hold, found by their identifiers, and what went in and came out. */
  datatype Ends = Ends(
    outs: seq<Outgoing>, recving: seq<seq<Byte>>, queued: map<Id, seq<Message>>, delivered: map<Id, seq<Message>>,
    wire: seq<Packet>)

  ghost predicate IsIndexed(channelsIdx: map<Id, nat>, e: Ends) {
    && channelsIdx.Keys == e.queued.Keys == e.delivered.Keys && |e.outs| == |e.recving|
    && (forall id :: id in channelsIdx ==> channelsIdx[id] < |e.outs|)
    && forall id, id' :: id in channelsIdx && id' in channelsIdx && id != id' ==> channelsIdx[id] != channelsIdx[id']
  }

  ghost function SystemOf(channelsIdx: map<Id, nat>, e: Ends): System
    requires IsIndexed(channelsIdx, e)
  {
    System(map id | id in channelsIdx :: LineOf(channelsIdx[id], e, id), e.wire)
  }

  function LineOf(i: nat, e: Ends, id: Id): Line
    requires i < |e.outs| == |e.recving| && id in e.queued && id in e.delivered
  {
    Line(e.outs[i], e.recving[i], e.queued[id], e.delivered[id])
  }

  /** What happens on one channel shows on its line alone. */
  lemma OneLineChanges(channelsIdx: map<Id, nat>, e: Ends, e': Ends, id: Id, l: Line)
    requires IsIndexed(channelsIdx, e) && IsIndexed(channelsIdx, e') && id in channelsIdx
    requires l == LineOf(channelsIdx[id], e', id)
    requires forall k :: k in channelsIdx && k != id ==> LineOf(channelsIdx[k], e', k) == LineOf(channelsIdx[k], e, k)
    ensures SystemOf(channelsIdx, e').lines == SystemOf(channelsIdx, e).lines[id := l]
  {
    hide LineOf;
  }

  /** The event takes the abstract system from the one state to the other. */
  ghost predicate Steps(channelsIdx: map<Id, nat>, e: Ends, event: Event, e': Ends, capacity: Id -> nat) {
    && IsIndexed(channelsIdx, e) && IsIndexed(channelsIdx, e')
    && Next(SystemOf(channelsIdx, e), event, capacity) == To(SystemOf(channelsIdx, e'))
  }

  function Sent(channelsIdx: map<Id, nat>, e: Ends, id: Id, message: Message): Ends
    requires id in channelsIdx && channelsIdx[id] < |e.outs| && id in e.queued
  {
    e.(outs := e.outs[channelsIdx[id] := Enqueued(e.outs[channelsIdx[id]], message)],
       queued := e.queued[id := e.queued[id] + [message]])
  }

  lemma SendIsNext(channelsIdx: map<Id, nat>, e: Ends, id: Id, message: Message, capacity: Id -> nat)
    requires IsIndexed(channelsIdx, e) && id in channelsIdx
    ensures Steps(channelsIdx, e, Send(id, message), Sent(channelsIdx, e, id, message), capacity)
  {
    var e' := Sent(channelsIdx, e, id, message);
    OneLineChanges(channelsIdx, e, e', id, LineOf(channelsIdx[id], e', id));
  }

  /** One channel sends a packet, and all the others take their next message. */
  ghost predicate IsSending(e: Ends, e': Ends, i: nat, id: Id)
    requires i < |e.outs|
  {
    && |e'.outs| == |e.outs|
    && (forall k :: 0 <= k < |e.outs| ==>
          e'.outs[k] == if k == i then AfterPacket(Refilled(e.outs[k])) else Refilled(e.outs[k]))
    && e' == e.(outs := e'.outs, wire := e.wire + [NextPacket(id, Refilled(e.outs[i]))])
  }

  lemma TransmitIsNext(channelsIdx: map<Id, nat>, e: Ends, e': Ends, id: Id, capacity: Id -> nat)
    requires IsIndexed(channelsIdx, e) && id in channelsIdx && IsPending(e.outs[channelsIdx[id]])
    requires IsSending(e, e', channelsIdx[id], id)
    ensures Steps(channelsIdx, e, Transmit(id), e', capacity)
  {
    hide IsPending, AfterPacket, Refilled, NextPacket;
    var next := Next(SystemOf(channelsIdx, e), Transmit(id), capacity);
    assert next.system.lines == SystemOf(channelsIdx, e').lines;
  }

  /** One channel takes the first packet from the wire; what has arrived completely is delivered. */
  ghost predicate IsReceiving(e: Ends, e': Ends, i: nat, message: Option<Message>, capacity: nat)
    requires i < |e.recving| && e.wire != [] && e.wire[0].channel in e.delivered
  {
    var p := e.wire[0];
    match Receive(e.recving[i], p, capacity)
    case Overflow => false
    case Partial(more) => message == None && e' == e.(recving := e.recving[i := more], wire := e.wire[1..])
    case Complete(whole) =>
      && message == Some(whole)
      && e' == e.(recving := e.recving[i := []], wire := e.wire[1..],
                  delivered := e.delivered[p.channel := e.delivered[p.channel] + [whole]])
  }

  /** What is handed to the receiver is what the channel has delivered now. */
  ghost predicate HandsOver(e: Ends, e': Ends, id: Id, message: Option<Message>) {
    && id in e.delivered && id in e'.delivered
    && e'.delivered[id] == e.delivered[id] + if message.Some? then [message.value] else []
  }

  lemma ReceivedIsHandedOver(e: Ends, e': Ends, i: nat, message: Option<Message>, capacity: nat)
    requires i < |e.recving| && e.wire != [] && e.wire[0].channel in e.delivered
    requires IsReceiving(e, e', i, message, capacity)
    ensures HandsOver(e, e', e.wire[0].channel, message)
  {
    hide Receive;
  }

  lemma ReceivesOn(
    channelsIdx: map<Id, nat>, e: Ends, e': Ends, message: Option<Message>, capacity: Id -> nat)
    requires IsIndexed(channelsIdx, e) && e.wire != [] && e.wire[0].channel in channelsIdx
    requires IsReceiving(e, e', channelsIdx[e.wire[0].channel], message, capacity(e.wire[0].channel))
    ensures var p, s := e.wire[0], SystemOf(channelsIdx, e);
      && s.wire == e.wire && p.channel in s.lines && IsIndexed(channelsIdx, e') && e'.wire == e.wire[1..]
      && SystemOf(channelsIdx, e').wire == e'.wire
      && var l := s.lines[p.channel];
         !Receive(l.recving, p, capacity(p.channel)).Overflow? && LineOf(channelsIdx[p.channel], e', p.channel) ==
         match Receive(l.recving, p, capacity(p.channel))
         case Overflow => l
         case Partial(more) => l.(recving := more)
         case Complete(whole) => l.(recving := [], delivered := l.delivered + [whole])
    ensures forall k :: k in channelsIdx && k != e.wire[0].channel ==>
              LineOf(channelsIdx[k], e', k) == LineOf(channelsIdx[k], e, k)
  {
    hide Receive;
  }

  lemma DeliverIsNext(
    channelsIdx: map<Id, nat>, e: Ends, e': Ends, message: Option<Message>, capacity: Id -> nat)
    requires IsIndexed(channelsIdx, e) && e.wire != [] && e.wire[0].channel in channelsIdx
    requires IsReceiving(e, e', channelsIdx[e.wire[0].channel], message, capacity(e.wire[0].channel))
    ensures Steps(channelsIdx, e, Deliver, e', capacity)
  {
    hide Receive, IsReceiving, LineOf;
    var id := e.wire[0].channel;
    ReceivesOn(channelsIdx, e, e', message, capacity);
    OneLineChanges(channelsIdx, e, e', id, LineOf(channelsIdx[id], e', id));
  }

  lemma DeliversIff(channelsIdx: map<Id, nat>, e: Ends, capacity: Id -> nat)
    requires IsIndexed(channelsIdx, e) && e.wire != []
    ensures var p := e.wire[0];
      Next(SystemOf(channelsIdx, e), Deliver, capacity).To? <==>
        p.channel in channelsIdx &&
        !Receive(e.recving[channelsIdx[p.channel]], p, capacity(p.channel)).Overflow?
  {
    hide Receive;
  }

  lemma StartIsIndexed(channelsIdx: map<Id, nat>, e: Ends)
    requires IsIndexed(channelsIdx, e) && e.wire == []
    requires forall i :: 0 <= i < |e.outs| ==> e.outs[i] == Outgoing([], [], 0) && e.recving[i] == []
    requires forall id :: id in channelsIdx ==> e.queued[id] == e.delivered[id] == []
    ensures SystemOf(channelsIdx, e) == Start(channelsIdx.Keys)
  {
    assert SystemOf(channelsIdx, e).lines == Start(channelsIdx.Keys).lines;
  }

  /** One end sends on its channels, the other receives on its own; packets under way are on the wire. */
  class Link {
    const channelsIdx: map<Id, nat>
    const senders: seq<Ch.Channel>
    const receivers: seq<Ch.Channel>
    var wire: seq<Packet>
    var stopped: bool
    ghost var queued: map<Id, seq<Message>>
    ghost var delivered: map<Id, seq<Message>>
    ghost var events: seq<Event>

    /** The two ends have the same channels, and the index finds each by its identifier. */
    ghost predicate HasChannels() {
      && AreDistinct(senders) && AreDistinct(receivers) && |senders| == |receivers|
      && (forall i :: 0 <= i < |senders| ==> senders[i].id in channelsIdx && channelsIdx[senders[i].id] == i)
      && forall id :: id in channelsIdx ==> channelsIdx[id] < |senders| && senders[channelsIdx[id]].id == id
    }

    function Capacity(id: Id): nat {
      if id in channelsIdx && channelsIdx[id] < |receivers| then receivers[channelsIdx[id]].receiveCapacity else 0
    }

    ghost function State(): Ends
      reads this`wire, this`queued, this`delivered
      reads (set c | c in senders)`sending, (set c | c in senders)`sendQueue, (set c | c in senders)`sendQueueSize
      reads (set c | c in receivers)`recving
    {
      Ends(OutsOf(senders), RecvingOf(receivers), queued, delivered, wire)
    }

    ghost predicate AreAllowed()
      reads this`events
    {
      forall i :: 0 <= i < |events| ==> IsAllowed(events[i], Capacity)
    }

    /** The run of the abstract system on the events so far ends in this state. */
    ghost predicate IsRun(e: Ends, events: seq<Event>) {
      IsIndexed(channelsIdx, e) && Run(Start(channelsIdx.Keys), events, Capacity) == To(SystemOf(channelsIdx, e))
    }

    /** The objects are where the run has brought the abstract system, unless the connection has stopped. */
    ghost predicate Valid()
      reads this, senders, receivers
    {
      && HasChannels()
      && (!stopped ==> IsRun(State(), events))
      && (AreAllowed() ==> !stopped)
    }

    constructor (senders: seq<Ch.Channel>, receivers: seq<Ch.Channel>, channelsIdx: map<Id, nat>)
      requires AreDistinct(senders) && AreDistinct(receivers) && |senders| == |receivers|
      requires forall i :: 0 <= i < |senders| ==> senders[i].id in channelsIdx && channelsIdx[senders[i].id] == i
      requires forall id :: id in channelsIdx ==> channelsIdx[id] < |senders| && senders[channelsIdx[id]].id == id
      requires forall i :: 0 <= i < |senders| ==>
                 senders[i].Out() == Outgoing([], [], 0) && receivers[i].recving == []
      ensures Valid() && !stopped && events == [] && wire == []
      ensures this.senders == senders && this.receivers == receivers && this.channelsIdx == channelsIdx
    {
      this.senders, this.receivers, this.channelsIdx := senders, receivers, channelsIdx;
      wire, stopped, events := [], false, [];
      queued := map id | id in channelsIdx :: [];
      delivered := map id | id in channelsIdx :: [];
      new;
      hide OutsOf, RecvingOf, AreAllowed, SystemOf, AreDistinct;
      StartIsIndexed(channelsIdx, State());
    }

    method Enqueue(id: Id, message: Message) returns (ok: bool)
      requires AreDistinct(senders) && id in channelsIdx && channelsIdx[id] < |senders| && id in queued
      modifies this`queued
      modifies (set c | c in senders)`sendQueue, (set c | c in senders)`sendQueueSize
      ensures ok == (|old(senders[channelsIdx[id]].sendQueue)| < senders[channelsIdx[id]].queueCapacity)
      ensures State() == if ok then Sent(channelsIdx, old(State()), id, message) else old(State())
    {
      hide OutsOf, RecvingOf, Enqueued, AreDistinct;
      ok := EnqueueOn(senders, channelsIdx[id], message);
      if ok {
        queued := queued[id := queued[id] + [message]];
      }
    }

    /** Refused on an unknown channel and when the queue is full; otherwise the next event of the run. */
    method TrySend(id: Id, message: Message) returns (ok: bool)
      requires Valid() && !stopped
      modifies this`queued, this`events
      modifies (set c | c in senders)`sendQueue, (set c | c in senders)`sendQueueSize
      ensures Valid() && !stopped
      ensures ok <==>
        && id in channelsIdx
        && |old(senders[channelsIdx[id]].sendQueue)| < senders[channelsIdx[id]].queueCapacity
      ensures ok ==>
        && events == old(events) + [Send(id, message)]
        && Steps(channelsIdx, old(State()), Send(id, message), State(), Capacity)
      ensures !ok ==> events == old(events) && State() == old(State())
    {
      hide IsRun, IsIndexed, Steps, State, Sent, HasChannels, AreAllowed, AreDistinct;
      if id !in channelsIdx {
        return false;
      }
      ghost var before := State();
      Lookup();
      ok := Enqueue(id, message);
      if ok {
        SendIsNext(channelsIdx, before, id, message, Capacity);
        RunGrows(before, State(), events, Send(id, message));
        events := events + [Send(id, message)];
      }
    }

    method TransmitLeast(written: nat) returns (exhausted: bool, ghost least: nat)
      requires AreDistinct(senders) && forall i :: 0 <= i < |senders| ==> senders[i].recentlySent <= MAX_INT64
      modifies this`wire
      modifies (set c | c in senders)`sending, (set c | c in senders)`sendQueue
      modifies (set c | c in senders)`sendQueueSize, (set c | c in senders)`recentlySent
      ensures exhausted <==> forall i :: 0 <= i < |senders| ==> !IsPending(old(State()).outs[i])
      ensures exhausted ==> State() == old(State())
      ensures !exhausted ==>
        && least < |senders| && IsPending(old(State()).outs[least])
        && IsSending(old(State()), State(), least, senders[least].id)
        && forall i :: 0 <= i < |senders| && IsPending(old(State()).outs[i]) ==>
             old(Ratio(senders[least])) <= old(Ratio(senders[i]))
    {
      hide OutsOf, RecvingOf, IsPending, NextPacket, AfterPacket, Refilled, Ratio, AreDistinct;
      assert forall i :: 0 <= i < |senders| ==> State().outs[i] == senders[i].Out();
      var packet: Option<Packet>;
      exhausted, packet, least := Ch.SendMsgPacket(senders, written);
      if packet.Some? {
        wire := wire + [packet.value];
      }
    }

    /** One packet of the pending channel with the least ratio, until nothing is left to send. */
    method SendMsgPacket(written: nat) returns (exhausted: bool, ghost id: Id)
      requires Valid() && !stopped
      requires forall i :: 0 <= i < |senders| ==> senders[i].recentlySent <= MAX_INT64
      modifies this`wire, this`events
      modifies (set c | c in senders)`sending, (set c | c in senders)`sendQueue
      modifies (set c | c in senders)`sendQueueSize, (set c | c in senders)`recentlySent
      ensures Valid() && !stopped
      ensures exhausted <==> forall i :: 0 <= i < |senders| ==> !IsPending(old(State()).outs[i])
      ensures exhausted ==> events == old(events) && State() == old(State())
      ensures !exhausted ==>
        && events == old(events) + [Transmit(id)]
        && Steps(channelsIdx, old(State()), Transmit(id), State(), Capacity)
        && exists least :: 0 <= least < |senders| && senders[least].id == id
             && forall i :: 0 <= i < |senders| && IsPending(old(State()).outs[i]) ==>
                  old(Ratio(senders[least])) <= old(Ratio(senders[i]))
    {
      hide IsRun, IsIndexed, Steps, State, IsSending, HasChannels, AreAllowed, AreDistinct, IsPending, Ratio;
      ghost var before := State();
      Lookup();
      ghost var least;
      exhausted, least := TransmitLeast(written);
      id := 0;
      if !exhausted {
        id := senders[least].id;
        TransmitIsNext(channelsIdx, before, State(), id, Capacity);
        RunGrows(before, State(), events, Transmit(id));
        events := events + [Transmit(id)];
      }
    }

    method Arrive(i: nat) returns (overflow: bool, message: Option<Message>)
      requires AreDistinct(receivers) && wire != [] && wire[0].channel in delivered && i < |receivers|
      modifies this`wire, this`delivered, (set c | c in receivers)`recving
      ensures overflow <==> Receive(old(State()).recving[i], old(wire[0]), receivers[i].receiveCapacity).Overflow?
      ensures !overflow ==> IsReceiving(old(State()), State(), i, message, receivers[i].receiveCapacity)
    {
      hide OutsOf, RecvingOf, Receive;
      var p := wire[0];
      overflow, message := receivers[i].RecvMsgPacket(p);
      wire := wire[1..];
      if message.Some? {
        delivered := delivered[p.channel := delivered[p.channel] + [message.value]];
      }
    }

    /** The first packet on the wire reaches its channel. While all messages fit, nothing stops the connection. */
    method RecvRoutine() returns (message: Option<Message>)
      requires Valid() && !stopped && wire != []
      modifies this`wire, this`stopped, this`delivered, this`events, (set c | c in receivers)`recving
      ensures Valid()
      ensures old(AreAllowed()) ==> !stopped
      ensures stopped <==> !Next(SystemOf(channelsIdx, old(State())), Deliver, Capacity).To?
      ensures stopped ==> events == old(events) && message == None
      ensures !stopped ==>
        && events == old(events) + [Deliver] && Steps(channelsIdx, old(State()), Deliver, State(), Capacity)
        && HandsOver(old(State()), State(), old(wire)[0].channel, message)
    {
      hide IsRun, IsIndexed, Steps, State, HasChannels, AreAllowed, AreDistinct, Next, SystemOf, IsReceiving, Receive,
        HandsOver;
      ghost var before := State();
      Lookup();
      AllowedIsDelivered();
      DeliversIff(channelsIdx, before, Capacity);
      var p := wire[0];
      if p.channel !in channelsIdx {
        stopped := true;
        return None;
      }
      var overflow;
      overflow, message := Arrive(channelsIdx[p.channel]);
      if overflow {
        stopped := true;
        return None;
      }
      DeliverIsNext(channelsIdx, before, State(), message, Capacity);
      ReceivedIsHandedOver(before, State(), channelsIdx[p.channel], message, Capacity(p.channel));
      RunGrows(before, State(), events, Deliver);
      events := events + [Deliver];
    }

    /** While only messages were sent that the other end takes, no packet stops the connection. */
    lemma AllowedIsDelivered()
      requires Valid() && !stopped && wire != []
      ensures AreAllowed() ==> Next(SystemOf(channelsIdx, State()), Deliver, Capacity).To?
    {
      hide Run, IsSound, Next, OutsOf, RecvingOf, HasChannels;
      if AreAllowed() {
        StartIsSound(channelsIdx.Keys, Capacity);
        RunKeepsSound(Start(channelsIdx.Keys), events, Capacity);
        DeliverFollows(SystemOf(channelsIdx, State()), Capacity);
      }
    }

    /**
     * As long as the other end takes what was sent, whatever the order of calls: a channel has delivered a
     * start of what it was given, less some empty messages; a channel that was given none lost nothing.
     */
    lemma DeliversInOrder(id: Id)
      requires Valid() && AreAllowed() && id in channelsIdx
      ensures id in queued && id in delivered && IsStartOfThinned(delivered[id], queued[id])
      ensures [] !in queued[id] ==> delivered[id] <= queued[id]
    {
      hide Run, IsSound, TimesPassedOver, IsStartOfThinned, OutsOf, RecvingOf, HasChannels, AreAllowed;
      var s := SystemOf(channelsIdx, State());
      assert s.lines[id].queued == queued[id] && s.lines[id].delivered == delivered[id];
      AllAllowed();
      DeliveredIsThinned(channelsIdx.Keys, events, Capacity, id);
      if [] !in queued[id] {
        NonEmptyAreNeverLost(channelsIdx.Keys, events, Capacity, id);
        DeliveredIsPrefix(channelsIdx.Keys, events, Capacity, id);
      }
    }

    lemma AllAllowed()
      requires AreAllowed()
      ensures forall i :: 0 <= i < |events| ==> IsAllowed(events[i], Capacity)
    {
    }

    lemma Lookup()
      requires Valid() && !stopped
      ensures AreDistinct(senders) && AreDistinct(receivers) && |senders| == |receivers|
      ensures forall id :: id in channelsIdx ==> channelsIdx[id] < |senders| && senders[channelsIdx[id]].id == id
      ensures forall i :: 0 <= i < |senders| ==> senders[i].id in channelsIdx && channelsIdx[senders[i].id] == i
      ensures IsIndexed(channelsIdx, State()) && channelsIdx.Keys == queued.Keys == delivered.Keys
      ensures |State().outs| == |State().recving| == |senders| && State().wire == wire
      ensures State().delivered == delivered
    {
    }

    lemma RunGrows(e: Ends, e': Ends, events: seq<Event>, event: Event)
      requires IsRun(e, events) && Steps(channelsIdx, e, event, e', Capacity)
      ensures IsRun(e', events + [event])
    {
      hide Next, IsIndexed, SystemOf;
      assert (events + [event])[..|events|] == events;
    }
  }
}
