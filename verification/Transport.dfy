/** Two ends of a connection with many channels, under any order of sends, transmissions and receptions. */
module Transport {
  import opened Channel

  /** One channel at both ends; queued and delivered remember everything that went in and came out. */
  datatype Line = Line(out: Outgoing, recving: seq<Byte>, queued: seq<Message>, delivered: seq<Message>)

  /** The channels by their identifiers, and the packets under way. */
  datatype System = System(lines: map<Id, Line>, wire: seq<Packet>)

  datatype Event =
    | Send(id: Id, message: Message)
    | Transmit(id: Id)
    | Deliver

  datatype Step = To(system: System) | Impossible | Overflowed

  function Start(ids: set<Id>): System {
    System(map id | id in ids :: Line(Outgoing([], [], 0), [], [], []), [])
  }

  function SendOn(l: Line, message: Message): Line {
    l.(out := Enqueued(l.out, message), queued := l.queued + [message])
  }

  /** The sender asks every channel whether it has something, and then sends one packet of one that has. */
  function RefillOn(l: Line): Line { l.(out := Refilled(l.out)) }

  function TransmitOn(l: Line): Line { l.(out := AfterPacket(Refilled(l.out))) }

  function Next(s: System, e: Event, capacity: Id -> nat): Step {
    match e
    case Send(id, message) =>
      if id in s.lines then To(s.(lines := s.lines[id := SendOn(s.lines[id], message)])) else Impossible
    case Transmit(id) =>
      if id in s.lines && IsPending(s.lines[id].out) then
        var lines := map k | k in s.lines :: if k == id then TransmitOn(s.lines[k]) else RefillOn(s.lines[k]);
        To(System(lines, s.wire + [NextPacket(id, Refilled(s.lines[id].out))]))
      else Impossible
    case Deliver =>
      if s.wire != [] && s.wire[0].channel in s.lines then
        var p := s.wire[0];
        var l := s.lines[p.channel];
        var s' := s.(wire := s.wire[1..]);
        match Receive(l.recving, p, capacity(p.channel))
        case Overflow => Overflowed
        case Partial(more) => To(s'.(lines := s.lines[p.channel := l.(recving := more)]))
        case Complete(m) =>
          To(s'.(lines := s.lines[p.channel := l.(recving := [], delivered := l.delivered + [m])]))
      else Impossible
  }

  /** The packets of one channel among all. */
  function Of(wire: seq<Packet>, id: Id): seq<Packet> {
    if wire == [] then []
    else if wire[0].channel == id then [wire[0]] + Of(wire[1..], id)
    else Of(wire[1..], id)
  }

  datatype Assembly = Assembly(messages: seq<Message>, rest: seq<Byte>)

  /** What the packets will add up to, after what has been received of the current message. */
  function Assembled(partial: seq<Byte>, packets: seq<Packet>): Assembly
    decreases packets
  {
    if packets == [] then Assembly([], partial)
    else if packets[0].eof then
      var later := Assembled([], packets[1..]);
      Assembly([partial + packets[0].bytes] + later.messages, later.rest)
    else Assembled(partial + packets[0].bytes, packets[1..])
  }

  /** The message that is being sent, with the part of it that has already left. */
  function Current(o: Outgoing, rest: seq<Byte>): seq<Message> {
    if o.sending == [] then [] else [rest + o.sending]
  }

  ghost predicate AllFit(messages: seq<Message>, capacity: nat) {
    forall i :: 0 <= i < |messages| ==> |messages[i]| <= capacity
  }

  /** Delivered, under way, being sent and waiting: everything that is left, in this order, of what was queued. */
  function Everything(l: Line, packets: seq<Packet>): seq<Message> {
    var a := Assembled(l.recving, packets);
    l.delivered + a.messages + Current(l.out, a.rest) + l.out.queue
  }

  function Missing(l: Line, packets: seq<Packet>): int {
    |l.queued| - |Everything(l, packets)|
  }

  /** some is all but for some empty messages. */
  predicate IsThinned(some: seq<Message>, all: seq<Message>)
    decreases |all|
  {
    if all == [] then some == []
    else
      || (some != [] && some[0] == all[0] && IsThinned(some[1..], all[1..]))
      || (all[0] == [] && IsThinned(some, all[1..]))
  }

  /** Nothing but empty messages is missing, and the counter still counts those. */
  ghost predicate IsWhole(l: Line, packets: seq<Packet>, capacity: nat) {
    var a := Assembled(l.recving, packets);
    && IsThinned(Everything(l, packets), l.queued)
    && (l.out.sending == [] ==> a.rest == [])
    && AllFit(l.queued, capacity)
    && l.out.size == |l.queued| - |l.delivered| - |a.messages|
  }

  /** The next message is empty: whoever takes it from the queue must send it at once. */
  predicate IsAtRisk(o: Outgoing) { o.sending == [] && o.queue != [] && o.queue[0] == [] }

  ghost predicate IsSound(s: System, capacity: Id -> nat) {
    && (forall id :: id in s.lines ==> IsWhole(s.lines[id], Of(s.wire, id), capacity(id)))
    && forall i :: 0 <= i < |s.wire| ==> s.wire[i].channel in s.lines && |s.wire[i].bytes| <= MAX_PAYLOAD
  }

  lemma {:induction false} AssembledGrows(partial: seq<Byte>, packets: seq<Packet>, p: Packet)
    ensures var a, b := Assembled(partial, packets), Assembled(partial, packets + [p]);
      b == if p.eof then Assembly(a.messages + [a.rest + p.bytes], []) else Assembly(a.messages, a.rest + p.bytes)
    decreases packets
  {
    var more := packets + [p];
    if packets == [] {
      assert more[1..] == [];
    } else {
      assert more[1..] == packets[1..] + [p];
      if packets[0].eof {
        AssembledGrows([], packets[1..], p);
      } else {
        AssembledGrows(partial + packets[0].bytes, packets[1..], p);
      }
    }
  }

  /** What has been received so far is the start of the next message. */
  lemma {:induction false} PartialIsBounded(partial: seq<Byte>, packets: seq<Packet>)
    ensures var a := Assembled(partial, packets);
      |partial| <= if a.messages == [] then |a.rest| else |a.messages[0]|
    decreases packets
  {
    if packets != [] && !packets[0].eof {
      PartialIsBounded(partial + packets[0].bytes, packets[1..]);
    }
  }

  lemma {:induction false} OfGrows(wire: seq<Packet>, p: Packet, id: Id)
    ensures Of(wire + [p], id) == if p.channel == id then Of(wire, id) + [p] else Of(wire, id)
  {
    if wire == [] {
      assert (wire + [p])[1..] == [];
    } else {
      assert (wire + [p])[1..] == wire[1..] + [p];
      OfGrows(wire[1..], p, id);
    }
  }

  lemma {:induction false} ThinnedLength(some: seq<Message>, all: seq<Message>)
    requires IsThinned(some, all)
    ensures |some| <= |all| && (|some| == |all| ==> some == all)
    decreases |all|
  {
    if all == [] {
    } else if some != [] && some[0] == all[0] && IsThinned(some[1..], all[1..]) {
      ThinnedLength(some[1..], all[1..]);
      assert some == [some[0]] + some[1..] && all == [all[0]] + all[1..];
    } else {
      ThinnedLength(some, all[1..]);
    }
  }

  lemma {:induction false} ThinnedFits(some: seq<Message>, all: seq<Message>, capacity: nat)
    requires IsThinned(some, all) && AllFit(all, capacity)
    ensures AllFit(some, capacity)
    decreases |all|
  {
    if all == [] {
    } else if some != [] && some[0] == all[0] && IsThinned(some[1..], all[1..]) {
      ThinnedFits(some[1..], all[1..], capacity);
      assert some == [some[0]] + some[1..];
    } else {
      ThinnedFits(some, all[1..], capacity);
    }
  }

  lemma {:induction false} ThinnedGrows(some: seq<Message>, all: seq<Message>, m: Message)
    requires IsThinned(some, all)
    ensures IsThinned(some + [m], all + [m])
    decreases |all|
  {
    if all == [] {
      assert ([] + [m])[1..] == [];
    } else {
      assert (all + [m])[1..] == all[1..] + [m];
      if some != [] && some[0] == all[0] && IsThinned(some[1..], all[1..]) {
        assert (some + [m])[1..] == some[1..] + [m];
        ThinnedGrows(some[1..], all[1..], m);
      } else {
        ThinnedGrows(some, all[1..], m);
      }
    }
  }

  lemma {:induction false} ThinnedFurther(before: seq<Message>, after: seq<Message>, all: seq<Message>)
    requires IsThinned(before + [[]] + after, all)
    ensures IsThinned(before + after, all)
    decreases |all|
  {
    var some := before + [[]] + after;
    if some[0] == all[0] && IsThinned(some[1..], all[1..]) {
      if before == [] {
        assert some[1..] == after && before + after == after;
      } else {
        assert some[1..] == before[1..] + [[]] + after;
        assert (before + after)[1..] == before[1..] + after;
        ThinnedFurther(before[1..], after, all[1..]);
      }
    } else {
      ThinnedFurther(before, after, all[1..]);
    }
  }

  /** When as many messages are left as there were, they are the same, in the same order. */
  lemma WholeIff(l: Line, packets: seq<Packet>, capacity: nat)
    requires IsWhole(l, packets, capacity)
    ensures 0 <= Missing(l, packets)
    ensures Everything(l, packets) == l.queued <==> Missing(l, packets) == 0
  {
    hide Everything, Assembled;
    ThinnedLength(Everything(l, packets), l.queued);
  }

  lemma SendKeepsWhole(l: Line, packets: seq<Packet>, message: Message, capacity: nat)
    requires IsWhole(l, packets, capacity) && |message| <= capacity
    ensures IsWhole(SendOn(l, message), packets, capacity)
    ensures Missing(SendOn(l, message), packets) == Missing(l, packets)
  {
    hide Assembled, IsThinned;
    var l' := SendOn(l, message);
    assert Everything(l', packets) == Everything(l, packets) + [message];
    ThinnedGrows(Everything(l, packets), l.queued, message);
  }

  /** Taking the next message from the queue loses it exactly when it is empty. */
  lemma RefillKeepsWhole(l: Line, packets: seq<Packet>, capacity: nat)
    requires IsWhole(l, packets, capacity)
    ensures IsWhole(RefillOn(l), packets, capacity)
    ensures Missing(RefillOn(l), packets) == Missing(l, packets) + if IsAtRisk(l.out) then 1 else 0
  {
    hide Assembled, IsThinned;
    if l.out.sending == [] && l.out.queue != [] {
      var a := Assembled(l.recving, packets);
      var m, later := l.out.queue[0], l.out.queue[1..];
      assert l.out.queue == [m] + later && a.rest + m == m;
      assert Everything(l, packets) == l.delivered + a.messages + [m] + later;
      if m == [] {
        assert Everything(RefillOn(l), packets) == l.delivered + a.messages + later;
        ThinnedFurther(l.delivered + a.messages, later, l.queued);
      } else {
        assert Everything(RefillOn(l), packets) == l.delivered + a.messages + [m] + later;
      }
    }
  }

  /** A refill alone keeps a line complete exactly when the next message is not an empty one. */
  lemma RefillLosesIff(l: Line, packets: seq<Packet>, capacity: nat)
    requires IsWhole(l, packets, capacity) && Everything(l, packets) == l.queued
    ensures Everything(RefillOn(l), packets) == RefillOn(l).queued <==> !IsAtRisk(l.out)
  {
    hide Everything, IsWhole, IsAtRisk;
    RefillKeepsWhole(l, packets, capacity);
    WholeIff(RefillOn(l), packets, capacity);
  }

  lemma PacketKeepsWhole(l: Line, packets: seq<Packet>, id: Id, capacity: nat)
    requires IsWhole(l, packets, capacity) && l.out.sending != []
    ensures var l', packets' := l.(out := AfterPacket(l.out)), packets + [NextPacket(id, l.out)];
      IsWhole(l', packets', capacity) && Missing(l', packets') == Missing(l, packets)
  {
    hide Assembled, IsThinned;
    var p := NextPacket(id, l.out);
    var a := Assembled(l.recving, packets);
    AssembledGrows(l.recving, packets, p);
    var l' := l.(out := AfterPacket(l.out));
    if p.eof {
      assert p.bytes == l.out.sending;
      assert Everything(l', packets + [p]) == l.delivered + (a.messages + [a.rest + p.bytes]) + [] + l.out.queue;
      assert Everything(l', packets + [p]) == Everything(l, packets);
    } else {
      var left := l.out.sending[MAX_PAYLOAD..];
      assert l.out.sending == p.bytes + left;
      assert (a.rest + p.bytes) + left == a.rest + l.out.sending;
    }
  }

  /** A channel that sends the empty message it has just taken loses nothing. */
  lemma EmptyPacketKeepsWhole(l: Line, packets: seq<Packet>, id: Id, capacity: nat)
    requires IsWhole(l, packets, capacity) && IsAtRisk(l.out)
    ensures var packets' := packets + [NextPacket(id, Refilled(l.out))];
      IsWhole(TransmitOn(l), packets', capacity) && Missing(TransmitOn(l), packets') == Missing(l, packets)
  {
    hide Assembled, IsThinned;
    var p := NextPacket(id, Refilled(l.out));
    var a := Assembled(l.recving, packets);
    AssembledGrows(l.recving, packets, p);
    assert l.out.queue == [[]] + l.out.queue[1..] && a.rest + p.bytes == [];
    assert Everything(TransmitOn(l), packets + [p]) == l.delivered + (a.messages + [[]]) + [] + l.out.queue[1..];
    assert Everything(TransmitOn(l), packets + [p]) == Everything(l, packets);
  }

  lemma TransmitKeepsWhole(l: Line, packets: seq<Packet>, id: Id, capacity: nat)
    requires IsWhole(l, packets, capacity) && IsPending(l.out)
    ensures var packets' := packets + [NextPacket(id, Refilled(l.out))];
      IsWhole(TransmitOn(l), packets', capacity) && Missing(TransmitOn(l), packets') == Missing(l, packets)
  {
    hide IsWhole, AfterPacket, NextPacket, Missing;
    if IsAtRisk(l.out) {
      EmptyPacketKeepsWhole(l, packets, id, capacity);
    } else {
      RefillKeepsWhole(l, packets, capacity);
      PacketKeepsWhole(RefillOn(l), packets, id, capacity);
    }
  }

  /** A packet that arrives never overflows, and completes a message only when the message is whole. */
  lemma ReceiveKeepsWhole(l: Line, packets: seq<Packet>, capacity: nat)
    requires packets != [] && IsWhole(l, packets, capacity)
    ensures match Receive(l.recving, packets[0], capacity)
      case Overflow => false
      case Partial(more) => LosesNothing(l, packets, l.(recving := more), packets[1..], capacity)
      case Complete(m) =>
        LosesNothing(l, packets, l.(recving := [], delivered := l.delivered + [m]), packets[1..], capacity)
  {
    hide IsThinned;
    var p, a := packets[0], Assembled(l.recving, packets);
    var more := l.recving + p.bytes;
    ArrivalFits(l, packets, capacity);
    if p.eof {
      var later := Assembled([], packets[1..]);
      assert l.delivered + a.messages == (l.delivered + [more]) + later.messages;
    }
  }

  ghost predicate LosesNothing(l: Line, packets: seq<Packet>, l': Line, packets': seq<Packet>, capacity: nat) {
    IsWhole(l', packets', capacity) && Missing(l', packets') == Missing(l, packets)
  }

  lemma ArrivalFits(l: Line, packets: seq<Packet>, capacity: nat)
    requires packets != [] && IsWhole(l, packets, capacity)
    ensures |l.recving| + |packets[0].bytes| <= capacity
  {
    hide IsThinned;
    var p, a := packets[0], Assembled(l.recving, packets);
    ThinnedFits(Everything(l, packets), l.queued, capacity);
    if p.eof {
      assert a.messages[0] == l.recving + p.bytes;
    } else {
      PartialIsBounded(l.recving + p.bytes, packets[1..]);
    }
    var n := |l.delivered|;
    if a.messages != [] {
      assert Everything(l, packets)[n] == a.messages[0];
    } else if l.out.sending != [] {
      assert Everything(l, packets)[n] == a.rest + l.out.sending;
    } else {
      assert a.rest == [];
    }
  }

  ghost predicate IsAllowed(e: Event, capacity: Id -> nat) {
    e.Send? ==> |e.message| <= capacity(e.id)
  }

  /** Somebody else is served while the next message of this channel is an empty one. */
  predicate IsPassedOver(s: System, e: Event, id: Id) {
    e.Transmit? && e.id != id && id in s.lines && IsAtRisk(s.lines[id].out)
  }

  /** One event keeps the system sound; a channel loses one message if it is passed over, and none otherwise. */
  ghost predicate Follows(s: System, e: Event, s': System, capacity: Id -> nat) {
    && IsSound(s', capacity) && s'.lines.Keys == s.lines.Keys
    && forall id :: id in s.lines ==>
         Missing(s'.lines[id], Of(s'.wire, id)) ==
         Missing(s.lines[id], Of(s.wire, id)) + if IsPassedOver(s, e, id) then 1 else 0
  }

  lemma SendFollows(s: System, e: Event, capacity: Id -> nat)
    requires IsSound(s, capacity) && IsAllowed(e, capacity) && e.Send? && e.id in s.lines
    ensures Follows(s, e, Next(s, e, capacity).system, capacity)
  {
    hide IsWhole, Of, SendOn, Missing;
    SendKeepsWhole(s.lines[e.id], Of(s.wire, e.id), e.message, capacity(e.id));
  }

  lemma TransmitFollows(s: System, e: Event, capacity: Id -> nat)
    requires IsSound(s, capacity) && e.Transmit? && e.id in s.lines && IsPending(s.lines[e.id].out)
    ensures Follows(s, e, Next(s, e, capacity).system, capacity)
  {
    hide IsWhole, Of, RefillOn, TransmitOn, NextPacket, IsPending, Missing;
    var p := NextPacket(e.id, Refilled(s.lines[e.id].out));
    var s' := Next(s, e, capacity).system;
    assert p.channel == e.id by { PacketIsLabelled(e.id, Refilled(s.lines[e.id].out)); }
    forall id | id in s.lines
      ensures IsWhole(s'.lines[id], Of(s'.wire, id), capacity(id))
      ensures Missing(s'.lines[id], Of(s'.wire, id)) ==
              Missing(s.lines[id], Of(s.wire, id)) + if IsPassedOver(s, e, id) then 1 else 0
    {
      OfGrows(s.wire, p, id);
      if id == e.id {
        TransmitKeepsWhole(s.lines[id], Of(s.wire, id), id, capacity(id));
      } else {
        RefillKeepsWhole(s.lines[id], Of(s.wire, id), capacity(id));
      }
    }
  }

  lemma PacketIsLabelled(id: Id, o: Outgoing)
    ensures NextPacket(id, o).channel == id
  {
  }

  lemma DeliverFollows(s: System, capacity: Id -> nat)
    requires IsSound(s, capacity) && s.wire != []
    ensures var next := Next(s, Deliver, capacity);
      next.To? && Follows(s, Deliver, next.system, capacity)
  {
    hide IsWhole, Receive, Missing;
    var p := s.wire[0];
    ReceiveKeepsWhole(s.lines[p.channel], Of(s.wire, p.channel), capacity(p.channel));
    forall id ensures Of(s.wire, id) == if id == p.channel then [p] + Of(s.wire[1..], id) else Of(s.wire[1..], id) {
    }
    assert Of(s.wire, p.channel)[1..] == Of(s.wire[1..], p.channel);
  }

  lemma NextFollows(s: System, e: Event, capacity: Id -> nat)
    requires IsSound(s, capacity) && IsAllowed(e, capacity)
    ensures var r := Next(s, e, capacity);
      !r.Overflowed? && (r.To? ==> Follows(s, e, r.system, capacity))
  {
    hide IsSound, Receive, Follows;
    match e
    case Send(id, _) =>
      if id in s.lines { SendFollows(s, e, capacity); }
    case Transmit(id) =>
      if id in s.lines && IsPending(s.lines[id].out) { TransmitFollows(s, e, capacity); }
    case Deliver =>
      if s.wire != [] { DeliverFollows(s, capacity); }
  }

  function Run(s: System, events: seq<Event>, capacity: Id -> nat): Step {
    if events == [] then To(s)
    else
      var before := Run(s, events[..|events| - 1], capacity);
      if before.To? then Next(before.system, events[|events| - 1], capacity) else before
  }

  /** How often a channel was passed over. */
  function TimesPassedOver(s: System, events: seq<Event>, capacity: Id -> nat, id: Id): nat {
    if events == [] then 0
    else
      var before := Run(s, events[..|events| - 1], capacity);
      TimesPassedOver(s, events[..|events| - 1], capacity, id) +
      if before.To? && IsPassedOver(before.system, events[|events| - 1], id) then 1 else 0
  }

  /**
   * Whatever the order of events, nothing overflows, every line stays whole, and a channel has lost as
   * many messages, all of them empty, as it was passed over.
   */
  lemma {:induction false} RunKeepsSound(s: System, events: seq<Event>, capacity: Id -> nat)
    requires IsSound(s, capacity) && forall i :: 0 <= i < |events| ==> IsAllowed(events[i], capacity)
    ensures var r := Run(s, events, capacity);
      && !r.Overflowed?
      && (r.To? ==>
            && IsSound(r.system, capacity) && r.system.lines.Keys == s.lines.Keys
            && forall id :: id in s.lines ==>
                 Missing(r.system.lines[id], Of(r.system.wire, id)) ==
                 Missing(s.lines[id], Of(s.wire, id)) + TimesPassedOver(s, events, capacity, id))
  {
    hide IsSound, Next, Missing, IsPassedOver, Of;
    if events != [] {
      RunKeepsSound(s, events[..|events| - 1], capacity);
      var before := Run(s, events[..|events| - 1], capacity);
      if before.To? {
        NextFollows(before.system, events[|events| - 1], capacity);
      }
    }
  }

  lemma StartIsSound(ids: set<Id>, capacity: Id -> nat)
    ensures IsSound(Start(ids), capacity)
    ensures forall id :: id in ids ==> Missing(Start(ids).lines[id], []) == 0
  {
  }

  /**
   * On every channel, what has been delivered is what was queued so far less some empty messages. When
   * nothing is left, all the others have been delivered, and the empty ones too exactly when the
   * channel was never passed over.
   */
  lemma DeliveredIsThinned(ids: set<Id>, events: seq<Event>, capacity: Id -> nat, id: Id)
    requires id in ids && forall i :: 0 <= i < |events| ==> IsAllowed(events[i], capacity)
    ensures var r := Run(Start(ids), events, capacity);
      r.To? && id in r.system.lines ==>
        var l := r.system.lines[id];
        var n := TimesPassedOver(Start(ids), events, capacity, id);
        && IsStartOfThinned(l.delivered, l.queued)
        && (Of(r.system.wire, id) == [] && l.recving == [] && !IsPending(l.out) ==>
              && IsThinned(l.delivered, l.queued) && |l.queued| == |l.delivered| + n
              && (l.delivered == l.queued <==> n == 0))
  {
    hide IsSound, Run, TimesPassedOver, IsStartOfThinned, IsThinned;
    StartIsSound(ids, capacity);
    RunKeepsSound(Start(ids), events, capacity);
    var r := Run(Start(ids), events, capacity);
    if r.To? {
      LineIsThinned(r.system, capacity, id);
    }
  }

  ghost predicate IsStartOfThinned(some: seq<Message>, all: seq<Message>) {
    exists rest :: IsThinned(some + rest, all)
  }

  lemma LineIsThinned(s: System, capacity: Id -> nat, id: Id)
    requires IsSound(s, capacity) && id in s.lines
    ensures var l, n := s.lines[id], Missing(s.lines[id], Of(s.wire, id));
      && IsStartOfThinned(l.delivered, l.queued)
      && (n == 0 ==> l.delivered <= l.queued)
      && (Of(s.wire, id) == [] && l.recving == [] && !IsPending(l.out) ==>
            && IsThinned(l.delivered, l.queued) && |l.queued| == |l.delivered| + n
            && (l.delivered == l.queued <==> n == 0))
  {
    hide IsThinned, Of;
    var l, packets := s.lines[id], Of(s.wire, id);
    assert IsWhole(l, packets, capacity(id));
    WholeIff(l, packets, capacity(id));
    var a := Assembled(l.recving, packets);
    var rest := a.messages + Current(l.out, a.rest) + l.out.queue;
    assert Everything(l, packets) == l.delivered + rest;
    if packets == [] && l.recving == [] && !IsPending(l.out) {
      assert rest == [] && Everything(l, packets) == l.delivered;
    }
  }

  /** A channel that is never passed over delivers in order what it was given, empty messages too. */
  lemma DeliveredIsPrefix(ids: set<Id>, events: seq<Event>, capacity: Id -> nat, id: Id)
    requires id in ids && forall i :: 0 <= i < |events| ==> IsAllowed(events[i], capacity)
    requires TimesPassedOver(Start(ids), events, capacity, id) == 0
    ensures var r := Run(Start(ids), events, capacity);
      r.To? && id in r.system.lines ==> r.system.lines[id].delivered <= r.system.lines[id].queued
  {
    hide IsSound, Run, TimesPassedOver, IsStartOfThinned, IsThinned;
    StartIsSound(ids, capacity);
    RunKeepsSound(Start(ids), events, capacity);
    var r := Run(Start(ids), events, capacity);
    if r.To? {
      LineIsThinned(r.system, capacity, id);
    }
  }

  /** A channel that is given no empty message loses none, however often others are served. */
  lemma NonEmptyAreNeverLost(ids: set<Id>, events: seq<Event>, capacity: Id -> nat, id: Id)
    requires id in ids && forall i :: 0 <= i < |events| ==> IsAllowed(events[i], capacity)
    ensures var r := Run(Start(ids), events, capacity);
      r.To? && id in r.system.lines && [] !in r.system.lines[id].queued ==>
        TimesPassedOver(Start(ids), events, capacity, id) == 0
  {
    hide IsSound, Run, TimesPassedOver, Everything, Assembled;
    StartIsSound(ids, capacity);
    RunKeepsSound(Start(ids), events, capacity);
    var r := Run(Start(ids), events, capacity);
    if r.To? && id in r.system.lines && [] !in r.system.lines[id].queued {
      var l, packets := r.system.lines[id], Of(r.system.wire, id);
      assert IsWhole(l, packets, capacity(id)) by { SoundLine(r.system, capacity, id); }
      NothingToThin(Everything(l, packets), l.queued);
    }
  }

  lemma SoundLine(s: System, capacity: Id -> nat, id: Id)
    requires IsSound(s, capacity) && id in s.lines
    ensures IsWhole(s.lines[id], Of(s.wire, id), capacity(id))
  {
  }

  lemma {:induction false} NothingToThin(some: seq<Message>, all: seq<Message>)
    requires IsThinned(some, all) && [] !in all
    ensures some == all
    decreases |all|
  {
    if all != [] {
      NothingToThin(some[1..], all[1..]);
      assert some == [some[0]] + some[1..] && all == [all[0]] + all[1..];
    }
  }

  /** The counter is the number of messages not yet completely sent, and of those that were lost. */
  lemma CounterIsExact(s: System, capacity: Id -> nat, id: Id)
    requires IsSound(s, capacity) && id in s.lines
    ensures var l, packets := s.lines[id], Of(s.wire, id);
      && l.out.size == |l.queued| - |l.delivered| - |Assembled(l.recving, packets).messages|
      && (l.out.size == 0 <==> !IsPending(l.out) && Missing(l, packets) == 0)
  {
    hide Assembled, Of, IsThinned;
    assert IsWhole(s.lines[id], Of(s.wire, id), capacity(id));
    WholeIff(s.lines[id], Of(s.wire, id), capacity(id));
  }

  /** An empty message can vanish: another channel is chosen, and the next round forgets it. */
  lemma EmptyMessageIsLost(capacity: Id -> nat, x: Byte, s1: System, s2: System, s3: System)
    requires Next(Start({0, 1}), Send(0, []), capacity) == To(s1)
    requires Next(s1, Send(1, [x]), capacity) == To(s2)
    requires Next(s2, Transmit(1), capacity) == To(s3)
    ensures IsPassedOver(s2, Transmit(1), 0)
    ensures 0 in s3.lines && var l := s3.lines[0];
      l.queued == [[]] && l.delivered == [] && Of(s3.wire, 0) == [] && !IsPending(l.out) && l.out.size == 1
  {
    assert s2.lines[0].out == Outgoing([], [[]], 1);
    assert s2.wire == [] && s3.wire[1..] == [];
  }
}
