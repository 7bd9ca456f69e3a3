/** What a subscriber reads: the packets of its descriptor, in the order in which they were due. */
module Subscribers {
  import opened Base
  import opened Clients
  import opened Subscriptions
  import opened Pollers
  import opened Packets
  import opened Streams
  import opened ServerModel
  import opened Invariant
  import opened Refinement
  import B = Broker

  /** The packets handed out on one descriptor, in order. */
  function PacketsOn(out: seq<Delivery>, fd: int): seq<seq<Byte>> {
    if out == [] then [] else (if out[0].fd == fd then [out[0].packet] else []) + PacketsOn(out[1..], fd)
  }

  function Repeat(packet: seq<Byte>, n: nat): seq<seq<Byte>> {
    if n == 0 then [] else [packet] + Repeat(packet, n - 1)
  }

  /** The packets an event makes due on fd. */
  function DueNow(b: B.Broker, e: B.Event, fd: int): seq<seq<Byte>> {
    if e.Publish? then Repeat(e.packet, B.Copies(b, e.topic, fd)) else []
  }

  ghost function DueInOrder(b: B.Broker, es: seq<B.Event>, fd: int): seq<seq<Byte>>
    decreases |es|
  {
    if es == [] then [] else DueNow(b, es[0], fd) + DueInOrder(B.Step(b, es[0]), es[1..], fd)
  }

  lemma {:induction false} PacketsOnConcat(a: seq<Delivery>, b: seq<Delivery>, fd: int)
    ensures PacketsOn(a + b, fd) == PacketsOn(a, fd) + PacketsOn(b, fd)
  {
    if a == [] {
      assert a + b == b;
    } else {
      assert (a + b)[1..] == a[1..] + b;
      PacketsOnConcat(a[1..], b, fd);
    }
  }

  lemma {:induction false} PassInOrder(c: Config, clients: seq<Client>, subs: seq<Subscription>, topic: Str,
                                       packet: seq<Byte>, fd: int)
    requires DistinctFds(c, clients) && Identities(clients) && Named(subs)
    requires Pass(c.edition, clients, subs, topic, packet).Sent?
    ensures var k := IndexByFd(clients, fd);
            PacketsOn(Pass(c.edition, clients, subs, topic, packet).out, fd)
            == Repeat(packet, if 0 <= k then Held(subs, topic, clients[k].id) else 0)
  {
    if subs != [] {
      PassInOrder(c, clients, subs[1..], topic, packet, fd);
      var j, k := IndexById(clients, subs[0].id), IndexByFd(clients, fd);
      if subs[0].topic == topic && 0 <= j {
        var rest := Pass(c.edition, clients, subs[1..], topic, packet).out;
        var out := Pass(c.edition, clients, subs, topic, packet).out;
        assert out == [Delivery(clients[j].fd, packet)] + rest && out[1..] == rest;
        SubscriberIs(c, clients, subs[0].id, j, fd);
      }
    }
  }

  lemma StepInOrder(c: Config, s: Server, b: B.Broker, l: Label, fd: int)
    requires c.edition.Repaired? && Inv(c, s) && Refines(s, b)
    requires (l.Iterate? ==> Proper(l.input)) && FreshAccept(c, s, l)
    ensures Step(c, s, l).Running? ==> PacketsOn(Step(c, s, l).out, fd) == DueNow(b, EventOf(c, s, l), fd)
  {
    var o, ev := Step(c, s, l), EventOf(c, s, l);
    StepRefines(c, s, b, l);
    if o.Running? && ev.Publish? {
      assert s.subs[0..] == s.subs;
      assert o.out == Pass(Repaired, s.clients, s.subs, ev.topic, ev.packet).out;
      PassInOrder(c, s.clients, s.subs, ev.topic, ev.packet, fd);
      CopiesAreHeld(c, s, b, ev.topic, fd);
    }
  }

  /** Over every run, on every descriptor: exactly the packets that were due there, in order. */
  lemma {:induction false} RunInOrder(c: Config, s: Server, b: B.Broker, ls: seq<Label>, fd: int)
    requires c.edition.Repaired? && Inv(c, s) && Refines(s, b)
    requires ProperRun(ls) && FreshRun(c, s, ls) && Run(c, s, ls).Running?
    ensures PacketsOn(Run(c, s, ls).out, fd) == DueInOrder(b, EventsOf(c, s, ls), fd)
    decreases |ls|
  {
    if ls != [] {
      var o, e := Step(c, s, ls[0]), EventOf(c, s, ls[0]);
      StepInv(c, s, ls[0]);
      StepRefines(c, s, b, ls[0]);
      StepInOrder(c, s, b, ls[0], fd);
      RunInOrder(c, o.server, B.Step(b, e), ls[1..], fd);
      PacketsOnConcat(o.out, Run(c, o.server, ls[1..]).out, fd);
      var rest := EventsOf(c, o.server, ls[1..]);
      assert EventsOf(c, s, ls) == [e] + rest && ([e] + rest)[1..] == rest;
    }
  }

  ghost predicate WholePackets(es: seq<B.Event>) {
    forall i :: 0 <= i < |es| && es[i].Publish? ==> |es[i].packet| == PACKET_MAXLEN
  }

  lemma {:induction false} EventsCarryPackets(c: Config, s: Server, ls: seq<Label>)
    requires Shape(c, s) && ProperRun(ls)
    ensures WholePackets(EventsOf(c, s, ls))
    decreases |ls|
  {
    if ls != [] && Step(c, s, ls[0]).Running? {
      EventsCarryPackets(c, Step(c, s, ls[0]).server, ls[1..]);
    }
  }

  lemma {:induction false} RepeatSized(packet: seq<Byte>, n: nat)
    requires |packet| == PACKET_MAXLEN
    ensures Sized(Repeat(packet, n), PACKET_MAXLEN)
  {
    if n != 0 {
      RepeatSized(packet, n - 1);
    }
  }

  lemma {:induction false} DueSized(b: B.Broker, es: seq<B.Event>, fd: int)
    requires WholePackets(es)
    ensures Sized(DueInOrder(b, es, fd), PACKET_MAXLEN)
    decreases |es|
  {
    if es != [] {
      DueSized(B.Step(b, es[0]), es[1..], fd);
      if es[0].Publish? {
        RepeatSized(es[0].packet, B.Copies(b, es[0].topic, fd));
      }
    }
  }

  /** End to end: whoever reads the bytes sent on a descriptor packet by packet, as recv_all does,
      gets exactly the packets that were due there. */
  lemma SubscriberReads(c: Config, s: Server, b: B.Broker, ls: seq<Label>, fd: int)
    requires c.edition.Repaired? && Inv(c, s) && Refines(s, b)
    requires ProperRun(ls) && FreshRun(c, s, ls) && Run(c, s, ls).Running?
    ensures Unframe(Frames(PacketsOn(Run(c, s, ls).out, fd)), PACKET_MAXLEN) == DueInOrder(b, EventsOf(c, s, ls), fd)
  {
    RunInOrder(c, s, b, ls, fd);
    EventsCarryPackets(c, s, ls);
    DueSized(b, EventsOf(c, s, ls), fd);
    FramingRoundTrip(DueInOrder(b, EventsOf(c, s, ls), fd), PACKET_MAXLEN);
  }

  /** What the event loop has sent since its start, by its trace, as each subscriber reads it. */
  lemma ServerDelivers(c: Config, recvMsg: seq<Byte>, ready: nat -> set<int>, inputs: nat -> Input, trace: Trace,
                       fd: int)
    requires c.edition.Repaired? && Descriptors(c) && |recvMsg| == CTOS_LEN && StartOf(trace) == Start(c, recvMsg)
    requires IsTrace(c, ready, inputs, trace) && GoesOn(Ending(trace))
    requires ProperRun(Labels(trace)) && FreshRun(c, StartOf(trace), Labels(trace))
    ensures Unframe(Frames(PacketsOn(Output(trace), fd)), PACKET_MAXLEN)
            == DueInOrder(B.Broker(map[], map[]), EventsOf(c, StartOf(trace), Labels(trace)), fd)
  {
    TraceIsRun(c, ready, inputs, trace);
    StartRefines(c, recvMsg);
    SubscriberReads(c, StartOf(trace), B.Broker(map[], map[]), Labels(trace), fd);
  }

  lemma Cut(a: seq<Byte>, b: seq<Byte>, datagram: seq<Byte>, m: seq<Byte>)
    requires |a| == 4 && |b| == 2 && 2 <= |datagram|
    requires m == a + b + datagram[..|datagram| - 2] + [0, 0]
    ensures m[..4] == a && m[4..6] == b
    ensures m[6..] == datagram[..|datagram| - 2] + [0, 0]
    ensures m[6..] == datagram <==> datagram[|datagram| - 2..] == [0, 0]
  {
    var kept := datagram[..|datagram| - 2];
    assert m[6..] == kept + [0, 0];
    assert datagram == kept + datagram[|datagram| - 2..];
    assert (kept + [0, 0])[|kept|..] == [0, 0];
  }

  /** The datagram and its source, as the subscriber decodes them from the packet: all of them exactly
      when the datagram ends in two zero bytes. */
  lemma DatagramArrives(e: Input)
    requires Proper(e)
    ensures var m := Decode(PacketFor(e), STOC_LEN);
            && m[..4] == e.srcIp && m[4..6] == e.srcPort
            && m[6..] == e.datagram[..UDP_MSG_LEN - 2] + [0, 0]
            && (m[6..] == e.datagram <==> e.datagram[UDP_MSG_LEN - 2..] == [0, 0])
  {
    var message := ServerMessage(e.srcIp, e.srcPort, e.datagram);
    PacketRoundTrip(message);
    assert Shorn(message) == e.srcIp + e.srcPort + e.datagram[..UDP_MSG_LEN - 2] + [0, 0];
    Cut(e.srcIp, e.srcPort, e.datagram, Shorn(message));
  }
}
