/** One connection seen on its own: what the server hears and acts on, whatever the other connections
    do in between. */
module Connections {
  import opened Base
  import opened Clients
  import opened Pollers
  import opened Packets
  import opened Streams
  import opened ServerModel
  import opened Invariant
  import opened Refinement
  import B = Broker

  /** A message as client_compose_msg puts it together. */
  datatype Composed = Composed(kind: Byte, payload: Str)

  ghost predicate Fit(ms: seq<Composed>) {
    forall i :: 0 <= i < |ms| ==> |ms[i].payload| < CTOS_MAXLEN
  }

  /** The packets a client sends for its messages. */
  ghost function Packed(ms: seq<Composed>): (ps: seq<seq<Byte>>)
    requires Fit(ms)
    ensures |ps| == |ms| && Sized(ps, PACKET_MAXLEN)
    ensures forall i :: 0 <= i < |ms| ==> ps[i] == Encode(ClientMessage(ms[i].kind, ms[i].payload))
  {
    seq(|ms|, i requires 0 <= i < |ms| => Encode(ClientMessage(ms[i].kind, ms[i].payload)))
  }

  /** The messages as they reach recvMsg. */
  ghost function Arrived(ms: seq<Composed>): (arrivals: seq<seq<Byte>>)
    requires Fit(ms)
    ensures |arrivals| == |ms|
    ensures forall i :: 0 <= i < |ms| ==> arrivals[i] == Shorn(ClientMessage(ms[i].kind, ms[i].payload))
  {
    seq(|ms|, i requires 0 <= i < |ms| => Shorn(ClientMessage(ms[i].kind, ms[i].payload)))
  }

  // ---- what one connection sees of a run

  predicate HasClient(s: Server, fd: int) {
    0 <= IndexByFd(s.clients, fd)
  }

  function ClientOf(s: Server, fd: int): Client
    requires HasClient(s, fd)
  {
    s.clients[IndexByFd(s.clients, fd)]
  }

  function StateOf(s: Server, fd: int): ClientState
    requires HasClient(s, fd)
  {
    ClientOf(s, fd).state
  }

  /** It is this connection's turn. */
  ghost predicate TurnOf(c: Config, s: Server, l: Label, fd: int)
    requires Shape(c, s)
  {
    l.Iterate? && HasClient(s, fd) && NextFd(s.table).0 == fd
  }

  /** One step of the server as it concerns one connection: the client's state before it, and, when it
      was the connection's turn, what recv gave. */
  datatype Sight = Other(state: ClientState) | Own(state: ClientState, failed: bool, received: seq<Byte>)

  type Glimpse = g: Sight | g.Own? ==> |g.received| <= PACKET_MAXLEN witness Other(New)

  ghost function Seen(c: Config, s: Server, l: Label, fd: int): Glimpse
    requires Shape(c, s) && (l.Iterate? ==> Proper(l.input)) && HasClient(s, fd)
  {
    if TurnOf(c, s, l, fd) then Own(StateOf(s, fd), l.input.recvFails, l.input.received)
    else Other(StateOf(s, fd))
  }

  /** The run as the connection sees it, until it ends. */
  ghost function View(c: Config, s: Server, ls: seq<Label>, fd: int): seq<Glimpse>
    requires Shape(c, s) && ProperRun(ls)
    decreases |ls|
  {
    if ls == [] || !HasClient(s, fd) then []
    else
      var o := Step(c, s, ls[0]);
      [Seen(c, s, ls[0], fd)] + if o.Running? then View(c, o.server, ls[1..], fd) else []
  }

  predicate Receives(g: Glimpse) {
    g.Own? && !g.failed
  }

  /** The message of the packet that the step receives, if any. */
  function HeardNow(g: Glimpse): (ms: seq<seq<Byte>>)
    ensures |ms| <= 1 && (ms != [] ==> |ms[0]| == CTOS_LEN)
  {
    if Receives(g) && g.received != [] && Storable(Padded(g.received))
    then [MessageOf(Padded(g.received))] else []
  }

  /** The packet claims to be a whole client message. */
  predicate Whole(g: Glimpse) {
    HeardNow(g) != [] ==> FromLe16(Padded(g.received)[..2]) == CTOS_LEN
  }

  /** The messages heard on the connection. */
  function Heard(view: seq<Glimpse>): seq<seq<Byte>> {
    if view == [] then [] else HeardNow(view[0]) + Heard(view[1..])
  }

  /** What recv gives for a whole packet: that many bytes of the stream, or all that are left. */
  function Next(stream: seq<Byte>): nat {
    if |stream| < PACKET_MAXLEN then |stream| else PACKET_MAXLEN
  }

  /** The server reads the bytes of stream from the connection, in order. */
  predicate Reads(view: seq<Glimpse>, stream: seq<Byte>) {
    view == [] || (
      if Receives(view[0]) then
        view[0].received == stream[..Next(stream)] && Reads(view[1..], stream[Next(stream)..])
      else Reads(view[1..], stream))
  }

  /** The server comes to the end of the stream while the connection lasts. */
  predicate HearsOut(view: seq<Glimpse>) {
    view != [] && ((Receives(view[0]) && view[0].received == []) || HearsOut(view[1..]))
  }

  // ---- order

  /** The stream is what arrives of the messages, packet by packet. */
  ghost predicate Carries(stream: seq<Byte>, ms: seq<Composed>) {
    Fit(ms) && stream == Frames(Packed(ms))
  }

  lemma CarriesFirst(stream: seq<Byte>, ms: seq<Composed>)
    requires Carries(stream, ms) && ms != []
    ensures PACKET_MAXLEN <= |stream|
    ensures stream[..PACKET_MAXLEN] == Encode(ClientMessage(ms[0].kind, ms[0].payload))
    ensures Carries(stream[PACKET_MAXLEN..], ms[1..])
    ensures Arrived(ms) == [Shorn(ClientMessage(ms[0].kind, ms[0].payload))] + Arrived(ms[1..])
  {
    assert Packed(ms)[1..] == Packed(ms[1..]);
  }

  /** A receiving turn hears the first of the messages still to come, and stores it whole, whatever
      recvMsg held before. */
  lemma HearsFirst(g: Glimpse, stream: seq<Byte>, ms: seq<Composed>)
    requires Carries(stream, ms) && ms != [] && Receives(g) && g.received == stream[..Next(stream)]
    ensures Next(stream) == PACKET_MAXLEN && g.received != []
    ensures Whole(g) && HeardNow(g) == [Shorn(ClientMessage(ms[0].kind, ms[0].payload))]
    ensures forall edition: Edition, previous: seq<Byte> | |previous| == CTOS_LEN ::
              StoredMessage(edition, previous, Padded(g.received)) == HeardNow(g)[0]
  {
    CarriesFirst(stream, ms);
    assert Padded(g.received) == g.received;
    ServerStoresClientMessage(Zeros(CTOS_LEN), ClientMessage(ms[0].kind, ms[0].payload));
    EncodedBytes(ClientMessage(ms[0].kind, ms[0].payload));
    assert g.received[..2] == Le16(CTOS_LEN);
    OwnMessageIff(AsWritten, g.received);
    OwnMessageIff(Repaired, g.received);
  }

  lemma {:induction false} ReadsWhole(view: seq<Glimpse>, stream: seq<Byte>, ms: seq<Composed>)
    requires Carries(stream, ms) && Reads(view, stream)
    ensures forall i :: 0 <= i < |view| ==> Whole(view[i])
    decreases |view|
  {
    if view != [] {
      if !Receives(view[0]) {
        ReadsWhole(view[1..], stream, ms);
      } else if ms == [] {
        ReadsWhole(view[1..], [], ms);
      } else {
        HearsFirst(view[0], stream, ms);
        CarriesFirst(stream, ms);
        ReadsWhole(view[1..], stream[PACKET_MAXLEN..], ms[1..]);
      }
      assert forall i :: 0 < i < |view| ==> view[i] == view[1..][i - 1];
    }
  }

  /** Per-connection order: however its turns are interleaved with everything else the server does,
      what is heard on a connection is a prefix of the messages its client composed, in order, each
      without its last two bytes; and all of them, when the stream was read to its end. */
  lemma {:induction false} HeardInOrder(view: seq<Glimpse>, stream: seq<Byte>, ms: seq<Composed>)
    requires Carries(stream, ms) && Reads(view, stream)
    ensures Heard(view) <= Arrived(ms)
    ensures HearsOut(view) ==> Heard(view) == Arrived(ms)
  {
    if view != [] {
      if !Receives(view[0]) {
        HeardInOrder(view[1..], stream, ms);
      } else if ms == [] {
        HeardInOrder(view[1..], [], ms);
      } else {
        HearsFirst(view[0], stream, ms);
        CarriesFirst(stream, ms);
        HeardInOrder(view[1..], stream[PACKET_MAXLEN..], ms[1..]);
      }
    }
  }

  lemma TwiceCarries(ms: seq<Composed>)
    requires Fit(ms)
    ensures Carries(Frames(Twice(Packed(ms))), Twice(ms))
    ensures Arrived(Twice(ms)) == Twice(Arrived(ms))
  {
    TwiceAt(ms);
    TwiceAt(Packed(ms));
    TwiceAt(Arrived(ms));
    assert Packed(Twice(ms)) == Twice(Packed(ms));
  }

  /** What a client sends as written, its extra sends going out whole, is heard twice: each message once
      more right behind itself. */
  lemma HeardTwice(view: seq<Glimpse>, stream: seq<Byte>, ms: seq<Composed>, extra: seq<nat>)
    requires Fit(ms) && |extra| == |ms| && forall i :: 0 <= i < |extra| ==> extra[i] == PACKET_MAXLEN
    requires stream == Stuttered(Packed(ms), extra) && Reads(view, stream)
    ensures Heard(view) <= Twice(Arrived(ms))
    ensures HearsOut(view) ==> Heard(view) == Twice(Arrived(ms))
  {
    ServerSeesTwice(Packed(ms), extra, PACKET_MAXLEN);
    TwiceCarries(ms);
    HeardInOrder(view, stream, Twice(ms));
  }

  // ---- what is acted on

  predicate Acts(state: ClientState, m: seq<Byte>) {
    m != [] && if state.New? then m[0] == MSG_NEW else m[0] == MSG_SUBSCRIBE || m[0] == MSG_UNSUBSCRIBE
  }

  function StateAfter(state: ClientState, ms: seq<seq<Byte>>): ClientState {
    if ms != [] && Acts(state, ms[0]) then Connected else state
  }

  /** The messages that pass the state gate of run_server. */
  function Gate(state: ClientState, ms: seq<seq<Byte>>): seq<seq<Byte>>
    decreases |ms|
  {
    if ms == [] then []
    else (if Acts(state, ms[0]) then [ms[0]] else []) + Gate(StateAfter(state, ms), ms[1..])
  }

  /** The messages the server acts on: those that suit the state it finds the client in. */
  function Acted(view: seq<Glimpse>): seq<seq<Byte>> {
    if view == [] then []
    else
      var now := HeardNow(view[0]);
      (if now != [] && Acts(view[0].state, now[0]) then now else []) + Acted(view[1..])
  }

  /** A message that does not suit the state changes neither list and sends nothing; as written, if its
      packet claims any byte at all. */
  lemma OthersAreIgnored(c: Config, s: Server, l: Label, fd: int)
    requires Inv(c, s) && TurnOf(c, s, l, fd) && Proper(l.input)
    requires c.edition.Repaired? || 0 < FromLe16(Padded(l.input.received)[..2])
    requires var now := HeardNow(Seen(c, s, l, fd)); now != [] && !Acts(StateOf(s, fd), now[0])
    ensures var o := Step(c, s, l);
            o.Running? && o.out == [] && o.server.clients == s.clients && o.server.subs == s.subs
  {
  }

  lemma PeerIs(s: Server, b: B.Broker, fd: int)
    requires Refines(s, b)
    ensures fd in b.peers <==> HasClient(s, fd)
    ensures HasClient(s, fd) ==> b.peers[fd] == PeerOf(ClientOf(s, fd))
  {
  }

  /** What recvMsg holds after the step, if it receives a message. */
  ghost function ReadNow(c: Config, s: Server, l: Label, fd: int): (ms: seq<seq<Byte>>)
    requires Shape(c, s) && (l.Iterate? ==> Proper(l.input)) && HasClient(s, fd)
    ensures |ms| <= 1 && (ms != [] ==> |ms[0]| == CTOS_LEN)
  {
    var g := Seen(c, s, l, fd);
    if HeardNow(g) == [] then [] else [StoredMessage(c.edition, s.recvMsg, Padded(g.received))]
  }

  lemma ActedOnOwnTurn(c: Config, s: Server, l: Label, fd: int)
    requires Inv(c, s) && TurnOf(c, s, l, fd) && Proper(l.input) && Step(c, s, l).Running?
    ensures var ev, read := ActedOn(c, s, l), ReadNow(c, s, l, fd);
            if read != [] then ev == B.Said(fd, Meaning(read[0])) else !ev.Said? && !ev.Connect?
    ensures var k, read := IndexByFd(s.clients, fd), ReadNow(c, s, l, fd);
            Unmixed(c, s, l)
            <==> (read != [] ==> EffectAt(s, k, read[0]) == EffectAt(s, k, HeardNow(Seen(c, s, l, fd))[0]))
  {
    assert Foreign(c, fd);
    if l.input.recvFails {
      FailingRecvEndsRun(c, s, l, fd);
    }
  }

  lemma FailingRecvEndsRun(c: Config, s: Server, l: Label, fd: int)
    requires Shape(c, s) && Foreign(c, fd) && TurnOf(c, s, l, fd) && Proper(l.input) && l.input.recvFails
    ensures !Step(c, s, l).Running?
  {
  }

  lemma EventOfOtherTurn(c: Config, s: Server, l: Label, fd: int)
    requires Inv(c, s) && HasClient(s, fd) && (l.Iterate? ==> Proper(l.input)) && FreshAccept(c, s, l)
    requires !TurnOf(c, s, l, fd) && Step(c, s, l).Running?
    ensures var ev := ActedOn(c, s, l);
            ev.Said? || ev.Connect? || ev.Leave? ==> ev.fd != fd
  {
  }

  lemma PeerKept(b: B.Broker, ev: B.Event, fd: int)
    requires fd in b.peers && (ev.Said? || ev.Connect? || ev.Leave? ==> ev.fd != fd)
    ensures fd in B.Step(b, ev).peers && B.Step(b, ev).peers[fd] == b.peers[fd]
  {
  }

  /** A turn of anyone else, whatever they send, leaves the client connected and its state and id alone. */
  lemma OthersLeaveItAlone(c: Config, s: Server, b: B.Broker, l: Label, fd: int)
    requires Inv(c, s) && Refines(s, b) && HasClient(s, fd) && !TurnOf(c, s, l, fd)
    requires (l.Iterate? ==> Proper(l.input)) && FreshAccept(c, s, l)
    ensures var o := Step(c, s, l);
            o.Running? ==> HasClient(o.server, fd) && PeerOf(ClientOf(o.server, fd)) == PeerOf(ClientOf(s, fd))
  {
    var o := Step(c, s, l);
    if o.Running? {
      ActedOnRefines(c, s, b, l);
      EventOfOtherTurn(c, s, l, fd);
      PeerIs(s, b, fd);
      PeerIs(o.server, B.Step(b, ActedOn(c, s, l)), fd);
      PeerKept(b, ActedOn(c, s, l), fd);
    }
  }

  /** A client that was new is a member under the id of its NEW message. */
  function PeerAfter(peer: B.Peer, ms: seq<seq<Byte>>): B.Peer {
    if peer.Fresh? && ms != [] && Acts(New, ms[0]) then B.Member(CString(ms[0][1..])) else peer
  }

  lemma PeerSaid(b: B.Broker, ev: B.Event, fd: int, now: seq<seq<Byte>>)
    requires fd in b.peers && fd in B.Step(b, ev).peers && (now != [] ==> |now[0]| == CTOS_LEN)
    requires if now != [] then ev == B.Said(fd, Meaning(now[0])) else !ev.Said? && !ev.Connect?
    ensures B.Step(b, ev).peers[fd] == PeerAfter(b.peers[fd], now)
  {
  }

  /** For a new client that is not refused, two messages have the same effect exactly if it is the same
      peer after either. */
  lemma SameEffectSamePeer(s: Server, fd: int, read: seq<Byte>, heard: seq<Byte>)
    requires HasClient(s, fd) && StateOf(s, fd).New? && |read| == CTOS_LEN == |heard|
    requires !EffectAt(s, IndexByFd(s.clients, fd), read).Ends?
    ensures var k := IndexByFd(s.clients, fd);
            PeerAfter(B.Fresh, [read]) == PeerAfter(B.Fresh, [heard]) <==> EffectAt(s, k, read) == EffectAt(s, k, heard)
  {
  }

  lemma PeerAfterTurn(c: Config, s: Server, b: B.Broker, l: Label, fd: int)
    requires Inv(c, s) && Refines(s, b) && TurnOf(c, s, l, fd) && Proper(l.input) && FreshAccept(c, s, l)
    ensures var o, read := Step(c, s, l), ReadNow(c, s, l, fd);
            o.Running? && HasClient(o.server, fd) ==>
              && PeerOf(ClientOf(o.server, fd)) == PeerAfter(PeerOf(ClientOf(s, fd)), read)
              && (read != [] ==> !EffectAt(s, IndexByFd(s.clients, fd), read[0]).Ends?)
  {
    var o, ev := Step(c, s, l), ActedOn(c, s, l);
    if o.Running? && HasClient(o.server, fd) {
      ActedOnRefines(c, s, b, l);
      PeerIs(s, b, fd);
      PeerIs(o.server, B.Step(b, ev), fd);
      ActedOnOwnTurn(c, s, l, fd);
      var read := ReadNow(c, s, l, fd);
      PeerSaid(b, ev, fd, read);
      if read != [] {
        EffectIs(c, s, b, fd, read[0]);
        B.PeersAfter(b, fd, Meaning(read[0]));
      }
    }
  }

  /** Only the connection's own messages, as its packets carry them, change its state and its id,
      however many others come and go: exactly if nothing is mixed into them while the client is new. */
  lemma OwnMessagesOnly(c: Config, s: Server, b: B.Broker, l: Label, fd: int)
    requires Inv(c, s) && Refines(s, b) && HasClient(s, fd)
    requires (l.Iterate? ==> Proper(l.input)) && FreshAccept(c, s, l)
    ensures var o, now := Step(c, s, l), HeardNow(Seen(c, s, l, fd));
            o.Running? && HasClient(o.server, fd) ==>
              (PeerOf(ClientOf(o.server, fd)) == PeerAfter(PeerOf(ClientOf(s, fd)), now)
               <==> (TurnOf(c, s, l, fd) && StateOf(s, fd).New? ==> Unmixed(c, s, l)))
  {
    var o := Step(c, s, l);
    if !TurnOf(c, s, l, fd) {
      OthersLeaveItAlone(c, s, b, l, fd);
    } else if o.Running? && HasClient(o.server, fd) {
      PeerAfterTurn(c, s, b, l, fd);
      ActedOnOwnTurn(c, s, l, fd);
      var read, heard := ReadNow(c, s, l, fd), HeardNow(Seen(c, s, l, fd));
      if read != [] && StateOf(s, fd).New? {
        SameEffectSamePeer(s, fd, read[0], heard[0]);
      }
    }
  }

  lemma WholeTurnIsUnmixed(c: Config, s: Server, l: Label, fd: int)
    requires Inv(c, s) && TurnOf(c, s, l, fd) && Proper(l.input) && Step(c, s, l).Running?
    requires c.edition.Repaired? || Whole(Seen(c, s, l, fd))
    ensures Unmixed(c, s, l)
  {
    if Hears(c, s, l) {
      OwnMessageIff(c.edition, Padded(l.input.received));
      if l.input.recvFails {
        FailingRecvEndsRun(c, s, l, fd);
      }
    }
  }

  lemma StateFollows(c: Config, s: Server, b: B.Broker, l: Label, fd: int)
    requires Inv(c, s) && Refines(s, b) && HasClient(s, fd)
    requires (l.Iterate? ==> Proper(l.input)) && FreshAccept(c, s, l)
    requires c.edition.Repaired? || Whole(Seen(c, s, l, fd))
    ensures var o := Step(c, s, l);
            o.Running? && HasClient(o.server, fd) ==>
              StateOf(o.server, fd) == StateAfter(StateOf(s, fd), HeardNow(Seen(c, s, l, fd)))
  {
    OwnMessagesOnly(c, s, b, l, fd);
    if TurnOf(c, s, l, fd) && Step(c, s, l).Running? {
      WholeTurnIsUnmixed(c, s, l, fd);
    }
  }

  /** Each state in the view follows from the one before by the message heard. */
  predicate Chained(state: ClientState, view: seq<Glimpse>)
    decreases |view|
  {
    view == [] || (view[0].state == state && Chained(StateAfter(state, HeardNow(view[0])), view[1..]))
  }

  lemma {:induction false} ViewIsChained(c: Config, s: Server, b: B.Broker, ls: seq<Label>, fd: int)
    requires Inv(c, s) && Refines(s, b) && HasClient(s, fd) && ProperRun(ls) && FreshRun(c, s, ls)
    requires c.edition.Repaired? || forall i :: 0 <= i < |View(c, s, ls, fd)| ==> Whole(View(c, s, ls, fd)[i])
    ensures Chained(StateOf(s, fd), View(c, s, ls, fd))
    decreases |ls|
  {
    if ls != [] {
      var o, view := Step(c, s, ls[0]), View(c, s, ls, fd);
      if o.Running? && HasClient(o.server, fd) {
        assert Whole(view[0]) || c.edition.Repaired?;
        var rest := View(c, o.server, ls[1..], fd);
        assert forall i :: 0 <= i < |rest| ==> rest[i] == view[i + 1];
        StepInv(c, s, ls[0]);
        ActedOnRefines(c, s, b, ls[0]);
        StateFollows(c, s, b, ls[0], fd);
        ViewIsChained(c, o.server, B.Step(b, ActedOn(c, s, ls[0])), ls[1..], fd);
      }
    }
  }

  lemma {:induction false} ChainedIsGated(state: ClientState, view: seq<Glimpse>)
    requires Chained(state, view)
    ensures Acted(view) == Gate(state, Heard(view))
    decreases |view|
  {
    if view != [] {
      var now := HeardNow(view[0]);
      ChainedIsGated(StateAfter(state, now), view[1..]);
      assert now != [] ==> (now + Heard(view[1..]))[1..] == Heard(view[1..]);
      assert now == [] ==> now + Heard(view[1..]) == Heard(view[1..]);
    }
  }

  predicate Says(m: seq<Byte>, kind: Byte) {
    m != [] && m[0] == kind
  }

  predicate Requests(ms: seq<seq<Byte>>) {
    ms == [] || ((Says(ms[0], MSG_SUBSCRIBE) || Says(ms[0], MSG_UNSUBSCRIBE)) && Requests(ms[1..]))
  }

  /** NEW first, and subscriptions and unsubscriptions after that. */
  predicate StartsWithNew(ms: seq<seq<Byte>>) {
    ms == [] || (Says(ms[0], MSG_NEW) && Requests(ms[1..]))
  }

  lemma {:induction false} GateOpensWithNew(state: ClientState, ms: seq<seq<Byte>>)
    ensures if state.New? then StartsWithNew(Gate(state, ms)) else Requests(Gate(state, ms))
    decreases |ms|
  {
    if ms != [] {
      var rest := Gate(StateAfter(state, ms), ms[1..]);
      GateOpensWithNew(StateAfter(state, ms), ms[1..]);
      assert ([ms[0]] + rest)[1..] == rest;
      assert [] + rest == rest;
    }
  }

  lemma GatedInOrder(view: seq<Glimpse>, stream: seq<Byte>, ms: seq<Composed>)
    requires Chained(New, view) && Carries(stream, ms) && Reads(view, stream)
    ensures |Heard(view)| <= |ms|
    ensures Acted(view) == Gate(New, Arrived(ms)[..|Heard(view)|])
    ensures HearsOut(view) ==> Acted(view) == Gate(New, Arrived(ms))
    ensures StartsWithNew(Acted(view))
  {
    ChainedIsGated(New, view);
    HeardInOrder(view, stream, ms);
    assert Heard(view) == Arrived(ms)[..|Heard(view)|];
    GateOpensWithNew(New, Heard(view));
  }

  /** The messages a server acts on, on a connection it has just accepted: in any run, the ones among a
      prefix of those the client composed that pass the gate, in their order; NEW comes first. */
  lemma ActedInOrder(c: Config, s: Server, b: B.Broker, ls: seq<Label>, fd: int, stream: seq<Byte>, ms: seq<Composed>)
    requires Inv(c, s) && Refines(s, b) && HasClient(s, fd) && StateOf(s, fd).New?
    requires ProperRun(ls) && FreshRun(c, s, ls)
    requires Carries(stream, ms) && Reads(View(c, s, ls, fd), stream)
    ensures var view := View(c, s, ls, fd);
            && |Heard(view)| <= |ms|
            && Acted(view) == Gate(New, Arrived(ms)[..|Heard(view)|])
            && (HearsOut(view) ==> Acted(view) == Gate(New, Arrived(ms)))
            && StartsWithNew(Acted(view))
  {
    ReadsWhole(View(c, s, ls, fd), stream, ms);
    ViewIsChained(c, s, b, ls, fd);
    GatedInOrder(View(c, s, ls, fd), stream, ms);
  }
}
