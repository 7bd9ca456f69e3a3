/** The broker without lists, tables and cursors: who is connected, and how many times each id is
    subscribed to each topic. */
module Broker {
  import opened Base

  datatype Peer = Fresh | Member(id: Str)

  datatype Broker = Broker(peers: map<int, Peer>, counts: map<(Str, Str), nat>)

  datatype Message = Hello(id: Str) | Subscribe(topic: Str) | Unsubscribe(topic: Str) | Other

  datatype Event =
    | Connect(fd: int)
    | Leave(fd: int)
    | Said(fd: int, message: Message)
    | Publish(topic: Str, packet: seq<Byte>)
    | Nothing

  function Count(b: Broker, topic: Str, id: Str): nat {
    if (topic, id) in b.counts then b.counts[(topic, id)] else 0
  }

  ghost predicate Taken(b: Broker, id: Str) {
    exists fd :: fd in b.peers && b.peers[fd] == Member(id)
  }

  /** Only the first accepted message may be Hello, and only a member is heard otherwise. A refused
      Hello ends the connection that said it and nothing else. */
  ghost function Hear(b: Broker, fd: int, m: Message): Broker
    requires fd in b.peers
  {
    match b.peers[fd]
    case Fresh =>
      if !m.Hello? then b
      else if m.id == [] || Taken(b, m.id) then b.(peers := b.peers - {fd})
      else b.(peers := b.peers[fd := Member(m.id)])
    case Member(id) =>
      match m
      case Subscribe(t) => b.(counts := b.counts[(t, id) := Count(b, t, id) + 1])
      case Unsubscribe(t) =>
        var n := Count(b, t, id);
        if n == 0 then b else b.(counts := b.counts[(t, id) := n - 1])
      case _ => b
  }

  ghost function Step(b: Broker, e: Event): Broker {
    match e
    case Connect(fd) => b.(peers := b.peers[fd := Fresh])
    case Leave(fd) => b.(peers := b.peers - {fd})
    case Said(fd, m) => if fd in b.peers then Hear(b, fd, m) else b
    case Publish(_, _) => b
    case Nothing => b
  }

  /** What a message does to the broker. */
  datatype Effect = Ignored | Joins(id: Str) | Ends | Adds(topic: Str) | Drops(topic: Str)

  ghost function EffectOf(b: Broker, fd: int, m: Message): Effect
    requires fd in b.peers
  {
    match b.peers[fd]
    case Fresh =>
      if !m.Hello? then Ignored else if m.id == [] || Taken(b, m.id) then Ends else Joins(m.id)
    case Member(id) =>
      match m
      case Subscribe(t) => Adds(t)
      case Unsubscribe(t) => if Count(b, t, id) == 0 then Ignored else Drops(t)
      case _ => Ignored
  }

  /** No difference between two brokers can be observed. */
  ghost predicate Alike(a: Broker, b: Broker) {
    a.peers == b.peers && forall topic, id :: Count(a, topic, id) == Count(b, topic, id)
  }

  lemma CountAfter(b: Broker, fd: int, m: Message, topic: Str, id: Str)
    requires fd in b.peers
    ensures var e, me := EffectOf(b, fd, m), b.peers[fd] == Member(id);
            Count(Hear(b, fd, m), topic, id)
            == Count(b, topic, id) + if me && e == Adds(topic) then 1 else if me && e == Drops(topic) then -1 else 0
  {
  }

  /** What became of the peer of fd tells what a message did to it. */
  lemma PeersAfter(b: Broker, fd: int, m: Message)
    requires fd in b.peers
    ensures var (e, peers) := (EffectOf(b, fd, m), Hear(b, fd, m).peers);
            && peers - {fd} == b.peers - {fd}
            && (fd in peers <==> !e.Ends?)
            && (fd in peers ==> peers[fd] == if e.Joins? then Member(e.id) else b.peers[fd])
  {
  }

  /** Two messages leave the broker alike exactly when they have the same effect. */
  lemma AlikeIffSameEffect(b: Broker, fd: int, m1: Message, m2: Message)
    requires fd in b.peers
    ensures Alike(Step(b, Said(fd, m1)), Step(b, Said(fd, m2))) <==> EffectOf(b, fd, m1) == EffectOf(b, fd, m2)
  {
    PeersAfter(b, fd, m1);
    PeersAfter(b, fd, m2);
    var (b1, b2) := (Hear(b, fd, m1), Hear(b, fd, m2));
    var (e1, e2) := (EffectOf(b, fd, m1), EffectOf(b, fd, m2));
    if e1 == e2 {
      SamePeers(b1, b2, fd);
      forall topic, id
        ensures Count(b1, topic, id) == Count(b2, topic, id)
      {
        CountAfter(b, fd, m1, topic, id);
        CountAfter(b, fd, m2, topic, id);
      }
    } else if b.peers[fd].Member? {
      var e := if e1.Ignored? then e2 else e1;
      CountAfter(b, fd, m1, e.topic, b.peers[fd].id);
      CountAfter(b, fd, m2, e.topic, b.peers[fd].id);
    }
  }

  lemma SamePeers(b1: Broker, b2: Broker, fd: int)
    requires b1.peers - {fd} == b2.peers - {fd} && (fd in b1.peers <==> fd in b2.peers)
    requires fd in b1.peers ==> b1.peers[fd] == b2.peers[fd]
    ensures b1.peers == b2.peers
  {
    forall other
      ensures other in b1.peers <==> other in b2.peers
      ensures other in b1.peers ==> b1.peers[other] == b2.peers[other]
    {
      assert other in b1.peers - {fd} <==> other in b1.peers && other != fd;
      assert other in b2.peers - {fd} <==> other in b2.peers && other != fd;
    }
  }

  lemma MemberSubscribes(b: Broker, fd: int, id: Str, topic: Str)
    requires fd in b.peers && b.peers[fd] == Member(id)
    ensures Step(b, Said(fd, Subscribe(topic)))
            == b.(counts := b.counts[(topic, id) := Count(b, topic, id) + 1])
  {
  }

  lemma MemberUnsubscribes(b: Broker, fd: int, id: Str, topic: Str)
    requires fd in b.peers && b.peers[fd] == Member(id)
    ensures Step(b, Said(fd, Unsubscribe(topic)))
            == if Count(b, topic, id) == 0 then b else b.(counts := b.counts[(topic, id) := Count(b, topic, id) - 1])
  {
  }

  /** How many copies of a datagram on topic go out on fd. */
  function Copies(b: Broker, topic: Str, fd: int): nat {
    if fd in b.peers && b.peers[fd].Member? then Count(b, topic, b.peers[fd].id) else 0
  }

  function Due(b: Broker, e: Event, fd: int, packet: seq<Byte>): nat {
    if e.Publish? && e.packet == packet then Copies(b, e.topic, fd) else 0
  }

  ghost function Run(b: Broker, es: seq<Event>): Broker
    decreases |es|
  {
    if es == [] then b else Run(Step(b, es[0]), es[1..])
  }

  /** How often packet is due on fd over a whole run. */
  ghost function DueOver(b: Broker, es: seq<Event>, fd: int, packet: seq<Byte>): nat
    decreases |es|
  {
    if es == [] then 0 else Due(b, es[0], fd, packet) + DueOver(Step(b, es[0]), es[1..], fd, packet)
  }

  /** A subscription change: the events that may touch the counts. */
  predicate ChangesCounts(e: Event) {
    e.Said? && (e.message.Subscribe? || e.message.Unsubscribe?)
  }

  /** Counts survive any run of connecting, disconnecting, reconnecting and publishing. */
  lemma {:induction false} CountsSurvive(b: Broker, es: seq<Event>)
    requires forall i :: 0 <= i < |es| ==> !ChangesCounts(es[i])
    ensures Run(b, es).counts == b.counts
    decreases |es|
  {
    if es != [] {
      assert !ChangesCounts(es[0]);
      assert Step(b, es[0]).counts == b.counts;
      CountsSurvive(Step(b, es[0]), es[1..]);
    }
  }

  /** n after a list of changes, each +1 (true) or, saturating, -1 (false). */
  function Tally(n: nat, changes: seq<bool>): nat
    decreases |changes|
  {
    if changes == [] then n
    else Tally(if changes[0] then n + 1 else if n == 0 then 0 else n - 1, changes[1..])
  }

  /** The change an event makes to the subscription of id to topic: +1 (true), -1 (false) or none. */
  function Change(b: Broker, e: Event, topic: Str, id: Str): seq<bool> {
    if !(e.Said? && e.fd in b.peers && b.peers[e.fd] == Member(id)) then []
    else if e.message == Subscribe(topic) then [true]
    else if e.message == Unsubscribe(topic) then [false]
    else []
  }

  ghost function Changes(b: Broker, es: seq<Event>, topic: Str, id: Str): seq<bool>
    decreases |es|
  {
    if es == [] then [] else Change(b, es[0], topic, id) + Changes(Step(b, es[0]), es[1..], topic, id)
  }

  lemma TallyStep(b: Broker, e: Event, topic: Str, id: Str)
    ensures Count(Step(b, e), topic, id) == Tally(Count(b, topic, id), Change(b, e, topic, id))
  {
  }

  /** Every count is the saturating sum of what members of that id said about that topic. */
  lemma {:induction false} CountIsTally(b: Broker, es: seq<Event>, topic: Str, id: Str)
    ensures Count(Run(b, es), topic, id) == Tally(Count(b, topic, id), Changes(b, es, topic, id))
    decreases |es|
  {
    if es != [] {
      TallyStep(b, es[0], topic, id);
      CountIsTally(Step(b, es[0]), es[1..], topic, id);
      TallyConcat(Count(b, topic, id), Change(b, es[0], topic, id), Changes(Step(b, es[0]), es[1..], topic, id));
    }
  }

  lemma {:induction false} TallyConcat(n: nat, xs: seq<bool>, ys: seq<bool>)
    ensures Tally(n, xs + ys) == Tally(Tally(n, xs), ys)
    decreases |xs|
  {
    if xs == [] {
      assert xs + ys == ys;
    } else {
      assert (xs + ys)[1..] == xs[1..] + ys;
      TallyConcat(if xs[0] then n + 1 else if n == 0 then 0 else n - 1, xs[1..], ys);
    }
  }

  /** Whoever is connected under id after such a run, on whatever descriptor, gets exactly what the
      subscriptions made under that id before the run imply. */
  lemma Reconnected(b: Broker, es: seq<Event>, fd: int, id: Str, topic: Str)
    requires forall i :: 0 <= i < |es| ==> !ChangesCounts(es[i])
    requires fd in Run(b, es).peers && Run(b, es).peers[fd] == Member(id)
    ensures Copies(Run(b, es), topic, fd) == Count(b, topic, id)
  {
    CountsSurvive(b, es);
  }

  // ---- messages that are said twice

  /** The same events, with everything clients say said twice in a row. */
  function SaidTwice(es: seq<Event>): seq<Event> {
    if es == [] then []
    else (if es[0].Said? then [es[0], es[0]] else [es[0]]) + SaidTwice(es[1..])
  }

  /** The same peers, with twice the subscriptions. */
  ghost predicate Doubles(a: Broker, b: Broker) {
    a.peers == b.peers && forall topic, id :: Count(a, topic, id) == 2 * Count(b, topic, id)
  }

  lemma HearTwice(a: Broker, b: Broker, fd: int, m: Message)
    requires Doubles(a, b) && fd in b.peers
    ensures Doubles(Step(Step(a, Said(fd, m)), Said(fd, m)), Step(b, Said(fd, m)))
  {
    var a' := Step(a, Said(fd, m));
    var b' := Step(b, Said(fd, m));
    forall topic, id
      ensures Count(Step(a', Said(fd, m)), topic, id) == 2 * Count(b', topic, id)
    {
      assert Count(a, topic, id) == 2 * Count(b, topic, id);
      TallyStep(a, Said(fd, m), topic, id);
      TallyStep(a', Said(fd, m), topic, id);
      TallyStep(b, Said(fd, m), topic, id);
    }
  }

  lemma StepTwice(a: Broker, b: Broker, e: Event)
    requires Doubles(a, b)
    ensures Doubles(if e.Said? then Step(Step(a, e), e) else Step(a, e), Step(b, e))
  {
    if e.Said? && e.fd in b.peers {
      HearTwice(a, b, e.fd, e.message);
    } else {
      forall topic, id
        ensures Count(Step(a, e), topic, id) == Count(a, topic, id)
        ensures Count(Step(b, e), topic, id) == Count(b, topic, id)
      {
      }
    }
  }

  /** A Hello said twice is one; but every subscription and unsubscription then counts twice, and so
      every datagram is due twice as often, on every descriptor. */
  lemma {:induction false} TwiceSaidIsTwiceDue(a: Broker, b: Broker, es: seq<Event>, fd: int, packet: seq<Byte>)
    requires Doubles(a, b)
    ensures Doubles(Run(a, SaidTwice(es)), Run(b, es))
    ensures DueOver(a, SaidTwice(es), fd, packet) == 2 * DueOver(b, es, fd, packet)
    decreases |es|
  {
    if es != [] {
      var e, rest, twice := es[0], SaidTwice(es[1..]), SaidTwice(es);
      StepTwice(a, b, e);
      if e.Said? {
        assert twice[1..] == [e] + rest && twice[1..][1..] == rest;
        TwiceSaidIsTwiceDue(Step(Step(a, e), e), Step(b, e), es[1..], fd, packet);
      } else {
        assert twice[1..] == rest;
        TwiceSaidIsTwiceDue(Step(a, e), Step(b, e), es[1..], fd, packet);
      }
    }
  }
}
