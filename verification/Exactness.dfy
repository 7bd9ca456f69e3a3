/** When exactly a step of the event loop does what the broker asks for: for the repaired code,
    whenever the operating system and the peer behave; for the code as written, only under the
    guards below. */
module Exactness {
  import opened Base
  import opened Clients
  import opened Subscriptions
  import opened Pollers
  import opened Packets
  import opened Payloads
  import opened ServerModel
  import opened Invariant
  import opened Refinement
  import B = Broker

  /** The step stays within defined behaviour, takes the broker's step and hands out what is due. */
  ghost predicate Meets(c: Config, s: Server, b: B.Broker, l: Label)
    requires Shape(c, s) && (l.Iterate? ==> Proper(l.input))
  {
    var o, ev := Step(c, s, l), EventOf(c, s, l);
    o.Running? && Refines(o.server, B.Step(b, ev)) && Delivers(b, ev, o.out)
  }

  /** The message fits the buffers its strings are copied to: a NEW message names an id of at most 9
      bytes; a subscription is terminated and names a topic, of at most 49 bytes. */
  predicate MessageFits(state: ClientState, m: seq<Byte>)
    requires |m| == CTOS_LEN
  {
    if state.New? then m[0] == MSG_NEW ==> |CString(m[1..])| < ID_MAXLEN
    else m[0] == MSG_SUBSCRIBE ==> Scan(m[1..]).Scanned? && Scan(m[1..]).topic.Some?
  }

  /** What the code, in either edition, asks of its environment. The word typed fits its buffer and is
      not exit; accept and recv succeed; a packet does not claim to be longer than a client message,
      and its strings fit. */
  ghost predicate Healthy(c: Config, s: Server, l: Label)
    requires Shape(c, s) && (l.Iterate? ==> Proper(l.input))
  {
    l.Iterate? ==>
      var (fd, e) := (NextFd(s.table).0, l.input);
      if fd == -1 || fd == c.udpFd then true
      else if fd == STDIN then
        match e.command
        case None => !e.junkExit
        case Some(word) => |word| < CMD_MAXLEN && word != EXIT
      else if fd == c.tcpFd then 0 <= e.accepted
      else
        var k := IndexByFd(s.clients, fd);
        && !e.recvFails
        && (e.received != [] ==>
              && Storable(Padded(e.received))
              && (0 <= k ==> MessageFits(s.clients[k].state, MessageOf(Padded(e.received)))))
  }

  /** A client that can be taken out of the list: its head, or one with a successor. */
  predicate Removable(size: nat, k: nat) {
    k == 0 || k + 1 < size
  }

  /** The message ends the connection: the first one, NEW, with an id that is empty or in use. */
  predicate Refused(s: Server, k: nat, m: seq<Byte>)
    requires k < |s.clients| && |m| == CTOS_LEN
  {
    s.clients[k].state.New? && m[0] == MSG_NEW && 0 <= IndexById(s.clients, CString(m[1..]))
  }

  predicate SubRemovable(s: Server, k: nat, m: seq<Byte>)
    requires k < |s.clients| && |m| == CTOS_LEN
  {
    s.clients[k].state.Connected? && m[0] == MSG_UNSUBSCRIBE ==>
      var j := IndexOfSub(s.subs, CString(m[1..]), s.clients[k].id);
      j < 0 || Removable(|s.subs|, j)
  }

  /** No client of the list, connected under the id of a subscription, waits for the topic. */
  ghost predicate NobodyWaits(s: Server, topic: Str) {
    forall j :: 0 <= j < |s.subs| && s.subs[j].topic == topic ==> IndexById(s.clients, s.subs[j].id) < 0
  }

  /** What acting on recvMsg asks for in the code as written: it has the effect of the message that the
      packet carries, its strings fit, and what it removes is a head or has a successor. */
  ghost predicate Tame(c: Config, s: Server, l: Label, k: nat, m: seq<Byte>)
    requires Shape(c, s) && (l.Iterate? ==> Proper(l.input)) && k < |s.clients| && |m| == CTOS_LEN
  {
    && Unmixed(c, s, l)
    && MessageFits(s.clients[k].state, m)
    && (Refused(s, k, m) ==> Removable(|s.clients|, k))
    && SubRemovable(s, k, m)
  }

  /** The guards of the steps that go wrong in the code as written. The clause on junkRc speaks of one
      value of an indeterminate variable: to read rc when nothing was sent is not defined at all. */
  ghost predicate Guarded(c: Config, s: Server, l: Label)
    requires Shape(c, s) && (l.Iterate? ==> Proper(l.input))
  {
    l.Iterate? ==>
      var (fd, e) := (NextFd(s.table).0, l.input);
      if fd == -1 || fd == STDIN then true
      else if fd == c.udpFd then 0 <= e.junkRc && NobodyWaits(s, TopicOf(e.datagram))
      else if fd == c.tcpFd then s.table.num < MAX_CONNECTIONS
      else
        var k := IndexByFd(s.clients, fd);
        0 <= k &&
        if e.received == [] then Removable(|s.clients|, k)
        else
          var packet := Padded(e.received);
          Storable(packet) ==> Tame(c, s, l, k, StoredMessage(c.edition, s.recvMsg, packet))
  }

  lemma HandleRuns(c: Config, s: Server, fd: int, e: Input)
    requires Inv(c, s) && 0 <= IndexByFd(s.clients, fd)
    ensures var k := IndexByFd(s.clients, fd);
            HandleMessage(c, s, fd, e).Running? <==>
            && MessageFits(s.clients[k].state, s.recvMsg)
            && (c.edition.Repaired?
                || ((Refused(s, k, s.recvMsg) ==> Removable(|s.clients|, k)) && SubRemovable(s, k, s.recvMsg)))
  {
  }

  /** If the message read fits, and has the effect of the one said, that one fits too. */
  lemma ReadFitsSaidFits(s: Server, k: nat, edition: Edition, previous: seq<Byte>, packet: seq<Byte>)
    requires k < |s.clients| && |previous| == CTOS_LEN && |packet| == PACKET_MAXLEN && Storable(packet)
    requires MessageFits(s.clients[k].state, StoredMessage(edition, previous, packet))
    requires EffectAt(s, k, StoredMessage(edition, previous, packet)) == EffectAt(s, k, MessageOf(packet))
    ensures MessageFits(s.clients[k].state, MessageOf(packet))
  {
    SaidIsRead(edition, previous, packet);
    var m := MessageOf(packet);
    if FromLe16(packet[..2]) == 0 {
      assert m[0] == 0;
      assert CString(m[1..]) == [];
    } else {
      assert m[0] == packet[2] == StoredMessage(edition, previous, packet)[0];
    }
  }

  /** The turn of a client stays within defined behaviour. */
  ghost predicate ClientRuns(c: Config, s: Server, k: nat, e: Input)
    requires Shape(c, s) && Proper(e) && k < |s.clients|
  {
    && !e.recvFails
    && (e.received == [] ==> c.edition.Repaired? || Removable(|s.clients|, k))
    && (e.received != [] ==>
          && Storable(Padded(e.received))
          && var m := StoredMessage(c.edition, s.recvMsg, Padded(e.received));
             && MessageFits(s.clients[k].state, m)
             && (c.edition.Repaired? || ((Refused(s, k, m) ==> Removable(|s.clients|, k)) && SubRemovable(s, k, m))))
  }

  lemma ClientTurnRuns(c: Config, s: Server, e: Input)
    requires Inv(c, s) && Proper(e) && ClientTurn(c, s)
    ensures var k := IndexByFd(s.clients, NextFd(s.table).0);
            0 <= k && (Serve(c, s, e).Running? <==> ClientRuns(c, s, k, e))
  {
    NextIsKnown(c, s);
    var (fd, t) := NextFd(s.table);
    var s' := s.(table := t);
    assert Serve(c, s, e) == ServeClient(c, s', fd, e);
    if e.received != [] && Storable(Padded(e.received)) {
      HandleRuns(c, s'.(recvMsg := StoredMessage(c.edition, s.recvMsg, Padded(e.received))), fd, e);
    }
  }

  /** The turn of a client does what its packet says exactly when it is healthy and, as written, its
      guard holds. */
  lemma ClientTurnIff(c: Config, s: Server, e: Input)
    requires Inv(c, s) && Proper(e) && ClientTurn(c, s)
    ensures Serve(c, s, e).Running? && Unmixed(c, s, Iterate(e))
            <==> Healthy(c, s, Iterate(e)) && (c.edition.Repaired? || Guarded(c, s, Iterate(e)))
  {
    ClientTurnRuns(c, s, e);
    var k, packet := IndexByFd(s.clients, NextFd(s.table).0), Padded(e.received);
    if Serve(c, s, e).Running? && Unmixed(c, s, Iterate(e)) && e.received != [] {
      ReadFitsSaidFits(s, k, c.edition, s.recvMsg, packet);
    }
  }

  lemma AsWrittenPassIsEmpty(c: Config, s: Server, topic: Str, packet: seq<Byte>)
    requires c.edition.AsWritten? && Shape(c, s)
    ensures Pass(c.edition, s.clients, s.subs[s.pos..], topic, packet) == Sent([])
  {
    assert s.subs[s.pos..] == [];
  }

  lemma {:induction false} OwnTurnRuns(c: Config, s: Server, e: Input)
    requires Inv(c, s) && Proper(e) && !ClientTurn(c, s)
    ensures var o := Step(c, s, Iterate(e));
            o.Running? <==>
            Healthy(c, s, Iterate(e))
            && (c.edition.Repaired?
                || ((NextFd(s.table).0 == c.udpFd ==> 0 <= e.junkRc)
                    && (NextFd(s.table).0 == c.tcpFd ==> s.table.num < MAX_CONNECTIONS)))
  {
    NextIsKnown(c, s);
    var (fd, t) := NextFd(s.table);
    var s' := s.(table := t);
    if fd == c.udpFd {
      if c.edition.AsWritten? {
        AsWrittenPassIsEmpty(c, s', TopicOf(e.datagram), PacketFor(e));
      } else {
        RepairedPassIsSent(s.clients, s.subs[0..], TopicOf(e.datagram), PacketFor(e));
      }
    }
  }

  /** How an iteration ends that does not go on: it finds nothing exactly when the iterator has come to its
      end; the program exits exactly on the word exit; it dies exactly when accept or recv fails, or, as
      written, rc happens to be negative. Among the turns of the server's own descriptors, defined behaviour
      is left exactly by a word of 5 bytes or more and, as written, by an accept into a full table. */
  lemma EndsIff(c: Config, s: Server, e: Input)
    requires Inv(c, s) && Proper(e)
    ensures var (o, fd) := (Serve(c, s, e), NextFd(s.table).0);
            && (o.Idle? <==> fd == -1)
            && (o.Exited? <==> fd == STDIN && (if e.command.None? then e.junkExit
                                               else e.command.value == [101, 120, 105, 116]))
            && (o.Died? <==>
                  || (fd == c.tcpFd && e.accepted < 0)
                  || (ClientTurn(c, s) && e.recvFails)
                  || (fd == c.udpFd && c.edition.AsWritten? && e.junkRc < 0))
            && (!ClientTurn(c, s) ==>
                  (o.Fault? <==>
                    || (fd == STDIN && e.command.Some? && 5 <= |e.command.value|)
                    || (fd == c.tcpFd && c.edition.AsWritten? && 0 <= e.accepted && s.table.num == 1000)))
  {
    NextIsKnown(c, s);
    var s' := s.(table := NextFd(s.table).1);
    if NextFd(s.table).0 == c.udpFd {
      if c.edition.AsWritten? {
        AsWrittenPassIsEmpty(c, s', TopicOf(e.datagram), PacketFor(e));
      } else {
        RepairedPassIsSent(s.clients, s.subs[0..], TopicOf(e.datagram), PacketFor(e));
      }
    }
  }

  lemma NobodyIsDue(c: Config, s: Server, b: B.Broker, topic: Str, fd: int)
    requires Inv(c, s) && Refines(s, b) && NobodyWaits(s, topic)
    ensures B.Copies(b, topic, fd) == 0
  {
    var k := IndexByFd(s.clients, fd);
    CopiesAreHeld(c, s, b, topic, fd);
    if 0 <= k {
      HeldIfFound(s.subs, topic, s.clients[k].id);
    }
  }

  lemma SomebodyIsDue(c: Config, s: Server, b: B.Broker, topic: Str) returns (fd: int)
    requires Inv(c, s) && Refines(s, b) && !NobodyWaits(s, topic)
    ensures B.Copies(b, topic, fd) != 0
  {
    var j :| 0 <= j < |s.subs| && s.subs[j].topic == topic && 0 <= IndexById(s.clients, s.subs[j].id);
    var k := IndexById(s.clients, s.subs[j].id);
    fd := s.clients[k].fd;
    SlotOfClient(c, s.clients, s.table, k);
    CopiesAreHeld(c, s, b, topic, fd);
    HeldIfFound(s.subs, topic, s.clients[k].id);
  }

  /** Nothing is due for a topic exactly when nobody waits for it. */
  lemma NothingDue(c: Config, s: Server, b: B.Broker, topic: Str, packet: seq<Byte>)
    requires Inv(c, s) && Refines(s, b)
    ensures Delivers(b, B.Publish(topic, packet), []) <==> NobodyWaits(s, topic)
  {
    if NobodyWaits(s, topic) {
      forall fd
        ensures B.Copies(b, topic, fd) == 0
      {
        NobodyIsDue(c, s, b, topic, fd);
      }
    } else {
      var fd := SomebodyIsDue(c, s, b, topic);
      assert B.Due(b, B.Publish(topic, packet), fd, packet) != 0;
      var none: seq<Delivery> := [];
      assert multiset(none)[Delivery(fd, packet)] == 0;
    }
  }

  /** The repaired code does what the broker asks for exactly when its environment is healthy. */
  lemma RepairedMeetsIff(c: Config, s: Server, b: B.Broker, l: Label)
    requires c.edition.Repaired? && Inv(c, s) && Refines(s, b)
    requires (l.Iterate? ==> Proper(l.input)) && FreshAccept(c, s, l)
    ensures Meets(c, s, b, l) <==> Healthy(c, s, l)
  {
    StepRefines(c, s, b, l);
    RepairedDelivers(c, s, b, l);
    if l.Iterate? {
      if ClientTurn(c, s) {
        ClientTurnRefines(c, s, b, l.input);
        ClientTurnIff(c, s, l.input);
      } else {
        OwnTurnRuns(c, s, l.input);
      }
    }
  }

  lemma AsWrittenOutIsEmpty(c: Config, s: Server, l: Label)
    requires c.edition.AsWritten? && Inv(c, s)
    requires (l.Iterate? ==> Proper(l.input)) && FreshAccept(c, s, l)
    ensures Step(c, s, l).Running? ==> Step(c, s, l).out == []
  {
    if l.Iterate? {
      var e := l.input;
      NextIsKnown(c, s);
      var (fd, t) := NextFd(s.table);
      if fd == c.udpFd {
        AsWrittenPassIsEmpty(c, s.(table := t), TopicOf(e.datagram), PacketFor(e));
      }
    }
  }

  /** The code as written does what the broker asks for exactly when its environment is healthy and
      the guard of the step holds: no one waits for the topic of a datagram (and rc happens to be
      non-negative), the poll table has room for an accepted connection, whatever is removed from a
      list is its head or has a successor, and what an earlier message has left in recvMsg changes
      nothing of what a shorter one says. */
  lemma AsWrittenMeetsIff(c: Config, s: Server, b: B.Broker, l: Label)
    requires c.edition.AsWritten? && Inv(c, s) && Refines(s, b)
    requires (l.Iterate? ==> Proper(l.input)) && FreshAccept(c, s, l)
    ensures Meets(c, s, b, l) <==> Healthy(c, s, l) && Guarded(c, s, l)
  {
    StepRefines(c, s, b, l);
    AsWrittenOutIsEmpty(c, s, l);
    if l.Iterate? {
      if ClientTurn(c, s) {
        ClientTurnRefines(c, s, b, l.input);
        ClientTurnIff(c, s, l.input);
        assert !EventOf(c, s, l).Publish?;
      } else {
        OwnTurnRuns(c, s, l.input);
        NothingDue(c, s, b, TopicOf(l.input.datagram), PacketFor(l.input));
      }
    }
  }

  /** The code as written never hands out a packet, in any run. */
  lemma {:induction false} AsWrittenNeverDelivers(c: Config, s: Server, ls: seq<Label>)
    requires c.edition.AsWritten? && Inv(c, s) && ProperRun(ls) && FreshRun(c, s, ls)
    ensures Run(c, s, ls).Running? ==> Run(c, s, ls).out == []
    decreases |ls|
  {
    if ls != [] {
      StepInv(c, s, ls[0]);
      AsWrittenOutIsEmpty(c, s, ls[0]);
      if Step(c, s, ls[0]).Running? {
        AsWrittenNeverDelivers(c, Step(c, s, ls[0]).server, ls[1..]);
      }
    }
  }
}
