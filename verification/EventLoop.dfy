/** run_server of server.c: the nested loops over the poll table, on the heap. */
module EventLoop {
  import opened Base
  import opened Clients
  import opened Subscriptions
  import opened Pollers
  import opened Packets
  import opened Servers
  import M = ServerModel

  /** The header of a datagram's packet: its topic, and what it becomes on the wire. */
  lemma ComposedHeader(e: M.Input, header: seq<Byte>)
    requires M.Proper(e) && header == Header(ServerMessage(e.srcIp, e.srcPort, e.datagram))
    ensures FromLe16(header[..2]) <= HEADER_LEN
    ensures Wire(header) == M.PacketFor(e)
    ensures CString(header[8..8 + UDP_MSG_LEN]) == M.TopicOf(e.datagram)
  {
    var message := ServerMessage(e.srcIp, e.srcPort, e.datagram);
    Le16Prefix(message);
    assert header[2..2 + STOC_LEN] == message;
    assert header[8..8 + UDP_MSG_LEN] == header[2..2 + STOC_LEN][6..] == e.datagram;
  }

  /** A datagram: server_compose_msg and TCP_server_send_to_subscribers. */
  method ServeDatagram(server: TcpServer, e: M.Input) returns (status: Status)
    requires server.View().Some? && M.Proper(e)
    modifies server`sent, server.subs`current, server.subs`pos
    ensures server.Follows(M.SendToSubscribers(server.c, old(server.View().value), M.TopicOf(e.datagram),
                                               M.PacketFor(e), e.junkRc),
                           status, old(server.sent))
  {
    var header := ServerComposeMsg(e.srcIp, e.srcPort, e.datagram);
    ComposedHeader(e, header[..]);
    assert header[..2] == header[..][..2] && header[8..8 + UDP_MSG_LEN] == header[..][8..8 + UDP_MSG_LEN];
    status := server.SendToSubscribers(header, e.junkRc);
  }

  /** A command typed: a longer word overruns the buffer it is read into; exit is server_exit, which
      destroys both lists; any other changes nothing. */
  method Command(server: TcpServer, e: M.Input) returns (status: Status)
    requires server.View().Some?
    modifies server.clients, server.clients.Created, server.subs, server.subs.Created
    ensures server.clients.Created == old(server.clients.Created) && server.subs.Created == old(server.subs.Created)
    ensures status == StatusOf(M.Command(old(server.View().value), e))
    ensures status == Exit ==> server.TornDown()
    ensures status == Continue ==> server.View() == old(server.View())
  {
    if e.command.Some? && M.CMD_MAXLEN <= |e.command.value| {
      return Fault;
    }
    if e.command == Some(M.EXIT) || (e.command.None? && e.junkExit) {
      var _, _ := server.Destroy();
      return Exit;
    }
    return Continue;
  }

  /** The listening socket, or a client connection. */
  method ServeStream(server: TcpServer, fd: int, e: M.Input) returns (status: Status)
    requires server.View().Some? && M.Proper(e) && fd !in {-1, M.STDIN, server.c.udpFd}
    modifies server.clients, server.clients.Created, server.subs, server.subs.Created,
             server.poller, server.poller.pollfds, server.recvMsg
    ensures fresh(server.clients.Created - old(server.clients.Created))
    ensures fresh(server.subs.Created - old(server.subs.Created))
    ensures status != Exit
    ensures server.Follows(M.Dispatch(server.c, old(server.View().value), fd, e), status, old(server.sent))
  {
    if fd == server.c.tcpFd {
      status := server.AcceptConnection(e);
    } else {
      status := server.ServeClient(fd, e);
    }
  }

  /** A readable socket. */
  method ServeSocket(server: TcpServer, fd: int, e: M.Input) returns (status: Status)
    requires server.View().Some? && M.Proper(e) && fd != -1 && fd != M.STDIN
    modifies server`sent, server.clients, server.clients.Created, server.subs, server.subs.Created,
             server.poller, server.poller.pollfds, server.recvMsg
    ensures fresh(server.clients.Created - old(server.clients.Created))
    ensures fresh(server.subs.Created - old(server.subs.Created))
    ensures status != Exit
    ensures server.Follows(M.Dispatch(server.c, old(server.View().value), fd, e), status, old(server.sent))
  {
    if fd == server.c.udpFd {
      status := ServeDatagram(server, e);
    } else {
      status := ServeStream(server, fd, e);
    }
  }

  /** What the loop does with the descriptor the iterator returned. */
  method Dispatch(server: TcpServer, fd: int, e: M.Input) returns (status: Status)
    requires server.View().Some? && M.Proper(e)
    modifies server`sent, server.clients, server.clients.Created, server.subs, server.subs.Created,
             server.poller, server.poller.pollfds, server.recvMsg
    ensures fresh(server.clients.Created - old(server.clients.Created))
    ensures fresh(server.subs.Created - old(server.subs.Created))
    ensures status == Exit ==> server.TornDown()
    ensures server.Follows(M.Dispatch(server.c, old(server.View().value), fd, e), status, old(server.sent))
  {
    if fd == -1 {
      status := Idle;
    } else if fd == M.STDIN {
      status := Command(server, e);
    } else {
      status := ServeSocket(server, fd, e);
    }
  }

  /** One iteration of the inner loop. */
  method Serve(server: TcpServer, e: M.Input) returns (status: Status)
    requires server.View().Some? && M.Proper(e)
    modifies server`sent, server.clients, server.clients.Created, server.subs, server.subs.Created,
             server.poller, server.poller.pollfds, server.recvMsg
    ensures fresh(server.clients.Created - old(server.clients.Created))
    ensures fresh(server.subs.Created - old(server.subs.Created))
    ensures status == Exit ==> server.TornDown()
    ensures server.Follows(M.Serve(server.c, old(server.View().value), e), status, old(server.sent))
  {
    ghost var s := server.View().value;
    var fd := server.poller.NextFdWithPollin();
    assert server.recvMsg[..] == old(server.recvMsg[..]);
    assert server.View() == Some(s.(table := NextFd(s.table).1)) && fd == NextFd(s.table).0;
    status := Dispatch(server, fd, e);
  }

  /** A trace of the loops so far, t turns long. The status is that of its end; while the program runs,
      the objects stand for the state it ends in, and what was handed out before it began is followed
      by its output. */
  ghost predicate Traced(server: TcpServer, ready: nat -> set<int>, inputs: nat -> M.Input, trace: M.Trace, t: nat,
                         status: Status, was: seq<M.Delivery>)
    reads server, server.clients, server.clients.Created, server.subs, server.subs.Created,
          server.poller, server.poller.pollfds, server.recvMsg
  {
    var o := M.Ending(trace);
    && M.IsTrace(server.c, ready, inputs, trace) && |M.Labels(trace)| == t
    && status == StatusOf(o)
    && (M.GoesOn(o) ==> server.View() == Some(o.server) && server.sent == was + M.Output(trace))
  }

  /** poller_poll. */
  method StartRound(server: TcpServer, ready: set<int>)
    requires server.View().Some?
    modifies server.poller, server.poller.pollfds
    ensures server.View() == Some(M.StartRound(old(server.View().value), ready))
  {
    server.poller.Poll(ready);
    assert server.recvMsg[..] == old(server.recvMsg[..]);
  }

  /** The start of an iteration of the outer loop. */
  method PollTurn(server: TcpServer, ready: nat -> set<int>, inputs: nat -> M.Input, t: nat,
                  ghost before: M.Trace, ghost was: seq<M.Delivery>)
    returns (ghost trace: M.Trace)
    requires Traced(server, ready, inputs, before, t, Idle, was)
    modifies server.poller, server.poller.pollfds
    ensures M.StartOf(trace) == M.StartOf(before) && M.Polls(trace) == M.Polls(before) + 1
    ensures Traced(server, ready, inputs, trace, t + 1, Continue, was)
  {
    ghost var from := server.View().value;
    StartRound(server, ready(t));
    trace := M.After(before, M.Turn(from, M.Poll(ready(t)), M.Running(M.StartRound(from, ready(t)), [])));
  }

  lemma OutputGrows(was: seq<M.Delivery>, trace: M.Trace, u: M.Turn)
    ensures was + M.Output(M.After(trace, u)) == was + M.Output(trace) + M.Sends(u.outcome)
  {
  }

  /** An iteration of the inner loop. */
  method ServeTurn(server: TcpServer, ready: nat -> set<int>, inputs: nat -> M.Input, t: nat,
                   ghost before: M.Trace, ghost was: seq<M.Delivery>)
    returns (status: Status, ghost trace: M.Trace)
    requires Traced(server, ready, inputs, before, t, Continue, was) && M.Proper(inputs(t))
    modifies server`sent, server.clients, server.clients.Created, server.subs, server.subs.Created,
             server.poller, server.poller.pollfds, server.recvMsg
    ensures fresh(server.clients.Created - old(server.clients.Created))
    ensures fresh(server.subs.Created - old(server.subs.Created))
    ensures status == Exit ==> server.TornDown()
    ensures M.StartOf(trace) == M.StartOf(before) && M.Polls(trace) == M.Polls(before)
    ensures Traced(server, ready, inputs, trace, t + 1, status, was)
    ensures M.Left(M.Ending(trace)) < M.Left(M.Ending(before))
  {
    ghost var from := server.View().value;
    ghost var u := M.Iteration(server.c, from, inputs(t));
    M.IterationAdvances(server.c, M.Ending(before), inputs(t));
    M.IterationIsNext(server.c, ready, inputs, before, from);
    OutputGrows(was, before, u);
    status := Serve(server, inputs(t));
    trace := M.After(before, u);
  }

  /** The inner loop: iterations until the iterator finds nothing, or the program ends. It always comes
      to an end, in either edition, whatever the inputs. */
  method ServeRound(server: TcpServer, ready: nat -> set<int>, inputs: nat -> M.Input, t0: nat,
                    ghost before: M.Trace, ghost was: seq<M.Delivery>)
    returns (status: Status, t: nat, ghost trace: M.Trace)
    requires Traced(server, ready, inputs, before, t0, Continue, was) && forall i :: M.Proper(inputs(i))
    modifies server`sent, server.clients, server.clients.Created, server.subs, server.subs.Created,
             server.poller, server.poller.pollfds, server.recvMsg
    ensures fresh(server.clients.Created - old(server.clients.Created))
    ensures fresh(server.subs.Created - old(server.subs.Created))
    ensures status == Exit ==> server.TornDown()
    ensures M.StartOf(trace) == M.StartOf(before) && M.Polls(trace) == M.Polls(before)
    ensures status != Continue && Traced(server, ready, inputs, trace, t, status, was)
  {
    status, t, trace := Continue, t0, before;
    while status == Continue
      invariant fresh(server.clients.Created - old(server.clients.Created))
      invariant fresh(server.subs.Created - old(server.subs.Created))
      invariant status == Exit ==> server.TornDown()
      invariant M.StartOf(trace) == M.StartOf(before) && M.Polls(trace) == M.Polls(before)
      invariant Traced(server, ready, inputs, trace, t, status, was)
      decreases M.Left(M.Ending(trace))
    {
      status, trace := ServeTurn(server, ready, inputs, t, trace, was);
      t := t + 1;
    }
  }

  /** An iteration of the outer loop: a poll and a round. */
  method PollAndServe(server: TcpServer, ready: nat -> set<int>, inputs: nat -> M.Input, t0: nat,
                      ghost before: M.Trace, ghost was: seq<M.Delivery>)
    returns (status: Status, t: nat, ghost trace: M.Trace)
    requires Traced(server, ready, inputs, before, t0, Idle, was) && forall i :: M.Proper(inputs(i))
    modifies server`sent, server.clients, server.clients.Created, server.subs, server.subs.Created,
             server.poller, server.poller.pollfds, server.recvMsg
    ensures fresh(server.clients.Created - old(server.clients.Created))
    ensures fresh(server.subs.Created - old(server.subs.Created))
    ensures status == Exit ==> server.TornDown()
    ensures M.StartOf(trace) == M.StartOf(before) && M.Polls(trace) == M.Polls(before) + 1
    ensures status != Continue && Traced(server, ready, inputs, trace, t, status, was)
  {
    ghost var polled := PollTurn(server, ready, inputs, t0, before, was);
    status, t, trace := ServeRound(server, ready, inputs, t0 + 1, polled, was);
  }

  /** run_server, for up to the given number of polls: it stops before that only when the program ends.
      On exit no node is left behind. */
  method RunServer(server: TcpServer, ready: nat -> set<int>, inputs: nat -> M.Input, polls: nat)
    returns (status: Status, t: nat, ghost trace: M.Trace)
    requires server.View().Some? && forall i :: M.Proper(inputs(i))
    modifies server`sent, server.clients, server.clients.Created, server.subs, server.subs.Created,
             server.poller, server.poller.pollfds, server.recvMsg
    ensures fresh(server.clients.Created - old(server.clients.Created))
    ensures fresh(server.subs.Created - old(server.subs.Created))
    ensures status == Exit ==> server.TornDown()
    ensures M.StartOf(trace) == old(server.View().value)
    ensures M.Polls(trace) <= polls && (status == Idle ==> M.Polls(trace) == polls)
    ensures status != Continue && Traced(server, ready, inputs, trace, t, status, old(server.sent))
  {
    status, t, trace := Idle, 0, M.Begin(server.View().value);
    var n := 0;
    while status == Idle && n < polls
      invariant fresh(server.clients.Created - old(server.clients.Created))
      invariant fresh(server.subs.Created - old(server.subs.Created))
      invariant status == Exit ==> server.TornDown()
      invariant M.StartOf(trace) == old(server.View().value) && M.Polls(trace) == n <= polls
      invariant status != Continue && Traced(server, ready, inputs, trace, t, status, old(server.sent))
      decreases polls - n
    {
      status, t, trace := PollAndServe(server, ready, inputs, t, trace, old(server.sent));
      n := n + 1;
    }
  }

  /** main of server.c, once its sockets are open. */
  method ServeForever(c: M.Config, ready: nat -> set<int>, inputs: nat -> M.Input, polls: nat)
    returns (server: TcpServer, status: Status, t: nat, ghost trace: M.Trace)
    requires forall i :: M.Proper(inputs(i))
    ensures server.c == c && |M.StartOf(trace).recvMsg| == CTOS_LEN
    ensures M.StartOf(trace) == M.Start(c, M.StartOf(trace).recvMsg)
    ensures status == Exit ==> server.TornDown()
    ensures M.Polls(trace) <= polls && (status == Idle ==> M.Polls(trace) == polls)
    ensures status != Continue && Traced(server, ready, inputs, trace, t, status, [])
  {
    server := new TcpServer(c);
    status, t, trace := RunServer(server, ready, inputs, polls);
  }
}
