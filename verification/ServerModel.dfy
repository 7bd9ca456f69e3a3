/** The broker of server.c and TCP_server.c as a state machine on values: what one iteration of its
    event loop does. The class of Servers.dfy is proved to do exactly this on the heap. */
module ServerModel {
  import opened Base
  import opened Clients
  import opened Subscriptions
  import opened Pollers
  import opened Packets
  import opened Payloads

  datatype Config = Config(edition: Edition, udpFd: int, tcpFd: int)

  const STDIN := 0
  const CMD_MAXLEN := 5                       // with its terminator
  const EXIT: Str := [101, 120, 105, 116]     // "exit"

  /** A packet handed to send_all on a descriptor. */
  datatype Delivery = Delivery(fd: int, packet: seq<Byte>)

  datatype Server = Server(clients: seq<Client>, subs: seq<Subscription>, pos: nat, table: Table, recvMsg: seq<Byte>)

  /** What the operating system answers in one iteration: the word typed (none at the end of the
      input), the datagram and its source, the result of accept, the bytes recv waits for (none once
      the peer has closed). The last three are what uninitialised variables happen to hold. */
  datatype Input = Input(
    command: Option<Str>,
    datagram: seq<Byte>, srcIp: seq<Byte>, srcPort: seq<Byte>,
    accepted: int, ip: seq<Byte>, port: seq<Byte>,
    recvFails: bool, received: seq<Byte>,
    junkExit: bool, junkSf: Byte, junkRc: int)

  ghost predicate Proper(e: Input) {
    && |e.datagram| == UDP_MSG_LEN && |e.srcIp| == 4 && |e.srcPort| == 2
    && |e.received| <= PACKET_MAXLEN
  }

  /** Idle: the iterator found nothing. Died: DIE stopped the program. Fault: the C code leaves
      defined behaviour. */
  datatype Outcome =
    | Running(server: Server, out: seq<Delivery>)
    | Idle(server: Server)
    | Exited
    | Died
    | Fault

  ghost predicate Shape(c: Config, s: Server) {
    && Fits(s.table)
    && |s.recvMsg| == CTOS_LEN
    && s.pos <= |s.subs|
    && (c.edition.AsWritten? ==> s.pos == |s.subs|)
  }

  // ---- TCP_server_send_to_subscribers

  datatype Sending = Sent(out: seq<Delivery>) | Crash

  /** One pass over the subscriptions under and after the cursor. */
  function Pass(edition: Edition, clients: seq<Client>, subs: seq<Subscription>, topic: Str,
                packet: seq<Byte>): Sending
  {
    if subs == [] then Sent([])
    else if subs[0].topic != topic then Pass(edition, clients, subs[1..], topic, packet)
    else
      var k := IndexById(clients, subs[0].id);
      if k < 0 then
        // Repair: as written the missing client is a NULL that is dereferenced; skip it.
        if edition.AsWritten? then Crash else Pass(edition, clients, subs[1..], topic, packet)
      else
        match Pass(edition, clients, subs[1..], topic, packet)
        case Sent(out) => Sent([Delivery(clients[k].fd, packet)] + out)
        case Crash => Crash
  }

  /** Where the pass leaves the cursor: behind the last match, or where it was. */
  function CursorAfterPass(subs: seq<Subscription>, pos: nat, topic: Str): (end: nat)
    requires pos <= |subs|
    ensures pos <= end <= |subs|
    decreases |subs| - pos
  {
    var j := NextMatch(subs, pos, topic);
    if j == |subs| then pos else CursorAfterPass(subs, j + 1, topic)
  }

  function TopicOf(datagram: seq<Byte>): Str {
    CString(datagram)
  }

  function PacketFor(e: Input): seq<Byte>
    requires Proper(e)
  {
    Encode(ServerMessage(e.srcIp, e.srcPort, e.datagram))
  }

  function SendToSubscribers(c: Config, s: Server, topic: Str, packet: seq<Byte>, junkRc: int): (o: Outcome)
    requires Shape(c, s)
    ensures o.Running? ==> Shape(c, o.server)
  {
    // Repair: as written the pass goes on from a cursor that nothing ever moved off NULL.
    var start := if c.edition.Repaired? then 0 else s.pos;
    match Pass(c.edition, s.clients, s.subs[start..], topic, packet)
    case Crash => Fault
    case Sent(out) =>
      // Repair: as written rc has no value when nothing was sent.
      var rc := if out != [] then 1 else if c.edition.Repaired? then 0 else junkRc;
      if rc < 0 then Died
      else Running(s.(pos := CursorAfterPass(s.subs, start, topic)), out)
  }

  // ---- connections

  function AcceptConnection(c: Config, s: Server, e: Input): (o: Outcome)
    requires Shape(c, s)
    ensures o.Running? ==> Shape(c, o.server)
  {
    if e.accepted < 0 then Died
    else if s.table.num == MAX_CONNECTIONS then
      // Repair: as written the poll table is written beyond its end; refuse the connection.
      if c.edition.AsWritten? then Fault else Running(s, [])
    else
      var t := WithFd(c.edition, s.table, e.accepted);
      Running(s.(clients := [Client(New, e.accepted, [], e.ip, e.port)] + s.clients, table := t.(idx := t.idx + 1)), [])
  }

  function CloseConnection(c: Config, s: Server, fd: int): (o: Outcome)
    requires Shape(c, s)
    ensures o.Running? ==> Shape(c, o.server)
  {
    var k := IndexByFd(s.clients, fd);
    if 0 <= k && RemovalFaults(c.edition, |s.clients|, k) then Fault
    else Running(s.(clients := if k < 0 then s.clients else DropAt(s.clients, k), table := WithoutFd(s.table, fd)), [])
  }

  /** The end of a connection. The status line prints the id of the client that left. */
  function Disconnect(c: Config, s: Server, fd: int): (o: Outcome)
    requires Shape(c, s)
    ensures o.Running? ==> Shape(c, o.server)
  {
    if IndexByFd(s.clients, fd) < 0 then Fault else CloseConnection(c, s, fd)
  }

  // ---- client messages, already stored in recvMsg

  /** TCP_server_update_client and what run_server makes of its result. */
  function UpdateClient(c: Config, s: Server, fd: int): (o: Outcome)
    requires Shape(c, s)
    ensures o.Running? ==> Shape(c, o.server)
  {
    var k := IndexByFd(s.clients, fd);
    if s.recvMsg[0] != MSG_NEW then Running(s, [])
    else
      match IdOf(s.recvMsg[1..])
      case None => Fault
      case Some(id) =>
        if 0 <= IndexById(s.clients, id) then CloseConnection(c, s, fd)
        else Running(s.(clients := if k < 0 then s.clients
                                   else s.clients[k := s.clients[k].(state := Connected, id := id)]), [])
  }

  /** What a client's message asks for. Undefined: scanning its arguments or copying them leaves
      defined behaviour, because they overrun a buffer or no topic was read. */
  datatype Request = Nobody | Undefined | Wanted(sub: Subscription)

  /** A flag that sscanf leaves unset is whatever the variable held. */
  function Requested(s: Server, fd: int, e: Input): Request
    requires |s.recvMsg| == CTOS_LEN
  {
    var k := IndexByFd(s.clients, fd);
    if k < 0 then Nobody
    else
      match Scan(s.recvMsg[1..])
      case Scanned(Some(topic), sf) =>
        Wanted(Subscription(topic, s.clients[k].id, if sf.Some? then sf.value else e.junkSf))
      case _ => Undefined
  }

  /** The new subscription goes to the front; the cursor stays on its node. */
  function Added(s: Server, sub: Subscription): Server {
    s.(subs := [sub] + s.subs, pos := s.pos + 1)
  }

  function Subscribe(c: Config, s: Server, fd: int, e: Input): (o: Outcome)
    requires Shape(c, s)
    ensures o.Running? ==> Shape(c, o.server)
  {
    match Requested(s, fd, e)
    case Nobody => Running(s, [])
    case Undefined => Fault
    case Wanted(sub) => Running(Added(s, sub), [])
  }

  /** The comparisons stop inside the payload even where it is not terminated, because the topics in the
      list are shorter and are (Invariant.RunStrings). */
  function Unsubscribe(c: Config, s: Server, fd: int): (o: Outcome)
    requires Shape(c, s)
    ensures o.Running? ==> Shape(c, o.server)
  {
    var k := IndexByFd(s.clients, fd);
    if k < 0 then Running(s, [])
    else
      var j := IndexOfSub(s.subs, CString(s.recvMsg[1..]), s.clients[k].id);
      if j < 0 then Running(s, [])
      else if RemovalFaults(c.edition, |s.subs|, j) then Fault
      else Running(s.(subs := DropAt(s.subs, j), pos := CursorAfterDrop(s.pos, j)), [])
  }

  /** The message in recvMsg, received on fd. */
  function HandleMessage(c: Config, s: Server, fd: int, e: Input): (o: Outcome)
    requires Shape(c, s)
    ensures o.Running? ==> Shape(c, o.server)
  {
    var k := IndexByFd(s.clients, fd);
    if 0 <= k && s.clients[k].state.New? then UpdateClient(c, s, fd)
    else if s.recvMsg[0] == MSG_SUBSCRIBE then Subscribe(c, s, fd, e)
    else if s.recvMsg[0] == MSG_UNSUBSCRIBE then Unsubscribe(c, s, fd)
    else Running(s, [])
  }

  /** The packet that arrived, in the zeroed buffer it was received into. */
  function Padded(received: seq<Byte>): (p: seq<Byte>)
    requires |received| <= PACKET_MAXLEN
    ensures |p| == PACKET_MAXLEN
  {
    received + Zeros(PACKET_MAXLEN - |received|)
  }

  /** TCP_server_recv_all, when something arrived. None: the copy runs over the end of recvMsg. */
  function Stored(c: Config, s: Server, e: Input): (v: Option<Server>)
    requires Shape(c, s) && Proper(e)
    ensures v.Some? ==> Shape(c, v.value)
  {
    var packet := Padded(e.received);
    if Storable(packet) then Some(s.(recvMsg := StoredMessage(c.edition, s.recvMsg, packet))) else None
  }

  /** A packet that arrived on fd is stored and treated. */
  function ReceiveMessage(c: Config, s: Server, fd: int, e: Input): (o: Outcome)
    requires Shape(c, s) && Proper(e)
    ensures o.Running? ==> Shape(c, o.server)
  {
    match Stored(c, s, e)
    case None => Fault
    case Some(s') => HandleMessage(c, s', fd, e)
  }

  function ServeClient(c: Config, s: Server, fd: int, e: Input): (o: Outcome)
    requires Shape(c, s) && Proper(e)
    ensures o.Running? ==> Shape(c, o.server)
  {
    if e.recvFails then Died
    else if e.received == [] then Disconnect(c, s, fd)
    else ReceiveMessage(c, s, fd, e)
  }

  /** A command typed. At the end of the input the buffer keeps what it held. */
  function Command(s: Server, e: Input): (o: Outcome) {
    match e.command
    case None => if e.junkExit then Exited else Running(s, [])
    case Some(word) =>
      if CMD_MAXLEN <= |word| then Fault else if word == EXIT then Exited else Running(s, [])
  }

  /** What run_server does with the descriptor its iterator returned. */
  function Dispatch(c: Config, s: Server, fd: int, e: Input): (o: Outcome)
    requires Shape(c, s) && Proper(e)
    ensures o.Running? || o.Idle? ==> Shape(c, o.server)
  {
    if fd == -1 then Idle(s)
    else if fd == STDIN then Command(s, e)
    else if fd == c.udpFd then SendToSubscribers(c, s, TopicOf(e.datagram), PacketFor(e), e.junkRc)
    else if fd == c.tcpFd then AcceptConnection(c, s, e)
    else ServeClient(c, s, fd, e)
  }

  /** One iteration of the inner loop of run_server. */
  function Serve(c: Config, s: Server, e: Input): (o: Outcome)
    requires Shape(c, s) && Proper(e)
    ensures o.Running? || o.Idle? ==> Shape(c, o.server)
  {
    var (fd, t) := NextFd(s.table);
    Dispatch(c, s.(table := t), fd, e)
  }

  function StartRound(s: Server, ready: set<int>): Server {
    s.(table := Polled(s.table, ready))
  }

  // ---- runs

  datatype Label = Poll(ready: set<int>) | Iterate(input: Input)

  ghost predicate ProperRun(ls: seq<Label>) {
    forall i :: 0 <= i < |ls| && ls[i].Iterate? ==> Proper(ls[i].input)
  }

  function Step(c: Config, s: Server, l: Label): (o: Outcome)
    requires Shape(c, s) && (l.Iterate? ==> Proper(l.input))
    ensures o.Running? ==> Shape(c, o.server)
  {
    match l
    case Poll(ready) => Running(StartRound(s, ready), [])
    case Iterate(e) =>
      match Serve(c, s, e)
      case Idle(s') => Running(s', [])
      case o => o
  }

  /** What happens next, after out has been handed out. */
  function Following(out: seq<Delivery>, o: Outcome): Outcome {
    if o.Running? then Running(o.server, out + o.out) else o
  }

  /** Polls and iterations in any order: the nested loops of run_server, and more. */
  function Run(c: Config, s: Server, ls: seq<Label>): (o: Outcome)
    requires Shape(c, s) && ProperRun(ls)
    ensures o.Running? ==> Shape(c, o.server)
    decreases |ls|
  {
    if ls == [] then Running(s, [])
    else
      match Step(c, s, ls[0])
      case Running(s', out) => Following(out, Run(c, s', ls[1..]))
      case o => o
  }

  lemma FollowingBoth(a: seq<Delivery>, b: seq<Delivery>, o: Outcome)
    ensures Following([], o) == o
    ensures Following(a, Following(b, o)) == Following(a + b, o)
  {
    if o.Running? {
      assert [] + o.out == o.out;
      assert a + (b + o.out) == a + b + o.out;
    }
  }

  lemma FirstOfBoth(a: seq<Label>, b: seq<Label>)
    requires ProperRun(a) && ProperRun(b)
    ensures ProperRun(a + b)
    ensures a == [] ==> a + b == b
    ensures a != [] ==> (a + b)[0] == a[0] && (a + b)[1..] == a[1..] + b
  {
  }

  lemma {:induction false} RunAppend(c: Config, s: Server, a: seq<Label>, b: seq<Label>)
    requires Shape(c, s) && ProperRun(a) && ProperRun(b)
    ensures ProperRun(a + b)
    ensures var first := Run(c, s, a);
            Run(c, s, a + b) == if first.Running? then Following(first.out, Run(c, first.server, b)) else first
    decreases |a|
  {
    FirstOfBoth(a, b);
    if a == [] {
      FollowingBoth([], [], Run(c, s, b));
    } else {
      var o := Step(c, s, a[0]);
      if o.Running? {
        RunAppend(c, o.server, a[1..], b);
        var rest := Run(c, o.server, a[1..]);
        if rest.Running? {
          FollowingBoth(o.out, rest.out, Run(c, rest.server, b));
        }
      }
    }
  }

  /** A run goes on with one step more. */
  lemma RunGoesOn(c: Config, s: Server, ls: seq<Label>, l: Label)
    requires Shape(c, s) && ProperRun(ls) && (l.Iterate? ==> Proper(l.input))
    requires Run(c, s, ls).Running?
    ensures ProperRun(ls + [l])
    ensures Run(c, s, ls + [l]) == Following(Run(c, s, ls).out, Step(c, Run(c, s, ls).server, l))
  {
    var o := Step(c, Run(c, s, ls).server, l);
    RunAppend(c, s, ls, [l]);
    if o.Running? {
      assert [l][1..] == [] && o.out + [] == o.out;
    }
  }

  // ---- the nested loops of run_server, as a trace of what they did

  /** One poll or iteration: the state it found, and what came of it. */
  datatype Turn = Turn(from: Server, act: Label, outcome: Outcome)

  datatype Trace = Begin(start: Server) | After(before: Trace, last: Turn)

  predicate GoesOn(o: Outcome) {
    o.Running? || o.Idle?
  }

  function Sends(o: Outcome): seq<Delivery> {
    if o.Running? then o.out else []
  }

  ghost predicate IsTurn(c: Config, u: Turn) {
    && Shape(c, u.from)
    && match u.act
       case Poll(ready) => u.outcome == Running(StartRound(u.from, ready), [])
       case Iterate(e) => Proper(e) && u.outcome == Serve(c, u.from, e)
  }

  function StartOf(trace: Trace): Server {
    if trace.Begin? then trace.start else StartOf(trace.before)
  }

  function Ending(trace: Trace): Outcome {
    if trace.Begin? then Idle(trace.start) else trace.last.outcome
  }

  function Output(trace: Trace): seq<Delivery> {
    if trace.Begin? then [] else Output(trace.before) + Sends(trace.last.outcome)
  }

  function Labels(trace: Trace): seq<Label> {
    if trace.Begin? then [] else Labels(trace.before) + [trace.last.act]
  }

  function Polls(trace: Trace): nat {
    if trace.Begin? then 0 else Polls(trace.before) + if trace.last.act.Poll? then 1 else 0
  }

  /** u may come next: it starts where the trace so far ended, and polls if the iterator found nothing,
      or nothing was done yet, but never otherwise. */
  ghost predicate Next(c: Config, ready: nat -> set<int>, inputs: nat -> Input, trace: Trace, u: Turn) {
    var o, k := Ending(trace), |Labels(trace)|;
    && IsTurn(c, u) && GoesOn(o) && u.from == o.server
    && u.act == if o.Idle? then Poll(ready(k)) else Iterate(inputs(k))
  }

  /** The loops did what the trace says: its k-th turn is answered by ready(k) or inputs(k). */
  ghost predicate IsTrace(c: Config, ready: nat -> set<int>, inputs: nat -> Input, trace: Trace) {
    trace.After? ==> IsTrace(c, ready, inputs, trace.before) && Next(c, ready, inputs, trace.before, trace.last)
  }

  /** The next iteration of the inner loop. */
  function Iteration(c: Config, from: Server, e: Input): (u: Turn)
    requires Shape(c, from) && Proper(e)
  {
    Turn(from, Iterate(e), Serve(c, from, e))
  }

  /** A bound on the iterations left in a round that has come to o. */
  function Left(o: Outcome): nat {
    if !o.Running? then 0
    else if o.server.table.idx < MAX_CONNECTIONS then 1 + MAX_CONNECTIONS - o.server.table.idx
    else 1
  }

  /** An iteration that leaves the loop running has moved the iterator forward within the table: this
      is what ends every round. */
  lemma IterationAdvances(c: Config, o: Outcome, e: Input)
    requires o.Running? && Shape(c, o.server) && Proper(e)
    ensures Left(Iteration(c, o.server, e).outcome) < Left(o)
  {
  }

  lemma IterationIsNext(c: Config, ready: nat -> set<int>, inputs: nat -> Input, trace: Trace, from: Server)
    requires Ending(trace).Running? && Ending(trace).server == from
    requires Shape(c, from) && Proper(inputs(|Labels(trace)|))
    ensures Next(c, ready, inputs, trace, Iteration(c, from, inputs(|Labels(trace)|)))
  {
  }

  /** What a trace amounts to, as a run. */
  function Result(trace: Trace): Outcome {
    var o := Ending(trace);
    if GoesOn(o) then Running(o.server, Output(trace)) else o
  }

  lemma TurnIsStep(c: Config, u: Turn)
    requires IsTurn(c, u)
    ensures Step(c, u.from, u.act)
            == if GoesOn(u.outcome) then Running(u.outcome.server, Sends(u.outcome)) else u.outcome
  {
  }

  /** What run_server does is a run: everything proved of runs holds of it. */
  lemma {:induction false} TraceIsRun(c: Config, ready: nat -> set<int>, inputs: nat -> Input, trace: Trace)
    requires Shape(c, StartOf(trace)) && IsTrace(c, ready, inputs, trace)
    ensures ProperRun(Labels(trace))
    ensures Run(c, StartOf(trace), Labels(trace)) == Result(trace)
  {
    if trace.After? {
      TraceIsRun(c, ready, inputs, trace.before);
      TurnIsStep(c, trace.last);
      RunGoesOn(c, StartOf(trace), Labels(trace.before), trace.last.act);
    }
  }

  lemma NextIsDetermined(c: Config, ready: nat -> set<int>, inputs: nat -> Input, trace: Trace, u: Turn, v: Turn)
    requires Next(c, ready, inputs, trace, u) && Next(c, ready, inputs, trace, v)
    ensures u == v
  {
  }

  /** What the environment answers decides the trace: two traces can differ only in how far they go. */
  lemma {:induction false} TraceIsDetermined(c: Config, ready: nat -> set<int>, inputs: nat -> Input,
                                             a: Trace, b: Trace)
    requires IsTrace(c, ready, inputs, a) && IsTrace(c, ready, inputs, b)
    requires StartOf(a) == StartOf(b) && |Labels(a)| == |Labels(b)|
    ensures a == b
  {
    if a.After? {
      TraceIsDetermined(c, ready, inputs, a.before, b.before);
      NextIsDetermined(c, ready, inputs, a.before, a.last, b.last);
    }
  }

  /** The table run_server starts with, and the server TCP_server_create makes. */
  function StartTable(c: Config): (t: Table)
    ensures Fits(t)
  {
    var empty := Table(seq(MAX_CONNECTIONS, _ => Slot(0, false, false)), 0, 0);
    WithFd(c.edition, WithFd(c.edition, WithFd(c.edition, empty, STDIN), c.udpFd), c.tcpFd)
  }

  function Start(c: Config, recvMsg: seq<Byte>): (s: Server)
    requires |recvMsg| == CTOS_LEN
    ensures Shape(c, s)
  {
    Server([], [], 0, StartTable(c), recvMsg)
  }
}
