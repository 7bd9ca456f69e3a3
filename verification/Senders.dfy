/** The sending half of TCP_client.c: messages composed, packed and sent over a socket. */
module Senders {
  import opened Base
  import opened Packets
  import opened Streams
  import opened Connections

  /** TCP_client_send. */
  method TcpClientSend(edition: Edition, socket: Socket, header: array<Byte>) returns (rc: nat)
    requires header.Length == HEADER_LEN && FromLe16(header[..2]) <= HEADER_LEN
    modifies socket`sent
    ensures 0 < rc <= PACKET_MAXLEN
    ensures edition.Repaired? ==> rc == PACKET_MAXLEN && socket.sent == old(socket.sent) + Wire(header[..])
    ensures edition.AsWritten? ==> socket.sent == old(socket.sent) + Wire(header[..]) + Wire(header[..])[..rc]
  {
    var packet := FillPacket(header);
    rc := SendAll(edition, socket, packet);
  }

  /** A message of its own: client_compose_msg and TCP_client_send. */
  method SendMessage(socket: Socket, m: Composed)
    requires |m.payload| < CTOS_MAXLEN
    modifies socket`sent
    ensures socket.sent == old(socket.sent) + Encode(ClientMessage(m.kind, m.payload))
  {
    var header := ClientComposeMsg(m.kind, m.payload);
    Le16Prefix(ClientMessage(m.kind, m.payload));
    assert header[..2] == header[..][..2];
    var rc := TcpClientSend(Repaired, socket, header);
  }

  /** All the messages of a client, however send() splits them: the stream the server's side reads. */
  method SendMessages(ms: seq<Composed>) returns (socket: Socket)
    requires Fit(ms)
    ensures fresh(socket) && Carries(socket.sent, ms)
  {
    socket := new Socket([]);
    for i := 0 to |ms|
      invariant fresh(socket) && socket.sent == Frames(Packed(ms[..i]))
    {
      SendMessage(socket, ms[i]);
      var packet := Encode(ClientMessage(ms[i].kind, ms[i].payload));
      FramesAppend(Packed(ms[..i]), packet);
      assert Packed(ms[..i + 1]) == Packed(ms[..i]) + [packet];
    }
    assert ms[..|ms|] == ms;
  }
}
