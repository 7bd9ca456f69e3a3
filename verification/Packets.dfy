/** packets.h and the code that fills and unpacks its structures (TCP_client.c, TCP_server.c, server.c). */
module Packets {
  import opened Base

  const TOPIC_LEN := 50
  const UDP_MSG_LEN := 1551     // topic, data type, content
  const CTOS_MAXLEN := 52       // payload of a client message
  const CTOS_LEN := 53          // message type, payload
  const STOC_LEN := 1557        // source address, source port, UDP message
  const TCP_MSG_MAXLEN := 1599
  const HEADER_LEN := 1601      // message length, message
  const PACKET_MAXLEN := 1615

  const MSG_NEW: Byte := 0
  const MSG_SUBSCRIBE: Byte := 1
  const MSG_UNSUBSCRIBE: Byte := 2

  /** A uint16_t as the (little-endian) host stores it. */
  function Le16(n: nat): (b: seq<Byte>)
    requires n < 0x1_0000
    ensures |b| == 2 && FromLe16(b) == n
  {
    [n % 256, n / 256]
  }

  function FromLe16(b: seq<Byte>): (n: nat)
    requires |b| == 2
    ensures n < 0x1_0000
  {
    (b[0] as int) + 256 * (b[1] as int)
  }

  /** struct TCP_header around a message. */
  function Header(message: seq<Byte>): (h: seq<Byte>)
    requires |message| <= TCP_MSG_MAXLEN
    ensures |h| == HEADER_LEN
  {
    Le16(|message|) + message + Zeros(TCP_MSG_MAXLEN - |message|)
  }

  /** struct TCP_ctos_msg with a string copied into its payload. */
  function ClientMessage(kind: Byte, payload: Str): (m: seq<Byte>)
    requires |payload| < CTOS_MAXLEN
    ensures |m| == CTOS_LEN
  {
    [kind] + payload + Zeros(CTOS_MAXLEN - |payload|)
  }

  /** struct TCP_stoc_msg around a UDP datagram. */
  function ServerMessage(ip: seq<Byte>, port: seq<Byte>, datagram: seq<Byte>): (m: seq<Byte>)
    requires |ip| == 4 && |port| == 2 && |datagram| == UDP_MSG_LEN
    ensures |m| == STOC_LEN
  {
    ip + port + datagram
  }

  /** The packet that leaves: msg_len bytes are copied, counted from the header and not from the
      message behind it. */
  function Wire(header: seq<Byte>): (p: seq<Byte>)
    requires |header| == HEADER_LEN && FromLe16(header[..2]) <= HEADER_LEN
    ensures |p| == PACKET_MAXLEN
  {
    var n := FromLe16(header[..2]);
    header[..n] + Zeros(PACKET_MAXLEN - n)
  }

  function Encode(message: seq<Byte>): (p: seq<Byte>)
    requires |message| <= TCP_MSG_MAXLEN
    ensures |p| == PACKET_MAXLEN
  {
    Le16Prefix(message);
    Wire(Header(message))
  }

  lemma Le16Prefix(message: seq<Byte>)
    requires |message| <= TCP_MSG_MAXLEN
    ensures Header(message)[..2] == Le16(|message|)
    ensures Header(message)[2..2 + |message|] == message
  {
  }

  /** The message a receiver that knows its size finds behind the length field. */
  function Decode(packet: seq<Byte>, size: nat): seq<Byte>
    requires |packet| == PACKET_MAXLEN && size <= TCP_MSG_MAXLEN
  {
    packet[2..2 + size]
  }

  /** TCP_server_recv_all copies as many bytes as the packet claims over the previous message;
      the claim must not exceed the message structure. */
  predicate Storable(packet: seq<Byte>)
    requires |packet| == PACKET_MAXLEN
  {
    FromLe16(packet[..2]) <= CTOS_LEN
  }

  function Store(previous: seq<Byte>, packet: seq<Byte>): (m: seq<Byte>)
    requires |previous| == CTOS_LEN && |packet| == PACKET_MAXLEN && Storable(packet)
    ensures |m| == CTOS_LEN
  {
    var n := FromLe16(packet[..2]);
    packet[2..2 + n] + previous[n..]
  }

  /** The message a packet carries: the bytes it claims, in a zeroed structure. */
  function MessageOf(packet: seq<Byte>): (m: seq<Byte>)
    requires |packet| == PACKET_MAXLEN && Storable(packet)
    ensures |m| == CTOS_LEN
  {
    Store(Zeros(CTOS_LEN), packet)
  }

  /** What recvMsg holds once a packet is stored over previous. */
  function StoredMessage(edition: Edition, previous: seq<Byte>, packet: seq<Byte>): (m: seq<Byte>)
    requires |previous| == CTOS_LEN && |packet| == PACKET_MAXLEN && Storable(packet)
    ensures |m| == CTOS_LEN
  {
    // Repair: as written the last message, of whatever connection, shows behind a shorter one; clear it.
    Store(if edition.Repaired? then Zeros(CTOS_LEN) else previous, packet)
  }

  /** Whatever was received before, the stored message is the one the packet carries, exactly when the
      code is repaired or the packet claims a whole client message. */
  lemma OwnMessageIff(edition: Edition, packet: seq<Byte>)
    requires |packet| == PACKET_MAXLEN && Storable(packet)
    ensures (forall previous: seq<Byte> | |previous| == CTOS_LEN ::
               StoredMessage(edition, previous, packet) == MessageOf(packet))
            <==> edition.Repaired? || FromLe16(packet[..2]) == CTOS_LEN
  {
    var n := FromLe16(packet[..2]);
    if edition.AsWritten? && n < CTOS_LEN {
      var ones := seq(CTOS_LEN, _ => 1);
      assert StoredMessage(edition, ones, packet)[n] == 1 && MessageOf(packet)[n] == 0;
    }
  }

  /** What a packet says is the start of what is read in its place. */
  lemma SaidIsRead(edition: Edition, previous: seq<Byte>, packet: seq<Byte>)
    requires |previous| == CTOS_LEN && |packet| == PACKET_MAXLEN && Storable(packet)
    ensures CString(MessageOf(packet)[1..]) <= CString(StoredMessage(edition, previous, packet)[1..])
  {
    var said, read := MessageOf(packet)[1..], StoredMessage(edition, previous, packet)[1..];
    var s, n := CString(said), FromLe16(packet[..2]);
    forall i | 0 <= i < |s|
      ensures s[i] == read[i]
    {
      assert said[i] == s[i] != 0;
      assert i + 1 < n;
    }
    assert s <= read;
  }

  /** What survives the wire: the last two bytes of every message arrive as zeros. */
  function Shorn(message: seq<Byte>): (m: seq<Byte>)
    requires 2 <= |message|
    ensures |m| == |message|
  {
    message[..|message| - 2] + [0, 0]
  }

  lemma EncodedBytes(message: seq<Byte>)
    requires 2 <= |message| <= TCP_MSG_MAXLEN
    ensures Encode(message) == Le16(|message|) + message[..|message| - 2] + Zeros(PACKET_MAXLEN - |message|)
  {
    Le16Prefix(message);
    assert Header(message)[..|message|] == Le16(|message|) + message[..|message| - 2];
  }

  /** The bytes of a client's packet: the length of 53, the type, and the first 50 bytes of the payload. */
  lemma ClientPacketIs(kind: Byte, payload: Str)
    requires |payload| < CTOS_MAXLEN
    ensures Encode(ClientMessage(kind, payload))
            == [53, 0, kind] + (payload + Zeros(52 - |payload|))[..50] + Zeros(1562)
  {
    EncodedBytes(ClientMessage(kind, payload));
    var padded := payload + Zeros(52 - |payload|);
    assert ClientMessage(kind, payload) == [kind] + padded;
    assert ([kind] + padded)[..51] == [kind] + padded[..50];
  }

  /** The bytes of the server's packet: the length of 1557, the address, the port and the datagram. */
  lemma ServerPacketIs(ip: seq<Byte>, port: seq<Byte>, datagram: seq<Byte>)
    requires |ip| == 4 && |port| == 2 && |datagram| == UDP_MSG_LEN
    ensures Encode(ServerMessage(ip, port, datagram)) == [21, 6] + ip + port + datagram[..1549] + Zeros(58)
  {
    EncodedBytes(ServerMessage(ip, port, datagram));
    assert ServerMessage(ip, port, datagram)[..1555] == ip + port + datagram[..1549];
  }

  /** Decoding an encoded message gives it back with its last two bytes zeroed, so gives it back
      exactly if and only if those two were zero. */
  lemma PacketRoundTrip(message: seq<Byte>)
    requires 2 <= |message| <= TCP_MSG_MAXLEN
    ensures Decode(Encode(message), |message|) == Shorn(message)
    ensures Decode(Encode(message), |message|) == message
            <==> message[|message| - 2] == 0 && message[|message| - 1] == 0
  {
    EncodedBytes(message);
    assert Decode(Encode(message), |message|) == Shorn(message);
    if Shorn(message) == message {
      assert Shorn(message)[|message| - 2] == 0 && Shorn(message)[|message| - 1] == 0;
    }
    assert message == message[..|message| - 2] + [message[|message| - 2], message[|message| - 1]];
  }

  /** A whole client message replaces whatever the server had stored before, on any connection. */
  lemma ServerStoresClientMessage(previous: seq<Byte>, message: seq<Byte>)
    requires |previous| == CTOS_LEN == |message|
    ensures Storable(Encode(message)) && Store(previous, Encode(message)) == Shorn(message)
  {
    EncodedBytes(message);
    assert Encode(message)[..2] == Le16(CTOS_LEN);
    PacketRoundTrip(message);
  }

  /** A buffer with some of its bytes replaced. */
  function Spliced(buffer: seq<Byte>, at: nat, bytes: seq<Byte>): (r: seq<Byte>)
    requires at + |bytes| <= |buffer|
    ensures |r| == |buffer|
  {
    buffer[..at] + bytes + buffer[at + |bytes|..]
  }

  /** Filling a zeroed buffer from the front. */
  lemma FillNext(done: seq<Byte>, bytes: seq<Byte>, n: nat)
    requires |bytes| <= n
    ensures Spliced(done + Zeros(n), |done|, bytes) == done + bytes + Zeros(n - |bytes|)
  {
    assert (done + Zeros(n))[..|done|] == done;
    assert (done + Zeros(n))[|done| + |bytes|..] == Zeros(n - |bytes|);
  }

  /** memcpy between two buffers. */
  method Memcpy(dst: array<Byte>, at: nat, src: array<Byte>, from: nat, n: nat)
    requires dst != src && at + n <= dst.Length && from + n <= src.Length
    modifies dst
    ensures dst[..] == Spliced(old(dst[..]), at, src[from..from + n])
  {
    ghost var bytes := src[from..from + n];
    for i := 0 to n
      invariant forall k :: 0 <= k < i ==> dst[at + k] == bytes[k]
      invariant forall k :: 0 <= k < at || at + i <= k < dst.Length ==> dst[k] == old(dst[k])
    {
      dst[at + i] := src[from + i];
    }
    assert dst[..] == Spliced(old(dst[..]), at, bytes);
  }

  /** memset to zero of a fresh buffer. */
  method ZeroBuffer(n: nat) returns (a: array<Byte>)
    ensures fresh(a) && a[..] == Zeros(n)
  {
    a := new Byte[n](_ => 0);
  }

  /** memset to zero of a buffer in use. */
  method ClearBuffer(a: array<Byte>)
    modifies a
    ensures a[..] == Zeros(a.Length)
  {
    forall i | 0 <= i < a.Length {
      a[i] := 0;
    }
  }

  /** A C string, or the bytes of a scalar, laid out in memory. */
  method Bytes(s: seq<Byte>) returns (a: array<Byte>)
    ensures fresh(a) && a[..] == s
  {
    a := new Byte[|s|](i requires 0 <= i < |s| => s[i]);
  }

  /** The next bytes of a structure that was zeroed first. */
  method PutNext(buffer: array<Byte>, ghost done: seq<Byte>, at: nat, bytes: seq<Byte>, ghost n: nat)
    requires buffer[..] == done + Zeros(n) && |done| == at && |bytes| <= n
    modifies buffer
    ensures buffer[..] == done + bytes + Zeros(n - |bytes|)
  {
    FillNext(done, bytes, n);
    var source := Bytes(bytes);
    Memcpy(buffer, at, source, 0, source.Length);
    assert source[0..source.Length] == source[..];
  }

  /** Puts a length field and a message into a zeroed header. */
  method FillHeader(message: array<Byte>) returns (header: array<Byte>)
    requires 2 <= message.Length <= TCP_MSG_MAXLEN
    ensures fresh(header) && header[..] == Header(message[..])
  {
    header := ZeroBuffer(HEADER_LEN);
    assert [] + Zeros(HEADER_LEN) == Zeros(HEADER_LEN) && [] + Le16(message.Length) == Le16(message.Length);
    PutNext(header, [], 0, Le16(message.Length), HEADER_LEN);
    PutNext(header, Le16(message.Length), 2, message[..], TCP_MSG_MAXLEN);
  }

  /** client_compose_msg. */
  method ClientComposeMsg(kind: Byte, payload: Str) returns (header: array<Byte>)
    requires |payload| < CTOS_MAXLEN
    ensures fresh(header) && header[..] == Header(ClientMessage(kind, payload))
  {
    var message := ZeroBuffer(CTOS_LEN);
    message[0] := kind;
    assert message[..] == [kind] + Zeros(CTOS_MAXLEN);
    PutNext(message, [kind], 1, payload, CTOS_MAXLEN);
    header := FillHeader(message);
  }

  /** server_compose_msg. */
  method ServerComposeMsg(ip: seq<Byte>, port: seq<Byte>, datagram: seq<Byte>) returns (header: array<Byte>)
    requires |ip| == 4 && |port| == 2 && |datagram| == UDP_MSG_LEN
    ensures fresh(header) && header[..] == Header(ServerMessage(ip, port, datagram))
  {
    var message := ZeroBuffer(STOC_LEN);
    assert [] + Zeros(STOC_LEN) == Zeros(STOC_LEN) && [] + ip == ip;
    PutNext(message, [], 0, ip, STOC_LEN);
    PutNext(message, ip, 4, port, STOC_LEN - 4);
    PutNext(message, ip + port, 6, datagram, UDP_MSG_LEN);
    assert ServerMessage(ip, port, datagram) + Zeros(0) == ServerMessage(ip, port, datagram);
    header := FillHeader(message);
  }

  /** The copy in TCP_client_send and TCP_server_send. */
  method FillPacket(header: array<Byte>) returns (packet: array<Byte>)
    requires header.Length == HEADER_LEN && FromLe16(header[..2]) <= HEADER_LEN
    ensures fresh(packet) && packet[..] == Wire(header[..])
  {
    packet := ZeroBuffer(PACKET_MAXLEN);
    var n := (header[0] as int) + 256 * (header[1] as int);
    assert header[..2] == [header[0], header[1]];
    Memcpy(packet, 0, header, 0, n);
    assert header[0..n] == header[..][..n] && Zeros(PACKET_MAXLEN)[n..] == Zeros(PACKET_MAXLEN - n);
    assert packet[..] == header[..][..n] + Zeros(PACKET_MAXLEN - n);
  }

  /** The copy in TCP_server_recv_all: as many bytes as the packet claims go over the old message. */
  method StorePacket(edition: Edition, message: array<Byte>, packet: array<Byte>) returns (fault: bool)
    requires message != packet && message.Length == CTOS_LEN && packet.Length == PACKET_MAXLEN
    modifies message
    ensures fault == !Storable(packet[..])
    ensures message[..] == if fault then old(message[..]) else StoredMessage(edition, old(message[..]), packet[..])
  {
    var n := FromLe16(packet[..2]);
    assert packet[..2] == packet[..][..2];
    if CTOS_LEN < n {
      return true;
    }
    // Repair: as written the rest of the last message stays.
    if edition.Repaired? {
      ClearBuffer(message);
    }
    Memcpy(message, 0, packet, 2, n);
    assert packet[2..2 + n] == packet[..][2..2 + n];
    assert message[..] == StoredMessage(edition, old(message[..]), packet[..]);
    return false;
  }
}
