/** util.c: whole buffers over a byte stream whose send and recv move as many bytes as they like. */
module Streams {
  import opened Base

  /** The kernel puts bytes into a buffer. */
  method Deliver(buffer: array<Byte>, from: nat, bytes: seq<Byte>)
    requires from + |bytes| <= buffer.Length
    modifies buffer
    ensures buffer[..] == old(buffer[..from]) + bytes + old(buffer[from + |bytes|..])
  {
    for i := 0 to |bytes|
      invariant forall k :: 0 <= k < i ==> buffer[from + k] == bytes[k]
      invariant forall k :: 0 <= k < from || from + i <= k < buffer.Length ==> buffer[k] == old(buffer[k])
    {
      buffer[from + i] := bytes[i];
    }
  }

  /** One end of a connection. incoming is what the peer sends from now on until it closes; the
      stream keeps its bytes and their order (section 2.2 of RFC 9293). */
  class Socket {
    var sent: seq<Byte>
    var incoming: seq<Byte>

    constructor (incoming: seq<Byte>)
      ensures sent == [] && this.incoming == incoming
    {
      sent := [];
      this.incoming := incoming;
    }

    /** send(): any positive number of the bytes offered. */
    method Send(buffer: array<Byte>, from: nat, len: nat) returns (n: nat)
      requires from + len <= buffer.Length
      modifies this`sent
      ensures n <= len && (0 < len ==> 0 < n)
      ensures sent == old(sent) + buffer[from..from + n]
    {
      n := 0;
      if 0 < len {
        n :| 0 < n <= len;
      }
      sent := sent + buffer[from..from + n];
    }

    /** recv(): any positive number of the bytes to come, 0 once the peer has closed. */
    method Recv(buffer: array<Byte>, from: nat, len: nat) returns (n: nat)
      requires from + len <= buffer.Length
      modifies this`incoming, buffer
      ensures n <= len && n <= |old(incoming)| && (0 < len && old(incoming) != [] ==> 0 < n)
      ensures incoming == old(incoming)[n..]
      ensures buffer[..] == old(buffer[..from]) + old(incoming)[..n] + old(buffer[from + n..])
    {
      n := 0;
      if 0 < len && incoming != [] {
        n :| 0 < n <= len && n <= |incoming|;
      }
      Deliver(buffer, from, incoming[..n]);
      incoming := incoming[n..];
    }
  }

  /** send_all. As written it ends with one more send of the same buffer, of rc bytes. */
  method SendAll(edition: Edition, socket: Socket, buffer: array<Byte>) returns (rc: nat)
    modifies socket`sent
    ensures rc <= buffer.Length && (0 < buffer.Length ==> 0 < rc)
    ensures edition.Repaired? ==> rc == buffer.Length && socket.sent == old(socket.sent) + buffer[..]
    ensures edition.AsWritten? ==> socket.sent == old(socket.sent) + buffer[..] + buffer[..rc]
  {
    var done: nat, remaining: nat := 0, buffer.Length;
    while remaining != 0
      invariant done + remaining == buffer.Length
      invariant socket.sent == old(socket.sent) + buffer[..done]
      decreases remaining
    {
      var n := socket.Send(buffer, done, remaining);
      assert buffer[..done] + buffer[done..done + n] == buffer[..done + n];
      done, remaining := done + n, remaining - n;
    }
    assert buffer[..done] == buffer[..];
    // Repair: return the count instead of sending once more.
    if edition.Repaired? {
      return done;
    }
    rc := socket.Send(buffer, 0, buffer.Length);
  }

  /** recv_all. A stream that ends inside the buffer gives 0. As written it ends with one more recv
      into the start of the same buffer, of rc bytes. */
  method RecvAll(edition: Edition, socket: Socket, buffer: array<Byte>) returns (rc: nat)
    modifies socket`incoming, buffer
    ensures var stream, size := old(socket.incoming), buffer.Length;
            if |stream| < size then rc == 0 && socket.incoming == []
            else if edition.Repaired? then
              rc == size && buffer[..] == stream[..size] && socket.incoming == stream[size..]
            else
              && rc <= size && rc <= |stream| - size && (0 < size < |stream| ==> 0 < rc)
              && buffer[..] == stream[size..size + rc] + stream[rc..size]
              && socket.incoming == stream[size + rc..]
  {
    var done: nat, remaining: nat := 0, buffer.Length;
    while remaining != 0
      invariant done + remaining == buffer.Length && done <= |old(socket.incoming)|
      invariant socket.incoming == old(socket.incoming)[done..]
      invariant buffer[..done] == old(socket.incoming)[..done]
      decreases remaining
    {
      var n := socket.Recv(buffer, done, remaining);
      if n == 0 {
        return 0;
      }
      assert buffer[..done + n] == old(socket.incoming)[..done + n];
      done, remaining := done + n, remaining - n;
    }
    assert buffer[..] == old(socket.incoming)[..done];
    // Repair: return the count instead of receiving once more.
    if edition.Repaired? {
      return done;
    }
    rc := socket.Recv(buffer, 0, buffer.Length);
    assert buffer[..] == old(socket.incoming)[done..done + rc] + old(socket.incoming)[rc..done];
  }

  /** The packets one after the other. */
  function Frames(packets: seq<seq<Byte>>): seq<Byte> {
    if packets == [] then [] else packets[0] + Frames(packets[1..])
  }

  /** What successive reads of size bytes make of a stream, up to the read that comes up short. */
  function Unframe(stream: seq<Byte>, size: nat): seq<seq<Byte>>
    requires 0 < size
    decreases |stream|
  {
    if |stream| < size then [] else [stream[..size]] + Unframe(stream[size..], size)
  }

  ghost predicate Sized(packets: seq<seq<Byte>>, size: nat) {
    forall i :: 0 <= i < |packets| ==> |packets[i]| == size
  }

  lemma {:induction false} FramingRoundTrip(packets: seq<seq<Byte>>, size: nat)
    requires 0 < size && Sized(packets, size)
    ensures Unframe(Frames(packets), size) == packets
  {
    if packets != [] {
      var rest := Frames(packets[1..]);
      assert Frames(packets)[..size] == packets[0] && Frames(packets)[size..] == rest;
      FramingRoundTrip(packets[1..], size);
    }
  }

  lemma {:induction false} FramesAppend(packets: seq<seq<Byte>>, packet: seq<Byte>)
    ensures Frames(packets + [packet]) == Frames(packets) + packet
  {
    if packets != [] {
      assert (packets + [packet])[1..] == packets[1..] + [packet];
      FramesAppend(packets[1..], packet);
    }
  }

  /** A list of packets through send_all: however send() splits them, exactly their bytes leave. */
  method SendEach(socket: Socket, packets: seq<seq<Byte>>)
    modifies socket`sent
    ensures socket.sent == old(socket.sent) + Frames(packets)
  {
    for i := 0 to |packets|
      invariant socket.sent == old(socket.sent) + Frames(packets[..i])
    {
      var packet := packets[i];
      var buffer := new Byte[|packet|](k requires 0 <= k < |packet| => packet[k]);
      var rc := SendAll(Repaired, socket, buffer);
      assert buffer[..] == packet;
      FramesAppend(packets[..i], packet);
      assert packets[..i + 1] == packets[..i] + [packet];
    }
    assert packets[..|packets|] == packets;
  }

  /** recv_all until it reports the end: however recv() splits the stream, the same packets. */
  method RecvEach(socket: Socket, size: nat) returns (packets: seq<seq<Byte>>)
    requires 0 < size
    modifies socket`incoming
    ensures packets == Unframe(old(socket.incoming), size) && socket.incoming == []
  {
    packets := [];
    var buffer := new Byte[size](_ => 0);
    var rc := RecvAll(Repaired, socket, buffer);
    ghost var start := socket.incoming;
    while rc != 0
      invariant fresh(buffer) && buffer.Length == size
      invariant rc == 0 ==> packets == Unframe(old(socket.incoming), size) && socket.incoming == []
      invariant rc != 0 ==>
                  packets + [buffer[..]] + Unframe(socket.incoming, size) == Unframe(old(socket.incoming), size)
      decreases |socket.incoming|, rc
    {
      packets := packets + [buffer[..]];
      rc := RecvAll(Repaired, socket, buffer);
    }
  }

  /** End to end: for every split of the sends and every independent split of the receives, the
      receiver gets the packets given to the sender, in order, and nothing else. */
  method SendThenReceive(packets: seq<seq<Byte>>, size: nat) returns (received: seq<seq<Byte>>)
    requires 0 < size && Sized(packets, size)
    ensures received == packets
  {
    var sender := new Socket([]);
    SendEach(sender, packets);
    assert sender.sent == Frames(packets);
    var receiver := new Socket(sender.sent);
    FramingRoundTrip(packets, size);
    received := RecvEach(receiver, size);
  }

  /** The stream the code as written sends: each packet, then again its first extra[i] bytes. */
  function Stuttered(packets: seq<seq<Byte>>, extra: seq<nat>): seq<Byte>
    requires |extra| == |packets| && forall i :: 0 <= i < |packets| ==> extra[i] <= |packets[i]|
  {
    if packets == [] then []
    else packets[0] + packets[0][..extra[0]] + Stuttered(packets[1..], extra[1..])
  }

  /** As written, more bytes leave than were given, unless there was nothing to send. */
  lemma {:induction false} AsWrittenSendsMore(packets: seq<seq<Byte>>, extra: seq<nat>)
    requires |extra| == |packets| && forall i :: 0 <= i < |packets| ==> 0 < extra[i] <= |packets[i]|
    ensures |Stuttered(packets, extra)| >= |Frames(packets)| + |packets|
    ensures Stuttered(packets, extra) == Frames(packets) <==> packets == []
  {
    if packets != [] {
      AsWrittenSendsMore(packets[1..], extra[1..]);
    }
  }

  /** One recv_all as written that takes j extra bytes, on a packet sent with k extra bytes: the
      packet and the place in the stream come out right exactly when j == k. */
  lemma AsWrittenPairInStep(packet: seq<Byte>, k: nat, j: nat, rest: seq<Byte>)
    requires k <= |packet| && j <= |packet| && j <= k + |rest|
    ensures var stream := packet + packet[..k] + rest;
            var size := |packet|;
            stream[size..size + j] + stream[j..size] == packet && stream[size + j..] == rest <==> j == k
  {
    var stream := packet + packet[..k] + rest;
    var size := |packet|;
    if j == k {
      assert stream[size..size + j] == packet[..k] && stream[j..size] == packet[k..];
      assert stream[size + j..] == rest;
    } else {
      assert |stream[size + j..]| == k + |rest| - j;
    }
  }

  function Twice<T>(items: seq<T>): seq<T> {
    if items == [] then [] else [items[0], items[0]] + Twice(items[1..])
  }

  lemma {:induction false} TwiceAt<T>(items: seq<T>)
    ensures |Twice(items)| == 2 * |items|
    ensures forall i :: 0 <= i < |Twice(items)| ==> Twice(items)[i] == items[i / 2]
  {
    if items != [] {
      var rest := Twice(items[1..]);
      TwiceAt(items[1..]);
      forall i | 0 <= i < |Twice(items)|
        ensures Twice(items)[i] == items[i / 2]
      {
        if 2 <= i {
          assert Twice(items)[i] == rest[i - 2] && i / 2 == (i - 2) / 2 + 1;
        }
      }
    }
  }

  /** The server reads each packet once with MSG_WAITALL, so when the extra sends go out whole it
      sees every message of a client twice: the stream is that of a client that sends it twice. */
  lemma {:induction false} ServerSeesTwice(packets: seq<seq<Byte>>, extra: seq<nat>, size: nat)
    requires 0 < size && Sized(packets, size)
    requires |extra| == |packets| && forall i :: 0 <= i < |packets| ==> extra[i] == size
    ensures Stuttered(packets, extra) == Frames(Twice(packets))
    ensures Unframe(Stuttered(packets, extra), size) == Twice(packets)
  {
    if packets != [] {
      var p, rest := packets[0], Twice(packets[1..]);
      ServerSeesTwice(packets[1..], extra[1..], size);
      assert p[..size] == p;
      assert ([p, p] + rest)[1..] == [p] + rest && ([p] + rest)[1..] == rest;
      assert p + p + Frames(rest) == p + (p + Frames(rest));
    }
    TwiceAt(packets);
    FramingRoundTrip(Twice(packets), size);
  }
}
