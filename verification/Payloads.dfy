/** The text of a client message: client_set_payload prints it, TCP_server_get_sub_args scans it. */
module Payloads {
  import opened Base
  import opened Clients
  import opened Packets

  /** What sscanf assigns; None where it leaves the variable as it was. Overrun: it reads on past the
      end of the payload, or writes on past the end of the topic's buffer. */
  datatype Scanned = Scanned(topic: Option<Str>, sf: Option<int>) | Overrun

  predicate IsSpace(b: Byte) { b == 32 || 9 <= b <= 13 }

  predicate IsDigit(b: Byte) { 48 <= b <= 57 }

  function SkipSpace(s: Str): Str {
    if s == [] || !IsSpace(s[0]) then s else SkipSpace(s[1..])
  }

  /** The longest prefix without white space, which %s reads. */
  function Word(s: Str): (w: Str)
    ensures w <= s
  {
    if s == [] || IsSpace(s[0]) then [] else [s[0]] + Word(s[1..])
  }

  function Digits(s: Str): (d: Str)
    ensures d <= s && forall i :: 0 <= i < |d| ==> IsDigit(d[i])
  {
    if s == [] || !IsDigit(s[0]) then [] else [s[0]] + Digits(s[1..])
  }

  function Value(d: Str): int {
    if d == [] then 0 else 10 * Value(d[..|d| - 1]) + (d[|d| - 1] as int - 48)
  }

  const ULONG_MAX: int := 0xFFFF_FFFF_FFFF_FFFF

  /** The low byte of an unsigned long: a larger number is saturated, a negative one wraps around. */
  function LowByte(negative: bool, n: int): int {
    if n > ULONG_MAX then 255 else (if negative then -n else n) % 256
  }

  /** Whether a minus sign comes first, and the digits behind the sign, if there is one. */
  function SignAndDigits(s: Str): (bool, Str) {
    var signed := s != [] && (s[0] == 43 || s[0] == 45);
    (signed && s[0] == 45, Digits(if signed then s[1..] else s))
  }

  /** %hhu: an unsigned long, as strtoul reads it, cut to its low byte. */
  function UnsignedChar(s: Str): Option<int> {
    var (negative, d) := SignAndDigits(s);
    if d == [] then None else Some(LowByte(negative, Value(d)))
  }

  /** sscanf(payload, "%s %hhu", ...). */
  function Scan(payload: seq<Byte>): Scanned {
    var s := SkipSpace(CString(payload));
    var w := Word(s);
    if |CString(payload)| == |payload| || TOPIC_LEN <= |w| then Overrun
    else if w == [] then Scanned(None, None)
    else Scanned(Some(w), UnsignedChar(SkipSpace(s[|w|..])))
  }

  /** "<topic> <sf>". */
  function SubscribeText(topic: Str, sf: int): Str {
    topic + [32, if sf != 0 then 49 else 48]
  }

  ghost predicate IsTopic(t: Str) {
    t != [] && forall i :: 0 <= i < |t| ==> t[i] != 0 && !IsSpace(t[i])
  }

  lemma {:induction false} WordOf(t: Str, rest: Str)
    requires forall i :: 0 <= i < |t| ==> !IsSpace(t[i])
    requires rest == [] || IsSpace(rest[0])
    ensures Word(t + rest) == t
  {
    if t == [] {
      assert t + rest == rest;
    } else {
      assert (t + rest)[1..] == t[1..] + rest;
      WordOf(t[1..], rest);
    }
  }

  lemma ScanText(topic: Str, rest: Str, payload: seq<Byte>)
    requires IsTopic(topic) && (rest == [] || IsSpace(rest[0]))
    requires CString(payload) == topic + rest
    ensures Scan(payload) == if |payload| == |topic + rest| || TOPIC_LEN <= |topic| then Overrun
                             else Scanned(Some(topic), UnsignedChar(SkipSpace(rest)))
  {
    assert (topic + rest)[0] == topic[0];
    WordOf(topic, rest);
    assert (topic + rest)[|topic|..] == rest;
  }

  lemma FlagOf(flag: Byte)
    requires flag == 48 || flag == 49
    ensures UnsignedChar(SkipSpace([32, flag])) == Some(flag as int - 48)
  {
    assert [32, flag][1..] == [flag];
    assert [flag][1..] == [];
    assert Digits([flag]) == [flag] + Digits([]) == [flag];
    assert [flag][..0] == [];
    assert Value([flag]) == 10 * Value([]) + (flag as int - 48);
    assert SkipSpace([32, flag]) == [flag];
  }

  lemma NoFlag()
    ensures UnsignedChar(SkipSpace([32])) == None
  {
    assert [32 as Byte][1..] == [];
  }

  /** The payload of a message as the server stores it: the text is cut to its first 50 bytes. */
  lemma PayloadOnArrival(kind: Byte, text: Str)
    requires |text| < CTOS_MAXLEN && 0 !in text
    ensures CString(Shorn(ClientMessage(kind, text))[1..]) == if |text| <= 50 then text else text[..50]
  {
    var arrived := Shorn(ClientMessage(kind, text))[1..];
    var kept := if |text| <= 50 then text else text[..50];
    assert kept <= arrived;
    CStringUnique(arrived, kept);
  }

  /** The id of a NEW message, which has to fit a buffer of its own. None: it overruns that buffer. */
  function IdOf(payload: seq<Byte>): Option<Str> {
    if |CString(payload)| < ID_MAXLEN then Some(CString(payload)) else None
  }

  /** An id is taken over whole exactly when it has at most 9 bytes, and overruns the buffer otherwise. */
  lemma IdRoundTrip(id: Str)
    requires |id| < CTOS_MAXLEN && 0 !in id
    ensures IdOf(Shorn(ClientMessage(MSG_NEW, id))[1..]) == if |id| <= 9 then Some(id) else None
  {
    PayloadOnArrival(MSG_NEW, id);
  }

  /** An unsubscribed topic reaches the server whole exactly when it has at most 50 bytes. */
  lemma TextRoundTrip(kind: Byte, text: Str)
    requires |text| < CTOS_MAXLEN && 0 !in text
    ensures CString(Shorn(ClientMessage(kind, text))[1..]) == text <==> |text| <= 50
  {
    PayloadOnArrival(kind, text);
  }

  lemma ShortTopicArrives(topic: Str, flag: Byte)
    requires IsTopic(topic) && |topic| <= 48 && (flag == 48 || flag == 49)
    ensures Scan(Shorn(ClientMessage(MSG_SUBSCRIBE, topic + [32, flag]))[1..])
            == Scanned(Some(topic), Some(flag as int - 48))
  {
    PayloadOnArrival(MSG_SUBSCRIBE, topic + [32, flag]);
    ScanText(topic, [32, flag], Shorn(ClientMessage(MSG_SUBSCRIBE, topic + [32, flag]))[1..]);
    FlagOf(flag);
  }

  lemma LongTopicLosesFlag(topic: Str, flag: Byte)
    requires IsTopic(topic) && |topic| == 49 && (flag == 48 || flag == 49)
    ensures Scan(Shorn(ClientMessage(MSG_SUBSCRIBE, topic + [32, flag]))[1..]) == Scanned(Some(topic), None)
  {
    PayloadOnArrival(MSG_SUBSCRIBE, topic + [32, flag]);
    assert (topic + [32, flag])[..50] == topic + [32];
    ScanText(topic, [32], Shorn(ClientMessage(MSG_SUBSCRIBE, topic + [32, flag]))[1..]);
    NoFlag();
  }

  /** Printing, framing, unframing and scanning a subscription gives back its topic, and its flag
      as 0 or 1, exactly when the topic has at most 48 bytes. The longest topic the client's buffer
      holds, 49 bytes, arrives without its flag, which the server then leaves unset. */
  lemma SubscribeRoundTrip(topic: Str, sf: int)
    requires IsTopic(topic) && |topic| < TOPIC_LEN
    ensures var scanned := Scan(Shorn(ClientMessage(MSG_SUBSCRIBE, SubscribeText(topic, sf)))[1..]);
            && scanned.Scanned? && scanned.topic == Some(topic)
            && (scanned.sf == Some(if sf != 0 then 1 else 0) <==> |topic| <= 48)
            && (scanned.sf == None <==> |topic| == 49)
  {
    if |topic| <= 48 {
      ShortTopicArrives(topic, if sf != 0 then 49 else 48);
    } else {
      LongTopicLosesFlag(topic, if sf != 0 then 49 else 48);
    }
  }

  /** strlen. */
  method Strlen(s: array<Byte>) returns (n: nat)
    requires |CString(s[..])| < s.Length
    ensures n == |CString(s[..])|
  {
    ghost var text := CString(s[..]);
    assert s[..][|text|] == 0;
    assert forall k :: 0 <= k < |text| ==> s[k] == text[k];
    n := 0;
    while s[n] != 0
      invariant 0 <= n <= |text|
      decreases |text| - n
    {
      n := n + 1;
    }
  }

  /** strcat. */
  method Strcat(dst: array<Byte>, s: Str)
    requires |CString(dst[..])| + |s| < dst.Length
    modifies dst
    ensures dst[..] == Spliced(old(dst[..]), |CString(old(dst[..]))|, s + [0])
  {
    var end := Strlen(dst);
    for i := 0 to |s|
      invariant forall k :: 0 <= k < i ==> dst[end + k] == s[k]
      invariant forall k :: 0 <= k < end || end + i <= k < dst.Length ==> dst[k] == old(dst[k])
    {
      dst[end + i] := s[i];
    }
    dst[end + |s|] := 0;
    assert dst[..] == Spliced(old(dst[..]), end, s + [0]);
  }

  lemma ZeroFirst(a: Str, b: Str, n: nat)
    requires 0 < n
    ensures a + (b + [0]) + Zeros(n - 1) == a + b + Zeros(n)
  {
    assert [0] + Zeros(n - 1) == Zeros(n);
    assert a + (b + [0]) + Zeros(n - 1) == a + b + ([0] + Zeros(n - 1));
  }

  /** A text in a zeroed buffer. */
  lemma TextInZeros(text: Str, n: nat)
    requires 0 !in text
    ensures CString(text + Zeros(n)) == text
  {
    assert 0 < n ==> (text + Zeros(n))[|text|] == Zeros(n)[0];
    CStringUnique(text + Zeros(n), text);
  }

  lemma CatIsNext(done: Str, s: Str, n: nat)
    requires |s| < n
    ensures Spliced(done + Zeros(n), |done|, s + [0]) == done + s + Zeros(n - |s|)
  {
    var text := s + [0];
    assert |text| == |s| + 1;
    FillNext(done, text, n);
    ZeroFirst(done, s, n - |s|);
  }

  /** strcat, on a text in a zeroed buffer. */
  method Append(buffer: array<Byte>, ghost done: Str, s: Str, ghost n: nat)
    requires buffer[..] == done + Zeros(n) && 0 !in done && |s| < n
    modifies buffer
    ensures buffer[..] == done + s + Zeros(n - |s|)
  {
    TextInZeros(done, n);
    CatIsNext(done, s, n);
    Strcat(buffer, s);
  }

  /** client_set_payload, on the client's 52-byte buffer. */
  method SetPayload(payload: array<Byte>, topic: Str, sf: int)
    requires payload.Length == CTOS_MAXLEN && |topic| < TOPIC_LEN && 0 !in topic
    modifies payload
    ensures CString(payload[..]) == SubscribeText(topic, sf)
    ensures payload[..] == SubscribeText(topic, sf) + Zeros(CTOS_MAXLEN - |topic| - 2)
  {
    ClearBuffer(payload);
    assert Zeros(CTOS_MAXLEN) == [] + Zeros(CTOS_MAXLEN) && [] + topic == topic;
    Append(payload, [], topic, CTOS_MAXLEN);
    Append(payload, topic, if sf != 0 then [32, 49] else [32, 48], CTOS_MAXLEN - |topic|);
    TextInZeros(SubscribeText(topic, sf), CTOS_MAXLEN - |topic| - 2);
  }
}
