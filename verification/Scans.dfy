/** What TCP_server_get_sub_args reads of any payload, and not only of those the client prints. */
module Scans {
  import opened Base
  import opened Payloads
  import opened Decimals
  import opened Packets

  ghost predicate AllSpace(s: Str) {
    forall i :: 0 <= i < |s| ==> IsSpace(s[i])
  }

  lemma {:induction false} BlanksAreSkipped(blanks: Str, rest: Str)
    requires AllSpace(blanks) && (rest == [] || !IsSpace(rest[0]))
    ensures SkipSpace(blanks + rest) == rest
  {
    if blanks == [] {
      assert blanks + rest == rest;
    } else {
      assert (blanks + rest)[1..] == blanks[1..] + rest;
      BlanksAreSkipped(blanks[1..], rest);
    }
  }

  lemma {:induction false} DigitsAreRead(d: Str, rest: Str)
    requires AllDigits(d) && (rest == [] || !IsDigit(rest[0]))
    ensures Digits(d + rest) == d
  {
    if d == [] {
      assert d + rest == rest;
    } else {
      assert (d + rest)[1..] == d[1..] + rest;
      DigitsAreRead(d[1..], rest);
    }
  }

  /** The low byte differs from the number, or from its negative, by a multiple of 256, unless the number
      is no unsigned long. */
  lemma LowByteIs(negative: bool, n: int) returns (q: int)
    requires 0 <= n
    ensures 0 <= LowByte(negative, n) < 256
    ensures if n <= 0xFFFF_FFFF_FFFF_FFFF then (if negative then -n else n) == 256 * q + LowByte(negative, n)
            else LowByte(negative, n) == 255
  {
    q := (if negative then -n else n) / 256;
  }

  lemma DigitsOfNumber(sign: Str, d: Str, rest: Str)
    requires sign in {[], [43], [45]} && d != [] && AllDigits(d) && (rest == [] || !IsDigit(rest[0]))
    ensures SignAndDigits(sign + d + rest) == (sign == [45], d)
  {
    DigitsAreRead(d, rest);
    var all := sign + (d + rest);
    assert sign + d + rest == all;
    if sign == [] {
      assert all == d + rest && all[0] == d[0] && IsDigit(d[0]);
    } else {
      assert all[0] == sign[0] && all[1..] == d + rest;
    }
  }

  /** A flag is any number, with a sign or without, up to the first byte that is no digit; it is cut to its
      low byte. */
  lemma FlagIsRead(sign: Str, n: nat, rest: Str)
    requires sign in {[], [43], [45]} && (rest == [] || !IsDigit(rest[0]))
    ensures UnsignedChar(sign + Decimal(n) + rest) == Some(LowByte(sign == [45], n))
  {
    DecimalReads(n);
    DigitsOfNumber(sign, Decimal(n), rest);
  }

  /** Blanks, a topic, blanks, and a flag with anything behind it: the payload of a subscription. */
  function Arguments(blanks: Str, topic: Str, gap: Str, flag: Str): Str {
    blanks + (topic + (gap + flag))
  }

  lemma TopicIsScanned(payload: seq<Byte>, blanks: Str, topic: Str, rest: Str)
    requires AllSpace(blanks) && IsTopic(topic) && (rest == [] || IsSpace(rest[0]))
    requires TextOf(blanks + (topic + rest), payload) && |blanks + (topic + rest)| < |payload|
    ensures Scan(payload) == if TOPIC_LEN <= |topic| then Overrun
                             else Scanned(Some(topic), UnsignedChar(SkipSpace(rest)))
  {
    var text := blanks + (topic + rest);
    CStringUnique(payload, text);
    assert (topic + rest)[0] == topic[0];
    BlanksAreSkipped(blanks, topic + rest);
    WordOf(topic, rest);
    assert (topic + rest)[|topic|..] == rest;
  }

  /** The topic is the first word, wherever it starts, and the flag the number behind it; a topic of 50
      bytes or more overruns its buffer. */
  lemma ArgumentsAreScanned(payload: seq<Byte>, blanks: Str, topic: Str, gap: Str, sign: Str, n: nat, rest: Str)
    requires AllSpace(blanks) && IsTopic(topic) && AllSpace(gap) && gap != []
    requires sign in {[], [43], [45]} && (rest == [] || !IsDigit(rest[0]))
    requires var text := Arguments(blanks, topic, gap, sign + Decimal(n) + rest);
             TextOf(text, payload) && |text| < |payload|
    ensures Scan(payload) == if TOPIC_LEN <= |topic| then Overrun
                             else Scanned(Some(topic), Some(LowByte(sign == [45], n)))
  {
    var flag := sign + Decimal(n) + rest;
    DecimalReads(n);
    assert flag[0] == (sign + Decimal(n))[0];
    assert (gap + flag)[0] == gap[0];
    TopicIsScanned(payload, blanks, topic, gap + flag);
    BlanksAreSkipped(gap, flag);
    FlagIsRead(sign, n, rest);
  }

  /** Blanks alone name no topic. */
  lemma BlanksNameNothing(payload: seq<Byte>, blanks: Str)
    requires AllSpace(blanks) && TextOf(blanks, payload) && |blanks| < |payload|
    ensures Scan(payload) == Scanned(None, None)
  {
    CStringUnique(payload, blanks);
    BlanksAreSkipped(blanks, []);
    assert blanks + [] == blanks;
  }
}
