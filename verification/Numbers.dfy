/** The numbers of a subscription message, as TCP_client_print_subscription_message prints them. */
module Numbers {
  import opened Base
  import opened Packets
  import opened Payloads
  import opened Floats
  import opened PowersOfTen
  import opened Decimals

  // ---- bytes

  /** A uint32_t as the (little-endian) host loads it. */
  function FromLe32(b: seq<Byte>): (n: nat)
    requires |b| == 4
    ensures n < 0x1_0000_0000
  {
    FromLe16(b[..2]) + 0x1_0000 * FromLe16(b[2..])
  }

  function Ntohs(n: nat): nat {
    n % 0x100 * 0x100 + n / 0x100 % 0x100
  }

  function Ntohl(n: nat): nat {
    Ntohs(n % 0x1_0000) * 0x1_0000 + Ntohs(n / 0x1_0000)
  }

  /** The big-endian number of the bytes. */
  function Big(b: seq<Byte>): nat {
    if b == [] then 0 else 0x100 * Big(b[..|b| - 1]) + b[|b| - 1] as int
  }

  lemma ShortIsBig(b: seq<Byte>)
    requires |b| == 2
    ensures Ntohs(FromLe16(b)) == 0x100 * (b[0] as int) + b[1] as int == Big(b)
  {
    assert b[..1] == [b[0]] && b[..1][..0] == [];
    assert Big(b[..1]) == b[0] as int;
  }

  lemma Halves(low: nat, high: nat)
    requires low < 0x1_0000
    ensures (low + 0x1_0000 * high) % 0x1_0000 == low && (low + 0x1_0000 * high) / 0x1_0000 == high
  {
  }

  lemma BigInHalves(b: seq<Byte>)
    requires |b| == 4
    ensures Big(b) == 0x1_0000 * Big(b[..2]) + Big(b[2..])
  {
    assert b[..3][..2] == b[..2] && b[2..][..1] == [b[2]] && b[2..][..1][..0] == [];
    assert Big(b[..3]) == 0x100 * Big(b[..2]) + b[2] as int;
    assert Big(b[2..][..1]) == b[2] as int;
  }

  /** What is read is the big-endian number of the bytes. */
  lemma LongIsBig(b: seq<Byte>)
    requires |b| == 4
    ensures Ntohl(FromLe32(b)) == Big(b) < 0x1_0000_0000
    ensures Big(b) == 0x100_0000 * (b[0] as int) + 0x1_0000 * (b[1] as int) + 0x100 * (b[2] as int) + b[3] as int
  {
    ShortIsBig(b[..2]);
    ShortIsBig(b[2..]);
    Halves(FromLe16(b[..2]), FromLe16(b[2..]));
    BigInHalves(b);
  }

  // ---- INT

  function SignText(sign: Byte): Str {
    if sign != 0 then [45] else []
  }

  /** %d of a uint32_t. */
  function SignedDecimal(n: nat): Str
    requires n < 0x1_0000_0000
  {
    if n < 0x8000_0000 then Decimal(n) else [45] + Decimal(0x1_0000_0000 - n)
  }

  function IntText(sign: Byte, n: nat): Str
    requires n < 0x1_0000_0000
  {
    SignText(sign) + SignedDecimal(n)
  }

  /** A minus sign exactly if negative, and behind it the text of n in units of 10^-d. */
  ghost predicate Shows(text: Str, negative: bool, n: nat, d: nat) {
    if negative then text != [] && text[0] == 45 && Reads(text[1..], n, d) else Reads(text, n, d)
  }

  /** The first byte tells the sign, and what is shown is one text. */
  lemma ShowsIff(text: Str, negative: bool, n: nat, d: nat)
    ensures Shows(text, negative, n, d) ==> text != [] && (text[0] == 45 <==> negative)
    ensures Shows(text, negative, n, d) <==> text == (if negative then [45] else []) + Fixed(n, d)
  {
    if negative {
      FixedIff(if text == [] then [] else text[1..], n, d);
      FixedIff(Fixed(n, d), n, d);
      assert text != [] ==> text == [text[0]] + text[1..];
      assert ([45] + Fixed(n, d))[1..] == Fixed(n, d);
    } else {
      FixedIff(text, n, d);
      assert [] + Fixed(n, d) == Fixed(n, d);
      assert Reads(text, n, d) && d != 0 ==> text[0] == text[..|text| - d - 1][0];
    }
  }

  lemma WholeText(n: nat)
    ensures Fixed(n, 0) == Decimal(n)
  {
    assert Decimal(n) + [] == Decimal(n);
  }

  /** The number sent is the number printed exactly when it fits in 31 bits: from 2^31 on the conversion
      takes it for a negative number, whose sign comes behind that of the message. */
  lemma IntIsExact(sign: Byte, n: nat)
    requires n < 0x1_0000_0000
    ensures Shows(IntText(sign, n), sign != 0, n, 0) <==> n < 0x8000_0000
    ensures 0x8000_0000 <= n ==>
              var text := IntText(sign, n);
              if sign != 0 then text[0] == 45 && Shows(text[1..], true, 0x1_0000_0000 - n, 0)
              else Shows(text, true, 0x1_0000_0000 - n, 0)
  {
    WholeText(n);
    ShowsIff(IntText(sign, n), sign != 0, n, 0);
    if 0x8000_0000 <= n {
      var m := 0x1_0000_0000 - n;
      WholeText(m);
      ShowsIff([45] + Decimal(m), true, m, 0);
      assert sign != 0 ==> IntText(sign, n)[1..] == [45] + Decimal(m);
      assert sign == 0 ==> IntText(sign, n) == [45] + Decimal(m);
    }
  }

  // ---- printing through binary floating point

  /** printf's %.<d>f, of a non-negative number: an integer count of units of 10^-d. */
  function Printed(v: real, d: nat): nat
    requires 0.0 <= v
  {
    TensZero(d);
    TensDiff(0.0, v, d);
    Nearest(Tens(v, d))
  }

  /** (float) n / 100 is a division of binary32 numbers. */
  function ShortRealText(n: nat): Str {
    Fixed(Printed(Round(BINARY32, n as real / 100.0), 2), 2)
  }

  /** significand / pow(10, exponent), a division of binary64 numbers, assigned to a float. */
  function FloatValue(s: nat, power: real): (v: real)
    requires 0.0 < power
    ensures 0.0 <= v
  {
    Round(BINARY32, Round(BINARY64, Quotient(s, power)))
  }

  function Quotient(s: nat, power: real): (y: real)
    requires 0.0 < power
    ensures 0.0 <= y && y * power == s as real
  {
    s as real / power
  }

  function FloatText(sign: Byte, s: nat, e: nat, power: real): Str
    requires 0.0 < power
  {
    SignText(sign) + Fixed(Printed(FloatValue(s, power), e), e)
  }

  /** pow(10, e) is within one unit of the last place. */
  ghost predicate Accurate(power: real, e: nat) {
    0.0 < power && Abs(power - Tens(1.0, e)) <= Scale(Tens(1.0, e), -52)
  }

  // ---- the errors, in units of the last digit printed

  /** The division and the rounding to binary64 are off by less than 2^-50 of the number, and of one unit. */
  lemma DoubleNear(y: real, e: nat)
    requires 0.0 <= y && e <= 255
    ensures 1125899906842624.0 * Abs(Tens(Round(BINARY64, y), e) - Tens(y, e)) <= Tens(y, e) + 1.0
  {
    var d := Round(BINARY64, y);
    RoundError(BINARY64, y);
    TensDiff(d, y, e);
    TensDiff(0.0, y, e);
    TensZero(e);
    if Abs(d - y) <= Scale(y, -53) {
      TensDiff(Abs(d - y), Scale(y, -53), e);
      TensScale(y, e, -53);
      ScaleMono(Tens(y, e), -53, -50);
      ScaleFifty(Tens(y, e), -50);
    } else {
      TensDiff(Abs(d - y), Scale(0.5, -1074), e);
      TensScale(0.5, e, -1074);
      TensBelow(0.5, e, 85);
      ScaleDiff(Tens(0.5, e), Scale(0.5, 850), -1074);
      ScaleScale(0.5, 850, -1074);
      ScaleMono(0.5, -224, -50);
      ScaleFifty(0.5, -50);
    }
  }

  /** The rounding to binary32 is off by at most 2^-24 of the number, or an eighth of a unit. */
  lemma FloatNear(d: real, e: nat)
    requires 0.0 <= d && e <= 44
    ensures var error := Abs(Tens(Round(BINARY32, d), e) - Tens(d, e));
            16777216.0 * error <= Tens(d, e) || error <= 0.125
  {
    var f := Round(BINARY32, d);
    RoundError(BINARY32, d);
    TensDiff(f, d, e);
    if Abs(f - d) <= Scale(d, -24) {
      TensDiff(Abs(f - d), Scale(d, -24), e);
      TensScale(d, e, -24);
      ScaleTwentyFour(Tens(d, e));
    } else {
      TensDiff(Abs(f - d), Scale(0.5, -149), e);
      TensScale(0.5, e, -149);
      EighthUnit(e);
    }
  }

  lemma EighthUnit(e: nat)
    requires e <= 44
    ensures Scale(Tens(0.5, e), -149) <= 0.125
  {
    TensMono(0.5, e, 44);
    assert Tens(0.5, 44) == 100.0 * Tens(0.5, 42) by {
      assert Tens(0.5, 43) == 10.0 * Tens(0.5, 42);
    }
    TensBelow(0.5, 42, 14);
    assert Scale(0.5, 147) == 128.0 * Scale(0.5, 140) by {
      ScaleSeven(0.5, 140);
    }
    ScaleSign(0.5, 140);
    ScaleDiff(Tens(0.5, e), Scale(0.5, 147), -149);
    ScaleScale(0.5, 147, -149);
    ScaleStep(0.5, -2);
    ScaleStep(0.5, -1);
  }

  lemma PowerNear(s: nat, e: nat, power: real)
    requires Accurate(power, e)
    ensures 2251799813685248.0 * Abs(Tens(Quotient(s, power), e) - s as real) <= s as real
  {
    var t, y := Tens(1.0, e), Quotient(s, power);
    TensProduct(y, t, e);
    ScaleFifty(t, -50);
    ScaleStep(t, -52);
    ScaleStep(t, -51);
    QuotientError(y, power, t, s as real);
  }

  /** FLOAT: every significand below 2^23 is printed with exactly its digits, the point moved. The
      errors of pow, of the division and of both roundings stay together below half a unit. */
  lemma FloatIsExact(s: nat, e: nat, power: real)
    requires s < 0x80_0000 && e <= 44 && Accurate(power, e)
    ensures Printed(FloatValue(s, power), e) == s
  {
    var y := Quotient(s, power);
    var d := Round(BINARY64, y);
    PowerNear(s, e, power);
    DoubleNear(y, e);
    FloatNear(d, e);
    NearestIs(Tens(Round(BINARY32, d), e), s);
  }

  /** For e from 45 on, numbers of a few units lie below the first binade of binary32. */
  lemma BelowFirstBinade(d: real, e: nat)
    requires 45 <= e && 0.0 <= d && Tens(d, e) < 3.0
    ensures Round(BINARY32, d) == RoundAt(d, -149)
  {
    assert Below(BINARY32, d, -149) by {
      var top := Scale(1.0, -125);
      if top <= d {
        TensDiff(top, d, e);
        TensScale(1.0, e, -125);
        FirstBinadeUnits(e);
      }
    }
    ExponentIs(BINARY32, d, -149);
  }

  lemma FirstBinadeUnits(e: nat)
    requires 45 <= e
    ensures 3.0 <= Scale(Tens(1.0, e), -125)
  {
    var t := Tens(1.0, e);
    TensMono(1.0, 45, e);
    LeastBit(1.0);
    ScaleUp(1.0, 139);
    ScaleDiff(Scale(1.0, 139), t, -125);
    ScaleScale(1.0, 139, -125);
    ScaleUp(1.0, 4);
    ScaleStep(1.0, 3);
    ScaleStep(1.0, 2);
    ScaleStep(1.0, 1);
    ScaleStep(1.0, 0);
  }

  /** The binary64 number nearest to 10^e is one that an accurate pow may return. */
  lemma PowerExists(e: nat) returns (power: real)
    requires e <= 255
    ensures Accurate(power, e) && Representable(BINARY64, power)
  {
    var t := Tens(1.0, e);
    TensMono(1.0, 0, e);
    power := Round(BINARY64, t);
    RoundError(BINARY64, t);
    RoundIsValue(BINARY64, t);
    ScaleMono(1.0, -1021, 0);
    ScaleStep(t, -53);
    ScaleFifty(t, -52);
    ScaleStep(t, -2);
    ScaleStep(t, -1);
  }

  /** From 45 on, the least bit of binary32 is worth more than one unit: whatever accurate pow returns,
      some significand of one or two units is not printed exactly. */
  lemma LargeExponentFails(e: nat, power: real) returns (s: nat)
    requires 45 <= e <= 255 && Accurate(power, e)
    ensures s < 0x80_0000 && Printed(FloatValue(s, power), e) != s
  {
    s := if e == 45 then 2 else 1;
    PowerNear(s, e, power);
    var y := Quotient(s, power);
    var d := Round(BINARY64, y);
    DoubleNear(y, e);
    BelowFirstBinade(d, e);
    TensZero(e);
    TensDiff(d, 0.0, e);
    LeastBit(d);
    if e == 45 {
      var f := Scale(1.0, -149);
      assert RoundAt(d, -149) == f by {
        NearestIs(Scale(d, 149), 1);
      }
      ScaleSign(1.0, -149);
      ScaleBack(1.0, 149);
      LeastBit(f);
    } else {
      TensMono(d, 46, e);
      NearestIs(Scale(d, 149), 0);
      ScaleZero(-149);
    }
  }

  /** FLOAT, for every exponent that can be sent and whatever accurate pow returns for it: all
      significands below 2^23 are printed exactly if and only if the exponent is at most 44. */
  lemma FloatIsExactIff(e: nat, power: real)
    requires e <= 255 && Accurate(power, e)
    ensures (forall s: nat :: s < 0x80_0000 ==> Printed(FloatValue(s, power), e) == s) <==> e <= 44
  {
    if e <= 44 {
      forall s: nat | s < 0x80_0000
        ensures Printed(FloatValue(s, power), e) == s
      {
        FloatIsExact(s, e, power);
      }
    } else {
      var s := LargeExponentFails(e, power);
    }
  }

  /** The text shows the sign and the count of units, and so the number sent exactly when the count is
      the significand. */
  lemma FloatTextIs(sign: Byte, s: nat, e: nat, power: real)
    requires 0.0 < power
    ensures Shows(FloatText(sign, s, e, power), sign != 0, Printed(FloatValue(s, power), e), e)
    ensures Shows(FloatText(sign, s, e, power), sign != 0, s, e) <==> Printed(FloatValue(s, power), e) == s
  {
    var text, n := FloatText(sign, s, e, power), Printed(FloatValue(s, power), e);
    ShowsIff(text, sign != 0, n, e);
    if Shows(text, sign != 0, s, e) {
      ReadsOnce(if sign != 0 then text[1..] else text, n, s, e);
    }
  }

  /** At most 24 bits from the first one set to the last. */
  predicate FewBits(s: nat) {
    s < 0x100_0000 || (s % 2 == 0 && FewBits(s / 2))
  }

  lemma TwentyFourBits()
    ensures Scale(1.0, 24) == 16777216.0
  {
    ScaleUp(1.0, 0);
    ScaleSeven(1.0, 10);
    ScaleSeven(1.0, 17);
  }

  lemma {:induction false} FewBitsAreValues(s: nat)
    ensures FewBits(s) <==> Representable(BINARY32, s as real)
  {
    TwentyFourBits();
    if s < 0x100_0000 {
      assert IsValue(BINARY32, s, 0, s as real);
    } else {
      if s % 2 == 0 {
        FewBitsAreValues(s / 2);
        HalfIsValue(s);
      } else if Representable(BINARY32, s as real) {
        var m, k :| IsValue(BINARY32, m, k, s as real);
        LargeIsMultiple(m, k, s);
      }
    }
  }

  lemma LargeIsMultiple(m: int, k: int, s: nat)
    requires IsValue(BINARY32, m, k, s as real) && 0x100_0000 <= s
    ensures 0 < k && s % 2 == 0
  {
    TwentyFourBits();
    if k <= 0 {
      ScaleMono(m as real, k, 0);
    } else {
      var n := Multiple(m, k - 1, 0);
      ScaleStep(m as real, k - 1);
    }
  }

  lemma HalfIsValue(s: nat)
    requires 0x100_0000 <= s && s % 2 == 0
    ensures Representable(BINARY32, s as real) <==> Representable(BINARY32, (s / 2) as real)
  {
    if Representable(BINARY32, s as real) {
      var m, k :| IsValue(BINARY32, m, k, s as real);
      LargeIsMultiple(m, k, s);
      ScaleStep(m as real, k - 1);
      assert IsValue(BINARY32, m, k - 1, (s / 2) as real);
    }
    if Representable(BINARY32, (s / 2) as real) {
      var m, k :| IsValue(BINARY32, m, k, (s / 2) as real);
      ScaleStep(m as real, k);
      assert IsValue(BINARY32, m, k + 1, s as real);
    }
  }

  /** Every significand is a binary64 number. */
  lemma WholeIsDouble(s: nat)
    requires s < 0x1_0000_0000
    ensures Quotient(s, 1.0) == s as real == Round(BINARY64, s as real)
  {
    ScaleFifty(1.0, 0);
    ScaleMono(1.0, 50, 53);
    assert IsValue(BINARY64, s, 0, s as real);
    RoundExact(BINARY64, s as real);
  }

  /** FLOAT without decimals, for every significand that can be sent: it is printed exactly if and only
      if it has at most 24 significant bits. */
  lemma WholeFloatIsExactIff(s: nat)
    requires s < 0x1_0000_0000
    ensures Printed(FloatValue(s, 1.0), 0) == s <==> FewBits(s)
  {
    var x := s as real;
    WholeIsDouble(s);
    FewBitsAreValues(s);
    RoundExact(BINARY32, x);
    if !FewBits(s) {
      var n := RoundIsWhole(s);
    }
  }

  lemma RoundIsWhole(s: nat) returns (n: int)
    requires 0x100_0000 <= s
    ensures Round(BINARY32, s as real) == n as real
  {
    var k := Exponent(BINARY32, s as real, -149);
    ExponentIs(BINARY32, s as real, k);
    TwentyFourBits();
    if k < 0 {
      ScaleMono(1.0, 24 + k, 24);
    }
    n := Multiple(Nearest(Scale(s as real, -k)), k, 0);
  }

  lemma OddIsHalfway(n: nat)
    requires 0x80_0000 <= n < 0x100_0000
    ensures (2 * n + 1) as real == Scale(n as real + 0.5, 1) && Fits(BINARY32, (2 * n + 1) as real, 1)
  {
    TwentyFourBits();
    ScaleStep(1.0, 24);
    ScaleStep(n as real + 0.5, 0);
  }

  lemma OddIsPrinted(n: nat, even: nat)
    requires 0x80_0000 <= n < 0x100_0000 && even == if n % 2 == 0 then n else n + 1
    ensures Printed(FloatValue(2 * n + 1, 1.0), 0) == 2 * even
  {
    WholeIsDouble(2 * n + 1);
    OddIsHalfway(n);
    TieIsEven(BINARY32, n, 1);
    ScaleStep(even as real, 0);
    NearestIs((2 * even) as real, 2 * even);
  }

  /** FLOAT without decimals: an odd number of 25 bits lies halfway between two binary32 numbers and is
      printed as the one that is a multiple of four. 16777217 is printed as 16777216. */
  lemma TieIsPrintedEven(q: nat)
    requires 0x40_0000 <= q < 0x80_0000
    ensures Printed(FloatValue(4 * q + 1, 1.0), 0) == 4 * q
    ensures Printed(FloatValue(4 * q + 3, 1.0), 0) == 4 * q + 4
  {
    OddIsPrinted(2 * q, 2 * q);
    OddIsPrinted(2 * q + 1, 2 * q + 2);
  }

  lemma TwoTens(x: real)
    ensures Tens(x, 2) == 100.0 * x
  {
    assert Tens(x, 1) == 10.0 * x;
  }

  /** A multiple of 2^-6 is as near as binary32 comes to 131072.01. */
  lemma NearestSixtyFourth(d: real)
    requires 131072.00999 < d < 131072.01001
    ensures 64.0 * Round(BINARY32, d) == 8388609.0
  {
    ScaleUp(1.0, 0);
    ScaleSeven(1.0, 10);
    ScaleStep(1.0, 17);
    ExponentIs(BINARY32, d, -6);
    ScaleSeven(d, 0);
    ScaleStep(d, 6);
    NearestIs(Scale(d, 6), 8388609);
    ScaleSeven(8388609.0, -7);
    ScaleStep(8388609.0, -7);
  }

  /** Below 2^24 already, with decimals, a significand can lose its last digit: 131072.01 is printed as
      131072.02. */
  lemma LargeSignificandFails(power: real)
    requires Accurate(power, 2)
    ensures Printed(FloatValue(13107201, power), 2) == 13107202
  {
    PowerNear(13107201, 2, power);
    var y := Quotient(13107201, power);
    var d := Round(BINARY64, y);
    DoubleNear(y, 2);
    TwoTens(d);
    NearestSixtyFourth(d);
    TwoTens(Round(BINARY32, d));
    NearestIs(Tens(Round(BINARY32, d), 2), 13107202);
  }

  /** SHORT_REAL: every 16-bit number is printed as its hundredths. */
  lemma ShortRealIsExact(n: nat)
    requires n < 0x1_0000
    ensures Reads(ShortRealText(n), n, 2)
  {
    HundredthsAreExact(n);
    FixedIff(ShortRealText(n), n, 2);
  }

  lemma HundredthsAreExact(n: nat)
    requires n < 0x1_0000
    ensures Printed(Round(BINARY32, n as real / 100.0), 2) == n
  {
    var x := n as real / 100.0;
    TwoTens(x);
    FloatNear(x, 2);
    NearestIs(Tens(Round(BINARY32, x), 2), n);
  }

  // ---- the line of a subscription message, after its name

  const CONTENT_MAXLEN := 1500

  /** What TCP_client_print_subscription_message prints of the content; power is what pow(10, exponent)
      returns. */
  function ContentText(kind: Byte, content: seq<Byte>, power: real): Str
    requires |content| == CONTENT_MAXLEN && 0.0 < power
  {
    match kind
    case 0 =>
      LongIsBig(content[1..5]);
      IntText(content[0], Ntohl(FromLe32(content[1..5])))
    case 1 => ShortRealText(Ntohs(FromLe16(content[..2])))
    case 2 => FloatText(content[0], Ntohl(FromLe32(content[1..5])), content[5], power)
    case _ => CString(content)
  }

  /** An INT shows its number exactly below 2^31, a SHORT_REAL always, and a FLOAT whenever its significand
      is below 2^23 and its exponent at most 44, both behind a minus sign for a sign byte that is not 0.
      Any other content is printed up to its terminator. */
  lemma ContentIsPrinted(kind: Byte, content: seq<Byte>, power: real)
    requires |content| == CONTENT_MAXLEN && 0.0 < power
    ensures var text, sign := ContentText(kind, content, power), content[0] != 0;
            var (n, e) := (Big(content[1..5]), content[5]);
            && (kind == 0 ==> (Shows(text, sign, n, 0) <==> n < 0x8000_0000))
            && (kind == 1 ==> Reads(text, Big(content[..2]), 2))
            && (kind == 2 && n < 0x80_0000 && e <= 44 && Accurate(power, e) ==> Shows(text, sign, n, e))
            && (kind == 2 ==> Shows(text, sign, Printed(FloatValue(n, power), e), e))
            && (kind == 2 && e == 0 && power == 1.0 ==> (Shows(text, sign, n, 0) <==> FewBits(n)))
            && (3 <= kind ==> TextOf(text, content))
  {
    LongIsBig(content[1..5]);
    ShortIsBig(content[..2]);
    var n, e := Big(content[1..5]), content[5];
    match kind
    case 0 => IntIsExact(content[0], n);
    case 1 => ShortRealIsExact(Big(content[..2]));
    case 2 =>
      FloatTextIs(content[0], n, e, power);
      if n < 0x80_0000 && e <= 44 && Accurate(power, e) {
        FloatIsExact(n, e, power);
      }
      if e == 0 && power == 1.0 {
        WholeFloatIsExactIff(n);
      }
    case _ =>
  }

  /** A STRING, or content of an unknown type, is the text in front of its terminator, or all of it. */
  lemma TextIsPrinted(kind: Byte, content: seq<Byte>, text: Str, power: real)
    requires |content| == CONTENT_MAXLEN && 0.0 < power && 3 <= kind
    requires TextOf(text, content)
    ensures ContentText(kind, content, power) == text
  {
    CStringUnique(content, text);
  }

  /** The same of a message of the server, as decoded: source address, source port, topic, data type and
      content. */
  function MessageText(message: seq<Byte>, power: real): Str
    requires |message| == STOC_LEN && 0.0 < power
  {
    var content := 6 + TOPIC_LEN + 1;
    ContentText(message[content - 1], message[content..], power)
  }
}
