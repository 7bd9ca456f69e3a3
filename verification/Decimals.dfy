/** Decimal digits, as printf writes them. */
module Decimals {
  import opened Base
  import opened Payloads

  /** %u. */
  function Decimal(n: nat): Str {
    if n < 10 then [48 + n] else Decimal(n / 10) + [48 + n % 10]
  }

  /** n without its last d digits. */
  function High(n: nat, d: nat): nat {
    if d == 0 then n else High(n / 10, d - 1)
  }

  /** The last d digits of n, zeros included. */
  function Low(n: nat, d: nat): (s: Str)
    ensures |s| == d
  {
    if d == 0 then [] else Low(n / 10, d - 1) + [48 + n % 10]
  }

  /** n in units of 10^-d: a point in front of the last d digits, and at least one digit before it. */
  function Fixed(n: nat, d: nat): Str {
    Decimal(High(n, d)) + if d == 0 then [] else [46] + Low(n, d)
  }

  ghost predicate AllDigits(s: Str) {
    forall i :: 0 <= i < |s| ==> IsDigit(s[i])
  }

  /** 10^d. */
  function TenTo(d: nat): (n: nat)
    ensures 0 < n
  {
    if d == 0 then 1 else 10 * TenTo(d - 1)
  }

  /** At least one digit, which together read as n, and no zero in front that is not needed. */
  ghost predicate ReadsWhole(text: Str, n: int) {
    text != [] && AllDigits(text) && Value(text) == n && (text[0] == 48 ==> |text| == 1)
  }

  /** A point, which is the only byte that is no digit; digits in front of it that read as whole, and d
      digits behind it that read as part. */
  ghost predicate Pointed(text: Str, whole: int, part: int, d: nat) {
    d + 1 < |text| &&
    var k := |text| - d - 1;
    ReadsWhole(text[..k], whole) && text[k] == 46 && AllDigits(text[k + 1..]) && Value(text[k + 1..]) == part
  }

  /** The text of n in units of 10^-d. */
  ghost predicate Reads(text: Str, n: nat, d: nat) {
    if d == 0 then ReadsWhole(text, n) else Pointed(text, n / TenTo(d), n % TenTo(d), d)
  }

  /** Digits in front count as many times as there are units of the digits behind. */
  lemma {:induction false} ValueConcat(a: Str, b: Str)
    ensures Value(a + b) == Value(a) * TenTo(|b|) + Value(b)
    decreases |b|
  {
    if b == [] {
      assert a + b == a;
    } else {
      var init := b[..|b| - 1];
      assert (a + b)[..|a + b| - 1] == a + init;
      ValueConcat(a, init);
      Distribute(Value(a), TenTo(|init|));
    }
  }

  lemma Distribute(x: int, y: int)
    ensures 10 * (x * y) == x * (10 * y)
  {
  }

  /** Printed digits read back as the number. */
  lemma {:induction false} DecimalReads(n: nat)
    ensures ReadsWhole(Decimal(n), n)
  {
    if n < 10 {
      assert [48 + n][..0] == [];
    } else {
      DecimalReads(n / 10);
      assert Decimal(n)[..|Decimal(n)| - 1] == Decimal(n / 10);
      assert [48][..0] == [];
    }
  }

  /** Only one text reads as n. */
  lemma {:induction false} OnlyDecimalReads(text: Str, n: nat)
    requires ReadsWhole(text, n)
    ensures text == Decimal(n)
    decreases |text|
  {
    var init := text[..|text| - 1];
    assert text == init + [text[|text| - 1]];
    if |text| == 1 {
      assert Value([]) == 0 && init == [] && text == [48 + n];
    } else {
      FirstDigit(init);
      OnlyDecimalReads(init, Value(init));
    }
  }

  lemma {:induction false} FirstDigit(s: Str)
    requires s != [] && AllDigits(s) && s[0] != 48
    ensures 0 < Value(s)
  {
    if |s| == 1 {
      assert s[..0] == [];
    } else {
      FirstDigit(s[..|s| - 1]);
    }
  }

  lemma {:induction false} HighAndLow(n: nat, d: nat)
    ensures High(n, d) == n / TenTo(d) && Value(Low(n, d)) == n % TenTo(d)
    ensures AllDigits(Low(n, d))
  {
    if d != 0 {
      var t, q, r := TenTo(d - 1), High(n / 10, d - 1), Value(Low(n / 10, d - 1));
      HighAndLow(n / 10, d - 1);
      assert Low(n, d)[..d - 1] == Low(n / 10, d - 1);
      Division(n / 10, t);
      Distribute(q, t);
      DivisionIs(n, 10 * t, q, 10 * r + n % 10);
    }
  }

  lemma Division(n: nat, t: nat)
    requires 0 < t
    ensures n == n / t * t + n % t && 0 <= n % t < t
  {
  }

  lemma DivisionIs(n: nat, t: nat, q: int, r: int)
    requires n == q * t + r && 0 <= r < t
    ensures n / t == q && n % t == r
  {
    Division(n, t);
    NoMultiple(q - n / t, t);
    assert (q - n / t) * t == q * t - n / t * t;
  }

  /** No multiple of t but 0 is less than t. */
  lemma NoMultiple(k: int, t: int)
    requires 0 < t
    ensures k < 0 ==> k * t <= -t
    ensures 0 < k ==> t <= k * t
  {
  }

  /** Digits with the value of the last ones of n are those. */
  lemma {:induction false} OnlyLow(text: Str, n: nat)
    requires AllDigits(text) && Value(text) == Value(Low(n, |text|))
    ensures text == Low(n, |text|)
    decreases |text|
  {
    if text != [] {
      var init, low := text[..|text| - 1], Low(n, |text|);
      assert low[..|text| - 1] == Low(n / 10, |init|);
      HighAndLow(n / 10, |init|);
      OnlyLow(init, n / 10);
      assert text == init + [text[|text| - 1]];
    }
  }

  lemma FixedPointed(n: nat, d: nat)
    requires d != 0
    ensures Pointed(Fixed(n, d), High(n, d), Value(Low(n, d)), d)
  {
    var high, low := Decimal(High(n, d)), Low(n, d);
    var fixed := high + ([46] + low);
    DecimalReads(High(n, d));
    HighAndLow(n, d);
    assert fixed[..|high|] == high && fixed[|high| + 1..] == low;
  }

  lemma OnlyFixedPointed(text: Str, n: nat, d: nat)
    requires d != 0 && Pointed(text, High(n, d), Value(Low(n, d)), d)
    ensures text == Fixed(n, d)
  {
    var k := |text| - d - 1;
    OnlyDecimalReads(text[..k], High(n, d));
    OnlyLow(text[k + 1..], n);
    assert text == text[..k] + ([text[k]] + text[k + 1..]);
  }

  /** What is printed, and nothing else, is the text of n in units of 10^-d. */
  lemma FixedIff(text: Str, n: nat, d: nat)
    ensures text == Fixed(n, d) <==> Reads(text, n, d)
  {
    if d == 0 {
      DecimalReads(n);
      assert Decimal(n) + [] == Decimal(n);
      if Reads(text, n, d) {
        OnlyDecimalReads(text, n);
      }
    } else {
      HighAndLow(n, d);
      FixedPointed(n, d);
      if Reads(text, n, d) {
        OnlyFixedPointed(text, n, d);
      }
    }
  }

  /** A text reads as one number only. */
  lemma ReadsOnce(text: Str, a: nat, b: nat, d: nat)
    requires Reads(text, a, d) && Reads(text, b, d)
    ensures a == b
  {
    if d != 0 {
      Division(a, TenTo(d));
      Division(b, TenTo(d));
    }
  }
}
