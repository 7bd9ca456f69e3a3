/** How far the significands reach that a FLOAT with a given number of decimals prints exactly. */
module FloatBounds {
  import opened Floats
  import opened Numbers
  import opened PowersOfTen

  /** k is the largest integer for which 2^k, in units of 10^-e, is less than one unit. */
  ghost predicate Grain(e: nat, k: int) {
    Scale(Tens(1.0, e), k) < 1.0 <= Scale(Tens(1.0, e), k + 1)
  }

  /** 2^(24 + k) in units of 10^-e: where the binary32 numbers that are less than a unit apart end. */
  function Bound(e: nat, k: int): real {
    Scale(Tens(1.0, e), 24 + k)
  }

  // ---- 5^e between powers of two

  /** 5^e. */
  function Fives(e: nat): (n: nat)
    ensures 0 < n
  {
    if e == 0 then 1 else 5 * Fives(e - 1)
  }

  /** The first power of two above f, four or eight times the one above f / 5. */
  function NextAbove(f: nat, a: nat): nat {
    if f < 4 * a then 4 * a else 8 * a
  }

  /** The first power of two above 5^e. */
  function Above(e: nat): (n: nat)
    ensures Fives(e) < n <= 2 * Fives(e)
  {
    if e == 0 then 2 else NextAbove(Fives(e), Above(e - 1))
  }

  /** f and a, powers of 5 and of 2, are neither close to each other nor to a factor of two. */
  predicate Apart(f: nat, a: nat) {
    504 * a <= 1000 * f <= 990 * a
  }

  /** The next n powers of five after f stay apart from the powers of two above them, and lead to f'. */
  predicate Leads(f: nat, a: nat, n: nat, f': nat, a': nat)
    decreases n
  {
    if n == 0 then f == f' && a == a'
    else Apart(5 * f, NextAbove(5 * f, a)) && Leads(5 * f, NextAbove(5 * f, a), n - 1, f', a')
  }

  lemma {:induction false} LeadsAt(e0: nat, f: nat, a: nat, n: nat, f': nat, a': nat, e: nat)
    requires Fives(e0) == f && Above(e0) == a && Leads(f, a, n, f', a')
    ensures Fives(e0 + n) == f' && Above(e0 + n) == a'
    ensures e0 < e <= e0 + n ==> Apart(Fives(e), Above(e))
    decreases n
  {
    if n != 0 {
      LeadsAt(e0 + 1, 5 * f, NextAbove(5 * f, a), n - 1, f', a', e);
    }
  }

  lemma FirstEleven()
    ensures Leads(1, 2, 11,
                  48828125, 67108864)
  {
  }

  lemma SecondEleven()
    ensures Leads(48828125, 67108864, 11,
                  2384185791015625, 4503599627370496)
  {
  }

  lemma ThirdEleven()
    ensures Leads(2384185791015625, 4503599627370496, 11,
                  116415321826934814453125, 151115727451828646838272)
  {
  }

  lemma FourthEleven()
    ensures Leads(116415321826934814453125, 151115727451828646838272, 11,
                  5684341886080801486968994140625, 10141204801825835211973625643008)
  {
  }

  lemma ApartFrom(e0: nat, e: nat)
    requires Fives(e0) == 1 && Above(e0) == 2 && e0 < e <= e0 + 44
    ensures Apart(Fives(e), Above(e))
  {
    FirstEleven();
    LeadsAt(e0, 1, 2, 11, 48828125, 67108864, e);
    SecondEleven();
    LeadsAt(e0 + 11, 48828125, 67108864, 11, 2384185791015625, 4503599627370496, e);
    ThirdEleven();
    LeadsAt(e0 + 22, 2384185791015625, 4503599627370496, 11, 116415321826934814453125, 151115727451828646838272, e);
    FourthEleven();
    LeadsAt(e0 + 33, 116415321826934814453125, 151115727451828646838272, 11,
            5684341886080801486968994140625, 10141204801825835211973625643008, e);
  }

  // ---- the unit of the last bit, for numbers below the bound

  lemma {:induction false} AboveIsPower(e: nat) returns (m: int)
    ensures Above(e) as real == Scale(1.0, m)
  {
    if e == 0 {
      m := 1;
      ScaleStep(1.0, 0);
    } else {
      var j := AboveIsPower(e - 1);
      ScaleStep(1.0, j);
      ScaleStep(1.0, j + 1);
      ScaleStep(1.0, j + 2);
      m := if Fives(e) < 4 * Above(e - 1) then j + 2 else j + 3;
    }
  }

  lemma {:induction false} TensAreFives(e: nat)
    ensures Tens(1.0, e) == Scale(Fives(e) as real, e)
  {
    if e != 0 {
      TensAreFives(e - 1);
      ScaleTen(Fives(e - 1) as real, e - 1);
      ScaleStep(Fives(e) as real, e - 1);
      ScaleTwoFive(Fives(e - 1) as real, e - 1);
    }
  }

  lemma {:induction false} ScaleTwoFive(x: real, k: int)
    ensures Scale(5.0 * x, k) == 5.0 * Scale(x, k)
    ensures Scale(0.99 * x, k) == 0.99 * Scale(x, k) && Scale(0.504 * x, k) == 0.504 * Scale(x, k)
    decreases if k < 0 then -k else k
  {
    if k != 0 {
      ScaleTwoFive(x, if k < 0 then k + 1 else k - 1);
    }
  }

  /** The only k for which 2^k times x lies between a half and one. */
  lemma OnlyScale(x: real, j: int, k: int)
    requires 0.0 <= x && Scale(x, j) < 1.0 <= Scale(x, j + 1) && Scale(x, k) < 1.0 <= Scale(x, k + 1)
    ensures j == k
  {
    if j < k {
      ScaleMono(x, j + 1, k);
    } else if k < j {
      ScaleMono(x, k + 1, j);
    }
  }

  lemma ApartAsReals(f: nat, a: nat)
    requires Apart(f, a)
    ensures 0.504 * a as real <= f as real <= 0.99 * a as real
  {
  }

  lemma ApartAt(e: nat)
    requires 1 <= e <= 44
    ensures 0.504 * Above(e) as real <= Fives(e) as real <= 0.99 * Above(e) as real
  {
    ApartFrom(0, e);
    ApartAsReals(Fives(e), Above(e));
  }

  /** A number, scaled down by the power of two above it. */
  lemma ScaledBelowOne(f: real, a: real, m: int)
    requires a == Scale(1.0, m) && 0.504 * a <= f <= 0.99 * a
    ensures Scale(f, -m) < 1.0 <= Scale(f, -m + 1)
    ensures 0.504 <= Scale(f, -m) <= 0.99
  {
    ScaleBack(1.0, m);
    ScaleTwoFive(a, -m);
    ScaleDiff(0.504 * a, f, -m);
    ScaleDiff(f, 0.99 * a, -m);
    ScaleStep(f, -m);
  }

  /** That unit is neither close to one unit of the last digit nor to half of one. */
  lemma GrainIsApart(e: nat, k: int)
    requires 1 <= e <= 44 && Grain(e, k)
    ensures 0.504 <= Scale(Tens(1.0, e), k) <= 0.99
  {
    var m := AboveIsPower(e);
    ApartAt(e);
    TensAreFives(e);
    GrainOf(Fives(e) as real, Above(e) as real, Tens(1.0, e), e, m, k);
  }

  lemma GrainOf(f: real, a: real, t: real, e: int, m: int, k: int)
    requires a == Scale(1.0, m) && 0.0 <= f && 0.504 * a <= f <= 0.99 * a && t == Scale(f, e)
    requires Scale(t, k) < 1.0 <= Scale(t, k + 1)
    ensures 0.504 <= Scale(t, k) <= 0.99
  {
    ScaledBelowOne(f, a, m);
    ScaleScale(f, e, k);
    ScaleScale(f, e, k + 1);
    OnlyScale(f, e + k, -m);
  }

  /** Every number of decimals has such a unit. */
  lemma GrainExists(e: nat) returns (k: int)
    requires 1 <= e <= 44
    ensures Grain(e, k)
  {
    var m := AboveIsPower(e);
    ApartAt(e);
    TensAreFives(e);
    ScaledBelowOne(Fives(e) as real, Above(e) as real, m);
    k := -m - e;
    ScaleScale(Fives(e) as real, e, k);
    ScaleScale(Fives(e) as real, e, k + 1);
  }

  // ---- up to the bound

  lemma GrainIsAboveLeast(e: nat, k: int)
    requires e <= 44 && Grain(e, k)
    ensures -149 <= k
  {
    if k < -149 {
      EighthUnit(e);
      TensZero(e);
      TensDiff(0.0, 1.0, e);
      ScaleMono(Tens(1.0, e), k + 1, -149);
      HalfOf(e, -149);
    }
  }

  lemma HalfOf(e: nat, k: int)
    ensures Tens(Scale(0.5, k), e) == Scale(Tens(0.5, e), k) == Scale(Tens(1.0, e), k) / 2.0
  {
    TensScale(0.5, e, k);
    ScaleScale(1.0, -1, k);
    TensScale(1.0, e, k - 1);
    ScaleStep(Tens(1.0, e), k - 1);
  }

  /** Below the bound, the rounding to binary32 is off by at most half of that unit. */
  lemma NearBelowBound(d: real, e: nat, k: int)
    requires 0.0 <= d && -149 <= k && Below(BINARY32, d, k)
    ensures Abs(Tens(Round(BINARY32, d), e) - Tens(d, e)) <= Scale(Tens(1.0, e), k) / 2.0
  {
    var f, j := Round(BINARY32, d), Exponent(BINARY32, d, -149);
    ExponentIs(BINARY32, d, j);
    if k < j {
      ScaleMono(1.0, 24 + k, 24 + j - 1);
    }
    RoundAtError(d, j, 0);
    ScaleMono(0.5, j, k);
    TensDiff(f, d, e);
    TensDiff(Abs(f - d), Scale(0.5, k), e);
    HalfOf(e, k);
  }

  /** The bound itself is a binary32 number, so nothing above it is rounded farther than to it. */
  lemma NearAboveBound(d: real, e: nat, k: int)
    requires 0.0 <= d && -150 <= k && !Below(BINARY32, d, k)
    ensures Abs(Tens(Round(BINARY32, d), e) - Tens(d, e)) <= Tens(d, e) - Bound(e, k)
  {
    var f, q := Round(BINARY32, d), Scale(1.0, 24 + k);
    ScaleScale(1.0, 23, k + 1);
    TwentyFourBits();
    ScaleStep(1.0, 23);
    assert IsValue(BINARY32, 0x80_0000, k + 1, q);
    RoundIsNearest(BINARY32, d, q);
    TensDiff(f, d, e);
    TensDiff(d, q, e);
    TensDiff(Abs(f - d), d - q, e);
    TensScale(1.0, e, 24 + k);
  }

  /** The binary64 quotient is the significand, but for a hundred-thousandth of a unit. */
  lemma DoubleIsClose(s: nat, e: nat, power: real)
    requires e <= 255 && Accurate(power, e) && s < 0x200_0000
    ensures 100000.0 * Abs(Tens(Round(BINARY64, Quotient(s, power)), e) - s as real) < 1.0
  {
    PowerNear(s, e, power);
    DoubleNear(Quotient(s, power), e);
  }

  lemma BoundIs(e: nat, k: int)
    ensures Bound(e, k) == 16777216.0 * Scale(Tens(1.0, e), k)
  {
    var t := Tens(1.0, e);
    ScaleUp(t, k);
    ScaleSeven(t, k + 10);
    ScaleSeven(t, k + 17);
  }

  /** FLOAT with e decimals, 1 to 44: every significand up to the bound is printed exactly. */
  lemma ExactUpToBound(s: nat, e: nat, k: int, power: real)
    requires 1 <= e <= 44 && Grain(e, k) && s as real <= Bound(e, k) && Accurate(power, e)
    ensures Printed(FloatValue(s, power), e) == s
  {
    var d := Round(BINARY64, Quotient(s, power));
    BoundIs(e, k);
    GrainIsApart(e, k);
    GrainIsAboveLeast(e, k);
    DoubleIsClose(s, e, power);
    if Below(BINARY32, d, k) {
      NearBelowBound(d, e, k);
    } else {
      NearAboveBound(d, e, k);
    }
    NearestIs(Tens(Round(BINARY32, d), e), s);
  }

  // ---- beyond the bound

  /** The m-th multiple of the unit of the last bit in the binade after the bound. */
  function Grid(e: nat, k: int, m: int): real {
    Scale(Tens(m as real, e), k + 1)
  }

  lemma GridStep(e: nat, k: int, m: int, n: int)
    requires m < n && 1 <= e <= 44 && Grain(e, k)
    ensures Grid(e, k, m) + 1.008 <= Grid(e, k, n)
  {
    TensDiff(n as real, m as real, e);
    TensDiff(1.0, n as real - m as real, e);
    ScaleDiff(Tens(n as real, e), Tens(m as real, e), k + 1);
    ScaleDiff(Tens(1.0, e), Tens(n as real - m as real, e), k + 1);
    ScaleStep(Tens(1.0, e), k);
    GrainIsApart(e, k);
  }

  /** There, a significand becomes a multiple of it. */
  lemma OnGrid(e: nat, k: int, s: nat, power: real) returns (m: int)
    requires 1 <= e <= 44 && Grain(e, k) && Accurate(power, e)
    requires Bound(e, k) + 1.0 <= s as real <= 2.0 * Bound(e, k) - 1.0
    ensures Tens(FloatValue(s, power), e) == Grid(e, k, m)
  {
    var d := Round(BINARY64, Quotient(s, power));
    BoundIs(e, k);
    GrainIsApart(e, k);
    GrainIsAboveLeast(e, k);
    DoubleIsClose(s, e, power);
    ScaleStep(Tens(1.0, e), 24 + k);
    TensScale(1.0, e, 24 + k);
    TensScale(1.0, e, 25 + k);
    TensDiff(Scale(1.0, 24 + k), d, e);
    TensDiff(Scale(1.0, 25 + k), d, e);
    ExponentIs(BINARY32, d, k + 1);
    m := Nearest(Scale(d, -(k + 1)));
    TensScale(m as real, e, k + 1);
  }

  /** What is printed, before it is rounded to a whole number of units. */
  function Units(s: nat, e: nat, power: real): real
    requires 0.0 < power
  {
    Tens(FloatValue(s, power), e)
  }

  ghost predicate Exact(s: nat, e: nat, power: real)
    requires 0.0 < power
  {
    Printed(FloatValue(s, power), e) == s
  }

  /** Two neighbours printed exactly are rounded to different multiples. */
  lemma NeighboursDiffer(e: nat, k: int, s: nat, power: real)
    requires 1 <= e <= 44 && Grain(e, k) && Accurate(power, e)
    requires Bound(e, k) + 1.0 <= s as real <= 2.0 * Bound(e, k) - 2.0
    ensures Exact(s, e, power) && Exact(s + 1, e, power) ==> Units(s, e, power) + 1.008 <= Units(s + 1, e, power)
  {
    var m := OnGrid(e, k, s, power);
    var n := OnGrid(e, k, s + 1, power);
    if n < m {
      GridStep(e, k, n, m);
    } else if m < n {
      GridStep(e, k, m, n);
    }
  }

  lemma {:induction false} UnitsGrow(e: nat, k: int, s: nat, n: nat, power: real)
    requires 1 <= e <= 44 && Grain(e, k) && Accurate(power, e)
    requires Bound(e, k) + 1.0 <= s as real && (s + n) as real <= 2.0 * Bound(e, k) - 1.0
    requires forall i :: s <= i <= s + n ==> Exact(i, e, power)
    ensures Units(s, e, power) + 1.008 * n as real <= Units(s + n, e, power)
    decreases n
  {
    if n != 0 {
      UnitsGrow(e, k, s, n - 1, power);
      assert Exact(s + n - 1, e, power) && Exact(s + n, e, power);
      NeighboursDiffer(e, k, s + n - 1, power);
    }
  }

  /** Beyond the bound, and still in the next binade, a significand is not printed exactly, whatever
      accurate pow returns: the multiples lie more than a unit apart, so they cannot keep up with the
      significands. */
  lemma FailsBeyondBound(e: nat, k: int, power: real) returns (s: nat)
    requires 1 <= e <= 44 && Grain(e, k) && Accurate(power, e)
    ensures Bound(e, k) < s as real < 2.0 * Bound(e, k) && Printed(FloatValue(s, power), e) != s
  {
    BoundIs(e, k);
    GrainIsApart(e, k);
    var first := Bound(e, k).Floor + 2;
    if forall i :: first <= i <= first + 130 ==> Exact(i, e, power) {
      UnitsGrow(e, k, first, 130, power);
      assert Exact(first, e, power) && Exact(first + 130, e, power);
      s := first;
    } else {
      s :| first <= s <= first + 130 && !Exact(s, e, power);
    }
  }

  /** FLOAT with e decimals, 1 to 44, in all: with k the largest integer for which 2^k * 10^e < 1, and
      whatever accurate pow returns, every significand up to 2^(24 + k) * 10^e is printed exactly, and
      some significand below twice that is not. */
  lemma FloatBoundIsSharp(e: nat, k: int, power: real)
    requires 1 <= e <= 44 && Grain(e, k) && Accurate(power, e)
    ensures forall s: nat :: s as real <= Bound(e, k) ==> Printed(FloatValue(s, power), e) == s
    ensures exists s: nat ::
              Bound(e, k) < s as real < 2.0 * Bound(e, k) && Printed(FloatValue(s, power), e) != s
  {
    forall s: nat | s as real <= Bound(e, k)
      ensures Printed(FloatValue(s, power), e) == s
    {
      ExactUpToBound(s, e, k, power);
    }
    var s := FailsBeyondBound(e, k, power);
  }

  /** With two decimals, the bound is 131072.00; the very next significand already fails. */
  lemma BoundOfTwoDecimals(power: real)
    requires Accurate(power, 2)
    ensures Grain(2, -7) && Bound(2, -7) == 13107200.0
    ensures Printed(FloatValue(13107201, power), 2) != 13107201
  {
    TwoTens(1.0);
    ScaleSeven(100.0, -7);
    ScaleStep(100.0, -7);
    BoundIs(2, -7);
    LargeSignificandFails(power);
  }
}
