/** The two roundings of a FLOAT: of the quotient to a double, and of the double to a float. */
module Roundings {
  import opened Floats
  import opened Numbers
  import opened PowersOfTen

  lemma SixteenthBinade()
    ensures 32768.0 * Scale(1.0, -15) == 1.0 && 65536.0 * Scale(1.0, -16) == 1.0
  {
    ScaleUp(1.0, -10);
    ScaleStep(1.0, -11);
    ScaleStep(1.0, -12);
    ScaleStep(1.0, -13);
    ScaleStep(1.0, -14);
    ScaleStep(1.0, -15);
    ScaleStep(1.0, -16);
  }

  /** Below the sixteenth binade, numbers are rounded to multiples of 2^-39 and of 2^-68. */
  lemma FitsSixteenth(y: real)
    requires 1.0 <= 65536.0 * y && 32768.0 * y < 1.0
    ensures Fits(BINARY32, y, -39) && Fits(BINARY64, y, -68)
  {
    SixteenthBinade();
  }

  lemma ScaleThirtyNine(x: real, k: int)
    ensures Scale(x, k + 39) == 549755813888.0 * Scale(x, k)
  {
    ScaleUp(x, k);
    ScaleUp(x, k + 10);
    ScaleUp(x, k + 20);
    ScaleSeven(x, k + 30);
    ScaleStep(x, k + 37);
    ScaleStep(x, k + 38);
  }

  lemma ScaleTwentyNine(x: real, k: int)
    ensures Scale(x, k + 29) == 536870912.0 * Scale(x, k)
  {
    ScaleUp(x, k);
    ScaleUp(x, k + 10);
    ScaleSeven(x, k + 20);
    ScaleStep(x, k + 27);
    ScaleStep(x, k + 28);
  }

  /** The binary64 number next to the quotient lies halfway between two binary32 numbers. */
  lemma FirstRounding(y: real)
    requires y * 100000000000000.0 == 2712892001.0
    ensures Round(BINARY64, y) == Scale(14914281.5, -39)
  {
    FitsSixteenth(y);
    ExponentIs(BINARY64, y, -68);
    ScaleThirtyNine(y, 0);
    ScaleTwentyNine(y, 39);
    NearestIs(Scale(y, 68), 8007043910729728);
    ScaleTwentyNine(14914281.5, 0);
    ScaleScale(14914281.5, 29, -68);
  }

  lemma SecondRounding(t: real)
    requires t == Scale(14914281.5, -39)
    ensures 0.0 <= t && Round(BINARY32, t) == Scale(14914282.0, -39)
  {
    ScaleThirtyNine(14914281.5, -39);
    FitsSixteenth(t);
    TieIsEven(BINARY32, 14914281, -39);
  }

  lemma OnlyRounding(y: real)
    requires y * 100000000000000.0 == 2712892001.0
    ensures 0.0 <= y && Round(BINARY32, y) == Scale(14914281.0, -39)
  {
    FitsSixteenth(y);
    ExponentIs(BINARY32, y, -39);
    ScaleThirtyNine(y, 0);
    NearestIs(Scale(y, 39), 14914281);
  }

  lemma PrintedOf(n: nat, units: nat)
    requires -250000000000.0 <= n as real * 100000000000000.0 - units as real * 549755813888.0 <= 250000000000.0
    ensures 0.0 <= Scale(n as real, -39) && Printed(Scale(n as real, -39), 14) == units
  {
    var f := Scale(n as real, -39);
    ScaleThirtyNine(n as real, -39);
    FourteenTens(f);
    NearestIs(Tens(f, 14), units);
  }

  lemma FourteenTens(x: real)
    ensures Tens(x, 14) == 100000000000000.0 * x
  {
    TensFifteen(x, 0);
  }

  /** The quotient is rounded twice, to binary64 and to binary32, and that is not the same as once: a
      significand with 14 decimals is printed 91 units above what was sent, and not, as the nearer binary32
      number would be, 91 units below. */
  lemma RoundedTwice()
    ensures Accurate(100000000000000.0, 14)
    ensures Printed(FloatValue(2712892001, 100000000000000.0), 14) == 2712892092
    ensures Printed(Round(BINARY32, Quotient(2712892001, 100000000000000.0)), 14) == 2712891910
  {
    var power := 100000000000000.0;
    var y := Quotient(2712892001, power);
    FourteenTens(1.0);
    ScaleSign(Tens(1.0, 14), -52);
    FirstRounding(y);
    SecondRounding(Round(BINARY64, y));
    OnlyRounding(y);
    PrintedOf(14914282, 2712892092);
    PrintedOf(14914281, 2712891910);
  }
}
