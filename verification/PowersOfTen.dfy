/** Scaling by powers of ten, beside the scaling by powers of two. */
module PowersOfTen {
  import opened Floats

  /** x * 10^d. */
  function Tens(x: real, d: nat): real {
    if d == 0 then x else 10.0 * Tens(x, d - 1)
  }

  lemma {:induction false} TensDiff(x: real, y: real, d: nat)
    ensures Tens(x - y, d) == Tens(x, d) - Tens(y, d)
    ensures x <= y <==> Tens(x, d) <= Tens(y, d)
    ensures Abs(Tens(x, d) - Tens(y, d)) == Tens(Abs(x - y), d)
  {
    if d != 0 {
      TensDiff(x, y, d - 1);
    }
  }

  lemma {:induction false} TensZero(d: nat)
    ensures Tens(0.0, d) == 0.0
  {
    if d != 0 {
      TensZero(d - 1);
    }
  }

  lemma {:induction false} TensMono(x: real, d: nat, e: nat)
    requires 0.0 <= x && d <= e
    ensures Tens(x, d) <= Tens(x, e)
    decreases e
  {
    if d < e {
      TensMono(x, d, e - 1);
      TensZero(e - 1);
      TensDiff(0.0, x, e - 1);
    }
  }

  lemma {:induction false} ScaleTen(x: real, k: int)
    ensures Scale(10.0 * x, k) == 10.0 * Scale(x, k)
    decreases if k < 0 then -k else k
  {
    if k != 0 {
      ScaleTen(x, if k < 0 then k + 1 else k - 1);
    }
  }

  lemma {:induction false} TensScale(x: real, d: nat, k: int)
    ensures Tens(Scale(x, k), d) == Scale(Tens(x, d), k)
  {
    if d != 0 {
      TensScale(x, d - 1, k);
      ScaleTen(Tens(x, d - 1), k);
    }
  }

  lemma TensThree(x: real, d: nat)
    ensures Tens(x, d + 3) == 1000.0 * Tens(x, d)
  {
    assert Tens(x, d + 2) == 10.0 * Tens(x, d + 1);
  }

  /** 10^3 is less than 2^10. */
  lemma {:induction false} TensBelow(x: real, d: nat, k: nat)
    requires 0.0 <= x && d <= 3 * k
    ensures Tens(x, d) <= Scale(x, 10 * k)
    decreases k
  {
    if k != 0 {
      var e := if d < 3 then 0 else d - 3;
      TensBelow(x, e, k - 1);
      TensMono(x, d, e + 3);
      TensThree(x, e);
      TensDiff(0.0, x, e);
      TensZero(e);
      ScaleUp(x, 10 * k - 10);
      ScaleSign(x, 10 * k - 10);
    }
  }

  lemma ScaleUp(x: real, k: int)
    ensures Scale(x, k + 10) == 1024.0 * Scale(x, k)
  {
    ScaleStep(x, k);
    ScaleStep(x, k + 1);
    ScaleStep(x, k + 2);
    ScaleStep(x, k + 3);
    ScaleStep(x, k + 4);
    ScaleStep(x, k + 5);
    ScaleStep(x, k + 6);
    ScaleStep(x, k + 7);
    ScaleStep(x, k + 8);
    ScaleStep(x, k + 9);
  }

  lemma {:induction false} TensProduct(y: real, t: real, d: nat)
    requires t == Tens(1.0, d)
    ensures Tens(y, d) == y * t
    decreases d
  {
    if d != 0 {
      TensProduct(y, Tens(1.0, d - 1), d - 1);
      MulTen(y, Tens(1.0, d - 1), t);
    }
  }

  lemma MulTen(x: real, y: real, z: real)
    requires z == 10.0 * y
    ensures x * z == 10.0 * (x * y)
  {
  }

  lemma MulSign(x: real, y: real)
    requires 0.0 <= x && 0.0 <= y
    ensures 0.0 <= x * y
  {
  }

  /** A relative error of 2^-52 in the divisor is one of at most 2^-51 in the quotient. */
  lemma QuotientError(y: real, power: real, t: real, s: real)
    requires 0.0 <= y && y * power == s
    requires -t <= 4503599627370496.0 * (power - t) <= t
    ensures 2251799813685248.0 * Abs(y * t - s) <= s
  {
    MulSign(y, t - 4503599627370496.0 * (power - t));
    MulSign(y, t + 4503599627370496.0 * (power - t));
  }

  lemma ScaleSeven(x: real, k: int)
    ensures Scale(x, k + 7) == 128.0 * Scale(x, k)
  {
    ScaleStep(x, k);
    ScaleStep(x, k + 1);
    ScaleStep(x, k + 2);
    ScaleStep(x, k + 3);
    ScaleStep(x, k + 4);
    ScaleStep(x, k + 5);
    ScaleStep(x, k + 6);
  }

  lemma ScaleTwentyFour(x: real)
    ensures 16777216.0 * Scale(x, -24) == x
  {
    ScaleUp(x, -24);
    ScaleSeven(x, -14);
    ScaleSeven(x, -7);
  }

  lemma ScaleFifty(x: real, k: int)
    ensures Scale(x, k + 50) == 1125899906842624.0 * Scale(x, k)
  {
    ScaleUp(x, k);
    ScaleUp(x, k + 10);
    ScaleUp(x, k + 20);
    ScaleUp(x, k + 30);
    ScaleUp(x, k + 40);
  }

  lemma TensFifteen(x: real, d: nat)
    ensures Tens(x, d + 15) == 1000000000000000.0 * Tens(x, d)
  {
    TensThree(x, d);
    TensThree(x, d + 3);
    TensThree(x, d + 6);
    TensThree(x, d + 9);
    TensThree(x, d + 12);
  }

  /** 2^150 lies between 1.42 * 10^45 and 1.43 * 10^45. */
  lemma LeastBit(x: real)
    requires 0.0 < x
    ensures 1.42 * Tens(x, 45) < 2.0 * Scale(x, 149) < 1.43 * Tens(x, 45)
  {
    ScaleFifty(x, 0);
    ScaleFifty(x, 50);
    ScaleFifty(x, 100);
    ScaleStep(x, 149);
    TensFifteen(x, 0);
    TensFifteen(x, 15);
    TensFifteen(x, 30);
  }
}
