/** Binary floating point: rounding to the nearest value, ties to even (section 4.3.1 of IEEE 754-2008),
    of non-negative numbers that do not overflow. */
module Floats {

  /** x * 2^k. */
  function Scale(x: real, k: int): real
    decreases if k < 0 then -k else k
  {
    if k == 0 then x else if k > 0 then 2.0 * Scale(x, k - 1) else Scale(x, k + 1) / 2.0
  }

  lemma ScaleStep(x: real, k: int)
    ensures Scale(x, k + 1) == 2.0 * Scale(x, k)
  {
  }

  lemma {:induction false} ScaleScale(x: real, a: int, b: int)
    ensures Scale(Scale(x, a), b) == Scale(x, a + b)
    decreases if b < 0 then -b else b
  {
    if b > 0 {
      ScaleScale(x, a, b - 1);
      ScaleStep(x, a + b - 1);
    } else if b < 0 {
      ScaleScale(x, a, b + 1);
      ScaleStep(x, a + b);
    }
  }

  lemma ScaleBack(x: real, k: int)
    ensures Scale(Scale(x, -k), k) == x && Scale(Scale(x, k), -k) == x
  {
    ScaleScale(x, -k, k);
    ScaleScale(x, k, -k);
  }

  lemma {:induction false} ScaleDiff(x: real, y: real, k: int)
    ensures Scale(x - y, k) == Scale(x, k) - Scale(y, k)
    ensures x <= y <==> Scale(x, k) <= Scale(y, k)
    ensures Abs(Scale(x, k) - Scale(y, k)) == Scale(Abs(x - y), k)
    decreases if k < 0 then -k else k
  {
    if k != 0 {
      ScaleDiff(x, y, if k < 0 then k + 1 else k - 1);
    }
  }

  lemma ScaleSign(x: real, k: int)
    ensures 0.0 <= x <==> 0.0 <= Scale(x, k)
    ensures 0.0 < x <==> 0.0 < Scale(x, k)
  {
    ScaleZero(k);
    ScaleDiff(0.0, x, k);
    ScaleDiff(x, 0.0, k);
  }

  lemma {:induction false} ScaleZero(k: int)
    ensures Scale(0.0, k) == 0.0
    decreases if k < 0 then -k else k
  {
    if k != 0 {
      ScaleZero(if k < 0 then k + 1 else k - 1);
    }
  }

  lemma {:induction false} ScaleMono(x: real, a: int, b: int)
    requires 0.0 <= x && a <= b
    ensures Scale(x, a) <= Scale(x, b)
    decreases b - a
  {
    if a < b {
      ScaleMono(x, a, b - 1);
      ScaleStep(x, b - 1);
      ScaleSign(x, b - 1);
    }
  }

  function Abs(x: real): real {
    if x < 0.0 then -x else x
  }

  /** The nearest integer, the even one of two. */
  function Nearest(x: real): (n: int)
    ensures -0.5 <= n as real - x <= 0.5 && (0.0 <= x ==> 0 <= n)
  {
    var low := x.Floor;
    var rest := x - low as real;
    if rest < 0.5 || (rest == 0.5 && low % 2 == 0) then low else low + 1
  }

  lemma NearestIs(x: real, n: int)
    ensures Abs(x - n as real) < 0.5 ==> Nearest(x) == n
    ensures Abs(Nearest(x) as real - x) <= Abs(n as real - x)
  {
  }

  /** Values m * 2^k with m below 2^precision and k at least least. */
  datatype Format = Format(precision: nat, least: int)

  const BINARY32 := Format(24, -149)
  const BINARY64 := Format(53, -1074)

  ghost predicate IsValue(f: Format, m: int, k: int, x: real) {
    f.least <= k && 0 <= m && m as real < Scale(1.0, f.precision) && x == Scale(m as real, k)
  }

  ghost predicate Representable(f: Format, x: real) {
    exists m, k :: IsValue(f, m, k, x)
  }

  /** x is below the end of the binade whose last bit has exponent k. */
  predicate Below(f: Format, x: real, k: int) {
    x < Scale(1.0, f.precision + k)
  }

  /** What makes the search for the exponent end. */
  lemma SearchEnds(x: real, k: int)
    requires Scale(1.0, k) <= x
    ensures 0 <= Scale(x, -(k + 1)).Floor < Scale(x, -k).Floor
  {
    ScaleDiff(Scale(1.0, k), x, -k);
    ScaleBack(1.0, k);
    ScaleStep(x, -k - 1);
  }

  /** The exponent of the last bit x has room for, sought from k on. */
  function Exponent(f: Format, x: real, k: int): int
    requires 0.0 <= x
    decreases Scale(x, -(f.precision + k)).Floor
  {
    if Below(f, x, k) then k
    else
      SearchEnds(x, f.precision + k);
      Exponent(f, x, k + 1)
  }

  /** x rounded to a multiple of 2^k. */
  function RoundAt(x: real, k: int): real {
    Scale(Nearest(Scale(x, -k)) as real, k)
  }

  /** x rounded to the format. */
  function Round(f: Format, x: real): (r: real)
    requires 0.0 <= x
    ensures 0.0 <= r
  {
    var k := Exponent(f, x, f.least);
    ScaleSign(x, -k);
    ScaleSign(Nearest(Scale(x, -k)) as real, k);
    RoundAt(x, k)
  }

  /** x lies in the binade of k, or below the first one. */
  ghost predicate Fits(f: Format, x: real, k: int) {
    f.least <= k && Below(f, x, k) && (k == f.least || !Below(f, x, k - 1))
  }

  lemma {:induction false} ExponentFitsFrom(f: Format, x: real, k: int)
    requires 0.0 <= x && f.least <= k && (k == f.least || !Below(f, x, k - 1))
    ensures Fits(f, x, Exponent(f, x, k))
    decreases Scale(x, -(f.precision + k)).Floor
  {
    if !Below(f, x, k) {
      SearchEnds(x, f.precision + k);
      ExponentFitsFrom(f, x, k + 1);
    }
  }

  lemma ExponentIs(f: Format, x: real, k: int)
    requires 0.0 <= x
    ensures Exponent(f, x, f.least) == k <==> Fits(f, x, k)
  {
    var e := Exponent(f, x, f.least);
    ExponentFitsFrom(f, x, f.least);
    if e < k {
      ScaleMono(1.0, f.precision + e, f.precision + k - 1);
    } else if k < e {
      ScaleMono(1.0, f.precision + k, f.precision + e - 1);
    }
  }

  /** RoundAt is off by at most half a unit, and no multiple of the unit is nearer. */
  lemma RoundAtError(x: real, k: int, n: int)
    ensures Abs(RoundAt(x, k) - x) <= Scale(0.5, k)
    ensures Abs(RoundAt(x, k) - x) <= Abs(Scale(n as real, k) - x)
  {
    var q := Scale(x, -k);
    var r, s := Nearest(q) as real, n as real;
    NearestIs(q, n);
    ScaleBack(x, k);
    ScaleDiff(r, q, k);
    ScaleDiff(s, q, k);
    ScaleDiff(Abs(r - q), 0.5, k);
    ScaleDiff(Abs(r - q), Abs(s - q), k);
  }

  /** The error of a rounding: relative to the number, or, below the first binade, absolute. */
  lemma RoundError(f: Format, x: real)
    requires 0.0 <= x
    ensures var error := Abs(Round(f, x) - x);
            error <= Scale(x, 0 - f.precision) || (Below(f, x, f.least) && error <= Scale(0.5, f.least))
  {
    var k := Exponent(f, x, f.least);
    ExponentIs(f, x, k);
    RoundAtError(x, k, 0);
    if k != f.least {
      ScaleDiff(Scale(1.0, f.precision + k - 1), x, 0 - f.precision);
      ScaleScale(1.0, f.precision + k - 1, 0 - f.precision);
      ScaleScale(1.0, -1, k);
    }
  }

  /** A multiple of a unit is one of any smaller unit. */
  lemma {:induction false} Multiple(m: int, j: int, k: int) returns (n: int)
    requires k <= j
    ensures Scale(m as real, j) == Scale(n as real, k)
    decreases j - k
  {
    n := m;
    if k < j {
      ScaleScale(m as real, 1, j - 1);
      n := Multiple(2 * m, j - 1, k);
    }
  }

  /** No value of the format is nearer to x than the rounded one. */
  lemma RoundIsNearest(f: Format, x: real, q: real)
    requires 0.0 <= x && 0 < f.precision && Representable(f, q)
    ensures Abs(Round(f, x) - x) <= Abs(q - x)
  {
    var m, j :| IsValue(f, m, j, q);
    var k := Exponent(f, x, f.least);
    ExponentIs(f, x, k);
    if k <= j {
      var n := Multiple(m, j, k);
      RoundAtError(x, k, n);
    } else {
      var n := Multiple(1, f.precision + k - 1, k);
      RoundAtError(x, k, n);
      ScaleDiff(m as real, Scale(1.0, f.precision), j);
      ScaleScale(1.0, f.precision, j);
      ScaleMono(1.0, f.precision + j, f.precision + k - 1);
    }
  }

  /** The rounded number is a value of the format. */
  lemma RoundIsValue(f: Format, x: real)
    requires 0.0 <= x && 0 < f.precision
    ensures Representable(f, Round(f, x))
  {
    var k := Exponent(f, x, f.least);
    ExponentIs(f, x, k);
    var m := Nearest(Scale(x, -k));
    var top := Multiple(1, f.precision, 0);
    ScaleScale(1.0, f.precision, k);
    ScaleBack(x, k);
    ScaleDiff(Scale(1.0, f.precision), Scale(x, -k), k);
    ScaleSign(x, -k);
    ScaleSign(1.0, f.precision);
    if m < top {
      assert IsValue(f, m, k, Round(f, x));
    } else {
      var half := Multiple(1, f.precision - 1, 0);
      ScaleScale(half as real, 1, k);
      assert IsValue(f, half, k + 1, Round(f, x));
    }
  }

  /** Exactly the values of the format are rounded to themselves. */
  lemma RoundExact(f: Format, x: real)
    requires 0.0 <= x && 0 < f.precision
    ensures Round(f, x) == x <==> Representable(f, x)
  {
    if Representable(f, x) {
      RoundIsNearest(f, x, x);
    } else {
      RoundIsValue(f, x);
    }
  }

  /** Halfway between two neighbours, the one with the even significand is taken. */
  lemma TieIsEven(f: Format, n: nat, k: int)
    requires 0.0 <= Scale(n as real + 0.5, k) && Fits(f, Scale(n as real + 0.5, k), k)
    ensures Round(f, Scale(n as real + 0.5, k)) == Scale((if n % 2 == 0 then n else n + 1) as real, k)
  {
    ExponentIs(f, Scale(n as real + 0.5, k), k);
    ScaleBack(n as real + 0.5, k);
    assert (n as real + 0.5).Floor == n;
  }
}
