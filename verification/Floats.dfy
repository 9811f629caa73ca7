/**
 IEEE 754 binary floating point numbers as bit patterns. A pattern is its sign, its exponent
 and its fraction; `fraction` is two to the width of the fraction and `exponents` two to the
 width of the exponent.
 */
module Floats {
  import opened Bits
  import opened Powers

  // single and double precision, and the NaN that the tables hash and compare by
  const FRACTION32: nat := 0x80_0000
  const EXPONENTS32: nat := 0x100
  const FRACTION64: nat := 0x10_0000_0000_0000
  const EXPONENTS64: nat := 0x800
  const NAN32: nat := 0x7FC0_0000
  const NAN64: nat := 0x7FF8_0000_0000_0000

  predicate NaN(bits: nat, fraction: nat, exponents: nat)
    requires fraction > 0 && exponents > 0
  {
    bits / fraction % exponents == exponents - 1 && bits % fraction != 0
  }

  predicate Zero(bits: nat, fraction: nat, exponents: nat)
    requires fraction > 0 && exponents > 0
  {
    bits / fraction % exponents == 0 && bits % fraction == 0
  }

  /** The comparison `a == b`: false on a NaN, and the two zeros are equal. */
  predicate Same(a: nat, b: nat, fraction: nat, exponents: nat)
    requires fraction > 0 && exponents > 0
  {
    && !NaN(a, fraction, exponents) && !NaN(b, fraction, exponents)
    && (a == b || (Zero(a, fraction, exponents) && Zero(b, fraction, exponents)))
  }

  /** One pattern for all NaNs, `nan`, and one for both zeros. */
  function Canonical(bits: nat, fraction: nat, exponents: nat, nan: nat): nat
    requires fraction > 0 && exponents > 0
  {
    if NaN(bits, fraction, exponents) then nan
    else if Zero(bits, fraction, exponents) then 0
    else bits
  }

  /** The comparison the tables use: NaN equals NaN, anything else is compared as numbers. */
  predicate Matches(a: nat, b: nat, fraction: nat, exponents: nat)
    requires fraction > 0 && exponents > 0
  {
    (NaN(a, fraction, exponents) && NaN(b, fraction, exponents)) || Same(a, b, fraction, exponents)
  }

  lemma MatchesIffCanonical(a: nat, b: nat, fraction: nat, exponents: nat, nan: nat)
    requires fraction > 0 && exponents > 1 && NaN(nan, fraction, exponents)
    ensures Matches(a, b, fraction, exponents)
       <==> Canonical(a, fraction, exponents, nan) == Canonical(b, fraction, exponents, nan)
  {
    assert 0 / fraction == 0 && 0 % fraction == 0 && 0 % exponents == 0;
    assert !NaN(0, fraction, exponents) && Zero(0, fraction, exponents);
  }

  // ---- what the comparison means ------------------------------------------------------------------

  /**
   The absolute value of a number with exponent `e` and fraction `f`, in units of the smallest
   positive number: subnormal at exponent 0, with a leading one above. The infinite ones come out
   as the number above all finite ones.
   */
  function Magnitude(e: nat, f: nat, fraction: nat): nat {
    if e == 0 then f else (fraction + f) * Pow(2, e - 1)
  }

  /** The absolute value of the number whose pattern, without the sign, is `r`. */
  function Size(r: nat, fraction: nat): nat
    requires fraction > 0
  {
    Magnitude(r / fraction, r % fraction, fraction)
  }

  /** The number that a pattern stands for, in the same units. */
  function Number(bits: nat, fraction: nat, exponents: nat): int
    requires fraction > 0 && exponents > 0
  {
    var m: int := Size(bits % (fraction * exponents), fraction);
    if bits < fraction * exponents then m else -m
  }

  /** Above the pattern of infinity, of either sign, there are no numbers. */
  predicate NoNumber(bits: nat, fraction: nat, exponents: nat)
    requires fraction > 0 && exponents > 0
  {
    bits % (fraction * exponents) > fraction * (exponents - 1)
  }

  /** Both are no number, or they are the same number. */
  predicate SameNumber(a: nat, b: nat, fraction: nat, exponents: nat)
    requires fraction > 0 && exponents > 0
  {
    if NoNumber(a, fraction, exponents) then NoNumber(b, fraction, exponents)
    else !NoNumber(b, fraction, exponents) && Number(a, fraction, exponents) == Number(b, fraction, exponents)
  }

  lemma {:induction false} PowerGrows(j: nat, k: nat)
    requires j <= k
    ensures 0 < Pow(2, j) <= Pow(2, k)
    decreases k
  {
    PowGrows(2, j);
    if j < k { PowIncreases(j, k); }
  }

  lemma Scale(a: nat, b: nat, n: nat)
    requires a <= b
    ensures a * n <= b * n
    ensures a < b && n > 0 ==> a * n < b * n
  {
    var d := b - a;
    assert b * n == a * n + d * n;
  }

  /** Numbers grow with their exponents. */
  lemma ExponentsApart(e: nat, f: nat, d: nat, g: nat, fraction: nat)
    requires e < d && f < fraction && g < fraction
    ensures Magnitude(e, f, fraction) < Magnitude(d, g, fraction)
  {
    var low, high := Pow(2, e), Pow(2, d - 1);
    PowerGrows(e, d - 1);
    PowerGrows(0, e);
    if e > 0 {
      var half := Pow(2, e - 1);
      assert low == 2 * half && half > 0;
      Scale(fraction + f, 2 * fraction, half);
      assert (2 * fraction) * half == fraction * low;
    }
    assert Magnitude(e, f, fraction) < fraction * low;
    Scale(low, high, fraction);
    Scale(fraction, fraction + g, high);
  }

  /** Different exponents or fractions are different magnitudes. */
  lemma MagnitudesApart(e: nat, f: nat, d: nat, g: nat, fraction: nat)
    requires f < fraction && g < fraction
    ensures Magnitude(e, f, fraction) == Magnitude(d, g, fraction) <==> e == d && f == g
    ensures Magnitude(e, f, fraction) == 0 <==> e == 0 && f == 0
  {
    if e < d { ExponentsApart(e, f, d, g, fraction); }
    if d < e { ExponentsApart(d, g, e, f, fraction); }
    if e > 0 {
      var p := Pow(2, e - 1);
      PowerGrows(0, e - 1);
      Scale(1, fraction + f, p);
      if e == d {
        if f < g { Scale(fraction + f, fraction + g, p); }
        if g < f { Scale(fraction + g, fraction + f, p); }
      }
    }
  }

  lemma Compose(q: nat, f: nat, s: nat, e: nat, fraction: nat, exponents: nat)
    requires q == s * exponents + e && e < exponents && f < fraction
    ensures q * fraction + f == s * (fraction * exponents) + (e * fraction + f)
    ensures e * fraction + f < fraction * exponents
  {
    var n := fraction * exponents;
    assert (s * exponents) * fraction == s * n;
    assert q * fraction == (s * exponents) * fraction + e * fraction;
    Scale(e + 1, exponents, fraction);
    assert (e + 1) * fraction == e * fraction + fraction;
  }

  /** The sign, the exponent and the fraction of a pattern make up the pattern. */
  lemma Parts(bits: nat, fraction: nat, exponents: nat)
    requires fraction > 0 && exponents > 0
    ensures var s, e, f, n := bits / fraction / exponents, bits / fraction % exponents, bits % fraction, fraction * exponents;
      && n > 0 && bits == s * n + (e * fraction + f) && e < exponents && f < fraction
      && bits % n == e * fraction + f < n && bits % n / fraction == e
  {
    var q, f, n := bits / fraction, bits % fraction, fraction * exponents;
    var s, e := q / exponents, q % exponents;
    Compose(q, f, s, e, fraction, exponents);
    ModUnique(bits, n, s, e * fraction + f);
    QuotientIs(e, f, fraction);
  }

  lemma QuotientIs(e: nat, f: nat, n: nat)
    requires f < n
    ensures (e * n + f) / n == e
  {
    var q := (e * n + f) / n;
    if q < e { Scale(q + 1, e, n); }
    if q > e { Scale(e + 1, q, n); }
  }

  /** `NaN` and `Zero` say what they should, and patterns of the same number differ at most in the sign of zero. */
  lemma ClassesMean(bits: nat, fraction: nat, exponents: nat)
    requires fraction > 0 && exponents > 1
    ensures NaN(bits, fraction, exponents) <==> NoNumber(bits, fraction, exponents)
    ensures Zero(bits, fraction, exponents) <==> Number(bits, fraction, exponents) == 0
  {
    hide Size, Magnitude;
    var e, f, r := bits / fraction % exponents, bits % fraction, bits % (fraction * exponents);
    Parts(bits, fraction, exponents);
    SizesApart(r, 0, fraction);
    EndsOfRange(e, f, r, fraction, exponents);
  }

  lemma EndsOfRange(e: nat, f: nat, r: nat, fraction: nat, exponents: nat)
    requires e < exponents && f < fraction && r == e * fraction + f
    ensures r > fraction * (exponents - 1) <==> e == exponents - 1 && f != 0
    ensures r == 0 <==> e == 0 && f == 0
  {
    if e < exponents - 1 { Scale(e + 1, exponents - 1, fraction); }
    if e > 0 { Scale(1, e, fraction); }
  }

  lemma SizesApart(r: nat, t: nat, fraction: nat)
    requires fraction > 0
    ensures Size(r, fraction) == Size(t, fraction) <==> r == t
    ensures Size(r, fraction) == 0 <==> r == 0
  {
    MagnitudesApart(r / fraction, r % fraction, t / fraction, t % fraction, fraction);
    assert 0 / fraction == 0 && 0 % fraction == 0;
    hide Magnitude;
  }

  /** Two numbers are equal exactly if their patterns are, or both are zero. */
  lemma NumbersApart(a: nat, b: nat, fraction: nat, exponents: nat)
    requires fraction > 0 && exponents > 1
    requires a < 2 * (fraction * exponents) && b < 2 * (fraction * exponents)
    ensures Number(a, fraction, exponents) == Number(b, fraction, exponents)
       <==> a == b || (Number(a, fraction, exponents) == 0 && Number(b, fraction, exponents) == 0)
  {
    var n := fraction * exponents;
    Scale(1, fraction, exponents);
    SignIs(a, n);
    SignIs(b, n);
    SizesApart(a % n, b % n, fraction);
    hide Size;
  }

  /**
   Two patterns of their width match exactly if neither is a number or both are the same number.
   */
  lemma MatchesIffSameNumber(a: nat, b: nat, fraction: nat, exponents: nat)
    requires fraction > 0 && exponents > 1
    requires a < 2 * (fraction * exponents) && b < 2 * (fraction * exponents)
    ensures Matches(a, b, fraction, exponents) <==> SameNumber(a, b, fraction, exponents)
  {
    ClassesMean(a, fraction, exponents);
    ClassesMean(b, fraction, exponents);
    NumbersApart(a, b, fraction, exponents);
    hide NaN, Zero, NoNumber, Number;
  }

  lemma SignIs(bits: nat, n: nat)
    requires 0 < n && bits < 2 * n
    ensures bits == bits % n + if bits < n then 0 else n
  {
    ModUnique(bits, n, if bits < n then 0 else 1, if bits < n then bits else bits - n);
  }
}
