/** Scores are compared as numbers: the order that the sorted sets use is the order of the values
    that the bit patterns stand for. */
module ScoreOrder {
  import opened Octets
  import opened SortedSets
  import opened ScoreFormat

  // ----- The number behind a pattern -----

  /** The value of a finite score, times 2^1075. */
  function Scaled(s: Score): int {
    if s < TWO_63 then Mantissa(s) * Pow2(Exponent(s)) else -(Mantissa(s) * Pow2(Exponent(s)))
  }

  /** `a <= b` as IEEE 754 compares numbers. */
  predicate AtMost(a: Score, b: Score) {
    if Infinite(a) then a >= TWO_63 || b == a
    else if Infinite(b) then b < TWO_63
    else Scaled(a) <= Scaled(b)
  }

  // ----- The order of patterns is the order of numbers -----

  /** The value of a pattern without its sign bit. */
  function Size(m: nat): nat {
    var e := m / TWO_52;
    if e == 0 then m * 2 else (TWO_52 + m % TWO_52) * Pow2(e)
  }

  lemma SizeIsScaled(s: Score)
    ensures Mantissa(s) * Pow2(Exponent(s)) == Size(Magnitude(s))
  {
    assert Pow2(1) == 2;
  }

  lemma {:induction false} Pow2Grows(d: nat, e: nat)
    requires d <= e
    ensures Pow2(d) <= Pow2(e)
    decreases e
  {
    if d < e {
      Pow2Grows(d, e - 1);
    }
  }

  /** All numbers of one exponent lie below all numbers of a larger one. */
  lemma SizeBelow(m: nat)
    ensures Size(m) < TWO_52 * Pow2(m / TWO_52 + 1)
    ensures m / TWO_52 > 0 ==> TWO_52 * Pow2(m / TWO_52) <= Size(m)
  {
    var e, f := m / TWO_52, m % TWO_52;
    var p := Pow2(e);
    assert Pow2(e + 1) == 2 * p;
    if e == 0 {
      assert m == f;
      assert p == 1;
    } else {
      assert (TWO_52 + f) * p == TWO_52 * p + f * p;
      assert f * p < TWO_52 * p by { Times(f, TWO_52, p); }
      assert f * p >= 0;
    }
  }

  lemma Times(a: int, b: int, p: nat)
    requires a < b && p > 0
    ensures a * p < b * p
  {
  }

  lemma SizeGrows(m: nat, n: nat)
    requires m < n
    ensures Size(m) < Size(n)
  {
    hide Pow2;
    var d, e := m / TWO_52, n / TWO_52;
    if d == e {
      if d > 0 {
        assert m % TWO_52 < n % TWO_52;
        Times(TWO_52 + m % TWO_52, TWO_52 + n % TWO_52, Pow2(d));
      }
    } else {
      SizeBelow(m);
      SizeBelow(n);
      Pow2Grows(d + 1, e);
    }
  }

  lemma ZeroSize()
    ensures Size(0) == 0
  {
  }

  /** For every two scores, the infinities and the two zeros included. */
  lemma OrderIsNumeric(a: Score, b: Score)
    ensures Order(a) <= Order(b) <==> AtMost(a, b)
  {
    hide Size, Mantissa, Exponent, Pow2;
    SizeIsScaled(a);
    SizeIsScaled(b);
    ZeroSize();
    var m, n := Magnitude(a), Magnitude(b);
    assert m == 0 || Size(m) > 0 by { if m > 0 { SizeGrows(0, m); } }
    assert n == 0 || Size(n) > 0 by { if n > 0 { SizeGrows(0, n); } }
    if m < n {
      SizeGrows(m, n);
    } else if n < m {
      SizeGrows(n, m);
    }
  }

  // ----- Whole numbers -----

  lemma {:induction false} Pow2Adds(a: nat, b: nat)
    ensures Pow2(a + b) == Pow2(a) * Pow2(b)
  {
    if a > 0 {
      Pow2Adds(a - 1, b);
      assert Pow2(a) * Pow2(b) == 2 * (Pow2(a - 1) * Pow2(b));
    }
  }

  lemma Pow2Of52()
    ensures Pow2(52) == TWO_52
  {
    assert Pow2(13) == 8192;
    hide Pow2;
    Pow2Adds(13, 13);
    Pow2Adds(26, 26);
  }

  /** The pattern of a whole number between 2^k and 2^(k + 1), without sign: the exponent with its
      bias, and the digits behind the leading one. */
  function WholeNumber(n: nat, k: nat): (w: Score)
    requires k <= 52 && Pow2(k) <= n < 2 * Pow2(k)
    ensures w < TWO_63 - TWO_52
  {
    LeadingDigits(n, k);
    (1023 + k) * TWO_52 + (n - Pow2(k)) * Pow2(52 - k)
  }

  lemma Remainder(n: nat, p: nat, q: nat)
    requires p <= n < 2 * p && q > 0
    ensures 0 <= (n - p) * q < p * q && p * q + (n - p) * q == n * q
  {
    Times(n - p, p, q);
  }

  lemma LeadingDigits(n: nat, k: nat)
    requires k <= 52 && Pow2(k) <= n < 2 * Pow2(k)
    ensures var f := (n - Pow2(k)) * Pow2(52 - k);
            0 <= f < TWO_52 && TWO_52 + f == n * Pow2(52 - k)
  {
    hide Pow2;
    Pow2Adds(k, 52 - k);
    Pow2Of52();
    Remainder(n, Pow2(k), Pow2(52 - k));
  }

  lemma WholeParts(n: nat, k: nat)
    requires k <= 52 && Pow2(k) <= n < 2 * Pow2(k)
    ensures var w := WholeNumber(n, k);
            && Magnitude(w) == Magnitude(w + TWO_63) == w
            && Exponent(w) == Exponent(w + TWO_63) == 1023 + k
            && Mantissa(w) == Mantissa(w + TWO_63) == n * Pow2(52 - k)
            && !Infinite(w) && !Infinite(w + TWO_63)
  {
    hide Pow2;
    LeadingDigits(n, k);
    var f := (n - Pow2(k)) * Pow2(52 - k);
    var w := WholeNumber(n, k);
    assert w / TWO_52 == 1023 + k && w % TWO_52 == f;
  }

  lemma Swap(n: nat, q: nat)
    ensures n * q * MILLION == (n * MILLION) * q
  {
  }

  lemma WholeMillionths(n: nat, k: nat)
    requires k <= 52 && Pow2(k) <= n < 2 * Pow2(k)
    ensures var w := WholeNumber(n, k);
            Millionths(w) == Millionths(w + TWO_63) == n * MILLION
  {
    hide Exponent, Mantissa, Magnitude, WholeNumber, Nearest;
    WholeParts(n, k);
    assert Pow2(0) == 1;
    hide Pow2;
    var q := Pow2(52 - k);
    Swap(n, q);
    if k == 52 {
      assert q == 1;
    } else {
      Exactly(n * MILLION, q);
    }
  }

  lemma Exactly(n: nat, d: nat)
    requires d > 0
    ensures Nearest(n * d, d) == n
  {
    var m := n * d;
    var q, r := m / d, m % d;
    assert m == q * d + r;
    Quotient(n, d, q, r);
  }

  lemma Multiple(x: int, d: nat)
    ensures x >= 1 ==> x * d >= d
    ensures x <= -1 ==> x * d <= -(d as int)
  {
  }

  lemma Quotient(n: nat, d: nat, q: nat, r: nat)
    requires r < d && n * d == q * d + r
    ensures q == n && r == 0
  {
    assert (n - q) * d == r;
    Multiple(n - q, d);
  }

  lemma NoDecimals(s: Score, n: nat)
    requires Millionths(s) == n * MILLION
    ensures Millionths(s) / MILLION == n && Fraction(s) == []
  {
    hide Millionths;
    assert (n * MILLION) % MILLION == 0;
    AllZeros(6);
  }

  lemma {:induction false} AllZeros(w: nat)
    ensures Trimmed(Padded(0, w)) == []
  {
    if w > 0 {
      AllZeros(w - 1);
      var t := Padded(0, w);
      assert t[..w - 1] == Padded(0, w - 1);
    }
  }

  /** Every whole number below 2^53 has its IEEE 754 pattern: that pattern stands for it, is written
      as it, and its sign bit negates it. */
  lemma WholeNumbersAreThemselves(n: nat, k: nat)
    requires k <= 52 && Pow2(k) <= n < 2 * Pow2(k)
    ensures var w := WholeNumber(n, k);
            && Scaled(w) == n * Pow2(1075) && Scaled(w + TWO_63) == -(n * Pow2(1075))
            && ScoreText(w) == Decimal(n) && ScoreText(w + TWO_63) == [45] + Decimal(n)
  {
    hide Exponent, Mantissa, Magnitude, WholeNumber, Millionths, Fraction, Decimal, Pow2, Infinite;
    WholeParts(n, k);
    WholeMillionths(n, k);
    var w := WholeNumber(n, k);
    NoDecimals(w, n);
    NoDecimals(w + TWO_63, n);
    Pow2Adds(52 - k, 1023 + k);
    assert n * Pow2(52 - k) * Pow2(1023 + k) == n * (Pow2(52 - k) * Pow2(1023 + k));
    assert [] + Decimal(n) + [] == Decimal(n) && [45] + Decimal(n) + [] == [45] + Decimal(n);
  }

  const MINUS_ONE: Score := 0xBFF0_0000_0000_0000
  const MINUS_ZERO: Score := 0x8000_0000_0000_0000
  const ZERO: Score := 0
  const ONE: Score := 0x3FF0_0000_0000_0000
  const TWO: Score := 0x4000_0000_0000_0000

  lemma SmallPatterns()
    ensures Pow2(0) == 1 && Pow2(1) == 2 && WholeNumber(1, 0) == ONE && WholeNumber(2, 1) == TWO
  {
    assert Pow2(0) == 1 && Pow2(1) == 2;
    hide Pow2;
  }

  lemma NothingIsZero()
    ensures Scaled(ZERO) == Scaled(MINUS_ZERO) == 0
  {
    hide Pow2;
  }

  /** The patterns of -1, the two zeros, 1 and 2. */
  lemma Literals()
    ensures Order(MINUS_ONE) < Order(MINUS_ZERO) == Order(ZERO) < Order(ONE) < Order(TWO)
    ensures Scaled(ZERO) == Scaled(MINUS_ZERO) == 0 < Scaled(ONE)
    ensures Scaled(MINUS_ONE) == -Scaled(ONE) && Scaled(TWO) == 2 * Scaled(ONE)
  {
    SmallPatterns();
    NothingIsZero();
    hide Pow2, WholeNumber, Scaled, ScoreText;
    WholeNumbersAreThemselves(1, 0);
    WholeNumbersAreThemselves(2, 1);
  }
}
