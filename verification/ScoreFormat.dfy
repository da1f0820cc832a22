/** How ZSCORE writes a score: `std::to_string` of a double, without trailing zeros. */
module ScoreFormat {
  import opened Octets
  import opened SortedSets

  const TWO_52: int := 0x10_0000_0000_0000
  const MILLION: int := 1000000

  function Pow2(n: nat): (p: nat)
    ensures p > 0
  {
    if n == 0 then 1 else 2 * Pow2(n - 1)
  }

  /** The magnitude of a finite double is `Mantissa * 2^(Exponent - 1075)`. */
  function Magnitude(s: Score): nat { if s < TWO_63 then s else s - TWO_63 }

  function Exponent(s: Score): nat { if Magnitude(s) / TWO_52 == 0 then 1 else Magnitude(s) / TWO_52 }

  function Mantissa(s: Score): nat {
    if Magnitude(s) / TWO_52 == 0 then Magnitude(s) else TWO_52 + Magnitude(s) % TWO_52
  }

  predicate Infinite(s: Score) { Magnitude(s) == INFINITY_BITS }

  /** The nearest integer to `n / d`, ties to even. */
  function Nearest(n: nat, d: nat): (q: nat)
    requires d > 0
  {
    var q, r := n / d, n % d;
    if 2 * r > d || (2 * r == d && q % 2 == 1) then q + 1 else q
  }

  /** The magnitude in millionths, as printed with six decimals. */
  function Millionths(s: Score): nat {
    var n := Mantissa(s) * MILLION;
    if Exponent(s) >= 1075 then n * Pow2(Exponent(s) - 1075) else Nearest(n, Pow2(1075 - Exponent(s)))
  }

  function Padded(n: nat, w: nat): (t: Bytes)
    ensures |t| == w && AllDigits(t)
    decreases w
  {
    if w == 0 then [] else Padded(n / 10, w - 1) + [48 + n % 10]
  }

  function Trimmed(t: Bytes): (r: Bytes)
    ensures |r| <= |t| && r == t[..|r|]
  {
    if t != [] && t[|t| - 1] == 48 then Trimmed(t[..|t| - 1]) else t
  }

  function Fraction(s: Score): (t: Bytes)
    ensures |t| <= 6 && AllDigits(t)
  {
    Trimmed(Padded(Millionths(s) % MILLION, 6))
  }

  function ScoreText(s: Score): Bytes {
    var sign := if s < TWO_63 then [] else [45];
    if Infinite(s) then sign + [105, 110, 102]
    else sign + Decimal(Millionths(s) / MILLION) + (if Fraction(s) == [] then [] else [46] + Fraction(s))
  }

  // ----- The text is the nearest number with six decimals -----

  function Pow10(n: nat): (p: nat)
    ensures p > 0
  {
    if n == 0 then 1 else 10 * Pow10(n - 1)
  }

  lemma {:induction false} PaddedValue(n: nat, w: nat)
    requires n < Pow10(w)
    ensures DigitsValue(Padded(n, w)) == n
    decreases w
  {
    if w > 0 {
      PaddedValue(n / 10, w - 1);
      var t := Padded(n, w);
      assert t[..w - 1] == Padded(n / 10, w - 1);
    }
  }

  lemma {:induction false} TrimmedValue(t: Bytes)
    requires AllDigits(t)
    ensures DigitsValue(Trimmed(t)) * Pow10(|t| - |Trimmed(t)|) == DigitsValue(t)
  {
    if t != [] && t[|t| - 1] == 48 {
      var u := t[..|t| - 1];
      TrimmedValue(u);
      var x, p := DigitsValue(Trimmed(u)), Pow10(|u| - |Trimmed(u)|);
      assert x * (10 * p) == (x * p) * 10;
    }
  }

  lemma NearestIsNearest(n: nat, d: nat)
    requires d > 0
    ensures var q := Nearest(n, d);
            2 * q * d - d <= 2 * n <= 2 * q * d + d
  {
    var q := n / d;
    assert n == q * d + n % d;
    assert (q + 1) * d == q * d + d;
  }

  /** The digits of a finite score read back as its number of millionths, none of the decimals
      written is a trailing zero, and that number is nearest to the exact value of the double. */
  lemma TextIsNearest(s: Score)
    requires !Infinite(s)
    ensures var f := Fraction(s);
            && DigitsValue(Decimal(Millionths(s) / MILLION)) * MILLION + DigitsValue(f) * Pow10(6 - |f|) == Millionths(s)
            && (f != [] ==> f[|f| - 1] != 48)
    ensures var n, e := Mantissa(s) * MILLION, Exponent(s);
            if e >= 1075 then Millionths(s) == n * Pow2(e - 1075)
            else var q, d := Millionths(s), Pow2(1075 - e);
                 2 * q * d - d <= 2 * n <= 2 * q * d + d
  {
    hide Mantissa, Exponent, Magnitude, Pow2, Nearest;
    var m := Millionths(s);
    DecimalRoundTrip(m / MILLION);
    assert Pow10(3) == 1000;
    assert Pow10(6) == 1000 * Pow10(3);
    PaddedValue(m % MILLION, 6);
    TrimmedValue(Padded(m % MILLION, 6));
    TrimmedEnd(Padded(m % MILLION, 6));
    if Exponent(s) < 1075 {
      NearestIsNearest(Mantissa(s) * MILLION, Pow2(1075 - Exponent(s)));
    }
  }

  lemma {:induction false} TrimmedEnd(t: Bytes)
    ensures Trimmed(t) != [] ==> Trimmed(t)[|Trimmed(t)| - 1] != 48
  {
    if t != [] && t[|t| - 1] == 48 {
      TrimmedEnd(t[..|t| - 1]);
    }
  }
}
