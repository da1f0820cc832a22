/** Bytes, byte literals, and the two number encodings the server uses:
    fixed-width little-endian integers and decimal text. */
module Octets {
  type byte = x: int | 0 <= x < 256
  type Bytes = seq<byte>

  const CR: byte := 13
  const LF: byte := 10
  const CRLF: Bytes := [13, 10]

  const TWO_31: int := 0x8000_0000
  const TWO_32: int := 0x1_0000_0000
  const TWO_63: int := 0x8000_0000_0000_0000
  const TWO_64: int := 0x1_0000_0000_0000_0000

  predicate InInt64(n: int) { -TWO_63 <= n < TWO_63 }

  /** Printable ASCII text as bytes; the identity on every message of the server. */
  function Text(s: string): (b: Bytes)
    ensures |b| == |s|
    ensures forall i :: 0 <= i < |b| ==> 32 <= b[i] < 127
  {
    seq(|s|, i requires 0 <= i < |s| => if ' ' <= s[i] <= '~' then s[i] as int else 63)
  }

  // ----- Positions in a buffer -----

  /** `s` stands in `b` at `pos`. */
  predicate At(b: Bytes, pos: nat, s: Bytes) {
    pos + |s| <= |b| && b[pos..pos + |s|] == s
  }

  /** `b` ends inside an occurrence of `s` that starts at `pos`. */
  predicate CutAt(b: Bytes, pos: nat, s: Bytes) {
    pos <= |b| < pos + |s| && b[pos..] == s[..|b| - pos]
  }

  lemma AtSplit(b: Bytes, pos: nat, s: Bytes, t: Bytes)
    requires At(b, pos, s + t)
    ensures At(b, pos, s) && At(b, pos + |s|, t)
  {
    assert b[pos..pos + |s|] == (s + t)[..|s|];
    assert b[pos + |s|..pos + |s| + |t|] == (s + t)[|s|..];
  }

  lemma CutSplit(b: Bytes, pos: nat, s: Bytes, t: Bytes)
    requires CutAt(b, pos, s + t)
    ensures if |b| < pos + |s| then CutAt(b, pos, s) else At(b, pos, s) && CutAt(b, pos + |s|, t)
  {
    var n := |b| - pos;
    if n < |s| {
      assert (s + t)[..n] == s[..n];
    } else {
      assert b[pos..pos + |s|] == b[pos..][..|s|] == s;
      assert b[pos + |s|..] == b[pos..][|s|..] == t[..n - |s|];
    }
  }

  // ----- Little-endian integers -----

  function Pow256(w: nat): (p: nat)
    ensures p > 0
  {
    if w == 0 then 1 else 256 * Pow256(w - 1)
  }

  function LittleEndian(n: nat, w: nat): (b: Bytes)
    ensures |b| == w
    decreases w
  {
    if w == 0 then [] else [n % 256] + LittleEndian(n / 256, w - 1)
  }

  function FromLittleEndian(b: Bytes): nat {
    if b == [] then 0 else b[0] + 256 * FromLittleEndian(b[1..])
  }

  lemma {:induction false} LittleEndianRoundTrip(n: nat, w: nat)
    requires n < Pow256(w)
    ensures FromLittleEndian(LittleEndian(n, w)) == n
    decreases w
  {
    if w > 0 {
      LittleEndianRoundTrip(n / 256, w - 1);
      assert LittleEndian(n, w)[1..] == LittleEndian(n / 256, w - 1);
    }
  }

  /** Little-endian: the lowest byte comes first. */
  lemma FourBytes(a: byte, b: byte, c: byte, d: byte)
    ensures FromLittleEndian([a, b, c, d]) == a + 256 * b + 65536 * c + 16777216 * d
  {
    OneMore(d, []);
    OneMore(c, [d]);
    OneMore(b, [c, d]);
    OneMore(a, [b, c, d]);
    assert [c] + [d] == [c, d] && [b] + [c, d] == [b, c, d] && [a] + [b, c, d] == [a, b, c, d];
  }

  lemma OneMore(a: byte, s: Bytes)
    ensures FromLittleEndian([a] + s) == a + 256 * FromLittleEndian(s)
  {
    assert ([a] + s)[1..] == s;
  }

  // ----- Decimal text -----

  predicate IsDigit(c: byte) { 48 <= c <= 57 }

  predicate AllDigits(t: Bytes) { forall i :: 0 <= i < |t| ==> IsDigit(t[i]) }

  /** `std::to_string` of an unsigned number. */
  function Decimal(n: nat): (t: Bytes)
    ensures t != [] && AllDigits(t)
  {
    if n < 10 then [48 + n] else Decimal(n / 10) + [48 + n % 10]
  }

  /** `std::to_string` of a signed number. */
  function SignedDecimal(n: int): Bytes {
    if n < 0 then [45] + Decimal(-n) else Decimal(n)
  }

  function DigitsValue(t: Bytes): nat
    requires AllDigits(t)
  {
    if t == [] then 0 else DigitsValue(t[..|t| - 1]) * 10 + (t[|t| - 1] - 48)
  }

  lemma {:induction false} DecimalRoundTrip(n: nat)
    ensures DigitsValue(Decimal(n)) == n
  {
    if n >= 10 {
      DecimalRoundTrip(n / 10);
      var t := Decimal(n);
      assert t[..|t| - 1] == Decimal(n / 10);
    } else {
      var t: Bytes := [48 + n];
      assert t[..0] == [];
      assert DigitsValue(t) == DigitsValue(t[..0]) * 10 + n;
    }
  }

  /** The first index at or after `i` whose byte is not a digit. */
  function DigitsEnd(t: Bytes, i: nat): (j: nat)
    requires i <= |t|
    ensures i <= j <= |t|
    ensures AllDigits(t[i..j])
    ensures j < |t| ==> !IsDigit(t[j])
    decreases |t| - i
  {
    if i < |t| && IsDigit(t[i]) then
      var j := DigitsEnd(t, i + 1);
      assert t[i..j] == [t[i]] + t[i + 1..j];
      j
    else i
  }

  predicate IsSpace(c: byte) { c == 32 || 9 <= c <= 13 }

  function SpacesEnd(t: Bytes, i: nat): (j: nat)
    requires i <= |t|
    ensures i <= j <= |t|
    decreases |t| - i
  {
    if i < |t| && IsSpace(t[i]) then SpacesEnd(t, i + 1) else i
  }

  datatype Scanned = NotANumber | Scanned(negative: bool, magnitude: nat)

  /** What `strtoll` and `strtoul` read: blanks, an optional sign, then the longest run of digits. */
  function Scan(t: Bytes): Scanned {
    var i := SpacesEnd(t, 0);
    var negative := i < |t| && t[i] == 45;
    var start := if i < |t| && (t[i] == 45 || t[i] == 43) then i + 1 else i;
    var end := DigitsEnd(t, start);
    if end == start then NotANumber else Scanned(negative, DigitsValue(t[start..end]))
  }

  datatype Option<T> = None | Some(value: T)

  /** `std::stoll`; None stands for the exception. */
  function ToSigned64(t: Bytes): (r: Option<int>)
    ensures r.Some? ==> InInt64(r.value)
  {
    match Scan(t)
    case NotANumber => None
    case Scanned(negative, m) =>
      var n := if negative then -(m as int) else m as int;
      if InInt64(n) then Some(n) else None
  }

  /** `std::stoul`: a minus sign negates modulo 2^64. None stands for the exception. */
  function ToUnsigned64(t: Bytes): (r: Option<nat>)
    ensures r.Some? ==> r.value < TWO_64
  {
    match Scan(t)
    case NotANumber => None
    case Scanned(negative, m) =>
      if m >= TWO_64 then None
      else Some(if negative then (TWO_64 - m) % TWO_64 else m)
  }

  lemma ScanDecimal(n: nat)
    ensures Scan(Decimal(n)) == Scanned(false, n)
  {
    var t := Decimal(n);
    assert IsDigit(t[0]);
    assert SpacesEnd(t, 0) == 0;
    var end := DigitsEnd(t, 0);
    assert end == |t|;
    assert t[0..end] == t;
    DecimalRoundTrip(n);
  }

  lemma ScanNegative(n: nat)
    ensures Scan([45] + Decimal(n)) == Scanned(true, n)
  {
    var t := [45] + Decimal(n);
    assert t[0] == 45;
    assert SpacesEnd(t, 0) == 0;
    var end := DigitsEnd(t, 1);
    assert end == |t|;
    assert t[1..end] == Decimal(n);
    DecimalRoundTrip(n);
  }

  /** Decimal print and parse are inverse on the whole range of each type. */
  lemma NumberRoundTrip(n: int)
    ensures InInt64(n) ==> ToSigned64(SignedDecimal(n)) == Some(n)
    ensures 0 <= n < TWO_64 ==> ToUnsigned64(Decimal(n)) == Some(n)
  {
    if n < 0 {
      ScanNegative(-n);
    } else {
      ScanDecimal(n);
    }
  }

  /** The digits mean what they mean in base ten, written from the highest down. */
  lemma DecimalIsBaseTen(n: nat, d: nat)
    requires d < 10
    ensures n > 0 ==> Decimal(10 * n + d) == Decimal(n) + [48 + d]
    ensures Decimal(d) == [48 + d] && SignedDecimal(-17) == [45, 49, 55] && SignedDecimal(208) == [50, 48, 56]
  {
    assert Decimal(17) == Decimal(1) + [55];
    assert Decimal(208) == Decimal(20) + [56] == Decimal(2) + [48] + [56];
  }

  /** Decimal text contains no line feed. */
  lemma DecimalHasNoBreak(n: int)
    ensures LF !in SignedDecimal(n)
    ensures n >= 0 ==> LF !in Decimal(n)
  {
    var t := if n < 0 then Decimal(-n) else Decimal(n);
    assert forall i :: 0 <= i < |t| ==> IsDigit(t[i]);
  }
}
