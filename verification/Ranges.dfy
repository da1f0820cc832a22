/** Index ranges with negative positions, and the rank of a sorted-set member. */
module Ranges {
  import opened Octets
  import opened SortedSets

  // ----- Index arithmetic -----

  predicate InInt32(i: int) { -TWO_31 <= i < TWO_31 }

  /** Conversion of a 64-bit value to `int`. */
  function AsInt32(x: int): int {
    var r := x % TWO_32;
    if r >= TWO_31 then r - TWO_32 else r
  }

  /** A negative index is added to the size as a `size_t` and stored back into an `int`. */
  function Resolve(size: nat, i: int): int {
    if i < 0 then AsInt32((size + i) % TWO_64) else i
  }

  function First(size: nat, start: int): int {
    var s := Resolve(size, start);
    if s > 0 then s else 0
  }

  function Last(size: nat, end: int): int {
    var e, top := Resolve(size, end), AsInt32(size) - 1;
    if top < e then top else e
  }

  /** The elements between two inclusive positions, as `lrange` and `zrange` select them. */
  function Slice<T>(s: seq<T>, start: int, end: int): seq<T> {
    var lo, hi := First(|s|, start), Last(|s|, end);
    if lo <= hi < |s| then s[lo..hi + 1] else []
  }

  function Reverse<T>(s: seq<T>): (r: seq<T>)
    ensures |r| == |s|
  {
    seq(|s|, i requires 0 <= i < |s| => s[|s| - 1 - i])
  }

  lemma ReverseAppend<T>(x: seq<T>, y: seq<T>)
    ensures Reverse(x + y) == Reverse(y) + Reverse(x)
  {
  }

  /** The wrap-around never shows: below 2^31 elements the code computes `size + i`. */
  lemma ResolveIsExact(size: nat, i: int)
    requires size < TWO_31 && InInt32(i)
    ensures Resolve(size, i) == (if i < 0 then size + i else i)
    ensures AsInt32(size) == size
  {
    if i < 0 {
      var x := size + i;
      if x < 0 {
        assert x % TWO_64 == x + TWO_64;
        assert (x + TWO_64) % TWO_32 == x + TWO_32;
      } else {
        assert x % TWO_64 == x;
        assert x % TWO_32 == x;
      }
    }
    assert size % TWO_32 == size;
  }

  /** A position is selected exactly when it lies between the clamped ends. */
  lemma SliceIsClamp<T>(s: seq<T>, start: int, end: int)
    requires |s| < TWO_31 && InInt32(start) && InInt32(end)
    ensures var lo := Max(0, if start < 0 then |s| + start else start);
            var hi := Min(|s| - 1, if end < 0 then |s| + end else end);
            Slice(s, start, end) == if lo <= hi then s[lo..hi + 1] else []
  {
    ResolveIsExact(|s|, start);
    ResolveIsExact(|s|, end);
  }

  function Max(a: int, b: int): int { if a < b then b else a }
  function Min(a: int, b: int): int { if a < b then a else b }

  /** Mirror law: a reverse range is the reverse of the range with both ends reflected. */
  lemma MirrorLaw<T>(s: seq<T>, i: int, j: int)
    requires |s| < TWO_31 && InInt32(i) && InInt32(j)
    ensures InInt32(-1 - j) && InInt32(-1 - i)
    ensures Slice(Reverse(s), i, j) == Reverse(Slice(s, -1 - j, -1 - i))
  {
    hide *;
    ReflectedEnds(|s|, i, j);
    SliceIsClamp(Reverse(s), i, j);
    SliceIsClamp(s, -1 - j, -1 - i);
    var lo := Max(0, if i < 0 then |s| + i else i);
    var hi := Min(|s| - 1, if j < 0 then |s| + j else j);
    if lo <= hi {
      ReverseWindow(s, |s| - 1 - hi, |s| - lo);
    } else {
      assert |Reverse<T>([])| == 0;
    }
  }

  lemma ReverseWindow<T>(s: seq<T>, a: nat, b: nat)
    requires a <= b <= |s|
    ensures Reverse(s)[|s| - b..|s| - a] == Reverse(s[a..b])
  {
  }

  lemma ReflectedEnds(n: nat, i: int, j: int)
    requires n < TWO_31 && InInt32(i) && InInt32(j)
    ensures InInt32(-1 - j) && InInt32(-1 - i)
    ensures var lo := Max(0, if i < 0 then n + i else i);
            var hi := Min(n - 1, if j < 0 then n + j else j);
            && 0 <= lo && hi < n
            && Max(0, if -1 - j < 0 then n + (-1 - j) else -1 - j) == n - 1 - hi
            && Min(n - 1, if -1 - i < 0 then n + (-1 - i) else -1 - i) == n - 1 - lo
  {
  }

  // ----- Rank -----

  /** Byte-wise lexicographic order of `std::string`. */
  predicate Less(a: Bytes, b: Bytes) {
    b != [] && (a == [] || a[0] < b[0] || (a[0] == b[0] && Less(a[1..], b[1..])))
  }

  /** The scan of `zrank` from position `i` on. */
  function RankFrom(z: seq<Entry>, o: int, m: Bytes, i: nat): nat
    requires i <= |z|
    decreases |z| - i
  {
    if i == |z| then 0
    else if Order(z[i].0) < o then 1 + RankFrom(z, o, m, i + 1)
    else if Order(z[i].0) == o && Less(z[i].1, m) then 1 + RankFrom(z, o, m, i + 1)
    else if Order(z[i].0) == o && z[i].1 == m then 0
    else RankFrom(z, o, m, i + 1)
  }

  /** Entries between `i` and `p` that tie with score `o` but do not precede `m` as text. */
  function Overtaken(z: seq<Entry>, o: int, m: Bytes, i: nat, p: nat): nat
    requires i <= p <= |z|
    decreases p - i
  {
    if i == p then 0
    else (if Order(z[i].0) == o && !Less(z[i].1, m) then 1 else 0) + Overtaken(z, o, m, i + 1, p)
  }

  /** The rank falls short of the position by the number of overtaken ties. */
  lemma {:induction false} RankIsPosition(z: seq<Entry>, p: nat, i: nat)
    requires Sorted(z) && Distinct(z) && i <= p < |z|
    ensures var o, m := Order(z[p].0), z[p].1;
            RankFrom(z, o, m, i) == p - i - Overtaken(z, o, m, i, p)
    decreases p - i
  {
    hide Less, Order;
    if i < p {
      RankIsPosition(z, p, i + 1);
      assert Order(z[i].0) <= Order(z[p].0) && z[i].1 != z[p].1;
    } else {
      LessIsStrict(z[p].1);
    }
  }

  lemma {:induction false} LessIsStrict(a: Bytes)
    ensures !Less(a, a)
  {
    if a != [] {
      LessIsStrict(a[1..]);
    }
  }

  /** The first byte that differs decides, and a proper prefix is smaller. */
  lemma {:induction false} LessIsLexicographic(a: Bytes, b: Bytes, i: nat)
    requires i <= |a| && i <= |b| && a[..i] == b[..i]
    ensures i < |a| && i < |b| && a[i] != b[i] ==> (Less(a, b) <==> a[i] < b[i])
    ensures i == |a| ==> (Less(a, b) <==> i < |b|)
    ensures i == |b| ==> !Less(a, b)
    decreases i
  {
    if i > 0 {
      assert a[0] == a[..i][0] == b[..i][0] == b[0];
      assert a[1..][..i - 1] == a[..i][1..] == b[..i][1..] == b[1..][..i - 1];
      LessIsLexicographic(a[1..], b[1..], i - 1);
    }
  }

  /** A strict total order. */
  lemma {:induction false} LessIsTotal(a: Bytes, b: Bytes, c: Bytes)
    ensures Less(a, b) || a == b || Less(b, a)
    ensures !(Less(a, b) && Less(b, a))
    ensures Less(a, b) && Less(b, c) ==> Less(a, c)
    decreases |a| + |b| + |c|
  {
    if a != [] && b != [] {
      LessIsTotal(a[1..], b[1..], if c == [] then [] else c[1..]);
      assert a == [a[0]] + a[1..] && b == [b[0]] + b[1..];
    }
  }

  lemma {:induction false} NoneOvertaken(z: seq<Entry>, o: int, m: Bytes, i: nat, p: nat)
    requires i <= p <= |z|
    ensures Overtaken(z, o, m, i, p) == 0
       <==> forall q :: i <= q < p && Order(z[q].0) == o ==> Less(z[q].1, m)
    decreases p - i
  {
    hide Less, Order;
    if i < p {
      NoneOvertaken(z, o, m, i + 1, p);
    }
  }

  /** Rank against position: `zrank` never exceeds the member's place in the full range, and
      equals it exactly when every tied entry placed earlier is lexicographically smaller. */
  lemma RankAgainstPosition(z: seq<Entry>, p: nat)
    requires Sorted(z) && Distinct(z) && p < |z|
    ensures var o, m := Order(z[p].0), z[p].1;
            && RankFrom(z, o, m, 0) <= p
            && (RankFrom(z, o, m, 0) == p
                <==> forall q :: 0 <= q < p && Order(z[q].0) == o ==> Less(z[q].1, m))
  {
    RankIsPosition(z, p, 0);
    NoneOvertaken(z, Order(z[p].0), z[p].1, 0, p);
  }
}
