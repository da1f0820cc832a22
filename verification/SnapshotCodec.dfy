/** Reading undoes writing, piece by piece, and every piece that is cut short is noticed. */
module SnapshotCodec {
  import opened Octets
  import opened SortedSets
  import opened Keyspace
  import opened Snapshots

  predicate FitsString(s: Bytes) { |s| < TWO_32 }

  predicate AllFit(items: seq<Bytes>) { forall i :: 0 <= i < |items| ==> FitsString(items[i]) }

  // ----- Numbers -----

  lemma NumberAt(b: Bytes, pos: nat, n: nat, w: nat)
    requires n < Pow256(w) && At(b, pos, LittleEndian(n, w))
    ensures ReadNumber(b, pos, w) == Got(n, pos + w)
  {
    LittleEndianRoundTrip(n, w);
  }

  lemma NumberCut(b: Bytes, pos: nat, n: nat, w: nat)
    requires CutAt(b, pos, LittleEndian(n, w))
    ensures ReadNumber(b, pos, w) == Short
  {
    hide LittleEndian;
  }

  lemma Widths()
    ensures Pow256(4) == TWO_32 && Pow256(8) == TWO_64
  {
    assert Pow256(2) == 65536;
    assert Pow256(4) == 256 * (256 * Pow256(2));
    assert Pow256(6) == 256 * (256 * Pow256(4));
    assert Pow256(8) == 256 * (256 * Pow256(6));
  }

  // ----- Strings -----

  lemma LengthAt(b: Bytes, pos: nat, n: nat)
    requires n < TWO_32 && At(b, pos, LengthCode(n))
    ensures ReadLength(b, pos) == Got(n, pos + |LengthCode(n)|)
  {
    hide LittleEndian, ReadNumber;
    if n < 64 {
      assert b[pos..pos + 1][0] == n;
    } else {
      AtSplit(b, pos, [0x80], LittleEndian(n, 4));
      assert b[pos..pos + 1][0] == 0x80;
      Widths();
      NumberAt(b, pos + 1, n, 4);
    }
  }

  lemma LengthCut(b: Bytes, pos: nat, n: nat)
    requires CutAt(b, pos, LengthCode(n))
    ensures ReadLength(b, pos) == Short
  {
    hide LittleEndian, ReadNumber;
    if pos < |b| && n >= 64 {
      CutSplit(b, pos, [0x80], LittleEndian(n, 4));
      assert b[pos] == b[pos..pos + 1][0] == 0x80;
      NumberCut(b, pos + 1, n, 4);
    }
  }

  lemma StringForm(s: Bytes)
    requires FitsString(s)
    ensures WriteString(s) == LengthCode(|s|) + s
  {
    hide LengthCode;
    var n := |s|;
    assert n % TWO_32 == n;
    assert s[..n] == s;
  }

  lemma StringAt(b: Bytes, pos: nat, s: Bytes)
    requires FitsString(s) && At(b, pos, WriteString(s))
    ensures ReadString(b, pos) == Got(s, pos + |WriteString(s)|)
  {
    hide WriteString, LengthCode, ReadLength;
    StringForm(s);
    AtSplit(b, pos, LengthCode(|s|), s);
    LengthAt(b, pos, |s|);
  }

  lemma StringCut(b: Bytes, pos: nat, s: Bytes)
    requires FitsString(s) && CutAt(b, pos, WriteString(s))
    ensures ReadString(b, pos) == Short
  {
    hide WriteString, LengthCode, ReadLength;
    StringForm(s);
    CutSplit(b, pos, LengthCode(|s|), s);
    if |b| < pos + |LengthCode(|s|)| {
      LengthCut(b, pos, |s|);
    } else {
      LengthAt(b, pos, |s|);
    }
  }

  // ----- Counted sequences -----

  lemma {:induction false} StringsAt(b: Bytes, pos: nat, items: seq<Bytes>)
    requires AllFit(items) && At(b, pos, WriteStrings(items))
    ensures ReadStrings(b, pos, |items|) == Got(items, pos + |WriteStrings(items)|)
    decreases |items|
  {
    hide WriteString, ReadString;
    if items != [] {
      var s := WriteString(items[0]);
      AtSplit(b, pos, s, WriteStrings(items[1..]));
      StringAt(b, pos, items[0]);
      StringsAt(b, pos + |s|, items[1..]);
      assert items == [items[0]] + items[1..];
    }
  }

  lemma {:induction false} StringsCut(b: Bytes, pos: nat, items: seq<Bytes>)
    requires AllFit(items) && CutAt(b, pos, WriteStrings(items))
    ensures ReadStrings(b, pos, |items|) == Short
    decreases |items|
  {
    hide WriteString, ReadString;
    var s := WriteString(items[0]);
    CutSplit(b, pos, s, WriteStrings(items[1..]));
    if |b| < pos + |s| {
      StringCut(b, pos, items[0]);
    } else {
      StringAt(b, pos, items[0]);
      StringsCut(b, pos + |s|, items[1..]);
    }
  }

  lemma ScoreAt(b: Bytes, pos: nat, s: Score)
    requires At(b, pos, LittleEndian(s, 8))
    ensures ReadScore(b, pos) == Got(s, pos + 8)
  {
    Widths();
    NumberAt(b, pos, s, 8);
  }

  predicate AllNamesFit(z: seq<Entry>) { forall i :: 0 <= i < |z| ==> FitsString(z[i].1) }

  lemma {:induction false} ScoredAt(b: Bytes, pos: nat, z: seq<Entry>)
    requires AllNamesFit(z) && At(b, pos, WriteScored(z))
    ensures ReadScored(b, pos, |z|) == Got(z, pos + |WriteScored(z)|)
    decreases |z|
  {
    hide WriteString, ReadString, ReadScore, LittleEndian;
    if z != [] {
      var s, n := WriteString(z[0].1), LittleEndian(z[0].0, 8);
      AtSplit(b, pos, s + n, WriteScored(z[1..]));
      AtSplit(b, pos, s, n);
      StringAt(b, pos, z[0].1);
      ScoreAt(b, pos + |s|, z[0].0);
      ScoredAt(b, pos + |s| + 8, z[1..]);
      assert z == [(z[0].0, z[0].1)] + z[1..];
    }
  }

  lemma {:induction false} ScoredCut(b: Bytes, pos: nat, z: seq<Entry>)
    requires AllNamesFit(z) && CutAt(b, pos, WriteScored(z))
    ensures ReadScored(b, pos, |z|) == Short
    decreases |z|
  {
    hide WriteString, ReadString, LittleEndian, ReadNumber;
    var s, n := WriteString(z[0].1), LittleEndian(z[0].0, 8);
    CutSplit(b, pos, s + n, WriteScored(z[1..]));
    if |b| < pos + |s + n| {
      CutSplit(b, pos, s, n);
      if |b| < pos + |s| {
        StringCut(b, pos, z[0].1);
      } else {
        StringAt(b, pos, z[0].1);
        NumberCut(b, pos + |s|, z[0].0, 8);
      }
    } else {
      AtSplit(b, pos, s, n);
      StringAt(b, pos, z[0].1);
      ScoreAt(b, pos + |s|, z[0].0);
      ScoredCut(b, pos + |s| + 8, z[1..]);
    }
  }

  // ----- Hash fields -----

  predicate PairsFit(ps: seq<(Bytes, Bytes)>) {
    forall i :: 0 <= i < |ps| ==> FitsString(ps[i].0) && FitsString(ps[i].1)
  }

  lemma {:induction false} PairsAt(b: Bytes, pos: nat, ps: seq<(Bytes, Bytes)>, c: Cell)
    requires PairsFit(ps) && At(b, pos, WritePairs(ps))
    ensures LoadPairs(b, pos, |ps|, c) == Loaded(Some(pos + |WritePairs(ps)|), WriteFields(c, ps))
    decreases |ps|
  {
    hide WriteString, ReadString, WriteField;
    if ps != [] {
      var s, t := WriteString(ps[0].0), WriteString(ps[0].1);
      AtSplit(b, pos, s + t, WritePairs(ps[1..]));
      AtSplit(b, pos, s, t);
      StringAt(b, pos, ps[0].0);
      StringAt(b, pos + |s|, ps[0].1);
      PairsAt(b, pos + |s| + |t|, ps[1..], WriteField(c, ps[0].0, ps[0].1));
    }
  }

  /** How many whole field-and-value pairs the first `n` bytes hold. */
  function WholePairs(ps: seq<(Bytes, Bytes)>, n: nat): (k: nat)
    ensures k <= |ps|
  {
    if ps == [] then 0
    else
      var first := |WriteString(ps[0].0) + WriteString(ps[0].1)|;
      if n < first then 0 else 1 + WholePairs(ps[1..], n - first)
  }

  /** A cut among the fields: exactly the whole pairs before the cut have been written. */
  lemma {:induction false} PairsCut(b: Bytes, pos: nat, ps: seq<(Bytes, Bytes)>, c: Cell)
    requires PairsFit(ps) && CutAt(b, pos, WritePairs(ps))
    ensures LoadPairs(b, pos, |ps|, c) == Loaded(None, WriteFields(c, ps[..WholePairs(ps, |b| - pos)]))
    decreases |ps|
  {
    hide WriteString, ReadString, WriteField;
    var s, t := WriteString(ps[0].0), WriteString(ps[0].1);
    CutSplit(b, pos, s + t, WritePairs(ps[1..]));
    if |b| < pos + |s + t| {
      CutSplit(b, pos, s, t);
      if |b| < pos + |s| {
        StringCut(b, pos, ps[0].0);
      } else {
        StringAt(b, pos, ps[0].0);
        StringCut(b, pos + |s|, ps[0].1);
      }
    } else {
      AtSplit(b, pos, s, t);
      StringAt(b, pos, ps[0].0);
      StringAt(b, pos + |s|, ps[0].1);
      var c' := WriteField(c, ps[0].0, ps[0].1);
      PairsCut(b, pos + |s| + |t|, ps[1..], c');
      var k := WholePairs(ps, |b| - pos);
      assert ps[..k][0] == ps[0] && ps[..k][1..] == ps[1..][..k - 1];
    }
  }
}
