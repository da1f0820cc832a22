/** What the sorted-set commands do, told by their replies and by the numbers that the scores
    stand for. */
module ScoredLaws {
  import opened Octets
  import opened SortedSets
  import opened ScoreFormat
  import opened ScoreOrder
  import opened Keyspace
  import opened Commands
  import opened ListLaws
  import Ranges
  import R = Resp

  /** All members in order, as ZRANGE 0 -1 replies them. */
  function Ranked(c: Cell): seq<Bytes> { Texts(ApplyCell(c, ZRange([], 0, -1), 0).reply) }

  ghost predicate ScoredOrMissing(c: Cell, n: nat) {
    && (c.Some? ==> c.value.kind == ZSetT) && CellAgrees(c)
    && |Value(c).zset.byScore| + n < TWO_31
  }

  lemma UnfoldScored(c: Cell, op: Op, now: int)
    requires FamilyOf(op).ScoredFamily?
    ensures ApplyCell(c, op, now) == ApplyScored(c, op, now)
  {
    hide ApplyScored;
  }

  lemma WholeRange(l: seq<Bytes>)
    requires |l| < TWO_31
    ensures Ranges.Slice(l, 0, -1) == l
  {
    Ranges.SliceIsClamp(l, 0, -1);
    assert l[0..|l|] == l;
  }

  lemma RankedMeans(c: Cell)
    requires |ScoredAt(c).byScore| < TWO_31
    ensures Ranked(c) == Names(ScoredAt(c).byScore)
  {
    hide Bulks, Ranges.Slice, Names;
    var l := Names(ScoredAt(c).byScore);
    UnfoldScored(c, ZRange([], 0, -1), 0);
    WholeRange(l);
    TextsOfBulks(l);
  }

  // ----- ZADD -----

  function Dropped(l: seq<Bytes>, m: Bytes): seq<Bytes> {
    if l == [] then [] else (if l[0] == m then [] else [l[0]]) + Dropped(l[1..], m)
  }

  lemma {:induction false} NamesWithout(z: seq<Entry>, m: Bytes)
    ensures Names(Without(z, m)) == Dropped(Names(z), m)
  {
    if z != [] {
      NamesWithout(z[1..], m);
      assert Names(z)[1..] == Names(z[1..]);
      var rest := Without(z[1..], m);
      if z[0].1 != m {
        assert Names([z[0]] + rest) == [z[0].1] + Names(rest);
      }
    }
  }

  lemma ZAddMeans(c: Cell, k: Bytes, e: Entry, now: int)
    requires c.Some? ==> c.value.kind == ZSetT
    ensures var x := ApplyCell(c, ZAdd(k, [e]), now);
            && Is(x.cell, ZSetT) && ScoredAt(x.cell) == Add(ScoredAt(c), e)
            && x.cell.value.zset == Add(Value(c).zset, e) && x.reply == R.Number(1)
  {
    hide Add, Err;
    UnfoldScored(c, ZAdd(k, [e]), now);
    var es := [e];
    assert es[1..] == [];
    assert AddAll(Value(c).zset, es) == AddAll(Add(Value(c).zset, e), []);
  }

  /** ZADD of one pair: the member has the score, every other member keeps its own, and the member
      stands behind everything that is at most its score and before everything that is more,
      while the others keep their order. */
  lemma ZAddLaw(c: Cell, k: Bytes, s: Score, m: Bytes, now: int) returns (p: nat)
    requires ScoredOrMissing(c, 1)
    ensures var x, rest := ApplyCell(c, ZAdd(k, [(s, m)]), now), Dropped(Ranked(c), m);
            && x.reply == R.Number(1) && ScoreOf(x.cell, m) == s
            && (forall o :: o != m ==> ScoreOf(x.cell, o) == ScoreOf(c, o))
            && p <= |rest| && Ranked(x.cell) == rest[..p] + [m] + rest[p..]
            && (forall i :: 0 <= i < p ==> AtMost(ScoreOf(c, rest[i]), s))
            && (forall i :: p <= i < |rest| ==> !AtMost(ScoreOf(c, rest[i]), s))
  {
    hide ApplyCell, Ranked, Names, AtMost, Order, Agree, Dropped;
    var e := (s, m);
    var x, ix := ApplyCell(c, ZAdd(k, [e]), now), ScoredAt(c);
    ZAddMeans(c, k, e, now);
    var w := Without(ix.byScore, m);
    p := UpperBound(w, Order(s), 0);
    AddedRange(c, e, p);
    RankedMeans(c);
    RankedMeans(x.cell);
    NamesWithout(ix.byScore, m);
    ScoresBeside(c, m);
    forall i | 0 <= i < |w|
      ensures AtMost(ScoreOf(c, w[i].1), s) <==> i < p
    {
      OrderIsNumeric(w[i].0, s);
      assert w[i].0 == ScoreOf(c, w[i].1);
    }
    NamesAre(w);
  }

  lemma NamesAre(z: seq<Entry>)
    ensures |Names(z)| == |z| && forall i :: 0 <= i < |z| ==> Names(z)[i] == z[i].1
  {
  }

  /** The other entries carry the scores that the members have. */
  lemma ScoresBeside(c: Cell, m: Bytes)
    requires CellAgrees(c)
    ensures var w := Without(ScoredAt(c).byScore, m);
            forall i :: 0 <= i < |w| ==> ScoreOf(c, w[i].1) == w[i].0
  {
    hide Without, Order;
    if Is(c, ZSetT) {
      var z, w := c.value.zset.byScore, Without(c.value.zset.byScore, m);
      WithoutKeeps(z, m);
      forall i | 0 <= i < |w|
        ensures ScoreOf(c, w[i].1) == w[i].0
      {
        var j :| 0 <= j < |z| && z[j] == w[i];
      }
    } else {
      assert Without([], m) == [];
    }
  }

  lemma AddedRange(c: Cell, e: Entry, p: nat)
    requires ScoredOrMissing(c, 1) && p == UpperBound(Without(ScoredAt(c).byScore, e.1), Order(e.0), 0)
    ensures var w, z := Without(ScoredAt(c).byScore, e.1), Add(ScoredAt(c), e).byScore;
            && p <= |w| && |ScoredAt(c).byScore| + 1 < TWO_31 && |z| <= |ScoredAt(c).byScore| + 1
            && Names(z) == Names(w)[..p] + [e.1] + Names(w)[p..]
            && (forall i :: 0 <= i < p ==> Order(w[i].0) <= Order(e.0))
            && (forall i :: p <= i < |w| ==> Order(w[i].0) > Order(e.0))
  {
    hide Agree, Without, Order, UpperBound;
    var w := Without(ScoredAt(c).byScore, e.1);
    SortedBeside(c, e.1);
    assert Names(w[..p] + [e] + w[p..]) == Names(w)[..p] + [e.1] + Names(w)[p..];
  }

  lemma SortedBeside(c: Cell, m: Bytes)
    requires CellAgrees(c)
    ensures Sorted(Without(ScoredAt(c).byScore, m))
  {
    if Is(c, ZSetT) {
      WithoutKeeps(c.value.zset.byScore, m);
    }
  }

  /** A batch ZADD equals adding its pairs one at a time. */
  lemma BatchZAddIsOneByOne(c: Cell, k: Bytes, es: seq<Entry>, e: Entry, now: int)
    requires (c.Some? ==> c.value.kind == ZSetT) && es != []
    ensures var one := ApplyCell(ApplyCell(c, ZAdd(k, es), now).cell, ZAdd(k, [e]), now);
            var all := ApplyCell(c, ZAdd(k, es + [e]), now);
            ScoredAt(one.cell) == ScoredAt(all.cell) && one.reply == all.reply == R.Number(1)
  {
    hide Err, AddAll, Add;
    var d := ApplyCell(c, ZAdd(k, es), now).cell;
    UnfoldScored(c, ZAdd(k, es), now);
    UnfoldScored(c, ZAdd(k, es + [e]), now);
    ZAddMeans(d, k, e, now);
    AddAllAppend(Value(c).zset, es, e);
  }

  lemma {:induction false} AddAllAppend(ix: Index, es: seq<Entry>, e: Entry)
    ensures AddAll(ix, es + [e]) == Add(AddAll(ix, es), e)
    decreases |es|
  {
    hide Add;
    if es == [] {
      var one := [e];
      assert [] + one == one && one[1..] == [];
      assert AddAll(ix, one) == AddAll(Add(ix, e), []);
    } else {
      assert (es + [e])[0] == es[0] && (es + [e])[1..] == es[1..] + [e];
      AddAllAppend(Add(ix, es[0]), es[1..], e);
    }
  }

  // ----- What is in the range -----

  /** In every reachable state the range lists the members once, in increasing order of the
      numbers that their scores stand for. */
  lemma RangeIsIncreasing(c: Cell)
    requires CellAgrees(c) && |ScoredAt(c).byScore| < TWO_31
    ensures var l := Ranked(c);
            && NoDuplicates(l) && (forall m :: m in l <==> m in ScoredAt(c).scores)
            && (forall i, j :: 0 <= i < j < |l| ==> AtMost(ScoreOf(c, l[i]), ScoreOf(c, l[j])))
  {
    hide Ranked, AtMost, Order;
    RankedMeans(c);
    if Is(c, ZSetT) {
      var z := c.value.zset.byScore;
      var l := Names(z);
      forall m: Bytes
        ensures m in l <==> m in c.value.zset.scores
      {
        if m in c.value.zset.scores {
          assert Holds(z, m);
          var i :| 0 <= i < |z| && z[i].1 == m;
          assert l[i] == m;
        }
      }
      forall i, j | 0 <= i < j < |l|
        ensures AtMost(ScoreOf(c, l[i]), ScoreOf(c, l[j]))
      {
        OrderIsNumeric(z[i].0, z[j].0);
      }
    }
  }

  // ----- Reading -----

  /** ZRANGE selects between the clamped ends, ZREVRANGE does so on the reversed range, and ZCARD
      counts. */
  lemma RangeLaw(c: Cell, k: Bytes, i: int, j: int, now: int)
    requires CellAgrees(c) && |ScoredAt(c).byScore| < TWO_31 && Ranges.InInt32(i) && Ranges.InInt32(j)
    ensures var l := Ranked(c);
            var lo, hi := if i < 0 then |l| + i else i, if j < 0 then |l| + j else j;
            var from, to := if lo < 0 then 0 else lo, if hi > |l| - 1 then |l| - 1 else hi;
            var r := seq(|l|, n requires 0 <= n < |l| => l[|l| - 1 - n]);
            && ApplyCell(c, ZRange(k, i, j), now).reply == Bulks(if from <= to then l[from..to + 1] else [])
            && ApplyCell(c, ZRevRange(k, i, j), now).reply == Bulks(if from <= to then r[from..to + 1] else [])
            && ApplyCell(c, ZCard(k), now).reply == R.Number(|l|)
  {
    hide Ranked, Bulks, Ranges.Slice, Agree;
    var l := Names(ScoredAt(c).byScore);
    RankedMeans(c);
    UnfoldScored(c, ZRange(k, i, j), now);
    UnfoldScored(c, ZRevRange(k, i, j), now);
    UnfoldScored(c, ZCard(k), now);
    Ranges.SliceIsClamp(l, i, j);
    Ranges.SliceIsClamp(Ranges.Reverse(l), i, j);
    SizeOfIndex(c);
    assert Ranges.Reverse(l) == seq(|l|, n requires 0 <= n < |l| => l[|l| - 1 - n]);
  }

  lemma SizeOfIndex(c: Cell)
    requires CellAgrees(c)
    ensures |ScoredAt(c).byScore| == |ScoredAt(c).scores|
  {
    hide Agree;
    if Is(c, ZSetT) {
      SizesAgree(c.value.zset);
    }
  }

  lemma ScoreMeans(c: Cell, k: Bytes, m: Bytes, now: int)
    ensures var r, s := ApplyCell(c, ZScore(k, m), now).reply, ScoreOf(c, m);
            && (Order(s) != 0 ==> r == R.Bulk(ScoreText(s)))
            && (Order(s) == 0 ==>
                  r == if Dead(c, now) || |ScoredAt(c).scores| == 0 then R.NullBulk else R.Bulk(ScoreText(s)))
  {
    hide Order, ScoreText, ScoreOf;
    UnfoldScored(c, ZScore(k, m), now);
  }

  /** ZSCORE writes the score of a member. A member with score 0 of an expired key is not seen, and
      a missing member reads as 0 as soon as the set has others. */
  lemma ScoreLaw(c: Cell, k: Bytes, m: Bytes, now: int)
    requires CellAgrees(c) && |ScoredAt(c).byScore| < TWO_31
    ensures var r, l := ApplyCell(c, ZScore(k, m), now).reply, Ranked(c);
            && (m in l && (!Dead(c, now) || Order(ScoreOf(c, m)) != 0) ==> r == R.Bulk(ScoreText(ScoreOf(c, m))))
            && (m !in l ==> r == if l == [] || Dead(c, now) then R.NullBulk else R.Bulk([48]))
  {
    hide ApplyCell, Ranked, ScoreText, AtMost, CellAgrees, NoDuplicates, Names;
    RankedMeans(c);
    RangeIsIncreasing(c);
    SizeOfIndex(c);
    NamesAre(ScoredAt(c).byScore);
    ScoreMeans(c, k, m, now);
    ZeroText();
    if m in Ranked(c) {
      assert |ScoredAt(c).scores| != 0;
    }
  }

  lemma ZeroText()
    ensures ScoreText(0) == [48]
  {
    assert Millionths(0) == 0 by { NearestZero(Pow2(1074)); }
    AllZeros(6);
    assert Decimal(0) == [48];
  }

  lemma NearestZero(d: nat)
    requires d > 0
    ensures Nearest(0, d) == 0
  {
  }

  lemma RankMeans(c: Cell, k: Bytes, m: Bytes, now: int)
    ensures var r, ix := ApplyCell(c, ZRank(k, m), now).reply, ScoredAt(c);
            && (m !in ix.scores ==> r == R.NullBulk)
            && (m in ix.scores ==> r == R.Number(Ranges.RankFrom(ix.byScore, Order(ix.scores[m]), m, 0)))
  {
    hide Order, Ranges.RankFrom, ScoredAt;
    UnfoldScored(c, ZRank(k, m), now);
  }

  lemma ScoreAtPosition(c: Cell, p: nat)
    requires CellAgrees(c) && p < |ScoredAt(c).byScore|
    ensures var z := ScoredAt(c).byScore;
            && z[p].1 in ScoredAt(c).scores && ScoreOf(c, z[p].1) == ScoredAt(c).scores[z[p].1] == z[p].0
            && Sorted(z) && Distinct(z)
  {
    hide Order;
  }

  /** ZRANK of a member at position p of the range is p less the number of tied members before it
      that are not smaller as text; a missing member has none. */
  lemma RankLaw(c: Cell, k: Bytes, m: Bytes, now: int)
    requires CellAgrees(c) && |ScoredAt(c).byScore| < TWO_31
    ensures var r, l, z := ApplyCell(c, ZRank(k, m), now).reply, Ranked(c), ScoredAt(c).byScore;
            && (m !in l ==> r == R.NullBulk)
            && (forall p :: 0 <= p < |l| && l[p] == m ==>
                  p < |z| && r == R.Number(p - Ranges.Overtaken(z, Order(ScoreOf(c, m)), m, 0, p)))
  {
    hide ApplyCell, Ranked, Order, Ranges.RankFrom, Ranges.Overtaken, CellAgrees, ScoredAt, ScoreOf, Sorted, Distinct,
      Names, AtMost, NoDuplicates;
    RankedMeans(c);
    RangeIsIncreasing(c);
    RankMeans(c, k, m, now);
    var z := ScoredAt(c).byScore;
    NamesAre(z);
    forall p | 0 <= p < |z| && z[p].1 == m
      ensures ApplyCell(c, ZRank(k, m), now).reply == R.Number(p - Ranges.Overtaken(z, Order(ScoreOf(c, m)), m, 0, p))
    {
      ScoreAtPosition(c, p);
      Ranges.RankIsPosition(z, p, 0);
    }
  }

  // ----- ZREM -----

  /** ZREM of one member: it is gone, the others keep their order and their scores, and the reply
      tells whether it was there. */
  lemma ZRemLaw(c: Cell, k: Bytes, m: Bytes, now: int)
    requires CellAgrees(c) && |ScoredAt(c).byScore| < TWO_31
    ensures var x := ApplyCell(c, ZRem(k, [m]), now);
            && Ranked(x.cell) == Dropped(Ranked(c), m) && (forall o :: o != m ==> ScoreOf(x.cell, o) == ScoreOf(c, o))
            && x.reply == R.Number(if m in Ranked(c) then 1 else 0)
  {
    hide ApplyCell, Ranked, Dropped, Names, Agree, Without, AtMost;
    var x := ApplyCell(c, ZRem(k, [m]), now);
    RankedMeans(c);
    RangeIsIncreasing(c);
    ZRemMeans(c, k, m, now);
    NamesWithout(ScoredAt(c).byScore, m);
    RankedMeans(x.cell);
  }

  lemma ZRemMeans(c: Cell, k: Bytes, m: Bytes, now: int)
    ensures var x := ApplyCell(c, ZRem(k, [m]), now);
            && ScoredAt(x.cell) == Remove(ScoredAt(c), m)
            && x.reply == R.Number(if m in ScoredAt(c).scores then 1 else 0)
  {
    hide Err;
    UnfoldScored(c, ZRem(k, [m]), now);
    var ms := [m];
    assert ms[1..] == [];
    assert m in ms;
    assert RemoveAll(ScoredAt(c), ms) == RemoveAll(Remove(ScoredAt(c), m), []);
  }

  /** A batch ZREM equals removing its members one at a time, and the reply tells whether any of
      them was there. */
  lemma BatchZRemIsOneByOne(c: Cell, k: Bytes, ms: seq<Bytes>, m: Bytes, now: int)
    requires ms != []
    ensures var one := ApplyCell(ApplyCell(c, ZRem(k, ms), now).cell, ZRem(k, [m]), now);
            var all := ApplyCell(c, ZRem(k, ms + [m]), now);
            && ScoredAt(one.cell) == ScoredAt(all.cell)
            && ApplyCell(c, ZRem(k, ms), now).reply
            == R.Number(if exists o :: o in ms && o in ScoredAt(c).scores then 1 else 0)
  {
    hide Err, RemoveAll, Remove;
    var d := ApplyCell(c, ZRem(k, ms), now).cell;
    UnfoldScored(c, ZRem(k, ms), now);
    UnfoldScored(c, ZRem(k, ms + [m]), now);
    ZRemMeans(d, k, m, now);
    if Is(c, ZSetT) {
      RemoveAllAppend(c.value.zset, ms, m);
    } else {
      NothingRemoved(m);
    }
  }

  lemma NothingRemoved(m: Bytes)
    ensures Remove(EMPTY_INDEX, m) == EMPTY_INDEX
  {
  }

  lemma {:induction false} RemoveAllAppend(ix: Index, ms: seq<Bytes>, m: Bytes)
    ensures RemoveAll(ix, ms + [m]) == Remove(RemoveAll(ix, ms), m)
    decreases |ms|
  {
    hide Remove;
    if ms == [] {
      var one := [m];
      assert [] + one == one && one[1..] == [];
      assert RemoveAll(ix, one) == RemoveAll(Remove(ix, m), []);
    } else {
      assert (ms + [m])[0] == ms[0] && (ms + [m])[1..] == ms[1..] + [m];
      RemoveAllAppend(Remove(ix, ms[0]), ms[1..], m);
    }
  }
}
