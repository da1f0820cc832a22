/** The two indexes of a sorted set: entries ordered by score, and the score of each member. */
module SortedSets {
  import opened Octets

  /** A double that is not a NaN, as its 64-bit pattern. */
  type Score = b: int | 0 <= b <= INFINITY_BITS || TWO_63 <= b <= TWO_63 + INFINITY_BITS

  const INFINITY_BITS: int := 0x7FF0_0000_0000_0000

  /** Doubles compare like sign-and-magnitude integers; the two zeros are equal. */
  function Order(s: Score): int {
    if s < TWO_63 then s else TWO_63 - s
  }

  type Entry = (Score, Bytes)

  /** `byScore` is the multimap read from begin to end. */
  datatype Index = Index(byScore: seq<Entry>, scores: map<Bytes, Score>)

  const EMPTY_INDEX := Index([], map[])

  predicate Sorted(z: seq<Entry>) {
    forall i, j :: 0 <= i < j < |z| ==> Order(z[i].0) <= Order(z[j].0)
  }

  predicate Distinct(z: seq<Entry>) {
    forall i, j :: 0 <= i < j < |z| ==> z[i].1 != z[j].1
  }

  function Members(z: seq<Entry>): set<Bytes> { set i | 0 <= i < |z| :: z[i].1 }

  /** Both indexes hold exactly the same (member, score) pairs, each member once, and the
      multimap is in score order. */
  predicate Agree(ix: Index) {
    && Sorted(ix.byScore) && Distinct(ix.byScore)
    && (forall i :: 0 <= i < |ix.byScore| ==>
          ix.byScore[i].1 in ix.scores && ix.scores[ix.byScore[i].1] == ix.byScore[i].0)
    && (forall m :: m in ix.scores ==> Holds(ix.byScore, m))
  }

  predicate Holds(z: seq<Entry>, m: Bytes) { exists i :: 0 <= i < |z| && z[i].1 == m }

  // ----- Operations of the multimap -----

  /** The first position at or after `i` whose score exceeds `o`: where the multimap inserts. */
  function UpperBound(z: seq<Entry>, o: int, i: nat): (u: nat)
    requires i <= |z|
    ensures i <= u <= |z|
    ensures forall k :: i <= k < u ==> Order(z[k].0) <= o
    ensures u < |z| ==> Order(z[u].0) > o
    decreases |z| - i
  {
    if i < |z| && Order(z[i].0) <= o then UpperBound(z, o, i + 1) else i
  }

  function Insert(z: seq<Entry>, e: Entry): seq<Entry> {
    var u := UpperBound(z, Order(e.0), 0);
    z[..u] + [e] + z[u..]
  }

  /** `z` without its entries for member `m`. */
  function Without(z: seq<Entry>, m: Bytes): (r: seq<Entry>)
    ensures |r| <= |z|
  {
    if z == [] then []
    else if z[0].1 == m then Without(z[1..], m)
    else [z[0]] + Without(z[1..], m)
  }

  function Add(ix: Index, e: Entry): Index {
    Index(Insert(Without(ix.byScore, e.1), e), ix.scores[e.1 := e.0])
  }

  function Remove(ix: Index, m: Bytes): Index {
    Index(Without(ix.byScore, m), ix.scores - {m})
  }

  function AddAll(ix: Index, es: seq<Entry>): Index
    decreases |es|
  {
    if es == [] then ix else AddAll(Add(ix, es[0]), es[1..])
  }

  function RemoveAll(ix: Index, ms: seq<Bytes>): Index
    decreases |ms|
  {
    if ms == [] then ix else RemoveAll(Remove(ix, ms[0]), ms[1..])
  }

  // ----- Sequence facts about Without and Insert -----

  lemma {:induction false} WithoutAppend(x: seq<Entry>, y: seq<Entry>, m: Bytes)
    ensures Without(x + y, m) == Without(x, m) + Without(y, m)
  {
    if x == [] {
      assert x + y == y;
    } else {
      assert (x + y)[0] == x[0] && (x + y)[1..] == x[1..] + y;
      WithoutAppend(x[1..], y, m);
      var s, t := Without(x[1..], m), Without(y, m);
      assert [x[0]] + (s + t) == ([x[0]] + s) + t;
    }
  }

  lemma {:induction false} WithoutAbsent(z: seq<Entry>, m: Bytes)
    requires !Holds(z, m)
    ensures Without(z, m) == z
  {
    if z != [] {
      assert z[0].1 != m;
      assert forall i :: 0 <= i < |z[1..]| ==> z[1..][i] == z[i + 1];
      WithoutAbsent(z[1..], m);
    }
  }

  /** Removing a member that stands at position `p` and nowhere else. */
  lemma WithoutAt(z: seq<Entry>, m: Bytes, p: nat)
    requires Distinct(z) && p < |z| && z[p].1 == m
    ensures Without(z, m) == z[..p] + z[p + 1..]
  {
    assert z == z[..p] + ([z[p]] + z[p + 1..]);
    WithoutAppend(z[..p], [z[p]] + z[p + 1..], m);
    assert !Holds(z[..p], m) && !Holds(z[p + 1..], m);
    WithoutAbsent(z[..p], m);
    WithoutAbsent(z[p + 1..], m);
    assert ([z[p]] + z[p + 1..])[1..] == z[p + 1..];
  }

  /** What `Without` leaves: the other entries, in order. */
  lemma {:induction false} WithoutKeeps(z: seq<Entry>, m: Bytes)
    requires Sorted(z) && Distinct(z)
    ensures Sorted(Without(z, m)) && Distinct(Without(z, m)) && !Holds(Without(z, m), m)
    ensures forall i :: 0 <= i < |Without(z, m)| ==> Without(z, m)[i] in z
    ensures forall i :: 0 <= i < |z| && z[i].1 != m ==> z[i] in Without(z, m)
  {
    hide Without, Order;
    if Holds(z, m) {
      var p :| 0 <= p < |z| && z[p].1 == m;
      WithoutAt(z, m, p);
      var r := Without(z, m);
      assert forall i :: 0 <= i < p ==> r[i] == z[i];
      assert forall i :: p <= i < |r| ==> r[i] == z[i + 1];
      assert forall i :: p < i < |z| ==> z[i] == r[i - 1];
    } else {
      WithoutAbsent(z, m);
    }
  }

  lemma InsertShape(z: seq<Entry>, e: Entry)
    ensures var u, r := UpperBound(z, Order(e.0), 0), Insert(z, e);
            && |r| == |z| + 1 && r[u] == e
            && (forall i :: 0 <= i < u ==> r[i] == z[i])
            && (forall i :: u < i < |r| ==> r[i] == z[i - 1])
  {
    hide Order, UpperBound;
  }

  lemma InsertSorted(z: seq<Entry>, e: Entry)
    requires Sorted(z)
    ensures Sorted(Insert(z, e))
  {
    InsertShape(z, e);
    hide Order, UpperBound, Insert;
    var u := UpperBound(z, Order(e.0), 0);
    assert forall i :: u <= i < |z| ==> Order(z[i].0) > Order(e.0);
  }

  lemma InsertKeeps(z: seq<Entry>, e: Entry)
    requires Sorted(z) && Distinct(z) && !Holds(z, e.1)
    ensures Sorted(Insert(z, e)) && Distinct(Insert(z, e))
    ensures forall i :: 0 <= i < |Insert(z, e)| ==> Insert(z, e)[i] == e || Insert(z, e)[i] in z
    ensures e in Insert(z, e) && forall i :: 0 <= i < |z| ==> z[i] in Insert(z, e)
  {
    hide Order, UpperBound, Insert, Sorted;
    InsertShape(z, e);
    InsertSorted(z, e);
    InsertDistinct(z, e);
    var u, r := UpperBound(z, Order(e.0), 0), Insert(z, e);
    hide Distinct, Holds;
    assert forall i :: u <= i < |z| ==> z[i] == r[i + 1];
  }

  lemma InsertDistinct(z: seq<Entry>, e: Entry)
    requires Distinct(z) && !Holds(z, e.1)
    ensures Distinct(Insert(z, e))
  {
    hide Order, UpperBound, Insert;
    InsertShape(z, e);
    assert forall i :: 0 <= i < |z| ==> z[i].1 != e.1;
  }

  lemma HoldsIn(z: seq<Entry>, e: Entry)
    requires e in z
    ensures Holds(z, e.1)
  {
    var i :| 0 <= i < |z| && z[i] == e;
  }

  /** Adding keeps the two indexes in agreement. */
  lemma AddAgrees(ix: Index, e: Entry)
    requires Agree(ix)
    ensures Agree(Add(ix, e))
  {
    hide Insert, Without, Sorted, Distinct, Order, Holds;
    WithoutKeeps(ix.byScore, e.1);
    InsertKeeps(Without(ix.byScore, e.1), e);
    AddPairs(ix, e);
    AddCovers(ix, e);
  }

  lemma AddPairs(ix: Index, e: Entry)
    requires Agree(ix)
    ensures var r := Add(ix, e);
            forall i :: 0 <= i < |r.byScore| ==>
              r.byScore[i].1 in r.scores && r.scores[r.byScore[i].1] == r.byScore[i].0
  {
    hide Insert, Without, Sorted, Distinct, Order;
    var w, r := Without(ix.byScore, e.1), Add(ix, e);
    WithoutKeeps(ix.byScore, e.1);
    InsertKeeps(w, e);
    forall i | 0 <= i < |r.byScore|
      ensures r.byScore[i].1 in r.scores && r.scores[r.byScore[i].1] == r.byScore[i].0
    {
      if r.byScore[i] != e {
        var j :| 0 <= j < |w| && w[j] == r.byScore[i];
        assert w[j].1 != e.1;
        assert w[j] in ix.byScore;
      }
    }
  }

  lemma AddCovers(ix: Index, e: Entry)
    requires Agree(ix)
    ensures var r := Add(ix, e);
            forall k :: k in r.scores ==> Holds(r.byScore, k)
  {
    hide Insert, Without, Sorted, Distinct, Order;
    var z, w, r := ix.byScore, Without(ix.byScore, e.1), Add(ix, e);
    WithoutKeeps(z, e.1);
    InsertKeeps(w, e);
    forall k | k in r.scores
      ensures Holds(r.byScore, k)
    {
      if k == e.1 {
        HoldsIn(r.byScore, e);
      } else {
        assert Holds(z, k);
        var i :| 0 <= i < |z| && z[i].1 == k;
        var j :| 0 <= j < |w| && w[j] == z[i];
        HoldsIn(r.byScore, w[j]);
      }
    }
  }

  lemma RemoveAgrees(ix: Index, m: Bytes)
    requires Agree(ix)
    ensures Agree(Remove(ix, m))
  {
    hide Without;
    var z, r := ix.byScore, Remove(ix, m);
    WithoutKeeps(z, m);
    forall k | k in r.scores
      ensures Holds(r.byScore, k)
    {
      assert Holds(z, k);
      var i :| 0 <= i < |z| && z[i].1 == k;
      HoldsIn(r.byScore, z[i]);
    }
    forall i | 0 <= i < |r.byScore|
      ensures r.byScore[i].1 in r.scores && r.scores[r.byScore[i].1] == r.byScore[i].0
    {
      assert r.byScore[i].1 != m;
      assert r.byScore[i] in z;
    }
  }

  /** Index agreement survives every batch of adds. */
  lemma {:induction false} AddAllAgrees(ix: Index, es: seq<Entry>)
    requires Agree(ix)
    ensures Agree(AddAll(ix, es))
    decreases |es|
  {
    hide Agree, Add;
    if es != [] {
      AddAgrees(ix, es[0]);
      AddAllAgrees(Add(ix, es[0]), es[1..]);
    }
  }

  lemma {:induction false} RemoveAllAgrees(ix: Index, ms: seq<Bytes>)
    requires Agree(ix)
    ensures Agree(RemoveAll(ix, ms))
    decreases |ms|
  {
    hide Agree, Remove;
    if ms != [] {
      RemoveAgrees(ix, ms[0]);
      RemoveAllAgrees(Remove(ix, ms[0]), ms[1..]);
    }
  }

  /** The two indexes have the same size. */
  lemma SizesAgree(ix: Index)
    requires Agree(ix)
    ensures |ix.byScore| == |ix.scores|
  {
    MembersCount(ix.byScore);
    assert Members(ix.byScore) == ix.scores.Keys by {
      forall m | m in ix.scores
        ensures m in Members(ix.byScore)
      {
        assert Holds(ix.byScore, m);
      }
    }
  }

  lemma {:induction false} MembersCount(z: seq<Entry>)
    requires Distinct(z)
    ensures |Members(z)| == |z|
  {
    if z != [] {
      var n := |z| - 1;
      MembersCount(z[..n]);
      assert Members(z) == Members(z[..n]) + {z[n].1};
      assert z[n].1 !in Members(z[..n]);
    }
  }

  // ----- Tie order -----

  /** The entries whose score compares equal to `o`, in order. */
  function Ties(z: seq<Entry>, o: int): seq<Entry> {
    if z == [] then []
    else if Order(z[0].0) == o then [z[0]] + Ties(z[1..], o)
    else Ties(z[1..], o)
  }

  /** `z` is `l` sorted by score, entries with equal scores keeping their order. */
  ghost predicate IsStableSort(z: seq<Entry>, l: seq<Entry>) {
    Sorted(z) && forall o {:trigger Ties(z, o)} :: Ties(z, o) == Ties(l, o)
  }

  /** Members in the order of their latest ZADD. */
  function Touch(l: seq<Entry>, e: Entry): seq<Entry> { Without(l, e.1) + [e] }

  function TouchAll(l: seq<Entry>, es: seq<Entry>): seq<Entry>
    decreases |es|
  {
    if es == [] then l else TouchAll(Touch(l, es[0]), es[1..])
  }

  function DropAll(l: seq<Entry>, ms: seq<Bytes>): seq<Entry>
    decreases |ms|
  {
    if ms == [] then l else DropAll(Without(l, ms[0]), ms[1..])
  }

  lemma {:induction false} TiesAppend(x: seq<Entry>, y: seq<Entry>, o: int)
    ensures Ties(x + y, o) == Ties(x, o) + Ties(y, o)
  {
    if x == [] {
      assert x + y == y;
    } else {
      assert (x + y)[0] == x[0] && (x + y)[1..] == x[1..] + y;
      TiesAppend(x[1..], y, o);
      var s, t := Ties(x[1..], o), Ties(y, o);
      assert [x[0]] + (s + t) == ([x[0]] + s) + t;
    }
  }

  lemma {:induction false} TiesWithout(z: seq<Entry>, m: Bytes, o: int)
    ensures Ties(Without(z, m), o) == Without(Ties(z, o), m)
  {
    if z != [] {
      TiesWithout(z[1..], m, o);
      var w := Without(z[1..], m);
      assert ([z[0]] + w)[1..] == w;
      var t := Ties(z[1..], o);
      assert ([z[0]] + t)[1..] == t;
    }
  }

  lemma {:induction false} NoTies(z: seq<Entry>, o: int)
    requires forall i :: 0 <= i < |z| ==> Order(z[i].0) != o
    ensures Ties(z, o) == []
  {
    if z != [] {
      NoTies(z[1..], o);
    }
  }

  /** Inserting puts the entry behind everything it ties with and moves nothing else. */
  lemma TiesInsert(z: seq<Entry>, e: Entry, o: int)
    requires Sorted(z)
    ensures Ties(Insert(z, e), o) == if Order(e.0) == o then Ties(z, o) + [e] else Ties(z, o)
  {
    hide Ties, Order, UpperBound;
    var u := UpperBound(z, Order(e.0), 0);
    var x, y := z[..u], z[u..];
    assert z == x + y && Insert(z, e) == x + ([e] + y);
    TiesAppend(x, [e] + y, o);
    TiesAppend([e], y, o);
    TiesAppend(x, y, o);
    TiesOne(e, o);
    if Order(e.0) == o {
      assert forall i :: 0 <= i < |y| ==> Order(y[i].0) > o;
      NoTies(y, o);
    }
  }

  /** One ZADD pair: the multimap stays the stable sort of the members by latest ZADD. */
  lemma AddIsStable(ix: Index, e: Entry, l: seq<Entry>)
    requires Agree(ix) && IsStableSort(ix.byScore, l)
    ensures IsStableSort(Add(ix, e).byScore, Touch(l, e))
  {
    hide Insert, Without, Ties;
    AddAgrees(ix, e);
    var z, w := ix.byScore, Without(ix.byScore, e.1);
    WithoutKeeps(z, e.1);
    forall o
      ensures Ties(Insert(w, e), o) == Ties(Touch(l, e), o)
    {
      TiesInsert(w, e, o);
      TiesWithout(z, e.1, o);
      TiesWithout(l, e.1, o);
      TiesAppend(Without(l, e.1), [e], o);
      TiesOne(e, o);
    }
  }

  lemma TiesOne(e: Entry, o: int)
    ensures Ties([e], o) == if Order(e.0) == o then [e] else []
  {
    assert [e][1..] == [];
  }

  lemma RemoveIsStable(ix: Index, m: Bytes, l: seq<Entry>)
    requires Agree(ix) && IsStableSort(ix.byScore, l)
    ensures IsStableSort(Remove(ix, m).byScore, Without(l, m))
  {
    hide Without, Ties;
    RemoveAgrees(ix, m);
    forall o
      ensures Ties(Without(ix.byScore, m), o) == Ties(Without(l, m), o)
    {
      TiesWithout(ix.byScore, m, o);
      TiesWithout(l, m, o);
    }
  }

  lemma {:induction false} AddAllIsStable(ix: Index, es: seq<Entry>, l: seq<Entry>)
    requires Agree(ix) && IsStableSort(ix.byScore, l)
    ensures IsStableSort(AddAll(ix, es).byScore, TouchAll(l, es))
    decreases |es|
  {
    hide Agree, IsStableSort, Add, Touch;
    if es != [] {
      AddAgrees(ix, es[0]);
      AddIsStable(ix, es[0], l);
      AddAllIsStable(Add(ix, es[0]), es[1..], Touch(l, es[0]));
    }
  }

  lemma {:induction false} RemoveAllIsStable(ix: Index, ms: seq<Bytes>, l: seq<Entry>)
    requires Agree(ix) && IsStableSort(ix.byScore, l)
    ensures IsStableSort(RemoveAll(ix, ms).byScore, DropAll(l, ms))
    decreases |ms|
  {
    hide Agree, IsStableSort, Remove, Without;
    if ms != [] {
      RemoveAgrees(ix, ms[0]);
      RemoveIsStable(ix, ms[0], l);
      RemoveAllIsStable(Remove(ix, ms[0]), ms[1..], Without(l, ms[0]));
    }
  }

  /** `IsStableSort` leaves no freedom: at most one sequence is the stable sort of `l`. */
  lemma {:induction false} StableSortIsUnique(x: seq<Entry>, y: seq<Entry>, l: seq<Entry>)
    requires IsStableSort(x, l) && IsStableSort(y, l)
    ensures x == y
  {
    SameTies(x, y);
  }

  lemma {:induction false} SameTies(x: seq<Entry>, y: seq<Entry>)
    requires Sorted(x) && Sorted(y) && forall o {:trigger Ties(x, o)} :: Ties(x, o) == Ties(y, o)
    ensures x == y
    decreases |x|
  {
    if x == [] {
      if y != [] {
        HeadIsLeast(y, x);
      }
    } else {
      HeadIsLeast(x, y);
      HeadIsLeast(y, x);
      var o := Order(x[0].0);
      assert Ties(x, o)[0] == x[0] && Ties(y, o)[0] == y[0] by {
        assert Ties(x, o) == Ties(y, o);
      }
      forall o'
        ensures Ties(x[1..], o') == Ties(y[1..], o')
      {
        assert Ties(x, o') == Ties(y, o');
        assert o' == o ==> Ties(x[1..], o') == Ties(x, o')[1..] && Ties(y[1..], o') == Ties(y, o')[1..];
      }
      SameTies(x[1..], y[1..]);
      assert x == [x[0]] + x[1..] && y == [y[0]] + y[1..];
    }
  }

  /** The first score of `x` occurs in `y`, so it is no smaller than the first score of `y`. */
  lemma HeadIsLeast(x: seq<Entry>, y: seq<Entry>)
    requires x != [] && Sorted(y) && Ties(x, Order(x[0].0)) == Ties(y, Order(x[0].0))
    ensures y != [] && Order(y[0].0) <= Order(x[0].0)
  {
    var o := Order(x[0].0);
    assert Ties(x, o) != [];
    if y == [] || Order(y[0].0) > o {
      NoTies(y, o);
    }
  }

  /** An index that is already sorted is rebuilt unchanged by adding its entries in order. */
  lemma {:induction false} RebuildIndex(ix: Index, n: nat)
    requires Agree(ix) && n <= |ix.byScore|
    ensures var r := AddAll(EMPTY_INDEX, ix.byScore[..n]);
            r.byScore == ix.byScore[..n] && r.scores == Restrict(ix.scores, Members(ix.byScore[..n]))
  {
    hide Agree, IsStableSort;
    var z := ix.byScore;
    if n == 0 {
      assert z[..0] == [];
    } else {
      RebuildIndex(ix, n - 1);
      AddAllAppend(EMPTY_INDEX, z[..n - 1], z[n - 1]);
      assert z[..n] == z[..n - 1] + [z[n - 1]];
      AddLast(ix, n);
    }
  }

  function Restrict(s: map<Bytes, Score>, ms: set<Bytes>): map<Bytes, Score> {
    map m | m in s && m in ms :: s[m]
  }

  lemma {:induction false} AddAllAppend(ix: Index, es: seq<Entry>, e: Entry)
    ensures AddAll(ix, es + [e]) == Add(AddAll(ix, es), e)
    decreases |es|
  {
    hide Add;
    if es == [] {
      assert es + [e] == [e] && [e][1..] == [];
    } else {
      assert (es + [e])[0] == es[0] && (es + [e])[1..] == es[1..] + [e];
      AddAllAppend(Add(ix, es[0]), es[1..], e);
    }
  }

  lemma AddLast(ix: Index, n: nat)
    requires Agree(ix) && 0 < n <= |ix.byScore|
    ensures var z := ix.byScore;
            var shorter := Index(z[..n - 1], Restrict(ix.scores, Members(z[..n - 1])));
            Add(shorter, z[n - 1]) == Index(z[..n], Restrict(ix.scores, Members(z[..n])))
  {
    hide Order, Without;
    var z, e := ix.byScore, ix.byScore[n - 1];
    var x := z[..n - 1];
    assert !Holds(x, e.1);
    WithoutAbsent(x, e.1);
    assert UpperBound(x, Order(e.0), 0) == |x|;
    assert Insert(x, e) == z[..n];
    assert Members(z[..n]) == Members(x) + {e.1};
    assert Restrict(ix.scores, Members(x))[e.1 := e.0] == Restrict(ix.scores, Members(z[..n]));
  }
}
