/** The database object. Every method is proved to replace `data` by the value of the function
    of `Keyspace` that specifies it. */
module Databases {
  import opened Octets
  import opened SortedSets
  import opened Keyspace
  import Ranges

  class Database {
    var data: Store

    constructor ()
      ensures data == map[]
    {
      data := map[];
    }

    /** The cell of a key. */
    ghost function At(key: Bytes): Cell
      reads this
    {
      Look(data, key)
    }

    // ----- Strings and keys -----

    method Set(key: Bytes, value: Bytes)
      modifies this
      ensures data == Put(old(data), key, SetString(old(At(key)), value))
    {
      var val := Value(Look(data, key));
      val := val.(kind := StringT);
      val := val.(str := value);
      data := data[key := val];
    }

    method Get(key: Bytes, now: int) returns (s: Bytes)
      modifies this
      ensures data == Put(old(data), key, PurgeIf(old(At(key)), StringT, now))
      ensures s == if Is(At(key), StringT) then data[key].str else []
    {
      PutSame(data, key);
      s := [];
      if key in data && data[key].kind == StringT {
        if IsExpired(data[key], now) {
          data := data - {key};
          return;
        }
        s := data[key].str;
      }
    }

    method Del(key: Bytes) returns (deleted: bool)
      modifies this
      ensures data == Put(old(data), key, None) && deleted == (key in old(data))
    {
      deleted := key in data;
      data := data - {key};
    }

    method Exists(key: Bytes, now: int) returns (present: bool)
      modifies this
      ensures data == Put(old(data), key, Purge(old(At(key)), now)) && present == (key in data)
    {
      PutSame(data, key);
      if key !in data {
        return false;
      }
      if IsExpired(data[key], now) {
        data := data - {key};
        return false;
      }
      present := true;
    }

    method Type(key: Bytes, now: int) returns (kind: RedisType)
      modifies this
      ensures data == Put(old(data), key, Purge(old(At(key)), now))
      ensures kind == Value(At(key)).kind
    {
      PutSame(data, key);
      kind := StringT;
      if key in data {
        if IsExpired(data[key], now) {
          data := data - {key};
          return;
        }
        kind := data[key].kind;
      }
    }

    // ----- Expiry -----

    /** The common body of EXPIRE, PEXPIRE and PERSIST. */
    method ExpireAt(key: Bytes, now: int, at: int) returns (done: bool)
      modifies this
      ensures data == Put(old(data), key, SetExpiry(old(At(key)), now, at)) && done == (key in data)
    {
      PutSame(data, key);
      if key !in data {
        return false;
      }
      if IsExpired(data[key], now) {
        data := data - {key};
        return false;
      }
      data := data[key := data[key].(expiry := at)];
      done := true;
    }

    method Ttl(key: Bytes, now: int) returns (t: int)
      modifies this
      ensures data == Put(old(data), key, Purge(old(At(key)), now))
      ensures t == if key in data then Seconds(data[key], now) else -2
    {
      var present := Exists(key, now);
      t := if present then Seconds(data[key], now) else -2;
    }

    method PTtl(key: Bytes, now: int) returns (t: int)
      modifies this
      ensures data == Put(old(data), key, Purge(old(At(key)), now))
      ensures t == if key in data then Milliseconds(data[key], now) else -2
    {
      var present := Exists(key, now);
      t := if present then Milliseconds(data[key], now) else -2;
    }

    // ----- Modification counters -----

    method GetModCount(key: Bytes) returns (n: nat)
      ensures n == ModCount(Look(data, key))
    {
      n := if key in data then data[key].modCount % TWO_64 else 0;
    }

    method IncrementModCount(key: Bytes)
      modifies this
      ensures data == Put(old(data), key, Bump(old(At(key))))
    {
      if key in data {
        data := data[key := data[key].(modCount := data[key].modCount + 1)];
      } else {
        data := data[key := FRESH.(modCount := 1)];
      }
    }

    // ----- Lists -----

    method LPush(key: Bytes, values: seq<Bytes>) returns (n: nat)
      modifies this
      ensures data == Put(old(data), key, PushFront(old(At(key)), values)) && n == |data[key].list|
    {
      var val := Value(Look(data, key)).(kind := ListT);
      val := val.(list := Ranges.Reverse(values) + val.list);
      data := data[key := val];
      n := |val.list|;
    }

    method RPush(key: Bytes, values: seq<Bytes>) returns (n: nat)
      modifies this
      ensures data == Put(old(data), key, PushBack(old(At(key)), values)) && n == |data[key].list|
    {
      var val := Value(Look(data, key)).(kind := ListT);
      val := val.(list := val.list + values);
      data := data[key := val];
      n := |val.list|;
    }

    method LPop(key: Bytes) returns (s: Bytes)
      modifies this
      ensures var popped := PopFront(old(At(key)));
              data == Put(old(data), key, popped.0) && s == popped.1
    {
      PutSame(data, key);
      s := [];
      if key in data && data[key].kind == ListT && data[key].list != [] {
        s := data[key].list[0];
        data := data[key := data[key].(list := data[key].list[1..])];
      }
    }

    method RPop(key: Bytes) returns (s: Bytes)
      modifies this
      ensures var popped := PopBack(old(At(key)));
              data == Put(old(data), key, popped.0) && s == popped.1
    {
      PutSame(data, key);
      s := [];
      if key in data && data[key].kind == ListT && data[key].list != [] {
        var l := data[key].list;
        s := l[|l| - 1];
        data := data[key := data[key].(list := l[..|l| - 1])];
      }
    }

    method LLen(key: Bytes, now: int) returns (n: nat)
      modifies this
      ensures data == Put(old(data), key, PurgeIf(old(At(key)), ListT, now))
      ensures n == |ListAt(At(key))|
    {
      PutSame(data, key);
      n := 0;
      if key in data && data[key].kind == ListT {
        if IsExpired(data[key], now) {
          data := data - {key};
          return;
        }
        n := |data[key].list|;
      }
    }

    // ----- Sets and hashes -----

    method SAdd(key: Bytes, items: seq<Bytes>) returns (added: nat)
      modifies this
      ensures data == Put(old(data), key, AddMembers(old(At(key)), items))
      ensures added == |data[key].members| - |Value(old(At(key))).members|
    {
      hide ToSet;
      var val := Value(Look(data, key)).(kind := SetT);
      var before := |val.members|;
      var grown := InsertAll(val.members, items);
      SubsetSize(val.members, grown);
      added := |grown| - before;
      data := data[key := val.(members := grown)];
    }

    method SRem(key: Bytes, items: seq<Bytes>) returns (removed: nat)
      modifies this
      ensures data == Put(old(data), key, RemoveMembers(old(At(key)), items))
      ensures removed == |SetAt(old(At(key)))| - |SetAt(At(key))|
    {
      PutSame(data, key);
      hide ToSet;
      if key !in data || data[key].kind != SetT {
        return 0;
      }
      var before := data[key].members;
      var left := EraseAll(before, items);
      SubsetSize(left, before);
      removed := |before| - |left|;
      data := data[key := data[key].(members := left)];
    }

    method HSet(key: Bytes, field: Bytes, value: Bytes)
      modifies this
      ensures data == Put(old(data), key, WriteField(old(At(key)), field, value))
    {
      var val := Value(Look(data, key)).(kind := HashT);
      data := data[key := val.(hash := val.hash[field := value])];
    }

    method HDel(key: Bytes, fields: seq<Bytes>) returns (deleted: bool)
      modifies this
      ensures data == Put(old(data), key, DropFields(old(At(key)), fields))
      ensures deleted == (|HashAt(At(key))| < |HashAt(old(At(key)))|)
    {
      PutSame(data, key);
      hide ToSet;
      if key !in data || data[key].kind != HashT {
        return false;
      }
      var before := data[key].hash;
      var left := EraseFields(before, fields);
      deleted := |left| < |before|;
      data := data[key := data[key].(hash := left)];
    }

    // ----- Set algebra -----

    method SMembers(key: Bytes, order: Enumeration) returns (r: seq<Bytes>)
      ensures r == order(SetAt(Look(data, key)))
    {
      EmptyListing(order({}));
      r := [];
      if Is(Look(data, key), SetT) {
        r := order(data[key].members);
      }
    }

    /** The members kept are those of every listed key; a missing or mistyped key empties the
        result. No member is reported twice. */
    method SInter(keys: seq<Bytes>, order: Enumeration) returns (r: seq<Bytes>)
      ensures Listing(r, if keys == [] then {} else Intersection(data, keys))
      ensures keys != [] ==> r == Kept(order(SetAt(Look(data, keys[0]))), Intersection(data, keys))
    {
      if keys == [] {
        return [];
      }
      ghost var first := order(SetAt(Look(data, keys[0])));
      IntersectionOfOne(data, keys);
      KeptLists(first, Intersection(data, keys));
      r := [];
      if !Is(Look(data, keys[0]), SetT) {
        EmptyListing(first);
        return;
      }
      r := order(data[keys[0]].members);
      KeptWhole(first, Intersection(data, keys[..1]));
      hide Intersection, Kept, Listing;
      var i := 1;
      while i < |keys|
        invariant 1 <= i <= |keys| && r == Kept(first, Intersection(data, keys[..i]))
      {
        IntersectionStep(data, keys, i);
        if !Is(Look(data, keys[i]), SetT) {
          IntersectionVanishes(data, keys, i);
          KeptNone(first);
          return [];
        }
        KeptTwice(first, Intersection(data, keys[..i]), data[keys[i]].members);
        r := Filter(r, data[keys[i]].members);
        i := i + 1;
      }
      assert keys[..i] == keys;
    }

    method SUnion(keys: seq<Bytes>, order: Enumeration) returns (r: seq<Bytes>)
      ensures Listing(r, Union(data, keys)) && r == order(Union(data, keys))
    {
      hide Union, ToSet;
      var all: set<Bytes> := {};
      UnionOfNone(data, keys, 0);
      var i := 0;
      while i < |keys|
        invariant i <= |keys| && all == Union(data, keys[0..i])
      {
        UnionStep(data, keys, 0, i);
        if Is(Look(data, keys[i]), SetT) {
          all := all + data[keys[i]].members;
        }
        i := i + 1;
      }
      assert keys[0..i] == keys;
      r := order(all);
    }

    method SDiff(keys: seq<Bytes>, order: Enumeration) returns (r: seq<Bytes>)
      ensures var s := if keys == [] then {} else SetAt(Look(data, keys[0])) - Union(data, keys[1..]);
              Listing(r, s) && r == order(s)
    {
      EmptyListing(order({}));
      r := [];
      if keys == [] || !Is(Look(data, keys[0]), SetT) {
        return;
      }
      hide Union, ToSet;
      var left := data[keys[0]].members;
      var i := 1;
      UnionOfNone(data, keys, 1);
      while i < |keys|
        invariant 1 <= i <= |keys| && left == SetAt(Look(data, keys[0])) - Union(data, keys[1..i])
      {
        UnionStep(data, keys, 1, i);
        if Is(Look(data, keys[i]), SetT) {
          left := left - data[keys[i]].members;
        }
        i := i + 1;
      }
      assert keys[1..i] == keys[1..];
      r := order(left);
    }

    // ----- Listings -----

    method Keys(order: Enumeration) returns (r: seq<Bytes>)
      ensures r == order(data.Keys)
    {
      var entries := order(data.Keys);
      r := [];
      var i := 0;
      while i < |entries|
        invariant i <= |entries| && r == entries[..i]
      {
        r := r + [entries[i]];
        i := i + 1;
      }
    }

    method HKeys(key: Bytes, order: Enumeration) returns (r: seq<Bytes>)
      ensures r == order(HashAt(Look(data, key)).Keys)
    {
      NoFields(order);
      r := [];
      if Is(Look(data, key), HashT) {
        var entries := order(data[key].hash.Keys);
        var i := 0;
        while i < |entries|
          invariant i <= |entries| && r == entries[..i]
        {
          r := r + [entries[i]];
          i := i + 1;
        }
      }
    }

    method HVals(key: Bytes, order: Enumeration) returns (r: seq<Bytes>)
      ensures var h := HashAt(Look(data, key));
              r == ValuesOf(h, order(h.Keys))
    {
      NoFields(order);
      r := [];
      if Is(Look(data, key), HashT) {
        var h := data[key].hash;
        var entries := order(h.Keys);
        ListedIn(entries, h.Keys);
        hide Listing, Look;
        assert entries[0..] == entries;
        var i := 0;
        while i < |entries|
          invariant i <= |entries| && r + ValuesOf(h, entries[i..]) == ValuesOf(h, entries)
        {
          assert entries[i..][1..] == entries[i + 1..];
          r := r + [h[entries[i]]];
          i := i + 1;
        }
      }
    }

    // ----- Sorted sets -----

    /** Each pair erases the member's old entry from the multimap, found by scanning the equal
        range of its old score, then writes both indexes. */
    method ZAdd(key: Bytes, entries: seq<Entry>) returns (added: bool)
      requires CellAgrees(At(key))
      modifies this
      ensures data == Put(old(data), key, AddScored(old(At(key)), entries)) && added == (entries != [])
      ensures CellAgrees(At(key))
    {
      hide Agree, Insert, Without;
      var val := Value(Look(data, key)).(kind := ZSetT);
      var byScore, scores := val.zset.byScore, val.zset.scores;
      added := false;
      var i := 0;
      while i < |entries|
        invariant i <= |entries| && added == (i > 0) && data == old(data)
        invariant Agree(Index(byScore, scores))
        invariant AddAll(val.zset, entries) == AddAll(Index(byScore, scores), entries[i..])
      {
        var (score, member) := entries[i];
        ghost var ix := Index(byScore, scores);
        AddAgrees(ix, entries[i]);
        if member in scores {
          byScore := EraseEntry(byScore, scores, member);
        } else {
          NotHeld(ix, member);
        }
        scores := scores[member := score];
        byScore := Insert(byScore, entries[i]);
        added := true;
        i := i + 1;
      }
      assert entries[i..] == [];
      data := data[key := val.(zset := Index(byScore, scores))];
    }

    method ZRem(key: Bytes, items: seq<Bytes>) returns (removed: bool)
      requires CellAgrees(At(key))
      modifies this
      ensures data == Put(old(data), key, RemoveScored(old(At(key)), items))
      ensures removed == exists m :: m in items && m in ScoredAt(old(At(key))).scores
      ensures CellAgrees(At(key))
    {
      PutSame(data, key);
      hide Agree, Without;
      removed := false;
      if key !in data || data[key].kind != ZSetT {
        return;
      }
      var byScore, scores := data[key].zset.byScore, data[key].zset.scores;
      ghost var start := data[key].zset;
      var i := 0;
      while i < |items|
        invariant i <= |items| && data == old(data)
        invariant Agree(Index(byScore, scores))
        invariant RemoveAll(start, items) == RemoveAll(Index(byScore, scores), items[i..])
        invariant removed == exists m :: m in items[..i] && m in start.scores
        invariant forall m :: m in scores <==> m in start.scores && m !in items[..i]
      {
        var member := items[i];
        ghost var ix := Index(byScore, scores);
        RemoveAgrees(ix, member);
        assert items[..i + 1] == items[..i] + [member];
        if member in scores {
          byScore := EraseEntry(byScore, scores, member);
          scores := scores - {member};
          removed := true;
        } else {
          NotHeld(ix, member);
          assert scores - {member} == scores;
        }
        i := i + 1;
      }
      assert items[..i] == items && items[i..] == [];
      data := data[key := data[key].(zset := Index(byScore, scores))];
    }

    method ZRange(key: Bytes, start: int, end: int) returns (r: seq<Bytes>)
      ensures r == Ranges.Slice(Names(ScoredAt(Look(data, key)).byScore), start, end)
    {
      r := [];
      if key !in data || data[key].kind != ZSetT {
        return;
      }
      var z := data[key].zset.byScore;
      var first, last := Ranges.First(|z|, start), Ranges.Last(|z|, end);
      LastInside(|z|, end);
      var i := first;
      while i <= last
        invariant first <= i && (first <= last ==> i <= last + 1)
        invariant first <= last ==> r == Names(z)[first..i]
        invariant first > last ==> r == []
      {
        r := r + [z[i].1];
        i := i + 1;
      }
    }

    method ZRevRange(key: Bytes, start: int, end: int) returns (r: seq<Bytes>)
      ensures r == Ranges.Slice(Ranges.Reverse(Names(ScoredAt(Look(data, key)).byScore)), start, end)
    {
      r := [];
      if key !in data || data[key].kind != ZSetT {
        return;
      }
      var z := data[key].zset.byScore;
      var first, last := Ranges.First(|z|, start), Ranges.Last(|z|, end);
      LastInside(|z|, end);
      var i := first;
      while i <= last
        invariant first <= i && (first <= last ==> i <= last + 1)
        invariant first <= last ==> r == Ranges.Reverse(Names(z))[first..i]
        invariant first > last ==> r == []
      {
        r := r + [z[|z| - 1 - i].1];
        i := i + 1;
      }
    }

    method ZScore(key: Bytes, member: Bytes) returns (score: Score)
      ensures score == ScoreOf(Look(data, key), member)
    {
      if Is(Look(data, key), ZSetT) && member in data[key].zset.scores {
        return data[key].zset.scores[member];
      }
      score := 0;
    }

    method ZRank(key: Bytes, member: Bytes) returns (rank: int)
      ensures rank == RankOf(Look(data, key), member)
    {
      if key !in data || data[key].kind != ZSetT || member !in data[key].zset.scores {
        return -1;
      }
      var z, o := data[key].zset.byScore, Order(data[key].zset.scores[member]);
      rank := 0;
      var i := 0;
      while i < |z|
        invariant i <= |z| && rank + Ranges.RankFrom(z, o, member, i) == Ranges.RankFrom(z, o, member, 0)
      {
        if Order(z[i].0) < o {
          rank := rank + 1;
        } else if Order(z[i].0) == o && Ranges.Less(z[i].1, member) {
          rank := rank + 1;
        } else if Order(z[i].0) == o && z[i].1 == member {
          return;
        }
        i := i + 1;
      }
    }
  }

  // ----- Helpers -----

  /** `equal_range` on the member's score, then a scan for the member. */
  method EraseEntry(z: seq<Entry>, scores: map<Bytes, Score>, member: Bytes) returns (r: seq<Entry>)
    requires Agree(Index(z, scores)) && member in scores
    ensures r == Without(z, member)
  {
    hide Without;
    var o := Order(scores[member]);
    ghost var p := PositionOf(Index(z, scores), member);
    var i := 0;
    while i < |z| && Order(z[i].0) < o
      invariant i <= p
    {
      i := i + 1;
    }
    while i < |z| && Order(z[i].0) == o && z[i].1 != member
      invariant i <= p
    {
      i := i + 1;
    }
    WithoutAt(z, member, p);
    r := z[..i] + z[i + 1..];
  }

  lemma PositionOf(ix: Index, m: Bytes) returns (p: nat)
    requires Agree(ix) && m in ix.scores
    ensures p < |ix.byScore| && ix.byScore[p] == (ix.scores[m], m)
  {
    assert Holds(ix.byScore, m);
    p :| 0 <= p < |ix.byScore| && ix.byScore[p].1 == m;
  }

  lemma NotHeld(ix: Index, m: Bytes)
    requires Agree(ix) && m !in ix.scores
    ensures Without(ix.byScore, m) == ix.byScore
  {
    assert !Holds(ix.byScore, m);
    WithoutAbsent(ix.byScore, m);
  }

  lemma LastInside(size: nat, end: int)
    ensures Ranges.Last(size, end) < size
  {
  }

  method InsertAll(s: set<Bytes>, items: seq<Bytes>) returns (r: set<Bytes>)
    ensures r == s + ToSet(items)
  {
    r := s;
    var i := 0;
    while i < |items|
      invariant i <= |items| && r == s + ToSet(items[..i])
    {
      ToSetStep(items, i);
      r := r + {items[i]};
      i := i + 1;
    }
    assert items[..i] == items;
  }

  method EraseAll(s: set<Bytes>, items: seq<Bytes>) returns (r: set<Bytes>)
    ensures r == s - ToSet(items)
  {
    r := s;
    var i := 0;
    while i < |items|
      invariant i <= |items| && r == s - ToSet(items[..i])
    {
      ToSetStep(items, i);
      r := r - {items[i]};
      i := i + 1;
    }
    assert items[..i] == items;
  }

  method EraseFields(h: map<Bytes, Bytes>, fields: seq<Bytes>) returns (r: map<Bytes, Bytes>)
    ensures r == h - ToSet(fields)
  {
    r := h;
    var i := 0;
    while i < |fields|
      invariant i <= |fields| && r == h - ToSet(fields[..i])
    {
      ToSetStep(fields, i);
      r := r - {fields[i]};
      i := i + 1;
    }
    assert fields[..i] == fields;
  }

  lemma ToSetAppend(r: seq<Bytes>, x: Bytes)
    ensures ToSet(r + [x]) == ToSet(r) + {x}
  {
    assert forall m :: m in r + [x] <==> m in r || m == x;
  }

  lemma ToSetStep(items: seq<Bytes>, i: nat)
    requires i < |items|
    ensures ToSet(items[..i + 1]) == ToSet(items[..i]) + {items[i]}
  {
    assert items[..i + 1] == items[..i] + [items[i]];
    ToSetAppend(items[..i], items[i]);
  }

  lemma SubsetSize(x: set<Bytes>, y: set<Bytes>)
    requires x <= y
    ensures |x| <= |y|
  {
    assert y == x + (y - x);
  }

  /** The elements of a set in some order: iteration of an unordered container. */
  method Enumerate(s: set<Bytes>) returns (r: seq<Bytes>)
    ensures Listing(r, s)
  {
    r := [];
    var left := s;
    while left != {}
      invariant left <= s && Listing(r, s - left)
      decreases left
    {
      var x :| x in left;
      assert x !in ToSet(r);
      ToSetAppend(r, x);
      r := r + [x];
      left := left - {x};
    }
  }

  method Filter(items: seq<Bytes>, keep: set<Bytes>) returns (r: seq<Bytes>)
    ensures r == Kept(items, keep)
  {
    r := [];
    var i := 0;
    assert items[0..] == items;
    while i < |items|
      invariant i <= |items| && r + Kept(items[i..], keep) == Kept(items, keep)
    {
      assert items[i..][1..] == items[i + 1..];
      if items[i] in keep {
        r := r + [items[i]];
      }
      i := i + 1;
    }
  }

  lemma EmptyListing(r: seq<Bytes>)
    requires Listing(r, {})
    ensures r == [] && forall s :: Kept(r, s) == []
  {
    ListingSize(r, {});
  }

  lemma NoFields(order: Enumeration)
    ensures var none: map<Bytes, Bytes> := map[];
            order(none.Keys) == []
  {
    var none: map<Bytes, Bytes> := map[];
    assert none.Keys == {};
    EmptyListing(order({}));
  }

  lemma ListedIn(r: seq<Bytes>, s: set<Bytes>)
    requires Listing(r, s)
    ensures forall i :: 0 <= i < |r| ==> r[i] in s
  {
    assert forall i :: 0 <= i < |r| ==> r[i] in ToSet(r);
  }

  lemma {:induction false} KeptNone(items: seq<Bytes>)
    ensures Kept(items, {}) == []
  {
    if items != [] {
      KeptNone(items[1..]);
    }
  }

  lemma {:induction false} KeptWhole(items: seq<Bytes>, s: set<Bytes>)
    requires ToSet(items) <= s
    ensures Kept(items, s) == items
  {
    if items != [] {
      assert items[0] in ToSet(items);
      KeptWhole(items[1..], s);
    }
  }

  lemma {:induction false} KeptTwice(items: seq<Bytes>, s: set<Bytes>, t: set<Bytes>)
    ensures Kept(Kept(items, s), t) == Kept(items, s * t)
  {
    if items != [] {
      KeptTwice(items[1..], s, t);
      if items[0] in s {
        assert Kept(items, s)[1..] == Kept(items[1..], s);
      } else {
        assert Kept(items, s) == Kept(items[1..], s);
      }
    }
  }

  lemma {:induction false} KeptLists(items: seq<Bytes>, s: set<Bytes>)
    requires NoDuplicates(items)
    ensures Listing(Kept(items, s), ToSet(items) * s)
  {
    if items != [] {
      var rest, k := items[1..], Kept(items[1..], s);
      KeptLists(rest, s);
      assert items[0] !in ToSet(rest);
      assert ToSet(items) == {items[0]} + ToSet(rest);
      if items[0] in s {
        assert items[0] !in ToSet(k);
        assert ToSet([items[0]] + k) == {items[0]} + ToSet(k);
      } else {
        assert Kept(items, s) == k;
      }
    }
  }

  lemma UnionOfNone(db: Store, keys: seq<Bytes>, lo: nat)
    requires lo <= |keys|
    ensures Union(db, keys[lo..lo]) == {}
  {
  }

  lemma UnionStep(db: Store, keys: seq<Bytes>, lo: nat, i: nat)
    requires lo <= i < |keys|
    ensures Union(db, keys[lo..i + 1]) == Union(db, keys[lo..i]) + SetAt(Look(db, keys[i]))
  {
    assert keys[lo..i + 1] == keys[lo..i] + [keys[i]];
    assert forall k :: k in keys[lo..i + 1] <==> k in keys[lo..i] || k == keys[i];
  }

  lemma IntersectionStep(db: Store, keys: seq<Bytes>, i: nat)
    requires 0 < i < |keys|
    ensures Intersection(db, keys[..i + 1]) == Intersection(db, keys[..i]) * SetAt(Look(db, keys[i]))
  {
    var x, y := keys[..i], keys[..i + 1];
    assert y == x + [keys[i]] && x[0] == y[0];
    forall m | m in Intersection(db, x) * SetAt(Look(db, keys[i]))
      ensures m in Intersection(db, y)
    {
      assert forall j :: 0 <= j < |y| ==> y[j] == if j < i then x[j] else keys[i];
    }
    forall m | m in Intersection(db, y)
      ensures m in Intersection(db, x) * SetAt(Look(db, keys[i]))
    {
      assert forall j :: 0 <= j < |x| ==> x[j] == y[j];
      assert y[i] == keys[i];
    }
  }

  lemma IntersectionVanishes(db: Store, keys: seq<Bytes>, i: nat)
    requires i < |keys| && !Is(Look(db, keys[i]), SetT)
    ensures Intersection(db, keys) == {}
  {
    assert forall m :: m in Intersection(db, keys) ==> m in SetAt(Look(db, keys[i]));
  }

  lemma IntersectionOfOne(db: Store, keys: seq<Bytes>)
    requires keys != []
    ensures Intersection(db, keys[..1]) == SetAt(Look(db, keys[0]))
    ensures Intersection(db, keys) <= SetAt(Look(db, keys[0]))
  {
  }

  /** Difference and intersection split a set, whatever the second key holds: the lists that
      SDIFF and SINTER return are together as long as the set. */
  lemma DifferenceAndIntersectionSplit(db: Store, a: Bytes, b: Bytes, diff: seq<Bytes>, inter: seq<Bytes>)
    requires Listing(diff, SetAt(Look(db, a)) - Union(db, [b])) && Listing(inter, Intersection(db, [a, b]))
    ensures |diff| + |inter| == |SetAt(Look(db, a))|
    ensures ToSet(diff) + ToSet(inter) == SetAt(Look(db, a)) && ToSet(diff) !! ToSet(inter)
  {
    ListingSize(diff, SetAt(Look(db, a)) - Union(db, [b]));
    ListingSize(inter, Intersection(db, [a, b]));
    SetsSplit(db, a, b);
  }

  lemma SetsSplit(db: Store, a: Bytes, b: Bytes)
    ensures var x, y := SetAt(Look(db, a)) - Union(db, [b]), Intersection(db, [a, b]);
            x + y == SetAt(Look(db, a)) && x !! y && |x| + |y| == |SetAt(Look(db, a))|
  {
    var x, y := SetAt(Look(db, a)) - Union(db, [b]), Intersection(db, [a, b]);
    assert [a, b][0] == a && [a, b][1] == b;
    forall m | m in SetAt(Look(db, a))
      ensures m in x + y
    {
      if m in SetAt(Look(db, b)) {
        assert forall i :: 0 <= i < 2 ==> m in SetAt(Look(db, [a, b][i]));
      }
    }
    assert SetAt(Look(db, a)) == x + y;
    assert b in [b];
    assert x !! y;
  }
}
