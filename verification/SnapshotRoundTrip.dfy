/** Saving and loading a whole database: the round trip of the record loop, and which values
    survive it. */
module SnapshotRoundTrip {
  import opened Octets
  import opened SortedSets
  import opened Keyspace
  import opened Commands
  import opened Snapshots
  import opened SnapshotCodec

  // ----- What survives -----

  /** What the loader recreates from a value: its type and visible content; the expiry of
      strings only, and only a positive one; nothing for an empty list or an empty hash. */
  function Restored(v: RedisValue): Cell {
    var plain := Shown(v).(expiry := 0);
    match v.kind
    case StringT => Some(plain.(expiry := if v.expiry > 0 then v.expiry else 0))
    case ListT => if v.list == [] then None else Some(plain)
    case HashT => if v.hash == map[] then None else Some(plain)
    case _ => Some(plain)
  }

  function RestoreAll(db: Store, its: seq<Item>): Store
    decreases |its|
  {
    if its == [] then db else RestoreAll(Put(db, its[0].key, Restored(its[0].value)), its[1..])
  }

  /** Lengths and sizes fit the 32-bit fields of the format, the expiry its 64-bit type, and
      the indexes of a sorted set agree. */
  predicate FitsItem(it: Item) {
    var v := it.value;
    && ValidItem(it) && FitsString(it.key) && v.expiry < TWO_63
    && match v.kind
       case StringT => FitsString(v.str)
       case ListT => |v.list| < TWO_32 && AllFit(v.list)
       case SetT => |v.members| < TWO_32 && AllFit(it.order)
       case ZSetT => |v.zset.scores| < TWO_32 && AllNamesFit(v.zset.byScore) && Agree(v.zset)
       case HashT => |v.hash| < TWO_32 && PairsFit(Fields(v.hash, it.order))
  }

  predicate AllItemsFit(its: seq<Item>) { forall i :: 0 <= i < |its| ==> FitsItem(its[i]) }

  predicate KeysDistinct(its: seq<Item>) {
    forall i, j :: 0 <= i < j < |its| ==> its[i].key != its[j].key
  }

  predicate KeysNew(its: seq<Item>, db: Store) { forall i :: 0 <= i < |its| ==> its[i].key !in db }

  // ----- Containers rebuilt from nothing -----

  lemma {:induction false} PushEachBuilds(c: Cell, items: seq<Bytes>)
    requires items != []
    ensures PushEach(c, items) == PushBack(c, items)
    decreases |items|
  {
    var d := PushBack(c, [items[0]]);
    if |items| == 1 {
      assert items[1..] == [] && items == [items[0]];
    } else {
      PushEachBuilds(d, items[1..]);
      assert Value(c).list + [items[0]] + items[1..] == Value(c).list + items;
    }
  }

  lemma RebuildAll(ix: Index)
    requires Agree(ix)
    ensures AddAll(EMPTY_INDEX, ix.byScore) == ix
  {
    hide AddAll;
    var z := ix.byScore;
    RebuildIndex(ix, |z|);
    assert z[..|z|] == z;
    assert Restrict(ix.scores, Members(z)) == ix.scores by {
      forall m | m in ix.scores
        ensures m in Members(z)
      {
        assert Holds(z, m);
      }
    }
  }

  lemma {:induction false} FieldsRebuild(h: map<Bytes, Bytes>, order: seq<Bytes>, g: map<Bytes, Bytes>)
    requires forall i :: 0 <= i < |order| ==> order[i] in h
    ensures HashAfter(g, Fields(h, order)) == g + map f | f in order :: h[f]
    decreases |order|
  {
    if order == [] {
      assert g + map[] == g;
    } else {
      var ps, f := Fields(h, order), order[0];
      assert ps[1..] == Fields(h, order[1..]);
      FieldsRebuild(h, order[1..], g[f := h[f]]);
      OneFieldFirst(h, order, g);
    }
  }

  lemma OneFieldFirst(h: map<Bytes, Bytes>, order: seq<Bytes>, g: map<Bytes, Bytes>)
    requires order != [] && forall i :: 0 <= i < |order| ==> order[i] in h
    ensures var f := order[0];
            g[f := h[f]] + (map x | x in order[1..] :: h[x]) == g + map x | x in order :: h[x]
  {
    assert forall x :: x in order <==> x == order[0] || x in order[1..];
  }

  // ----- One payload -----

  lemma CountAt(b: Bytes, pos: nat, n: nat)
    requires n < TWO_32 && At(b, pos, WriteCount(n))
    ensures ReadNumber(b, pos, 4) == Got(n, pos + 4) && |WriteCount(n)| == 4
  {
    Widths();
    assert n % TWO_32 == n;
    NumberAt(b, pos, n, 4);
  }

  /** The expiry that the loader holds when it reaches the payload; -1 means none. */
  function FileExpiry(v: RedisValue): int { if v.expiry > 0 then v.expiry else -1 }

  /** The cell a payload produces when its key is new. */
  function Rebuilt(it: Item, expiry: int): Cell
    requires ValidItem(it)
  {
    var v := it.value;
    match v.kind
    case StringT => WithExpiry(SetString(None, v.str), expiry)
    case ListT => PushEach(None, v.list)
    case SetT => AddMembers(None, it.order)
    case ZSetT => AddScored(None, v.zset.byScore)
    case HashT => WriteFields(None, Fields(v.hash, it.order))
  }

  lemma PayloadAt(b: Bytes, pos: nat, it: Item, expiry: int)
    requires FitsItem(it) && At(b, pos, Payload(it))
    ensures LoadPayload(b, pos, Tag(it.value.kind), expiry, None)
         == Loaded(Some(pos + |Payload(it)|), Rebuilt(it, expiry))
  {
    hide ReadString, ReadStrings, ReadScored, ReadNumber, LoadPairs, WriteString, WriteStrings, WriteScored,
      WritePairs, WriteCount, WriteFields, AddScored, PushEach, AddMembers, Agree, Fields, At;
    var v := it.value;
    match v.kind
    case StringT => StringAt(b, pos, v.str);
    case ListT =>
      AtSplit(b, pos, WriteCount(|v.list|), WriteStrings(v.list));
      CountAt(b, pos, |v.list|);
      StringsAt(b, pos + 4, v.list);
    case SetT =>
      AtSplit(b, pos, WriteCount(|v.members|), WriteStrings(it.order));
      CountAt(b, pos, |v.members|);
      ListingSize(it.order, v.members);
      StringsAt(b, pos + 4, it.order);
    case ZSetT =>
      AtSplit(b, pos, WriteCount(|v.zset.scores|), WriteScored(v.zset.byScore));
      CountAt(b, pos, |v.zset.scores|);
      SizesAgree(v.zset);
      SnapshotCodec.ScoredAt(b, pos + 4, v.zset.byScore);
    case HashT =>
      var ps := Fields(v.hash, it.order);
      AtSplit(b, pos, WriteCount(|v.hash|), WritePairs(ps));
      CountAt(b, pos, |v.hash|);
      ListingSize(it.order, v.hash.Keys);
      PairsAt(b, pos + 4, ps, None);
  }

  /** What is rebuilt is what survives. */
  lemma RebuiltIsRestored(it: Item)
    requires FitsItem(it)
    ensures Rebuilt(it, FileExpiry(it.value)) == Restored(it.value)
  {
    hide Agree, AllFit, AllNamesFit, PairsFit, AddAll;
    var v := it.value;
    match v.kind
    case StringT =>
    case ListT =>
      if v.list != [] {
        PushEachBuilds(None, v.list);
        assert [] + v.list == v.list;
      }
    case SetT =>
      assert {} + v.members == v.members;
    case ZSetT => RebuildAll(v.zset);
    case HashT => HashIsRestored(v.hash, it.order);
  }

  lemma HashIsRestored(h: map<Bytes, Bytes>, order: seq<Bytes>)
    requires Listing(order, h.Keys)
    ensures var c := WriteFields(None, Fields(h, order));
            c == if h == map[] then None else Some(FRESH.(kind := HashT, hash := h))
  {
    var ps := Fields(h, order);
    ListingSize(order, h.Keys);
    if order == [] {
      assert h == map[];
    } else {
      assert order[0] in h;
      WriteFieldsValue(None, ps);
      FieldsRebuild(h, order, map[]);
      assert map[] + (map f | f in order :: h[f]) == h;
    }
  }

  // ----- One record -----

  lemma TypedAt(b: Bytes, pos: nat, it: Item, db: Store)
    requires FitsItem(it) && it.key !in db && At(b, pos, Typed(it))
    ensures LoadTyped(b, pos, FileExpiry(it.value), db)
         == Continued(pos + |Typed(it)|, Put(db, it.key, Restored(it.value)))
  {
    hide ReadString, WriteString, Payload, LoadPayload, Put, Restored, Rebuilt, FitsItem;
    ItemKeyFits(it);
    var k := WriteString(it.key);
    AtSplit(b, pos, [Tag(it.value.kind)], k + Payload(it));
    assert b[pos..pos + 1][0] == Tag(it.value.kind);
    AtSplit(b, pos + 1, k, Payload(it));
    StringAt(b, pos + 1, it.key);
    PayloadAt(b, pos + 1 + |k|, it, FileExpiry(it.value));
    RebuiltIsRestored(it);
  }

  lemma ItemKeyFits(it: Item)
    requires FitsItem(it)
    ensures FitsString(it.key) && ValidItem(it) && it.value.expiry < TWO_63
  {
  }

  lemma PrefixAt(b: Bytes, pos: nat, it: Item, db: Store)
    requires FitsItem(it) && At(b, pos, Record(it))
    ensures var p := pos + |ExpiryPrefix(it.value)|;
            && At(b, p, Typed(it)) && pos < |b| && b[pos] != END_OF_FILE
            && LoadRecord(b, pos, db) == LoadTyped(b, p, FileExpiry(it.value), db)
  {
    hide LoadTyped, Typed, LittleEndian, FromLittleEndian, ReadNumber;
    var v := it.value;
    AtSplit(b, pos, ExpiryPrefix(v), Typed(it));
    TypedStarts(it);
    if v.expiry > 0 {
      var n := LittleEndian(v.expiry % TWO_64, 8);
      AtSplit(b, pos, [EXPIRE_MS], n);
      assert b[pos..pos + 1][0] == EXPIRE_MS;
      Widths();
      assert v.expiry % TWO_64 == v.expiry;
      NumberAt(b, pos + 1, v.expiry, 8);
    } else {
      assert b[pos] == b[pos..pos + |Typed(it)|][0];
    }
  }

  lemma TypedStarts(it: Item)
    requires ValidItem(it)
    ensures Typed(it) != [] && Typed(it)[0] == Tag(it.value.kind) <= 4
  {
  }

  lemma RecordAt(b: Bytes, pos: nat, it: Item, db: Store)
    requires FitsItem(it) && it.key !in db && At(b, pos, Record(it))
    ensures pos < |b| && b[pos] != END_OF_FILE
    ensures LoadRecord(b, pos, db) == Continued(pos + |Record(it)|, Put(db, it.key, Restored(it.value)))
  {
    hide *;
    ItemKeyFits(it);
    PrefixAt(b, pos, it, db);
    TypedAt(b, pos + |ExpiryPrefix(it.value)|, it, db);
    RecordLength(it);
  }

  lemma RecordLength(it: Item)
    requires ValidItem(it)
    ensures Record(it) == ExpiryPrefix(it.value) + Typed(it)
  {
    hide ExpiryPrefix, Typed;
  }

  // ----- Whole files -----

  /** From a record boundary to the end marker, the loop restores every record in turn. */
  lemma {:induction false} RecordsAt(b: Bytes, pos: nat, its: seq<Item>, db: Store)
    requires AllItemsFit(its) && AllValid(its) && KeysDistinct(its) && KeysNew(its, db)
    requires At(b, pos, Records(its) + [END_OF_FILE])
    ensures LoadLoop(b, pos, db) == (true, RestoreAll(db, its))
    decreases |its|
  {
    hide FitsItem, ValidItem, Record, LoadRecord, Restored;
    AtSplit(b, pos, Records(its), [END_OF_FILE]);
    if its == [] {
      assert b[pos..pos + 1][0] == END_OF_FILE;
    } else {
      var r := Record(its[0]);
      assert Records(its) + [END_OF_FILE] == r + (Records(its[1..]) + [END_OF_FILE]);
      AtSplit(b, pos, r, Records(its[1..]) + [END_OF_FILE]);
      RecordAt(b, pos, its[0], db);
      RecordsAt(b, pos + |r|, its[1..], Put(db, its[0].key, Restored(its[0].value)));
    }
  }

  /** The records list the database: every key once, with its value. */
  ghost predicate Lists(its: seq<Item>, db: Store) {
    && KeysDistinct(its)
    && (forall i :: 0 <= i < |its| ==> its[i].key in db && db[its[i].key] == its[i].value)
    && (forall k :: k in db ==> exists i :: 0 <= i < |its| && its[i].key == k)
  }

  /** The database that a snapshot of `db` brings back. */
  function RestoredStore(db: Store): Store {
    map k | k in db && Restored(db[k]).Some? :: Restored(db[k]).value
  }

  lemma {:induction false} RestoreAllAt(db: Store, its: seq<Item>, k: Bytes)
    requires KeysDistinct(its)
    ensures (forall i :: 0 <= i < |its| ==> its[i].key != k) ==> Look(RestoreAll(db, its), k) == Look(db, k)
    ensures forall i :: 0 <= i < |its| && its[i].key == k ==> Look(RestoreAll(db, its), k) == Restored(its[i].value)
    decreases |its|
  {
    hide Restored;
    if its != [] {
      var d := Put(db, its[0].key, Restored(its[0].value));
      var rest := its[1..];
      assert forall i :: 0 <= i < |rest| ==> rest[i] == its[i + 1];
      RestoreAllAt(d, rest, k);
      forall i | 0 <= i < |its| && its[i].key == k
        ensures Look(RestoreAll(db, its), k) == Restored(its[i].value)
      {
        if i > 0 {
          assert rest[i - 1] == its[i];
        } else {
          assert forall j :: 0 <= j < |rest| ==> rest[j].key != k;
        }
      }
    }
  }

  lemma RestoreFromEmpty(its: seq<Item>, db: Store)
    requires Lists(its, db)
    ensures RestoreAll(map[], its) == RestoredStore(db)
  {
    hide Restored, RestoreAll;
    var r, want := RestoreAll(map[], its), RestoredStore(db);
    forall k: Bytes
      ensures Look(r, k) == Look(want, k)
    {
      RestoreAllAt(map[], its, k);
      if k in db {
        var i :| 0 <= i < |its| && its[i].key == k;
        assert Look(r, k) == Restored(its[i].value) == Restored(db[k]);
      }
    }
    SameLooks(r, want);
  }

  /** Record round trip. For every database whose lengths fit the format, in whatever order the
      writer meets its keys, members and fields, loading the records into an empty database
      succeeds and brings back every key, type and visible value, the tie order of sorted
      sets, and the positive expiries of strings. */
  lemma RecordRoundTrip(its: seq<Item>, db: Store)
    requires Lists(its, db) && AllItemsFit(its) && AllValid(its)
    ensures LoadLoop(Records(its) + [END_OF_FILE], 0, map[]) == (true, RestoredStore(db))
  {
    hide FitsItem, ValidItem, Records, LoadLoop, RestoreAll, Restored;
    var b := Records(its) + [END_OF_FILE];
    assert b[0..|b|] == b;
    RecordsAt(b, 0, its, map[]);
    RestoreFromEmpty(its, db);
  }

  /** What the round trip loses, exactly: a key shows the same value afterwards if and only if
      it is not an empty list or hash and has no expiry that the format drops. */
  lemma RestoredViewIsSame(v: RedisValue)
    ensures View(Restored(v)) == View(Some(v))
       <==> !(v.kind == ListT && v.list == []) && !(v.kind == HashT && v.hash == map[])
            && (v.expiry == 0 || (v.kind == StringT && v.expiry > 0))
  {
  }
}
