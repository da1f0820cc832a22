/** What every load keeps, whatever the bytes of the file. */
module SnapshotLoads {
  import opened Octets
  import opened SortedSets
  import opened Keyspace
  import opened Snapshots
  import opened SnapshotRoundTrip

  /** From `c` to `d`: the two indexes still agree, and the modification counter is the same. */
  ghost predicate Inherits(c: Cell, d: Cell) {
    (CellAgrees(c) ==> CellAgrees(d)) && Value(d).modCount == Value(c).modCount
  }

  lemma PushNothing(c: Cell)
    ensures PushEach(c, []) == c
  {
  }

  /** However far it gets, a hash payload leaves the other storages alone. */
  lemma {:induction false} PairsKeep(b: Bytes, pos: nat, n: nat, c: Cell)
    requires pos <= |b|
    ensures var d := LoadPairs(b, pos, n, c).cell;
            d == c || (Is(d, HashT) && d.value == Value(c).(kind := HashT, hash := d.value.hash))
    decreases n
  {
    hide ReadString;
    if n > 0 && ReadString(b, pos).Got? {
      var f := ReadString(b, pos);
      if ReadString(b, f.next).Got? {
        var v := ReadString(b, f.next);
        PairsKeep(b, v.next, n - 1, WriteField(c, f.value, v.value));
      }
    }
  }

  lemma CountedInherits(b: Bytes, pos: nat, tag: byte, c: Cell)
    requires pos <= |b| && 1 <= tag <= 4
    ensures Inherits(c, LoadCounted(b, pos, tag, c).cell)
  {
    hide Agree, AddAll, ReadString, ReadStrings, ReadScored, ReadNumber, LoadPairs, PushEach, ToSet;
    var n := ReadNumber(b, pos, 4);
    if n.Got? {
      if tag == 1 {
        var items := ReadStrings(b, n.next, n.value);
        if items.Got? && items.value == [] {
          PushNothing(c);
        } else if items.Got? {
          PushEachBuilds(c, items.value);
        }
      } else if tag == 3 {
        var entries := ReadScored(b, n.next, n.value);
        if entries.Got? && CellAgrees(c) {
          AddAllAgrees(Value(c).zset, entries.value);
        }
      } else if tag == 4 {
        PairsKeep(b, n.next, n.value, c);
      }
    }
  }

  lemma PayloadInherits(b: Bytes, pos: nat, tag: byte, expiry: int, c: Cell)
    requires pos <= |b|
    ensures Inherits(c, LoadPayload(b, pos, tag, expiry, c).cell)
  {
    hide Agree, ReadString, LoadCounted;
    if 1 <= tag <= 4 {
      CountedInherits(b, pos, tag, c);
    }
  }

  /** The same at every key of the database. */
  ghost predicate AllInherit(x: Store, y: Store) {
    && (AllAgree(x) ==> AllAgree(y))
    && forall k :: Value(Look(y, k)).modCount == Value(Look(x, k)).modCount
  }

  lemma TypedInherits(b: Bytes, pos: nat, expiry: int, db: Store)
    requires pos <= |b|
    ensures AllInherit(db, LoadTyped(b, pos, expiry, db).db)
  {
    hide AllAgree, ReadString, LoadPayload, CellAgrees, Put, Look;
    if pos < |b| && ReadString(b, pos + 1).Got? {
      var key := ReadString(b, pos + 1);
      var c := Look(db, key.value);
      var l := LoadPayload(b, key.next, b[pos], expiry, c);
      PayloadInherits(b, key.next, b[pos], expiry, c);
      if AllAgree(db) {
        LookAgrees(db, key.value);
        PutAgrees(db, key.value, l.cell);
      }
      forall k: Bytes
        ensures Value(Look(Put(db, key.value, l.cell), k)).modCount == Value(Look(db, k)).modCount
      {
        LookPut(db, key.value, l.cell, k);
      }
    }
  }

  lemma RecordInherits(b: Bytes, pos: nat, db: Store)
    requires pos < |b|
    ensures AllInherit(db, LoadRecord(b, pos, db).db)
  {
    hide LoadTyped, AllAgree, ReadNumber, Look;
    if b[pos] != EXPIRE_MS {
      TypedInherits(b, pos, -1, db);
    } else if ReadNumber(b, pos + 1, 8).Got? {
      var r := ReadNumber(b, pos + 1, 8);
      TypedInherits(b, r.next, AsInt64(r.value), db);
    }
  }

  lemma {:induction false} LoopInherits(b: Bytes, pos: nat, db: Store)
    requires pos <= |b|
    ensures AllInherit(db, LoadLoop(b, pos, db).1)
    decreases |b| - pos
  {
    hide LoadRecord, AllAgree, Look;
    if pos < |b| && b[pos] != END_OF_FILE {
      RecordInherits(b, pos, db);
      var r := LoadRecord(b, pos, db);
      if r.Continued? {
        LoopInherits(b, r.next, r.db);
      }
    }
  }

  /** A server that starts from any file, its own or not, whole or damaged, has index pairs that
      agree and modification counters that are all 0. */
  lemma LoadedServer(b: Bytes)
    ensures var db := LoadFile(b, map[]).1;
            AllAgree(db) && forall k :: k in db ==> db[k].modCount == 0
  {
    hide LoadLoop;
    var empty: Store := map[];
    if |b| >= 6 && b[..5] == MAGIC {
      LoopInherits(b, 6, empty);
      var db := LoadFile(b, empty).1;
      forall k | k in db
        ensures db[k].modCount == 0
      {
        assert Value(Look(db, k)).modCount == Value(Look(empty, k)).modCount;
      }
    }
  }
}
