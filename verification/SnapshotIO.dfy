/** `save_rdb` and `load_rdb` as loops over the database and a byte stream, proved to produce
    and to interpret exactly the bytes of `Snapshots`. */
module SnapshotIO {
  import opened Octets
  import opened SortedSets
  import opened Keyspace
  import opened Databases
  import opened SnapshotLoads
  import S = Snapshots
  import T = SnapshotRoundTrip

  // ----- Writing -----

  method WriteStrings(items: seq<Bytes>) returns (text: Bytes)
    ensures text == S.WriteStrings(items)
  {
    hide S.WriteString;
    text := [];
    var i := 0;
    assert items[0..] == items;
    while i < |items|
      invariant i <= |items| && text + S.WriteStrings(items[i..]) == S.WriteStrings(items)
    {
      assert items[i..][1..] == items[i + 1..];
      text := text + S.WriteString(items[i]);
      i := i + 1;
    }
  }

  method WriteScored(z: seq<Entry>) returns (text: Bytes)
    ensures text == S.WriteScored(z)
  {
    hide S.WriteString, LittleEndian;
    text := [];
    var i := 0;
    assert z[0..] == z;
    while i < |z|
      invariant i <= |z| && text + S.WriteScored(z[i..]) == S.WriteScored(z)
    {
      assert z[i..][1..] == z[i + 1..];
      text := text + (S.WriteString(z[i].1) + LittleEndian(z[i].0, 8));
      i := i + 1;
    }
  }

  method WriteFieldsOf(h: map<Bytes, Bytes>, order: seq<Bytes>) returns (text: Bytes)
    requires Listing(order, h.Keys)
    ensures text == S.WritePairs(S.Fields(h, order))
  {
    hide S.WriteString;
    text := [];
    var i := 0;
    ghost var ps := S.Fields(h, order);
    assert ps[0..] == ps;
    while i < |order|
      invariant i <= |order| && text + S.WritePairs(ps[i..]) == S.WritePairs(ps)
    {
      assert ps[i..][1..] == ps[i + 1..];
      assert ps[i] == (order[i], h[order[i]]);
      text := text + (S.WriteString(order[i]) + S.WriteString(h[order[i]]));
      i := i + 1;
    }
  }

  method WritePayload(v: RedisValue) returns (text: Bytes, order: seq<Bytes>)
    ensures forall key {:trigger S.Item(key, v, order)} ::
              S.ValidItem(S.Item(key, v, order)) && text == S.Payload(S.Item(key, v, order))
  {
    hide S.WriteString, S.WriteStrings, S.WriteScored, S.WritePairs, S.WriteCount, S.Fields, Listing;
    order := [];
    var items: Bytes;
    match v.kind {
      case StringT =>
        text := S.WriteString(v.str);
      case ListT =>
        items := WriteStrings(v.list);
        text := S.WriteCount(|v.list|) + items;
      case SetT =>
        order := Enumerate(v.members);
        items := WriteStrings(order);
        text := S.WriteCount(|v.members|) + items;
      case ZSetT =>
        items := WriteScored(v.zset.byScore);
        text := S.WriteCount(|v.zset.scores|) + items;
      case HashT =>
        order := Enumerate(v.hash.Keys);
        items := WriteFieldsOf(v.hash, order);
        text := S.WriteCount(|v.hash|) + items;
    }
  }

  method WriteRecord(key: Bytes, v: RedisValue) returns (text: Bytes, order: seq<Bytes>)
    ensures S.ValidItem(S.Item(key, v, order)) && text == S.Record(S.Item(key, v, order))
  {
    hide S.WriteString, S.Payload, S.ValidItem, LittleEndian;
    var payload: Bytes;
    payload, order := WritePayload(v);
    ghost var it := S.Item(key, v, order);
    text := [];
    if v.expiry > 0 {
      text := [S.EXPIRE_MS] + LittleEndian(v.expiry % TWO_64, 8);
    }
    text := text + ([S.Tag(v.kind)] + (S.WriteString(key) + payload));
  }

  lemma {:induction false} RecordsAppend(its: seq<S.Item>, it: S.Item)
    requires S.AllValid(its) && S.ValidItem(it)
    ensures S.AllValid(its + [it]) && S.Records(its + [it]) == S.Records(its) + S.Record(it)
    decreases |its|
  {
    hide S.ValidItem, S.Record;
    var all := its + [it];
    if its == [] {
      assert all == [it] && all[1..] == [];
    } else {
      RecordsAppend(its[1..], it);
      assert all[0] == its[0] && all[1..] == its[1..] + [it];
    }
  }

  /** The writer meets the keys in the order of the unordered map, which may be any. */
  method SaveRdb(db: Database) returns (file: Bytes)
    ensures exists its :: S.AllValid(its) && T.Lists(its, db.data) && file == S.FileOf(its)
  {
    hide S.ValidItem, S.Record, S.Records;
    var body: Bytes := [];
    ghost var its: seq<S.Item> := [];
    var left := db.data.Keys;
    assert S.Records([]) == [] by { NoRecords(); }
    while left != {}
      invariant left <= db.data.Keys
      invariant S.AllValid(its) && body == S.Records(its) && T.KeysDistinct(its)
      invariant forall i :: 0 <= i < |its| ==>
                  its[i].key in db.data && db.data[its[i].key] == its[i].value && its[i].key !in left
      invariant forall k :: k in db.data && k !in left ==> exists i :: 0 <= i < |its| && its[i].key == k
      decreases left
    {
      var key :| key in left;
      var text, order := WriteRecord(key, db.data[key]);
      ghost var it := S.Item(key, db.data[key], order);
      RecordsAppend(its, it);
      body := body + text;
      ghost var before := its;
      its := its + [it];
      left := left - {key};
      forall k | k in db.data && k !in left
        ensures exists i :: 0 <= i < |its| && its[i].key == k
      {
        if k == key {
          assert its[|before|].key == k;
        } else {
          var i :| 0 <= i < |before| && before[i].key == k;
          assert its[i].key == k;
        }
      }
    }
    file := S.MAGIC + [S.VERSION] + [S.SELECT_DB, 0] + (body + [S.END_OF_FILE]);
    assert T.Lists(its, db.data) && file == S.FileOf(its);
  }

  lemma NoRecords()
    ensures S.Records([]) == []
  {
  }

  // ----- Reading -----

  /** A value read and the new position, or end of file. */
  predicate Agrees<T(==)>(r: Option<T>, pos: nat, spec: S.Got<T>) {
    match spec
    case Short => r.None?
    case Got(v, next) => r == Some(v) && pos == next
  }

  class ByteStream {
    const bytes: Bytes
    var pos: nat

    ghost predicate Valid()
      reads this
    {
      pos <= |bytes|
    }

    constructor (b: Bytes, start: nat)
      requires start <= |b|
      ensures bytes == b && pos == start && Valid()
    {
      bytes := b;
      pos := start;
    }

    method Read(n: nat) returns (r: Option<Bytes>)
      requires Valid()
      modifies this`pos
      ensures Valid() && Agrees(r, pos, S.ReadChars(bytes, old(pos), n))
    {
      if pos + n > |bytes| {
        return None;
      }
      r := Some(bytes[pos..pos + n]);
      pos := pos + n;
    }

    method ReadNumber(w: nat) returns (r: Option<nat>)
      requires Valid()
      modifies this`pos
      ensures Valid() && Agrees(r, pos, S.ReadNumber(bytes, old(pos), w))
    {
      var raw := Read(w);
      r := if raw.None? then None else Some(FromLittleEndian(raw.value));
    }

    method ReadLengthEncoded() returns (r: Option<Bytes>)
      requires Valid()
      modifies this`pos
      ensures Valid() && Agrees(r, pos, S.ReadString(bytes, old(pos)))
    {
      hide FromLittleEndian;
      var first := Read(1);
      if first.None? {
        return None;
      }
      var f := first.value[0];
      var len: nat;
      if f < 64 {
        len := f;
      } else if 128 <= f < 192 {
        var n := ReadNumber(4);
        if n.None? {
          return None;
        }
        len := n.value;
      } else {
        return None;
      }
      r := Read(len);
    }

    method ReadStrings(n: nat) returns (r: Option<seq<Bytes>>)
      requires Valid()
      modifies this`pos
      ensures Valid() && Agrees(r, pos, S.ReadStrings(bytes, old(pos), n))
    {
      hide S.ReadString;
      var items: seq<Bytes> := [];
      var i := 0;
      ghost var all := S.ReadStrings(bytes, pos, n);
      assert all.Got? ==> items + all.value == all.value;
      while i < n
        invariant i <= n && pos <= |bytes|
        invariant all == Prepend(items, S.ReadStrings(bytes, pos, n - i))
      {
        var s := ReadLengthEncoded();
        if s.None? {
          return None;
        }
        ghost var rest := S.ReadStrings(bytes, pos, n - i - 1);
        assert rest.Got? ==> items + ([s.value] + rest.value) == items + [s.value] + rest.value;
        items := items + [s.value];
        i := i + 1;
      }
      assert items + [] == items;
      r := Some(items);
    }

    method ReadScore() returns (r: Option<Score>)
      requires Valid()
      modifies this`pos
      ensures Valid() && Agrees(r, pos, S.ReadScore(bytes, old(pos)))
    {
      hide FromLittleEndian;
      var bits := ReadNumber(8);
      if bits.None? || !(bits.value <= INFINITY_BITS || TWO_63 <= bits.value <= TWO_63 + INFINITY_BITS) {
        return None;
      }
      r := Some(bits.value);
    }

    method ReadScored(n: nat) returns (r: Option<seq<Entry>>)
      requires Valid()
      modifies this`pos
      ensures Valid() && Agrees(r, pos, S.ReadScored(bytes, old(pos), n))
    {
      hide S.ReadString, S.ReadScore;
      var entries: seq<Entry> := [];
      var i := 0;
      ghost var all := S.ReadScored(bytes, pos, n);
      assert all.Got? ==> entries + all.value == all.value;
      while i < n
        invariant i <= n && pos <= |bytes|
        invariant all == Prepend(entries, S.ReadScored(bytes, pos, n - i))
      {
        var m := ReadLengthEncoded();
        if m.None? {
          return None;
        }
        var score := ReadScore();
        if score.None? {
          return None;
        }
        var e: Entry := (score.value, m.value);
        ghost var rest := S.ReadScored(bytes, pos, n - i - 1);
        assert rest.Got? ==> entries + ([e] + rest.value) == entries + [e] + rest.value;
        entries := entries + [e];
        i := i + 1;
      }
      assert entries + [] == entries;
      r := Some(entries);
    }
  }

  function Prepend<T>(xs: seq<T>, g: S.Got<seq<T>>): S.Got<seq<T>> {
    match g
    case Short => S.Short
    case Got(ys, next) => S.Got(xs + ys, next)
  }

  method PushEach(db: Database, key: Bytes, items: seq<Bytes>)
    modifies db
    ensures db.data == Put(old(db.data), key, S.PushEach(old(db.At(key)), items))
  {
    hide Put, Look, PushBack;
    ghost var start := db.data;
    ghost var c := Look(start, key);
    PutSame(start, key);
    assert items[0..] == items;
    var i := 0;
    while i < |items|
      invariant i <= |items| && db.data == Put(start, key, c)
      invariant S.PushEach(c, items[i..]) == S.PushEach(Look(start, key), items)
    {
      LookPut(start, key, c, key);
      PutTwice(start, key, c, PushBack(c, [items[i]]));
      assert items[i..][1..] == items[i + 1..];
      var _ := db.RPush(key, [items[i]]);
      c := PushBack(c, [items[i]]);
      i := i + 1;
    }
  }

  method LoadPairs(db: Database, f: ByteStream, key: Bytes, n: nat) returns (ok: bool)
    requires f.Valid()
    modifies db, f`pos
    ensures f.Valid()
    ensures var l := S.LoadPairs(f.bytes, old(f.pos), n, old(db.At(key)));
            && db.data == Put(old(db.data), key, l.cell)
            && ok == l.next.Some? && (ok ==> f.pos == l.next.value)
  {
    hide Put, Look, WriteField, S.ReadString;
    ghost var start := db.data;
    ghost var c := Look(start, key);
    PutSame(start, key);
    var i := 0;
    while i < n
      invariant i <= n && f.Valid() && db.data == Put(start, key, c)
      invariant S.LoadPairs(f.bytes, f.pos, n - i, c) == S.LoadPairs(f.bytes, old(f.pos), n, Look(start, key))
    {
      var field := f.ReadLengthEncoded();
      if field.None? {
        return false;
      }
      var value := f.ReadLengthEncoded();
      if value.None? {
        return false;
      }
      LookPut(start, key, c, key);
      PutTwice(start, key, c, WriteField(c, field.value, value.value));
      db.HSet(key, field.value, value.value);
      c := WriteField(c, field.value, value.value);
      i := i + 1;
    }
    ok := true;
  }

  method LoadCounted(db: Database, f: ByteStream, key: Bytes, tag: byte) returns (ok: bool)
    requires f.Valid() && 1 <= tag <= 4 && CellAgrees(db.At(key))
    modifies db, f`pos
    ensures f.Valid()
    ensures var l := S.LoadCounted(f.bytes, old(f.pos), tag, old(db.At(key)));
            && db.data == Put(old(db.data), key, l.cell)
            && ok == l.next.Some? && (ok ==> f.pos == l.next.value)
  {
    hide Put, Look, S.ReadStrings, S.ReadScored, S.ReadNumber, S.LoadPairs, S.PushEach, AddMembers, AddScored, CellAgrees;
    PutSame(db.data, key);
    var size := f.ReadNumber(4);
    if size.None? {
      return false;
    }
    if tag == 1 {
      var values := f.ReadStrings(size.value);
      if values.None? {
        return false;
      }
      PushEach(db, key, values.value);
    } else if tag == 2 {
      var members := f.ReadStrings(size.value);
      if members.None? {
        return false;
      }
      var _ := db.SAdd(key, members.value);
    } else if tag == 3 {
      var entries := f.ReadScored(size.value);
      if entries.None? {
        return false;
      }
      var _ := db.ZAdd(key, entries.value);
    } else {
      ok := LoadPairs(db, f, key, size.value);
      return;
    }
    ok := true;
  }

  method LoadString(db: Database, f: ByteStream, key: Bytes, expiry: int) returns (ok: bool)
    requires f.Valid()
    modifies db, f`pos
    ensures f.Valid()
    ensures var l := S.LoadString(f.bytes, old(f.pos), expiry, old(db.At(key)));
            && db.data == Put(old(db.data), key, l.cell)
            && ok == l.next.Some? && (ok ==> f.pos == l.next.value)
  {
    hide S.ReadString;
    PutSame(db.data, key);
    var value := f.ReadLengthEncoded();
    if value.None? {
      return false;
    }
    db.Set(key, value.value);
    if expiry > 0 && key in db.data {
      db.data := db.data[key := db.data[key].(expiry := expiry)];
    }
    ok := true;
  }

  method LoadTyped(db: Database, f: ByteStream, tag: byte, expiry: int) returns (ok: bool)
    requires 0 < f.pos && f.Valid() && f.bytes[f.pos - 1] == tag && AllAgree(db.data)
    modifies db, f`pos
    ensures f.Valid()
    ensures Matches(ok, f.pos, db.data, S.LoadTyped(f.bytes, old(f.pos) - 1, expiry, old(db.data)))
  {
    hide S.ReadString, S.LoadString, S.LoadCounted, Put, Look, AllAgree;
    var key := f.ReadLengthEncoded();
    if key.None? {
      return false;
    }
    var k := key.value;
    LookAgrees(db.data, k);
    PutSame(db.data, k);
    if tag == 0 {
      ok := LoadString(db, f, k, expiry);
    } else if tag <= 4 {
      ok := LoadCounted(db, f, k, tag);
    } else if tag == S.SELECT_DB {
      var number := f.Read(1);
      ok := number.Some? && number.value[0] == 0;
    } else {
      ok := true;
    }
  }

  predicate Matches(ok: bool, pos: nat, data: Store, spec: S.Progress) {
    match spec
    case Stopped(d) => !ok && data == d
    case Continued(next, d) => ok && pos == next && data == d
  }

  /** One turn of the loop, after the opcode has been read. */
  method LoadRecord(db: Database, f: ByteStream, opcode: byte) returns (ok: bool)
    requires 0 < f.pos && f.Valid() && f.bytes[f.pos - 1] == opcode && AllAgree(db.data)
    modifies db, f`pos
    ensures f.Valid()
    ensures Matches(ok, f.pos, db.data, S.LoadRecord(f.bytes, old(f.pos) - 1, old(db.data)))
  {
    hide S.LoadTyped, FromLittleEndian, AllAgree;
    var expiry, tag := -1, opcode;
    if opcode == S.EXPIRE_MS {
      var stamp := f.ReadNumber(8);
      if stamp.None? {
        return false;
      }
      expiry := S.AsInt64(stamp.value);
      LoadAtEnd(f.bytes, expiry, db.data);
      var next := f.Read(1);
      if next.None? {
        return false;
      }
      tag := next.value[0];
    }
    ok := LoadTyped(db, f, tag, expiry);
  }

  lemma LoadAtEnd(b: Bytes, expiry: int, db: Store)
    ensures S.LoadTyped(b, |b|, expiry, db) == S.Stopped(db)
  {
  }

  method LoadRdb(db: Database, file: Bytes) returns (ok: bool)
    requires AllAgree(db.data)
    modifies db
    ensures (ok, db.data) == S.LoadFile(file, old(db.data)) && AllAgree(db.data)
  {
    hide S.LoadRecord, AllAgree;
    if |file| < 6 || file[..5] != S.MAGIC {
      return false;
    }
    var f := new ByteStream(file, 6);
    while true
      invariant f.Valid() && f.bytes == file && AllAgree(db.data)
      invariant S.LoadLoop(file, f.pos, db.data) == S.LoadLoop(file, 6, old(db.data))
      decreases |file| - f.pos
    {
      var opcode := f.Read(1);
      if opcode.None? || opcode.value[0] == S.END_OF_FILE {
        return true;
      }
      RecordInherits(file, f.pos - 1, db.data);
      ok := LoadRecord(db, f, opcode.value[0]);
      if !ok {
        return;
      }
    }
  }
}
