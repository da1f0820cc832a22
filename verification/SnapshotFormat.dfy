/** The snapshot file byte by byte: what the writer emits and what the reader makes of it, with the
    numbers of the format written out. */
module SnapshotFormat {
  import opened Octets
  import opened SortedSets
  import opened Keyspace
  import opened Snapshots
  import opened SnapshotCodec
  import opened SnapshotRoundTrip

  // ----- What the writer emits -----

  /** "REDIS", version 9, SELECTDB 0, the records, the end marker. */
  lemma FileBytes(its: seq<Item>)
    requires AllValid(its)
    ensures FileOf(its) == [82, 69, 68, 73, 83, 9, 0xFE, 0] + Records(its) + [0xFF]
  {
    hide Records;
  }

  /** A count is four bytes, the lowest first. */
  lemma CountBytes(n: nat)
    requires n < TWO_32
    ensures WriteCount(n) == [n % 256, n / 256 % 256, n / 65536 % 256, n / 16777216]
  {
    assert n % TWO_32 == n;
    var a, b, c := n / 256, n / 65536, n / 16777216;
    assert a / 256 == b && b / 256 == c && c % 256 == c;
    assert LittleEndian(c, 1) == [c % 256] + LittleEndian(c / 256, 0);
    assert LittleEndian(b, 2) == [b % 256] + LittleEndian(c, 1);
    assert LittleEndian(a, 3) == [a % 256] + LittleEndian(b, 2);
    assert LittleEndian(n, 4) == [n % 256] + LittleEndian(a, 3);
  }

  /** A string is one byte of length below 64, else 0x80 and four bytes, and then its bytes. */
  lemma StringBytes(s: Bytes)
    requires |s| < TWO_32
    ensures WriteString(s) == (if |s| < 64 then [|s|] else [0x80] + WriteCount(|s|)) + s
  {
    hide LittleEndian;
    StringForm(s);
    var n := |s|;
    assert n % TWO_32 == n;
  }

  /** Items follow one another; a score follows its member and a value its field. */
  lemma ItemBytes(x: Bytes, xs: seq<Bytes>, s: Score, z: seq<Entry>, v: Bytes, ps: seq<(Bytes, Bytes)>)
    ensures WriteStrings([]) == WriteScored([]) == WritePairs([]) == []
    ensures WriteStrings([x] + xs) == WriteString(x) + WriteStrings(xs)
    ensures WriteScored([(s, x)] + z) == WriteString(x) + LittleEndian(s, 8) + WriteScored(z)
    ensures WritePairs([(x, v)] + ps) == WriteString(x) + WriteString(v) + WritePairs(ps)
  {
    hide WriteString, LittleEndian;
    assert ([x] + xs)[1..] == xs && ([(s, x)] + z)[1..] == z && ([(x, v)] + ps)[1..] == ps;
  }

  function Prefix(expiry: int): Bytes { if expiry > 0 then [0xFC] + LittleEndian(expiry % TWO_64, 8) else [] }

  /** The record of each type: 0 string, 1 list, 2 set, 3 sorted set, 4 hash. An expiry comes first,
      as 0xFC and eight bytes of milliseconds. */
  lemma RecordBytes(k: Bytes, v: RedisValue, order: seq<Bytes>)
    requires ValidItem(Item(k, v, order))
    ensures var it, p := Item(k, v, order), Prefix(v.expiry);
            && (v.kind == StringT ==> Record(it) == p + [0] + WriteString(k) + WriteString(v.str))
            && (v.kind == ListT ==>
                  Record(it) == p + [1] + WriteString(k) + WriteCount(|v.list|) + WriteStrings(v.list))
            && (v.kind == SetT ==>
                  Record(it) == p + [2] + WriteString(k) + WriteCount(|v.members|) + WriteStrings(order))
            && (v.kind == ZSetT ==>
                  Record(it) == p + [3] + WriteString(k) + WriteCount(|v.zset.scores|) + WriteScored(v.zset.byScore))
            && (v.kind == HashT ==>
                  (forall i :: 0 <= i < |order| ==> order[i] in v.hash)
                  && Record(it) == p + [4] + WriteString(k) + WriteCount(|v.hash|) + WritePairs(Fields(v.hash, order)))
  {
    hide WriteString, WriteCount, WriteStrings, WriteScored, WritePairs, Fields, LittleEndian, Prefix, Record;
    var it := Item(k, v, order);
    RecordPieces(it);
    var p, key := Prefix(v.expiry), WriteString(k);
    match v.kind
    case StringT =>
    case ListT => Regroup(p + [1] + key, WriteCount(|v.list|), WriteStrings(v.list));
    case SetT => Regroup(p + [2] + key, WriteCount(|v.members|), WriteStrings(order));
    case ZSetT => Regroup(p + [3] + key, WriteCount(|v.zset.scores|), WriteScored(v.zset.byScore));
    case HashT =>
      assert forall i :: 0 <= i < |order| ==> order[i] in ToSet(order);
      Regroup(p + [4] + key, WriteCount(|v.hash|), WritePairs(Fields(v.hash, order)));
  }

  lemma RecordPieces(it: Item)
    requires ValidItem(it)
    ensures Record(it) == Prefix(it.value.expiry) + [Tag(it.value.kind)] + WriteString(it.key) + Payload(it)
  {
    hide WriteString, Payload, LittleEndian, ValidItem;
    var p, t, key, body := Prefix(it.value.expiry), [Tag(it.value.kind)], WriteString(it.key), Payload(it);
    assert p + (t + (key + body)) == p + t + key + body;
  }

  lemma Regroup(x: Bytes, y: Bytes, z: Bytes)
    ensures x + (y + z) == x + y + z
  {
  }

  // ----- What the reader makes of it -----

  const START: Bytes := [82, 69, 68, 73, 83, 9]

  /** A file of one record, without SELECTDB. */
  function OneRecord(record: Bytes): Bytes { START + record + [0xFF] }

  lemma OneRecordLoads(it: Item)
    requires FitsItem(it)
    ensures ValidItem(it)
    ensures LoadFile(OneRecord(Record(it)), map[]) == (true, Put(map[], it.key, Restored(it.value)))
  {
    hide FitsItem, ValidItem, Record, LoadLoop, Restored, Put;
    ItemKeyFits(it);
    var its := [it];
    assert its[1..] == [];
    assert Records(its) == Record(it) + Records([]);
    var b := OneRecord(Record(it));
    assert b[..5] == MAGIC;
    assert b == START + (Records(its) + [END_OF_FILE]);
    assert b[6..6 + |Records(its) + [END_OF_FILE]|] == Records(its) + [END_OF_FILE];
    RecordsAt(b, 6, its, map[]);
    assert RestoreAll(map[], its) == RestoreAll(Put(map[], it.key, Restored(it.value)), []);
  }

  /** Type 0 is a string, with its expiry. */
  lemma LoadsString(k: Bytes, s: Bytes, expiry: int)
    requires |k| < TWO_32 && |s| < TWO_32 && 0 <= expiry < TWO_63
    ensures LoadFile(OneRecord(Prefix(expiry) + [0] + WriteString(k) + WriteString(s)), map[])
         == (true, map[k := FRESH.(kind := StringT, str := s, expiry := expiry)])
  {
    hide WriteString, LoadFile;
    var v := FRESH.(kind := StringT, str := s, expiry := expiry);
    RecordBytes(k, v, []);
    OneRecordLoads(Item(k, v, []));
  }

  /** Type 1 is a list. An empty one leaves no key. */
  lemma LoadsList(k: Bytes, xs: seq<Bytes>)
    requires |k| < TWO_32 && |xs| < TWO_32 && AllFit(xs)
    ensures LoadFile(OneRecord([1] + WriteString(k) + WriteCount(|xs|) + WriteStrings(xs)), map[])
         == (true, if xs == [] then map[] else map[k := FRESH.(kind := ListT, list := xs)])
  {
    hide WriteString, WriteStrings, WriteCount, LoadFile, AllFit;
    var v := FRESH.(kind := ListT, list := xs);
    RecordBytes(k, v, []);
    OneRecordLoads(Item(k, v, []));
    assert Prefix(0) + [1] == [1];
  }

  /** Type 2 is a set. */
  lemma LoadsSet(k: Bytes, xs: seq<Bytes>)
    requires |k| < TWO_32 && |xs| < TWO_32 && AllFit(xs) && NoDuplicates(xs)
    ensures LoadFile(OneRecord([2] + WriteString(k) + WriteCount(|xs|) + WriteStrings(xs)), map[])
         == (true, map[k := FRESH.(kind := SetT, members := ToSet(xs))])
  {
    hide WriteString, WriteStrings, WriteCount, LoadFile, AllFit, ToSet, NoDuplicates;
    var v := FRESH.(kind := SetT, members := ToSet(xs));
    ListingSize(xs, ToSet(xs));
    RecordBytes(k, v, xs);
    OneRecordLoads(Item(k, v, xs));
    assert Prefix(0) + [2] == [2];
  }

  /** Type 3 is a sorted set. */
  lemma LoadsSortedSet(k: Bytes, ix: Index)
    requires |k| < TWO_32 && |ix.byScore| < TWO_32 && AllNamesFit(ix.byScore) && Agree(ix)
    ensures LoadFile(OneRecord([3] + WriteString(k) + WriteCount(|ix.byScore|) + WriteScored(ix.byScore)), map[])
         == (true, map[k := FRESH.(kind := ZSetT, zset := ix)])
  {
    hide WriteString, WriteScored, WriteCount, LoadFile, AllNamesFit, Agree;
    var v := FRESH.(kind := ZSetT, zset := ix);
    SizesAgree(ix);
    RecordBytes(k, v, []);
    OneRecordLoads(Item(k, v, []));
    assert Prefix(0) + [3] == [3];
  }

  /** Type 4 is a hash. An empty one leaves no key. */
  lemma LoadsHash(k: Bytes, h: map<Bytes, Bytes>, order: seq<Bytes>)
    requires |k| < TWO_32 && Listing(order, h.Keys) && |order| < TWO_32
    requires forall f :: f in h ==> |f| < TWO_32 && |h[f]| < TWO_32
    ensures forall i :: 0 <= i < |order| ==> order[i] in h
    ensures LoadFile(OneRecord([4] + WriteString(k) + WriteCount(|order|) + WritePairs(Fields(h, order))), map[])
         == (true, if h == map[] then map[] else map[k := FRESH.(kind := HashT, hash := h)])
  {
    hide WriteString, WritePairs, WriteCount, LoadFile;
    var v := FRESH.(kind := HashT, hash := h);
    assert forall i :: 0 <= i < |order| ==> order[i] in ToSet(order);
    ListingSize(order, h.Keys);
    RecordBytes(k, v, order);
    OneRecordLoads(Item(k, v, order));
    assert Prefix(0) + [4] == [4];
  }

  /** The first byte of a length: below 64 the length itself, from 0x80 to 0xBF four bytes follow,
      lowest first, and any other byte is refused. */
  lemma LengthForms(b: Bytes, pos: nat)
    requires pos < |b|
    ensures b[pos] < 64 ==> ReadLength(b, pos) == Got(b[pos], pos + 1)
    ensures 64 <= b[pos] < 128 || b[pos] >= 192 ==> ReadLength(b, pos) == Short
    ensures 128 <= b[pos] < 192 && pos + 5 <= |b| ==>
              var w: int, x: int, y: int, z: int := b[pos + 1], b[pos + 2], b[pos + 3], b[pos + 4];
              ReadLength(b, pos) == Got(w + 256 * x + 65536 * y + 16777216 * z, pos + 5)
    ensures 128 <= b[pos] < 192 && pos + 5 > |b| ==> ReadLength(b, pos) == Short
  {
    hide FromLittleEndian;
    if pos + 5 <= |b| {
      FourBytes(b[pos + 1], b[pos + 2], b[pos + 3], b[pos + 4]);
      assert b[pos + 1..pos + 5] == [b[pos + 1], b[pos + 2], b[pos + 3], b[pos + 4]];
    }
  }

  /** A file that does not start with "REDIS" and a version is refused. */
  lemma OtherFilesAreRefused(b: Bytes, db: Store)
    requires |b| < 6 || b[..5] != [82, 69, 68, 73, 83]
    ensures LoadFile(b, db) == (false, db)
  {
  }
}
