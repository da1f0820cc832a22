/** Files that end too early, and the header that the loader misreads. */
module SnapshotCuts {
  import opened Octets
  import opened SortedSets
  import opened Keyspace
  import opened Snapshots
  import opened SnapshotCodec
  import opened SnapshotRoundTrip

  // ----- What a cut record leaves behind -----

  /** Only a hash is written while it is read: the whole pairs before the cut stay. */
  function PartOfPayload(it: Item, n: nat): Cell
    requires ValidItem(it)
  {
    if it.value.kind == HashT && n >= 4 then
      var ps := Fields(it.value.hash, it.order);
      WriteFields(None, ps[..WholePairs(ps, n - 4)])
    else None
  }

  function PartOfTyped(it: Item, n: nat): Cell
    requires ValidItem(it)
  {
    var start := 1 + |WriteString(it.key)|;
    if n >= start then PartOfPayload(it, n - start) else None
  }

  /** The cell left by a record of which only the first `n` bytes are there. */
  function PartOf(it: Item, n: nat): Cell
    requires ValidItem(it)
  {
    var start := |ExpiryPrefix(it.value)|;
    if n >= start then PartOfTyped(it, n - start) else None
  }

  lemma OnlyHashesLeaveParts(it: Item, n: nat)
    requires ValidItem(it) && it.value.kind != HashT
    ensures PartOf(it, n) == None
  {
  }

  // ----- Reading a cut record -----

  lemma CountCut(b: Bytes, pos: nat, n: nat)
    requires CutAt(b, pos, WriteCount(n))
    ensures ReadNumber(b, pos, 4) == Short
  {
    NumberCut(b, pos, n % TWO_32, 4);
  }

  /** The count is there or not; what follows it is cut in the first case. */
  lemma CountedCut(b: Bytes, pos: nat, n: nat, rest: Bytes)
    requires n < TWO_32 && CutAt(b, pos, WriteCount(n) + rest)
    ensures |b| - pos < 4 ==> ReadNumber(b, pos, 4) == Short
    ensures |b| - pos >= 4 ==> ReadNumber(b, pos, 4) == Got(n, pos + 4) && CutAt(b, pos + 4, rest)
  {
    hide WriteCount, ReadNumber, CutAt, At;
    CountLength(n);
    CutSplit(b, pos, WriteCount(n), rest);
    if |b| - pos < 4 {
      CountCut(b, pos, n);
    } else {
      CountAt(b, pos, n);
    }
  }

  lemma CountLength(n: nat)
    ensures |WriteCount(n)| == 4
  {
  }

  lemma PayloadCut(b: Bytes, pos: nat, it: Item, expiry: int)
    requires FitsItem(it) && pos <= |b| && CutAt(b, pos, Payload(it))
    ensures LoadPayload(b, pos, Tag(it.value.kind), expiry, None)
         == Loaded(None, PartOfPayload(it, |b| - pos))
  {
    hide ReadString, ReadStrings, ReadScored, ReadNumber, LoadPairs, WriteString, WriteStrings, WriteScored,
      WritePairs, WriteCount, WriteFields, AddScored, PushEach, AddMembers, Agree, Fields, At, CutAt, WholePairs;
    var v, big := it.value, |b| - pos >= 4;
    match v.kind
    case StringT => StringCut(b, pos, v.str);
    case ListT =>
      CountedCut(b, pos, |v.list|, WriteStrings(v.list));
      if big { StringsCut(b, pos + 4, v.list); }
    case SetT =>
      CountedCut(b, pos, |v.members|, WriteStrings(it.order));
      ListingSize(it.order, v.members);
      if big { StringsCut(b, pos + 4, it.order); }
    case ZSetT =>
      CountedCut(b, pos, |v.zset.scores|, WriteScored(v.zset.byScore));
      SizesAgree(v.zset);
      if big { ScoredCut(b, pos + 4, v.zset.byScore); }
    case HashT =>
      var ps := Fields(v.hash, it.order);
      CountedCut(b, pos, |v.hash|, WritePairs(ps));
      ListingSize(it.order, v.hash.Keys);
      if big { PairsCut(b, pos + 4, ps, None); }
  }

  lemma TypedCut(b: Bytes, pos: nat, it: Item, expiry: int, db: Store)
    requires FitsItem(it) && it.key !in db && pos <= |b| && CutAt(b, pos, Typed(it))
    ensures LoadTyped(b, pos, expiry, db) == Stopped(Put(db, it.key, PartOfTyped(it, |b| - pos)))
  {
    PutSame(db, it.key);
    hide ReadString, WriteString, Payload, LoadPayload, Put, PartOfPayload, FitsItem, ValidItem;
    ItemKeyFits(it);
    var k := WriteString(it.key);
    if pos < |b| {
      CutSplit(b, pos, [Tag(it.value.kind)], k + Payload(it));
      assert b[pos] == b[pos..pos + 1][0] == Tag(it.value.kind);
      CutSplit(b, pos + 1, k, Payload(it));
      if |b| < pos + 1 + |k| {
        StringCut(b, pos + 1, it.key);
      } else {
        StringAt(b, pos + 1, it.key);
        PayloadCut(b, pos + 1 + |k|, it, expiry);
      }
    }
  }

  lemma RecordCut(b: Bytes, pos: nat, it: Item, db: Store)
    requires FitsItem(it) && it.key !in db && pos < |b| && CutAt(b, pos, Record(it))
    ensures b[pos] != END_OF_FILE
    ensures LoadRecord(b, pos, db) == Stopped(Put(db, it.key, PartOf(it, |b| - pos)))
  {
    PutSame(db, it.key);
    hide LoadTyped, Typed, LittleEndian, FromLittleEndian, ReadNumber, FitsItem, ValidItem, Put, PartOfTyped;
    ItemKeyFits(it);
    var v := it.value;
    CutSplit(b, pos, ExpiryPrefix(v), Typed(it));
    TypedStarts(it);
    if v.expiry > 0 {
      var n := LittleEndian(v.expiry % TWO_64, 8);
      if |b| < pos + 9 {
        CutSplit(b, pos, [EXPIRE_MS], n);
        assert b[pos] == b[pos..pos + 1][0] == EXPIRE_MS;
        NumberCut(b, pos + 1, v.expiry % TWO_64, 8);
      } else {
        ExpiryAt(b, pos, v);
        TypedCut(b, pos + 9, it, v.expiry, db);
      }
    } else {
      assert b[pos] == b[pos..][0] == Typed(it)[0];
      TypedCut(b, pos, it, -1, db);
    }
  }

  lemma ExpiryAt(b: Bytes, pos: nat, v: RedisValue)
    requires 0 < v.expiry < TWO_63 && At(b, pos, ExpiryPrefix(v))
    ensures pos < |b| && b[pos] == EXPIRE_MS && ReadNumber(b, pos + 1, 8) == Got(v.expiry, pos + 9)
  {
    hide LittleEndian, FromLittleEndian, ReadNumber;
    AtSplit(b, pos, [EXPIRE_MS], LittleEndian(v.expiry % TWO_64, 8));
    assert b[pos..pos + 1][0] == EXPIRE_MS;
    Widths();
    assert v.expiry % TWO_64 == v.expiry;
    NumberAt(b, pos + 1, v.expiry, 8);
  }

  // ----- A whole file cut anywhere -----

  /** How many whole records the first `n` bytes hold, and how many bytes of the next. */
  function WholeRecords(its: seq<Item>, n: nat): (k: nat)
    requires AllValid(its)
    ensures k <= |its|
    decreases |its|
  {
    if its == [] || n < |Record(its[0])| then 0 else 1 + WholeRecords(its[1..], n - |Record(its[0])|)
  }

  function BytesOver(its: seq<Item>, n: nat): (r: nat)
    requires AllValid(its)
    ensures WholeRecords(its, n) == |its| || r < |Record(its[WholeRecords(its, n)])|
    decreases |its|
  {
    if its == [] || n < |Record(its[0])| then n else BytesOver(its[1..], n - |Record(its[0])|)
  }

  /** The database after the whole records and whatever part of the next one sticks. */
  function RestoredUpTo(db: Store, its: seq<Item>, n: nat): Store
    requires AllValid(its)
  {
    var k, r := WholeRecords(its, n), BytesOver(its, n);
    var d := RestoreAll(db, its[..k]);
    if k < |its| && r > 0 then Put(d, its[k].key, PartOf(its[k], r)) else d
  }

  lemma UpToSteps(db: Store, its: seq<Item>, n: nat)
    requires AllValid(its) && its != [] && n >= |Record(its[0])|
    ensures RestoredUpTo(db, its, n)
         == RestoredUpTo(Put(db, its[0].key, Restored(its[0].value)), its[1..], n - |Record(its[0])|)
  {
    hide Record, Restored, PartOf, ValidItem;
    var k := WholeRecords(its, n);
    assert its[..k][0] == its[0] && its[..k][1..] == its[1..][..k - 1];
  }

  lemma UpToStays(db: Store, its: seq<Item>, n: nat)
    requires AllValid(its) && its != [] && n < |Record(its[0])|
    ensures WholeRecords(its, n) == 0 && BytesOver(its, n) == n
    ensures RestoredUpTo(db, its, n) == if n > 0 then Put(db, its[0].key, PartOf(its[0], n)) else db
  {
    hide Record, Restored, PartOf, ValidItem;
    assert its[..0] == [];
  }

  /** Truncation. Cut the records anywhere: the loop keeps exactly the whole records before the
      cut, plus the whole fields of a hash the cut falls in, and returns true exactly when the
      cut is at a record boundary. */
  lemma {:induction false} RecordsCut(b: Bytes, pos: nat, its: seq<Item>, db: Store)
    requires AllItemsFit(its) && AllValid(its) && KeysDistinct(its) && KeysNew(its, db)
    requires pos <= |b| && CutAt(b, pos, Records(its) + [END_OF_FILE])
    ensures LoadLoop(b, pos, db) == (BytesOver(its, |b| - pos) == 0, RestoredUpTo(db, its, |b| - pos))
    decreases |its|
  {
    hide FitsItem, ValidItem, Record, Records, LoadRecord, Restored, RestoredUpTo, PartOf, CutAt, At;
    RecordsUnfold(its);
    if its == [] {
      CutOfMarker(b, pos);
      NothingToRestore(db);
    } else {
      var r, rest := Record(its[0]), Records(its[1..]) + [END_OF_FILE];
      CutSplit(b, pos, r, rest);
      if |b| < pos + |r| {
        UpToStays(db, its, |b| - pos);
        if pos < |b| {
          RecordCut(b, pos, its[0], db);
        }
      } else {
        RecordAt(b, pos, its[0], db);
        UpToSteps(db, its, |b| - pos);
        RecordsCut(b, pos + |r|, its[1..], Put(db, its[0].key, Restored(its[0].value)));
      }
    }
  }

  lemma RecordsUnfold(its: seq<Item>)
    requires AllValid(its)
    ensures its == [] ==> Records(its) + [END_OF_FILE] == [END_OF_FILE]
    ensures its != [] ==> Records(its) + [END_OF_FILE] == Record(its[0]) + (Records(its[1..]) + [END_OF_FILE])
  {
    hide Record, ValidItem;
  }

  lemma CutOfMarker(b: Bytes, pos: nat)
    requires CutAt(b, pos, [END_OF_FILE])
    ensures |b| == pos
  {
  }

  lemma NothingToRestore(db: Store)
    ensures RestoredUpTo(db, [], 0) == db
  {
  }

  /** A snapshot without hashes, cut after `n` bytes: the result is the restored database of
      the whole records, and nothing else. */
  lemma TruncatedSnapshot(its: seq<Item>, n: nat)
    requires AllItemsFit(its) && AllValid(its) && KeysDistinct(its)
    requires n <= |Records(its)| && forall i :: 0 <= i < |its| ==> its[i].value.kind != HashT
    ensures LoadLoop(Records(its)[..n], 0, map[])
         == (BytesOver(its, n) == 0, RestoreAll(map[], its[..WholeRecords(its, n)]))
  {
    hide FitsItem, Records, LoadLoop, RestoreAll, Record, WholeRecords, BytesOver, PartOf;
    var whole := Records(its) + [END_OF_FILE];
    var b := Records(its)[..n];
    assert whole[..n] == b && b[0..] == b;
    RecordsCut(b, 0, its, map[]);
    var k := WholeRecords(its, n);
    if k < |its| {
      OnlyHashesLeaveParts(its[k], BytesOver(its, n));
      PutAbsent(its, k);
    }
  }

  lemma PutAbsent(its: seq<Item>, k: nat)
    requires KeysDistinct(its) && k < |its|
    ensures var d := RestoreAll(map[], its[..k]);
            Put(d, its[k].key, None) == d
  {
    hide RestoreAll;
    var front := its[..k];
    assert forall i :: 0 <= i < |front| ==> front[i] == its[i];
    RestoreAllAt(map[], front, its[k].key);
    PutSame(RestoreAll(map[], front), its[k].key);
  }

  // ----- The header -----

  /** The first record is a string without positive expiry. */
  predicate StartsWithPlainString(its: seq<Item>) {
    its != [] && its[0].value.kind == StringT && its[0].value.expiry <= 0
  }

  /** Where the loader goes on behind the SELECTDB opcode of the writer. */
  lemma HeaderRead(its: seq<Item>, db: Store)
    requires AllValid(its)
    ensures var b := FileOf(its);
            && |b| > 8 && b[..5] == MAGIC && b[6] == SELECT_DB
            && LoadRecord(b, 6, db) == (if b[8] == 0 then Continued(9, db) else Stopped(db))
            && (b[8] == 0 <==> StartsWithPlainString(its))
  {
    hide Records, LittleEndian, FromLittleEndian;
    var b, tail := FileOf(its), Records(its) + [END_OF_FILE];
    assert b[..5] == MAGIC && b[6] == SELECT_DB && b[7] == 0;
    assert b[8] == tail[0];
    FirstByte(its);
    PutSame(db, []);
    assert b[8..8] == [];
    assert ReadString(b, 7) == Got([], 8);
  }

  lemma FirstByte(its: seq<Item>)
    requires AllValid(its)
    ensures (Records(its) + [END_OF_FILE])[0] == 0 <==> StartsWithPlainString(its)
  {
    hide Typed, LittleEndian;
    if its != [] {
      TypedStarts(its[0]);
      var r := Record(its[0]);
      assert r[0] == if its[0].value.expiry > 0 then EXPIRE_MS else Tag(its[0].value.kind);
      assert (Records(its) + [END_OF_FILE])[0] == r[0];
    }
  }

  /** Header framing as coded. The loader takes the database number for an empty key and the
      byte behind it for the database number. So on the writer's own file it reports failure
      and loads nothing, unless the first record is a string without positive expiry; in that
      case it goes on one byte inside that record, at its key. */
  lemma OwnHeaderIsMisread(its: seq<Item>, db: Store)
    requires AllValid(its)
    ensures LoadFile(FileOf(its), db)
         == if StartsWithPlainString(its) then LoadLoop(FileOf(its), 9, db) else (false, db)
  {
    HeaderRead(its, db);
    hide FileOf, LoadRecord, StartsWithPlainString;
    var b := FileOf(its);
    assert LoadFile(b, db) == LoadLoop(b, 6, db);
  }

  /** A key whose bytes spell a record. */
  const SPELLING: Bytes := [0, 0, 1, 97, 1, 98, 255]

  /** The exception is real: a database holding the one key above, saved and loaded, is
      reported as loaded and comes back as a database holding key "a" with value "b". */
  lemma MisreadIsReportedAsSuccess()
    ensures var its := [Item(SPELLING, FRESH, [])];
            && AllItemsFit(its) && AllValid(its) && Lists(its, map[SPELLING := FRESH])
            && LoadFile(FileOf(its), map[]) == (true, map[[97] := FRESH.(str := [98])])
  {
    var its := [Item(SPELLING, FRESH, [])];
    OwnHeaderIsMisread(its, map[]);
    var b := FileOf(its);
    SpellingFile();
    SpellingLoads(b);
  }

  lemma SpellingFile()
    ensures var its := [Item(SPELLING, FRESH, [])];
            AllValid(its) && FileOf(its) == MAGIC + [VERSION, SELECT_DB, 0, 0, 7] + SPELLING + [0, 255]
  {
    var it := Item(SPELLING, FRESH, []);
    OneRecordFile(it);
    PlainStringRecord(it);
    assert LengthCode(7) == [7] && LengthCode(0) == [0];
    hide FileOf, Record, LengthCode;
    assert Record(it) == [0] + (([7] + SPELLING) + ([0] + []));
    assert MAGIC + [VERSION] + [SELECT_DB, 0] + (Record(it) + [END_OF_FILE])
        == MAGIC + [VERSION, SELECT_DB, 0, 0, 7] + SPELLING + [0, 255];
  }

  lemma OneRecordFile(it: Item)
    requires ValidItem(it)
    ensures AllValid([it]) && FileOf([it]) == MAGIC + [VERSION] + [SELECT_DB, 0] + (Record(it) + [END_OF_FILE])
  {
    hide Record, ValidItem;
    var its := [it];
    assert its[1..] == [];
    assert Records(its) == Record(it) + [];
  }

  lemma PlainStringRecord(it: Item)
    requires ValidItem(it) && it.value.kind == StringT && it.value.expiry <= 0
    requires FitsString(it.key) && FitsString(it.value.str)
    ensures Record(it) == [0] + ((LengthCode(|it.key|) + it.key) + (LengthCode(|it.value.str|) + it.value.str))
  {
    hide WriteString, LengthCode, ValidItem;
    StringForm(it.key);
    StringForm(it.value.str);
    assert [] + Typed(it) == Typed(it);
  }

  lemma SpellingLoads(b: Bytes)
    requires b == MAGIC + [VERSION, SELECT_DB, 0, 0, 7] + SPELLING + [0, 255]
    ensures LoadLoop(b, 9, map[]) == (true, map[[97] := FRESH.(str := [98])])
  {
    assert b[9] == 7 && b[10] == 0 && b[11] == 0 && b[12] == 1 && b[13] == 97 && b[14] == 1 && b[15] == 98 && b[16] == 255;
    assert b[11..11] == [] && b[13..14] == [97] && b[15..16] == [98];
    assert ReadString(b, 10) == Got([], 11);
    assert ReadString(b, 12) == Got([97], 14);
    assert ReadString(b, 14) == Got([98], 16);
    var empty: Store := map[];
    PutSame(empty, []);
    assert LoadRecord(b, 9, empty) == Continued(11, empty);
    assert LoadRecord(b, 11, empty) == Continued(16, map[[97] := FRESH.(str := [98])]);
    var done: Store := map[[97] := FRESH.(str := [98])];
    assert LoadLoop(b, 16, done) == (true, done);
    assert LoadLoop(b, 11, empty) == LoadLoop(b, 16, done);
  }
}
