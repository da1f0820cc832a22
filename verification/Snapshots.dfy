/** The snapshot file: what the writer emits and what the reader makes of it. */
module Snapshots {
  import opened Octets
  import opened SortedSets
  import opened Keyspace

  const SELECT_DB: byte := 0xFE
  const END_OF_FILE: byte := 0xFF
  const EXPIRE_MS: byte := 0xFC
  const MAGIC: Bytes := [82, 69, 68, 73, 83]
  const VERSION: byte := 9

  // ----- The writer -----

  function LengthCode(len: nat): Bytes {
    if len < 64 then [len] else [0x80] + LittleEndian(len, 4)
  }

  /** The length is cut to 32 bits, and that many bytes are written. */
  function WriteString(s: Bytes): Bytes {
    LengthCode(|s| % TWO_32) + s[..|s| % TWO_32]
  }

  function WriteCount(n: nat): Bytes { LittleEndian(n % TWO_32, 4) }

  function WriteStrings(items: seq<Bytes>): Bytes {
    if items == [] then [] else WriteString(items[0]) + WriteStrings(items[1..])
  }

  function WriteScored(z: seq<Entry>): Bytes {
    if z == [] then [] else (WriteString(z[0].1) + LittleEndian(z[0].0, 8)) + WriteScored(z[1..])
  }

  function WritePairs(pairs: seq<(Bytes, Bytes)>): Bytes {
    if pairs == [] then [] else (WriteString(pairs[0].0) + WriteString(pairs[0].1)) + WritePairs(pairs[1..])
  }

  /** One record: a key, its value, and the order in which the writer met the members of an
      unordered set or the fields of a hash. */
  datatype Item = Item(key: Bytes, value: RedisValue, order: seq<Bytes>)

  function Fields(h: map<Bytes, Bytes>, order: seq<Bytes>): (ps: seq<(Bytes, Bytes)>)
    requires forall i :: 0 <= i < |order| ==> order[i] in h
    ensures |ps| == |order|
  {
    seq(|order|, i requires 0 <= i < |order| => (order[i], h[order[i]]))
  }

  /** The order really lists the container, each element once. */
  predicate ValidItem(it: Item) {
    && (it.value.kind == SetT ==> Listing(it.order, it.value.members))
    && (it.value.kind == HashT ==> Listing(it.order, it.value.hash.Keys))
  }

  function Tag(kind: RedisType): byte {
    match kind
    case StringT => 0
    case ListT => 1
    case SetT => 2
    case ZSetT => 3
    case HashT => 4
  }

  function Payload(it: Item): Bytes
    requires ValidItem(it)
  {
    var v := it.value;
    match v.kind
    case StringT => WriteString(v.str)
    case ListT => WriteCount(|v.list|) + WriteStrings(v.list)
    case SetT => WriteCount(|v.members|) + WriteStrings(it.order)
    case ZSetT => WriteCount(|v.zset.scores|) + WriteScored(v.zset.byScore)
    case HashT => WriteCount(|v.hash|) + WritePairs(Fields(v.hash, it.order))
  }

  function ExpiryPrefix(v: RedisValue): Bytes {
    if v.expiry > 0 then [EXPIRE_MS] + LittleEndian(v.expiry % TWO_64, 8) else []
  }

  function Typed(it: Item): Bytes
    requires ValidItem(it)
  {
    [Tag(it.value.kind)] + (WriteString(it.key) + Payload(it))
  }

  function Record(it: Item): (r: Bytes)
    requires ValidItem(it)
    ensures r != []
  {
    ExpiryPrefix(it.value) + Typed(it)
  }

  predicate AllValid(its: seq<Item>) { forall i :: 0 <= i < |its| ==> ValidItem(its[i]) }

  function Records(its: seq<Item>): Bytes
    requires AllValid(its)
  {
    if its == [] then [] else Record(its[0]) + Records(its[1..])
  }

  function FileOf(its: seq<Item>): Bytes
    requires AllValid(its)
  {
    MAGIC + [VERSION] + [SELECT_DB, 0] + (Records(its) + [END_OF_FILE])
  }

  // ----- The reader -----

  datatype Got<T> = Short | Got(value: T, next: nat)

  function ReadNumber(b: Bytes, pos: nat, w: nat): (r: Got<nat>)
    requires pos <= |b|
    ensures r.Got? ==> r.next == pos + w <= |b|
  {
    if pos + w > |b| then Short else Got(FromLittleEndian(b[pos..pos + w]), pos + w)
  }

  function ReadChars(b: Bytes, pos: nat, len: nat): (r: Got<Bytes>)
    requires pos <= |b|
    ensures r.Got? ==> r.next == pos + len <= |b|
  {
    if pos + len > |b| then Short else Got(b[pos..pos + len], pos + len)
  }

  /** The two top bits of the first byte select the form of the length. */
  function ReadLength(b: Bytes, pos: nat): (r: Got<nat>)
    requires pos <= |b|
    ensures r.Got? ==> pos < r.next <= |b|
  {
    if pos >= |b| then Short
    else if b[pos] < 64 then Got(b[pos], pos + 1)
    else if 128 <= b[pos] < 192 then ReadNumber(b, pos + 1, 4)
    else Short
  }

  function ReadString(b: Bytes, pos: nat): (r: Got<Bytes>)
    requires pos <= |b|
    ensures r.Got? ==> pos < r.next <= |b|
  {
    match ReadLength(b, pos)
    case Short => Short
    case Got(len, next) => ReadChars(b, next, len)
  }

  function ReadStrings(b: Bytes, pos: nat, n: nat): (r: Got<seq<Bytes>>)
    requires pos <= |b|
    ensures r.Got? ==> pos <= r.next <= |b|
    decreases n
  {
    if n == 0 then Got([], pos)
    else
      match ReadString(b, pos)
      case Short => Short
      case Got(s, next) =>
        match ReadStrings(b, next, n - 1)
        case Short => Short
        case Got(ss, end) => Got([s] + ss, end)
  }

  /** A score read back; a pattern that is not a number never comes from the writer and is
      outside the model, where it reads as a failure. */
  function ReadScore(b: Bytes, pos: nat): (r: Got<Score>)
    requires pos <= |b|
    ensures r.Got? ==> pos < r.next <= |b|
  {
    match ReadNumber(b, pos, 8)
    case Short => Short
    case Got(n, next) =>
      if n <= INFINITY_BITS || TWO_63 <= n <= TWO_63 + INFINITY_BITS then Got(n, next) else Short
  }

  function ReadScored(b: Bytes, pos: nat, n: nat): (r: Got<seq<Entry>>)
    requires pos <= |b|
    ensures r.Got? ==> pos <= r.next <= |b|
    decreases n
  {
    if n == 0 then Got([], pos)
    else
      match ReadString(b, pos)
      case Short => Short
      case Got(m, mid) =>
        match ReadScore(b, mid)
        case Short => Short
        case Got(score, next) =>
          match ReadScored(b, next, n - 1)
          case Short => Short
          case Got(es, end) => Got([(score, m)] + es, end)
  }

  /** The end of a record: where to go on, if anywhere, and the cell of the key so far. */
  datatype Loaded = Loaded(next: Option<nat>, cell: Cell)

  /** Hash fields are written to the database while they are read. */
  function LoadPairs(b: Bytes, pos: nat, n: nat, c: Cell): (r: Loaded)
    requires pos <= |b|
    ensures r.next.Some? ==> pos <= r.next.value <= |b|
    decreases n
  {
    if n == 0 then Loaded(Some(pos), c)
    else
      match ReadString(b, pos)
      case Short => Loaded(None, c)
      case Got(f, mid) =>
        match ReadString(b, mid)
        case Short => Loaded(None, c)
        case Got(v, next) => LoadPairs(b, next, n - 1, WriteField(c, f, v))
  }

  /** List items are pushed one by one after all were read. */
  function PushEach(c: Cell, items: seq<Bytes>): Cell
    decreases |items|
  {
    if items == [] then c else PushEach(PushBack(c, [items[0]]), items[1..])
  }

  function WithExpiry(c: Cell, expiry: int): Cell {
    if expiry > 0 && c.Some? then Some(c.value.(expiry := expiry)) else c
  }

  function LoadString(b: Bytes, pos: nat, expiry: int, c: Cell): (r: Loaded)
    requires pos <= |b|
    ensures r.next.Some? ==> pos <= r.next.value <= |b|
  {
    match ReadString(b, pos)
    case Short => Loaded(None, c)
    case Got(s, next) => Loaded(Some(next), WithExpiry(SetString(c, s), expiry))
  }

  function LoadCounted(b: Bytes, pos: nat, tag: byte, c: Cell): (r: Loaded)
    requires pos <= |b| && 1 <= tag <= 4
    ensures r.next.Some? ==> pos <= r.next.value <= |b|
  {
    match ReadNumber(b, pos, 4)
    case Short => Loaded(None, c)
    case Got(n, next) =>
      if tag == 1 then
        match ReadStrings(b, next, n)
        case Short => Loaded(None, c)
        case Got(items, end) => Loaded(Some(end), PushEach(c, items))
      else if tag == 2 then
        match ReadStrings(b, next, n)
        case Short => Loaded(None, c)
        case Got(items, end) => Loaded(Some(end), AddMembers(c, items))
      else if tag == 3 then
        match ReadScored(b, next, n)
        case Short => Loaded(None, c)
        case Got(entries, end) => Loaded(Some(end), AddScored(c, entries))
      else LoadPairs(b, next, n, c)
  }

  function LoadSelect(b: Bytes, pos: nat, c: Cell): (r: Loaded)
    requires pos <= |b|
    ensures r.next.Some? ==> pos <= r.next.value <= |b|
  {
    if pos < |b| && b[pos] == 0 then Loaded(Some(pos + 1), c) else Loaded(None, c)
  }

  /** What follows the key, by type; an unknown type is skipped. */
  function LoadPayload(b: Bytes, pos: nat, tag: byte, expiry: int, c: Cell): (r: Loaded)
    requires pos <= |b|
    ensures r.next.Some? ==> pos <= r.next.value <= |b|
  {
    if tag == 0 then LoadString(b, pos, expiry, c)
    else if tag <= 4 then LoadCounted(b, pos, tag, c)
    else if tag == SELECT_DB then LoadSelect(b, pos, c)
    else Loaded(Some(pos), c)
  }

  datatype Progress = Stopped(db: Store) | Continued(next: nat, db: Store)

  /** Type byte, key, payload. The key is read before the type is looked at. */
  function LoadTyped(b: Bytes, pos: nat, expiry: int, db: Store): (r: Progress)
    requires pos <= |b|
    ensures r.Continued? ==> pos < r.next <= |b|
  {
    if pos >= |b| then Stopped(db)
    else
      match ReadString(b, pos + 1)
      case Short => Stopped(db)
      case Got(key, next) =>
        var l := LoadPayload(b, next, b[pos], expiry, Look(db, key));
        var db' := Put(db, key, l.cell);
        if l.next.Some? then Continued(l.next.value, db') else Stopped(db')
  }

  function AsInt64(n: nat): int { if n >= TWO_63 then n - TWO_64 else n }

  function LoadRecord(b: Bytes, pos: nat, db: Store): (r: Progress)
    requires pos < |b|
    ensures r.Continued? ==> pos < r.next <= |b|
  {
    if b[pos] == EXPIRE_MS then
      match ReadNumber(b, pos + 1, 8)
      case Short => Stopped(db)
      case Got(n, next) => LoadTyped(b, next, AsInt64(n), db)
    else LoadTyped(b, pos, -1, db)
  }

  /** The record loop: true at the end marker and at the end of the bytes, false where a read
      fails inside a record. */
  function LoadLoop(b: Bytes, pos: nat, db: Store): (bool, Store)
    requires pos <= |b|
    decreases |b| - pos
  {
    if pos >= |b| || b[pos] == END_OF_FILE then (true, db)
    else
      match LoadRecord(b, pos, db)
      case Stopped(db') => (false, db')
      case Continued(next, db') => LoadLoop(b, next, db')
  }

  function LoadFile(b: Bytes, db: Store): (bool, Store) {
    if |b| < 6 || b[..5] != MAGIC then (false, db) else LoadLoop(b, 6, db)
  }
}
