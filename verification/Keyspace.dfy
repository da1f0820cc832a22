/** One value of the database, and every operation of the database as a function on the cell
    of its key. The clock is a parameter. */
module Keyspace {
  import opened Octets
  import opened SortedSets
  import Ranges

  datatype RedisType = StringT | ListT | SetT | HashT | ZSetT

  /** A value keeps the storage of every type; only that of `kind` is visible. `expiry` is in
      milliseconds, 0 meaning none. `modCount` counts modifications; the server's 64-bit
      field holds it modulo 2^64. */
  datatype RedisValue = RedisValue(
    kind: RedisType,
    expiry: int,
    modCount: nat,
    str: Bytes,
    list: seq<Bytes>,
    members: set<Bytes>,
    hash: map<Bytes, Bytes>,
    zset: Index)

  const FRESH := RedisValue(StringT, 0, 0, [], [], {}, map[], EMPTY_INDEX)

  type Store = map<Bytes, RedisValue>

  /** What the database holds at one key. */
  type Cell = Option<RedisValue>

  function Look(db: Store, key: Bytes): Cell {
    if key in db then Some(db[key]) else None
  }

  function Put(db: Store, key: Bytes, c: Cell): Store {
    match c
    case None => db - {key}
    case Some(v) => db[key := v]
  }

  /** `data[key]`, which creates a missing value. */
  function Value(c: Cell): RedisValue {
    if c.Some? then c.value else FRESH
  }

  predicate Is(c: Cell, kind: RedisType) { c.Some? && c.value.kind == kind }

  // ----- Expiry -----

  predicate IsExpired(v: RedisValue, now: int) { v.expiry != 0 && now >= v.expiry }

  predicate Dead(c: Cell, now: int) { c.Some? && IsExpired(c.value, now) }

  function Seconds(v: RedisValue, now: int): int {
    if v.expiry == 0 then -1 else if now >= v.expiry then -2 else (v.expiry - now) / 1000
  }

  function Milliseconds(v: RedisValue, now: int): int {
    if v.expiry == 0 then -1 else if now >= v.expiry then -2 else v.expiry - now
  }

  /** The lazy removal: a look-up of an expired key erases it. */
  function Purge(c: Cell, now: int): Cell {
    if Dead(c, now) then None else c
  }

  function PurgeIf(c: Cell, kind: RedisType, now: int): Cell {
    if Is(c, kind) then Purge(c, now) else c
  }

  /** EXPIRE, PEXPIRE and PERSIST on a key that is there. */
  function SetExpiry(c: Cell, now: int, at: int): Cell {
    var d := Purge(c, now);
    if d.Some? then Some(d.value.(expiry := at)) else None
  }

  // ----- Modification counters -----

  function ModCount(c: Cell): nat {
    if c.Some? then c.value.modCount % TWO_64 else 0
  }

  function Bump(c: Cell): Cell {
    Some(Value(c).(modCount := Value(c).modCount + 1))
  }

  // ----- Strings and lists -----

  function SetString(c: Cell, s: Bytes): Cell { Some(Value(c).(kind := StringT, str := s)) }

  /** Pushing in front one by one reverses the batch. */
  function PushFront(c: Cell, values: seq<Bytes>): Cell {
    Some(Value(c).(kind := ListT, list := Ranges.Reverse(values) + Value(c).list))
  }

  function PushBack(c: Cell, values: seq<Bytes>): Cell {
    Some(Value(c).(kind := ListT, list := Value(c).list + values))
  }

  predicate CanPop(c: Cell) { Is(c, ListT) && c.value.list != [] }

  function PopFront(c: Cell): (Cell, Bytes) {
    if CanPop(c) then (Some(c.value.(list := c.value.list[1..])), c.value.list[0]) else (c, [])
  }

  function PopBack(c: Cell): (Cell, Bytes) {
    if CanPop(c) then
      var l := c.value.list;
      (Some(c.value.(list := l[..|l| - 1])), l[|l| - 1])
    else (c, [])
  }

  function ListAt(c: Cell): seq<Bytes> { if Is(c, ListT) then c.value.list else [] }

  function ElementAt(c: Cell, index: int): Bytes {
    var i := Ranges.Resolve(|ListAt(c)|, index);
    if 0 <= i < |ListAt(c)| then ListAt(c)[i] else []
  }

  // ----- Sets and hashes -----

  function ToSet(items: seq<Bytes>): set<Bytes> { set m | m in items }

  predicate NoDuplicates(s: seq<Bytes>) { forall i, j :: 0 <= i < j < |s| ==> s[i] != s[j] }

  /** The elements of a set in the order in which an unordered container was iterated. */
  predicate Listing(order: seq<Bytes>, s: set<Bytes>) { NoDuplicates(order) && ToSet(order) == s }

  lemma {:induction false} ListingSize(order: seq<Bytes>, s: set<Bytes>)
    requires Listing(order, s)
    ensures |order| == |s|
  {
    if order == [] {
      assert s == {};
    } else {
      var n := |order| - 1;
      var front := order[..n];
      assert forall i :: 0 <= i < n ==> front[i] == order[i];
      assert ToSet(front) == s - {order[n]} by {
        assert forall m :: m in order <==> m in front || m == order[n];
      }
      ListingSize(front, s - {order[n]});
    }
  }

  ghost function SomeOrder(s: set<Bytes>): (r: seq<Bytes>)
    ensures Listing(r, s)
  {
    if s == {} then [] else
      var x :| x in s;
      var r := SomeOrder(s - {x});
      assert ToSet([x] + r) == {x} + ToSet(r);
      assert x !in ToSet(r);
      [x] + r
  }

  /** The order in which an unordered container with the given elements is iterated. */
  type Enumeration = f: set<Bytes> -> seq<Bytes> | forall s :: Listing(f(s), s) ghost witness s => SomeOrder(s)

  function AddMembers(c: Cell, items: seq<Bytes>): Cell {
    Some(Value(c).(kind := SetT, members := Value(c).members + ToSet(items)))
  }

  function RemoveMembers(c: Cell, items: seq<Bytes>): Cell {
    if Is(c, SetT) then Some(c.value.(members := c.value.members - ToSet(items))) else c
  }

  /** The visible set at a key: empty when the key is missing or of another type. */
  function SetAt(c: Cell): set<Bytes> { if Is(c, SetT) then c.value.members else {} }

  /** The members common to all listed keys. */
  function Intersection(db: Store, keys: seq<Bytes>): set<Bytes>
    requires keys != []
  {
    set m | m in SetAt(Look(db, keys[0])) && forall i :: 0 <= i < |keys| ==> m in SetAt(Look(db, keys[i]))
  }

  function Union(db: Store, keys: seq<Bytes>): set<Bytes> {
    set k, m | k in keys && m in SetAt(Look(db, k)) :: m
  }

  /** The elements of a sequence that a set holds, in order. */
  function Kept(items: seq<Bytes>, s: set<Bytes>): seq<Bytes> {
    if items == [] then [] else (if items[0] in s then [items[0]] else []) + Kept(items[1..], s)
  }

  function WriteField(c: Cell, field: Bytes, value: Bytes): Cell {
    Some(Value(c).(kind := HashT, hash := Value(c).hash[field := value]))
  }

  function WriteFields(c: Cell, pairs: seq<(Bytes, Bytes)>): Cell
    decreases |pairs|
  {
    if pairs == [] then c else WriteFields(WriteField(c, pairs[0].0, pairs[0].1), pairs[1..])
  }

  function HashAt(c: Cell): map<Bytes, Bytes> { if Is(c, HashT) then c.value.hash else map[] }

  /** The values of a hash, in the order of its fields. */
  function ValuesOf(h: map<Bytes, Bytes>, fields: seq<Bytes>): seq<Bytes> {
    if fields == [] then []
    else (if fields[0] in h then [h[fields[0]]] else []) + ValuesOf(h, fields[1..])
  }

  /** Field, value, field, value. */
  function FieldsAndValues(h: map<Bytes, Bytes>, fields: seq<Bytes>): seq<Bytes> {
    if fields == [] then []
    else (if fields[0] in h then [fields[0], h[fields[0]]] else []) + FieldsAndValues(h, fields[1..])
  }

  function DropFields(c: Cell, fields: seq<Bytes>): Cell {
    if Is(c, HashT) then Some(c.value.(hash := c.value.hash - ToSet(fields))) else c
  }

  // ----- Sorted sets -----

  function AddScored(c: Cell, entries: seq<Entry>): Cell {
    Some(Value(c).(kind := ZSetT, zset := AddAll(Value(c).zset, entries)))
  }

  /** The score of a member, 0 when it is missing. */
  function ScoreOf(c: Cell, member: Bytes): Score {
    if member in ScoredAt(c).scores then ScoredAt(c).scores[member] else 0
  }

  function RemoveScored(c: Cell, items: seq<Bytes>): Cell {
    if Is(c, ZSetT) then Some(c.value.(zset := RemoveAll(c.value.zset, items))) else c
  }

  function Names(z: seq<Entry>): (r: seq<Bytes>)
    ensures |r| == |z|
  {
    seq(|z|, i requires 0 <= i < |z| => z[i].1)
  }

  function ScoredAt(c: Cell): Index { if Is(c, ZSetT) then c.value.zset else EMPTY_INDEX }

  /** `zrank`; -1 when the member is missing. */
  function RankOf(c: Cell, m: Bytes): int {
    var ix := ScoredAt(c);
    if m in ix.scores then Ranges.RankFrom(ix.byScore, Order(ix.scores[m]), m, 0) else -1
  }

  /** For a member at position `p` of the full range, `zrank` is at most `p`, and equal to it
      exactly when every entry tied with it and placed earlier is lexicographically smaller. */
  lemma RankAgainstRange(c: Cell, p: nat)
    requires Is(c, ZSetT) && CellAgrees(c) && p < |c.value.zset.byScore| < TWO_31
    ensures var z := c.value.zset.byScore;
            var all, m := Ranges.Slice(Names(z), 0, -1), z[p].1;
            && all == Names(z) && all[p] == m
            && 0 <= RankOf(c, m) <= p
            && (RankOf(c, m) == p
                <==> forall q :: 0 <= q < p && Order(z[q].0) == Order(z[p].0) ==> Ranges.Less(z[q].1, m))
  {
    hide Ranges.Slice, Ranges.RankFrom, Ranges.Less;
    var z := c.value.zset.byScore;
    Ranges.SliceIsClamp(Names(z), 0, -1);
    assert Names(z)[0..|z|] == Names(z);
    Ranges.RankAgainstPosition(z, p);
  }

  // ----- What clients can see -----

  /** The value stripped of the counter and of the storage of other types. */
  function Shown(v: RedisValue): RedisValue {
    var plain := FRESH.(kind := v.kind, expiry := v.expiry);
    match v.kind
    case StringT => plain.(str := v.str)
    case ListT => plain.(list := v.list)
    case SetT => plain.(members := v.members)
    case HashT => plain.(hash := v.hash)
    case ZSetT => plain.(zset := v.zset)
  }

  function View(c: Cell): Cell {
    if c.Some? then Some(Shown(c.value)) else None
  }

  // ----- Invariant -----

  ghost predicate CellAgrees(c: Cell) { Agree(Value(c).zset) }

  /** The indexes of every value agree, whatever its current type. */
  ghost predicate AllAgree(db: Store) {
    forall k :: k in db ==> CellAgrees(Some(db[k]))
  }

  lemma LookAgrees(db: Store, key: Bytes)
    requires AllAgree(db)
    ensures CellAgrees(Look(db, key))
  {
  }

  lemma PutAgrees(db: Store, key: Bytes, c: Cell)
    requires AllAgree(db) && CellAgrees(c)
    ensures AllAgree(Put(db, key, c))
  {
    hide Agree;
  }

  lemma LookPut(db: Store, key: Bytes, c: Cell, k: Bytes)
    ensures Look(Put(db, key, c), k) == if k == key then c else Look(db, k)
  {
  }

  lemma PutTwice(db: Store, key: Bytes, c: Cell, d: Cell)
    ensures Put(Put(db, key, c), key, d) == Put(db, key, d)
  {
  }

  /** The laws of a map from keys to cells, at one key. */
  lemma PutLaws(db: Store, key: Bytes)
    ensures Put(db, key, Look(db, key)) == db
    ensures forall c: Cell {:trigger Look(Put(db, key, c), key)} :: Look(Put(db, key, c), key) == c
    ensures forall c: Cell, d: Cell {:trigger Put(Put(db, key, c), key, d)} :: Put(Put(db, key, c), key, d) == Put(db, key, d)
    ensures forall c: Cell {:trigger Put(db, key, c)} :: key in Put(db, key, c) <==> c.Some?
    ensures forall c: Cell {:trigger Put(db, key, c)} :: c.Some? ==> Put(db, key, c)[key] == c.value
  {
    forall c: Cell, d: Cell
      ensures Put(Put(db, key, c), key, d) == Put(db, key, d)
    {
      PutTwice(db, key, c, d);
    }
  }

  lemma PutSame(db: Store, key: Bytes)
    ensures Put(db, key, Look(db, key)) == db
  {
  }

  lemma SameLooks(x: Store, y: Store)
    requires forall k :: Look(x, k) == Look(y, k)
    ensures x == y
  {
    forall k: Bytes
      ensures k in x <==> k in y
      ensures k in x ==> x[k] == y[k]
    {
      assert Look(x, k) == Look(y, k);
    }
  }
}
