/** The data commands, as functions from the store to the new store and the reply, and the
    requests a client can make. A request is modelled after its arguments were checked: an
    empty argument list stands for too few arguments, `badTail` for a list whose next element
    was not a bulk string, and `Refused` for every other request that is turned down before
    anything is touched. */
module Commands {
  import opened Octets
  import opened SortedSets
  import opened Keyspace
  import opened Resp
  import opened ScoreFormat
  import Ranges

  datatype Op =
    | Set(key: Bytes, value: Bytes)
    | Get(key: Bytes)
    | Del(key: Bytes)
    | Exists(key: Bytes)
    | Type(key: Bytes)
    | LPush(key: Bytes, items: seq<Bytes>)
    | RPush(key: Bytes, items: seq<Bytes>)
    | LPop(key: Bytes)
    | RPop(key: Bytes)
    | LLen(key: Bytes)
    | LRange(key: Bytes, start: int, end: int)
    | LIndex(key: Bytes, index: int)
    | SAdd(key: Bytes, items: seq<Bytes>)
    | SRem(key: Bytes, items: seq<Bytes>)
    | SIsMember(key: Bytes, item: Bytes)
    | SCard(key: Bytes)
    | HSet(key: Bytes, pairs: seq<(Bytes, Bytes)>, badTail: bool)
    | HGet(key: Bytes, item: Bytes)
    | HDel(key: Bytes, items: seq<Bytes>)
    | HLen(key: Bytes)
    | ZAdd(key: Bytes, entries: seq<Entry>)
    | ZRem(key: Bytes, items: seq<Bytes>)
    | ZCard(key: Bytes)
    | ZRange(key: Bytes, start: int, end: int)
    | ZRevRange(key: Bytes, start: int, end: int)
    | ZScore(key: Bytes, item: Bytes)
    | ZRank(key: Bytes, item: Bytes)
    | Expire(key: Bytes, amount: int)
    | PExpire(key: Bytes, amount: int)
    | Ttl(key: Bytes)
    | PTtl(key: Bytes)
    | Persist(key: Bytes)

  /** The transaction dispatcher does not know the expiry commands. */
  predicate Transactable(op: Op) {
    !(op.Expire? || op.PExpire? || op.Ttl? || op.PTtl? || op.Persist?)
  }

  /** The new cell of the command's key, and the reply. No command touches another key. */
  datatype Done = Done(cell: Cell, reply: Wire)

  /** The names of the commands whose handlers check arguments: first those the transaction
      dispatcher knows, then those only the immediate dispatcher knows. */
  datatype CommandName =
    | SET | GET | DEL | EXISTS | KEYS | SAVE | TYPE | LPUSH | RPUSH | LPOP | RPOP | LLEN | LRANGE | LINDEX
    | SADD | SREM | SISMEMBER | SCARD | SMEMBERS | SINTER | SUNION | SDIFF | HSET | HGET | HDEL | HLEN
    | HKEYS | HVALS | HGETALL | ZADD | ZREM | ZCARD | ZRANGE | ZREVRANGE | ZSCORE | ZRANK
    | EXPIRE | PEXPIRE | TTL | PTTL | PERSIST | SUBSCRIBE | PUBLISH | UNSUBSCRIBE

  predicate KnownToTransactions(name: CommandName) {
    name !in {EXPIRE, PEXPIRE, TTL, PTTL, PERSIST, SUBSCRIBE, PUBLISH, UNSUBSCRIBE}
  }

  /** What a handler can find wrong with its arguments. */
  datatype ArgumentFault =
    | NoArguments
    | ExactlyOne
    | ExactlyTwo
    | ExactlyThree
    | AtLeastOne
    | AtLeastTwo
    | AtLeastThree
    | OneChannel
    | FieldPairs
    | ScorePairs
    | ArgumentNotBulk
    | ArgumentsNotBulk
    | KeyNotBulk
    | KeysNotBulk
    | ValuesNotBulk
    | MembersNotBulk
    | FieldsNotBulk
    | ChannelsNotBulk
    | FieldAndValueNotBulk
    | KeyAndFieldNotBulk
    | KeyAndMemberNotBulk
    | ScoreAndMemberNotBulk
    | EndsNotIntegers
    | IndexNotInteger
    | ScoreNotNumber
    | SecondsNotInteger
    | MillisecondsNotInteger
    | NotImplemented

  /** Every error line of the handlers modelled here. */
  datatype Complaint =
    | Rejected(name: CommandName, fault: ArgumentFault)
    | UnknownCommand
    | BadFormat
    | NameNotBulk
    | MultiArity
    | MultiNested
    | ExecArity
    | ExecWithoutMulti
    | DiscardArity
    | DiscardWithoutMulti
    | WatchArity
    | WatchInsideMulti
    | WatchNotBulk
    | UnwatchArity
    | ExecAborted
    | SaveFailed

  function NameText(name: CommandName): string {
    match name
    case SET => "SET"
    case GET => "GET"
    case DEL => "DEL"
    case EXISTS => "EXISTS"
    case KEYS => "KEYS"
    case SAVE => "SAVE"
    case TYPE => "TYPE"
    case LPUSH => "LPUSH"
    case RPUSH => "RPUSH"
    case LPOP => "LPOP"
    case RPOP => "RPOP"
    case LLEN => "LLEN"
    case LRANGE => "LRANGE"
    case LINDEX => "LINDEX"
    case SADD => "SADD"
    case SREM => "SREM"
    case SISMEMBER => "SISMEMBER"
    case SCARD => "SCARD"
    case SMEMBERS => "SMEMBERS"
    case SINTER => "SINTER"
    case SUNION => "SUNION"
    case SDIFF => "SDIFF"
    case HSET => "HSET"
    case HGET => "HGET"
    case HDEL => "HDEL"
    case HLEN => "HLEN"
    case HKEYS => "HKEYS"
    case HVALS => "HVALS"
    case HGETALL => "HGETALL"
    case ZADD => "ZADD"
    case ZREM => "ZREM"
    case ZCARD => "ZCARD"
    case ZRANGE => "ZRANGE"
    case ZREVRANGE => "ZREVRANGE"
    case ZSCORE => "ZSCORE"
    case ZRANK => "ZRANK"
    case EXPIRE => "EXPIRE"
    case PEXPIRE => "PEXPIRE"
    case TTL => "TTL"
    case PTTL => "PTTL"
    case PERSIST => "PERSIST"
    case SUBSCRIBE => "SUBSCRIBE"
    case PUBLISH => "PUBLISH"
    case UNSUBSCRIBE => "UNSUBSCRIBE"
  }

  function FaultText(fault: ArgumentFault): string {
    match fault
    case NoArguments => "requires no arguments"
    case ExactlyOne => "requires exactly 1 argument"
    case ExactlyTwo => "requires exactly 2 arguments"
    case ExactlyThree => "requires exactly 3 arguments"
    case AtLeastOne => "requires at least 1 argument"
    case AtLeastTwo => "requires at least 2 arguments"
    case AtLeastThree => "requires at least 3 arguments"
    case OneChannel => "requires at least 1 channel"
    case FieldPairs => "requires an even number of arguments (at least key, field, value)"
    case ScorePairs => "requires an even number of arguments (at least key, score, member)"
    case ArgumentNotBulk => "argument must be a bulk string"
    case ArgumentsNotBulk => "arguments must be bulk strings"
    case KeyNotBulk => "key must be a bulk string"
    case KeysNotBulk => "keys must be bulk strings"
    case ValuesNotBulk => "values must be bulk strings"
    case MembersNotBulk => "members must be bulk strings"
    case FieldsNotBulk => "fields must be bulk strings"
    case ChannelsNotBulk => "channels must be bulk strings"
    case FieldAndValueNotBulk => "field and value must be bulk strings"
    case KeyAndFieldNotBulk => "key and field must be bulk strings"
    case KeyAndMemberNotBulk => "key and member must be bulk strings"
    case ScoreAndMemberNotBulk => "score and member must be bulk strings"
    case EndsNotIntegers => "start and end must be integers"
    case IndexNotInteger => "index must be an integer"
    case ScoreNotNumber => "score must be a valid number"
    case SecondsNotInteger => "seconds must be an integer"
    case MillisecondsNotInteger => "milliseconds must be an integer"
    case NotImplemented => "from all channels not implemented"
  }

  function Wording(m: Complaint): string {
    match m
    case Rejected(name, fault) => "ERR " + NameText(name) + " " + FaultText(fault)
    case UnknownCommand => "ERR Unknown command"
    case BadFormat => "ERR Invalid command format"
    case NameNotBulk => "ERR Command name must be a bulk string"
    case MultiArity => "ERR MULTI requires no arguments"
    case MultiNested => "ERR MULTI cannot be nested"
    case ExecArity => "ERR EXEC requires no arguments"
    case ExecWithoutMulti => "ERR EXEC without MULTI"
    case DiscardArity => "ERR DISCARD requires no arguments"
    case DiscardWithoutMulti => "ERR DISCARD without MULTI"
    case WatchArity => "ERR WATCH requires at least 1 argument"
    case WatchInsideMulti => "ERR WATCH cannot be used inside MULTI"
    case WatchNotBulk => "ERR WATCH keys must be bulk strings"
    case UnwatchArity => "ERR UNWATCH requires no arguments"
    case ExecAborted => "EXECABORT Transaction discarded because of watched key modification"
    case SaveFailed => "ERR Failed to save database"
  }

  function Err(m: Complaint): Wire { ErrorLine(Text(Wording(m))) }

  function OK(): Wire { Line(Text("OK")) }

  function Flag(b: bool): Wire { Number(if b then 1 else 0) }

  function Bulks(items: seq<Bytes>): Wire {
    Multi(seq(|items|, i requires 0 <= i < |items| => Bulk(items[i])))
  }

  function TypeName(c: Cell): Bytes {
    if c.None? then Text("none") else
    match c.value.kind
    case StringT => Text("string")
    case ListT => Text("list")
    case SetT => Text("set")
    case HashT => Text("hash")
    case ZSetT => Text("zset")
  }

  /** Every write handler bumps the key's counter when it reports a change. */
  function BumpIf(changed: bool, c: Cell): Cell { if changed then Bump(c) else c }

  /** LPOP and RPOP: an empty result is looked up again, which may erase an expired key; the
      counter is bumped even when nothing was popped. */
  function FinishPop(popped: (Cell, Bytes), now: int): Done {
    var d := if popped.1 == [] then Purge(popped.0, now) else popped.0;
    if popped.1 == [] && d.None? then Done(d, NullBulk) else Done(Bump(d), Bulk(popped.1))
  }

  /** LINDEX and HGET: an empty result is looked up again, which may erase an expired key. */
  function FinishLookup(c: Cell, found: Bytes, now: int): Done {
    if found == [] then Done(Purge(c, now), NullBulk) else Done(c, Bulk(found))
  }

  function ApplyHSet(c: Cell, pairs: seq<(Bytes, Bytes)>, badTail: bool): Done {
    var d := WriteFields(c, pairs);
    if badTail then Done(d, Err(Rejected(HSET, FieldAndValueNotBulk)))
    else if pairs == [] then Done(c, Err(Rejected(HSET, FieldPairs)))
    else Done(Bump(d), Number(|pairs|))
  }

  function ApplyExpiry(c: Cell, now: int, at: int): Done {
    var d := SetExpiry(c, now, at);
    Done(BumpIf(d.Some?, d), Flag(d.Some?))
  }

  function ApplyString(c: Cell, op: Op, now: int): Done
    requires FamilyOf(op).StringFamily?
  {
    var d := Purge(c, now);
    match op
    case Set(_, v) => Done(Bump(SetString(c, v)), OK())
    case Get(_) => Done(d, if Is(d, StringT) then Bulk(d.value.str) else NullBulk)
    case Del(_) => Done(None, Flag(d.Some?))
    case Exists(_) => Done(d, Flag(d.Some?))
    case Type(_) => Done(d, Line(TypeName(d)))
  }

  function ApplyList(c: Cell, op: Op, now: int): Done
    requires FamilyOf(op).ListFamily?
  {
    match op
    case LPush(_, vs) =>
      if vs == [] then Done(c, Err(Rejected(LPUSH, AtLeastTwo)))
      else var d := PushFront(c, vs); Done(Bump(d), Number(|d.value.list|))
    case RPush(_, vs) =>
      if vs == [] then Done(c, Err(Rejected(RPUSH, AtLeastTwo)))
      else var d := PushBack(c, vs); Done(Bump(d), Number(|d.value.list|))
    case LPop(_) => FinishPop(PopFront(c), now)
    case RPop(_) => FinishPop(PopBack(c), now)
    case LLen(_) => var d := PurgeIf(c, ListT, now); Done(d, Number(|ListAt(d)|))
    case LRange(_, i, j) => Done(c, Bulks(Ranges.Slice(ListAt(c), i, j)))
    case LIndex(_, i) => FinishLookup(c, ElementAt(c, i), now)
  }

  function ApplySet(c: Cell, op: Op): Done
    requires FamilyOf(op).SetFamily?
  {
    match op
    case SAdd(_, ms) =>
      if ms == [] then Done(c, Err(Rejected(SADD, AtLeastTwo)))
      else
        var d := AddMembers(c, ms);
        var added := |d.value.members| - |Value(c).members|;
        Done(BumpIf(added > 0, d), Number(added))
    case SRem(_, ms) =>
      if ms == [] then Done(c, Err(Rejected(SREM, AtLeastTwo)))
      else
        var d := RemoveMembers(c, ms);
        var removed := |SetAt(c)| - |SetAt(d)|;
        Done(BumpIf(removed > 0, d), Number(removed))
    case SIsMember(_, m) => Done(c, Flag(m in SetAt(c)))
    case SCard(_) => Done(c, Number(|SetAt(c)|))
  }

  function ApplyHash(c: Cell, op: Op, now: int): Done
    requires FamilyOf(op).HashFamily?
  {
    match op
    case HSet(_, pairs, badTail) => ApplyHSet(c, pairs, badTail)
    case HGet(_, f) => FinishLookup(c, if f in HashAt(c) then HashAt(c)[f] else [], now)
    case HDel(_, fs) =>
      if fs == [] then Done(c, Err(Rejected(HDEL, AtLeastTwo)))
      else
        var d := DropFields(c, fs);
        var deleted := |HashAt(d)| < |HashAt(c)|;
        Done(BumpIf(deleted, d), Flag(deleted))
    case HLen(_) => Done(c, Number(|HashAt(c)|))
  }

  predicate AnyScored(c: Cell, ms: seq<Bytes>) { exists m :: m in ms && m in ScoredAt(c).scores }

  /** ZSCORE: a score of zero is looked up again, which may erase an expired key; a missing member
      of a sorted set that has others reads as 0. */
  function ApplyZScore(c: Cell, member: Bytes, now: int): Done {
    var score := ScoreOf(c, member);
    if Order(score) != 0 then Done(c, Bulk(ScoreText(score)))
    else
      var d := Purge(c, now);
      Done(d, if |ScoredAt(d).scores| == 0 then NullBulk else Bulk(ScoreText(score)))
  }

  function ApplyScored(c: Cell, op: Op, now: int): Done
    requires FamilyOf(op).ScoredFamily?
  {
    match op
    case ZAdd(_, es) =>
      if es == [] then Done(c, Err(Rejected(ZADD, ScorePairs)))
      else Done(Bump(AddScored(c, es)), Flag(true))
    case ZRem(_, ms) =>
      if ms == [] then Done(c, Err(Rejected(ZREM, AtLeastTwo)))
      else Done(BumpIf(AnyScored(c, ms), RemoveScored(c, ms)), Flag(AnyScored(c, ms)))
    case ZCard(_) => Done(c, Number(|ScoredAt(c).scores|))
    case ZRange(_, i, j) => Done(c, Bulks(Ranges.Slice(Names(ScoredAt(c).byScore), i, j)))
    case ZRevRange(_, i, j) => Done(c, Bulks(Ranges.Slice(Ranges.Reverse(Names(ScoredAt(c).byScore)), i, j)))
    case ZScore(_, m) => ApplyZScore(c, m, now)
    case ZRank(_, m) => Done(c, if RankOf(c, m) < 0 then NullBulk else Number(RankOf(c, m)))
  }

  function ApplyTime(c: Cell, op: Op, now: int): Done
    requires FamilyOf(op).TimeFamily?
  {
    var d := Purge(c, now);
    match op
    case Expire(_, n) => ApplyExpiry(c, now, now + n * 1000)
    case PExpire(_, n) => ApplyExpiry(c, now, now + n)
    case Persist(_) => ApplyExpiry(c, now, 0)
    case Ttl(_) => Done(d, Number(if d.Some? then Seconds(d.value, now) else -2))
    case PTtl(_) => Done(d, Number(if d.Some? then Milliseconds(d.value, now) else -2))
  }

  datatype Family = StringFamily | ListFamily | SetFamily | HashFamily | ScoredFamily | TimeFamily

  function FamilyOf(op: Op): (f: Family)
    ensures f.TimeFamily? <==> !Transactable(op)
  {
    match op
    case Set(_, _) => StringFamily
    case Get(_) => StringFamily
    case Del(_) => StringFamily
    case Exists(_) => StringFamily
    case Type(_) => StringFamily
    case LPush(_, _) => ListFamily
    case RPush(_, _) => ListFamily
    case LPop(_) => ListFamily
    case RPop(_) => ListFamily
    case LLen(_) => ListFamily
    case LRange(_, _, _) => ListFamily
    case LIndex(_, _) => ListFamily
    case SAdd(_, _) => SetFamily
    case SRem(_, _) => SetFamily
    case SIsMember(_, _) => SetFamily
    case SCard(_) => SetFamily
    case HSet(_, _, _) => HashFamily
    case HGet(_, _) => HashFamily
    case HDel(_, _) => HashFamily
    case HLen(_) => HashFamily
    case ZAdd(_, _) => ScoredFamily
    case ZRem(_, _) => ScoredFamily
    case ZCard(_) => ScoredFamily
    case ZRange(_, _, _) => ScoredFamily
    case ZRevRange(_, _, _) => ScoredFamily
    case ZScore(_, _) => ScoredFamily
    case ZRank(_, _) => ScoredFamily
    case _ => TimeFamily
  }

  /** One data command on the cell of its key. */
  function ApplyCell(c: Cell, op: Op, now: int): Done {
    match FamilyOf(op)
    case StringFamily => ApplyString(c, op, now)
    case ListFamily => ApplyList(c, op, now)
    case SetFamily => ApplySet(c, op)
    case HashFamily => ApplyHash(c, op, now)
    case ScoredFamily => ApplyScored(c, op, now)
    case TimeFamily => ApplyTime(c, op, now)
  }

  /** One data command, executed at once. */
  function Apply(db: Store, op: Op, now: int): (Store, Wire) {
    var d := ApplyCell(Look(db, op.key), op, now);
    (Put(db, op.key, d.cell), d.reply)
  }

  // ----- Commands that only look -----

  datatype Query =
    | Keys
    | Save
    | SMembers(key: Bytes)
    | SInter(keys: seq<Bytes>)
    | SUnion(keys: seq<Bytes>)
    | SDiff(keys: seq<Bytes>)
    | HKeys(key: Bytes)
    | HVals(key: Bytes)
    | HGetAll(key: Bytes)

  /** What the environment contributes to one command: the clock, the order in which an unordered
      container is iterated, and whether a snapshot file could be written. */
  datatype Moment = Moment(now: int, order: Enumeration, saved: bool)

  function Answer(db: Store, q: Query, m: Moment): Wire {
    match q
    case Keys => Bulks(m.order(db.Keys))
    case Save => if m.saved then OK() else Err(SaveFailed)
    case SMembers(k) => Bulks(m.order(SetAt(Look(db, k))))
    case SInter(ks) =>
      if ks == [] then Err(Rejected(SINTER, AtLeastOne))
      else Bulks(Kept(m.order(SetAt(Look(db, ks[0]))), Intersection(db, ks)))
    case SUnion(ks) =>
      if ks == [] then Err(Rejected(SUNION, AtLeastOne)) else Bulks(m.order(Union(db, ks)))
    case SDiff(ks) =>
      if ks == [] then Err(Rejected(SDIFF, AtLeastOne))
      else Bulks(m.order(SetAt(Look(db, ks[0])) - Union(db, ks[1..])))
    case HKeys(k) => Bulks(m.order(HashAt(Look(db, k)).Keys))
    case HVals(k) => var h := HashAt(Look(db, k)); Bulks(ValuesOf(h, m.order(h.Keys)))
    case HGetAll(k) => var h := HashAt(Look(db, k)); Bulks(FieldsAndValues(h, m.order(h.Keys)))
  }

  // ----- Helpers about the fields of one value -----

  /** The hash after a batch of HSET pairs. */
  function HashAfter(h: map<Bytes, Bytes>, pairs: seq<(Bytes, Bytes)>): map<Bytes, Bytes>
    decreases |pairs|
  {
    if pairs == [] then h else HashAfter(h[pairs[0].0 := pairs[0].1], pairs[1..])
  }

  /** HSET rewrites the hash and the type and nothing else of the value. */
  lemma {:induction false} WriteFieldsValue(c: Cell, pairs: seq<(Bytes, Bytes)>)
    requires pairs != []
    ensures WriteFields(c, pairs) == Some(Value(c).(kind := HashT, hash := HashAfter(Value(c).hash, pairs)))
    decreases |pairs|
  {
    var d := WriteField(c, pairs[0].0, pairs[0].1);
    if |pairs| == 1 {
      assert pairs[1..] == [];
    } else {
      WriteFieldsValue(d, pairs[1..]);
    }
  }

  lemma NoFieldsWritten(c: Cell)
    ensures WriteFields(c, []) == c
  {
  }

  // ----- Index agreement -----

  /** Index agreement survives every command, under any change of type. */
  lemma ApplyKeepsAgreement(db: Store, op: Op, now: int)
    requires AllAgree(db)
    ensures AllAgree(Apply(db, op, now).0)
  {
    hide *;
    LookAgrees(db, op.key);
    CellKeepsAgreement(Look(db, op.key), op, now);
    PutAgrees(db, op.key, ApplyCell(Look(db, op.key), op, now).cell);
    ApplyUnfolds(db, op, now);
  }

  lemma ApplyUnfolds(db: Store, op: Op, now: int)
    ensures Apply(db, op, now)
         == (Put(db, op.key, ApplyCell(Look(db, op.key), op, now).cell), ApplyCell(Look(db, op.key), op, now).reply)
  {
    hide ApplyCell;
  }

  lemma CellKeepsAgreement(c: Cell, op: Op, now: int)
    requires CellAgrees(c)
    ensures CellAgrees(ApplyCell(c, op, now).cell)
  {
    hide Agree, AddAll, RemoveAll, Err, OK, TypeName;
    assert Agree(EMPTY_INDEX) by { EmptyAgrees(); }
    if op.ZAdd? {
      AddAllAgrees(Value(c).zset, op.entries);
    } else if op.ZRem? {
      RemoveAllAgrees(Value(c).zset, op.items);
    } else {
      OnlyScoredWritesIndex(c, op, now);
    }
  }

  lemma EmptyAgrees()
    ensures Agree(EMPTY_INDEX)
  {
  }

  predicate SameIndex(c: Cell, d: Cell) { d.Some? ==> d.value.zset == Value(c).zset }

  lemma StringKeepsIndex(c: Cell, op: Op, now: int)
    requires FamilyOf(op).StringFamily?
    ensures SameIndex(c, ApplyString(c, op, now).cell)
  {
    hide Err, OK, TypeName;
  }

  lemma ListKeepsIndex(c: Cell, op: Op, now: int)
    requires FamilyOf(op).ListFamily?
    ensures SameIndex(c, ApplyList(c, op, now).cell)
  {
    hide Err, OK, TypeName;
  }

  lemma SetKeepsIndex(c: Cell, op: Op)
    requires FamilyOf(op).SetFamily?
    ensures SameIndex(c, ApplySet(c, op).cell)
  {
    hide Err, OK, TypeName;
  }

  lemma HashKeepsIndex(c: Cell, op: Op, now: int)
    requires FamilyOf(op).HashFamily?
    ensures SameIndex(c, ApplyHash(c, op, now).cell)
  {
    hide Err, OK, TypeName;
    if op.HSet? && op.pairs != [] {
      WriteFieldsValue(c, op.pairs);
    }
  }

  lemma TimeKeepsIndex(c: Cell, op: Op, now: int)
    requires FamilyOf(op).TimeFamily?
    ensures SameIndex(c, ApplyTime(c, op, now).cell)
  {
    hide Err, OK, TypeName;
  }

  /** Commands of other types leave the sorted set of the value alone. */
  lemma OnlyScoredWritesIndex(c: Cell, op: Op, now: int)
    requires !op.ZAdd? && !op.ZRem?
    ensures SameIndex(c, ApplyCell(c, op, now).cell)
  {
    hide ApplyString, ApplyList, ApplySet, ApplyHash, ApplyTime;
    match FamilyOf(op)
    case StringFamily => StringKeepsIndex(c, op, now);
    case ListFamily => ListKeepsIndex(c, op, now);
    case SetFamily => SetKeepsIndex(c, op);
    case HashFamily => HashKeepsIndex(c, op, now);
    case ScoredFamily =>
    case TimeFamily => TimeKeepsIndex(c, op, now);
  }
}
