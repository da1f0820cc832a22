/** The command processor of one client. Each method is proved to take the step that the
    functions of `Commands` and `Transactions` describe. */
module CommandProcessing {
  import opened Octets
  import opened SortedSets
  import opened Keyspace
  import opened Commands
  import opened Databases
  import opened Transactions
  import opened ScoreFormat
  import R = Resp
  import Ranges

  class CommandProcessor {
    const db: Database
    var transactionQueue: seq<Request>
    var inTransaction: bool
    var watchedKeys: map<Bytes, nat>

    ghost function State(): Client
      reads this
    {
      Client(inTransaction, transactionQueue, watchedKeys)
    }

    constructor (database: Database)
      ensures db == database && State() == IDLE
    {
      db := database;
      transactionQueue := [];
      inTransaction := false;
      watchedKeys := map[];
    }

    // ----- Data commands -----

    method RunString(op: Op, now: int) returns (reply: R.Wire)
      requires FamilyOf(op).StringFamily?
      modifies db
      ensures var r := ApplyString(old(db.At(op.key)), op, now);
              db.data == Put(old(db.data), op.key, r.cell) && reply == r.reply
    {
      hide Put, Look, OK, TypeName;
      var k := op.key;
      PutLaws(db.data, k);
      match op {
        case Set(_, v) =>
          db.Set(k, v);
          db.IncrementModCount(k);
          reply := OK();
        case Get(_) =>
          var present := db.Exists(k, now);
          if !present {
            return R.NullBulk;
          }
          var kind := db.Type(k, now);
          if kind != StringT {
            return R.NullBulk;
          }
          var s := db.Get(k, now);
          reply := R.Bulk(s);
        case Del(_) =>
          var present := db.Exists(k, now);
          if present {
            db.IncrementModCount(k);
          }
          var deleted := db.Del(k);
          reply := Flag(deleted);
        case Exists(_) =>
          var present := db.Exists(k, now);
          reply := Flag(present);
        case Type(_) =>
          TypeTextIsName(Purge(Look(db.data, k), now));
          var present := db.Exists(k, now);
          if !present {
            return R.Line(Text("none"));
          }
          var kind := db.Type(k, now);
          reply := R.Line(TypeText(kind));
      }
    }

    method RunList(op: Op, now: int) returns (reply: R.Wire)
      requires FamilyOf(op).ListFamily?
      modifies db
      ensures var r := ApplyList(old(db.At(op.key)), op, now);
              db.data == Put(old(db.data), op.key, r.cell) && reply == r.reply
    {
      hide Put, Look, Err, Ranges.Slice, Ranges.Reverse, Ranges.Resolve;
      var k := op.key;
      PutLaws(db.data, k);
      match op {
        case LPush(_, vs) =>
          if vs == [] {
            return Err(Rejected(LPUSH, AtLeastTwo));
          }
          var n := db.LPush(k, vs);
          db.IncrementModCount(k);
          reply := R.Number(n);
        case RPush(_, vs) =>
          if vs == [] {
            return Err(Rejected(RPUSH, AtLeastTwo));
          }
          var n := db.RPush(k, vs);
          db.IncrementModCount(k);
          reply := R.Number(n);
        case LPop(_) =>
          var s := db.LPop(k);
          reply := FinishPop(k, s, now);
        case RPop(_) =>
          var s := db.RPop(k);
          reply := FinishPop(k, s, now);
        case LLen(_) =>
          var n := db.LLen(k, now);
          reply := R.Number(n);
        case LRange(_, i, j) =>
          reply := Bulks(Ranges.Slice(ListAt(Look(db.data, k)), i, j));
        case LIndex(_, i) =>
          reply := FinishLookup(k, ElementAt(Look(db.data, k), i), now);
      }
    }

    method FinishPop(key: Bytes, s: Bytes, now: int) returns (reply: R.Wire)
      modifies db
      ensures var r := Commands.FinishPop((old(db.At(key)), s), now);
              db.data == Put(old(db.data), key, r.cell) && reply == r.reply
    {
      hide Put, Look;
      PutLaws(db.data, key);
      if s == [] {
        var present := db.Exists(key, now);
        if !present {
          return R.NullBulk;
        }
      }
      db.IncrementModCount(key);
      reply := R.Bulk(s);
    }

    method FinishLookup(key: Bytes, s: Bytes, now: int) returns (reply: R.Wire)
      modifies db
      ensures var r := Commands.FinishLookup(old(db.At(key)), s, now);
              db.data == Put(old(db.data), key, r.cell) && reply == r.reply
    {
      hide Put, Look;
      PutLaws(db.data, key);
      if s == [] {
        var _ := db.Exists(key, now);
        return R.NullBulk;
      }
      reply := R.Bulk(s);
    }

    method RunSet(op: Op) returns (reply: R.Wire)
      requires FamilyOf(op).SetFamily?
      modifies db
      ensures var r := ApplySet(old(db.At(op.key)), op);
              db.data == Put(old(db.data), op.key, r.cell) && reply == r.reply
    {
      hide Put, Look, Err, ToSet;
      var k := op.key;
      PutLaws(db.data, k);
      match op {
        case SAdd(_, ms) =>
          if ms == [] {
            return Err(Rejected(SADD, AtLeastTwo));
          }
          var added := db.SAdd(k, ms);
          if added > 0 {
            db.IncrementModCount(k);
          }
          reply := R.Number(added);
        case SRem(_, ms) =>
          if ms == [] {
            return Err(Rejected(SREM, AtLeastTwo));
          }
          var removed := db.SRem(k, ms);
          if removed > 0 {
            db.IncrementModCount(k);
          }
          reply := R.Number(removed);
        case SIsMember(_, m) =>
          reply := Flag(m in SetAt(Look(db.data, k)));
        case SCard(_) =>
          reply := R.Number(|SetAt(Look(db.data, k))|);
      }
    }

    /** HSET writes pair by pair and only then bumps; a malformed tail skips the bump. */
    method RunHSet(key: Bytes, pairs: seq<(Bytes, Bytes)>, badTail: bool) returns (reply: R.Wire)
      modifies db
      ensures var r := ApplyHSet(old(db.At(key)), pairs, badTail);
              db.data == Put(old(db.data), key, r.cell) && reply == r.reply
    {
      hide Put, Look, Err, WriteField;
      ghost var start := db.data;
      ghost var c := Look(start, key);
      PutLaws(start, key);
      if pairs == [] && !badTail {
        return Err(Rejected(HSET, FieldPairs));
      }
      assert pairs[0..] == pairs;
      var fieldsSet := 0;
      while fieldsSet < |pairs|
        invariant fieldsSet <= |pairs| && db.data == Put(start, key, c)
        invariant WriteFields(c, pairs[fieldsSet..]) == WriteFields(Look(start, key), pairs)
      {
        var (field, value) := pairs[fieldsSet];
        assert pairs[fieldsSet..][1..] == pairs[fieldsSet + 1..];
        db.HSet(key, field, value);
        c := WriteField(c, field, value);
        fieldsSet := fieldsSet + 1;
      }
      if badTail {
        return Err(Rejected(HSET, FieldAndValueNotBulk));
      }
      db.IncrementModCount(key);
      reply := R.Number(fieldsSet);
    }

    method RunHash(op: Op, now: int) returns (reply: R.Wire)
      requires FamilyOf(op).HashFamily?
      modifies db
      ensures var r := ApplyHash(old(db.At(op.key)), op, now);
              db.data == Put(old(db.data), op.key, r.cell) && reply == r.reply
    {
      hide Put, Look, Err, ToSet, WriteFields;
      var k := op.key;
      PutLaws(db.data, k);
      match op {
        case HSet(_, pairs, badTail) =>
          reply := RunHSet(k, pairs, badTail);
        case HGet(_, f) =>
          var h := HashAt(Look(db.data, k));
          reply := FinishLookup(k, if f in h then h[f] else [], now);
        case HDel(_, fs) =>
          if fs == [] {
            return Err(Rejected(HDEL, AtLeastTwo));
          }
          var deleted := db.HDel(k, fs);
          if deleted {
            db.IncrementModCount(k);
          }
          reply := Flag(deleted);
        case HLen(_) =>
          reply := R.Number(|HashAt(Look(db.data, k))|);
      }
    }

    method RunScored(op: Op, now: int) returns (reply: R.Wire)
      requires FamilyOf(op).ScoredFamily? && CellAgrees(db.At(op.key))
      modifies db
      ensures var r := ApplyScored(old(db.At(op.key)), op, now);
              db.data == Put(old(db.data), op.key, r.cell) && reply == r.reply
    {
      hide Put, Look, Err, CellAgrees, AddAll, RemoveAll, Ranges.Slice, Ranges.Reverse, Ranges.RankFrom, ApplyZScore;
      var k := op.key;
      PutLaws(db.data, k);
      match op {
        case ZAdd(_, es) =>
          if es == [] {
            return Err(Rejected(ZADD, ScorePairs));
          }
          var added := db.ZAdd(k, es);
          if added {
            db.IncrementModCount(k);
          }
          reply := Flag(added);
        case ZRem(_, ms) =>
          if ms == [] {
            return Err(Rejected(ZREM, AtLeastTwo));
          }
          var removed := db.ZRem(k, ms);
          if removed {
            db.IncrementModCount(k);
          }
          reply := Flag(removed);
        case ZCard(_) =>
          reply := R.Number(|Keyspace.ScoredAt(Look(db.data, k)).scores|);
        case ZRange(_, i, j) =>
          var range := db.ZRange(k, i, j);
          reply := Bulks(range);
        case ZRevRange(_, i, j) =>
          var range := db.ZRevRange(k, i, j);
          reply := Bulks(range);
        case ZScore(_, m) =>
          reply := RunZScore(k, m, now);
        case ZRank(_, m) =>
          var rank := db.ZRank(k, m);
          reply := if rank < 0 then R.NullBulk else R.Number(rank);
      }
    }

    method RunZScore(key: Bytes, member: Bytes, now: int) returns (reply: R.Wire)
      modifies db
      ensures var r := ApplyZScore(old(db.At(key)), member, now);
              db.data == Put(old(db.data), key, r.cell) && reply == r.reply
    {
      hide Put, Look, ScoreText;
      PutLaws(db.data, key);
      var score := db.ZScore(key, member);
      if Order(score) == 0 {
        var present := db.Exists(key, now);
        if !present || |Keyspace.ScoredAt(Look(db.data, key)).scores| == 0 {
          return R.NullBulk;
        }
      }
      reply := R.Bulk(ScoreText(score));
    }

    method RunTime(op: Op, now: int) returns (reply: R.Wire)
      requires FamilyOf(op).TimeFamily?
      modifies db
      ensures var r := ApplyTime(old(db.At(op.key)), op, now);
              db.data == Put(old(db.data), op.key, r.cell) && reply == r.reply
    {
      hide Put, Look;
      var k := op.key;
      PutLaws(db.data, k);
      match op {
        case Expire(_, n) =>
          reply := RunExpiry(k, now, now + n * 1000);
        case PExpire(_, n) =>
          reply := RunExpiry(k, now, now + n);
        case Persist(_) =>
          reply := RunExpiry(k, now, 0);
        case Ttl(_) =>
          var t := db.Ttl(k, now);
          reply := R.Number(t);
        case PTtl(_) =>
          var t := db.PTtl(k, now);
          reply := R.Number(t);
      }
    }

    method RunExpiry(key: Bytes, now: int, at: int) returns (reply: R.Wire)
      modifies db
      ensures var r := ApplyExpiry(old(db.At(key)), now, at);
              db.data == Put(old(db.data), key, r.cell) && reply == r.reply
    {
      hide Put, Look;
      PutLaws(db.data, key);
      var done := db.ExpireAt(key, now, at);
      if done {
        db.IncrementModCount(key);
      }
      reply := Flag(done);
    }

    method Run(op: Op, now: int) returns (reply: R.Wire)
      requires AllAgree(db.data)
      modifies db
      ensures (db.data, reply) == Apply(old(db.data), op, now) && AllAgree(db.data)
    {
      hide ApplyString, ApplyList, ApplySet, ApplyHash, ApplyScored, ApplyTime, AllAgree, CellAgrees, Put, Look;
      LookAgrees(db.data, op.key);
      ApplyKeepsAgreement(db.data, op, now);
      match FamilyOf(op) {
        case StringFamily => reply := RunString(op, now);
        case ListFamily => reply := RunList(op, now);
        case SetFamily => reply := RunSet(op);
        case HashFamily => reply := RunHash(op, now);
        case ScoredFamily => reply := RunScored(op, now);
        case TimeFamily => reply := RunTime(op, now);
      }
    }

    // ----- Commands that only look -----

    method HGetAll(key: Bytes, order: Enumeration) returns (items: seq<Bytes>)
      ensures var h := HashAt(Look(db.data, key));
              items == FieldsAndValues(h, order(h.Keys))
    {
      var h := HashAt(Look(db.data, key));
      var fields := order(h.Keys);
      ListedIn(fields, h.Keys);
      items := [];
      assert fields[0..] == fields;
      var i := 0;
      while i < |fields|
        invariant i <= |fields| && items + FieldsAndValues(h, fields[i..]) == FieldsAndValues(h, fields)
      {
        items := items + [fields[i], h[fields[i]]];
        i := i + 1;
      }
    }

    method RunQuery(q: Query, m: Moment) returns (reply: R.Wire)
      ensures reply == Answer(db.data, q, m)
    {
      hide Look, Err, OK, Bulks, Kept, Intersection, Union, ValuesOf, FieldsAndValues, Listing;
      var items: seq<Bytes> := [];
      match q {
        case Keys => items := db.Keys(m.order);
        case Save =>
          return if m.saved then OK() else Err(SaveFailed);
        case SMembers(k) => items := db.SMembers(k, m.order);
        case SInter(ks) =>
          if ks == [] {
            return Err(Rejected(SINTER, AtLeastOne));
          }
          items := db.SInter(ks, m.order);
        case SUnion(ks) =>
          if ks == [] {
            return Err(Rejected(SUNION, AtLeastOne));
          }
          items := db.SUnion(ks, m.order);
        case SDiff(ks) =>
          if ks == [] {
            return Err(Rejected(SDIFF, AtLeastOne));
          }
          items := db.SDiff(ks, m.order);
        case HKeys(k) => items := db.HKeys(k, m.order);
        case HVals(k) => items := db.HVals(k, m.order);
        case HGetAll(k) => items := HGetAll(k, m.order);
      }
      reply := Bulks(items);
    }

    // ----- Transactions -----

    method HandleMulti(extra: bool) returns (reply: R.Wire)
      modifies this
      ensures Outcome(db.data, State(), reply) == Transactions.HandleMulti(db.data, old(State()), extra)
    {
      hide Err, OK;
      if extra {
        return Err(MultiArity);
      }
      if inTransaction {
        return Err(MultiNested);
      }
      inTransaction := true;
      while transactionQueue != []
        invariant inTransaction && watchedKeys == old(watchedKeys)
        decreases |transactionQueue|
      {
        transactionQueue := transactionQueue[1..];
      }
      reply := OK();
    }

    /** The loop over the watched keys, which stops at the first counter that moved. */
    method AnyWatchedModified() returns (modified: bool)
      ensures modified == Conflict(db.data, watchedKeys)
    {
      hide ModCount, Look;
      var left := watchedKeys.Keys;
      while left != {}
        invariant left <= watchedKeys.Keys
        invariant forall k :: k in watchedKeys && k !in left ==> ModCount(Look(db.data, k)) == watchedKeys[k]
        decreases left
      {
        var k :| k in left;
        var n := db.GetModCount(k);
        if n != watchedKeys[k] {
          return true;
        }
        left := left - {k};
      }
      modified := false;
    }

    /** The dispatcher of queued commands. */
    method ExecuteQueued(req: Request, m: Moment) returns (reply: R.Wire)
      requires AllAgree(db.data)
      modifies db
      ensures (db.data, reply) == RunQueued(old(db.data), req, m) && AllAgree(db.data)
    {
      hide Apply, Answer, AllAgree, Err;
      if req.Run? && Transactable(req.op) {
        reply := Run(req.op, m.now);
      } else if req.Ask? {
        reply := RunQuery(req.query, m);
      } else if req.Refused? && KnownToTransactions(req.name) {
        reply := Err(Rejected(req.name, req.fault));
      } else {
        reply := Err(UnknownCommand);
      }
    }

    method HandleExec(extra: bool, at: Moments) returns (reply: R.Wire)
      requires AllAgree(db.data)
      modifies this, db
      ensures Outcome(db.data, State(), reply) == Transactions.HandleExec(old(db.data), old(State()), extra, at)
      ensures AllAgree(db.data)
    {
      hide Err, RunQueue, Conflict, AllAgree;
      if extra {
        return Err(ExecArity);
      }
      if !inTransaction {
        return Err(ExecWithoutMulti);
      }
      var modified := AnyWatchedModified();
      if modified {
        transactionQueue := [];
        inTransaction := false;
        watchedKeys := map[];
        return Err(ExecAborted);
      }
      var results := RunTransaction(at);
      inTransaction := false;
      watchedKeys := map[];
      reply := R.Multi(results);
    }

    /** The queue is drained from the front, one result per command. */
    method RunTransaction(at: Moments) returns (results: seq<R.Wire>)
      requires AllAgree(db.data)
      modifies this`transactionQueue, db
      ensures (db.data, results) == RunQueue(old(db.data), old(transactionQueue), at, 0)
      ensures transactionQueue == [] && AllAgree(db.data)
    {
      hide RunQueued, AllAgree;
      results := [];
      ghost var all := RunQueue(db.data, transactionQueue, at, 0);
      assert [] + all.1 == all.1;
      while transactionQueue != []
        invariant AllAgree(db.data)
        invariant var rest := RunQueue(db.data, transactionQueue, at, |results|);
                  all.0 == rest.0 && all.1 == results + rest.1
        decreases |transactionQueue|
      {
        var cmd := transactionQueue[0];
        ghost var rest := RunQueue(db.data, transactionQueue, at, |results|).1;
        var result := ExecuteQueued(cmd, at(|results|));
        assert results + rest == results + [result] + rest[1..];
        results := results + [result];
        transactionQueue := transactionQueue[1..];
      }
      assert results + [] == results;
    }

    method HandleDiscard(extra: bool) returns (reply: R.Wire)
      modifies this
      ensures Outcome(db.data, State(), reply) == Transactions.HandleDiscard(db.data, old(State()), extra)
    {
      hide Err, OK;
      if extra {
        return Err(DiscardArity);
      }
      if !inTransaction {
        return Err(DiscardWithoutMulti);
      }
      while transactionQueue != []
        invariant inTransaction && watchedKeys == old(watchedKeys)
        decreases |transactionQueue|
      {
        transactionQueue := transactionQueue[1..];
      }
      inTransaction := false;
      reply := OK();
    }

    method HandleWatch(keys: seq<Bytes>, badTail: bool) returns (reply: R.Wire)
      modifies this
      ensures Outcome(db.data, State(), reply) == Transactions.HandleWatch(db.data, old(State()), keys, badTail)
    {
      hide Err, OK, ModCount, Look;
      if keys == [] && !badTail {
        return Err(WatchArity);
      }
      if inTransaction {
        return Err(WatchInsideMulti);
      }
      var i := 0;
      ghost var start := watchedKeys;
      assert WatchedAfter(db.data, start, keys[..0]) == start;
      while i < |keys|
        invariant i <= |keys| && !inTransaction && transactionQueue == old(transactionQueue)
        invariant watchedKeys == WatchedAfter(db.data, start, keys[..i])
      {
        WatchedStep(db.data, start, keys, i);
        var n := db.GetModCount(keys[i]);
        watchedKeys := watchedKeys[keys[i] := n];
        i := i + 1;
      }
      assert keys[..i] == keys;
      reply := if badTail then Err(WatchNotBulk) else OK();
    }

    method HandleUnwatch(extra: bool) returns (reply: R.Wire)
      modifies this
      ensures Outcome(db.data, State(), reply) == Transactions.HandleUnwatch(db.data, old(State()), extra)
    {
      hide Err, OK;
      if extra {
        return Err(UnwatchArity);
      }
      watchedKeys := map[];
      reply := OK();
    }

    method ProcessCommand(req: Request, at: Moments) returns (reply: R.Wire)
      requires AllAgree(db.data)
      modifies this, db
      ensures Outcome(db.data, State(), reply) == Step(old(db.data), old(State()), req, at)
      ensures AllAgree(db.data)
    {
      hide Apply, Answer, RunQueue, Conflict, WatchedAfter, Err, OK, Queued, AllAgree;
      if inTransaction && Queues(req) {
        transactionQueue := transactionQueue + [req];
        return Queued();
      }
      match req {
        case Run(op) => reply := Run(op, at(0).now);
        case Ask(query) => reply := RunQuery(query, at(0));
        case Refused(name, fault) => reply := Err(Rejected(name, fault));
        case Unknown => reply := Err(UnknownCommand);
        case Malformed(isArray) => reply := Err(if isArray then NameNotBulk else BadFormat);
        case Begin(extra) => reply := HandleMulti(extra);
        case Exec(extra) => reply := HandleExec(extra, at);
        case Discard(extra) => reply := HandleDiscard(extra);
        case Watch(keys, badTail) => reply := HandleWatch(keys, badTail);
        case Unwatch(extra) => reply := HandleUnwatch(extra);
      }
    }
  }

  function TypeText(kind: RedisType): Bytes { TypeName(Some(FRESH.(kind := kind))) }

  lemma TypeTextIsName(c: Cell)
    ensures TypeName(c) == if c.Some? then TypeText(c.value.kind) else Text("none")
  {
  }

  lemma WatchedStep(db: Store, start: map<Bytes, nat>, keys: seq<Bytes>, i: nat)
    requires i < |keys|
    ensures WatchedAfter(db, start, keys[..i + 1])
         == WatchedAfter(db, start, keys[..i])[keys[i] := ModCount(Look(db, keys[i]))]
  {
    hide ModCount, Look;
    assert forall k :: k in keys[..i + 1] <==> k in keys[..i] || k == keys[i];
  }
}
