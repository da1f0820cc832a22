/** What the key, string and expiry commands do, told by their replies and the clock alone. */
module KeyLaws {
  import opened Octets
  import opened SortedSets
  import opened Keyspace
  import opened Commands
  import R = Resp
  import ScoreFormat

  // ----- Keys are independent -----

  /** A data command looks at its key and leaves every other key alone. */
  lemma KeysAreIndependent(x: Store, y: Store, op: Op, now: int, k: Bytes)
    ensures k != op.key ==> Look(Apply(x, op, now).0, k) == Look(x, k)
    ensures Look(x, op.key) == Look(y, op.key) ==>
              && Apply(x, op, now).1 == Apply(y, op, now).1
              && Look(Apply(x, op, now).0, op.key) == Look(Apply(y, op, now).0, op.key)
  {
    hide ApplyCell;
  }

  // ----- Reading one key -----

  predicate Exists1(c: Cell, k: Bytes, t: int) { ApplyCell(c, Exists(k), t).reply == R.Number(1) }

  /** The key is missing or will never expire. */
  predicate Lasting(c: Cell, k: Bytes, t: int) { c.None? || ApplyCell(c, PTtl(k), t).reply == R.Number(-1) }

  lemma LastingMeans(c: Cell, k: Bytes, t: int)
    ensures Lasting(c, k, t) <==> Value(c).expiry == 0
  {
  }

  // ----- Strings -----

  const OK_BYTES: Bytes := [79, 75]
  const NONE_BYTES: Bytes := [110, 111, 110, 101]
  const STRING_BYTES: Bytes := [115, 116, 114, 105, 110, 103]
  const LIST_BYTES: Bytes := [108, 105, 115, 116]
  const SET_BYTES: Bytes := [115, 101, 116]
  const HASH_BYTES: Bytes := [104, 97, 115, 104]
  const ZSET_BYTES: Bytes := [122, 115, 101, 116]

  lemma Words()
    ensures Text("OK") == OK_BYTES && Text("none") == NONE_BYTES
    ensures Text("string") == STRING_BYTES && Text("list") == LIST_BYTES && Text("set") == SET_BYTES
    ensures Text("hash") == HASH_BYTES && Text("zset") == ZSET_BYTES
  {
  }

  lemma TypeNames(c: Cell)
    ensures c.None? ==> TypeName(c) == NONE_BYTES
    ensures Is(c, StringT) ==> TypeName(c) == STRING_BYTES
    ensures Is(c, ListT) ==> TypeName(c) == LIST_BYTES
    ensures Is(c, SetT) ==> TypeName(c) == SET_BYTES
    ensures Is(c, HashT) ==> TypeName(c) == HASH_BYTES
    ensures Is(c, ZSetT) ==> TypeName(c) == ZSET_BYTES
  {
    hide Text;
    Words();
  }

  /** SET then GET: the value is there from then on, whatever type the key had. */
  lemma SetLaw(c: Cell, k: Bytes, v: Bytes, t: int, t': int)
    requires Lasting(c, k, t)
    ensures var x := ApplyCell(c, Set(k, v), t);
            && x.reply == R.Line(OK_BYTES)
            && ApplyCell(x.cell, Get(k), t').reply == R.Bulk(v)
            && ApplyCell(x.cell, Exists(k), t').reply == R.Number(1)
            && ApplyCell(x.cell, Type(k), t').reply == R.Line(STRING_BYTES)
            && Lasting(x.cell, k, t')
  {
    LastingMeans(c, k, t);
    LastingMeans(ApplyCell(c, Set(k, v), t).cell, k, t');
    TypeNames(ApplyCell(c, Set(k, v), t).cell);
    Words();
    hide TypeName, Text, Lasting;
  }

  /** A missing key answers as missing; DEL makes a key missing and tells whether it was there. */
  lemma DelLaw(c: Cell, k: Bytes, t: int, t': int)
    ensures ApplyCell(c, Del(k), t).cell == None
    ensures ApplyCell(c, Del(k), t).reply == ApplyCell(c, Exists(k), t).reply
    ensures ApplyCell(None, Get(k), t').reply == R.NullBulk
    ensures ApplyCell(None, Exists(k), t').reply == R.Number(0)
    ensures ApplyCell(None, Type(k), t').reply == R.Line(NONE_BYTES)
    ensures ApplyCell(None, PTtl(k), t').reply == ApplyCell(None, Ttl(k), t').reply == R.Number(-2)
  {
    TypeNames(None);
    hide TypeName;
  }

  /** Each writing command gives the key its type, whatever type it had; GET sees only strings. */
  lemma TypeLaw(c: Cell, op: Op, t: int, t': int)
    requires Lasting(c, op.key, t)
    ensures var d, k := ApplyCell(c, op, t).cell, op.key;
            && ((op.LPush? || op.RPush?) && op.items != [] ==> ApplyCell(d, Type(k), t').reply == R.Line(LIST_BYTES))
            && (op.SAdd? && op.items != [] ==> ApplyCell(d, Type(k), t').reply == R.Line(SET_BYTES))
            && (op.HSet? && op.pairs != [] ==> ApplyCell(d, Type(k), t').reply == R.Line(HASH_BYTES))
            && (op.ZAdd? && op.entries != [] ==> ApplyCell(d, Type(k), t').reply == R.Line(ZSET_BYTES))
            && (ApplyCell(d, Type(k), t').reply != R.Line(STRING_BYTES) ==>
                  ApplyCell(d, Get(k), t').reply == R.NullBulk)
  {
    LastingMeans(c, op.key, t);
    var d := ApplyCell(c, op, t).cell;
    WriterSetsType(c, op, t);
    TypeNames(d);
    TypeNames(Purge(d, t'));
    hide TypeName, Lasting;
    ReadType(d, op.key, t');
  }

  lemma ReadType(d: Cell, k: Bytes, t: int)
    ensures ApplyCell(d, Type(k), t).reply == R.Line(TypeName(Purge(d, t)))
    ensures ApplyCell(d, Get(k), t).reply == (if Is(Purge(d, t), StringT) then R.Bulk(Purge(d, t).value.str) else R.NullBulk)
  {
    hide TypeName;
  }

  lemma WriterSetsType(c: Cell, op: Op, t: int)
    ensures var d := ApplyCell(c, op, t).cell;
            && ((op.LPush? || op.RPush?) && op.items != [] ==> Is(d, ListT) && d.value.expiry == Value(c).expiry)
            && (op.SAdd? && op.items != [] ==> Is(d, SetT) && d.value.expiry == Value(c).expiry)
            && (op.HSet? && op.pairs != [] ==> Is(d, HashT) && d.value.expiry == Value(c).expiry)
            && (op.ZAdd? && op.entries != [] ==> Is(d, ZSetT) && d.value.expiry == Value(c).expiry)
  {
    if op.HSet? {
      HSetSetsType(c, op, t);
    } else {
      hide Err, WriteFields, AddAll, HashAfter, ToSet;
    }
  }

  lemma HSetSetsType(c: Cell, op: Op, t: int)
    requires op.HSet?
    ensures var d := ApplyCell(c, op, t).cell;
            op.pairs != [] ==> Is(d, HashT) && d.value.expiry == Value(c).expiry
  {
    hide Err, WriteFields, HashAfter;
    if op.pairs != [] {
      WriteFieldsValue(c, op.pairs);
    }
  }

  // ----- Expiry -----

  /** PEXPIRE n at time t: the key lives exactly until t + n. */
  lemma PExpireLaw(c: Cell, k: Bytes, n: int, t: int, t': int)
    requires Exists1(c, k, t) && t <= t' && t + n != 0
    ensures var x := ApplyCell(c, PExpire(k, n), t);
            && x.reply == R.Number(1)
            && ApplyCell(x.cell, Exists(k), t').reply == R.Number(if t' < t + n then 1 else 0)
            && ApplyCell(x.cell, PTtl(k), t').reply == R.Number(if t' < t + n then t + n - t' else -2)
            && ApplyCell(x.cell, Ttl(k), t').reply == R.Number(if t' < t + n then (t + n - t') / 1000 else -2)
    ensures var d := ApplyCell(c, PExpire(k, n), t).cell;
            forall v :: ApplyCell(c, Get(k), t).reply == R.Bulk(v) ==>
              ApplyCell(d, Get(k), t').reply == if t' < t + n then R.Bulk(v) else R.NullBulk
  {
  }

  /** EXPIRE n at time t, in milliseconds: the key lives exactly until t + 1000 * n, a string with
      its value; PTTL tells what is left and TTL the whole seconds of it. */
  lemma ExpireLaw(c: Cell, k: Bytes, n: int, t: int, t': int)
    requires Exists1(c, k, t) && t <= t' && t + 1000 * n != 0
    ensures var x := ApplyCell(c, Expire(k, n), t);
            && x.reply == R.Number(1)
            && ApplyCell(x.cell, Exists(k), t').reply == R.Number(if t' < t + 1000 * n then 1 else 0)
            && ApplyCell(x.cell, PTtl(k), t').reply == R.Number(if t' < t + 1000 * n then t + 1000 * n - t' else -2)
            && ApplyCell(x.cell, Ttl(k), t').reply == R.Number(if t' < t + 1000 * n then (t + 1000 * n - t') / 1000 else -2)
    ensures var d := ApplyCell(c, Expire(k, n), t).cell;
            forall v :: ApplyCell(c, Get(k), t).reply == R.Bulk(v) ==>
              ApplyCell(d, Get(k), t').reply == if t' < t + 1000 * n then R.Bulk(v) else R.NullBulk
  {
    hide ApplyCell;
    SecondsAreThousands(c, k, n, t);
    PExpireLaw(c, k, 1000 * n, t, t');
  }

  lemma SecondsAreThousands(c: Cell, k: Bytes, n: int, t: int)
    ensures ApplyCell(c, Expire(k, n), t) == ApplyCell(c, PExpire(k, 1000 * n), t)
  {
  }

  /** Expiry commands on a key that is not there reply 0 and leave it missing. */
  lemma ExpireNothing(c: Cell, k: Bytes, n: int, t: int)
    requires !Exists1(c, k, t)
    ensures ApplyCell(c, Expire(k, n), t) == ApplyCell(c, PExpire(k, n), t) == ApplyCell(c, Persist(k), t)
         == Done(None, R.Number(0))
  {
  }

  /** PERSIST on a key that lives: it never expires again and keeps its value. */
  lemma PersistLaw(c: Cell, k: Bytes, t: int, t': int)
    requires Exists1(c, k, t)
    ensures var x := ApplyCell(c, Persist(k), t);
            && x.reply == R.Number(1)
            && ApplyCell(x.cell, Exists(k), t').reply == R.Number(1)
            && ApplyCell(x.cell, Ttl(k), t').reply == ApplyCell(x.cell, PTtl(k), t').reply == R.Number(-1)
            && ApplyCell(x.cell, Get(k), t').reply == ApplyCell(c, Get(k), t).reply
  {
  }

  /** SET on a key that lives keeps its deadline. */
  lemma SetKeepsDeadline(c: Cell, k: Bytes, v: Bytes, t: int, t': int)
    requires Exists1(c, k, t) && t <= t'
    ensures var d := ApplyCell(c, Set(k, v), t).cell;
            && ApplyCell(d, PTtl(k), t').reply == ApplyCell(c, PTtl(k), t').reply
            && ApplyCell(d, Exists(k), t').reply == ApplyCell(c, Exists(k), t').reply
            && ApplyCell(d, Get(k), t').reply == if Exists1(c, k, t') then R.Bulk(v) else R.NullBulk
  {
    hide OK;
  }

  /** Looking at an expired key erases it: always for the commands that check, and for the others
      that look twice as soon as they find nothing. */
  lemma LookingErases(c: Cell, op: Op, t: int)
    requires Dead(c, t)
    ensures op.Get? || op.Exists? || op.Type? || op.Del? || !Transactable(op) ==> ApplyCell(c, op, t).cell == None
    ensures op.LLen? && Is(c, ListT) ==> ApplyCell(c, op, t).cell == None
    ensures (op.LPop? || op.RPop? || op.LIndex? || op.HGet? || op.ZScore?) && ApplyCell(c, op, t).reply == R.NullBulk ==>
              ApplyCell(c, op, t).cell == None
  {
    hide OK, TypeName, ScoreFormat.ScoreText;
  }

  // ----- What a value keeps -----

  /** A value keeps the storage of every type through changes of type: each storage is written by
      its own commands only, and those that take something away do so only while the key has
      their type. The expiry is written by the expiry commands only. */
  predicate Stays(c: Cell, d: Cell, op: Op) {
    d.Some? ==>
      var v, w := Value(c), d.value;
      && (!op.Set? ==> w.str == v.str)
      && (!(op.LPush? || op.RPush? || op.LPop? || op.RPop?) ==> w.list == v.list)
      && ((op.LPop? || op.RPop?) && v.kind != ListT ==> w.list == v.list)
      && (!(op.SAdd? || op.SRem?) ==> w.members == v.members)
      && (op.SRem? && v.kind != SetT ==> w.members == v.members)
      && (!(op.HSet? || op.HDel?) ==> w.hash == v.hash)
      && (op.HDel? && v.kind != HashT ==> w.hash == v.hash)
      && (!(op.ZAdd? || op.ZRem?) ==> w.zset == v.zset)
      && (op.ZRem? && v.kind != ZSetT ==> w.zset == v.zset)
      && (Transactable(op) ==> w.expiry == v.expiry)
  }

  lemma StorageLaw(c: Cell, op: Op, now: int)
    ensures Stays(c, ApplyCell(c, op, now).cell, op)
  {
    hide Stays, ApplyString, ApplyList, ApplySet, ApplyHash, ApplyScored, ApplyTime;
    match FamilyOf(op)
    case StringFamily => StringStays(c, op, now);
    case ListFamily => ListStays(c, op, now);
    case SetFamily => SetStays(c, op);
    case HashFamily => HashStays(c, op, now);
    case ScoredFamily => ScoredStays(c, op, now);
    case TimeFamily => TimeStays(c, op, now);
  }

  lemma StringStays(c: Cell, op: Op, now: int)
    requires FamilyOf(op).StringFamily?
    ensures Stays(c, ApplyString(c, op, now).cell, op)
  {
    hide OK, TypeName;
  }

  lemma ListStays(c: Cell, op: Op, now: int)
    requires FamilyOf(op).ListFamily?
    ensures Stays(c, ApplyList(c, op, now).cell, op)
  {
    hide Err, Bulks;
  }

  lemma SetStays(c: Cell, op: Op)
    requires FamilyOf(op).SetFamily?
    ensures Stays(c, ApplySet(c, op).cell, op)
  {
    hide Err, ToSet;
  }

  lemma HSetStays(c: Cell, op: Op, now: int)
    requires op.HSet?
    ensures Stays(c, ApplyHash(c, op, now).cell, op)
  {
    hide Err, WriteFields, HashAfter;
    if op.pairs == [] {
      NoFieldsWritten(c);
    } else {
      WriteFieldsValue(c, op.pairs);
    }
  }

  lemma HDelStays(c: Cell, op: Op, now: int)
    requires op.HDel?
    ensures Stays(c, ApplyHash(c, op, now).cell, op)
  {
    hide Err, ToSet;
  }

  lemma HashReadStays(c: Cell, op: Op, now: int)
    requires op.HGet? || op.HLen?
    ensures Stays(c, ApplyHash(c, op, now).cell, op)
  {
  }

  lemma HashStays(c: Cell, op: Op, now: int)
    requires FamilyOf(op).HashFamily?
    ensures Stays(c, ApplyHash(c, op, now).cell, op)
  {
    hide ApplyHash, Stays;
    if op.HSet? {
      HSetStays(c, op, now);
    } else if op.HDel? {
      HDelStays(c, op, now);
    } else {
      HashReadStays(c, op, now);
    }
  }

  lemma ScoredStays(c: Cell, op: Op, now: int)
    requires FamilyOf(op).ScoredFamily?
    ensures Stays(c, ApplyScored(c, op, now).cell, op)
  {
    hide Err, AddAll, RemoveAll, Bulks, ScoreFormat.ScoreText;
  }

  lemma TimeStays(c: Cell, op: Op, now: int)
    requires FamilyOf(op).TimeFamily?
    ensures Stays(c, ApplyTime(c, op, now).cell, op)
  {
  }
}
