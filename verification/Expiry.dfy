/** Lazy expiry against a store that purges every expired key before each command. */
module Expiry {
  import opened Octets
  import opened SortedSets
  import opened Keyspace
  import opened Commands
  import opened Traces
  import opened Tracking
  import Ranges
  import R = Resp

  function PurgeAll(db: Store, now: int): Store {
    map k | k in db && !IsExpired(db[k], now) :: db[k]
  }

  /** The commands that look at the expiry of their key before using it. */
  predicate ChecksExpiry(op: Op) {
    op.Get? || op.Exists? || op.Type? || op.Del? || op.LLen? || !Transactable(op)
  }

  /** When a command on an expired value behaves as if the value were not there, read off the
      command and the value: it checks, or it finds nothing, or it writes nothing. */
  predicate Blind(c: Cell, op: Op) {
    match op
    case Set(_, _) => false
    case LPush(_, items) => items == []
    case RPush(_, items) => items == []
    case LPop(_) => PopFront(c).1 == []
    case RPop(_) => PopBack(c).1 == []
    case LRange(_, i, j) => Ranges.Slice(ListAt(c), i, j) == []
    case LIndex(_, i) => ElementAt(c, i) == []
    case SAdd(_, items) => items == []
    case SRem(_, items) => SetAt(c) !! ToSet(items)
    case SIsMember(_, m) => m !in SetAt(c)
    case SCard(_) => SetAt(c) == {}
    case HSet(_, pairs, _) => pairs == []
    case HGet(_, f) => f !in HashAt(c) || HashAt(c)[f] == []
    case HDel(_, fields) => HashAt(c).Keys !! ToSet(fields)
    case HLen(_) => HashAt(c) == map[]
    case ZAdd(_, entries) => entries == []
    case ZRem(_, items) => !AnyScored(c, items)
    case ZCard(_) => ScoredAt(c).scores == map[]
    case ZRange(_, i, j) => Ranges.Slice(Names(ScoredAt(c).byScore), i, j) == []
    case ZRevRange(_, i, j) => Ranges.Slice(Ranges.Reverse(Names(ScoredAt(c).byScore)), i, j) == []
    case ZScore(_, m) => Order(ScoreOf(c, m)) == 0
    case ZRank(_, m) => m !in ScoredAt(c).scores
    case _ => true
  }

  /** The command cannot tell the lazy store from the purged one. */
  predicate Harmless(c: Cell, op: Op, now: int) { !Dead(c, now) || Blind(c, op) }

  lemma CheckingIsBlind(c: Cell, op: Op)
    requires ChecksExpiry(op)
    ensures Blind(c, op)
  {
  }

  // ----- One command -----

  /** Same reply, and results that differ at most by an expired value. */
  predicate Alike(x: Done, y: Done, now: int) {
    x.reply == y.reply && Purge(x.cell, now) == Purge(y.cell, now)
  }

  lemma StringOnDead(c: Cell, op: Op, now: int)
    requires FamilyOf(op).StringFamily? && Dead(c, now)
    ensures Alike(ApplyString(c, op, now), ApplyString(None, op, now), now) <==> Blind(c, op)
  {
    hide TypeName, OK;
  }

  lemma ListOnDead(c: Cell, op: Op, now: int)
    requires FamilyOf(op).ListFamily? && Dead(c, now)
    ensures Alike(ApplyList(c, op, now), ApplyList(None, op, now), now) <==> Blind(c, op)
  {
    if op.LRange? {
      SlicesDiffer(ListAt(c), op.start, op.end);
    } else {
      hide Err, Bulks, Ranges.Slice, Ranges.Reverse;
      if op.LIndex? {
        NothingAt(op.index);
      }
      hide Ranges.Resolve, ElementAt;
    }
  }

  lemma NothingAt(index: int)
    ensures ElementAt(None, index) == []
  {
  }

  /** The array of an empty list is the array of no other slice. */
  lemma SlicesDiffer(s: seq<Bytes>, i: int, j: int)
    ensures Ranges.Slice<Bytes>([], i, j) == []
    ensures Bulks(Ranges.Slice(s, i, j)) == Bulks([]) <==> Ranges.Slice(s, i, j) == []
  {
    var t := Ranges.Slice(s, i, j);
    assert |Bulks(t).elems| == |t|;
  }

  lemma SetOnDead(c: Cell, op: Op, now: int)
    requires FamilyOf(op).SetFamily? && Dead(c, now)
    ensures Alike(ApplySet(c, op), ApplySet(None, op), now) <==> Blind(c, op)
  {
    hide Err, ToSet;
    if op.SRem? {
      SetShrinks(SetAt(c), ToSet(op.items));
      if op.items == [] {
        assert ToSet(op.items) == {} by { NoMembers(); }
      }
    }
  }

  lemma NoMembers()
    ensures ToSet([]) == {}
  {
  }

  lemma HashOnDead(c: Cell, op: Op, now: int)
    requires FamilyOf(op).HashFamily? && Dead(c, now)
    ensures Alike(ApplyHash(c, op, now), ApplyHash(None, op, now), now) <==> Blind(c, op)
  {
    if op.HSet? {
      HSetOnDead(c, op, now);
    } else {
      hide Err, ToSet;
      if op.HDel? {
        NoMembers();
        MapShrinks(HashAt(c), ToSet(op.items));
        FieldsKept(HashAt(c), ToSet(op.items));
      }
    }
  }

  lemma FieldsKept(h: map<Bytes, Bytes>, t: set<Bytes>)
    ensures h - t == h <==> h.Keys !! t
  {
    if h - t == h {
      assert forall f :: f in h ==> f in h - t;
    }
  }

  lemma HSetOnDead(c: Cell, op: Op, now: int)
    requires op.HSet? && Dead(c, now)
    ensures Alike(ApplyHash(c, op, now), ApplyHash(None, op, now), now) <==> Blind(c, op)
  {
    hide Err, WriteFields, HashAfter;
    if op.pairs == [] {
      NoFieldsWritten(c);
      NoFieldsWritten(None);
    } else {
      WriteFieldsValue(c, op.pairs);
      WriteFieldsValue(None, op.pairs);
    }
  }

  lemma ScoredOnDead(c: Cell, op: Op, now: int)
    requires FamilyOf(op).ScoredFamily? && Dead(c, now)
    ensures Alike(ApplyScored(c, op, now), ApplyScored(None, op, now), now) <==> Blind(c, op)
  {
    if op.ZRange? {
      SlicesDiffer(Names(ScoredAt(c).byScore), op.start, op.end);
      assert Names([]) == [];
    } else if op.ZRevRange? {
      SlicesDiffer(Ranges.Reverse(Names(ScoredAt(c).byScore)), op.start, op.end);
      assert Names([]) == [];
      assert Ranges.Reverse<Bytes>([]) == [];
    }
    hide Err, AddAll, RemoveAll, Bulks, Ranges.Slice, Ranges.Reverse, Ranges.RankFrom, Names;
  }

  lemma TimeOnDead(c: Cell, op: Op, now: int)
    requires FamilyOf(op).TimeFamily? && Dead(c, now)
    ensures Alike(ApplyTime(c, op, now), ApplyTime(None, op, now), now)
  {
  }

  /** For every command and every value: a lazy store and a purged one give the same reply and
      agree afterwards up to expired values if and only if the value is not expired or the
      command is blind to it. */
  lemma HarmlessIsExact(c: Cell, op: Op, now: int)
    ensures Alike(ApplyCell(c, op, now), ApplyCell(Purge(c, now), op, now), now) <==> Harmless(c, op, now)
  {
    hide ApplyString, ApplyList, ApplySet, ApplyHash, ApplyScored, ApplyTime, Blind, Alike;
    if Dead(c, now) {
      match FamilyOf(op)
      case StringFamily => StringOnDead(c, op, now);
      case ListFamily => ListOnDead(c, op, now);
      case SetFamily => SetOnDead(c, op, now);
      case HashFamily => HashOnDead(c, op, now);
      case ScoredFamily => ScoredOnDead(c, op, now);
      case TimeFamily =>
        TimeOnDead(c, op, now);
        CheckingIsBlind(c, op);
    } else {
      AlikeItself(ApplyCell(c, op, now), now);
    }
  }

  lemma AlikeItself(x: Done, now: int)
    ensures Alike(x, x, now)
  {
  }

  // ----- Stores -----

  lemma LookPurged(db: Store, now: int, k: Bytes)
    ensures Look(PurgeAll(db, now), k) == Purge(Look(db, k), now)
  {
  }

  /** Stores that agree up to expired keys keep agreeing as time passes. */
  lemma AgreementLasts(x: Store, y: Store, t: int, t': int)
    requires PurgeAll(x, t) == PurgeAll(y, t) && t <= t'
    ensures PurgeAll(x, t') == PurgeAll(y, t')
  {
    PurgeTwice(x, t, t');
    PurgeTwice(y, t, t');
  }

  lemma PurgeTwice(x: Store, t: int, t': int)
    requires t <= t'
    ensures PurgeAll(x, t') == PurgeAll(PurgeAll(x, t), t')
  {
  }

  /** The next replies are equal and the next stores agree up to expired keys. */
  predicate StepsAlike(lazy: Store, eager: Store, op: Op, now: int) {
    var x, y := Apply(lazy, op, now), Apply(PurgeAll(eager, now), op, now);
    x.1 == y.1 && PurgeAll(x.0, now) == PurgeAll(y.0, now)
  }

  /** One step of the simulation, with its exact condition. */
  lemma StepRefines(lazy: Store, eager: Store, op: Op, now: int)
    requires PurgeAll(lazy, now) == PurgeAll(eager, now)
    ensures StepsAlike(lazy, eager, op, now) <==> Harmless(Look(lazy, op.key), op, now)
  {
    hide ApplyCell, Look, Put, PurgeAll, Purge, Harmless;
    var c := Look(lazy, op.key);
    var d, e := ApplyCell(c, op, now).cell, ApplyCell(Purge(c, now), op, now).cell;
    LookPurged(lazy, now, op.key);
    HarmlessIsExact(c, op, now);
    var x, y := Apply(lazy, op, now), Apply(PurgeAll(eager, now), op, now);
    LookAfter(lazy, op.key, d, now, op.key);
    LookAfter(PurgeAll(eager, now), op.key, e, now, op.key);
    if Purge(d, now) == Purge(e, now) {
      forall k: Bytes
        ensures Look(PurgeAll(x.0, now), k) == Look(PurgeAll(y.0, now), k)
      {
        LookAfter(lazy, op.key, d, now, k);
        LookAfter(PurgeAll(eager, now), op.key, e, now, k);
        LookPurged(lazy, now, k);
        PurgeIdempotent(Look(lazy, k), now);
      }
      SameLooks(PurgeAll(x.0, now), PurgeAll(y.0, now));
    }
  }

  lemma LookAfter(db: Store, key: Bytes, d: Cell, now: int, k: Bytes)
    ensures Look(PurgeAll(Put(db, key, d), now), k) == Purge(if k == key then d else Look(db, k), now)
  {
    hide Look, Put, PurgeAll, Purge;
    LookPurged(Put(db, key, d), now, k);
    LookPut(db, key, d, k);
  }

  lemma PurgeIdempotent(c: Cell, now: int)
    ensures Purge(Purge(c, now), now) == Purge(c, now)
  {
  }

  // ----- Runs -----

  function LazyReplies(db: Store, run: seq<Timed>): seq<R.Wire>
    decreases |run|
  {
    if run == [] then []
    else var r := Apply(db, run[0].op, run[0].now); [r.1] + LazyReplies(r.0, run[1..])
  }

  function EagerReplies(db: Store, run: seq<Timed>): seq<R.Wire>
    decreases |run|
  {
    if run == [] then []
    else var r := Apply(PurgeAll(db, run[0].now), run[0].op, run[0].now); [r.1] + EagerReplies(r.0, run[1..])
  }

  /** The clock never runs backwards. */
  predicate Chronological(run: seq<Timed>, from: int) {
    (run != [] ==> from <= run[0].now) && forall i :: 0 <= i < |run| - 1 ==> run[i].now <= run[i + 1].now
  }

  predicate AllHarmless(db: Store, run: seq<Timed>)
    decreases |run|
  {
    run == [] ||
    (Harmless(Look(db, run[0].op.key), run[0].op, run[0].now) && AllHarmless(Apply(db, run[0].op, run[0].now).0, run[1..]))
  }

  /** The lazy and the eager store run in step: at every command the same reply, and afterwards
      the same unexpired keys and values. */
  predicate InStep(lazy: Store, eager: Store, run: seq<Timed>)
    decreases |run|
  {
    run == [] ||
    var op, now := run[0].op, run[0].now;
    && StepsAlike(lazy, eager, op, now)
    && InStep(Apply(lazy, op, now).0, Apply(PurgeAll(eager, now), op, now).0, run[1..])
  }

  /** Lazy expiry refines eager expiry, with its exact condition: over every run with a clock that
      never goes back, the two stores run in step if and only if no command meets an expired
      value to which it is not blind. */
  lemma {:induction false} LazyRefinesEager(lazy: Store, eager: Store, run: seq<Timed>, from: int)
    requires PurgeAll(lazy, from) == PurgeAll(eager, from) && Chronological(run, from)
    ensures InStep(lazy, eager, run) <==> AllHarmless(lazy, run)
    ensures AllHarmless(lazy, run) ==> LazyReplies(lazy, run) == EagerReplies(eager, run)
    decreases |run|
  {
    hide Apply, PurgeAll, Harmless;
    if run != [] {
      var op, now := run[0].op, run[0].now;
      AgreementLasts(lazy, eager, from, now);
      StepRefines(lazy, eager, op, now);
      if Harmless(Look(lazy, op.key), op, now) {
        LazyRefinesEager(Apply(lazy, op, now).0, Apply(PurgeAll(eager, now), op, now).0, run[1..], now);
      }
    }
  }

  lemma {:induction false} CheckingRunsAreHarmless(db: Store, run: seq<Timed>)
    requires forall i :: 0 <= i < |run| ==> ChecksExpiry(run[i].op)
    ensures AllHarmless(db, run)
    decreases |run|
  {
    hide Apply, ChecksExpiry, Blind;
    if run != [] {
      CheckingIsBlind(Look(db, run[0].op.key), run[0].op);
      CheckingRunsAreHarmless(Apply(db, run[0].op, run[0].now).0, run[1..]);
    }
  }

  /** Over every run of GET, EXISTS, TYPE, DEL, EXPIRE, PEXPIRE, TTL, PTTL, PERSIST and LLEN, all
      replies are those of the store that purges before each command. */
  lemma CheckingRunsRefine(db: Store, run: seq<Timed>, from: int)
    requires forall i :: 0 <= i < |run| ==> ChecksExpiry(run[i].op)
    requires Chronological(run, from)
    ensures LazyReplies(db, run) == EagerReplies(db, run) && InStep(db, db, run)
  {
    hide ChecksExpiry, LazyReplies, EagerReplies, AllHarmless, InStep;
    CheckingRunsAreHarmless(db, run);
    LazyRefinesEager(db, db, run, from);
  }

  /** SET is outside, for every expired key: it keeps the old expiry, so the value just written
      is gone at the next GET, while the eager store returns it. */
  lemma SetOnExpiredKeyIsLost(db: Store, key: Bytes, v: Bytes, now: int, later: int)
    requires Dead(Look(db, key), now) && now <= later
    ensures var run := [Timed(Set(key, v), now), Timed(Get(key), later)];
            && LazyReplies(db, run) == [OK(), R.NullBulk]
            && EagerReplies(db, run) == [OK(), R.Bulk(v)]
  {
    hide OK, Look, Put, PurgeAll, ApplyCell;
    var put, get := Timed(Set(key, v), now), Timed(Get(key), later);
    var run, last := [put, get], [get];
    assert run[1..] == last && last[1..] == [];
    var c := Look(db, key);
    LookPurged(db, now, key);
    SetThenGet(c, key, v, now, later);
    var x, y := Apply(db, put.op, now), Apply(PurgeAll(db, now), put.op, now);
    LookPut(db, key, ApplyCell(c, put.op, now).cell, key);
    LookPut(PurgeAll(db, now), key, ApplyCell(None, put.op, now).cell, key);
    LookPurged(y.0, later, key);
    assert LazyReplies(x.0, last) == [Apply(x.0, get.op, later).1];
    assert EagerReplies(y.0, last) == [Apply(PurgeAll(y.0, later), get.op, later).1];
  }

  lemma SetThenGet(c: Cell, key: Bytes, v: Bytes, now: int, later: int)
    requires Dead(c, now) && now <= later
    ensures Purge(c, now) == None
    ensures var x := ApplyCell(c, Set(key, v), now);
            x.reply == OK() && ApplyCell(x.cell, Get(key), later).reply == R.NullBulk
    ensures var y := ApplyCell(None, Set(key, v), now);
            y.reply == OK() && ApplyCell(Purge(y.cell, later), Get(key), later).reply == R.Bulk(v)
  {
    hide OK;
  }
}
