/** The commands that only look, on a database with expired keys. They never check expiry. */
module ExpiredQueries {
  import opened Octets
  import opened Keyspace
  import opened Databases
  import opened Commands
  import opened Expiry

  predicate Alive(db: Store, k: Bytes, now: int) { !Dead(Look(db, k), now) }

  /** When a query answers as if the expired keys were not there. */
  ghost predicate QueryBlind(db: Store, q: Query, now: int) {
    match q
    case Keys => forall k :: k in db ==> Alive(db, k, now)
    case Save => true
    case SMembers(k) => Alive(db, k, now) || SetAt(Look(db, k)) == {}
    case SInter(ks) => ks == [] || Intersection(db, ks) == {} || forall k :: k in ks ==> Alive(db, k, now)
    case SUnion(ks) => Union(db, ks) <= AliveUnion(db, ks, now)
    case SDiff(ks) =>
      ks == [] ||
      (var first, others := SetAt(Look(db, ks[0])), ks[1..];
       if Alive(db, ks[0], now) then first * Union(db, others) <= AliveUnion(db, others, now)
       else first <= Union(db, others))
    case HKeys(k) => Alive(db, k, now) || HashAt(Look(db, k)) == map[]
    case HVals(k) => Alive(db, k, now) || HashAt(Look(db, k)) == map[]
    case HGetAll(k) => Alive(db, k, now) || HashAt(Look(db, k)) == map[]
  }

  /** The members of those listed sets that have not expired. */
  function AliveUnion(db: Store, ks: seq<Bytes>, now: int): set<Bytes> {
    set k, m | k in ks && Alive(db, k, now) && m in SetAt(Look(db, k)) :: m
  }

  lemma UnionPurged(db: Store, ks: seq<Bytes>, now: int)
    ensures Union(PurgeAll(db, now), ks) == AliveUnion(db, ks, now) <= Union(db, ks)
  {
    hide PurgeAll, SetAt, Look, Alive;
    forall k: Bytes
      ensures Look(PurgeAll(db, now), k) == if Alive(db, k, now) then Look(db, k) else None
    {
      AliveLooks(db, k, now);
    }
    assert SetAt(None) == {} by { EmptyCell(); }
  }

  lemma EmptyCell()
    ensures SetAt(None) == {} && HashAt(None) == map[]
  {
  }

  lemma AliveLooks(db: Store, k: Bytes, now: int)
    ensures Look(PurgeAll(db, now), k) == if Alive(db, k, now) then Look(db, k) else None
  {
    hide PurgeAll, Look;
    LookPurged(db, now, k);
  }

  lemma IntersectionAlive(db: Store, ks: seq<Bytes>, now: int)
    requires ks != [] && forall k :: k in ks ==> Alive(db, k, now)
    ensures Intersection(PurgeAll(db, now), ks) == Intersection(db, ks)
  {
    hide PurgeAll, SetAt, Alive, Look;
    forall i | 0 <= i < |ks|
      ensures Look(PurgeAll(db, now), ks[i]) == Look(db, ks[i])
    {
      AliveLooks(db, ks[i], now);
    }
  }

  lemma IntersectionDies(db: Store, ks: seq<Bytes>, now: int, k: Bytes)
    requires k in ks && !Alive(db, k, now)
    ensures Intersection(PurgeAll(db, now), ks) == {}
  {
    hide PurgeAll, SetAt, Alive, Look;
    var i :| 0 <= i < |ks| && ks[i] == k;
    AliveLooks(db, k, now);
    assert SetAt(None) == {} by { EmptyCell(); }
  }

  lemma BulksDiffer(x: seq<Bytes>, y: seq<Bytes>)
    ensures Bulks(x) == Bulks(y) <==> x == y
  {
    if Bulks(x) == Bulks(y) {
      var u, v := Bulks(x).elems, Bulks(y).elems;
      assert |u| == |x| && |v| == |y|;
      forall i | 0 <= i < |x|
        ensures x[i] == y[i]
      {
        assert u[i] == v[i];
      }
    }
  }

  lemma OrdersDiffer(order: Enumeration, s: set<Bytes>, t: set<Bytes>)
    ensures Bulks(order(s)) == Bulks(order(t)) <==> s == t
  {
    hide Bulks;
    assert Listing(order(s), s) && Listing(order(t), t);
    BulksDiffer(order(s), order(t));
  }

  lemma KeptVanishes(items: seq<Bytes>, s: set<Bytes>, x: set<Bytes>)
    requires Listing(items, s) && x <= s
    ensures Kept(items, x) == [] <==> x == {}
  {
    hide Kept;
    KeptLists(items, x);
    assert s * x == x;
    if Kept(items, x) == [] {
      assert ToSet([]) == {};
    } else {
      assert Kept(items, x)[0] in ToSet(Kept(items, x));
    }
  }

  lemma InterOnExpired(db: Store, ks: seq<Bytes>, m: Moment)
    requires ks != []
    ensures Answer(db, SInter(ks), m) == Answer(PurgeAll(db, m.now), SInter(ks), m) <==> QueryBlind(db, SInter(ks), m.now)
  {
    hide Bulks, PurgeAll, Alive, SetAt, Look, Kept, Intersection, Listing;
    var purged := PurgeAll(db, m.now);
    var x, y := Intersection(db, ks), Intersection(purged, ks);
    var u, v := m.order(SetAt(Look(db, ks[0]))), m.order(SetAt(Look(purged, ks[0])));
    if forall k :: k in ks ==> Alive(db, k, m.now) {
      IntersectionAlive(db, ks, m.now);
      AliveLooks(db, ks[0], m.now);
    } else {
      var k :| k in ks && !Alive(db, k, m.now);
      IntersectionDies(db, ks, m.now, k);
      KeptNone(v);
      IntersectionOfOne(db, ks);
      KeptVanishes(u, SetAt(Look(db, ks[0])), x);
      BulksDiffer(Kept(u, x), []);
    }
  }

  lemma SetQueryOnExpired(db: Store, q: Query, m: Moment)
    requires q.SUnion? || q.SDiff?
    ensures Answer(db, q, m) == Answer(PurgeAll(db, m.now), q, m) <==> QueryBlind(db, q, m.now)
  {
    hide Bulks, PurgeAll, Union, AliveUnion;
    if q.keys != [] {
      UnionPurged(db, q.keys, m.now);
      if q.SUnion? {
        OrdersDiffer(m.order, Union(db, q.keys), AliveUnion(db, q.keys, m.now));
      } else {
        var first, others := SetAt(Look(db, q.keys[0])), q.keys[1..];
        UnionPurged(db, others, m.now);
        LookPurged(db, m.now, q.keys[0]);
        var kept := if Alive(db, q.keys[0], m.now) then first else {};
        var x, y := Union(db, others), AliveUnion(db, others, m.now);
        OrdersDiffer(m.order, first - x, kept - y);
        DifferencesAgree(first, x, y);
      }
    } else {
      NoUnion(db, m.now);
    }
  }

  lemma NoUnion(db: Store, now: int)
    ensures Union(db, []) == {} && AliveUnion(db, [], now) == {}
  {
  }

  lemma DifferencesAgree(s: set<Bytes>, x: set<Bytes>, y: set<Bytes>)
    requires y <= x
    ensures s - x == s - y <==> s * x <= y
    ensures s - x == {} <==> s <= x
  {
    forall m | m in s && m !in x
      ensures s - x != {}
    {
      assert m in s - x;
    }
  }

  lemma HashQueryOnExpired(db: Store, q: Query, m: Moment)
    requires q.HKeys? || q.HVals? || q.HGetAll?
    ensures Answer(db, q, m) == Answer(PurgeAll(db, m.now), q, m) <==> QueryBlind(db, q, m.now)
  {
    hide Bulks, PurgeAll;
    LookPurged(db, m.now, q.key);
    var h, none := HashAt(Look(db, q.key)), HashAt(None);
    EmptyCell();
    OrdersDiffer(m.order, h.Keys, none.Keys);
    assert h == map[] <==> h.Keys == {};
    var fields := m.order(h.Keys);
    ListedIn(fields, h.Keys);
    NoFields(m.order);
    BulksDiffer(ValuesOf(h, fields), []);
    BulksDiffer(FieldsAndValues(h, fields), []);
    BulksDiffer(fields, []);
  }

  /** For every query and every database: the answer is that of the purged database if and only if
      the query is blind to the expired keys. */
  lemma QueriesOnExpired(db: Store, q: Query, m: Moment)
    ensures Answer(db, q, m) == Answer(PurgeAll(db, m.now), q, m) <==> QueryBlind(db, q, m.now)
  {
    if q.SInter? && q.keys != [] {
      InterOnExpired(db, q.keys, m);
    } else if q.SUnion? || q.SDiff? {
      SetQueryOnExpired(db, q, m);
    } else if q.HKeys? || q.HVals? || q.HGetAll? {
      HashQueryOnExpired(db, q, m);
    } else if q.Keys? {
      hide Bulks;
      OrdersDiffer(m.order, db.Keys, PurgeAll(db, m.now).Keys);
    } else if q.SMembers? {
      hide Bulks, PurgeAll;
      LookPurged(db, m.now, q.key);
      EmptyCell();
      OrdersDiffer(m.order, SetAt(Look(db, q.key)), {});
    }
  }
}
