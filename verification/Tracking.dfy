/** How far the modification counter can be trusted: which commands change what a key shows
    without moving its counter. */
module Tracking {
  import opened Octets
  import opened SortedSets
  import opened Keyspace
  import opened Commands
  import opened Resp
  import Ranges

  /** SADD on a key of another type whose hidden set already has every member: the type
      changes, nothing is counted as added, so nothing is bumped. */
  predicate SilentRetype(c: Cell, op: Op) {
    op.SAdd? && op.items != [] && c.Some? && c.value.kind != SetT && ToSet(op.items) <= c.value.members
  }

  /** HSET with a malformed tail keeps the pairs it wrote before the error and skips the bump. */
  predicate SilentWrite(c: Cell, op: Op) {
    op.HSet? && op.badTail && op.pairs != [] &&
    (Is(c, HashT) ==> HashAfter(c.value.hash, op.pairs) != c.value.hash)
  }

  predicate Silent(c: Cell, op: Op) { SilentRetype(c, op) || SilentWrite(c, op) }

  /** From `c` to `d`: the counter rises by at most one; while the key stays, it never falls, and
      it stands still over a visible change exactly when `silent`; a key that appears has a
      positive counter unless `silent`. */
  predicate Tracked(c: Cell, d: Cell, silent: bool) {
    && Value(d).modCount <= Value(c).modCount + 1
    && (c.Some? && d.Some? ==>
          && c.value.modCount <= d.value.modCount
          && (c.value.modCount == d.value.modCount && View(c) != View(d) <==> silent))
    && (c.None? && d.Some? ==> (d.value.modCount >= 1 <==> !silent))
  }

  lemma StringIsTracked(c: Cell, op: Op, now: int)
    requires FamilyOf(op).StringFamily?
    ensures Tracked(c, ApplyString(c, op, now).cell, Silent(c, op))
  {
    hide Err, OK, TypeName;
  }

  lemma ListIsTracked(c: Cell, op: Op, now: int)
    requires FamilyOf(op).ListFamily?
    ensures Tracked(c, ApplyList(c, op, now).cell, Silent(c, op))
  {
    hide Err, OK, TypeName;
  }

  lemma SAddIsTracked(c: Cell, op: Op)
    requires op.SAdd?
    ensures Tracked(c, ApplySet(c, op).cell, Silent(c, op))
  {
    if op.items != [] {
      assert op.items[0] in ToSet(op.items);
    }
    hide Err, ToSet;
    SetGrows(Value(c).members, ToSet(op.items));
  }

  lemma SRemIsTracked(c: Cell, op: Op)
    requires op.SRem?
    ensures Tracked(c, ApplySet(c, op).cell, Silent(c, op))
  {
    hide Err, ToSet;
    SetShrinks(Value(c).members, ToSet(op.items));
  }

  lemma SetIsTracked(c: Cell, op: Op)
    requires FamilyOf(op).SetFamily?
    ensures Tracked(c, ApplySet(c, op).cell, Silent(c, op))
  {
    if op.SAdd? {
      SAddIsTracked(c, op);
    } else if op.SRem? {
      SRemIsTracked(c, op);
    }
    hide Err, ToSet, AddMembers, RemoveMembers;
  }

  lemma HSetIsTracked(c: Cell, op: Op, now: int)
    requires op.HSet?
    ensures Tracked(c, ApplyHash(c, op, now).cell, Silent(c, op))
  {
    hide Err, HashAfter, WriteFields;
    if op.pairs != [] {
      WriteFieldsValue(c, op.pairs);
    } else {
      NoFieldsWritten(c);
    }
  }

  lemma HashIsTracked(c: Cell, op: Op, now: int)
    requires FamilyOf(op).HashFamily?
    ensures Tracked(c, ApplyHash(c, op, now).cell, Silent(c, op))
  {
    if op.HSet? {
      HSetIsTracked(c, op, now);
    } else {
      hide Err, HashAfter, WriteFields;
      if op.HDel? && Is(c, HashT) {
        MapShrinks(c.value.hash, ToSet(op.items));
      }
    }
  }

  lemma ScoredIsTracked(c: Cell, op: Op, now: int)
    requires FamilyOf(op).ScoredFamily? && CellAgrees(c)
    ensures Tracked(c, ApplyScored(c, op, now).cell, Silent(c, op))
  {
    hide Err, Agree, AddAll, RemoveAll;
    if op.ZRem? && !AnyScored(c, op.items) && Is(c, ZSetT) {
      RemoveNone(c.value.zset, op.items);
    }
  }

  lemma TimeIsTracked(c: Cell, op: Op, now: int)
    requires FamilyOf(op).TimeFamily?
    ensures Tracked(c, ApplyTime(c, op, now).cell, Silent(c, op))
  {
    hide Err, OK, TypeName;
  }

  lemma SetGrows(s: set<Bytes>, t: set<Bytes>)
    ensures |s + t| >= |s| && (|s + t| == |s| <==> t <= s) && (t <= s ==> s + t == s)
  {
    assert s + t == s + (t - s);
    if t <= s {
      assert s + t == s;
    } else {
      assert |s + (t - s)| == |s| + |t - s|;
    }
  }

  lemma SetShrinks(s: set<Bytes>, t: set<Bytes>)
    ensures |s - t| <= |s| && (|s - t| == |s| <==> s - t == s)
  {
    assert s == (s - t) + (s * t);
    assert |s| == |s - t| + |s * t|;
    if |s * t| == 0 {
      assert s * t == {};
    }
  }

  lemma MapShrinks(h: map<Bytes, Bytes>, t: set<Bytes>)
    ensures |h - t| <= |h| && (|h - t| == |h| <==> h - t == h)
  {
    SetShrinks(h.Keys, t);
    assert (h - t).Keys == h.Keys - t;
  }

  /** Removing members that are not there changes neither index. */
  lemma {:induction false} RemoveNone(ix: Index, ms: seq<Bytes>)
    requires Agree(ix) && forall m :: m in ms ==> m !in ix.scores
    ensures RemoveAll(ix, ms) == ix
    decreases |ms|
  {
    if ms != [] {
      assert ms[0] in ms;
      assert !Holds(ix.byScore, ms[0]);
      WithoutAbsent(ix.byScore, ms[0]);
      assert ix.scores - {ms[0]} == ix.scores;
      assert Remove(ix, ms[0]) == ix;
      RemoveNone(ix, ms[1..]);
    }
  }

  /** For every command and every value: the counter misses a visible change exactly in the two
      silent cases, apart from the removal of the key. */
  lemma StepIsTracked(c: Cell, op: Op, now: int)
    requires CellAgrees(c)
    ensures Tracked(c, ApplyCell(c, op, now).cell, Silent(c, op))
  {
    hide ApplyString, ApplyList, ApplySet, ApplyHash, ApplyScored, ApplyTime, Tracked, Silent, Agree;
    match FamilyOf(op)
    case StringFamily => StringIsTracked(c, op, now);
    case ListFamily => ListIsTracked(c, op, now);
    case SetFamily => SetIsTracked(c, op);
    case HashFamily => HashIsTracked(c, op, now);
    case ScoredFamily => ScoredIsTracked(c, op, now);
    case TimeFamily => TimeIsTracked(c, op, now);
  }

  // ----- The counter follows the reply -----

  /** The reply reports a change: SET always, a push its length, a pop its item, even the empty one
      it finds on a key without items, HSET its pairs, and the others a number above 0. */
  predicate Reports(op: Op, r: Wire) {
    if op.Set? then true
    else if op.LPop? || op.RPop? then r.Bulk?
    else if op.HSet? || op.LPush? || op.RPush? then r.Number?
    else (op.SAdd? || op.SRem? || op.HDel? || op.ZAdd? || op.ZRem? || op.Expire? || op.PExpire? || op.Persist?)
         && r.Number? && r.n > 0
  }

  predicate Follows(c: Cell, op: Op, x: Done) {
    x.cell.Some? ==> x.cell.value.modCount == Value(c).modCount + if Reports(op, x.reply) then 1 else 0
  }

  /** The counter of a key that stays moves by one exactly when the reply reports a change. */
  lemma CounterFollowsReply(c: Cell, op: Op, now: int)
    ensures Follows(c, op, ApplyCell(c, op, now))
  {
    hide ApplyString, ApplyList, ApplySet, ApplyHash, ApplyScored, ApplyTime, Follows;
    match FamilyOf(op)
    case StringFamily => StringFollows(c, op, now);
    case ListFamily => ListFollows(c, op, now);
    case SetFamily => SetFollows(c, op);
    case HashFamily => HashFollows(c, op, now);
    case ScoredFamily => ScoredFollows(c, op, now);
    case TimeFamily => TimeFollows(c, op, now);
  }

  lemma StringFollows(c: Cell, op: Op, now: int)
    requires FamilyOf(op).StringFamily?
    ensures Follows(c, op, ApplyString(c, op, now))
  {
    hide OK, TypeName;
  }

  lemma ListFollows(c: Cell, op: Op, now: int)
    requires FamilyOf(op).ListFamily?
    ensures Follows(c, op, ApplyList(c, op, now))
  {
    hide Wording, Text, Ranges.Slice, Bulks;
  }

  lemma SetFollows(c: Cell, op: Op)
    requires FamilyOf(op).SetFamily?
    ensures Follows(c, op, ApplySet(c, op))
  {
    hide Wording, Text, ToSet;
  }

  lemma HashFollows(c: Cell, op: Op, now: int)
    requires FamilyOf(op).HashFamily?
    ensures Follows(c, op, ApplyHash(c, op, now))
  {
    hide Wording, Text, ToSet, WriteFields, HashAfter;
    if op.HSet? {
      if op.pairs == [] {
        NoFieldsWritten(c);
      } else {
        WriteFieldsValue(c, op.pairs);
      }
    }
  }

  lemma ScoredFollows(c: Cell, op: Op, now: int)
    requires FamilyOf(op).ScoredFamily?
    ensures Follows(c, op, ApplyScored(c, op, now))
  {
    hide Wording, Text, AddAll, RemoveAll, Ranges.Slice, Ranges.Reverse, Ranges.RankFrom;
  }

  lemma TimeFollows(c: Cell, op: Op, now: int)
    requires FamilyOf(op).TimeFamily?
    ensures Follows(c, op, ApplyTime(c, op, now))
  {
  }

  // ----- Reads -----

  /** Queries, too, see only what the keys show: two databases with the same views at every key
      answer every query the same way. */
  lemma QueriesSeeOnlyViews(x: Store, y: Store, q: Query, m: Moment)
    requires forall k :: View(Look(x, k)) == View(Look(y, k))
    ensures Answer(x, q, m) == Answer(y, q, m)
  {
    hide Bulks, Err, OK, Kept, ValuesOf, FieldsAndValues;
    forall k: Bytes
      ensures SetAt(Look(x, k)) == SetAt(Look(y, k)) && HashAt(Look(x, k)) == HashAt(Look(y, k))
    {
      ViewFixesContent(Look(x, k), Look(y, k));
    }
    assert x.Keys == y.Keys by {
      assert forall k :: k in x <==> View(Look(x, k)).Some?;
      assert forall k :: k in y <==> View(Look(y, k)).Some?;
    }
    SameSets(x, y, q);
    hide Look, View, Union, Intersection;
  }

  lemma SameSets(x: Store, y: Store, q: Query)
    requires forall k :: SetAt(Look(x, k)) == SetAt(Look(y, k))
    ensures q.SInter? && q.keys != [] ==> Intersection(x, q.keys) == Intersection(y, q.keys)
    ensures forall keys :: Union(x, keys) == Union(y, keys)
  {
    hide SetAt, Look;
    forall keys: seq<Bytes>
      ensures Union(x, keys) == Union(y, keys)
    {
      assert forall k, m :: k in keys && m in SetAt(Look(x, k)) ==> m in Union(y, keys);
      assert forall k, m :: k in keys && m in SetAt(Look(y, k)) ==> m in Union(x, keys);
    }
  }

  lemma ViewFixesContent(c: Cell, d: Cell)
    requires View(c) == View(d)
    ensures SetAt(c) == SetAt(d) && HashAt(c) == HashAt(d)
  {
  }


  predicate IsRead(op: Op) {
    || op.Get? || op.Exists? || op.Type? || op.LLen? || op.LRange? || op.LIndex? || op.SIsMember? || op.SCard?
    || op.HGet? || op.HLen? || op.ZCard? || op.ZRange? || op.ZRevRange? || op.ZScore? || op.ZRank? || op.Ttl? || op.PTtl?
  }

  /** The reply of a read is a function of what the key shows, and a read leaves the cell as it
      was or erases an expired one. */
  predicate ReadsAlike(c: Cell, d: Cell, x: Done, y: Done, now: int) {
    && (View(c) == View(d) ==> x.reply == y.reply)
    && (x.cell == c || (x.cell.None? && Dead(c, now)))
  }

  lemma StringReadsAlike(c: Cell, d: Cell, op: Op, now: int)
    requires FamilyOf(op).StringFamily? && IsRead(op)
    ensures ReadsAlike(c, d, ApplyString(c, op, now), ApplyString(d, op, now), now)
  {
    hide TypeName, OK;
    if op.Type? && View(c) == View(d) {
      SameTypeName(c, d, now);
    }
  }

  lemma ListReadsAlike(c: Cell, d: Cell, op: Op, now: int)
    requires FamilyOf(op).ListFamily? && IsRead(op)
    ensures ReadsAlike(c, d, ApplyList(c, op, now), ApplyList(d, op, now), now)
  {
    hide Err, Ranges.Slice, Ranges.Resolve, Bulks;
  }

  lemma SetReadsAlike(c: Cell, d: Cell, op: Op, now: int)
    requires FamilyOf(op).SetFamily? && IsRead(op)
    ensures ReadsAlike(c, d, ApplySet(c, op), ApplySet(d, op), now)
  {
    hide Err, ToSet;
  }

  lemma HashReadsAlike(c: Cell, d: Cell, op: Op, now: int)
    requires FamilyOf(op).HashFamily? && IsRead(op)
    ensures ReadsAlike(c, d, ApplyHash(c, op, now), ApplyHash(d, op, now), now)
  {
    hide Err;
  }

  lemma ScoredReadsAlike(c: Cell, d: Cell, op: Op, now: int)
    requires FamilyOf(op).ScoredFamily? && IsRead(op)
    ensures ReadsAlike(c, d, ApplyScored(c, op, now), ApplyScored(d, op, now), now)
  {
    hide Err, Ranges.Slice, Ranges.Reverse, Ranges.RankFrom, Bulks;
  }

  lemma TimeReadsAlike(c: Cell, d: Cell, op: Op, now: int)
    requires FamilyOf(op).TimeFamily? && IsRead(op)
    ensures ReadsAlike(c, d, ApplyTime(c, op, now), ApplyTime(d, op, now), now)
  {
    hide OK;
  }

  lemma SameTypeName(c: Cell, d: Cell, now: int)
    requires View(c) == View(d)
    ensures TypeName(Purge(c, now)) == TypeName(Purge(d, now))
  {
    hide Text;
  }

  /** Storage left over from another type never shows: two values with the same view answer
      every read the same way. */
  lemma ReadsSeeOnlyView(c: Cell, d: Cell, op: Op, now: int)
    requires IsRead(op)
    ensures ReadsAlike(c, d, ApplyCell(c, op, now), ApplyCell(d, op, now), now)
  {
    hide ApplyString, ApplyList, ApplySet, ApplyHash, ApplyScored, ApplyTime, ReadsAlike;
    match FamilyOf(op)
    case StringFamily => StringReadsAlike(c, d, op, now);
    case ListFamily => ListReadsAlike(c, d, op, now);
    case SetFamily => SetReadsAlike(c, d, op, now);
    case HashFamily => HashReadsAlike(c, d, op, now);
    case ScoredFamily => ScoredReadsAlike(c, d, op, now);
    case TimeFamily => TimeReadsAlike(c, d, op, now);
  }
}
