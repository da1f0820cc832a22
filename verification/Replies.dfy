/** Replies: every one is one well-formed RESP value, because sizes bound the numbers in it; and
    the loops that format them. */
module Replies {
  import opened Octets
  import opened SortedSets
  import opened Keyspace
  import opened Commands
  import opened Transactions
  import Ranges
  import Tracking
  import R = Resp

  // ----- Sizes -----

  /** No container of the value has more than `n` elements. */
  predicate CellBelow(c: Cell, n: nat) {
    var v := Value(c);
    && |v.list| <= n && |v.members| <= n && |v.hash| <= n
    && |v.zset.byScore| <= n && |v.zset.scores| <= n
  }

  ghost predicate StoreBelow(db: Store, n: nat) {
    forall k :: k in db ==> CellBelow(Some(db[k]), n)
  }

  /** By how many elements a command can make a container grow. */
  function Width(op: Op): nat {
    match op
    case LPush(_, items) => |items|
    case RPush(_, items) => |items|
    case SAdd(_, items) => |items|
    case HSet(_, pairs, _) => |pairs|
    case ZAdd(_, entries) => |entries|
    case _ => 0
  }

  function RequestWidth(req: Request): nat { if req.Run? then Width(req.op) else 0 }

  function QueueWidth(queue: seq<Request>): nat {
    if queue == [] then 0
    else RequestWidth(queue[0]) + QueueWidth(queue[1..])
  }

  lemma {:induction false} ToSetSize(items: seq<Bytes>)
    ensures |ToSet(items)| <= |items|
  {
    if items != [] {
      var n := |items| - 1;
      ToSetSize(items[..n]);
      assert ToSet(items) == ToSet(items[..n]) + {items[n]};
    }
  }

  lemma UnionSize(s: set<Bytes>, t: set<Bytes>)
    ensures |s| <= |s + t| <= |s| + |t|
  {
    assert s + t == s + (t - s);
    assert |s + (t - s)| == |s| + |t - s|;
    assert t == (t - s) + (t * s);
    assert |t| == |t - s| + |t * s|;
  }

  lemma {:induction false} HashAfterSize(h: map<Bytes, Bytes>, pairs: seq<(Bytes, Bytes)>)
    ensures |HashAfter(h, pairs)| <= |h| + |pairs|
    decreases |pairs|
  {
    if pairs != [] {
      var g := h[pairs[0].0 := pairs[0].1];
      assert g.Keys == h.Keys + {pairs[0].0};
      UnionSize(h.Keys, {pairs[0].0});
      HashAfterSize(g, pairs[1..]);
    }
  }

  lemma {:induction false} AddAllSize(ix: Index, es: seq<Entry>)
    ensures |AddAll(ix, es).byScore| <= |ix.byScore| + |es|
    ensures |AddAll(ix, es).scores| <= |ix.scores| + |es|
    decreases |es|
  {
    if es != [] {
      var r := Add(ix, es[0]);
      assert r.scores.Keys == ix.scores.Keys + {es[0].1};
      UnionSize(ix.scores.Keys, {es[0].1});
      AddAllSize(r, es[1..]);
    }
  }

  lemma {:induction false} RemoveAllSize(ix: Index, ms: seq<Bytes>)
    ensures |RemoveAll(ix, ms).byScore| <= |ix.byScore| && |RemoveAll(ix, ms).scores| <= |ix.scores|
    decreases |ms|
  {
    if ms != [] {
      var r := Remove(ix, ms[0]);
      assert r.scores.Keys == ix.scores.Keys - {ms[0]};
      Tracking.SetShrinks(ix.scores.Keys, {ms[0]});
      RemoveAllSize(r, ms[1..]);
    }
  }

  lemma {:induction false} RankSize(z: seq<Entry>, o: int, m: Bytes, i: nat)
    requires i <= |z|
    ensures Ranges.RankFrom(z, o, m, i) <= |z| - i
    decreases |z| - i
  {
    if i < |z| {
      RankSize(z, o, m, i + 1);
    }
  }

  // ----- Growth and numbers, family by family -----

  lemma FreshBelow(n: nat)
    ensures CellBelow(None, n)
  {
    var bare: map<Bytes, Bytes>, none: map<Bytes, Score> := map[], map[];
    assert |bare| == 0 && |none| == 0;
  }

  /** The containers grow by at most the width, and a number replied lies between 0 and one more
      than the largest size. */
  predicate Bounded(x: Done, n: nat) {
    CellBelow(x.cell, n) && (x.reply.Number? ==> 0 <= x.reply.n <= n + 1)
  }

  lemma StringIsBounded(c: Cell, op: Op, now: int, n: nat)
    requires FamilyOf(op).StringFamily? && CellBelow(c, n)
    ensures Bounded(ApplyString(c, op, now), n + Width(op))
  {
    FreshBelow(n + Width(op));
    hide OK, TypeName;
  }

  lemma PushIsBounded(c: Cell, op: Op, now: int, n: nat)
    requires (op.LPush? || op.RPush?) && CellBelow(c, n)
    ensures Bounded(ApplyList(c, op, now), n + Width(op))
  {
    hide Wording, Text;
    FreshBelow(n + Width(op));
  }

  lemma PopIsBounded(c: Cell, op: Op, now: int, n: nat)
    requires (op.LPop? || op.RPop?) && CellBelow(c, n)
    ensures Bounded(ApplyList(c, op, now), n + Width(op))
  {
    FreshBelow(n + Width(op));
  }

  lemma ListIsBounded(c: Cell, op: Op, now: int, n: nat)
    requires FamilyOf(op).ListFamily? && CellBelow(c, n)
    ensures Bounded(ApplyList(c, op, now), n + Width(op))
  {
    if op.LPush? || op.RPush? {
      PushIsBounded(c, op, now, n);
    } else if op.LPop? || op.RPop? {
      PopIsBounded(c, op, now, n);
    } else {
      hide Ranges.Slice, Ranges.Resolve, Bulks;
      FreshBelow(n + Width(op));
    }
  }

  lemma SAddIsBounded(c: Cell, op: Op, n: nat)
    requires op.SAdd? && CellBelow(c, n)
    ensures Bounded(ApplySet(c, op), n + Width(op))
  {
    hide Wording, Text, ToSet;
    FreshBelow(n + Width(op));
    ToSetSize(op.items);
    UnionSize(Value(c).members, ToSet(op.items));
  }

  lemma SRemIsBounded(c: Cell, op: Op, n: nat)
    requires op.SRem? && CellBelow(c, n)
    ensures Bounded(ApplySet(c, op), n + Width(op))
  {
    hide Wording, Text, ToSet;
    FreshBelow(n + Width(op));
    Tracking.SetShrinks(Value(c).members, ToSet(op.items));
  }

  lemma SetIsBounded(c: Cell, op: Op, n: nat)
    requires FamilyOf(op).SetFamily? && CellBelow(c, n)
    ensures Bounded(ApplySet(c, op), n + Width(op))
  {
    if op.SAdd? {
      SAddIsBounded(c, op, n);
    } else if op.SRem? {
      SRemIsBounded(c, op, n);
    } else {
      FreshBelow(n + Width(op));
    }
  }

  lemma HSetIsBounded(c: Cell, op: Op, now: int, n: nat)
    requires op.HSet? && CellBelow(c, n)
    ensures Bounded(ApplyHash(c, op, now), n + Width(op))
  {
    hide Wording, Text, HashAfter, WriteFields;
    FreshBelow(n + Width(op));
    HashAfterSize(Value(c).hash, op.pairs);
    if op.pairs != [] {
      WriteFieldsValue(c, op.pairs);
    } else {
      NoFieldsWritten(c);
    }
  }

  lemma HDelIsBounded(c: Cell, op: Op, now: int, n: nat)
    requires op.HDel? && CellBelow(c, n)
    ensures Bounded(ApplyHash(c, op, now), n + Width(op))
  {
    hide Wording, Text, ToSet;
    if Is(c, HashT) {
      Tracking.MapShrinks(c.value.hash, ToSet(op.items));
    }
  }

  lemma HashReadIsBounded(c: Cell, op: Op, now: int, n: nat)
    requires (op.HGet? || op.HLen?) && CellBelow(c, n)
    ensures Bounded(ApplyHash(c, op, now), n + Width(op))
  {
    FreshBelow(n);
  }

  lemma HashIsBounded(c: Cell, op: Op, now: int, n: nat)
    requires FamilyOf(op).HashFamily? && CellBelow(c, n)
    ensures Bounded(ApplyHash(c, op, now), n + Width(op))
  {
    hide ApplyHash, Bounded, CellBelow;
    if op.HSet? {
      HSetIsBounded(c, op, now, n);
    } else if op.HDel? {
      HDelIsBounded(c, op, now, n);
    } else {
      HashReadIsBounded(c, op, now, n);
    }
  }

  lemma ZAddIsBounded(c: Cell, op: Op, now: int, n: nat)
    requires op.ZAdd? && CellBelow(c, n)
    ensures Bounded(ApplyScored(c, op, now), n + Width(op))
  {
    hide Wording, Text, AddAll;
    FreshBelow(n + Width(op));
    AddAllSize(Value(c).zset, op.entries);
  }

  lemma ZRemIsBounded(c: Cell, op: Op, now: int, n: nat)
    requires op.ZRem? && CellBelow(c, n)
    ensures Bounded(ApplyScored(c, op, now), n + Width(op))
  {
    hide Wording, Text, RemoveAll;
    FreshBelow(n + Width(op));
    RemoveAllSize(Value(c).zset, op.items);
  }

  lemma ScoredIsBounded(c: Cell, op: Op, now: int, n: nat)
    requires FamilyOf(op).ScoredFamily? && CellBelow(c, n)
    ensures Bounded(ApplyScored(c, op, now), n + Width(op))
  {
    if op.ZAdd? {
      ZAddIsBounded(c, op, now, n);
    } else if op.ZRem? {
      ZRemIsBounded(c, op, now, n);
    } else {
      hide Ranges.Slice, Ranges.Reverse, Ranges.RankFrom, Bulks;
      FreshBelow(n + Width(op));
      if op.ZRank? && op.item in ScoredAt(c).scores {
        var ix := ScoredAt(c);
        RankSize(ix.byScore, Order(ix.scores[op.item]), op.item, 0);
      }
    }
  }

  lemma StepIsBounded(c: Cell, op: Op, now: int, n: nat)
    requires Transactable(op) && CellBelow(c, n)
    ensures Bounded(ApplyCell(c, op, now), n + Width(op))
  {
    hide ApplyString, ApplyList, ApplySet, ApplyHash, ApplyScored, Bounded, CellBelow, Width;
    match FamilyOf(op)
    case StringFamily => StringIsBounded(c, op, now, n);
    case ListFamily => ListIsBounded(c, op, now, n);
    case SetFamily => SetIsBounded(c, op, n);
    case HashFamily => HashIsBounded(c, op, now, n);
    case ScoredFamily => ScoredIsBounded(c, op, now, n);
  }

  // ----- Well-formedness, family by family -----

  /** Well-formed as soon as a number in it fits 64 bits. */
  predicate GoodReply(r: R.Wire) { (r.Number? ==> InInt64(r.n)) ==> R.WellFormed(r) }

  lemma StringReplyIsGood(c: Cell, op: Op, now: int)
    requires FamilyOf(op).StringFamily?
    ensures GoodReply(ApplyString(c, op, now).reply)
  {
    hide OK, TypeName, InInt64, R.PlainLine;
    OkIsWellFormed();
    TypeNameIsPlain(Purge(c, now));
  }

  lemma ListReplyIsGood(c: Cell, op: Op, now: int)
    requires FamilyOf(op).ListFamily?
    ensures GoodReply(ApplyList(c, op, now).reply)
  {
    hide Err, InInt64, R.PlainLine, Ranges.Slice, Ranges.RankFrom, WriteFields, AddAll, RemoveAll;
    hide Bulks;
    EveryBulksIsWellFormed();
    EveryErrorIsWellFormed();
  }

  lemma SetReplyIsGood(c: Cell, op: Op)
    requires FamilyOf(op).SetFamily?
    ensures GoodReply(ApplySet(c, op).reply)
  {
    hide Err, InInt64, R.PlainLine, Ranges.Slice, Ranges.RankFrom, WriteFields, AddAll, RemoveAll;
    EveryErrorIsWellFormed();
  }

  lemma HashReplyIsGood(c: Cell, op: Op, now: int)
    requires FamilyOf(op).HashFamily?
    ensures GoodReply(ApplyHash(c, op, now).reply)
  {
    hide Err, InInt64, R.PlainLine, Ranges.Slice, Ranges.RankFrom, WriteFields, AddAll, RemoveAll;
    EveryErrorIsWellFormed();
  }

  lemma ScoredReplyIsGood(c: Cell, op: Op, now: int)
    requires FamilyOf(op).ScoredFamily?
    ensures GoodReply(ApplyScored(c, op, now).reply)
  {
    hide Err, InInt64, R.PlainLine, Ranges.Slice, Ranges.RankFrom, WriteFields, AddAll, RemoveAll;
    hide Bulks;
    EveryBulksIsWellFormed();
    EveryErrorIsWellFormed();
  }

  /** Times to live: the difference of two times in milliseconds since the epoch. */
  lemma TimeReplyIsWellFormed(c: Cell, op: Op, now: int)
    requires FamilyOf(op).TimeFamily? && 0 <= now && Value(c).expiry < TWO_63
    ensures R.WellFormed(ApplyTime(c, op, now).reply)
  {
  }

  lemma TransactableReplyIsGood(c: Cell, op: Op, now: int)
    requires Transactable(op)
    ensures GoodReply(ApplyCell(c, op, now).reply)
  {
    hide ApplyString, ApplyList, ApplySet, ApplyHash, ApplyScored, GoodReply;
    match FamilyOf(op)
    case StringFamily => StringReplyIsGood(c, op, now);
    case ListFamily => ListReplyIsGood(c, op, now);
    case SetFamily => SetReplyIsGood(c, op);
    case HashFamily => HashReplyIsGood(c, op, now);
    case ScoredFamily => ScoredReplyIsGood(c, op, now);
  }

  /** Every reply of every data command is one well-formed RESP value: sizes below 2^63 keep
      every count in range, and so do a non-negative clock and a 64-bit expiry for the times to
      live. */
  lemma ReplyIsWellFormed(c: Cell, op: Op, now: int, n: nat)
    requires CellBelow(c, n) && n + Width(op) + 1 < TWO_63
    requires Transactable(op) || (0 <= now && Value(c).expiry < TWO_63)
    ensures R.WellFormed(ApplyCell(c, op, now).reply)
  {
    hide ApplyCell, CellBelow, Width, R.WellFormed;
    if Transactable(op) {
      StepIsBounded(c, op, now, n);
      TransactableReplyIsGood(c, op, now);
    } else {
      TimeUnfolds(c, op, now);
      TimeReplyIsWellFormed(c, op, now);
    }
  }

  lemma TimeUnfolds(c: Cell, op: Op, now: int)
    requires !Transactable(op)
    ensures ApplyCell(c, op, now) == ApplyTime(c, op, now)
  {
    hide ApplyTime;
  }

  lemma EveryBulksIsWellFormed()
    ensures forall items: seq<Bytes> :: R.WellFormed(Bulks(items))
  {
    forall items: seq<Bytes>
      ensures R.WellFormed(Bulks(items))
    {
      var ws := Bulks(items).elems;
      assert forall i :: 0 <= i < |ws| ==> R.WellFormed(ws[i]);
    }
  }

  lemma EveryErrorIsWellFormed()
    ensures forall m: Complaint :: R.WellFormed(Err(m))
  {
    hide Err;
    forall m: Complaint
      ensures R.WellFormed(Err(m))
    {
      ErrorIsWellFormed(m);
    }
  }

  lemma TextIsPlain(s: string)
    ensures R.PlainLine(Text(s))
  {
  }

  lemma ErrorIsWellFormed(m: Complaint)
    ensures R.WellFormed(Err(m))
  {
    hide R.PlainLine, Text, Wording;
    TextIsPlain(Wording(m));
  }

  lemma OkIsWellFormed()
    ensures R.WellFormed(OK())
  {
    hide R.PlainLine, Text;
    TextIsPlain("OK");
  }

  lemma TypeNameIsPlain(c: Cell)
    ensures R.PlainLine(TypeName(c))
  {
  }

  // ----- EXEC -----

  lemma LookBelow(db: Store, n: nat, k: Bytes)
    requires StoreBelow(db, n)
    ensures CellBelow(Look(db, k), n)
  {
  }

  lemma StoreStaysBelow(db: Store, op: Op, now: int, n: nat)
    requires Transactable(op) && StoreBelow(db, n)
    ensures StoreBelow(Apply(db, op, now).0, n + Width(op))
  {
    hide ApplyCell, Width;
    LookBelow(db, n, op.key);
    StepIsBounded(Look(db, op.key), op, now, n);
  }

  /** One queued request: a well-formed reply, and sizes grow by at most its width. */
  lemma QueuedReplyIsWellFormed(db: Store, req: Request, m: Moment, n: nat)
    requires StoreBelow(db, n) && n + RequestWidth(req) + 1 < TWO_63
    ensures R.WellFormed(RunQueued(db, req, m).1)
    ensures StoreBelow(RunQueued(db, req, m).0, n + RequestWidth(req))
  {
    hide Apply, Answer, Err, R.WellFormed, StoreBelow, Width;
    if InDispatcher(req) && req.Run? {
      AppliedReplyIsWellFormed(db, req.op, m.now, n);
      StoreStaysBelow(db, req.op, m.now, n);
    } else {
      BelowGrows(db, n, n + RequestWidth(req));
      ErrorIsWellFormed(UnknownCommand);
      if req.Ask? {
        AnswerIsWellFormed(db, req.query, m);
      } else if req.Refused? {
        ErrorIsWellFormed(Rejected(req.name, req.fault));
      }
    }
  }

  lemma AnswerIsWellFormed(db: Store, q: Query, m: Moment)
    ensures R.WellFormed(Answer(db, q, m))
  {
    hide Err, OK, Bulks, R.WellFormed, Kept, Intersection, Union, ValuesOf, FieldsAndValues;
    EveryBulksIsWellFormed();
    EveryErrorIsWellFormed();
    OkIsWellFormed();
  }

  lemma AppliedReplyIsWellFormed(db: Store, op: Op, now: int, n: nat)
    requires Transactable(op) && StoreBelow(db, n) && n + Width(op) + 1 < TWO_63
    ensures R.WellFormed(Apply(db, op, now).1)
  {
    hide ApplyCell, R.WellFormed, StoreBelow, Look, Put, Width, CellBelow;
    LookBelow(db, n, op.key);
    ReplyIsWellFormed(Look(db, op.key), op, now, n);
  }

  lemma BelowGrows(db: Store, n: nat, m: nat)
    requires StoreBelow(db, n) && n <= m
    ensures StoreBelow(db, m)
  {
  }

  lemma {:induction false} QueueRepliesAreWellFormed(db: Store, queue: seq<Request>, at: Moments, i: nat, n: nat)
    requires StoreBelow(db, n) && n + QueueWidth(queue) + 1 < TWO_63
    ensures R.AllWellFormed(RunQueue(db, queue, at, i).1)
    decreases |queue|
  {
    hide StoreBelow, RunQueued, R.WellFormed, RequestWidth;
    if queue != [] {
      var req := queue[0];
      QueuedReplyIsWellFormed(db, req, at(i), n);
      var first := RunQueued(db, req, at(i));
      QueueRepliesAreWellFormed(first.0, queue[1..], at, i + 1, n + RequestWidth(req));
      assert RunQueue(db, queue, at, i).1 == [first.1] + RunQueue(first.0, queue[1..], at, i + 1).1;
    }
  }

  lemma ArrayIsWellFormed(rs: seq<R.Wire>)
    requires R.AllWellFormed(rs)
    ensures R.WellFormed(R.Multi(rs))
  {
  }

  /** The reply of a committed EXEC is read back as one array with one element per queued
      request, element i being the value that reply i alone is read as, and no byte of it is
      left over. The only condition is that sizes stay below 2^63. */
  lemma ExecReplyParses(db: Store, cl: Client, at: Moments, n: nat, tail: Bytes)
    requires cl.inTx && !Conflict(db, cl.watched)
    requires StoreBelow(db, n) && n + QueueWidth(cl.queue) + 1 < TWO_63
    requires |R.Print(HandleExec(db, cl, false, at).reply) + tail| < TWO_64
    ensures var reply := HandleExec(db, cl, false, at).reply;
            var rs := RunQueue(db, cl.queue, at, 0).1;
            && |rs| == |cl.queue|
            && R.Parse(R.Print(reply) + tail, 0) == R.Ok(R.Array(R.MeaningAll(rs)), |R.Print(reply)|)
            && (forall i :: 0 <= i < |rs| ==>
                  R.Parse(R.Print(rs[i]), 0) == R.Ok(R.MeaningAll(rs)[i], |R.Print(rs[i])|))
  {
    hide R.Parse, R.Print, RunQueue, Err, Conflict, StoreBelow, R.WellFormed, QueueWidth, R.Meaning;
    var rs := RunQueue(db, cl.queue, at, 0).1;
    QueueRepliesAreWellFormed(db, cl.queue, at, 0, n);
    ArrayIsWellFormed(rs);
    R.ParseUndoesPrint(R.Multi(rs), R.Print(R.Multi(rs)) + tail, 0);
    MeaningOfArray(rs);
    forall i | 0 <= i < |rs|
      ensures R.Parse(R.Print(rs[i]), 0) == R.Ok(R.MeaningAll(rs)[i], |R.Print(rs[i])|)
    {
      ElementIsShorter(rs, i);
      R.ParseUndoesPrint(rs[i], R.Print(rs[i]), 0);
    }
  }

  lemma ElementIsShorter(rs: seq<R.Wire>, i: nat)
    requires i < |rs|
    ensures |R.Print(rs[i])| <= |R.Print(R.Multi(rs))|
  {
    hide R.Print, R.PrintAll, SignedDecimal;
    ArrayUnfolds(rs);
    ElementInAll(rs, i);
  }

  lemma {:induction false} ElementInAll(rs: seq<R.Wire>, i: nat)
    requires i < |rs|
    ensures |R.Print(rs[i])| <= |R.PrintAll(rs)|
  {
    hide R.Print;
    if i > 0 {
      ElementInAll(rs[1..], i - 1);
    }
  }

  lemma MeaningOfArray(rs: seq<R.Wire>)
    ensures R.Meaning(R.Multi(rs)) == R.Array(R.MeaningAll(rs))
  {
    hide R.MeaningAll;
  }

  // ----- Formatting -----

  method FormatBulk(s: Bytes) returns (text: Bytes)
    ensures text == R.Print(R.Bulk(s))
  {
    text := [36] + SignedDecimal(|s|) + CRLF + (s + CRLF);
  }

  /** The array formatter shared by the list-valued handlers. */
  method FormatArray(items: seq<Bytes>) returns (text: Bytes)
    ensures text == R.Print(Bulks(items))
  {
    hide R.Print, R.PrintAll, SignedDecimal;
    ghost var ws := Bulks(items).elems;
    ArrayUnfolds(ws);
    assert ws[0..] == ws;
    text := [42] + SignedDecimal(|items|) + CRLF;
    var i := 0;
    while i < |items|
      invariant i <= |items| && text + R.PrintAll(ws[i..]) == R.Print(R.Multi(ws))
    {
      ElementUnfolds(ws, i);
      var item := FormatBulk(items[i]);
      text := text + item;
      i := i + 1;
    }
    NothingLeft(ws);
  }

  /** The end of EXEC: the header, then the reply of each command as it was formatted. */
  method FormatExec(results: seq<Bytes>, ghost rs: seq<R.Wire>) returns (text: Bytes)
    requires |rs| == |results| && forall i :: 0 <= i < |rs| ==> results[i] == R.Print(rs[i])
    ensures text == R.Print(R.Multi(rs))
  {
    hide R.Print, R.PrintAll, SignedDecimal;
    ArrayUnfolds(rs);
    assert rs[0..] == rs;
    text := [42] + SignedDecimal(|results|) + CRLF;
    var i := 0;
    while i < |results|
      invariant i <= |results| && text + R.PrintAll(rs[i..]) == R.Print(R.Multi(rs))
    {
      ElementUnfolds(rs, i);
      text := text + results[i];
      i := i + 1;
    }
    NothingLeft(rs);
  }

  lemma ArrayUnfolds(ws: seq<R.Wire>)
    ensures R.Print(R.Multi(ws)) == [42] + SignedDecimal(|ws|) + CRLF + R.PrintAll(ws)
  {
    hide R.PrintAll, SignedDecimal;
  }

  lemma ElementUnfolds(ws: seq<R.Wire>, i: nat)
    requires i < |ws|
    ensures R.PrintAll(ws[i..]) == R.Print(ws[i]) + R.PrintAll(ws[i + 1..])
  {
    hide R.Print;
    assert ws[i..][0] == ws[i] && ws[i..][1..] == ws[i + 1..];
  }

  lemma NothingLeft(ws: seq<R.Wire>)
    ensures R.PrintAll(ws[|ws|..]) == []
  {
  }
}
