/** Properties of one key over whole runs of the server: the order of a sorted set, and lists
    used as queues. */
module Histories {
  import opened Octets
  import opened SortedSets
  import opened Keyspace
  import opened Commands
  import opened Transactions
  import opened Traces
  import opened Snapshots
  import opened SnapshotLoads
  import R = Resp
  import Ranges

  // ----- Sorted sets: members by latest ZADD -----

  /** The members of the key's sorted set in the order of their latest ZADD, after one command
      that turned cell `c` into `d`. Removing the key forgets them all. */
  function RecencyAfter(l: seq<Entry>, c: Cell, d: Cell, op: Op): seq<Entry> {
    if d.None? then []
    else if op.ZAdd? then TouchAll(l, op.entries)
    else if op.ZRem? && Is(c, ZSetT) then DropAll(l, op.items)
    else l
  }

  function Recency(l: seq<Entry>, c: Cell, k: Bytes, ops: seq<Timed>): seq<Entry>
    decreases |ops|
  {
    if ops == [] then l
    else
      var d := Next(c, k, ops[0]);
      Recency(if ops[0].op.key == k then RecencyAfter(l, c, d, ops[0].op) else l, d, k, ops[1..])
  }

  /** Both indexes agree and the multimap is the stable sort of `l`. */
  ghost predicate InOrder(c: Cell, l: seq<Entry>) {
    CellAgrees(c) && IsStableSort(Value(c).zset.byScore, l)
  }

  lemma EmptyInOrder()
    ensures InOrder(None, [])
  {
  }

  lemma StepKeepsOrder(c: Cell, l: seq<Entry>, op: Op, now: int)
    requires InOrder(c, l)
    ensures var d := ApplyCell(c, op, now).cell;
            InOrder(d, RecencyAfter(l, c, d, op))
  {
    CellKeepsAgreement(c, op, now);
    EmptyInOrder();
    if op.ZAdd? {
      AddAllIsStable(Value(c).zset, op.entries, l);
      AddedValue(c, op, now);
    } else if op.ZRem? {
      RemoveAllIsStable(Value(c).zset, op.items, l);
      RemovedValue(c, op, now);
    } else {
      OnlyScoredWritesIndex(c, op, now);
    }
    hide ApplyCell, Agree, IsStableSort, TouchAll, DropAll;
  }

  lemma AddedValue(c: Cell, op: Op, now: int)
    requires op.ZAdd?
    ensures var d := ApplyCell(c, op, now).cell;
            Value(d).zset == (if op.entries == [] then Value(c).zset else AddAll(Value(c).zset, op.entries))
    ensures op.entries == [] ==> forall l :: TouchAll(l, op.entries) == l
  {
    hide Err, Agree;
  }

  lemma RemovedValue(c: Cell, op: Op, now: int)
    requires op.ZRem?
    ensures var d := ApplyCell(c, op, now).cell;
            Value(d).zset == (if Is(c, ZSetT) then RemoveAll(Value(c).zset, op.items) else Value(c).zset)
    ensures ApplyCell(c, op, now).cell.None? ==> c.None?
  {
    hide Err, Agree;
  }

  lemma {:induction false} TraceKeepsOrder(c: Cell, l: seq<Entry>, k: Bytes, ops: seq<Timed>)
    requires InOrder(c, l)
    ensures InOrder(CellAfter(c, k, ops), Recency(l, c, k, ops))
    decreases |ops|
  {
    hide ApplyCell, InOrder, RecencyAfter;
    if ops != [] {
      var d := Next(c, k, ops[0]);
      if ops[0].op.key == k {
        StepKeepsOrder(c, l, ops[0].op, ops[0].now);
      }
      TraceKeepsOrder(d, if ops[0].op.key == k then RecencyAfter(l, c, d, ops[0].op) else l, k, ops[1..]);
    }
  }

  /** Sorted-set order over every run of any number of clients, from any server: at every key the
      two indexes agree, and the multimap is the stable sort by score of the members in order of
      their latest ZADD, if at the start it was that of `l`. */
  lemma EveryRunKeepsOrder(s: Server, l: seq<Entry>, events: seq<Event>, k: Bytes)
    requires InOrder(Look(s.db, k), l)
    ensures InOrder(Look(Play(s, events).db, k), Recency(l, Look(s.db, k), k, Trace(s, events)))
  {
    hide InOrder, Recency, Trace, Play, CellAfter;
    var ops := Trace(s, events);
    RunEffects(s, events);
    LookAfter(s.db, k, ops);
    TraceKeepsOrder(Look(s.db, k), l, k, ops);
  }

  /** There is always such an `l`: the index itself. So the theorem covers a server that starts
      with an empty database and one that starts with whatever a snapshot file held. */
  lemma IndexIsItsOwnOrder(c: Cell)
    requires CellAgrees(c)
    ensures InOrder(c, Value(c).zset.byScore)
  {
  }

  lemma LoadedServerIsInOrder(b: Bytes, k: Bytes)
    ensures var c := Look(LoadFile(b, map[]).1, k);
            InOrder(c, Value(c).zset.byScore)
  {
    hide InOrder, LoadFile, AllAgree, CellAgrees;
    LoadedServer(b);
    LookAgrees(LoadFile(b, map[]).1, k);
    IndexIsItsOwnOrder(Look(LoadFile(b, map[]).1, k));
  }

  // ----- Lists as queues -----

  /** A batch push is the same as pushing its items one at a time. */
  function PushFrontEach(c: Cell, items: seq<Bytes>): Cell
    decreases |items|
  {
    if items == [] then c else PushFrontEach(PushFront(c, [items[0]]), items[1..])
  }

  lemma {:induction false} BatchPushIsOneByOne(c: Cell, items: seq<Bytes>)
    requires items != []
    ensures PushFront(c, items) == PushFrontEach(c, items)
    decreases |items|
  {
    hide Ranges.Reverse;
    var d := PushFront(c, [items[0]]);
    assert items == [items[0]] + items[1..];
    Ranges.ReverseAppend([items[0]], items[1..]);
    ReverseOne(items[0]);
    if |items| == 1 {
      assert items[1..] == [] && items == [items[0]];
    } else {
      BatchPushIsOneByOne(d, items[1..]);
      var r, l := Ranges.Reverse(items[1..]), Value(c).list;
      assert r + ([items[0]] + l) == r + [items[0]] + l;
    }
  }

  lemma ReverseOne(x: Bytes)
    ensures Ranges.Reverse([x]) == [x]
  {
  }

  /** A list used as a queue: items go in by LPUSH and come out by RPOP, or the other way round. */
  datatype Queue = LeftIn | RightIn

  predicate Pushes(q: Queue, op: Op) { if q.LeftIn? then op.LPush? else op.RPush? }

  predicate Pops(q: Queue, op: Op) { if q.LeftIn? then op.RPop? else op.LPop? }

  /** The items in the order they will come out. */
  function Waiting(q: Queue, c: Cell): seq<Bytes> {
    if q.LeftIn? then Ranges.Reverse(Value(c).list) else Value(c).list
  }

  /** What one command puts in. */
  function In(q: Queue, k: Bytes, t: Timed): seq<Bytes> {
    if Pushes(q, t.op) && t.op.key == k then t.op.items else []
  }

  function Pushed(q: Queue, k: Bytes, ops: seq<Timed>): seq<Bytes> {
    if ops == [] then [] else In(q, k, ops[0]) + Pushed(q, k, ops[1..])
  }

  /** What a pop handed out: a null or empty reply hands out nothing. */
  function HandedOut(r: R.Wire): seq<Bytes> { if r.Bulk? && r.text != [] then [r.text] else [] }

  function Out(q: Queue, c: Cell, k: Bytes, t: Timed): seq<Bytes> {
    if Pops(q, t.op) && t.op.key == k then HandedOut(ApplyCell(c, t.op, t.now).reply) else []
  }

  function Popped(q: Queue, c: Cell, k: Bytes, ops: seq<Timed>): seq<Bytes>
    decreases |ops|
  {
    if ops == [] then [] else Out(q, c, k, ops[0]) + Popped(q, Next(c, k, ops[0]), k, ops[1..])
  }

  /** On key `k` the run only pushes non-empty items at one end and pops at the other. */
  predicate OnlyQueues(q: Queue, k: Bytes, ops: seq<Timed>) {
    forall i :: 0 <= i < |ops| && ops[i].op.key == k ==>
      Pops(q, ops[i].op) || (Pushes(q, ops[i].op) && NonEmpty(ops[i].op.items))
  }

  predicate NonEmpty(items: seq<Bytes>) { forall i :: 0 <= i < |items| ==> items[i] != [] }

  lemma PushStep(q: Queue, c: Cell, op: Op, now: int)
    requires Pushes(q, op) && NonEmpty(op.items) && NonEmpty(Value(c).list)
    ensures var d := ApplyCell(c, op, now).cell;
            Waiting(q, d) == Waiting(q, c) + op.items && NonEmpty(Value(d).list)
  {
    var d := ApplyCell(c, op, now).cell;
    if op.items == [] {
      assert Waiting(q, c) + [] == Waiting(q, c);
    } else if q.LeftIn? {
      var r, l := Ranges.Reverse(op.items), Value(c).list;
      assert Value(d).list == r + l;
      Ranges.ReverseAppend(r, l);
      assert Ranges.Reverse(r) == op.items;
    }
  }

  lemma PopTakesOne(c: Cell, op: Op, now: int)
    requires CanPop(c) && NonEmpty(c.value.list) && (op.LPop? || op.RPop?)
    ensures var x, l := ApplyCell(c, op, now), c.value.list;
            && (op.LPop? ==> HandedOut(x.reply) == [l[0]] && Value(x.cell).list == l[1..])
            && (op.RPop? ==> HandedOut(x.reply) == [l[|l| - 1]] && Value(x.cell).list == l[..|l| - 1])
  {
  }

  lemma PopStep(q: Queue, c: Cell, op: Op, now: int)
    requires Pops(q, op) && NonEmpty(Value(c).list) && (c.Some? ==> c.value.kind == ListT)
    ensures var x := ApplyCell(c, op, now);
            Waiting(q, c) == HandedOut(x.reply) + Waiting(q, x.cell) && NonEmpty(Value(x.cell).list)
  {
    hide ApplyCell, HandedOut, Ranges.Reverse;
    if CanPop(c) {
      PopTakesOne(c, op, now);
      var l := c.value.list;
      if q.LeftIn? {
        var n := |l| - 1;
        assert l == l[..n] + [l[n]];
        Ranges.ReverseAppend(l[..n], [l[n]]);
        ReverseOne(l[n]);
      } else {
        assert l == [l[0]] + l[1..];
      }
    } else {
      NothingPopped(c, op, now);
      assert [] + Waiting(q, c) == Waiting(q, c);
      ReverseNone();
    }
  }

  lemma ReverseNone()
    ensures Ranges.Reverse<Bytes>([]) == []
  {
  }

  lemma NothingPopped(c: Cell, op: Op, now: int)
    requires (op.LPop? || op.RPop?) && !CanPop(c)
    ensures var x := ApplyCell(c, op, now);
            HandedOut(x.reply) == [] && (x.cell.Some? ==> Value(x.cell).list == Value(c).list)
  {
  }

  predicate QueueCell(c: Cell) { NonEmpty(Value(c).list) && (c.Some? ==> c.value.kind == ListT) }

  lemma QueueStep(q: Queue, c: Cell, k: Bytes, t: Timed)
    requires QueueCell(c) && (t.op.key == k ==> Pops(q, t.op) || (Pushes(q, t.op) && NonEmpty(t.op.items)))
    ensures Waiting(q, c) + In(q, k, t) == Out(q, c, k, t) + Waiting(q, Next(c, k, t)) && QueueCell(Next(c, k, t))
  {
    hide ApplyCell, Waiting, HandedOut, NonEmpty;
    if t.op.key == k {
      KindStays(c, t.op, t.now);
      if Pushes(q, t.op) {
        PushStep(q, c, t.op, t.now);
      } else {
        PopStep(q, c, t.op, t.now);
      }
    }
  }

  /** Conservation, over every trace of commands and whatever the other keys go through: what
      was waiting and what was pushed is exactly what was popped and what still waits, in
      order. */
  lemma {:induction false} QueueConservation(q: Queue, c: Cell, k: Bytes, ops: seq<Timed>)
    requires OnlyQueues(q, k, ops) && QueueCell(c)
    ensures Waiting(q, c) + Pushed(q, k, ops) == Popped(q, c, k, ops) + Waiting(q, CellAfter(c, k, ops))
    decreases |ops|
  {
    hide Waiting, In, Out, Next, QueueCell, Pushes, Pops, NonEmpty;
    if ops == [] {
      assert Waiting(q, c) + [] == [] + Waiting(q, c);
    } else {
      var t, d := ops[0], Next(c, k, ops[0]);
      QueueStep(q, c, k, t);
      QueueConservation(q, d, k, ops[1..]);
      Regroup(Waiting(q, c), In(q, k, t), Pushed(q, k, ops[1..]), Out(q, c, k, t), Waiting(q, d),
              Popped(q, d, k, ops[1..]), Waiting(q, CellAfter(c, k, ops)));
    }
  }

  lemma Regroup(a: seq<Bytes>, i: seq<Bytes>, p: seq<Bytes>, o: seq<Bytes>, b: seq<Bytes>, r: seq<Bytes>, w: seq<Bytes>)
    requires a + i == o + b && b + p == r + w
    ensures a + (i + p) == (o + r) + w
  {
    assert a + (i + p) == (a + i) + p == o + (b + p);
  }

  lemma KindStays(c: Cell, op: Op, now: int)
    requires (op.LPush? || op.RPush? || op.LPop? || op.RPop?) && (c.Some? ==> c.value.kind == ListT)
    ensures var d := ApplyCell(c, op, now).cell;
            d.Some? ==> d.value.kind == ListT
  {
    hide Err;
  }

  /** So on a key that starts empty, the items popped are a prefix of the items pushed, over
      every run of any number of clients. */
  lemma PoppedIsPrefixOfPushed(q: Queue, s: Server, events: seq<Event>, k: Bytes)
    requires k !in s.db && OnlyQueues(q, k, Trace(s, events))
    ensures var ops := Trace(s, events);
            && Popped(q, None, k, ops) <= Pushed(q, k, ops)
            && Pushed(q, k, ops) == Popped(q, None, k, ops) + Waiting(q, Look(Play(s, events).db, k))
  {
    hide Trace, Popped, Pushed, OnlyQueues, Play, CellAfter;
    var ops := Trace(s, events);
    RunEffects(s, events);
    LookAfter(s.db, k, ops);
    QueueConservation(q, None, k, ops);
    assert Waiting(q, None) == [];
    assert [] + Pushed(q, k, ops) == Pushed(q, k, ops);
  }
}
