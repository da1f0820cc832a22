/** What a committed EXEC says about the keys its client watched, over every interleaving of
    any number of clients. */
module Watching {
  import opened Octets
  import opened Keyspace
  import opened Commands
  import opened Tracking
  import opened Transactions
  import opened Traces
  import opened Snapshots
  import opened SnapshotLoads
  import R = Resp

  // ----- One key through a trace -----

  /** No command of the trace changes `k` behind its counter's back. */
  predicate NeverSilent(c: Cell, k: Bytes, ops: seq<Timed>)
    decreases |ops|
  {
    ops == [] || ((ops[0].op.key == k ==> !Silent(c, ops[0].op)) && NeverSilent(Next(c, k, ops[0]), k, ops[1..]))
  }

  predicate NeverRemoved(c: Cell, k: Bytes, ops: seq<Timed>)
    decreases |ops|
  {
    c.Some? && (ops == [] || NeverRemoved(Next(c, k, ops[0]), k, ops[1..]))
  }

  lemma {:induction false} PresentKeyIsTracked(c: Cell, k: Bytes, ops: seq<Timed>)
    requires CellAgrees(c) && NeverSilent(c, k, ops) && NeverRemoved(c, k, ops)
    ensures var d := CellAfter(c, k, ops);
            && d.Some? && c.value.modCount <= d.value.modCount
            && (c.value.modCount == d.value.modCount ==> View(c) == View(d))
    decreases |ops|
  {
    hide ApplyCell, Silent, CellAgrees, Shown;
    if ops != [] {
      if ops[0].op.key == k {
        StepIsTracked(c, ops[0].op, ops[0].now);
        CellKeepsAgreement(c, ops[0].op, ops[0].now);
      }
      PresentKeyIsTracked(Next(c, k, ops[0]), k, ops[1..]);
    }
  }

  /** A key that was absent is absent again or carries a positive counter. */
  lemma {:induction false} AbsentKeyIsTracked(c: Cell, k: Bytes, ops: seq<Timed>)
    requires CellAgrees(c) && NeverSilent(c, k, ops) && (c.None? || c.value.modCount >= 1)
    ensures var d := CellAfter(c, k, ops);
            d.None? || d.value.modCount >= 1
    decreases |ops|
  {
    hide ApplyCell, Silent, CellAgrees, View;
    if ops != [] {
      if ops[0].op.key == k {
        StepIsTracked(c, ops[0].op, ops[0].now);
        CellKeepsAgreement(c, ops[0].op, ops[0].now);
      }
      AbsentKeyIsTracked(Next(c, k, ops[0]), k, ops[1..]);
    }
  }

  /** Each command moves the counter by at most one. */
  lemma {:induction false} CounterGrowth(c: Cell, k: Bytes, ops: seq<Timed>)
    requires CellAgrees(c)
    ensures Value(CellAfter(c, k, ops)).modCount <= Value(c).modCount + |ops|
    decreases |ops|
  {
    hide ApplyCell, Silent, CellAgrees, View;
    if ops != [] {
      if ops[0].op.key == k {
        StepIsTracked(c, ops[0].op, ops[0].now);
        CellKeepsAgreement(c, ops[0].op, ops[0].now);
      }
      CounterGrowth(Next(c, k, ops[0]), k, ops[1..]);
    }
  }

  /** Equal 64-bit counters mean equal counters as long as fewer than 2^64 modifications lie
      between them. */
  lemma CountersMatch(c: Cell, d: Cell)
    requires ModCount(c) == ModCount(d)
    requires c.Some? && d.Some? ==> c.value.modCount <= d.value.modCount < c.value.modCount + TWO_64
    requires c.None? && d.Some? ==> 1 <= d.value.modCount < TWO_64
    ensures c.Some? && d.Some? ==> c.value.modCount == d.value.modCount
    ensures c.None? ==> d.None?
  {
    if c.Some? && d.Some? {
      var x, y := c.value.modCount, d.value.modCount;
      assert (y - x) % TWO_64 == 0 by {
        assert x == TWO_64 * (x / TWO_64) + x % TWO_64 && y == TWO_64 * (y / TWO_64) + y % TWO_64;
        assert y - x == TWO_64 * (y / TWO_64 - x / TWO_64);
      }
    }
  }

  // ----- Watches along a run -----

  /** The requests that touch a client's record of `k`: an EXEC that runs or aborts a transaction,
      and, outside a transaction, UNWATCH and a WATCH that names `k` again. Everything else,
      including those requests when they are queued or refused, leaves it. */
  predicate TouchesRecord(cl: Client, req: Request, k: Bytes) {
    if cl.inTx then req == Exec(false) else req == Unwatch(false) || (req.Watch? && k in req.keys)
  }

  predicate KeepsRecord(s: Server, events: seq<Event>, c: nat, k: Bytes)
    decreases |events|
  {
    events == [] ||
    (&& (events[0].client == c ==> !TouchesRecord(ClientOf(s, c), events[0].req, k))
     && KeepsRecord(Serve(s, events[0]), events[1..], c, k))
  }

  predicate Records(cl: Client, k: Bytes, n: nat) { k in cl.watched && cl.watched[k] == n }

  lemma StepKeepsRecord(db: Store, cl: Client, req: Request, at: Moments, k: Bytes, n: nat)
    requires Records(cl, k, n) && !TouchesRecord(cl, req, k)
    ensures Records(Step(db, cl, req, at).client, k, n)
  {
    hide Apply, Answer, RunQueue, Err, OK, Queued, Conflict, ModCount, Look;
  }

  /** What a client recorded for a key stays recorded through every interleaving until it touches
      that record itself. */
  lemma {:induction false} RecordPersists(s: Server, events: seq<Event>, c: nat, k: Bytes, n: nat)
    requires KeepsRecord(s, events, c, k) && Records(ClientOf(s, c), k, n)
    ensures Records(ClientOf(Play(s, events), c), k, n)
    decreases |events|
  {
    hide Step, TouchesRecord, Records;
    if events != [] {
      var e := events[0];
      if e.client == c {
        StepKeepsRecord(s.db, ClientOf(s, c), e.req, e.at, k, n);
      }
      RecordPersists(Serve(s, e), events[1..], c, k, n);
    }
  }

  /** WATCH records the counter, also for the keys before a malformed one. */
  lemma WatchRecords(s: Server, c: nat, keys: seq<Bytes>, badTail: bool, at: Moments, k: Bytes)
    requires !ClientOf(s, c).inTx && k in keys
    ensures var w := Serve(s, Event(c, Watch(keys, badTail), at));
            w.db == s.db && Records(ClientOf(w, c), k, ModCount(Look(s.db, k)))
  {
    hide ModCount, Err, OK;
  }

  /** WATCH soundness. Client `c` watches `k`; then, in any interleaving, all clients do anything
      that leaves that record alone: `c` may watch other keys, open and discard transactions,
      and queue what it likes. If the key was present and was never removed, or was absent, and
      no silent command hit it, then an EXEC of `c` either aborts or finds the key showing
      exactly what it showed at the WATCH. */
  lemma WatchSoundness(s: Server, c: nat, keys: seq<Bytes>, badTail: bool, at: Moments, events: seq<Event>, k: Bytes,
                       later: Moments)
    requires AllAgree(s.db) && !ClientOf(s, c).inTx && k in keys
    requires var w := Serve(s, Event(c, Watch(keys, badTail), at));
             var c0, ops := Look(s.db, k), Trace(w, events);
             && KeepsRecord(w, events, c, k)
             && NeverSilent(c0, k, ops)
             && (c0.Some? ==> NeverRemoved(c0, k, ops))
             && |ops| < TWO_64
    ensures var t := Play(Serve(s, Event(c, Watch(keys, badTail), at)), events);
            var o := Step(t.db, ClientOf(t, c), Exec(false), later);
            ClientOf(t, c).inTx ==>
              || o == Outcome(t.db, IDLE, Err(ExecAborted))
              || View(Look(t.db, k)) == View(Look(s.db, k))
  {
    hide Apply, Answer, ApplyCell, RunQueue, Err, OK, Queued, NeverSilent, NeverRemoved, View, Trace, AllAgree, CellAgrees,
      KeepsRecord, Play, CellAfter;
    var w := Serve(s, Event(c, Watch(keys, badTail), at));
    var t := Play(w, events);
    var c0, ops := Look(s.db, k), Trace(w, events);
    var d := CellAfter(c0, k, ops);
    WatchRecords(s, c, keys, badTail, at, k);
    RecordPersists(w, events, c, k, ModCount(c0));
    RunEffects(w, events);
    LookAfter(s.db, k, ops);
    LookAgrees(s.db, k);
    CounterGrowth(c0, k, ops);
    if c0.Some? {
      PresentKeyIsTracked(c0, k, ops);
    } else {
      AbsentKeyIsTracked(c0, k, ops);
    }
    if ClientOf(t, c).inTx && !Conflict(t.db, ClientOf(t, c).watched) {
      assert ModCount(d) == ModCount(c0);
      CountersMatch(c0, d);
      ViewOfAbsent();
    }
  }

  lemma ViewOfAbsent()
    ensures View(None) == None
  {
  }

  /** A watched key that is gone at EXEC: the record alone makes EXEC abort if and only if the
      recorded counter was not 0. */
  lemma DeletionIsNoticed(s: Server, c: nat, keys: seq<Bytes>, badTail: bool, at: Moments, events: seq<Event>, k: Bytes,
                          later: Moments)
    requires !ClientOf(s, c).inTx && k in keys
    requires var w := Serve(s, Event(c, Watch(keys, badTail), at));
             KeepsRecord(w, events, c, k) && k !in Play(w, events).db
    ensures var t := Play(Serve(s, Event(c, Watch(keys, badTail), at)), events);
            var cl := ClientOf(t, c);
            && (ModCount(Look(s.db, k)) != 0 && cl.inTx ==>
                  Step(t.db, cl, Exec(false), later) == Outcome(t.db, IDLE, Err(ExecAborted)))
            && (ModCount(Look(s.db, k)) == 0 ==> (Conflict(t.db, cl.watched) <==> Conflict(t.db, cl.watched - {k})))
  {
    hide Apply, Answer, RunQueue, Err, OK, Queued, KeepsRecord, Play;
    var w := Serve(s, Event(c, Watch(keys, badTail), at));
    var t := Play(w, events);
    WatchRecords(s, c, keys, badTail, at, k);
    RecordPersists(w, events, c, k, ModCount(Look(s.db, k)));
    assert ModCount(Look(t.db, k)) == 0;
    hide ModCount, Look;
    var cl := ClientOf(t, c);
    if ModCount(Look(s.db, k)) == 0 && Conflict(t.db, cl.watched) {
      var x :| x in cl.watched && ModCount(Look(t.db, x)) != cl.watched[x];
      assert x in cl.watched - {k};
    }
  }

  // ----- Undisturbed transactions commit -----

  /** Every counter that the client recorded is still the counter of its key, and all its records
      are of keys in `ks`. */
  predicate UpToDate(db: Store, cl: Client, ks: set<Bytes>) {
    forall k :: k in cl.watched ==> k in ks && cl.watched[k] == ModCount(Look(db, k))
  }

  /** Client `c` watches only keys in `ks`, and no command of the trace names one of them. */
  predicate Undisturbed(s: Server, events: seq<Event>, c: nat, ks: set<Bytes>) {
    && (forall i, k :: 0 <= i < |events| && events[i].client == c && events[i].req.Watch? && k in events[i].req.keys ==>
          k in ks)
    && (forall i :: 0 <= i < |Trace(s, events)| ==> Trace(s, events)[i].op.key !in ks)
  }

  lemma {:induction false} OtherKeysStay(db: Store, ops: seq<Timed>, k: Bytes)
    requires forall i :: 0 <= i < |ops| ==> ops[i].op.key != k
    ensures Look(ApplyAll(db, ops), k) == Look(db, k)
    decreases |ops|
  {
    hide ApplyCell;
    if ops != [] {
      var d := Apply(db, ops[0].op, ops[0].now).0;
      assert Look(d, k) == Look(db, k);
      OtherKeysStay(d, ops[1..], k);
    }
  }

  /** One step of anybody that leaves the keys of `ks` alone. */
  lemma StepLeavesKeys(db: Store, cl: Client, req: Request, at: Moments, ks: set<Bytes>)
    requires forall i :: 0 <= i < |Effects(db, cl, req, at)| ==> Effects(db, cl, req, at)[i].op.key !in ks
    ensures forall k :: k in ks ==> Look(Step(db, cl, req, at).db, k) == Look(db, k)
  {
    hide Step, Effects, ApplyAll, Look;
    StepEffects(db, cl, req, at);
    forall k | k in ks
      ensures Look(Step(db, cl, req, at).db, k) == Look(db, k)
    {
      OtherKeysStay(db, Effects(db, cl, req, at), k);
    }
  }

  /** A client's own step keeps its records up to date. */
  lemma OwnStepIsUpToDate(db: Store, cl: Client, req: Request, at: Moments, ks: set<Bytes>)
    requires UpToDate(db, cl, ks) && (req.Watch? ==> forall k :: k in req.keys ==> k in ks)
    requires forall k :: k in ks ==> Look(Step(db, cl, req, at).db, k) == Look(db, k)
    ensures UpToDate(Step(db, cl, req, at).db, Step(db, cl, req, at).client, ks)
  {
    hide Apply, Answer, RunQueue, Err, OK, Queued, Conflict, ModCount, Look;
  }

  lemma {:induction false} StaysUpToDate(s: Server, events: seq<Event>, c: nat, ks: set<Bytes>)
    requires UpToDate(s.db, ClientOf(s, c), ks) && Undisturbed(s, events, c, ks)
    ensures UpToDate(Play(s, events).db, ClientOf(Play(s, events), c), ks)
    decreases |events|
  {
    hide Step, Effects, ModCount, Look;
    if events != [] {
      var e := events[0];
      var first, rest := Effects(s.db, ClientOf(s, e.client), e.req, e.at), Trace(Serve(s, e), events[1..]);
      assert Trace(s, events) == first + rest;
      assert forall i :: 0 <= i < |first| ==> first[i] == Trace(s, events)[i];
      assert forall i :: 0 <= i < |rest| ==> rest[i] == Trace(s, events)[|first| + i];
      StepLeavesKeys(s.db, ClientOf(s, e.client), e.req, e.at, ks);
      if e.client == c {
        OwnStepIsUpToDate(s.db, ClientOf(s, c), e.req, e.at, ks);
      }
      StaysUpToDate(Serve(s, e), events[1..], c, ks);
    }
  }

  lemma ExecCommits(db: Store, cl: Client, at: Moments, ks: set<Bytes>)
    requires cl.inTx && UpToDate(db, cl, ks)
    ensures var r := RunInSequence(db, cl.queue, at, 0);
            Step(db, cl, Exec(false), at) == Outcome(r.0, IDLE, R.Multi(r.1))
  {
    hide RunQueue, RunInSequence, ModCount, Look, Err;
    QueueRunsInSequence(db, cl.queue, at, 0);
  }

  /** The converse of WATCH soundness: no spurious aborts. Client `c`, without watches, issues
      requests of any kind, any number of WATCHes among them, while all clients interleave. If no
      data command that runs names a key that `c` watches, then an EXEC of `c` commits: it leaves
      the database and gives the replies of running its queue one by one. */
  lemma UndisturbedExecCommits(s: Server, c: nat, events: seq<Event>, ks: set<Bytes>, at: Moments)
    requires ClientOf(s, c).watched == map[] && Undisturbed(s, events, c, ks)
    ensures var t := Play(s, events);
            var r := RunInSequence(t.db, ClientOf(t, c).queue, at, 0);
            ClientOf(t, c).inTx ==>
              Step(t.db, ClientOf(t, c), Exec(false), at) == Outcome(r.0, IDLE, R.Multi(r.1))
  {
    hide Step, Play, Undisturbed, RunInSequence, Trace;
    StaysUpToDate(s, events, c, ks);
    var t := Play(s, events);
    if ClientOf(t, c).inTx {
      ExecCommits(t.db, ClientOf(t, c), at, ks);
    }
  }

  /** The same from WATCH to EXEC: WATCH, anything, MULTI, requests, EXEC, interleaved with all
      other clients. The transaction then is exactly the sequential run of the requests that `c`
      issued after MULTI. */
  lemma WatchedTransactionCommits(s: Server, c: nat, keys: seq<Bytes>, start: Moments, before: seq<Event>,
                                  begin: Moments, events: seq<Event>, at: Moments)
    requires ClientOf(s, c) == IDLE && Undecided(events, c)
    requires var run := [Event(c, Watch(keys, false), start)] + before + [Event(c, Begin(false), begin)] + events;
             Undisturbed(s, run, c, ToSet(keys))
    requires !ClientOf(Play(s, [Event(c, Watch(keys, false), start)] + before), c).inTx
    ensures var run := [Event(c, Watch(keys, false), start)] + before + [Event(c, Begin(false), begin)] + events;
            var t := Play(s, run);
            var r := RunInSequence(t.db, OwnRequests(events, c), at, 0);
            Step(t.db, ClientOf(t, c), Exec(false), at) == Outcome(r.0, IDLE, R.Multi(r.1))
  {
    hide Step, Play, Undisturbed, RunInSequence, Trace, OwnRequests, Undecided, ToSet;
    var front, multi := [Event(c, Watch(keys, false), start)] + before, Event(c, Begin(false), begin);
    var run := front + [multi] + events;
    UndisturbedExecCommits(s, c, run, ToSet(keys), at);
    PlayAppend(s, front, [multi] + events);
    assert front + ([multi] + events) == run;
    var u := Play(s, front);
    PlayFirst(u, multi, events);
    BeginOpens(u, c, begin);
    QueueIsHistory(Serve(u, multi), events, c);
    assert [] + OwnRequests(events, c) == OwnRequests(events, c);
  }

  lemma BeginOpens(s: Server, c: nat, at: Moments)
    requires !ClientOf(s, c).inTx
    ensures var t := Serve(s, Event(c, Begin(false), at));
            ClientOf(t, c).inTx && ClientOf(t, c).queue == []
  {
    hide Err, OK;
  }

  lemma PlayFirst(s: Server, e: Event, events: seq<Event>)
    ensures Play(s, [e] + events) == Play(Serve(s, e), events)
  {
    hide Serve;
    assert ([e] + events)[1..] == events;
  }

  lemma {:induction false} PlayAppend(s: Server, x: seq<Event>, y: seq<Event>)
    ensures Play(s, x + y) == Play(Play(s, x), y)
    decreases |x|
  {
    hide Serve;
    if x == [] {
      assert x + y == y;
    } else {
      assert (x + y)[0] == x[0] && (x + y)[1..] == x[1..] + y;
      PlayAppend(Serve(s, x[0]), x[1..], y);
    }
  }

  // ----- The hypotheses are needed -----

  function Runs(ops: seq<Op>, at: Moments): seq<Event> {
    seq(|ops|, i requires 0 <= i < |ops| => Event(1, Run(ops[i]), at))
  }

  function Stamped(ops: seq<Op>, n: int): seq<Timed> {
    seq(|ops|, i requires 0 <= i < |ops| => Timed(ops[i], n))
  }

  /** Client 1 runs `before`, client 0 watches the key and opens a transaction, client 1 runs
      `during`: EXEC of client 0 would commit although the key shows another value. */
  ghost predicate GoesUnnoticed(s: Server, k: Bytes, before: seq<Op>, during: seq<Op>, at: Moments) {
    var w := Play(Play(s, Runs(before, at)), [Event(0, Watch([k], false), at), Event(0, Begin(false), at)]);
    var t := Play(w, Runs(during, at));
    && ClientOf(t, 0).inTx && !Conflict(t.db, ClientOf(t, 0).watched)
    && View(Look(t.db, k)) != View(Look(w.db, k))
  }

  /** A data command outside MULTI. */
  lemma RunOutside(s: Server, c: nat, op: Op, at: Moments, k: Bytes)
    requires !ClientOf(s, c).inTx
    ensures var t := Serve(s, Event(c, Run(op), at));
            && Look(t.db, k) == Next(Look(s.db, k), k, Timed(op, at(0).now))
            && t.clients == s.clients[c := ClientOf(s, c)]
  {
    hide ApplyCell;
  }

  lemma {:induction false} OutsiderRuns(s: Server, ops: seq<Op>, at: Moments, k: Bytes)
    requires !ClientOf(s, 1).inTx
    ensures var t := Play(s, Runs(ops, at));
            && Look(t.db, k) == CellAfter(Look(s.db, k), k, Stamped(ops, at(0).now))
            && ClientOf(t, 0) == ClientOf(s, 0) && ClientOf(t, 1) == ClientOf(s, 1)
    decreases |ops|
  {
    hide Serve, Next;
    if ops != [] {
      var t := Serve(s, Event(1, Run(ops[0]), at));
      RunOutside(s, 1, ops[0], at, k);
      assert Runs(ops, at)[1..] == Runs(ops[1..], at);
      assert Stamped(ops, at(0).now)[1..] == Stamped(ops[1..], at(0).now);
      OutsiderRuns(t, ops[1..], at, k);
    }
  }

  lemma WatchThenMulti(s: Server, k: Bytes, at: Moments)
    requires ClientOf(s, 0) == IDLE
    ensures var w := Play(s, [Event(0, Watch([k], false), at), Event(0, Begin(false), at)]);
            && w.db == s.db && ClientOf(w, 1) == ClientOf(s, 1)
            && ClientOf(w, 0) == Client(true, [], map[k := ModCount(Look(s.db, k))])
  {
    hide Err, OK, ModCount, Look;
    PlayTwo(s, Event(0, Watch([k], false), at), Event(0, Begin(false), at));
    assert WatchedAfter(s.db, map[], [k]) == map[k := ModCount(Look(s.db, k))];
  }

  lemma PlayTwo(s: Server, e: Event, f: Event)
    ensures Play(s, [e, f]) == Serve(Serve(s, e), f)
  {
    hide Serve;
    var both, last := [e, f], [f];
    assert both[1..] == last && last[1..] == [];
    assert Play(s, both) == Play(Serve(s, e), last) == Play(Serve(Serve(s, e), f), []);
  }

  /** Two cells with the same counter and different views make such a run. */
  lemma SameCounterGoesUnnoticed(s: Server, k: Bytes, before: seq<Op>, during: seq<Op>, at: Moments)
    requires ClientOf(s, 0) == IDLE && !ClientOf(s, 1).inTx
    requires var c0 := CellAfter(Look(s.db, k), k, Stamped(before, at(0).now));
             var c1 := CellAfter(c0, k, Stamped(during, at(0).now));
             ModCount(c0) == ModCount(c1) && View(c0) != View(c1)
    ensures GoesUnnoticed(s, k, before, during, at)
  {
    hide Play, Look, CellAfter, View, ModCount, Runs, Stamped;
    var s1 := Play(s, Runs(before, at));
    OutsiderRuns(s, before, at, k);
    WatchThenMulti(s1, k, at);
    var w := Play(s1, [Event(0, Watch([k], false), at), Event(0, Begin(false), at)]);
    OutsiderRuns(w, during, at, k);
  }

  lemma AfterOne(c: Cell, op: Op, n: int)
    ensures CellAfter(c, op.key, Stamped([op], n)) == ApplyCell(c, op, n).cell
  {
    hide ApplyCell;
    var ops := Stamped([op], n);
    assert ops == [Timed(op, n)] && ops[1..] == [];
    assert CellAfter(c, op.key, ops) == CellAfter(Next(c, op.key, ops[0]), op.key, []);
  }

  lemma AfterTwo(c: Cell, op: Op, op': Op, n: int)
    requires op.key == op'.key
    ensures CellAfter(c, op.key, Stamped([op, op'], n)) == ApplyCell(ApplyCell(c, op, n).cell, op', n).cell
  {
    hide ApplyCell;
    var ops := Stamped([op, op'], n);
    assert ops[1..] == Stamped([op'], n);
    AfterOne(ApplyCell(c, op, n).cell, op', n);
  }

  const START := Server(map[], map[])

  /** Delete and recreate, for every key and any two values, from an empty server: the counter is
      back where it was. */
  lemma RemovalDefeatsWatch(k: Bytes, v: Bytes, v': Bytes, at: Moments)
    requires v != v'
    ensures GoesUnnoticed(START, k, [Set(k, v)], [Del(k), Set(k, v')], at)
  {
    hide GoesUnnoticed, CellAfter, Stamped;
    var c0 := ApplyCell(None, Set(k, v), at(0).now).cell;
    AfterOne(None, Set(k, v), at(0).now);
    AfterTwo(c0, Del(k), Set(k, v'), at(0).now);
    SameCounterGoesUnnoticed(START, k, [Set(k, v)], [Del(k), Set(k, v')], at);
  }

  /** A silent change of type: a string that was once a set becomes a set again without its
      counter moving. */
  lemma RetypeDefeatsWatch(k: Bytes, m: Bytes, v: Bytes, at: Moments)
    ensures GoesUnnoticed(START, k, [SAdd(k, [m]), Set(k, v)], [SAdd(k, [m])], at)
  {
    hide GoesUnnoticed, CellAfter, Stamped;
    AddMember(k, m, v, at(0).now);
    var c0 := Some(FRESH.(modCount := 2, str := v, members := {m}));
    AfterTwo(None, SAdd(k, [m]), Set(k, v), at(0).now);
    AfterOne(c0, SAdd(k, [m]), at(0).now);
    SameCounterGoesUnnoticed(START, k, [SAdd(k, [m]), Set(k, v)], [SAdd(k, [m])], at);
  }

  lemma AddMember(k: Bytes, m: Bytes, v: Bytes, n: int)
    ensures var x := FRESH.(modCount := 2, str := v, members := {m});
            && ApplyCell(ApplyCell(None, SAdd(k, [m]), n).cell, Set(k, v), n).cell == Some(x)
            && ApplyCell(Some(x), SAdd(k, [m]), n).cell == Some(x.(kind := SetT))
  {
    hide OK;
    assert ToSet([m]) == {m} && {} + {m} == {m} && {m} + {m} == {m};
    var y := FRESH.(kind := SetT, modCount := 1, members := {m});
    assert ApplyCell(None, SAdd(k, [m]), n).cell == Some(y);
  }

  /** A malformed HSET keeps the fields it wrote before the error and leaves the counter. */
  lemma MalformedHSetDefeatsWatch(k: Bytes, f: Bytes, v: Bytes, v': Bytes, at: Moments)
    requires v != v'
    ensures GoesUnnoticed(START, k, [HSet(k, [(f, v)], false)], [HSet(k, [(f, v')], true)], at)
  {
    hide GoesUnnoticed, CellAfter, Stamped;
    WriteOne(k, f, v, v', at(0).now);
    AfterOne(None, HSet(k, [(f, v)], false), at(0).now);
    AfterOne(ApplyCell(None, HSet(k, [(f, v)], false), at(0).now).cell, HSet(k, [(f, v')], true), at(0).now);
    SameCounterGoesUnnoticed(START, k, [HSet(k, [(f, v)], false)], [HSet(k, [(f, v')], true)], at);
  }

  lemma WriteOne(k: Bytes, f: Bytes, v: Bytes, v': Bytes, n: int)
    requires v != v'
    ensures var c0 := ApplyCell(None, HSet(k, [(f, v)], false), n).cell;
            var c1 := ApplyCell(c0, HSet(k, [(f, v')], true), n).cell;
            ModCount(c0) == ModCount(c1) && View(c0) != View(c1)
  {
    hide ApplyCell;
    HSetOne(None, k, f, v, false, n);
    var x := FRESH.(kind := HashT, modCount := 1, hash := map[f := v]);
    HSetOne(Some(x), k, f, v', true, n);
    assert map[f := v][f := v'][f] != map[f := v][f];
  }

  lemma HSetOne(c: Cell, k: Bytes, f: Bytes, v: Bytes, badTail: bool, n: int)
    ensures var x := Value(c).(kind := HashT, hash := Value(c).hash[f := v]);
            var y := if badTail then x else x.(modCount := x.modCount + 1);
            ApplyCell(c, HSet(k, [(f, v)], badTail), n).cell == Some(y)
  {
    hide Err, WriteFields;
    var ps := [(f, v)];
    WriteFieldsValue(c, ps);
    assert ps[1..] == [];
    assert HashAfter(Value(c).hash, ps) == Value(c).hash[f := v];
  }

  /** Every key that a server has loaded from a file, whatever file, has counter 0, so even its
      plain deletion goes unnoticed. */
  lemma LoadedKeyDeletionGoesUnnoticed(file: Bytes, k: Bytes, at: Moments)
    requires k in LoadFile(file, map[]).1
    ensures GoesUnnoticed(Server(LoadFile(file, map[]).1, map[]), k, [], [Del(k)], at)
  {
    hide GoesUnnoticed, CellAfter, LoadFile, AllAgree;
    LoadedServer(file);
    var s := Server(LoadFile(file, map[]).1, map[]);
    var c := Look(s.db, k);
    AfterNone(c, k, at(0).now);
    AfterOne(c, Del(k), at(0).now);
    SameCounterGoesUnnoticed(s, k, [], [Del(k)], at);
  }

  lemma AfterNone(c: Cell, k: Bytes, n: int)
    ensures CellAfter(c, k, Stamped([], n)) == c
  {
  }
}
