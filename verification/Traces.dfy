/** The data commands that a run of the server executes, and what they do to one key. */
module Traces {
  import opened Octets
  import opened Keyspace
  import opened Commands
  import opened Transactions

  datatype Timed = Timed(op: Op, now: int)

  // ----- The data commands a run executes -----

  function QueueOps(queue: seq<Request>, at: Moments, i: nat): seq<Timed> {
    if queue == [] then []
    else
      var rest := QueueOps(queue[1..], at, i + 1);
      if queue[0].Run? && Transactable(queue[0].op) then [Timed(queue[0].op, at(i).now)] + rest else rest
  }

  /** The data commands one step executes: one outside MULTI, the whole queue at a committed
      EXEC, none otherwise. */
  function Effects(db: Store, cl: Client, req: Request, at: Moments): seq<Timed> {
    if !cl.inTx && req.Run? then [Timed(req.op, at(0).now)]
    else if cl.inTx && req == Exec(false) && !Conflict(db, cl.watched) then QueueOps(cl.queue, at, 0)
    else []
  }

  function ApplyAll(db: Store, ops: seq<Timed>): Store
    decreases |ops|
  {
    if ops == [] then db else ApplyAll(Apply(db, ops[0].op, ops[0].now).0, ops[1..])
  }

  function Trace(s: Server, events: seq<Event>): seq<Timed>
    decreases |events|
  {
    if events == [] then []
    else
      var e := events[0];
      Effects(s.db, ClientOf(s, e.client), e.req, e.at) + Trace(Serve(s, e), events[1..])
  }

  lemma {:induction false} ApplyAllAppend(db: Store, x: seq<Timed>, y: seq<Timed>)
    ensures ApplyAll(db, x + y) == ApplyAll(ApplyAll(db, x), y)
    decreases |x|
  {
    hide Apply;
    if x == [] {
      assert x + y == y;
    } else {
      assert (x + y)[0] == x[0] && (x + y)[1..] == x[1..] + y;
      ApplyAllAppend(Apply(db, x[0].op, x[0].now).0, x[1..], y);
    }
  }

  lemma {:induction false} QueueEffects(db: Store, queue: seq<Request>, at: Moments, i: nat)
    ensures RunQueue(db, queue, at, i).0 == ApplyAll(db, QueueOps(queue, at, i))
    decreases |queue|
  {
    hide Apply, Answer, Err;
    if queue != [] {
      QueueEffects(RunQueued(db, queue[0], at(i)).0, queue[1..], at, i + 1);
      if InDispatcher(queue[0]) && queue[0].Run? {
        var rest := QueueOps(queue[1..], at, i + 1);
        assert ([Timed(queue[0].op, at(i).now)] + rest)[1..] == rest;
      }
    }
  }

  lemma StepEffects(db: Store, cl: Client, req: Request, at: Moments)
    ensures Step(db, cl, req, at).db == ApplyAll(db, Effects(db, cl, req, at))
  {
    hide Apply, Answer, RunQueue, QueueOps, Err, OK, Queued, Conflict;
    if !cl.inTx && req.Run? {
      assert [Timed(req.op, at(0).now)][1..] == [];
    } else if cl.inTx && req == Exec(false) {
      QueueEffects(db, cl.queue, at, 0);
    }
  }

  /** The database changes through data commands only, in the order of the trace. */
  lemma {:induction false} RunEffects(s: Server, events: seq<Event>)
    ensures Play(s, events).db == ApplyAll(s.db, Trace(s, events))
    decreases |events|
  {
    hide Step, Effects;
    if events != [] {
      var e := events[0];
      var x := Effects(s.db, ClientOf(s, e.client), e.req, e.at);
      StepEffects(s.db, ClientOf(s, e.client), e.req, e.at);
      RunEffects(Serve(s, e), events[1..]);
      ApplyAllAppend(s.db, x, Trace(Serve(s, e), events[1..]));
    }
  }

  // ----- One key through a trace -----

  /** The cell of key `k` after one command. */
  function Next(c: Cell, k: Bytes, t: Timed): Cell {
    if t.op.key == k then ApplyCell(c, t.op, t.now).cell else c
  }

  function CellAfter(c: Cell, k: Bytes, ops: seq<Timed>): Cell
    decreases |ops|
  {
    if ops == [] then c else CellAfter(Next(c, k, ops[0]), k, ops[1..])
  }

  lemma {:induction false} LookAfter(db: Store, k: Bytes, ops: seq<Timed>)
    ensures Look(ApplyAll(db, ops), k) == CellAfter(Look(db, k), k, ops)
    decreases |ops|
  {
    hide ApplyCell;
    if ops != [] {
      var d := Apply(db, ops[0].op, ops[0].now).0;
      assert Look(d, k) == Next(Look(db, k), k, ops[0]);
      LookAfter(d, k, ops[1..]);
    }
  }
}
