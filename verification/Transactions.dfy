/** MULTI, EXEC, DISCARD, WATCH and UNWATCH over any number of clients. Each request is one
    atomic step. */
module Transactions {
  import opened Octets
  import opened Keyspace
  import opened Commands
  import R = Resp

  /** `extra` marks arguments on a command that takes none. `Refused` is a command whose own
      handler turns its arguments down, `Unknown` a name no dispatcher knows, `Malformed` a value
      that is no command at all: not a non-empty array, or one whose first element is not a
      bulk string. */
  datatype Request =
    | Run(op: Op)
    | Ask(query: Query)
    | Refused(name: CommandName, fault: ArgumentFault)
    | Unknown
    | Malformed(isArray: bool)
    | Begin(extra: bool)
    | Exec(extra: bool)
    | Discard(extra: bool)
    | Watch(keys: seq<Bytes>, badTail: bool)
    | Unwatch(extra: bool)

  /** The moments at which one step runs its commands: moment 0 for a command executed at once,
      moment i for the i-th queued command of an EXEC. */
  type Moments = nat -> Moment

  /** The same moments from the i-th on. */
  function From(at: Moments, i: nat): Moments { (j: nat) => at(i + j) }

  datatype Client = Client(inTx: bool, queue: seq<Request>, watched: map<Bytes, nat>)

  const IDLE := Client(false, [], map[])

  datatype Outcome = Outcome(db: Store, client: Client, reply: R.Wire)

  function Queued(): R.Wire { R.Line(Text("QUEUED")) }

  // ----- Handlers -----

  function HandleMulti(db: Store, cl: Client, extra: bool): Outcome {
    if extra then Outcome(db, cl, Err(MultiArity))
    else if cl.inTx then Outcome(db, cl, Err(MultiNested))
    else Outcome(db, cl.(inTx := true, queue := []), OK())
  }

  predicate Conflict(db: Store, watched: map<Bytes, nat>) {
    exists k :: k in watched && ModCount(Look(db, k)) != watched[k]
  }

  predicate InDispatcher(req: Request) {
    (req.Run? && Transactable(req.op)) || req.Ask? || (req.Refused? && KnownToTransactions(req.name))
  }

  /** The dispatcher of queued commands: a name it does not know changes nothing. */
  function RunQueued(db: Store, req: Request, m: Moment): (Store, R.Wire) {
    if !InDispatcher(req) then (db, Err(UnknownCommand))
    else if req.Run? then Apply(db, req.op, m.now)
    else if req.Ask? then (db, Answer(db, req.query, m))
    else (db, Err(Rejected(req.name, req.fault)))
  }

  /** The queue is run from its front; its first request is the i-th of the transaction. */
  function RunQueue(db: Store, queue: seq<Request>, at: Moments, i: nat): (r: (Store, seq<R.Wire>))
    ensures |r.1| == |queue|
    decreases |queue|
  {
    if queue == [] then (db, [])
    else
      var first := RunQueued(db, queue[0], at(i));
      var rest := RunQueue(first.0, queue[1..], at, i + 1);
      (rest.0, [first.1] + rest.1)
  }

  function HandleExec(db: Store, cl: Client, extra: bool, at: Moments): Outcome {
    if extra then Outcome(db, cl, Err(ExecArity))
    else if !cl.inTx then Outcome(db, cl, Err(ExecWithoutMulti))
    else if Conflict(db, cl.watched) then Outcome(db, IDLE, Err(ExecAborted))
    else
      var r := RunQueue(db, cl.queue, at, 0);
      Outcome(r.0, IDLE, R.Multi(r.1))
  }

  function HandleDiscard(db: Store, cl: Client, extra: bool): Outcome {
    if extra then Outcome(db, cl, Err(DiscardArity))
    else if !cl.inTx then Outcome(db, cl, Err(DiscardWithoutMulti))
    else Outcome(db, cl.(inTx := false, queue := []), OK())
  }

  function WatchedAfter(db: Store, watched: map<Bytes, nat>, keys: seq<Bytes>): map<Bytes, nat> {
    watched + map k | k in keys :: ModCount(Look(db, k))
  }

  function HandleWatch(db: Store, cl: Client, keys: seq<Bytes>, badTail: bool): Outcome {
    if keys == [] && !badTail then Outcome(db, cl, Err(WatchArity))
    else if cl.inTx then Outcome(db, cl, Err(WatchInsideMulti))
    else
      Outcome(db, cl.(watched := WatchedAfter(db, cl.watched, keys)), if badTail then Err(WatchNotBulk) else OK())
  }

  function HandleUnwatch(db: Store, cl: Client, extra: bool): Outcome {
    if extra then Outcome(db, cl, Err(UnwatchArity)) else Outcome(db, cl.(watched := map[]), OK())
  }

  /** The dispatcher of commands executed at once. */
  function Immediate(db: Store, cl: Client, req: Request, at: Moments): Outcome {
    match req
    case Run(op) => var r := Apply(db, op, at(0).now); Outcome(r.0, cl, r.1)
    case Ask(query) => Outcome(db, cl, Answer(db, query, at(0)))
    case Refused(name, fault) => Outcome(db, cl, Err(Rejected(name, fault)))
    case Unknown => Outcome(db, cl, Err(UnknownCommand))
    case Malformed(isArray) => Outcome(db, cl, Err(if isArray then NameNotBulk else BadFormat))
    case Begin(extra) => HandleMulti(db, cl, extra)
    case Exec(extra) => HandleExec(db, cl, extra, at)
    case Discard(extra) => HandleDiscard(db, cl, extra)
    case Watch(keys, badTail) => HandleWatch(db, cl, keys, badTail)
    case Unwatch(extra) => HandleUnwatch(db, cl, extra)
  }

  predicate Queues(req: Request) { !(req.Exec? || req.Discard? || req.Malformed?) }

  /** `process_command`. */
  function Step(db: Store, cl: Client, req: Request, at: Moments): Outcome {
    if cl.inTx && Queues(req) then Outcome(db, cl.(queue := cl.queue + [req]), Queued())
    else Immediate(db, cl, req, at)
  }

  // ----- The server -----

  datatype Server = Server(db: Store, clients: map<nat, Client>)

  datatype Event = Event(client: nat, req: Request, at: Moments)

  function ClientOf(s: Server, c: nat): Client {
    if c in s.clients then s.clients[c] else IDLE
  }

  function Serve(s: Server, e: Event): Server {
    var o := Step(s.db, ClientOf(s, e.client), e.req, e.at);
    Server(o.db, s.clients[e.client := o.client])
  }

  function Play(s: Server, events: seq<Event>): Server
    decreases |events|
  {
    if events == [] then s else Play(Serve(s, events[0]), events[1..])
  }

  // ----- State invariant -----

  /** Outside a transaction the queue is empty, and only queueable requests are ever queued. */
  predicate ClientOk(cl: Client) {
    (!cl.inTx ==> cl.queue == []) && forall i :: 0 <= i < |cl.queue| ==> Queues(cl.queue[i])
  }

  predicate ServerOk(s: Server) {
    forall c :: c in s.clients ==> ClientOk(s.clients[c])
  }

  lemma StepKeepsClient(db: Store, cl: Client, req: Request, at: Moments)
    requires ClientOk(cl)
    ensures ClientOk(Step(db, cl, req, at).client)
  {
    hide Apply, Answer, RunQueue, Err, OK, Queued, Conflict;
  }

  lemma {:induction false} EveryRunKeepsServer(s: Server, events: seq<Event>)
    requires ServerOk(s)
    ensures ServerOk(Play(s, events))
    decreases |events|
  {
    hide Step, ClientOk;
    if events != [] {
      var e := events[0];
      assert ClientOk(IDLE) by { IdleOk(); }
      StepKeepsClient(s.db, ClientOf(s, e.client), e.req, e.at);
      EveryRunKeepsServer(Serve(s, e), events[1..]);
    }
  }

  lemma IdleOk()
    ensures ClientOk(IDLE)
  {
  }

  /** What each step leaves alone: a queued request, an aborted EXEC and every DISCARD leave the
      database as it was; MULTI and WATCH are handled only outside a transaction; watches are
      emptied by EXEC and by UNWATCH outside MULTI, extended by WATCH, and otherwise kept. */
  lemma StepRespectsTransaction(db: Store, cl: Client, req: Request, at: Moments)
    ensures var o := Step(db, cl, req, at);
            && (cl.inTx && (req.Begin? || req.Watch? || req.Unwatch? || req.Run? || req.Ask?) ==>
                  o == Outcome(db, cl.(queue := cl.queue + [req]), Queued()))
            && (req.Discard? ==> o.db == db && o.client.watched == cl.watched)
            && (req == Exec(false) && cl.inTx && Conflict(db, cl.watched) ==>
                  o == Outcome(db, IDLE, Err(ExecAborted)))
            && (o.client.watched == cl.watched
                || (req == Exec(false) && cl.inTx && o.client.watched == map[])
                || (req == Unwatch(false) && !cl.inTx && o.client.watched == map[])
                || (req.Watch? && !cl.inTx && cl.watched.Keys <= o.client.watched.Keys))
            && (o.db != db ==> (req.Run? && !cl.inTx) || (req == Exec(false) && cl.inTx && !Conflict(db, cl.watched)))
  {
    hide Apply, Answer, RunQueue, Err, OK, Queued, Conflict;
  }

  /** What the steering commands answer and do. MULTI, DISCARD and UNWATCH reply OK, a queued request
      QUEUED; with arguments, or out of place, they and EXEC reply an error and change nothing. */
  lemma SteeringLaw(db: Store, cl: Client, req: Request, at: Moments)
    ensures var o := Step(db, cl, req, at);
            && (cl.inTx && !req.Exec? && !req.Discard? && !req.Malformed? ==>
                  o == Outcome(db, cl.(queue := cl.queue + [req]), R.Line([81, 85, 69, 85, 69, 68])))
            && (!cl.inTx && req == Begin(false) ==>
                  o == Outcome(db, Client(true, [], cl.watched), R.Line([79, 75])))
            && (cl.inTx && req == Discard(false) ==>
                  o == Outcome(db, Client(false, [], cl.watched), R.Line([79, 75])))
            && (!cl.inTx && req == Unwatch(false) ==> o == Outcome(db, cl.(watched := map[]), R.Line([79, 75])))
            && (req == Exec(true) || req == Discard(true) || req.Malformed?
                || (!cl.inTx && (req.Exec? || req.Discard? || req == Begin(true) || req == Unwatch(true)
                                 || req == Watch([], false) || req.Unknown? || req.Refused?)) ==>
                  o.db == db && o.client == cl && o.reply.ErrorLine?)
  {
    SteeringWords();
    hide Apply, Answer, RunQueue, Wording, Text, OK, Queued, Conflict;
  }

  lemma SteeringWords()
    ensures OK() == R.Line([79, 75]) && Queued() == R.Line([81, 85, 69, 85, 69, 68])
  {
    assert Text("OK") == [79, 75];
    assert Text("QUEUED") == [81, 85, 69, 85, 69, 68];
  }

  // ----- Transactions are sequential -----

  /** Running requests one after the other on a client outside MULTI, from the i-th moment on. Requests the transaction
      dispatcher does not know are answered with an error. */
  function RunInSequence(db: Store, reqs: seq<Request>, at: Moments, i: nat): (Store, seq<R.Wire>)
    decreases |reqs|
  {
    if reqs == [] then (db, [])
    else
      var o := Step(db, IDLE, reqs[0], From(at, i));
      var db' := if InDispatcher(reqs[0]) then o.db else db;
      var reply := if InDispatcher(reqs[0]) then o.reply else Err(UnknownCommand);
      var rest := RunInSequence(db', reqs[1..], at, i + 1);
      (rest.0, [reply] + rest.1)
  }

  lemma {:induction false} QueueRunsInSequence(db: Store, reqs: seq<Request>, at: Moments, i: nat)
    ensures RunQueue(db, reqs, at, i) == RunInSequence(db, reqs, at, i)
    decreases |reqs|
  {
    hide Apply, Answer, Err;
    if reqs != [] {
      QueueRunsInSequence(RunQueued(db, reqs[0], at(i)).0, reqs[1..], at, i + 1);
    }
  }

  /** Which commands a transaction can hold, by name: the five expiry commands and the commands that
      steer transactions are unknown to its dispatcher; every other data command does in it
      exactly what it does outside. */
  lemma DispatcherKnowsAllButExpiry(db: Store, req: Request, at: Moments)
    ensures var inside, outside := RunQueued(db, req, at(0)), Step(db, IDLE, req, at);
            && (req.Run? ==>
                  if req.op.Expire? || req.op.PExpire? || req.op.Ttl? || req.op.PTtl? || req.op.Persist?
                  then inside == (db, Err(UnknownCommand)) else inside == (outside.db, outside.reply))
            && (req.Ask? ==> inside == (db, outside.reply) && outside.db == db)
            && (req.Refused? && req.name in {EXPIRE, PEXPIRE, TTL, PTTL, PERSIST, SUBSCRIBE, PUBLISH, UNSUBSCRIBE} ==>
                  inside == (db, Err(UnknownCommand)))
            && (req.Refused? && req.name !in {EXPIRE, PEXPIRE, TTL, PTTL, PERSIST, SUBSCRIBE, PUBLISH, UNSUBSCRIBE} ==>
                  inside == (db, outside.reply) == (db, Err(Rejected(req.name, req.fault))))
            && (req.Unknown? || req.Begin? || req.Watch? || req.Unwatch? ==> inside == (db, Err(UnknownCommand)))
  {
    hide Apply, Answer, Err;
  }

  /** The requests of one client in a run, in order, without those that are not even commands. */
  function OwnRequests(events: seq<Event>, c: nat): seq<Request> {
    if events == [] then []
    else if events[0].client == c && !events[0].req.Malformed? then [events[0].req] + OwnRequests(events[1..], c)
    else OwnRequests(events[1..], c)
  }

  /** No request of client `c` executes or discards its transaction. */
  predicate Undecided(events: seq<Event>, c: nat) {
    forall i :: 0 <= i < |events| && events[i].client == c ==> !events[i].req.Exec? && !events[i].req.Discard?
  }

  /** Whatever the other clients do meanwhile, an open transaction queues exactly its own
      client's requests, first in first out. */
  lemma {:induction false} QueueIsHistory(s: Server, events: seq<Event>, c: nat)
    requires ClientOf(s, c).inTx && Undecided(events, c)
    ensures ClientOf(Play(s, events), c)
         == ClientOf(s, c).(queue := ClientOf(s, c).queue + OwnRequests(events, c))
    decreases |events|
  {
    hide Immediate, Queued;
    if events == [] {
      assert ClientOf(s, c).queue + [] == ClientOf(s, c).queue;
    } else {
      var e, t := events[0], Serve(s, events[0]);
      if e.client == c && e.req.Malformed? {
        MalformedChangesNothing(s.db, ClientOf(s, c), e.req, e.at);
      }
      assert ClientOf(t, c) == if e.client == c && !e.req.Malformed?
                               then ClientOf(s, c).(queue := ClientOf(s, c).queue + [e.req])
                               else ClientOf(s, c);
      QueueIsHistory(t, events[1..], c);
      var q, rest := ClientOf(s, c).queue, OwnRequests(events[1..], c);
      assert q + ([e.req] + rest) == q + [e.req] + rest;
    }
  }

  lemma MalformedChangesNothing(db: Store, cl: Client, req: Request, at: Moments)
    requires req.Malformed?
    ensures Step(db, cl, req, at).client == cl && Step(db, cl, req, at).db == db
  {
    hide Apply, Answer, RunQueue, Err, OK, Queued, Conflict;
  }

  /** A transaction equals sequential execution. From MULTI on, while any clients interleave,
      client `c` issues requests; when its EXEC finds no conflict it produces the database and
      the replies of running exactly those requests one by one from that moment on, each at its own reading of the clock. */
  lemma TransactionIsSequential(s: Server, start: Moments, events: seq<Event>, c: nat, at: Moments)
    requires !ClientOf(s, c).inTx && Undecided(events, c)
    ensures var t := Play(Serve(s, Event(c, Begin(false), start)), events);
            var o := Step(t.db, ClientOf(t, c), Exec(false), at);
            var r := RunInSequence(t.db, OwnRequests(events, c), at, 0);
            && Serve(s, Event(c, Begin(false), start)).db == s.db
            && (Conflict(t.db, ClientOf(s, c).watched) ==> o == Outcome(t.db, IDLE, Err(ExecAborted)))
            && (!Conflict(t.db, ClientOf(s, c).watched) ==> o == Outcome(r.0, IDLE, R.Multi(r.1)))
  {
    hide Apply, Answer, RunQueue, RunInSequence, Err, OK, Queued, Conflict, Undecided, OwnRequests, Play;
    var s1 := Serve(s, Event(c, Begin(false), start));
    assert ClientOf(s1, c) == ClientOf(s, c).(inTx := true, queue := []);
    QueueIsHistory(s1, events, c);
    var t := Play(s1, events);
    var own := OwnRequests(events, c);
    assert [] + own == own;
    QueueRunsInSequence(t.db, own, at, 0);
  }
}
