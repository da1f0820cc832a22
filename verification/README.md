# MinimalRedis, modelled and proved in Dafny

A model of the MinimalRedis server: its sorted sets with two indexes, its snapshot file, its
transactions with WATCH, its RESP parser and connection buffer, and its lazy expiry, lists, sets
and subscriptions. The C++ objects that change in place are Dafny classes (`Database`,
`CommandProcessor`, `RespParser`, `Connection`, `ByteStream`, `PubSubManager`); each of their
methods is proved equal to a function on values, and the theorems are about those functions, over
every input and every run.

`dafny verify dfyconfig.toml` checks the whole project.

## Main results

- **Parsing undoes printing.** Every nested well-formed RESP value, wherever it stands and whatever
  follows, is read back and exactly its bytes are consumed (`Resp.ParseUndoesPrint`). A value cut
  anywhere raises exactly the exception read off the value, never a format error, and "Incomplete
  command" exactly when the cut is at the start of a (sub)value (`Resp.ParseCut`,
  `Resp.CutFaultIsIncomplete`).
- **Stream framing, with its exact condition.** For every list of commands and every sequence of reads that
  fit the free buffer space and bring their encoding, or the start of it, what the connection loop executed,
  kept and decided is read off the stream and the byte at which the reads halt. The connection stays open if
  and only if every read ends where a value starts and leaves fewer than 7168 bytes; then exactly the commands
  are executed in order, and otherwise it closes with some outstanding and with the fault that the cut
  determines (`Connections.StreamFraming`). So the server does not accept every TCP segmentation, because
  main.cpp:102 waits only on one of the three "Incomplete" messages; any first read that ends inside the header
  line of a command is refused (`SplitHeaderIsRefused`).
- **Snapshot round trip and truncation.** The record loop restores every database whose sizes fit the format,
  in every iteration order (`SnapshotRoundTrip.RecordRoundTrip`), and what is lost is stated as an if and only
  if (`RestoredViewIsSame`). A file cut at any byte leaves exactly the whole records, plus the whole fields of a
  hash that was cut (`SnapshotCuts.RecordsCut`).
- **The server never recovers its own file.** The loader misreads the writer's header
  (`SnapshotCuts.OwnHeaderIsMisread`): it fails and loads nothing, unless the first record is a string without
  positive expiry, and then it goes on one byte inside that record. Even then, for every database and every
  order of writing, it does not report success and show the same values
  (`SnapshotRecovery.OwnFileIsNeverRecovered`); `MisreadIsReportedAsSuccess` is a database where it reports
  success with wrong contents. The proof weighs bytes: what a load holds weighs no more than what it read
  (`SnapshotRecovery.LoadPays`), and the file from that byte on weighs less than the database.
- **WATCH soundness over all interleavings** of any number of clients (`Watching.WatchSoundness`), for as long
  as the watching client leaves its record of the key alone: it may watch other keys, open and discard
  transactions and queue anything. The commands that escape the counter are given exactly
  (`Tracking.StepIsTracked`), and runs from an empty server show that the hypotheses are needed
  (`RemovalDefeatsWatch`, `RetypeDefeatsWatch`, `MalformedHSetDefeatsWatch`). A watched key that is gone at EXEC
  is noticed if and only if its recorded counter was not 0 (`DeletionIsNoticed`), and that counter is 0 for
  every key loaded from any file (`LoadedKeyDeletionGoesUnnoticed`).
- **A transaction equals sequential execution** at the moment of EXEC, while any clients interleave
  (`Transactions.TransactionIsSequential`), and its reply is one RESP array that
  parses back to the replies (`Replies.ExecReplyParses`). The one condition is on sizes: the stored containers
  and the arguments in the queue together stay below 2^63 elements.
- **Sorted-set order over every run**: the two indexes agree and the multimap is the stable sort by score
  of the members in order of their latest ZADD (`Histories.EveryRunKeepsOrder`); that stable sort is unique
  (`SortedSets.StableSortIsUnique`). The run may start from any server, such as one loaded from a file.
- **Lazy expiry refines eager expiry, with its exact condition.** Over every run with a clock that never goes
  back, the store that expires lazily and one that purges before each command give the same replies and show
  the same keys at every step if and only if no command meets an expired value to which it is not blind, where
  blindness is read off the command and the value (`Expiry.LazyRefinesEager`, `Expiry.HarmlessIsExact`). SET is
  never blind, and what it writes is lost (`SetOnExpiredKeyIsLost`). The commands that only look have their own
  exact condition (`ExpiredQueries.QueriesOnExpired`).
- **No spurious aborts.** The converse of WATCH soundness, over all interleavings and any number of watched keys:
  if no data command that runs names a key the client watches, its EXEC commits the sequential run of its own
  requests (`Watching.UndisturbedExecCommits`, `WatchedTransactionCommits`).
- **Scores are numbers.** The order of the bit patterns is the order of the IEEE 754 values they stand for,
  infinities and zeros included (`ScoreOrder.OrderIsNumeric`); whole numbers below 2^53 are anchored to their
  patterns and their text (`WholeNumbersAreThemselves`); and ZADD, ZRANGE, ZRANK, ZSCORE and ZREM are told by
  those numbers (`ScoredLaws`).
- **The snapshot format, byte by byte**: what stands in the file for each type, and what each type number loads
  as (`SnapshotFormat`).
- **Deadlines.** EXPIRE n at time t keeps a key alive exactly until t + 1000 n, as EXISTS, GET, TTL and PTTL tell
  (`KeyLaws.ExpireLaw`, `PersistLaw`).
- **Every command told by replies.** For lists, sets, hashes, sorted sets and keys, the effect of each writing
  command is stated through what the reading commands reply afterwards (`ListLaws`, `SetLaws`, `HashLaws`,
  `ScoredLaws`, `KeyLaws`); the counter moves exactly when the reply reports a change
  (`Tracking.CounterFollowsReply`).
- **Queues, ranges, ranks, sets, subscriptions**: conservation of list items over all runs at both ends, the
  mirror law of ranges, rank against position, set algebra, and delivery counts of PUBLISH.

## How the source is read

- Bytes are numbers below 256. Scores are doubles other than NaN, as their 64-bit patterns, compared as
  sign-and-magnitude integers, which is how IEEE 754 doubles compare; the two zeros are equal.
- A request is modelled after the argument checks of its handler. An empty argument list stands for too
  few arguments; `badTail` marks an HSET or WATCH whose next argument is not a bulk string, because those
  two handlers act on the arguments before it; `Refused` is every other rejected request, with the command
  and the kind of fault, from which the handler's own message follows.
- What the environment contributes to a command is a parameter, a `Moment`: one reading of the clock, the order
  in which unordered containers are iterated, and whether a snapshot file could be written. Each queued command
  of an EXEC has its own moment. Integer widths are explicit where they show: 64-bit
  lengths and counters in the parser and in WATCH, 32-bit sizes in snapshots, the `size_t`-to-`int`
  conversion of range indexes. Snapshot integers are little-endian, as on the hosts the server builds for.
- Iteration over an unordered container may take any order: the theorems hold for every order.
- The code has no lock on the database: each client request is assumed to be one atomic step.
- Where a comment and the code disagree, the code is modelled: redis_value.h:40 says that ties are ordered
  lexicographically, but the multimap keeps insertion order, and `zrank` counts lexicographically; the
  lemma `RankAgainstRange` says exactly when the two agree.

## Files

`Octets` bytes and numbers; `Resp`, `RespParsing`, `Connections` the protocol; `SortedSets`, `ScoreFormat`,
`ScoreOrder`, `Ranges`, `Keyspace`, `Databases` the data; `Commands`, `Tracking` the commands; `ListLaws`,
`SetLaws`, `HashLaws`, `ScoredLaws`, `KeyLaws` the commands told by their replies; `Transactions`, `Traces`,
`Watching`, `Histories`, `Expiry`, `ExpiredQueries`, `Replies`, `CommandProcessing` runs of many clients;
`Snapshots`, `SnapshotCodec`, `SnapshotFormat`, `SnapshotRoundTrip`, `SnapshotCuts`, `SnapshotLoads`,
`SnapshotRecovery`, `SnapshotIO` the snapshot file; `PubSub` subscriptions.

## Model

| member | source | states |
|---|---|---|
| Octets.NumberRoundTrip | resp.cpp:49-90 | the decimal text of every 64-bit signed number and of every unsigned length is read back as that number |
| Octets.DecimalIsBaseTen | resp.cpp:49-90 | numbers are written in base ten, highest digit first, with a leading minus sign |
| Octets.FourBytes | db.cpp:624-635 | four bytes read as a number with the lowest first |
| Resp.ParseUndoesPrint | resp.cpp:9-121 | for every nested well-formed value at any position with any bytes behind it, the parser returns its meaning (null bulk as empty) and stops exactly behind it |
| Resp.ParseUndoesPrintAll | resp.cpp:94-96 | pipelined or nested values are read one by one, in order, consuming exactly their encodings |
| Resp.ParseCut | resp.cpp:9-121 | for every well-formed value cut after any number of bytes, the parser fails with exactly the fault that the value and the cut determine |
| Resp.CutFaultIsIncomplete | resp.cpp:9-12 | a cut is never taken for a whole or a malformed value, and "Incomplete command" is raised if and only if the cut is at the start of a value or nested value |
| Resp.MalformedStep | resp.cpp:14-29 | a first byte other than the five type bytes is an unknown type, and a line that is no number is the format fault of its type |
| Resp.LenientReading | resp.cpp:101-121 | the byte before a line feed and the two bytes behind a bulk string are skipped unread, an empty line is refused, and a text line loses one more carriage return |
| RespParsing.RespParser.ReadLine | resp.cpp:101-112 | the scanning loop returns the line without its last byte, moves behind the line feed, or raises the incomplete or length fault, as the specification function says |
| RespParsing.RespParser.ReadBulkString | resp.cpp:114-121 | the payload and the position behind its terminator, with the 64-bit wrap of the bound check |
| RespParsing.RespParser.ParseArray | resp.cpp:82-99 | the counting loop with recursive calls returns the elements in order or the first element's fault |
| RespParsing.RespParser.Parse | resp.cpp:9-29 | the recursive descent over the position field computes the specification function, and terminates |
| RespParsing.EncodeCommand | clients/tui/redis_client.cpp:56-60 | the client's loop prints the array of bulk strings of its words |
| RespParsing.CommandArrives | clients/tui/redis_client.cpp:56-60 | what the client prints is parsed by the server as exactly those words, leaving the bytes behind it |
| Connections.Connection.Fill | main.cpp:76-81 | a read appends its bytes to the buffered ones and stays inside the buffer |
| Connections.Connection.ProcessAll | main.cpp:84-111 | the inner loop hands over exactly the commands that the specification of draining finds, in order, keeps the rest, reports the closing fault, and terminates |
| Connections.Connection.Compact | main.cpp:113-119 | the unprocessed bytes move to the front unchanged, and received bytes remain consumed bytes followed by the buffer |
| Connections.Connection.OnReadable | main.cpp:75-128 | one read: nothing received is lost, duplicated or reordered, the buffer position stays at most 8191, and commands, rest and status are those of draining old buffer and new bytes |
| Connections.Connection.Serve | main.cpp:53-129 | a sequence of reads executes the commands of the session function |
| Connections.MoveDown | main.cpp:115-115 | the overlapping move towards the front delivers the original bytes |
| Connections.ReadInsideStream | main.cpp:84-128 | one read ending anywhere inside a stream of commands executes exactly the whole commands, keeps the rest, and leaves exactly the status that the stream and the offset determine: open at the start of a value with fewer than 7168 bytes left, otherwise the fault of the cut or too large |
| Connections.StreamFraming | main.cpp:75-128 | for every list of commands and every sequence of reads that fit: executed commands, kept bytes and status are those at the byte where the reads halt; open if and only if every read ends where a value starts and leaves fewer than 7168 bytes; with the whole encoding read, open means exactly the commands in order and an empty buffer, closed means some are outstanding |
| Connections.SplitHeaderIsRefused | main.cpp:100-110 | whatever the command, a first read that ends inside its header line closes the connection with nothing executed |
| Connections.GarbageIsRefused | main.cpp:84-111 | commands followed by a byte that starts no value: the commands are executed and the connection is closed for the unknown type |
| SortedSets.AddAllAgrees | db.cpp:425-453 | after every batch of adds both indexes hold the same pairs, each member once, in score order |
| SortedSets.RemoveAllAgrees | db.cpp:455-480 | the same after every batch of removals |
| SortedSets.SizesAgree | db.cpp:710-712 | the size that the snapshot writes equals the number of entries it writes |
| SortedSets.AddIsStable | db.cpp:447-449 | an add keeps the multimap the stable sort of members by latest add: the entry goes behind everything it ties with |
| SortedSets.StableSortIsUnique | redis_value.h:39-42 | sortedness and tie order determine the multimap completely |
| SortedSets.RebuildIndex | db.cpp:817-825 | adding the entries of a sorted index in order rebuilds it exactly, ties included |
| ScoreOrder.OrderIsNumeric | redis_value.h:39-42 | two scores are ordered as the numbers their bit patterns stand for, infinities and both zeros included |
| ScoreOrder.WholeNumbersAreThemselves | commands.cpp:1053-1065 | the pattern of every whole number below 2^53 stands for it and is written as it; the sign bit negates |
| ScoreOrder.Literals | redis_value.h:39-42 | the patterns of -1, 0, 1 and 2 are increasing and have those values; the two zeros tie |
| Ranges.ResolveIsExact | db.cpp:497-501 | below 2^31 elements the `size_t`-then-`int` arithmetic is the mathematical one |
| Ranges.SliceIsClamp | db.cpp:490-512 | a range selects exactly the positions between the clamped ends |
| Ranges.MirrorLaw | db.cpp:514-536 | a reverse range is the reverse of the range with reflected ends, for all int ends |
| Ranges.RankAgainstPosition | db.cpp:549-570 | rank is at most position, equal if and only if every earlier tied entry is lexicographically smaller |
| Keyspace.RankAgainstRange | db.cpp:549-570 | the same for `zrank` against the index in `zrange(0,-1)` of a stored value |
| Ranges.LessIsLexicographic | db.cpp:549-570 | ties are compared byte by byte: the first difference decides and a proper prefix is smaller |
| Ranges.LessIsTotal | db.cpp:549-570 | that comparison is a strict total order |
| ScoredLaws.ZAddLaw | db.cpp:425-453 | ZADD of one pair: the member has the score and stands behind everything at most it and before everything more, the others keep order and scores |
| ScoredLaws.BatchZAddIsOneByOne | db.cpp:425-453 | a batch ZADD equals adding its pairs one at a time |
| ScoredLaws.RangeIsIncreasing | db.cpp:490-512 | ZRANGE 0 -1 lists every member once in increasing order of the numbers their scores stand for |
| ScoredLaws.RangeLaw | db.cpp:482-536 | ZRANGE and ZREVRANGE reply the clamped part of that list and of its reverse; ZCARD replies its length |
| ScoredLaws.ScoreLaw | commands.cpp:1034-1065 | ZSCORE writes the score of a listed member; a missing one reads as null in an empty set and as 0 beside others |
| ScoredLaws.RankLaw | db.cpp:549-570 | ZRANK is the position less the earlier ties that are not smaller as text, null when missing |
| ScoredLaws.ZRemLaw | db.cpp:455-480 | ZREM of one member: it is gone, the others keep order and scores, the reply tells whether it was there |
| ScoredLaws.BatchZRemIsOneByOne | db.cpp:455-480 | a batch ZREM equals removing one at a time, and replies whether any was there |
| Databases.Database.ZAdd | db.cpp:425-453 | the loop that erases old entries by scanning an equal range and writes both indexes computes the batch add and keeps agreement |
| Databases.Database.ZRem | db.cpp:455-480 | the removal loop computes the batch removal, reports whether any member was there, and keeps agreement |
| Databases.EraseEntry | db.cpp:435-444 | the equal-range scan removes exactly the member's entry |
| Databases.Database.ZRange | db.cpp:490-512 | the iterator loop returns the selected members in order |
| Databases.Database.ZRevRange | db.cpp:514-536 | the reverse iterator loop returns the selected members of the reversed order |
| Databases.Database.ZRank | db.cpp:549-570 | the counting loop with its early exit computes the rank, -1 for a missing member |
| Databases.Database.SAdd | db.cpp:242-248 | the set grows by exactly the given members and the count of new ones is returned |
| Databases.Database.SRem | db.cpp:250-260 | the set loses exactly the given members and the count of removed ones is returned |
| Databases.Database.SInter | db.cpp:287-316 | a duplicate-free listing of the common members in the order of the first set, empty when a key is missing or of another type |
| Databases.Database.SUnion | db.cpp:318-329 | a duplicate-free listing of the union in the order of the built set |
| Databases.Database.SDiff | db.cpp:331-353 | a duplicate-free listing of the first set without the others, in the order of the built set |
| Databases.DifferenceAndIntersectionSplit | db.cpp:287-353 | the lists that SDIFF and SINTER return split the first set and are together as long as it, whatever the second key holds |
| Databases.Database.HDel | db.cpp:374-384 | exactly the given fields are dropped, and the result says whether any was there |
| ListLaws.RPushLaw | db.cpp:166-171 | RPUSH puts the items behind what LRANGE 0 -1 replied and replies the new length |
| ListLaws.LPushLaw | db.cpp:159-164 | LPUSH puts the items in front, the last one first, and replies the new length |
| ListLaws.BatchRPushIsOneByOne | db.cpp:166-171 | a batch RPUSH equals pushing one at a time |
| ListLaws.PopLaw | db.cpp:173-191 | LPOP replies and removes the first item, RPOP the last |
| ListLaws.NothingToPop | commands.cpp:456-494 | with no item, a pop replies an empty string if the key lives and null otherwise |
| ListLaws.StackLaw | db.cpp:159-191 | LPUSH then LPOP, and RPUSH then RPOP, reply the item and restore the list |
| ListLaws.ReadLaw | db.cpp:193-224 | LRANGE replies the clamped part of LRANGE 0 -1 and LLEN its length |
| ListLaws.IndexLaw | db.cpp:226-239 | LINDEX replies the item at that place of LRANGE 0 -1, from the end if negative, null if missing or empty |
| SetLaws.SMembersLaw | db.cpp:262-285 | SMEMBERS lists once each exactly the members that SISMEMBER finds, and SCARD is the length of that list |
| SetLaws.SAddLaw | db.cpp:242-248 | after SADD, SISMEMBER finds the old members and the given ones; the reply is the growth of SCARD |
| SetLaws.SRemLaw | db.cpp:250-260 | after SREM, SISMEMBER finds the old members but the given ones; the reply is the loss of SCARD |
| SetLaws.SetAlgebraLaw | db.cpp:287-353 | SINTER, SUNION and SDIFF list once each the members that SISMEMBER finds at all keys, at some, and at the first only |
| SetLaws.KeysLaw | db.cpp:64-72 | KEYS lists every key once |
| HashLaws.HSetLaw | db.cpp:356-361 | after HSET of one pair, HGET finds its value and every other field is as before |
| HashLaws.BatchHSetIsOneByOne | commands.cpp:754-773 | a batch HSET equals setting one pair at a time and replies the number of pairs |
| HashLaws.HDelLaw | db.cpp:374-384 | after HDEL the given fields read as null and the others as before; the reply tells whether HKEYS listed one of them |
| HashLaws.HashListingLaw | db.cpp:363-422 | HKEYS, HVALS and HGETALL agree field by field with HGET, field before value, and HLEN counts |
| KeyLaws.KeysAreIndependent | db.cpp:17-570 | a data command depends on its key only and leaves every other key alone |
| KeyLaws.SetLaw | db.cpp:17-34 | after SET on a key without deadline, GET replies the value, EXISTS 1 and TYPE string, from then on |
| KeyLaws.DelLaw | commands.cpp:313-331 | DEL replies what EXISTS replied and makes the key answer as missing |
| KeyLaws.TypeLaw | commands.cpp:378-405 | each writing command gives the key its type, by name; GET sees strings only |
| KeyLaws.PExpireLaw | redis_value.h:67-71 | PEXPIRE n at t: EXISTS, GET, TTL and PTTL tell a deadline at exactly t + n milliseconds |
| KeyLaws.ExpireLaw | redis_value.h:60-64 | EXPIRE n at t: the same with t + 1000 n |
| KeyLaws.SecondsAreThousands | redis_value.h:60-71 | EXPIRE n is PEXPIRE of 1000 n |
| KeyLaws.ExpireNothing | db.cpp:74-98 | the expiry commands on a missing or expired key reply 0 and leave it missing |
| KeyLaws.PersistLaw | db.cpp:124-135 | after PERSIST the key never expires and keeps its value; TTL and PTTL reply -1 |
| KeyLaws.SetKeepsDeadline | db.cpp:17-22 | SET on a living key keeps its deadline |
| KeyLaws.LookingErases | db.cpp:24-135 | looking at an expired key erases it, for the commands that check and for those that find nothing |
| KeyLaws.StorageLaw | redis_value.h:31-42 | a value keeps the storage of every type: each is written by its own commands only, and taken from only while the key has that type |
| Commands.ApplyKeepsAgreement | db.cpp:425-480 | every command on every store, under any change of type, keeps all index pairs in agreement |
| Commands.OnlyScoredWritesIndex | redis_value.h:34-42 | no other command touches the sorted set of a value |
| Commands.WriteFieldsValue | commands.cpp:754-766 | a batch of HSET pairs rewrites the hash and the type and nothing else |
| ScoreFormat.TextIsNearest | commands.cpp:1053-1065 | the digits of a finite score are those of the nearest number of millionths, ties to even, without trailing zeros |
| Tracking.StepIsTracked | commands.cpp:276-1277 | for every command and value: the counter rises by at most one and never falls while the key stays, and it misses a visible change if and only if the command is a SADD that only retypes or an HSET with a malformed tail |
| Tracking.CounterFollowsReply | commands.cpp:276-1277 | the counter of a key that stays moves by one exactly when the reply reports a change |
| Tracking.ReadsSeeOnlyView | commands.cpp:293-1085 | replies of reads depend only on the visible value, never on storage left over from another type, and reads change nothing except to erase an expired key |
| Tracking.QueriesSeeOnlyViews | commands.cpp:348-897 | KEYS, SMEMBERS, SINTER, SUNION, SDIFF, HKEYS, HVALS and HGETALL depend only on what the keys show |
| Transactions.EveryRunKeepsServer | commands.cpp:34-127 | in every run, outside a transaction every queue is empty and only queueable requests are queued |
| Transactions.StepRespectsTransaction | commands.cpp:1090-1177 | queueing, DISCARD and an aborted EXEC leave the database alone, MULTI and WATCH inside MULTI are queued and never reach their handlers, and watches change only by WATCH, EXEC and UNWATCH outside MULTI |
| Transactions.SteeringLaw | commands.cpp:1090-1177 | the replies and effects of MULTI, DISCARD, UNWATCH and queueing; refused requests reply an error and change nothing |
| Transactions.DispatcherKnowsAllButExpiry | commands.cpp:34-127 | by name: the expiry commands and the steering commands are unknown inside a transaction, every other command does there what it does outside |
| Transactions.QueueIsHistory | commands.cpp:34-127 | whatever other clients do, an open transaction queues exactly its client's requests, first in first out |
| Transactions.QueueRunsInSequence | commands.cpp:1131-1145 | draining the queue equals running the requests immediately one by one; requests unknown to the transaction dispatcher answer an error and change nothing |
| Transactions.TransactionIsSequential | commands.cpp:1108-1159 | MULTI, any interleaving, EXEC: either the abort reply with nothing changed, or the database and replies of running exactly the client's requests one by one from then on, each at its own moment |
| Replies.StepIsBounded | commands.cpp:276-1085 | a command makes no container grow by more than its arguments, and a number it replies lies between 0 and one more than the largest size |
| Replies.ReplyIsWellFormed | commands.cpp:276-1277 | every reply of every data command is one well-formed RESP value, numbers included, while sizes stay below 2^63 (for the times to live, with a non-negative clock and a 64-bit expiry) |
| Replies.ExecReplyParses | commands.cpp:1152-1158 | with sizes below 2^63, the reply of EXEC parses as one array whose i-th element is the parse of the i-th reply, with every byte consumed |
| Replies.FormatArray | commands.cpp:532-535 | the formatting loop of a list-valued reply prints the array of bulk strings |
| Replies.FormatExec | commands.cpp:1152-1158 | concatenating the formatted replies behind the count prints the array of the replies |
| Traces.RunEffects | commands.cpp:1131-1145 | over every run the database changes exactly by the data commands executed, in order |
| Watching.RecordPersists | commands.cpp:1280-1311 | what a client recorded for a key survives every interleaving until that client runs an EXEC in a transaction or, outside one, an UNWATCH or a WATCH of that key; later WATCHes of other keys, queued and refused requests and DISCARD keep it |
| Watching.WatchSoundness | commands.cpp:1117-1129 | over all interleavings in which the client does not touch its record of the key and fewer than 2^64 commands run: if a watched key was present and never removed, or was absent, and no silent command hit it, an EXEC aborts or sees exactly the value and expiry seen at the WATCH |
| Watching.UndisturbedExecCommits | commands.cpp:1117-1129 | over all interleavings and any number of WATCHes: if no data command that runs names a watched key, EXEC commits the sequential run of the queue |
| Watching.WatchedTransactionCommits | commands.cpp:1108-1159 | WATCH, anything, MULTI, requests, EXEC without a command on the watched keys: EXEC is the sequential run of the requests after MULTI |
| Watching.DeletionIsNoticed | db.cpp:138-144 | a watched key that is gone at EXEC makes EXEC abort if its recorded counter was not 0, and has no influence on the conflict check if it was 0 |
| Watching.RemovalDefeatsWatch | db.cpp:138-156 | from an empty server, for every key and any two values, delete and recreate brings the counter back and EXEC commits on a changed value |
| Watching.RetypeDefeatsWatch | commands.cpp:589-592 | from an empty server, a SADD that only retypes goes unnoticed by EXEC |
| Watching.MalformedHSetDefeatsWatch | commands.cpp:754-770 | from an empty server, an HSET that fails on a later pair keeps the fields it wrote and goes unnoticed by EXEC |
| Watching.LoadedKeyDeletionGoesUnnoticed | db.cpp:740-851 | on a server started from any file, the deletion of a loaded key goes unnoticed by EXEC |
| CommandProcessing.CommandProcessor.HandleExec | commands.cpp:1108-1159 | the watch loop and the queue loop take exactly the specified step |
| CommandProcessing.CommandProcessor.HandleWatch | commands.cpp:1280-1300 | the counters of exactly the listed keys are recorded, also those before a malformed one |
| CommandProcessing.CommandProcessor.RunHSet | commands.cpp:742-773 | pairs are written one by one and the counter is bumped only if all were well-formed |
| CommandProcessing.CommandProcessor.RunQuery | commands.cpp:348-897 | the commands that only look answer as specified, in the iteration order given, and change nothing |
| CommandProcessing.CommandProcessor.Run | commands.cpp:146-247 | every data handler, with its sequence of database calls, computes the specified store and reply |
| CommandProcessing.CommandProcessor.ProcessCommand | commands.cpp:14-274 | one request takes exactly the specified step of the state machine |
| Histories.EveryRunKeepsOrder | db.cpp:425-480 | over every run of any number of clients from any server, at every key, the indexes agree and the multimap is the stable sort by score of the members in order of their latest ZADD |
| Histories.LoadedServerIsInOrder | main.cpp:145-149 | a server started from any file meets the starting condition of the previous row at every key |
| Histories.BatchPushIsOneByOne | db.cpp:159-164 | a batch LPUSH equals pushing its items one at a time |
| Histories.QueueConservation | db.cpp:159-191 | over every trace that only pushes a list at one end and pops it at the other, either way round: waiting plus pushed equals popped plus waiting, in order |
| Histories.PoppedIsPrefixOfPushed | commands.cpp:408-494 | over every run of many clients, what was popped at one end is a prefix of what was pushed at the other |
| Expiry.HarmlessIsExact | db.cpp:17-570 | for every command, value and time: the reply and the remaining value are those on the purged key if and only if the value is not expired or the command finds nothing in it and writes nothing to it |
| Expiry.StepRefines | db.cpp:17-135 | one command on a lazy store and on an eager store that agrees with it up to expired keys: same reply and agreement afterwards if and only if the command is harmless at its key |
| Expiry.LazyRefinesEager | redis_value.h:46-94 | over every run with a clock that never goes back: the two stores run in step if and only if every command met is harmless, and then all replies are equal |
| Expiry.CheckingRunsRefine | db.cpp:24-135 | over every run of GET, EXISTS, TYPE, DEL, LLEN and the expiry commands, all replies are those of the eager store |
| ExpiredQueries.QueriesOnExpired | db.cpp:64-422 | for every command that only looks and every database: the answer is that of the purged database if and only if the command is blind to the expired keys, by a condition read off the keys it names |
| Expiry.SetOnExpiredKeyIsLost | db.cpp:17-22 | for every expired key, SET keeps the old expiry, so the next GET finds nothing while the eager store returns the value |
| SnapshotCodec.StringAt | db.cpp:624-655 | every string shorter than 2^32 is read back from its 6-bit or 32-bit length code |
| SnapshotCodec.StringCut | db.cpp:637-655 | every cut inside a written string is noticed |
| SnapshotCodec.PairsCut | db.cpp:828-836 | a cut among hash fields leaves exactly the whole pairs before it |
| SnapshotFormat.FileBytes | db.cpp:663-668 | a file is REDIS, version 9, SELECTDB 0, the records and 0xFF |
| SnapshotFormat.CountBytes | db.cpp:691-692 | a count is four bytes, lowest first |
| SnapshotFormat.StringBytes | db.cpp:624-635 | a string is its length in one byte below 64, else 0x80 and four bytes, then its bytes |
| SnapshotFormat.ItemBytes | db.cpp:693-729 | items follow one another, a score its member and a value its field |
| SnapshotFormat.RecordBytes | db.cpp:670-731 | a record is the expiry as 0xFC and eight bytes if any, then 0, 1, 2, 3 or 4 for string, list, set, sorted set or hash, the key and the contents |
| SnapshotFormat.LoadsString | db.cpp:776-786 | a record of type 0 loads as that string with its expiry |
| SnapshotFormat.LoadsList | db.cpp:788-800 | a record of type 1 loads as that list |
| SnapshotFormat.LoadsSet | db.cpp:802-813 | a record of type 2 loads as that set |
| SnapshotFormat.LoadsSortedSet | db.cpp:814-827 | a record of type 3 loads as that sorted set |
| SnapshotFormat.LoadsHash | db.cpp:828-836 | a record of type 4 loads as that hash |
| SnapshotFormat.LengthForms | db.cpp:637-655 | the first byte of a length selects one byte, four bytes lowest first, or refusal |
| SnapshotFormat.OtherFilesAreRefused | db.cpp:746-754 | a file that does not start with REDIS and a version is refused and loads nothing |
| SnapshotRoundTrip.RecordAt | db.cpp:670-731 | one record of any type, with or without expiry, is read back as the restored value of its key |
| SnapshotRoundTrip.RecordRoundTrip | db.cpp:757-847 | for every database that fits the format and every iteration order, loading the records into an empty database recovers every key, type, visible value, tie order and positive string expiry |
| SnapshotRoundTrip.RestoredViewIsSame | db.cpp:780-835 | a key shows the same value after the round trip if and only if it is no empty list or hash and has no expiry that the format drops |
| SnapshotCuts.RecordsCut | db.cpp:757-847 | records cut at any byte: exactly the whole records and the whole fields of a cut hash are kept, and the result is true if and only if the cut is at a record boundary |
| SnapshotCuts.TruncatedSnapshot | db.cpp:757-827 | without hashes, exactly the whole records before the cut remain |
| SnapshotCuts.OwnHeaderIsMisread | db.cpp:756-774 | loading the writer's own file fails and changes nothing, except when the first record is a string without positive expiry, and then the loop goes on one byte inside that record |
| SnapshotCuts.MisreadIsReportedAsSuccess | db.cpp:838-843 | a database whose saved file is reported as loaded but comes back as a different database |
| SnapshotLoads.LoadedServer | db.cpp:740-851 | after loading any file into an empty database, all index pairs agree and all modification counters are 0 |
| SnapshotRecovery.LoadPays | db.cpp:757-847 | what a successful load accounts for at any listed items weighs no more than the bytes it read; without hashes this holds of failed loads too |
| SnapshotRecovery.OwnFileIsNeverRecovered | db.cpp:657-851 | for every database that fits the format and every order of writing: loading the saved file does not both report success and show the same values; without hashes, a nonempty database is not shown again whatever is reported |
| SnapshotIO.SaveRdb | db.cpp:657-738 | the nested writing loops produce a file that lists every key once with its value, in some order |
| SnapshotIO.WriteRecord | db.cpp:670-731 | one record has the specified bytes |
| SnapshotIO.ByteStream.ReadLengthEncoded | db.cpp:637-655 | the string reader computes the specification function |
| SnapshotIO.LoadPairs | db.cpp:828-836 | hash fields are written to the database while they are read |
| SnapshotIO.LoadRdb | db.cpp:740-851 | the reading loops compute the specified result and database for every file, and keep index agreement |
| PubSub.PubSubManager.Subscribe | db.cpp:853-856 | one more subscription of that client to that channel, all other counts kept |
| PubSub.PubSubManager.Unsubscribe | db.cpp:858-865 | all subscriptions of that client to that channel are gone, nobody else's, and no empty channel remains |
| PubSub.PubSubManager.UnsubscribeAll | db.cpp:867-880 | the same on every channel, by two passes |
| PubSub.Publish | commands.cpp:1346-1362 | the reply counts the listed subscribers and the queues grow by the delivery of the notification |
| PubSub.NotificationArrives | commands.cpp:1346-1352 | what a subscriber is sent parses as the three words message, channel and text |
| PubSub.DeliveryConserves | commands.cpp:1353-1360 | every registered client gets one copy per subscription behind what it had |
| PubSub.PublishCount | commands.cpp:1346-1362 | the reported count is at least the number of messages queued, equal if and only if every listed subscriber is registered |
| PubSub.DeliveredIsGrowth | commands.cpp:1353-1360 | all queues together grow by exactly the number of deliveries |

## Left out

- CommandProcessing.CommandProcessor.ProcessCommand: starts from a request whose name was matched and whose arguments were checked; upper-casing of names, arity and type checks on RESP values and the parsing of number and score texts touch no state and are not modelled.
- CommandProcessing.CommandProcessor.Run: covers the data commands that name one key; KEYS, SAVE, SMEMBERS, SINTER, SUNION, SDIFF, HKEYS, HVALS and HGETALL are in `RunQuery`.
- SnapshotRecovery.OwnFileIsNeverRecovered: for a database with hashes it says nothing about a load that reports failure, because the loader keeps the fields of a hash that was cut short; and a misreading that meets a score pattern that is not a number counts as a failure.
- Expiry.LazyRefinesEager: its runs are of the commands of `Commands.Op`; the commands that only look change nothing and are treated one by one in `ExpiredQueries`.
- SnapshotIO.LoadRdb: a score pattern that is not a number ends the load with a failure, while the source would store it.
- Snapshots.ReadScore: a snapshot score that is not a number reads as a failure, while the source would store it; the writer never produces one from the modelled scores.
- Signed overflow of expiry arithmetic: times are unbounded, and snapshots are claimed for expiries below 2^63.
- Memory exhaustion, including the `reserve` of an announced array length before its elements arrive, and failing writes to sockets and files.
- The uncaught `std::length_error` of an empty line ends the process; the model only records it as a fault that closes the connection.
- SUBSCRIBE, UNSUBSCRIBE and PUBLISH as requests of the state machine: subscriptions and deliveries are modelled on their own, with the notification pipe as an immediate append to the queue.
- Lua scripts: EVAL and EVALSHA call a foreign interpreter and skip the modification counter, so no claim about WATCH covers them.
- Cluster routing and the CLUSTER and INFO replies: routing is assumed off.
- Sockets, `select`, pipes, threads, the save daemon and real files: replaced by supplied reads, output lists and byte sequences.
- `save_to_file`, `load_from_file`, the terminal client's display and the sources that no build target uses.
