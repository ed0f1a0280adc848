# Redistill in Dafny

A model of the hard core of Redistill, a Redis-compatible store, with proofs about it. It covers the
sharded key space with lazy expiry, memory accounting and eviction, the S3-FIFO queues, the
append-only log with its rewrite and replay, the snapshot file, the request parser and encoders, the
glob matcher and cursor SCAN.

`dafny verify dfyconfig.toml` checks everything. Dafny 4.11 is assumed.

## How it is built

Code that changes things in place is modelled in place. `ShardedStore`, `S3FifoQueues`,
`AppendOnlyFile`, `RespParser`, `RespWriter` and `CommandReader` are classes with the fields of the
original, and its loops are loops. Every such method is proved against a function on values, and the
theorems are about runs of those functions:

- `Store.dfy`, `Commands.dfy`: the key space `Db` as a value, each store operation and each command as a function
- `ShardedStore.dfy`, `Handlers.dfy`: the same operations and commands in place, down to `ExecuteCommand`
- `Names.dfy`, `Clients.dfy`, `Setting.dfy`, `Counters.dfy`: what a client gets for the bytes it sends, command by command, without reference to the dispatcher
- `Reference.dfy`, `Lapsing.dfy`: a plain map without stale entries, expiry transparency, and how stale entries leave
- `Accounting.dfy`, `Evicting.dfy`, `ConcurrentCounter.dfy`: the memory counter sequentially, which entries go and when a write is granted, and the counter under interleaving
- `S3Fifo.dfy`, `QueueInvariant.dfy`, `Collisions.dfy`, `Readmission.dfy`, `Promotion.dfy`: the queues, what holds of them over every run and exactly when, how long an evicted key is remembered, and what reading a key is worth
- `Resp.dfy`, `LogReader.dfy`, `Parser.dfy`, `Decimal.dfy`: framing, its two readers, numbers
- `Durability.dfy`, `AppendOnly.dfy`: buffer, kernel and disk as a step machine, and the file object
- `Snapshot.dfy`, `Replay.dfy`, `Recovery.dfy`, `Startup.dfy`: rewrite, replay, crash to restart, and their loops
- `BothFiles.dfy`: a start that finds the snapshot file and the log
- `Rdb.dfy`, `SaveFlag.dfy`: the snapshot file, and who may write it
- `Glob.dfy`, `Scan.dfy`, `StoreScan.dfy`: pattern matching, cursor iteration, and what it returns of the store
- `Witnesses.dfy`: runs of commands that show where a promise ends

Time is a parameter `now`. Random choices are parameters too: `picks` names the victims or shards an
eviction draws, `sample` the keys a sampling pass looks at, and iteration order is any listing of the
store. The hash is an arbitrary function. The entry codec of the snapshot file is an arbitrary
encoder with two decoders, tried in turn, that read back what it wrote.

## What the proofs found

Each of these is a promise that the code keeps only under a condition, and the condition is proved to
be the exact one where the row says "if and only if".

- INCR and its relatives report a type error for a hash that has expired, and DBSIZE and the key count
  of INFO include expired entries. Apart from SCAN these are the only departures from a map without
  stale entries (`Transparent`, `IncrSeesExpiredHash`, `DeadKeyCounted`).
- A SCAN page that stops at its limit resumes one entry too far (`FullIteration`, `StoreIteration`,
  `CompleteWhenOnePage`), and stale entries can hide a live key from it (`StaleHidesKey`).
- A log rewrite drops a lifetime longer than the largest i64, which SET accepts (`LifetimesSurvive`,
  `LongLifetimeLost`), and a counter driven to the smallest i64 can no longer be read
  (`ParseI64InvertsPrint`, `ThereAndBack`). TTL replies a negative number for such a lifetime (`TtlLaw`).
- HDEL of the last field and FLUSH over stale entries leave the memory counter too high, by amounts
  that `HDelLeaks` and `FlushLeaks` give exactly and that `HDelLeaksRun` and `FlushLeaksRun` reach from a
  fresh server. Nothing else does.
- Between the steps of concurrent commands the counter is off by what is pending, and wraps around if
  and only if that takes it out of range (`EveryInterleaving`, `TransientWrap`).
- The rename that ends a log rewrite is not itself synced, and `open` does not sync the file it takes
  over. `NothingPromisedIsLost` says exactly when a power failure can lose something acknowledged;
  `RenameNotSynced` and `OpenedNotSynced` show both cases.
- How a byte stream is cut into reads matters only through the buffer limit, and then if and only if
  some frame is longer than that limit by more than a byte, which the other limits allow
  (`RequestsSurvive`, `ThreeLargeArguments`).
- BGSAVE can be acknowledged and then be refused, because it lets go of the flag for a moment
  (`AcknowledgedButRefused`, `RefusedExactlyWhenHeld`).
- The S3-FIFO invariant holds over every run if and only if the hash tells the written keys apart, or
  there is no memory limit, or Small has room for one key only, or another policy is set
  (`InvariantExactly`).
- A start that finds both the snapshot file and the log replays the whole log over the snapshot, so an
  INCR counts twice (`AppliedTwice`). A key comes out right if the log overwrites or deletes it
  somewhere (`RestartFromBoth`); without conditional SETs that is also the only way in which the log
  can be indifferent to what was loaded (`ForgetsExactly`).

The comment on FLUSHDB says that expired keys have already had their memory returned. The code returns
it only when an expired key is removed, and the model follows the code.

## Model

| member | source | states |
|---|---|---|
| `Decimal.U64HasTwentyDigits` | src/protocol.rs:167-183 | no u64 has more than twenty digits, so the scratch buffer never underflows |
| `Decimal.WriteU64` | src/protocol.rs:167-183 | the digits laid down from the end of a 20-byte array are the decimal form of the number |
| `Decimal.Accumulate` | src/protocol.rs:298-318 | the checked accumulation succeeds if and only if all bytes are digits and the final value is within the limit, and then returns that value |
| `Decimal.ParseU64Loop` | src/protocol.rs:283-295 | accepts exactly a non-empty digit string of value at most u64::MAX |
| `Decimal.ParseI64Loop` | src/protocol.rs:298-318 | accepts exactly an optional minus and at least one digit of magnitude at most i64::MAX |
| `Decimal.ParseU64InvertsWrite` | src/protocol.rs:283-295 | parsing inverts printing for every u64 |
| `Decimal.ParseI64InvertsPrint` | src/protocol.rs:298-318 | parsing inverts printing for every i64 except the smallest, which is rejected |
| `Decimal.ParseUsizeInvertsPrint` | src/aof.rs:466-471 | the log reader's number parser inverts printing for every machine length |
| `Commands.DeltaOf` | src/main.rs:879-915 | the amount an INCR-family command adds is never i64::MIN, so the DECRBY negation cannot overflow; `Counters` says what the amount is |
| `Resp.RespWriter.WriteNumber` | src/protocol.rs:167-183 | appends exactly the decimal digits to the buffer |
| `Resp.RespWriter.WriteBulkString` | src/protocol.rs:193-199 | appends exactly one bulk-string frame |
| `Resp.RespWriter.WriteSignedInteger` | src/protocol.rs:214-223 | appends the signed form of any i64, the smallest included |
| `Resp.RespWriter.WriteArrayHeader` | src/protocol.rs:243-247 | appends exactly one array header |
| `Resp.RespWriter.WriteArray` | src/protocol.rs:233-240 | appends the same bytes as the log encoders do |
| `Resp.WireForm` | src/aof.rs:258-274 | the bytes of a frame, written out for one argument |
| `Resp.WriteBulk` | src/aof.rs:258-274 | one part of a log frame and its byte count |
| `Resp.WriteRespArray` | src/aof.rs:258-274 | the log encoder writes the frame of the command, and the byte total it reports is the length of the frame |
| `LogReader.CommandReader.NextHeader` | src/aof.rs:414-471 | reads one header line, failing exactly on a malformed or torn one |
| `LogReader.CommandReader.NextPart` | src/aof.rs:414-463 | reads one bulk string with its line end, failing exactly when it is malformed or torn |
| `LogReader.CommandReader.NextParts` | src/aof.rs:414-463 | reads all parts of a command in order or fails |
| `LogReader.CommandReader.NextCommand` | src/aof.rs:414-463 | returns the next command, a clean end, or an error, and leaves the position after the frame |
| `LogReader.FrameRoundTrip` | src/aof.rs:414-463 | the reader inverts the encoder for any payload bytes and leaves any suffix unread |
| `LogReader.TornFrame` | src/aof.rs:414-463 | every non-empty proper prefix of a frame is reported as an error |
| `LogReader.TornLog` | src/aof.rs:414-463 | any byte prefix of a log reads back as the commands it holds whole, and ends cleanly if and only if the cut is between frames |
| `LogReader.LogRoundTrip` | src/aof.rs:258-274 | a whole log reads back as the commands it was written from, then a clean end |
| `Parser.RespParser.ReadLen` | src/protocol.rs:58-143 | the length loop with its limit check |
| `Parser.RespParser.ReadBulk` | src/protocol.rs:58-143 | one bulk string from the buffer, incomplete or malformed |
| `Parser.RespParser.ReadBulks` | src/protocol.rs:58-143 | all bulk strings of a request in order |
| `Parser.RespParser.TryParse` | src/protocol.rs:58-143 | a success drops exactly the bytes it used; an incomplete or malformed buffer is left untouched |
| `Parser.RespParser.ReadCommands` | src/protocol.rs:35-56 | the read loop of a connection yields the commands, leftover and verdict of feeding the chunks in turn |
| `Parser.ParseStable` | src/protocol.rs:58-143 | a success with the bytes it consumes, or an error, is unchanged by appending any bytes |
| `Parser.ParseInvertsEncode` | src/protocol.rs:58-143 | the request parser inverts the encoders on every command within the limits, leaving any suffix untouched |
| `Parser.AcceptedExactly` | src/protocol.rs:12-143 | an encoded request is parsed back if and only if it has at most 1000000 arguments of at most 512000000 bytes, and is malformed otherwise |
| `Parser.DrainResumes` | src/protocol.rs:35-56 | parsing can be interrupted anywhere: the leftover with later bytes carries on as if uncut |
| `Parser.ChunkingIndependence` | src/protocol.rs:35-143 | within the buffer limit, the commands and the verdict depend only on the bytes and not on how they were cut |
| `Parser.ByteByByteOverflows` | src/protocol.rs:35-56 | a stream with an unfinished request beyond the limit breaks the connection when it arrives byte by byte |
| `Parser.SurvivesEveryChunking` | src/protocol.rs:12-56 | a well-formed stream survives every chunking if and only if none of its prefixes leaves more than the limit unparsed |
| `Parser.RequestsSurvive` | src/protocol.rs:12-56 | a stream of requests within the parser's limits survives every chunking if and only if no frame is longer than 2^30 + 1 bytes, the buffer limit and one byte |
| `Parser.ThreeLargeArguments` | src/protocol.rs:12-14 | three arguments of the largest accepted size are within the parser's limits, and some chunking of them breaks the connection |
| `Glob.MatchesPattern` | src/store.rs:1314-1347 | the one-star backtracking loop returns true if and only if the recursive meaning of the pattern matches, in at most (key+1)*pattern + key turns |
| `Glob.Turn` | src/store.rs:1314-1347 | one turn keeps every possible match alive, or gives up only when there is none |
| `Glob.Backtrack` | src/store.rs:1314-1347 | returning to the remembered star loses no match |
| `Glob.NextStarSubsumes` | src/store.rs:1314-1347 | once a later star is reached, forgetting the earlier one loses no match |
| `Glob.PlainMatches` | src/store.rs:1314-1347 | a pattern without star and question mark matches exactly itself |
| `Glob.QuestionMatches` | src/store.rs:1314-1347 | a question mark stands for exactly one byte |
| `Glob.StarMatches` | src/store.rs:1314-1347 | a star stands for any number of bytes |
| `Glob.PrefixAndSuffix` | src/store.rs:1314-1347 | `prefix*suffix` matches exactly the keys with that beginning and that end, without overlap |
| `S3Fifo.S3FifoQueues.constructor` | src/store.rs:138-150 | all six collections start empty |
| `S3Fifo.S3FifoQueues.DropFromSmall` | src/store.rs:153-161 | takes a key out of the Small queue and its set, and says whether it was there |
| `S3Fifo.S3FifoQueues.DropFromMain` | src/store.rs:163-171 | takes a key out of the Main queue and its set, and says whether it was there |
| `S3Fifo.S3FifoQueues.DropTagged` | src/store.rs:326-343 | removal from the queue that an entry's tag names |
| `S3Fifo.S3FifoQueues.PushSmall` | src/store.rs:191-207 | idempotent insertion that first drops exactly the oldest overflow from queue and set |
| `S3Fifo.S3FifoQueues.PushMain` | src/store.rs:209-224 | the same for Main |
| `S3Fifo.S3FifoQueues.Reinsert` | src/store.rs:174-188 | moves a key to the tail of Main, doing nothing when it is there already |
| `S3Fifo.S3FifoQueues.PushGhost` | src/store.rs:230-242 | remembers a hash, dropping the oldest one when full |
| `S3Fifo.S3FifoQueues.DropGhost` | src/store.rs:244-249 | forgets a hash in queue and set |
| `S3Fifo.S3FifoQueues.PlaceKey` | src/store.rs:345-369 | a remembered key goes to Main and is no longer a ghost, any other goes to Small |
| `S3Fifo.S3FifoQueues.TouchKey` | src/store.rs:431-464 | the second access promotes a Small key, an access to a Main key refreshes it |
| `S3Fifo.S3FifoQueues.TakeVictim` | src/store.rs:1224-1248 | the oldest Small key, remembered as a ghost, else the oldest Main key |
| `S3Fifo.RemoveTidy` | src/store.rs:153-171 | removal keeps the queues duplicate-free, equal to their sets and within capacity |
| `S3Fifo.AddToSmallTidy` | src/store.rs:191-207 | insertion into Small keeps them so |
| `S3Fifo.AddToMainTidy` | src/store.rs:209-224 | insertion into Main keeps them so |
| `S3Fifo.AddToGhostTidy` | src/store.rs:230-242 | remembering a hash that is not yet remembered keeps them so |
| `S3Fifo.RemoveFromGhostTidy` | src/store.rs:244-249 | forgetting a hash keeps them so |
| `Readmission.MoveStands` | src/store.rs:230-249 | an eviction puts one ghost behind, a write of a ghost takes it away, and a ghost is pushed out exactly when the younger ones fill the queue |
| `Readmission.GhostLasts` | src/store.rs:226-249 | over every run of evictions, writes, removals and accesses, a ghost is still remembered if and only if the ghosts added after it and still remembered never filled the queue |
| `Readmission.Readmitted` | src/store.rs:345-369 | a key evicted from Small goes to Main when next written if and only if at no point in between the keys evicted after it and not written again filled the ghost queue |
| `Promotion.SetIsWrite` | src/store.rs:311-383 | storing a string is one move of its own shard's queues and marks and leaves every other shard alone |
| `Promotion.AccessIsRead` | src/store.rs:427-464 | so is the bookkeeping of a read |
| `Promotion.DeleteIsRemove` | src/store.rs:511-551 | so is a deletion |
| `Promotion.ReleaseIsLapse` | src/store.rs:405-425 | so is the removal of a dead entry, which does not touch the queues |
| `Promotion.EvictionIsEvict` | src/store.rs:1213-1263 | so is an eviction that draws the shard |
| `Promotion.GetIsRead` | src/main.rs:175-185 | GET, HGET and HGETALL of a live key are reads of it |
| `Promotion.ReadsPromote` | src/store.rs:431-464 | over every run that does nothing else with a key and does not evict it: one read leaves it in Small, two make it a Main key that is not in Small |
| `Promotion.ReadIsYoungest` | src/store.rs:431-464 | a read of a Main key, and the read that brings a key to Main, makes it the youngest of Main |
| `Promotion.WrittenIsYoungest` | src/store.rs:345-369 | a written key is unread and the youngest of the queue that its ghost decides |
| `Promotion.RemovedLeaves` | src/store.rs:326-343 | a removed key leaves the queue that its mark names, and the other queue is unchanged |
| `Promotion.NewestStay` | src/store.rs:191-224 | a full queue gives up exactly its oldest key for a new one, a queue with room none |
| `Promotion.SoonerStays` | src/store.rs:1224-1248 | a key due for eviction before another stays so over every run that names neither, until it has gone |
| `Promotion.ReadOutlives` | src/store.rs:431-464 | a key promoted by its second read, or read again in Main, is not evicted while any other key that waited then and was not named since is still queued |
| `Promotion.SecondReadSaves` | src/store.rs:437-456 | of two keys written to one shard the older one is the victim, and after two GETs of it the other one is |
| `QueueInvariant.PlaceOk` | src/store.rs:345-369 | a key placed in Main because it was a ghost is in Main only |
| `QueueInvariant.TouchOk` | src/store.rs:431-464 | an access keeps tags, counts and queues consistent |
| `QueueInvariant.PopVictimOk` | src/store.rs:1213-1263 | an eviction never leaves a Small key whose hash is a ghost, given hashes that do not collide or a Small queue for one key |
| `QueueInvariant.DispatchSound` | src/main.rs:130-512 | every command with the evictions it triggers keeps the queues sound |
| `QueueInvariant.RunSound` | src/store.rs:1266-1305 | every run of commands, evictions and sampling passes keeps the queues sound |
| `QueueInvariant.S3FifoInvariant` | src/store.rs:124-250 | over every run from a fresh or reloaded server, when the hash tells the keys apart, or nothing is evicted, or Small holds one key: queues duplicate-free, equal to their sets, within capacity; no Small key's hash among the ghosts; no Main-tagged entry in Small; a Small-tagged entry accessed at most once |
| `QueueInvariant.StaleQueueEntry` | src/store.rs:664-668 | a flush leaves queued keys that are no longer stored |
| `Collisions.CollisionBreaks` | src/store.rs:1213-1263 | for any two colliding keys and any memory limit, a run of requests that the parser accepts breaks the invariant from a fresh server, if Small has room for two keys |
| `Collisions.InvariantExactly` | src/store.rs:124-250 | the S3-FIFO invariant holds over every run that writes these keys if and only if another policy is set, or there is no memory limit, or Small holds one key, or the hash tells the keys apart |
| `Sharded.FieldsSize` | src/store.rs:1071-1085 | the loop over a hash's fields adds up exactly their bytes, whatever the order |
| `Sharded.CalculateEntrySize` | src/store.rs:1066-1085 | the size charged for an entry |
| `Sharded.MergedPut` | src/store.rs:304-383 | an insertion into the shard that the hash selects is an insertion into the one logical map |
| `Sharded.MergedTake` | src/store.rs:511-551 | a removal from that shard is a removal from the one logical map |
| `Sharded.ShardedStore.constructor` | src/store.rs:271-301 | a fresh store with one distinct queue object per shard |
| `Sharded.ShardedStore.Lookup` | src/store.rs:401-405 | looking in the selected shard finds exactly what the logical map holds |
| `Sharded.ShardedStore.UntrackKey` | src/store.rs:326-343 | a stored key leaves the queue its tag names, and no other shard's queues change |
| `Sharded.ShardedStore.TrackKey` | src/store.rs:345-369 | queue placement of a key about to be stored, in its own shard only |
| `Sharded.ShardedStore.AccessKey` | src/store.rs:427-464 | the bookkeeping of a successful read, in the entry and in its shard's queues |
| `Sharded.ShardedStore.Refund` | src/store.rs:537-543 | a subtraction from the counter, reached only with enough in it |
| `Sharded.ShardedStore.Refundable` | src/store.rs:537-543 | in every valid store the size of any stored entry can be subtracted without underflow |
| `Sharded.ShardedStore.ReleaseKey` | src/store.rs:412-423 | an entry leaves its shard and its size leaves the counter, which stays above the stored total |
| `Sharded.ShardedStore.ReapKey` | src/store.rs:405-425 | removes an entry if and only if it is expired, and refunds its size under a limit |
| `Sharded.ShardedStore.DeleteKey` | src/store.rs:511-551 | one stored key leaves store and queues and is refunded |
| `Sharded.ShardedStore.SetExpiryOf` | src/main.rs:1095-1096 | a stored entry gets another expiry and nothing else changes |
| `Sharded.ShardedStore.DeleteKeys` | src/store.rs:511-551 | all named keys go; only the unexpired ones are counted; no subtraction on the way underflows |
| `Sharded.ShardedStore.ExpireSampled` | src/store.rs:1266-1305 | a sampling pass removes exactly the expired ones among the sampled keys and reports how many entries went |
| `Sharded.ShardedStore.CountExisting` | src/store.rs:554-565 | counts the unexpired among the named keys, repeats included |
| `Sharded.ShardedStore.Len` | src/store.rs:655-657 | the shard lengths add up to the number of stored entries |
| `Sharded.ShardedStore.LiveKeys` | src/store.rs:567-578 | the unexpired keys, each exactly once |
| `Sharded.ShardedStore.LiveBytes` | src/main.rs:361-373 | the nested loop adds up exactly the sizes of the unexpired entries |
| `Sharded.ShardedStore.FlushStore` | src/main.rs:358-410 | empties all shards and lowers the counter by the unexpired total, to zero at least |
| `Sharded.ShardedStore.SetKey` | src/store.rs:311-383 | replaces whatever was stored, and reports its size |
| `Sharded.ShardedStore.SetAndAccount` | src/main.rs:667-674 | the write and its two counter updates move the counter by the difference of the sizes |
| `Sharded.ShardedStore.GetKey` | src/store.rs:401-474 | a live string is returned and its access recorded; an expired entry is removed; a hash reads as absent |
| `Sharded.ShardedStore.InsertFields` | src/store.rs:773-782 | inserts pairs in order and counts those that were new |
| `Sharded.ShardedStore.RemoveFields` | src/store.rs:983-993 | removes fields in order and counts those that were there |
| `Sharded.ShardedStore.ResizeHash` | src/store.rs:784-802 | a hash with changed fields moves the counter by the difference, by one addition or one subtraction that cannot underflow |
| `Sharded.ShardedStore.HSetKey` | src/store.rs:674-805 | an expired entry is deleted first, a string is refused, otherwise fields are merged and the counter moves by the difference |
| `Sharded.ShardedStore.ReadHashKey` | src/store.rs:808-950 | the access path that HGET and HGETALL share |
| `Sharded.ShardedStore.HDelKey` | src/store.rs:954-1047 | removes fields, drops an emptied hash, and refunds what the code refunds |
| `Sharded.ShardedStore.ExpelKey` | src/store.rs:1171-1180 | a victim leaves the store and its size leaves the counter |
| `Sharded.ShardedStore.EvictS3Fifo` | src/store.rs:1213-1263 | pops queues of the drawn shards until a popped key is stored there, and evicts it |
| `Sharded.ShardedStore.Evict` | src/store.rs:1121-1128 | one eviction under the configured policy |
| `Sharded.ShardedStore.EnsureRoom` | src/store.rs:1099-1140 | the eviction loop, its stopping conditions and the final verdict; none of up to 100 subtractions underflows |
| `Sharded.ShardedStore.AdmitWrite` | src/main.rs:859-864 | room is asked for only when the write grows the store |
| `Handlers.ParseSetOptions` | src/main.rs:565-626 | the option loop accepts exactly what the recursive reading of the options accepts |
| `Handlers.StoreString` | src/main.rs:628-684 | NX, XX and GET against the string a live key holds |
| `Handlers.HandleSet` | src/main.rs:550-684 | new state and reply of SET, eviction before option errors included |
| `Handlers.WriteCounter` | src/main.rs:856-876 | the write half of INCR with its net-size admission |
| `Handlers.HandleIncr` | src/main.rs:765-876 | new state and reply of the INCR family, type check before expiry check included |
| `Handlers.NetGrowth` | src/main.rs:939-951 | the net size MSET asks for, with expired entries counted as absent |
| `Handlers.HandleMSet` | src/main.rs:933-973 | new state and reply of MSET |
| `Handlers.HandleMGet` | src/main.rs:918-930 | new state and replies of MGET, one per key in order |
| `Handlers.HandleTtl` | src/main.rs:687-762 | new state and reply of TTL and PTTL with their casts |
| `Handlers.HandleType` | src/store.rs:478-508 | new state and reply of TYPE |
| `Handlers.HandleExpire` | src/main.rs:1055-1100 | new state and reply of EXPIRE, deletion for a time that is not positive included |
| `Handlers.HandlePersist` | src/main.rs:1162-1197 | new state and reply of PERSIST |
| `Handlers.FieldPairs` | src/main.rs:1207-1212 | the argument loop of HSET pairs up the arguments in order |
| `Handlers.HandleHSet` | src/main.rs:1200-1218 | new state and reply of HSET |
| `Handlers.HandleHGet` | src/main.rs:1221-1235 | new state and reply of HGET |
| `Handlers.HandleHGetAll` | src/main.rs:1238-1252 | new state and fields returned by HGETALL |
| `Handlers.HandleHDel` | src/main.rs:1255-1268 | new state and reply of HDEL |
| `Handlers.RunOnKeys` | src/main.rs:175-199 | the commands whose only requirement is at least one key |
| `Handlers.RunIncr` | src/main.rs:879-915 | INCR, DECR, INCRBY and DECRBY with their argument errors |
| `Handlers.RunOp` | src/main.rs:160-512 | the dispatcher on a decoded command name |
| `Handlers.ExecuteCommand` | src/main.rs:130-512 | state and reply of every command, and the log grows by exactly its frame if and only if it is a logged command |
| `Names.NamedIsSpelled` | src/protocol.rs:320-334 | the test with bit 5 set accepts exactly the word with each letter in either case |
| `Names.UnknownName` | src/main.rs:160-512 | a name that spells none of the words of the dispatcher is unknown |
| `Names.LoggedExactly` | src/main.rs:164-419 | a command is logged if and only if its name spells one of eleven words, and for DEL if it has a key |
| `Clients.GetLaw` | src/main.rs:175-185 | GET in any letter case replies the live string of the key and changes no live key |
| `Clients.MGetLaw` | src/main.rs:918-930 | MGET replies that for each of its keys in order |
| `Clients.ExistsLaw` | src/store.rs:554-565 | EXISTS replies the number of its arguments that name a live key |
| `Clients.KeysLaw` | src/store.rs:567-578 | KEYS replies exactly the live keys |
| `Clients.TypeLaw` | src/store.rs:478-508 | TYPE replies whether the live key is a string, a hash or nothing |
| `Clients.HGetLaw` | src/main.rs:1221-1235 | HGET replies the field of a live hash, null, or a type error for a string |
| `Clients.HGetAllLaw` | src/main.rs:1238-1252 | HGETALL replies all fields, none for no key, or a type error |
| `Clients.SizeLaw` | src/store.rs:655-657 | DBSIZE and INFO give the number of stored entries and change nothing |
| `Clients.TtlLaw` | src/main.rs:687-722 | TTL replies -2, -1 or the seconds left, and for more than i64::MAX of them that number less 2^64 |
| `Clients.PttlLaw` | src/main.rs:724-762 | PTTL replies -2, -1 or the milliseconds left, i64::MAX at most |
| `Clients.ExpireLaw` | src/main.rs:1055-1100 | EXPIRE sets the time of death of a live key to now plus the seconds, or deletes it for a number that is not positive |
| `Clients.ExpireNoNumber` | src/main.rs:1055-1100 | EXPIRE without a number is refused and changes nothing |
| `Clients.PersistLaw` | src/main.rs:1162-1197 | PERSIST takes the time of death away and replies 1 exactly if there was one |
| `Clients.DelLaw` | src/main.rs:186-196 | DEL removes exactly the named keys and replies how many different live ones there were |
| `Clients.FlushLaw` | src/main.rs:358-410 | FLUSHDB and FLUSHALL leave no entry and do not touch the queues |
| `Clients.HSetLaw` | src/main.rs:1200-1218 | after HSET each field has the last value given for it or the one it had, the lifetime stays, and the reply is by how many fields the hash grew |
| `Clients.HDelLaw` | src/main.rs:1255-1268 | HDEL removes exactly the named fields, the key with its last field, and replies how many there were |
| `Clients.MSetLaw` | src/main.rs:933-973 | after a granted MSET each named key has the last value given for it, for good, and no other key has changed |
| `Clients.QuietLaw` | src/main.rs:160-512 | SCAN and the administrative commands change nothing |
| `Clients.UnknownLaw` | src/main.rs:146-512 | an empty or unknown command is an error and changes nothing |
| `Clients.KeyMissing` | src/main.rs:160-512 | a command that needs a key is refused without one |
| `Clients.ArgumentsMissing` | src/main.rs:550-1268 | so are SET, EXPIRE, HGET, HDEL, MSET and HSET with too few arguments or half a pair |
| `Setting.ReadAll` | src/main.rs:565-626 | options in any order and letter case: NX, XX and GET count by presence, the lifetime is that of the last timed one, NX with XX is refused |
| `Setting.ReadZero` | src/main.rs:575-600 | a lifetime of zero anywhere is refused |
| `Setting.ReadBack` | src/main.rs:565-626 | whatever the option loop accepts is a list of such options |
| `Setting.SetLaw` | src/main.rs:550-684 | after room for the string is granted, NX stores it if and only if no live string is there, XX if and only if one is; GET replies the string before; EX n dies at now + n, PX n after the fewest whole seconds that cover n milliseconds |
| `Setting.SetRefusesOthers` | src/main.rs:606-621 | arguments that are not such options are refused and nothing is stored |
| `Setting.EitherOrder` | src/main.rs:565-626 | neighbouring options may change places unless both give a lifetime |
| `Setting.Lock` | src/main.rs:646-665 | a lock taken with NX and EX n is refused to others, and shown by GET, exactly until n seconds have passed |
| `Counters.CounterLaw` | src/main.rs:765-915 | on a live number a, INCR, DECR, INCRBY n and DECRBY n reply and store a + 1, a - 1, a + n and a - n with the lifetime kept, an overflow being refused and the growth in bytes asked for |
| `Counters.CounterFromNothing` | src/main.rs:790-876 | a missing key, or a dead string, counts as 0 and lives for good |
| `Counters.NoCounter` | src/main.rs:780-830 | a hash is of the wrong type, and a live string that is no number is refused |
| `Counters.NoAmount` | src/main.rs:879-915 | without a key, or without an amount that is a number, nothing changes |
| `Counters.ThereAndBack` | src/main.rs:765-915 | adding n and taking it away again restores all keys if and only if the sum is an i64 other than the smallest |
| `Lapsing.DeadOnContact` | src/store.rs:405-425 | a command that looks at a dead entry drops it and gives back its size, and the queues are not told |
| `Lapsing.SampleExactly` | src/store.rs:1266-1305 | a sampling pass drops exactly the dead ones among the entries it looks at, and the counter falls by their sizes |
| `Reference.Transparent` | src/main.rs:130-512 | for every command but SCAN, the reply and the effect on the unexpired keys are those of a map without stale entries, if and only if it is neither an INCR on an expired hash nor a DBSIZE or INFO key count over stale entries |
| `Reference.ExpiryTransparency` | src/store.rs:401-578 | over every run with non-decreasing times and without SCAN or the exceptions of `Transparent`, whatever lingers and whenever it is removed, clients see the replies of the plain map, which is told the admission decisions of the physical store; without a memory limit each of these is a plain grant |
| `Reference.UnlimitedAdmissions` | src/store.rs:1098-1103 | without a memory limit no run is ever refused or evicted anything |
| `Reference.OpaqueIncr` | src/main.rs:780-800 | on an expired hash INCR reports a type error, which the plain map never does |
| `Witnesses.IncrSeesExpiredHash` | src/main.rs:780-800 | HSET, EXPIRE and a late INCR on a fresh server reach that type error |
| `Witnesses.DeadKeyCounted` | src/store.rs:655-657 | a key set for one second is still counted by DBSIZE and INFO a second later, where the plain map counts none |
| `Reference.NothingStale` | src/store.rs:655-657 | DBSIZE differs from the number of live keys if and only if some stored entry is expired |
| `Reference.LiveAdmit` | src/store.rs:1099-1140 | evictions only remove whole entries, as far as clients can see |
| `Accounting.EvictOneKeeps` | src/store.rs:1143-1263 | what an eviction reports freed is what left the counter, and it removes at most one entry |
| `Accounting.Admission` | src/store.rs:1099-1140 | a request is granted if and only if it then fits; the counter drops by exactly the total size removed; at most 100 entries go; freeing enough is enough |
| `Accounting.NetSizeIsGrowth` | src/main.rs:939-951 | what MSET asks room for is by how much the stored total grows, if it names each key once and meets no dead entry |
| `Evicting.EvictionIsDraw` | src/store.rs:1143-1263 | one eviction removes exactly the key its draw finds, reports its size and takes it off the counter; under LRU and random that is the key named, under S3-FIFO the first key given up by the visited shards that is stored there |
| `Evicting.LoopTakes` | src/store.rs:1113-1136 | the loop removes the first victims of the draws: no more than needed, and as many as needed unless they run out or a hundred have gone |
| `Evicting.RoomExactly` | src/store.rs:1099-1140 | which entries go for a request, and the verdict |
| `Evicting.GrantedExactly` | src/store.rs:1099-1140 | a store within its limit grants a request if and only if it fits, or eviction is on and the victims of the draws, a hundred at most, are as large as the shortfall |
| `Evicting.NamedKeysSuffice` | src/store.rs:1143-1211 | under LRU and random, up to a hundred draws of different stored keys that add up to the request get it granted |
| `Evicting.OldestKeysSuffice` | src/store.rs:1213-1263 | under S3-FIFO, so do draws of a shard whose oldest queued keys are stored there |
| `Evicting.RefusedOnlyIf` | src/store.rs:1099-1140 | a refusal means no eviction policy, a counter above the limit, a hundred entries gone, or no draw left that finds one |
| `Evicting.SetRefusedExactly` | src/main.rs:558-563 | a SET is refused for memory exactly then |
| `Accounting.HDelLeaks` | src/store.rs:1003-1015 | HDEL raises the excess by exactly the field bytes of a hash it empties, and otherwise keeps it |
| `Accounting.FlushLeaks` | src/main.rs:358-410 | FLUSH raises the excess by exactly the size of the stale entries it clears |
| `Witnesses.HDelLeaksRun` | src/store.rs:1003-1015 | HSET and HDEL of one field on a fresh server leave nothing stored and the bytes of the field in the counter |
| `Witnesses.FlushLeaksRun` | src/main.rs:358-410 | a key set for one second and flushed when it is dead leaves nothing stored and its size in the counter |
| `Accounting.CommandAccounting` | src/main.rs:130-512 | every command changes counter minus total by exactly its leak, which is zero for all but those two |
| `Accounting.RunAccounting` | src/main.rs:130-512 | over a run the excess grows by exactly the sum of those leaks |
| `Accounting.SequentialAccounting` | src/store.rs:1071-1085 | after every command of a run from a fresh server the counter is the stored total plus the leaks, and so covers every stored entry |
| `Accounting.SetBounded` | src/main.rs:558-674 | every SET that is not refused for memory ends with the stored total within the limit |
| `Accounting.DisciplinedBounded` | src/main.rs:130-512 | no command other than MSET, HSET and the INCR family pushes the counter above the limit |
| `Accounting.MemoryBound` | src/store.rs:1099-1140 | over every run of such commands the stored total stays within the limit |
| `ConcurrentCounter.DebtsAreExact` | src/store.rs:371-382 | an atomic map change moves the stored total by exactly the counter updates it leaves to be made |
| `ConcurrentCounter.StepBalanced` | src/main.rs:667-674 | every atomic step of every thread keeps counter plus pending equal to the total modulo 2^64 |
| `ConcurrentCounter.EveryInterleaving` | src/store.rs:414-423 | under every interleaving of SET, GET, DEL, INCR, MSET, evictions and sampling by any number of threads the counter plus all pending updates is the stored total modulo 2^64; it is the total minus what is pending if and only if that fits a word; it is exact if and only if what is pending adds up to nothing |
| `ConcurrentCounter.TransientWrap` | src/store.rs:537-543 | a deletion that settles before the insertion it undoes leaves a huge counter over an empty store |
| `ConcurrentCounter.ActionsAreOperations` | src/store.rs:1174-1178 | the atomic actions, each settled at once, are the operations of the sequential store |
| `Snapshot.EmitHSet` | src/aof.rs:356-366 | the frame of one HSET with all fields, and its length |
| `Snapshot.EmitRecord` | src/aof.rs:300-342 | the frames one entry contributes to a rewrite, and their length |
| `Snapshot.WriteStoreSnapshot` | src/aof.rs:282-349 | the file is the frames of the live entries in walk order; the key and byte counts it returns are exact |
| `Snapshot.SnapshotMeaning` | src/aof.rs:282-391 | in the reference semantics, replaying the commands of a rewrite yields exactly the live keys with their values and remaining lifetimes, in any walk order |
| `Replaying.RewriteMeaning` | src/aof.rs:282-391 | a rewrite read back from its bytes and replayed through the dispatcher rebuilds exactly the live keys with values and remaining lifetimes; every live key comes back if and only if none is a hash without fields |
| `Replaying.LifetimesSurvive` | src/aof.rs:330-339 | rewriting and restarting keeps all lifetimes if and only if each is at most i64::MAX |
| `Replaying.LongLifetimeLost` | src/main.rs:581-588 | SET with EX 9223372036854775808 is accepted, and after a rewrite and a restart the key lives forever |
| `Replaying.ShapeStep` | src/main.rs:1471-1510 | no command's effect on keys, values and the set of mortal keys depends on when keys die |
| `Replaying.UnloggedIsQuiet` | src/main.rs:164-419 | a command that is not logged, other than FLUSH, changes no key |
| `Replaying.NoEmptyHashStep` | src/store.rs:1003-1015 | no command ever leaves a hash without fields |
| `Replaying.CleanStep` | src/main.rs:130-512 | without a memory limit and with nothing expired a command is the reference command |
| `Replaying.DoFaithful` | src/main.rs:164-419 | running a command and logging it keeps the log standing for the store, failed commands included |
| `Replaying.RewriteFaithful` | src/aof.rs:197-253 | replacing the log by a rewrite keeps it standing for the store |
| `Replaying.StartFaithful` | src/main.rs:1471-1510 | the log a server started from stands for its store at whatever time it is replayed again |
| `Replaying.ReplayEquality` | src/main.rs:1471-1510 | for every run of commands and rewrites of a server that started from any log, the empty one included, the log file reads back whole and rebuilds the same keys, values and set of keys with a lifetime, at whatever time it is replayed |
| `Durability.StepKeeps` | src/aof.rs:109-253 | every primitive action of append, sync and rewrite, and every move of the buffering layers beneath, keeps the file invariant |
| `Durability.CrashSafety` | src/aof.rs:109-253 | a crash anywhere leaves a byte prefix of the log holding at least the synced rewrite and, when promised and synced since opening, everything acknowledged; or a log whose replacement had not reached the disk, exactly that log unless it was dirty at its replacement, which under Always it never is; between operations the size counter is the log length |
| `Durability.NothingPromisedIsLost` | src/aof.rs:109-253 | no crash loses anything acknowledged if and only if it is on disk in the log and in every log a pending rename may bring back, and those are prefixes of the log; under Always between operations, if and only if each of those logs is the log itself |
| `Durability.RenameNotSynced` | src/aof.rs:233-245 | under Always, after an append, a rewrite and an append, a crash can bring back the first log, and nothing is lost if and only if the two logs are the same |
| `Durability.OpenedNotSynced` | src/aof.rs:89-101 | a file taken over by open with bytes not yet on disk can lose them although durability is promised; nothing is lost if and only if all of it was on disk, or after a sync |
| `Durability.WholeRuns` | src/aof.rs:109-253 | an operation that is not interrupted performs its actions in order |
| `AppendOnly.AppendOnlyFile.constructor` | src/aof.rs:89-101 | an existing file is taken over with its length and a clear dirty flag, whatever part of it is on disk |
| `AppendOnly.AppendOnlyFile.Flush` | src/aof.rs:109-127 | the buffer moves to the kernel |
| `AppendOnly.AppendOnlyFile.SyncData` | src/aof.rs:131-140 | the kernel's bytes reach the disk |
| `AppendOnly.AppendOnlyFile.AppendCommand` | src/aof.rs:109-127 | buffers the frame, carries it to disk under Always, raises the dirty flag otherwise, and counts its bytes |
| `AppendOnly.AppendOnlyFile.SyncAll` | src/aof.rs:131-140 | flush, sync and a clear dirty flag |
| `AppendOnly.AppendOnlyFile.ReplaceLog` | src/aof.rs:209-245 | synced temporary file, flush, rename and reset of both counters, in that order |
| `AppendOnly.AppendOnlyFile.RewriteLog` | src/aof.rs:182-253 | one rewrite at a time; the log becomes the snapshot, and size, statistics and flags are set from it |
| `Recovery.RunHistory` | src/aof.rs:109-253 | at every moment the log and each file that a crash could bring back are the logs after some number of operations |
| `Recovery.BytesOfRun` | src/main.rs:61-70 | the bytes of the log file are the frames of the commands the run has logged |
| `Recovery.CutLogIsPast` | src/aof.rs:414-463 | a log file cut anywhere reads back as a log that the run had earlier, or as a part of the log it started from |
| `Recovery.AckedIsReturned` | src/aof.rs:109-127 | at every moment the acknowledged length is that of the log after the operations that have returned |
| `Recovery.CrashRecovery` | src/main.rs:1471-1528 | a server starts from any log, of which any part is on disk; whatever a crash leaves, a start that accepts it comes up with the store after some number of steps, or with a part of the first log that covers what was on disk; it undoes at most as many rewrites as there are pending renames; once the first log is synced, with durability promised and no dirty log replaced, all of that log is kept and no step that returned is missing, unless it ends exactly before a rewrite whose rename was pending; under Always from a synced log this is always so |
| `BothFiles.LocalStep` | src/main.rs:130-512 | what a command leaves under a key depends on that key alone, and on nothing if it overwrites or deletes it |
| `BothFiles.ForgetsExactly` | src/main.rs:1455-1502 | a log leaves the same under a key whatever was loaded before if it overwrites or deletes the key somewhere, and only if so when it has no conditional SET of it |
| `BothFiles.StartWithBoth` | src/main.rs:1439-1510 | the snapshot is loaded into the fresh store and the whole log replayed over it, and the log's verdict reported |
| `BothFiles.RestartFromBoth` | src/main.rs:1439-1510 | a start with both files leaves the same as the log alone under every key that was not loaded or that the log overwrites or deletes; the two stores are equal if that covers all loaded keys |
| `BothFiles.RunSurvivesBoth` | src/main.rs:1439-1510 | then a start with both files rebuilds the keys, values and set of mortal keys of the server that wrote the log |
| `BothFiles.AppliedTwice` | src/main.rs:1455-1502 | a counter raised to 1, saved and started from both files stands at 2 |
| `Rdb.LengthPrefix` | src/persistence.rs:119-125 | the 32-bit length of an entry is read back truthfully if and only if it is below 2^32 |
| `Rdb.Header` | src/persistence.rs:58-83 | the file starts with RDST, version 1, the time and the number of frames |
| `Rdb.LeastFirst` | src/persistence.rs:58-83 | numbers have their least significant byte first |
| `Rdb.StreamEntries` | src/persistence.rs:85-129 | the save loop writes exactly the frames of the unexpired entries and counts them |
| `Rdb.SaveImage` | src/persistence.rs:51-142 | after the count is patched the file is the image of the store, and the returned count is the number of frames |
| `Rdb.ImageLoads` | src/persistence.rs:159-283 | loading an image inserts exactly its records, in order, and counts the unexpired ones |
| `Rdb.RoundTrip` | src/persistence.rs:159-283 | an image with entries of today's or the older encoding, saved at t and loaded at a later time restores exactly the entries then live with their absolute expiries, reports their number, and the counter starts at their total size |
| `SaveFlag.StepExclusive` | src/persistence.rs:54-56 | every step of every saver keeps the flag up exactly when one saver counts on it |
| `SaveFlag.StepUndisturbed` | src/persistence.rs:58-142 | no step disturbs the temporary file of the saver that writes it |
| `SaveFlag.MutualExclusion` | src/persistence.rs:51-155 | under every interleaving of SAVE, BGSAVE, periodic and shutdown saves, failures included, at most one holds the flag, the flag is up exactly then, and the published file is always the complete image of the last save that was renamed, or the file found at the start |
| `SaveFlag.RefusedExactlyWhenHeld` | src/persistence.rs:54-56 | a save is refused if and only if another saver holds the flag |
| `SaveFlag.AcknowledgedButRefused` | src/main.rs:295-322 | a BGSAVE can be acknowledged and yet save nothing |
| `Scan.Takes` | src/store.rs:625-640 | what qualifies an entry: unexpired, and matching the pattern if there is one |
| `Scan.ScanPage` | src/store.rs:584-653 | the nested loops return the page and the cursor that the flattened reading of the store defines |
| `Scan.PageLimits` | src/store.rs:584-625 | a page returns at most the count asked for, taken as at least 10 and at most 1000, and stops before the end only when it has that many or has looked at three times as many entries |
| `Scan.CursorMovesOn` | src/store.rs:612-625 | a cursor is the shard times 10^9 plus the position after the one stopped at, or the start of the next shard |
| `Scan.CursorIncreases` | src/store.rs:612-625 | a cursor that is not zero is larger than the last one, and names the entry after the one the page stopped at |
| `Scan.IterateCollects` | src/store.rs:584-653 | following cursors to zero collects the pages of the flattened store in order |
| `Scan.FullIteration` | src/store.rs:584-653 | no key is returned twice; the keys are exactly the live matching ones that no page stopped at; the iteration is complete if and only if no page stops at such a key |
| `Scan.CompleteWhenOnePage` | src/store.rs:612-625 | when all entries match, an iteration is complete if and only if one page holds them all |
| `Scan.StaleHidesKey` | src/store.rs:612-634 | three times the count of expired entries before it hide the one live key from a full iteration, which finds it without them |
| `StoreScan.SlotsOf` | src/store.rs:605-611 | the walk over a shard yields every key once with its expiry |
| `StoreScan.ScanStore` | src/store.rs:584-653 | a page over the live store is the page of a listing of its shards |
| `StoreScan.StoreIteration` | src/store.rs:584-653 | a full iteration over a store that does not change returns, each once, exactly its live matching keys less those at which a page stops; nothing is missing if and only if these are apart |
| `Startup.ListHash` | src/aof.rs:315-321 | the walk over a hash lists every field once |
| `Startup.ListShard` | src/persistence.rs:87-114 | the walk over a shard lists every entry once |
| `Startup.ListStore` | src/persistence.rs:85-129 | the walk over all shards lists every entry once |
| `Startup.SaveStore` | src/persistence.rs:51-142 | a save of the live store is the image of a listing of it |
| `Startup.RewriteFromStore` | src/aof.rs:182-253 | nothing while another rewrite runs; otherwise the log becomes the snapshot of a listing of the live store and the size counter its length |
| `Startup.LoadRecord` | src/persistence.rs:245-276 | one loaded entry: skipped when expired, else inserted and charged |
| `Startup.LoadBody` | src/persistence.rs:203-276 | the frame loop with its early end, its failures and the number of entries loaded |
| `Startup.LoadSnapshot` | src/persistence.rs:159-283 | header checks, load into the live store and the number of entries loaded |
| `Startup.ReplayNext` | src/main.rs:1479-1502 | one turn runs the next command of the log, or ends cleanly or on a corrupt frame |
| `Startup.ReplayLog` | src/main.rs:1471-1510 | the startup loop runs exactly the commands of the log through the dispatcher, and reports their number and whether the log ended cleanly |

## Left out

- Sockets, TLS, tasks, signals, the health endpoint and configuration: plumbing around the modelled core.
- SCAN argument parsing and the threshold that triggers a rewrite: an option loop like that of SET, and one comparison.
- Parser.RespParser.ReadCommands: does not model the end of the stream or a read error; the chunks are what reads returned.
- Sharded.ShardedStore.Evict: does not model the last-access time that LRU sampling compares; any stored key may be the victim that a draw names.
- Handlers.RunOp: does not model the replies of SCAN, whose pages `Scan` treats, and of PING, SAVE, BGSAVE, LASTSAVE, CONFIG, COMMAND and BGREWRITEAOF, which say nothing of the keys; of INFO only the key count is modelled.
- Handlers.ExecuteCommand: does not model authentication; the connection is an authenticated one. Replies are values; only the array, bulk and number encoders are modelled byte by byte.
- Sharded.ShardedStore.FlushStore: takes the time of its command, while the code reads the clock once more.
- Reference.ExpiryTransparency: does not predict admission decisions, because evictions depend on what is physically stored; without a memory limit all are plain grants.
- Accounting.NetSizeIsGrowth: one way only, because a key named twice and a dead entry replaced both make MSET ask for something else than its growth, and the two can cancel out.
- Clients.TtlLaw: says nothing of a lifetime beyond u64::MAX seconds, which the code cannot store.
- Promotion.ReadOutlives: speaks of one shard; which shard an eviction draws is random.
- The capacities computed from the memory limit: any positive capacities are covered.
- `now + ttl` beyond a u64: times are unbounded numbers.
- I/O errors in the log: append, sync and rewrite are modelled as succeeding. A save of the snapshot file may fail at any step.
- Durability of the snapshot file: it is not synced before its rename, and only its atomic publication is modelled.
- Writes that overlap a log rewrite, and FLUSH, eviction and expiry under replay: none of these is logged by the code, so replay equality excludes them.
- BothFiles.StartWithBoth: takes one time for both loads, while the code reads the clock for each.
- BothFiles.RestartFromBoth: one way only for a given snapshot, because commands that leave a key alone or repeat themselves harmlessly can also come out right; the exact condition over all snapshots is that of `ForgetsExactly`.
- BothFiles.ForgetsExactly: one way only for a log with conditional SETs of the key, two of which can together make up a reset.
- Atomicity of INCR, SET NX and XX, and HSET accounting under concurrency: they read and write in separate steps, so only their sequential behaviour is modelled.
- A memory bound for MSET, HSET and the INCR family: the code sizes them before eviction or not at all.
- ConcurrentCounter.EveryInterleaving: covers string commands and any removal; HSET and HDEL change a hash in place and are sequential only.
- Rdb.RoundTrip: assumes that each encoded entry is shorter than 2^32 bytes, the exact range in which `LengthPrefix` is truthful.
- Scan.FullIteration: assumes at most 10^9 entries in a shard, the base of the cursor encoding, and a stable iteration order.
- QueueInvariant.S3FifoInvariant: does not claim that every stored key is queued or that Small and Main are disjoint, because overflow, lazy expiry and flush break both.
