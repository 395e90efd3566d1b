# TransactFlow: a verified model of the CDC pipeline

TransactFlow copies the orders table of a PostgreSQL database into a Redis cache
and an Elasticsearch index and sends notifications, by change data capture over
Kafka with at-least-once delivery. This project models its consumers and its
read path in Dafny and proves what they promise: replays, duplicates, lost
replies, crashes and expiries leave the stores agreeing with the log, offsets
never pass a message that was not dealt with, deletes do not resurrect, emails
go out at most once per window, and a read never answers with a row that never was.

## How the model is built

* **The loop.** `Protocol` is `KafkaConsumerBase` as a state machine, one step per
  operation between which another thread, the broker, a sink or a crash can
  fall. Inputs carry everything the environment decides, so a finite run is
  `Exec` of an input sequence and theorems quantify over all of them. The
  overridden `ProcessRecord` is a function in a `Sink` value, so `Offsets`,
  `Retries` and `Progress` hold for every sink. `pos` is the offset in hand or next;
  a restart sets it to the stored offset (`Commits`). Whether a framed record can be decoded is
  decided at each encounter. `ConsumerLoop` writes `Run` with its
  two loops over fields and proves it is a run of the machine.
* **The sinks.** `SinkSpecs` gives one `ProcessRecord` call as a function of the
  record's meaning and of the outside world's answer. `Sinks` holds the three
  classes, each with its own copy of the classification, proved equal to those
  functions and to the one shared reading of a record in `Records`. What that reading
  is, field by field, is in `Classification`; when a call fails, exactly, and what runs
  come to in which none does, in `Attempts`; and `Deliveries` takes one message from its
  bytes to each sink.
* **The Redis keyspace.** `RedisStore` is one flat string-keyed map with expiry
  times; both Lua scripts and SET NX act on it. Lapsed entries stay in the map
  but are invisible to commands. `LuaNumber` is what `tonumber` does to an LSN. A stored
  document stands for its text, which parses back to it (`JsonText`).
* **The stores over whole runs.** `History` reads the log as the history of each
  order. One invariant carries both stores, with no assumption on LSNs or dead
  letters: what is stored for an order is its version at some point of the log,
  as new as every event of it that the consumer is past and last succeeded with.
* **The read path.** `Database`, `OrderApi` and `EndToEnd` join the table, its WAL,
  publication, the cache consumer and GET; `Debezium` is the envelope in between.
  `Freshness` says when an answer is no older than what has been consumed, and
  `SharedRedis` runs updater and notifier on one keyspace.

Where the repository's documents and its code disagree the code is followed: both
Redis guards live 86400 s and notification keys are `email_sent:{id}:{status}`
(docs/ADR.md and docs/SCHEMA.md have 7 days and another name). Some promises are
not what the code does; the model keeps the code and proves exactly when they hold:

* *Unparseable payloads go to the dead-letter queue and do not block the partition;
  without the schema registry consumers crash cleanly* (README.md, docs/ARCHITECTURE.md).
  A payload is deserialized at every encounter, and a framed one is rejected whenever
  its schema cannot be had. A rejected payload is dead-lettered, untried, if and only if
  there is a producer, its raw bytes are UTF-8 and the producer takes it: so an outage
  of the registry sends readable records there and commits them. It ends the thread,
  uncommitted, if and only if there is a producer and its bytes are not UTF-8, for the
  envelope is dumped strictly and nothing catches the exception; no consumer with a
  producer gets past it until an encounter decodes it, and a payload rejected at every
  encounter (`[0xFF]`) blocks for good. A framed payload whose JSON text does not parse
  becomes a null document and is skipped as a success (`DeadLetters.Encounter`,
  `DeadLetters.RawHandoffs`, `DeadLetters.PoisonNeverSaved`, `Progress.BlockedForGood`,
  `Progress.MessageFinishes`, `Progress.PartitionDrains`).
* *No data is lost.* RouteToDLQ's result is ignored. A message that no attempt has
  taken is saved for good if and only if there is a producer and it accepts the dead
  letter (`DeadLetters.SavedExactly`, `DeadLetters.ReliableLosesNothing`). Saved
  means taken by a sink call that did not throw or by the producer; a null document
  counts as the former, so its content is lost without any failed hand-off.
* *The LSN guard only drops stale events.* Past 2^53 it can drop a newer one; it
  follows the log if and only if each event repeats the last one of its order or
  has an LSN that is greater as a double (`RedisRetries.GuardFollowsLog`,
  `RedisRetries.UpdateDropped`), and a run without lapse or dead letter ends in the
  fold of the log if and only if the first of the greatest LSNs is the last event
  (`GuardRuns.ConvergesExactly`).
* *Each notification goes out.* It is missed if and only if every call that won its
  key lost the reply, or no call ever reached Redis (`NotifierRuns.MissedExactly`);
  it goes out twice only if it is called for again a key's life after it was claimed
  (`NotifierRuns.ExactlyOnce`).

Two orders can disturb each other in Redis exactly when one id is the other followed
by `:lsn` (`RedisStore.KeysDisjoint`). Debezium follows every delete by a message
without a payload, which every consumer routes to the dead-letter queue.

## Model

| member | source | states |
|---|---|---|
| Offsets.StepKeepsSound | consumers/src/kafka_consumer_base.cpp:122-208 | every operation of the loop keeps the stored offset at or below the position, below which every message is finished with its evidence; log, history and stored offset only grow |
| Offsets.RunKeepsSound | consumers/src/kafka_consumer_base.cpp:122-219 | the same over every run with stops, failed commits, crashes and restarts |
| Offsets.Conservation | consumers/src/kafka_consumer_base.cpp:152-197 | each message below the stored offset was finished by an attempt that did not throw, by a dead letter handed over, or by a hand-off that failed; undecodable payloads never by the first |
| Offsets.InterruptedIsKept | consumers/src/kafka_consumer_base.cpp:167-197 | a message that Stop interrupts before success is neither routed nor committed and is redelivered after a restart |
| Commits.OffsetsExactly | consumers/src/kafka_consumer_base.cpp:152-197 | over every run, exactly: the stored offset is one past the message last finished by a step whose commit the broker stored, the position one past the message last finished since the last restart, or the offset stored then |
| Commits.CrashRestarts | consumers/src/kafka_consumer_base.cpp:122-123 | after a crash a new consumer starts over at the stored offset; log, sink, clock and history are what they were |
| Commits.PassesOnlyWhatItMeets | consumers/src/kafka_consumer_base.cpp:124-152 | from a fresh start on, with any crashes and restarts, the position gets past nothing that has not been delivered since |
| Commits.NothingDelivered | consumers/src/kafka_consumer_base.cpp:125-128 | while the broker delivers nothing, a consumer with nothing in hand meets, tries and finishes nothing |
| Commits.Redelivered | consumers/src/kafka_consumer_base.cpp:152-197 | while no commit is stored the offset stays however much is finished, and after a crash all of it is met again before the position gets past it |
| DeadLetters.ReliableLosesNothing | consumers/src/kafka_consumer_base.cpp:81-120 | with a producer in every consumer that accepts every dead letter, everything below the stored offset is saved, over every run |
| DeadLetters.SavedExactly | consumers/src/kafka_consumer_base.cpp:82-113 | at a hand-off whose text is UTF-8 and whose commit is stored, a message not saved before is saved, then and in every continuation, if and only if there is a producer and it accepts the letter |
| DeadLetters.UndumpableEndsThread | consumers/src/kafka_consumer_base.cpp:97-98 | at a hand-off whose text, the raw payload or what goes with a record, is not UTF-8, a thread with a producer ends with nothing given away and nothing committed |
| DeadLetters.OnlyDumpsEndThreads | consumers/src/kafka_consumer_base.cpp:122-219 | and a running thread goes down by itself nowhere else |
| DeadLetters.SavedForGood | consumers/src/kafka_consumer_base.cpp:157-158 | below the stored offset nothing is saved any more: what is lost there stays lost |
| DeadLetters.FailedHandoffLosesMessage | consumers/src/kafka_consumer_base.cpp:157-158 | a run that commits its only message although it reached neither the sink nor the dead-letter queue |
| DeadLetters.PoisonNeverSaved | consumers/src/kafka_consumer_base.cpp:94-98 | over every run, a payload rejected at every encounter that is not UTF-8 is never saved, and is passed only by a consumer without a producer |
| DeadLetters.RawHandoffs | consumers/src/kafka_consumer_base.cpp:152-159 | over every run, raw bytes are handed off only right after an encounter that did not decode them, untried, for a record only if it is framed; and what is not UTF-8 is never taken |
| DeadLetters.Encounter | consumers/src/kafka_consumer_base.cpp:152-197 | at one encounter any payload, readable or not, is dead-lettered untried, lost, ends the thread, or is tried: four if-and-only-ifs in what Deserialize gives there, UTF-8 and the producer |
| DeadLetters.SinksSkipNull | consumers/src/notifier.cpp:44-52 | all three sinks pass over a null document without an exception |
| Retries.BackoffDoubles | consumers/src/kafka_consumer_base.cpp:184 | doubling and capping walks along min(initial * 2^(k-1), max) |
| Retries.RunKeepsCounted | consumers/src/kafka_consumer_base.cpp:163-187 | in every run the loop's counters, backoff variable and history of attempts and sleeps agree with the closed form |
| Retries.RetryBounds | consumers/src/kafka_consumer_base.cpp:163-197 | at most max_retries attempts and (max_retries - 1) * max sleep per message, every sleep in closed form, what was decoded dead-lettered only after exactly max_retries attempts and what was not without any, no int overflow for max up to INT_MAX / 2 |
| Retries.ClockExactly | consumers/src/kafka_consumer_base.cpp:183 | over every run the clock moves by the time that passes by itself and by the sleeps in the history |
| Retries.BoundedShutdown | consumers/src/kafka_consumer_base.cpp:122-219 | after Stop at most one more attempt, sleep, hand-off and commit, and the loop is left within five steps |
| Attempts.CacheAttempt | consumers/src/redis_updater.cpp:112-204 | in every reachable state an attempt of the updater throws if and only if its call was not answered or it wrote, over nothing as new, a row whose status cannot be read; answered deletes and stale events never throw |
| Attempts.IndexAttempt | consumers/src/es_indexer.cpp:47-94 | an attempt of the indexer throws if and only if it was not served, except for a delete answered with 404 |
| Attempts.NoticeAttempt | consumers/src/notifier.cpp:74-115 | an attempt of the notifier throws if and only if the status cannot be read, or a mail is called for and the call was not answered, whether or not the key was set |
| Attempts.SecondAttemptPasses | consumers/src/redis_updater.cpp:173-200 | a row whose status cannot be read costs the updater one attempt: the next finds it stored and returns |
| Attempts.UnreadableNeverSucceeds | consumers/src/notifier.cpp:74 | the notifier never succeeds with such a row |
| Attempts.RunPasses | consumers/src/kafka_consumer_base.cpp:162-198 | over every run of any sink, while no attempt throws and no schema is missing, no record is routed and every record finished is a success |
| Attempts.CacheSucceeds | consumers/src/redis_updater.cpp:71-204 | where Redis answers and schemas and statuses can be read, no attempt throws, nothing is dead-lettered, and a consumed order's live register is the fold of the log |
| Attempts.IndexSucceeds | consumers/src/es_indexer.cpp:14-95 | where Elasticsearch serves every call the same of the index |
| Attempts.EachGetsOne | consumers/src/notifier.cpp:83-115 | where Redis answers, every SHIPPED or DELIVERED request below the position has been emailed, exactly once unless called for again after its key lapsed |
| Progress.MessageFinishes | consumers/src/kafka_consumer_base.cpp:152-197 | undisturbed, whatever sink, dead-letter queue and schema registry do, a message is finished and committed within 6 + 4 * max_retries steps if and only if there is no producer, its bytes are UTF-8, or the encounter with it decodes it |
| Progress.BlockedForGood | consumers/src/kafka_consumer_base.cpp:97-98 | while every consumer has a producer, no run moves position or stored offset past a message that is not UTF-8 before an encounter decodes it |
| Progress.PartitionDrains | consumers/src/kafka_consumer_base.cpp:122-208 | undisturbed, the whole log is committed within 6 + 4 * max_retries steps a message if and only if no encounter of the run fails to decode bytes that are not UTF-8 with a producer |
| Progress.DrainsWithSchemas | consumers/src/kafka_consumer_base.cpp:122-208 | while schemas can be had: if and only if there is no producer or everything rejected at every encounter is UTF-8 |
| ConsumerLoop.KafkaConsumerBase.Run | consumers/src/kafka_consumer_base.cpp:122-215 | the loop as written is a run of the machine, ending closed, dead, or where its script ends |
| ConsumerLoop.KafkaConsumerBase.Live | consumers/src/kafka_consumer_base.cpp:122-219 | so is the consumer's whole life, run after run, with messages and time coming in between |
| ConsumerLoop.KafkaConsumerBase.HandleRecord | consumers/src/kafka_consumer_base.cpp:162-198 | the retry loop and its three endings are runs of the machine |
| ConsumerLoop.KafkaConsumerBase.DeadLetter | consumers/src/kafka_consumer_base.cpp:157-159 | hand-off, then commit whatever it returned |
| ConsumerLoop.KafkaConsumerBase.RouteToDlq | consumers/src/kafka_consumer_base.cpp:81-120 | false without a producer, an exception that ends Run uncommitted when the envelope is not UTF-8, otherwise what the producer answers |
| ConsumerLoop.KafkaConsumerBase.Await | consumers/src/kafka_consumer_base.cpp:217-219 | Stop, time, new messages and crashes may fall before every operation |
| LoopOutcomes.CacheAfterRun | consumers/src/kafka_consumer_base.cpp:122-215 | the fields Run leaves behind satisfy cache convergence |
| LoopOutcomes.IndexAfterRun | consumers/src/kafka_consumer_base.cpp:122-215 | the fields Run leaves behind satisfy index convergence |
| LuaNumber.NearestMultiple | consumers/src/redis_updater.cpp:102-107 | the modelled tonumber gives a nearest multiple of the double spacing, ties to even |
| LuaNumber.RoundMonotone | consumers/src/redis_updater.cpp:166 | conversion to a double keeps the order of LSNs |
| LuaNumber.StrictlyNewer | consumers/src/redis_updater.cpp:164-167 | an event the guard accepts over a stored LSN is strictly newer, for every LSN |
| LuaNumber.ExactUpTo53Bits | consumers/src/redis_updater.cpp:155-167 | up to 2^53 the guard's order is the order of LSNs |
| LuaNumber.TightAt53Bits | consumers/src/redis_updater.cpp:166 | 2^53 and 2^53 + 1 are the same to the guard |
| RedisStore.KeysDisjoint | consumers/src/redis_updater.cpp:100-110 | distinct orders have disjoint keys if and only if neither id is the other followed by `:lsn` |
| RedisStore.ColonFreeApart | consumers/src/redis_updater.cpp:159-170 | colon-free ids never collide |
| RedisStore.EmailKeyInjective | consumers/src/notifier.cpp:83-89 | a notification key determines its order and status, for all ids |
| RedisStore.ScriptIsAbsorb | consumers/src/redis_updater.cpp:164-171 | either script is a max-wins update of the order's (LSN, optional document) register; document and LSN keep one expiry, renewed exactly when the write is accepted |
| RedisStore.ScriptElsewhere | consumers/src/redis_updater.cpp:104-111 | a script changes nothing visible of any other order |
| RedisStore.CollisionDropsGuard | consumers/src/redis_updater.cpp:164-171 | after a write of order `a:lsn` an event of order `a` is stale if and only if the document written is a number not less than its LSN |
| RedisStore.SlotLapses | consumers/src/redis_updater.cpp:169-170 | with time a register stays or is forgotten whole, document and LSN together |
| RedisClients.RegisterRefinement | consumers/src/redis_updater.cpp:104-171 | over every trace of commands by any clients the flat map refines one register per order, deadlines included |
| RedisClients.MarkRefinement | consumers/src/notifier.cpp:89-94 | and one lapsing mark per notified pair |
| RedisClients.Provenance | consumers/src/redis_updater.cpp:169-170 | a register only ever holds one event, whole |
| RedisClients.MonotoneGuard | consumers/src/redis_updater.cpp:164-171 | over traces of any length, as long as a register is alive whenever a write of its order arrives it is unchanged or replaced by ever greater LSNs |
| RedisClients.NoResurrection | consumers/src/redis_updater.cpp:104-111 | while a tombstone lives no event up to its LSN brings the document back |
| RedisClients.NewestWins | consumers/src/redis_updater.cpp:104-171 | from any keyspace and over traces of any length, a register that never lapsed before a write holds the newest of what it held and what was written |
| RedisClients.WindowLasts | consumers/src/redis_updater.cpp:169-170 | within one 86400 s window nothing lapses |
| RedisClients.OrderInsensitive | consumers/src/redis_updater.cpp:104-171 | two such traces writing the same events, in any order and number, leave the same register |
| RedisClients.EmailSpacing | consumers/src/notifier.cpp:83-108 | two winning SET NX for one (order, status), each of which lets one email out, are executed at least 86400 s apart over every interleaving of notifiers |
| RedisRetries.RetryIdempotent | consumers/src/kafka_consumer_base.cpp:167-187 | any pattern of failed, lost and answered tries, however long it takes, leaves Redis as if the event was applied once, at the time of one of the tries, or not at all |
| GuardRuns.RunRetries | consumers/src/kafka_consumer_base.cpp:163-190 | in a run, from one delivery to the next, the keyspace becomes what the calls made in between make of it, all for that one record |
| GuardRuns.RunRetryIdempotent | consumers/src/kafka_consumer_base.cpp:163-190 | and it is as if the record was applied once or not at all |
| RedisRetries.SuccessIsStored | consumers/src/redis_updater.cpp:185-204 | if the last try got through, the stored LSN is not older than the event's as a double, and up to 2^53 not older as an integer |
| RedisRetries.GuardFollowsLog | consumers/src/redis_updater.cpp:164-171 | an undisturbed pass follows the log at every point if and only if each event repeats the last of its order or has an LSN that is newer as a double |
| RedisRetries.ExactLsnsRise | consumers/src/redis_updater.cpp:155-167 | strictly increasing LSNs up to 2^53 are enough |
| RedisRetries.UpdateDropped | consumers/src/redis_updater.cpp:164-167 | just past 2^53 a newer row is dropped |
| RedisRuns.OwnScript | consumers/src/redis_updater.cpp:164-181 | one script leaves its order's register at an event as new as the one it carried and all those stored before |
| RedisRuns.RunTracks | consumers/src/kafka_consumer_base.cpp:122-208 | over every run, with no assumption on LSNs, a register holds an event the order really had, as new (later in the log, or not older as a double) as every event last passed by a success |
| RedisRuns.CachedIsFresh | consumers/src/redis_updater.cpp:154-196 | the same for the cached document, with expiry, crashes and dead letters at any moment; where LSNs rise, none of those events comes after it in the log |
| History.RisingEndsNewest | consumers/src/redis_updater.cpp:164-167 | LSNs that rise as doubles make the last event the newest |
| RedisRuns.Converges | consumers/src/redis_updater.cpp:71-204 | if an order's last event is its newest and none was dead-lettered, once they are below the position its register is the fold of the log, unless lapsed |
| GuardRuns.ConvergesExactly | consumers/src/redis_updater.cpp:164-171 | in a run without dead letter or lapse of the order, past all its events, the register is what one undisturbed pass leaves, and the fold of the log if and only if the first event with the greatest LSN, as a double, is the last |
| EsRuns.MidReplay | consumers/src/es_indexer.cpp:40-94 | the exact row of each order in the middle of a replay |
| EsRuns.SuffixReplay | consumers/src/es_indexer.cpp:75-94 | replaying any suffix gives back the same index |
| EsRuns.RunTracks | consumers/src/kafka_consumer_base.cpp:189-197 | over every run, dead letters included, each indexed row is a version up to the high-water mark, after every event of the order last passed by a success |
| EsRuns.PassIsReplay | consumers/src/kafka_consumer_base.cpp:122-208 | a pass of the consumer in which no record is given up, whatever calls fail, lose their reply or are retried, broken off anywhere, is exactly the replay of the log from the stored offset on what it found, up to the floor or one message further |
| EsRuns.RowInPass | consumers/src/es_indexer.cpp:75-94 | the exact row of each order anywhere in such a pass, after a crash too |
| EsRuns.Converges | consumers/src/es_indexer.cpp:14-94 | without dead letters the row is a version from the position on, and back at the high-water mark the fold of the log |
| DualStore.Agreement | consumers/src/es_indexer.cpp:75-94 | index, folded log and cache agree on an order both consumers have passed; a lapsed cache agrees where it still holds the order |
| NotifierRuns.ClaimsAreWinners | consumers/src/notifier.cpp:83-115 | over every run the claims granted for an (order, status) are exactly the calls that reached Redis with no winner in the 86400 s before |
| NotifierRuns.RunSpaces | consumers/src/notifier.cpp:83-115 | in every run two winning SET NX for one (order, status) are executed at least 86400 s apart |
| NotifierRuns.AtLeastOnce | consumers/src/notifier.cpp:95-108 | over runs of any length, a request below the position was claimed or was given up by the loop; if any pass ended in a success it was claimed |
| NotifierRuns.ExactlyOnce | consumers/src/notifier.cpp:83-115 | a called-for notification is claimed exactly once if and only if all its calls fall within 86400 s of the first, and then emailed, once, if and only if the first was answered |
| NotifierRuns.MissedExactly | consumers/src/notifier.cpp:95-108 | over every run, no email goes out if and only if no winning call was answered; with calls within 86400 s, if and only if there was none or the first lost its reply |
| Classification.WritesRow | consumers/src/redis_updater.cpp:72-152 | a record with an `after` image, plain or wrapped, writes that row, under its `id`, a string or the JSON text of anything else, else its `order_id`, else the message key |
| Classification.WritesItself | consumers/src/redis_updater.cpp:75-76 | one without, but with an `id` or `order_id` of its own, is itself the row |
| Classification.DeletesRow | consumers/src/redis_updater.cpp:77-101 | any other with op `d` and a `before` image deletes that row, named the same way |
| Classification.PassesOver | consumers/src/redis_updater.cpp:77-128 | and all the rest is passed over |
| Classification.NoticeExactly | consumers/src/notifier.cpp:74-83 | a mail goes out for a record if and only if it writes a row whose status is SHIPPED or DELIVERED, with that id and status; it is unreadable if and only if it writes no object or a status that is no string |
| Classification.LsnGiven | consumers/src/redis_updater.cpp:44-60 | the LSN is the source's, as a number, as text, or as the first of either among the branches of a union |
| Classification.LsnStandsIn | consumers/src/redis_updater.cpp:61-68 | where that gives none, the source's timestamp, then the record's, then 0 |
| Numerals.StollReads | consumers/src/redis_updater.cpp:50-56 | `stoll` reads back the decimal text of every 64-bit integer, with space before and anything but a digit after it, and refuses other integers |
| Numerals.SignedReads | consumers/src/redis_updater.cpp:50-56 | it takes a sign or none before the digits |
| Numerals.StollRefuses | consumers/src/redis_updater.cpp:50-56 | and refuses text in which no number starts after the space |
| Numerals.AsInt64Wraps | consumers/src/redis_updater.cpp:48-49 | a JSON integer as 64-bit value: itself where it fits, the same modulo 2^64 where not |
| Numerals.FloatTruncates | consumers/src/redis_updater.cpp:48-49 | a floating-point number is rounded towards zero |
| JsonText.DumpParses | api/src/api_server.cpp:91 | the text that the updater dumps into Redis is read back by GET as the document it was, strings with every escape, nested documents and numbers |
| Records.WrapperInvariance | consumers/src/redis_updater.cpp:72-152 | wrapping a row as `Value`, beside whatever else, or as any one-key object but `id` changes neither change nor notification |
| Records.KeyUnused | consumers/src/redis_updater.cpp:140-148 | a record whose row names its order means the same with any message key |
| Debezium.EnvelopeReads | docs/SCHEMA.md:16-45 | capture and classification are inverse: the envelope of a WAL entry, rows wrapped and LSN a union, is read as that entry |
| Debezium.PublishedEntry | consumers/src/avro_deserializer.cpp:42-72 | a framed payload that decodes to it is a record of the entry in the log |
| Deliveries.DeliverToCache | consumers/src/redis_updater.cpp:71-204 | end to end from the bytes of a WAL entry's envelope: key, document, LSN and expiry in the keyspace, no other key touched, or no change if something as new is held |
| Deliveries.DeliverToIndex | consumers/src/es_indexer.cpp:14-95 | the same for the index |
| Deliveries.DeliverToNotifier | consumers/src/notifier.cpp:43-116 | the same for notifications: the envelope of a row shipped or delivered sets the key of its order and status and sends exactly one email, to its customer, if the key is not live; anything else sends none |
| Sinks.RedisServer.EvalUpsert | consumers/src/redis_updater.cpp:164-171 | the upsert script's new keyspace and answer |
| Sinks.RedisServer.EvalDelete | consumers/src/redis_updater.cpp:104-111 | the delete script's new keyspace |
| Sinks.RedisServer.SetIfAbsent | consumers/src/notifier.cpp:91-102 | SET NX EX and its answer |
| Sinks.RedisUpdater.EnsureConnected | consumers/src/redis_updater.cpp:26-42 | a missing or broken context is replaced or the call throws |
| Sinks.RedisUpdater.ExtractLsn | consumers/src/redis_updater.cpp:44-69 | the loop over union branches finds the LSN the record has, fractions dropped, or the timestamps, or 0 |
| Sinks.RedisUpdater.Classify | consumers/src/redis_updater.cpp:72-155 | the updater's copy of the classification gives the record's change |
| Sinks.RedisUpdater.ProcessRecord | consumers/src/redis_updater.cpp:71-204 | keyspace, connection and exception for every network behaviour |
| Sinks.EsIndexer.Classify | consumers/src/es_indexer.cpp:15-73 | the indexer's copy agrees with the updater's on order, row, delete and ignore |
| Sinks.EsIndexer.ProcessRecord | consumers/src/es_indexer.cpp:14-95 | index and exception for every HTTP outcome; 404 is a success for a delete and a failure for a write |
| Sinks.Notifier.Classify | consumers/src/notifier.cpp:44-72 | the notifier's copy agrees on order and row and ignores deletes |
| Sinks.Notifier.Notify | consumers/src/notifier.cpp:83-115 | claim, connection, exception, and the email exactly when the call was answered and the key was not live |
| Sinks.Notifier.ProcessRecord | consumers/src/notifier.cpp:43-116 | the whole call, including rows whose status cannot be read, with the recipient, order and status of the email |
| Avro.Deserialize | consumers/src/avro_deserializer.cpp:35-83 | at one encounter: nothing for a framed payload without its schema, else a document exactly for readable payloads, null for framed ones whose text does not parse, nothing for the rest |
| Avro.KeyOf | consumers/src/kafka_consumer_base.cpp:132-150 | the key passed on: id, order_id, the whole key document, or the raw bytes |
| Avro.EncounterDecodes | consumers/src/avro_deserializer.cpp:35-83 | a log entry stands for its payload: at each encounter it decodes if and only if Deserialize gives a document, with the same meaning |
| Avro.PoisonByte | consumers/src/avro_deserializer.cpp:76-82 | the byte 0xFF is an undecodable payload that is not UTF-8 |
| Avro.FrameLayout | consumers/src/avro_deserializer.cpp:42-43 | a framed payload is a zero byte, four bytes of schema id and data |
| Utf8Text.Utf8Exactly | consumers/src/kafka_consumer_base.cpp:98 | the bytes `dump` accepts are exactly the encodings, by section 3 of RFC 3629, of sequences of Unicode scalar values |
| Uuid.GenerateUuid | api/src/uuid_util.h:7-26 | the version-4 layout of section 4.4 of RFC 4122, without colons |
| Uuid.LayoutOnto | api/src/uuid_util.h:13-25 | every version-4 text can be drawn: what is generated is exactly those |
| Uuid.LayoutInjective | api/src/uuid_util.h:13-25 | distinct draws give distinct ids |
| Database.ExecuteFolds | api/src/database_client.cpp:32-79 | each statement keeps the table equal to the fold of its WAL |
| Tables.TableFollows | api/src/database_client.cpp:32-79 | after any statements an order has a row if and only if it was inserted after it was last removed, and the row is then, field by field, the inserted one with the status last set |
| Database.ExactWalRises | consumers/src/redis_updater.cpp:155-167 | LSNs up to 2^53 rise as doubles |
| Database.DatabaseClient.CreateOrder | api/src/database_client.cpp:32-55 | the inserted row and WAL entry; or an exception, with no change unless the acknowledgement was lost |
| Database.DatabaseClient.UpdateOrderStatus | api/src/database_client.cpp:57-79 | the updated row and WAL entry, false when no row matched, or an exception, the update then made or not; the id in any spelling of a UUID, an exception for any other text |
| Database.DatabaseClient.GetOrderById | api/src/database_client.cpp:81-104 | for an id in any spelling of a UUID the current row, none, or an exception; an exception for other text that stays inside its quotes |
| OrderApi.RedisClient.Get | api/src/redis_client.cpp:38-67 | hit, miss or exception, and the context lost on a missing reply |
| OrderApi.ApiServer.GetOrder | api/src/api_server.cpp:82-122 | a live cached object field by field with source `redis`, else the database's row field by field with source `postgres`, 404 or 500 |
| OrderApi.ApiServer.PostOrder | api/src/api_server.cpp:15-47 | 201 with the new row's id and status CREATED, 400 and no change, or 500, which hides a new row exactly when the acknowledgement was lost |
| OrderApi.ApiServer.PatchStatus | api/src/api_server.cpp:50-80 | 200 with `updated`, 404 or 400 and no change, or 500 with the update made or not |
| OrderApi.StaysDown | api/src/redis_client.cpp:46-52 | over every trace of requests the context is alive if and only if no reply was ever missed |
| OrderApi.ServedDirectly | api/src/api_server.cpp:85-121 | on a miss, failure or unusable text, and for ever after a missed reply, GET answers as the database alone |
| EndToEnd.WorldFolds | api/src/database_client.cpp:32-79 | in every reachable state the table is the fold of the WAL, and the topic, with repeats after a restart of capture and a null message after each delete, carries it |
| EndToEnd.WorldStrays | consumers/src/redis_updater.cpp:159-170 | in every reachable state, the database's ids being UUIDs, no document lies under the key of an id that is not canonical UUID text |
| EndToEnd.NullAfterDelete | consumers/src/avro_deserializer.cpp:36-38 | while capture does not go back every delete in the topic is followed by a null message |
| EndToEnd.ReadCoherence | api/src/api_server.cpp:82-122 | for every id read as a UUID, in any spelling, a GET answers, field by field and naming the store, with a version the row really had, never ahead of the database, and with the current row, 404 or 500 where the cache has no document; with LSNs that rise as doubles and no dead letter for the order, with the current one or one such that nothing consumed is both later in the topic and newer in the WAL, and with the current one once the updater has consumed all; an id that is no UUID gets a 500 |
| Freshness.ReadsNoOlder | api/src/api_server.cpp:82-122 | if capture never publishes again from an earlier point, or the order's cache entry never lapses, that version is no older in the WAL than anything of the order the updater has consumed |
| Freshness.OlderAfterRepublication | consumers/src/redis_updater.cpp:164-171 | otherwise it can be: a run in which an entry lapses, is published again, and a GET answers with a version older than one consumed |
| EndToEnd.IndexCoherence | consumers/src/es_indexer.cpp:75-94 | in every reachable state, once an order's entries are all published and indexed without a dead letter its document is its row, and what a caught-up cache holds of it |
| EndToEnd.PublishedOnTheWire | consumers/src/avro_deserializer.cpp:42-72 | what capture publishes of the WAL is what the consumers make of the bytes of its envelope |
| SharedRedis.Separate | consumers/src/notifier.cpp:89-94 | updater and notifier taking turns on one keyspace and clock are each where they would be alone, their side of the keyspace the same |
| SharedRedis.SharedCache | consumers/src/redis_updater.cpp:154-196 | so freshness and convergence of the cache hold with the notifier on the same Redis |
| SharedRedis.SharedNotices | consumers/src/notifier.cpp:83-115 | and the claims granted are exactly the winners |

## Left out

- Protocol.Exec: one partition with one owner; rebalancing, compaction and broker replication are not in the source either.
- Protocol.HandoffOf: whether a record's error text is UTF-8 is left to the environment, as it quotes servers; so is the raw payload of a null document, which only a consumer with no attempts at all would dead-letter.
- DeadLetters.SavedExactly: `true` from RouteToDLQ means taken by the producer; whether the broker then stored the dead letter is not modelled.
- Progress.MessageFinishes: for records, error texts are assumed to be UTF-8; where one is not, the thread ends and the record is met again.
- Protocol.Decodes: what a record means is fixed when it enters the log; a record whose row does not name its order takes the message key, and that the key's own schema may be missing at one encounter and not at the next is modelled in `Avro.KeyOf` only (see `Records.KeyUnused`).
- NotifierRuns.ClaimsAreWinners: one notifier per run, starting from an empty keyspace; `RedisClients.EmailSpacing` covers every interleaving of notifiers, as traces of their commands.
- SharedRedis.Separate: one updater and one notifier, as the source starts them.
- DualStore.Agreement: stated order by order, for orders of which nothing was dead-lettered.
- Sinks.RedisUpdater.ProcessRecord: scripts and SET NX are atomic, and a request takes effect before its call returns; a write delayed past its timeout is not modelled.
- Sinks.RedisUpdater.ExtractLsn: a floating-point LSN outside the 64-bit range, whose conversion C++ leaves undefined, is wrapped; objects are given in key order.
- Sinks.EsServer.Delete: a 404 is taken to mean that there is no such document, as Elasticsearch answers it.
- ConsumerLoop.KafkaConsumerBase.Run: constructors, librdkafka configuration, `close` and the final `flush` have no effect on the modelled state.
- JsonText.DumpParses: how text with a fraction or an exponent is read is a parameter; space and surrogate escapes, which `dump` never writes, are not read.
- Avro.Deserialize: Avro binary decoding and JSON parsing are functions of the bytes; schema lookup is one answer per encounter.
- Debezium.EnvelopeReads: columns are opaque members of the row; only the fields of the envelope that the consumers read are in it.
- Sinks.EsIndexer.ProcessRecord: an id is used as one URL path segment; percent-encoding of other ids is not modelled.
- Database.DatabaseClient.CreateOrder: rows are opaque documents; SQL text and column types appear only as the refusal of a statement, and cached and database bodies are compared as row versions.
- Database.DatabaseClient.GetOrderById: the id is formatted into the query; what a text that does not stay inside its quotes yields is left open, and that it could change the table is not modelled.
- OrderApi.ApiServer.GetOrder: the database connection is one flag per request; the client never reopens a lost one.
- Locks: each modelled call holds its object's mutex throughout, so calls on one client do not interleave.
- Loggers, latency figures, the load generator, startup loops, Logstash, Kibana and the chart scripts: observability and plumbing.
