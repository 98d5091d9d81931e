# Formal model of the exchange backend's accounts, event and persistence layers

The exchange keeps customer funds in versioned account rows, serves them through several caches, spreads
them over shards, records what happens as versioned events, and writes through a log and a buffer. This
project models those parts in Dafny and proves what they keep over whole runs and interleavings.

| files | subject |
|---|---|
| `Ledger`, `LedgerSessions`, `Repository`, `EventStore`, `Idempotency` | Account rows, reservations and journal: first as a database that executes one transaction at a time, then as many clients whose reads and guarded writes interleave, then as the repository's methods over the tables, then as the events published afterwards; and the keys that keep a command from taking effect twice. |
| `Lru`, `HotCache` | The in-memory cache: a list ordered by last use, and the class with a map, an order slice and an index map that refines it. |
| `ReadPath`, `QueryHandler`, `FillRace` | One account read through in-memory entries, three Redis tiers and the row: a state machine, and the handlers that change it in place; and queries that fill a cache while commands commit. |
| `HashRing`, `Rebalance` | The consistent hash ring with its sorted points and binary search, and the planner that moves load between shards. |
| `EventSchema`, `EventMigration`, `OrderPlaced`, `EventReplay` | The recursive schema validator, chains of upgraders, the ORDER_PLACED event, and batched replay with checkpoints. |
| `Wal`, `WriteBuffer`, `CircuitBreaker`, `WritePipeline`, `WriteService` | The write-ahead log, the buffer over an array, the batch writer, its circuit breaker access by access, all of them interleaved, and the objects driven through such an interleaving. |
| `DataMovement`, `LatencyStats` | Archival and table copy in batches; the latency figures of a benchmark. |

Amounts are decimals with exact arithmetic and are modelled as integers, load factors as reals, time as an
integer clock, tables as maps and sequences with atomic transactions. Whatever the code cannot decide
itself is a parameter: which other transactions commit in between, where the file system or the database
fails, what handlers, hash functions and UUID parsers answer.

The interleaved ledger models neither the Redis mutex (it expires) nor row locks. What is proved there
rests on the version and status guards of the UPDATE statements alone.

The batch writer and the operators who reset its circuit share fields without a lock. Every load and every store of
such a field is a step of its own, and each is taken to be indivisible.

Loops over a Go map, whose order is arbitrary, take an arbitrary element in each round.

## What the code does where its comments or names say otherwise

- The planner is described as moving from the most overloaded to the least loaded shard. It takes the
  overloaded shards in any order, and all of them get the same target, the first in the list
  (`internal/accounts/shard_manager.go:613`, `:618-638`).
- Storing an account stamps it as just accessed before choosing its tier, so the hot tier is chosen unless
  that store is held up for five minutes (`internal/accounts/cache.go:243-253`).
- Releasing a reservation clears the in-memory entries of no user and no currency, so the entries of the
  account stay, and are behind the row (`internal/accounts/command_handler.go:434`, `:442`).
- A hit in a Redis tier stores again what it has just read, so a clearing that falls in between is undone
  (`internal/accounts/cache.go:215-233`, `:437-445`).
- Published balance events never have their version filled in, so a rebuilt account has version 0
  (`internal/accounts/command_handler.go:343-352`, `internal/accounts/event_store.go:653`).
- Migration is through a form with whole seconds, so it cuts the event's time
  (`internal/trading/event_versioning.go:55`, `:75`).
- A malformed line that is not skipped discards the unfinished batch: its events were read and counted,
  and never reach a handler (`internal/trading/event_replay.go:293-301`).
- The buffer's own loop throws away what it flushes (`persistence/async_write_buffer.go:67`, `:69`), and the
  writer drops batches while its circuit is open and when a write fails (`persistence/batch_writer.go:39-47`).
- A reset of the circuit that falls between the test and the opening is lost: the circuit stays open
  (`persistence/batch_writer.go:62-63`, `:69-70`).
- Archival takes a cursor that ends early for the end of the table and reports success
  (`internal/accounts/lifecycle_manager.go:572-587`, `:432-434`).
- A commit reported as failed may have taken effect; its update is never published
  (`internal/accounts/repository.go:382-385`, `internal/accounts/command_handler.go:337-339`).
- A failed append uses up a sequence number, and one that fails at the sync leaves its record in the log
  (`persistence/wal.go:41-53`). Reopening a log from which everything was truncated starts over at one
  (`persistence/wal.go:127-142`).

## Model

| member | source | states |
|---|---|---|
| Ledger.ExecAdvances | internal/accounts/repository.go:322-337 | A committed transaction changes a row only together with a higher version, and keeps every reservation's owner and amount and every ended reservation as it is. |
| Ledger.SerialAdvances | internal/accounts/repository.go:309-337 | The same over any sequence of transactions, and every row keeps `available = balance - locked` with all three non-negative. |
| Ledger.UpdateOutcome | internal/accounts/repository.go:253-413 | A plain update succeeds exactly for a known account, at the version expected if one is, that can afford it: balance, locked and available funds all stay non-negative. Then that row alone moves by the deltas to the next version, and one entry records all its columns before and after. Its errors come in this order. |
| Ledger.CreateOutcome | internal/accounts/repository.go:416-486 | A reservation needs a positive amount, a known account and the funds; then the amount is locked and an active reservation appended, in one, and nothing is journalled. |
| Ledger.ReleaseOutcome | internal/accounts/repository.go:489-567 | A release needs an active reservation and the locked funds; then the amount is unlocked and the reservation released at its next version, in one, and nothing is journalled. |
| Ledger.ExpireOutcome | internal/accounts/jobs.go:586-599 | A cleanup makes exactly those reservations expired that are active with an expiry before the moment it runs, and changes nothing else. |
| Ledger.ExecTotals | internal/accounts/repository.go:441-461 | Effect of each kind of transaction on an account's balance, version and on the locked funds that no reservation accounts for. |
| Ledger.Conservation | internal/accounts/repository.go:253-413 | Over any sequence: the balance is its start plus the committed deltas, the version its start plus the number of commits, and `locked` minus all active and expired reservations moves by plain locked deltas only. |
| Ledger.ReleaseFailsExactlyWhen | internal/accounts/repository.go:742-749 | Releasing an active reservation takes the insufficient-funds branch exactly when locked funds outside reservations are too negative for the other reservations to make up for. |
| Ledger.ReleaseSucceeds | internal/accounts/repository.go:489-567 | In every run whose plain updates do not lower the account's locked total, an active reservation can be released. |
| Ledger.JournalChains | internal/accounts/repository.go:342-374 | The journal entries of an account form a chain without gaps from its first balance to its current one, although reservation updates are not journalled. |
| Ledger.JournalSound | internal/accounts/repository.go:342-374 | In every run each journal entry records two rows whose available funds are balance less locked, with no amount negative. |
| Ledger.JournalSums | internal/accounts/repository.go:342-374 | The journalled amounts add up to how far the balance has moved. |
| LedgerSessions.WriteIsExec | internal/accounts/repository.go:322-337 | A guarded write that goes through is the whole transaction executed atomically at that moment, whatever was committed since its snapshot was read; one that does not leaves a session that can go on. |
| LedgerSessions.Serializable | internal/accounts/repository.go:229-250 | In every interleaving the database is the one its committed transactions produce one after another in commit order, each of them succeeding there. |
| LedgerSessions.ExactlyOnce | internal/accounts/repository.go:229-250 | No command takes effect twice, retries included. One that reports success has taken effect; one that has taken effect and does not report success is one whose commit was reported as failed. |
| LedgerSessions.NoLostUpdates | internal/accounts/repository.go:309-339 | In every interleaving each row is its first value plus all committed deltas, its version counts the commits, and it is sound. |
| LedgerSessions.AloneIsExec | internal/accounts/repository.go:229-567 | A client whose command nothing disturbs ends as the transaction does that is executed at once, whatever the kind of command and with the same error. |
| LedgerSessions.CommitReports | internal/accounts/repository.go:382-385 | A commit changes the database unless it is rolled back, is a success exactly if it is acknowledged, and only then leaves its update to be published. |
| LedgerSessions.GivesUpExactlyWhen | internal/accounts/repository.go:229-250 | In every interleaving a finished client has lost its race for good exactly if its plain update met another version three times, or a command of another kind once. |
| LedgerSessions.ReleaseNeverShort | internal/accounts/repository.go:526-554 | From rows whose locked funds cover their reservations, with updates that do not lower the locked total, no release in any interleaving is refused for insufficient funds. |
| LedgerSessions.ReservationsOnlyEnd | internal/accounts/jobs.go:586-600 | From any point of an interleaving on, a reservation that has left `active` never changes again, and no owner or amount ever does. |
| LedgerSessions.ExpiredExactlyWhen | internal/accounts/jobs.go:586-599 | In every interleaving a reservation is expired exactly if it was from the start or some cleanup ran after its expiry and found it still active. |
| LedgerSessions.NoneOverdue | internal/accounts/jobs.go:586-599 | Right after a cleanup, in any run, no active reservation has an expiry before it. |
| EventStore.ReconstructAccountAggregate | internal/accounts/event_store.go:622-664 | The rebuilt account exists exactly if there is a balance event, holds the sums of the deltas, is available what is not locked, and has the version of the last balance event. |
| EventStore.TotalsPermute | internal/accounts/event_store.go:622-664 | The rebuilt amounts do not depend on the order in which events were published. |
| EventStore.EventsCarryNoVersion | internal/accounts/command_handler.go:343-352 | The events of an account are its updates and carry no version, so an account rebuilt from them is at version 0. |
| EventStore.EventsRebuildTheRow | internal/accounts/command_handler.go:336-358 | In every interleaving the events of an account, plus the committed updates still to be published and those committed under a failed acknowledgement, give exactly how far its balance has moved, and its locked funds but for reservations. |
| EventStore.Store.PublishEvent | internal/accounts/event_store.go:243-268 | Every event published is stored, lost or waiting, in order as long as none was lost; a full batch is stored at once with the new event, and publishing fails exactly if that fails, which loses the batch. |
| EventStore.Store.FlushEvents | internal/accounts/event_store.go:474-534 | The batch is stored behind what was stored before, or lost as a whole, and is empty either way. |
| EventStore.Store.RebuildFromStore | internal/accounts/event_store.go:317-375 | Events read back from the store never rebuild an account, as their concrete type is gone. |
| Idempotency.EffectsBounded | internal/accounts/command_handler.go:520-534 | In every interleaving a key takes effect at most once, plus once for each time the cache lost it and each time a client passed the check while another with the same key was underway. |
| Idempotency.AtMostOnceExactlyWhen | internal/accounts/command_handler.go:520-534 | As long as no command with the key that was let through is refused by the database, the key takes effect at most once exactly if no check lets a client through after another that took effect or still may. |
| Idempotency.AtMostOnce | internal/accounts/command_handler.go:520-534 | Even with commands refused, that condition on the checks suffices. |
| Idempotency.OverlapTakesEffectTwice | internal/accounts/command_handler.go:318-365 | Two overlapping clients with one key do both take effect, with nothing lost. |
| Idempotency.LostKeyTakesEffectTwice | internal/accounts/command_handler.go:520-534 | A command sent again after the cache has lost its key takes effect a second time. |
| Idempotency.HandleTwice | internal/accounts/command_handler.go:318-365 | One after the other, the same command a second time changes nothing, whether it succeeded or failed. |
| Idempotency.CommandHandler.ExecuteWithKey | internal/accounts/command_handler.go:318-365 | A known key succeeds without effect; otherwise the command is one transaction, and its key is remembered exactly if it succeeded. |
| AccountRepository.Repository.PerformBalanceUpdate | internal/accounts/repository.go:253-413 | With any transactions committed between read and guarded write: the error the first read meets, or a lost race that leaves nothing, or the update executed on the state the others left. |
| AccountRepository.Repository.UpdateBalanceAtomic | internal/accounts/repository.go:229-250 | At most three attempts, each after the first because rivals wrote the row between the read and the guarded write of the one before; success is the update executed on what the rivals of the attempts made left behind, any other end leaves only the rivals' work and is the error the update meets on its own, or three rounds in each of which the row was written. |
| AccountRepository.Repository.PerformBalanceUpdateInTx | internal/accounts/repository.go:716-770 | Inside a transaction the row is replaced by the sound row one version on, or the error branch changes nothing. |
| AccountRepository.Repository.CreateReservation | internal/accounts/repository.go:416-486 | Funds locked and reservation inserted together or not at all, for any amount; that it is positive is checked by the command. |
| AccountRepository.Repository.ReleaseReservation | internal/accounts/repository.go:489-567 | Status and funds change together; if the unlock fails the status change is rolled back. |
| AccountRepository.Repository.CleanupExpiredReservations | internal/accounts/jobs.go:586-600 | Row by row, exactly the active reservations with an expiry before the moment become expired, no funds move, and the count of rows changed is returned. |
| AccountRepository.Repository.ExecuteCommand | internal/accounts/command_handler.go:216-254 | A command with nothing in between is one transaction of the ledger, error cases included; an amount that is not positive is refused first. |
| Lru.EvictsShortestPrefix | internal/accounts/hot_cache.go:352-370 | What is evicted is the shortest least-recently-used prefix that leaves fewer items than the maximum and room for the new one in the budget, or everything if none does. |
| Lru.StoreKeepsOthers | internal/accounts/hot_cache.go:203-245 | With fewer items than the maximum and room in the budget a store evicts nothing: it puts its item last, in place of any under its key. |
| Lru.StoreBounds | internal/accounts/hot_cache.go:203-245 | After storing, there are at most `maxSize` items, and the memory budget is exceeded exactly when the new item alone exceeds it, which is then the only one. |
| Lru.DropExpiredKeeps | internal/accounts/hot_cache.go:464-489 | A cleanup keeps exactly the items without a time to live or still within it. |
| Lru.EveryRun | internal/accounts/hot_cache.go:161-265 | After any sequence of critical sections, with a get split into its two: no key twice, items in order of last use, each the one stored last and not removed since, and both limits kept. |
| Lru.VanishesOnlyWhen | internal/accounts/hot_cache.go:161-265 | An item is gone after a critical section only if its key was removed or stored anew, a store found no room, the cache was cleared, or a cleanup came after its time. |
| Lru.TouchMovesOne | internal/accounts/hot_cache.go:373-384 | A touch puts the key's item last, keeps the others in order, and loses and adds none. |
| HotCaches.InverseSize | internal/accounts/hot_cache.go:373-403 | An index map that is the inverse of the order slice has as many keys as the slice has entries, so the slice has no duplicates. |
| HotCaches.HotCache.CountIsCardinality | internal/accounts/hot_cache.go:226-238 | The running count is the number of entries in the map. |
| HotCaches.HotCache.UpdateAccessOrder | internal/accounts/hot_cache.go:373-384 | The key goes to the end of the order slice, all others keep their order, and the index map is repaired to be its inverse. |
| HotCaches.HotCache.AddToAccessOrder | internal/accounts/hot_cache.go:387-390 | A new key is added at the end of both structures. |
| HotCaches.HotCache.RemoveFromAccessOrder | internal/accounts/hot_cache.go:393-403 | The key leaves both structures, and the index map is repaired to be the inverse of the rest. |
| HotCaches.HotCache.Look | internal/accounts/hot_cache.go:161-170 | The first half of a get finds the item the list has under the key, or nothing. |
| HotCaches.HotCache.TouchEntry | internal/accounts/hot_cache.go:182-200 | The second half moves the key's item to the most recently used end, and is harmless if the key has gone or been replaced in between. |
| HotCaches.HotCache.Get | internal/accounts/hot_cache.go:161-200 | A get returns the item's value and touches it, or deletes an expired item and misses, or misses. |
| HotCaches.HotCache.Set | internal/accounts/hot_cache.go:203-245 | A set evicts, stores and moves to the end as the list does, evicts nothing while there is room, and leaves count and memory within bounds. |
| HotCaches.HotCache.StoreEntry | internal/accounts/hot_cache.go:228-241 | Storing or replacing an entry keeps map, order, index, count and memory describing one list. |
| HotCaches.HotCache.MakeLast | internal/accounts/hot_cache.go:232-241 | A new key joins the access order, and any key stored ends up last in it. |
| HotCaches.HotCache.Delete | internal/accounts/hot_cache.go:248-265 | The key's item is gone, everything else stays, and the result says whether it was there. |
| HotCaches.HotCache.DeletePresent | internal/accounts/hot_cache.go:357-368 | Removing a present key takes its item out of all three structures and both totals. |
| HotCaches.HotCache.EnsureCapacity | internal/accounts/hot_cache.go:352-370 | The eviction loop ends, evicts exactly what the list's eviction does, and nothing while there is room. |
| HotCaches.HotCache.EvictFirst | internal/accounts/hot_cache.go:359-369 | The key at the front of the access order is always one of the map's, and its item goes. |
| HotCaches.HotCache.CleanupExpiredEntries | internal/accounts/hot_cache.go:464-489 | Deleting the collected keys one by one, in any order, leaves exactly the items that have not expired, in order. |
| HotCaches.HotCache.ExpiredKeys | internal/accounts/hot_cache.go:470-476 | Exactly the keys of expired entries are collected. |
| HotCaches.HotCache.Clear | internal/accounts/hot_cache.go:329-340 | Nothing is left. |
| ReadPath.RunCoherent | internal/accounts/query_handler.go:366-456 | After any sequence of commands, queries and lost cache entries, every cache entry agrees with the row, but for in-memory accounts that lag by what was released since. |
| ReadPath.AnswersAgree | internal/accounts/query_handler.go:366-456 | Whichever cache answers, the balance is the row's; locked and available are off by exactly what was released since the in-memory entry was filled, so the account is the row exactly when nothing was. |
| ReadPath.RowOutcome | internal/accounts/command_handler.go:318-464 | A command moves the row by what it says, to the next version, exactly if the account can afford it; it then leaves no Redis entry, and no in-memory one unless it is a release. A refused command changes nothing, and no query touches the row. |
| ReadPath.RowConserved | internal/accounts/command_handler.go:318-464 | After any run of commands, queries and losses the row is its first value plus the accepted deltas, at its first version plus their number. |
| ReadPath.QueriesFill | internal/accounts/query_handler.go:366-456 | A query leaves its answer in memory and, after a miss there, in Redis; the same query answers the same next. |
| ReadPath.StaleAfterRelease | internal/accounts/command_handler.go:424-464 | Such a stale answer is reachable: read, release, read again. |
| ReadPath.LowerTiersUnused | internal/accounts/cache.go:241-268 | Unless a store is held up for five minutes, the warm and cold tiers stay empty through every run. |
| ReadPath.TierByUse | internal/accounts/cache.go:447-460 | The tier is hot within five minutes of the last access or above a hundred accesses, cold from half an hour on with at most ten; at the count the callers store, the time alone decides. |
| ReadPath.HitsMoveUp | internal/accounts/cache.go:212-238 | A hit below the hot tier is stored one tier up, so a third look finds the account hot. |
| ReadPath.ShortReadFills | internal/accounts/repository.go:190-220 | The short read leaves the row's figures as a hash, and never in place of a stored account. |
| QueryHandlers.AccountHandler.ExecuteGetAccount | internal/accounts/query_handler.go:366-429 | The lookup falls through the tiers as the state machine does, and its balance is the row's. |
| QueryHandlers.AccountHandler.ExecuteGetBalance | internal/accounts/query_handler.go:432-456 | The balance returned is the row's, whether it came from the balance entry or an account. |
| QueryHandlers.AccountHandler.LookInTiers | internal/accounts/cache.go:212-238 | What is found is the row's account, a miss means that no tier holds one, promotion keeps the caches coherent, and a second look finds the same. |
| QueryHandlers.AccountHandler.StoreInTier | internal/accounts/cache.go:241-268 | The account can be found afterwards, and coherent caches stay coherent exactly if it is the row. |
| QueryHandlers.AccountHandler.InvalidateAccount | internal/accounts/cache.go:343-352 | Afterwards the tiers are current whatever the row becomes. |
| QueryHandlers.AccountHandler.InvalidateAccountCache | internal/accounts/command_handler.go:537-543 | Afterwards the caches are coherent exactly if the tiers are current, and then every answer is the row's. |
| QueryHandlers.AccountHandler.ExecuteUpdateBalance | internal/accounts/command_handler.go:318-367 | An update succeeds exactly if the account can afford it; then the row has moved by the deltas to the next version and the caches are coherent with it. A refused one changes nothing. |
| QueryHandlers.AccountHandler.ExecuteCreateReservation | internal/accounts/command_handler.go:370-421 | A reservation succeeds exactly for a positive amount that the account can afford; then the row has that much more locked, at the next version, and the caches are coherent with it. |
| QueryHandlers.AccountHandler.ExecuteReleaseReservation | internal/accounts/command_handler.go:424-464 | A release succeeds exactly if that much is locked; then the row has it unlocked, at the next version, the tiers are empty, and in-memory entries stay and lag by the amount. |
| QueryHandlers.AccountHandler.GetAccountBalance | internal/accounts/repository.go:190-226 | The short read returns the row's balance, available amount and version, from the hash or the row. |
| FillRace.StaleExactlyWhen | internal/accounts/query_handler.go:366-427 | With queries and commands interleaved step by step, any of the three Redis tiers and two in-memory entries is stale exactly if something committed after the read of the row behind it, through however many caches and clients the value was copied since. |
| FillRace.StaleAtRestExactlyWhen | internal/accounts/command_handler.go:318-343 | Once every command has cleared what it clears, a cache is stale exactly if a command that does not clear it committed after that read, or a whole commit and clearing fell between the read and the last store: read, commit, clear, store. For the Redis tiers only the second can be. |
| FillRace.CurrentGoesStale | internal/accounts/cache.go:212-236 | From any run, a client that holds the current value, from the row or from any cache, can leave any cache stale at rest: one whole command in between suffices. |
| FillRace.StaleIsReachable | internal/accounts/query_handler.go:377-394 | An in-memory entry copied from a Redis entry that was current when it was read is stale at rest after one command. |
| HashRing.OwnerPointExists | internal/accounts/shard_manager.go:514-535 | On a non-empty ring every hash has an owner: the least point at or above it, else the least of all. |
| HashRing.OwnerPointUnique | internal/accounts/shard_manager.go:514-535 | That point is unique. |
| HashRing.AddMovesOnlyToNew | internal/accounts/shard_manager.go:485-496 | Adding a shard, colliding points included, leaves every key where it was or moves it to the new shard. |
| HashRing.AddTakes | internal/accounts/shard_manager.go:485-496 | A key ends up with a shard new to the ring exactly when its owner point is one of that shard's. |
| HashRing.RemoveMovesOnlyItsOwn | internal/accounts/shard_manager.go:499-511 | Removing a shard leaves every key that it did not own where it was. |
| HashRing.AddRemoveRestores | internal/accounts/shard_manager.go:485-511 | Adding a new shard and removing it loses exactly the points it collided with, so the ring is restored exactly when it collided with none. |
| HashRing.AddRemoveKeepsOwner | internal/accounts/shard_manager.go:485-511 | After adding and removing, every key whose owner point was not collided with has its owner back. |
| HashRing.AddsCommute | internal/accounts/shard_manager.go:485-496 | The order in which two shards are added matters exactly when their points collide. |
| HashRing.NodeNamesDiffer | internal/accounts/shard_manager.go:490-493 | All virtual nodes, of one shard or of several and whatever the shards are called, have different names, so only the hash can make points collide. |
| HashRing.ConsistentHashRing.AddShard | internal/accounts/shard_manager.go:485-496 | The shard takes exactly the points of its first `virtualNodes * weight` node names, every other point keeps its shard, and the sorted slice lists exactly the map's points. |
| HashRing.ConsistentHashRing.RemoveShard | internal/accounts/shard_manager.go:499-511 | Exactly the points that map to the shard go, in whatever order the map is visited. |
| HashRing.ConsistentHashRing.UpdateSortedHashes | internal/accounts/shard_manager.go:544-552 | The rebuilt slice is strictly increasing and lists exactly the map's points. |
| HashRing.ConsistentHashRing.Search | internal/accounts/shard_manager.go:525-527 | Binary search finds the first point at or above a hash, or the length. |
| HashRing.ConsistentHashRing.GetShard | internal/accounts/shard_manager.go:514-535 | Binary search with wrap-around gives the owner by the definition above, and nothing on an empty ring. |
| Rebalance.MoversLaws | internal/accounts/shard_manager.go:617-626 | Sources of migrations are exactly the overloaded shards with excess and records worth moving, each once. |
| Rebalance.MovesExactlyWhen | internal/accounts/shard_manager.go:617-624 | A source has something to move exactly if it is above the average and its records times its excess come to ten or more. |
| Rebalance.RecordsMean | internal/accounts/shard_manager.go:623 | What moves is a tenth of the records times the excess, without a fraction. |
| Rebalance.AverageBalances | internal/accounts/shard_manager.go:726-741 | The distances of the active shards from the average cancel out; without an active shard it is one. |
| Rebalance.RebalancedConserves | internal/accounts/shard_manager.go:636-639 | Handling any list of active sources conserves the total load, the number of active shards and so the average. |
| Rebalance.RebalancedShard | internal/accounts/shard_manager.go:636-639 | A source ends at the average plus nine tenths of its excess; a shard that is neither source nor target is left alone. |
| Rebalance.HandledIsPlanned | internal/accounts/shard_manager.go:610-644 | For different active sources and a target that is none of them, handling them in turn is the plan of one fixed average, although the code computes it anew for every pair. |
| Rebalance.HandledConserves | internal/accounts/shard_manager.go:636-639 | Even if a shard is source and target, or source twice, handling active shards conserves total load, number of active shards and average. |
| Rebalance.OverAndUnderExactlyWhen | internal/accounts/shard_manager.go:584-608 | Some load is overloaded and underloaded at once exactly if average and threshold differ in sign. |
| Rebalance.PlanIsGood | internal/accounts/shard_manager.go:610-644 | If average and threshold agree in sign: no shard is a source twice or its own target, sources were overloaded and their common target underloaded, each migration moves a tenth of its source's records times the excess, and each source ends at the average plus nine tenths of its excess. |
| Rebalance.ShardManager.CalculateAverageLoadFactor | internal/accounts/shard_manager.go:726-741 | The total load of active shards over their number, and one if there are none. |
| Rebalance.ShardManager.FindOverloadedShards | internal/accounts/shard_manager.go:584-595 | Exactly the active shards above the threshold, each once. |
| Rebalance.ShardManager.FindUnderloadedShards | internal/accounts/shard_manager.go:597-608 | Exactly the active shards below the threshold, each once. |
| Rebalance.ShardManager.MoveFrom | internal/accounts/shard_manager.go:615-641 | One source, with the average of the moment, moves a tenth of its excess to the first underloaded shard, or nothing; no other shard of the list is ever considered. |
| Rebalance.ShardManager.CreateMigrations | internal/accounts/shard_manager.go:610-644 | For any two lists, shared and repeated shards included: every source is handled in turn with the average of the moment, and every migration goes to the first underloaded shard. |
| Rebalance.ShardManager.CreateRebalancePlan | internal/accounts/shard_manager.go:380-417 | There is a plan exactly if it is needed, some shard is underloaded, and some overloaded shard has records worth moving at the average. Without a plan nothing has moved. With one, total load and average are what they were, and it is a good plan in the above sense if average and threshold agree in sign. |
| EventSchemas.ValidExactlyWhenEverythingFits | internal/trading/event_versioning.go:209-284 | The recursive validator accepts a value exactly when, at every path that a schema governs, none of eight things is wrong with the value there: type, length too short or too long, not listed, not a UUID, not an address, too small, too large. |
| EventSchemas.MisfitExists | internal/trading/event_versioning.go:209-284 | A refused value has a path at which one of them is wrong. |
| EventSchemas.DataValidExactlyWhen | internal/trading/event_versioning.go:176-206 | Event data is valid exactly when it is an object with every required field, and no field that has a schema is wrong anywhere inside. |
| EventMigrations.MigrateEvent | internal/trading/event_versioning.go:38-87 | The loop ends, keeps the event's identity, reaches at least the target, returns an event already there unchanged, and fails where the chain of upgraders does. |
| EventMigrations.ValidateEventCompatibility | internal/trading/event_versioning.go:90-103 | True exactly when every version from the first up to the target has an upgrader. |
| EventMigrations.MigrationMatchesCheck | internal/trading/event_versioning.go:38-103 | With upgraders that never fail, keep the type and go one version at a time, migration succeeds exactly when the check does, and reaches exactly the target; otherwise it names the first version without an upgrader. |
| EventMigrations.MigrationComposes | internal/trading/event_versioning.go:38-87 | Migrating to one version and then to a later one is migrating there directly, errors included. |
| EventMigrations.MigratesByChain | internal/trading/event_versioning.go:38-87 | Over any raising upgraders, the result is the end of a chain of single upgrades from the event: the first at or above the target, or the error of the first upgrade that cannot be made. |
| EventMigrations.UpgradeEvent | internal/trading/event_journal.go:89-102 | Over a finite registry of raising upgraders the loop ends at a version that has none. |
| EventMigrations.UpgradesByChain | internal/trading/event_journal.go:89-102 | The result is the end of a chain of upgrades, each by the upgrader of the version reached: the first version without one, or the first error. |
| EventMigrations.LatestIsStable | internal/trading/event_journal.go:89-102 | Upgrading an upgraded event changes nothing. |
| OrderPlaced.AddingAField | internal/trading/event_versioning.go:176-206 | Data valid under a schema, with a valid value put under a new required name, is valid under the schema with that field added, whatever it held there before. |
| OrderPlaced.DefaultRiskValid | internal/trading/event_schemas.go:88-108 | The risk assessment the upgrader puts in is valid under the version 2 field schema. |
| OrderPlaced.OrderAsks | internal/trading/event_schemas.go:55-64 | Which values the first schema accepts for each property of an order. |
| OrderPlaced.RiskAsks | internal/trading/event_schemas.go:87-93 | A risk assessment is accepted exactly if it is null, or an object whose score is from 0 to 100 and whose checks are strings, where given. |
| OrderPlaced.MigrateToTwo | internal/trading/event_schemas.go:97-121 | Migrating a version 1 event whose data is an object gives the event with the default risk assessment and its time cut to whole seconds. |
| OrderPlaced.OrderPlacedProcesses | internal/trading/event_versioning.go:374-396 | A version 1 event is processed to version 2 exactly when it is valid under version 1; the result is valid under version 2, and processing it again changes nothing. |
| OrderPlaced.OrderPlacedStopsAtTwo | internal/trading/event_versioning.go:374-396 | For any later target, a valid version 1 event stops at the missing upgrader of version 2. |
| OrderPlaced.ProcessedIsValid | internal/trading/event_versioning.go:374-396 | With any schemas and upgraders an event is let through exactly if it is valid and migrates to a valid one; the result is valid, not behind, the same event, and processing it again changes nothing. |
| EventReplay.ReplayConcat | internal/trading/event_replay.go:195-225 | Replaying two batches one after the other is replaying them as one, with the same first failure. |
| EventReplay.StopsExactlyWhen | internal/trading/event_replay.go:195-225 | A replay stops at the first event that fails, after all before it succeeded, and never if it is to go on after errors. |
| EventReplay.ReplayCounts | internal/trading/event_replay.go:195-225 | Processed and errored counts together grow by one for each event handled, the one that stops the run included. |
| EventReplay.ProcessLaws | internal/trading/event_replay.go:228-273 | An event fails exactly if it is invalid and such are not skipped, or neither its handler nor an error handler for its type takes it; it is the last one processed exactly if its own handler took it; and the engine afterwards is as the handler left it or, if that failed, as the error handler did. |
| EventReplay.AccountLaws | internal/trading/event_replay.go:205-222 | Exactly one of the two counters goes up by one, and with it the count of the event's type beside it. |
| EventReplay.TypesTally | internal/trading/event_replay.go:205-222 | Over a replay the two counts of a type grow together by the number of its events, the one that stops the run included. |
| EventReplay.HandlersSee | internal/trading/event_replay.go:195-257 | With handlers that write down what they are given, and invalid events skipped or not checked, the engine ends as what it was followed by exactly the events that have a handler, in journal order. |
| EventReplay.ScanReads | internal/trading/event_replay.go:280-326 | Reading takes all lines, or stops at the event that reaches the limit, or at the first malformed line if those are not skipped; its events are those of the lines read, in order. |
| EventReplay.FullIsDivision | internal/trading/event_replay.go:303-311 | The events waiting in the unfinished batch are the remainder of a division by the batch size. |
| EventReplay.BatchingIsInvisible | internal/trading/event_replay.go:276-341 | Batched replay hands over the same events as one at a time exactly when no malformed line ends the reading inside a batch; otherwise precisely the events of that batch are lost. |
| EventReplay.BatchedEqualsOneAtATime | internal/trading/event_replay.go:276-341 | With malformed lines skipped or absent, every batch size gives the same calls in the same order, the same statistics and the same first failure. |
| EventReplay.DueAtCommonMultiples | internal/trading/event_replay.go:304-318 | Checkpoints fall due exactly at the common multiples of batch size and interval. |
| EventReplay.EventReplayManager.ProcessEvent | internal/trading/event_replay.go:228-273 | An event is handed to its handler and, if that fails, to the error handler of its type; one that gets no handler leaves the engine and the last event alone, and is counted as skipped exactly if that is not a failure; one that gets a handler is never counted as skipped. |
| EventReplay.EventReplayManager.ReplayEventBatch | internal/trading/event_replay.go:195-225 | A batch is its events one at a time; the result names the first one that stops the run. |
| EventReplay.EventReplayManager.CreateCheckpoint | internal/trading/event_replay.go:425-455 | One attempt is added with the counts of the moment, and the counter of created checkpoints stays the number of attempts the store accepted. |
| EventReplay.EventReplayManager.CheckpointIfDue | internal/trading/event_replay.go:313-319 | One attempt is made exactly if the interval divides the count so far, with the counters and the last event of the moment. |
| EventReplay.EventReplayManager.HandleFullBatch | internal/trading/event_replay.go:306-319 | After a full batch nothing waits, and a checkpoint was attempted exactly if it was due, with the counters of the replay so far and the last event. |
| EventReplay.EventReplayManager.TakeEvent | internal/trading/event_replay.go:303-320 | An event read joins the unfinished batch, which is replayed exactly if that fills it. |
| EventReplay.EventReplayManager.HandleLastBatch | internal/trading/event_replay.go:329-334 | What is left at the end is replayed without a checkpoint. |
| EventReplay.EventReplayManager.TakeLine | internal/trading/event_replay.go:288-326 | One line of the journal ends the replay with the outcome for the whole journal, or reaches the limit so that nothing after it would be read, or leaves the reading one line further. |
| EventReplay.EventReplayManager.ReplayFromReader | internal/trading/event_replay.go:276-353 | The handlers see exactly the events to do, up to the first that stops the run; the checkpoints attempted, added to those before, are exactly where due, each with the last event up to there and the counters of the replay up to it; and the ending says which of the three ways it went. |
| Wal.AboveKeeps | persistence/wal.go:87-101 | A truncation keeps exactly the records above the bound, in order. |
| Wal.TruncationsCompose | persistence/wal.go:81-121 | Two truncations are one at the higher bound. |
| Wal.TruncatedMeans | persistence/wal.go:81-121 | A truncation that gets through leaves exactly the records above the bound, in order; one whose rewriting stops leaves the first of those. |
| Wal.FileStaysOrdered | persistence/wal.go:38-144 | Through any appends, truncations and reopenings, with faults, the records strictly increase and none exceeds the counter. |
| Wal.ReopenKeepsCounter | persistence/wal.go:123-144 | Reopening keeps the counter exactly when the newest number is still in the file; the next append is above every surviving record either way. |
| Wal.NumbersRise | persistence/wal.go:38-56 | As long as no number reported is above every surviving record whenever the log is reopened, the numbers reported strictly increase. |
| Wal.ReopenIsSafeExactlyWhen | persistence/wal.go:123-144 | Reopening and appending goes on with new numbers exactly if no number reported so far is above every record still in the file. |
| Wal.NumbersRiseExactlyWhen | persistence/wal.go:38-56 | Over any run, faults included, the numbers reported strictly increase exactly if no append succeeded while a number reported before was above the counter. |
| Wal.NumbersRestart | persistence/wal.go:123-144 | Truncating everything and reopening reports the number one twice. |
| Wal.FileWal.constructor | persistence/wal.go:24-36 | Opening sets the counter to the highest number in the file. |
| Wal.FileWal.Append | persistence/wal.go:38-55 | The counter moves in any case; the record is in the file unless the failure came before the write; only a success reports the number. |
| Wal.FileWal.Survivors | persistence/wal.go:87-101 | The decoding loop keeps exactly the records above the bound. |
| Wal.FileWal.Truncate | persistence/wal.go:81-121 | The file is rewritten with exactly the records above the bound, in order, or with the first of them if rewriting fails. |
| Wal.FileWal.Rewrite | persistence/wal.go:103-119 | Rewriting gets through, or stops after some first records. |
| WriteBuffers.AsyncWriteBuffer.Enqueue | persistence/async_write_buffer.go:40-54 | Logged first; buffered under the number the log gave, or not at all; a flush is signalled from `maxSize` on. |
| WriteBuffers.AsyncWriteBuffer.Flush | persistence/async_write_buffer.go:75-83 | The contents are copied out into a batch of their own and the buffer is empty. |
| WriteBuffers.BatchIsNotDisturbed | persistence/async_write_buffer.go:75-83 | A batch handed out stays what it was through any later enqueues and flushes, failures included, though the buffer reuses its array. |
| WriteBuffers.TakenMeans | persistence/batch_writer.go:44-51 | The database takes an accepted batch whole, and of a refused one the first part that it got to. |
| WriteBuffers.BatchWriter.Cycle | persistence/batch_writer.go:31-53 | A round with nothing in between empties the buffer; the database gets the whole batch if it accepts it, the part it took before failing if it does not, and nothing while the circuit is open. |
| WriteBuffers.BatchWriter.HandleWriteError | persistence/batch_writer.go:55-66 | With nothing in between: the backoff stays that of the errors in a row, and the circuit is opened from the sixth on. |
| WriteBuffers.BatchWriter.CloseCircuit | persistence/batch_writer.go:68-71 | With nothing in between: the circuit is closed and the backoff starts over. |
| CircuitBreaker.OpensAtSix | persistence/batch_writer.go:58-63 | With the backoff doubling from 100 to 5000 milliseconds, it reaches its maximum exactly at the sixth error in a row. |
| CircuitBreaker.RunSound | persistence/batch_writer.go:31-71 | Through every interleaving of the writer's and the resets' single loads and stores: the backoff counts the errors since the last success or reset it saw, an error is only handled while the circuit is closed, and six errors have opened it or a reset or the handler is still underway. |
| CircuitBreaker.CircuitExactlyWhen | persistence/batch_writer.go:55-71 | At rest, six errors have opened the circuit; that an open one has six errors to show holds exactly if no reset stored its backoff after the test that opened it. |
| CircuitBreaker.OverrunExactlyWhen | persistence/batch_writer.go:55-71 | The same by positions: at rest, open and six errors disagree exactly if some reset's second store comes after the last test passed, and no reset begins after the opening that follows. |
| CircuitBreaker.ResetsApart | persistence/batch_writer.go:55-71 | If no reset is half done while an error is handled, the circuit is open at rest exactly from the sixth error in a row on. |
| CircuitBreaker.CloseIsLost | persistence/batch_writer.go:55-71 | A run in which a reset falls between the test and the opening of the sixth error: the circuit ends up open with the first backoff and no error counted. |
| CircuitBreaker.HandlerAlone | persistence/batch_writer.go:55-66 | With nothing in between, the handler's accesses count one more error and open the circuit from the sixth on. |
| WritePipeline.EveryRun | persistence/async_write_buffer.go:40-83 | Invariant of every interleaving of enqueuers, the two steps of the buffer's loop, the writer's single accesses and the two stores of every reset: order, accounting, and the circuit as far as it survives. |
| WritePipeline.AccountedMeans | persistence/async_write_buffer.go:40-83 | Under that invariant, as multisets, what was enqueued is what the database, the losses, the writer and the buffer have together. |
| WritePipeline.FullIsSignalled | persistence/async_write_buffer.go:50-73 | In every interleaving a buffer that has reached its limit has a signal in the channel, or the loop has taken a tick or a signal and not flushed yet. |
| WritePipeline.LoopFlushesOnce | persistence/async_write_buffer.go:63-72 | The loop takes a signal only while it waits, flushes once for it, loses exactly what was buffered then, and without another signal does nothing more. |
| WritePipeline.BreakerRuns | persistence/batch_writer.go:31-71 | The circuit inside the pipeline is driven by those accesses alone, so all that is proved of its runs holds there. |
| WritePipeline.CircuitExactlyWhen | persistence/batch_writer.go:31-71 | At rest, six errors in a row have opened the circuit, and it is open without them exactly if a reset was overrun. |
| WritePipeline.RoundResult | persistence/batch_writer.go:31-53 | The writer's accesses in a row, with nothing in between, make the round of the object. |
| WritePipeline.FlushOrderIsHistory | persistence/async_write_buffer.go:40-83 | Batches in flush order followed by the buffer are what was enqueued, in increasing order. |
| WritePipeline.DatabaseIsSubsequence | persistence/batch_writer.go:31-53 | The database holds a subsequence of what was enqueued, each number at most once. |
| WritePipeline.LogMatchesHistory | persistence/async_write_buffer.go:40-54 | The log equals what was enqueued exactly when no sync failed; a failed sync leaves it longer. |
| WritePipeline.LostExactlyWhen | persistence/async_write_buffer.go:63-73 | A record is lost exactly when the buffer's loop flushed a non-empty buffer, or the writer found the circuit open with a batch in hand, or a write failed before the end of the batch. |
| WritePipeline.WriteStores | persistence/batch_writer.go:44-51 | A write that is accepted stores the whole batch and loses nothing; one that is refused stores its first part and loses the rest. |
| WriteService.Service.Enqueue | persistence/async_write_buffer.go:40-61 | An enqueue of the objects is the pipeline's step, failures included. |
| WriteService.Service.OnTick | persistence/async_write_buffer.go:66 | The loop taking a tick is the pipeline's step. |
| WriteService.Service.OnSignal | persistence/async_write_buffer.go:68 | A waiting loop takes the signal out of the channel, if there is one, and has not flushed yet; otherwise nothing changes. An enqueue that comes next can signal again. |
| WriteService.Service.FlushFromLoop | persistence/async_write_buffer.go:67-69 | The flush that follows is a step of its own, and what it takes is lost. |
| WriteService.Service.Turn | persistence/batch_writer.go:31-66 | Whatever access the writer makes next, on the fields as they are by then, is the pipeline's step. |
| WriteService.Service.BeginClose | persistence/batch_writer.go:69 | The first store of a reset is the pipeline's step, wherever the writer is. |
| WriteService.Service.EndClose | persistence/batch_writer.go:70 | So is the second. |
| WriteService.Service.WriterRound | persistence/batch_writer.go:31-53 | A whole round of the object with nothing in between is so many turns of the writer in a row. |
| WriteService.Service.CircuitMatches | persistence/batch_writer.go:55-71 | At rest, the object's backoff counts its errors and six of them have opened the circuit; it is open without them exactly if a reset was overrun. |
| WriteService.Service.CloseCircuit | persistence/batch_writer.go:68-71 | A whole reset with nothing in between is its two stores in a row. |
| WriteService.Service.DatabaseFollowsLog | persistence/batch_writer.go:31-53 | Whatever turns the objects took, the database followed by the buffer is a subsequence of the log file, in strictly increasing order. |
| DataMovement.MovingKeepsRows | internal/accounts/lifecycle_manager.go:528-608 | Moving rows between disjoint tables loses, changes and doubles none, and keeps them disjoint. |
| DataMovement.MovedMeans | internal/accounts/lifecycle_manager.go:528-608 | Row by row: what has moved is below the threshold, gone here and there as it was; every other row is where and what it was. |
| DataMovement.NoneLeft | internal/accounts/lifecycle_manager.go:386-443 | All rows below the threshold have moved exactly if none is left here. |
| DataMovement.DataLifecycleManager.SelectOldest | internal/accounts/lifecycle_manager.go:408-414 | A batch holds the oldest rows below the threshold: as many as the limit and the cursor allow, or all of them. |
| DataMovement.BatchMoved | internal/accounts/lifecycle_manager.go:528-608 | A round after full batches moves as many rows as its cursor delivers of what the query selects, which is the batch size or, if fewer, the old rows at the start less the full batches; a short one leaves none exactly if the cursor delivered all of that. |
| DataMovement.DataLifecycleManager.ProcessBatch | internal/accounts/lifecycle_manager.go:528-608 | The rows of a batch are inserted there and deleted here in one, and counted. |
| DataMovement.DataLifecycleManager.ArchiveRound | internal/accounts/lifecycle_manager.go:404-443 | One round of the loop ends it in one of the three ways, or has moved a full batch and counted it. |
| DataMovement.DataLifecycleManager.PerformArchival | internal/accounts/lifecycle_manager.go:386-443 | The loop ends. At every exit some rows below the threshold have moved unchanged and all others stayed, the counter is their number, and every round before the last moved a full batch. On success the last round moved as many as its cursor delivered of what was left to select, a number fixed by the rows at the start, and all rows below the threshold have moved exactly if it delivered that many. |
| DataMovement.CopyTableData | internal/accounts/migration_manager.go:620-665 | For any positive batch size, a finished copy has appended every row once in order, and one that stopped has appended the full pages of the rounds before the first in which it was cancelled or failed, and names which. |
| LatencyStats.SortByExchanges | internal/accounts/benchmarking_framework.go:677-684 | The exchange sort gives a sorted permutation. |
| LatencyStats.FiguresInOrder | internal/accounts/benchmarking_framework.go:686-702 | Minimum, percentiles and maximum come in order, and the average lies between the extremes. |
| LatencyStats.ReadOffDescribes | internal/accounts/benchmarking_framework.go:686-702 | The figures read off a sorted permutation are those of the measurements: least, greatest, mean without its fraction, and percentiles, such that no more than p in a hundred measurements are below and more than p are not above. |
| LatencyStats.CalculateLatencyStats | internal/accounts/benchmarking_framework.go:665-702 | Every index is in range for any measurements, the figures are the measurements' least and greatest, mean and percentiles, and there are none for none. |

## Left out

- AccountRepository.Repository.UpdateBalanceAtomic: a database error other than a lost race is not modelled; failed commits are, in LedgerSessions.ExactlyOnce.
- AccountRepository.Repository.ExecuteCommand: of the validation only the positive amount is modelled; empty identifiers, currencies, types and keys are refused before anything happens.
- LedgerSessions.ReleaseNeverShort: plain updates that lower the locked total are excluded, because such an update can take locked funds that a reservation counts on; Ledger.ReleaseFailsExactlyWhen gives the exact condition for one release.
- HotCaches.HotCache.Set: size estimation is a parameter, so memory means the sum of the estimates.
- ReadPath.AnswersAgree: commands and queries run one at a time here; FillRace.StaleExactlyWhen treats the interleavings. A read replica behind the primary is not covered.
- QueryHandlers.AccountHandler.ExecuteGetAccount: the account exists; for a missing one the database's error is returned and nothing is cached. The same goes for QueryHandlers.AccountHandler.ExecuteGetBalance.
- FillRace.StaleExactlyWhen: values are told by their version alone; the balance hash that an update writes between its commit and its clearing, and that a short read writes back, is not covered. Clients may take their steps in any order, which covers the order the queries take them in.
- Rebalance.ShardManager.CreateMigrations: load factors are exact, so floating-point rounding and the cut of a huge product to 64 bits are not covered.
- EventReplay.EventReplayManager.ReplayEventBatch: cancellation between events is not modelled.
- EventReplay.EventReplayManager.ReplayFromReader: cancellation between lines and a reader that fails after the last line are not modelled; an interval of 0 is required away, since the code divides by it.
- DataMovement.DataLifecycleManager.PerformArchival: identifiers are unique across both tables and no one else writes; a batch size of 0 is required away, because the loop would not end.
- DataMovement.CopyTableData: the source does not change during the copy, and the batch size is positive, because the loop would not end otherwise.
- LatencyStats.CalculateLatencyStats: percentile positions are exact, where the code multiplies floating-point numbers.
- EventMigrations.MigrateEvent: upgraders that do not raise the version are required away, because the loop need not end.
- Wal.FileWal.Append: a write that stops inside a record, after which the file cannot be decoded, is not modelled.
- Wal.FileWal.Truncate: nor is one while rewriting, or a file that cannot be decoded to begin with, which is left as it is.
- WritePipeline.EveryRun: one batch writer; several would race for the backoff.
- WriteBuffers.BatchWriter.Cycle: sleeping between rounds, alerts and metrics.
- Creating an account, which is cached but never stored, and the direct call that updates a balance with an empty idempotency key, which validation refuses.
- EventStore.Store.FlushEvents: an event whose payload cannot be encoded is not modelled.
- EventStore.Store.PublishEvent: publishers and the background flush take turns; two flushes that overlap can store their batches in either order.
- Notifying event subscribers, and snapshots, of which none is ever made (EventStore.Store.RebuildFromStore).
- Account partitions: the account table is one map. The partition lookup is keyed differently from the map it looks in.
- Resuming replay from a checkpoint: the reader's position afterwards is not the checkpoint's line.
- The schemas of the other event types; the validator covers them, as its schema is a parameter. In-memory events carrying Go values that JSON decoding never yields.
- Rolling migrations, whose placeholder batch is always full, so the loop has no end; purging, which deletes in the same way archival does.
- Machine integers: versions, sequence numbers and counters do not overflow in the model.
- Deciding whether a rebalance is needed, estimating its duration, and carrying it out.
- Hit and eviction rates, metrics, logs, audit queues, health checks, HTTP, Kafka and WebSocket code.
- The matching engine, order book and settlement packages, which are not part of this model.
