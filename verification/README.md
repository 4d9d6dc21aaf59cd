# A verified model of the database service

The repository is a database proxy: clients issue commands over a protocol buffer connection, a service
spreads them over worker threads, and each worker keeps a write-back cache of rows in front of MySQL. This
project models the parts that carry state or do real computation, in Dafny, and proves what they promise.

| Files | Part |
|---|---|
| `CacheModel`, `CacheStore`, `DbCache`, `DbCacheMgr` | the write-back row cache: cache objects, the manager with its two aliasing maps, type numbers and byte counts |
| `Lines`, `Database`, `DbThread` | the table behind the cache, rows as texts, and the worker that consults the cache around every command |
| `WriteThrough`, `Coherence`, `DirtyTracking`, `Serializer` | the cached table against a table without a cache |
| `Effects` | what each step does to the cache, to the table and to the client, spelled out |
| `Service` | several workers, each with a cache, on one table |
| `Shortfalls`, `Instances` | where the cache is noticed, and by which input |
| `Sessions`, `DbProxy` | the client-side request tracker: its protocol, and its three indexes |
| `Routing`, `DbThreadMgr` | routing by associate id, worker queues, the list of results |
| `Bits`, `Varint` | the base-128 code of 64-bit words |
| `Decimal`, `Messages`, `Columns` | messages to columns and columns to messages |
| `Statements` | the insert-or-update statement |
| `Placeholders` | the numbered holes of a where clause |

Classes with mutable fields follow the source's classes; each method is proved against a specification
function of the old state, and the theorems are about those functions. `CacheManager.State` maps the
manager's objects (two maps of shared references, serialized rows by type number) to a value, `World`: the
resident rows, what the dirty map holds, and the table. An entry of the dirty map is `Same` when it is the
resident cache object itself and `Stale` when it is an object that is resident no more.

The main results:

* **The cache cannot be noticed.** `StepCoherent`: a command keeps the cached table coherent with the table of a
  worker without a cache, and tells the client the same code, message or rows as that worker, if and only if it
  is safe, for every command and every state. Safe is a condition on the state before the command, spelled out
  in `WriteThrough.Safe`. `WriteBackSimulatesWriteThrough`: in every safe run, the table overlaid with the
  unsaved rows is the table without a cache. `CachedRunAgrees`: over any number of rounds of safe commands,
  whatever is evicted and written back in between, a worker with a cache gives the same answers as one without.
* **Many workers.** `ServiceStepCoherent`, `ServiceSimulatesWriteThrough`: commands on a row go to the worker that
  the low 32 bits of its id select, so no two caches hold a row; the caches taken as one are coherent with the one
  table if and only if each is; and a service of any number of workers, in whatever order they take turns, is
  coherent with one table without a cache, and tells clients the same, under the same exact conditions.
* **Dirty tracking.** `StepTracked`, `RunTracked`: on any run, safe or not, a row overwritten in the cache and
  not sent since is resident, carries a time, and its very cache object is in the dirty map; the only step
  that breaks this is a throttled flush of everything.
* **Sessions.** `RunConserves`, `NeverCalledAgain`, `TimerIsExact`: every session issued is waiting, called
  back once, or cancelled; and the tracker's three indexes represent that state after every event.
* **What a step does.** `WritebackIsExact`, `EvictIsExact`, `FlushKeyIsExact`: which rows reach the table, at which
  second, and which cache objects stay. `InsertIsTold`, `UpdateIsTold`, `SelectIsTold`, `QueryIsTold`: each code
  against what the table holds before and after. `OneMoreRequest`: which commands of a batch are dropped, handled and
  answered. `RunAccounted`: every call that the tracker makes goes back to an answer, with its code and content, or
  to a timer whose time had come.
* **Codecs.** Round trip, shortest code and prefix freedom of the varint code; columns rebuild messages;
  statements read back, and carry the message they were made from; replacing holes one after the other is
  simultaneous substitution.

The table holds texts. A row maps column names to texts: those that the write path makes of a message's set
fields, and in the columns that no statement has named yet defaults, which the schema gives and which are
arbitrary except for the key column. A select reads the texts back through the source's own path, each up to its
first NUL (db_service/src/db_protobuf.cpp:639), and fails when one cannot be read. How doubles are printed and
read is arbitrary, so nothing is assumed to survive. Rows are keyed by the signed primary key, as in MySQL; the
cache, and the commands that name a row, know ids as unsigned 64-bit words.

What safe means, in short: a cached row that is selected again must have every field set, and the table must have
its very columns unless it is unsaved; an update must leave no field unset that is not at its default already, and
an updated or inserted row must read back as itself (`ReadsBackExactly` says when it does); the key must not be
negative; an insert must not meet a row, or an absent row's empty message, that only the cache has; a delete must
not meet a row that a dropped cache object still holds; a query must not find, or miss, an unsaved row by its old
columns.

These theorems take a schema that is `Total`: every field is optional and of a type that the source copies and
stores, and every message of the table types serializes and parses back. `TotalSchemaExists` constructs such a
schema for every pool of such types, with doubles, floats and nested messages among the fields, and for every way
to print and read doubles and floats.

## Where the code falls short

Each of these is a property one would expect and that the code does not have. Where it can be had under a
condition on the input, the condition is exact.

* An update of a row that is not cached is taken by the cache as if it came from the table, and never
  written (db_service/src/db_cache_mgr.cpp:87-88, db_service/src/db_cache.cpp:67-69): `MissedUpdateIsLost`.
* The answer to a select goes into the cache on a hit, too (db_service/src/db_thread.cpp:137-147). That
  overwrites the row with itself, unset fields set to their defaults. An absent row selected twice is later
  inserted as a blank row under the default key: `AbsentRowIsInserted`. A row selected twice is written back as it
  was read, so two reads and a flush change a table whose row has a text with a NUL or a double that its six digits
  do not give back: `ReadsAreWritten`, and `RereadCuts` for an input. `SelectCoherent` has the exact condition.
* An insert is served from the cache as the client sent it. A select of the table would answer something else
  when the table refused the insert for a different row, when a field was left unset, since a select sets every
  column (db_service/src/db_protobuf.cpp:636-655), or when a text does not survive: `InsertIsServed`,
  `InsertCoherent`, and `InsertCuts` for an input. The same holds of an update (`UpdateCoherent`).
* A negative key is a large number in the cache (db_service/src/db_thread.cpp:193-206). A select of that number is
  answered from the cache, while the table has no such row: `NegativeIdIsMissed`.
* A query goes past the cache (db_service/src/db_command_query_handler.cpp:56), so it does not see unsaved rows:
  `QueryMissesUpdate`, and `QueryAnswered` for the exact condition.
* An update with no field set is a statement that MySQL refuses; of a cached row the cache takes it all the same
  (the second clause of `SafeUpdate`, exact by `UpdateCoherent`).
* After a flush of one id the dirty map still holds its cache object
  (db_service/src/db_cache_mgr.cpp:217-225). A row deleted after that comes back: `FlushedRowReturns`,
  `DeleteCoherent`.
* A flush of everything goes through the throttled write-back and then drops all cache objects
  (db_service/src/db_cache_mgr.cpp:228-229): `ThrottledFlushForgets` loses an update, `FlushAllCoherent` has the
  exact condition. It is throttled exactly when the time of the last write-back, in seconds since 1970, is below
  the write-back period (`ThrottledExactly`), so with today's clocks a period above about 1.7e9 seconds.
* The elapsed time is subtracted the wrong way round. In `writeback` that leaves the period without effect: with
  a clock that moves forward only a second pass within the same second is held back (`ThrottledExactly`). In
  `cleanCache` no second eviction happens while the clock does not go back (the last clause of `CleanCache`).
* A stored message comes back from its row exactly when all its fields are set and every text survives: a text is
  cut at its first NUL (db_service/src/db_protobuf.cpp:639), a double is printed with six digits
  (db_service/src/db_protobuf.cpp:207-214). `RowRebuildsExactly`, and `RowsLose` for inputs.
* An answer that arrives without content reaches its caller as a protocol error, whatever its code
  (db_common/db_proxy.cpp:475-480): `AnswerIsExact`. The worker puts no content into the answer to an update, an
  insert, a delete or a failure (db_service/src/db_thread.cpp:153-163; `UpdateIsTold`, `InsertIsTold`,
  `DeleteIsTold`). How the transport sends such an answer is not part of this model.
* Destroying a client that has a pending nop erases the end of the deadline list (db_common/db_proxy.cpp:507):
  `DestroyDefinedExactly`, and `PendingNopBlocks` for a run.
* Replacements interfere when what stands before a hole, earlier arguments included, contains the hole's text:
  `BracesInterfere` for an input, `InTurnExactly` for the exact condition.

## Model

The worker's source file, db_service/src/db_thread.cpp, is not plain UTF-8 text. Rows about it cite the
declarations in its header and give the lines of the bodies in words.

| member | source | states |
|---|---|---|
| Coherence.WriteBackSimulatesWriteThrough | db_service/src/db_cache_mgr.cpp:82-231 | In every safe run from an empty cache, at every moment the table with the texts of the unsaved rows over it is the table to which every write was applied at once, every unsaved row is tracked, every select and every next command is answered as it would be without the cache. |
| Coherence.StepCoherent | db_service/src/db_cache_mgr.cpp:67-254 | Every select, update, insert, delete, query, flush, eviction and write-back keeps cache and table coherent with the write-through table, and tells the client the same code and content, if and only if it is safe, a condition on the state before it. |
| Coherence.SelectCoherent | db_service/src/db_cache_mgr.cpp:67-106 | A select answers what the write-through table answers, a failure to read included; it keeps coherence if and only if the row is not cached, or the cached row has every field set and is unsaved or has the very columns of the table. |
| Coherence.UpdateCoherent | db_service/src/db_cache.cpp:65-163 | An update with a field set keeps coherence if and only if its key is one that a select can name and, for a cached row, each column that it leaves unset has the text of its default in the row that the table would start from and the filled row reads back as itself, and, for a row that is not cached, it changes nothing and is what a select answers. |
| Coherence.InsertCoherent | db_service/src/db_cache_mgr.cpp:108-130 | An insert keeps coherence, and gets the same code, if and only if, under an id without a cache object, the key is not negative and the table's row reads, or will read, exactly as the message, and, under an id with one, the cache does not hold the row unless the table does. |
| Coherence.DeleteCoherent | db_service/src/db_cache_mgr.cpp:132-154 | A delete keeps coherence if and only if the dirty map does not hold the row in a cache object that was dropped. |
| Coherence.EvictCoherent | db_service/src/db_cache_mgr.cpp:184-190 | Evicting any id loses no write: its overwritten rows reach the table, and what remains is still coherent. |
| Coherence.WritebackCoherent | db_service/src/db_cache_mgr.cpp:193-210 | A pass over the dirty map, whatever is due, keeps coherence and takes exactly the rows sent out of the unsaved ones. |
| Coherence.SendCoherent | db_service/src/db_cache.cpp:182-224 | Writing back any set of overwritten rows keeps coherence; a row that was saved before is sent again without changing the table. |
| Coherence.FlushKeyCoherent | db_service/src/db_cache_mgr.cpp:217-225 | Flushing one id keeps coherence, although its cache object stays in the dirty map. |
| Coherence.FlushAllCoherent | db_service/src/db_cache_mgr.cpp:226-230 | Flushing everything keeps coherence if and only if its write-back is not throttled or nothing is unsaved. |
| Coherence.FlushCompletes | db_service/src/db_cache_mgr.cpp:226-230 | After an unthrottled flush the table is the write-through table, and the cache and the dirty map are empty. |
| Coherence.PassAt | db_service/src/db_cache_mgr.cpp:203-209 | When rows are filed under their primary keys, a pass over the dirty map writes exactly the due rows, each to its own key, so that the order of the map does not matter. |
| Coherence.FilledIsUpdate | db_service/src/db_cache.cpp:92-150 | What is written of the copy of all fields is what an update of the set columns leaves if and only if each column of an unset field had the text of its default. |
| Coherence.QueryAnswered | db_service/src/db_command_query_handler.cpp:42-68 | A query of any type with any condition on rows finds the same rows in the table as in the write-through table if and only if each unsaved row of that type is found in neither, or found in both and read the same there; or some other row that is found cannot be read. |
| Effects.WritebackIsExact | db_service/src/db_cache.cpp:182-224 | From any coherent state, a write-back that is not held back leaves in the table every unsaved row that was overwritten at least one second before, or, at time 0, every one, and no other row changes; a cache object stays in the dirty map if and only if a row of it was overwritten less than one second before. |
| Effects.ThrottledDoesNothing | db_service/src/db_cache_mgr.cpp:193-199 | A write-back within the period, in unsigned 64-bit arithmetic, changes nothing. |
| Effects.EvictIsExact | db_service/src/db_cache_mgr.cpp:184-190 | The victim is in neither map afterwards; each of its rows that was ever overwritten is in the table under its key, and no other row, cache object or dirty entry changes. |
| Effects.FlushKeyIsExact | db_service/src/db_cache_mgr.cpp:217-225 | A flushed id is not resident afterwards, while its cache object stays in the dirty map if it was there; its overwritten rows are in the table, and nothing else changes. |
| Effects.FlushOfNothing | db_service/src/db_cache_mgr.cpp:219-221 | A flush of an id without a cache object changes nothing. |
| Effects.ThrottledFlushDrops | db_service/src/db_cache_mgr.cpp:226-230 | A flush of everything that is held back sends nothing, empties the resident map and keeps what the dirty map holds. |
| Effects.SelectFills | db_service/src/db_thread.h:40-41 | `onPreCache` and `onPostCache`, lines 175-188 and 237-248: after an answered select the row is cached, on a miss as it was answered and without a time, on a hit filled and marked; the table, other rows and, after a failure, the cache stay. |
| Effects.UpdateFills | db_service/src/db_thread.h:40-40 | `onPreCache`, lines 190-203: an update is in the cache afterwards and not in the table, filled and marked with the time if the row was cached, otherwise as it is; the client is told success. |
| Effects.InsertFills | db_service/src/db_thread.h:40-40 | `onPreCache`, lines 205-219: an insert is cached as it is if its id has no cache object, and goes to the table in any case. |
| Effects.DeleteClears | db_service/src/db_cache_mgr.cpp:132-154 | A delete takes its row out of cache and table, and no other. |
| Effects.GoesPastTheCache | db_service/src/db_thread.h:40-40 | `onPreCache`, lines 196-198 and 211-213: a message that does not serialize changes the table only. |
| Effects.RefusedOverwrite | db_service/src/db_cache.cpp:92-163 | An update of a cached row that cannot be copied, or whose copy does not serialize, leaves the cache and goes to the table. |
| Effects.FailedAddLeaves | db_service/src/db_cache_mgr.cpp:108-130 | A row that does not serialize is not cached and leaves an empty cache object under its id. |
| Effects.InsertIsTold | db_service/src/db_command_insert_handler.cpp:21-81 | The client is told success if and only if the row was not in the table and is afterwards, the MySQL error if and only if it was, the protocol error if and only if no statement can be made; on success the row has the text of each set field and the default in every other column; otherwise the table is as before. |
| Effects.UpdateIsTold | db_service/src/db_command_update_handler.cpp:21-105 | The client is told success if and only if a statement can be made and sets something, and then each set column has its text, every other column what it had, or the default in a new row; otherwise the table is as before. |
| Effects.DeleteIsTold | db_service/src/db_command_delete_handler.cpp:23-50 | The row is gone, no other is, and the client is told success, whether it was there or not. |
| Effects.SelectIsTold | db_service/src/db_command_select_handler.cpp:23-59 | The client is told the empty message when there is no row, what each column reads as when all can be read, and otherwise the protocol error; the table stays. |
| Effects.QueryIsTold | db_service/src/db_command_query_handler.cpp:53-68 | The client is told exactly the rows of the type that meet the condition, each as a select reads it, or the protocol error when one cannot be read; the table stays. |
| Effects.CacheIsTold | db_service/src/db_thread.h:40-40 | `onPreCache`, lines 175-188: a select of a cached row is told that row; any other select, and every insert, delete and query, what the table tells. |
| Effects.KeyedIsExact | db_service/src/db_protobuf.cpp:461-508 | A type has an integer key if and only if the field named as its key is of one of the four integer kinds. |
| Effects.PrimaryIdIsExact | db_service/src/db_protobuf.cpp:461-508 | The key of a message is that field's value, and 0 when it is unset. |
| Effects.CopyIsExact | db_service/src/db_cache.cpp:99-150 | A copy has every field: a set one unchanged, an unset one as 0, the empty text or the empty message of its type. |
| Shortfalls.MissedUpdateIsLost | db_service/src/db_cache.cpp:67-69 | An update of a row that is not cached never reaches the table: a complete flush leaves the table as if there had been no update, which is right if and only if the update sets nothing or writes the texts that are there. |
| Shortfalls.AbsentRowIsInserted | db_service/src/db_cache.cpp:65-163 | An absent row selected twice is inserted by the next flush, blank and under the default primary key. |
| Shortfalls.FlushedRowReturns | db_service/src/db_cache_mgr.cpp:217-225 | An unsaved row whose id is flushed and which is then deleted is inserted again by the next write-back. |
| Shortfalls.InsertIsServed | db_service/src/db_cache_mgr.cpp:108-130 | An insert under an id without a cache object is answered from the cache as it was sent; the table would answer the same if and only if the key is not negative and it refused the insert for a row that reads the same, or took it with every field set and each text surviving. |
| Shortfalls.ReadsAreWritten | db_service/src/db_cache.cpp:65-163 | A row selected twice and flushed is in the table with the texts of the message that was read, whatever texts it had. |
| Shortfalls.QueryMissesUpdate | db_service/src/db_command_query_handler.cpp:56-65 | For every unsaved row whose columns are not in the table there is a condition under which a query finds just that row without the cache and nothing with it. |
| Instances.InsertCuts | db_service/src/db_protobuf.cpp:639-639 | A player inserted into an empty cache and table is answered from the cache with its whole name, from the table with the name up to its first NUL; the insert is safe if and only if the name has none. |
| Instances.RereadCuts | db_service/src/db_protobuf.cpp:639-639 | Two selects of a player and a flush leave the name up to its first NUL in the table; the second select is safe if and only if the name has none. |
| Instances.NegativeIdIsMissed | db_service/src/db_protobuf.cpp:461-508 | A player inserted under a negative id is answered from the cache under that id modulo 2^64, where the table has no row. |
| Shortfalls.ThrottledFlushForgets | db_service/src/db_cache_mgr.cpp:226-230 | A row is selected, written back, overwritten and flushed under a period above the clock: a select answers the old row, and after two selects the update is neither in the table nor in the cache nor in the dirty map. |
| Shortfalls.ThrottledExactly | db_service/src/db_cache_mgr.cpp:193-201 | With a clock that does not go back the write-back is held back if and only if the last one was in the same second and the period is positive; a flush if and only if the last write-back time is positive and below the period. |
| DirtyTracking.StepTracked | db_service/src/db_cache_mgr.cpp:82-231 | From any sound state every event keeps rows sound, and keeps each row overwritten since it was last sent resident, marked with a time, and its cache object in the dirty map, unless the event is a throttled flush of everything with rows unsaved. |
| DirtyTracking.RunTracked | db_service/src/db_cache_mgr.cpp:82-231 | The same for every state of every run from an empty cache. |
| DirtyTracking.DroppedWasSent | db_service/src/db_cache_mgr.cpp:203-209 | A cache object leaves the dirty map only when each of its overwritten rows has just been sent, and then each is in the table. |
| DbThread.CachedAnswersAgree | db_service/src/db_thread.h:37-42 | `onProcess`: while its commands are safe, a caching worker answers a batch, queries included, as a worker without a cache does, code and content, and stays coherent with that worker's table. |
| DbThread.CachedRunAgrees | db_service/src/db_thread.h:37-42 | The same for any number of rounds, each with any eviction and a write-back before its batch. |
| DbThread.OneMoreRequest | db_service/src/db_thread.h:37-37 | `onProcess`, lines 120-151: a request with a session whose deadline is set and not after the current time is dropped without an answer; any other is handled, and answered once, with its session, if it has one and is no flush; a flush and a request without a session are handled whatever their deadline. |
| DbThread.OneMoreRound | db_service/src/db_thread.h:37-37 | `onProcess`: another round starts from the state that the rounds before left, and its answers follow theirs. |
| DbThread.RoundIsExact | db_service/src/db_thread.h:37-37 | `onProcess`, line 102: a caching worker's batch meets the state after the eviction and the write-back; without a cache it meets the state as it is. |
| Service.DispatchedHome | db_service/src/db_thread_mgr.cpp:49-58 | A command with the low 32 bits of an id as its associate id goes to the worker of that id and to no other. |
| Service.PartCoherent | db_service/src/db_thread_mgr.cpp:27-34 | When the caches of a service, taken as one, are coherent with the table, each worker's cache is, with the rows of the others as they are in the table. |
| Service.WholeCoherent | db_service/src/db_thread_mgr.cpp:27-34 | The converse: when each worker's cache is coherent, the caches taken as one are. |
| Service.ServiceStepCoherent | db_service/src/db_thread_mgr.cpp:49-75 | A command, flush or round of the cache's own work of any worker keeps the whole service coherent with one write-through table, and tells the client the same, if and only if it is safe: for a query with regard to the unsaved rows of all workers, otherwise with regard to its own worker's cache. |
| Service.ServiceSimulatesWriteThrough | db_service/src/db_thread_mgr.cpp:27-75 | In every safe run of any number of workers in any order of turns, at every moment no row is in two caches, the worker of each row answers a select of it as one write-through table does, and the next command is answered as by that table. |
| DbThread.Worker.Handle | db_service/src/db_thread.h:37-42 | `onProcess`, lines 116-147 of the source file: a command changes cache and table as the specification's step does, with a cache or without, and gives the code and the answer it should. |
| DbThread.Worker.Serve | db_service/src/db_thread.h:37-37 | `onProcess`, lines 116-165: a batch is handled in order; expired commands are dropped; each other command with a session gets one answer, in order. |
| DbThread.Worker.Round | db_service/src/db_thread.h:37-37 | `onProcess`, lines 102-165: a round is the cache's own work followed by the batch. |
| DbThread.Worker.OnPreCache | db_service/src/db_thread.h:40-40 | `onPreCache`, lines 168-230: which commands the cache alone answers, and what it holds after. |
| DbThread.Worker.OnPostCache | db_service/src/db_thread.h:41-41 | `onPostCache`, lines 232-250: the answer to a select, from wherever it came, is put into the cache when it serializes; a failed select puts nothing there. |
| DbCacheMgr.CacheManager.constructor | db_service/src/db_cache_mgr.cpp:12-38 | A new manager has an empty cache and counts no bytes. |
| DbCacheMgr.CacheManager.GetDataId | db_service/src/db_cache_mgr.cpp:40-56 | A type name gets a number of its own, the tables stay each other's inverse, and no cached row changes. |
| DbCacheMgr.CacheManager.GetData | db_service/src/db_cache_mgr.cpp:67-80 | The row last put under the id and type, or none; the state is unchanged. |
| DbCacheMgr.CacheManager.SetData | db_service/src/db_cache_mgr.cpp:82-106 | The new cache and the result are those of the specification; the resident object itself enters the dirty map; the byte count stays exact, also when it fails. |
| DbCacheMgr.CacheManager.AddData | db_service/src/db_cache_mgr.cpp:108-130 | A row is added only under an id without a cache object; when it does not serialize the empty cache object stays. |
| DbCacheMgr.CacheManager.DelData | db_service/src/db_cache_mgr.cpp:132-154 | The row of the id and type leaves the cache, nothing else does, and the byte count stays exact. |
| DbCacheMgr.CacheManager.CleanCache | db_service/src/db_cache_mgr.cpp:156-191 | Under exactly the guards of the source one victim leaves both maps and is written back; with a clock that does not go back nothing is evicted a second time. |
| DbCacheMgr.CacheManager.Writeback | db_service/src/db_cache_mgr.cpp:193-210 | Unless throttled, in 64-bit unsigned arithmetic, the due rows of the dirty map are written in ascending order of id, and only the objects with rows still to write stay in it. |
| DbCacheMgr.CacheManager.FlushCache | db_service/src/db_cache_mgr.cpp:212-231 | One id or all are written back and leave the resident map only; the byte count stays what it was. |
| DbCacheMgr.CacheManager.Update | db_service/src/db_cache_mgr.cpp:248-254 | An eviction, if any, and then a write-back at the same time. |
| CacheStore.NamedKeeps | db_service/src/db_cache_mgr.cpp:40-56 | Numbering a new type changes no row that the cache stands for, and the two name tables stay inverse. |
| CacheStore.ReplacedKeeps | db_service/src/db_cache_mgr.cpp:94-103 | Replacing one cache object's entries changes exactly that object's rows, in both maps when they share it, and keeps the manager's byte count the sum over the resident objects plus what flushes dropped. |
| CacheStore.EvictedKeeps | db_service/src/db_cache_mgr.cpp:187-189 | The same for an object that leaves both maps. |
| CacheStore.DroppedKeeps | db_service/src/db_cache_mgr.cpp:217-230 | The same for objects that leave the resident map only and may stay in the dirty map. |
| CacheStore.BytesAreExact | db_service/src/db_cache_mgr.cpp:96-101 | The manager's byte count is the sum of the lengths of all entries of all resident cache objects, plus what flushes dropped. |
| DbCache.CopyFields | db_service/src/db_cache.cpp:92-150 | The copy sets every field, set in the source or not, and fails exactly when a field type cannot be copied. |
| DbCache.RowCache.GetData | db_service/src/db_cache.cpp:24-45 | The parsed entry, or none when there is no entry or no such type. |
| DbCache.RowCache.AddData | db_service/src/db_cache.cpp:47-63 | A new entry without a time, and the byte count is the sum of the entries' lengths. |
| DbCache.RowCache.SetData | db_service/src/db_cache.cpp:65-163 | An entry becomes the filled message with the current time; a missing one is added without a time; the byte count is the sum of the entries' lengths. |
| DbCache.RowCache.DelData | db_service/src/db_cache.cpp:165-175 | The entry and its bytes go; a missing one changes nothing. |
| DbCache.RowCache.Writeback | db_service/src/db_cache.cpp:182-224 | Exactly the due rows are in the table afterwards, each under its primary key, and the result says whether an overwritten row is not due yet. |
| Serializer.TotalSchemaExists | db_service/src/db_cache.cpp:99-150 | For every pool of table types whose fields are optional and of types that the source copies and stores, and however doubles and floats are printed and read, there is a schema that meets the hypotheses of the theorems. |
| Lines.UpdateWhole | db_service/src/db_command_update_handler.cpp:22-83 | Insert-or-update with a whole message leaves its texts as the row and nothing of the row before. |
| Lines.StorableExactly | db_service/src/db_protobuf.cpp:319-405 | What the table asks of a message that is written is exactly what makes the loop over its fields succeed. |
| Lines.NewRowReads | db_service/src/db_protobuf.cpp:612-658 | A new row reads as the message that was inserted if and only if that has every field set and reads back as itself. |
| Sessions.ScheduleUnique | db_common/db_proxy.h:61-67 | There is only one list of given timed sessions in order of deadline, later sessions first. |
| Sessions.RunConserves | db_common/db_proxy.cpp:454-542 | After every run the sessions issued are the waiting, the called and the cancelled ones, without overlap; each call is the only one for its session and carries the context it was issued with. |
| Sessions.NeverCalledAgain | db_common/db_proxy.cpp:454-542 | A session that was answered, timed out or cancelled is never called back again by any later event. |
| Sessions.HistoryGrows | db_common/db_proxy.cpp:454-542 | Calls and cancellations of a run are kept by every longer run. |
| Sessions.StrayAnswerIgnored | db_common/db_proxy.cpp:454-465 | A late or duplicate answer, one to a session never issued, and one to session 0 change nothing. |
| Sessions.TimerIsExact | db_common/db_proxy.cpp:519-542 | The timer ends exactly the timed sessions whose deadline has come and leaves the others as they are. |
| Sessions.TimerCallsInOrder | db_common/db_proxy.cpp:519-542 | It calls each of them once, in nondecreasing order of deadline. |
| Sessions.IssueIsExact | db_common/db_proxy.cpp:108-144 | An issued session waits under the next number with what it was issued with; no other session changes and nobody is called. |
| Sessions.AnswerIsExact | db_common/db_proxy.cpp:454-489 | An answer to a waiting session makes one call, to that session's function and with its context: with the answer's code and content when the content parses, otherwise with the protocol error and no content; the session waits no more and nothing else changes. |
| Sessions.DestroyIsExact | db_common/db_proxy.cpp:491-512 | Destroying a client cancels exactly its waiting sessions, without a call. |
| Sessions.RunAccounted | db_common/db_proxy.cpp:454-542 | After every run sessions are numbered from 1 in the order they were issued and keep what they were issued with; every call was made by an answer to its session with that answer's code and content, or by a timer that had reached its deadline, with the time-out code and no content; every cancelled session's client was destroyed. |
| Sessions.DestroyDefinedExactly | db_common/db_proxy.cpp:491-512 | A client may be destroyed if and only if every nop it issued is finished. |
| Sessions.PendingNopBlocks | db_common/db_proxy.cpp:409-434 | After any run, a client that has just issued a nop may not be destroyed. |
| DbProxy.Tracker.IssueTimed | db_common/db_proxy.cpp:108-144 | Issuing enters all three indexes, with the list still the sorted schedule of the timed sessions, and a refused call changes nothing. |
| DbProxy.Tracker.Nop | db_common/db_proxy.cpp:409-434 | A nop enters two indexes and has no place in the deadline list. |
| DbProxy.Tracker.OnMessage | db_common/db_proxy.cpp:454-489 | A response leaves the tracker in the state of the answer event, and a message of another kind changes nothing. |
| DbProxy.Tracker.RemovePendingResponseInfo | db_common/db_proxy.cpp:491-512 | Afterwards no index mentions the client or its sessions, and all others are as they were. |
| DbProxy.Tracker.OnTimer | db_common/db_proxy.cpp:519-542 | The loop over the front of the list is the timer event; every deadline left is later. |
| DbProxy.InsertOrdered | db_common/db_proxy.cpp:131-141 | Inserting at the lower bound keeps the list in order. |
| DbProxy.AgreeRegister | db_common/db_proxy.cpp:125-141 | Entering a session keeps the three indexes in agreement. |
| DbProxy.AgreeUnregister | db_common/db_proxy.cpp:467-473 | Taking one out keeps them in agreement, and the stored list position was in the list. |
| DbProxy.DuePrefix | db_common/db_proxy.cpp:522-528 | The prefix of the list that the timer's loop visits is every session that is due. |
| Routing.KeyStaysTogether | db_service/src/db_thread_mgr.cpp:49-75 | All commands of one associate id are in one queue in issue order; other queues get only broadcast flushes of it. |
| Routing.BroadcastSplitsEveryQueue | db_service/src/db_thread_mgr.cpp:59-67 | A flush under key 0 is in every queue exactly where it was issued, with the same commands of each key before and after it. |
| Routing.OnlyFlushesSpread | db_service/src/db_thread_mgr.cpp:53-74 | A command is in the queues of two workers if and only if it was issued as a flush under key 0. |
| DbThreadMgr.Dispatcher.Query | db_service/src/db_thread_mgr.cpp:49-75 | Each worker has received exactly the commands routed to it, in issue order. |
| DbThreadMgr.Dispatcher.Work | db_service/src/db_thread.h:37-49 | `onProcess`, lines 104-147: a worker without a batch takes its whole queue; one with a batch deals with its first command, or, when the connection is lost, puts the batch back in front of the queue; other workers stay, and what the worker has dealt with is a prefix of what was routed to it. |
| DbThreadMgr.Dispatcher.AddResultInfo | db_service/src/db_thread_mgr.cpp:87-91 | Results are delivered or waiting, in the order they were added. |
| DbThreadMgr.Dispatcher.GetResultInfo | db_service/src/db_thread_mgr.cpp:93-97 | All waiting results move to the caller's list, in order. |
| Varint.EncodeVarint | db_service/src/db_service_base.cpp:22-34 | The loop writes the encoding and nothing else. |
| Varint.DecodeVarint | db_service/src/db_service_base.cpp:36-57 | The loop returns the decoding OR-ed into the word it is given, and fails when the decoding does. |
| Varint.DecodingMeaning | db_service/src/db_service_base.cpp:36-57 | Decoding fails if and only if the first ten bytes all have the top bit; otherwise it is the sum of (byte mod 128) * 128^i, modulo 2^64. |
| Varint.EncodingShape | db_service/src/db_service_base.cpp:22-34 | The digits of an encoding are the value's, and only its last byte lacks the top bit. |
| Varint.EncodingLength | db_service/src/db_service_base.cpp:22-34 | An encoding has at most k bytes if and only if the value fits 7k bits. |
| Varint.RoundTrip | db_service/src/db_service_base.cpp:22-57 | Decoding an encoding followed by anything gives the value and consumes the encoding, of 1 to 10 bytes. |
| Varint.Shortest | db_service/src/db_service_base.cpp:22-57 | No accepted byte string for a value is shorter than its encoding. |
| Varint.PrefixFree | db_service/src/db_service_base.cpp:22-34 | No encoding is a prefix of another. |
| Decimal.ReadSignedInverse | db_service/src/db_protobuf.cpp:157-317 | Reading the decimal text of an integer in a signed range gives it back. |
| Decimal.ReadUnsignedInverse | db_service/src/db_protobuf.cpp:157-317 | The same for unsigned ranges. |
| Decimal.ReadSignedExactly | db_service/src/db_protobuf.cpp:245-275 | A number after white space and before anything that is no digit is read as itself, or as the nearest limit when out of range. |
| Decimal.ReadUnsignedExactly | db_service/src/db_protobuf.cpp:256-285 | The same for unsigned ranges, where a negative number is read modulo the range, and one too large in size as the limit. |
| Decimal.ReadPlus | db_service/src/db_protobuf.cpp:245-285 | A plus sign before the digits is read over. |
| Decimal.ReadNothing | db_service/src/db_protobuf.cpp:245-285 | A text that does not start like a number is read as 0. |
| Decimal.DigitsMeaning | db_service/src/db_protobuf.cpp:165-205 | Digit k from the right is the number divided by 10^k, modulo 10, and no number of several digits starts with 0. |
| Messages.KindRanges | db_service/src/db_protobuf.cpp:163-205 | Integer fields hold exactly the 32 or 64 bit integers, signed or unsigned. |
| Columns.GetMessageFieldInfos | db_service/src/db_protobuf.cpp:319-405 | The loop gives the columns of the set fields in field order, or fails when one cannot be converted. |
| Columns.FillNormalMessage | db_service/src/db_protobuf.cpp:612-658 | The loop stores the handed-out texts one after the other, or fails when one cannot be stored. |
| Columns.ColumnsOfExactly | db_service/src/db_protobuf.cpp:329-402 | The columns are exactly those of the set fields. |
| Columns.ColumnExactly | db_service/src/db_protobuf.cpp:319-405 | A set field has a column if and only if its type is not refused and, for a nested message, a serialization is given and succeeds; texts and nested messages are quoted, nothing else is. |
| Columns.StoreExactly | db_service/src/db_protobuf.cpp:407-446 | A text can be stored if and only if the field is optional, neither a float nor refused, and a nested text parses as the field says. |
| Columns.StoreOwnColumn | db_service/src/db_protobuf.cpp:407-446 | Storing a field's own column restores the field. |
| Columns.ColumnsRebuild | db_service/src/db_protobuf.cpp:157-446 | Storing the columns of a message in an empty one, in any order and with repetitions, rebuilds it, unset fields included. |
| Columns.RowRebuildsExactly | db_service/src/db_protobuf.cpp:612-658 | From a row with one column per field, in any order and with any texts in the unwritten columns, a stored message comes back if and only if all its fields are set, no text field holds a NUL, no nested message is changed by the cut at a NUL, each double is read back from its printed text, and no field is a float. |
| Columns.SelectReadsLine | db_service/src/db_protobuf.cpp:612-658 | Storing the columns of a row one after the other, in any order, gives what reading the row by column name gives, or fails where that does. |
| Columns.LineOfIsColumns | db_service/src/db_protobuf.cpp:329-402 | The texts that a message is written to by column name are exactly the columns that the loop over its fields makes. |
| Columns.ReadsBackExactly | db_service/src/db_protobuf.cpp:157-446 | A message's own columns read as the message if and only if the text of each set field survives. |
| Instances.RowsLose | db_service/src/db_protobuf.cpp:612-658 | A player stored with a NUL in its name, or without a name, is another player when its row is read. |
| Statements.BuildStatement | db_service/src/db_command_update_handler.cpp:32-83 | The three loops build the statement of the column list, the value list and the assignments. |
| Statements.ReadItemsBack | db_service/src/db_command_update_handler.cpp:34-80 | Each printed list reads back as its items in order, whatever the quoted values hold. |
| Statements.StatementReadsBack | db_service/src/db_command_update_handler.cpp:32-83 | The statement reads back as its table, columns, values and assignments. |
| Statements.StatementInjective | db_service/src/db_command_update_handler.cpp:32-83 | Different updates give different statements. |
| Statements.StatementCarriesMessage | db_service/src/db_command_update_handler.cpp:22-83 | What a message's statement assigns rebuilds the message. |
| Instances.PlayerStatement | db_service/src/db_command_update_handler.cpp:32-91 | The words of the statement that updates a player, with its id and its escaped name. |
| Placeholders.BuildQuery | db_service/src/db_command_query_handler.cpp:28-47 | The loop is one replacement per argument, and a missing hole ends it with the parameter error. |
| Placeholders.ReplaceFills | db_service/src/db_command_query_handler.cpp:34-40 | Find and replace on a template's text fills its leftmost hole of that index, and fails if and only if it has none. |
| Placeholders.ReplaceHits | db_service/src/db_command_query_handler.cpp:34-40 | For every template and text: the replacement hits the template's own leftmost hole if and only if the hole's text does not occur before it, and then fills it. |
| Placeholders.InTurnExactly | db_service/src/db_command_query_handler.cpp:30-41 | For every template and all texts: every replacement of the loop hits the template's own hole if and only if no hole's text occurs before it with the earlier texts put in, and then the loop is simultaneous substitution. |
| Placeholders.InTurnIsAtOnce | db_service/src/db_command_query_handler.cpp:30-41 | With texts that have no opening brace, replacing in turn is simultaneous substitution, and fails if and only if an index has no hole. |
| Placeholders.AnyOrder | db_service/src/db_command_query_handler.cpp:30-41 | The order of the arguments does not matter. |
| Placeholders.QueryOutcome | db_service/src/db_command_query_handler.cpp:28-41 | The parameter error if and only if some argument has no hole, and otherwise argument k in the leftmost hole k, for all k at once. |
| Placeholders.QueryReadsBack | db_service/src/db_command_query_handler.cpp:28-47 | The query reads back as its table and the template with argument k in the leftmost hole k; there is none, but error 4, if and only if some argument has no hole. |
| Instances.PlayerQuery | db_service/src/db_command_query_handler.cpp:28-47 | The words of the query for a player by its id, and error 4 for an argument too many. |
| Placeholders.BracesInterfere | db_service/src/db_command_query_handler.cpp:30-41 | With the arguments `{1}` and `x`, replacing in turn is not simultaneous substitution. |

## Left out

- Counters: the session counter and the type numbers do not wrap, and the byte counts, 32 bits wide per cache object, do not overflow.
- MySQL: a table is a map from primary key and type to rows of texts, each handed out as it was written; an update is an upsert that counts the row it finds, an insert fails on an existing key, a statement without columns fails as an update and makes a default row as an insert. Its own conversions of texts to column types and lengths, other failing statements, keys given by the database, and a connection lost during a write-back are not modelled. The key column of a new row holds zero unless it is written.
- A where clause is a predicate on one row, so that a query with an order, a limit or a grouping in its text is not modelled, nor is the order of the rows that it answers.
- Calls of stored procedures and nops: a nop touches neither cache nor table; a call runs past the cache and may do anything to the table, so nothing can be said about a run with one.
- Types whose primary key is not an integer, for which the worker goes past the cache on updates and inserts.
- Serialization of rows is an abstract function with an inverse; JSON, descriptors and the message factory are not modelled. Set fields are what the message records: implicit presence and custom default values are not modelled.
- Types with a field that the handlers refuse, such as a repeated, boolean or enumeration one; and what happens after a select of a type with a float field, which the source's setter aborts on and which fails here.
- Statements.Readable: float and double texts are not tokens, and numeric texts are taken as plain.
- DbCache.CopyFields: asks for no repeated field, since the setters that the source calls abort on one.
- DbProxy.Tracker.RemovePendingResponseInfo: asks that the client has no pending nop, since erasing the end of a list is undefined.
- DbProxy.Tracker.IssueTimed: one method stands for `select`, `update_r`, `remove_r`, `insert_r`, `query` and `call_r`, which differ in the request they send; whether sending succeeds is a parameter.
- The tracker's `update`, `remove`, `insert` and `flush`, which issue no session and change none of its state.
- Callbacks are recorded calls; a callback that calls back into the tracker is not modelled. A list iterator is modelled by the entry that it designates.
- DbCacheMgr.CacheManager.CleanCache: the random victim, or none, is a parameter; nothing is claimed about the size of the cache.
- `setMaxCacheSize` at run time, and the division in it (db_service/src/db_thread_mgr.cpp:119).
- The flush entry point of the service, which leaves the message out of the command it queues (db_service/src/db_service.cpp:201-215), so that workers pass over it.
- Threads: each locked section is one step, and a worker's handling of one command, or one write-back, is one step on the shared table; reconnection, queue sizes and command rates are left out.
- `fillNormalMessage` deletes its argument when it fails; the model only says that it fails.
- The stored procedure handler, variants, the service's directory scan and start-up.
