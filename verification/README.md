# AgentCube control plane, verified

AgentCube keeps one fact in three places: a session record in Redis or Valkey, two sorted-set indexes over the
records (expiry and last activity), and a Sandbox or SandboxClaim object in the cluster. Creators, explicit deletes,
the garbage collector and the router's activity updates change these concurrently. This project models that protocol
and the smaller stateful parts around it, and proves what holds over all their runs. `dafny verify dfyconfig.toml`
checks the whole project.

| module | part |
|---|---|
| Sandboxes | records, object builders, conservation across commit |
| SortedSet, Store | sorted sets, the abstract store, the Redis and Valkey stores proved against it |
| Lifecycle, LifecycleSafety | the protocol as a transition system, one step per store command or cluster call, and what its runs keep |
| LifecycleExactness, LifecycleWitnesses | exact conditions for those properties, and runs that break them |
| TouchRefinement | the two-command touch of Valkey against the script of Redis |
| Handlers, Waiting | the create and delete handlers, that they are runs of the protocol, and how a creation waits |
| GarbageCollection, GcProgress | one collection pass and what it removes |
| GcHistory, GcDrain, GcTiming | histories of interleaved operations and passes; progress and timing over them |
| GcStarvation, GcWitnesses | when passes make no progress, and how that comes about |
| Recency, Reuse, Caches, TokenAuth | LRU caches as map plus list, the inclusion theorem, when a key hits, transparency of the token cache |
| Paths, FileSystem, Picod | lexical paths, a filesystem with symbolic links, the workspace jail |
| CodeInterpreterController, SandboxWatch | the reconciler and the notify-once protocol |
| McpSessions | the MCP session cache and its recovery |
| Ownership | who may use a session, over whole protocol runs |

## Assumptions

- Session IDs and object names are fresh; the store starts empty or with agreeing indexes.
- Cluster calls are linearizable. A create or delete answered with an error may have taken effect or not, and such a
  create may still take effect later. A delete that takes effect later is an object that vanishes by itself.
- A crash, a timeout or a lost connection is a process that takes no further step, so all run theorems cover it.
- The cluster returns a Sandbox as it was created, with its shutdown time cut to whole seconds.
- Clocks, network answers, TokenReview, signature checks and the kernel's limit on symbolic links are parameters.
- Time is in nanoseconds since year 1, so that 0 is Go's zero time; index scores are whole seconds.
- With OIDC on, the router's middleware turns away every request without valid claims, so a request that reaches the
  ownership check has claims.
- A restriction a run theorem needs and the code does not enforce is a field of `Lifecycle.Guards` and is named in the
  theorem's `requires`. For orphans, outliving records, index agreement and touches there is a theorem that the
  restriction is exact, run by run, and for every plan a run that breaks the property without it.

## What the proofs show about the code

- A rollback drops the record even if its cluster delete failed; if there was an object, it is an orphan then.
- A create that times out and takes effect after the cluster delete of its rollback is an orphan, too.
- The rollback is armed only after StoreSandbox has returned; a placeholder whose store call failed on the way stays.
- A remover that reads a placeholder before the cluster create was answered can orphan a committed sandbox. Waiting until
  the create is decided is enough. What exactly must not happen is a successful commit while a remover is past its
  cluster delete and the object is there.
- A remover that finishes while StoreSandbox is between its commands leaves index entries for a record that is gone,
  until the creator rolls back.
- Valkey's EXISTS then ZADD can leave a last-activity entry without record for ever. A hundred of them at the front end
  idle collection for good, and there is a run that leads there.
- Idle collection looks at the hundred longest unused sessions only. Whatever their timeouts, sessions idle for longer
  than the largest timeout are drained a hundred a pass. But a session that is idle by its own, shorter timeout can wait
  until then: a hundred sessions with long timeouts hide every session behind them until the first of them is due. In
  between, each entry that cannot be collected, for its timeout, for want of a record or because its deletes are
  refused, costs one of the hundred places of a pass.
- Storing a session again with another expiry separates record and expiry index, because SETNX keeps the old record.
- On the direct path the sub-second part of a deadline is lost at commit; the expiry second is not.
- A session duration of zero means the default on the direct path; on the warm-pool path the session is over at once.
- sanitizePath decides by components. Where a path that does not exist yet would be created depends on its deepest
  existing ancestor, which mkdirSafe checks and sanitizePath does not.
- A comment in mkdirSafe expects a missing workspace to be created; the code refuses every request then.
- Pod template metadata is not converged by the reconciler, which compares pod specs only. Stale cached reads can make
  it leave a warm pool without template until a later pass.
- A waiter is notified exactly if its sandbox is found ready before its name is withdrawn or registered again; a second
  watch under one name silences the first waiter.

## Model

| member | source | states |
|---|---|---|
| `LifecycleSafety.RecordsAreIndexed` | pkg/store/store_redis.go:146-189 | on every run, without any restriction, a record whose StoreSandbox has returned is in both indexes under its own expiry second |
| `LifecycleSafety.EntriesAreAccounted` | pkg/store/store_redis.go:146-228 | on every run an expiry entry without record is between a DEL and the ZREM or belongs to a creator that is under way; the same for last activity if touches do what the script does |
| `LifecycleSafety.IndexesAgree` | pkg/store/store_redis.go:146-228 | if no remover reads a record before its StoreSandbox has returned, an index entry without record is seen only between a DEL and the matching ZREM |
| `LifecycleExactness.EntriesAgreeIff` | pkg/store/store_redis.go:146-228 | a run keeps that sharp agreement in all its states exactly if no ZADD comes for a session whose record is gone and whose deletes have passed that index |
| `LifecycleExactness.LateRemoversSuffice` | pkg/store/store_redis.go:146-228 | late removers and script-like touches meet that condition |
| `LifecycleWitnesses.EarlyRemovalDangles` | pkg/store/store_redis.go:163-171 | for every plan a remover that finishes inside StoreSandbox leaves both indexes with entries for a record that is gone |
| `LifecycleSafety.NoOrphanReachable` | pkg/workloadmanager/handlers.go:391-494 | in every interleaving of creators, deleters, collectors and touches in which rollbacks delete the object if there is one, creates do not take effect later than that and no commit succeeds in a hazard, each cluster object has a session whose record names it or whose rollback is armed |
| `LifecycleExactness.OrphanSafeIff` | pkg/workloadmanager/handlers.go:391-553 | those three conditions are exact: a run meets them if and only if none of its states has an orphan or an enabled delete command that makes one |
| `LifecycleExactness.BrokenGuardOrphans` | pkg/workloadmanager/handlers.go:391-553 | every run that breaks them ends in an orphan after some prefix and at most one further delete command |
| `LifecycleSafety.RecordOutlivesObject` | pkg/workloadmanager/handlers.go:391-494 | if rollbacks delete the object if there is one, and objects come to be only while their record is there and not about to be deleted, each object has a stored record naming it at every moment |
| `LifecycleExactness.RecordSafeIff` | pkg/workloadmanager/handlers.go:391-553 | that condition is exact: a run meets it if and only if in none of its states an object has lost its record or is about to |
| `LifecycleExactness.LateSelectionLeavesNoOrphan` | pkg/workloadmanager/garbage_collection.go:76-142 | each object has a stored record naming it on every run in which rollbacks delete what there is, creates do not take effect later, and no remover reads a record before its cluster create is decided |
| `LifecycleExactness.LateSelectionSuffices` | pkg/workloadmanager/handlers.go:497-553 | selecting late implies deleting late |
| `LifecycleExactness.LateDeletionSuffices` | pkg/workloadmanager/handlers.go:521-553 | deleting late, and creates that do not take effect after their rollback, imply that objects come to be with their record safely there |
| `LifecycleExactness.SafeCreationSuffices` | pkg/workloadmanager/handlers.go:410-412 | then no create takes effect too late and no commit is hazardous |
| `LifecycleWitnesses.EarlyRemovalOrphans` | pkg/workloadmanager/garbage_collection.go:122-137 | for every plan there is a run in which a remover that reads the placeholder before the create ends in an orphan |
| `LifecycleWitnesses.FailedRollbackOrphans` | pkg/workloadmanager/handlers.go:478-493 | for every plan there is a run in which a rollback whose cluster delete fails ends in an orphan |
| `LifecycleWitnesses.LateCreateOrphans` | pkg/workloadmanager/handlers.go:410-412 | for every plan there is a run in which a create that was answered with an error takes effect after the rollback and ends in an orphan, all deletes having worked |
| `LifecycleSafety.RecordIsPlaceholderOrReady` | pkg/workloadmanager/handlers.go:391-470 | on every run what a reader can find is the placeholder, creating and without entry points, or a ready record with one entry point per port; the former until the commit is tried, the latter once success was answered |
| `LifecycleSafety.RestIsConsistent` | pkg/workloadmanager/handlers.go:391-553 | on every run a session all of whose processes have ended has a record exactly if it has an expiry entry, under its expiry second; with a record it was committed and has a last-activity entry, and without one it has none if touches do what the script does; under the guards against orphans its object, if there, is named by that record |
| `LifecycleSafety.NoResurrection` | pkg/store/store_redis.go:193-214 | on every run a record that is gone stays gone and a creator that had not committed by then never commits |
| `LifecycleSafety.DeletedForever` | pkg/store/store_redis.go:216-228 | once a record existed and is gone, it is gone at the end of every longer run |
| `LifecycleSafety.SuccessHadRecord` | pkg/workloadmanager/handlers.go:459-469 | a creator that has answered success took a commit step in the run, and the record existed right before that step |
| `LifecycleSafety.WorldInvStep` | pkg/workloadmanager/handlers.go:391-553 | every step of every process keeps the invariant of all sessions, including those it does not act on |
| `TouchRefinement.RedisFollowsIff` | pkg/store/store_valkey.go:305-329 | Redis, running the same with atomic touches, goes through the same states as a Valkey run if and only if each ZADD of a touch finds the record or an entry with that very score |
| `TouchRefinement.ValkeyRefinesRedis` | pkg/store/store_valkey.go:305-329 | such a Valkey run, with each ZADD read as the script, is a Redis run under the same guards with the same records, indexes, cluster and processes |
| `TouchRefinement.NoDeleteInTouchSuffices` | pkg/store/store_valkey.go:305-329 | every run without a DEL of the session between the EXISTS and the ZADD of a touch meets the condition; touches that stop after EXISTS do not matter |
| `TouchRefinement.RecordKeptIffNoDelete` | pkg/store/store_valkey.go:228-242 | on every run a record that is there stays exactly until the first DEL of it |
| `TouchRefinement.TouchAddIsScriptIff` | pkg/store/store_valkey.go:313-328 | the ZADD does what the script would do then exactly if the record still exists or the entry has that very score |
| `TouchRefinement.ValkeyIndexesAgree` | pkg/store/store_valkey.go:172-242 | sharp agreement of both indexes carries over to Valkey on those runs |
| `TouchRefinement.ValkeyTouchRace` | pkg/store/store_valkey.go:313-328 | for every plan a delete between EXISTS and ZADD can leave a last-activity entry that belongs to no record and no process |
| `TouchRefinement.DanglingForever` | pkg/store/store_valkey.go:305-329 | such an entry stays on every longer run |
| `Store.RedisStore.StoreSandbox` | pkg/store/store_redis.go:146-189 | nil and zero-expiry errors change nothing; otherwise a record that is there stays, a missing one is written without its last activity, and both scores are set to the second of expiry and of now; the new state is that of the abstract store |
| `Store.RedisStore.UpdateSandbox` | pkg/store/store_redis.go:193-214 | succeeds exactly if the key is there; then that record alone changes; indexes untouched |
| `Store.RedisStore.DeleteSandboxBySessionID` | pkg/store/store_redis.go:216-228 | record and both index entries go, nothing else changes |
| `Store.RedisStore.LoadSandboxesBySessionIDs` | pkg/store/store_redis.go:80-113 | the records of the given sessions in the given order, missing ones passed over |
| `Store.RedisStore.GetSandboxBySessionID` | pkg/store/store_redis.go:128-144 | the record, or not found |
| `Store.RedisStore.ListExpiredSandboxes` | pkg/store/store_redis.go:232-249 | the records of the lowest scores up to the limit, in index order; nothing for a limit below one |
| `Store.RedisStore.ListInactiveSandboxes` | pkg/store/store_redis.go:255-293 | the same by last activity, each record stamped with the time of its own score |
| `Store.RedisStore.UpdateSessionLastActivity` | pkg/store/store_redis.go:305-334 | succeeds exactly for a nonempty ID with a record; then the score of that session alone becomes the second of the given time, the zero time standing for now; in all other cases nothing changes |
| `Store.ValkeyStore.StoreSandbox` | pkg/store/store_valkey.go:172-201 | the same answer, records and scores as for Redis |
| `Store.ValkeyStore.UpdateSandbox` | pkg/store/store_valkey.go:205-225 | the same answer, records and scores as for Redis |
| `Store.ValkeyStore.DeleteSandboxBySessionID` | pkg/store/store_valkey.go:228-242 | the same answer, records and scores as for Redis |
| `Store.ValkeyStore.LoadSandboxesBySessionIDs` | pkg/store/store_valkey.go:104-137 | the abstract store, as for Redis, from one MGET |
| `Store.ValkeyStore.GetSandboxBySessionID` | pkg/store/store_valkey.go:152-169 | the abstract store, as for Redis |
| `Store.ValkeyStore.ListExpiredSandboxes` | pkg/store/store_valkey.go:245-258 | the abstract store, as for Redis |
| `Store.ValkeyStore.ListInactiveSandboxes` | pkg/store/store_valkey.go:263-296 | the abstract store, as for Redis |
| `Store.ValkeyStore.UpdateSessionLastActivity` | pkg/store/store_valkey.go:305-329 | the same, when nothing comes between the two commands |
| `Store.CollectScores` | pkg/store/store_redis.go:271-280 | the loop over a scored range yields its members in order and the time of each score |
| `Store.StampFrom` | pkg/store/store_redis.go:287-291 | every loaded record gets the time collected for its ID, others stay |
| `Store.StoredSpec` | pkg/store/store_redis.go:161-171 | SETNX keeps a record that is there; both ZADDs set their score in any case |
| `Store.StoredAgreesIff` | pkg/store/store_redis.go:164-171 | storing keeps records and indexes in agreement exactly if the session is new or its expiry second is unchanged |
| `Store.UpdatedAgreesIff` | pkg/store/store_redis.go:191-214 | updating keeps the agreement exactly if the expiry second is unchanged |
| `Store.ErasedAgrees` | pkg/store/store_redis.go:216-228 | deleting keeps the agreement |
| `Store.TouchedAgrees` | pkg/store/store_redis.go:305-334 | touching keeps the agreement |
| `Store.EraseForgetsStore` | pkg/store/store_redis.go:146-228 | storing a session before deleting it makes no difference, whatever the store held |
| `Store.EraseUndoesStore` | pkg/store/store_redis.go:146-228 | storing a new session and deleting it gives back the same store, to the order of both indexes |
| `Store.LoadAll` | pkg/store/store_redis.go:80-113 | when every listed session has a record, exactly one record per session is loaded, in the order of the index |
| `Store.ExpiredReports` | pkg/store/store_redis.go:232-249 | with agreeing indexes the list reports, in index order, exactly the sessions whose rank is below the limit and whose second has come |
| `Store.InactiveReports` | pkg/store/store_redis.go:255-293 | the same by last activity, each record with the time of its score |
| `SortedSet.RangeSpec` | pkg/store/store_redis.go:237-243 | a range with limit is a prefix of the index: at most the limit, none above the maximum, and what is left out comes after all of it and only if the limit was reached |
| `SortedSet.AddScores` | pkg/store/store_redis.go:164-171 | ZADD sets one score and keeps the others, whatever the set held |
| `SortedSet.AddSpec` | pkg/store/store_redis.go:164-171 | ZADD sets one score, keeps the others, and keeps the set sorted and free of duplicates |
| `SortedSet.RemoveSpec` | pkg/store/store_redis.go:219-222 | ZREM removes one member and keeps the order |
| `SortedSet.Canonical` | pkg/store/store_redis.go:237-243 | two sorted sets with the same scores are the same sequence |
| `Sandboxes.CommitConserves` | pkg/workloadmanager/handlers.go:442-448 | placeholder and final record agree on object, session, owner, idle timeout and expiry second on the direct and the warm-pool path; creation time, sandbox ID and status of both |
| `Sandboxes.CommitKeepsDeadlineIff` | pkg/workloadmanager/sandbox_helper.go:78-109 | the commit keeps the deadline itself exactly on the warm-pool path or if it was a whole second |
| `Sandboxes.BuildersAgree` | pkg/workloadmanager/workload_builder.go:325-438 | both builders yield a plan whose object, session and owner are those asked for, a claim exactly if there is a warm pool |
| `Sandboxes.GivenTimesDecide` | pkg/workloadmanager/workload_builder.go:325-438 | a given session duration and timeout decide deadline and idle timeout of the placeholder, zero and none standing for the defaults, except that on the warm-pool path a zero duration ends the session at once; ports as given, with the default port for a code interpreter |
| `Sandboxes.BuildSandboxInfo` | pkg/workloadmanager/sandbox_helper.go:78-109 | the loop gives one entry point per port, in order, with path, protocol and number of the port and the pod IP; ID, creation time and status of the sandbox |
| `Handlers.Server.CreateSandbox` | pkg/workloadmanager/handlers.go:391-470 | success exactly if every call succeeds, with record, indexes, object and response in place, the response field by field; a failed store of the placeholder is not rolled back; after any later error session and object are removed as far as the two deletes of the rollback take effect, so for new names nothing else is left |
| `Handlers.Server.Provision` | pkg/workloadmanager/handlers.go:410-469 | the part between placeholder and end of commit: what store, cluster and answer are for every outcome of the calls |
| `Handlers.Server.Rollback` | pkg/workloadmanager/handlers.go:475-494 | the store entry goes even if the cluster delete has no effect, and the other way round |
| `Handlers.CommittedHolds` | pkg/workloadmanager/handlers.go:391-470 | after a success the record is the final one, under the second of the placeholder's deadline and of now, and nothing else has changed |
| `Handlers.BeforeRollbackHolds` | pkg/workloadmanager/handlers.go:459-494 | what a rollback finds is the final record exactly if the commit was tried and took effect, and the placeholder otherwise |
| `Handlers.RollbackForgets` | pkg/workloadmanager/handlers.go:459-493 | a rollback erases the session whether or not a failed commit took effect |
| `Handlers.RollbackRestores` | pkg/workloadmanager/handlers.go:475-494 | for a new session the store is then as it was |
| `Handlers.ClusterRestored` | pkg/workloadmanager/handlers.go:475-494 | for a new name the cluster is as it was exactly if the rollback deletes the object or there is none |
| `Waiting.WaitForClaimSandboxReady` | pkg/workloadmanager/handlers.go:331-381 | the first round that decides, decides; a sandbox is returned only if the claim named it, it was read ready, and neither timeout nor request had ended the wait |
| `Waiting.QuietIffMissed` | pkg/workloadmanager/handlers.go:338-365 | the loop goes round again exactly if all failures of the round are transient and the context runs |
| `Waiting.RoundAnswers` | pkg/workloadmanager/handlers.go:66-107 | the answer of a round, spelled out: the sandbox exactly if the claim names it, it is read ready and the context runs all the while; an internal error exactly for a permanent failure under a running context; the timeout where the round first meets it |
| `Waiting.TransientFailuresDoNotMatter` | pkg/workloadmanager/handlers.go:89-107 | any number of rounds of transient failures before the decision leave the answer as it is |
| `Waiting.EndsWithContext` | pkg/workloadmanager/handlers.go:66-87 | a wait whose context is over ends with the next read, with the context's own answer unless it had one before |
| `Waiting.WaitForEntryPoints` | pkg/workloadmanager/sandbox_helper.go:122-154 | ready exactly if some probe finds all ports at once before the time is up, or there are no ports; it goes on exactly as long as every probe misses a port and the time is not up |
| `Waiting.ProbeEntryPoints` | pkg/workloadmanager/sandbox_helper.go:156-170 | a probe succeeds exactly if every port can be reached |
| `Handlers.Server.HandleDeleteSandbox` | pkg/workloadmanager/handlers.go:497-564 | answer, store and cluster for every outcome of the calls, deletes that are answered with an error and take effect included; the record goes only after a cluster delete answered with success |
| `Handlers.DeleteUndoesCreate` | pkg/workloadmanager/handlers.go:391-564 | deleting a created session restores the store exactly and names the created object |
| `Handlers.StoreIsThreeActs` | pkg/store/store_redis.go:161-171 | the abstract store operation is the three protocol steps SETNX, ZADD, ZADD |
| `Handlers.UpdateIsCommit` | pkg/store/store_redis.go:193-214 | UpdateSandbox is the commit step, with the same answer |
| `Handlers.EraseIsRollback` | pkg/store/store_redis.go:216-228 | DeleteSandboxBySessionID is the last three steps of a rollback |
| `Handlers.EraseIsRemoval` | pkg/store/store_redis.go:216-228 | DeleteSandboxBySessionID is the last three steps of a remover |
| `Handlers.TouchIsTouch` | pkg/store/store_redis.go:305-334 | UpdateSessionLastActivity is the touch step, and is answered with success exactly if there is a record |
| `Handlers.CreateIsRun` | pkg/workloadmanager/handlers.go:391-494 | createSandbox, run alone, is a run of the protocol: for every outcome of its calls its steps one after the other lead to the store, the cluster and the answer the handler leaves |
| `Handlers.DeleteIsRun` | pkg/workloadmanager/handlers.go:497-564 | so is handleDeleteSandbox for a session it finds |
| `Handlers.RollbackIsRun` | pkg/workloadmanager/handlers.go:475-494 | and the rollback, as far as its two deletes take effect |
| `GarbageCollection.GarbageCollector.Once` | pkg/workloadmanager/garbage_collection.go:76-142 | store and cluster after a pass for every outcome of the list and delete calls: an object goes exactly if it is that of a collected session and its delete takes effect; errors are reported exactly if some delete of a collected session failed |
| `GarbageCollection.GarbageCollector.Collect` | pkg/workloadmanager/garbage_collection.go:81-116 | the reading part of a pass: both lists, filtered by their own timeouts, merged and deduplicated |
| `GarbageCollection.GarbageCollector.KeepTimedOut` | pkg/workloadmanager/garbage_collection.go:91-107 | keeps, in order, the candidates whose own idle timeout has elapsed |
| `GarbageCollection.GarbageCollector.DeleteAll` | pkg/workloadmanager/garbage_collection.go:121-138 | an object goes exactly if a listed session names it, Sandbox or SandboxClaim, and its delete takes effect; a failed cluster delete keeps the record, a failed store delete keeps it unless it took effect, the others go |
| `GarbageCollection.DeduplicateSandboxes` | pkg/workloadmanager/garbage_collection.go:168-184 | any number of lists: the deduplicated concatenation |
| `GcProgress.DeduplicatedFirsts` | pkg/workloadmanager/garbage_collection.go:166-184 | deduplication is the subsequence of first occurrences per session: none lost, none twice, order kept |
| `GcProgress.CollectedIff` | pkg/workloadmanager/garbage_collection.go:76-117 | a session is collected exactly if it is in the first hundred by expiry, or in the first hundred by last activity with its own timeout elapsed |
| `GcProgress.RemovedIff` | pkg/workloadmanager/garbage_collection.go:76-142 | it is removed exactly if moreover its cluster delete succeeds and its store delete takes effect |
| `GcProgress.ObjectDeletedIff` | pkg/workloadmanager/garbage_collection.go:121-131 | a pass deletes an object exactly if it is that of the stored record of a session that is due, and the delete is not refused or takes effect in spite of its error |
| `GcProgress.CleanIff` | pkg/workloadmanager/garbage_collection.go:120-141 | a pass reports no error exactly if no delete of a session that is due is answered with one |
| `GcProgress.DueIdleByRank` | pkg/workloadmanager/garbage_collection.go:84-107 | whether a session is due as idle is exactly its rank among the hundred longest unused, the look-back minute and its own timeout, a zero timeout standing for the default and a zero activity for the creation time |
| `GcProgress.DueExpiredByRank` | pkg/workloadmanager/garbage_collection.go:109-114 | whether a session is due as expired is exactly its rank among the hundred earliest and its second |
| `GcProgress.PassRemoves` | pkg/workloadmanager/garbage_collection.go:121-138 | a pass removes the removed sessions from record and indexes and changes nothing else |
| `GcHistory.PassIsListsAndDrops` | pkg/workloadmanager/garbage_collection.go:76-142 | a pass that runs alone is the two listings followed by one delete or refusal per collected session, whatever other passes are under way |
| `GcHistory.AgreeAfterAll` | pkg/store/store_redis.go:146-334 | records and indexes agree along every history in which stores and updates keep expiry seconds and touches add only for sessions that are there |
| `GcHistory.AgreeAfterIff` | pkg/store/store_redis.go:146-334 | event by event this condition is exact |
| `GcDrain.ExpiredDrain` | pkg/workloadmanager/garbage_collection.go:76-142 | over every history of interleaved operations, touches and collectors, at most n - 100m of the n sessions expired at its start are left after m passes of a collector, plus one per delete refused to it; b stubborn entries, refused again and again or without record, cost b places per pass |
| `GcDrain.IdleDrain` | pkg/workloadmanager/garbage_collection.go:76-142 | the same over every history for sessions idle for longer than D, where D is at least a minute and no session has a longer timeout, or only stubborn ones have |
| `GcDrain.ExpiredGone` | pkg/workloadmanager/garbage_collection.go:76-142 | so after enough passes without refusal nothing that had expired is left but the stubborn |
| `GcDrain.IdleGone` | pkg/workloadmanager/garbage_collection.go:76-142 | and nothing that had been idle for longer than D is left but the stubborn |
| `GcDrain.PassDrainsExpired` | pkg/workloadmanager/garbage_collection.go:109-137 | the same for one pass that runs alone |
| `GcDrain.PassDrainsIdle` | pkg/workloadmanager/garbage_collection.go:84-137 | the same for one pass that runs alone, for idle sessions |
| `GcStarvation.DanglingFrontStarves` | pkg/workloadmanager/garbage_collection.go:76-142 | a pass whose fronts hold only entries without record changes nothing |
| `GcStarvation.IdleStarvedForever` | pkg/workloadmanager/garbage_collection.go:84-107 | once the hundred oldest last-activity entries have no record and no touch of them is pending, no session is ever due as idle again, over every later history of any number of collectors |
| `GcStarvation.PatientFrontStarves` | pkg/workloadmanager/garbage_collection.go:42-45 | over every history, while a hundred sessions with long timeouts stay ahead and unexpired, no session is due as idle at any time before the earliest of their timeouts |
| `GcStarvation.RefusedFrontStarves` | pkg/workloadmanager/garbage_collection.go:122-131 | over every history, while a hundred expired sessions stay whose deletes are refused, no session behind them is ever due as expired |
| `GcWitnesses.CrowdStarves` | pkg/workloadmanager/garbage_collection.go:42-45 | a store with a hundred patient sessions and one that is idle past its own timeout and not due |
| `GcWitnesses.RaceStarvesCollection` | pkg/store/store_valkey.go:313-328 | a run of the Valkey protocol leads to a store whose hundred oldest last-activity entries have no record |
| `GcTiming.FallbackUnreachable` | pkg/workloadmanager/garbage_collection.go:94-98 | after every history no listed session has a zero last activity, so the CreatedAt fallback is never taken |
| `GcTiming.IdleTooEarlyByLessThanASecond` | pkg/workloadmanager/garbage_collection.go:91-107 | after every history a session due as idle had been unused, since the last touch applied to it, for more than its timeout less one second |
| `GcTiming.ExpiredTooEarlyByLessThanASecond` | pkg/workloadmanager/garbage_collection.go:110-111 | after every history that keeps expiry seconds a session due as expired is past its deadline or less than a second before it |
| `Recency.Inclusion` | pkg/workloadmanager/client_cache.go:100-181 | for every trace, a cache of capacity m stays included in one of capacity n >= m: same entries, same recency order, at most n - m extra |
| `Recency.HitsAreIncluded` | pkg/workloadmanager/client_cache.go:232-310 | on every trace from empty, a hit in the smaller cache is the same hit in the larger one |
| `Recency.BackIsOldest` | pkg/workloadmanager/client_cache.go:301-310 | the entry evicted has the least last access |
| `Reuse.HitsByHistory` | pkg/workloadmanager/client_cache.go:100-181 | the list of a cache, of either kind, against a model without order: on every trace a key hits exactly if it was set, was not removed or found expired since, is not expired, and fewer keys than the capacity have been set or hit since it was; with the value last set |
| `Reuse.HitsAreLastSet` | pkg/workloadmanager/client_cache.go:100-121 | on every trace a hit returns the value last set and not removed, and a client is never returned after its token has expired |
| `Reuse.LastSetHits` | pkg/workloadmanager/client_cache.go:100-154 | conversely a key hits with the value last set if since then it was not removed or found expired, is not expired, and fewer other keys than the capacity have been set or hit |
| `Reuse.DropsLeastRecent` | pkg/workloadmanager/client_cache.go:125-181 | on every trace a set drops another key only from a full cache and for a new key, and that is the least recently used one: every other key has been set or hit since it last was |
| `Caches.ClientCache.constructor` | pkg/workloadmanager/client_cache.go:86-96 | starts empty, capacity 100 unless positive |
| `Caches.ClientCache.Get` | pkg/workloadmanager/client_cache.go:100-121 | map and list behave as the recency sequence, of which Reuse says when a key hits; an expired entry is dropped |
| `Caches.ClientCache.Set` | pkg/workloadmanager/client_cache.go:125-154 | map and list behave as the recency sequence; the least recent entry makes room |
| `Caches.ClientCache.Remove` | pkg/workloadmanager/client_cache.go:157-168 | the entry goes from map and list, absent keys change nothing |
| `Caches.ClientCache.Size` | pkg/workloadmanager/client_cache.go:184-188 | the length of the sequence, never above capacity |
| `Caches.TokenCache.constructor` | pkg/workloadmanager/client_cache.go:214-229 | starts empty, capacity 1000 and five minutes unless positive |
| `Caches.TokenCache.Get` | pkg/workloadmanager/client_cache.go:232-253 | as the recency sequence with a sliding lifetime |
| `Caches.TokenCache.Set` | pkg/workloadmanager/client_cache.go:256-284 | as the recency sequence; a new entry evicts the least recent one when full |
| `Caches.TokenCache.Remove` | pkg/workloadmanager/client_cache.go:287-298 | the entry goes from map and list, absent keys change nothing |
| `Caches.TokenCache.Size` | pkg/workloadmanager/client_cache.go:313-317 | the length of the sequence, never above capacity |
| `Caches.Table.EvictOldest` | pkg/workloadmanager/client_cache.go:171-181 | the back of the list leaves list and map together |
| `TokenAuth.ValidateServiceAccountToken` | pkg/workloadmanager/auth.go:148-191 | the answer is that of an uncached review, field by field, and the cache stays faithful to the reviews |
| `TokenAuth.Transparent` | pkg/workloadmanager/auth.go:150-156 | on every trace a cached verdict is what TokenReview gives for that token |
| `TokenAuth.HitsAreRecent` | pkg/workloadmanager/client_cache.go:232-253 | on every trace a hit follows the last access of its token by at most the lifetime |
| `TokenAuth.SortedTrace` | pkg/workloadmanager/client_cache.go:205-317 | on every trace with a clock that never goes back the list has distinct keys, fits the capacity and is sorted by last access |
| `Picod.SanitizeIff` | pkg/picod/files.go:444-502 | accepted exactly if the normal form of workspace/path has the resolved workspace as component prefix and an existing target resolves inside it; absolute paths are never a traversal |
| `Picod.CreatedInsideIff` | pkg/picod/files.go:397-425 | creating the missing directories of a path ends inside the workspace exactly if its deepest existing ancestor resolves inside |
| `Picod.AcceptedCreatedInsideIff` | pkg/picod/files.go:444-502 | so it is for every path sanitizePath accepts; being accepted does not decide it |
| `Picod.AcceptedCreatedOutside` | pkg/picod/files.go:498-501 | a tree with one link and an accepted path whose directory is created elsewhere |
| `Picod.Server.MkdirSafe` | pkg/picod/files.go:397-425 | for every arrangement of links: success exactly if the deepest existing ancestor is a directory resolving inside the workspace, denial exactly if it resolves outside; after a success the directory lies inside, and in any case all that is new is a directory inside |
| `Picod.LinkIsSafeIff` | pkg/picod/files.go:488-501 | a link of the workspace is accepted exactly if its target, read from the workspace or for an absolute one from the root, is inside, as that target, or missing, as the link itself |
| `Picod.DeepestIsLink` | pkg/picod/files.go:404-422 | for a new name below a link of the workspace mkdirSafe checks the link, whether its target exists or not |
| `Picod.NeighbourLinkEscapes` | pkg/picod/files.go:488-495 | a relative link to a neighbour of the workspace is refused |
| `Picod.NeighbourLinkDenied` | pkg/picod/files.go:404-414 | a new directory below such a link is denied and nothing is created |
| `Picod.NeighbourTreeEscapes` | pkg/picod/files.go:488-495 | a tree with such a link |
| `Picod.NeighbourTreeDenied` | pkg/picod/files.go:404-414 | the same tree and mkdirSafe |
| `Picod.MkdirAllContained` | pkg/picod/files.go:424-424 | once the check has passed, MkdirAll stays inside the workspace whatever it creates |
| `Picod.MkdirAllGrows` | pkg/picod/files.go:424-424 | MkdirAll creates exactly the missing directories below the place the existing part resolves to, and the path then leads there |
| `Picod.MkdirAllBlocked` | pkg/picod/files.go:424-424 | if the existing part is no directory MkdirAll fails and changes nothing |
| `Picod.MissingWorkspaceIsRefused` | pkg/picod/files.go:417-421 | if the workspace does not resolve, no request passes the check |
| `Paths.EscapesIffOutside` | pkg/picod/files.go:475-483 | the test for a leading ".." in the string Rel returns is component-wise containment |
| `Paths.RelRoundTrip` | pkg/picod/files.go:475-475 | following Rel from the base leads to the target |
| `Paths.CleanStringIdempotent` | pkg/picod/files.go:461-461 | Clean of a string is idempotent |
| `Paths.JoinCleaned` | pkg/picod/files.go:470-471 | Clean may be applied to the relative part before joining without changing the result |
| `FileSystem.WalkSplit` | pkg/picod/files.go:397-425 | resolving a path is resolving its front to a directory and going on from there, links included |
| `FileSystem.WalkExtends` | pkg/picod/files.go:397-425 | new nodes do not disturb what already resolves |
| `FileSystem.WalkWithoutLinks` | pkg/picod/files.go:488-488 | in a tree without links a path resolves exactly if the places on its way exist, and then to where Clean of it leads: ".." is the parent |
| `FileSystem.WalkFollowsWords` | pkg/picod/files.go:488-488 | the same in any tree for a way that meets no link |
| `FileSystem.ThroughLink` | pkg/picod/files.go:407-407 | a link anywhere on a path leads where its target leads from the directory that holds it, or from the root if it is absolute, and costs one link |
| `FileSystem.LinkIsItsText` | pkg/picod/files.go:407-407 | so a relative link anywhere on a path may be replaced by its text |
| `CodeInterpreterController.PoolHasTemplateIff` | pkg/workloadmanager/codeinterpreter_controller.go:53-100 | a warm pool keeps its template wherever a pass stops, if and only if stale reads do not mislead the pass in one of two ways |
| `CodeInterpreterController.PoolAlwaysHasTemplate` | pkg/workloadmanager/codeinterpreter_controller.go:53-100 | with current reads a warm pool has its template after every single API call of a pass |
| `CodeInterpreterController.HistoriesStaySound` | pkg/workloadmanager/codeinterpreter_controller.go:53-127 | and along every sequence of passes cut off anywhere, under changing specifications and reads that do not mislead |
| `CodeInterpreterController.PassSettles` | pkg/workloadmanager/codeinterpreter_controller.go:53-127 | a completed pass leaves what the specification asks for; it is put off exactly if the key is missing, and six calls suffice unless template or key is missing |
| `CodeInterpreterController.PassWritesTemplate` | pkg/workloadmanager/codeinterpreter_controller.go:130-197 | the template a completed pass leaves holds the declared environment in order, the public key exactly with picod authentication, and no empty runtime class |
| `CodeInterpreterController.HoldsIffConverted` | pkg/workloadmanager/codeinterpreter_controller.go:301-340 | these conditions determine the converted pod spec |
| `CodeInterpreterController.CompletesIff` | pkg/workloadmanager/codeinterpreter_controller.go:53-298 | whatever the reads show, a pass with calls enough completes exactly if key and template are there and no update conflicts; creating what exists and deleting what is gone is no conflict |
| `CodeInterpreterController.GoneIsQuiet` | pkg/workloadmanager/codeinterpreter_controller.go:53-65 | a CodeInterpreter that is gone is left alone |
| `CodeInterpreterController.SettledIsQuiet` | pkg/workloadmanager/codeinterpreter_controller.go:105-127 | on a settled state a pass with current reads writes nothing |
| `CodeInterpreterController.SettledIsStable` | pkg/workloadmanager/codeinterpreter_controller.go:53-298 | on a settled state a pass changes nothing whatever its reads show |
| `CodeInterpreterController.CompletedStays` | pkg/workloadmanager/codeinterpreter_controller.go:53-127 | after one completed pass no sequence of further passes changes anything, whatever they read |
| `CodeInterpreterController.InterruptedThenComplete` | pkg/workloadmanager/codeinterpreter_controller.go:53-298 | after any sequence of passes, cut off and misled as they may be, one complete pass ends where it would have ended alone, up to pod template metadata |
| `CodeInterpreterController.MetadataSurvivesIff` | pkg/workloadmanager/codeinterpreter_controller.go:342-345 | the final template differs from the specified one exactly if a template with equal pod spec and other metadata was there |
| `CodeInterpreterController.Reconciler.Reconcile` | pkg/workloadmanager/codeinterpreter_controller.go:53-100 | the method, with its flags and early returns, is the pass; a CodeInterpreter that is gone ends it |
| `CodeInterpreterController.Reconciler.EnsureSandboxTemplate` | pkg/workloadmanager/codeinterpreter_controller.go:130-197 | requeue without key, error without template, create (existing counts as success), update (conflict is an error) or leave |
| `CodeInterpreterController.Reconciler.EnsureSandboxWarmPool` | pkg/workloadmanager/codeinterpreter_controller.go:200-258 | create (existing counts as success), update (conflict is an error) or leave |
| `CodeInterpreterController.Reconciler.DeleteSandboxWarmPool` | pkg/workloadmanager/codeinterpreter_controller.go:261-278 | delete what the read shows; gone counts as success |
| `CodeInterpreterController.Reconciler.DeleteSandboxTemplate` | pkg/workloadmanager/codeinterpreter_controller.go:281-298 | delete what the read shows; gone counts as success |
| `CodeInterpreterController.Reconciler.UpdateStatus` | pkg/workloadmanager/codeinterpreter_controller.go:105-127 | writes exactly if the status that was read is not up to date |
| `SandboxWatch.NotifyOnce` | pkg/workloadmanager/sandbox_controller.go:45-102 | in every interleaving each channel is sent to at most once, into an empty slot, and nothing is dropped |
| `SandboxWatch.SentIsReceivedOrBuffered` | pkg/workloadmanager/sandbox_controller.go:65-95 | on every run what was sent to a channel and not received is in it |
| `SandboxWatch.ReceivedOnce` | pkg/workloadmanager/sandbox_controller.go:81-95 | so a waiter receives at most once |
| `SandboxWatch.ReceivedIsReady` | pkg/workloadmanager/sandbox_controller.go:45-79 | in every interleaving a waiter receives only the sandbox it registered for, and that one ready |
| `SandboxWatch.ReachedIff` | pkg/workloadmanager/sandbox_controller.go:45-102 | on every run a registered waiter is reached if and only if a reconcile finds its sandbox ready before its name is withdrawn or registered again |
| `SandboxWatch.ReadyReachesWaiter` | pkg/workloadmanager/handlers.go:209-218 | the direction that createSandbox relies on: registered before the create and not withdrawn, the first ready reconcile reaches the waiter |
| `SandboxWatch.SecondWatchSilences` | pkg/workloadmanager/sandbox_controller.go:81-95 | hence a second registration of the same name silences the first waiter on every run |
| `SandboxWatch.SandboxReconciler.WatchSandboxOnce` | pkg/workloadmanager/sandbox_controller.go:81-95 | the registration step of the protocol |
| `SandboxWatch.SandboxReconciler.UnWatchSandbox` | pkg/workloadmanager/sandbox_controller.go:97-102 | the withdrawal step |
| `SandboxWatch.SandboxReconciler.ReconcileLocked` | pkg/workloadmanager/sandbox_controller.go:45-63 | the locked section: only a ready sandbox takes the channel |
| `SandboxWatch.SandboxReconciler.ReconcileSend` | pkg/workloadmanager/sandbox_controller.go:65-79 | the send, with the default branch for a full channel |
| `McpSessions.Server.CallWithSessionRecovery` | integrations/code-interpreter-mcp/agentcube_code_interpreter_mcp/server.py:133-164 | returns exactly if the last run of the operation went well, and names its session; a second run exactly if the given session proved stale and a new one could be opened; the cache maps every key to an open client of that session; without reuse nothing the call created is live or cached, by return or exception; no other session is touched |
| `McpSessions.NothingLeft` | integrations/code-interpreter-mcp/agentcube_code_interpreter_mcp/server.py:107-164 | without reuse the cache loses the given session and gains nothing, and what exists afterwards is what existed before less a given session that was served |
| `McpSessions.SessionKept` | integrations/code-interpreter-mcp/agentcube_code_interpreter_mcp/server.py:133-164 | with reuse the session that served is cached and exists, and a stale one is dropped from both for the new one |
| `McpSessions.OthersUntouched` | integrations/code-interpreter-mcp/agentcube_code_interpreter_mcp/server.py:133-164 | no other session is touched, and a new one is opened only without a given session or after it proved stale |
| `McpSessions.Server.StartOver` | integrations/code-interpreter-mcp/agentcube_code_interpreter_mcp/server.py:147-161 | the recovery: the answer and the sessions it leaves |
| `McpSessions.Server.ClientForCall` | integrations/code-interpreter-mcp/agentcube_code_interpreter_mcp/server.py:71-104 | cached client, attached client or new session, and what is cached and live afterwards |
| `McpSessions.Server.CleanupAfterCall` | integrations/code-interpreter-mcp/agentcube_code_interpreter_mcp/server.py:107-116 | with reuse nothing changes, without reuse session and cache entry go |
| `McpSessions.Server.StopSession` | integrations/code-interpreter-mcp/agentcube_code_interpreter_mcp/server.py:418-441 | the session leaves cache and control plane, cached or not |
| `McpSessions.NewClient` | sdk-python/agentcube/code_interpreter.py:120-142 | a session that cannot be reached is deleted again before the error is raised |
| `McpSessions.Client.Stop` | sdk-python/agentcube/code_interpreter.py:162-178 | closes once and deletes the session it had |
| `Ownership.OwnerCarried` | pkg/router/session_manager.go:243-264 | on every run the owner on a record, before and after commit, is the one the create request resolved to |
| `Ownership.OwnerWasSigned` | pkg/workloadmanager/identity.go:37-104 | on every run, whatever tokens create requests carry, a record has an owner exactly if its request carried a token, and that token was signed with the cached key for this audience, unexpired, and names the owner |
| `Ownership.ResolvedIff` | pkg/workloadmanager/identity.go:37-104 | a create request is turned away exactly if it carries a token that cannot be checked yet or does not verify |
| `Ownership.ForwardedIffOwnerOrAdmin` | pkg/router/handlers.go:93-129 | on every run with OIDC on, a request is forwarded exactly for an admin or for the subject of the token that came with the create request |
| `Ownership.OpenWithoutClaims` | pkg/router/handlers.go:93-129 | with OIDC off, and for a request without claims, ownership is not asked for |
| `Ownership.CreatorOwns` | pkg/router/session_manager.go:243-264 | end to end, a session created with the identity the router signs for a caller is forwarded exactly to that caller and to admins |

## Left out

- Handlers.Server.CreateSandbox: takes the outcome of its waits as parameters; Waiting and SandboxWatch say what they can be.
- Waiting.WaitForClaimSandboxReady: takes the answers and the context of each round as parameters, without clock or ticker; how client libraries classify an error is not modelled.
- GarbageCollection.GarbageCollector.Once: is stated over the Redis store, whose contracts the Valkey store shares.
- GcDrain.ExpiredDrain: takes a list call (range and load) and a store operation as one event each, as the other histories of the collector do; single commands are the subject of Lifecycle.
- GcStarvation.PatientFrontStarves: the patient sessions are not used meanwhile; a touch would send one of them to the end of the index.
- CodeInterpreterController.PassSettles: asks for reads that show the objects as they are, and assumes that the API server returns specs as they were written; defaulting and normalisation are not modelled.
- CodeInterpreterController.InterruptedThenComplete: is up to pod template metadata, which the code does not converge.
- CodeInterpreterController.Reconciler.Reconcile: writers other than the reconciler act between passes, not between two calls of one pass; what such a writer does shows as a stale read.
- Store.ValkeyStore.UpdateSessionLastActivity: is about a sequential run; interleaved runs are the subject of TouchRefinement.
- Store.RedisStore.LoadSandboxesBySessionIDs: does not model network or JSON errors; the same holds for every other store operation.
- Picod.Server.MkdirSafe: takes a clean absolute path, which is what sanitizePath hands to its caller, and assumes that nobody else changes the filesystem during the call and that permissions allow every call.
- Caches.ClientCache.Get: does not model the mutex; the doubly linked list is a sequence of the shared entry objects, so its pointer updates are not modelled.
- Caches.ClientCache.Set: takes the token's expiry as a parameter; parsing the JWT is not modelled.
- McpSessions.Server.CallWithSessionRecovery: is about calls that do not overlap; a client shared by two running calls is not modelled.
- Pipelines in which a command fails while later ones of the same pipeline succeed.
- Session IDs that make a session key collide with an index key; key prefixes.
- Scores are integers; the floating-point representation of seconds is not modelled.
- The dial behind the entry-point probe, the pod IP lookup, and backoff between retries.
- HTTP routing, reverse proxying, TLS, JSON, cryptography, JWT encoding and OIDC discovery.
- Pod specs, labels, annotations and environment of the built objects, except as opaque values.
- PicoD's upload, download, listing and command execution, and file modes.
- The Python CLI, the SDK's data plane calls and the example agents.
