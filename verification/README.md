# Verified models of the cluster monitor

This project models the concurrent and stateful cores of a cluster-monitoring system in Dafny and
proves what they keep over every input, every interleaving and every reachable state:

- the manager's task dispatcher: hash-sharded ingest queues, the query call with its promise and
  timeout, the query workers that come and go, and both together (`Ingest`, `QueryCalls`,
  `QueryScaling`, `QueryWorkers`, `QueryOutage`);
- the manager's MySQL and Redis connection pools (`PoolModel`, `PoolRuns`, `ConnectionPool`);
- the agent's memory: its keys and layered policies, the bounded session window with its summary and
  turns that overlap, and the long-term items with their vector index (`MemoryKeys`, `MemoryPolicy`,
  `MemorySessions`, `MemoryTurns`, `LongTermItems`, `LongTermMemory`, `LongTermRuns`,
  `LongTermRetry`);
- the chat stream, from the Go frame printer to the TypeScript parser (`SseFormat`, `SseStream`), in
  the event-stream format of sections 9.2.5 and 9.2.6 of the HTML Living Standard;
- the drop-oldest MySQL write queue and the semaphore-limited fan-out (`WriteQueue`, `FanOut`);
- the anomaly query with its SQL prefilter, sort and pages (`Anomalies`, `Paging`);
- the CPU percentages computed from counter deltas (`CpuStats`).

`dafny verify dfyconfig.toml` checks everything. Text and sequence helpers are in `Text.dfy`.

## How the models are built

Concurrent code is a state machine. `Step` performs one atomic action (one atomic load, one queue
operation, one access to a locked store, one critical section under a mutex), an action that is not
enabled changes nothing, and `Exec` follows an arbitrary sequence of actions, so a statement about
`Exec` is a statement about every interleaving of these actions. Objects that the source updates in
place are classes whose methods carry the source's loops and are proved equal to a function of the old
state; a method stands for a call that nobody disturbs. Where the source holds no lock over the call,
as in the agent's memory, the call is also split into its accesses, and it is proved that the accesses
left alone do what the method does (`MemoryTurns.TurnAlone`, `LongTermRuns.DeleteAlone`,
`LongTermRuns.RetryAlone`). Answers of the outside world (connect, ping, the vector index, the SQL
statements, the clock, the hash function) are parameters, and the theorems hold for all of them.

## What the proofs found

Where the code does not meet a property, the model follows the code and the exact condition is proved.

- The MySQL health pass overwrites the handle of an idle entry that was marked unhealthy without
  closing it (manager/src/MysqlConnectionPool.cpp:236-241). Handles are conserved exactly when no
  health pass meets such an entry (`PoolRuns.HandlesConservedIff`); four steps reach the loss
  (`PoolRuns.MysqlHandleIsLost`). The Redis pool conserves every handle.
- An ingest submission that reads `running_` before `stop` and writes after the worker has left is
  accepted and never executed. `stop` has executed everything exactly when no submission straddles it
  (`Ingest.StopRunsEverythingIff`).
- The shrink check of the query workers keeps no minimum. For a pool with a fixed number of spawning
  threads, idle shrinking alone can leave no worker exactly when the maximum minus one plus these
  threads is above the minimum (`QueryScaling.ShrinkCanEmptyIff`). For the dispatcher as a whole, with
  any number of callers, exactly when the maximum is at least one and either the queue can reach the
  watermark or the minimum is below one (`QueryOutage.OutageIff`); every configuration of the
  environment loader is of this kind. From then on no call is answered by its task until the queue
  reaches the watermark (`QueryOutage.NobodyAnswers`); then the next caller can bring a worker back
  (`QueryOutage.WatermarkBringsWorker`).
- A dispatcher can answer a call at all exactly when a worker may exist and the capacity or the
  watermark of the query queue is positive (`QueryWorkers.ServableIff`): the room for one task that the
  constructor gives to a queue of capacity zero is unusable if the watermark is zero too.
- A carriage return at the end of a line of reply text is lost between server and browser, and nothing
  else is (`SseFormat.RoundTrip`, `SseStream.ShownReplyIsStoredReply`).
- `SetPolicy` with an unknown level stores a global policy. Team, cluster and session keys are joined
  with slashes that identifiers may contain, so two scopes can share one (`MemoryKeys.SlashCollision`).
  A valid scope has its key to itself exactly when the key can be cut at slashes into identifiers in
  only one way (`MemoryKeys.PolicyKeyIsOwnIff`, `MemoryKeys.SessionKeyIsOwnIff`), and exactly then
  setting a policy stays local (`MemoryPolicy.SetPolicyIsLocalIff`). Tenant keys are never shared.
- Of two turns of one session that both load it before either saves, one can be lost
  (`MemoryTurns.OverlapLosesTurn`). Sessions are those of serial turns exactly when no save meets a
  session that has changed since it was loaded (`MemoryTurns.SerialIff`; for the messages alone
  `MemoryTurns.MessagesSerialIff`), and turns that do not overlap
  have no such save (`MemoryTurns.NoOverlapNoStale`).
- A listing is cut at its limit after sorting, items with a cluster first and then newest first. Where
  the matching items have at most one cluster id besides the empty one, an item is in every listing
  exactly when those that do not come after it fit the limit (`LongTermItems.ListedIff`). So a retry can
  miss items marked longer ago (`LongTermMemory.RetryReachesIff`,
  `LongTermMemory.RetryIsIdempotentIff`) and a recall can miss an older hit, because the cut comes before
  the hits are looked at (`LongTermMemory.RecallFindsIff`); but within one cluster a retry with the
  selector of a stopped delete reaches all of its items, whatever the limit, if nothing else was marked
  since (`LongTermRetry.SameSelectorCompletes`). Between two different non-empty cluster ids the
  comparator puts each before the other and is no order.
- A delete or retry that clears the index while the upsert of one of its items is outstanding can leave
  the vector of a deleted item (`LongTermRuns.OverlapLeavesVector`,
  `LongTermRuns.LateUpsertLeavesVector`), and without such a clearing no deleted item ever has one
  (`LongTermRuns.DeletedHasNoVectorIff`, `LongTermRuns.VectorFreeIff`). A second delete that did its listing earlier sets a deleted
  item back to being deleted (`LongTermRuns.SecondDeleteSetsBack`,
  `LongTermRuns.DeletedStaysDeletedIff`), so a completed retry is final only if no such delete is under
  way.
- The SQL prefilter hides rows whose `up` (or, for a Redis replica, `master_link_up`) is NULL, and
  MySQL rows that lag without being marked as replicating; with negative thresholds also rows with NULL
  measurements. It changes nothing exactly when there are no such rows without another reason to be
  fetched (`Anomalies.PrefilterChangesNothingIff`).
- A failing second or third SQL statement returns what was collected before it, unsorted and unpaged
  (`Anomalies.QueryAnomalyRecords`).

Where code and documentation disagree, the code is modelled: the repository's written requirements for
agent memory restrict a recall without a cluster id to items without one, while the code matches every
cluster (`LongTermMemory.ClusterRuleIff`, `LongTermMemory.ClusterRuleBroken`); and a vector search
without hits recalls the whole listing (`LongTermMemory.LongTermStore.Recall`).

## Model

| member | source | states |
|---|---|---|
| QueryCalls.StepKeepsInv | manager/include/ManagerDispatcher.h:83-126 | one atomic step of any caller, worker, `start` or `stop` keeps: distinct queued calls within capacity, each outstanding and held by no worker; at most one worker per task, and only workers in their loop hold one; a response untouched until an OK return |
| QueryCalls.RunKeepsInv | manager/include/ManagerDispatcher.h:83-126 | the same over every interleaving of any number of callers, workers, timeouts and a stop |
| QueryCalls.ResponseOnlyOnOk | manager/include/ManagerDispatcher.h:83-126 | in every interleaving the status is the promise's or one of the dispatcher's own, the response is the task's result after OK and the initial one otherwise, and a worker never shares the result with the reading caller or a second worker |
| QueryCalls.StepIsFinal | manager/include/ManagerDispatcher.h:99-125 | no step changes the status or response of a returned call, or a promise that is set and the result behind it |
| QueryCalls.ReturnIsFinal | manager/include/ManagerDispatcher.h:117-125 | after the return no continuation, including a late worker, changes status or response |
| QueryCalls.CallerAlwaysProgresses | manager/include/ManagerDispatcher.h:83-126 | a call that has not returned can always take a step of its own that lowers a rank of at most thirteen, and nobody else moves it |
| QueryCalls.PromiseDecides | manager/include/ManagerDispatcher.h:118-125 | once the promise is set while the caller waits, every continuation returns its status and none times out |
| QueryCalls.GivesUp | manager/include/ManagerDispatcher.h:118-121 | a caller whose promise is not set can give up with DEADLINE_EXCEEDED and an untouched response |
| QueryCalls.LeavesLoopIff | manager/src/ManagerDispatcher.cpp:110-143 | a step takes a worker out of its loop if and only if it found the queue empty and was long idle above the minimum, or found the dispatcher stopped and the queue empty |
| QueryWorkers.CallAloneIff | manager/include/ManagerDispatcher.h:83-115 | for every queue length, a caller that nobody disturbs ends queued and waiting if and only if the dispatcher is running, the queue holds less than max(1, capacity), and less than the watermark or the capacity; otherwise it is refused |
| QueryWorkers.StartAlone | manager/src/ManagerDispatcher.cpp:24-35 | left alone, `start` brings up min(minimum, maximum) workers, at least one if the maximum allows any |
| QueryWorkers.LoneCallIsServed | manager/include/ManagerDispatcher.h:83-126 | from every state with an empty queue, a worker in its loop without a task and a running dispatcher, every status and result a task can have reaches its caller |
| QueryWorkers.ServableIff | manager/src/ManagerDispatcher.cpp:24-35 | some call can be answered OK if and only if the thread maximum is at least one and the capacity or the watermark is positive |
| QueryWorkers.StepRefines | manager/src/ManagerDispatcher.cpp:110-158 | every step of callers, `start` and workers is one step of the pool of `QueryScaling`, or none |
| QueryWorkers.PoolRefinesScaling | manager/src/ManagerDispatcher.cpp:110-158 | in every run the worker count equals the workers counted in and not out and, with n callers, is zero or at most the maximum plus n |
| QueryOutage.NobodyAnswers | manager/src/ManagerDispatcher.cpp:145-158 | with no worker left and the queue below the watermark no promise is set and no worker comes back, whoever calls |
| QueryOutage.NewCallsAreRefused | manager/include/ManagerDispatcher.h:83-126 | every call that comes in and returns meanwhile gets an error of the dispatcher itself and an untouched response |
| QueryOutage.WatermarkBringsWorker | manager/src/ManagerDispatcher.cpp:145-158 | once the queue is at the watermark and below the thread maximum, the next caller can bring a worker and the oldest task gets any outcome |
| QueryOutage.AllWorkersCanLeave | manager/src/ManagerDispatcher.cpp:110-143 | whenever more than the minimum are counted and all are without a task, all of them can leave |
| QueryOutage.OutageIff | manager/src/ManagerDispatcher.cpp:24-158 | a running dispatcher can lose all its workers if and only if the maximum is at least one and the watermark is within the queue or the minimum is below one |
| QueryCalls.PromiseComesFromTask | manager/include/ManagerDispatcher.h:99-111 | in every run a promise carries the status of the end of its own task, an exception giving INTERNAL |
| QueryScaling.StepKeepsInv | manager/src/ManagerDispatcher.cpp:110-158 | every unlocked check, add, launch, shrink and subtract keeps the count equal to the workers counted in and not out, and the bound on the count plus the threads past the check |
| QueryScaling.WorkerCountBound | manager/src/ManagerDispatcher.cpp:110-158 | in every reachable state the counter equals the workers counted in and not out and, unless zero, is at most the maximum minus one plus the spawning threads |
| QueryScaling.WorkerCountBoundIsReached | manager/src/ManagerDispatcher.cpp:145-158 | the bound is tight: a run reaches it for every maximum and thread count of at least one |
| QueryScaling.ShrinkCanEmptyIff | manager/src/ManagerDispatcher.cpp:110-158 | a run without a stop launches workers and ends with none if and only if threads and maximum are at least one and the maximum minus one plus the threads exceeds the minimum |
| Ingest.StepKeepsInv | manager/src/ManagerDispatcher.cpp:37-108 | every step keeps, per shard: accepted = started + queued and started = finished + in flight, in order, and fresh task ids |
| Ingest.RunKeepsInv | manager/src/ManagerDispatcher.cpp:37-108 | the same over every run |
| Ingest.KeyOrderIsKept | manager/src/ManagerDispatcher.cpp:53-108 | for every partition key and run: finished is a prefix of started, at most one behind, started a prefix of accepted, and nothing is repeated |
| Ingest.SubmitIff | manager/src/ManagerDispatcher.cpp:53-84 | a submission that nobody disturbs is accepted, at the end of the queue of shard hash(key) mod max(1, shards), if and only if the dispatcher is running and that queue holds less than max(1, capacity) |
| Ingest.RefusedIffFull | manager/src/ManagerDispatcher.cpp:71-74 | a run refuses a task if and only if one of its submissions meets a full queue |
| Ingest.EverySubmissionIsAccounted | manager/src/ManagerDispatcher.cpp:53-84 | in every run each submission that saw `running_` is accepted, refused or about to write |
| Ingest.StopRunsEverythingIff | manager/src/ManagerDispatcher.cpp:37-108 | every continuation in which `stop` returns has executed all accepted tasks if and only if no submission straddles the stop |
| Ingest.StraddlerIsLost | manager/src/ManagerDispatcher.cpp:37-79 | every straddling submission has a continuation in which it is accepted and `stop` returns without executing it |
| PoolModel.AcquireKeepsInv | manager/src/MysqlConnectionPool.cpp:105-139 | one acquire pass leases exactly the entry it returns, the first usable one, disturbs no lease, loses no handle, and fails only if no idle entry could be made healthy and the pool is full or the new connection failed |
| PoolModel.EnsureHealthyKeepsInv | manager/src/MysqlConnectionPool.cpp:175-197 | repairing an idle entry keeps the invariant and every lease and loses no handle |
| PoolModel.EnsureHealthyOutcome | manager/src/MysqlConnectionPool.cpp:175-197 | a handle that answers is kept, one that does not is closed and replaced if the server connects, and a missing one is opened if it does |
| PoolModel.ReleaseKeepsInv | manager/src/MysqlConnectionPool.cpp:199-214 | the entry becomes idle with the same handle and stays healthy exactly if the guard was healthy and, for MySQL, the handle has no error; nothing else changes |
| PoolModel.RepairFollowsServer | manager/src/RedisConnectionPool.cpp:193-209 | with a server that always answers the repairs leave every entry healthy, with one that never answers no idle entry open |
| PoolModel.ReapKeepsInv | manager/src/MysqlConnectionPool.cpp:249-261 | idle reaping leaves at least the smaller of the minimum and the handles open before, and above the minimum no expired idle connection |
| PoolModel.ReapsOnlyTheStale | manager/src/RedisConnectionPool.cpp:192-220 | a health pass closes after its repairs only idle connections unused for longer than the time to live, leaves every other entry as repaired, and above the minimum leaves no such connection; repairs keep the time and failures of a connection that answers |
| PoolModel.HealthPassKeepsInv | manager/src/MysqlConnectionPool.cpp:225-265 | a health pass changes no leased entry and no entry count, and loses exactly the handles of idle, unhealthy, open MySQL entries |
| PoolModel.StopClosesEverything | manager/src/MysqlConnectionPool.cpp:90-103 | after `stop` every handle ever opened is closed except those lost before, each once |
| PoolRuns.StepKeepsInv | manager/src/MysqlConnectionPool.cpp:21-53 | acquire, guard destruction, move, unhealthy mark and health pass keep the pool and guard invariant, and only a health pass loses a handle |
| PoolRuns.MoveHandsOver | manager/src/MysqlConnectionPool.cpp:24-43 | a move hands over exactly what the source held, mark included, gives back what the target held, and touches no other guard |
| PoolRuns.MarkIsKept | manager/src/MysqlConnectionPool.cpp:45-53 | a marked guard gives its connection back idle, open and unhealthy |
| PoolRuns.AcquireStartsHealthy | manager/src/MysqlConnectionPool.cpp:21-22 | a new guard starts unmarked |
| PoolRuns.PoolIsSafe | manager/src/MysqlConnectionPool.cpp:21-265 | in every reachable state guards and leased entries correspond one to one, each guard holds its entry's handle, entries never share a handle, healthy means open, and the size stays within the maximum |
| PoolRuns.RedisConservesHandles | manager/src/RedisConnectionPool.cpp:58-223 | in every reachable state of the Redis pool opened = held + closed, and `stop` closes all of them |
| PoolRuns.HandlesConservedIff | manager/src/MysqlConnectionPool.cpp:225-247 | opened = held + closed if and only if no health pass of a MySQL pool met an idle, unhealthy, open entry |
| PoolRuns.MysqlHandleIsLost | manager/src/MysqlConnectionPool.cpp:236-241 | acquire, mark, release and a health pass lose a handle |
| ConnectionPool.ConnectionPool.constructor | manager/src/MysqlConnectionPool.cpp:55-67 | an empty pool that is not started |
| ConnectionPool.ConnectionPool.Start | manager/src/MysqlConnectionPool.cpp:71-88 | opens the minimum number of connections, once |
| ConnectionPool.ConnectionPool.AcquireOnce | manager/src/MysqlConnectionPool.cpp:105-139 | the scanning loop in place computes the acquire pass of the model |
| ConnectionPool.ConnectionPool.GiveBack | manager/src/MysqlConnectionPool.cpp:199-214 | the release in place computes the release of the model |
| ConnectionPool.ConnectionPool.HealthTick | manager/src/RedisConnectionPool.cpp:186-223 | the repair, count and reap loops in place compute the health pass of the model, for either pool |
| ConnectionPool.ConnectionPool.CountOpen | manager/src/RedisConnectionPool.cpp:211-213 | the number of entries with a handle |
| ConnectionPool.ConnectionPool.Stop | manager/src/RedisConnectionPool.cpp:73-83 | closes and removes all entries, leased ones included, once |
| MemoryPolicy.ApplyPolicy | agent_service/internal/session/memory/policy.go:41-63 | overwriting the set fields makes the override the most specific of those in force |
| MemoryPolicy.ResolvePolicy | agent_service/internal/session/memory/policy.go:6-39 | the loop from wide to narrow gives each field its most specific setting, else the configured or default value |
| MemoryPolicy.ResolutionIsLayered | agent_service/internal/session/memory/policy.go:6-70 | every field is that of the policy under "cluster/…" if the scope has all three identifiers and that policy sets it, else "team/…", else "tenant/…", else "global", else the configured or default value |
| MemoryPolicy.MostSpecificWins | agent_service/internal/session/memory/policy.go:6-63 | the value is that of the last override setting the field, or the fallback if none does |
| MemoryPolicy.WindowsArePositive | agent_service/internal/session/memory/policy.go:6-70 | every window, limit and budget in force is positive, whatever was configured or stored |
| MemoryKeys.ReadingsAreCuts | agent_service/internal/session/memory/types.go:92-112 | the readings of a text are exactly the lists of fitting identifiers that join to it |
| MemoryKeys.KeysAsText | agent_service/internal/session/memory/types.go:92-112 | session and policy keys as text, trimmed identifiers in order |
| MemoryKeys.ValidScopes | agent_service/internal/session/memory/types.go:43-89 | which non-blank identifiers a memory, session and policy scope needs |
| Text.TrimCutsSpace | agent_service/internal/session/memory/types.go:32-40 | trimming cuts whitespace and nothing else off both ends |
| MemoryKeys.SessionKeyIsOwnIff | agent_service/internal/session/memory/types.go:92-95 | a valid scope has its session key to itself if and only if the key can be cut into the five identifiers of a valid session in only one way |
| MemoryKeys.SlashCollision | agent_service/internal/session/memory/types.go:98-112 | two different teams that share a policy key |
| MemoryKeys.SameKeyIff | agent_service/internal/session/memory/types.go:98-112 | for all identifiers, two policy keys are equal if and only if they are of one level and their identifiers join to the same text |
| MemoryKeys.PolicyKeyIsOwnIff | agent_service/internal/session/memory/types.go:98-112 | a valid scope has its policy key to itself if and only if the key is unambiguous, which global and tenant keys always are |
| MemoryKeys.SlashFreeIsUnambiguous | agent_service/internal/session/memory/types.go:98-112 | identifiers without a slash are unambiguous |
| MemoryPolicy.ConsultedIffSameText | agent_service/internal/session/memory/policy.go:6-39 | a stored policy is consulted for a scope if and only if the scope has the identifiers of its level and they join to the same text |
| MemoryPolicy.ConsultedIffUnder | agent_service/internal/session/memory/policy.go:6-39 | a stored policy is consulted for exactly the scopes under the place it was set at, if and only if its key is unambiguous |
| MemoryPolicy.SetPolicyIsLocalIff | agent_service/internal/session/memory/in_memory.go:377-397 | setting a policy changes no resolution outside its part of the hierarchy, in any store and configuration, if and only if its key is unambiguous |
| MemorySessions.MemoryManager.SetPolicy | agent_service/internal/session/memory/in_memory.go:200-206 | refuses an invalid scope, otherwise stores under the level's key and changes nothing else |
| MemorySessions.MemoryManager.Append | agent_service/internal/session/memory/in_memory.go:77-102 | undisturbed, refuses an invalid scope, otherwise appends the non-blank messages, cuts the window and renews the summary of that session only |
| MemorySessions.MemoryManager.Summarize | agent_service/internal/session/memory/in_memory.go:105-142 | undisturbed, refuses an invalid scope; an empty window changes nothing, otherwise only the summary of that session is replaced |
| MemorySessions.MemoryManager.Render | agent_service/internal/session/memory/in_memory.go:118-139 | the rendered window cut to its last `TokenBudget` characters is the new summary |
| MemorySessions.MessagesAreSuffix | agent_service/internal/session/memory/in_memory.go:77-102 | after any history of turns and summaries one after the other, a session's messages are a suffix of its non-blank transcript |
| MemorySessions.OthersLeaveSession | agent_service/internal/session/memory/in_memory.go:361-374 | a session is changed by its own turns and summaries only |
| MemorySessions.LastTurnDecides | agent_service/internal/session/memory/in_memory.go:77-142 | after any history, whatever is done to other sessions between and after, the last turn keeps the last `RecentWindow` messages and, if there are any, the summary is the last `TokenBudget` characters of the rendering of the last min(recent, summary) messages |
| MemorySessions.SaidInTurn | agent_service/internal/session/memory/in_memory.go:90-95 | a turn says the trimmed user message, then the trimmed assistant message, blank ones left out; and how each is rendered |
| MemorySessions.FirstTurnIsRemembered | agent_service/internal/session/memory/in_memory.go:77-142 | the first turn of a session leaves both messages in order and their two lines, cut to the budget, as the summary |
| MemoryTurns.TurnAlone | agent_service/internal/session/memory/in_memory.go:77-142 | the accesses of a turn, policy reads included, left alone do what the turn does at once |
| MemoryTurns.ResolveAlone | agent_service/internal/session/memory/policy.go:6-39 | the reads of a policy resolution, one level at a time, left alone find what the resolution finds at once |
| MemoryTurns.SerialStepIff | agent_service/internal/session/memory/in_memory.go:86-141 | from a serial state one access keeps the sessions serial if and only if it is not the save of a session changed since its load |
| MemoryTurns.SerialIff | agent_service/internal/session/memory/in_memory.go:86-141 | over any interleaving the sessions are in every state those of the same saves one after the other, if and only if no save is stale |
| MemoryTurns.MessagesSerialIff | agent_service/internal/session/memory/in_memory.go:86-141 | over any interleaving the messages of all sessions are in every state those of the same saves one after the other, if and only if no save finds the messages that stay in its window changed since its load |
| MemoryTurns.SerialRunKeepsSuffix | agent_service/internal/session/memory/in_memory.go:77-142 | in every interleaving without such a save a session's messages are a suffix of its transcript |
| MemoryTurns.NoOverlapNoStale | agent_service/internal/session/memory/in_memory.go:86-141 | a run in which no session is loaded between another job's load and save of it has no stale save |
| MemoryTurns.OverlapLosesTurn | agent_service/internal/session/memory/in_memory.go:86-100 | two turns that both load before either saves leave messages that are no suffix of the transcript in either order |
| LongTermItems.ComparatorIsOrder | agent_service/internal/session/memory/in_memory.go:443-448 | for items of at most one non-empty cluster id the comparator is the order: with a cluster first, then newest first |
| LongTermItems.ListedMeans | agent_service/internal/session/memory/in_memory.go:517-546 | every listed item has the id, trimmed tenant, team and cluster, kind and status asked for and is unexpired; without a limit every such item is listed |
| LongTermItems.ListedIff | agent_service/internal/session/memory/in_memory.go:427-453 | a matching item is in every listing if there is room for it and, where the comparator is an order, only if |
| LongTermItems.RoomIff | agent_service/internal/session/memory/in_memory.go:427-453 | there, room means that there is no limit or those that do not come after the item fit it |
| LongTermMemory.LongTermStore.List | agent_service/internal/session/memory/in_memory.go:427-453 | refuses a scope without tenant or team, otherwise lists distinct matching items, all of them or the first ones up to the limit, newest first within a cluster |
| LongTermMemory.LongTermStore.SortListing | agent_service/internal/session/memory/in_memory.go:443-448 | the same items, in order where the comparator is one |
| LongTermMemory.LongTermStore.Mark | agent_service/internal/session/memory/in_memory.go:456-468 | exactly the listed items before the first unknown id get the status and the time; an unknown id is an error |
| LongTermMemory.LongTermStore.DeleteMemories | agent_service/internal/session/memory/in_memory.go:217-251 | marks a listing deleting, and deleted once the index has dropped its vectors |
| LongTermMemory.DeleteIsSelective | agent_service/internal/session/memory/in_memory.go:217-251 | a delete leaves every item with another id, kind, tenant, team or cluster than asked for exactly as it was |
| LongTermMemory.LongTermStore.RetryDeletingMemories | agent_service/internal/session/memory/in_memory.go:254-287 | the same for the items left deleting |
| LongTermMemory.RetryListsDeleting | agent_service/internal/session/memory/in_memory.go:254-263 | a retry lists only unexpired items being deleted where its selector points, and without a limit all of them |
| LongTermMemory.LongTermStore.Recall | agent_service/internal/session/memory/in_memory.go:289-322 | fails for an invalid scope or a failing search; otherwise at most `RecallLimit` distinct items, all active, unexpired and in scope: those of the listing that the search hit, or all of it if nothing was hit |
| LongTermMemory.RecallFindsIff | agent_service/internal/session/memory/in_memory.go:302-320 | a matching item that the search wants is in every recall if there is room for it; where the comparator is an order, if and only if the search wants it and those that do not come after it fit the limit |
| LongTermMemory.RecallListsScope | agent_service/internal/session/memory/in_memory.go:302-309 | a recall lists only active, unexpired items of the tenant, team and requested cluster, and all of them if they fit its limit |
| LongTermMemory.SaveOutcome | agent_service/internal/session/memory/in_memory.go:400-424 | a saved item has the next id and exactly the given fields, trimmed scope and time; nothing else changes |
| LongTermMemory.LongTermStore.KeepHits | agent_service/internal/session/memory/in_memory.go:310-321 | the listed items that are hits, each once |
| LongTermMemory.ClusterRuleIff | agent_service/internal/session/memory/in_memory.go:517-546 | every recall holds only items of the requested cluster, or of none if none is requested, if and only if the request names a cluster or no matching item has one |
| LongTermMemory.ClusterRuleBroken | agent_service/internal/session/memory/in_memory.go:517-546 | a store with one item of a cluster, recalled without a cluster id |
| LongTermRuns.MarkedStaysMarked | agent_service/internal/session/memory/in_memory.go:145-287 | over any interleaving of the accesses of saves, deletes and retries an item keeps scope, kind and expiry, and once marked by a delete is never active or pending again |
| LongTermRuns.GoneStepIff | agent_service/internal/session/memory/in_memory.go:161-287 | one access keeps deleted items without a vector present or to come, if and only if it does not clear an item whose upsert is outstanding |
| LongTermRuns.DeletedHasNoVectorIff | agent_service/internal/session/memory/in_memory.go:145-287 | over any run that holds in every state, if and only if no delete or retry of the run clears an item whose upsert is outstanding at that moment |
| LongTermRuns.NoVectorIff | agent_service/internal/session/memory/in_memory.go:145-287 | in every state of a run no deleted item has a vector, if and only if the run has no upsert of a deleted item and no final mark of an item with a vector |
| LongTermRuns.VectorFreeIff | agent_service/internal/session/memory/in_memory.go:145-287 | whatever part of the operations is in use, no deleted item ever has a vector if and only if no delete or retry ever clears an item whose upsert is outstanding |
| LongTermRuns.FreshVectorFreeIff | agent_service/internal/session/memory/in_memory.go:145-287 | the same from the empty store |
| LongTermRuns.LateUpsertLeavesVector | agent_service/internal/session/memory/in_memory.go:161-287 | whenever such an item is cleared, some continuation leaves a deleted item with a vector |
| LongTermRuns.OverlapLeavesVector | agent_service/internal/session/memory/in_memory.go:161-251 | a run from the empty store that leaves a deleted item with a vector |
| LongTermRuns.DeleteAlone | agent_service/internal/session/memory/in_memory.go:217-251 | the accesses of a delete, left alone, do what the delete does at once |
| LongTermRuns.RetryAlone | agent_service/internal/session/memory/in_memory.go:254-287 | the accesses of a retry, left alone, do what the retry does at once |
| LongTermRuns.DeletedStaysDeletedIff | agent_service/internal/session/memory/in_memory.go:226-240 | a deleted item stays deleted through a run if and only if no delete that listed it marks it in that run |
| LongTermRuns.SecondDeleteSetsBack | agent_service/internal/session/memory/in_memory.go:226-240 | of two deletes that listed an item the second sets it back after the first has finished |
| LongTermMemory.DeleteOutcome | agent_service/internal/session/memory/in_memory.go:217-251 | selected items end deleted, or deleting when the index fails; all others keep their status |
| LongTermMemory.RetryReachesIff | agent_service/internal/session/memory/in_memory.go:254-287 | every listing of a retry contains an unexpired item being deleted if there is room for it; where the comparator is an order, if and only if it is unexpired and those that do not come after it fit the limit |
| LongTermRetry.JobDeletes | agent_service/internal/session/memory/in_memory.go:254-287 | a retry that listed an item and gets to its end leaves it deleted, unless a delete that listed it marks it in between |
| LongTermRetry.RetryCompletesDelete | agent_service/internal/session/memory/in_memory.go:217-287 | after a delete has marked its items and stopped, and any other accesses, a retry with room for the item that gets to its end leaves it deleted, unless it expired or a delete marks it after the retry's listing |
| LongTermRetry.FreshMarksHaveRoom | agent_service/internal/session/memory/in_memory.go:427-468 | within one cluster a retry with the selector of a delete has room for everything that delete marked, whatever the limit, if no other item was marked at that time or later |
| LongTermRetry.SameSelectorCompletes | agent_service/internal/session/memory/in_memory.go:217-287 | so a stopped delete followed by a retry with the same selector completes for every limit |
| LongTermMemory.RetryIsIdempotentIff | agent_service/internal/session/memory/in_memory.go:254-287 | repeating a successful retry changes no item if and only if the limit of the first cut nothing off |
| SseFormat.SendToClient | agent_service/internal/sse/sse.go:64-76 | appends exactly the frame: id, event, one data line per line of data, blank line |
| SseFormat.DigitsStandForNumber | agent_service/internal/sse/sse.go:67 | the printed id can be read back |
| SseFormat.SplitBlocksExtend | web/src/api/agent.ts:160-166 | splitting a longer text is splitting its first part and then the remainder with the rest, for every cut and every text |
| SseFormat.SeparatorMeans | web/src/api/agent.ts:163 | the separator is two line feeds, each with or without a carriage return before it |
| SseFormat.CutsAtFirstSeparator | web/src/api/agent.ts:163-164 | the first separator ends the first block and the rest is split in the same way |
| SseFormat.NoSeparatorNoBlock | web/src/api/agent.ts:163-164 | text without a separator stays in the buffer |
| SseFormat.ParseSseBlock | web/src/api/agent.ts:105-124 | the loop gives the last event name and the joined data lines, or nothing without data |
| SseFormat.LinesMean | web/src/api/agent.ts:110-117 | a data line loses one optional space, an event line gives its trimmed name, other lines nothing |
| SseFormat.FrameIsOneBlock | web/src/api/agent.ts:160-166 | a printed frame is cut off as one block whatever follows, so its only blank line is its last |
| SseFormat.CleanKeeps | web/src/api/agent.ts:105-124 | what survives of the data is shorter unless no carriage return ends a line, and then equal |
| SseFormat.FrameParses | web/src/api/agent.ts:105-124 | a stream starting with a frame yields its trimmed event name and cleaned data and goes on with the rest |
| SseFormat.RoundTrip | agent_service/internal/sse/sse.go:64-76 | print then parse is the identity if and only if the name is trimmed and no carriage return ends a line of the data |
| SseStream.RunChatStream | agent_service/internal/handler/agent/chat_v1_chat_stream.go:71-93 | writes connected, one message per chunk and the terminal frame, and stores the concatenated chunks |
| SseStream.Relay | agent_service/internal/handler/agent/chat_v1_chat_stream.go:81-93 | the receive loop writes the frames in order and stores every chunk it sends |
| SseStream.SendAgentChatStream | web/src/api/agent.ts:156-183 | what the handlers see depends only on the concatenation of the segments |
| SseStream.HandleBlocks | web/src/api/agent.ts:166-178 | the inner loop extends the outcome by the new blocks and stops at the first error event |
| SseStream.ReceivedExtend | web/src/api/agent.ts:156-183 | a partly received text yields a prefix of the events and tokens of the whole, and an error is final |
| SseStream.WireParses | web/src/api/agent.ts:105-183 | a printed stream is parsed into its events one by one with nothing left over |
| SseStream.StreamIsDelivered | web/src/api/agent.ts:156-183 | for every exchange and segmentation the tokens are the cleaned chunks in order, other frames add none, and the client throws exactly the server's error |
| SseStream.EventsAreDelivered | web/src/api/agent.ts:156-183 | for every exchange and segmentation the browser sees connected, one message per chunk, then done or the error, in this order |
| SseStream.ShownReplyIsStoredReply | agent_service/internal/handler/agent/chat_v1_chat_stream.go:71-93 | the shown text equals the stored text if and only if no chunk has a carriage return at a line end |
| WriteQueue.MysqlWriteQueue.EnqueueMysqlWrite | manager/src/HostManager.cpp:1124-1138 | appends the sample after dropping the oldest exactly when the queue is full |
| WriteQueue.MysqlWriteQueue.TakeOrLeave | manager/src/HostManager.cpp:1140-1152 | takes the oldest sample if there is one, and leaves only when stopped and empty |
| WriteQueue.QueueLaws | manager/src/HostManager.cpp:1124-1159 | in every run entered = taken + dropped + queued, the length stays within capacity, taken samples are a subsequence of entered ones, and samples leave oldest first |
| WriteQueue.NoDropBelowCapacity | manager/src/HostManager.cpp:1124-1138 | a run that never meets a full queue drops nothing |
| FanOut.ServerNames | agent_service/internal/ai/tools/query_monitor_gateway.go:316-323 | the non-empty names in order |
| FanOut.StepKeepsInv | agent_service/internal/ai/tools/query_monitor_gateway.go:325-338 | every goroutine step keeps tokens equal to holders, at most eight, and every written slot equal to its own server's reply |
| FanOut.FanOutIsSequentialMap | agent_service/internal/ai/tools/query_monitor_gateway.go:317-338 | in every interleaving at most eight requests are in flight and the returned slice is the sequential map over the names |
| FanOut.LimitIsReached | agent_service/internal/ai/tools/query_monitor_gateway.go:325-338 | eight requests, or one per server if there are fewer, can be in flight at once |
| FanOut.NeverStuck | agent_service/internal/ai/tools/query_monitor_gateway.go:325-338 | until the call returns some step is enabled |
| FanOut.EachStepCounts | agent_service/internal/ai/tools/query_monitor_gateway.go:325-338 | every enabled step lowers the remaining work by exactly one |
| FanOut.FanOutTerminates | agent_service/internal/ai/tools/query_monitor_gateway.go:325-338 | a run of enabled steps has at most five steps per server plus one, and has returned exactly when it has that many |
| Anomalies.PerfFetchedIff | manager/src/QueryManager.cpp:672-750 | for all thresholds a performance row is anomalous if and only if it is fetched or one the prefilter cannot judge |
| Anomalies.MysqlFetchedIff | manager/src/QueryManager.cpp:752-835 | the same for MySQL rows |
| Anomalies.RedisFetchedIff | manager/src/QueryManager.cpp:837-929 | the same for Redis rows |
| Anomalies.PerfRowContributes | manager/src/QueryManager.cpp:672-700 | a performance row contributes its own anomalies if it is of the tenant, team, cluster, server and time asked for and fetched, and nothing otherwise |
| Anomalies.MysqlRowContributes | manager/src/QueryManager.cpp:752-781 | the same for MySQL rows |
| Anomalies.RedisRowContributes | manager/src/QueryManager.cpp:837-866 | the same for Redis rows |
| Anomalies.PerfRecords | manager/src/QueryManager.cpp:702-750 | the records of a performance row: kind, severity, value, threshold and metric of each, and no others |
| Anomalies.MysqlRecords | manager/src/QueryManager.cpp:783-835 | the records of a MySQL row, and no others |
| Anomalies.RedisTally | manager/src/QueryManager.cpp:868-929 | how many records a Redis row has |
| Anomalies.RedisServerRecords | manager/src/QueryManager.cpp:868-929 | its records about the server, connections, memory and hit rate |
| Anomalies.RedisLinkRecords | manager/src/QueryManager.cpp:868-929 | its records about master link, lag, rejected connections and slow log |
| Anomalies.PrefilterExactIff | manager/src/QueryManager.cpp:672-929 | filtering before classifying loses nothing if and only if every row filtered out yields nothing |
| Anomalies.PrefilterChangesNothingIff | manager/src/QueryManager.cpp:672-929 | for all tables, queries and thresholds the query collects the anomalies of all rows in scope and range if and only if no such row is hidden from the prefilter |
| Anomalies.PrefilterIsExact | worker/src/monitor/MysqlMonitor.cpp:161-215 | with the worker's promise of zero lag without replication, non-null flags and the service's thresholds the prefilter changes nothing |
| Anomalies.ServiceThresholdsNonNegative | manager/src/rpc/QueryService.cpp:278-302 | the thresholds the service passes on are never negative |
| Anomalies.ServiceThresholdsAre | manager/src/rpc/QueryService.cpp:278-302 | each threshold is the requested one if positive, else the service's own |
| Anomalies.QueryAnomalyRecords | manager/src/QueryManager.cpp:649-954 | when it refuses, breaks off or answers; a broken-off query returns exactly what the statements before the failing one gave; an answer is one page of a newest-first permutation of the collected anomalies, with their total |
| Anomalies.Classify | manager/src/QueryManager.cpp:702-750 | the loop over fetched rows collects each row's anomalies in order |
| Paging.SortDescending | manager/src/QueryManager.cpp:931-932 | a newest-first permutation |
| Paging.FirstPagesArePrefix | manager/src/QueryManager.cpp:934-942 | the first n pages are the first n times size records |
| Paging.PagesCoverResult | manager/src/QueryManager.cpp:934-942 | pages 1 to ceil(n / size) concatenate to the whole result and later pages are empty |
| Paging.PageInt32 | manager/src/QueryManager.cpp:935-941 | on 32-bit ints the slice is the mathematical page whenever no intermediate overflows |
| Paging.NoOverflowIff | manager/src/QueryManager.cpp:935-941 | the arithmetic stays in range if and only if page times size does, or the page starts past the end at an offset in range |
| CpuStats.CpuStatMonitor.UpdateOnce | worker/src/monitor/CpuStatMonitor.cpp:106-156 | the loop in place produces the per-core rows, the "all" row and the new cache of the model |
| CpuStats.RowSums | worker/src/monitor/CpuStatMonitor.cpp:68-104 | cpu + idle + iowait is 100 for every reported row, whatever the counters did |
| CpuStats.RowMeans | worker/src/monitor/CpuStatMonitor.cpp:68-104 | a row is reported if and only if the eight counters together moved forward, and each share is the percentage of its own counter |
| CpuStats.SumsAre | worker/src/monitor/CpuStatMonitor.cpp:106-147 | the sums behind the "all" row are, counter by counter, those of the CPUs with an earlier sample |
| CpuStats.RowInRange | worker/src/monitor/CpuStatMonitor.cpp:78-104 | with counters that did not go back all shares lie between 0 and 100 |
| CpuStats.LoopKeeps | worker/src/monitor/CpuStatMonitor.cpp:106-147 | for distinct names and counters that did not go back the loop keeps rows sound, sums growing, and the cache equal to the sample just read for each name and unchanged otherwise |
| CpuStats.LoopBetween | worker/src/monitor/CpuStatMonitor.cpp:106-147 | any bounds of the per-core busy shares bound the ratio of the sums |
| CpuStats.UpdateIsSound | worker/src/monitor/CpuStatMonitor.cpp:106-156 | all rows add up and are in range, and the "all" busy share lies between two reported per-core ones |

## Left out

- CpuStats.UpdateIsSound: 64-bit wrap-around of counters and rounding to float are not modelled; counters are naturals and shares reals.
- Guard objects are values in a map from guard variables, so aliasing and moved-from objects are not captured; a moved-from guard is an absent one.
- Waiting inside `acquire`, condition variables and timeouts of the pools: one pass between two waits is one step, and a caller that waits is a later pass.
- A second start after a stop of the dispatcher or a pool, and the joining of query workers in `stop`.
- Which items a limit keeps when the matching items have several non-empty cluster ids, where the source's comparator is no order; ties of equal update times are open, as in the source.
- The clock stands still within a call of the store class; in `LongTermRuns` it can move between any two accesses.
- Contents of long-term items, the choice of candidates and the scoring of the vector search: candidates and hits are arbitrary, saved items get fresh ids, and a vector is named by its item.
- Status changes made by other stores than the in-memory one.
- UTF-8 decoding of network bytes and the HTTP layer: segments are cut between characters.
- Early error frames sent before the receive loop starts, and the metrics counters everywhere.
- Parameter binding and execution of SQL: each statement fetches exactly the rows for which its condition is true, or fails.
- Write order of samples after they leave the write queue, which depends on a lock taken later.
- agent_service/internal/session/memory/long_mysql_memory.go and short_session_memory.go are not part of this model.
- The user interface, authentication, the language-model pipelines, kernel modules and configuration loading, which would add only easy members.
