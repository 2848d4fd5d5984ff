# QLM scheduling core in Dafny

This project models the in-memory scheduling core of QLM, a request queue that sits in front of a pool
of LLM serving workers, and proves properties of the model.

- Requests are bucketed into **groups** that share a `(model, slo)` key.
- Groups sit in per-worker **virtual queues**.
- Before every dispatch round, the **scheduler** does three things:
  - it refreshes every queued request's remaining slo, quantised to a granularity;
  - it estimates each group's completion time from the request count and the model's token throughput;
  - when some group is projected to miss its slo, it sorts every queue earliest-deadline-first.
- The **queue** then visits the workers in registration order. A worker gets the oldest request of its
  head group when its queue is non-empty and its backpressure is below the batch limit.

Modules, one per source file:

| module | file | source |
|---|---|---|
| `Base` | `base.dfy` | identities, `Option`, `Result`, and the fault kinds the source raises |
| `Requests` | `request.dfy` | `qlm/queue/request.py` |
| `Groups` | `group.dfy` | `qlm/queue/group.py` |
| `VirtualQueues` | `virtual_queue.dfy` | `qlm/queue/virtual_queue.py` |
| `StableSort` | `stable_sort.dfy` | the stable `list.sort` that the EDF policy relies on |
| `RwtEstimator` | `rwt_estimator.dfy` | `qlm/scheduler/rwt_estimator.py` |
| `Scheduler` | `scheduler.dfy` | `qlm/scheduler/scheduler.py` (refresh, violation check, EDF) |
| `VirtualQueueEngine` | `engine.dfy` | `qlm/queue/virtual_queue_engine.py` |
| `EngineInvariants` | `engine_invariants.dfy` | the engine's invariants and the defect lemmas |
| `RequestQueue` | `request_queue.dfy` | `qlm/queue/queue.py` (`register_worker`, `push`, one `run_queue` round) |

How the model represents the system:

- **State.** The state is immutable. Groups are shared mutable objects in the source. Here they live in a
  store `map<GroupId, Group>`, and queues hold group ids.
- **Tables.** The `(model, slo)` → group table and the request → group table are maps. The bidict between
  queues and workers is a map from worker to queue position.
- **Identities.** `uuid4` identities become counters that the state carries.
- **Randomness and time.** The random queue choice becomes a caller-supplied index `pick`. `time.time()`
  becomes a `now` argument.
- **Worker I/O.** A worker's backpressure is an input to the dispatch round. The hand-over to a worker
  is an output record.
- **Exceptions.** An exception raised after the source has already mutated state is modelled as an
  `Outcome` (the state at the raise, plus the fault).

Three defects in the source are modelled twice, once as written and once corrected (see "## Findings").
Everything the queue does goes through the corrected operations.

Two invariants are proved to hold in every state the corrected operations can reach:

- `VirtualQueueEngine.Valid`:
  - the store is closed under the tables;
  - queued groups are non-empty;
  - no group is queued twice or in two queues;
  - the worker binding is one-to-one.
- `VirtualQueueEngine.KeysExact`: the `(model, slo)` table names exactly the queued groups.

## Model

| member | source | states |
|---|---|---|
| Groups.NewGroup | qlm/queue/group.py:11-15 | A new group has the given id, model and slo, and no requests. |
| Groups.AddRequest | qlm/queue/group.py:17-18 | Adding appends at the tail: the length grows by one, earlier requests are unchanged, the new request is last, and the id, model and slo are kept. |
| Groups.PopRequest | qlm/queue/group.py:20-21 | Popping needs a non-empty group. It returns the head, and the head followed by the remainder is the old sequence. The id, model and slo are kept. |
| Groups.AddThenPopIsFifo | qlm/queue/group.py:17-21 | FIFO law: on a non-empty group, add-then-pop returns the same request as popping first, and leaves the same group as pop-then-add. |
| Groups.PopOfSingleton | qlm/queue/group.py:17-21 | A request added to an empty group is the next one popped, and that pop restores the empty group. |
| Groups.DrainIsInsertionOrder | qlm/queue/group.py:17-21 | Popping a group until it is empty yields its requests in exactly the order they were added. |
| VirtualQueues.NewVq | qlm/queue/virtual_queue.py:12-14 | A new queue has the given id and no groups. |
| VirtualQueues.AddGroup | qlm/queue/virtual_queue.py:16-17 | Adding appends at the tail: earlier groups are unchanged, the new group is last, and the id is kept. |
| VirtualQueues.HeadGroup | qlm/queue/virtual_queue.py:22-23 | Needs a non-empty queue. Returns a member of the queue that, followed by the rest, is the whole queue. |
| VirtualQueues.PopGroup | qlm/queue/virtual_queue.py:19-20 | Needs a non-empty queue. Returns the head group, and the head followed by the remaining queue is the old queue. |
| VirtualQueues.AddThenPopIsFifo | qlm/queue/virtual_queue.py:16-20 | FIFO law for groups: add-then-pop and pop-then-add agree. |
| VirtualQueues.AddToEmptyBecomesHead | qlm/queue/virtual_queue.py:16-23 | A group added to an empty queue becomes its head, and popping it restores the empty queue. |
| StableSort.SortBy | qlm/scheduler/scheduler.py:92-93 | The sort returns a permutation of its input that is sorted by the key. For every key value, the elements with that key keep their relative order. |
| StableSort.SortIsTheStableSort | qlm/scheduler/scheduler.py:92-93 | Uniqueness: any sorted permutation that keeps every key's elements in their original order equals `SortBy`. |
| StableSort.SortedWithSameKeysAreEqual | qlm/scheduler/scheduler.py:92-93 | Two sequences that are both sorted by the key and agree on every key's sub-sequence are equal. |
| StableSort.SortIsIdempotent | qlm/scheduler/scheduler.py:92-93 | Sorting a sorted sequence again changes nothing. |
| StableSort.SortOfSortedIsIdentity | qlm/scheduler/scheduler.py:92-93 | A sequence already sorted by the key is left as it is. |
| StableSort.InsertKeepsSorted | qlm/scheduler/scheduler.py:92-93 | Inserting into a sorted sequence keeps it sorted. |
| StableSort.InsertWithKey | qlm/scheduler/scheduler.py:92-93 | Inserting an element appends it to its own key's sub-sequence and leaves every other key's sub-sequence as it was. |
| RwtEstimator.WaitFor | qlm/scheduler/rwt_estimator.py:12-16 | The estimate `w` for `n` requests satisfies `w * throughput[model] == n * workload_tokens`. |
| RwtEstimator.WaitingTime | qlm/scheduler/rwt_estimator.py:10-16 | A group's estimate is its request count times the workload tokens over its model's throughput. It is 0 for an empty group and non-negative for a non-negative workload. The model must have a positive throughput entry. |
| RwtEstimator.WaitIsAdditive | qlm/scheduler/rwt_estimator.py:12-16 | The estimate for `a + b` requests is the sum of the estimates for `a` and for `b`. |
| RwtEstimator.WaitIsMonotone | qlm/scheduler/rwt_estimator.py:12-16 | With a non-negative workload, more requests never get a smaller estimate. |
| RwtEstimator.WaitDependsOnlyOnSizeAndModel | qlm/scheduler/rwt_estimator.py:10-16 | Groups with the same model and request count get the same estimate, whatever their slo, id or request contents. |
| Scheduler.RefreshRequest | qlm/scheduler/scheduler.py:37-44 | After a refresh: the insertion time is `now`, the slo is a multiple of the granularity, and `slo' <= slo - (now - insertion_time) < slo' + granularity` (floor quantisation). The id, prompt and model are unchanged. |
| Scheduler.RefreshIsIdempotent | qlm/scheduler/scheduler.py:37-44 | Refreshing twice at the same instant gives the same result as refreshing once. |
| Scheduler.RefreshExample | qlm/scheduler/scheduler.py:38-43 | Granularity 5, slo 23, one time unit elapsed: the new slo is 20. |
| Scheduler.RefreshGroup | qlm/scheduler/scheduler.py:35-44 | A refreshed group keeps its id, model, slo and request count. Each request is refreshed in place, so the order is unchanged. |
| Scheduler.RefreshAll | qlm/scheduler/scheduler.py:29-44 | The store keeps its keys. Exactly the groups in some queue are refreshed, and every other group is left alone. |
| Scheduler.Snapshot | qlm/scheduler/scheduler.py:54-58 | The scheduler's view has the shape of the queues, and position k of queue i holds the stored group with the k-th id. |
| Scheduler.SwapOverheadCountsSwaps | qlm/scheduler/scheduler.py:59-63 | The swap overhead charged along a queue is the swap time times the number of adjacent groups whose models differ. |
| Scheduler.CostIsPrefixSum | qlm/scheduler/scheduler.py:56-67 | The running total at group k equals the summed waits of groups 0..k plus the swap overhead among them. No swap time is charged before the first group. |
| Scheduler.ScanQueue | qlm/scheduler/scheduler.py:56-70 | The scan of one queue returns true iff some group's running total exceeds that group's slo. |
| Scheduler.CheckViolation | qlm/scheduler/scheduler.py:54-72 | With the configured swap time, the scan returns true iff some queue has a group k whose running cost (the waits of groups 0..k plus one swap time per model change among them) exceeds that group's slo. |
| Scheduler.SingleGroupViolation | qlm/scheduler/scheduler.py:56-70 | A one-group queue violates iff the group's wait exceeds its slo. |
| Scheduler.EmptyQueuesNeverViolate | qlm/scheduler/scheduler.py:54-72 | Queues without groups never report a violation. |
| Scheduler.UndefinedSwapTimeWitness | qlm/scheduler/scheduler.py:62-63 | Concrete input: one queue with an "A" group followed by a "B" group. As written the check raises; the corrected verdict is "no violation". |
| Scheduler.ScanAsWrittenAgrees | qlm/scheduler/scheduler.py:58-70 | Whenever the as-written scan of one queue returns a verdict instead of raising, that verdict is the corrected one. |
| Scheduler.CheckAsWrittenAgreesWhenDefined | qlm/scheduler/scheduler.py:54-72 | Whenever the as-written check does not raise, its answer equals the corrected verdict for any swap time. |
| Scheduler.ScanQueueAsWritten | qlm/scheduler/scheduler.py:58-70 | As written, the scan of one queue raises only for the undefined swap-time name, and only when the queue has two adjacent groups of different models at or after the current position. |
| Scheduler.CheckViolationAsWritten | qlm/scheduler/scheduler.py:54-72 | As written, the check raises only for the undefined swap-time name, and only when some queue has two adjacent groups of different models. Queues that each serve a single model never raise. |
| Scheduler.SameShapeSameCost | qlm/scheduler/scheduler.py:58-67 | Queues that agree position by position on model, slo and request count have the same running total at every position. |
| Scheduler.SameShapeSameVerdict | qlm/scheduler/scheduler.py:52-72 | The verdict reads only each group's model, slo and size, so refreshing request deadlines cannot change it. |
| Scheduler.ReorderEdf | qlm/scheduler/scheduler.py:85-96 | EDF keeps the number of queues and each queue's id and place. Each queue becomes a permutation of itself, sorted ascending by group slo, with groups of equal slo in their original relative order. |
| Scheduler.EdfIsIdempotent | qlm/scheduler/scheduler.py:91-96 | Applying EDF twice is the same as applying it once. |
| Scheduler.EdfExample | qlm/scheduler/scheduler.py:91-94 | A queue holding the slo-1000 group ahead of the slo-10 group is turned around. |
| VirtualQueueEngine.Init | qlm/queue/virtual_queue_engine.py:15-24 | A new engine has no queue, no group, no request → group entry, no (model, slo) key and no worker binding. |
| VirtualQueueEngine.AddWorker | qlm/queue/virtual_queue_engine.py:27-34 | Exactly one fresh empty queue is appended, and every existing queue is unchanged. A new worker is bound to the new queue's position. A worker that is already bound raises a duplication fault, with the queue already appended and the binding unchanged. |
| VirtualQueueEngine.AddRequestAsWritten | qlm/queue/virtual_queue_engine.py:36-56 | Known key: the request goes to the tail of that group, and no queue changes. New key: a group holding only this request is created and filed. It is appended to queue `pick`, and the other queues are unchanged. The request → group entry is recorded either way. With no queue, the new group is filed and the call raises. |
| VirtualQueueEngine.AddRequest | qlm/queue/virtual_queue_engine.py:36-56 | The call fails, changing nothing, exactly when the key is new and there is no queue. Otherwise it has the same effect as the source. |
| VirtualQueueEngine.HasRequest | qlm/queue/virtual_queue_engine.py:74-81 | For a bound worker, the answer is whether its queue holds a group. An unbound worker is a fault. |
| VirtualQueueEngine.PopRequestAsWritten | qlm/queue/virtual_queue_engine.py:58-72 | Returns the oldest request of the head group of the worker's queue. The head group leaves the queue iff it became empty. Every other queue and group is unchanged, and the (model, slo) table is not touched. |
| VirtualQueueEngine.PopRequest | qlm/queue/virtual_queue_engine.py:58-72 | The same request and the same queues as the source. In addition, a drained group's key is removed from the (model, slo) table. |
| VirtualQueueEngine.ReorderVqs | qlm/queue/virtual_queue_engine.py:83-89 | Queued requests are refreshed. The queues are left exactly as they were when no group is projected to violate. Otherwise every queue becomes an EDF-sorted stable permutation of itself. The tables are unchanged. |
| EngineInvariants.InitIsValid | qlm/queue/virtual_queue_engine.py:15-24 | The empty engine satisfies both invariants. |
| EngineInvariants.AddWorkerPreservesValid | qlm/queue/virtual_queue_engine.py:27-34 | `add_worker` preserves `Valid`. |
| EngineInvariants.AddWorkerKeepsKeysExact | qlm/queue/virtual_queue_engine.py:27-34 | `add_worker` keeps the (model, slo) table exact. |
| EngineInvariants.AddRequestAsWrittenPreservesValid | qlm/queue/virtual_queue_engine.py:36-56 | `add_request` as written preserves `Valid`: queued groups stay non-empty and distinct. |
| EngineInvariants.AddToKnownGroupPreservesValid | qlm/queue/virtual_queue_engine.py:42-45 | Appending to an existing group preserves `Valid`. |
| EngineInvariants.AddNewGroupPreservesValid | qlm/queue/virtual_queue_engine.py:46-56 | Creating and queueing a new group preserves `Valid`. |
| EngineInvariants.AddToKnownGroupKeepsKeysExact | qlm/queue/virtual_queue_engine.py:42-45 | Appending to an existing group keeps the (model, slo) table exact. |
| EngineInvariants.AddNewGroupKeepsKeysExact | qlm/queue/virtual_queue_engine.py:46-56 | Creating and queueing a new group keeps the (model, slo) table exact. |
| EngineInvariants.AddRequestPreservesKeysExact | qlm/queue/virtual_queue_engine.py:36-56 | The corrected `add_request` preserves both invariants, and the request's group is queued afterwards. |
| EngineInvariants.AddRequestFilesAtTail | qlm/queue/virtual_queue_engine.py:36-56 | The corrected `add_request` adds exactly the new request id to the request → group table. That id names a stored group whose newest request is the new one. The bindings and the number of queues are unchanged. |
| EngineInvariants.NoWorkerLeavesOrphanGroup | qlm/queue/virtual_queue_engine.py:46-55 | As written, with no queue, a new key leaves its group filed in the table and in the store but in no queue. |
| EngineInvariants.OrphanAbsorbsLaterRequest | qlm/queue/virtual_queue_engine.py:42-56 | After that, even once a worker exists, a request with the same key is added to the orphan group, which no worker can ever serve. |
| EngineInvariants.PopHead | qlm/queue/virtual_queue_engine.py:58-72 | Taking one request from the head group of a queue, and dropping that group when it empties, keeps queued groups non-empty, stored and distinct. |
| EngineInvariants.PopHeadQueued | qlm/queue/virtual_queue_engine.py:69-70 | After such a pop a group is queued iff it was queued before and is not the drained head. |
| EngineInvariants.PopKeepsOthersQueued | qlm/queue/virtual_queue_engine.py:58-72 | After `pop_request` as written, a group is queued iff it was queued before and is not the drained head group. |
| EngineInvariants.PopRequestAsWrittenPreservesValid | qlm/queue/virtual_queue_engine.py:58-72 | `pop_request` as written preserves `Valid`. A group is queued afterwards iff it was queued before and is not the drained head. |
| EngineInvariants.PopRequestPreservesValid | qlm/queue/virtual_queue_engine.py:58-72 | The corrected pop preserves `Valid`. |
| EngineInvariants.DrainedGroupLeavesQueues | qlm/queue/virtual_queue_engine.py:69-70 | A group drained by a pop is in no queue afterwards. |
| EngineInvariants.PopRequestPreservesKeysExact | qlm/queue/virtual_queue_engine.py:58-72 | The corrected pop keeps the (model, slo) table exact. |
| EngineInvariants.PopAsWrittenLeavesStaleKey | qlm/queue/virtual_queue_engine.py:58-72 | As written, draining the head group leaves its key naming a group that is in no queue, which breaks `KeysExact`. |
| EngineInvariants.StaleKeyStrandsNextRequest | qlm/queue/virtual_queue_engine.py:42-45 | After such a pop, a new request with the drained key goes, as written, into the unqueued group. The corrected operations put it in a fresh group in queue `pick`. |
| EngineInvariants.HasRequestIffPoppable | qlm/queue/virtual_queue_engine.py:74-81 | Because queued groups are never empty, `has_request` is true exactly when `pop_request` succeeds (both versions). |
| EngineInvariants.ReorderPreservesValid | qlm/queue/virtual_queue_engine.py:83-89 | The reorder preserves `Valid` and the set of queued groups. |
| EngineInvariants.ReorderKeepsKeysAndModels | qlm/queue/virtual_queue_engine.py:83-89 | The reorder keeps the (model, slo) table exact and every queued model's throughput entry. |
| RequestQueue.Init | qlm/queue/queue.py:16-22 | The empty queue satisfies the queue invariant. |
| RequestQueue.BoundWorkersAreDistinct | qlm/queue/queue.py:30-32 | Workers bound to distinct queue positions are distinct. |
| RequestQueue.RegisterWorker | qlm/queue/queue.py:24-32 | A fresh worker is appended to `workers` and bound to a new empty queue at the same position. Earlier queues, the store, the (model, slo) table, the request → group table and the id counters are unchanged, and the invariant holds afterwards. |
| RequestQueue.Push | qlm/queue/queue.py:34-47 | A push fails iff no worker is registered. Otherwise it files exactly one new request id under its own (model, slo) key, keeps the invariant and leaves every other group unchanged. With a known key, that group gets the request at its tail and no queue changes. With a new key, a fresh group holding only this request is created and appended to the tail of queue `pick`, and every other queue is unchanged. |
| RequestQueue.PushKeepsValid | qlm/queue/queue.py:43-47 | Filing a request under the next request id succeeds whenever a worker exists and keeps the queue invariant. |
| RequestQueue.RepeatedPushesAreDistinct | qlm/queue/queue.py:43-47 | Two pushes with identical fields file two distinct requests. |
| RequestQueue.PushFilesUnderKey | qlm/queue/virtual_queue_engine.py:36-56 | `add_request` files the request in the group its (model, slo) key names. That is the existing group, extended at its tail, when the key is known, and a new group holding only the request otherwise. No other group changes. |
| RequestQueue.PlanFrame | qlm/queue/queue.py:58-69 | What the round hands out from worker i onward depends only on the queues from i onward and on their head groups. |
| RequestQueue.ServeWorkerKeeps | qlm/queue/queue.py:60-64 | Serving one worker preserves the invariants. A worker that is not eligible leaves the engine unchanged. |
| RequestQueue.ServeWorkerOutput | qlm/queue/queue.py:60-69 | Serving worker i hands over the oldest request of its head group iff it is eligible. |
| RequestQueue.ServeWorkerFrame | qlm/queue/queue.py:60-64 | Serving worker i changes no other queue, no binding and no request → group entry. |
| RequestQueue.ServeWorkerKeepsOtherHeads | qlm/queue/queue.py:60-64 | Serving worker i leaves the head group of every other queue as it was. |
| RequestQueue.ServeWorker | qlm/queue/queue.py:60-69 | One iteration hands over at most one request, addressed to this worker. It changes nothing unless `has_request` holds and the backpressure is below `max_batch_size`. |
| RequestQueue.ServeWorkerPops | qlm/queue/queue.py:63-64 | Serving an eligible worker pops its head group once. The group is dropped from the worker's queue, and its key retired, iff that pop drained it. |
| RequestQueue.ServeFrom | qlm/queue/queue.py:58-69 | A pass from worker i on hands out at most one request per remaining worker, each addressed to one of those workers. |
| RequestQueue.ServeKeeps | qlm/queue/queue.py:58-69 | A pass over the workers preserves both engine invariants and the binding of workers to queue positions. |
| RequestQueue.ServeKeepsTables | qlm/queue/queue.py:58-69 | A pass over the workers changes neither the worker binding nor the request → group table. |
| RequestQueue.ServeFollowsPlan | qlm/queue/queue.py:58-69 | A pass over the workers hands out exactly the plan: for each eligible worker in registration order, the next request of its queue. |
| RequestQueue.ServeLeavesOthers | qlm/queue/queue.py:58-69 | A pass from worker i on leaves unchanged the queue of every worker before i and of every worker that is not eligible. |
| RequestQueue.ServePopsHeads | qlm/queue/queue.py:58-64 | Over a pass, each eligible worker's head group loses exactly its oldest request, and every group that is not such a head is unchanged. |
| RequestQueue.ServeAdvancesQueues | qlm/queue/queue.py:58-64 | Over a pass, each eligible worker's queue drops its head group iff that group held a single request. Otherwise the queue is unchanged. |
| RequestQueue.ServeRetiresKeys | qlm/queue/queue.py:58-64 | Over a pass, the (model, slo) table only loses keys. A key is kept iff its group still holds a request. |
| RequestQueue.PlanEntries | qlm/queue/queue.py:60-69 | Every hand-over in the plan goes to an eligible worker, with the prompt and model of that worker's next request. |
| RequestQueue.PlanOrdered | qlm/queue/queue.py:58-69 | Hand-overs follow strictly increasing registration order, so no worker gets two requests in a round. |
| RequestQueue.PlanServesEligible | qlm/queue/queue.py:58-64 | Every eligible worker is served. |
| RequestQueue.PlanCovers | qlm/queue/queue.py:58-64 | A worker is served iff it is eligible. |
| RequestQueue.Step | qlm/queue/queue.py:56-69 | One round reorders first and then serves exactly the plan of the reordered engine. It keeps the invariant, the worker list, the request → group table and the id counters. Each eligible worker's head group loses its oldest request, and a group that this drains leaves its queue and its key leaves the table. Every other group, and the queue of every worker that is not served, stays as the reorder left it. |
| RequestQueue.ReorderKeepsEligibility | qlm/queue/queue.py:56-63 | The reorder keeps each queue's length, so which workers are eligible does not change. |
| RequestQueue.StepServesExactlyEligible | qlm/queue/queue.py:60-64 | A worker receives a request in a round iff, before the round, `has_request` holds for it and its backpressure is below `max_batch_size`. |
| RequestQueue.StepInRegistrationOrder | qlm/queue/queue.py:58-69 | Within a round, hand-overs follow registration order, and no worker receives two. |
| RequestQueue.StepHandsOutNextRequest | qlm/queue/queue.py:64-69 | Each hand-over carries exactly the prompt and model of the oldest request of the worker's head group after the reorder. |
| RequestQueue.UnreachableWorkerNeverServed | qlm/queue/queue.py:60-63 | A worker whose backpressure is the infinite sentinel never receives a request. |

## Findings

| source | as written | input that shows it | evidently intended | confidence | as-written member | corrected member |
|---|---|---|---|---|---|---|
| qlm/queue/virtual_queue_engine.py:69-70 | A pop that drains the head group removes it from the queue but leaves its `(model, slo)` key in `model_slo_group_bimap`. | A single worker; push one request with key (m, s); pop it; push another request with key (m, s). The second request is appended to the drained group, which is in no queue, and is never dispatched. | A drained group's key is retired, so the next request with that key creates a fresh queued group. | not executed | EngineInvariants.PopAsWrittenLeavesStaleKey | EngineInvariants.PopRequestPreservesKeysExact |
| qlm/scheduler/scheduler.py:63 | `est_time += config.swap_time` reads a name `config` that is not defined in the method; only `self.config` exists, and it has `model_swap_time`. | One queue holding a group for model "A" followed by a group for model "B": the check raises NameError instead of answering. | Add the configured model swap time at every model change. | not executed | Scheduler.UndefinedSwapTimeWitness | Scheduler.CheckViolation |
| qlm/queue/virtual_queue_engine.py:46-55 | With no worker registered, `add_request` files the new group and the request → group entry before `random.choice(range(0))` raises. | Push a request before any worker registers, then register a worker and push a request with the same key: it joins the orphan group, which no worker serves. | Fail without changing the tables when there is no queue to place the group in. | not executed | EngineInvariants.NoWorkerLeavesOrphanGroup | EngineInvariants.AddRequestPreservesKeysExact |

The as-written operations (`VirtualQueueEngine.AddRequestAsWritten`, `VirtualQueueEngine.PopRequestAsWritten`,
`Scheduler.CheckViolationAsWritten`) stay in the model next to the corrected ones.
`EngineInvariants.OrphanAbsorbsLaterRequest`, `EngineInvariants.StaleKeyStrandsNextRequest` and
`Scheduler.CheckAsWrittenAgreesWhenDefined` relate each pair. The queue (`RequestQueue`) and the reorder use
the corrected operations.

## Left out

- `_reorder_lp_solver` (qlm/scheduler/scheduler.py:98-260): it is a call into an external MILP solver. The
  model covers only the `edf` policy of `reorder`.
- Worker I/O (qlm/queue/worker.py): metrics scraping, the HTTP client and the model swap. Only the
  backpressure value enters the model, as a `Backpressure` that is `Load(n)` or `Unbounded` (the infinite
  sentinel). The hand-over becomes a `Dispatch` record.
- qlm/endpoints/endpoint.py and the YAML loading in qlm/config.py. Configuration values are parameters:
  granularity, swap time, workload tokens, the throughput table and `max_batch_size`.
- asyncio: the infinite loop, `asyncio.to_thread` and the `CancelledError` handler. One round of
  `run_queue` is modelled as a pure function.
- Floating point: times and slos are `int`, and wait estimates are `real`.
- `group_to_vq` (qlm/queue/virtual_queue_engine.py:22): it is never read or written after construction.
- The print at qlm/queue/virtual_queue_engine.py:48 and the debug print in the cancellation handler.
- Scheduler.RefreshAll: uses one `now` for the whole refresh. The source reads the clock once per request
  (qlm/scheduler/scheduler.py:37), so its requests see slightly different instants.
- VirtualQueueEngine.AddRequest: requires `pick < |vqs|` when a queue exists. The index stands for
  `random.choice`, so no particular queue is promised.
- VirtualQueueEngine.ReorderVqs: requires every queued group's model to have a positive throughput entry.
  In the source a missing entry is a KeyError and a zero entry a ZeroDivisionError.
- Groups.PopRequest: requires a non-empty group, and VirtualQueues.PopGroup and VirtualQueues.HeadGroup
  require a non-empty queue. The source raises IndexError there. The engine never calls them on empty
  inputs, as `EngineInvariants.HasRequestIffPoppable` shows.
- RequestQueue.Step: when `has_request` or `pop_request` raises for a worker, the source would leave the
  loop. The model skips that worker instead. With the queue invariant this cannot happen, because every
  registered worker is bound.
- `request_to_group` is never cleaned by `pop_request` in the source, and the model keeps that behaviour: it
  only grows.
- The duplicate-worker fault of `add_worker` is modelled but not listed as a finding. `register_worker`
  always binds a fresh worker object, so the queue cannot trigger it.
