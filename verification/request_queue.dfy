/** The front of the system (qlm/queue/queue.py): worker registration, request
    submission, and one iteration of the dispatch loop as a pure step.

    The loop's I/O is outside the model: a worker's backpressure reading is an
    input, and the hand-over of a request to a worker is an output record. The
    engine operations used are the corrected ones (see `VirtualQueueEngine`). */
module RequestQueue {
  import opened Base
  import opened Requests
  import Groups
  import opened VirtualQueues
  import opened RwtEstimator
  import opened Scheduler
  import opened VirtualQueueEngine
  import opened EngineInvariants

  /** A worker's load reading: the sum of its running, waiting and swapped
      request counts, or `Unbounded` (the source's `float("inf")`) when the
      worker cannot be reached. */
  datatype Backpressure = Load(requests: int) | Unbounded

  /** The hand-over of one request to a worker: `worker.add_request(prompt, model)`. */
  datatype Dispatch = Dispatch(worker: WorkerId, prompt: string, model: Model)

  /** `workers` in registration order, and the engine. */
  datatype Queue = Queue(workers: seq<WorkerId>, engine: Engine, nextWorkerId: nat, nextRequestId: nat)

  /** The i-th registered worker is bound to the i-th virtual queue. */
  predicate Bound(e: Engine, workers: seq<WorkerId>)
  {
    && |workers| == |e.vqs|
    && forall i | 0 <= i < |workers| :: workers[i] in e.vqOf && e.vqOf[workers[i]] == i
  }

  /** The invariant of every queue reachable from `Init`. */
  predicate Valid(q: Queue)
  {
    && VirtualQueueEngine.Valid(q.engine)
    && KeysExact(q.engine)
    && Bound(q.engine, q.workers)
    && (forall w | w in q.engine.vqOf :: w < q.nextWorkerId)
    && (forall rid | rid in q.engine.requestToGroup :: rid < q.nextRequestId)
  }

  function Init(): (q: Queue)
    ensures Valid(q) && |q.workers| == 0
  {
    InitIsValid();
    Queue([], VirtualQueueEngine.Init(), 0, 0)
  }

  /** Workers bound to distinct queues are distinct. */
  lemma BoundWorkersAreDistinct(e: Engine, workers: seq<WorkerId>)
    requires Bound(e, workers)
    ensures forall i, j | 0 <= i < j < |workers| :: workers[i] != workers[j]
  {
  }

  // -------------------------------------------------------- register_worker

  /** `register_worker`: a fresh worker joins the end of `workers` and is
      bound to a new, empty queue at the same position. */
  function RegisterWorker(q: Queue): (q': Queue)
    requires Valid(q)
    ensures Valid(q')
    ensures q'.workers == q.workers + [q.nextWorkerId] && q.nextWorkerId !in q.workers
    ensures q'.engine.vqs[..|q.workers|] == q.engine.vqs && |q'.engine.vqs[|q.workers|].groups| == 0
    ensures q'.engine.vqOf == q.engine.vqOf[q.nextWorkerId := |q.workers|]
    ensures q'.engine.groups == q.engine.groups && q'.engine.keyMap == q.engine.keyMap
    ensures q'.engine.requestToGroup == q.engine.requestToGroup && q'.engine.nextGroupId == q.engine.nextGroupId
    ensures q'.nextRequestId == q.nextRequestId
  {
    var w := q.nextWorkerId;
    AddWorkerPreservesValid(q.engine, w);
    AddWorkerKeepsKeysExact(q.engine, w);
    var e' := AddWorker(q.engine, w).engine;
    assert forall i | 0 <= i < |q.workers| :: (q.workers + [w])[i] == q.workers[i];
    Queue(q.workers + [w], e', w + 1, q.nextRequestId)
  }

  // ------------------------------------------------------------------- push

  /** `push`: builds a request with a fresh identity and exactly the given
      fields, and files it with the engine; `pick` stands for the engine's
      random choice of queue. Without any worker the push fails. */
  function Push(q: Queue, prompt: string, model: Model, slo: int, insertionTime: int, pick: nat)
    : (res: Result<Queue, Fault>)
    requires Valid(q)
    requires |q.workers| == 0 || pick < |q.workers|
    ensures res.Failure? <==> |q.workers| == 0
    ensures res.Failure? ==> res.error == NoWorkerRegistered
    ensures res.Success? ==>
              && Valid(res.value)
              && res.value.workers == q.workers
              && q.nextRequestId !in q.engine.requestToGroup
              && res.value.engine.requestToGroup.Keys == q.engine.requestToGroup.Keys + {q.nextRequestId}
              && res.value.nextRequestId > q.nextRequestId
              && Queued(res.value.engine.vqs, res.value.engine.requestToGroup[q.nextRequestId])
    ensures res.Success? ==>
              && (model, slo) in res.value.engine.keyMap
              && res.value.engine.requestToGroup[q.nextRequestId] == res.value.engine.keyMap[(model, slo)]
              && Groups.KeyOf(res.value.engine.groups[res.value.engine.keyMap[(model, slo)]]) == (model, slo)
    ensures res.Success? && (model, slo) in q.engine.keyMap ==>
              && res.value.engine.vqs == q.engine.vqs
              && res.value.engine.keyMap[(model, slo)] == q.engine.keyMap[(model, slo)]
              && res.value.engine.groups[q.engine.keyMap[(model, slo)]].requests
                 == q.engine.groups[q.engine.keyMap[(model, slo)]].requests + [Request(q.nextRequestId, prompt, model, slo, insertionTime)]
    ensures res.Success? && (model, slo) !in q.engine.keyMap ==>
              && res.value.engine.vqs == q.engine.vqs[pick := AddGroup(q.engine.vqs[pick], res.value.engine.keyMap[(model, slo)])]
              && res.value.engine.keyMap[(model, slo)] !in q.engine.groups
              && res.value.engine.groups[res.value.engine.keyMap[(model, slo)]].requests
                 == [Request(q.nextRequestId, prompt, model, slo, insertionTime)]
    ensures res.Success? ==>
              forall id | id in q.engine.groups && id != res.value.engine.keyMap[(model, slo)] ::
                id in res.value.engine.groups && res.value.engine.groups[id] == q.engine.groups[id]
  {
    var r := Request(q.nextRequestId, prompt, model, slo, insertionTime);
    NextRequestIdIsFresh(q);
    assert |q.workers| == 0 ==> (r.model, r.slo) !in q.engine.keyMap;
    match AddRequest(q.engine, r, pick)
    case Failure(f) => Failure(f)
    case Success(e') =>
      PushKeepsValid(q, r, pick);
      AddRequestFilesAtTail(q.engine, r, pick);
      PushFilesUnderKey(q, r, pick);
      Success(Queue(q.workers, e', q.nextWorkerId, q.nextRequestId + 1))
  }

  /** A pushed request joins the group filed under its own (model, slo) key:
      the key's existing group when there is one, else a group with a fresh
      identity that holds only this request. No other group changes. */
  lemma PushFilesUnderKey(q: Queue, r: Request, pick: nat)
    requires Valid(q) && pick < |q.workers|
    ensures AddRequest(q.engine, r, pick).Success?
    ensures var e' := AddRequest(q.engine, r, pick).value;
            && (r.model, r.slo) in e'.keyMap && e'.keyMap[(r.model, r.slo)] in e'.groups
            && e'.requestToGroup[r.id] == e'.keyMap[(r.model, r.slo)]
            && Groups.KeyOf(e'.groups[e'.keyMap[(r.model, r.slo)]]) == (r.model, r.slo)
    ensures var e' := AddRequest(q.engine, r, pick).value;
            (r.model, r.slo) in q.engine.keyMap ==>
              && e'.keyMap[(r.model, r.slo)] == q.engine.keyMap[(r.model, r.slo)]
              && e'.groups[q.engine.keyMap[(r.model, r.slo)]].requests
                 == q.engine.groups[q.engine.keyMap[(r.model, r.slo)]].requests + [r]
    ensures var e' := AddRequest(q.engine, r, pick).value;
            (r.model, r.slo) !in q.engine.keyMap ==>
              && e'.keyMap[(r.model, r.slo)] !in q.engine.groups
              && e'.groups[e'.keyMap[(r.model, r.slo)]].requests == [r]
    ensures var e' := AddRequest(q.engine, r, pick).value;
            forall id | id in q.engine.groups && id != e'.keyMap[(r.model, r.slo)] ::
              id in e'.groups && e'.groups[id] == q.engine.groups[id]
  {
    var key := (r.model, r.slo);
    var e' := AddRequest(q.engine, r, pick).value;
    NextGroupIsFresh(q.engine);
    var gid := e'.keyMap[key];
    if key in q.engine.keyMap {
      var g := q.engine.groups[gid];
      assert e'.groups[gid] == Groups.AddRequest(g, r);
      assert e'.groups[gid].requests == g.requests + [r];
      assert Groups.KeyOf(e'.groups[gid]) == Groups.KeyOf(g) == key;
    } else {
      assert gid == q.engine.nextGroupId;
      assert e'.groups[gid] == Groups.Group(gid, r.model, r.slo, [r]);
    }
  }

  /** The next request id names no filed request. */
  lemma NextRequestIdIsFresh(q: Queue)
    requires Valid(q)
    ensures q.nextRequestId !in q.engine.requestToGroup
  {
  }

  /** Filing a request under the next request id keeps the queue invariant. */
  lemma PushKeepsValid(q: Queue, r: Request, pick: nat)
    requires Valid(q) && pick < |q.workers| && r.id == q.nextRequestId
    ensures AddRequest(q.engine, r, pick).Success?
    ensures Valid(Queue(q.workers, AddRequest(q.engine, r, pick).value, q.nextWorkerId, q.nextRequestId + 1))
  {
    var e' := AddRequest(q.engine, r, pick).value;
    AddRequestPreservesKeysExact(q.engine, r, pick);
    assert e'.vqOf == q.engine.vqOf && |e'.vqs| == |q.engine.vqs|;
    assert Bound(e', q.workers);
    assert e'.requestToGroup.Keys == q.engine.requestToGroup.Keys + {r.id};
    forall rid | rid in e'.requestToGroup
      ensures rid < q.nextRequestId + 1
    {
      assert rid == r.id || rid in q.engine.requestToGroup;
    }
  }

  /** Pushing the same prompt twice files two distinct requests: the second
      does not take the place of the first. */
  lemma RepeatedPushesAreDistinct(q: Queue, prompt: string, model: Model, slo: int, t: int, pick: nat)
    requires Valid(q) && pick < |q.workers|
    ensures Push(q, prompt, model, slo, t, pick).Success?
    ensures Push(Push(q, prompt, model, slo, t, pick).value, prompt, model, slo, t, pick).Success?
    ensures var q2 := Push(Push(q, prompt, model, slo, t, pick).value, prompt, model, slo, t, pick).value;
            |q2.engine.requestToGroup.Keys| == |q.engine.requestToGroup.Keys| + 2
  {
    var q1 := Push(q, prompt, model, slo, t, pick).value;
    var q2 := Push(q1, prompt, model, slo, t, pick).value;
    assert q.nextRequestId != q1.nextRequestId;
  }

  // ------------------------------------------------------- the dispatch step

  /** The loop's capacity test: `backpressure < max_batch_size`. An
      unreachable worker's infinite reading never passes it. */
  predicate Admits(bp: Backpressure, maxBatch: int)
  {
    bp.Load? && bp.requests < maxBatch
  }

  /** The body of the loop for one worker: if its queue has a group and its
      backpressure admits one more request, pop one and hand it over.
      The source raises on an unbound worker; with `Bound` that cannot happen,
      and such a worker is simply skipped here. */
  function ServeWorker(e: Engine, w: WorkerId, bp: Backpressure, maxBatch: int): (res: (Engine, seq<Dispatch>))
    requires WellFormed(e)
    ensures |res.1| <= 1 && forall d | d in res.1 :: d.worker == w
    ensures HasRequest(e, w) != Success(true) || !Admits(bp, maxBatch) ==> res == (e, [])
  {
    match HasRequest(e, w)
    case Failure(_) => (e, [])
    case Success(has) =>
      if has && Admits(bp, maxBatch) then
        match PopRequest(e, w)
        case Success((e', req)) => (e', [Dispatch(w, req.prompt, req.model)])
        case Failure(_) => (e, [])
      else (e, [])
  }

  /** The loop body for workers i, i+1, ... in registration order. */
  function ServeFrom(e: Engine, workers: seq<WorkerId>, bp: seq<Backpressure>, maxBatch: int, i: nat)
    : (res: (Engine, seq<Dispatch>))
    requires WellFormed(e) && |bp| == |workers| && i <= |workers|
    ensures WellFormed(res.0)
    ensures |res.1| <= |workers| - i && forall d | d in res.1 :: d.worker in workers[i..]
    decreases |workers| - i
  {
    if i == |workers| then (e, [])
    else
      var first := ServeWorker(e, workers[i], bp[i], maxBatch);
      var rest := ServeFrom(first.0, workers, bp, maxBatch, i + 1);
      (rest.0, first.1 + rest.1)
  }

  /** Every queued group is in the store and holds a request. */
  predicate Servable(e: Engine)
  {
    forall i, id | 0 <= i < |e.vqs| && id in e.vqs[i].groups :: id in e.groups && |e.groups[id].requests| > 0
  }

  /** Validity makes every queued group servable. */
  lemma ValidIsServable(e: Engine)
    requires VirtualQueueEngine.Valid(e)
    ensures Servable(e)
  {
  }

  /** The oldest request of the head group of queue `i`. */
  function NextRequest(e: Engine, i: nat): Request
    requires Servable(e) && i < |e.vqs| && |e.vqs[i].groups| > 0
  {
    assert e.vqs[i].groups[0] in e.vqs[i].groups;
    e.groups[e.vqs[i].groups[0]].requests[0]
  }

  /** Worker i is served in this iteration. */
  predicate Eligible(e: Engine, bp: seq<Backpressure>, maxBatch: int, i: nat)
    requires i < |e.vqs| && i < |bp|
  {
    |e.vqs[i].groups| > 0 && Admits(bp[i], maxBatch)
  }

  /** What one pass over workers i, i+1, ... should hand out: for every
      eligible worker in turn, the next request of its queue. */
  function Planned(e: Engine, workers: seq<WorkerId>, bp: seq<Backpressure>, maxBatch: int, i: nat): seq<Dispatch>
    requires Servable(e) && Bound(e, workers) && |bp| == |workers| && i <= |workers|
    decreases |workers| - i
  {
    if i == |workers| then []
    else
      (if Eligible(e, bp, maxBatch, i)
       then [Dispatch(workers[i], NextRequest(e, i).prompt, NextRequest(e, i).model)] else [])
      + Planned(e, workers, bp, maxBatch, i + 1)
  }

  /** The plan from position i reads only queues i, i+1, ... and their head
      groups. */
  lemma {:induction false} PlanFrame(e: Engine, e': Engine, workers: seq<WorkerId>, bp: seq<Backpressure>,
                                      maxBatch: int, i: nat)
    requires Servable(e) && Bound(e, workers)
    requires Servable(e') && Bound(e', workers)
    requires |bp| == |workers| && i <= |workers|
    requires forall m | i <= m < |workers| :: e'.vqs[m] == e.vqs[m]
    requires forall m | i <= m < |workers| && |e.vqs[m].groups| > 0 ::
               e'.groups[e.vqs[m].groups[0]] == e.groups[e.vqs[m].groups[0]]
    ensures Planned(e', workers, bp, maxBatch, i) == Planned(e, workers, bp, maxBatch, i)
    decreases |workers| - i
  {
    if i < |workers| {
      PlanFrame(e, e', workers, bp, maxBatch, i + 1);
    }
  }

  /** The invariants the pass over the workers keeps, together with the
      tables it never touches. */
  predicate Keeps(e: Engine, e': Engine, workers: seq<WorkerId>)
  {
    && VirtualQueueEngine.Valid(e') && KeysExact(e') && Bound(e', workers)
    && e'.vqOf == e.vqOf && e'.requestToGroup == e.requestToGroup
  }

  /** Serving worker i keeps the invariants; when the worker is not eligible
      it changes nothing at all. */
  lemma ServeWorkerKeeps(e: Engine, workers: seq<WorkerId>, bp: seq<Backpressure>, maxBatch: int, i: nat)
    requires VirtualQueueEngine.Valid(e) && KeysExact(e) && Bound(e, workers)
    requires |bp| == |workers| && i < |workers|
    ensures Keeps(e, ServeWorker(e, workers[i], bp[i], maxBatch).0, workers)
    ensures !Eligible(e, bp, maxBatch, i) ==> ServeWorker(e, workers[i], bp[i], maxBatch) == (e, [])
  {
    var w := workers[i];
    HasRequestIffPoppable(e, w);
    if Eligible(e, bp, maxBatch, i) {
      PopRequestPreservesValid(e, w);
      PopRequestPreservesKeysExact(e, w);
    }
  }

  /** Serving worker i hands out exactly the planned request. */
  lemma ServeWorkerOutput(e: Engine, workers: seq<WorkerId>, bp: seq<Backpressure>, maxBatch: int, i: nat)
    requires VirtualQueueEngine.Valid(e) && KeysExact(e) && Bound(e, workers)
    requires |bp| == |workers| && i < |workers|
    ensures ServeWorker(e, workers[i], bp[i], maxBatch).1
            == (if Eligible(e, bp, maxBatch, i)
                then [Dispatch(workers[i], NextRequest(e, i).prompt, NextRequest(e, i).model)] else [])
  {
    HasRequestIffPoppable(e, workers[i]);
  }

  /** Serving worker i touches no queue but its own, and no binding. */
  lemma ServeWorkerFrame(e: Engine, workers: seq<WorkerId>, bp: seq<Backpressure>, maxBatch: int, i: nat)
    requires WellFormed(e) && Bound(e, workers)
    requires |bp| == |workers| && i < |workers|
    ensures var e1 := ServeWorker(e, workers[i], bp[i], maxBatch).0;
            && WellFormed(e1) && e1.vqOf == e.vqOf && e1.requestToGroup == e.requestToGroup && |e1.vqs| == |e.vqs|
            && e1.nextGroupId == e.nextGroupId
            && forall m | 0 <= m < |workers| && m != i :: e1.vqs[m] == e.vqs[m]
  {
  }

  /** Serving worker i leaves the head group of every other queue as it was. */
  lemma ServeWorkerKeepsOtherHeads(e: Engine, workers: seq<WorkerId>, bp: seq<Backpressure>, maxBatch: int, i: nat)
    requires VirtualQueueEngine.Valid(e) && KeysExact(e) && Bound(e, workers)
    requires |bp| == |workers| && i < |workers|
    ensures forall m | 0 <= m < |workers| && m != i && |e.vqs[m].groups| > 0 ::
              ServeWorker(e, workers[i], bp[i], maxBatch).0.groups[e.vqs[m].groups[0]] == e.groups[e.vqs[m].groups[0]]
  {
    var w := workers[i];
    HasRequestIffPoppable(e, w);
    if Eligible(e, bp, maxBatch, i) {
      var e1 := PopRequest(e, w).value.0;
      var gid := e.vqs[i].groups[0];
      assert gid in e.vqs[i].groups;
      forall m | 0 <= m < |workers| && m != i && |e.vqs[m].groups| > 0
        ensures e1.groups[e.vqs[m].groups[0]] == e.groups[e.vqs[m].groups[0]]
      {
        assert e.vqs[m].groups[0] in e.vqs[m].groups;
      }
    }
  }

  /** The pass over workers i, i+1, ... keeps the invariants. */
  lemma {:induction false} ServeKeeps(e: Engine, workers: seq<WorkerId>, bp: seq<Backpressure>, maxBatch: int, i: nat)
    requires VirtualQueueEngine.Valid(e) && KeysExact(e) && Bound(e, workers)
    requires |bp| == |workers| && i <= |workers|
    ensures VirtualQueueEngine.Valid(ServeFrom(e, workers, bp, maxBatch, i).0)
    ensures KeysExact(ServeFrom(e, workers, bp, maxBatch, i).0)
    ensures Bound(ServeFrom(e, workers, bp, maxBatch, i).0, workers)
    decreases |workers| - i
  {
    if i < |workers| {
      ServeWorkerKeeps(e, workers, bp, maxBatch, i);
      var e1 := ServeWorker(e, workers[i], bp[i], maxBatch).0;
      ServeKeeps(e1, workers, bp, maxBatch, i + 1);
    }
  }

  /** The pass over workers i, i+1, ... rebinds no worker and forgets no
      request. */
  lemma {:induction false} ServeKeepsTables(e: Engine, workers: seq<WorkerId>, bp: seq<Backpressure>,
                                            maxBatch: int, i: nat)
    requires WellFormed(e) && Bound(e, workers)
    requires |bp| == |workers| && i <= |workers|
    ensures ServeFrom(e, workers, bp, maxBatch, i).0.vqOf == e.vqOf
    ensures ServeFrom(e, workers, bp, maxBatch, i).0.requestToGroup == e.requestToGroup
    ensures ServeFrom(e, workers, bp, maxBatch, i).0.nextGroupId == e.nextGroupId
    decreases |workers| - i
  {
    if i < |workers| {
      ServeWorkerFrame(e, workers, bp, maxBatch, i);
      var e1 := ServeWorker(e, workers[i], bp[i], maxBatch).0;
      assert Bound(e1, workers);
      ServeKeepsTables(e1, workers, bp, maxBatch, i + 1);
    }
  }

  /** The pass over workers i, i+1, ... hands out exactly the plan. */
  lemma {:induction false} ServeFollowsPlan(e: Engine, workers: seq<WorkerId>, bp: seq<Backpressure>,
                                            maxBatch: int, i: nat)
    requires VirtualQueueEngine.Valid(e) && KeysExact(e) && Bound(e, workers)
    requires |bp| == |workers| && i <= |workers|
    ensures ServeFrom(e, workers, bp, maxBatch, i).1 == Planned(e, workers, bp, maxBatch, i)
    decreases |workers| - i
  {
    if i < |workers| {
      ServeWorkerKeeps(e, workers, bp, maxBatch, i);
      ServeWorkerOutput(e, workers, bp, maxBatch, i);
      ServeWorkerFrame(e, workers, bp, maxBatch, i);
      ServeWorkerKeepsOtherHeads(e, workers, bp, maxBatch, i);
      var e1 := ServeWorker(e, workers[i], bp[i], maxBatch).0;
      ValidIsServable(e);
      ValidIsServable(e1);
      ServeFollowsPlan(e1, workers, bp, maxBatch, i + 1);
      PlanFrame(e, e1, workers, bp, maxBatch, i + 1);
    }
  }

  /** The pass leaves the queue of a worker before i, or of a worker it does
      not serve, as it was. */
  lemma {:induction false} ServeLeavesOthers(e: Engine, workers: seq<WorkerId>, bp: seq<Backpressure>,
                                             maxBatch: int, i: nat, m: nat)
    requires WellFormed(e) && Bound(e, workers)
    requires |bp| == |workers| && i <= |workers|
    requires m < |workers| && (m < i || !Eligible(e, bp, maxBatch, m))
    ensures m < |ServeFrom(e, workers, bp, maxBatch, i).0.vqs|
    ensures ServeFrom(e, workers, bp, maxBatch, i).0.vqs[m] == e.vqs[m]
    decreases |workers| - i
  {
    if i < |workers| {
      ServeWorkerFrame(e, workers, bp, maxBatch, i);
      var e1 := ServeWorker(e, workers[i], bp[i], maxBatch).0;
      if m != i {
        assert e1.vqs[m] == e.vqs[m];
      }
      assert Bound(e1, workers);
      ServeLeavesOthers(e1, workers, bp, maxBatch, i + 1, m);
    }
  }

  /** The head group of queue i. */
  function HeadId(e: Engine, i: nat): (id: GroupId)
    requires Servable(e) && i < |e.vqs| && |e.vqs[i].groups| > 0
    ensures id in e.vqs[i].groups && id in e.groups && |e.groups[id].requests| > 0
  {
    assert e.vqs[i].groups[0] in e.vqs[i].groups;
    e.vqs[i].groups[0]
  }

  /** Group `id` heads the queue of a worker at or after position lo that the
      pass serves. */
  predicate HeadServed(e: Engine, bp: seq<Backpressure>, maxBatch: int, lo: nat, id: GroupId)
  {
    exists m | lo <= m < |e.vqs| && m < |bp| :: Eligible(e, bp, maxBatch, m) && e.vqs[m].groups[0] == id
  }

  /** The group store after serving the workers at or after position lo: the
      head group of each served queue has lost its oldest request, every other
      group is as it was, and no group enters or leaves the store. */
  predicate PopsHeads(e: Engine, e': Engine, bp: seq<Backpressure>, maxBatch: int, lo: nat)
    requires Servable(e)
  {
    && e'.groups.Keys == e.groups.Keys
    && (forall m | lo <= m < |e.vqs| && m < |bp| && Eligible(e, bp, maxBatch, m) ::
          e'.groups[HeadId(e, m)] == Groups.PopRequest(e.groups[HeadId(e, m)]).1)
    && (forall id | id in e.groups && !HeadServed(e, bp, maxBatch, lo, id) :: e'.groups[id] == e.groups[id])
  }

  /** The queues after serving the workers at or after position lo: a served
      queue drops its head group exactly when the pop took that group's last
      request, and no queue changes identity. */
  predicate AdvancesQueues(e: Engine, e': Engine, bp: seq<Backpressure>, maxBatch: int, lo: nat)
    requires Servable(e)
  {
    && |e'.vqs| == |e.vqs|
    && (forall m | 0 <= m < |e.vqs| :: e'.vqs[m].id == e.vqs[m].id)
    && (forall m | lo <= m < |e.vqs| && m < |bp| && Eligible(e, bp, maxBatch, m) ::
          e'.vqs[m].groups == if |e.groups[HeadId(e, m)].requests| == 1 then e.vqs[m].groups[1..] else e.vqs[m].groups)
  }

  /** The (model, slo) table after some pops: no key is added or redirected,
      and a key stays exactly while its group still holds a request. */
  predicate RetiresDrainedKeys(e: Engine, e': Engine)
  {
    && (forall k | k in e'.keyMap :: k in e.keyMap && e'.keyMap[k] == e.keyMap[k])
    && (forall k | k in e.keyMap && e.keyMap[k] in e'.groups ::
          k in e'.keyMap <==> |e'.groups[e.keyMap[k]].requests| > 0)
  }

  /** Serving an eligible worker i is one `pop_request` on its queue. */
  lemma ServeWorkerPops(e: Engine, workers: seq<WorkerId>, bp: seq<Backpressure>, maxBatch: int, i: nat)
    requires VirtualQueueEngine.Valid(e) && KeysExact(e) && Bound(e, workers)
    requires |bp| == |workers| && i < |workers| && Eligible(e, bp, maxBatch, i)
    ensures ServeWorker(e, workers[i], bp[i], maxBatch).0.groups
            == e.groups[HeadId(e, i) := Groups.PopRequest(e.groups[HeadId(e, i)]).1]
    ensures ServeWorker(e, workers[i], bp[i], maxBatch).0.vqs
            == Popped(e.vqs, i, |e.groups[HeadId(e, i)].requests| == 1)
    ensures ServeWorker(e, workers[i], bp[i], maxBatch).0.keyMap
            == if |e.groups[HeadId(e, i)].requests| == 1 then e.keyMap - {Groups.KeyOf(e.groups[HeadId(e, i)])}
               else e.keyMap
  {
    var w := workers[i];
    HasRequestIffPoppable(e, w);
    var e1 := ServeWorker(e, w, bp[i], maxBatch).0;
    var g := e.groups[HeadId(e, i)];
    assert e1 == PopRequest(e, w).value.0;
    assert Groups.PopRequest(g).1 == g.(requests := g.requests[1..]);
    assert e1.vqs[i] == (if |g.requests| == 1 then e.vqs[i].(groups := e.vqs[i].groups[1..]) else e.vqs[i]);
  }

  /** A group served later in the pass heads a later queue, which the serve
      of queue i left alone; the head group of queue i is not one of them. */
  lemma LaterHeadsServed(e: Engine, e1: Engine, bp: seq<Backpressure>, maxBatch: int, i: nat)
    requires QueuesValid(e.vqs, e.groups) && Servable(e1)
    requires |e1.vqs| == |e.vqs| && i < |e.vqs| && |bp| == |e.vqs|
    requires forall m | i < m < |e.vqs| :: e1.vqs[m] == e.vqs[m]
    ensures forall id | HeadServed(e1, bp, maxBatch, i + 1, id) :: HeadServed(e, bp, maxBatch, i, id)
    ensures Eligible(e, bp, maxBatch, i) ==> !HeadServed(e1, bp, maxBatch, i + 1, HeadId(e, i))
  {
    forall id | HeadServed(e1, bp, maxBatch, i + 1, id)
      ensures HeadServed(e, bp, maxBatch, i, id)
      ensures Eligible(e, bp, maxBatch, i) ==> id != HeadId(e, i)
    {
      var m :| i + 1 <= m < |e1.vqs| && m < |bp| && Eligible(e1, bp, maxBatch, m) && e1.vqs[m].groups[0] == id;
      assert e1.vqs[m] == e.vqs[m];
      assert id in e.vqs[m].groups;
    }
  }

  /** What serving worker i does, on the fields alone: an ineligible worker
      changes nothing; an eligible one pops its head group `h`, drops `h` from
      its queue and retires `h`'s key when that was the last request, and
      touches no later queue or later head group. */
  ghost predicate OneServe(e: Engine, e1: Engine, bp: seq<Backpressure>, maxBatch: int, i: nat)
    requires Servable(e) && i < |e.vqs| && |bp| == |e.vqs|
  {
    && Servable(e1)
    && |e1.vqs| == |e.vqs|
    && (!Eligible(e, bp, maxBatch, i) ==> e1 == e)
    && (Eligible(e, bp, maxBatch, i) ==>
          && e1.groups == e.groups[HeadId(e, i) := Groups.PopRequest(e.groups[HeadId(e, i)]).1]
          && e1.vqs == Popped(e.vqs, i, |e.groups[HeadId(e, i)].requests| == 1)
          && e1.keyMap == (if |e.groups[HeadId(e, i)].requests| == 1
                           then e.keyMap - {Groups.KeyOf(e.groups[HeadId(e, i)])} else e.keyMap)
          && Groups.KeyOf(e.groups[HeadId(e, i)]) in e.keyMap
          && e.keyMap[Groups.KeyOf(e.groups[HeadId(e, i)])] == HeadId(e, i)
          && !HeadServed(e1, bp, maxBatch, i + 1, HeadId(e, i)))
    && (forall m | i < m < |e.vqs| :: e1.vqs[m] == e.vqs[m])
    && (forall m | i < m < |e.vqs| && Eligible(e, bp, maxBatch, m) ::
          e1.groups[HeadId(e, m)] == e.groups[HeadId(e, m)])
    && (forall id | HeadServed(e1, bp, maxBatch, i + 1, id) :: HeadServed(e, bp, maxBatch, i, id))
  }

  /** Serving worker i keeps the invariants and does what `OneServe` says. */
  lemma ServeWorkerStep(e: Engine, workers: seq<WorkerId>, bp: seq<Backpressure>, maxBatch: int, i: nat)
    requires VirtualQueueEngine.Valid(e) && KeysExact(e) && Bound(e, workers)
    requires |bp| == |workers| && i < |workers|
    ensures Keeps(e, ServeWorker(e, workers[i], bp[i], maxBatch).0, workers)
    ensures OneServe(e, ServeWorker(e, workers[i], bp[i], maxBatch).0, bp, maxBatch, i)
  {
    ServeWorkerKeeps(e, workers, bp, maxBatch, i);
    ServeWorkerFrame(e, workers, bp, maxBatch, i);
    ServeWorkerKeepsOtherHeads(e, workers, bp, maxBatch, i);
    var e1 := ServeWorker(e, workers[i], bp[i], maxBatch).0;
    LaterHeadsServed(e, e1, bp, maxBatch, i);
    if Eligible(e, bp, maxBatch, i) {
      ServeWorkerPops(e, workers, bp, maxBatch, i);
      var h := HeadId(e, i);
      assert Groups.KeyOf(e.groups[h]) in e.keyMap && e.keyMap[Groups.KeyOf(e.groups[h])] == h;
    }
    forall m | i < m < |e.vqs| && Eligible(e, bp, maxBatch, m)
      ensures e1.groups[HeadId(e, m)] == e.groups[HeadId(e, m)]
    {
    }
  }

  /** Every serve of the pass from position i does what `OneServe` says, and
      every engine it passes through is well formed, has its workers bound,
      and files keys only for groups that hold a request. */
  ghost predicate PassOk(e: Engine, workers: seq<WorkerId>, bp: seq<Backpressure>, maxBatch: int, i: nat)
    decreases |workers| - i
  {
    && WellFormed(e) && Servable(e) && Bound(e, workers) && |bp| == |workers| && i <= |workers|
    && (forall k | k in e.keyMap :: |e.groups[e.keyMap[k]].requests| > 0)
    && (i < |workers| ==>
          && OneServe(e, ServeWorker(e, workers[i], bp[i], maxBatch).0, bp, maxBatch, i)
          && PassOk(ServeWorker(e, workers[i], bp[i], maxBatch).0, workers, bp, maxBatch, i + 1))
  }

  /** With the key table exact, every filed key names a queued, hence
      non-empty, group. */
  lemma KeyedGroupsHoldRequests(e: Engine)
    requires KeysExact(e) && QueuesValid(e.vqs, e.groups)
    ensures forall k | k in e.keyMap :: e.keyMap[k] in e.groups && |e.groups[e.keyMap[k]].requests| > 0
  {
    forall k | k in e.keyMap
      ensures |e.groups[e.keyMap[k]].requests| > 0
    {
      var j :| 0 <= j < |e.vqs| && e.keyMap[k] in e.vqs[j].groups;
    }
  }

  /** From a valid engine, every serve of the pass is one `pop_request` on a
      served queue. */
  lemma {:induction false} ValidPassOk(e: Engine, workers: seq<WorkerId>, bp: seq<Backpressure>,
                                       maxBatch: int, i: nat)
    requires VirtualQueueEngine.Valid(e) && KeysExact(e) && Bound(e, workers)
    requires |bp| == |workers| && i <= |workers|
    ensures PassOk(e, workers, bp, maxBatch, i)
    decreases |workers| - i
  {
    KeyedGroupsHoldRequests(e);
    if i < |workers| {
      ServeWorkerStep(e, workers, bp, maxBatch, i);
      ValidPassOk(ServeWorker(e, workers[i], bp[i], maxBatch).0, workers, bp, maxBatch, i + 1);
    }
  }

  /** The head groups of one serve followed by the rest of the pass. */
  lemma PopsHeadsStepHeads(e: Engine, e1: Engine, e2: Engine, bp: seq<Backpressure>, maxBatch: int, i: nat)
    requires Servable(e) && i < |e.vqs| && |bp| == |e.vqs|
    requires OneServe(e, e1, bp, maxBatch, i)
    requires PopsHeads(e1, e2, bp, maxBatch, i + 1)
    ensures forall m | i <= m < |e.vqs| && m < |bp| && Eligible(e, bp, maxBatch, m) ::
              e2.groups[HeadId(e, m)] == Groups.PopRequest(e.groups[HeadId(e, m)]).1
  {
    forall m | i <= m < |e.vqs| && Eligible(e, bp, maxBatch, m)
      ensures e2.groups[HeadId(e, m)] == Groups.PopRequest(e.groups[HeadId(e, m)]).1
    {
      if m > i {
        assert Eligible(e1, bp, maxBatch, m);
        assert HeadId(e1, m) == HeadId(e, m);
      } else {
        assert e2.groups[HeadId(e, i)] == e1.groups[HeadId(e, i)];
      }
    }
  }

  /** The groups that one serve followed by the rest of the pass leaves alone. */
  lemma PopsHeadsStepOthers(e: Engine, e1: Engine, e2: Engine, bp: seq<Backpressure>, maxBatch: int, i: nat)
    requires Servable(e) && i < |e.vqs| && |bp| == |e.vqs|
    requires OneServe(e, e1, bp, maxBatch, i)
    requires PopsHeads(e1, e2, bp, maxBatch, i + 1)
    ensures e2.groups.Keys == e.groups.Keys
    ensures forall id | id in e.groups && !HeadServed(e, bp, maxBatch, i, id) :: e2.groups[id] == e.groups[id]
  {
    assert e1.groups.Keys == e.groups.Keys;
    forall id | id in e.groups && !HeadServed(e, bp, maxBatch, i, id)
      ensures e2.groups[id] == e.groups[id]
    {
      assert !HeadServed(e1, bp, maxBatch, i + 1, id);
      if Eligible(e, bp, maxBatch, i) {
        assert id != HeadId(e, i);
      }
    }
  }

  /** The pass from position i pops the head group of every served queue once
      and leaves every other group alone. */
  lemma {:induction false} ServePopsHeads(e: Engine, workers: seq<WorkerId>, bp: seq<Backpressure>,
                                          maxBatch: int, i: nat)
    requires PassOk(e, workers, bp, maxBatch, i)
    ensures PopsHeads(e, ServeFrom(e, workers, bp, maxBatch, i).0, bp, maxBatch, i)
    decreases |workers| - i
  {
    if i < |workers| {
      var e1 := ServeWorker(e, workers[i], bp[i], maxBatch).0;
      var e2 := ServeFrom(e1, workers, bp, maxBatch, i + 1).0;
      ServePopsHeads(e1, workers, bp, maxBatch, i + 1);
      PopsHeadsStepHeads(e, e1, e2, bp, maxBatch, i);
      PopsHeadsStepOthers(e, e1, e2, bp, maxBatch, i);
    }
  }

  /** The queue-level facts of one serve followed by the rest of the pass. */
  lemma AdvancesQueuesStep(e: Engine, e1: Engine, e2: Engine, bp: seq<Backpressure>, maxBatch: int, i: nat)
    requires Servable(e) && i < |e.vqs| && |bp| == |e.vqs|
    requires OneServe(e, e1, bp, maxBatch, i)
    requires AdvancesQueues(e1, e2, bp, maxBatch, i + 1)
    requires Eligible(e, bp, maxBatch, i) ==> e2.vqs[i] == e1.vqs[i]
    ensures AdvancesQueues(e, e2, bp, maxBatch, i)
  {
    if Eligible(e, bp, maxBatch, i) {
      PoppedShrinks(e.vqs, i, |e.groups[HeadId(e, i)].requests| == 1);
    }
    forall m | i < m < |e.vqs| && Eligible(e, bp, maxBatch, m)
      ensures e2.vqs[m].groups == if |e.groups[HeadId(e, m)].requests| == 1 then e.vqs[m].groups[1..] else e.vqs[m].groups
    {
      assert Eligible(e1, bp, maxBatch, m);
      assert HeadId(e1, m) == HeadId(e, m);
    }
  }

  /** The pass from position i moves every served queue past a group it drains
      and past nothing else. */
  lemma {:induction false} ServeAdvancesQueues(e: Engine, workers: seq<WorkerId>, bp: seq<Backpressure>,
                                               maxBatch: int, i: nat)
    requires PassOk(e, workers, bp, maxBatch, i)
    ensures AdvancesQueues(e, ServeFrom(e, workers, bp, maxBatch, i).0, bp, maxBatch, i)
    decreases |workers| - i
  {
    if i < |workers| {
      var e1 := ServeWorker(e, workers[i], bp[i], maxBatch).0;
      var e2 := ServeFrom(e1, workers, bp, maxBatch, i + 1).0;
      ServeAdvancesQueues(e1, workers, bp, maxBatch, i + 1);
      ServeLeavesOthers(e1, workers, bp, maxBatch, i + 1, i);
      AdvancesQueuesStep(e, e1, e2, bp, maxBatch, i);
    }
  }

  /** The key-table facts of one serve followed by the rest of the pass. */
  lemma RetiresKeysStep(e: Engine, e1: Engine, e2: Engine, bp: seq<Backpressure>, maxBatch: int, i: nat)
    requires Servable(e) && i < |e.vqs| && |bp| == |e.vqs|
    requires OneServe(e, e1, bp, maxBatch, i)
    requires RetiresDrainedKeys(e1, e2)
    requires PopsHeads(e1, e2, bp, maxBatch, i + 1)
    ensures RetiresDrainedKeys(e, e2)
  {
    if Eligible(e, bp, maxBatch, i) {
      var h := HeadId(e, i);
      assert e2.groups[h] == e1.groups[h];
    }
  }

  /** The pass from position i retires the key of every group it drains, and
      only those. */
  lemma {:induction false} ServeRetiresKeys(e: Engine, workers: seq<WorkerId>, bp: seq<Backpressure>,
                                            maxBatch: int, i: nat)
    requires PassOk(e, workers, bp, maxBatch, i)
    ensures RetiresDrainedKeys(e, ServeFrom(e, workers, bp, maxBatch, i).0)
    decreases |workers| - i
  {
    if i < |workers| {
      var e1 := ServeWorker(e, workers[i], bp[i], maxBatch).0;
      var e2 := ServeFrom(e1, workers, bp, maxBatch, i + 1).0;
      ServeRetiresKeys(e1, workers, bp, maxBatch, i + 1);
      ServePopsHeads(e1, workers, bp, maxBatch, i + 1);
      RetiresKeysStep(e, e1, e2, bp, maxBatch, i);
    }
  }

  /** A hand-over that goes to an eligible worker and carries the next
      request of that worker's queue. */
  predicate Entry(e: Engine, workers: seq<WorkerId>, bp: seq<Backpressure>, maxBatch: int, d: Dispatch)
    requires Servable(e) && Bound(e, workers) && |bp| == |workers|
  {
    && d.worker in e.vqOf
    && e.vqOf[d.worker] < |workers|
    && d.worker == workers[e.vqOf[d.worker]]
    && Eligible(e, bp, maxBatch, e.vqOf[d.worker])
    && d.prompt == NextRequest(e, e.vqOf[d.worker]).prompt
    && d.model == NextRequest(e, e.vqOf[d.worker]).model
  }

  /** Every hand-over of the plan goes to an eligible worker at or after
      position i, and carries that worker's next request. */
  lemma {:induction false} PlanEntries(e: Engine, workers: seq<WorkerId>, bp: seq<Backpressure>, maxBatch: int, i: nat)
    requires Servable(e) && Bound(e, workers) && |bp| == |workers| && i <= |workers|
    ensures forall a | 0 <= a < |Planned(e, workers, bp, maxBatch, i)| ::
              && Entry(e, workers, bp, maxBatch, Planned(e, workers, bp, maxBatch, i)[a])
              && i <= e.vqOf[Planned(e, workers, bp, maxBatch, i)[a].worker]
    decreases |workers| - i
  {
    if i < |workers| {
      PlanEntries(e, workers, bp, maxBatch, i + 1);
      var rest := Planned(e, workers, bp, maxBatch, i + 1);
      var ds := Planned(e, workers, bp, maxBatch, i);
      if Eligible(e, bp, maxBatch, i) {
        assert ds == [Dispatch(workers[i], NextRequest(e, i).prompt, NextRequest(e, i).model)] + rest;
        forall a | 1 <= a < |ds|
          ensures ds[a] == rest[a - 1]
        {
        }
      } else {
        assert ds == rest;
        forall a | 0 <= a < |ds|
          ensures Entry(e, workers, bp, maxBatch, ds[a]) && i <= e.vqOf[ds[a].worker]
        {
          assert ds[a] == rest[a];
          assert Entry(e, workers, bp, maxBatch, rest[a]);
        }
      }
    }
  }

  /** The workers the plan serves appear in strictly increasing registration
      order, so none is served twice. */
  lemma {:induction false} PlanOrdered(e: Engine, workers: seq<WorkerId>, bp: seq<Backpressure>, maxBatch: int, i: nat)
    requires Servable(e) && Bound(e, workers) && |bp| == |workers| && i <= |workers|
    ensures forall a, b | 0 <= a < b < |Planned(e, workers, bp, maxBatch, i)| ::
              && Planned(e, workers, bp, maxBatch, i)[a].worker in e.vqOf
              && Planned(e, workers, bp, maxBatch, i)[b].worker in e.vqOf
              && e.vqOf[Planned(e, workers, bp, maxBatch, i)[a].worker]
                 < e.vqOf[Planned(e, workers, bp, maxBatch, i)[b].worker]
    decreases |workers| - i
  {
    PlanEntries(e, workers, bp, maxBatch, i);
    if i < |workers| {
      PlanOrdered(e, workers, bp, maxBatch, i + 1);
      PlanEntries(e, workers, bp, maxBatch, i + 1);
      var rest := Planned(e, workers, bp, maxBatch, i + 1);
      var ds := Planned(e, workers, bp, maxBatch, i);
      if Eligible(e, bp, maxBatch, i) {
        assert ds == [Dispatch(workers[i], NextRequest(e, i).prompt, NextRequest(e, i).model)] + rest;
        forall a | 1 <= a < |ds|
          ensures ds[a] == rest[a - 1]
        {
        }
      } else {
        assert ds == rest;
      }
    }
  }

  /** Every eligible worker at or after position i is served by the plan. */
  lemma {:induction false} PlanServesEligible(e: Engine, workers: seq<WorkerId>, bp: seq<Backpressure>,
                                              maxBatch: int, i: nat, m: nat)
    requires Servable(e) && Bound(e, workers) && |bp| == |workers| && i <= m < |workers|
    requires Eligible(e, bp, maxBatch, m)
    ensures exists a | 0 <= a < |Planned(e, workers, bp, maxBatch, i)| ::
              Planned(e, workers, bp, maxBatch, i)[a].worker == workers[m]
    decreases |workers| - i
  {
    var ds := Planned(e, workers, bp, maxBatch, i);
    if m == i {
      assert ds[0].worker == workers[i];
    } else {
      PlanServesEligible(e, workers, bp, maxBatch, i + 1, m);
      var rest := Planned(e, workers, bp, maxBatch, i + 1);
      var a :| 0 <= a < |rest| && rest[a].worker == workers[m];
      var k := if Eligible(e, bp, maxBatch, i) then 1 else 0;
      assert ds[a + k] == rest[a];
    }
  }

  /** The plan serves a worker at or after position i exactly when it is
      eligible. */
  lemma PlanCovers(e: Engine, workers: seq<WorkerId>, bp: seq<Backpressure>, maxBatch: int, i: nat, m: nat)
    requires Servable(e) && Bound(e, workers) && |bp| == |workers| && i <= m < |workers|
    ensures (exists a | 0 <= a < |Planned(e, workers, bp, maxBatch, i)| ::
               Planned(e, workers, bp, maxBatch, i)[a].worker == workers[m])
            <==> Eligible(e, bp, maxBatch, m)
  {
    var ds := Planned(e, workers, bp, maxBatch, i);
    if Eligible(e, bp, maxBatch, m) {
      PlanServesEligible(e, workers, bp, maxBatch, i, m);
    } else {
      PlanEntries(e, workers, bp, maxBatch, i);
      forall a | 0 <= a < |ds|
        ensures ds[a].worker != workers[m]
      {
        assert Entry(e, workers, bp, maxBatch, ds[a]);
      }
    }
  }

  /** One iteration of `run_queue`: reorder the queues first, then serve the
      workers in registration order, handing out exactly the plan of the
      reordered engine. Each served worker's head group loses the request
      handed out, and leaves its queue, with its key retired, when that was
      its last request; every other group and every unserved queue is as the
      reorder left it. */
  function Step(q: Queue, now: int, bp: seq<Backpressure>, cfg: Config, maxBatch: int)
    : (res: (Queue, seq<Dispatch>))
    requires Valid(q) && |bp| == |q.workers|
    requires cfg.granularity > 0 && ModelsKnown(q.engine, cfg.est)
    ensures Valid(res.0) && res.0.workers == q.workers
    ensures res.0.engine.requestToGroup == q.engine.requestToGroup && res.0.engine.nextGroupId == q.engine.nextGroupId
    ensures res.0.nextRequestId == q.nextRequestId && res.0.nextWorkerId == q.nextWorkerId
    ensures Servable(ReorderVqs(q.engine, now, cfg)) && Bound(ReorderVqs(q.engine, now, cfg), q.workers)
    ensures res.1 == Planned(ReorderVqs(q.engine, now, cfg), q.workers, bp, maxBatch, 0)
    ensures forall m | 0 <= m < |q.workers| && !Eligible(ReorderVqs(q.engine, now, cfg), bp, maxBatch, m) ::
              res.0.engine.vqs[m] == ReorderVqs(q.engine, now, cfg).vqs[m]
    ensures PopsHeads(ReorderVqs(q.engine, now, cfg), res.0.engine, bp, maxBatch, 0)
    ensures AdvancesQueues(ReorderVqs(q.engine, now, cfg), res.0.engine, bp, maxBatch, 0)
    ensures RetiresDrainedKeys(ReorderVqs(q.engine, now, cfg), res.0.engine)
  {
    ReorderPreservesValid(q.engine, now, cfg);
    ReorderKeepsKeysAndModels(q.engine, now, cfg);
    var e1 := ReorderVqs(q.engine, now, cfg);
    ValidIsServable(e1);
    ServeKeeps(e1, q.workers, bp, maxBatch, 0);
    ServeKeepsTables(e1, q.workers, bp, maxBatch, 0);
    ServeFollowsPlan(e1, q.workers, bp, maxBatch, 0);
    ValidPassOk(e1, q.workers, bp, maxBatch, 0);
    ServePopsHeads(e1, q.workers, bp, maxBatch, 0);
    ServeAdvancesQueues(e1, q.workers, bp, maxBatch, 0);
    ServeRetiresKeys(e1, q.workers, bp, maxBatch, 0);
    forall m | 0 <= m < |q.workers| && !Eligible(e1, bp, maxBatch, m)
      ensures ServeFrom(e1, q.workers, bp, maxBatch, 0).0.vqs[m] == e1.vqs[m]
    {
      ServeLeavesOthers(e1, q.workers, bp, maxBatch, 0, m);
    }
    var (e2, ds) := ServeFrom(e1, q.workers, bp, maxBatch, 0);
    (Queue(q.workers, e2, q.nextWorkerId, q.nextRequestId), ds)
  }

  /** A reorder keeps every queue's length, so eligibility after it is
      eligibility before it. */
  lemma ReorderKeepsEligibility(q: Queue, now: int, bp: seq<Backpressure>, cfg: Config, maxBatch: int, m: nat)
    requires Valid(q) && |bp| == |q.workers|
    requires cfg.granularity > 0 && ModelsKnown(q.engine, cfg.est)
    requires m < |q.workers|
    ensures Eligible(ReorderVqs(q.engine, now, cfg), bp, maxBatch, m)
            <==> HasRequest(q.engine, q.workers[m]) == Success(true) && Admits(bp[m], maxBatch)
  {
    var e1 := ReorderVqs(q.engine, now, cfg);
    assert |multiset(e1.vqs[m].groups)| == |multiset(q.engine.vqs[m].groups)|;
  }

  /** A worker receives a request in a step exactly when, before the step,
      its queue has a request and its backpressure admits one more. */
  lemma StepServesExactlyEligible(q: Queue, now: int, bp: seq<Backpressure>, cfg: Config, maxBatch: int, m: nat)
    requires Valid(q) && |bp| == |q.workers|
    requires cfg.granularity > 0 && ModelsKnown(q.engine, cfg.est)
    requires m < |q.workers|
    ensures (exists a | 0 <= a < |Step(q, now, bp, cfg, maxBatch).1| ::
               Step(q, now, bp, cfg, maxBatch).1[a].worker == q.workers[m])
            <==> HasRequest(q.engine, q.workers[m]) == Success(true) && Admits(bp[m], maxBatch)
  {
    var e1 := ReorderVqs(q.engine, now, cfg);
    var ds := Step(q, now, bp, cfg, maxBatch).1;
    assert ds == Planned(e1, q.workers, bp, maxBatch, 0);
    PlanCovers(e1, q.workers, bp, maxBatch, 0, m);
    ReorderKeepsEligibility(q, now, bp, cfg, maxBatch, m);
  }

  /** The hand-overs of a step follow registration order, so no worker
      receives two requests in one step. */
  lemma StepInRegistrationOrder(q: Queue, now: int, bp: seq<Backpressure>, cfg: Config, maxBatch: int, a: nat, b: nat)
    requires Valid(q) && |bp| == |q.workers|
    requires cfg.granularity > 0 && ModelsKnown(q.engine, cfg.est)
    requires a < b < |Step(q, now, bp, cfg, maxBatch).1|
    ensures Step(q, now, bp, cfg, maxBatch).1[a].worker in q.engine.vqOf
    ensures Step(q, now, bp, cfg, maxBatch).1[b].worker in q.engine.vqOf
    ensures q.engine.vqOf[Step(q, now, bp, cfg, maxBatch).1[a].worker]
            < q.engine.vqOf[Step(q, now, bp, cfg, maxBatch).1[b].worker]
    ensures Step(q, now, bp, cfg, maxBatch).1[a].worker != Step(q, now, bp, cfg, maxBatch).1[b].worker
  {
    var e1 := ReorderVqs(q.engine, now, cfg);
    var ds := Step(q, now, bp, cfg, maxBatch).1;
    assert ds == Planned(e1, q.workers, bp, maxBatch, 0);
    assert e1.vqOf == q.engine.vqOf;
    PlanOrdered(e1, q.workers, bp, maxBatch, 0);
    assert ds[a].worker in e1.vqOf && ds[b].worker in e1.vqOf && e1.vqOf[ds[a].worker] < e1.vqOf[ds[b].worker];
  }

  /** What a worker receives is the oldest request of the head group of its
      queue once the reorder has run. */
  lemma StepHandsOutNextRequest(q: Queue, now: int, bp: seq<Backpressure>, cfg: Config, maxBatch: int, a: nat)
    requires Valid(q) && |bp| == |q.workers|
    requires cfg.granularity > 0 && ModelsKnown(q.engine, cfg.est)
    requires a < |Step(q, now, bp, cfg, maxBatch).1|
    ensures Step(q, now, bp, cfg, maxBatch).1[a].worker in q.engine.vqOf
    ensures Entry(ReorderVqs(q.engine, now, cfg), q.workers, bp, maxBatch, Step(q, now, bp, cfg, maxBatch).1[a])
  {
    var e1 := ReorderVqs(q.engine, now, cfg);
    var ds := Step(q, now, bp, cfg, maxBatch).1;
    assert ds == Planned(e1, q.workers, bp, maxBatch, 0);
    assert e1.vqOf == q.engine.vqOf;
    PlanEntries(e1, q.workers, bp, maxBatch, 0);
    assert Entry(e1, q.workers, bp, maxBatch, ds[a]);
    assert ds[a].worker in e1.vqOf;
  }

  /** A worker whose backpressure reading is the unbounded sentinel is never
      handed a request, whatever its queue holds. */
  lemma UnreachableWorkerNeverServed(q: Queue, now: int, bp: seq<Backpressure>, cfg: Config, maxBatch: int, m: nat)
    requires Valid(q) && |bp| == |q.workers|
    requires cfg.granularity > 0 && ModelsKnown(q.engine, cfg.est)
    requires m < |q.workers| && bp[m] == Unbounded
    ensures forall d | d in Step(q, now, bp, cfg, maxBatch).1 :: d.worker != q.workers[m]
  {
    var ds := Step(q, now, bp, cfg, maxBatch).1;
    StepServesExactlyEligible(q, now, bp, cfg, maxBatch, m);
    forall d | d in ds
      ensures d.worker != q.workers[m]
    {
      var a :| 0 <= a < |ds| && ds[a] == d;
    }
  }
}
