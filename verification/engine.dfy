/** The virtual-queue engine (qlm/queue/virtual_queue_engine.py): the virtual
    queues, the group store and the lookup tables that tie requests, groups,
    queues and workers together.

    Groups are shared objects in the source (one group is reachable from a
    virtual queue, from the (model, slo) table and from the request table);
    here they live once, in `groups`, keyed by their identity, and every
    other structure holds the identity. */
module VirtualQueueEngine {
  import opened Base
  import opened Requests
  import opened Groups
  import opened VirtualQueues
  import opened RwtEstimator
  import opened Scheduler
  import opened StableSort

  /** The (model, slo) key of the group lookup table. */
  type Key = (Model, int)

  /** `vqOf` is the inverse of `vq_worker_bimap`: the worker's virtual queue,
      given by its position in `vqs` (positions never change, since queues
      are only ever appended and reordering rewrites each queue in place). */
  datatype Engine = Engine(
    vqs: seq<VirtualQueue>,
    groups: map<GroupId, Group>,
    requestToGroup: map<RequestId, GroupId>,
    keyMap: map<Key, GroupId>,
    vqOf: map<WorkerId, nat>,
    nextGroupId: nat,
    nextVqId: nat)

  /** The state left behind by an operation of the source and the exception
      it raised, if any. Python does not roll back the assignments made before
      an exception, so a failed call can still have changed the state. */
  datatype Outcome = Outcome(engine: Engine, fault: Option<Fault>)

  /** The engine as constructed: no queues, no groups, empty tables. */
  function Init(): (e: Engine)
    ensures |e.vqs| == 0 && e.groups == map[] && e.requestToGroup == map[] && e.keyMap == map[] && e.vqOf == map[]
  {
    Engine([], map[], map[], map[], map[], 0, 0)
  }

  /** Every identity the tables hold can be looked up. */
  predicate WellFormed(e: Engine)
  {
    && Closed(e.vqs, e.groups)
    && (forall key | key in e.keyMap :: e.keyMap[key] in e.groups)
    && (forall w | w in e.vqOf :: e.vqOf[w] < |e.vqs|)
  }

  /** No element occurs twice. */
  predicate NoDup(s: seq<GroupId>)
  {
    forall x | x in s :: multiset(s)[x] == 1
  }

  /** The store is keyed by each group's own identity, every identity in it
      has been issued, and the request table names stored groups. */
  predicate StoreValid(e: Engine)
  {
    && (forall id | id in e.groups :: e.groups[id].id == id && id < e.nextGroupId)
    && (forall rid | rid in e.requestToGroup :: e.requestToGroup[rid] in e.groups)
  }

  /** Every queued group is stored and non-empty, and occupies exactly one
      slot of exactly one queue. */
  predicate QueuesValid(vqs: seq<VirtualQueue>, groups: map<GroupId, Group>)
  {
    && Closed(vqs, groups)
    && (forall i, id | 0 <= i < |vqs| && id in vqs[i].groups :: |groups[id].requests| > 0)
    && (forall i | 0 <= i < |vqs| :: NoDup(vqs[i].groups))
    && (forall i, j, id | 0 <= i < |vqs| && 0 <= j < |vqs| && id in vqs[i].groups && id in vqs[j].groups
          :: i == j)
  }

  /** The worker binding is one-to-one onto queue positions, and queue
      identities are issued and distinct. */
  predicate BindingValid(e: Engine)
  {
    && (forall w | w in e.vqOf :: e.vqOf[w] < |e.vqs|)
    && (forall w, w' | w in e.vqOf && w' in e.vqOf && e.vqOf[w] == e.vqOf[w'] :: w == w')
    && (forall i | 0 <= i < |e.vqs| :: e.vqs[i].id < e.nextVqId)
    && (forall i, j | 0 <= i < j < |e.vqs| :: e.vqs[i].id != e.vqs[j].id)
  }

  /** The structural invariant every reachable engine satisfies. */
  predicate Valid(e: Engine)
  {
    && WellFormed(e)
    && StoreValid(e)
    && QueuesValid(e.vqs, e.groups)
    && BindingValid(e)
  }

  /** The (model, slo) table holds exactly the active groups: each key names a
      queued group filed under that key, and each queued group is the one its
      key names. The source does not keep this invariant (see `PopRequestAsWritten`);
      the corrected operations do. */
  predicate KeysExact(e: Engine)
  {
    && (forall key | key in e.keyMap ::
          e.keyMap[key] in e.groups && Queued(e.vqs, e.keyMap[key]) && KeyOf(e.groups[e.keyMap[key]]) == key)
    && (forall i, id | 0 <= i < |e.vqs| && id in e.vqs[i].groups ::
          id in e.groups && KeyOf(e.groups[id]) in e.keyMap && e.keyMap[KeyOf(e.groups[id])] == id)
  }

  // ------------------------------------------------------------ add_worker

  /** `add_worker`: appends a fresh, empty virtual queue and binds it to the
      worker. Binding a worker that is already bound raises a
      ValueDuplicationError in the bidict, after the queue was appended. */
  function AddWorker(e: Engine, w: WorkerId): (out: Outcome)
    ensures |out.engine.vqs| == |e.vqs| + 1 && out.engine.vqs[..|e.vqs|] == e.vqs
    ensures out.engine.vqs[|e.vqs|] == NewVq(e.nextVqId)
    ensures out.fault == None <==> w !in e.vqOf
    ensures out.fault == None ==> out.engine.vqOf == e.vqOf[w := |e.vqs|]
    ensures out.fault != None ==> out.fault == Some(DuplicateWorker) && out.engine.vqOf == e.vqOf
    ensures out.engine.groups == e.groups && out.engine.keyMap == e.keyMap
    ensures out.engine.requestToGroup == e.requestToGroup && out.engine.nextGroupId == e.nextGroupId
  {
    var grown := e.(vqs := e.vqs + [NewVq(e.nextVqId)], nextVqId := e.nextVqId + 1);
    if w in e.vqOf then Outcome(grown, Some(DuplicateWorker))
    else Outcome(grown.(vqOf := e.vqOf[w := |e.vqs|]), None)
  }

  // ----------------------------------------------------------- add_request

  /** `add_request` as written. A known key appends the request to that
      key's group; an unknown key creates a group, files the key and the
      request, and only then picks a queue: `pick` stands for the random
      choice. With no queue at all the choice raises, and the new group is
      left filed but in no queue. */
  function AddRequestAsWritten(e: Engine, r: Request, pick: nat): (out: Outcome)
    requires WellFormed(e)
    requires |e.vqs| == 0 || pick < |e.vqs|
    ensures out.engine.vqOf == e.vqOf
    ensures (r.model, r.slo) in out.engine.keyMap
    ensures out.engine.requestToGroup == e.requestToGroup[r.id := out.engine.keyMap[(r.model, r.slo)]]
    ensures (r.model, r.slo) in e.keyMap ==>
              var gid := e.keyMap[(r.model, r.slo)];
              && out.fault == None
              && out.engine.vqs == e.vqs && out.engine.keyMap == e.keyMap
              && out.engine.groups == e.groups[gid := Groups.AddRequest(e.groups[gid], r)]
    ensures (r.model, r.slo) !in e.keyMap ==>
              var gid := e.nextGroupId;
              && out.engine.keyMap == e.keyMap[(r.model, r.slo) := gid]
              && out.engine.groups == e.groups[gid := Group(gid, r.model, r.slo, [r])]
              && (out.fault == None <==> |e.vqs| > 0)
              && (|e.vqs| == 0 ==> out.fault == Some(NoWorkerRegistered) && out.engine.vqs == e.vqs)
              && (|e.vqs| > 0 ==> out.engine.vqs == e.vqs[pick := AddGroup(e.vqs[pick], gid)])
  {
    var key := (r.model, r.slo);
    if key in e.keyMap then
      var gid := e.keyMap[key];
      Outcome(e.(groups := e.groups[gid := Groups.AddRequest(e.groups[gid], r)],
                 requestToGroup := e.requestToGroup[r.id := gid]), None)
    else
      var gid := e.nextGroupId;
      var g := Groups.AddRequest(NewGroup(gid, r.model, r.slo), r);
      var filed := e.(groups := e.groups[gid := g], keyMap := e.keyMap[key := gid],
                      requestToGroup := e.requestToGroup[r.id := gid], nextGroupId := gid + 1);
      if |e.vqs| == 0 then Outcome(filed, Some(NoWorkerRegistered))
      else Outcome(filed.(vqs := e.vqs[pick := AddGroup(e.vqs[pick], gid)]), None)
  }

  /** `add_request` with the missing-worker failure made atomic: when the
      request would need a new group and there is no queue to put it in, the
      call fails and changes nothing. Otherwise it is the source's operation. */
  function AddRequest(e: Engine, r: Request, pick: nat): (out: Result<Engine, Fault>)
    requires WellFormed(e)
    requires |e.vqs| == 0 || pick < |e.vqs|
    ensures out.Failure? <==> (r.model, r.slo) !in e.keyMap && |e.vqs| == 0
    ensures out.Failure? ==> out.error == NoWorkerRegistered
    ensures out.Success? ==> out.value == AddRequestAsWritten(e, r, pick).engine
  {
    if (r.model, r.slo) !in e.keyMap && |e.vqs| == 0 then Failure(NoWorkerRegistered)
    else Success(AddRequestAsWritten(e, r, pick).engine)
  }

  // ----------------------------------------------- has_request, pop_request

  /** `has_request`: the worker's queue holds at least one group. An unbound
      worker is a KeyError. */
  function HasRequest(e: Engine, w: WorkerId): (out: Result<bool, Fault>)
    requires WellFormed(e)
    ensures out.Failure? <==> w !in e.vqOf
    ensures out.Failure? ==> out.error == UnknownWorker
    ensures out.Success? ==> (out.value <==> |e.vqs[e.vqOf[w]].groups| > 0)
  {
    if w !in e.vqOf then Failure(UnknownWorker)
    else Success(|e.vqs[e.vqOf[w]].groups| > 0)
  }

  /** The group at the head of the worker's queue. */
  function HeadOf(e: Engine, w: WorkerId): GroupId
    requires WellFormed(e) && w in e.vqOf && |e.vqs[e.vqOf[w]].groups| > 0
  {
    HeadGroup(e.vqs[e.vqOf[w]])
  }

  /** `pop_request` as written: takes the oldest request of the head group of
      the worker's queue, and drops that group from the queue once it is
      empty. The (model, slo) table is not touched, so a drained group's key
      keeps naming it. */
  function PopRequestAsWritten(e: Engine, w: WorkerId): (out: Result<(Engine, Request), Fault>)
    requires WellFormed(e)
    ensures w !in e.vqOf ==> out == Failure(UnknownWorker)
    ensures w in e.vqOf && |e.vqs[e.vqOf[w]].groups| == 0 ==> out == Failure(EmptyQueue)
    ensures w in e.vqOf && |e.vqs[e.vqOf[w]].groups| > 0 ==>
              var i := e.vqOf[w];
              var gid := e.vqs[i].groups[0];
              var g := e.groups[gid];
              && (|g.requests| == 0 <==> out.Failure?)
              && (out.Failure? ==> out.error == EmptyGroup)
              && (out.Success? ==>
                    var (e', req) := out.value;
                    && req == g.requests[0]
                    && e'.groups == e.groups[gid := g.(requests := g.requests[1..])]
                    && |e'.vqs| == |e.vqs|
                    && (forall j | 0 <= j < |e.vqs| && j != i :: e'.vqs[j] == e.vqs[j])
                    && e'.vqs[i].id == e.vqs[i].id
                    && (|g.requests| == 1 ==> e'.vqs[i].groups == e.vqs[i].groups[1..])
                    && (|g.requests| > 1 ==> e'.vqs[i].groups == e.vqs[i].groups)
                    && e'.keyMap == e.keyMap
                    && e'.requestToGroup == e.requestToGroup && e'.vqOf == e.vqOf)
    ensures out.Success? ==> out.value.0.nextGroupId == e.nextGroupId && out.value.0.nextVqId == e.nextVqId
    ensures out.Success? ==> WellFormed(out.value.0)
  {
    if w !in e.vqOf then Failure(UnknownWorker)
    else
      var i := e.vqOf[w];
      var vq := e.vqs[i];
      if |vq.groups| == 0 then Failure(EmptyQueue)
      else
        var gid := HeadGroup(vq);
        var g := e.groups[gid];
        if |g.requests| == 0 then Failure(EmptyGroup)
        else
          var (req, rest) := Groups.PopRequest(g);
          var vq' := if |rest.requests| == 0 then PopGroup(vq).1 else vq;
          Success((e.(groups := e.groups[gid := rest], vqs := e.vqs[i := vq']), req))
  }

  /** `pop_request` with the drained group retired: when the head group
      empties, its key is also removed from the (model, slo) table, so the
      next request with that key starts a fresh group. */
  function PopRequest(e: Engine, w: WorkerId): (out: Result<(Engine, Request), Fault>)
    requires WellFormed(e)
    ensures out.Failure? <==> PopRequestAsWritten(e, w).Failure?
    ensures out.Failure? ==> out.error == PopRequestAsWritten(e, w).error
    ensures out.Success? ==>
              var (e0, req) := PopRequestAsWritten(e, w).value;
              var gid := HeadOf(e, w);
              && out.value.1 == req
              && out.value.0.(keyMap := e0.keyMap) == e0
              && (|e.groups[gid].requests| > 1 ==> out.value.0.keyMap == e.keyMap)
              && (|e.groups[gid].requests| == 1 ==> out.value.0.keyMap == e.keyMap - {KeyOf(e.groups[gid])})
    ensures out.Success? ==> WellFormed(out.value.0)
  {
    match PopRequestAsWritten(e, w)
    case Failure(f) => Failure(f)
    case Success((e0, req)) =>
      var g := e.groups[HeadOf(e, w)];
      if |g.requests| == 1 then Success((e0.(keyMap := e.keyMap - {KeyOf(g)}), req))
      else Success((e0, req))
  }

  // ----------------------------------------------------------- reorder_vqs

  /** Every queued group's model has a usable throughput entry. */
  predicate ModelsKnown(e: Engine, est: Estimator)
  {
    forall i, id | 0 <= i < |e.vqs| && id in e.vqs[i].groups :: id in e.groups && Knows(est, e.groups[id].model)
  }

  /** `reorder_vqs` under the earliest-deadline-first policy: refresh every
      queued request's deadline at `now`, and if some queue is then projected
      to miss a group's slo, sort every queue by group slo. */
  function ReorderVqs(e: Engine, now: int, cfg: Config): (e': Engine)
    requires WellFormed(e) && ModelsKnown(e, cfg.est) && cfg.granularity > 0
    ensures e'.groups == RefreshAll(e.vqs, e.groups, now, cfg.granularity)
    ensures e'.keyMap == e.keyMap && e'.vqOf == e.vqOf && e'.requestToGroup == e.requestToGroup
    ensures e'.nextGroupId == e.nextGroupId && e'.nextVqId == e.nextVqId
    ensures |e'.vqs| == |e.vqs|
    ensures forall i | 0 <= i < |e.vqs| ::
              e'.vqs[i].id == e.vqs[i].id && multiset(e'.vqs[i].groups) == multiset(e.vqs[i].groups)
    ensures WellFormed(e')
    ensures Closed(e.vqs, e'.groups) && AllKnown(cfg.est, Snapshot(e.vqs, e'.groups))
    ensures !Violates(cfg, Snapshot(e.vqs, e'.groups)) ==> e'.vqs == e.vqs
    ensures Violates(cfg, Snapshot(e.vqs, e'.groups)) ==>
              forall i | 0 <= i < |e.vqs| ::
                && SortedBy(e'.vqs[i].groups, SloOf(e'.groups))
                && forall k :: WithKey(e'.vqs[i].groups, SloOf(e'.groups), k) == WithKey(e.vqs[i].groups, SloOf(e'.groups), k)
  {
    var refreshed := e.(groups := RefreshAll(e.vqs, e.groups, now, cfg.granularity));
    assert Closed(refreshed.vqs, refreshed.groups);
    var view := Snapshot(refreshed.vqs, refreshed.groups);
    assert AllKnown(cfg.est, view);
    if Violates(cfg, view) then
      var sorted := refreshed.(vqs := ReorderEdf(refreshed.vqs, refreshed.groups));
      assert Closed(sorted.vqs, sorted.groups) by {
        forall i, id | 0 <= i < |sorted.vqs| && id in sorted.vqs[i].groups
          ensures id in sorted.groups
        {
          assert id in multiset(sorted.vqs[i].groups);
        }
      }
      sorted
    else refreshed
  }
}
