/** The engine's invariants and what each operation does to them, including
    the stale-key defect of `pop_request` and the orphan left by a failed
    `add_request`, each next to its corrected counterpart. */
module EngineInvariants {
  import opened Base
  import opened Requests
  import Groups
  import RwtEstimator
  import opened VirtualQueues
  import opened Scheduler
  import opened VirtualQueueEngine

  lemma InitIsValid()
    ensures Valid(Init()) && KeysExact(Init())
  {
  }

  /** A group that heads a duplicate-free queue does not occur in its tail. */
  lemma HeadNotInTail(s: seq<GroupId>)
    requires |s| > 0 && NoDup(s)
    ensures s[0] !in s[1..]
    ensures NoDup(s[1..])
  {
    assert s == [s[0]] + s[1..];
    assert multiset(s) == multiset{s[0]} + multiset(s[1..]);
    assert s[0] in s;
    assert multiset(s)[s[0]] == 1;
    forall x | x in s[1..]
      ensures multiset(s[1..])[x] == 1
    {
      assert x in s;
    }
  }

  /** Appending an element the sequence does not hold keeps it duplicate-free. */
  lemma AppendFreshNoDup(s: seq<GroupId>, x: GroupId)
    requires NoDup(s) && x !in s
    ensures NoDup(s + [x])
  {
    assert multiset(s + [x]) == multiset(s) + multiset{x};
  }

  // ------------------------------------------------------------ add_worker

  /** Appending an empty queue keeps the queue invariant. */
  lemma AppendEmptyQueue(vqs: seq<VirtualQueue>, groups: map<GroupId, Groups.Group>, v: VirtualQueue)
    requires QueuesValid(vqs, groups) && |v.groups| == 0
    ensures QueuesValid(vqs + [v], groups)
    ensures forall id :: Queued(vqs + [v], id) <==> Queued(vqs, id)
  {
    var vqs' := vqs + [v];
    assert forall i | 0 <= i < |vqs| :: vqs'[i] == vqs[i];
    forall id | Queued(vqs, id)
      ensures Queued(vqs', id)
    {
      var i :| 0 <= i < |vqs| && id in vqs[i].groups;
      assert id in vqs'[i].groups;
    }
  }

  lemma AddWorkerPreservesValid(e: Engine, w: WorkerId)
    requires Valid(e)
    ensures Valid(AddWorker(e, w).engine)
  {
    var e' := AddWorker(e, w).engine;
    AppendEmptyQueue(e.vqs, e.groups, NewVq(e.nextVqId));
    assert e'.vqs == e.vqs + [NewVq(e.nextVqId)];
    assert StoreValid(e');
    assert BindingValid(e');
  }

  /** A new, empty queue leaves the (model, slo) table exact. */
  lemma AddWorkerKeepsKeysExact(e: Engine, w: WorkerId)
    requires Valid(e) && KeysExact(e)
    ensures KeysExact(AddWorker(e, w).engine)
  {
    var e' := AddWorker(e, w).engine;
    AppendEmptyQueue(e.vqs, e.groups, NewVq(e.nextVqId));
    assert e'.vqs == e.vqs + [NewVq(e.nextVqId)];
  }

  // ----------------------------------------------------------- add_request

  /** The next group identity is in no queue and no table. */
  lemma NextGroupIsFresh(e: Engine)
    requires Valid(e)
    ensures e.nextGroupId !in e.groups
    ensures !Queued(e.vqs, e.nextGroupId)
  {
  }

  /** Replacing a stored group by one with requests keeps the queue invariant. */
  lemma StoreGroupUpdate(vqs: seq<VirtualQueue>, groups: map<GroupId, Groups.Group>, gid: GroupId, g: Groups.Group)
    requires QueuesValid(vqs, groups) && |g.requests| > 0
    ensures QueuesValid(vqs, groups[gid := g])
  {
  }

  /** Appending a fresh, non-empty group to one queue keeps the queue
      invariant. */
  lemma AppendFreshGroup(vqs: seq<VirtualQueue>, groups: map<GroupId, Groups.Group>,
                         pick: nat, gid: GroupId, g: Groups.Group)
    requires QueuesValid(vqs, groups) && pick < |vqs|
    requires !Queued(vqs, gid) && |g.requests| > 0
    ensures QueuesValid(vqs[pick := AddGroup(vqs[pick], gid)], groups[gid := g])
  {
    var vqs' := vqs[pick := AddGroup(vqs[pick], gid)];
    var groups' := groups[gid := g];
    assert gid !in vqs[pick].groups;
    AppendFreshNoDup(vqs[pick].groups, gid);
    assert forall i | 0 <= i < |vqs| && i != pick :: vqs'[i] == vqs[i];
    assert vqs'[pick].groups == vqs[pick].groups + [gid];
    forall i, j, id | 0 <= i < |vqs'| && 0 <= j < |vqs'| && id in vqs'[i].groups && id in vqs'[j].groups
      ensures i == j
    {
      if id != gid {
        assert id in vqs[i].groups && id in vqs[j].groups;
      } else {
        assert i == pick && j == pick;
      }
    }
    forall i, id | 0 <= i < |vqs'| && id in vqs'[i].groups
      ensures id in groups' && |groups'[id].requests| > 0
    {
      if id != gid {
        assert id in vqs[i].groups;
      }
    }
  }

  /** Appending a group to one queue makes exactly that group newly queued. */
  lemma AppendGroupQueued(vqs: seq<VirtualQueue>, pick: nat, gid: GroupId)
    requires pick < |vqs|
    ensures forall id :: Queued(vqs[pick := AddGroup(vqs[pick], gid)], id) <==> Queued(vqs, id) || id == gid
  {
    var vqs' := vqs[pick := AddGroup(vqs[pick], gid)];
    assert vqs'[pick].groups == vqs[pick].groups + [gid];
    forall id | Queued(vqs, id) || id == gid
      ensures Queued(vqs', id)
    {
      if id == gid {
        assert id in vqs'[pick].groups;
      } else {
        var i :| 0 <= i < |vqs| && id in vqs[i].groups;
        assert id in vqs'[i].groups;
      }
    }
    forall id | Queued(vqs', id)
      ensures Queued(vqs, id) || id == gid
    {
      var i :| 0 <= i < |vqs'| && id in vqs'[i].groups;
      if id != gid {
        assert id in vqs[i].groups;
      }
    }
  }

  lemma AddToKnownGroupPreservesValid(e: Engine, r: Request, pick: nat)
    requires Valid(e) && (r.model, r.slo) in e.keyMap
    requires |e.vqs| == 0 || pick < |e.vqs|
    ensures Valid(AddRequestAsWritten(e, r, pick).engine)
  {
    var e' := AddRequestAsWritten(e, r, pick).engine;
    var gid := e.keyMap[(r.model, r.slo)];
    assert e'.vqs == e.vqs && e'.vqOf == e.vqOf && e'.keyMap == e.keyMap;
    assert e'.nextVqId == e.nextVqId && e'.nextGroupId == e.nextGroupId;
    assert e'.groups.Keys == e.groups.Keys;
    StoreGroupUpdate(e.vqs, e.groups, gid, e'.groups[gid]);
    assert QueuesValid(e'.vqs, e'.groups);
    assert WellFormed(e');
    assert StoreValid(e');
    assert BindingValid(e');
  }

  lemma AddNewGroupPreservesValid(e: Engine, r: Request, pick: nat)
    requires Valid(e) && (r.model, r.slo) !in e.keyMap
    requires |e.vqs| == 0 || pick < |e.vqs|
    ensures Valid(AddRequestAsWritten(e, r, pick).engine)
  {
    var e' := AddRequestAsWritten(e, r, pick).engine;
    var gid := e.nextGroupId;
    NextGroupIsFresh(e);
    assert e'.vqOf == e.vqOf && e'.nextVqId == e.nextVqId && e'.nextGroupId == gid + 1;
    assert e'.groups.Keys == e.groups.Keys + {gid};
    if |e.vqs| > 0 {
      AppendFreshGroup(e.vqs, e.groups, pick, gid, e'.groups[gid]);
      assert forall i | 0 <= i < |e.vqs| :: e'.vqs[i].id == e.vqs[i].id;
    } else {
      assert e'.vqs == e.vqs;
    }
    assert QueuesValid(e'.vqs, e'.groups);
    assert WellFormed(e');
    assert StoreValid(e');
    assert BindingValid(e');
  }

  lemma AddRequestAsWrittenPreservesValid(e: Engine, r: Request, pick: nat)
    requires Valid(e)
    requires |e.vqs| == 0 || pick < |e.vqs|
    ensures Valid(AddRequestAsWritten(e, r, pick).engine)
  {
    if (r.model, r.slo) in e.keyMap {
      AddToKnownGroupPreservesValid(e, r, pick);
    } else {
      AddNewGroupPreservesValid(e, r, pick);
    }
  }

  lemma AddToKnownGroupKeepsKeysExact(e: Engine, r: Request, pick: nat)
    requires Valid(e) && KeysExact(e) && (r.model, r.slo) in e.keyMap
    requires |e.vqs| == 0 || pick < |e.vqs|
    ensures KeysExact(AddRequestAsWritten(e, r, pick).engine)
  {
    var e' := AddRequestAsWritten(e, r, pick).engine;
    assert e'.vqs == e.vqs && e'.keyMap == e.keyMap;
    assert forall id | id in e.groups :: id in e'.groups && Groups.KeyOf(e'.groups[id]) == Groups.KeyOf(e.groups[id]);
  }

  lemma AddNewGroupKeepsKeysExact(e: Engine, r: Request, pick: nat)
    requires Valid(e) && KeysExact(e) && (r.model, r.slo) !in e.keyMap
    requires pick < |e.vqs|
    ensures KeysExact(AddRequestAsWritten(e, r, pick).engine)
  {
    var key := (r.model, r.slo);
    var e' := AddRequestAsWritten(e, r, pick).engine;
    var gid := e.nextGroupId;
    NextGroupIsFresh(e);
    AppendGroupQueued(e.vqs, pick, gid);
    assert e'.keyMap == e.keyMap[key := gid];
    assert Groups.KeyOf(e'.groups[gid]) == key;
    forall k | k in e'.keyMap
      ensures e'.keyMap[k] in e'.groups && Queued(e'.vqs, e'.keyMap[k])
      ensures Groups.KeyOf(e'.groups[e'.keyMap[k]]) == k
    {
      if k != key {
        assert e'.keyMap[k] == e.keyMap[k] && e.keyMap[k] != gid;
      }
    }
    forall i, id | 0 <= i < |e'.vqs| && id in e'.vqs[i].groups
      ensures id in e'.groups && Groups.KeyOf(e'.groups[id]) in e'.keyMap
      ensures e'.keyMap[Groups.KeyOf(e'.groups[id])] == id
    {
      if id != gid {
        assert Queued(e.vqs, id);
        var j :| 0 <= j < |e.vqs| && id in e.vqs[j].groups;
        assert Groups.KeyOf(e.groups[id]) in e.keyMap;
      }
    }
  }

  /** The corrected `add_request` keeps the (model, slo) table exact, and the
      request lands in a group that some queue holds. */
  lemma AddRequestPreservesKeysExact(e: Engine, r: Request, pick: nat)
    requires Valid(e) && KeysExact(e)
    requires |e.vqs| == 0 || pick < |e.vqs|
    requires AddRequest(e, r, pick).Success?
    ensures Valid(AddRequest(e, r, pick).value)
    ensures KeysExact(AddRequest(e, r, pick).value)
    ensures var e' := AddRequest(e, r, pick).value;
            r.id in e'.requestToGroup && Queued(e'.vqs, e'.requestToGroup[r.id])
  {
    AddRequestAsWrittenPreservesValid(e, r, pick);
    if (r.model, r.slo) in e.keyMap {
      AddToKnownGroupKeepsKeysExact(e, r, pick);
    } else {
      AddNewGroupKeepsKeysExact(e, r, pick);
    }
  }

  /** The request is filed under a stored group whose newest request it is,
      and the queue count and worker bindings do not change. */
  lemma AddRequestFilesAtTail(e: Engine, r: Request, pick: nat)
    requires Valid(e)
    requires |e.vqs| == 0 || pick < |e.vqs|
    requires AddRequest(e, r, pick).Success?
    ensures var e' := AddRequest(e, r, pick).value;
            && e'.vqOf == e.vqOf && |e'.vqs| == |e.vqs|
            && e'.requestToGroup.Keys == e.requestToGroup.Keys + {r.id}
            && e'.requestToGroup[r.id] in e'.groups
            && var g := e'.groups[e'.requestToGroup[r.id]];
               |g.requests| > 0 && g.requests[|g.requests| - 1] == r
  {
    var e' := AddRequest(e, r, pick).value;
    var gid := e'.keyMap[(r.model, r.slo)];
    assert e'.requestToGroup[r.id] == gid;
    if (r.model, r.slo) in e.keyMap {
      assert e'.groups[gid] == Groups.AddRequest(e.groups[gid], r);
    } else {
      assert e'.groups[gid] == Groups.Group(gid, r.model, r.slo, [r]);
    }
  }

  /** As written, `add_request` on an engine without queues raises,
      yet the new group, its key and the request's entry stay filed, and the
      group is in no queue. */
  lemma NoWorkerLeavesOrphanGroup(e: Engine, r: Request, pick: nat)
    requires Valid(e) && |e.vqs| == 0
    requires (r.model, r.slo) !in e.keyMap
    ensures var out := AddRequestAsWritten(e, r, pick);
            && out.fault == Some(NoWorkerRegistered)
            && (r.model, r.slo) in out.engine.keyMap
            && !Queued(out.engine.vqs, out.engine.keyMap[(r.model, r.slo)])
            && out.engine.requestToGroup[r.id] == out.engine.keyMap[(r.model, r.slo)]
            && !KeysExact(out.engine)
  {
  }

  /** As written, once a queue exists, a later request with the
      same key is accepted without error into that orphan group, which no
      queue will ever serve. */
  lemma OrphanAbsorbsLaterRequest(e: Engine, r: Request, r2: Request, w: WorkerId, pick: nat)
    requires Valid(e) && |e.vqs| == 0
    requires (r.model, r.slo) !in e.keyMap
    requires (r2.model, r2.slo) == (r.model, r.slo)
    ensures var e1 := AddRequestAsWritten(e, r, pick).engine;
            var e2 := AddWorker(e1, w).engine;
            var out := AddRequestAsWritten(e2, r2, 0);
            && out.fault == None
            && !Queued(out.engine.vqs, out.engine.requestToGroup[r2.id])
  {
    var e1 := AddRequestAsWritten(e, r, pick).engine;
    var e2 := AddWorker(e1, w).engine;
    assert e2.vqs == [NewVq(e1.nextVqId)];
    var out := AddRequestAsWritten(e2, r2, 0);
    assert out.engine.vqs == e2.vqs;
    assert out.engine.requestToGroup[r2.id] == e.nextGroupId;
  }

  // ----------------------------------------------------------- pop_request

  /** The queues after a pop from queue `i`, which drops its head group when
      the pop drained it. */
  function Popped(vqs: seq<VirtualQueue>, i: nat, drained: bool): seq<VirtualQueue>
    requires i < |vqs| && |vqs[i].groups| > 0
  {
    vqs[i := if drained then vqs[i].(groups := vqs[i].groups[1..]) else vqs[i]]
  }

  /** A pop from queue `i` changes no other queue and adds no group anywhere. */
  lemma PoppedShrinks(vqs: seq<VirtualQueue>, i: nat, drained: bool)
    requires i < |vqs| && |vqs[i].groups| > 0
    ensures |Popped(vqs, i, drained)| == |vqs|
    ensures forall j | 0 <= j < |vqs| && j != i :: Popped(vqs, i, drained)[j] == vqs[j]
    ensures forall j, id | 0 <= j < |vqs| && id in Popped(vqs, i, drained)[j].groups :: id in vqs[j].groups
  {
    forall j, id | 0 <= j < |vqs| && id in Popped(vqs, i, drained)[j].groups
      ensures id in vqs[j].groups
    {
      if j == i && drained {
        assert id in vqs[i].groups[1..];
      }
    }
  }

  /** Taking one request from the head group of queue `i`, and dropping that
      group from the queue when it empties, keeps the queue invariant. */
  lemma PopHead(vqs: seq<VirtualQueue>, groups: map<GroupId, Groups.Group>, i: nat, g': Groups.Group)
    requires QueuesValid(vqs, groups) && i < |vqs| && |vqs[i].groups| > 0
    requires |g'.requests| + 1 == |groups[vqs[i].groups[0]].requests|
    ensures QueuesValid(Popped(vqs, i, |g'.requests| == 0), groups[vqs[i].groups[0] := g'])
  {
    var gid := vqs[i].groups[0];
    var vqs' := Popped(vqs, i, |g'.requests| == 0);
    var groups' := groups[gid := g'];
    HeadNotInTail(vqs[i].groups);
    PoppedShrinks(vqs, i, |g'.requests| == 0);
    assert gid in vqs[i].groups;
    forall j, id | 0 <= j < |vqs'| && id in vqs'[j].groups
      ensures id in groups' && |groups'[id].requests| > 0
    {
      assert id in vqs[j].groups;
      if id == gid {
        assert j == i;
      }
    }
    forall j | 0 <= j < |vqs'|
      ensures NoDup(vqs'[j].groups)
    {
    }
    forall j, k, id | 0 <= j < |vqs'| && 0 <= k < |vqs'| && id in vqs'[j].groups && id in vqs'[k].groups
      ensures j == k
    {
      assert id in vqs[j].groups && id in vqs[k].groups;
    }
  }

  /** Only a head group the pop drains stops being queued. */
  lemma PopHeadQueued(vqs: seq<VirtualQueue>, groups: map<GroupId, Groups.Group>, i: nat, drained: bool)
    requires QueuesValid(vqs, groups) && i < |vqs| && |vqs[i].groups| > 0
    ensures forall id :: Queued(Popped(vqs, i, drained), id) <==>
                         Queued(vqs, id) && !(id == vqs[i].groups[0] && drained)
  {
    var gid := vqs[i].groups[0];
    var vqs' := Popped(vqs, i, drained);
    HeadNotInTail(vqs[i].groups);
    PoppedShrinks(vqs, i, drained);
    forall id | Queued(vqs, id) && !(id == gid && drained)
      ensures Queued(vqs', id)
    {
      var j :| 0 <= j < |vqs| && id in vqs[j].groups;
      if j == i && drained {
        assert vqs[i].groups == [gid] + vqs[i].groups[1..];
        assert id in vqs'[i].groups;
      } else {
        assert id in vqs'[j].groups;
      }
    }
    forall id | Queued(vqs', id)
      ensures Queued(vqs, id) && !(id == gid && drained)
    {
      var j :| 0 <= j < |vqs'| && id in vqs'[j].groups;
      assert id in vqs[j].groups;
    }
  }

  lemma PopRequestAsWrittenPreservesValid(e: Engine, w: WorkerId)
    requires Valid(e)
    requires PopRequestAsWritten(e, w).Success?
    ensures Valid(PopRequestAsWritten(e, w).value.0)
    ensures forall id :: Queued(PopRequestAsWritten(e, w).value.0.vqs, id) <==>
              Queued(e.vqs, id) && !(id == HeadOf(e, w) && |e.groups[HeadOf(e, w)].requests| == 1)
  {
    var e' := PopRequestAsWritten(e, w).value.0;
    var i := e.vqOf[w];
    var gid := e.vqs[i].groups[0];
    PopHead(e.vqs, e.groups, i, e'.groups[gid]);
    PopKeepsOthersQueued(e, w);
    assert e'.vqs == Popped(e.vqs, i, |e'.groups[gid].requests| == 0);
    assert e'.groups.Keys == e.groups.Keys;
    assert forall j | 0 <= j < |e.vqs| :: e'.vqs[j].id == e.vqs[j].id;
    assert StoreValid(e');
    assert BindingValid(e');
  }

  lemma PopRequestPreservesValid(e: Engine, w: WorkerId)
    requires Valid(e)
    requires PopRequest(e, w).Success?
    ensures Valid(PopRequest(e, w).value.0)
  {
    PopRequestAsWrittenPreservesValid(e, w);
    var e0 := PopRequestAsWritten(e, w).value.0;
    var e' := PopRequest(e, w).value.0;
    assert e'.keyMap.Keys <= e0.keyMap.Keys;
    assert StoreValid(e');
    assert BindingValid(e');
  }

  /** A group drained by a pop is left in no queue. */
  lemma DrainedGroupLeavesQueues(e: Engine, w: WorkerId)
    requires Valid(e)
    requires PopRequestAsWritten(e, w).Success?
    requires |e.groups[HeadOf(e, w)].requests| == 1
    ensures !Queued(PopRequestAsWritten(e, w).value.0.vqs, HeadOf(e, w))
  {
    PopRequestAsWrittenPreservesValid(e, w);
  }

  /** A pop leaves every group queued as before, except a head group it drains. */
  lemma PopKeepsOthersQueued(e: Engine, w: WorkerId)
    requires WellFormed(e) && QueuesValid(e.vqs, e.groups)
    requires PopRequestAsWritten(e, w).Success?
    ensures forall id :: Queued(PopRequestAsWritten(e, w).value.0.vqs, id) <==>
              Queued(e.vqs, id) && !(id == HeadOf(e, w) && |e.groups[HeadOf(e, w)].requests| == 1)
  {
    var e' := PopRequestAsWritten(e, w).value.0;
    var i := e.vqOf[w];
    var gid := e.vqs[i].groups[0];
    PopHeadQueued(e.vqs, e.groups, i, |e'.groups[gid].requests| == 0);
    assert e'.vqs == Popped(e.vqs, i, |e'.groups[gid].requests| == 0);
  }

  /** The corrected `pop_request` keeps the (model, slo) table exact. */
  lemma PopRequestPreservesKeysExact(e: Engine, w: WorkerId)
    requires Valid(e) && KeysExact(e)
    requires PopRequest(e, w).Success?
    ensures KeysExact(PopRequest(e, w).value.0)
  {
    PopKeepsOthersQueued(e, w);
    var e0 := PopRequestAsWritten(e, w).value.0;
    var e' := PopRequest(e, w).value.0;
    var gid := HeadOf(e, w);
    var g := e.groups[gid];
    var drained := |g.requests| == 1;
    assert e'.vqs == e0.vqs && e'.groups == e0.groups;
    assert e'.keyMap == if drained then e.keyMap - {Groups.KeyOf(g)} else e.keyMap;
    assert e'.groups == e.groups[gid := e'.groups[gid]];
    assert Groups.KeyOf(e'.groups[gid]) == Groups.KeyOf(g);
    assert Queued(e.vqs, gid) by { assert gid in e.vqs[e.vqOf[w]].groups; }
    assert e.keyMap[Groups.KeyOf(g)] == gid;
    KeysAfterPop(e, e', gid, drained);
  }

  /** The bookkeeping step of the lemma above, stated on the fields alone. */
  lemma KeysAfterPop(e: Engine, e': Engine, gid: GroupId, drained: bool)
    requires KeysExact(e) && gid in e.groups
    requires Groups.KeyOf(e.groups[gid]) in e.keyMap && e.keyMap[Groups.KeyOf(e.groups[gid])] == gid
    requires e'.groups.Keys == e.groups.Keys
    requires forall id | id in e.groups :: Groups.KeyOf(e'.groups[id]) == Groups.KeyOf(e.groups[id])
    requires e'.keyMap == if drained then e.keyMap - {Groups.KeyOf(e.groups[gid])} else e.keyMap
    requires forall id :: Queued(e'.vqs, id) <==> Queued(e.vqs, id) && !(id == gid && drained)
    ensures KeysExact(e')
  {
    forall k | k in e'.keyMap
      ensures e'.keyMap[k] in e'.groups && Queued(e'.vqs, e'.keyMap[k])
      ensures Groups.KeyOf(e'.groups[e'.keyMap[k]]) == k
    {
      assert k in e.keyMap && e'.keyMap[k] == e.keyMap[k];
    }
    forall i, id | 0 <= i < |e'.vqs| && id in e'.vqs[i].groups
      ensures id in e'.groups && Groups.KeyOf(e'.groups[id]) in e'.keyMap
      ensures e'.keyMap[Groups.KeyOf(e'.groups[id])] == id
    {
      assert Queued(e'.vqs, id);
      var j :| 0 <= j < |e.vqs| && id in e.vqs[j].groups;
    }
  }

  /** As written, when a pop drains the head group, the group leaves
      its queue but its key still names it, so the table no longer holds
      only active groups. */
  lemma PopAsWrittenLeavesStaleKey(e: Engine, w: WorkerId)
    requires Valid(e) && KeysExact(e)
    requires PopRequestAsWritten(e, w).Success?
    requires |e.groups[HeadOf(e, w)].requests| == 1
    ensures var e' := PopRequestAsWritten(e, w).value.0;
            var key := Groups.KeyOf(e.groups[HeadOf(e, w)]);
            && key in e'.keyMap && e'.keyMap[key] == HeadOf(e, w)
            && !Queued(e'.vqs, HeadOf(e, w))
            && !KeysExact(e')
  {
    DrainedGroupLeavesQueues(e, w);
    var i := e.vqOf[w];
    assert Queued(e.vqs, HeadOf(e, w)) by { assert HeadOf(e, w) in e.vqs[i].groups; }
  }

  /** As written, after such a pop, a new request with the drained
      group's key is appended to the drained group, which no queue holds;
      the request is never dispatched. With the corrected operations the
      same request starts a fresh group in the chosen queue. */
  lemma StaleKeyStrandsNextRequest(e: Engine, w: WorkerId, r: Request, pick: nat)
    requires Valid(e) && KeysExact(e)
    requires PopRequestAsWritten(e, w).Success?
    requires |e.groups[HeadOf(e, w)].requests| == 1
    requires (r.model, r.slo) == Groups.KeyOf(e.groups[HeadOf(e, w)])
    requires pick < |e.vqs|
    ensures var e' := PopRequestAsWritten(e, w).value.0;
            var out := AddRequestAsWritten(e', r, pick);
            && out.fault == None
            && out.engine.vqs == e'.vqs
            && out.engine.requestToGroup[r.id] == HeadOf(e, w)
            && !Queued(out.engine.vqs, out.engine.requestToGroup[r.id])
    ensures var e' := PopRequest(e, w).value.0;
            var out := AddRequest(e', r, pick);
            && out.Success?
            && out.value.requestToGroup[r.id] == e.nextGroupId
            && e.nextGroupId in out.value.vqs[pick].groups
  {
    PopAsWrittenLeavesStaleKey(e, w);
    PopRequestPreservesValid(e, w);
  }

  // ---------------------------------------------------- has_request agrees

  /** Because queued groups are never empty, `has_request` answers exactly
      whether `pop_request` can serve the worker. */
  lemma HasRequestIffPoppable(e: Engine, w: WorkerId)
    requires Valid(e) && w in e.vqOf
    ensures HasRequest(e, w) == Success(PopRequest(e, w).Success?)
    ensures HasRequest(e, w) == Success(PopRequestAsWritten(e, w).Success?)
    ensures HasRequest(e, w) == Success(false) ==> PopRequest(e, w) == Failure(EmptyQueue)
  {
    var i := e.vqOf[w];
    if |e.vqs[i].groups| > 0 {
      assert e.vqs[i].groups[0] in e.vqs[i].groups;
    }
  }

  // ----------------------------------------------------------- reorder_vqs

  /** Rearranging each queue in place, while the store keeps every group's
      size, keeps the queue invariant and the set of queued groups. */
  lemma RearrangeQueues(vqs: seq<VirtualQueue>, vqs': seq<VirtualQueue>,
                        groups: map<GroupId, Groups.Group>, groups': map<GroupId, Groups.Group>)
    requires QueuesValid(vqs, groups) && |vqs'| == |vqs|
    requires forall i | 0 <= i < |vqs| :: multiset(vqs'[i].groups) == multiset(vqs[i].groups)
    requires groups'.Keys == groups.Keys
    requires forall id | id in groups :: |groups'[id].requests| == |groups[id].requests|
    ensures QueuesValid(vqs', groups')
    ensures forall id :: Queued(vqs', id) <==> Queued(vqs, id)
  {
    forall i, id | 0 <= i < |vqs|
      ensures id in vqs'[i].groups <==> id in vqs[i].groups
    {
      assert id in vqs'[i].groups <==> id in multiset(vqs'[i].groups);
      assert id in vqs[i].groups <==> id in multiset(vqs[i].groups);
    }
    forall id | Queued(vqs, id)
      ensures Queued(vqs', id)
    {
      var i :| 0 <= i < |vqs| && id in vqs[i].groups;
      assert id in vqs'[i].groups;
    }
    forall id | Queued(vqs', id)
      ensures Queued(vqs, id)
    {
      var i :| 0 <= i < |vqs'| && id in vqs'[i].groups;
      assert id in vqs[i].groups;
    }
  }

  lemma ReorderPreservesValid(e: Engine, now: int, cfg: Config)
    requires Valid(e) && ModelsKnown(e, cfg.est) && cfg.granularity > 0
    ensures Valid(ReorderVqs(e, now, cfg))
    ensures forall id :: Queued(ReorderVqs(e, now, cfg).vqs, id) <==> Queued(e.vqs, id)
  {
    var e' := ReorderVqs(e, now, cfg);
    assert forall id | id in e.groups ::
      e'.groups[id].id == e.groups[id].id && |e'.groups[id].requests| == |e.groups[id].requests|;
    RearrangeQueues(e.vqs, e'.vqs, e.groups, e'.groups);
    assert StoreValid(e');
    assert BindingValid(e');
  }

  /** The reorder keeps the (model, slo) table exact and every queued model's
      throughput entry. */
  lemma ReorderKeepsKeysAndModels(e: Engine, now: int, cfg: Config)
    requires Valid(e) && ModelsKnown(e, cfg.est) && cfg.granularity > 0
    ensures KeysExact(e) ==> KeysExact(ReorderVqs(e, now, cfg))
    ensures ModelsKnown(ReorderVqs(e, now, cfg), cfg.est)
  {
    var e' := ReorderVqs(e, now, cfg);
    ReorderPreservesValid(e, now, cfg);
    assert forall id | id in e.groups :: Groups.KeyOf(e'.groups[id]) == Groups.KeyOf(e.groups[id]);
    forall i, id | 0 <= i < |e'.vqs| && id in e'.vqs[i].groups
      ensures id in e'.groups && RwtEstimator.Knows(cfg.est, e'.groups[id].model)
    {
      assert Queued(e.vqs, id);
      var j :| 0 <= j < |e.vqs| && id in e.vqs[j].groups;
    }
  }
}
