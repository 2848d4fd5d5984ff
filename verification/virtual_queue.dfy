/** An ordered sequence of groups bound to one worker (qlm/queue/virtual_queue.py).
    Groups are held by identity; their contents live in the engine's store. */
module VirtualQueues {
  import opened Base

  datatype VirtualQueue = VirtualQueue(id: VqId, groups: seq<GroupId>)

  /** A fresh queue: the given identity and no groups. */
  function NewVq(id: VqId): (q: VirtualQueue)
    ensures q.id == id && |q.groups| == 0
  {
    VirtualQueue(id, [])
  }

  /** Appends a group at the tail, leaving the earlier ones in place. */
  function AddGroup(q: VirtualQueue, g: GroupId): (q': VirtualQueue)
    ensures q'.id == q.id
    ensures |q'.groups| == |q.groups| + 1
    ensures q'.groups[..|q.groups|] == q.groups && q'.groups[|q.groups|] == g
  {
    q.(groups := q.groups + [g])
  }

  /** The group at the head, without changing the queue. */
  function HeadGroup(q: VirtualQueue): (g: GroupId)
    requires |q.groups| > 0
    ensures g in q.groups
    ensures [g] + q.groups[1..] == q.groups
  {
    q.groups[0]
  }

  /** Removes and returns the head group; the rest keep their order. */
  function PopGroup(q: VirtualQueue): (res: (GroupId, VirtualQueue))
    requires |q.groups| > 0
    ensures res.0 == HeadGroup(q)
    ensures res.1.id == q.id
    ensures [res.0] + res.1.groups == q.groups
  {
    (q.groups[0], q.(groups := q.groups[1..]))
  }

  /** FIFO law for groups: on a non-empty queue, appending then popping
      yields the same head as popping first, and the same remaining queue as
      popping first and appending after. */
  lemma AddThenPopIsFifo(q: VirtualQueue, g: GroupId)
    requires |q.groups| > 0
    ensures PopGroup(AddGroup(q, g)).0 == PopGroup(q).0
    ensures PopGroup(AddGroup(q, g)).1 == AddGroup(PopGroup(q).1, g)
  {
    assert (q.groups + [g])[1..] == q.groups[1..] + [g];
  }

  /** A group added to an empty queue becomes its head. */
  lemma AddToEmptyBecomesHead(q: VirtualQueue, g: GroupId)
    requires |q.groups| == 0
    ensures HeadGroup(AddGroup(q, g)) == g
    ensures PopGroup(AddGroup(q, g)) == (g, q)
  {
    assert (q.groups + [g])[1..] == q.groups;
  }
}
