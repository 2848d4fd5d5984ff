/** A FIFO bundle of requests sharing one (model, slo) key (qlm/queue/group.py). */
module Groups {
  import opened Base
  import opened Requests

  datatype Group = Group(id: GroupId, model: Model, slo: int, requests: seq<Request>)

  /** The key a group is filed under in the engine's lookup table. */
  function KeyOf(g: Group): (Model, int)
  {
    (g.model, g.slo)
  }

  /** A fresh group: the given identity, model and slo, and no requests yet. */
  function NewGroup(id: GroupId, model: Model, slo: int): (g: Group)
    ensures g.id == id && KeyOf(g) == (model, slo)
    ensures |g.requests| == 0
  {
    Group(id, model, slo, [])
  }

  /** Appends at the tail: one more request, earlier ones untouched, the
      group's identity, model and slo unchanged. */
  function AddRequest(g: Group, r: Request): (g': Group)
    ensures g'.id == g.id && g'.model == g.model && g'.slo == g.slo
    ensures |g'.requests| == |g.requests| + 1
    ensures g'.requests[..|g.requests|] == g.requests && g'.requests[|g.requests|] == r
  {
    g.(requests := g.requests + [r])
  }

  /** Takes the oldest request; the rest keep their order. Popping an empty
      group is an IndexError in the source, hence the precondition. */
  function PopRequest(g: Group): (res: (Request, Group))
    requires |g.requests| > 0
    ensures res.0 == g.requests[0]
    ensures res.1.id == g.id && res.1.model == g.model && res.1.slo == g.slo
    ensures |res.1.requests| == |g.requests| - 1
    ensures [res.0] + res.1.requests == g.requests
  {
    (g.requests[0], g.(requests := g.requests[1..]))
  }

  /** FIFO law: on a non-empty group, appending then popping returns the same
      request as popping first, and the two orders leave the same group. */
  lemma AddThenPopIsFifo(g: Group, r: Request)
    requires |g.requests| > 0
    ensures PopRequest(AddRequest(g, r)).0 == PopRequest(g).0
    ensures PopRequest(AddRequest(g, r)).1 == AddRequest(PopRequest(g).1, r)
  {
    assert (g.requests + [r])[1..] == g.requests[1..] + [r];
  }

  /** FIFO law: a request added to an empty group is the next one popped, and
      popping it restores the empty group. */
  lemma PopOfSingleton(g: Group, r: Request)
    requires |g.requests| == 0
    ensures PopRequest(AddRequest(g, r)) == (r, g)
  {
    assert (g.requests + [r])[1..] == g.requests;
  }

  /** Draining a group pops its requests exactly in insertion order. */
  function Drain(g: Group): (out: seq<Request>)
    decreases |g.requests|
  {
    if |g.requests| == 0 then [] else
      var (r, rest) := PopRequest(g);
      [r] + Drain(rest)
  }

  lemma {:induction false} DrainIsInsertionOrder(g: Group)
    ensures Drain(g) == g.requests
    decreases |g.requests|
  {
    if |g.requests| > 0 {
      DrainIsInsertionOrder(PopRequest(g).1);
    }
  }
}
