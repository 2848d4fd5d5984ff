/** The scheduler (qlm/scheduler/scheduler.py): deadline refresh, violation
    detection and the earliest-deadline-first reordering of the virtual
    queues. The optimisation-based policy is not part of this model. */
module Scheduler {
  import opened Base
  import opened Requests
  import opened Groups
  import opened VirtualQueues
  import opened StableSort
  import opened RwtEstimator

  /** The configuration the scheduler reads: the wait estimator, the slo
      quantisation granularity and the model swap time. */
  datatype Config = Config(est: Estimator, granularity: int, swapTime: real)

  // ---------------------------------------------------------------- refresh

  lemma MulAtLeast(k: int, g: int)
    requires k >= 1 && g > 0
    ensures k * g >= g
  {
    assert k * g == (k - 1) * g + g;
    assert (k - 1) * g >= 0;
  }

  /** Quotient and remainder of a positive divisor are unique. */
  lemma DivModUnique(x: int, g: int, a: int, b: int)
    requires g > 0 && x == a * g + b && 0 <= b < g
    ensures x / g == a && x % g == b
  {
    var d := x / g;
    var m := x % g;
    assert x == d * g + m;
    assert (a - d) * g == a * g - d * g;
    assert (a - d) * g == m - b;
    if a > d {
      MulAtLeast(a - d, g);
    } else if a < d {
      assert (d - a) * g == b - m;
      MulAtLeast(d - a, g);
    }
  }

  /** Recomputes one request's deadline at time `now`: the remaining budget
      is the old one minus the time elapsed since it was measured, rounded
      down to a multiple of the granularity; the measurement time becomes
      `now`. Python's `//` floors, which is Dafny's `/` for a positive
      divisor. */
  function RefreshRequest(r: Request, now: int, granularity: int): (r': Request)
    requires granularity > 0
    ensures r'.id == r.id && r'.prompt == r.prompt && r'.model == r.model
    ensures r'.insertionTime == now
    ensures r'.slo % granularity == 0
    ensures r'.slo <= r.slo - (now - r.insertionTime) < r'.slo + granularity
  {
    var remaining := r.slo - (now - r.insertionTime);
    DivModUnique(remaining / granularity * granularity, granularity, remaining / granularity, 0);
    r.(slo := remaining / granularity * granularity, insertionTime := now)
  }

  /** Refreshing twice at the same instant is the same as refreshing once:
      the second pass sees no elapsed time and an already quantised slo. */
  lemma RefreshIsIdempotent(r: Request, now: int, granularity: int)
    requires granularity > 0
    ensures RefreshRequest(RefreshRequest(r, now, granularity), now, granularity)
         == RefreshRequest(r, now, granularity)
  {
    var r1 := RefreshRequest(r, now, granularity);
    var q := (r.slo - (now - r.insertionTime)) / granularity;
    assert r1.slo == q * granularity;
    DivModUnique(r1.slo, granularity, q, 0);
  }

  /** Worked case: granularity 5, slo 23 measured at t, refreshed at t + 1,
      gives 20. */
  lemma RefreshExample(r: Request, t: int)
    requires r.slo == 23 && r.insertionTime == t
    ensures RefreshRequest(r, t + 1, 5).slo == 20
  {
  }

  /** Refreshes every request of a group, in place and in order. */
  function RefreshGroup(g: Group, now: int, granularity: int): (g': Group)
    requires granularity > 0
    ensures g'.id == g.id && g'.model == g.model && g'.slo == g.slo
    ensures |g'.requests| == |g.requests|
    ensures forall j | 0 <= j < |g.requests| :: g'.requests[j] == RefreshRequest(g.requests[j], now, granularity)
  {
    g.(requests := seq(|g.requests|, j requires 0 <= j < |g.requests| => RefreshRequest(g.requests[j], now, granularity)))
  }

  /** The group sits in some virtual queue. */
  predicate Queued(vqs: seq<VirtualQueue>, id: GroupId)
  {
    exists i | 0 <= i < |vqs| :: id in vqs[i].groups
  }

  /** `_update_all_slos`: refreshes the requests of every group reachable
      from a virtual queue. Groups no queue holds are not visited. A single
      `now` stands for the clock reading the source takes per request.
      The contract only says which groups are visited; what a refresh does
      to a request is stated by `RefreshRequest`'s floor bracket. */
  function RefreshAll(vqs: seq<VirtualQueue>, store: map<GroupId, Group>, now: int, granularity: int)
    : (store': map<GroupId, Group>)
    requires granularity > 0
    ensures store'.Keys == store.Keys
    ensures forall id | id in store && !Queued(vqs, id) :: store'[id] == store[id]
    ensures forall id | id in store && Queued(vqs, id) :: store'[id] == RefreshGroup(store[id], now, granularity)
  {
    map id | id in store :: if Queued(vqs, id) then RefreshGroup(store[id], now, granularity) else store[id]
  }

  // ------------------------------------------------------- violation check

  /** Every queued group id has an entry in the store. */
  predicate Closed(vqs: seq<VirtualQueue>, store: map<GroupId, Group>)
  {
    forall i, id | 0 <= i < |vqs| && id in vqs[i].groups :: id in store
  }

  /** The queues as the scheduler sees them: each queue's groups, resolved.
      A plain projection; its use is in `CheckViolation` and `ReorderVqs`,
      whose contracts are stated over it. */
  function Snapshot(vqs: seq<VirtualQueue>, store: map<GroupId, Group>): (qs: seq<seq<Group>>)
    requires Closed(vqs, store)
    ensures |qs| == |vqs|
    ensures forall i | 0 <= i < |vqs| :: |qs[i]| == |vqs[i].groups|
    ensures forall i, k | 0 <= i < |vqs| && 0 <= k < |vqs[i].groups| :: qs[i][k] == store[vqs[i].groups[k]]
  {
    seq(|vqs|, i requires 0 <= i < |vqs| =>
      seq(|vqs[i].groups|, k requires 0 <= k < |vqs[i].groups| => store[vqs[i].groups[k]]))
  }

  predicate QueueKnown(est: Estimator, q: seq<Group>)
  {
    forall k | 0 <= k < |q| :: Knows(est, q[k].model)
  }

  predicate AllKnown(est: Estimator, qs: seq<seq<Group>>)
  {
    forall i | 0 <= i < |qs| :: QueueKnown(est, qs[i])
  }

  /** Sum of the estimated waits of the groups of `q`. */
  function SumWait(est: Estimator, q: seq<Group>): real
    requires QueueKnown(est, q)
    decreases |q|
  {
    if |q| == 0 then 0.0
    else SumWait(est, q[..|q| - 1]) + WaitingTime(est, q[|q| - 1])
  }

  /** Number of adjacent pairs of `q` whose models differ. */
  function SwapCount(q: seq<Group>): nat
    decreases |q|
  {
    if |q| <= 1 then 0
    else SwapCount(q[..|q| - 1]) + (if q[|q| - 1].model != q[|q| - 2].model then 1 else 0)
  }

  /** Projected completion time of the k-th group of a queue, as the running
      total the source keeps: the previous group's time, plus the swap time
      when the model changes, plus the group's own wait. */
  function Cost(cfg: Config, q: seq<Group>, k: int): real
    requires QueueKnown(cfg.est, q)
    requires 0 <= k < |q|
    decreases k
  {
    if k == 0 then WaitingTime(cfg.est, q[0])
    else Cost(cfg, q, k - 1) + (if q[k].model != q[k - 1].model then cfg.swapTime else 0.0)
         + WaitingTime(cfg.est, q[k])
  }

  /** The k-th group of `q` is projected to finish within its slo. */
  predicate Fits(cfg: Config, q: seq<Group>, k: int)
    requires QueueKnown(cfg.est, q)
    requires 0 <= k < |q|
  {
    Cost(cfg, q, k) <= q[k].slo as real
  }

  /** Some group of `q` is projected to finish after its slo. */
  predicate QueueViolates(cfg: Config, q: seq<Group>)
    requires QueueKnown(cfg.est, q)
  {
    exists k | 0 <= k < |q| :: !Fits(cfg, q, k)
  }

  /** Some queue has a projected slo violation. */
  predicate Violates(cfg: Config, qs: seq<seq<Group>>)
    requires AllKnown(cfg.est, qs)
  {
    exists i | 0 <= i < |qs| :: QueueViolates(cfg, qs[i])
  }

  lemma SumWaitSnoc(est: Estimator, q: seq<Group>, k: int)
    requires QueueKnown(est, q) && 0 <= k < |q|
    ensures QueueKnown(est, q[..k]) && QueueKnown(est, q[..k + 1])
    ensures SumWait(est, q[..k + 1]) == SumWait(est, q[..k]) + WaitingTime(est, q[k])
  {
    var p := q[..k + 1];
    assert p[..k] == q[..k];
  }

  /** Total swap time charged along `q`: `c` for every adjacent pair whose
      models differ. */
  function SwapOverhead(c: real, q: seq<Group>): real
    decreases |q|
  {
    if |q| <= 1 then 0.0
    else SwapOverhead(c, q[..|q| - 1]) + (if q[|q| - 1].model != q[|q| - 2].model then c else 0.0)
  }

  /** The swap overhead is the swap time times the number of model changes. */
  lemma {:induction false} SwapOverheadCountsSwaps(c: real, q: seq<Group>)
    ensures SwapOverhead(c, q) == c * SwapCount(q) as real
    decreases |q|
  {
    if |q| > 1 {
      var p := q[..|q| - 1];
      SwapOverheadCountsSwaps(c, p);
      var s := if q[|q| - 1].model != q[|q| - 2].model then 1 else 0;
      assert c * (SwapCount(p) + s) as real == c * SwapCount(p) as real + c * s as real;
    }
  }

  lemma SwapOverheadSnoc(c: real, q: seq<Group>, k: int)
    requires 0 < k < |q|
    ensures SwapOverhead(c, q[..k + 1]) == SwapOverhead(c, q[..k]) + (if q[k].model != q[k - 1].model then c else 0.0)
  {
    var p := q[..k + 1];
    assert p[..k] == q[..k];
    assert p[k] == q[k] && p[k - 1] == q[k - 1];
  }

  /** The running total is the prefix sum: the waits of groups 0..k plus the
      swap time of every model change among them. In particular no swap time
      is charged before the first group. */
  lemma {:induction false} CostIsPrefixSum(cfg: Config, q: seq<Group>, k: int)
    requires QueueKnown(cfg.est, q) && 0 <= k < |q|
    ensures QueueKnown(cfg.est, q[..k + 1])
    ensures Cost(cfg, q, k) == SumWait(cfg.est, q[..k + 1]) + SwapOverhead(cfg.swapTime, q[..k + 1])
    decreases k
  {
    SumWaitSnoc(cfg.est, q, k);
    if k == 0 {
      assert q[..0] == [];
    } else {
      CostIsPrefixSum(cfg, q, k - 1);
      assert q[..k - 1 + 1] == q[..k];
      SwapOverheadSnoc(cfg.swapTime, q, k);
    }
  }

  /** One queue of the loop of `check_violation` over one queue, with the swap time read
      from the configuration: accumulates waits and swap overheads group by
      group and stops at the first group whose running total exceeds its
      slo. */
  method ScanQueue(cfg: Config, q: seq<Group>) returns (violated: bool)
    requires QueueKnown(cfg.est, q)
    ensures violated <==> QueueViolates(cfg, q)
  {
    var estTime := 0.0;
    var currModel: Option<Model> := None;
    var k := 0;
    while k < |q|
      invariant 0 <= k <= |q|
      invariant forall k' | 0 <= k' < k :: Fits(cfg, q, k')
      invariant k == 0 ==> estTime == 0.0 && currModel == None
      invariant k > 0 ==> estTime == Cost(cfg, q, k - 1) && currModel == Some(q[k - 1].model)
    {
      var prevModel := currModel;
      currModel := Some(q[k].model);
      if prevModel != None && prevModel != currModel {
        estTime := estTime + cfg.swapTime;
      }
      estTime := estTime + WaitingTime(cfg.est, q[k]);
      assert estTime == Cost(cfg, q, k);
      if estTime > q[k].slo as real {
        assert !Fits(cfg, q, k);
        return true;
      }
      k := k + 1;
    }
    return false;
  }

  /** `check_violation` after the refresh: true exactly when
      some queue has a group whose projected completion exceeds its slo. */
  method CheckViolation(cfg: Config, qs: seq<seq<Group>>) returns (violated: bool)
    requires AllKnown(cfg.est, qs)
    ensures violated <==> Violates(cfg, qs)
  {
    var i := 0;
    while i < |qs|
      invariant 0 <= i <= |qs|
      invariant forall i' | 0 <= i' < i :: !QueueViolates(cfg, qs[i'])
    {
      var v := ScanQueue(cfg, qs[i]);
      if v {
        return true;
      }
      i := i + 1;
    }
    return false;
  }

  /** No swap overhead is charged before the first group: a one-group queue
      violates exactly when its group's wait exceeds its slo. */
  lemma SingleGroupViolation(cfg: Config, g: Group)
    requires Knows(cfg.est, g.model)
    ensures QueueKnown(cfg.est, [g])
    ensures QueueViolates(cfg, [g]) <==> WaitingTime(cfg.est, g) > g.slo as real
  {
    assert Fits(cfg, [g], 0) <==> WaitingTime(cfg.est, g) <= g.slo as real;
  }

  /** Queues without groups never violate. */
  lemma EmptyQueuesNeverViolate(cfg: Config, qs: seq<seq<Group>>)
    requires forall i | 0 <= i < |qs| :: |qs[i]| == 0
    ensures AllKnown(cfg.est, qs)
    ensures !Violates(cfg, qs)
  {
  }

  // ------------------------------------- the check exactly as it is written

  /** One queue of the source loop as written: line 63 reads `config.swap_time`
      and no `config` is in scope, so the first model change reached raises
      a NameError. */
  function ScanQueueAsWritten(est: Estimator, q: seq<Group>, k: nat, estTime: real): (r: Result<bool, Fault>)
    requires QueueKnown(est, q) && k <= |q|
    ensures r.Failure? ==>
              r.error == UndefinedSwapTime && exists j | 0 < j < |q| && k <= j :: q[j].model != q[j - 1].model
    decreases |q| - k
  {
    if k == |q| then Success(false)
    else if k > 0 && q[k].model != q[k - 1].model then Failure(UndefinedSwapTime)
    else
      var t := estTime + WaitingTime(est, q[k]);
      if t > q[k].slo as real then Success(true) else ScanQueueAsWritten(est, q, k + 1, t)
  }

  /** `check_violation` (after the refresh) as written. */
  function CheckViolationAsWritten(est: Estimator, qs: seq<seq<Group>>): (r: Result<bool, Fault>)
    requires AllKnown(est, qs)
    ensures r.Failure? ==>
              && r.error == UndefinedSwapTime
              && exists i, j | 0 <= i < |qs| && 0 < j < |qs[i]| :: qs[i][j].model != qs[i][j - 1].model
    decreases |qs|
  {
    if |qs| == 0 then Success(false)
    else match ScanQueueAsWritten(est, qs[0], 0, 0.0)
      case Failure(f) => Failure(f)
      case Success(true) => Success(true)
      case Success(false) => CheckViolationAsWritten(est, qs[1..])
  }

  /** The defect on a concrete input: one queue holding a group for model "A"
      and then one for "B", both with ample slack. As written the check
      raises; with the configured swap time it finds no violation. */
  lemma UndefinedSwapTimeWitness(r: Request)
    ensures var est := Estimator(1.0, map["A" := 1.0, "B" := 1.0]);
            var qs := [[Group(0, "A", 100, [r]), Group(1, "B", 100, [r])]];
            && AllKnown(est, qs)
            && CheckViolationAsWritten(est, qs) == Failure(UndefinedSwapTime)
            && !Violates(Config(est, 1, 1.0), qs)
  {
    var est := Estimator(1.0, map["A" := 1.0, "B" := 1.0]);
    var q := [Group(0, "A", 100, [r]), Group(1, "B", 100, [r])];
    var cfg := Config(est, 1, 1.0);
    assert WaitingTime(est, q[0]) == 1.0 && WaitingTime(est, q[1]) == 1.0;
    assert Cost(cfg, q, 1) == 3.0;
    assert ScanQueueAsWritten(est, q, 1, 1.0) == Failure(UndefinedSwapTime);
    assert ScanQueueAsWritten(est, q, 0, 0.0) == Failure(UndefinedSwapTime);
  }

  /** When the as-written scan of one queue returns a verdict, no model
      change was passed before it, so the verdict is the true one whatever
      the swap time. */
  lemma {:induction false} ScanAsWrittenAgrees(cfg: Config, q: seq<Group>, k: nat, estTime: real, b: bool)
    requires QueueKnown(cfg.est, q) && k <= |q|
    requires k == 0 ==> estTime == 0.0
    requires k > 0 ==> estTime == Cost(cfg, q, k - 1)
    requires forall k' | 0 <= k' < k :: Fits(cfg, q, k')
    requires ScanQueueAsWritten(cfg.est, q, k, estTime) == Success(b)
    ensures b <==> QueueViolates(cfg, q)
    decreases |q| - k
  {
    if k < |q| {
      if k > 0 {
        assert q[k].model == q[k - 1].model;
      }
      var t := estTime + WaitingTime(cfg.est, q[k]);
      assert t == Cost(cfg, q, k);
      if t <= q[k].slo as real {
        ScanAsWrittenAgrees(cfg, q, k + 1, t, b);
      } else {
        assert b && !Fits(cfg, q, k);
      }
    } else {
      assert !b;
    }
  }

  /** Whenever the check as written does not raise, its answer is the
      prefix-sum verdict for any swap time. */
  lemma {:induction false} CheckAsWrittenAgreesWhenDefined(cfg: Config, qs: seq<seq<Group>>, b: bool)
    requires AllKnown(cfg.est, qs)
    requires CheckViolationAsWritten(cfg.est, qs) == Success(b)
    ensures b <==> Violates(cfg, qs)
    decreases |qs|
  {
    if |qs| > 0 {
      var first := ScanQueueAsWritten(cfg.est, qs[0], 0, 0.0);
      ScanAsWrittenAgrees(cfg, qs[0], 0, 0.0, first.value);
      if first == Success(false) {
        CheckAsWrittenAgreesWhenDefined(cfg, qs[1..], b);
        assert forall i | 1 <= i < |qs| :: qs[1..][i - 1] == qs[i];
        if Violates(cfg, qs[1..]) {
          var i :| 0 <= i < |qs[1..]| && QueueViolates(cfg, qs[1..][i]);
          assert QueueViolates(cfg, qs[i + 1]);
        }
      }
    }
  }

  /** Two queues of the same shape: position by position the same model,
      slo and number of requests. */
  predicate SameShape(p: seq<Group>, q: seq<Group>)
  {
    && |p| == |q|
    && forall k | 0 <= k < |p| :: p[k].model == q[k].model && p[k].slo == q[k].slo
                                 && |p[k].requests| == |q[k].requests|
  }

  lemma {:induction false} SameShapeSameCost(cfg: Config, p: seq<Group>, q: seq<Group>, k: int)
    requires SameShape(p, q) && QueueKnown(cfg.est, p) && 0 <= k < |p|
    ensures QueueKnown(cfg.est, q)
    ensures Cost(cfg, p, k) == Cost(cfg, q, k)
    decreases k
  {
    if k > 0 {
      SameShapeSameCost(cfg, p, q, k - 1);
    }
    WaitDependsOnlyOnSizeAndModel(cfg.est, p[k], q[k]);
  }

  /** The verdict reads only each group's model, slo and size: refreshing the
      requests' deadlines cannot change it. */
  lemma SameShapeSameVerdict(cfg: Config, ps: seq<seq<Group>>, qs: seq<seq<Group>>)
    requires |ps| == |qs| && forall i | 0 <= i < |ps| :: SameShape(ps[i], qs[i])
    requires AllKnown(cfg.est, ps)
    ensures AllKnown(cfg.est, qs)
    ensures Violates(cfg, ps) <==> Violates(cfg, qs)
  {
    forall i, k | 0 <= i < |ps| && 0 <= k < |ps[i]|
      ensures Fits(cfg, ps[i], k) == Fits(cfg, qs[i], k)
    {
      SameShapeSameCost(cfg, ps[i], qs[i], k);
    }
  }

  // --------------------------------------------------------------- EDF

  /** The sort key of a group id: its group's slo. */
  function SloOf(store: map<GroupId, Group>): GroupId -> int
  {
    id => if id in store then store[id].slo else 0
  }

  /** `_reorder_edf`: every queue's groups sorted by ascending slo with a
      stable sort. Queues keep their identity and place; no group moves to
      another queue; groups of equal slo keep their relative order. */
  function ReorderEdf(vqs: seq<VirtualQueue>, store: map<GroupId, Group>): (r: seq<VirtualQueue>)
    ensures |r| == |vqs|
    ensures forall i | 0 <= i < |vqs| :: r[i].id == vqs[i].id
    ensures forall i | 0 <= i < |vqs| :: multiset(r[i].groups) == multiset(vqs[i].groups)
    ensures forall i | 0 <= i < |vqs| :: SortedBy(r[i].groups, SloOf(store))
    ensures forall i, k | 0 <= i < |vqs| ::
              WithKey(r[i].groups, SloOf(store), k) == WithKey(vqs[i].groups, SloOf(store), k)
  {
    seq(|vqs|, i requires 0 <= i < |vqs| => vqs[i].(groups := SortBy(vqs[i].groups, SloOf(store))))
  }

  /** EDF is idempotent while the slos stay put. */
  lemma EdfIsIdempotent(vqs: seq<VirtualQueue>, store: map<GroupId, Group>)
    ensures ReorderEdf(ReorderEdf(vqs, store), store) == ReorderEdf(vqs, store)
  {
    var once := ReorderEdf(vqs, store);
    forall i | 0 <= i < |vqs|
      ensures ReorderEdf(once, store)[i] == once[i]
    {
      SortOfSortedIsIdentity(once[i].groups, SloOf(store));
    }
  }

  /** EDF on the worked scenario: a queue holding the slo-1000 group ahead of
      the slo-10 group is turned around. */
  lemma EdfExample(a: Group, b: Group)
    requires a.id == 0 && a.slo == 10 && b.id == 1 && b.slo == 1000
    ensures ReorderEdf([VirtualQueue(7, [1, 0])], map[0 := a, 1 := b])
         == [VirtualQueue(7, [0, 1])]
  {
    var store := map[0 := a, 1 := b];
    var key := SloOf(store);
    assert key(0) == 10 && key(1) == 1000;
    assert [1, 0][1..] == [0] && [0][1..] == [];
    assert SortBy([0], key) == [0];
    assert Insert(1, [0], key) == [0] + Insert(1, [], key) == [0, 1];
    assert SortBy([1, 0], key) == Insert(1, [0], key);
  }
}
