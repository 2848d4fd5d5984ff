/** Remaining-wait-time estimate of a group (qlm/scheduler/rwt_estimator.py):
    requests times the per-request token estimate, over the model's token
    throughput. Floating point is modelled by `real`. */
module RwtEstimator {
  import opened Base
  import opened Groups

  /** The two configuration values the estimate reads. */
  datatype Estimator = Estimator(workloadTokens: real, throughput: map<Model, real>)

  /** The throughput table has a positive entry for `model`. A missing entry
      is a KeyError in the source and a zero one a ZeroDivisionError. */
  predicate Knows(est: Estimator, model: Model)
  {
    model in est.throughput && est.throughput[model] > 0.0
  }

  /** Estimated service time of `count` requests for `model`. */
  function WaitFor(est: Estimator, model: Model, count: nat): (w: real)
    requires Knows(est, model)
    ensures w * est.throughput[model] == count as real * est.workloadTokens
  {
    count as real * est.workloadTokens / est.throughput[model]
  }

  /** `get_waiting_time`: the estimate for a group, from its size and model. */
  function WaitingTime(est: Estimator, g: Group): (w: real)
    requires Knows(est, g.model)
    ensures w * est.throughput[g.model] == |g.requests| as real * est.workloadTokens
    ensures |g.requests| == 0 ==> w == 0.0
    ensures est.workloadTokens >= 0.0 ==> w >= 0.0
  {
    WaitFor(est, g.model, |g.requests|)
  }

  /** The estimate is additive in the number of requests. */
  lemma WaitIsAdditive(est: Estimator, model: Model, a: nat, b: nat)
    requires Knows(est, model)
    ensures WaitFor(est, model, a + b) == WaitFor(est, model, a) + WaitFor(est, model, b)
  {
    var t := est.throughput[model];
    calc {
      WaitFor(est, model, a + b);
      (a + b) as real * est.workloadTokens / t;
      (a as real * est.workloadTokens + b as real * est.workloadTokens) / t;
      a as real * est.workloadTokens / t + b as real * est.workloadTokens / t;
    }
  }

  /** With a non-negative token estimate, more requests never wait less. */
  lemma WaitIsMonotone(est: Estimator, model: Model, a: nat, b: nat)
    requires Knows(est, model) && est.workloadTokens >= 0.0
    requires a <= b
    ensures WaitFor(est, model, a) <= WaitFor(est, model, b)
  {
    WaitIsAdditive(est, model, a, b - a);
    assert WaitFor(est, model, b - a) * est.throughput[model] >= 0.0;
  }

  /** The estimate reads only the group's size and model: not its slo, not its
      identity, not the contents of its requests. */
  lemma WaitDependsOnlyOnSizeAndModel(est: Estimator, g: Group, h: Group)
    requires Knows(est, g.model)
    requires h.model == g.model && |h.requests| == |g.requests|
    ensures WaitingTime(est, h) == WaitingTime(est, g)
  {
  }
}
