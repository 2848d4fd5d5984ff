/** A single prompt waiting to be served (qlm/queue/request.py). */
module Requests {
  import opened Base

  /** `slo` is the remaining time budget and `insertionTime` the moment it was
      last measured from; both change when the scheduler refreshes deadlines.
      Nothing is validated: any model name and any slo are accepted. */
  datatype Request = Request(
    id: RequestId,
    prompt: string,
    model: Model,
    slo: int,
    insertionTime: int)
}
