/** Shared vocabulary of the QLM scheduling core: identifiers, the optional and
    result wrappers, and the faults the Python code raises. */
module Base {

  /** A model name, e.g. "meta-llama/Llama-3.1-8B-Instruct". */
  type Model = string

  /** Identities. The source draws them from `uuid.uuid4()`; the model issues
      them from counters, so a fresh one is simply the next number. */
  type RequestId = nat
  type GroupId = nat
  type VqId = nat
  type WorkerId = nat

  datatype Option<+T> = None | Some(value: T)

  datatype Result<+T, +E> = Success(value: T) | Failure(error: E)

  /** The exceptions the core can raise, named after their cause. */
  datatype Fault =
    | UnknownWorker        // KeyError: the worker is not bound to any virtual queue
    | EmptyQueue           // IndexError: head group asked of an empty virtual queue
    | EmptyGroup           // IndexError: popleft on a group with no requests
    | NoWorkerRegistered   // IndexError: random.choice over an empty range of queues
    | DuplicateWorker      // bidict ValueDuplicationError: worker already bound
    | UndefinedSwapTime    // NameError: the swap-time constant is read through an undefined name
}
