/**
 * The simulated unreliable transport that wraps every backend operation
 * (`simulateRequest`). The random failure trial is the boolean `networkOk`;
 * the random latency is not modelled.
 */
module Channel {
  import opened Wrappers

  /** The two ways an operation fails: the failed network trial, or an id that is not stored. */
  datatype Error = NetworkError | NotFound(id: string)

  /** What the wrapped callback did when it ran: returned a value, or threw. */
  datatype Completion<T> = Returned(value: T) | Threw(error: Error)

  /**
   * What a caller awaiting the returned promise observes: it resolves, it
   * rejects, or it never settles because the callback's exception escaped
   * to the timer instead of reaching the promise.
   */
  datatype Settlement<T> = Resolved(value: T) | Rejected(reason: Error) | Unsettled(uncaught: Error)

  /**
   * `simulateRequest` as written: on a failed trial the promise rejects and
   * the callback never runs; otherwise `resolve(callback())` runs inside the
   * timer handler, after the promise executor has returned, so an exception
   * thrown by the callback is uncaught and the promise stays pending.
   */
  function SimulateRequestAsWritten<T>(networkOk: bool, run: Completion<T>): (s: Settlement<T>)
    ensures !networkOk ==> s == Rejected(NetworkError)
    ensures networkOk && run.Returned? ==> s == Resolved(run.value)
    ensures networkOk && run.Threw? ==> s == Unsettled(run.error)
  {
    if !networkOk then Rejected(NetworkError)
    else match run
      case Returned(v) => Resolved(v)
      case Threw(e) => Unsettled(e)
  }

  /**
   * As written, a missing id never reaches the caller: the call for it
   * either rejects with the network error or never settles.
   */
  lemma NotFoundNeverRejectsAsWritten<T>(networkOk: bool, id: string)
    ensures SimulateRequestAsWritten<T>(networkOk, Threw(NotFound(id))) != Rejected(NotFound(id))
    ensures networkOk ==> SimulateRequestAsWritten<T>(networkOk, Threw(NotFound(id))).Unsettled?
  {
  }

  /**
   * `simulateRequest` as evidently intended, and as the store in this model
   * behaves: every call settles, and an error thrown by the callback rejects
   * the promise with that error.
   */
  function SimulateRequest<T>(networkOk: bool, run: Completion<T>): (r: Result<T, Error>)
    ensures !networkOk ==> r == Failure(NetworkError)
    ensures networkOk && run.Returned? ==> r == Success(run.value)
    ensures networkOk && run.Threw? ==> r == Failure(run.error)
  {
    if !networkOk then Failure(NetworkError)
    else match run
      case Returned(v) => Success(v)
      case Threw(e) => Failure(e)
  }

  function ToSettlement<T>(r: Result<T, Error>): Settlement<T> {
    match r
    case Success(v) => Resolved(v)
    case Failure(e) => Rejected(e)
  }

  /**
   * The correction changes only the calls whose callback threw: every other
   * call settles exactly as before, and a thrown error now rejects.
   */
  lemma SimulateRequestCorrectsOnlyThrows<T>(networkOk: bool, run: Completion<T>)
    ensures !(networkOk && run.Threw?) ==>
      ToSettlement(SimulateRequest(networkOk, run)) == SimulateRequestAsWritten(networkOk, run)
    ensures networkOk && run.Threw? ==>
      SimulateRequestAsWritten(networkOk, run).Unsettled? && ToSettlement(SimulateRequest(networkOk, run)) == Rejected(run.error)
  {
  }

  /** `.catch(() => [])`: a rejected list read becomes the empty list. */
  function CatchToEmpty<T>(r: Result<seq<T>, Error>): (list: seq<T>)
    ensures r.Success? ==> list == r.value
    ensures r.Failure? ==> list == []
  {
    match r
    case Success(v) => v
    case Failure(_) => []
  }
}
