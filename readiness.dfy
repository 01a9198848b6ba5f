/**
 * The answer a readiness check hands back to the polling wait that calls it:
 * the condition holds, it does not hold yet (poll again), or something was
 * thrown out of the check.
 */
module Readiness {

  /** Why a check ended the wait instead of returning true or false. */
  datatype Failure =
    | ClientFailure(code: int)         // a KubernetesClientException rethrown with its HTTP code
    | UnexpectedHttpStatus(code: int)  // assertEquals(statusCode, 200) failed
    | JsonFailure                      // JsonProcessingException, wrapped in a RuntimeException
    | IoFailure                        // IOException, wrapped in a RuntimeException
    | Interrupted                      // InterruptedException, wrapped in a RuntimeException
    | NullDereference                  // a NullPointerException
    | IndexOutOfBounds                 // List.get(0) on an empty list
    | RunFailed(message: string)       // AssertionError("Pipeline run failed: ...")
    | ModeRejected(mode: string)       // assertEquals(mode, "Immediate") failed

  /** What one evaluation of a readiness check tells the wait. */
  datatype Readiness = Ready | NotYet | Fatal(reason: Failure)

  /** The boolean a Java predicate returns, as a readiness answer. */
  function FromBool(b: bool): (r: Readiness)
    ensures r != NotYet <==> b
    ensures !r.Fatal?
  {
    if b then Ready else NotYet
  }
}
