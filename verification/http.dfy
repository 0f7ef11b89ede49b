/**
 * The result of one request to the remote API, as the client code observes it.
 * The transport itself is not modelled: every handler receives the outcome of
 * its request as a parameter.
 */
module Http {

  datatype HttpOutcome<+T> =
      /** The promise resolved: a response with its status and decoded body. */
    | Reply(status: int, body: T)
      /** The promise rejected with `error.response` present; `message` is the
          body's `message` field, "" when the body carries none. */
    | HttpError(status: int, message: string)
      /** The promise rejected without a response (network failure). */
    | NoResponse
  {
    /** True when the call completed without throwing. */
    predicate Resolved() {
      Reply?
    }

    /** True when the call resolved with exactly the given status. */
    predicate ResolvedWith(code: int) {
      Reply? && status == code
    }
  }

  /** JavaScript's `a || b` on strings: the first operand unless it is empty. */
  function OrElse(a: string, b: string): (r: string)
    ensures a != "" ==> r == a
    ensures a == "" ==> r == b
  {
    if a != "" then a else b
  }
}
