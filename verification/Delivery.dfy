/** What can happen to a request on its way, and to one item of a bulk request. */
module Delivery {
  import opened Wrappers

  // A refusal for a reason of the server's own. 404 is not among them: the cluster
  // answers 404 only where a name is missing.
  type ErrorStatus = s: int | 400 <= s < 600 && s != 404 witness 500

  // What happens to one request: it is carried out, it never arrives, it is carried out
  // but the reply is lost, or it is refused.
  datatype Fault = Healthy | NotSent | ReplyLost | Refused(status: ErrorStatus)

  predicate IsError(status: int) { status > 299 }

  // The reply is None when the client saw a transport error.
  function Deliver<S>(before: S, after: S, status: int, f: Fault): (S, Option<int>) {
    match f
    case Healthy => (after, Some(status))
    case NotSent => (before, None)
    case ReplyLost => (after, None)
    case Refused(s) => (before, Some(s))
  }

  predicate CarriedOut(f: Fault) {
    f.Healthy? || f.ReplyLost?
  }

  predicate Replied(f: Fault) {
    f.Healthy? || f.Refused?
  }

  // The verdict on one bulk item.
  datatype Outcome = Outcome(status: int, reason: string) {
    predicate Granted() { 200 <= status < 300 }
  }

  const INDEX_NOT_FOUND := Outcome(404, "index_not_found_exception")
  const NO_VERDICT := Outcome(500, "")
}
