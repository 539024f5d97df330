/** `Response`: what a reply callback receives, a message or a timeout. */
module Responses {
  import opened Wrappers
  import opened Messages

  /** The reply's message; None when the wait for it timed out. */
  datatype Response = Response(message: Option<Message>)

  /** `timedOut`: derived from the message alone. */
  predicate TimedOut(r: Response): (t: bool)
    ensures t <==> r.message.None?
  {
    match r.message
    case Some(_) => false
    case None => true
  }

  /** `Response.timeout()`: the response without a message. */
  function Timeout(): (r: Response)
    ensures TimedOut(r) && r.message == None
  {
    Response(None)
  }

  /** A response built with a message is not timed out. */
  lemma WithMessageNotTimedOut()
    ensures forall m :: !TimedOut(Response(Some(m)))
  {
  }
}
