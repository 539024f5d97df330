/** `Result`: the outcome of an operation, a message or an error. */
module Results {
  import opened Wrappers
  import opened Messages

  /** An `Error` value, by its description. */
  datatype Failure = Failure(description: string)

  /** The three immutable fields of a `Result`. The memberwise
      `Result(successful, error, message)` is the internal initialiser, which
      takes any combination. */
  datatype Result = Result(successful: bool, error: Option<Failure>, message: Option<Message>)

  /** The rule the public initialisers keep: success exactly when there is a
      message, and exactly when there is no error. */
  predicate Consistent(r: Result)
  {
    (r.successful <==> r.message.Some?) && (r.successful <==> r.error.None?)
  }

  /** `init(_ error:)` */
  function OfError(e: Failure): (r: Result)
    ensures !r.successful && r.error == Some(e) && r.message == None
  {
    Result(false, Some(e), None)
  }

  /** `init(_ message:)` */
  function OfMessage(m: Message): (r: Result)
    ensures r.successful && r.error == None && r.message == Some(m)
  {
    Result(true, None, Some(m))
  }

  /** Every result built by a public initialiser keeps the rule. */
  lemma PublicInitsConsistent(e: Failure, m: Message)
    ensures Consistent(OfError(e)) && Consistent(OfMessage(m))
  {
  }

  /** The internal initialiser does not: it builds a successful result that
      carries an error and no message. */
  lemma InternalInitUnconstrained(e: Failure)
    ensures !Consistent(Result(true, Some(e), None))
  {
  }
}
