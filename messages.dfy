/** `Message`: an inbound frame as handed to a handler, with typed views of
    its members and a way to answer it. */
module Messages {
  import opened Wrappers
  import opened Json

  /** A callback that takes the `Response` to a reply, by identity. */
  type ResponseCallbackId = nat

  /** The frame as received (`basis`); the bus it came from is the `send`
      that `Reply` asks for. */
  datatype Message = Message(basis: Json)

  /** `headers`: the "headers" object's members as strings, the empty map when
      there is no "headers" object, and a trap (failed force cast) when one
      of the members is not a string. */
  function Headers(m: Message): (r: Checked<map<string, string>>)
    ensures r.Trap? <==> Member(m.basis, "headers").Object?
                         && exists k :: k in Member(m.basis, "headers").members
                                        && !Member(m.basis, "headers").members[k].Str?
    ensures r.Value? && Member(m.basis, "headers").Object? ==>
              r.value.Keys == Member(m.basis, "headers").members.Keys
              && forall k :: k in r.value ==> Member(m.basis, "headers").members[k] == Str(r.value[k])
    ensures !Member(m.basis, "headers").Object? ==> r == Value(map[])
  {
    match StringDictionary(Member(m.basis, "headers"))
    case Trap => Trap
    case Value(None) => Value(map[])
    case Value(Some(d)) => Value(d)
  }

  /** `body`: the "body" member, null when absent. */
  function Body(m: Message): (r: Json)
    ensures m.basis.Object? && "body" in m.basis.members ==> r == m.basis.members["body"]
    ensures !(m.basis.Object? && "body" in m.basis.members) ==> r == Null
  {
    Member(m.basis, "body")
  }

  /** `isSend`: the "send" member when it is a boolean, false otherwise. */
  function IsSend(m: Message): (r: bool)
    ensures r <==> Member(m.basis, "send") == Bool(true)
  {
    match BoolValue(Member(m.basis, "send"))
    case Some(s) => s
    case None => false
  }

  /** A call of the bus's `send(to:body:headers:replyTimeout:callback:)`. */
  datatype SendCall = SendCall(
    to: string,
    body: map<string, Json>,
    headers: Option<map<string, string>>,
    replyTimeout: int,
    callback: Option<ResponseCallbackId>)

  /** `reply(body:headers:replyTimeout:callback:)`: the one send it makes, to
      the message's string "replyAddress", passing everything else through;
      none when there is no such address (and nothing is thrown). */
  function Reply(m: Message, body: map<string, Json>, headers: Option<map<string, string>> := None,
                 replyTimeout: int := 30000, callback: Option<ResponseCallbackId> := None): (r: Option<SendCall>)
    ensures r.None? <==> !Member(m.basis, "replyAddress").Str?
    ensures r.Some? ==>
              && r.value.to == Member(m.basis, "replyAddress").s
              && r.value.body == body && r.value.headers == headers
              && r.value.replyTimeout == replyTimeout && r.value.callback == callback
  {
    match StringValue(Member(m.basis, "replyAddress"))
    case Some(address) => Some(SendCall(address, body, headers, replyTimeout, callback))
    case None => None
  }

  /** Left to its defaults, `reply` waits 30000 ms for an answer, sends no
      headers and asks for no callback. */
  lemma ReplyDefaults(m: Message, body: map<string, Json>)
    requires Member(m.basis, "replyAddress").Str?
    ensures Reply(m, body) == Some(SendCall(Member(m.basis, "replyAddress").s, body, None, 30000, None))
  {
  }
}
