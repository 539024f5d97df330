# vertx-swift-eventbus, modelled in Dafny

This project models the core of a Swift client for the Vert.x TCP event-bus bridge. The client keeps one socket to the bridge. It writes JSON frames to that socket, each behind a 4-byte big-endian length, and it reads inbound frames the same way. A registry maps each address to its registered handlers, keyed by registration id. Reply handlers remove themselves after one use.

Modules:

- `Wrappers` holds `Option`, `Checked` and `Outcome`.
  - `Checked` is a value or a runtime trap.
  - `Outcome` is a returned value or a thrown error.
- `Json` is the JSON value library: values, member lookup, and the typed accessors `string`, `bool` and `dictionaryObject as! [String: String]?`.
- `Framing` is the wire codec `Util`: `intToBytes`, `readInt`, `write(from:to:)` and `read(from:)`.
  - The socket's read side is a finite sequence of chunks. Each `read(into:)` call yields some bytes or an error.
  - The write side is a log of write calls.
  - `read` is proved against a declarative description, `ReadSpec`: it reads exactly until the first point where the buffer holds a whole frame or a read throws. It is also proved to return exactly what `write` framed, however the bytes are split into chunks, provided the first read delivers bytes and no read throws.
- `Bus` is the `EventBus` class. Its fields are:
  - the registry, `handlers`;
  - `replyHandlers`;
  - `open`;
  - `socketUp`, meaning the socket still accepts writes;
  - `frames`, the log of frames written;
  - `invoked`, the handler calls that have been run.

  Frames are a datatype, so their JSON text is not modelled. Handlers and callbacks are identified by number. `dispatch` is specified by a pure routing rule, `RouteOf`. Its loop is proved to queue each registration at the address exactly once.
- `Messages`, `Responses` and `Results` are the value types `Message`, `Response` and `Result`.

`uuid()` is nondeterministic, so it is a parameter: `uuid` of `Send` and `Register`. The JSON parser applied to an inbound payload is the parameter `parse`. The bridge going away is the method `ConnectionLost`, after which every write throws.

This revision of the client differs from the protocol's later design, and the model follows the code:

- `register` writes a register frame on every call, not only on an address's first registration, and the frame has no headers.
- `unregister` never changes the registry (see Findings).
- `connect`/`disconnect`, reply timeouts and the error handler do not exist in this revision.
- A failed read or ping is printed and swallowed. It does not tear the connection down.

## Model

| member | source | states |
|---|---|---|
| Framing.IntToBytesAsWritten | vertx-ios-swift-client/vertx-ios-swift-client/Sources/Util.swift:33-43 | With the checked `UInt8(_:)` conversion, `intToBytes` returns without trapping exactly when 0 <= value < 256. When it returns, it gives the four big-endian bytes of the value. |
| Framing.IntToBytes | vertx-ios-swift-client/vertx-ios-swift-client/Sources/Util.swift:33-43 | With a truncating conversion, the result is the 4 bytes `value >> 24, >> 16, >> 8, >> 0`, most significant first. Reading them back gives `value`. |
| Framing.ReadInt | vertx-ios-swift-client/vertx-ios-swift-client/Sources/Util.swift:22-31 | The result is the first 4 bytes read big-endian as an Int32. It lies in Int32 range, and it is negative exactly when the first byte's top bit is set. |
| Framing.Int32RoundTrip | vertx-ios-swift-client/vertx-ios-swift-client/Sources/Util.swift:22-43 | For every Int32 v, reading back the four bytes `intToBytes` makes gives v. |
| Framing.FrameBytes | vertx-ios-swift-client/vertx-ios-swift-client/Sources/Util.swift:47-51 | The buffer `write` builds is 4 + n bytes long, ends with the payload, and declares the payload's size n in its header. |
| Framing.ByteSocket.Write | vertx-ios-swift-client/vertx-ios-swift-client/Sources/Util.swift:52 | A socket write appends the whole buffer to the written log when the socket is connected. Otherwise it throws and appends nothing. |
| Framing.Write | vertx-ios-swift-client/vertx-ios-swift-client/Sources/Util.swift:45-53 | `write` makes exactly one socket write, of the size header followed by the payload. That is 4 + n bytes, and nothing is written when the socket throws. |
| Framing.ReadAtLeast | vertx-ios-swift-client/vertx-ios-swift-client/Sources/Util.swift:63-73 | When a read loop exits normally, the buffer holds at least the bytes it waited for: 4, then msgSize + 4. The header is unchanged. A throwing read, or the end of the stream, stops `read` at the first possible point. |
| Framing.Read | vertx-ios-swift-client/vertx-ios-swift-client/Sources/Util.swift:55-80 | `read` meets `ReadSpec`: the first read always happens. A first read of 0 bytes gives nil with no further reads. Otherwise reading continues exactly until a read throws or the buffer holds the whole declared frame, and the result is bytes [4, 4 + msgSize), with later bytes dropped. A negative size traps. |
| Framing.ReadWhatWasWritten | vertx-ios-swift-client/vertx-ios-swift-client/Sources/Util.swift:45-80 | Framing round trip: for any chunking of a stream that starts with the bytes `write(payload)` sent, provided the first read delivers bytes and no read throws, `read` returns exactly `payload` and its parse. |
| Framing.WriteAsWritten | vertx-ios-swift-client/vertx-ios-swift-client/Sources/Util.swift:45-53 | `write` over the checked `intToBytes`: it traps, writing nothing, exactly when the payload has 256 bytes or more. Otherwise it is the write of `Framing.Write`. |
| Framing.TrapOnLongPayload | vertx-ios-swift-client/vertx-ios-swift-client/Sources/Util.swift:33-43 | `intToBytes(256)` as written traps. |
| Framing.WriteLongPayload | vertx-ios-swift-client/vertx-ios-swift-client/Sources/Util.swift:45-53 | As written, `write` of a 256-byte payload traps, and the socket receives nothing. |
| Framing.WriteAfterClose | vertx-ios-swift-client/vertx-ios-swift-client/Sources/Util.swift:52 | A `write` to a closed socket throws and sends nothing. |
| Bus.WithRegistration | Sources/EventBus.swift:147-152 | `register` stores the handler at `handlers[address][id]`, overwriting an entry with the same id. Every other address and id keeps its handler, and the address becomes known. |
| Bus.WithoutRegistration | Sources/EventBus.swift:161-171 | The corrected removal: the registration is gone, every other registration is kept, and no address is left without registrations. |
| Bus.RegisterThenUnregister | Sources/EventBus.swift:146-174 | Registering a new id and then removing it (corrected) gives back the original registry. |
| Bus.RouteOf | Sources/EventBus.swift:80-93 | The handler choice of `dispatch`: no string address reaches nothing. An address with registered handlers reaches exactly those handlers. Otherwise an address with a reply handler reaches that handler. Otherwise the frame reaches nothing. |
| Bus.HandlersShadowReplyHandlers | Sources/EventBus.swift:85-90 | When an address has registered handlers, a reply handler at the same address is not consulted. |
| Bus.ReplyHandlerIsOneShot | Sources/EventBus.swift:123-128 | An installed reply handler receives frames to its address until it has run and removed itself. After that, such frames reach nothing. |
| Bus.UnregisteredHandlerStillReached | Sources/EventBus.swift:160-174 | As written, the registry after `unregister` is the one before it, so a frame to the address still reaches the registration reported as removed. |
| Bus.UnregisteredHandlerNotReached | Sources/EventBus.swift:160-174 | With the removal stored, no frame to the address reaches the removed registration. |
| Bus.EventBus.constructor | Sources/EventBus.swift:38-45 | After `init` the bus is open, the registries are empty, and the only frame written is one `{"type": "ping"}`. |
| Bus.EventBus.ReadLoop | Sources/EventBus.swift:47-54 | The read loop re-arms exactly while the bus is open. |
| Bus.EventBus.PingLoop | Sources/EventBus.swift:56-65 | The ping loop re-arms, after `every` ms, exactly while the bus is open. |
| Bus.EventBus.Write | Sources/EventBus.swift:96-98 | Sending a frame appends it to the frame log when the socket is up. Otherwise it throws. |
| Bus.EventBus.Ping | Sources/EventBus.swift:104-111 | `ping` writes one ping frame when the socket is up. A failed write is swallowed and writes nothing. |
| Bus.EventBus.PingTimerFired | Sources/EventBus.swift:58-63 | The ping timer body pings once, then re-arms only while open. |
| Bus.EventBus.Dispatch | Sources/EventBus.swift:78-94 | `dispatch` queues calls as follows: no string address queues nothing. A known address queues every handler registered there exactly once, and none when the inner map is empty. Otherwise the address's reply handler is queued once, and when there is none, nothing is queued. |
| Bus.EventBus.ReadMessage | Sources/EventBus.swift:67-76 | `readMessage` performs one `read`. A whole frame is dispatched; nil or a failed read queues nothing. |
| Bus.EventBus.RunCall | Sources/EventBus.swift:125-128 | Running a queued call records it. A reply handler also removes its own entry, and nothing else changes. |
| Bus.EventBus.Send | Sources/EventBus.swift:117-134 | The frame is `send` with the address, the body and the headers (empty by default). Without a callback there is no `replyAddress`, and `replyHandlers` is unchanged. With a callback, exactly one reply handler is installed under the fresh id, before the write, and that id is the frame's `replyAddress`. |
| Bus.EventBus.Publish | Sources/EventBus.swift:136-143 | The frame is `publish` with the address, the body and the headers (empty by default). Reply handlers are untouched. |
| Bus.EventBus.Register | Sources/EventBus.swift:145-157 | The handler is stored under the given id, or the fresh id when none is given, before the write, so it stays stored when the write throws. Every call writes one register frame with no headers. The id is returned. |
| Bus.EventBus.Unregister | Sources/EventBus.swift:159-174 | As written: an unknown address or id gives false and writes no frame. A known one gives true and writes an unregister frame exactly when it was the address's only registration. The registry is unchanged. |
| Bus.EventBus.UnregisterIntended | Sources/EventBus.swift:159-174 | Corrected: the same results and frames as `unregister`, with the registration removed from the registry, along with the address when it was the last one there. |
| Bus.EventBus.Close | Sources/EventBus.swift:177-182 | `close` closes the socket and clears `open` when the bus is open. A second call changes nothing. |
| Bus.RegisterOnFreshBus | Tests/VertxEventBus/EventBusTests.swift:72-83 | One `register(address: "test")` on a new bus writes exactly one frame, `{"type": "register", "address": "test"}`, after the initial ping. |
| Bus.NoRearmAfterClose | Sources/EventBus.swift:47-65 | After `close`, neither the read loop nor the ping loop re-arms. |
| Bus.UnregisterKeepsDelivering | Sources/EventBus.swift:160-174 | As written: after register and then unregister of id "h" at "a", `unregister` returns true, yet a frame to "a" still queues a call to "h". |
| Bus.UnregisterStopsDelivering | Sources/EventBus.swift:160-174 | Corrected: after the same steps, a frame to "a" queues nothing. |
| Messages.Headers | Sources/Message.swift:24-26 | The headers are the "headers" object's string members, or empty when there is no "headers" object. They trap exactly when some member is not a string. |
| Messages.Body | Sources/Message.swift:34-36 | `body` is the "body" member of the frame, or null when there is none. |
| Messages.IsSend | Sources/Message.swift:39-46 | `isSend` is true exactly when "send" is the boolean true. It is false when "send" is absent or not a boolean. |
| Messages.Reply | Sources/Message.swift:57-65 | With a string "replyAddress", `reply` makes exactly one send to that address, passing body, headers, timeout and callback unchanged. Without one, it makes no send. |
| Messages.ReplyDefaults | Sources/Message.swift:57-60 | The defaults are replyTimeout 30000, with no headers and no callback. |
| Responses.Timeout | vertx-ios-swift-client/vertx-ios-swift-client/Sources/Response.swift:40-42 | `timeout()` has no message and is timed out. |
| Responses.TimedOut | vertx-ios-swift-client/vertx-ios-swift-client/Sources/Response.swift:31-38 | `timedOut` holds exactly when the message is nil. |
| Responses.WithMessageNotTimedOut | vertx-ios-swift-client/vertx-ios-swift-client/Sources/Response.swift:31-35 | A response built with a message is not timed out. |
| Results.OfError | Sources/Result.swift:28-30 | `init(_ error:)` gives successful false, that error, and no message. |
| Results.OfMessage | Sources/Result.swift:32-34 | `init(_ message:)` gives successful true, no error, and that message. |
| Results.PublicInitsConsistent | Sources/Result.swift:28-34 | For results from the public initialisers, success holds exactly when there is a message, and exactly when there is no error. |
| Results.InternalInitUnconstrained | Sources/Result.swift:22-26 | The internal initialiser accepts combinations that break that rule. |

## Left out

- Concurrency is left out: the read, work and global dispatch queues, and the order in which queued work runs. `ReadLoop` and `PingLoop` model only the `open` guard that decides whether they re-arm. `Dispatch` returns the calls it queues, and `RunCall` runs one of them.
- `Mutex` is not part of this model, because it wraps pthread locking.
- Socket creation and connection failures in `init` are left out. The constructor models a bus whose socket connected.
- The text of the JSON (serialising and parsing) is left out. Frames are values, and the parser is the parameter `parse`.
- Printing of the ignored and failed cases is left out.
- A read that waits forever is not modelled as waiting. `Framing.Read` reports `Stalled` when the finite chunk stream ends before a frame is whole; the real socket call would block for more bytes.
- The `send(_ message: String)` overload is not modelled separately. It writes through the same path as `send(_ message: JSON)`.
- Framing.Write: built on the truncating `IntToBytes`, the corrected encoding (see Findings). As written, `write` traps for payloads of 256 bytes or more; `Framing.WriteAsWritten` models that.
- Framing.Write: requires the payload to be at most Int32.max bytes, because `Int32(from.utf8.count)` traps beyond that. A length that large is not modelled.
- Bus.EventBus.Write: frames are values with no length, so the log accepts frames of any size. As written, every `EventBus` write of a frame whose JSON text has 256 bytes or more traps in `intToBytes`; the frame log does not capture that trap.
- Framing.ReadInt: the bitwise OR of the shifted bytes is modelled as their sum. The four shifted bytes occupy disjoint bit lanes, so the two agree.
- Messages.Reply: it returns the one call it makes to the bus's `send(to:body:headers:replyTimeout:callback:)`. That method is not in this revision of `EventBus`, and the errors it may throw are not modelled.

## Findings

| source | as written | input that shows it | evidently intended | confidence | as-written member | corrected member |
|---|---|---|---|---|---|---|
| vertx-ios-swift-client/vertx-ios-swift-client/Sources/Util.swift:38 | `UInt8(value >> Int32(x * 8))` is a checked conversion, so it traps unless each shifted value is in 0..255, which means unless 0 <= value < 256 | any payload of 256 or more UTF-8 bytes: for value 256, the lowest byte's shift is 256 | keep the low 8 bits of each shifted value (a truncating conversion), which makes `readInt(intToBytes(v)) == v` for every Int32 | high; not executed | Framing.IntToBytesAsWritten, Framing.WriteAsWritten, Framing.TrapOnLongPayload, Framing.WriteLongPayload | Framing.IntToBytes, Framing.Int32RoundTrip |
| Sources/EventBus.swift:161-167 | `guard var handlers = self.handlers[address]` copies the inner dictionary. `removeValue` changes only the copy, so the registry never loses a registration | `register(address: "a", id: "h")`, then `unregister(address: "a", id: "h")` returns true, and a frame to "a" still reaches "h" | store the shrunken map back, and drop the address when it becomes empty | high; not executed | Bus.EventBus.Unregister, Bus.UnregisterKeepsDelivering | Bus.EventBus.UnregisterIntended, Bus.UnregisterStopsDelivering |
