/** The event-bus client (`EventBus`): a registry of handlers per address,
    self-removing reply handlers, the frames it writes to the bridge, and
    the choice of handlers an inbound frame reaches. The socket's write side
    is a log of frames; its read side is the chunk stream of `Framing`. */
module Bus {
  import opened Wrappers
  import opened Json
  import Framing

  /** A registered handler closure, by identity. */
  type HandlerId = nat

  /** A reply callback closure, by identity. */
  type CallbackId = nat

  /** The `"type"` member of a frame sent to the bridge. */
  datatype FrameType = Ping | Register | Unregister | Send | Publish

  /** A frame sent to the bridge; absent members are None. */
  datatype Frame = Frame(
    kind: FrameType,
    address: Option<string>,
    body: Option<map<string, Json>>,
    headers: Option<map<string, string>>,
    replyAddress: Option<string>)

  /** `headers ?? [String: String]()`. */
  function OrEmpty(headers: Option<map<string, string>>): map<string, string>
  {
    if headers.Some? then headers.value else map[]
  }

  /** `{"type": "ping"}` */
  function PingFrame(): Frame
  {
    Frame(Ping, None, None, None, None)
  }

  /** `{"type": "register", "address": address}`: no headers. */
  function RegisterFrame(address: string): Frame
  {
    Frame(Register, Some(address), None, None, None)
  }

  /** `{"type": "unregister", "address": address}`: no headers. */
  function UnregisterFrame(address: string): Frame
  {
    Frame(Unregister, Some(address), None, None, None)
  }

  /** The frame of `send(to:message:headers:callback:)`: headers default to
      the empty map; a reply address is present only with a callback. */
  function SendFrame(address: string, body: map<string, Json>, headers: Option<map<string, string>>,
                     replyAddress: Option<string>): Frame
  {
    Frame(Send, Some(address), Some(body), Some(OrEmpty(headers)), replyAddress)
  }

  /** The frame of `publish(to:message:headers:)`. */
  function PublishFrame(address: string, body: map<string, Json>, headers: Option<map<string, string>>): Frame
  {
    Frame(Publish, Some(address), Some(body), Some(OrEmpty(headers)), None)
  }

  // ---------------------------------------------------------------------
  // The registry: address -> registration id -> handler
  // ---------------------------------------------------------------------

  type Registry = map<string, map<string, HandlerId>>

  /** The handler registered under `id` at `address`, if any. */
  predicate Has(h: Registry, address: string, id: string)
  {
    address in h && id in h[address]
  }

  /** No address is kept with an empty set of registrations. */
  predicate NoEmptyAddress(h: Registry)
  {
    forall a :: a in h ==> h[a] != map[]
  }

  /** The registry after `register` stores `handler` under `id` at `address`. */
  function WithRegistration(h: Registry, address: string, id: string, handler: HandlerId): (r: Registry)
    ensures Has(r, address, id) && r[address][id] == handler
    ensures r.Keys == h.Keys + {address}
    ensures forall a, i :: (a != address || i != id) ==>
              (Has(r, a, i) <==> Has(h, a, i)) && (Has(h, a, i) ==> r[a][i] == h[a][i])
    ensures NoEmptyAddress(h) ==> NoEmptyAddress(r)
  {
    var regs: map<string, HandlerId> := if address in h then h[address] else map[];
    h[address := regs[id := handler]]
  }

  /** The registry once the registration `id` at `address` is gone, and the
      address with it when that was its last registration. */
  function WithoutRegistration(h: Registry, address: string, id: string): (r: Registry)
    ensures !Has(r, address, id)
    ensures r.Keys <= h.Keys
    ensures forall a, i :: (a != address || i != id) ==>
              (Has(r, a, i) <==> Has(h, a, i)) && (Has(h, a, i) ==> r[a][i] == h[a][i])
    ensures NoEmptyAddress(h) ==> NoEmptyAddress(r)
  {
    if Has(h, address, id) then
      var rest := h[address] - {id};
      assert forall i :: i in h[address] && i != id ==> i in rest;
      if rest == map[] then h - {address} else h[address := rest]
    else h
  }

  /** Registering a new id and then removing it gives back the registry. */
  lemma RegisterThenUnregister(h: Registry, address: string, id: string, handler: HandlerId)
    requires NoEmptyAddress(h) && !Has(h, address, id)
    ensures WithoutRegistration(WithRegistration(h, address, id, handler), address, id) == h
  {
    var r := WithRegistration(h, address, id, handler);
    if address in h {
      assert r[address] - {id} == h[address];
      assert r[address := h[address]] == h;
    } else {
      assert r[address] - {id} == map[];
      assert r - {address} == h;
    }
  }

  // ---------------------------------------------------------------------
  // Dispatch: which handlers an inbound frame reaches
  // ---------------------------------------------------------------------

  /** `json["address"].string` */
  function AddressOf(msg: Json): Option<string>
  {
    StringValue(Member(msg, "address"))
  }

  /** Where `dispatch` sends an inbound frame. */
  datatype Route =
    | Unaddressed
    | ToHandlers(address: string, registrations: map<string, HandlerId>)
    | ToReplyHandler(address: string, callback: CallbackId)
    | Unrouted(address: string)

  /** The selection rule of `dispatch`: no string address reaches nothing;
      registered handlers win over a reply handler at the same address, even
      when there are none left; then the reply handler; then nothing. */
  function RouteOf(handlers: Registry, replyHandlers: map<string, CallbackId>, msg: Json): (r: Route)
    ensures r.Unaddressed? <==> AddressOf(msg).None?
    ensures !r.Unaddressed? ==> AddressOf(msg) == Some(r.address)
    ensures r.ToHandlers? <==> AddressOf(msg).Some? && AddressOf(msg).value in handlers
    ensures r.ToHandlers? ==> r.registrations == handlers[r.address]
    ensures r.ToReplyHandler? <==>
              AddressOf(msg).Some? && AddressOf(msg).value !in handlers && AddressOf(msg).value in replyHandlers
    ensures r.ToReplyHandler? ==> r.callback == replyHandlers[r.address]
  {
    match AddressOf(msg)
    case None => Unaddressed
    case Some(a) =>
      if a in handlers then ToHandlers(a, handlers[a])
      else if a in replyHandlers then ToReplyHandler(a, replyHandlers[a])
      else Unrouted(a)
  }

  /** One handler invocation queued on the work queue. */
  datatype Call =
    | HandlerCall(id: string, handler: HandlerId, msg: Json)
    | ReplyCall(replyAddress: string, callback: CallbackId, msg: Json)

  /** The registration ids of the handler calls in `calls`. */
  function IdsOf(calls: seq<Call>): set<string>
  {
    if calls == [] then {}
    else
      var last := calls[|calls| - 1];
      IdsOf(calls[..|calls| - 1]) + (if last.HandlerCall? then {last.id} else {})
  }

  /** `calls` invoke each registration in `done`, and nothing else, once. */
  ghost predicate CallsEach(regs: map<string, HandlerId>, done: set<string>, msg: Json, calls: seq<Call>)
  {
    && IdsOf(calls) == done
    && |calls| == |done|
    && forall i :: 0 <= i < |calls| ==>
         calls[i].HandlerCall? && calls[i].id in regs
         && calls[i].handler == regs[calls[i].id] && calls[i].msg == msg
  }

  /** Queuing the call of one more registration. */
  lemma CallOneMore(regs: map<string, HandlerId>, done: set<string>, msg: Json, calls: seq<Call>, id: string)
    requires CallsEach(regs, done, msg, calls) && id in regs && id !in done
    ensures CallsEach(regs, done + {id}, msg, calls + [HandlerCall(id, regs[id], msg)])
  {
  }

  /** `calls` are the invocations a route asks for: every registration at the
      address exactly once, or the one reply handler, or none. */
  ghost predicate Delivers(route: Route, msg: Json, calls: seq<Call>)
  {
    match route
    case Unaddressed => calls == []
    case Unrouted(_) => calls == []
    case ToReplyHandler(a, cb) => calls == [ReplyCall(a, cb, msg)]
    case ToHandlers(_, regs) => CallsEach(regs, regs.Keys, msg, calls)
  }

  /** A registered handler hides a reply handler at the same address. */
  lemma HandlersShadowReplyHandlers(handlers: Registry, replyHandlers: map<string, CallbackId>,
                                    msg: Json, a: string)
    requires AddressOf(msg) == Some(a) && a in handlers && a in replyHandlers
    ensures RouteOf(handlers, replyHandlers, msg) == ToHandlers(a, handlers[a])
  {
  }

  /** A reply handler is reached until it runs; once it has removed itself,
      a frame to its address reaches nothing. */
  lemma ReplyHandlerIsOneShot(handlers: Registry, replyHandlers: map<string, CallbackId>,
                              msg: Json, a: string, cb: CallbackId)
    requires AddressOf(msg) == Some(a) && a !in handlers
    ensures RouteOf(handlers, replyHandlers[a := cb], msg) == ToReplyHandler(a, cb)
    ensures RouteOf(handlers, replyHandlers[a := cb] - {a}, msg) == Unrouted(a)
  {
  }

  /** As written, `unregister` leaves the registry as it was, so the handler
      it reports as removed is still reached by frames to its address. */
  lemma UnregisteredHandlerStillReached(handlers: Registry, replyHandlers: map<string, CallbackId>,
                                        msg: Json, a: string, id: string)
    requires Has(handlers, a, id) && AddressOf(msg) == Some(a)
    ensures RouteOf(handlers, replyHandlers, msg).ToHandlers?
    ensures id in RouteOf(handlers, replyHandlers, msg).registrations
  {
  }

  /** With the registry updated, a removed registration is never reached by
      frames to its address. */
  lemma UnregisteredHandlerNotReached(handlers: Registry, replyHandlers: map<string, CallbackId>,
                                      msg: Json, a: string, id: string)
    requires AddressOf(msg) == Some(a)
    ensures var route := RouteOf(WithoutRegistration(handlers, a, id), replyHandlers, msg);
            route.ToHandlers? ==> id !in route.registrations
  {
  }

  // ---------------------------------------------------------------------
  // The client
  // ---------------------------------------------------------------------

  /** `EventBus`: connected at construction. `socketUp` says whether the
      socket still accepts writes (it stops at `close` or when the bridge
      goes away); `frames` are the frames written, in order; `invoked` are
      the handler calls the work queue has run, in order. */
  class EventBus {
    var handlers: Registry
    var replyHandlers: map<string, CallbackId>
    var open: bool
    var socketUp: bool
    var frames: seq<Frame>
    var invoked: seq<Call>

    ghost predicate Valid()
      reads this
    {
      && NoEmptyAddress(handlers)
      && (!open ==> !socketUp)
    }

    /** `init(host:port:pingEvery:)` once the socket is connected: the bus is
        open, the read loop and the ping loop are armed (both re-arm while
        open, see ReadLoop and PingLoop), and one ping has been written. */
    constructor ()
      ensures Valid()
      ensures open && socketUp
      ensures handlers == map[] && replyHandlers == map[] && invoked == []
      ensures frames == [PingFrame()]
    {
      handlers := map[];
      replyHandlers := map[];
      socketUp := true;
      frames := [];
      invoked := [];
      open := true;
      new;
      Ping();
    }

    /** `readLoop`: a read task is queued only while the bus is open. */
    method ReadLoop() returns (armed: bool)
      ensures armed == open
    {
      armed := open;
    }

    /** `pingLoop(every:)`: the next ping is scheduled `every` milliseconds
        ahead only while the bus is open. */
    method PingLoop(every: int) returns (next: Option<int>)
      ensures next.Some? <==> open
      ensures next.Some? ==> next.value == every
    {
      if open {
        next := Some(every);
      } else {
        next := None;
      }
    }

    /** One socket write of a frame: it throws once the socket is down. */
    method Write(f: Frame) returns (ok: bool)
      requires Valid()
      modifies this`frames
      ensures Valid()
      ensures ok == socketUp
      ensures frames == old(frames) + if ok then [f] else []
    {
      ok := socketUp;
      if ok {
        frames := frames + [f];
      }
    }

    /** `ping`: writes `{"type": "ping"}`; a failed write is swallowed. */
    method Ping()
      requires Valid()
      modifies this`frames
      ensures Valid()
      ensures frames == old(frames) + if socketUp then [PingFrame()] else []
    {
      var _ := Write(PingFrame());
    }

    /** The body of the ping timer: ping, then re-arm. */
    method PingTimerFired(every: int) returns (next: Option<int>)
      requires Valid()
      modifies this`frames
      ensures Valid()
      ensures frames == old(frames) + if socketUp then [PingFrame()] else []
      ensures next.Some? <==> open
    {
      Ping();
      next := PingLoop(every);
    }

    /** `dispatch`: the calls queued for an inbound frame; each handler
        registered at its address once, in the map's unspecified order. */
    method Dispatch(msg: Json) returns (calls: seq<Call>)
      ensures Delivers(RouteOf(handlers, replyHandlers, msg), msg, calls)
    {
      calls := [];
      var address := AddressOf(msg);
      if address.None? {
        return;
      }
      var a := address.value;
      if a in handlers {
        var h := handlers[a];
        var pending := h.Keys;
        ghost var done: set<string> := {};
        while pending != {}
          invariant pending !! done && pending + done == h.Keys
          invariant CallsEach(h, done, msg, calls)
          decreases |pending|
        {
          var id :| id in pending;
          CallOneMore(h, done, msg, calls, id);
          calls := calls + [HandlerCall(id, h[id], msg)];
          pending := pending - {id};
          done := done + {id};
        }
      } else if a in replyHandlers {
        calls := [ReplyCall(a, replyHandlers[a], msg)];
      }
    }

    /** `readMessage`: one `read` from the socket; a whole frame is
        dispatched, anything else (no message, a failed read) queues nothing. */
    method ReadMessage(chunks: seq<Framing.Chunk>, parse: seq<Framing.Byte> -> Json)
      returns (out: Framing.ReadOutcome, used: nat, calls: seq<Call>)
      ensures Framing.ReadSpec(chunks, parse, out, used)
      ensures out.Received? ==> Delivers(RouteOf(handlers, replyHandlers, out.json), out.json, calls)
      ensures !out.Received? ==> calls == []
    {
      out, used := Framing.Read(chunks, parse);
      calls := [];
      if out.Received? {
        calls := Dispatch(out.json);
      }
    }

    /** The work queue runs one queued call. A reply handler runs its
        callback, then removes itself. */
    method RunCall(c: Call)
      requires Valid()
      modifies this`invoked, this`replyHandlers
      ensures Valid()
      ensures invoked == old(invoked) + [c]
      ensures replyHandlers == if c.ReplyCall? then old(replyHandlers) - {c.replyAddress} else old(replyHandlers)
    {
      invoked := invoked + [c];
      if c.ReplyCall? {
        replyHandlers := replyHandlers - {c.replyAddress};
      }
    }

    /** `send(to:message:headers:callback:)`, with `uuid` the fresh id it draws
        for a callback's reply address. The reply handler is installed before
        the write, so it stays installed when the write throws. */
    method Send(address: string, message: map<string, Json>, uuid: string,
                headers: Option<map<string, string>> := None, callback: Option<CallbackId> := None)
      returns (ok: bool)
      requires Valid()
      modifies this`replyHandlers, this`frames
      ensures Valid()
      ensures ok == socketUp
      ensures replyHandlers ==
                if callback.Some? then old(replyHandlers)[uuid := callback.value] else old(replyHandlers)
      ensures frames == old(frames) +
                if ok then [SendFrame(address, message, headers, if callback.Some? then Some(uuid) else None)]
                else []
    {
      var msg := SendFrame(address, message, headers, None);
      if callback.Some? {
        replyHandlers := replyHandlers[uuid := callback.value];
        msg := msg.(replyAddress := Some(uuid));
      }
      ok := Write(msg);
    }

    /** `publish(to:message:headers:)`. */
    method Publish(address: string, message: map<string, Json>, headers: Option<map<string, string>> := None)
      returns (ok: bool)
      requires Valid()
      modifies this`frames
      ensures Valid()
      ensures ok == socketUp
      ensures frames == old(frames) + if ok then [PublishFrame(address, message, headers)] else []
    {
      ok := Write(PublishFrame(address, message, headers));
    }

    /** `register(address:id:handler:)`, with `uuid` the fresh id used when no
        id is given. The handler is stored first; a register frame follows
        on every call, also for an address that already has handlers. */
    method Register(address: string, handler: HandlerId, uuid: string, id: Option<string> := None)
      returns (r: Outcome<string>)
      requires Valid()
      modifies this`handlers, this`frames
      ensures Valid()
      ensures handlers == WithRegistration(old(handlers), address, if id.Some? then id.value else uuid, handler)
      ensures r.Returned? == socketUp
      ensures r.Returned? ==> r.value == if id.Some? then id.value else uuid
      ensures frames == old(frames) + if socketUp then [RegisterFrame(address)] else []
    {
      var key := if id.Some? then id.value else uuid;
      var regs: map<string, HandlerId>;
      if address in handlers {
        regs := handlers[address][key := handler];
      } else {
        regs := map[key := handler];
      }
      assert key in regs;
      handlers := handlers[address := regs];
      var ok := Write(RegisterFrame(address));
      if !ok {
        return Threw;
      }
      return Returned(key);
    }

    /** `unregister(address:id:)` as written: the registration is removed
        from a copy of the address's handlers, so the registry itself never
        changes; an unregister frame goes out when the copy is left empty. */
    method Unregister(address: string, id: string) returns (r: Outcome<bool>)
      requires Valid()
      modifies this`frames
      ensures Valid()
      ensures handlers == old(handlers)
      ensures !Has(handlers, address, id) ==> r == Returned(false) && frames == old(frames)
      ensures Has(handlers, address, id) ==>
                var last := handlers[address].Keys == {id};
                && r == (if last && !socketUp then Threw else Returned(true))
                && frames == old(frames) + if last && socketUp then [UnregisterFrame(address)] else []
    {
      if address !in handlers || id !in handlers[address] {
        return Returned(false);
      }
      var copy := handlers[address];
      copy := copy - {id};
      assert copy == map[] <==> handlers[address].Keys == {id} by {
        assert forall i :: i in handlers[address] && i != id ==> i in copy;
      }
      if copy == map[] {
        var ok := Write(UnregisterFrame(address));
        if !ok {
          return Threw;
        }
      }
      return Returned(true);
    }

    /** `unregister` as evidently intended: the removal is stored, and the
        address goes with its last registration, before the frame is sent. */
    method UnregisterIntended(address: string, id: string) returns (r: Outcome<bool>)
      requires Valid()
      modifies this`handlers, this`frames
      ensures Valid()
      ensures handlers == WithoutRegistration(old(handlers), address, id)
      ensures !Has(old(handlers), address, id) ==> r == Returned(false) && frames == old(frames)
      ensures Has(old(handlers), address, id) ==>
                var last := old(handlers)[address].Keys == {id};
                && r == (if last && !socketUp then Threw else Returned(true))
                && frames == old(frames) + if last && socketUp then [UnregisterFrame(address)] else []
    {
      if address !in handlers || id !in handlers[address] {
        return Returned(false);
      }
      var rest := handlers[address] - {id};
      assert rest == map[] <==> handlers[address].Keys == {id} by {
        assert forall i :: i in handlers[address] && i != id ==> i in rest;
      }
      if rest == map[] {
        handlers := handlers - {address};
        var ok := Write(UnregisterFrame(address));
        if !ok {
          return Threw;
        }
      } else {
        handlers := handlers[address := rest];
      }
      return Returned(true);
    }

    /** `close`: closes the socket and the bus when open; otherwise nothing. */
    method Close()
      requires Valid()
      modifies this`open, this`socketUp
      ensures Valid()
      ensures !open && !socketUp
      ensures !old(open) ==> open == old(open) && socketUp == old(socketUp)
    {
      if open {
        socketUp := false;
        open := false;
      }
    }

    /** The bridge goes away: later writes throw. */
    method ConnectionLost()
      requires Valid()
      modifies this`socketUp
      ensures Valid()
      ensures !socketUp
    {
      socketUp := false;
    }
  }

  // ---------------------------------------------------------------------
  // Scenarios
  // ---------------------------------------------------------------------

  /** One `register` on a fresh bus writes exactly one register frame, after
      the initial ping. */
  method RegisterOnFreshBus() returns (r: Outcome<string>, frames: seq<Frame>)
    ensures r == Returned("h")
    ensures frames == [PingFrame(), RegisterFrame("test")]
  {
    var bus := new EventBus();
    r := bus.Register("test", 0, "h");
    frames := bus.frames;
  }

  /** After `close`, neither loop re-arms. */
  method NoRearmAfterClose() returns (readArmed: bool, nextPing: Option<int>)
    ensures !readArmed && nextPing == None
  {
    var bus := new EventBus();
    bus.Close();
    readArmed := bus.ReadLoop();
    nextPing := bus.PingLoop(5000);
  }

  /** As written: `unregister` reports the handler removed, yet the next
      frame to the address still reaches it. */
  method UnregisterKeepsDelivering() returns (r: Outcome<bool>, calls: seq<Call>)
    ensures r == Returned(true)
    ensures |calls| == 1 && calls[0].HandlerCall? && calls[0].id == "h" && calls[0].handler == 7
  {
    var bus := new EventBus();
    var _ := bus.Register("a", 7, "h");
    r := bus.Unregister("a", "h");
    var msg := Object(map["address" := Str("a")]);
    calls := bus.Dispatch(msg);
    assert IdsOf(calls) == {"h"};
  }

  /** Intended: after `unregister` the handler is no longer reached. */
  method UnregisterStopsDelivering() returns (r: Outcome<bool>, calls: seq<Call>)
    ensures r == Returned(true)
    ensures calls == []
  {
    var bus := new EventBus();
    var _ := bus.Register("a", 7, "h");
    r := bus.UnregisterIntended("a", "h");
    var msg := Object(map["address" := Str("a")]);
    calls := bus.Dispatch(msg);
  }
}
