/**
 The registry of open requests (`Server`): one request per client, input
 validation, shutdown, and the out-of-band `send` that races a delivery ack
 against a timeout.

 The server owns the store. A request's `close` event deregisters its client,
 so closing a registered request and deleting its entry happen in one step
 here. Notifications the store raises while dispatching are delivered at once
 to every registered request (`Fanout`). Errors the server emits on itself are
 recorded in `errors`.
 */
module Server {
  import opened Messages
  import MemoryAdapter
  import Multiplexer
  import Request

  /** `serverId` is the client id the server's own acks carry; `multiplex` the
      options handed to every request's batcher. */
  datatype Config = Config(ackTimeout: int, serverId: string, multiplex: map<string, int>)

  /** `created` counts the requests ever made; it supplies each new request's
      serial, standing for object identity. */
  datatype Server = Server(
    requests: map<string, Request.Req>,
    destroyed: bool,
    store: MemoryAdapter.Store,
    created: nat,
    config: Config,
    errors: seq<Fault>)

  /** The registry invariant: each entry is an open request registered under
      its own client id, with a serial already handed out; a destroyed server
      has no requests. */
  ghost predicate Valid(srv: Server) {
    && MemoryAdapter.Valid(srv.store)
    && (forall c :: c in srv.requests ==>
          && srv.requests[c].client == c
          && !srv.requests[c].closed
          && srv.requests[c].serial < srv.created
          && Request.OneClose(srv.requests[c]))
    && (srv.destroyed ==> srv.requests == map[])
  }

  /** A new server: no requests, not destroyed, owning `store`. */
  function New(config: Config, store: MemoryAdapter.Store): (srv: Server)
    ensures srv.requests == map[] && !srv.destroyed && srv.store == store
    ensures MemoryAdapter.Valid(store) ==> Valid(srv)
  {
    Server(map[], false, store, 0, config, [])
  }

  /** `onError`: the server emits the error. */
  function OnError(srv: Server, err: Fault): (srv': Server)
    ensures srv' == srv.(errors := srv.errors + [err])
  {
    srv.(errors := srv.errors + [err])
  }

  /** `onClose`: the client's entry is removed; all others stay as they were. */
  function OnClose(srv: Server, client: string): (srv': Server)
    ensures client !in srv'.requests
    ensures forall c :: c != client ==>
      (c in srv'.requests <==> c in srv.requests) &&
      (c in srv.requests ==> srv'.requests[c] == srv.requests[c])
    ensures srv' == srv.(requests := srv'.requests)
    ensures Valid(srv) ==> Valid(srv')
  {
    srv.(requests := srv.requests - {client})
  }

  // ---------------------------------------------------------------------------
  // Delivering store notifications
  // ---------------------------------------------------------------------------

  /** One notification, delivered to every registered request. */
  function Notify(requests: map<string, Request.Req>, n: Notice): (rs: map<string, Request.Req>)
    ensures rs.Keys == requests.Keys
    ensures forall c :: c in requests ==> rs[c] == Request.OnNotice(requests[c], n)
  {
    map c | c in requests :: Request.OnNotice(requests[c], n)
  }

  /** The notifications, in order, delivered to every registered request. */
  function Fanout(requests: map<string, Request.Req>, notices: seq<Notice>): (rs: map<string, Request.Req>)
    ensures rs.Keys == requests.Keys
    ensures forall c :: c in requests ==> rs[c] == requests[c].(mux := rs[c].mux)
    ensures forall c :: c in requests ==>
      rs[c].mux == requests[c].mux.(buffer := rs[c].mux.buffer)
    decreases |notices|
  {
    if notices == [] then requests
    else Fanout(Notify(requests, notices[0]), notices[1..])
  }

  /** Every registered request's buffer gains, in order, the messages of the
      notifications addressed to its user while it is subscribed; nothing
      else reaches it. */
  lemma {:induction false} FanoutDelivers(requests: map<string, Request.Req>, notices: seq<Notice>)
    ensures forall c :: c in requests ==>
      Fanout(requests, notices)[c].mux.buffer ==
        requests[c].mux.buffer + Request.Routed(Request.Subscriptions(requests[c]), notices)
    decreases |notices|
  {
    if notices != [] {
      var n := notices[0];
      var next := Notify(requests, n);
      FanoutDelivers(next, notices[1..]);
      forall c | c in requests
        ensures Fanout(requests, notices)[c].mux.buffer ==
          requests[c].mux.buffer + Request.Routed(Request.Subscriptions(requests[c]), notices)
      {
        var subs := Request.Subscriptions(requests[c]);
        var head := if Request.Reaches(subs, n) then [n.message] else [];
        assert Request.Subscriptions(next[c]) == subs;
        assert next[c].mux.buffer == requests[c].mux.buffer + head;
        assert Request.Routed(subs, notices) == head + Request.Routed(subs, notices[1..]);
        assert requests[c].mux.buffer + head + Request.Routed(subs, notices[1..])
            == requests[c].mux.buffer + (head + Request.Routed(subs, notices[1..]));
      }
    }
  }

  /** Fanout changes no request's lifecycle, so it keeps the registry invariant. */
  lemma FanoutKeepsValid(srv: Server, notices: seq<Notice>)
    requires Valid(srv)
    ensures Valid(srv.(requests := Fanout(srv.requests, notices)))
  {
    var rs := Fanout(srv.requests, notices);
    forall c | c in rs
      ensures Request.OneClose(rs[c])
    {
      assert rs[c].out == srv.requests[c].out && rs[c].closed == srv.requests[c].closed;
    }
  }

  // ---------------------------------------------------------------------------
  // open
  // ---------------------------------------------------------------------------

  datatype Outcome =
    | Rejected(err: Fault)
    | Accepted(replaced: Option<Request.Req>, pending: Request.Pending, notices: seq<Notice>)

  datatype Opened = Opened(srv: Server, outcome: Outcome)

  datatype Released = Released(srv: Server, closed: Option<Request.Req>)

  /** Close the request registered for `client`, if any, with `state`; its
      `close` event deregisters it. */
  function CloseClient(srv: Server, client: string, state: Request.State): (r: Released)
    ensures client !in r.srv.requests
    ensures client in srv.requests ==>
      r.closed == Some(Request.Close(srv.requests[client], state, []))
    ensures client !in srv.requests ==> r == Released(srv, None)
    ensures r.srv == OnClose(srv, client)
    ensures Valid(srv) ==> Valid(r.srv)
  {
    if client in srv.requests then
      Released(OnClose(srv, client), Some(Request.Close(srv.requests[client], state, [])))
    else
      Released(srv, None)
  }

  /** The error `open` reports, if any: user, then client, then shutdown. */
  function OpenError(srv: Server, user: string, client: string): (e: Option<Fault>)
    ensures e.None? <==> user != "" && client != "" && !srv.destroyed
  {
    if user == "" then Some(Fault("User undefined."))
    else if client == "" then Some(Fault("Client undefined."))
    else if srv.destroyed then Some(Fault("Server is destroyed."))
    else None
  }

  /** `open`: validate, close and replace any request for the client, register
      a new request, and open it with the inbound messages. */
  function Open(srv: Server, user: string, client: string, inbound: seq<Message>, now: int): (o: Opened)
    ensures o.outcome.Rejected? <==> OpenError(srv, user, client).Some?
    ensures o.outcome.Rejected? ==> o.srv == OnError(srv, o.outcome.err)
    ensures o.outcome.Accepted? ==>
      && client in o.srv.requests
      && o.srv.requests[client].serial == srv.created
      && o.srv.requests[client].user == user
      && o.srv.created == srv.created + 1
      && o.srv.requests.Keys == srv.requests.Keys + {client}
    ensures o.outcome.Accepted? ==>
      && o.srv.store == (if inbound == [] then srv.store
                         else MemoryAdapter.DispatchAll(srv.store, inbound, now).store)
      && o.outcome.notices == (if inbound == [] then []
                               else MemoryAdapter.DispatchAll(srv.store, inbound, now).notices)
      && o.outcome.pending == (if inbound == [] then Request.AwaitGet(MemoryAdapter.Get(srv.store, user, client))
                               else Request.AwaitDispatch(inbound))
  {
    match OpenError(srv, user, client)
    case Some(e) => Opened(OnError(srv, e), Rejected(e))
    case None =>
      var released := CloseClient(srv, client, Request.Reconnect);
      var s1 := released.srv;
      var req := Request.New(s1.created, user, client, s1.config.serverId, s1.config.multiplex);
      var started := Request.Open(req, s1.store, inbound, now);
      var s2 := s1.(requests := s1.requests[client := started.req], store := started.store,
                    created := s1.created + 1);
      var s3 := s2.(requests := Fanout(s2.requests, started.notices));
      Opened(s3, Accepted(released.closed, started.pending, started.notices))
  }

  /** A rejected `open` reports the first failing check and leaves the
      registry and the store as they were. */
  lemma OpenRejects(srv: Server, user: string, client: string, inbound: seq<Message>, now: int)
    requires user == "" || client == "" || srv.destroyed
    ensures var o := Open(srv, user, client, inbound, now);
      && o.outcome.Rejected?
      && o.outcome.err == (if user == "" then Fault("User undefined.")
                           else if client == "" then Fault("Client undefined.")
                           else Fault("Server is destroyed."))
      && o.srv.requests == srv.requests && o.srv.store == srv.store
      && o.srv.errors == srv.errors + [o.outcome.err]
  {
  }

  /** An accepted `open` registers a new request for the client, subscribed to
      its user's messages; the request previously registered for the client,
      if any, was closed with `RECONNECT` and emitted exactly one `close`. */
  lemma OpenReplaces(srv: Server, user: string, client: string, inbound: seq<Message>, now: int)
    requires Valid(srv)
    requires user != "" && client != "" && !srv.destroyed
    ensures var o := Open(srv, user, client, inbound, now);
      && o.outcome.Accepted?
      && client in o.srv.requests
      && o.srv.requests[client].serial == srv.created
      && o.srv.requests[client].user == user
      && Request.Subscriptions(o.srv.requests[client]) == {Request.Channel(user)}
      && o.srv.requests.Keys == srv.requests.Keys + {client}
      && (client in srv.requests ==>
            && o.outcome.replaced.Some?
            && o.outcome.replaced.value.closed
            && o.outcome.replaced.value.out == srv.requests[client].out + [Request.Closed(Request.Reconnect, [])]
            && Request.CloseCount(o.outcome.replaced.value.out) == 1)
      && (client !in srv.requests ==> o.outcome.replaced.None?)
      && (forall c :: c in srv.requests && c != client ==>
            o.srv.requests[c].serial == srv.requests[c].serial && o.srv.requests[c].out == srv.requests[c].out)
  {
    if client in srv.requests {
      var prev := srv.requests[client];
      Request.CloseCountAppend(prev.out, Request.Closed(Request.Reconnect, []));
    }
  }

  /** The notices an accepted `open` raises by dispatching its inbound
      messages reach the new request, subscribed to its user, and every other
      registered request through its own subscription, in order. */
  lemma OpenPushes(srv: Server, user: string, client: string, inbound: seq<Message>, now: int)
    requires OpenError(srv, user, client).None?
    ensures var o := Open(srv, user, client, inbound, now);
      && o.outcome.Accepted?
      && o.srv.requests[client].mux.buffer == Request.Routed({Request.Channel(user)}, o.outcome.notices)
      && forall c :: c in srv.requests && c != client ==>
           o.srv.requests[c].mux.buffer ==
             srv.requests[c].mux.buffer + Request.Routed(Request.Subscriptions(srv.requests[c]), o.outcome.notices)
  {
    var released := CloseClient(srv, client, Request.Reconnect);
    var s1 := released.srv;
    var req := Request.New(s1.created, user, client, s1.config.serverId, s1.config.multiplex);
    var started := Request.Open(req, s1.store, inbound, now);
    var s2 := s1.(requests := s1.requests[client := started.req], store := started.store,
                  created := s1.created + 1);
    FanoutDelivers(s2.requests, started.notices);
    assert s2.requests[client].mux.buffer == [];
    assert Request.Subscriptions(s2.requests[client]) == {Request.Channel(user)};
    forall c | c in srv.requests && c != client
      ensures s2.requests[c] == srv.requests[c]
    {
    }
  }

  /** `open` keeps the registry invariant. */
  lemma OpenKeepsValid(srv: Server, user: string, client: string, inbound: seq<Message>, now: int)
    requires Valid(srv)
    ensures Valid(Open(srv, user, client, inbound, now).srv)
  {
    if OpenError(srv, user, client).None? {
      var released := CloseClient(srv, client, Request.Reconnect);
      var s1 := released.srv;
      var req := Request.New(s1.created, user, client, s1.config.serverId, s1.config.multiplex);
      var started := Request.Open(req, s1.store, inbound, now);
      var s2 := s1.(requests := s1.requests[client := started.req], store := started.store,
                    created := s1.created + 1);
      assert Request.OneClose(started.req);
      assert Valid(s2);
      FanoutKeepsValid(s2, started.notices);
    }
  }

  // ---------------------------------------------------------------------------
  // Steps of a registered request
  // ---------------------------------------------------------------------------

  datatype Stepped = Stepped(srv: Server, req: Option<Request.Req>)

  /** Something happens to the request with serial `serial` registered for
      `client` (a timer firing, a store callback, a close); if that request is
      no longer registered nothing changes here, since a replaced request is
      already closed. A request that closes is deregistered. */
  function Deliver(srv: Server, client: string, serial: nat, input: Request.Input): (r: Stepped)
    ensures !(client in srv.requests && srv.requests[client].serial == serial) ==> r == Stepped(srv, None)
    ensures client in srv.requests && srv.requests[client].serial == serial ==>
      && r.req == Some(Request.Apply(srv.requests[client], srv.store, input))
      && (r.req.value.closed ==> r.srv == OnClose(srv, client))
      && (!r.req.value.closed ==> r.srv == srv.(requests := srv.requests[client := r.req.value]))
  {
    if client in srv.requests && srv.requests[client].serial == serial then
      var r' := Request.Apply(srv.requests[client], srv.store, input);
      if r'.closed then Stepped(OnClose(srv, client), Some(r'))
      else Stepped(srv.(requests := srv.requests[client := r']), Some(r'))
    else
      Stepped(srv, None)
  }

  /** Delivering a step keeps the registry invariant, and a request that emits
      its `close` is no longer registered. */
  lemma DeliverKeepsValid(srv: Server, client: string, serial: nat, input: Request.Input)
    requires Valid(srv)
    ensures Valid(Deliver(srv, client, serial, input).srv)
    ensures var r := Deliver(srv, client, serial, input);
      r.req.Some? && r.req.value.closed ==> client !in r.srv.requests
  {
    if client in srv.requests && srv.requests[client].serial == serial {
      Request.ApplyKeepsOneClose(srv.requests[client], srv.store, input);
      var r' := Request.Apply(srv.requests[client], srv.store, input);
      assert r'.client == srv.requests[client].client && r'.serial == srv.requests[client].serial by {
        ApplyKeepsIdentity(srv.requests[client], srv.store, input);
      }
    }
  }

  /** No request step changes a request's identity. */
  lemma ApplyKeepsIdentity(r: Request.Req, store: MemoryAdapter.Store, input: Request.Input)
    ensures var r' := Request.Apply(r, store, input);
      r'.serial == r.serial && r'.user == r.user && r'.client == r.client
  {
  }

  // ---------------------------------------------------------------------------
  // destroy
  // ---------------------------------------------------------------------------

  datatype Destroyed = Destroyed(srv: Server, closed: map<string, Request.Req>)

  /** `destroy`: every registered request is closed with its default state and
      deregistered, the store is destroyed, and the server is marked destroyed. */
  function Destroy(srv: Server): (d: Destroyed)
    ensures d.srv.requests == map[] && d.srv.destroyed
    ensures d.srv.store == MemoryAdapter.Destroy(srv.store)
    ensures d.closed.Keys == srv.requests.Keys
    ensures forall c :: c in srv.requests ==> d.closed[c] == Request.CloseDefault(srv.requests[c])
  {
    var closed := map c | c in srv.requests :: Request.CloseDefault(srv.requests[c]);
    Destroyed(srv.(requests := map[], store := MemoryAdapter.Destroy(srv.store), destroyed := true), closed)
  }

  /** After `destroy`, every request that was registered has emitted exactly
      one `close` (with `RECONNECT`), and every later `open` is rejected
      without registering anything. */
  lemma DestroyClosesAll(srv: Server, user: string, client: string, inbound: seq<Message>, now: int)
    requires Valid(srv)
    ensures var d := Destroy(srv);
      && Valid(d.srv)
      && (forall c :: c in d.closed ==>
            d.closed[c].closed &&
            d.closed[c].out == srv.requests[c].out + [Request.Closed(Request.Reconnect, [])] &&
            Request.CloseCount(d.closed[c].out) == 1)
      && Open(d.srv, user, client, inbound, now).outcome.Rejected?
      && Open(d.srv, user, client, inbound, now).srv.requests == map[]
  {
    var d := Destroy(srv);
    forall c | c in d.closed
      ensures Request.CloseCount(d.closed[c].out) == 1
    {
      Request.CloseCountAppend(srv.requests[c].out, Request.Closed(Request.Reconnect, []));
    }
  }

  // ---------------------------------------------------------------------------
  // send
  // ---------------------------------------------------------------------------

  /** The caller's options to `send`; `id` and `kind` are present only when
      the caller supplies them, and then override the generated ones. */
  datatype SendOptions = SendOptions(
    id: Option<string>,
    kind: Option<Kind>,
    recipient: string,
    sender: string,
    client: string,
    data: string)

  /** The validation of `send`: a missing recipient is reported even when the
      data is missing too. */
  function SendError(opts: SendOptions): (e: Option<Fault>)
    ensures e.None? <==> opts.recipient != "" && opts.data != ""
    ensures opts.recipient == "" ==> e == Some(Fault("Recipient is undefined."))
    ensures opts.recipient != "" && opts.data == "" ==> e == Some(Fault("Data is undefined."))
  {
    var e := if opts.data == "" then Some(Fault("Data is undefined.")) else None;
    if opts.recipient == "" then Some(Fault("Recipient is undefined.")) else e
  }

  /** The message `send` builds: a fresh id and type `user`, with the caller's
      fields spread over them. */
  function Compose(opts: SendOptions, freshId: string): (m: Message)
    ensures m.id == (if opts.id.Some? then opts.id.value else freshId)
    ensures m.kind == (if opts.kind.Some? then opts.kind.value else User)
    ensures (m.recipient, m.sender, m.client, m.data) == (opts.recipient, opts.sender, opts.client, opts.data)
  {
    Message(opts.id.GetOr(freshId), opts.kind.GetOr(User), opts.recipient, opts.sender, opts.client, opts.data, 0, [])
  }

  datatype SendStart = Refused(err: Fault) | Started(message: Message, notices: seq<Notice>)

  datatype Sent = Sent(srv: Server, start: SendStart)

  /** `send`: validate, build the message and dispatch it; the notifications
      reach the registered requests at once. The callback of the dispatch is
      the separate step `AfterDispatch`. */
  function Send(srv: Server, opts: SendOptions, freshId: string, now: int): (s: Sent)
    ensures SendError(opts).Some? ==> s == Sent(srv, Refused(SendError(opts).value))
    ensures SendError(opts).None? ==>
      && s.start == Started(Compose(opts, freshId), MemoryAdapter.Dispatch(srv.store, Compose(opts, freshId), now).notices)
      && s.srv.store == MemoryAdapter.Dispatch(srv.store, Compose(opts, freshId), now).store
      && s.srv.requests.Keys == srv.requests.Keys
    ensures Valid(srv) ==> Valid(s.srv)
  {
    match SendError(opts)
    case Some(e) => Sent(srv, Refused(e))
    case None =>
      var m := Compose(opts, freshId);
      var d := MemoryAdapter.Dispatch(srv.store, m, now);
      var s1 := srv.(store := d.store);
      assert Valid(srv) ==> Valid(s1.(requests := Fanout(s1.requests, d.notices))) by {
        if Valid(srv) {
          FanoutKeepsValid(s1, d.notices);
        }
      }
      Sent(s1.(requests := Fanout(s1.requests, d.notices)), Started(m, d.notices))
  }

  /** A user message sent successfully is, right after the send, visible to
      every client of its recipient. */
  lemma SentMessageVisible(srv: Server, opts: SendOptions, freshId: string, now: int, client: string)
    requires Valid(srv) && SendError(opts).None? && Compose(opts, freshId).kind == User
    ensures var s := Send(srv, opts, freshId, now);
      MemoryAdapter.Stamp(Compose(opts, freshId), now) in MemoryAdapter.Get(s.srv.store, opts.recipient, client)
  {
    MemoryAdapter.UserVisibleAfterDispatch(srv.store, Compose(opts, freshId), now, client);
  }

  /** A sent `user` message is pushed at once into the batcher of every
      request subscribed to its recipient, and into no other. */
  lemma SendPushes(srv: Server, opts: SendOptions, freshId: string, now: int)
    requires SendError(opts).None? && Compose(opts, freshId).kind == User
    ensures var s := Send(srv, opts, freshId, now);
      var stored := MemoryAdapter.Stamp(Compose(opts, freshId), now);
      forall c :: c in srv.requests ==>
        s.srv.requests[c].mux.buffer ==
          srv.requests[c].mux.buffer
          + (if Request.Channel(opts.recipient) in Request.Subscriptions(srv.requests[c]) then [stored] else [])
  {
    var m := Compose(opts, freshId);
    var d := MemoryAdapter.Dispatch(srv.store, m, now);
    FanoutDelivers(srv.requests, d.notices);
    assert d.store.messages[m.id] == MemoryAdapter.Stamp(m, now);
    forall c | c in srv.requests
      ensures Request.Routed(Request.Subscriptions(srv.requests[c]), d.notices)
        == (if Request.Channel(opts.recipient) in Request.Subscriptions(srv.requests[c])
            then [MemoryAdapter.Stamp(m, now)] else [])
    {
      assert d.notices[1..] == [];
    }
  }

  /** `send` does not consult `destroyed`: after `destroy`, an accepted send
      still stores its `user` message, in the emptied store. */
  lemma SendAfterDestroy(srv: Server, opts: SendOptions, freshId: string, now: int)
    requires SendError(opts).None? && Compose(opts, freshId).kind == User
    ensures var s := Send(Destroy(srv).srv, opts, freshId, now);
      && s.start.Started?
      && s.srv.store.messages.Keys == {Compose(opts, freshId).id}
  {
  }

  // ---------------------------------------------------------------------------
  // The ack-versus-timeout race of send
  // ---------------------------------------------------------------------------

  const DeliveryTimeout: Fault := Fault("Delivery timeout.")

  /** The race for one sent message: whether the `ack:<id>` listener and the
      timer are still armed, and the calls the callback has received. */
  datatype Delivery = Delivery(id: string, listening: bool, timerArmed: bool, calls: seq<Option<Fault>>)

  /** The dispatch callback of `send`: an error is passed straight on;
      otherwise the ack listener and the timer are armed. */
  function AfterDispatch(id: string, err: Option<Fault>): (d: Delivery)
    ensures err.Some? ==> d.calls == [err] && !d.listening && !d.timerArmed
    ensures err.None? ==> d.calls == [] && d.listening && d.timerArmed
  {
    if err.Some? then Delivery(id, false, false, [err]) else Delivery(id, true, true, [])
  }

  /** The ack listener fires once: it clears the timer and calls back without error. */
  function OnAck(d: Delivery, n: Notice): (r: Delivery)
    ensures d.listening && n == Acked(d.id) ==>
      !r.listening && !r.timerArmed && r.calls == d.calls + [None]
    ensures !(d.listening && n == Acked(d.id)) ==> r == d
    ensures r.id == d.id
  {
    if d.listening && n == Acked(d.id) then Delivery(d.id, false, false, d.calls + [None]) else d
  }

  /** The timer fires: the listener is dropped and the callback gets the timeout. */
  function OnTimeout(d: Delivery): (r: Delivery)
    ensures d.timerArmed ==>
      !r.listening && !r.timerArmed && r.calls == d.calls + [Some(DeliveryTimeout)]
    ensures !d.timerArmed ==> r == d
    ensures r.id == d.id
  {
    if d.timerArmed then Delivery(d.id, false, false, d.calls + [Some(DeliveryTimeout)]) else d
  }

  datatype RaceEvent = Heard(notice: Notice) | Expire

  function Race(d: Delivery, events: seq<RaceEvent>): Delivery
    decreases |events|
  {
    if events == [] then d
    else
      var d' := match events[0]
        case Heard(n) => OnAck(d, n)
        case Expire => OnTimeout(d);
      Race(d', events[1..])
  }

  /** The first event that decides the race for `id`: its ack, or the timer. */
  function Winner(id: string, events: seq<RaceEvent>): Option<RaceEvent>
    decreases |events|
  {
    if events == [] then None
    else if events[0] == Expire || events[0] == Heard(Acked(id)) then Some(events[0])
    else Winner(id, events[1..])
  }

  /** What the callback receives once the winner is known. */
  function Verdict(w: Option<RaceEvent>): seq<Option<Fault>> {
    match w
    case None => []
    case Some(Expire) => [Some(DeliveryTimeout)]
    case Some(Heard(_)) => [None]
  }

  lemma {:induction false} RaceSettled(d: Delivery, events: seq<RaceEvent>)
    requires !d.listening && !d.timerArmed
    ensures Race(d, events) == d
    decreases |events|
  {
    if events != [] {
      RaceSettled(d, events[1..]);
    }
  }

  lemma {:induction false} RaceArmed(d: Delivery, events: seq<RaceEvent>)
    requires d.listening && d.timerArmed
    ensures Race(d, events).calls == d.calls + Verdict(Winner(d.id, events))
    ensures Winner(d.id, events).Some? <==> !Race(d, events).listening
    ensures Race(d, events).listening == Race(d, events).timerArmed
    decreases |events|
  {
    if events != [] {
      var e := events[0];
      if e == Expire || e == Heard(Acked(d.id)) {
        var d' := if e == Expire then OnTimeout(d) else OnAck(d, e.notice);
        RaceSettled(d', events[1..]);
      } else {
        RaceArmed(d, events[1..]);
      }
    }
  }

  /** Once the dispatch succeeded, whatever happens the callback fires at most
      once and exactly once after the race is decided: without error if the
      ack came first, with `Delivery timeout.` if the timer did; and neither
      the listener nor the timer outlives the decision. */
  lemma SendCallsBackOnce(id: string, events: seq<RaceEvent>)
    ensures var d := Race(AfterDispatch(id, None), events);
      && d.calls == Verdict(Winner(id, events))
      && |d.calls| <= 1
      && (Winner(id, events).Some? ==> !d.listening && !d.timerArmed)
  {
    RaceArmed(AfterDispatch(id, None), events);
  }
}
