/**
 One open long-poll request (`Request`): it subscribes to its user's
 `message:<user>` notifications, dispatches the inbound messages, synthesises
 the server's acks, feeds pending messages into its batcher, and closes exactly
 once with a terminal `{state, messages}` event.

 The events the request emits on its output are the list `out`. Closing removes
 every output listener, so anything emitted afterwards reaches no one and is
 not recorded. The store's deferred callbacks are separate steps
 (`OnDispatched`, `OnGot`) whose error argument is supplied by the caller, and
 the batcher's timer is the step `Tick`.
 */
module Request {
  import opened Messages
  import opened Seqs
  import MemoryAdapter
  import Multiplexer

  /** The terminal states a request closes with. */
  datatype State = Reconnect | NewMessages | Error | ServerDestroyed | ClientAbort {
    /** The numeric code sent to the client. */
    function Code(): (c: nat)
      ensures c < 5 && FromCode(c) == Some(this)
    {
      match this
      case Reconnect => 0
      case NewMessages => 1
      case Error => 2
      case ServerDestroyed => 3
      case ClientAbort => 4
    }
  }

  /** The state a numeric code stands for, if any. */
  function FromCode(c: int): (s: Option<State>)
    ensures s.Some? <==> 0 <= c < 5
  {
    if c == 0 then Some(Reconnect)
    else if c == 1 then Some(NewMessages)
    else if c == 2 then Some(Error)
    else if c == 3 then Some(ServerDestroyed)
    else if c == 4 then Some(ClientAbort)
    else None
  }

  /** The five state codes are pairwise distinct. */
  lemma CodesDistinct(a: State, b: State)
    ensures a.Code() == b.Code() <==> a == b
  {
    assert FromCode(a.Code()) == Some(a) && FromCode(b.Code()) == Some(b);
  }

  /** What the request emits on its output. */
  datatype Event =
    | Closed(state: State, messages: seq<Message>)
    | Failed(err: Fault)
    | Received(message: Message)
    | DataOut(data: string)

  /** `serial` stands for the object's identity; `subscribed` records the
      listener on the store's `message:<user>` notification. */
  datatype Req = Req(
    serial: nat,
    user: string,
    client: string,
    serverId: string,
    closed: bool,
    subscribed: bool,
    mux: Multiplexer.Mux,
    out: seq<Event>)

  /** The notification name the request listens on. */
  function Channel(user: string): string {
    "message:" + user
  }

  /** The store notifications the request currently listens to. */
  function Subscriptions(r: Req): set<string> {
    if r.subscribed then {Channel(r.user)} else {}
  }

  /** A fresh request: open, not yet subscribed, with a new armed batcher. */
  function New(serial: nat, user: string, client: string, serverId: string, multiplex: map<string, int>): (r: Req)
    ensures !r.closed && Subscriptions(r) == {} && r.out == []
    ensures r.mux.buffer == [] && r.mux.armed
    ensures r.serial == serial && r.user == user && r.client == client && r.serverId == serverId
  {
    Req(serial, user, client, serverId, false, false, Multiplexer.New(multiplex), [])
  }

  /** Emitting on the output; after close there is no listener left. */
  function Emit(r: Req, e: Event): (r': Req)
    ensures r.closed ==> r' == r
    ensures !r.closed ==> r' == r.(out := r.out + [e])
  {
    if r.closed then r else r.(out := r.out + [e])
  }

  // ---------------------------------------------------------------------------
  // close
  // ---------------------------------------------------------------------------

  /** Close the request: the first call destroys the batcher, drops the
      subscription and emits one `close` event carrying exactly `{state,
      messages}`; every later call changes nothing. */
  function Close(r: Req, state: State, messages: seq<Message>): (r': Req)
    ensures r.closed ==> r' == r
    ensures !r.closed ==>
      && r'.closed
      && r'.out == r.out + [Closed(state, messages)]
      && Subscriptions(r') == {}
      && !r'.mux.armed && r'.mux.buffer == r.mux.buffer
    ensures r'.closed
    ensures (r'.serial, r'.user, r'.client, r'.serverId) == (r.serial, r.user, r.client, r.serverId)
  {
    if r.closed then r
    else r.(closed := true, mux := Multiplexer.Destroy(r.mux), subscribed := false,
            out := r.out + [Closed(state, messages)])
  }

  /** `close()` with its defaults: state `RECONNECT` and no messages. */
  function CloseDefault(r: Req): (r': Req)
    ensures !r.closed ==> r'.out == r.out + [Closed(Reconnect, [])]
  {
    Close(r, Reconnect, [])
  }

  /** Closing twice is closing once. */
  lemma CloseIdempotent(r: Req, s1: State, m1: seq<Message>, s2: State, m2: seq<Message>)
    ensures Close(Close(r, s1, m1), s2, m2) == Close(r, s1, m1)
    ensures !r.closed ==> CloseCount(Close(Close(r, s1, m1), s2, m2).out) == CloseCount(r.out) + 1
  {
    if !r.closed {
      CloseCountAppend(r.out, Closed(s1, m1));
    }
  }

  // ---------------------------------------------------------------------------
  // message, drain and error handlers
  // ---------------------------------------------------------------------------

  /** `onMessage`: the message goes into the batcher. */
  function OnMessage(r: Req, m: Message): (r': Req)
    ensures r'.mux.buffer == r.mux.buffer + [m]
    ensures r'.mux.armed == r.mux.armed && r'.mux.duration == r.mux.duration
    ensures r' == r.(mux := r'.mux)
  {
    r.(mux := Multiplexer.Add(r.mux, m))
  }

  /** A store notification reaches the request only through its subscription. */
  function OnNotice(r: Req, n: Notice): (r': Req)
    ensures n.NewMessage? && Channel(n.recipient) in Subscriptions(r) ==> r' == OnMessage(r, n.message)
    ensures !(n.NewMessage? && Channel(n.recipient) in Subscriptions(r)) ==> r' == r
    ensures r' == r.(mux := r'.mux)
  {
    match n
    case NewMessage(recipient, m) =>
      if r.subscribed && Channel(recipient) == Channel(r.user) then OnMessage(r, m) else r
    case Acked(_) => r
  }

  /** Whether a store notification reaches a request listening on `channels`. */
  predicate Reaches(channels: set<string>, n: Notice) {
    n.NewMessage? && Channel(n.recipient) in channels
  }

  /** The messages, in order, of the notifications that reach a request
      listening on `channels`. */
  function Routed(channels: set<string>, notices: seq<Notice>): seq<Message>
    decreases |notices|
  {
    if notices == [] then []
    else (if Reaches(channels, notices[0]) then [notices[0].message] else [])
         + Routed(channels, notices[1..])
  }

  /** `onDrain`: a drained batch closes the request with `NEW_MESSAGES`. */
  function OnDrain(r: Req, messages: seq<Message>): (r': Req)
    ensures !r.closed ==> r'.closed && r'.out == r.out + [Closed(NewMessages, messages)]
    ensures r.closed ==> r' == r
  {
    Close(r, NewMessages, messages)
  }

  /** `onError`: a falsy error does nothing; an error is emitted and then the
      request closes with `ERROR` and no messages. */
  function OnError(r: Req, err: Option<Fault>): (r': Req)
    ensures err.None? ==> r' == r
    ensures err.Some? && !r.closed ==>
      r'.closed && r'.out == r.out + [Failed(err.value), Closed(Error, [])]
    ensures err.Some? && r.closed ==> r' == r
  {
    match err
    case None => r
    case Some(e) => Close(Emit(r, Failed(e)), Error, [])
  }

  /** One firing of the batcher's timer. */
  function Tick(r: Req): (r': Req)
    ensures r.mux.buffer == [] || !r.mux.armed ==> r' == r
    ensures r.mux.buffer != [] && r.mux.armed && !r.closed ==>
      r'.closed && r'.out == r.out + [Closed(NewMessages, r.mux.buffer)] && r'.mux.buffer == []
  {
    var d := Multiplexer.Tick(r.mux);
    var r1 := r.(mux := d.mux);
    match d.drain
    case Some(ms) => OnDrain(r1, ms)
    case None => r1
  }

  // ---------------------------------------------------------------------------
  // open
  // ---------------------------------------------------------------------------

  /** The store callback the request is waiting for after a step. */
  datatype Pending =
    | AwaitDispatch(inbound: seq<Message>)
    | AwaitGet(found: seq<Message>)
    | Idle

  datatype Opened = Opened(req: Req, store: MemoryAdapter.Store, notices: seq<Notice>, pending: Pending)

  /** `open`: subscribe, then either dispatch the inbound messages (and await
      the callback) or, with nothing inbound, ask the store for the messages
      this client has not acked (and await that callback). The notices the
      dispatch raises are delivered by whoever holds the subscription table. */
  function Open(r: Req, store: MemoryAdapter.Store, inbound: seq<Message>, now: int): (o: Opened)
    ensures Subscriptions(o.req) == {Channel(r.user)}
    ensures o.req == r.(subscribed := true)
    ensures inbound != [] ==>
      && o.store == MemoryAdapter.DispatchAll(store, inbound, now).store
      && o.notices == MemoryAdapter.DispatchAll(store, inbound, now).notices
      && o.pending == AwaitDispatch(inbound)
    ensures inbound == [] ==>
      o.store == store && o.notices == [] && o.pending == AwaitGet(MemoryAdapter.Get(store, r.user, r.client))
  {
    var r1 := r.(subscribed := true);
    if inbound != [] then
      var d := MemoryAdapter.DispatchAll(store, inbound, now);
      Opened(r1, d.store, d.notices, AwaitDispatch(inbound))
    else
      Opened(r1, store, [], AwaitGet(MemoryAdapter.Get(store, r.user, r.client)))
  }

  /** The ack the server sends back, to `user`, for an inbound message. */
  function ServerAck(user: string, serverId: string, m: Message): (a: Message)
    ensures a.kind == Ack && a.id == m.id && a.sender == "server"
    ensures a.client == serverId && a.recipient == user
  {
    Message(m.id, Ack, user, "server", serverId, "", 0, [])
  }

  predicate NotAck(m: Message) {
    m.kind != Ack
  }

  /** One server ack per inbound message that is not itself an ack, in order. */
  function ServerAcks(user: string, serverId: string, inbound: seq<Message>): seq<Message>
    decreases |inbound|
  {
    if inbound == [] then []
    else
      (if NotAck(inbound[0]) then [ServerAck(user, serverId, inbound[0])] else [])
      + ServerAcks(user, serverId, inbound[1..])
  }

  /** The server acks answer exactly the inbound messages that are not acks:
      one each, with the same id, in the same order. */
  lemma {:induction false} ServerAcksAnswerNonAcks(user: string, serverId: string, inbound: seq<Message>)
    ensures var confirmed := Filter(inbound, NotAck);
      var acks := ServerAcks(user, serverId, inbound);
      |acks| == |confirmed| &&
      forall i :: 0 <= i < |acks| ==> acks[i] == ServerAck(user, serverId, confirmed[i])
    decreases |inbound|
  {
    if inbound != [] {
      ServerAcksAnswerNonAcks(user, serverId, inbound[1..]);
      var rest := ServerAcks(user, serverId, inbound[1..]);
      var confirmedRest := Filter(inbound[1..], NotAck);
      if NotAck(inbound[0]) {
        var acks := [ServerAck(user, serverId, inbound[0])] + rest;
        var confirmed := [inbound[0]] + confirmedRest;
        assert Filter(inbound, NotAck) == confirmed;
        forall i | 0 <= i < |acks|
          ensures acks[i] == ServerAck(user, serverId, confirmed[i])
        {
          if i > 0 {
            assert acks[i] == rest[i - 1] && confirmed[i] == confirmedRest[i - 1];
          }
        }
      } else {
        assert Filter(inbound, NotAck) == confirmedRest;
        assert ServerAcks(user, serverId, inbound) == [] + rest;
      }
    }
  }

  /** The events an inbound message is announced with: `message`, then
      `data` when it carries data. */
  function Announce(m: Message): seq<Event> {
    [Received(m)] + (if m.data != "" then [DataOut(m.data)] else [])
  }

  function AnnounceAll(ms: seq<Message>): seq<Event>
    decreases |ms|
  {
    if ms == [] then [] else Announce(ms[0]) + AnnounceAll(ms[1..])
  }

  /** Handling one inbound message after a successful dispatch. */
  function Confirm(r: Req, m: Message): Req {
    var r1 := if m.kind != Ack then OnMessage(r, ServerAck(r.user, r.serverId, m)) else r;
    var r2 := Emit(r1, Received(m));
    if m.data != "" then Emit(r2, DataOut(m.data)) else r2
  }

  /** Handling the whole inbound batch touches nothing but the batcher's buffer
      and the output. */
  function ConfirmAll(r: Req, ms: seq<Message>): (r': Req)
    ensures r' == r.(mux := r'.mux, out := r'.out)
    ensures r'.mux == r.mux.(buffer := r'.mux.buffer)
    decreases |ms|
  {
    if ms == [] then r else ConfirmAll(Confirm(r, ms[0]), ms[1..])
  }

  /** Confirming the inbound batch adds exactly the server acks to the batcher. */
  lemma {:induction false} ConfirmAllAcks(r: Req, ms: seq<Message>)
    ensures ConfirmAll(r, ms).mux.buffer == r.mux.buffer + ServerAcks(r.user, r.serverId, ms)
    decreases |ms|
  {
    if ms != [] {
      var r1 := Confirm(r, ms[0]);
      ConfirmAllAcks(r1, ms[1..]);
      var head := if NotAck(ms[0]) then [ServerAck(r.user, r.serverId, ms[0])] else [];
      var tail := ServerAcks(r.user, r.serverId, ms[1..]);
      assert r1.user == r.user && r1.serverId == r.serverId;
      assert r1.mux.buffer == r.mux.buffer + head;
      assert ServerAcks(r.user, r.serverId, ms) == head + tail;
      assert r.mux.buffer + head + tail == r.mux.buffer + (head + tail);
    }
  }

  /** Confirming announces every inbound message while the request is open. */
  lemma {:induction false} ConfirmAllAnnounces(r: Req, ms: seq<Message>)
    ensures ConfirmAll(r, ms).out == (if r.closed then r.out else r.out + AnnounceAll(ms))
    decreases |ms|
  {
    if ms != [] {
      var r1 := Confirm(r, ms[0]);
      ConfirmAllAnnounces(r1, ms[1..]);
      assert r1.closed == r.closed;
      if !r.closed {
        assert r1.out == r.out + Announce(ms[0]);
        assert r.out + Announce(ms[0]) + AnnounceAll(ms[1..]) == r.out + AnnounceAll(ms);
      }
    }
  }

  datatype Resumed = Resumed(req: Req, pending: Pending)

  /** The dispatch callback of `open`: an error ends in `ERROR`; otherwise the
      server acks are synthesised, the inbound messages announced, and the
      store is asked for what this client has not acked. */
  function OnDispatched(r: Req, store: MemoryAdapter.Store, inbound: seq<Message>, err: Option<Fault>): (res: Resumed)
    ensures err.Some? ==> res == Resumed(OnError(r, err), Idle)
    ensures err.None? ==>
      && res.req.mux.buffer == r.mux.buffer + ServerAcks(r.user, r.serverId, inbound)
      && res.req.out == (if r.closed then r.out else r.out + AnnounceAll(inbound))
      && res.req == r.(mux := res.req.mux, out := res.req.out)
      && res.req.mux.armed == r.mux.armed
      && res.pending == AwaitGet(MemoryAdapter.Get(store, r.user, r.client))
  {
    if err.Some? then Resumed(OnError(r, err), Idle)
    else
      var r1 := ConfirmAll(r, inbound);
      ConfirmAllAcks(r, inbound);
      ConfirmAllAnnounces(r, inbound);
      Resumed(r1, AwaitGet(MemoryAdapter.Get(store, r.user, r.client)))
  }

  /** The get callback: an error ends in `ERROR`; otherwise every message
      found goes into the batcher, in order. */
  function OnGot(r: Req, err: Option<Fault>, found: seq<Message>): (r': Req)
    ensures err.Some? ==> r' == OnError(r, err)
    ensures err.None? ==> r' == r.(mux := Multiplexer.AddAll(r.mux, found))
  {
    if err.Some? then OnError(r, err)
    else
      var r1 := r.(mux := Multiplexer.AddEach(r.mux, found));
      Multiplexer.AddEachIsAddAll(r.mux, found);
      r1
  }

  /** With nothing inbound, `open` followed by its get callback leaves exactly
      the client's unacked messages in the batcher. */
  lemma OpenEmptyFeedsPending(r: Req, store: MemoryAdapter.Store, now: int)
    requires r.mux.buffer == []
    ensures var o := Open(r, store, [], now);
      o.pending.AwaitGet? &&
      OnGot(o.req, None, o.pending.found).mux.buffer == MemoryAdapter.Get(store, r.user, r.client)
  {
  }

  // ---------------------------------------------------------------------------
  // Exactly-once close
  // ---------------------------------------------------------------------------

  /** The number of `close` events in an output. */
  function CloseCount(out: seq<Event>): nat
    decreases |out|
  {
    if out == [] then 0
    else CloseCount(out[..|out| - 1]) + (if out[|out| - 1].Closed? then 1 else 0)
  }

  lemma CloseCountAppend(out: seq<Event>, e: Event)
    ensures CloseCount(out + [e]) == CloseCount(out) + (if e.Closed? then 1 else 0)
  {
    assert (out + [e])[..|out|] == out;
  }

  lemma {:induction false} CloseCountNoClose(out: seq<Event>, es: seq<Event>)
    requires forall i :: 0 <= i < |es| ==> !es[i].Closed?
    ensures CloseCount(out + es) == CloseCount(out)
    decreases |es|
  {
    if es != [] {
      var init, last := es[..|es| - 1], es[|es| - 1];
      assert !last.Closed?;
      assert forall i :: 0 <= i < |init| ==> init[i] == es[i];
      CloseCountNoClose(out, init);
      assert out + es == (out + init) + [last];
      CloseCountAppend(out + init, last);
      assert CloseCount(out + es) == CloseCount(out + init);
    } else {
      assert out + es == out;
    }
  }

  lemma {:induction false} AnnounceAllHasNoClose(ms: seq<Message>)
    ensures forall i :: 0 <= i < |AnnounceAll(ms)| ==> !AnnounceAll(ms)[i].Closed?
    decreases |ms|
  {
    if ms != [] {
      AnnounceAllHasNoClose(ms[1..]);
      var a: seq<Event>, rest: seq<Event> := Announce(ms[0]), AnnounceAll(ms[1..]);
      forall i | 0 <= i < |a + rest|
        ensures !(a + rest)[i].Closed?
      {
        if i >= |a| {
          assert (a + rest)[i] == rest[i - |a|];
        }
      }
    }
  }

  /** The request's invariant: its output holds one `close` event if it is
      closed and none otherwise, and a closed request has no subscription and
      a disarmed batcher. */
  ghost predicate OneClose(r: Req) {
    && CloseCount(r.out) == (if r.closed then 1 else 0)
    && (r.closed ==> !r.subscribed && !r.mux.armed)
  }

  /** Everything that can happen to a request once it exists. */
  datatype Input =
    | Fire
    | Notify(notice: Notice)
    | Dispatched(inbound: seq<Message>, err: Option<Fault>)
    | Got(err: Option<Fault>, found: seq<Message>)
    | Terminate(state: State, messages: seq<Message>)

  function Apply(r: Req, store: MemoryAdapter.Store, input: Input): Req {
    match input
    case Fire => Tick(r)
    case Notify(n) => OnNotice(r, n)
    case Dispatched(inbound, err) => OnDispatched(r, store, inbound, err).req
    case Got(err, found) => OnGot(r, err, found)
    case Terminate(state, messages) => Close(r, state, messages)
  }

  /** `r'` is a legal successor of `r`: the invariant holds for it, and if `r`
      was already closed nothing observable changed. */
  ghost predicate Succeeds(r: Req, r': Req) {
    && OneClose(r')
    && (r.closed ==> r'.closed && r'.out == r.out && Subscriptions(r') == {} && !r'.mux.armed)
  }

  /** Every step keeps the invariant, and once closed a request is inert: its
      output, its subscription and its timer no longer change. */
  lemma ApplyKeepsOneClose(r: Req, store: MemoryAdapter.Store, input: Input)
    requires OneClose(r)
    ensures OneClose(Apply(r, store, input))
    ensures r.closed ==> Apply(r, store, input).closed && Apply(r, store, input).out == r.out
    ensures r.closed ==> Subscriptions(Apply(r, store, input)) == {} && !Apply(r, store, input).mux.armed
  {
    match input
    case Fire => TickKeepsOneClose(r);
    case Notify(n) =>
    case Dispatched(inbound, err) => DispatchedKeepsOneClose(r, store, inbound, err);
    case Got(err, found) => GotKeepsOneClose(r, err, found);
    case Terminate(state, messages) => CloseKeepsOneClose(r, state, messages);
  }

  lemma TickKeepsOneClose(r: Req)
    requires OneClose(r)
    ensures Succeeds(r, Tick(r))
  {
    if !r.closed && r.mux.buffer != [] && r.mux.armed {
      CloseCountAppend(r.out, Closed(NewMessages, r.mux.buffer));
    }
  }

  /** An error path emits `error` and then one `close`. */
  lemma FailKeepsOneClose(r: Req, err: Fault)
    requires OneClose(r) && !r.closed
    ensures CloseCount(r.out + [Failed(err)] + [Closed(Error, [])]) == 1
  {
    CloseCountAppend(r.out, Failed(err));
    CloseCountAppend(r.out + [Failed(err)], Closed(Error, []));
  }

  lemma DispatchedKeepsOneClose(r: Req, store: MemoryAdapter.Store, inbound: seq<Message>, err: Option<Fault>)
    requires OneClose(r)
    ensures Succeeds(r, OnDispatched(r, store, inbound, err).req)
  {
    var r' := OnDispatched(r, store, inbound, err).req;
    if !r.closed {
      if err.Some? {
        FailKeepsOneClose(r, err.value);
        assert r'.out == r.out + [Failed(err.value)] + [Closed(Error, [])];
      } else {
        AnnounceAllHasNoClose(inbound);
        CloseCountNoClose(r.out, AnnounceAll(inbound));
      }
    }
  }

  lemma GotKeepsOneClose(r: Req, err: Option<Fault>, found: seq<Message>)
    requires OneClose(r)
    ensures Succeeds(r, OnGot(r, err, found))
  {
    if err.Some? && !r.closed {
      FailKeepsOneClose(r, err.value);
      assert OnGot(r, err, found).out == r.out + [Failed(err.value)] + [Closed(Error, [])];
    }
  }

  lemma CloseKeepsOneClose(r: Req, state: State, messages: seq<Message>)
    requires OneClose(r)
    ensures Succeeds(r, Close(r, state, messages))
  {
    if !r.closed {
      CloseCountAppend(r.out, Closed(state, messages));
    }
  }

  function Run(r: Req, store: MemoryAdapter.Store, inputs: seq<Input>): Req
    decreases |inputs|
  {
    if inputs == [] then r else Run(Apply(r, store, inputs[0]), store, inputs[1..])
  }

  /** Whatever happens to a fresh request, it emits at most one `close` event,
      and exactly one once it is closed. */
  lemma {:induction false} ExactlyOnceClose(r: Req, store: MemoryAdapter.Store, inputs: seq<Input>)
    requires OneClose(r)
    ensures CloseCount(Run(r, store, inputs).out) == (if Run(r, store, inputs).closed then 1 else 0)
    ensures r.closed ==> Run(r, store, inputs).out == r.out
    decreases |inputs|
  {
    if inputs != [] {
      ApplyKeepsOneClose(r, store, inputs[0]);
      ExactlyOnceClose(Apply(r, store, inputs[0]), store, inputs[1..]);
    }
  }

  /** A fresh request satisfies the invariant, and so does the one `open` returns. */
  lemma FreshRequestOneClose(serial: nat, user: string, client: string, serverId: string,
                             multiplex: map<string, int>, store: MemoryAdapter.Store,
                             inbound: seq<Message>, now: int)
    ensures OneClose(New(serial, user, client, serverId, multiplex))
    ensures OneClose(Open(New(serial, user, client, serverId, multiplex), store, inbound, now).req)
  {
  }
}
