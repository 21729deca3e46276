# lpio long-polling server — message delivery model

This project models, in Dafny, the message-delivery core of the `lpio`
long-polling server (`lpio-server-node`). Four small state machines make it up:

- **MemoryAdapter** (`memory_adapter.dfy`). The message store: a table from
  message id to message. It stores `user` messages with a timestamp and an
  empty ack list, appends `ack` messages to their target, and returns what a
  client has not yet acked. It also expires old messages and can be
  destroyed.
- **Multiplexer** (`multiplexer.dfy`). The batcher: an append-only buffer
  that a periodic timer drains in one piece.
- **Request** (`request.dfy`). One open long-poll request. It subscribes to
  `message:<user>`, dispatches the inbound messages, and synthesises the
  server's acks. It then feeds the client's pending messages into its batcher
  and closes exactly once with `{state, messages}`.
- **Server** (`server.dfy`). The registry, which holds one request per
  client. It validates `open`, replaces an existing request, and refuses
  every `open` once destroyed. Its `send` builds a `user` message and races the
  ack against a timeout.

`messages.dfy` holds the shared vocabulary: message kinds, messages, errors
and store notifications. `seqs.dfy` holds a filter over sequences.

Everything is a pure function over immutable values. Each operation returns
the new state together with what it emitted. Timers and deferred callbacks are
explicit steps:

- the batcher's interval is `Multiplexer.Tick`;
- the store's cleanup interval is `MemoryAdapter.Sweep`;
- the store's deferred callbacks are `Request.OnDispatched` and
  `Request.OnGot`;
- the ack timer of `send` is `Server.OnTimeout`.

The clock (`now`) and fresh ids are parameters. So are the error arguments of
store callbacks, because the request handles any store.

The store keeps its keys in a sequence as well as a map. That sequence is the
order in which the source enumerates the table's keys (insertion order), so
`get` is a function with a determined result order.

## Model

| member | source | states |
|---|---|---|
| `MemoryAdapter.Configure` | src/MemoryAdapter.js:2-10 | caller options override the defaults (maxAge one hour, cleanup every three minutes); absent keys take the default |
| `MemoryAdapter.New` | src/MemoryAdapter.js:9-16 | a new store is empty and valid, takes maxAge from the options or the default, and arms the sweep only for a positive interval |
| `MemoryAdapter.Dispatch` | src/MemoryAdapter.js:47-58 | a `user` message is stored under its id with empty acks and the current time, overwriting any earlier one and raising `message:<recipient>`; an `ack` for a stored id is appended to that message's acks, raising `ack:<id>`, and changes nothing else; an ack for an unknown id or any other type leaves the store untouched; other entries never change; the table invariant is kept |
| `MemoryAdapter.DispatchAll` | src/MemoryAdapter.js:24-45 | the array form dispatches every element in order: no stored key is lost, every `user` element ends up stored, and the empty array changes nothing |
| `MemoryAdapter.Complete` | src/MemoryAdapter.js:34-41 | one completion of the array form calls the user callback at most once, and not at all after it is done |
| `MemoryAdapter.ArrayCallbackOnce` | src/MemoryAdapter.js:24-44 | whatever the elements report, the array form calls back exactly once, with the first error reported or with none; the empty array calls back once without error |
| `MemoryAdapter.MemoryArrayDispatchSucceeds` | src/MemoryAdapter.js:43-58 | since each in-memory dispatch completes without error, the array form always calls back once without error |
| `MemoryAdapter.Get` | src/MemoryAdapter.js:66-80 | `get` returns no more entries than the table has keys, and only stored messages addressed to the recipient that carry no ack from the client |
| `MemoryAdapter.GetExact` | src/MemoryAdapter.js:66-80 | `get(recipient, client)` returns exactly the stored messages addressed to the recipient that carry no ack from that client, each of them once (no id repeats) |
| `MemoryAdapter.UserVisibleAfterDispatch` | src/MemoryAdapter.js:47-76 | a freshly dispatched `user` message is returned to every client of its recipient |
| `MemoryAdapter.AckHides` | src/MemoryAdapter.js:53-76 | after client C's ack for a stored message, C's `get` excludes it for every recipient, while a client D that has not acked it still gets it |
| `MemoryAdapter.AckTwice` | src/MemoryAdapter.js:53-76 | acking twice leaves the acking client's `get` identical to acking once, and every other client sees the same ids in the same order |
| `MemoryAdapter.AckTwiceSameForAcker` | src/MemoryAdapter.js:53-76 | a repeated ack leaves the acking client's `get` result identical |
| `MemoryAdapter.AckTwiceSameIds` | src/MemoryAdapter.js:53-76 | a repeated ack leaves every other client's `get` ids and their order unchanged |
| `MemoryAdapter.Cleanup` | src/MemoryAdapter.js:92-100 | the sweep deletes exactly the messages with `timestamp + maxAge < now` and leaves every other entry unchanged and the table valid |
| `MemoryAdapter.CleanupHidesExpired` | src/MemoryAdapter.js:92-100 | after a sweep, `get` returns no message older than maxAge |
| `MemoryAdapter.Sweep` | src/MemoryAdapter.js:12-15 | a firing of the cleanup timer deletes exactly the expired messages when the sweep is armed and changes nothing otherwise; entries it keeps are unchanged and the table stays valid |
| `MemoryAdapter.SweepNeedsTimer` | src/MemoryAdapter.js:12-15 | a store created with a non-positive cleanup interval never sweeps, and neither does a destroyed store |
| `MemoryAdapter.Destroy` | src/MemoryAdapter.js:82-87 | destroy disarms the sweep and empties the table, so every `get` afterwards returns `[]` |
| `Multiplexer.Configure` | src/Multiplexer.js:9-11 | corrected option merge: the caller's duration wins over the 200 ms default (see Findings) |
| `Multiplexer.ConfigureAsWritten` | src/Multiplexer.js:11 | the merge as written: every default key takes the default value whatever the caller passed, and only keys without a default keep the caller's value |
| `Multiplexer.CallerDurationIgnoredAsWritten` | src/Multiplexer.js:11 | with the merge as written, options `{duration: 50}` still give 200 ms; the corrected merge gives 50 |
| `Multiplexer.AsWrittenAlwaysDefault` | src/Multiplexer.js:11 | with the merge as written, every caller's duration is replaced by 200 ms |
| `Multiplexer.New` | src/Multiplexer.js:9-14 | a new batcher has an empty buffer and an armed timer with the configured period |
| `Multiplexer.Add` | src/Multiplexer.js:30-37 | `add(x)` appends x at the end and keeps the old buffer as a prefix; the length grows by one |
| `Multiplexer.AddAll` | src/Multiplexer.js:30-34 | `add(array)` appends all its elements in order; the length grows by the array's length |
| `Multiplexer.AddEachIsAddAll` | src/Multiplexer.js:30-37 | adding elements one at a time equals adding the array |
| `Multiplexer.Reset` | src/Multiplexer.js:44-47 | `reset` yields an empty buffer and leaves the timer as it was |
| `Multiplexer.GetReflectsBuffer` | src/Multiplexer.js:21-47 | `get` after `reset` is `[]`, and `get` after `add(x)` is the previous `get` followed by x |
| `Multiplexer.Destroy` | src/Multiplexer.js:54-58 | destroy disarms the timer and keeps the buffer |
| `Multiplexer.OnDrain` | src/Multiplexer.js:65-70 | on an empty buffer nothing is emitted and nothing changes; otherwise exactly the previous buffer is emitted and the buffer is left empty |
| `Multiplexer.Tick` | src/Multiplexer.js:13-70 | a firing of an armed timer runs `onDrain`: a non-empty buffer is emitted in full and left empty, an empty one emits nothing; a destroyed batcher never drains |
| `Multiplexer.CoalesceTwo` | src/Multiplexer.js:30-70 | `add(x)`, `add(y)` and a drain emit exactly `[x, y]` |
| `Multiplexer.NoLoss` | src/Multiplexer.js:30-70 | over any run of adds and timer firings, the drains followed by the remaining buffer are exactly the initial buffer followed by everything added, in order |
| `Multiplexer.NoSpuriousDrain` | src/Multiplexer.js:65-70 | over any such run, no drain is empty and the timer stays armed |
| `Request.FromCode` | src/Request.js:5-11 | exactly the codes 0 to 4 name a state |
| `Request.CodesDistinct` | src/Request.js:5-11 | the five state codes are pairwise distinct |
| `Request.New` | src/Request.js:13-23 | a new request is open, not subscribed, has emitted nothing, and owns an empty armed batcher |
| `Request.Close` | src/Request.js:74-81 | the first close emits exactly one `close` event carrying `{state, messages}`, destroys the batcher and unsubscribes; on a closed request close changes nothing |
| `Request.CloseDefault` | src/Request.js:74 | `close()` with no arguments emits state `RECONNECT` with messages `[]` |
| `Request.CloseIdempotent` | src/Request.js:74-80 | closing twice is closing once, and the output gains exactly one `close` |
| `Request.OnMessage` | src/Request.js:83-85 | a notified message is appended to the batcher and nothing else changes |
| `Request.OnNotice` | src/Request.js:37 | a store notification reaches the request only if it is `message:<user>` and the request is subscribed |
| `Request.OnDrain` | src/Request.js:87-89 | a drain of ms closes with `NEW_MESSAGES` and ms |
| `Request.OnError` | src/Request.js:91-95 | a falsy error does nothing; an error on an open request emits `error`, then closes with `ERROR` and `[]` |
| `Request.Tick` | src/Request.js:20-21 | a batcher drain of a non-empty buffer closes the open request with `NEW_MESSAGES` and that buffer; an empty or disarmed batcher changes nothing |
| `Request.Open` | src/Request.js:35-59 | open subscribes to `message:<user>`; with inbound messages it dispatches them all and awaits the dispatch callback; with none it asks the store for the client's unacked messages and awaits that callback |
| `Request.ServerAck` | src/Request.js:44-51 | the server's ack has the inbound message's id, type `ack`, sender `server`, the server's client id and the user as recipient |
| `Request.ServerAcksAnswerNonAcks` | src/Request.js:43-52 | exactly one server ack per inbound message that is not an ack, in order, and none for acks |
| `Request.ConfirmAll` | src/Request.js:43-55 | handling the inbound batch changes only the batcher's buffer and the output; what they gain is stated by `Request.ConfirmAllAcks` and `Request.ConfirmAllAnnounces` |
| `Request.ConfirmAllAcks` | src/Request.js:43-55 | after a successful dispatch, the batcher gains exactly those server acks |
| `Request.ConfirmAllAnnounces` | src/Request.js:53-54 | an open request emits `message` for each inbound message and `data` for each one carrying data, in order |
| `Request.OnDispatched` | src/Request.js:40-57 | a failed dispatch ends in `ERROR` with nothing awaited; a successful one adds the server acks, announces the messages, changes nothing else and awaits the store's `get` for this user and client |
| `Request.OnGot` | src/Request.js:61-66 | a failed get ends in `ERROR`; otherwise every message found is added to the batcher in order |
| `Request.OpenEmptyFeedsPending` | src/Request.js:59-65 | with nothing inbound, open and its get callback leave exactly the client's unacked messages in the batcher |
| `Request.ApplyKeepsOneClose` | src/Request.js:74-95 | every step keeps "one `close` event if closed, none otherwise", and a closed request's output, subscription and timer never change again |
| `Request.ExactlyOnceClose` | src/Request.js:74-80 | whatever happens to a request, it emits at most one `close`, and exactly one once closed |
| `Request.FreshRequestOneClose` | src/Request.js:13-37 | a new request, and the one open returns, satisfy that invariant |
| `Server.New` | src/Server.js:15-20 | a new server has no requests and is not destroyed |
| `Server.OnError` | src/Server.js:86-88 | an error is emitted on the server and nothing else changes |
| `Server.OnClose` | src/Server.js:82-84 | `onClose(c)` removes c and leaves every other entry unchanged |
| `Server.Notify` | src/MemoryAdapter.js:51 | a store notification is delivered to every registered request and the registry's keys stay the same |
| `Server.Fanout` | src/MemoryAdapter.js:51-55 | delivering notifications changes only the batcher buffers of registered requests, and keeps the registry's keys |
| `Server.FanoutDelivers` | src/Request.js:37-85 | after a run of notifications, every registered request's buffer has gained, in order, exactly the messages of the `message:<user>` notifications it is subscribed to |
| `Server.CloseClient` | src/Server.js:27-28 | the client's registered request, if any, is closed with the given state and deregistered |
| `Server.OpenError` | src/Server.js:22-25 | open is refused exactly when the user is missing, the client is missing, or the server is destroyed |
| `Server.Open` | src/Server.js:22-35 | open is refused exactly when `OpenError` reports an error, and then only emits that error on the server; an accepted open registers a new request for the client with the next serial and the given user, adding only that client to the registry; it dispatches the inbound messages into the store and awaits the dispatch callback, or, with none inbound, leaves the store as it was and awaits the client's unacked messages from `get`, and reports the notices the dispatch raised |
| `Server.OpenPushes` | src/Server.js:30-33 | the notices raised by an accepted `open` reach the new request through its `message:<user>` subscription, and every other registered request through its own subscription, in order |
| `Server.OpenRejects` | src/Server.js:22-25 | a refused open reports `User undefined.`, `Client undefined.` or `Server is destroyed.`, in that precedence, and changes neither the registry nor the store |
| `Server.OpenReplaces` | src/Server.js:27-33 | after open, c maps to a new subscribed request; the request previously registered for c, if any, was closed with `RECONNECT` and emitted exactly one `close`; other clients keep their requests |
| `Server.OpenKeepsValid` | src/Server.js:22-34 | open keeps the registry invariant: one open request per client, registered under its own id |
| `Server.Deliver` | src/Server.js:32 | a step on the current request for c is applied to it, and c is deregistered once it closes; a step for a replaced request changes nothing |
| `Server.DeliverKeepsValid` | src/Server.js:32 | delivering a step keeps the registry invariant, and a request that closed is no longer registered |
| `Server.Destroy` | src/Server.js:40-48 | destroy closes every registered request with the default state, empties the registry and the store, and marks the server destroyed |
| `Server.DestroyClosesAll` | src/Server.js:25-47 | after destroy, each formerly registered request has emitted exactly one `close`, and every later open is refused and registers nothing |
| `Server.SendError` | src/Server.js:55-58 | send is refused exactly when the data or the recipient is missing; the recipient error wins when both are |
| `Server.Compose` | src/Server.js:60-64 | the sent message has the fresh id and type `user`, unless the caller supplies its own, and the caller's other fields |
| `Server.Send` | src/Server.js:54-67 | a refused send changes nothing and dispatches nothing; an accepted one dispatches the composed message to the store and keeps the registry invariant |
| `Server.SentMessageVisible` | src/Server.js:60-66 | right after an accepted send whose message has type `user` (by default or given by the caller), the message is visible to every client of the recipient |
| `Server.SendPushes` | src/Server.js:60-66 | an accepted `user` send pushes the stored message into the batcher of every registered request subscribed to the recipient, and into no other |
| `Server.SendAfterDestroy` | src/Server.js:54-66 | `send` does not check `destroyed`: after `destroy`, an accepted `user` send still dispatches, leaving exactly its message in the emptied store |
| `Server.AfterDispatch` | src/Server.js:66-69 | a dispatch error is passed straight to the callback; otherwise the ack listener and the timer are both armed |
| `Server.OnAck` | src/Server.js:70-74 | the ack for the message, while listened for, clears the timer and calls back once without error; any other notice, or a later one, changes nothing |
| `Server.OnTimeout` | src/Server.js:75-78 | a firing of the armed timer drops the ack listener and calls back once with `Delivery timeout.`; a cleared timer changes nothing |
| `Server.SendCallsBackOnce` | src/Server.js:69-78 | in the ack-versus-timeout race the first event wins: the callback fires exactly once after the decision, with no error for the ack or `Delivery timeout.` for the timer, and neither listener nor timer survives it |

## Left out

- The HTTP binding (`spec-server.js`): routing, body parsing and writing the
  response are I/O.
- Real timers: `setInterval`, `setTimeout`, `clearInterval` and
  `process.nextTick`. Each firing or deferred callback is an explicit step, so
  the `duration` and `ackTimeout` values are recorded but never measured, and
  of `cleanupInterval` only its sign is kept (whether the sweep is armed).
- The option merge of `Server` (src/Server.js:7-17). `Server.New` takes a
  complete configuration, so the defaults for `ackTimeout`, `keepAlive`,
  `disconnectedAfter` and `multiplex` are not modelled; none of them changes
  what the model computes.
- `Date.now()` and `uid()` (`Math.random`): the time and the fresh id are
  parameters.
- EventEmitter mechanics. Emitted events are lists: the request's `out`, the
  server's `errors`, and the store's notices. A closed request has no output
  listeners, so its later emits are not recorded. In Node, emitting `error`
  with no listener throws. `Server.onError` (src/Server.js:87) emits `error`
  on the server for every refused `open`, so a refused `open` throws when no
  listener is attached, as after `destroy` removes them all
  (src/Server.js:45). `Server.OnError` and `Server.OpenRejects` record the
  error; they do not model the throw. A request that fails after close
  throws the same way; the model does not record it.
- Object aliasing. The source stores, buffers and returns the same message
  objects, so a later ack push is visible through every reference. The model
  uses values: a buffered copy does not see acks recorded after it was
  buffered.
- Key order for integer-like ids. JavaScript enumerates keys that look like
  array indices first, in numeric order. The model keeps insertion order for
  every key.
- JavaScript falsiness. `user`, `client`, `recipient` and `data` are strings,
  and "" stands for every falsy value. Message types other than `user` and
  `ack` collapse into `Other`, since the code treats them all alike.
- The `keepAlive` and `disconnectedAfter` options: no code in the core reads
  them.
- The shared default store. By default every request reads
  `Server.DEFAULTS.adapter` (src/Request.js:18, src/Server.js:11): one
  `MemoryAdapter`, created with its sweep armed when the module loads and
  shared by every server. The model gives each server its own `store`.
- The table is a plain object. An ack whose id names an `Object.prototype`
  member (`"constructor"`, `"toString"`) passes the test at
  src/MemoryAdapter.js:53 and then throws at `.acks.push`. A `user` message
  with id `"__proto__"` is not stored as a key at line 50. The model's table
  is a map with no inherited keys: `MemoryAdapter.Dispatch` leaves the store
  unchanged for an ack of an unknown id and stores every `user` message.
- `open` without a `messages` field throws at src/Request.js:39. By then the
  request is already registered (src/Server.js:31) and subscribed
  (src/Request.js:37). `Server.Open` takes the inbound messages as a
  sequence, which is always present, so this case is not modelled.
- Multi-channel subscriptions, client-id assignment and the response timeout:
  none of these is in the code.
- `src/states.js` is not part of this model. It repeats the numeric state
  codes, which `Request.State` carries once.
- MemoryAdapter.DispatchAll: its contract states only that no key is lost, that
  every `user` element is stored, and that the invariant holds. The
  per-element effect is stated by `MemoryAdapter.Dispatch`, which
  `DispatchAll` applies in order. Every element of one batch is stamped
  with the same `now`, whereas the source reads `Date.now()` once per element
  (src/MemoryAdapter.js:43, 49). A batch that crosses a millisecond
  boundary can therefore expire in two sweeps in the source, but always in
  one sweep in the model.
- Server.Deliver: the inputs of the store callbacks are supplied by the
  caller, like the callbacks' errors. The model does not tie them to the
  `Pending` value the earlier step returned. The result of a `get` callback
  (`Request.Got`) is free. So are the inbound messages of a dispatch callback
  (`Request.Dispatched`), so a step can synthesise server acks and announce
  messages that `open` never dispatched. The source always passes the batch
  that `open` dispatched.

## Source defects modelled at their intended behaviour

- `Server` calls `this.close(client)` (src/Server.js:28) but defines no
  `close`. `Server.CloseClient` closes the client's request and deregisters
  it, and `open` uses it with `RECONNECT`.
- `Server` subscribes with `req.once('close', …)` (src/Server.js:32), but a
  `Request` is not an emitter. The model deregisters the client when its
  request emits `close` on `out`.
- `Server` uses `this.adapter` without assigning it (src/Server.js:44, 66, 74).
  The model gives the server its store.
- `Server` removes the ack listener with `this.off` on the wrong object
  (src/Server.js:76). The model drops the listener when the timer fires.
- `MemoryAdapter` calls `this.emit` without being an emitter
  (src/MemoryAdapter.js:51, 55). The model returns the notifications and
  delivers them to the subscribed requests.
- `MemoryAdapter.destroy` calls `this.removeAllListeners()`
  (src/MemoryAdapter.js:84), which the store does not have, so it throws
  before line 85 empties the table. `MemoryAdapter.Destroy` clears the timer
  and empties the table.
- `Request` subscribes and unsubscribes through `this.adapter.out`
  (src/Request.js:37, 78), and the store has no `out`. So `open` throws
  before dispatching, and `close` throws before emitting `close`. The model
  subscribes the request to the store's notifications directly, and `close`
  emits its event.
- `Request` imports its batcher from the external package `lpio-multiplexer`
  (src/Request.js:2). The model uses src/Multiplexer.js in its place.

## Behaviour worth knowing

- `send` does not check `destroyed` (src/Server.js:54-66): a `send` after
  `destroy` still dispatches its message into the emptied store
  (`Server.SendAfterDestroy`).
- Stored messages have type `user`.
- A repeated ack is appended again, so an ack list can hold two entries for
  one client. Visibility is unchanged (`MemoryAdapter.AckTwice`).
- `destroy` closes requests with the default state, `RECONNECT`.
- A refused `open` only emits an error on the server and returns nothing.
- Messages are addressed to one recipient (a user).

## Findings

| source | as written | input that shows it | evidently intended | confidence | as-written member | corrected member |
|---|---|---|---|---|---|---|
| src/Multiplexer.js:11 | `{...options, ...Multiplexer.DEFAULTS}` spreads the defaults last, so they override the caller's options | options `{duration: 50}` give a 200 ms drain interval | the caller's options override the defaults, as the store does at src/MemoryAdapter.js:10 | high that the caller's duration is ignored; not executed | `Multiplexer.CallerDurationIgnoredAsWritten` | `Multiplexer.Configure` |
