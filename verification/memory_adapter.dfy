/**
 The in-memory message store (`MemoryAdapter`): a table from message id to
 message, the acks recorded on each message, lookup of what a client has not
 yet acknowledged, and the periodic expiry sweep.

 The table is a `map` together with `order`, the sequence in which the keys
 were first inserted: that is the order in which the source enumerates its
 keys (`Object.keys`), so `Get` returns messages in a determined order.
 The clock is a parameter (`now`), and the events the source emits while
 dispatching are returned as a list of `Notice`s.
 */
module MemoryAdapter {
  import opened Messages
  import opened Seqs

  /** Maximum message lifetime in milliseconds (one hour). */
  const DefaultMaxAge: int := 1000 * 60 * 60
  /** Period of the expiry sweep in milliseconds (three minutes). */
  const DefaultCleanupInterval: int := 1000 * 60 * 3

  const Defaults: map<string, int> :=
    map["maxAge" := DefaultMaxAge, "cleanupInterval" := DefaultCleanupInterval]

  /** `sweeping` records whether the periodic cleanup timer is armed. */
  datatype Store = Store(
    messages: map<string, Message>,
    order: seq<string>,
    maxAge: int,
    sweeping: bool)

  /** The table invariant: `order` lists every key exactly once, and every
      message is stored under its own id. */
  ghost predicate Valid(s: Store) {
    && Distinct(s.order)
    && (forall k :: k in s.messages <==> k in s.order)
    && (forall k :: k in s.messages ==> s.messages[k].id == k)
  }

  /** The caller's options spread over the defaults: a caller's value wins. */
  function Configure(options: map<string, int>): (o: map<string, int>)
    ensures o.Keys == options.Keys + Defaults.Keys
    ensures forall k :: k in options ==> o[k] == options[k]
    ensures forall k :: k in Defaults && k !in options ==> o[k] == Defaults[k]
  {
    Defaults + options
  }

  /** A fresh, empty store; the sweep is armed only for a positive interval. */
  function New(options: map<string, int>): (s: Store)
    ensures Valid(s) && s.messages == map[]
    ensures s.maxAge == (if "maxAge" in options then options["maxAge"] else DefaultMaxAge)
    ensures s.sweeping <==>
      (if "cleanupInterval" in options then options["cleanupInterval"] else DefaultCleanupInterval) > 0
  {
    var o := Configure(options);
    Store(map[], [], o["maxAge"], o["cleanupInterval"] > 0)
  }

  // ---------------------------------------------------------------------------
  // dispatch
  // ---------------------------------------------------------------------------

  datatype Dispatched = Dispatched(store: Store, notices: seq<Notice>)

  /** What the store keeps for a dispatched `user` message. */
  function Stamp(m: Message, now: int): Message {
    m.(acks := [], timestamp := now)
  }

  /** Dispatch one message. A `user` message is (re)stored under its id with an
      empty ack list and the current time; an `ack` whose id is stored is
      appended to that message's acks; anything else changes nothing. */
  function Dispatch(s: Store, m: Message, now: int): (r: Dispatched)
    ensures Valid(s) ==> Valid(r.store)
    ensures r.store.maxAge == s.maxAge && r.store.sweeping == s.sweeping
    ensures m.kind == User ==>
      && r.store.messages.Keys == s.messages.Keys + {m.id}
      && r.store.messages[m.id].acks == []
      && r.store.messages[m.id].timestamp == now
      && r.store.messages[m.id].(acks := m.acks, timestamp := m.timestamp) == m
      && r.notices == [NewMessage(m.recipient, r.store.messages[m.id])]
    ensures m.kind == Ack && m.id in s.messages ==>
      && r.store.messages.Keys == s.messages.Keys
      && r.store.messages[m.id].acks == s.messages[m.id].acks + [m]
      && r.store.messages[m.id].(acks := s.messages[m.id].acks) == s.messages[m.id]
      && r.notices == [Acked(m.id)]
    ensures (m.kind == Ack && m.id !in s.messages) || m.kind == Other ==>
      r.store == s && r.notices == []
    ensures forall k :: k in s.messages && k != m.id ==>
      k in r.store.messages && r.store.messages[k] == s.messages[k]
  {
    if m.kind == User then
      var stored := Stamp(m, now);
      var order := if m.id in s.messages then s.order else s.order + [m.id];
      var s' := s.(messages := s.messages[m.id := stored], order := order);
      assert Valid(s) ==> Distinct(order) by {
        if Valid(s) && m.id !in s.messages {
          assert m.id !in s.order;
        }
      }
      Dispatched(s', [NewMessage(m.recipient, stored)])
    else if m.kind == Ack && m.id in s.messages then
      var target := s.messages[m.id];
      var s' := s.(messages := s.messages[m.id := target.(acks := target.acks + [m])]);
      Dispatched(s', [Acked(m.id)])
    else
      Dispatched(s, [])
  }

  /** The array form: every element is dispatched, in order, and the notices
      are raised in that order. */
  function DispatchAll(s: Store, ms: seq<Message>, now: int): (r: Dispatched)
    ensures Valid(s) ==> Valid(r.store)
    ensures r.store.maxAge == s.maxAge && r.store.sweeping == s.sweeping
    ensures ms == [] ==> r == Dispatched(s, [])
    ensures s.messages.Keys <= r.store.messages.Keys
    ensures forall i :: 0 <= i < |ms| && ms[i].kind == User ==> ms[i].id in r.store.messages
    decreases |ms|
  {
    if ms == [] then Dispatched(s, [])
    else
      var first := Dispatch(s, ms[0], now);
      var rest := DispatchAll(first.store, ms[1..], now);
      Dispatched(rest.store, first.notices + rest.notices)
  }

  // ---------------------------------------------------------------------------
  // The completion callback of the array form
  // ---------------------------------------------------------------------------

  /** The bookkeeping of the array form's callback: `done`, the countdown
      `todo`, and the arguments the user callback has been called with so far
      (`None` for a call without an error). */
  datatype Batch = Batch(done: bool, todo: int, calls: seq<Option<Fault>>)

  /** One element's completion: an error zeroes the countdown, success
      decrements it, and reaching zero calls back once and latches `done`. */
  function Complete(b: Batch, err: Option<Fault>): (r: Batch)
    ensures b.done ==> r == b
    ensures |b.calls| <= |r.calls| <= |b.calls| + 1
  {
    if b.done then b
    else
      var todo := if err.Some? then 0 else b.todo - 1;
      if todo == 0 then Batch(true, todo, b.calls + [err])
      else Batch(false, todo, b.calls)
  }

  function CompleteAll(b: Batch, errs: seq<Option<Fault>>): Batch
    decreases |errs|
  {
    if errs == [] then b else CompleteAll(Complete(b, errs[0]), errs[1..])
  }

  /** The first error among the completions, if any. */
  function FirstError(errs: seq<Option<Fault>>): (e: Option<Fault>)
    ensures e.Some? <==> exists i :: 0 <= i < |errs| && errs[i].Some?
    ensures e.Some? ==> e in errs
    decreases |errs|
  {
    if errs == [] then None
    else if errs[0].Some? then errs[0]
    else
      var e := FirstError(errs[1..]);
      assert forall i :: 0 < i < |errs| ==> errs[i] == errs[1..][i - 1];
      e
  }

  /** The calls the user callback receives when the array form dispatches
      `|errs|` messages whose completions report `errs`, in that order. An empty
      array completes, without an error, on the next tick. */
  function ArrayCallbacks(errs: seq<Option<Fault>>): seq<Option<Fault>> {
    if errs == [] then [None]
    else CompleteAll(Batch(false, |errs|, []), errs).calls
  }

  lemma {:induction false} CompleteAllWhenDone(b: Batch, errs: seq<Option<Fault>>)
    requires b.done
    ensures CompleteAll(b, errs) == b
    decreases |errs|
  {
    if errs != [] {
      CompleteAllWhenDone(Complete(b, errs[0]), errs[1..]);
    }
  }

  lemma {:induction false} CompleteAllCountdown(calls: seq<Option<Fault>>, errs: seq<Option<Fault>>)
    requires |errs| > 0
    ensures CompleteAll(Batch(false, |errs|, calls), errs).calls == calls + [FirstError(errs)]
    decreases |errs|
  {
    var b := Batch(false, |errs|, calls);
    var b' := Complete(b, errs[0]);
    if errs[0].Some? || |errs| == 1 {
      CompleteAllWhenDone(b', errs[1..]);
      if errs[0].None? {
        assert errs[1..] == [];
      }
    } else {
      assert b' == Batch(false, |errs[1..]|, calls);
      CompleteAllCountdown(calls, errs[1..]);
    }
  }

  /** The array form calls back exactly once, with the first error reported
      by any element, or with none. */
  lemma ArrayCallbackOnce(errs: seq<Option<Fault>>)
    ensures ArrayCallbacks(errs) == [FirstError(errs)]
    ensures |ArrayCallbacks(errs)| == 1
  {
    if errs != [] {
      CompleteAllCountdown([], errs);
    }
  }

  /** The in-memory store completes every single dispatch without an error,
      so its array form always calls back once, successfully. */
  lemma MemoryArrayDispatchSucceeds(n: nat)
    ensures ArrayCallbacks(seq(n, _ => None)) == [None]
  {
    var errs: seq<Option<Fault>> := seq(n, _ => None);
    ArrayCallbackOnce(errs);
  }

  // ---------------------------------------------------------------------------
  // get
  // ---------------------------------------------------------------------------

  /** A message is returned to `client` of `recipient` while it is addressed to
      that recipient and carries no ack from that client. */
  predicate Visible(m: Message, recipient: string, client: string) {
    m.recipient == recipient && !HasAck(m, client)
  }

  function Collect(messages: map<string, Message>, keys: seq<string>, recipient: string, client: string): (r: seq<Message>)
    ensures |r| <= |keys|
    ensures forall m :: m in r ==> m in messages.Values && Visible(m, recipient, client)
    decreases |keys|
  {
    if keys == [] then []
    else
      var rest := Collect(messages, keys[1..], recipient, client);
      if keys[0] in messages && Visible(messages[keys[0]], recipient, client)
      then [messages[keys[0]]] + rest
      else rest
  }

  /** All stored messages of `recipient` that `client` has not acked, in key
      order. */
  function Get(s: Store, recipient: string, client: string): (r: seq<Message>)
    ensures |r| <= |s.order|
    ensures forall m :: m in r ==> m in s.messages.Values && Visible(m, recipient, client)
  {
    Collect(s.messages, s.order, recipient, client)
  }

  lemma {:induction false} CollectMembers(messages: map<string, Message>, keys: seq<string>, recipient: string, client: string)
    ensures forall m :: m in Collect(messages, keys, recipient, client) <==>
      exists k :: k in keys && k in messages && messages[k] == m && Visible(m, recipient, client)
    decreases |keys|
  {
    if keys != [] {
      CollectMembers(messages, keys[1..], recipient, client);
      forall m | (exists k :: k in keys && k in messages && messages[k] == m && Visible(m, recipient, client))
        ensures m in Collect(messages, keys, recipient, client)
      {
        var k :| k in keys && k in messages && messages[k] == m && Visible(m, recipient, client);
        if k != keys[0] {
          assert k in keys[1..];
        }
      }
    }
  }

  /** `get` returns exactly the stored messages addressed to `recipient` that
      carry no ack from `client`, each of them once. */
  lemma GetExact(s: Store, recipient: string, client: string)
    requires Valid(s)
    ensures forall m :: m in Get(s, recipient, client) <==>
      m in s.messages.Values && Visible(m, recipient, client)
    ensures Distinct(Ids(Get(s, recipient, client)))
  {
    CollectMembers(s.messages, s.order, recipient, client);
    CollectDistinct(s.messages, s.order, recipient, client);
  }

  /** Enumerating distinct keys, each stored under its own id, yields every
      message at most once. */
  lemma {:induction false} CollectDistinct(messages: map<string, Message>, keys: seq<string>, recipient: string, client: string)
    requires Distinct(keys)
    requires forall k :: k in keys && k in messages ==> messages[k].id == k
    ensures Distinct(Ids(Collect(messages, keys, recipient, client)))
    ensures forall m :: m in Collect(messages, keys, recipient, client) ==> m.id in keys
    decreases |keys|
  {
    if keys != [] {
      DistinctTail(keys);
      CollectDistinct(messages, keys[1..], recipient, client);
      var rest := Collect(messages, keys[1..], recipient, client);
      if keys[0] in messages && Visible(messages[keys[0]], recipient, client) {
        var r := [messages[keys[0]]] + rest;
        assert r == Collect(messages, keys, recipient, client);
        forall i, j | 0 <= i < j < |r|
          ensures Ids(r)[i] != Ids(r)[j]
        {
          assert r[j] == rest[j - 1] && r[j] in rest;
          if i == 0 {
            assert r[j].id in keys[1..];
          } else {
            assert r[i] == rest[i - 1];
            assert Ids(rest)[i - 1] != Ids(rest)[j - 1];
          }
        }
        forall m | m in r
          ensures m.id in keys
        {
          if m != r[0] {
            assert m in rest;
          }
        }
      }
    }
  }

  /** Two tables that agree on which keys exist, on every entry that either
      shows to the client, and on visibility, give the same `get` result. */
  lemma {:induction false} CollectAgree(m1: map<string, Message>, m2: map<string, Message>, keys: seq<string>, recipient: string, client: string)
    requires forall k :: k in keys ==> (k in m1 <==> k in m2)
    requires forall k :: k in keys && k in m1 ==>
      (Visible(m1[k], recipient, client) <==> Visible(m2[k], recipient, client))
    requires forall k :: k in keys && k in m1 && Visible(m1[k], recipient, client) ==> m1[k] == m2[k]
    ensures Collect(m1, keys, recipient, client) == Collect(m2, keys, recipient, client)
    decreases |keys|
  {
    if keys != [] {
      CollectAgree(m1, m2, keys[1..], recipient, client);
    }
  }

  /** The ids of a list of messages, in order. */
  function Ids(ms: seq<Message>): (ids: seq<string>)
    ensures |ids| == |ms| && forall i :: 0 <= i < |ms| ==> ids[i] == ms[i].id
  {
    seq(|ms|, i requires 0 <= i < |ms| => ms[i].id)
  }

  /** Two tables that agree on keys, ids and visibility give `get` results
      with the same ids in the same order. */
  lemma {:induction false} CollectSameIds(m1: map<string, Message>, m2: map<string, Message>, keys: seq<string>, recipient: string, client: string)
    requires forall k :: k in keys ==> (k in m1 <==> k in m2)
    requires forall k :: k in keys && k in m1 ==>
      m1[k].id == m2[k].id && (Visible(m1[k], recipient, client) <==> Visible(m2[k], recipient, client))
    ensures Ids(Collect(m1, keys, recipient, client)) == Ids(Collect(m2, keys, recipient, client))
    decreases |keys|
  {
    if keys != [] {
      CollectSameIds(m1, m2, keys[1..], recipient, client);
      var r1 := Collect(m1, keys[1..], recipient, client);
      var r2 := Collect(m2, keys[1..], recipient, client);
      if keys[0] in m1 && Visible(m1[keys[0]], recipient, client) {
        assert Ids([m1[keys[0]]] + r1) == [m1[keys[0]].id] + Ids(r1);
        assert Ids([m2[keys[0]]] + r2) == [m2[keys[0]].id] + Ids(r2);
      }
    }
  }

  /** A freshly dispatched `user` message is returned to every client of its
      recipient, since its ack list is empty. */
  lemma UserVisibleAfterDispatch(s: Store, m: Message, now: int, client: string)
    requires Valid(s)
    requires m.kind == User
    ensures Stamp(m, now) in Get(Dispatch(s, m, now).store, m.recipient, client)
  {
    var s' := Dispatch(s, m, now).store;
    GetExact(s', m.recipient, client);
    assert s'.messages[m.id] == Stamp(m, now);
  }

  // ---------------------------------------------------------------------------
  // Acks decide visibility
  // ---------------------------------------------------------------------------

  /** Once client C's ack for a stored message is dispatched, C no longer gets
      that message, while any other client that has not acked it still does. */
  lemma AckHides(s: Store, a: Message, now: int)
    requires Valid(s)
    requires a.kind == Ack && a.id in s.messages
    ensures var s' := Dispatch(s, a, now).store;
      && (forall recipient, x :: x in Get(s', recipient, a.client) ==> x.id != a.id)
      && (forall d :: d != a.client && !HasAck(s.messages[a.id], d) ==>
            s'.messages[a.id] in Get(s', s.messages[a.id].recipient, d))
  {
    var s' := Dispatch(s, a, now).store;
    assert HasAck(s'.messages[a.id], a.client) by {
      assert a in s'.messages[a.id].acks;
    }
    forall recipient, x | x in Get(s', recipient, a.client)
      ensures x.id != a.id
    {
      GetExact(s', recipient, a.client);
      var k :| k in s'.messages && s'.messages[k] == x;
    }
    forall d | d != a.client && !HasAck(s.messages[a.id], d)
      ensures s'.messages[a.id] in Get(s', s.messages[a.id].recipient, d)
    {
      GetExact(s', s.messages[a.id].recipient, d);
    }
  }

  /** Dispatching the same ack twice leaves every client's view as dispatching
      it once: the acking client's `get` result is identical, and every other
      client sees the same message ids in the same order. */
  lemma AckTwice(s: Store, a: Message, now: int, recipient: string, d: string)
    requires Valid(s)
    requires a.kind == Ack
    ensures var once := Dispatch(s, a, now).store;
      var twice := Dispatch(once, a, now).store;
      && Get(twice, recipient, a.client) == Get(once, recipient, a.client)
      && Ids(Get(twice, recipient, d)) == Ids(Get(once, recipient, d))
  {
    if a.id in s.messages {
      AckTwiceSameForAcker(s, a, now, recipient);
      AckTwiceSameIds(s, a, now, recipient, d);
    }
  }

  /** The acking client's view is identical after a repeated ack. */
  lemma AckTwiceSameForAcker(s: Store, a: Message, now: int, recipient: string)
    requires Valid(s)
    requires a.kind == Ack && a.id in s.messages
    ensures var once := Dispatch(s, a, now).store;
      Get(Dispatch(once, a, now).store, recipient, a.client) == Get(once, recipient, a.client)
  {
    var once := Dispatch(s, a, now).store;
    var twice := Dispatch(once, a, now).store;
    forall k | k in once.order && k in twice.messages
      ensures Visible(twice.messages[k], recipient, a.client) <==> Visible(once.messages[k], recipient, a.client)
      ensures Visible(twice.messages[k], recipient, a.client) ==> twice.messages[k] == once.messages[k]
    {
      if k == a.id {
        assert HasAck(once.messages[k], a.client) by {
          assert a in once.messages[k].acks;
        }
        assert HasAck(twice.messages[k], a.client) by {
          assert a in twice.messages[k].acks;
        }
      } else {
        assert twice.messages[k] == once.messages[k];
      }
    }
    CollectAgree(twice.messages, once.messages, once.order, recipient, a.client);
  }

  /** Any other client sees the same ids, in the same order, after a repeated ack. */
  lemma AckTwiceSameIds(s: Store, a: Message, now: int, recipient: string, d: string)
    requires Valid(s)
    requires a.kind == Ack && a.id in s.messages
    ensures var once := Dispatch(s, a, now).store;
      Ids(Get(Dispatch(once, a, now).store, recipient, d)) == Ids(Get(once, recipient, d))
  {
    var once := Dispatch(s, a, now).store;
    var twice := Dispatch(once, a, now).store;
    forall k | k in once.order && k in twice.messages
      ensures Visible(twice.messages[k], recipient, d) <==> Visible(once.messages[k], recipient, d)
    {
      if k == a.id {
        assert twice.messages[k].acks == once.messages[k].acks + [a];
      }
    }
    CollectSameIds(twice.messages, once.messages, once.order, recipient, d);
  }

  // ---------------------------------------------------------------------------
  // cleanup and destroy
  // ---------------------------------------------------------------------------

  /** A message is expired once its age exceeds `maxAge`. */
  predicate Expired(m: Message, maxAge: int, now: int) {
    m.timestamp + maxAge < now
  }

  /** The expiry sweep at time `now`: delete exactly the expired messages. */
  function Cleanup(s: Store, now: int): (r: Store)
    ensures forall k :: k in r.messages <==> k in s.messages && !Expired(s.messages[k], s.maxAge, now)
    ensures forall k :: k in r.messages ==> r.messages[k] == s.messages[k]
    ensures r.maxAge == s.maxAge && r.sweeping == s.sweeping
    ensures Valid(s) ==> Valid(r)
  {
    var keep := (k: string) => k in s.messages && !Expired(s.messages[k], s.maxAge, now);
    var r := s.(messages := map k | k in s.messages && keep(k) :: s.messages[k],
                order := Filter(s.order, keep));
    assert Valid(s) ==> Valid(r) by {
      if Valid(s) {
        FilterDistinct(s.order, keep);
      }
    }
    r
  }

  /** After a sweep at `now`, `get` returns no message older than `maxAge`. */
  lemma CleanupHidesExpired(s: Store, now: int, recipient: string, client: string)
    requires Valid(s)
    ensures forall m :: m in Get(Cleanup(s, now), recipient, client) ==>
      !Expired(m, s.maxAge, now) && m in s.messages.Values && Visible(m, recipient, client)
  {
    GetExact(Cleanup(s, now), recipient, client);
  }

  /** One firing of the cleanup timer: a store whose sweep is armed deletes its
      expired messages; a store without a timer (a non-positive interval, or a
      destroyed store) is left as it is. */
  function Sweep(s: Store, now: int): (r: Store)
    ensures s.sweeping ==>
      forall k :: k in r.messages <==> k in s.messages && !Expired(s.messages[k], s.maxAge, now)
    ensures forall k :: k in r.messages ==> k in s.messages && r.messages[k] == s.messages[k]
    ensures !s.sweeping ==> r == s
    ensures r.maxAge == s.maxAge && r.sweeping == s.sweeping
    ensures Valid(s) ==> Valid(r)
  {
    if s.sweeping then Cleanup(s, now) else s
  }

  /** A store created with a non-positive cleanup interval never sweeps, and a
      destroyed store never sweeps again. */
  lemma SweepNeedsTimer(options: map<string, int>, s: Store, now: int)
    requires "cleanupInterval" in options && options["cleanupInterval"] <= 0
    ensures Sweep(New(options), now) == New(options)
    ensures Sweep(Destroy(s), now) == Destroy(s)
  {
  }

  /** Destroying the store disarms the sweep and empties the table. */
  function Destroy(s: Store): (r: Store)
    ensures Valid(r) && r.messages == map[] && !r.sweeping
    ensures forall recipient, client :: Get(r, recipient, client) == []
  {
    Store(map[], [], s.maxAge, false)
  }
}
