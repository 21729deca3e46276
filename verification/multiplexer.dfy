/**
 The batcher (`Multiplexer`): an append-only buffer that a periodic timer
 drains. The timer's firing is the explicit step `Tick`; `OnDrain` is what one
 firing does, and the `drain` event it emits is returned as `Some(messages)`.
 */
module Multiplexer {
  import opened Messages

  /** Interval, in milliseconds, at which `drain` may be emitted. */
  const DefaultDuration: int := 200

  const Defaults: map<string, int> := map["duration" := DefaultDuration]

  /** `armed` records that the interval timer is running and the owner is still
      listening for `drain`; `destroy` clears both. */
  datatype Mux = Mux(buffer: seq<Message>, armed: bool, duration: int)

  /** The option merge as the constructor writes it: the defaults are spread
      last, so they override whatever the caller passed. */
  function ConfigureAsWritten(options: map<string, int>): (o: map<string, int>)
    ensures o.Keys == options.Keys + Defaults.Keys
    ensures forall k :: k in Defaults ==> o[k] == Defaults[k]
    ensures forall k :: k in options && k !in Defaults ==> o[k] == options[k]
  {
    options + Defaults
  }

  /** The evidently intended merge (the one the store uses): the caller's
      options are spread over the defaults. */
  function Configure(options: map<string, int>): (o: map<string, int>)
    ensures "duration" in o
    ensures o["duration"] == (if "duration" in options then options["duration"] else DefaultDuration)
    ensures forall k :: k in options ==> k in o && o[k] == options[k]
  {
    Defaults + options
  }

  /** As written, a caller's `duration` is discarded: asking for 50 ms still
      yields 200 ms. */
  lemma CallerDurationIgnoredAsWritten()
    ensures ConfigureAsWritten(map["duration" := 50])["duration"] == 200
    ensures Configure(map["duration" := 50])["duration"] == 50
  {
  }

  /** As written, every caller's duration is replaced by the default. */
  lemma AsWrittenAlwaysDefault(options: map<string, int>)
    ensures ConfigureAsWritten(options)["duration"] == DefaultDuration
  {
  }

  /** A new batcher: empty buffer, timer armed with the configured period. */
  function New(options: map<string, int>): (m: Mux)
    ensures m.buffer == [] && m.armed
    ensures m.duration == (if "duration" in options then options["duration"] else DefaultDuration)
  {
    Mux([], true, Configure(options)["duration"])
  }

  /** `get`: the current buffer. */
  function Get(m: Mux): seq<Message> {
    m.buffer
  }

  /** `add` of a single message: appended at the end, nothing dropped. */
  function Add(m: Mux, x: Message): (r: Mux)
    ensures |r.buffer| == |m.buffer| + 1 && r.buffer[|m.buffer|] == x
    ensures r.buffer[..|m.buffer|] == m.buffer
    ensures r.armed == m.armed && r.duration == m.duration
  {
    m.(buffer := m.buffer + [x])
  }

  /** `add` of an array: all its elements appended, in order. */
  function AddAll(m: Mux, xs: seq<Message>): (r: Mux)
    ensures |r.buffer| == |m.buffer| + |xs|
    ensures r.buffer[..|m.buffer|] == m.buffer && r.buffer[|m.buffer|..] == xs
    ensures r.armed == m.armed && r.duration == m.duration
  {
    m.(buffer := m.buffer + xs)
  }

  /** Adding one element at a time, as a subscriber does. */
  function AddEach(m: Mux, xs: seq<Message>): Mux
    decreases |xs|
  {
    if xs == [] then m else AddEach(Add(m, xs[0]), xs[1..])
  }

  /** Adding the elements one at a time has the same effect as adding the array. */
  lemma {:induction false} AddEachIsAddAll(m: Mux, xs: seq<Message>)
    ensures AddEach(m, xs) == AddAll(m, xs)
    decreases |xs|
  {
    if xs != [] {
      AddEachIsAddAll(Add(m, xs[0]), xs[1..]);
      assert m.buffer + [xs[0]] + xs[1..] == m.buffer + xs;
    }
  }

  /** `reset`: the buffer becomes empty. */
  function Reset(m: Mux): (r: Mux)
    ensures Get(r) == [] && r.armed == m.armed && r.duration == m.duration
  {
    m.(buffer := [])
  }

  /** `get` after `reset` is empty, and `get` after `add` is the old buffer
      followed by the new element. */
  lemma GetReflectsBuffer(m: Mux, x: Message)
    ensures Get(Reset(m)) == []
    ensures Get(Add(m, x)) == Get(m) + [x]
  {
  }

  /** `destroy`: the interval timer is cleared and the listeners removed. */
  function Destroy(m: Mux): (r: Mux)
    ensures !r.armed && r.buffer == m.buffer
  {
    m.(armed := false)
  }

  datatype Drained = Drained(mux: Mux, drain: Option<seq<Message>>)

  /** One run of `onDrain`: an empty buffer emits nothing and changes nothing;
      otherwise the whole buffer is emitted and the buffer is reset. */
  function OnDrain(m: Mux): (r: Drained)
    ensures m.buffer == [] ==> r == Drained(m, None)
    ensures m.buffer != [] ==> r.drain == Some(m.buffer) && r.mux == Reset(m)
  {
    if m.buffer == [] then Drained(m, None)
    else Drained(Reset(m), Some(m.buffer))
  }

  /** One firing of the interval timer; once destroyed, the timer no longer fires. */
  function Tick(m: Mux): (r: Drained)
    ensures !m.armed ==> r == Drained(m, None)
    ensures r.drain.Some? ==> r.drain.value == m.buffer && r.drain.value != [] && r.mux.buffer == []
    ensures r.drain.None? ==> r.mux == m
    ensures r.mux.armed == m.armed
    ensures m.armed ==> r == OnDrain(m)
  {
    if m.armed then OnDrain(m) else Drained(m, None)
  }

  /** `add(x)`, `add(y)` and then a drain emit exactly `[x, y]`. */
  lemma CoalesceTwo(m: Mux, x: Message, y: Message)
    requires m.buffer == [] && m.armed
    ensures Tick(Add(Add(m, x), y)).drain == Some([x, y])
    ensures Tick(Add(Add(m, x), y)).mux.buffer == []
  {
    assert m.buffer + [x] + [y] == [x, y];
  }

  // ---------------------------------------------------------------------------
  // No loss, no reordering, no spurious drain
  // ---------------------------------------------------------------------------

  /** What can happen to a batcher: a single add, an array add, or a timer firing. */
  datatype Op = Put(x: Message) | PutAll(xs: seq<Message>) | Fire

  /** The messages one operation adds. */
  function AddedBy(op: Op): seq<Message> {
    match op
    case Put(x) => [x]
    case PutAll(xs) => xs
    case Fire => []
  }

  function Added(ops: seq<Op>): seq<Message>
    decreases |ops|
  {
    if ops == [] then [] else AddedBy(ops[0]) + Added(ops[1..])
  }

  function Concat(chunks: seq<seq<Message>>): seq<Message>
    decreases |chunks|
  {
    if chunks == [] then [] else chunks[0] + Concat(chunks[1..])
  }

  /** The drains one step emitted, as a list of zero or one chunks. */
  function Emitted(d: Drained): seq<seq<Message>> {
    match d.drain
    case Some(ms) => [ms]
    case None => []
  }

  datatype Trace = Trace(mux: Mux, drains: seq<seq<Message>>)

  function Step(m: Mux, op: Op): Drained {
    match op
    case Put(x) => Drained(Add(m, x), None)
    case PutAll(xs) => Drained(AddAll(m, xs), None)
    case Fire => Tick(m)
  }

  /** Run the operations in order, collecting every `drain` emitted. */
  function Run(m: Mux, ops: seq<Op>): Trace
    decreases |ops|
  {
    if ops == [] then Trace(m, [])
    else
      var d := Step(m, ops[0]);
      var rest := Run(d.mux, ops[1..]);
      Trace(rest.mux, Emitted(d) + rest.drains)
  }

  /** One step loses nothing: what it drains followed by what it leaves buffered
      is the old buffer followed by what it adds. */
  lemma StepKeepsEverything(m: Mux, op: Op)
    requires m.armed
    ensures Concat(Emitted(Step(m, op))) + Step(m, op).mux.buffer == m.buffer + AddedBy(op)
    ensures forall i :: 0 <= i < |Emitted(Step(m, op))| ==> Emitted(Step(m, op))[i] != []
    ensures Step(m, op).mux.armed
  {
    var d := Step(m, op);
    if d.drain.Some? {
      assert Concat(Emitted(d)) == m.buffer + Concat([]);
    }
  }

  lemma {:induction false} ConcatAppend(a: seq<seq<Message>>, b: seq<seq<Message>>)
    ensures Concat(a + b) == Concat(a) + Concat(b)
    decreases |a|
  {
    if a != [] {
      ConcatAppend(a[1..], b);
      assert (a + b)[0] == a[0];
      assert (a + b)[1..] == a[1..] + b;
      assert Concat(a + b) == a[0] + Concat(a[1..] + b);
      assert Concat(a) == a[0] + Concat(a[1..]);
      assert a[0] + (Concat(a[1..]) + Concat(b)) == (a[0] + Concat(a[1..])) + Concat(b);
    } else {
      assert a + b == b;
    }
  }

  /** Over any run of an armed batcher, no drain is empty and the timer stays
      armed. */
  lemma {:induction false} NoSpuriousDrain(m: Mux, ops: seq<Op>)
    requires m.armed
    ensures forall i :: 0 <= i < |Run(m, ops).drains| ==> Run(m, ops).drains[i] != []
    ensures Run(m, ops).mux.armed
    decreases |ops|
  {
    if ops != [] {
      var d := Step(m, ops[0]);
      StepKeepsEverything(m, ops[0]);
      NoSpuriousDrain(d.mux, ops[1..]);
      var rest := Run(d.mux, ops[1..]);
      var e := Emitted(d);
      var all := e + rest.drains;
      assert Run(m, ops).drains == all;
      forall i | 0 <= i < |all|
        ensures all[i] != []
      {
        if i >= |e| {
          assert all[i] == rest.drains[i - |e|];
        }
      }
    }
  }

  /** While the timer is armed, everything ever added comes out, in order:
      the drains followed by what is still buffered are exactly the initial
      buffer followed by the added messages. */
  lemma {:induction false} NoLoss(m: Mux, ops: seq<Op>)
    requires m.armed
    ensures Concat(Run(m, ops).drains) + Run(m, ops).mux.buffer == m.buffer + Added(ops)
    decreases |ops|
  {
    if ops != [] {
      var d := Step(m, ops[0]);
      var rest := Run(d.mux, ops[1..]);
      var e := Emitted(d);
      var all := e + rest.drains;
      var ce, cr, buf := Concat(e), Concat(rest.drains), rest.mux.buffer;
      var a0, a1 := AddedBy(ops[0]), Added(ops[1..]);
      assert Run(m, ops) == Trace(rest.mux, all);
      assert Added(ops) == a0 + a1;
      assert Concat(all) == ce + cr by {
        ConcatAppend(e, rest.drains);
      }
      assert cr + buf == d.mux.buffer + a1 by {
        assert d.mux.armed by {
          StepKeepsEverything(m, ops[0]);
        }
        NoLoss(d.mux, ops[1..]);
      }
      assert ce + d.mux.buffer == m.buffer + a0 by {
        StepKeepsEverything(m, ops[0]);
      }
      Regroup(ce, cr, buf, d.mux.buffer, m.buffer, a0, a1);
    }
  }

  lemma Regroup(ce: seq<Message>, cr: seq<Message>, buf: seq<Message>, mid: seq<Message>,
                start: seq<Message>, a0: seq<Message>, a1: seq<Message>)
    requires cr + buf == mid + a1
    requires ce + mid == start + a0
    ensures (ce + cr) + buf == start + (a0 + a1)
  {
    calc {
      (ce + cr) + buf;
      ce + (cr + buf);
      ce + (mid + a1);
      (ce + mid) + a1;
      (start + a0) + a1;
    }
  }
}
