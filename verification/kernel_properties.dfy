/** Properties of the bus over several operations: dense id issue across
    registrations, who receives what in a dispatch pass, and the
    two-subscriber scenario. */
module KernelProperties {
  import opened Messages
  import RingBuffer
  import opened Kernel
  import opened Dispatch

  datatype Registration = Registration(plugin: Plugin, types: seq<U32>)

  /** Registers the plugins of `regs` in order, collecting the issued ids
      and the lifecycle events. */
  function RegisterAll(k: State, regs: seq<Registration>): (res: (State, seq<nat>, seq<Event>))
    requires Valid(k)
    ensures Valid(res.0) && |res.1| == |regs|
    decreases |regs|
  {
    if regs == [] then (k, [], [])
    else
      var r := Register(k, regs[0].plugin, regs[0].types);
      var rest := RegisterAll(r.kernel, regs[1..]);
      (rest.0, [r.id] + rest.1, r.events + rest.2)
  }

  /** The j-th of a run of registrations starting at `k` uses id
      `k.nextId + j` and appends exactly one input buffer, so it owns the
      buffer at index `k.nextId + j - 1`. */
  lemma {:induction false} RegisterAllDense(k: State, regs: seq<Registration>)
    requires Valid(k)
    ensures var res := RegisterAll(k, regs);
            && (forall j :: 0 <= j < |regs| ==> res.1[j] == k.nextId + j)
            && res.0.nextId == k.nextId + |regs|
            && |res.0.inBuffers| == |k.inBuffers| + |regs|
    decreases |regs|
  {
    if regs != [] {
      var r := Register(k, regs[0].plugin, regs[0].types);
      RegisterAllDense(r.kernel, regs[1..]);
    }
  }

  /** The only calls into plugin code during a run of registrations are
      `init` then `start` of each new plugin, in registration order; no
      handler is invoked. */
  lemma {:induction false} RegisterAllLifecycle(k: State, regs: seq<Registration>)
    requires Valid(k)
    ensures var res := RegisterAll(k, regs);
            && |res.2| == 2 * |regs|
            && (forall j :: 0 <= j < |regs| ==>
                  res.2[2 * j] == Init(k.nextId + j) && res.2[2 * j + 1] == Start(k.nextId + j))
    decreases |regs|
  {
    if regs != [] {
      var r := Register(k, regs[0].plugin, regs[0].types);
      RegisterAllLifecycle(r.kernel, regs[1..]);
      var events := RegisterAll(k, regs).2;
      var rest := RegisterAll(r.kernel, regs[1..]).2;
      assert events == [Init(k.nextId), Start(k.nextId)] + rest;
      forall j | 0 <= j < |regs|
        ensures events[2 * j] == Init(k.nextId + j) && events[2 * j + 1] == Start(k.nextId + j)
      {
        if j > 0 {
          assert events[2 * j] == rest[2 * (j - 1)];
          assert events[2 * j + 1] == rest[2 * (j - 1) + 1];
        }
      }
    }
  }

  /** From a fresh kernel, the k-th registration (counting from 1) gets id
      k and owns `inBuffers[k - 1]`. */
  lemma IdsStartAtOne(capacity: nat, blank: Message, regs: seq<Registration>)
    requires capacity > 0
    ensures var res := RegisterAll(Initial(capacity, blank), regs);
            && (forall j :: 0 <= j < |regs| ==> res.1[j] == j + 1)
            && |res.0.inBuffers| == |regs| == res.0.nextId - 1
  {
    RegisterAllDense(Initial(capacity, blank), regs);
  }

  /** A stream of messages none of whose types has a handler list is
      consumed without a single delivery. */
  lemma {:induction false} UnsubscribedProducesNothing(subs: map<U32, seq<Handler>>, q: seq<Message>)
    requires forall j :: 0 <= j < |q| ==> q[j].msgType !in subs
    ensures TraceOf(subs, q) == []
  {
    if q != [] {
      UnsubscribedProducesNothing(subs, q[1..]);
    }
  }

  /** Plugin `p` receives message `m` while a stream is consumed exactly
      when `m` is in the stream and a handler bound to `p` is subscribed to
      `m`'s type. */
  lemma {:induction false} DeliveredIff(subs: map<U32, seq<Handler>>, q: seq<Message>, p: nat, m: Message)
    ensures Deliver(p, m) in TraceOf(subs, q)
            <==> m in q && Handler(p) in HandlersFor(subs, m.msgType)
  {
    if q != [] {
      DeliveredIff(subs, q[1..], p, m);
      assert q == [q[0]] + q[1..];
      var hs := HandlersFor(subs, q[0].msgType);
      var d := Deliveries(subs, q[0]);
      if Deliver(p, m) in d {
        var i :| 0 <= i < |d| && d[i] == Deliver(p, m);
        assert hs[i] == Handler(p);
      }
      if q[0] == m && Handler(p) in hs {
        var i :| 0 <= i < |hs| && hs[i] == Handler(p);
        assert d[i] == Deliver(p, m);
      }
    }
  }

  lemma {:induction false} CallsCount(hs: seq<Handler>, m: Message, p: nat)
    ensures multiset(Calls(hs, m))[Deliver(p, m)] == multiset(hs)[Handler(p)]
  {
    if hs != [] {
      var front, last := hs[..|hs| - 1], hs[|hs| - 1];
      CallsCount(front, m, p);
      assert hs == front + [last];
      assert Calls(hs, m) == Calls(front, m) + [Deliver(last.pluginId, m)];
    }
  }

  /** Each consumed message reaches plugin `p` exactly as many times as
      handlers bound to `p` are in its type's list: once per consumption for
      a plugin that subscribed to the type once. */
  lemma DeliveryCount(subs: map<U32, seq<Handler>>, m: Message, p: nat)
    ensures multiset(Deliveries(subs, m))[Deliver(p, m)]
            == multiset(HandlersFor(subs, m.msgType))[Handler(p)]
  {
    CallsCount(HandlersFor(subs, m.msgType), m, p);
  }

  /** A message other than `m` causes no delivery of `m`. */
  lemma OtherMessageNoDelivery(subs: map<U32, seq<Handler>>, m': Message, p: nat, m: Message)
    requires m' != m
    ensures multiset(Deliveries(subs, m'))[Deliver(p, m)] == 0
  {
    var d := Deliveries(subs, m');
    assert forall i :: 0 <= i < |d| ==> d[i].msg == m';
    assert Deliver(p, m) !in d;
  }

  /** Consuming a stream delivers `m` to plugin `p` once per queued copy of
      `m` and per handler bound to `p` in `m`'s type list. */
  lemma {:induction false} TraceCount(subs: map<U32, seq<Handler>>, q: seq<Message>, p: nat, m: Message)
    ensures multiset(TraceOf(subs, q))[Deliver(p, m)]
            == multiset(q)[m] * multiset(HandlersFor(subs, m.msgType))[Handler(p)]
  {
    var c := multiset(HandlersFor(subs, m.msgType))[Handler(p)];
    if q != [] {
      var head, tail := q[0], q[1..];
      TraceCount(subs, tail, p, m);
      assert q == [head] + tail;
      var rest := multiset(tail)[m];
      var here := multiset(Deliveries(subs, head))[Deliver(p, m)];
      assert multiset(TraceOf(subs, q)) == multiset(Deliveries(subs, head)) + multiset(TraceOf(subs, tail));
      assert multiset(TraceOf(subs, q))[Deliver(p, m)] == here + rest * c;
      if head == m {
        DeliveryCount(subs, m, p);
        assert multiset(q)[m] == rest + 1;
        MulSucc(rest, c);
      } else {
        OtherMessageNoDelivery(subs, head, p, m);
        assert multiset(q)[m] == rest;
      }
    }
  }

  lemma MulSucc(a: nat, c: nat)
    ensures (a + 1) * c == a * c + c
  {
  }

  /** The messages of all buffers, in buffer index order and each buffer in
      FIFO order: the order a dispatch pass consumes them in. */
  function Queued(bufs: seq<RingBuffer.Ring>): seq<Message>
    requires forall i :: 0 <= i < |bufs| ==> RingBuffer.Valid(bufs[i])
  {
    if bufs == [] then [] else RingBuffer.Contents(bufs[0]) + Queued(bufs[1..])
  }

  lemma {:induction false} TraceOfConcat(subs: map<U32, seq<Handler>>, q1: seq<Message>, q2: seq<Message>)
    ensures TraceOf(subs, q1 + q2) == TraceOf(subs, q1) + TraceOf(subs, q2)
  {
    if q1 != [] {
      assert (q1 + q2)[1..] == q1[1..] + q2;
      TraceOfConcat(subs, q1[1..], q2);
    } else {
      assert q1 + q2 == q2;
    }
  }

  /** The trace of a pass is the trace of consuming every queued message
      in the order the pass pops them. */
  lemma {:induction false} PassTraceIsTraceOfQueued(subs: map<U32, seq<Handler>>, bufs: seq<RingBuffer.Ring>)
    requires forall i :: 0 <= i < |bufs| ==> RingBuffer.Valid(bufs[i])
    ensures PassTrace(subs, bufs) == TraceOf(subs, Queued(bufs))
  {
    if bufs != [] {
      PassTraceIsTraceOfQueued(subs, bufs[1..]);
      TraceOfConcat(subs, RingBuffer.Contents(bufs[0]), Queued(bufs[1..]));
    }
  }

  lemma {:induction false} QueuedMember(bufs: seq<RingBuffer.Ring>, m: Message)
    requires forall i :: 0 <= i < |bufs| ==> RingBuffer.Valid(bufs[i])
    ensures m in Queued(bufs) <==> exists i :: 0 <= i < |bufs| && m in RingBuffer.Contents(bufs[i])
  {
    if bufs != [] {
      QueuedMember(bufs[1..], m);
      if m in Queued(bufs[1..]) {
        var i :| 0 <= i < |bufs[1..]| && m in RingBuffer.Contents(bufs[1..][i]);
        assert m in RingBuffer.Contents(bufs[i + 1]);
      }
      if exists i :: 0 <= i < |bufs| && m in RingBuffer.Contents(bufs[i]) {
        var i :| 0 <= i < |bufs| && m in RingBuffer.Contents(bufs[i]);
        if i > 0 {
          assert m in RingBuffer.Contents(bufs[1..][i - 1]);
        }
      }
    }
  }

  /** In one dispatch pass plugin `p` receives `m` exactly when `m` is
      queued in some buffer and a handler bound to `p` is subscribed to
      `m`'s type. */
  lemma PassDeliveredIff(subs: map<U32, seq<Handler>>, bufs: seq<RingBuffer.Ring>, p: nat, m: Message)
    requires forall i :: 0 <= i < |bufs| ==> RingBuffer.Valid(bufs[i])
    ensures Deliver(p, m) in PassTrace(subs, bufs)
            <==> (exists i :: 0 <= i < |bufs| && m in RingBuffer.Contents(bufs[i]))
                 && Handler(p) in HandlersFor(subs, m.msgType)
  {
    PassTraceIsTraceOfQueued(subs, bufs);
    DeliveredIff(subs, Queued(bufs), p, m);
    QueuedMember(bufs, m);
  }

  /** In one dispatch pass plugin `p` receives `m` once per queued copy of
      `m` (over all buffers) per handler bound to `p` in `m`'s type list:
      exactly once per publish for a plugin subscribed to the type once. */
  lemma PassDeliveryCount(subs: map<U32, seq<Handler>>, bufs: seq<RingBuffer.Ring>, p: nat, m: Message)
    requires forall i :: 0 <= i < |bufs| ==> RingBuffer.Valid(bufs[i])
    ensures multiset(PassTrace(subs, bufs))[Deliver(p, m)]
            == multiset(Queued(bufs))[m] * multiset(HandlersFor(subs, m.msgType))[Handler(p)]
  {
    PassTraceIsTraceOfQueued(subs, bufs);
    TraceCount(subs, Queued(bufs), p, m);
  }

  /** The subscription table after registering A for {1, 2} and then B for
      {2}: type 2 lists A's handler then B's, type 1 only A's. */
  lemma ScenarioSubscribers(k0: State, a: Plugin, b: Plugin, typesA: seq<U32>, typesB: seq<U32>)
    requires Valid(k0) && k0.subscribers == map[] && k0.nextId == 1
    requires typesA == [1, 2] && typesB == [2]
    ensures var ra := Register(k0, a, typesA);
            var rb := Register(ra.kernel, b, typesB);
            && ra.id == 1 && rb.id == 2
            && HandlersFor(rb.kernel.subscribers, 2) == [Handler(1), Handler(2)]
            && HandlersFor(rb.kernel.subscribers, 1) == [Handler(1)]
  {
  }

  /** Register A for types {1, 2} and B for type {2}, publish a type-2
      message from A and run one pass: A and B each receive it once, in
      registration order, and nothing else is delivered. */
  method TwoSubscriberScenario(capacity: nat, blank: Message, a: Plugin, b: Plugin, payload: seq<bv8>)
    returns (posted: bool, trace: seq<Event>)
    requires capacity > 0
    ensures posted
    ensures trace == [Deliver(1, Message(2, payload)), Deliver(2, Message(2, payload))]
  {
    var m := Message(2, payload);
    var typesA: seq<U32> := [1, 2];
    var typesB: seq<U32> := [2];
    var k0 := Initial(capacity, blank);
    var ra := Register(k0, a, typesA);
    var rb := Register(ra.kernel, b, typesB);
    ScenarioSubscribers(k0, a, b, typesA, typesB);
    var subs := rb.kernel.subscribers;
    var post := PostMessage(rb.kernel, ra.id, m);
    posted := post.ok;
    var k2 := post.kernel;
    ghost var bufs := k2.inBuffers;
    assert RingBuffer.Contents(bufs[0]) == [m];
    assert RingBuffer.Contents(bufs[1]) == [];
    var k3;
    k3, trace := DispatchPass(k2);
    assert Deliveries(subs, m) == [Deliver(1, m), Deliver(2, m)];
    assert TraceOf(subs, [m]) == Deliveries(subs, m);
    assert PassTrace(subs, bufs[2..]) == [];
    assert PassTrace(subs, bufs[1..]) == [];
  }
}
