/** One pass of the worker loop: every input buffer, in index order, is
    drained by repeated pops, and each popped message is handed to every
    handler subscribed to its type, in list order. The worker threads, the
    `running` flag and the yield between passes are not modelled. */
module Dispatch {
  import opened Messages
  import opened Wrappers
  import RingBuffer
  import opened Kernel

  /** One call per handler of `hs`, in list order, each to the plugin the
      handler is bound to. */
  function Calls(hs: seq<Handler>, m: Message): (d: seq<Event>)
    ensures |d| == |hs|
  {
    seq(|hs|, i requires 0 <= i < |hs| => Deliver(hs[i].pluginId, m))
  }

  /** The deliveries one message causes: one per handler in its type's
      list, in list order; none when the type has no list. */
  function Deliveries(subs: map<U32, seq<Handler>>, m: Message): seq<Event>
  {
    Calls(HandlersFor(subs, m.msgType), m)
  }

  /** The deliveries caused by consuming the messages `q` in order. */
  function TraceOf(subs: map<U32, seq<Handler>>, q: seq<Message>): seq<Event>
  {
    if q == [] then [] else Deliveries(subs, q[0]) + TraceOf(subs, q[1..])
  }

  /** The reference trace of a pass: the buffers' contents traced in buffer
      index order, each buffer in FIFO order. */
  function PassTrace(subs: map<U32, seq<Handler>>, bufs: seq<RingBuffer.Ring>): seq<Event>
    requires forall i :: 0 <= i < |bufs| ==> RingBuffer.Valid(bufs[i])
  {
    if bufs == [] then []
    else TraceOf(subs, RingBuffer.Contents(bufs[0])) + PassTrace(subs, bufs[1..])
  }

  lemma {:induction false} TraceOfSnoc(subs: map<U32, seq<Handler>>, q: seq<Message>, m: Message)
    ensures TraceOf(subs, q + [m]) == TraceOf(subs, q) + Deliveries(subs, m)
  {
    if q == [] {
      assert [m][1..] == [];
    } else {
      assert (q + [m])[1..] == q[1..] + [m];
      TraceOfSnoc(subs, q[1..], m);
    }
  }

  lemma {:induction false} PassTraceSnoc(subs: map<U32, seq<Handler>>, bufs: seq<RingBuffer.Ring>, b: RingBuffer.Ring)
    requires forall i :: 0 <= i < |bufs| ==> RingBuffer.Valid(bufs[i])
    requires RingBuffer.Valid(b)
    ensures PassTrace(subs, bufs + [b]) == PassTrace(subs, bufs) + TraceOf(subs, RingBuffer.Contents(b))
  {
    if bufs == [] {
      assert [b][1..] == [];
    } else {
      assert (bufs + [b])[1..] == bufs[1..] + [b];
      PassTraceSnoc(subs, bufs[1..], b);
    }
  }

  /** The innermost loop of `run_loop`: looks the message's type up and
      calls every handler in its list, in order; a type with no list is
      consumed without a call. */
  method InvokeHandlers(subs: map<U32, seq<Handler>>, msg: Message) returns (calls: seq<Event>)
    ensures calls == Deliveries(subs, msg)
  {
    calls := [];
    if msg.msgType in subs {
      var handlers := subs[msg.msgType];
      for h := 0 to |handlers|
        invariant calls == Deliveries(subs, msg)[..h]
      {
        calls := calls + [Deliver(handlers[h].pluginId, msg)];
      }
    }
  }

  /** The middle loop of `run_loop`: pops one buffer until it is empty and
      dispatches each popped message. The buffer ends empty with only its
      `tail` moved (up to `head`), and the calls are the reference trace of
      its contents in FIFO order. */
  method DrainBuffer(subs: map<U32, seq<Handler>>, buf: RingBuffer.Ring)
    returns (drained: RingBuffer.Ring, calls: seq<Event>)
    requires RingBuffer.Valid(buf)
    ensures RingBuffer.Valid(drained) && RingBuffer.Contents(drained) == []
    ensures drained == buf.(tail := buf.head)
    ensures calls == TraceOf(subs, RingBuffer.Contents(buf))
  {
    ghost var q := RingBuffer.Contents(buf);
    ghost var n := 0;
    drained := buf;
    calls := [];
    var popped := RingBuffer.Pop(drained);
    while popped.msg.Some?
      invariant RingBuffer.Valid(drained)
      invariant drained.slots == buf.slots && drained.head == buf.head
      invariant 0 <= n <= |q| && RingBuffer.Contents(drained) == q[n..]
      invariant drained.tail == buf.tail + n
      invariant popped == RingBuffer.Pop(drained)
      invariant calls == TraceOf(subs, q[..n])
      decreases |RingBuffer.Contents(drained)|
    {
      var msg := popped.msg.value;
      var more := InvokeHandlers(subs, msg);
      calls := calls + more;
      assert q[..n + 1] == q[..n] + [msg];
      TraceOfSnoc(subs, q[..n], msg);
      drained := popped.ring;
      n := n + 1;
      popped := RingBuffer.Pop(drained);
    }
    assert q[..n] == q;
  }

  /** One iteration of `run_loop`: drains every buffer in index order.
      Afterwards every buffer is empty (only its `tail` moved, up to
      `head`), the registry and subscription table are unchanged, and the
      deliveries are exactly the reference trace of the buffers' contents. */
  method DispatchPass(k: State) returns (k': State, trace: seq<Event>)
    requires Valid(k)
    ensures Valid(k')
    ensures k'.plugins == k.plugins && k'.subscribers == k.subscribers && k'.nextId == k.nextId
    ensures k'.capacity == k.capacity && k'.blank == k.blank
    ensures |k'.inBuffers| == |k.inBuffers|
    ensures forall i :: 0 <= i < |k.inBuffers| ==> RingBuffer.Contents(k'.inBuffers[i]) == []
    ensures forall i :: 0 <= i < |k.inBuffers| ==>
                        k'.inBuffers[i] == k.inBuffers[i].(tail := k.inBuffers[i].head)
    ensures trace == PassTrace(k.subscribers, k.inBuffers)
  {
    var bufs := k.inBuffers;
    trace := [];
    var i := 0;
    while i < |bufs|
      invariant 0 <= i <= |bufs| == |k.inBuffers|
      invariant forall j :: 0 <= j < i ==> bufs[j] == k.inBuffers[j].(tail := k.inBuffers[j].head)
      invariant bufs[i..] == k.inBuffers[i..]
      invariant trace == PassTrace(k.subscribers, k.inBuffers[..i])
    {
      assert bufs[i] == k.inBuffers[i];
      var drained, calls := DrainBuffer(k.subscribers, bufs[i]);
      trace := trace + calls;
      assert k.inBuffers[..i + 1] == k.inBuffers[..i] + [k.inBuffers[i]];
      PassTraceSnoc(k.subscribers, k.inBuffers[..i], k.inBuffers[i]);
      bufs := bufs[i := drained];
      i := i + 1;
    }
    assert k.inBuffers[..i] == k.inBuffers;
    k' := k.(inBuffers := bufs);
  }
}
