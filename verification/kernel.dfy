/** The kernel's registry, subscription table and per-plugin input queues,
    with plugin registration and message posting as pure step functions.
    Calls into plugin code (`init`, `start`, `handle_message`) are recorded
    as events instead of being executed. */
module Kernel {
  import opened Messages
  import RingBuffer

  /** An opaque plugin instance; the kernel only stores and calls it. */
  datatype Plugin = Plugin(name: string)

  /** A subscription entry: the closure bound to a plugin id that forwards a
      message to that plugin's `handle_message`. */
  datatype Handler = Handler(pluginId: nat)

  /** A recorded call from the kernel into a plugin. */
  datatype Event = Init(id: nat) | Start(id: nat) | Deliver(id: nat, msg: Message)

  /** The kernel's bus state. `capacity` is the ring SIZE shared by every
      input buffer and `blank` the value-initialised message a new ring's
      slots hold. */
  datatype State = State(
    capacity: nat,
    blank: Message,
    plugins: map<nat, Plugin>,
    subscribers: map<U32, seq<Handler>>,
    inBuffers: seq<RingBuffer.Ring>,
    nextId: nat)

  /** The invariant registration keeps: ids 1 .. nextId-1 are issued, each
      owns one input buffer (id i owns inBuffers[i-1]), every buffer is a
      valid ring of the common capacity, and every handler is bound to an
      issued id. */
  predicate Valid(k: State) {
    && k.capacity > 0
    && k.nextId == |k.inBuffers| + 1
    && (forall id :: id in k.plugins ==> 1 <= id < k.nextId)
    && (forall id :: 1 <= id < k.nextId ==> id in k.plugins)
    && (forall i :: 0 <= i < |k.inBuffers| ==> RingBuffer.Valid(k.inBuffers[i]))
    && (forall i :: 0 <= i < |k.inBuffers| ==> |k.inBuffers[i].slots| == k.capacity)
    && (forall t, h :: t in k.subscribers && h in k.subscribers[t] ==> 1 <= h.pluginId < k.nextId)
  }

  /** A newly constructed kernel: no plugins, no subscriptions, next id 1. */
  function Initial(capacity: nat, blank: Message): (k: State)
    requires capacity > 0
    ensures Valid(k) && k.nextId == 1 && k.inBuffers == []
    ensures k.plugins == map[] && k.subscribers == map[]
    ensures k.capacity == capacity && k.blank == blank
  {
    State(capacity, blank, map[], map[], [], 1)
  }

  /** The handler list for type `t`; a type with no entry has none. */
  function HandlersFor(subs: map<U32, seq<Handler>>, t: U32): seq<Handler> {
    if t in subs then subs[t] else []
  }

  function Repeat(h: Handler, n: nat): (hs: seq<Handler>)
    ensures |hs| == n && forall i :: 0 <= i < n ==> hs[i] == h
  {
    seq(n, _ => h)
  }

  /** Appends `h` to the list of every type in `types`, in order, creating
      the lists that do not exist yet. */
  function AppendHandlers(subs: map<U32, seq<Handler>>, types: seq<U32>, h: Handler)
    : (r: map<U32, seq<Handler>>)
    ensures r.Keys == subs.Keys + set t | t in types
    decreases |types|
  {
    if types == [] then subs
    else
      var t0 := types[0];
      assert types == [t0] + types[1..];
      AppendHandlers(subs[t0 := HandlersFor(subs, t0) + [h]], types[1..], h)
  }

  /** Each type's list grows by one copy of `h` per occurrence of the type
      in `types` (so duplicates give duplicate handlers and the lists grow
      by |types| entries in all); existing entries keep their order. */
  lemma {:induction false} AppendHandlersCounts(subs: map<U32, seq<Handler>>, types: seq<U32>, h: Handler)
    ensures forall t :: HandlersFor(AppendHandlers(subs, types, h), t)
                        == HandlersFor(subs, t) + Repeat(h, multiset(types)[t])
    decreases |types|
  {
    if types != [] {
      var t0, rest := types[0], types[1..];
      assert types == [t0] + rest;
      var subs1 := subs[t0 := HandlersFor(subs, t0) + [h]];
      AppendHandlersCounts(subs1, rest, h);
      forall t
        ensures HandlersFor(AppendHandlers(subs, types, h), t)
                == HandlersFor(subs, t) + Repeat(h, multiset(types)[t])
      {
        assert multiset(types)[t] == multiset(rest)[t] + (if t == t0 then 1 else 0);
        if t == t0 {
          assert HandlersFor(subs1, t) == HandlersFor(subs, t) + [h];
          assert [h] + Repeat(h, multiset(rest)[t]) == Repeat(h, multiset(types)[t]);
        } else {
          assert HandlersFor(subs1, t) == HandlersFor(subs, t);
        }
      }
    }
  }

  datatype Registered = Registered(kernel: State, id: nat, events: seq<Event>)

  /** `register_plugin`: issues the next id, stores the plugin, appends one
      empty input buffer, subscribes a handler bound to the id once per
      requested type, then calls `init` and `start` in that order. */
  function Register(k: State, p: Plugin, types: seq<U32>): (res: Registered)
    requires Valid(k)
    ensures Valid(res.kernel)
    ensures res.id == k.nextId && res.kernel.nextId == k.nextId + 1
    ensures res.kernel.capacity == k.capacity && res.kernel.blank == k.blank
    ensures res.kernel.plugins == k.plugins[res.id := p] && res.id !in k.plugins
    ensures res.kernel.inBuffers == k.inBuffers + [RingBuffer.Empty(k.capacity, k.blank)]
    ensures RingBuffer.Contents(res.kernel.inBuffers[res.id - 1]) == []
    ensures res.kernel.subscribers.Keys == k.subscribers.Keys + set t | t in types
    ensures forall t :: HandlersFor(res.kernel.subscribers, t)
                        == HandlersFor(k.subscribers, t) + Repeat(Handler(res.id), multiset(types)[t])
    ensures res.events == [Init(res.id), Start(res.id)]
  {
    var id := k.nextId;
    var subs := AppendHandlers(k.subscribers, types, Handler(id));
    AppendHandlersCounts(k.subscribers, types, Handler(id));
    var k' := State(k.capacity, k.blank, k.plugins[id := p], subs,
                    k.inBuffers + [RingBuffer.Empty(k.capacity, k.blank)], id + 1);
    assert forall t, h :: t in subs && h in subs[t] ==> 1 <= h.pluginId < id + 1 by {
      forall t, h | t in subs && h in subs[t]
        ensures 1 <= h.pluginId < id + 1
      {
        assert subs[t] == HandlersFor(k.subscribers, t) + Repeat(Handler(id), multiset(types)[t]);
      }
    }
    Registered(k', id, [Init(id), Start(id)])
  }

  datatype Posted = Posted(ok: bool, kernel: State)

  /** `post_message`: pushes the message into the sender's own input buffer
      `inBuffers[sender - 1]`. The source indexes without a range check, so
      the sender must be an issued id. */
  function PostMessage(k: State, sender: nat, m: Message): (res: Posted)
    requires Valid(k)
    requires 1 <= sender <= |k.inBuffers|
    ensures Valid(res.kernel)
    ensures res.ok <==> |RingBuffer.Contents(k.inBuffers[sender - 1])| < k.capacity
    ensures !res.ok ==> res.kernel == k
    ensures |res.kernel.inBuffers| == |k.inBuffers|
    ensures res.ok ==> RingBuffer.Contents(res.kernel.inBuffers[sender - 1])
                       == RingBuffer.Contents(k.inBuffers[sender - 1]) + [m]
    ensures forall i :: 0 <= i < |k.inBuffers| && i != sender - 1 ==>
                        res.kernel.inBuffers[i] == k.inBuffers[i]
    ensures res.kernel.plugins == k.plugins && res.kernel.subscribers == k.subscribers
    ensures res.kernel.nextId == k.nextId
    ensures res.kernel.capacity == k.capacity && res.kernel.blank == k.blank
  {
    var pushed := RingBuffer.Push(k.inBuffers[sender - 1], m);
    Posted(pushed.ok, k.(inBuffers := k.inBuffers[sender - 1 := pushed.ring]))
  }
}
