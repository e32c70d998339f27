# Microkernel message bus — Dafny model

This project models the core of a plugin message bus written in C++: the
bounded single-producer/single-consumer queue `RingBuffer<SIZE>` and the
`Kernel` operations that plugins use to join the bus. Those operations are
plugin registration (`register_plugin`), publishing (`post_message`) and one
drain-and-dispatch pass of the worker loop (`run_loop`). Everything is
sequential and purely functional: immutable datatypes with step functions,
proved against an abstract FIFO and an abstract delivery trace.

- `messages.dfy` (`Messages`): the message record. It holds a 32-bit type tag
  and an opaque byte payload. Its C++ definition, kernel/model.hpp, is not
  part of this model.
- `ring_buffer.dfy` (`RingBuffer`): the ring as a slot sequence (its length
  is SIZE) plus unbounded `nat` counters `head` and `tail`. It defines the
  invariant `0 <= head - tail <= SIZE`, the abstraction function `Contents`
  (slots `tail mod SIZE` up to `head mod SIZE`), `Push` and `Pop`.
- `ring_buffer_properties.dfy` (`RingBufferProperties`): FIFO order over
  sequences of pushes and pops, and the capacity boundary.
- `kernel.dfy` (`Kernel`): the kernel state. Plugins are kept by id, the
  subscription table maps each type to an ordered handler list, and there is
  one input ring per plugin plus the next-id counter. `Register` and
  `PostMessage` are step functions on this state. A handler closure is
  represented by the plugin id it captures. Calls into plugin code (`init`,
  `start`, `handle_message`) come back as recorded events
  (`Init`, `Start`, `Deliver`).
- `dispatch.dfy` (`Dispatch`): one pass of the worker loop. It is written as
  three methods that follow the source's three nested loops, and it is proved
  equal to a reference trace (`PassTrace`/`TraceOf`/`Deliveries`) defined over
  the abstract queue contents.
- `kernel_properties.dfy` (`KernelProperties`): dense id issue over a run of
  registrations, the lifecycle-event order, who receives a message, and the
  two-subscriber scenario.

`post_message` (kernel/include/kernel/kernel.hpp:76-78) indexes
`in_buffers[sender_id - 1]` with no range check. Sender 0, or an id that was
never issued, is undefined behaviour rather than a failure, so
`Kernel.PostMessage` requires `1 <= sender <= |inBuffers|`.
`register_plugin` (kernel/include/kernel/kernel.hpp:63-74) accepts any vector
of types, including an empty one or one with duplicates, and so does
`Kernel.Register`.

## Model

| member | source | states |
|---|---|---|
| RingBuffer.Empty | kernel/include/kernel/ring_buffer.hpp:6-7 | a new ring has both counters at 0, satisfies the invariant and holds no messages |
| RingBuffer.Push | kernel/include/kernel/ring_buffer.hpp:10-16 | push refuses exactly when the ring already holds SIZE messages, and then changes nothing; otherwise it writes slot head mod SIZE, advances head by one, leaves tail and every other slot alone, appends the message to the abstract FIFO, and keeps the invariant |
| RingBuffer.Pop | kernel/include/kernel/ring_buffer.hpp:17-23 | pop refuses exactly when the ring is empty, and then changes nothing; otherwise it returns the oldest queued message, advances tail by one, leaves head and the slots alone, leaves the rest of the FIFO queued, and keeps the invariant |
| RingBuffer.WriteAtHeadAppends | kernel/include/kernel/ring_buffer.hpp:13-14 | when the ring is not full, slot head mod SIZE holds no queued message, so writing it and advancing head appends exactly one message |
| RingBufferProperties.PushAllAppends | kernel/include/kernel/ring_buffer.hpp:10-16 | pushing a run of messages that fits into the free space succeeds every time and appends the run, in order |
| RingBufferProperties.PopNTakesPrefix | kernel/include/kernel/ring_buffer.hpp:17-23 | popping k times, with k at most the queued count, returns the k oldest messages in order and leaves the rest queued |
| RingBufferProperties.FifoRoundTrip | kernel/include/kernel/ring_buffer.hpp:10-23 | from an empty ring, pushing m1..mk (k <= SIZE) and then popping k times returns m1..mk in order and leaves the ring empty |
| RingBufferProperties.CapacityBoundary | kernel/include/kernel/ring_buffer.hpp:12 | from an empty ring, SIZE pushes succeed and push SIZE+1 fails without change; one pop then returns the first message and makes room for one more push |
| RingBufferProperties.PopFreshFails | kernel/include/kernel/ring_buffer.hpp:17-19 | pop on a ring nothing was pushed into fails and leaves it unchanged |
| Kernel.Initial | kernel/include/kernel/kernel.hpp:91-95 | a new kernel has no plugins, no buffers and next id 1, and satisfies the registry invariant |
| Kernel.AppendHandlersCounts | kernel/include/kernel/kernel.hpp:68-71 | the subscription loop (`AppendHandlers`) appending a handler under a list of types grows each type's list by one copy per occurrence of the type: duplicates give duplicate handlers, |types| handlers are added in all, other types' lists are unchanged, and existing entries keep their order |
| Kernel.Register | kernel/include/kernel/kernel.hpp:63-74 | registration issues id next_plugin_id and increments the counter, stores the plugin under the fresh id, appends one empty buffer (owned by that id at index id-1), appends handlers bound to the id as above, records exactly init(id) then start(id) with no handler call, and keeps the registry invariant |
| Kernel.PostMessage | kernel/include/kernel/kernel.hpp:76-78 | posting from sender s behaves as a push onto buffer s-1, the sender's own buffer: it fails exactly when that buffer is full and then changes nothing; otherwise it appends the message to that buffer's FIFO; every other buffer, the registry and the subscriptions are unchanged |
| Dispatch.InvokeHandlers | kernel/include/kernel/kernel.hpp:43-48 | a popped message is delivered once per handler in its type's list, in list order, to the handler's plugin; a type with no list produces no call |
| Dispatch.DrainBuffer | kernel/include/kernel/kernel.hpp:42-49 | draining one buffer empties it by moving only tail up to head, and its calls are the deliveries of its queued messages in FIFO order |
| Dispatch.DispatchPass | kernel/include/kernel/kernel.hpp:41-50 | one pass leaves every buffer empty and changes neither the registry nor the subscriptions; its calls are the concatenation, over buffers in index order and over each buffer's messages in FIFO order, of one delivery per subscribed handler in list order |
| KernelProperties.RegisterAllDense | kernel/include/kernel/kernel.hpp:65-67 | the j-th of a run of registrations uses id next_plugin_id + j; the counter only grows, and each registration adds exactly one buffer |
| KernelProperties.RegisterAllLifecycle | kernel/include/kernel/kernel.hpp:72-73 | the only calls into plugin code during a run of registrations are init then start of each new plugin, in registration order |
| KernelProperties.IdsStartAtOne | kernel/include/kernel/kernel.hpp:95 | from a fresh kernel the k-th registration gets id k, and the buffer count equals next_plugin_id - 1 |
| KernelProperties.UnsubscribedProducesNothing | kernel/include/kernel/kernel.hpp:43-44 | messages whose type has no subscriber list are consumed without any delivery |
| KernelProperties.DeliveredIff | kernel/include/kernel/kernel.hpp:43-47 | plugin p receives message m while a stream is consumed if and only if m is in the stream and a handler bound to p is subscribed to m's type |
| KernelProperties.DeliveryCount | kernel/include/kernel/kernel.hpp:45-47 | a consumed message reaches plugin p exactly as many times as handlers bound to p are in its type's list, so a plugin subscribed once to a type gets each message of that type exactly once |
| KernelProperties.TraceCount | kernel/include/kernel/kernel.hpp:42-47 | consuming a stream delivers m to plugin p once per copy of m in the stream times the number of handlers bound to p in m's type list |
| KernelProperties.PassTraceIsTraceOfQueued | kernel/include/kernel/kernel.hpp:41-50 | a pass delivers exactly what consuming all queued messages does, taken in buffer index order and FIFO order within each buffer |
| KernelProperties.PassDeliveredIff | kernel/include/kernel/kernel.hpp:41-48 | in one pass plugin p receives m if and only if m is queued in some buffer and a handler bound to p is subscribed to m's type |
| KernelProperties.PassDeliveryCount | kernel/include/kernel/kernel.hpp:41-48 | in one pass plugin p receives m once per queued copy of m over all buffers times p's handlers for m's type, so a plugin subscribed once to a type gets each published message of that type exactly once |
| KernelProperties.ScenarioSubscribers | kernel/include/kernel/kernel.hpp:68-71 | after registering A for types {1, 2} and then B for {2}, type 2 lists A's handler then B's, and type 1 lists only A's |
| KernelProperties.TwoSubscriberScenario | kernel/include/kernel/kernel.hpp:41-78 | with A on {1, 2} and B on {2}, a type-2 message published by A is accepted, and one pass delivers it exactly once to A and then once to B, and nothing else |

## Left out

- Worker threads, `set_affinity`, `std::this_thread::yield` and the `running` flag (kernel/include/kernel/kernel.hpp:21-29, 38-40, 51, 81-87, 94): these are concurrency and OS plumbing. The flag is never cleared, so the model covers one iteration of the loop, not the unbounded loop.
- Interleaving of registration with dispatch: the model treats each `register_plugin` call as atomic with respect to dispatch passes, and the program does not guarantee this. `Kernel::init` starts the `run_loop` workers (kernel/include/kernel/kernel.hpp:24-29) before it loads the plugins (kernel/include/kernel/kernel.hpp:31-35), and loading is what calls `register_plugin`. So a worker can call a handler appended at kernel/include/kernel/kernel.hpp:69 before that plugin's `init()` runs at kernel/include/kernel/kernel.hpp:72. Workers can also iterate `in_buffers` and `subscribers` while registration mutates them. "No handler is invoked during registration" in `Kernel.Register` and `KernelProperties.RegisterAllLifecycle` refers only to the calls `register_plugin` itself makes.
- Acquire/release memory ordering on `head` and `tail`: it has no sequential meaning. Several workers popping the same ring concurrently would break its single-consumer discipline; that is a concurrency defect and is not modelled.
- `Kernel::init` and `load_plugin` (directory scan, `dlopen`/`dlsym`) and `PluginManager` in kernel/src/main.cpp: filesystem and dynamic-loading glue.
- ConfigManager (kernel/src/ConfigManager.cpp, kernel/include/kernel/ConfigManager.hpp): file I/O and JSON lookup.
- kernel/include/kernel/PluginInterface.hpp and plugins/plugin2/plugin2.cpp: an interface declaration and a print statement, with no bus logic.
- The `monotonic_buffer_resource` arena: it is declared but no container uses it.
- The concrete capacity `1'000'000`: SIZE is any positive slot count (the length of `Ring.slots`, shared by all buffers through `State.capacity`).
- Machine-width wrap-around of the `size_t` ring counters and the `uint64_t` id counter: all are unbounded `nat`.
- The bodies of plugin hooks and handlers: `init`, `start` and `handle_message` are recorded as events. Their own effects are not modelled, including a handler that posts back into the bus during a pass.
- Exceptions from plugin code: `init`, `start`, `handle_message` and the handler closures are assumed to return normally. Neither `register_plugin` (kernel/include/kernel/kernel.hpp:66-73) nor `run_loop` (kernel/include/kernel/kernel.hpp:41-50) catches anything. A throwing `init` would leave the plugin stored, given a buffer and subscribed, but never started. A throwing handler would escape `run_loop` and its `std::jthread` (kernel/include/kernel/kernel.hpp:25-28), which calls `std::terminate` and aborts the whole process. Plugin code is not visible, so the model cannot say when it throws. `Register` therefore always records `init` then `start`, and a pass always runs to completion.
- The initial contents of a ring's slots: the value-initialised `Message` is not visible, so it is a parameter (`blank`). No operation ever reads it, because pop only reads slots that a push has written.
- RingBuffer.Pop: on failure, `pop` leaves its out-parameter untouched; the model returns `None` instead of an unchanged message.
