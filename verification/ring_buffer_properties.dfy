/** Properties of the ring buffer over sequences of operations: FIFO order
    and the capacity boundary. */
module RingBufferProperties {
  import opened Messages
  import opened Wrappers
  import opened RingBuffer

  /** Pushes `ms` one after another, reporting the result of each push. */
  function PushAll(r: Ring, ms: seq<Message>): (res: (seq<bool>, Ring))
    requires Valid(r)
    ensures |res.0| == |ms|
    ensures Valid(res.1) && |res.1.slots| == |r.slots|
    decreases |ms|
  {
    if ms == [] then ([], r)
    else
      var p := Push(r, ms[0]);
      var rest := PushAll(p.ring, ms[1..]);
      ([p.ok] + rest.0, rest.1)
  }

  /** Pops `k` times, reporting the result of each pop. */
  function PopN(r: Ring, k: nat): (res: (seq<Option<Message>>, Ring))
    requires Valid(r)
    ensures |res.0| == k
    ensures Valid(res.1) && |res.1.slots| == |r.slots|
    decreases k
  {
    if k == 0 then ([], r)
    else
      var p := Pop(r);
      var rest := PopN(p.ring, k - 1);
      ([p.msg] + rest.0, rest.1)
  }

  /** Pushing messages that fit appends all of them, in order. */
  lemma {:induction false} PushAllAppends(r: Ring, ms: seq<Message>)
    requires Valid(r) && |Contents(r)| + |ms| <= |r.slots|
    ensures forall i :: 0 <= i < |ms| ==> PushAll(r, ms).0[i]
    ensures Contents(PushAll(r, ms).1) == Contents(r) + ms
    decreases |ms|
  {
    if ms != [] {
      var p := Push(r, ms[0]);
      PushAllAppends(p.ring, ms[1..]);
      assert Contents(r) + [ms[0]] + ms[1..] == Contents(r) + ms;
    }
  }

  /** Popping at most as many times as there are queued messages returns
      them oldest first and leaves the rest queued. */
  lemma {:induction false} PopNTakesPrefix(r: Ring, k: nat)
    requires Valid(r) && k <= |Contents(r)|
    ensures forall i :: 0 <= i < k ==> PopN(r, k).0[i] == Some(Contents(r)[i])
    ensures Contents(PopN(r, k).1) == Contents(r)[k..]
    decreases k
  {
    if k > 0 {
      var p := Pop(r);
      PopNTakesPrefix(p.ring, k - 1);
      forall i | 0 <= i < k
        ensures PopN(r, k).0[i] == Some(Contents(r)[i])
      {
        if i > 0 {
          assert PopN(r, k).0[i] == PopN(p.ring, k - 1).0[i - 1];
        }
      }
    }
  }

  /** FIFO: from an empty queue, pushing m1..mk (k <= SIZE) and then popping
      k times yields m1..mk in order and leaves the queue empty. */
  lemma FifoRoundTrip(size: nat, blank: Message, ms: seq<Message>)
    requires 0 < size && |ms| <= size
    ensures var pushed := PushAll(Empty(size, blank), ms);
            var popped := PopN(pushed.1, |ms|);
            && (forall i :: 0 <= i < |ms| ==> pushed.0[i])
            && (forall i :: 0 <= i < |ms| ==> popped.0[i] == Some(ms[i]))
            && Contents(popped.1) == []
  {
    var e := Empty(size, blank);
    PushAllAppends(e, ms);
    var pushed := PushAll(e, ms);
    assert Contents(pushed.1) == ms;
    PopNTakesPrefix(pushed.1, |ms|);
  }

  /** Capacity boundary: from an empty queue, SIZE pushes all succeed, the
      next push fails and changes nothing, and after one pop (which returns
      the first message) one more push succeeds. */
  lemma CapacityBoundary(size: nat, blank: Message, ms: seq<Message>, extra: Message)
    requires 0 < size && |ms| == size
    ensures var full := PushAll(Empty(size, blank), ms);
            && (forall i :: 0 <= i < size ==> full.0[i])
            && Push(full.1, extra) == Pushed(false, full.1)
            && Pop(full.1).msg == Some(ms[0])
            && Push(Pop(full.1).ring, extra).ok
  {
    var e := Empty(size, blank);
    PushAllAppends(e, ms);
  }

  /** Popping a ring nothing was ever pushed into fails and leaves it as it
      was. */
  lemma PopFreshFails(size: nat, blank: Message)
    requires 0 < size
    ensures Pop(Empty(size, blank)) == Popped(None, Empty(size, blank))
  {
  }
}
