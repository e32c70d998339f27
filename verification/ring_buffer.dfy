/** The bounded single-producer/single-consumer queue `RingBuffer<SIZE>`,
    as a sequential state machine. SIZE is the length of the slot array;
    `head` and `tail` are unbounded counters reduced mod SIZE to address a
    slot. The atomic loads and stores carry no sequential meaning and are
    plain field reads and writes here. */
module RingBuffer {
  import opened Messages
  import opened Wrappers

  /** The slot array `buffer` (its length is SIZE), the next write index
      `head` and the next read index `tail`. */
  datatype Ring = Ring(slots: seq<Message>, head: nat, tail: nat)

  /** What every reachable ring satisfies: a positive SIZE and
      0 <= head - tail <= SIZE. */
  predicate Valid(r: Ring) {
    |r.slots| > 0 && r.tail <= r.head <= r.tail + |r.slots|
  }

  /** The abstract FIFO content, oldest message first: the slots from
      `tail mod SIZE` up to (not including) `head mod SIZE`. */
  function Contents(r: Ring): seq<Message>
    requires Valid(r)
  {
    seq(r.head - r.tail, i => r.slots[(r.tail + i) % |r.slots|])
  }

  /** A freshly constructed ring: both counters zero, every slot holding the
      value-initialised message `blank`. */
  function Empty(size: nat, blank: Message): (r: Ring)
    requires size > 0
    ensures Valid(r) && |r.slots| == size
    ensures r.head == 0 && r.tail == 0
    ensures Contents(r) == []
  {
    Ring(seq(size, _ => blank), 0, 0)
  }

  datatype Pushed = Pushed(ok: bool, ring: Ring)

  /** `push`: refuses when `head - tail >= SIZE`, otherwise stores the
      message at slot `head mod SIZE` and advances `head`. */
  function Push(r: Ring, m: Message): (res: Pushed)
    requires Valid(r)
    ensures Valid(res.ring) && |res.ring.slots| == |r.slots|
    ensures res.ok <==> |Contents(r)| < |r.slots|
    ensures !res.ok ==> res.ring == r
    ensures res.ok ==> res.ring.head == r.head + 1 && res.ring.tail == r.tail
    ensures res.ok ==> res.ring.slots[r.head % |r.slots|] == m
    ensures res.ok ==> forall j :: 0 <= j < |r.slots| && j != r.head % |r.slots| ==>
                                   res.ring.slots[j] == r.slots[j]
    ensures res.ok ==> Contents(res.ring) == Contents(r) + [m]
  {
    if r.head - r.tail >= |r.slots| then
      Pushed(false, r)
    else
      WriteAtHeadAppends(r, m);
      Pushed(true, Ring(r.slots[r.head % |r.slots| := m], r.head + 1, r.tail))
  }

  datatype Popped = Popped(msg: Option<Message>, ring: Ring)

  /** `pop`: refuses when `tail == head`, otherwise reads slot
      `tail mod SIZE` and advances `tail`. */
  function Pop(r: Ring): (res: Popped)
    requires Valid(r)
    ensures Valid(res.ring) && |res.ring.slots| == |r.slots|
    ensures res.msg.None? <==> Contents(r) == []
    ensures res.msg.None? ==> res.ring == r
    ensures res.msg.Some? ==> res.ring.tail == r.tail + 1 && res.ring.head == r.head
    ensures res.msg.Some? ==> res.ring.slots == r.slots
    ensures res.msg.Some? ==> res.msg.value == Contents(r)[0]
    ensures res.msg.Some? ==> Contents(res.ring) == Contents(r)[1..]
  {
    if r.tail == r.head then
      Popped(None, r)
    else
      Popped(Some(r.slots[r.tail % |r.slots|]), Ring(r.slots, r.head, r.tail + 1))
  }

  /** Two counters less than SIZE apart address different slots. */
  lemma ModDistinct(a: nat, b: nat, n: nat)
    requires 0 < n && a < b < a + n
    ensures a % n != b % n
  {
    var qa, qb := a / n, b / n;
    assert a == qa * n + a % n && b == qb * n + b % n;
    if a % n == b % n {
      assert b - a == qb * n - qa * n;
      MulDistance(qa, qb, n);
    }
  }

  /** Multiples of `n` are either equal or at least `n` apart. */
  lemma MulDistance(qa: int, qb: int, n: int)
    requires 0 < n
    ensures qb * n - qa * n == 0 || qb * n - qa * n >= n || qa * n - qb * n >= n
  {
    if qb > qa {
      MulStep(qa, qb, n);
    } else if qa > qb {
      MulStep(qb, qa, n);
    }
  }

  lemma MulStep(lo: int, hi: int, n: int)
    requires 0 < n && lo < hi
    ensures hi * n - lo * n >= n
  {
    var d := hi - lo - 1;
    assert hi * n - lo * n == n + d * n;
    assert 0 <= d * n;
  }

  /** Writing at `head mod SIZE` and advancing `head` appends exactly one
      message to the abstract content: no queued slot is overwritten. */
  lemma WriteAtHeadAppends(r: Ring, m: Message)
    requires Valid(r) && r.head - r.tail < |r.slots|
    ensures var r' := Ring(r.slots[r.head % |r.slots| := m], r.head + 1, r.tail);
            Valid(r') && Contents(r') == Contents(r) + [m]
  {
    var n := |r.slots|;
    var r' := Ring(r.slots[r.head % n := m], r.head + 1, r.tail);
    var q, q' := Contents(r), Contents(r');
    forall i | 0 <= i < |q'|
      ensures q'[i] == (q + [m])[i]
    {
      if i < |q| {
        ModDistinct(r.tail + i, r.head, n);
      }
    }
  }
}
