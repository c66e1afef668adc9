/**
 * Bounded FIFO queues with zero-wait operations, as the firmware uses FreeRTOS
 * queues: `xQueueSend(q, &x, 0)` either appends at the tail or reports failure
 * at once, and `xQueueReceive(q, &x, 0)` either pops the head or reports that
 * the queue is empty. Neither ever blocks.
 */
module Queues {
  import opened Wrappers

  /** Whether a zero-wait send into `items` succeeds (`pdPASS`). */
  predicate Accepts<T>(items: seq<T>, capacity: nat)
  {
    |items| < capacity
  }

  /** The contents after a zero-wait send of `x`. */
  function Send<T>(items: seq<T>, capacity: nat, x: T): (r: seq<T>)
    // a send never pushes a queue past its capacity
    ensures |items| <= capacity ==> |r| <= capacity
    // a send that fails leaves the queue exactly as it was
    ensures !Accepts(items, capacity) ==> r == items
    // a send that succeeds keeps what was queued and makes x the newest element
    ensures Accepts(items, capacity) ==> |r| == |items| + 1 && r[..|items|] == items && r[|items|] == x
  {
    if |items| < capacity then items + [x] else items
  }

  /** What a zero-wait receive delivers, and what stays queued. */
  datatype Received<T> = Received(msg: Option<T>, rest: seq<T>)

  /** The outcome of a zero-wait receive on `items`. */
  function Receive<T>(items: seq<T>): (r: Received<T>)
    // an empty queue delivers nothing and is left unchanged
    ensures items == [] <==> r.msg.None?
    ensures items == [] ==> r.rest == items
    // otherwise the oldest element is delivered and removed
    ensures items != [] ==> [r.msg.value] + r.rest == items
  {
    if items == [] then Received(None, items) else Received(Some(items[0]), items[1..])
  }

  /** The contents after sending each of `xs` in turn. */
  function SendAll<T>(items: seq<T>, capacity: nat, xs: seq<T>): seq<T>
    decreases |xs|
  {
    if xs == [] then items else SendAll(Send(items, capacity, xs[0]), capacity, xs[1..])
  }

  /** Everything a consumer obtains by receiving until the queue reports empty. */
  function ReceiveAll<T>(items: seq<T>): seq<T>
    decreases |items|
  {
    match Receive(items)
    case Received(None, _) => []
    case Received(Some(x), rest) => [x] + ReceiveAll(rest)
  }

  function Min(a: nat, b: nat): nat
  {
    if a < b then a else b
  }

  /**
   * Sends to a bounded queue keep the oldest elements: of a burst of sends, the
   * ones that find room are kept in order, and every later one is dropped.
   */
  lemma {:induction false} SendAllKeepsOldest<T>(items: seq<T>, capacity: nat, xs: seq<T>)
    requires |items| <= capacity
    ensures SendAll(items, capacity, xs) == items + xs[..Min(|xs|, capacity - |items|)]
    decreases |xs|
  {
    if xs != [] {
      var next := Send(items, capacity, xs[0]);
      SendAllKeepsOldest(next, capacity, xs[1..]);
      if |items| < capacity {
        assert next == items + [xs[0]];
        assert xs[1..][..Min(|xs| - 1, capacity - |items| - 1)] == xs[1..Min(|xs|, capacity - |items|)];
        assert [xs[0]] + xs[1..Min(|xs|, capacity - |items|)] == xs[..Min(|xs|, capacity - |items|)];
      }
    }
  }

  /** Receiving until empty yields the queued elements oldest first. */
  lemma {:induction false} ReceiveAllInOrder<T>(items: seq<T>)
    ensures ReceiveAll(items) == items
    decreases |items|
  {
    if items != [] {
      ReceiveAllInOrder(items[1..]);
    }
  }

  /** First in, first out: whatever fits is received in the order it was sent. */
  lemma FifoRoundTrip<T>(capacity: nat, xs: seq<T>)
    requires |xs| <= capacity
    ensures ReceiveAll(SendAll([], capacity, xs)) == xs
  {
    SendAllKeepsOldest([], capacity, xs);
    assert xs[..Min(|xs|, capacity)] == xs;
    ReceiveAllInOrder(SendAll([], capacity, xs));
  }

  /**
   * A FreeRTOS queue created with a fixed capacity. Its contents are a `seq`
   * that the two zero-wait operations reassign; the capacity never changes.
   */
  class BoundedQueue<T> {
    const capacity: nat
    var items: seq<T>

    ghost predicate Valid()
      reads this
    {
      |items| <= capacity
    }

    constructor (capacity: nat)
      ensures Valid() && this.capacity == capacity && items == []
    {
      this.capacity := capacity;
      items := [];
    }

    /** `xQueueSend(q, &x, 0)`: `ok` is `pdPASS`. */
    method TrySend(x: T) returns (ok: bool)
      requires Valid()
      modifies this
      ensures Valid()
      ensures ok == Accepts(old(items), capacity)
      ensures items == Send(old(items), capacity, x)
    {
      ok := |items| < capacity;
      if ok {
        items := items + [x];
      }
    }

    /** `xQueueReceive(q, &x, 0)`: `Some(x)` when it returns `pdPASS`. */
    method TryReceive() returns (r: Option<T>)
      requires Valid()
      modifies this
      ensures Valid()
      ensures Received(r, items) == Receive(old(items))
    {
      if items == [] {
        r := None;
      } else {
        r := Some(items[0]);
        items := items[1..];
      }
    }
  }
}
