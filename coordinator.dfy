/**
 * The Foobar task: it owns the sequence counter (0 means idle), takes start
 * values from its request queue, and each tick classifies the current value,
 * routes it to the Foo queue (even) or the Bar queue (odd) without waiting, and
 * counts down.
 */
module Coordinator {
  import opened Wrappers
  import opened Config
  import opened Queues
  import opened Primality

  /** The counter and the three queues the coordinator touches. */
  datatype CoordState = CoordState(curValue: u32, requests: seq<u32>, foo: seq<Msg>, bar: seq<Msg>)

  /** No queue holds more than its capacity. */
  predicate Bounded(s: CoordState)
  {
    |s.requests| <= REQUEST_QUEUE_SIZE && |s.foo| <= FOO_QUEUE_SIZE && |s.bar| <= BAR_QUEUE_SIZE
  }

  /** The message for counter value `v`. */
  ghost function MsgFor(v: u32): Msg
  {
    Msg(v, IsPrimeSpec(v as nat))
  }

  /**
   * First half of a tick: an idle coordinator makes one zero-wait receive; a
   * failed receive leaves the counter at 0.
   */
  function Pickup(s: CoordState): CoordState
  {
    if s.curValue != 0 then s
    else
      match Receive(s.requests)
      case Received(None, rest) => s.(curValue := 0, requests := rest)
      case Received(Some(n), rest) => s.(curValue := n, requests := rest)
  }

  /**
   * Second half of the same tick: a non-zero counter is sent, without waiting,
   * to the queue its parity selects, and then decremented whether or not the
   * send succeeded.
   */
  ghost function Emit(s: CoordState): CoordState
  {
    if s.curValue == 0 then s
    else if s.curValue % 2 == 0 then
      s.(curValue := s.curValue - 1, foo := Send(s.foo, FOO_QUEUE_SIZE, MsgFor(s.curValue)))
    else
      s.(curValue := s.curValue - 1, bar := Send(s.bar, BAR_QUEUE_SIZE, MsgFor(s.curValue)))
  }

  /**
   * One tick of the coordinator. `Pickup(s).curValue` is the value this tick
   * emits: the active counter, or the start value received in this very tick.
   */
  ghost function Step(s: CoordState): (t: CoordState)
    // idle with nothing requested: no queue activity at all
    ensures s.curValue == 0 && s.requests == [] ==> t == s
    // idle with requests: exactly the oldest one is removed
    ensures s.curValue == 0 && s.requests != [] ==> t.requests == s.requests[1..]
    // a start value of 0 leaves the coordinator idle and the worker queues untouched
    ensures s.curValue == 0 && s.requests != [] && s.requests[0] == 0 ==>
      t.curValue == 0 && t.foo == s.foo && t.bar == s.bar
    // a start value n > 0 is emitted in the same tick: the counter is left at n - 1
    ensures s.curValue == 0 && s.requests != [] && s.requests[0] > 0 ==>
      t.curValue == s.requests[0] - 1
    ensures s.curValue == 0 && s.requests != [] && s.requests[0] > 0 && s.requests[0] % 2 == 0 ==>
      t.foo == Send(s.foo, FOO_QUEUE_SIZE, MsgFor(s.requests[0])) && t.bar == s.bar
    ensures s.curValue == 0 && s.requests != [] && s.requests[0] % 2 == 1 ==>
      t.bar == Send(s.bar, BAR_QUEUE_SIZE, MsgFor(s.requests[0])) && t.foo == s.foo
    // while a sequence is active the request queue is not touched
    ensures s.curValue > 0 ==> t.requests == s.requests
    // the counter drops by exactly one per emitted value and never below 0
    ensures var v := Pickup(s).curValue;
      t.curValue == if v == 0 then 0 else v - 1
    // even values go to Foo, odd values to Bar; the other queue is untouched
    ensures var v := Pickup(s).curValue;
      v > 0 && v % 2 == 0 ==> t.foo == Send(s.foo, FOO_QUEUE_SIZE, MsgFor(v)) && t.bar == s.bar
    ensures var v := Pickup(s).curValue;
      v % 2 == 1 ==> t.bar == Send(s.bar, BAR_QUEUE_SIZE, MsgFor(v)) && t.foo == s.foo
    // no queue grows past its capacity
    ensures Bounded(s) ==> Bounded(t)
  {
    Emit(Pickup(s))
  }

  /**
   * Backpressure: a value whose worker still holds the previous message is
   * dropped, and the sequence moves on regardless.
   */
  lemma DropWhenWorkerBusy(s: CoordState)
    requires s.curValue > 0
    requires (s.curValue % 2 == 0 && |s.foo| >= FOO_QUEUE_SIZE) || (s.curValue % 2 == 1 && |s.bar| >= BAR_QUEUE_SIZE)
    ensures Step(s) == s.(curValue := s.curValue - 1)
  {
  }

  class Coordinator {
    var curValue: u32
    const requests: BoundedQueue<u32>
    const foo: BoundedQueue<Msg>
    const bar: BoundedQueue<Msg>

    ghost predicate Valid()
      reads this, requests, foo, bar
    {
      foo != bar &&
      requests.capacity == REQUEST_QUEUE_SIZE && foo.capacity == FOO_QUEUE_SIZE && bar.capacity == BAR_QUEUE_SIZE &&
      requests.Valid() && foo.Valid() && bar.Valid()
    }

    ghost function State(): CoordState
      reads this, requests, foo, bar
    {
      CoordState(curValue, requests.items, foo.items, bar.items)
    }

    /**
     * Creates all three queues before any task runs, so that no send can reach
     * a worker queue that does not exist yet.
     */
    constructor ()
      ensures Valid() && fresh(requests) && fresh(foo) && fresh(bar)
      ensures State() == CoordState(0, [], [], [])
    {
      curValue := 0;
      requests := new BoundedQueue(REQUEST_QUEUE_SIZE);
      foo := new BoundedQueue(FOO_QUEUE_SIZE);
      bar := new BoundedQueue(BAR_QUEUE_SIZE);
    }

    /** One pass of the task's loop body. */
    method Tick()
      requires Valid()
      modifies this, requests, foo, bar
      ensures Valid()
      ensures State() == Step(old(State()))
    {
      if curValue == 0 {
        var r := requests.TryReceive();
        // a failed receive resets the counter "just in case"
        curValue := if r.Some? then r.value else 0;
      }
      if curValue > 0 {
        var p := IsPrime(curValue);
        var msg := Msg(curValue, p);
        if curValue % 2 == 0 {
          var _ := foo.TrySend(msg);
        } else {
          var _ := bar.TrySend(msg);
        }
        curValue := curValue - 1;
      }
    }
  }
}
