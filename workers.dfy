/**
 * The Foo and Bar tasks: one worker parameterised by its label. Each tick it
 * makes one zero-wait receive on its own single-slot queue and, when a message
 * was there, writes the rendered line to the UART.
 */
module Workers {
  import opened Wrappers
  import opened Config
  import opened Queues
  import opened Rendering
  import opened Uart

  /** A worker's queue and the lines written so far. */
  datatype WorkerState = WorkerState(queue: seq<Msg>, log: seq<string>)

  /** One tick of a worker: receive; if a message was present, print its line. */
  function Step(name: string, s: WorkerState): WorkerState
  {
    match Receive(s.queue)
    case Received(None, rest) => WorkerState(rest, s.log)
    case Received(Some(m), rest) => WorkerState(rest, s.log + [Render(name, m)])
  }

  /** `k` consecutive ticks of a worker that nothing else feeds in between. */
  function Steps(name: string, s: WorkerState, k: nat): WorkerState
    decreases k
  {
    if k == 0 then s else Steps(name, Step(name, s), k - 1)
  }

  /** The lines for a run of messages, in order. */
  function Lines(name: string, ms: seq<Msg>): (r: seq<string>)
    ensures |r| == |ms|
  {
    if ms == [] then [] else [Render(name, ms[0])] + Lines(name, ms[1..])
  }

  /**
   * Each tick prints exactly one queued message, oldest first; ticks on an
   * empty queue print nothing.
   */
  lemma {:induction false} StepsPrintInOrder(name: string, s: WorkerState, k: nat)
    ensures var n := Min(k, |s.queue|);
      Steps(name, s, k) == WorkerState(s.queue[n..], s.log + Lines(name, s.queue[..n]))
    decreases k
  {
    if k > 0 {
      if s.queue == [] {
        StepsPrintInOrder(name, s, k - 1);
      } else {
        var t := Step(name, s);
        StepsPrintInOrder(name, t, k - 1);
        var n := Min(k, |s.queue|);
        assert t.queue[Min(k - 1, |t.queue|)..] == s.queue[n..];
        assert t.queue[..Min(k - 1, |t.queue|)] == s.queue[1..n];
        assert s.queue[..n] == [s.queue[0]] + s.queue[1..n];
      }
    }
  }

  /**
   * One tick as `foo_task`/`bar_task` are written: the branch is taken when the
   * receive FAILED, so a line is built from the uninitialised `msg` (here
   * `garbage`) when the queue is empty, and a message that was received is
   * dropped without being printed.
   */
  function StepAsWritten(name: string, s: WorkerState, garbage: Msg): WorkerState
  {
    match Receive(s.queue)
    case Received(None, rest) => WorkerState(rest, s.log + [RenderAsWritten(name, garbage)])
    case Received(Some(m), rest) => WorkerState(rest, s.log)
  }

  /** As written, a queued message is consumed and nothing is printed for it. */
  lemma AsWrittenSwallowsMessage(name: string, m: Msg, log: seq<string>, garbage: Msg)
    ensures StepAsWritten(name, WorkerState([m], log), garbage) == WorkerState([], log)
    ensures Step(name, WorkerState([m], log)) == WorkerState([], log + [Render(name, m)])
  {
  }

  /** As written, an empty queue makes the worker print a line every tick. */
  lemma AsWrittenPrintsWhenIdle(name: string, log: seq<string>, garbage: Msg)
    ensures StepAsWritten(name, WorkerState([], log), garbage).log == log + [RenderAsWritten(name, garbage)]
    ensures Step(name, WorkerState([], log)).log == log
  {
  }

  class Worker {
    const name: string
    const queue: BoundedQueue<Msg>

    /** The queue is created before the task is started, so it always exists. */
    constructor (name: string, queue: BoundedQueue<Msg>)
      ensures this.name == name && this.queue == queue
    {
      this.name := name;
      this.queue := queue;
    }

    /** One pass of the task's loop body. */
    method Tick(out: Channel)
      requires queue.Valid()
      modifies queue, out
      ensures queue.Valid()
      ensures WorkerState(queue.items, out.log) == Step(name, WorkerState(old(queue.items), old(out.log)))
    {
      var r := queue.TryReceive();
      if r.Some? {
        out.Write(Render(name, r.value));
      }
    }
  }
}
