/**
 * The coordinator and its two workers run together. Their tasks are
 * independent threads; the multi-tick properties below are stated for one
 * fixed schedule per period: the coordinator's tick, then the Foo worker's,
 * then the Bar worker's. Under it every worker drains its queue in the same
 * period, so no value is ever dropped.
 */
module Pipeline {
  import opened Config
  import opened Primality
  import opened Rendering
  import opened Uart
  import W = Workers
  import C = Coordinator

  /** The coordinator's state and the lines written to the UART so far. */
  datatype System = System(coord: C.CoordState, log: seq<string>)

  /** One period of the schedule. */
  ghost function SysTick(s: System): System
  {
    var c := C.Step(s.coord);
    var f := W.Step(FOO_LABEL, W.WorkerState(c.foo, s.log));
    var b := W.Step(BAR_LABEL, W.WorkerState(c.bar, f.log));
    System(c.(foo := f.queue, bar := b.queue), b.log)
  }

  /** `k` applications of a step function. */
  ghost function Iterate(step: System -> System, s: System, k: nat): System
    decreases k
  {
    if k == 0 then s else Iterate(step, step(s), k - 1)
  }

  /** `k` periods of the schedule. */
  ghost function Run(s: System, k: nat): System
  {
    Iterate(SysTick, s, k)
  }

  /** The line for counter value `v`: "Foo ..." for even values, "Bar ..." for odd ones. */
  ghost function Line(v: u32): string
  {
    Render(if v % 2 == 0 then FOO_LABEL else BAR_LABEL, C.MsgFor(v))
  }

  /** The lines for `v, v - 1, ..., v - k + 1`, in that order. */
  ghost function Countdown(v: u32, k: nat): (r: seq<string>)
    requires k <= v as nat
    ensures |r| == k
    decreases k
  {
    if k == 0 then [] else [Line(v)] + Countdown(v - 1, k - 1)
  }

  /** The i-th line of a countdown is the line of `v - i`. */
  lemma {:induction false} CountdownAt(v: u32, k: nat, i: nat)
    requires k <= v as nat && i < k
    ensures Countdown(v, k)[i] == Line((v as int - i) as u32)
    decreases k
  {
    if i > 0 {
      CountdownAt(v - 1, k - 1, i - 1);
    }
  }

  /** Both worker queues are empty. */
  ghost predicate Drained(s: System)
  {
    s.coord.foo == [] && s.coord.bar == []
  }

  /** What an active period does when the worker queues start empty. */
  ghost function Advance(s: System): System
    requires s.coord.curValue > 0
  {
    System(s.coord.(curValue := s.coord.curValue - 1), s.log + [Line(s.coord.curValue)])
  }

  /** An active period with empty worker queues prints the current line and counts down. */
  lemma ActiveTick(s: System)
    requires Drained(s) && s.coord.curValue > 0
    ensures SysTick(s) == Advance(s)
  {
    var v := s.coord.curValue;
    var c := C.Step(s.coord);
    if v % 2 == 0 {
      assert c.foo == [C.MsgFor(v)] && c.bar == [];
    } else {
      assert c.bar == [C.MsgFor(v)] && c.foo == [];
    }
  }

  /** The state `k` active periods after `s`, when nothing is dropped. */
  ghost function CountedDown(s: System, k: nat): System
    requires k <= s.coord.curValue as nat
  {
    System(s.coord.(curValue := s.coord.curValue - k as u32), s.log + Countdown(s.coord.curValue, k))
  }

  lemma AdvanceThenCountDown(s: System, k: nat)
    requires 0 < k <= s.coord.curValue as nat
    ensures CountedDown(Advance(s), k - 1) == CountedDown(s, k)
  {
    var v := s.coord.curValue;
    assert Countdown(v, k) == [Line(v)] + Countdown(v - 1, k - 1);
  }

  lemma {:induction false} IterateActive(step: System -> System, s: System, k: nat)
    requires forall x :: Drained(x) && x.coord.curValue > 0 ==> step(x) == Advance(x)
    requires Drained(s) && k <= s.coord.curValue as nat
    ensures Iterate(step, s, k) == CountedDown(s, k)
    decreases k
  {
    if k > 0 {
      var t := step(s);
      assert t == Advance(s);
      IterateActive(step, t, k - 1);
      AdvanceThenCountDown(s, k);
    }
  }

  /** Counting down from `v` for `k` periods prints `v, v - 1, ...` in order and drops nothing. */
  lemma ActiveRun(s: System, k: nat)
    requires Drained(s) && k <= s.coord.curValue as nat
    ensures Run(s, k) == CountedDown(s, k)
  {
    forall x | Drained(x) && x.coord.curValue > 0
      ensures SysTick(x) == Advance(x)
    {
      ActiveTick(x);
    }
    IterateActive(SysTick, s, k);
  }

  /**
   * A start value n > 0 at the head of the request queue: the first period
   * already prints n, and after n periods every line n, n - 1, ..., 1 has been
   * printed once, in order, and the coordinator is idle again with the rest of
   * the requests still queued.
   */
  lemma SequenceFromRequest(n: u32, rest: seq<u32>, log: seq<string>)
    requires n > 0
    ensures Run(System(C.CoordState(0, [n] + rest, [], []), log), n as nat) ==
            System(C.CoordState(0, rest, [], []), log + Countdown(n, n as nat))
  {
    var s := System(C.CoordState(0, [n] + rest, [], []), log);
    var active := System(C.CoordState(n, rest, [], []), log);
    StartIsFirstActivePeriod(n, rest, log);
    assert Run(s, n as nat) == Run(Advance(active), n as nat - 1);
    ActiveRun(Advance(active), n as nat - 1);
    AdvanceThenCountDown(active, n as nat);
  }

  /** The period that receives a start value behaves as an active period on that value. */
  lemma StartIsFirstActivePeriod(n: u32, rest: seq<u32>, log: seq<string>)
    requires n > 0
    ensures SysTick(System(C.CoordState(0, [n] + rest, [], []), log)) == Advance(System(C.CoordState(n, rest, [], []), log))
  {
    var s := System(C.CoordState(0, [n] + rest, [], []), log);
    var active := System(C.CoordState(n, rest, [], []), log);
    assert C.Pickup(s.coord) == active.coord;
    assert C.Step(s.coord) == C.Step(active.coord);
    ActiveTick(active);
  }

  lemma {:induction false} IterateFixpoint(step: System -> System, s: System, k: nat)
    requires step(s) == s
    ensures Iterate(step, s, k) == s
    decreases k
  {
    if k > 0 {
      IterateFixpoint(step, s, k - 1);
    }
  }

  /** While idle with no requests, any number of periods changes nothing and prints nothing. */
  lemma IdleStaysIdle(log: seq<string>, k: nat)
    ensures Run(System(C.CoordState(0, [], [], []), log), k) == System(C.CoordState(0, [], [], []), log)
  {
    IterateFixpoint(SysTick, System(C.CoordState(0, [], [], []), log), k);
  }

  lemma {:induction false} IterateSplit(step: System -> System, s: System, j: nat, k: nat)
    ensures Iterate(step, s, j + k) == Iterate(step, Iterate(step, s, j), k)
    decreases j
  {
    if j > 0 {
      IterateSplit(step, step(s), j - 1, k);
    }
  }

  /** The five lines of the countdown from 5. */
  lemma CountdownFromFive()
    ensures Countdown(5, 5) == ["Bar 5 Prime", "Foo 4", "Bar 3 Prime", "Foo 2 Prime", "Bar 1"]
  {
    SmallPrimes();
    assert Line(5) == "Bar 5 Prime";
    assert Line(4) == "Foo 4";
    assert Line(3) == "Bar 3 Prime";
    assert Line(2) == "Foo 2 Prime";
    assert Line(1) == "Bar 1";
    assert Countdown(5, 5) == [Line(5), Line(4), Line(3), Line(2), Line(1)];
  }

  /** The start value 5 prints the five expected lines and then falls idle. */
  lemma ScenarioFive()
    ensures Run(System(C.CoordState(0, [5], [], []), []), 6) ==
            System(C.CoordState(0, [], [], []), ["Bar 5 Prime", "Foo 4", "Bar 3 Prime", "Foo 2 Prime", "Bar 1"])
  {
    var start := System(C.CoordState(0, [5], [], []), []);
    var lines := Countdown(5, 5);
    SequenceFromRequest(5, [], []);
    assert [5] + [] == [5];
    assert Run(start, 5) == System(C.CoordState(0, [], [], []), lines);
    IterateSplit(SysTick, start, 5, 1);
    IdleStaysIdle(lines, 1);
    CountdownFromFive();
  }

  /** One period with the coordinator and the two workers as objects. */
  method SystemTick(c: C.Coordinator, foo: W.Worker, bar: W.Worker, out: Channel)
    requires c.Valid()
    requires foo.queue == c.foo && bar.queue == c.bar
    requires foo.name == FOO_LABEL && bar.name == BAR_LABEL
    modifies c, c.requests, c.foo, c.bar, out
    ensures c.Valid()
    ensures System(c.State(), out.log) == SysTick(System(old(c.State()), old(out.log)))
  {
    c.Tick();
    foo.Tick(out);
    bar.Tick(out);
  }
}
