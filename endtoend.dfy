/**
 * The serial feeder and the pipeline together: what a line typed on the
 * serial port leads to.
 */
module EndToEnd {
  import opened Config
  import C = Coordinator
  import P = Pipeline
  import S = Serial

  /**
   * End to end: the text "5" arrives on the serial line of an idle system; the
   * feeder echoes it and queues 5, and six periods later the five lines have
   * been printed and everything is idle again.
   */
  lemma FeedFive()
    ensures var d := S.Dispatch("5", []);
      d.written == ["Received 5"] &&
      P.Run(P.System(C.CoordState(0, d.requests, [], []), []), 6) ==
      P.System(C.CoordState(0, [], [], []), ["Bar 5 Prime", "Foo 4", "Bar 3 Prime", "Foo 2 Prime", "Bar 1"])
  {
    S.InputFiveQueued([]);
    assert [] + [5 as u32] == [5];
    P.ScenarioFive();
  }
}
