/** A run of the control protocol after which the two sides disagree. */
module LateOmit {
  import opened Common
  import opened Streams
  import opened Control
  import opened ControlProof

  ghost predicate Reaches(cfg: Config, run: seq<Action>, s: System) {
    After(cfg, run) == Some(s)
  }

  lemma Extend(cfg: Config, run: seq<Action>, s: System, a: Action, t: System)
    requires Reaches(cfg, run, s) && Enabled(cfg, s, a) && Apply(cfg, s, a) == t
    ensures Reaches(cfg, run + [a], t)
  {
    assert (run + [a])[..|run|] == run;
  }

  /** One stream towards the server, with an omit period. */
  const ONE_STREAM: Config := Config(7, 1, false, false, true)

  const SETUP: seq<Action> :=
    [] + [Connect] + [Accept] + [ServerCookie] + [ClientMessage] + [ServerParameters] + [ClientMessage]

  const START: seq<Action> := SETUP + [ConnectStream] + [Accept] + [ClientMessage] + [ClientMessage] + [ClientOmitTimer]

  const TRAFFIC: seq<Action> := START + [ClientTraffic(0, 5)] + [ServerTraffic(0, 5)] + [EndTest]

  const EXCHANGE: seq<Action> := TRAFFIC + [ServerMessage] + [ClientMessage] + [ServerResults]

  const LATE: seq<Action> := EXCHANGE + [ServerOmitTimer] + [ClientResults] + [ClientMessage] + [ServerMessage]

  function ServerIn(at: ServerAt, state: int, omitting: bool, lateReset: bool, streams: seq<Stream>): Server {
    Server(at, state, 7, Receiver, 1, true, omitting, lateReset, streams)
  }

  lemma SetUp()
    ensures Reaches(ONE_STREAM, SETUP,
              System(Client(Creating, CREATE_STREAMS, false, []), ServerIn(Serving, CREATE_STREAMS, false, false, []),
                     [], [], []))
  {
    hide Reaches;
    var cfg := ONE_STREAM;
    var r0: seq<Action> := [];
    var s0 := Start(cfg);
    assert Reaches(cfg, r0, s0) by { StartReached(cfg); }
    var c0, v0 := Client(Loop, 0, false, []), Server(Listening, IPERF_START, 0, Receiver, 1, false, false, false, []);
    var s1 := System(c0, v0, [Cookie(7)], [], [7]);
    Extend(cfg, r0, s0, Connect, s1);
    var s2 := System(c0, v0.(at := AwaitCookie), [Cookie(7)], [], []);
    Extend(cfg, r0 + [Connect], s1, Accept, s2);
    var v3 := v0.(at := AwaitParameters, state := PARAM_EXCHANGE, cookie := 7);
    var s3 := System(c0, v3, [], [Byte(PARAM_EXCHANGE)], []);
    Extend(cfg, r0 + [Connect] + [Accept], s2, ServerCookie, s3);
    var c4 := c0.(state := PARAM_EXCHANGE);
    var s4 := System(c4, v3, [Parameters(1, false, false, true)], [], []);
    Extend(cfg, r0 + [Connect] + [Accept] + [ServerCookie], s3, ClientMessage, s4);
    var v5 := ServerIn(Serving, CREATE_STREAMS, false, false, []);
    var s5 := System(c4, v5, [], [Byte(CREATE_STREAMS)], []);
    Extend(cfg, r0 + [Connect] + [Accept] + [ServerCookie] + [ClientMessage], s4, ServerParameters, s5);
    Extend(cfg, r0 + [Connect] + [Accept] + [ServerCookie] + [ClientMessage] + [ServerParameters], s5, ClientMessage,
           System(Client(Creating, CREATE_STREAMS, false, []), v5, [], [], []));
  }

  lemma StartReached(cfg: Config)
    ensures Reaches(cfg, [], Start(cfg))
  {
  }

  lemma TestStarted()
    ensures Reaches(ONE_STREAM, START,
              System(Client(Loop, TEST_RUNNING, false, [Stream(1, true, 0, 0, 0)]),
                     ServerIn(Serving, TEST_RUNNING, true, false, [Stream(1, false, 0, 0, 0)]), [], [], []))
  {
    hide Reaches;
    SetUp();
    var cfg := ONE_STREAM;
    var mine, theirs := [Stream(1, true, 0, 0, 0)], [Stream(1, false, 0, 0, 0)];
    var v0 := ServerIn(Serving, CREATE_STREAMS, false, false, []);
    var s0 := System(Client(Creating, CREATE_STREAMS, false, []), v0, [], [], []);
    var c1 := Client(Loop, CREATE_STREAMS, false, mine);
    var s1 := System(c1, v0, [], [], [7]);
    Extend(cfg, SETUP, s0, ConnectStream, s1);
    var v2 := ServerIn(Serving, TEST_RUNNING, true, false, theirs);
    var s2 := System(c1, v2, [], [Byte(TEST_START), Byte(TEST_RUNNING)], []);
    Extend(cfg, SETUP + [ConnectStream], s1, Accept, s2);
    var s3 := System(Client(Loop, TEST_START, true, mine), v2, [], [Byte(TEST_RUNNING)], []);
    Extend(cfg, SETUP + [ConnectStream] + [Accept], s2, ClientMessage, s3);
    var s4 := System(Client(Loop, TEST_RUNNING, true, mine), v2, [], [], []);
    Extend(cfg, SETUP + [ConnectStream] + [Accept] + [ClientMessage], s3, ClientMessage, s4);
    assert ResetStats(mine) == mine;
    Extend(cfg, SETUP + [ConnectStream] + [Accept] + [ClientMessage] + [ClientMessage], s4, ClientOmitTimer,
           System(Client(Loop, TEST_RUNNING, false, mine), v2, [], [], []));
  }

  lemma TestEnded()
    ensures Reaches(ONE_STREAM, TRAFFIC,
              System(Client(Loop, TEST_END, false, [Stream(1, true, 5, 0, 0)]),
                     ServerIn(Serving, TEST_RUNNING, true, false, [Stream(1, false, 0, 0, 5)]),
                     [Byte(TEST_END)], [], []))
  {
    hide Reaches;
    TestStarted();
    var cfg := ONE_STREAM;
    var mine, theirs := [Stream(1, true, 5, 0, 0)], [Stream(1, false, 0, 0, 5)];
    var v0 := ServerIn(Serving, TEST_RUNNING, true, false, [Stream(1, false, 0, 0, 0)]);
    var s0 := System(Client(Loop, TEST_RUNNING, false, [Stream(1, true, 0, 0, 0)]), v0, [], [], []);
    var s1 := System(Client(Loop, TEST_RUNNING, false, mine), v0, [], [], []);
    Extend(cfg, START, s0, ClientTraffic(0, 5), s1);
    var v2 := ServerIn(Serving, TEST_RUNNING, true, false, theirs);
    var s2 := System(Client(Loop, TEST_RUNNING, false, mine), v2, [], [], []);
    Extend(cfg, START + [ClientTraffic(0, 5)], s1, ServerTraffic(0, 5), s2);
    Extend(cfg, START + [ClientTraffic(0, 5)] + [ServerTraffic(0, 5)], s2, EndTest,
           System(Client(Loop, TEST_END, false, mine), v2, [Byte(TEST_END)], [], []));
  }

  lemma OneResult(s: Stream)
    ensures Results([s]) == [Report(s.id, Measured(s))]
  {
  }

  lemma OneMerge(s: Stream, bytes: int)
    ensures TakeResults([s], [Report(s.id, bytes)]) == Some([Merge(s, bytes)])
  {
    var reports, list := [Report(s.id, bytes)], [s];
    assert reports[1..] == [];
    assert Find(list, s.id) == 0;
    assert list[0 := Merge(s, bytes)] == [Merge(s, bytes)];
    assert TakeResults([Merge(s, bytes)], []) == Some([Merge(s, bytes)]);
  }

  lemma ResultsAsked()
    ensures Reaches(ONE_STREAM, TRAFFIC + [ServerMessage] + [ClientMessage],
              System(Client(AwaitResults, EXCHANGE_RESULTS, false, [Stream(1, true, 5, 0, 0)]),
                     ServerIn(AwaitClientResults, EXCHANGE_RESULTS, true, false, [Stream(1, false, 0, 0, 5)]),
                     [ResultsFrame([Report(1, 5)])], [], []))
  {
    hide Reaches, TakeResults, Results;
    TestEnded();
    var cfg := ONE_STREAM;
    var mine, theirs := [Stream(1, true, 5, 0, 0)], [Stream(1, false, 0, 0, 5)];
    var c0, v0 := Client(Loop, TEST_END, false, mine), ServerIn(Serving, TEST_RUNNING, true, false, theirs);
    var s0 := System(c0, v0, [Byte(TEST_END)], [], []);
    var v1 := ServerIn(AwaitClientResults, EXCHANGE_RESULTS, true, false, theirs);
    var s1 := System(c0, v1, [], [Byte(EXCHANGE_RESULTS)], []);
    Extend(cfg, TRAFFIC, s0, ServerMessage, s1);
    OneResult(mine[0]);
    Extend(cfg, TRAFFIC + [ServerMessage], s1, ClientMessage,
           System(Client(AwaitResults, EXCHANGE_RESULTS, false, mine), v1, [ResultsFrame([Report(1, 5)])], [], []));
  }

  lemma ResultsExchanged()
    ensures Reaches(ONE_STREAM, EXCHANGE,
              System(Client(AwaitResults, EXCHANGE_RESULTS, false, [Stream(1, true, 5, 0, 0)]),
                     ServerIn(Serving, DISPLAY_RESULTS, true, false, [Stream(1, false, 5, 0, 5)]),
                     [], [ResultsFrame([Report(1, 5)]), Byte(DISPLAY_RESULTS)], []))
  {
    hide Reaches, TakeResults, Results;
    ResultsAsked();
    var cfg := ONE_STREAM;
    var mine, theirs := [Stream(1, true, 5, 0, 0)], [Stream(1, false, 0, 0, 5)];
    var c2 := Client(AwaitResults, EXCHANGE_RESULTS, false, mine);
    var v1 := ServerIn(AwaitClientResults, EXCHANGE_RESULTS, true, false, theirs);
    var s2 := System(c2, v1, [ResultsFrame([Report(1, 5)])], [], []);
    OneMerge(theirs[0], 5);
    var merged := [Stream(1, false, 5, 0, 5)];
    OneResult(merged[0]);
    Extend(cfg, TRAFFIC + [ServerMessage] + [ClientMessage], s2, ServerResults,
           System(c2, ServerIn(Serving, DISPLAY_RESULTS, true, false, merged),
                  [], [ResultsFrame([Report(1, 5)]), Byte(DISPLAY_RESULTS)], []));
  }

  /** A complete run in which the omit timer of the server fires late: five bytes sent and received according to
      the client, none according to the server. */
  lemma Disagreement()
    ensures After(ONE_STREAM, LATE).Some? && LateReset(LATE)
    ensures var s := After(ONE_STREAM, LATE).value;
            && s.client.state == s.server.state == IPERF_DONE && !AllAgree(s)
            && s.client.streams == [Stream(1, true, 5, 0, 5)] && s.server.streams == [Stream(1, false, 5, 5, 0)]
  {
    hide TakeResults;
    ResultsExchanged();
    var cfg := ONE_STREAM;
    var mine, theirs := [Stream(1, true, 5, 0, 0)], [Stream(1, false, 5, 0, 5)];
    var both, cleared := [Stream(1, true, 5, 0, 5)], [Stream(1, false, 5, 5, 0)];
    var c0 := Client(AwaitResults, EXCHANGE_RESULTS, false, mine);
    var frames := [ResultsFrame([Report(1, 5)]), Byte(DISPLAY_RESULTS)];
    var s0 := System(c0, ServerIn(Serving, DISPLAY_RESULTS, true, false, theirs), [], frames, []);
    assert ResetStats(theirs) == cleared;
    var v1 := ServerIn(Serving, DISPLAY_RESULTS, false, true, cleared);
    var s1 := System(c0, v1, [], frames, []);
    hide Reaches;
    Extend(cfg, EXCHANGE, s0, ServerOmitTimer, s1);
    OneMerge(mine[0], 5);
    var s2 := System(Client(Loop, EXCHANGE_RESULTS, false, both), v1, [], [Byte(DISPLAY_RESULTS)], []);
    Extend(cfg, EXCHANGE + [ServerOmitTimer], s1, ClientResults, s2);
    var c3 := Client(Finished, IPERF_DONE, false, both);
    var s3 := System(c3, v1, [Byte(IPERF_DONE)], [], []);
    Extend(cfg, EXCHANGE + [ServerOmitTimer] + [ClientResults], s2, ClientMessage, s3);
    var s4 := System(c3, v1.(at := Ended, state := IPERF_DONE), [], [], []);
    Extend(cfg, EXCHANGE + [ServerOmitTimer] + [ClientResults] + [ClientMessage], s3, ServerMessage, s4);
    Ends(s4);
    assert !Agree(both[0], cleared[0]);
  }

  lemma Ends(s: System)
    requires Reaches(ONE_STREAM, LATE, s) && s.server.lateReset
    ensures After(ONE_STREAM, LATE) == Some(s) && LateReset(LATE)
  {
    History(ONE_STREAM, LATE);
  }
}
