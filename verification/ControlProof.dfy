/** Safety, progress and agreement of the control protocol, over every run. */
module ControlProof {
  import opened Common
  import opened Streams
  import opened Control

  // ----- the invariant

  function Mine(queue: seq<nat>, cookie: nat): nat {
    if queue == [] then 0 else (if queue[0] == cookie then 1 else 0) + Mine(queue[1..], cookie)
  }

  lemma {:induction false} MineAppend(queue: seq<nat>, k: nat, cookie: nat)
    ensures Mine(queue + [k], cookie) == Mine(queue, cookie) + (if k == cookie then 1 else 0)
  {
    if queue != [] {
      assert (queue + [k])[1..] == queue[1..] + [k];
      MineAppend(queue[1..], k, cookie);
    } else {
      assert queue + [k] == [k];
    }
  }

  /** Stream pairing: equal numbering on both sides, and opposite directions fixed by the mode. */
  ghost predicate Pairing(cfg: Config, s: System) {
    && |s.server.streams| <= |s.client.streams| <= Total(cfg)
    && Numbered(s.client.streams) && Numbered(s.server.streams)
    && (forall i :: 0 <= i < |s.client.streams| ==> s.client.streams[i].sender == ClientSends(cfg, i))
    && (forall i :: 0 <= i < |s.server.streams| ==> s.server.streams[i].sender == !ClientSends(cfg, i))
  }

  ghost predicate AllSound(list: seq<Stream>) {
    forall i :: 0 <= i < |list| ==> Sound(list[i])
  }

  ghost predicate AllMerged(s: System) {
    |s.client.streams| == |s.server.streams| &&
    forall i :: 0 <= i < |s.client.streams| ==> HasMerged(s.client.streams[i], s.server.streams[i])
  }

  ghost predicate AllAgree(s: System) {
    |s.client.streams| == |s.server.streams| &&
    forall i :: 0 <= i < |s.client.streams| ==> Agree(s.client.streams[i], s.server.streams[i])
  }

  /** What a reset leaves: nothing sent since, nothing received. */
  ghost predicate AllReset(list: seq<Stream>) {
    forall i :: 0 <= i < |list| ==> NetSent(list[i]) == 0 && list[i].received == 0
  }

  /** The reports are numbered like the streams, one for each. */
  ghost predicate ReportsFor(list: seq<Stream>, reports: seq<Report>) {
    |reports| == |list| && forall i :: 0 <= i < |reports| ==> reports[i].id == StreamId(i)
  }

  predicate Knows(cfg: Config, v: Server) {
    && v.cookie == cfg.cookie && v.streamCount == cfg.streams && v.omit == cfg.omit
    && v.mode == ServerMode(cfg.reverse, cfg.bidirectional)
  }

  predicate Fresh(v: Server) {
    v.streams == [] && !v.omitting && !v.lateReset
  }

  ghost predicate Connected(cfg: Config, s: System) {
    && s.client.at.Loop? && s.client.state == 0 && s.client.streams == [] && !s.client.omitting && Fresh(s.server)
    && s.toServer == [Cookie(cfg.cookie)] && s.toClient == [] && s.server.state == IPERF_START
    && ((s.server.at.Listening? && s.queue != [] && s.queue[0] == cfg.cookie && Mine(s.queue, cfg.cookie) == 1)
        || (s.server.at.AwaitCookie? && Mine(s.queue, cfg.cookie) == 0))
  }

  ghost predicate Parametrizing(cfg: Config, s: System) {
    && s.client.at.Loop? && s.client.streams == [] && !s.client.omitting && Fresh(s.server)
    && s.server.at.AwaitParameters? && s.server.state == PARAM_EXCHANGE && s.server.cookie == cfg.cookie
    && Mine(s.queue, cfg.cookie) == 0
    && ((s.client.state == 0 && s.toClient == [Byte(PARAM_EXCHANGE)] && s.toServer == [])
        || (s.client.state == PARAM_EXCHANGE && s.toClient == []
            && s.toServer == [Parameters(cfg.streams, cfg.reverse, cfg.bidirectional, cfg.omit)]))
  }

  ghost predicate CreatingStreams(cfg: Config, s: System) {
    && s.server.at.Serving? && s.server.state == CREATE_STREAMS && Knows(cfg, s.server)
    && !s.server.omitting && !s.server.lateReset && !s.client.omitting
    && |s.server.streams| < Total(cfg) && s.toServer == []
    && AllSound(s.client.streams) && AllSound(s.server.streams)
    && Mine(s.queue, cfg.cookie) == |s.client.streams| - |s.server.streams|
    && ((s.client.at.Loop? && s.client.state == PARAM_EXCHANGE && s.client.streams == []
         && s.toClient == [Byte(CREATE_STREAMS)])
        || (s.client.state == CREATE_STREAMS && s.toClient == []
            && ((s.client.at.Creating? && |s.client.streams| < Total(cfg))
                || (s.client.at.Loop? && |s.client.streams| == Total(cfg)))))
  }

  /** The state bytes still in flight determine the state the client is in. */
  predicate StartBytes(cfg: Config, c: Client, toClient: seq<Message>) {
    || (c.state == PARAM_EXCHANGE && toClient == [Byte(CREATE_STREAMS), Byte(TEST_START), Byte(TEST_RUNNING)]
        && Total(cfg) == 0 && !c.omitting)
    || (c.state == CREATE_STREAMS && toClient == [Byte(TEST_START), Byte(TEST_RUNNING)] && !c.omitting)
    || (c.state == TEST_START && toClient == [Byte(TEST_RUNNING)])
    || (c.state == TEST_RUNNING && toClient == [])
  }

  ghost predicate Complete(cfg: Config, s: System) {
    && |s.client.streams| == |s.server.streams| == Total(cfg) && Knows(cfg, s.server)
    && Mine(s.queue, cfg.cookie) == 0
  }

  ghost predicate Running(cfg: Config, s: System) {
    && Complete(cfg, s) && s.client.at.Loop?
    && s.server.at.Serving? && s.server.state == TEST_RUNNING && !s.server.lateReset
    && AllSound(s.client.streams) && AllSound(s.server.streams)
    && ((StartBytes(cfg, s.client, s.toClient) && s.toServer == [])
        || (s.client.state == TEST_END && !s.client.omitting && s.toClient == [] && s.toServer == [Byte(TEST_END)]))
  }

  ghost predicate Reporting(cfg: Config, s: System) {
    && Complete(cfg, s) && !s.client.omitting
    && s.server.at.AwaitClientResults? && s.server.state == EXCHANGE_RESULTS && !s.server.lateReset
    && AllSound(s.client.streams) && AllSound(s.server.streams)
    && ((s.client.at.Loop? && s.client.state == TEST_END && s.toClient == [Byte(EXCHANGE_RESULTS)] && s.toServer == [])
        || (s.client.at.AwaitResults? && s.client.state == EXCHANGE_RESULTS && s.toClient == []
            && s.toServer == [ResultsFrame(Results(s.client.streams))]))
  }

  ghost predicate Displaying(cfg: Config, s: System) {
    && Complete(cfg, s) && !s.client.omitting && s.server.at.Serving? && s.server.state == DISPLAY_RESULTS
    && (s.server.lateReset ==> AllReset(s.server.streams))
    && ((s.client.at.AwaitResults? && s.client.state == EXCHANGE_RESULTS && s.toServer == []
         && AllSound(s.client.streams)
         && |s.toClient| == 2 && s.toClient[0].ResultsFrame? && s.toClient[1] == Byte(DISPLAY_RESULTS)
         && ReportsFor(s.client.streams, s.toClient[0].reports)
         && (!s.server.lateReset ==> AllMerged(s) && s.toClient[0].reports == Results(s.server.streams)))
        || (s.client.at.Loop? && s.client.state == EXCHANGE_RESULTS && s.toClient == [Byte(DISPLAY_RESULTS)]
            && s.toServer == []
            && (!s.server.lateReset ==> AllAgree(s)))
        || (s.client.at.Finished? && s.client.state == IPERF_DONE && s.toClient == []
            && s.toServer == [Byte(IPERF_DONE)]
            && (!s.server.lateReset ==> AllAgree(s))))
  }

  /** Both sides have left their loops in IPERF_DONE. */
  ghost predicate Done(cfg: Config, s: System) {
    && Complete(cfg, s) && s.client.at.Finished? && s.client.state == IPERF_DONE
    && s.server.at.Ended? && s.server.state == IPERF_DONE && s.toClient == [] && s.toServer == []
    && (!s.server.lateReset ==> AllAgree(s)) && (s.server.lateReset ==> AllReset(s.server.streams))
  }

  ghost predicate Inv(cfg: Config, s: System) {
    && Pairing(cfg, s)
    && (s == Start(cfg) || Connected(cfg, s) || Parametrizing(cfg, s) || CreatingStreams(cfg, s) || Running(cfg, s)
        || Reporting(cfg, s) || Displaying(cfg, s) || Done(cfg, s))
  }

  // ----- every action keeps it

  lemma FromStart(cfg: Config, s: System, a: Action)
    requires s == Start(cfg) && Enabled(cfg, s, a)
    ensures Pairing(cfg, Apply(cfg, s, a))
    ensures Connected(cfg, Apply(cfg, s, a))
  {
    var t := Apply(cfg, s, a);
    assert s.queue + [cfg.cookie] == [cfg.cookie];
    assert s.toServer + [Cookie(cfg.cookie)] == [Cookie(cfg.cookie)];
    assert Mine([cfg.cookie], cfg.cookie) == 1;
  }

  lemma StrangerKeeps(cfg: Config, s: System, k: nat)
    requires Inv(cfg, s) && Enabled(cfg, s, Stranger(k))
    ensures Inv(cfg, Apply(cfg, s, Stranger(k)))
  {
    MineAppend(s.queue, k, cfg.cookie);
  }

  lemma FromConnected(cfg: Config, s: System, a: Action)
    requires Pairing(cfg, s) && Connected(cfg, s) && Enabled(cfg, s, a) && !a.Stranger?
    ensures Pairing(cfg, Apply(cfg, s, a))
    ensures Connected(cfg, Apply(cfg, s, a)) || Parametrizing(cfg, Apply(cfg, s, a))
  {
    assert s.toServer[1..] == [];
    assert [] + [Byte(PARAM_EXCHANGE)] == [Byte(PARAM_EXCHANGE)];
  }

  lemma FromParametrizing(cfg: Config, s: System, a: Action)
    requires Pairing(cfg, s) && Parametrizing(cfg, s) && Enabled(cfg, s, a) && !a.Stranger?
    ensures Pairing(cfg, Apply(cfg, s, a))
    ensures var t := Apply(cfg, s, a);
            Parametrizing(cfg, t) || CreatingStreams(cfg, t) || Running(cfg, t)
  {
    var t := Apply(cfg, s, a);
    if a.ClientMessage? {
      assert t.toClient == [] && t.toServer == [Parameters(cfg.streams, cfg.reverse, cfg.bidirectional, cfg.omit)];
    } else {
      assert t.toServer == [];
      if Total(cfg) == 0 {
        assert t.toClient == [Byte(CREATE_STREAMS), Byte(TEST_START), Byte(TEST_RUNNING)];
      } else {
        assert t.toClient == [Byte(CREATE_STREAMS)];
      }
    }
  }

  lemma FromCreatingStreams(cfg: Config, s: System, a: Action)
    requires Pairing(cfg, s) && CreatingStreams(cfg, s) && Enabled(cfg, s, a) && !a.Stranger?
    ensures Pairing(cfg, Apply(cfg, s, a))
    ensures CreatingStreams(cfg, Apply(cfg, s, a)) || Running(cfg, Apply(cfg, s, a))
  {
    hide Mine, OpenStream, AcceptConnection, AllSound, Total;
    match a
    case ClientMessage => assert s.toClient[1..] == [];
    case ConnectStream => StreamOpened(cfg, s);
    case Accept => StreamAccepted(cfg, s);
    case _ =>
  }

  lemma StreamOpened(cfg: Config, s: System)
    requires Pairing(cfg, s) && CreatingStreams(cfg, s) && s.client.at.Creating?
    ensures Pairing(cfg, OpenStream(cfg, s)) && CreatingStreams(cfg, OpenStream(cfg, s))
  {
    hide AddStream, Mine;
    MineAppend(s.queue, cfg.cookie, cfg.cookie);
    Added(s.client.streams, ClientSends(cfg, |s.client.streams|));
  }

  /** The server takes the next matching connection as the next stream, in the client's order. */
  lemma StreamAccepted(cfg: Config, s: System)
    requires Pairing(cfg, s) && CreatingStreams(cfg, s) && s.queue != []
    ensures Pairing(cfg, AcceptConnection(s))
    ensures CreatingStreams(cfg, AcceptConnection(s)) || Running(cfg, AcceptConnection(s))
  {
    hide AddStream;
    var t := AcceptConnection(s);
    if s.queue[0] == cfg.cookie {
      Added(s.server.streams, |s.server.streams| >= ToReceive(s.server));
      if |s.server.streams| + 1 == Total(cfg) {
        assert s.toClient == [] && t.toClient == [Byte(TEST_START), Byte(TEST_RUNNING)];
      }
    }
  }

  lemma Added(list: seq<Stream>, sender: bool)
    requires Numbered(list) && AllSound(list)
    ensures var r := AddStream(list, sender);
            Numbered(r) && AllSound(r) && |r| == |list| + 1 && r[..|list|] == list && r[|list|].sender == sender
    ensures forall i :: 0 <= i < |list| ==> AddStream(list, sender)[i] == list[i]
  {
  }

  lemma FromRunning(cfg: Config, s: System, a: Action)
    requires Pairing(cfg, s) && Running(cfg, s) && Enabled(cfg, s, a) && !a.Stranger?
    ensures Pairing(cfg, Apply(cfg, s, a))
    ensures Running(cfg, Apply(cfg, s, a)) || Reporting(cfg, Apply(cfg, s, a))
  {
    hide HandleClientMessage, StartBytes, Total, Mine;
    match a
    case ClientMessage => StartByteTaken(cfg, s);
    case EndTest =>
      RunningBytes(cfg, s.client, s.toClient);
      assert s.toServer + [Byte(TEST_END)] == [Byte(TEST_END)];
    case ServerMessage =>
      assert s.toServer[1..] == [] && s.toClient + [Byte(EXCHANGE_RESULTS)] == [Byte(EXCHANGE_RESULTS)];
    case Accept => MineTail(s.queue, cfg.cookie);
    case ClientTraffic(_, _) => RunningBytes(cfg, s.client, s.toClient);
    case ClientOmitTimer => RunningBytes(cfg, s.client, s.toClient);
    case _ =>
  }

  lemma RunningBytes(cfg: Config, c: Client, toClient: seq<Message>)
    requires c.state == TEST_RUNNING
    ensures StartBytes(cfg, c, toClient) <==> toClient == []
    ensures forall list, omitting ::
      StartBytes(cfg, c.(streams := list, omitting := omitting), toClient) <==> toClient == []
  {
  }

  lemma StartByteTaken(cfg: Config, s: System)
    requires Pairing(cfg, s) && Running(cfg, s) && Enabled(cfg, s, ClientMessage)
    ensures Pairing(cfg, HandleClientMessage(cfg, s)) && Running(cfg, HandleClientMessage(cfg, s))
  {
    assert [Byte(CREATE_STREAMS), Byte(TEST_START), Byte(TEST_RUNNING)][1..] == [Byte(TEST_START), Byte(TEST_RUNNING)];
    assert [Byte(TEST_START), Byte(TEST_RUNNING)][1..] == [Byte(TEST_RUNNING)];
    assert [Byte(TEST_RUNNING)][1..] == [];
  }

  lemma MineTail(queue: seq<nat>, cookie: nat)
    requires queue != [] && Mine(queue, cookie) == 0
    ensures Mine(queue[1..], cookie) == 0 && queue[0] != cookie
  {
  }

  lemma FromReporting(cfg: Config, s: System, a: Action)
    requires Pairing(cfg, s) && Reporting(cfg, s) && Enabled(cfg, s, a) && !a.Stranger?
    ensures Pairing(cfg, Apply(cfg, s, a))
    ensures Reporting(cfg, Apply(cfg, s, a)) || Displaying(cfg, Apply(cfg, s, a))
  {
    var t := Apply(cfg, s, a);
    match a
    case ClientMessage => assert t.toClient == [] && t.toServer == [ResultsFrame(Results(s.client.streams))];
    case ServerResults => ExchangeDisplays(cfg, s);
    case _ =>
  }

  lemma ExchangeDisplays(cfg: Config, s: System)
    requires Pairing(cfg, s) && Reporting(cfg, s) && s.client.at.AwaitResults?
    ensures Pairing(cfg, ExchangeResults(s)) && Displaying(cfg, ExchangeResults(s))
  {
    hide Results, TakeResults;
    ServerMerges(s.client.streams, s.server.streams);
    var t := ExchangeResults(s);
    var list := TakeResults(s.server.streams, Results(s.client.streams)).value;
    assert t.server.streams == list && t.toServer == [];
    assert t.toClient == [ResultsFrame(Results(list)), Byte(DISPLAY_RESULTS)];
  }

  /** The server's half of the exchange: every report finds its stream, and its own measurements stay. */
  lemma ServerMerges(ours: seq<Stream>, theirs: seq<Stream>)
    requires |ours| == |theirs| && Numbered(ours) && Numbered(theirs) && AllSound(theirs)
    requires forall i :: 0 <= i < |ours| ==> ours[i].sender != theirs[i].sender
    ensures TakeResults(theirs, Results(ours)).Some?
    ensures var list := TakeResults(theirs, Results(ours)).value;
            && |list| == |theirs| && Numbered(list) && ReportsFor(list, Results(list))
            && forall i :: 0 <= i < |list| ==> list[i].sender == theirs[i].sender && HasMerged(ours[i], list[i])
  {
    hide TakeResults, Results, Merge, Measured, HasMerged, Sound;
    var reports := Results(ours);
    TakeAll(theirs, reports);
    forall i | 0 <= i < |theirs|
      ensures var s := Merge(theirs[i], reports[i].bytes);
              s.id == theirs[i].id && s.sender == theirs[i].sender && HasMerged(ours[i], s)
    {
      MergeKeeps(ours[i], theirs[i]);
    }
  }

  lemma FromDisplaying(cfg: Config, s: System, a: Action)
    requires Pairing(cfg, s) && Displaying(cfg, s) && Enabled(cfg, s, a) && !a.Stranger?
    ensures Pairing(cfg, Apply(cfg, s, a))
    ensures Displaying(cfg, Apply(cfg, s, a)) || Done(cfg, Apply(cfg, s, a))
  {
    var t := Apply(cfg, s, a);
    match a
    case ClientMessage => assert t.toClient == [] && t.toServer == [Byte(IPERF_DONE)];
    case ClientResults =>
      var reports := s.toClient[0].reports;
      TakeAll(s.client.streams, reports);
      assert t.toClient == [Byte(DISPLAY_RESULTS)];
      if !s.server.lateReset {
        forall i | 0 <= i < |s.client.streams|
          ensures Agree(t.client.streams[i], t.server.streams[i])
        {
          MergeAgrees(s.client.streams[i], s.server.streams[i]);
        }
      }
    case ServerMessage => assert t.toServer == [];
    case Accept => MineTail(s.queue, cfg.cookie);
    case _ =>
  }

  lemma InvKept(cfg: Config, s: System, a: Action)
    requires Inv(cfg, s) && Enabled(cfg, s, a)
    ensures Inv(cfg, Apply(cfg, s, a))
  {
    hide Pairing, Connected, Parametrizing, CreatingStreams, Running, Reporting, Displaying, Apply, Enabled;
    if a.Stranger? {
      StrangerKeeps(cfg, s, a.cookie);
    } else if s == Start(cfg) {
      FromStart(cfg, s, a);
    } else if Connected(cfg, s) {
      FromConnected(cfg, s, a);
    } else if Parametrizing(cfg, s) {
      FromParametrizing(cfg, s, a);
    } else if CreatingStreams(cfg, s) {
      FromCreatingStreams(cfg, s, a);
    } else if Running(cfg, s) {
      FromRunning(cfg, s, a);
    } else if Reporting(cfg, s) {
      FromReporting(cfg, s, a);
    } else if Displaying(cfg, s) {
      FromDisplaying(cfg, s, a);
    } else {
      NothingAfterDone(cfg, s, a);
    }
  }

  lemma NothingAfterDone(cfg: Config, s: System, a: Action)
    requires Done(cfg, s) && !a.Stranger?
    ensures !Enabled(cfg, s, a)
  {
  }

  // ----- whole runs

  /** The state after performing the actions in order; None if one of them was not possible. */
  ghost function After(cfg: Config, run: seq<Action>): Option<System> {
    if run == [] then Some(Start(cfg))
    else
      var before := After(cfg, run[..|run| - 1]);
      var a := run[|run| - 1];
      if before.Some? && Enabled(cfg, before.value, a) then Some(Apply(cfg, before.value, a)) else None
  }

  lemma {:induction false} Reachable(cfg: Config, run: seq<Action>)
    requires After(cfg, run).Some?
    ensures Inv(cfg, After(cfg, run).value)
  {
    hide Inv, Apply, Enabled;
    if run == [] {
      StartInv(cfg);
    } else {
      Reachable(cfg, run[..|run| - 1]);
      InvKept(cfg, After(cfg, run[..|run| - 1]).value, run[|run| - 1]);
    }
  }

  lemma StartInv(cfg: Config)
    ensures Inv(cfg, Start(cfg))
  {
  }

  /** What each side finds when it reads: exactly the kind of message its code expects there. */
  predicate ReadsRight(s: System) {
    && !s.client.at.Failed? && !s.server.at.Broken?
    && (s.client.at.Loop? && s.toClient != [] ==>
          s.toClient[0].Byte? && s.toClient[0].state in
            {PARAM_EXCHANGE, CREATE_STREAMS, TEST_START, TEST_RUNNING, EXCHANGE_RESULTS, DISPLAY_RESULTS})
    && (s.client.at.AwaitResults? && s.toClient != [] ==> s.toClient[0].ResultsFrame?)
    && (s.server.at.AwaitCookie? && s.toServer != [] ==> s.toServer[0].Cookie?)
    && (s.server.at.AwaitParameters? && s.toServer != [] ==> s.toServer[0].Parameters?)
    && (s.server.at.AwaitClientResults? && s.toServer != [] ==> s.toServer[0].ResultsFrame?)
    && (s.server.at.Serving? && s.toServer != [] ==>
          s.toServer[0].Byte? && s.toServer[0].state in {TEST_END, IPERF_DONE})
    && (Byte(TEST_END) in s.toServer ==> s.server.state == TEST_RUNNING)
  }

  /** Safety: in every reachable state no message can be misread or unknown, TEST_END is in flight only while
      the server runs the test, and the streams of the two sides are paired. */
  lemma Safety(cfg: Config, run: seq<Action>)
    requires After(cfg, run).Some?
    ensures ReadsRight(After(cfg, run).value) && Pairing(cfg, After(cfg, run).value)
  {
    hide After;
    Reachable(cfg, run);
    InvReadsRight(cfg, After(cfg, run).value);
  }

  lemma InvReadsRight(cfg: Config, s: System)
    requires Inv(cfg, s)
    ensures ReadsRight(s)
  {
  }

  /** The i-th streams of the two sides: equal ids, used by no other stream, and opposite directions. */
  lemma StreamsPaired(cfg: Config, run: seq<Action>, i: nat, j: nat)
    requires After(cfg, run).Some?
    requires i < |After(cfg, run).value.server.streams| && j < |After(cfg, run).value.client.streams|
    ensures var s := After(cfg, run).value;
            && i < |s.client.streams| && Paired(s.client.streams[i], s.server.streams[i])
            && s.client.streams[i].id == (if i == 0 then 1 else i + 2)
            && s.client.streams[i].sender == (if cfg.bidirectional then i < cfg.streams else !cfg.reverse)
            && (s.client.streams[j].id == s.server.streams[i].id ==> j == i)
  {
    hide After;
    Safety(cfg, run);
    var s := After(cfg, run).value;
    if s.client.streams[j].id == s.server.streams[i].id {
      assert s.client.streams[i].id == s.server.streams[i].id;
      IdsUnique(s.client.streams, i, j);
    }
  }

  /** A connection by anybody else never changes the session: taking it off the queue is all that happens. */
  lemma StrangerDenied(cfg: Config, run: seq<Action>)
    requires After(cfg, run).Some? && Enabled(cfg, After(cfg, run).value, Accept)
    requires After(cfg, run).value.queue[0] != cfg.cookie
    ensures var s := After(cfg, run).value;
            AcceptConnection(s) == s.(queue := s.queue[1..])
  {
    hide After;
    Reachable(cfg, run);
  }

  // ----- progress

  /** Everything but traffic and strangers. */
  predicate ProtocolAction(a: Action) {
    !a.ClientTraffic? && !a.ServerTraffic? && !a.Stranger? && !a.ServerOmitTimer?
  }

  function NextAction(cfg: Config, s: System): Action {
    if s.client.at.Unconnected? then Connect
    else if s.client.at.Creating? then ConnectStream
    else if s.client.at.AwaitResults? && s.toClient != [] then ClientResults
    else if s.client.at.Loop? && s.toClient != [] then ClientMessage
    else if s.client.at.Loop? && s.client.state == TEST_RUNNING then
      if s.client.omitting then ClientOmitTimer else EndTest
    else if s.server.at.AwaitCookie? then ServerCookie
    else if s.server.at.AwaitParameters? then ServerParameters
    else if s.server.at.AwaitClientResults? then ServerResults
    else if s.toServer != [] && s.server.at.Serving? then ServerMessage
    else Accept
  }

  /** Progress: until both sides are in IPERF_DONE, some protocol action is possible. */
  lemma Progress(cfg: Config, run: seq<Action>)
    requires After(cfg, run).Some? && !Done(cfg, After(cfg, run).value)
    ensures var s := After(cfg, run).value;
            ProtocolAction(NextAction(cfg, s)) && Enabled(cfg, s, NextAction(cfg, s))
  {
    hide After;
    Reachable(cfg, run);
    InvProgress(cfg, After(cfg, run).value);
  }

  lemma InvProgress(cfg: Config, s: System)
    requires Inv(cfg, s) && !Done(cfg, s)
    ensures ProtocolAction(NextAction(cfg, s)) && Enabled(cfg, s, NextAction(cfg, s))
  {
    if CreatingStreams(cfg, s) && s.client.at.Loop? && s.toClient == [] {
      assert Mine(s.queue, cfg.cookie) > 0;
    }
  }

  function ClientWeight(c: Client): nat {
    if c.at.Unconnected? then 9
    else if c.state == 0 then 8
    else if c.state == PARAM_EXCHANGE then 7
    else if c.state == CREATE_STREAMS then 6
    else if c.state == TEST_START then 5
    else if c.state == TEST_RUNNING then 4
    else if c.state == TEST_END then 3
    else if c.at.AwaitResults? then 2
    else if c.state == EXCHANGE_RESULTS then 1
    else 0
  }

  function ServerWeight(v: Server): nat {
    match v.at
    case Listening => 7
    case AwaitCookie => 6
    case AwaitParameters => 5
    case Serving => if v.state == CREATE_STREAMS then 4 else if v.state == TEST_RUNNING then 3 else 1
    case AwaitClientResults => 2
    case _ => 0
  }

  /** How much of the protocol is still ahead. */
  function Ahead(cfg: Config, s: System): int {
    3 * ClientWeight(s.client) + 3 * ServerWeight(s.server) + 2 * (Total(cfg) - |s.client.streams|) + |s.queue|
    + (if s.client.omitting then 1 else 0) + (if s.server.omitting then 1 else 0)
  }

  predicate Traffic(a: Action) {
    a.ClientTraffic? || a.ServerTraffic?
  }

  lemma AheadOfClientMessage(cfg: Config, s: System)
    requires Inv(cfg, s) && Enabled(cfg, s, ClientMessage)
    ensures Ahead(cfg, HandleClientMessage(cfg, s)) < Ahead(cfg, s)
  {
    hide Pairing, AllSound, Mine, Knows, AllMerged, AllAgree, AllReset, ReportsFor, Results;
  }

  lemma AheadOfServerMessage(cfg: Config, s: System)
    requires Inv(cfg, s) && Enabled(cfg, s, ServerMessage)
    ensures Ahead(cfg, HandleServerMessage(s)) < Ahead(cfg, s)
  {
    hide Pairing, AllSound, Mine, Knows, AllMerged, AllAgree, AllReset, ReportsFor, Results;
  }

  lemma AheadOfResults(cfg: Config, s: System)
    requires Inv(cfg, s)
    ensures Enabled(cfg, s, ClientResults) ==> Ahead(cfg, TakeServerResults(s)) < Ahead(cfg, s)
    ensures Enabled(cfg, s, ServerResults) ==> Ahead(cfg, ExchangeResults(s)) < Ahead(cfg, s)
  {
    hide AllSound, Mine, Knows, AllMerged, AllAgree, AllReset, Results, TakeResults;
    if Displaying(cfg, s) && s.client.at.AwaitResults? {
      TakeAll(s.client.streams, s.toClient[0].reports);
    } else if Reporting(cfg, s) && s.client.at.AwaitResults? {
      TakeAll(s.server.streams, Results(s.client.streams));
    }
  }

  lemma AheadOfAccept(cfg: Config, s: System)
    requires Inv(cfg, s) && Enabled(cfg, s, Accept)
    ensures Ahead(cfg, AcceptConnection(s)) < Ahead(cfg, s)
  {
    hide Pairing, AllSound, Mine, Knows, AllMerged, AllAgree, AllReset, ReportsFor, Results, AddStream;
  }

  lemma AheadOfSetup(cfg: Config, s: System, a: Action)
    requires Inv(cfg, s) && Enabled(cfg, s, a)
    requires a.Connect? || a.ConnectStream? || a.Accept? || a.ServerCookie? || a.ServerParameters?
    ensures Ahead(cfg, Apply(cfg, s, a)) < Ahead(cfg, s)
  {
    hide Pairing, AllSound, Mine, Knows, AllMerged, AllAgree, AllReset, ReportsFor, Results, AcceptConnection;
    if a.Accept? {
      AheadOfAccept(cfg, s);
    }
  }

  lemma AheadOfRest(cfg: Config, s: System, a: Action)
    requires Inv(cfg, s) && Enabled(cfg, s, a)
    ensures a.EndTest? || a.ClientOmitTimer? || a.ServerOmitTimer? ==> Ahead(cfg, Apply(cfg, s, a)) < Ahead(cfg, s)
    ensures Traffic(a) ==> Ahead(cfg, Apply(cfg, s, a)) == Ahead(cfg, s)
    ensures a.Stranger? ==> Ahead(cfg, Apply(cfg, s, a)) == Ahead(cfg, s) + 1
  {
    hide Inv;
  }

  /** Every action but traffic and strangers brings the end nearer. */
  lemma StepAhead(cfg: Config, s: System, a: Action)
    requires Inv(cfg, s) && Enabled(cfg, s, a)
    ensures !Traffic(a) && !a.Stranger? ==> Ahead(cfg, Apply(cfg, s, a)) < Ahead(cfg, s)
    ensures Traffic(a) ==> Ahead(cfg, Apply(cfg, s, a)) == Ahead(cfg, s)
    ensures a.Stranger? ==> Ahead(cfg, Apply(cfg, s, a)) == Ahead(cfg, s) + 1
  {
    hide Inv, Ahead, HandleClientMessage, HandleServerMessage, TakeServerResults, ExchangeResults;
    match a
    case ClientMessage => AheadOfClientMessage(cfg, s);
    case ServerMessage => AheadOfServerMessage(cfg, s);
    case ClientResults => AheadOfResults(cfg, s);
    case ServerResults => AheadOfResults(cfg, s);
    case EndTest => AheadOfRest(cfg, s, a);
    case ClientOmitTimer => AheadOfRest(cfg, s, a);
    case ServerOmitTimer => AheadOfRest(cfg, s, a);
    case ClientTraffic(_, _) => AheadOfRest(cfg, s, a);
    case ServerTraffic(_, _) => AheadOfRest(cfg, s, a);
    case Stranger(_) => AheadOfRest(cfg, s, a);
    case _ => AheadOfSetup(cfg, s, a);
  }

  function Work(run: seq<Action>): nat {
    if run == [] then 0
    else
      var a := run[|run| - 1];
      Work(run[..|run| - 1]) + (if Traffic(a) || a.Stranger? then 0 else 1)
  }

  function Arrivals(run: seq<Action>): nat {
    if run == [] then 0 else Arrivals(run[..|run| - 1]) + (if run[|run| - 1].Stranger? then 1 else 0)
  }

  /** Termination: a run performs at most 48 + 2 * streams protocol actions and one more per stranger. */
  lemma {:induction false} WorkBounded(cfg: Config, run: seq<Action>)
    requires After(cfg, run).Some?
    ensures Work(run) + Ahead(cfg, After(cfg, run).value) <= 48 + 2 * Total(cfg) + Arrivals(run)
    ensures Work(run) <= 48 + 2 * Total(cfg) + Arrivals(run)
  {
    hide Ahead, Apply, Enabled, Traffic, Inv;
    Reachable(cfg, run);
    AheadPositive(cfg, After(cfg, run).value);
    if run == [] {
      assert Ahead(cfg, Start(cfg)) == 48 + 2 * Total(cfg) by { StartAhead(cfg); }
    } else {
      var before := After(cfg, run[..|run| - 1]).value;
      WorkBounded(cfg, run[..|run| - 1]);
      Reachable(cfg, run[..|run| - 1]);
      StepAhead(cfg, before, run[|run| - 1]);
    }
  }

  lemma StartAhead(cfg: Config)
    ensures Ahead(cfg, Start(cfg)) == 48 + 2 * Total(cfg)
  {
  }

  lemma AheadPositive(cfg: Config, s: System)
    requires Inv(cfg, s)
    ensures Ahead(cfg, s) >= 0
  {
  }

  // ----- agreement

  /** The server has read the client's results and sent its own. */
  predicate Exchanged(v: Server) {
    v.state == DISPLAY_RESULTS || v.state == IPERF_DONE
  }

  lemma ExchangedBy(cfg: Config, s: System, a: Action)
    requires Inv(cfg, s) && Enabled(cfg, s, a)
    ensures Exchanged(Apply(cfg, s, a).server) <==> Exchanged(s.server) || a.ServerResults?
    ensures Apply(cfg, s, a).server.lateReset <==> s.server.lateReset || (a.ServerOmitTimer? && Exchanged(s.server))
  {
    hide Pairing, AllSound, Mine, AllMerged, AllAgree, AllReset, Results, TakeResults, Count, ResetStats, AddStream;
    if a.ServerResults? {
      ExchangeDisplays(cfg, s);
    }
  }

  /** The exchange has taken place among the first `k` actions. */
  ghost predicate ExchangedBefore(run: seq<Action>, k: nat)
    requires k <= |run|
  {
    exists i :: 0 <= i < k && run[i].ServerResults?
  }

  /** The server's omit timer fired after the exchange. */
  ghost predicate LateReset(run: seq<Action>) {
    exists j :: 0 <= j < |run| && run[j].ServerOmitTimer? && ExchangedBefore(run, j)
  }

  /** What the state says about the history. */
  lemma {:induction false} History(cfg: Config, run: seq<Action>)
    requires After(cfg, run).Some?
    ensures Exchanged(After(cfg, run).value.server) <==> ExchangedBefore(run, |run|)
    ensures After(cfg, run).value.server.lateReset <==> LateReset(run)
  {
    hide Inv, Apply, Enabled, Exchanged;
    if run == [] {
      StartHistory(cfg);
    } else {
      var n := |run| - 1;
      var init, a := run[..n], run[n];
      var s := After(cfg, init).value;
      History(cfg, init);
      Reachable(cfg, init);
      ExchangedBy(cfg, s, a);
      HistoryStep(run);
    }
  }

  lemma StartHistory(cfg: Config)
    ensures !Exchanged(Start(cfg).server) && !Start(cfg).server.lateReset
  {
  }

  lemma HistoryStep(run: seq<Action>)
    requires run != []
    ensures var n := |run| - 1;
            && (ExchangedBefore(run, |run|) <==> ExchangedBefore(run[..n], n) || run[n].ServerResults?)
            && (LateReset(run) <==> LateReset(run[..n]) || (run[n].ServerOmitTimer? && ExchangedBefore(run[..n], n)))
  {
    var n := |run| - 1;
    forall k | 0 <= k <= n
      ensures ExchangedBefore(run, k) <==> ExchangedBefore(run[..n], k)
    {
      if ExchangedBefore(run, k) {
        var i :| 0 <= i < k && run[i].ServerResults?;
        assert run[..n][i].ServerResults?;
      }
    }
    if ExchangedBefore(run, |run|) && !run[n].ServerResults? {
      var i :| 0 <= i < |run| && run[i].ServerResults?;
      assert run[..n][i].ServerResults?;
    }
    if LateReset(run[..n]) {
      var j :| 0 <= j < n && run[..n][j].ServerOmitTimer? && ExchangedBefore(run[..n], j);
      assert run[j].ServerOmitTimer?;
    }
  }

  /** A run that can do no more protocol action has ended properly: both sides in IPERF_DONE with all streams
      paired, and they agree on every stream if and only if the server's omit timer did not fire after the exchange,
      or every count of the client is zero. */
  lemma Completion(cfg: Config, run: seq<Action>)
    requires After(cfg, run).Some?
    requires forall a :: ProtocolAction(a) ==> !Enabled(cfg, After(cfg, run).value, a)
    ensures var s := After(cfg, run).value;
            && s.client.state == IPERF_DONE && s.server.state == IPERF_DONE
            && |s.client.streams| == |s.server.streams| == Total(cfg)
            && (AllAgree(s) <==> !LateReset(run) || AllReset(s.client.streams))
  {
    hide After, Enabled, LateReset;
    var s := After(cfg, run).value;
    Reachable(cfg, run);
    History(cfg, run);
    if !Done(cfg, s) {
      Progress(cfg, run);
    }
    DoneAgrees(cfg, s);
  }

  lemma DoneAgrees(cfg: Config, s: System)
    requires Done(cfg, s)
    ensures AllAgree(s) <==> !s.server.lateReset || AllReset(s.client.streams)
  {
    if s.server.lateReset {
      assert forall i :: 0 <= i < |s.client.streams| ==>
        var c := s.client.streams[i];
        Agree(c, s.server.streams[i]) <==> NetSent(c) == 0 && c.received == 0;
    }
  }
}
