/** The control protocol: client, server, the two directions of the control connection, and the listener's
    accept queue, as a state machine. */
module Control {
  import opened Common
  import opened Streams

  // ----- wire values

  const TEST_START: int := 1
  const TEST_RUNNING: int := 2
  const TEST_END: int := 4
  const PARAM_EXCHANGE: int := 9
  const CREATE_STREAMS: int := 10
  const SERVER_TERMINATE: int := 11
  const CLIENT_TERMINATE: int := 12
  const EXCHANGE_RESULTS: int := 13
  const DISPLAY_RESULTS: int := 14
  const IPERF_START: int := 15
  const IPERF_DONE: int := 16

  datatype Mode = Sender | Receiver | Bidirectional

  /** The test as configured on the client's command line. */
  datatype Config = Config(cookie: nat, streams: nat, reverse: bool, bidirectional: bool, omit: bool)

  /** What is written to the control connection: a state byte, the cookie, or a JSON frame. */
  datatype Message =
    | Byte(state: int)
    | Cookie(cookie: nat)
    | Parameters(streams: nat, reverse: bool, bidirectional: bool, omit: bool)
    | ResultsFrame(reports: seq<Report>)

  // ----- the two processes

  /** `Loop` is the select loop; the others are blocking calls inside a handler. */
  datatype ClientAt = Unconnected | Loop | Creating | AwaitResults | Finished | Failed

  datatype Client = Client(at: ClientAt, state: int, omitting: bool, streams: seq<Stream>)

  datatype ServerAt = Listening | AwaitCookie | AwaitParameters | Serving | AwaitClientResults | Ended | Broken

  /** `lateReset` records that the omit timer fired after the results had been sent. */
  datatype Server = Server(at: ServerAt, state: int, cookie: nat, mode: Mode, streamCount: nat, omit: bool,
                           omitting: bool, lateReset: bool, streams: seq<Stream>)

  /** `toServer` and `toClient` are the bytes in flight; `queue` holds the cookies of connections that the
      listener has not accepted yet. */
  datatype System = System(client: Client, server: Server, toServer: seq<Message>, toClient: seq<Message>,
                           queue: seq<nat>)

  /** The mode `get_parameters` leaves the server in. */
  function ServerMode(reverse: bool, bidirectional: bool): Mode {
    if bidirectional then Bidirectional else if reverse then Sender else Receiver
  }

  function Total(cfg: Config): nat {
    if cfg.bidirectional then 2 * cfg.streams else cfg.streams
  }

  /** `iperf_create_streams` on the client: in bidirectional mode first the senders, then the receivers. */
  function ClientSends(cfg: Config, index: nat): bool {
    if cfg.bidirectional then index < cfg.streams else !cfg.reverse
  }

  /** Streams the server accepts as receiver and as sender. */
  function ToReceive(s: Server): nat {
    if s.mode.Sender? then 0 else s.streamCount
  }

  function ToSend(s: Server): nat {
    if s.mode.Receiver? then 0 else s.streamCount
  }

  function Start(cfg: Config): System {
    System(Client(Unconnected, 0, false, []),
           Server(Listening, IPERF_START, 0, Receiver, 1, false, false, false, []), [], [], [])
  }

  // ----- what can happen

  datatype Action =
    | Connect
    | ClientMessage
    | ConnectStream
    | EndTest
    | ClientResults
    | ClientTraffic(index: nat, bytes: nat)
    | ClientOmitTimer
    | Accept
    | ServerCookie
    | ServerParameters
    | ServerMessage
    | ServerResults
    | ServerTraffic(index: nat, bytes: nat)
    | ServerOmitTimer
    | Stranger(cookie: nat)

  predicate Enabled(cfg: Config, s: System, a: Action) {
    match a
    case Connect => s.client.at.Unconnected?
    case ClientMessage => s.client.at.Loop? && s.client.state != IPERF_DONE && s.toClient != []
    case ConnectStream => s.client.at.Creating?
    case EndTest => s.client.at.Loop? && s.client.state == TEST_RUNNING && !s.client.omitting
    case ClientResults => s.client.at.AwaitResults? && s.toClient != []
    case ClientTraffic(i, _) => s.client.at.Loop? && s.client.state == TEST_RUNNING && i < |s.client.streams|
    case ClientOmitTimer => s.client.at.Loop? && s.client.state == TEST_RUNNING && s.client.omitting
    case Accept => (s.server.at.Listening? || s.server.at.Serving?) && s.queue != []
    case ServerCookie => s.server.at.AwaitCookie? && s.toServer != []
    case ServerParameters => s.server.at.AwaitParameters? && s.toServer != []
    case ServerMessage => s.server.at.Serving? && s.toServer != []
    case ServerResults => s.server.at.AwaitClientResults? && s.toServer != []
    case ServerTraffic(i, _) => s.server.at.Serving? && s.server.state == TEST_RUNNING && i < |s.server.streams|
    case ServerOmitTimer => s.server.at.Serving? && s.server.omitting
    case Stranger(k) => !s.client.at.Unconnected? && k != cfg.cookie
  }

  function Apply(cfg: Config, s: System, a: Action): System
    requires Enabled(cfg, s, a)
  {
    match a
    case Connect => s.(client := s.client.(at := Loop), toServer := s.toServer + [Cookie(cfg.cookie)],
                       queue := s.queue + [cfg.cookie])
    case ClientMessage => HandleClientMessage(cfg, s)
    case ConnectStream => OpenStream(cfg, s)
    case EndTest => s.(client := s.client.(state := TEST_END), toServer := s.toServer + [Byte(TEST_END)])
    case ClientResults => TakeServerResults(s)
    case ClientTraffic(i, n) => s.(client := s.client.(streams := Count(s.client.streams, i, n)))
    case ClientOmitTimer => s.(client := s.client.(omitting := false, streams := ResetStats(s.client.streams)))
    case Accept => AcceptConnection(s)
    case ServerCookie => TakeCookie(s)
    case ServerParameters => TakeParameters(s)
    case ServerMessage => HandleServerMessage(s)
    case ServerResults => ExchangeResults(s)
    case ServerTraffic(i, n) => s.(server := s.server.(streams := Count(s.server.streams, i, n)))
    case ServerOmitTimer =>
      s.(server := s.server.(omitting := false, streams := ResetStats(s.server.streams),
                             lateReset := s.server.lateReset || s.server.state != TEST_RUNNING))
    case Stranger(k) => s.(queue := s.queue + [k])
  }

  /** Bytes counted on one stream while the test runs, in the stream's own direction. */
  function Count(list: seq<Stream>, i: nat, n: nat): (r: seq<Stream>)
    requires i < |list|
  {
    list[i := if list[i].sender then list[i].(sent := list[i].sent + n) else list[i].(received := list[i].received + n)]
  }

  /** `iperf_reset_stats`, per stream. */
  function ResetStats(list: seq<Stream>): (r: seq<Stream>)
    ensures |r| == |list|
    ensures forall i :: 0 <= i < |list| ==> r[i] == list[i].(omitted := list[i].sent, received := 0)
  {
    seq(|list|, i requires 0 <= i < |list| => list[i].(omitted := list[i].sent, received := 0))
  }

  /** `iperf_handle_message_client`: one byte, then the handler of its state. */
  function HandleClientMessage(cfg: Config, s: System): System
    requires Enabled(cfg, s, ClientMessage)
  {
    var m, rest := s.toClient[0], s.toClient[1..];
    if !m.Byte? then s.(client := s.client.(at := Failed))
    else
      var c := s.client.(state := m.state);
      if m.state == PARAM_EXCHANGE then
        s.(client := c, toClient := rest,
           toServer := s.toServer + [Parameters(cfg.streams, cfg.reverse, cfg.bidirectional, cfg.omit)])
      else if m.state == CREATE_STREAMS then
        s.(client := c.(at := if Total(cfg) == 0 then Loop else Creating), toClient := rest)
      else if m.state == TEST_START then
        s.(client := c.(omitting := cfg.omit), toClient := rest)
      else if m.state == TEST_RUNNING || m.state == IPERF_DONE then
        s.(client := c, toClient := rest)
      else if m.state == EXCHANGE_RESULTS then
        s.(client := c.(at := AwaitResults), toClient := rest,
           toServer := s.toServer + [ResultsFrame(Results(c.streams))])
      else if m.state == DISPLAY_RESULTS then
        s.(client := c.(at := Finished, state := IPERF_DONE), toClient := rest,
           toServer := s.toServer + [Byte(IPERF_DONE)])
      else s.(client := c.(at := Failed), toClient := rest)
  }

  /** One connection of `iperf_create_streams`; it sends the session cookie right away. */
  function OpenStream(cfg: Config, s: System): System
    requires Enabled(cfg, s, ConnectStream)
  {
    var list := AddStream(s.client.streams, ClientSends(cfg, |s.client.streams|));
    s.(client := s.client.(streams := list, at := if |list| >= Total(cfg) then Loop else Creating),
       queue := s.queue + [cfg.cookie])
  }

  function TakeServerResults(s: System): System
    requires s.toClient != []
  {
    var m := s.toClient[0];
    if m.ResultsFrame? && TakeResults(s.client.streams, m.reports).Some? then
      s.(client := s.client.(at := Loop, streams := TakeResults(s.client.streams, m.reports).value),
         toClient := s.toClient[1..])
    else s.(client := s.client.(at := Failed))
  }

  /** The listener is readable: a control connection if there is none yet, a data stream while streams are
      being created, and otherwise a connection that is told ACCESS_DENIED and closed. */
  function AcceptConnection(s: System): System
    requires s.queue != []
  {
    var rest := s.queue[1..];
    if s.server.at.Listening? then s.(server := s.server.(at := AwaitCookie), queue := rest)
    else if s.server.state == CREATE_STREAMS && s.queue[0] == s.server.cookie then
      var streams := AddStream(s.server.streams, |s.server.streams| >= ToReceive(s.server));
      StartIfComplete(s.(server := s.server.(streams := streams), queue := rest))
    else s.(queue := rest)
  }

  /** Once every stream is there: TEST_START, then TEST_RUNNING. */
  function StartIfComplete(s: System): System {
    if |s.server.streams| == ToReceive(s.server) + ToSend(s.server) then
      s.(server := s.server.(state := TEST_RUNNING, omitting := s.server.omit),
         toClient := s.toClient + [Byte(TEST_START), Byte(TEST_RUNNING)])
    else s
  }

  function TakeCookie(s: System): System
    requires s.toServer != []
  {
    var m := s.toServer[0];
    if m.Cookie? then
      s.(server := s.server.(at := AwaitParameters, state := PARAM_EXCHANGE, cookie := m.cookie),
         toServer := s.toServer[1..], toClient := s.toClient + [Byte(PARAM_EXCHANGE)])
    else s.(server := s.server.(at := Broken))
  }

  function TakeParameters(s: System): System
    requires s.toServer != []
  {
    var m := s.toServer[0];
    if m.Parameters? then
      StartIfComplete(s.(server := s.server.(at := Serving, state := CREATE_STREAMS, streamCount := m.streams,
                                             mode := ServerMode(m.reverse, m.bidirectional), omit := m.omit),
                         toServer := s.toServer[1..], toClient := s.toClient + [Byte(CREATE_STREAMS)]))
    else s.(server := s.server.(at := Broken))
  }

  /** `iperf_handle_message_server`. */
  function HandleServerMessage(s: System): System
    requires s.toServer != []
  {
    var m, rest := s.toServer[0], s.toServer[1..];
    if !m.Byte? then s.(server := s.server.(at := Broken))
    else if m.state == TEST_START then s.(server := s.server.(state := TEST_START), toServer := rest)
    else if m.state == TEST_END then
      s.(server := s.server.(at := AwaitClientResults, state := EXCHANGE_RESULTS), toServer := rest,
         toClient := s.toClient + [Byte(EXCHANGE_RESULTS)])
    else if m.state == IPERF_DONE || m.state == CLIENT_TERMINATE then
      s.(server := s.server.(at := Ended, state := IPERF_DONE), toServer := rest)
    else s.(server := s.server.(at := Broken, state := m.state), toServer := rest)
  }

  /** The rest of the TEST_END handler: read the client's results, send ours, then DISPLAY_RESULTS. */
  function ExchangeResults(s: System): System
    requires s.toServer != []
  {
    var m := s.toServer[0];
    if m.ResultsFrame? && TakeResults(s.server.streams, m.reports).Some? then
      var list := TakeResults(s.server.streams, m.reports).value;
      s.(server := s.server.(at := Serving, state := DISPLAY_RESULTS, streams := list), toServer := s.toServer[1..],
         toClient := s.toClient + [ResultsFrame(Results(list)), Byte(DISPLAY_RESULTS)])
    else s.(server := s.server.(at := Broken))
  }
}
