/** What the two sides agree on: byte counts as sums over the traffic of the run. */
module ControlTraffic {
  import opened Common
  import opened Streams
  import opened Control
  import opened ControlProof

  // ----- sums over a run

  /** Bytes the action moves on stream `i` of the given side. */
  function Moved(a: Action, client: bool, i: nat): nat {
    match a
    case ClientTraffic(k, n) => if client && k == i then n else 0
    case ServerTraffic(k, n) => if !client && k == i then n else 0
    case _ => 0
  }

  predicate EndsOmit(a: Action, client: bool) {
    if client then a.ClientOmitTimer? else a.ServerOmitTimer?
  }

  /** Bytes moved on stream `i` of one side by the actions from number `from` on. */
  function Sum(run: seq<Action>, from: nat, client: bool, i: nat): nat {
    if |run| <= from then 0 else Sum(run[..|run| - 1], from, client, i) + Moved(run[|run| - 1], client, i)
  }

  /** The number of actions up to and including the last omit timer of one side. */
  function OmitEnd(run: seq<Action>, client: bool): (k: nat)
    ensures k <= |run| && (k > 0 ==> EndsOmit(run[k - 1], client))
    ensures forall j :: k <= j < |run| ==> !EndsOmit(run[j], client)
  {
    if run == [] then 0
    else if EndsOmit(run[|run| - 1], client) then |run|
    else OmitEnd(run[..|run| - 1], client)
  }

  /** Bytes moved on stream `i` of one side since its omit period. */
  function Since(run: seq<Action>, client: bool, i: nat): nat {
    Sum(run, OmitEnd(run, client), client, i)
  }

  lemma SinceStep(run: seq<Action>, client: bool, i: nat)
    requires run != []
    ensures var n := |run| - 1;
            Since(run, client, i)
            == if EndsOmit(run[n], client) then 0 else Since(run[..n], client, i) + Moved(run[n], client, i)
  {
  }

  // ----- the counts of one side follow its traffic

  /** What a side has counted itself, in the stream's own direction. */
  function Own(s: Stream): int {
    if s.sender then s.sent - s.omitted else s.received
  }

  /** One action as the streams of one side see it. */
  ghost predicate CountsOn(before: seq<Stream>, after: seq<Stream>, a: Action, client: bool) {
    && |before| <= |after|
    && (forall i :: 0 <= i < |before| ==>
          Own(after[i]) == if EndsOmit(a, client) then 0 else Own(before[i]) + Moved(a, client, i))
    && (forall i :: |before| <= i < |after| ==> Own(after[i]) == 0)
    && (forall i :: |before| <= i ==> Moved(a, client, i) == 0)
  }

  lemma MergedCounts(list: seq<Stream>, after: seq<Stream>, reports: seq<Report>, a: Action, client: bool)
    requires MergedTo(list, after, reports) && !EndsOmit(a, client) && forall i :: Moved(a, client, i) == 0
    ensures CountsOn(list, after, a, client)
  {
  }

  /** Everything but the exchange of results. */
  lemma ClientCountsPlain(cfg: Config, s: System, a: Action)
    requires Enabled(cfg, s, a) && !a.ClientResults?
    ensures CountsOn(s.client.streams, Apply(cfg, s, a).client.streams, a, true)
  {
    hide Results, TakeResults;
  }

  lemma ServerCountsPlain(cfg: Config, s: System, a: Action)
    requires Enabled(cfg, s, a) && !a.ServerResults?
    ensures CountsOn(s.server.streams, Apply(cfg, s, a).server.streams, a, false)
  {
    hide Results, TakeResults;
  }

  lemma ClientCounts(cfg: Config, s: System, a: Action)
    requires Inv(cfg, s) && Enabled(cfg, s, a)
    ensures CountsOn(s.client.streams, Apply(cfg, s, a).client.streams, a, true)
  {
    hide CountsOn, Pairing, AllSound, Mine, Knows, AllMerged, AllAgree, AllReset, Results, TakeResults;
    if a.ClientResults? {
      assert Displaying(cfg, s);
      PairingNumbers(cfg, s);
      TakeAll(s.client.streams, s.toClient[0].reports);
      MergedCounts(s.client.streams, TakeServerResults(s).client.streams, s.toClient[0].reports, a, true);
    } else {
      hide Apply, Enabled;
      ClientCountsPlain(cfg, s, a);
    }
  }

  lemma PairingNumbers(cfg: Config, s: System)
    requires Pairing(cfg, s)
    ensures Numbered(s.client.streams) && Numbered(s.server.streams)
  {
  }

  lemma ServerCounts(cfg: Config, s: System, a: Action)
    requires Inv(cfg, s) && Enabled(cfg, s, a)
    ensures CountsOn(s.server.streams, Apply(cfg, s, a).server.streams, a, false)
  {
    hide CountsOn, Pairing, AllSound, Mine, Knows, AllMerged, AllAgree, AllReset, TakeResults;
    if a.ServerResults? {
      assert Reporting(cfg, s);
      PairingNumbers(cfg, s);
      TakeAll(s.server.streams, Results(s.client.streams));
      MergedCounts(s.server.streams, ExchangeResults(s).server.streams, Results(s.client.streams), a, false);
    } else {
      hide Apply, Enabled;
      ServerCountsPlain(cfg, s, a);
    }
  }

  ghost predicate Counted(list: seq<Stream>, run: seq<Action>, client: bool) {
    && (forall i :: 0 <= i < |list| ==> Own(list[i]) == Since(run, client, i))
    && (forall i :: |list| <= i ==> Since(run, client, i) == 0)
  }

  lemma CountedStep(before: seq<Stream>, after: seq<Stream>, run: seq<Action>, client: bool)
    requires run != [] && Counted(before, run[..|run| - 1], client) && CountsOn(before, after, run[|run| - 1], client)
    ensures Counted(after, run, client)
  {
    hide Since, Own, Moved;
    forall i: nat
      ensures var n := |run| - 1;
              Since(run, client, i)
              == if EndsOmit(run[n], client) then 0 else Since(run[..n], client, i) + Moved(run[n], client, i)
    {
      SinceStep(run, client, i);
    }
  }

  /** In every reachable state each side's own count of every stream is the traffic since its omit period. */
  lemma {:induction false} TrafficCounted(cfg: Config, run: seq<Action>)
    requires After(cfg, run).Some?
    ensures Counted(After(cfg, run).value.client.streams, run, true)
    ensures Counted(After(cfg, run).value.server.streams, run, false)
  {
    hide Inv, Apply, Enabled, Counted, CountsOn;
    if run == [] {
      NothingCounted(cfg);
    } else {
      var n := |run| - 1;
      var s := After(cfg, run[..n]).value;
      var t := After(cfg, run).value;
      TrafficCounted(cfg, run[..n]);
      Reachable(cfg, run[..n]);
      ClientCounts(cfg, s, run[n]);
      ServerCounts(cfg, s, run[n]);
      CountedStep(s.client.streams, t.client.streams, run, true);
      CountedStep(s.server.streams, t.server.streams, run, false);
    }
  }

  lemma NothingCounted(cfg: Config)
    ensures Counted(Start(cfg).client.streams, [], true) && Counted(Start(cfg).server.streams, [], false)
  {
  }

  // ----- the pair both sides end with

  /** Both sides hold these bytes sent and received for the stream. */
  predicate Holds(c: Stream, s: Stream, sent: int, received: int) {
    c.sent - c.omitted == sent && s.sent - s.omitted == sent && c.received == received && s.received == received
  }

  /** A completed run without a late omit timer: both sides hold, for every stream, the bytes its sending side sent
      and the bytes its receiving side received since their omit periods. */
  lemma FinalCounts(cfg: Config, run: seq<Action>, i: nat)
    requires After(cfg, run).Some? && !LateReset(run) && i < Total(cfg)
    requires forall a :: ProtocolAction(a) ==> !Enabled(cfg, After(cfg, run).value, a)
    ensures var s := After(cfg, run).value;
            var sends := if cfg.bidirectional then i < cfg.streams else !cfg.reverse;
            && |s.client.streams| == |s.server.streams| == Total(cfg)
            && Holds(s.client.streams[i], s.server.streams[i], Since(run, sends, i), Since(run, !sends, i))
  {
    hide After, Enabled, LateReset, Since;
    Completion(cfg, run);
    TrafficCounted(cfg, run);
    Safety(cfg, run);
    var s := After(cfg, run).value;
    assert Agree(s.client.streams[i], s.server.streams[i]);
  }
}
