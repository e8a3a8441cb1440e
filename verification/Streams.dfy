/** The data streams of a test: numbering, and the exchange of per-stream results. */
module Streams {
  import opened Common

  datatype Stream = Stream(id: nat, sender: bool, sent: int, omitted: int, received: int)

  /** One entry of the "streams" array in a results frame. */
  datatype Report = Report(id: nat, bytes: int)

  /** `iperf_add_stream`: ids run 1, 3, 4, 5, … */
  function StreamId(index: nat): (id: nat)
    ensures id > 0
  {
    if index == 0 then 1 else index + 2
  }

  /** The walk to the end of the list that gives a new stream its id. */
  method NewId(list: seq<Stream>) returns (id: nat)
    ensures id == StreamId(|list|)
    ensures list == [] ==> id == 1
    ensures |list| == 1 ==> id == 3
  {
    if list == [] {
      return 1;
    }
    id := 2;
    var k := 0;
    while k < |list|
      invariant 0 <= k <= |list| && id == k + 2
    {
      id, k := id + 1, k + 1;
    }
  }

  function AddStream(list: seq<Stream>, sender: bool): seq<Stream> {
    list + [Stream(StreamId(|list|), sender, 0, 0, 0)]
  }

  ghost predicate Numbered(list: seq<Stream>) {
    forall i :: 0 <= i < |list| ==> list[i].id == StreamId(i)
  }

  /** Equal ids mean the same index. */
  lemma IdsUnique(list: seq<Stream>, i: nat, j: nat)
    requires Numbered(list) && i < |list| && j < |list| && list[i].id == list[j].id
    ensures i == j
  {
  }

  /** What `send_results` reports for a stream: bytes sent after the omitted period, or bytes received. */
  function Measured(s: Stream): int {
    if s.sender then s.sent - s.omitted else s.received
  }

  function Results(list: seq<Stream>): (r: seq<Report>)
    ensures |r| == |list|
    ensures forall i :: 0 <= i < |list| ==> r[i] == Report(list[i].id, Measured(list[i]))
  {
    if list == [] then []
    else
      var last := list[|list| - 1];
      Results(list[..|list| - 1]) + [Report(last.id, Measured(last))]
  }

  /** The peer's count fills in the direction this side did not measure. */
  function Merge(s: Stream, bytes: int): Stream {
    if s.sender then s.(received := bytes) else s.(sent := bytes)
  }

  /** Index of the first stream with the id, as the search in `get_results`; |list| if there is none. */
  function Find(list: seq<Stream>, id: nat): (k: nat)
    ensures k <= |list| && (k < |list| ==> list[k].id == id)
    ensures forall i :: 0 <= i < k ==> list[i].id != id
  {
    if list == [] || list[0].id == id then 0
    else
      var q := Find(list[1..], id);
      assert forall i :: 1 <= i < q + 1 ==> list[i] == list[1..][i - 1];
      q + 1
  }

  /** `get_results`: apply every report to the stream with its id; an unknown id is an error. */
  function TakeResults(list: seq<Stream>, reports: seq<Report>): Option<seq<Stream>>
    decreases |reports|
  {
    if reports == [] then Some(list)
    else
      var k := Find(list, reports[0].id);
      if k == |list| then None
      else TakeResults(list[k := Merge(list[k], reports[0].bytes)], reports[1..])
  }

  /** The two nested loops of `get_results`. After an unknown id the loop goes on, but the exchange has failed. */
  method GetResults(streams: seq<Stream>, reports: seq<Report>) returns (r: Option<seq<Stream>>)
    ensures r == TakeResults(streams, reports)
  {
    var list, failed, i := streams, false, 0;
    assert reports[0..] == reports;
    while i < |reports|
      invariant 0 <= i <= |reports|
      invariant TakeResults(streams, reports) == if failed then None else TakeResults(list, reports[i..])
    {
      assert reports[i..][0] == reports[i] && reports[i..][1..] == reports[i + 1..];
      var k := 0;
      while k < |list| && list[k].id != reports[i].id
        invariant 0 <= k <= |list| && forall j :: 0 <= j < k ==> list[j].id != reports[i].id
      {
        k := k + 1;
      }
      if k == |list| {
        failed := true;
      } else {
        list := list[k := Merge(list[k], reports[i].bytes)];
      }
      i := i + 1;
    }
    r := if failed then None else Some(list);
  }

  ghost predicate Names(list: seq<Stream>, id: nat) {
    exists i :: 0 <= i < |list| && list[i].id == id
  }

  /** The exchange succeeds if and only if every report names a stream; then ids and directions stay, and streams that
      no report names are as they were. */
  lemma {:induction false} TakeResultsIff(list: seq<Stream>, reports: seq<Report>)
    ensures TakeResults(list, reports).Some? <==> forall k :: 0 <= k < |reports| ==> Names(list, reports[k].id)
    ensures var r := TakeResults(list, reports);
            r.Some? ==> |r.value| == |list| && forall i :: 0 <= i < |list| ==>
              && r.value[i].id == list[i].id && r.value[i].sender == list[i].sender
              && ((forall k :: 0 <= k < |reports| ==> reports[k].id != list[i].id) ==> r.value[i] == list[i])
    decreases |reports|
  {
    if reports != [] {
      var k := Find(list, reports[0].id);
      var rest := reports[1..];
      assert forall m :: 0 < m < |reports| ==> reports[m] == rest[m - 1];
      if k < |list| {
        var next := list[k := Merge(list[k], reports[0].bytes)];
        TakeResultsIff(next, rest);
        forall m | 0 <= m < |rest|
          ensures Names(next, rest[m].id) <==> Names(list, reports[m + 1].id)
        {
          SameNames(list, next, rest[m].id);
        }
        assert list[k].id == reports[0].id;
      }
    }
  }

  lemma SameNames(list: seq<Stream>, next: seq<Stream>, id: nat)
    requires |list| == |next| && forall i :: 0 <= i < |list| ==> next[i].id == list[i].id
    ensures Names(list, id) <==> Names(next, id)
  {
    if Names(next, id) {
      var i :| 0 <= i < |next| && next[i].id == id;
      assert list[i].id == id;
    }
    if Names(list, id) {
      var i :| 0 <= i < |list| && list[i].id == id;
      assert next[i].id == id;
    }
  }

  ghost predicate MergedTo(list: seq<Stream>, after: seq<Stream>, reports: seq<Report>) {
    |list| == |after| == |reports| && forall i :: 0 <= i < |list| ==> after[i] == Merge(list[i], reports[i].bytes)
  }

  /** Reports numbered like the streams reach each stream exactly once, whatever the list order says. */
  lemma TakeAll(list: seq<Stream>, reports: seq<Report>)
    requires Numbered(list) && |reports| == |list| && forall i :: 0 <= i < |reports| ==> reports[i].id == StreamId(i)
    ensures TakeResults(list, reports).Some? && MergedTo(list, TakeResults(list, reports).value, reports)
  {
    TakeFrom(list, list, reports, 0);
    assert reports[0..] == reports;
  }

  /** Invariant of the loop over the reports: the first `k` streams are merged, the rest as before. */
  lemma {:induction false} TakeFrom(list: seq<Stream>, now: seq<Stream>, reports: seq<Report>, k: nat)
    requires Numbered(list) && |reports| == |list| == |now| && k <= |list|
    requires forall i :: 0 <= i < |reports| ==> reports[i].id == StreamId(i)
    requires forall i :: 0 <= i < |list| ==> now[i] == if i < k then Merge(list[i], reports[i].bytes) else list[i]
    ensures TakeResults(now, reports[k..]).Some? && MergedTo(list, TakeResults(now, reports[k..]).value, reports)
    decreases |list| - k
  {
    if k < |list| {
      assert Numbered(now);
      assert now[k].id == reports[k].id;
      assert Find(now, reports[k].id) == k;
      var next := now[k := Merge(now[k], reports[k].bytes)];
      assert reports[k..][0] == reports[k] && reports[k..][1..] == reports[k + 1..];
      TakeFrom(list, next, reports, k + 1);
    }
  }

  // ----- the two ends of a stream

  /** The streams at one index of both sides: same id, one sends and the other receives. */
  predicate Paired(c: Stream, s: Stream) {
    c.id == s.id && c.sender != s.sender
  }

  /** Bytes sent after the omitted period, as held for either direction once results are exchanged. */
  function NetSent(s: Stream): int {
    s.sent - s.omitted
  }

  /** Before the exchange a receiver has sent nothing, and so omitted nothing. */
  predicate Sound(s: Stream) {
    0 <= s.omitted <= s.sent && (!s.sender ==> s.sent == 0)
  }

  /** Side `s` of the stream has merged what side `c` measured. */
  predicate HasMerged(c: Stream, s: Stream) {
    if s.sender then s.received == Measured(c) else NetSent(s) == Measured(c)
  }

  /** Both sides hold the same pair. */
  predicate Agree(c: Stream, s: Stream) {
    NetSent(c) == NetSent(s) && c.received == s.received
  }

  /** Merging fills in the peer's measurement and leaves the own one alone. */
  lemma MergeKeeps(c: Stream, s: Stream)
    requires Paired(c, s) && Sound(s)
    ensures var merged := Merge(s, Measured(c));
            Paired(c, merged) && HasMerged(c, merged) && Measured(merged) == Measured(s)
  {
  }

  /** Once one side has merged, the other merges what that side measured, and they hold the same pair. */
  lemma MergeAgrees(c: Stream, s: Stream)
    requires Paired(c, s) && Sound(c) && HasMerged(c, s)
    ensures Agree(Merge(c, Measured(s)), s)
  {
  }
}
