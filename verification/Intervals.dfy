/** Interval statistics: what the interval lists, the stream counters and the test counters have to do with each
    other over any run of sends, receives, statistics callbacks and omit resets. */
module Intervals {
  import UdpLoss

  type Totals = UdpLoss.Counters

  /** Counter differences between two callbacks; errors can be taken back, so they may be negative. */
  datatype Change = Change(packets: int, errors: int, outOfOrder: int)

  const NOTHING: Change := Change(0, 0, 0)
  const ZERO: Totals := UdpLoss.Counters(0, 0, 0)

  datatype Interval = Interval(start: nat, end: nat, bytes: nat, omitted: bool, change: Change, totals: Totals)

  /** A stream and its result record. */
  datatype Stats = Stats(sender: bool, bytesSent: nat, bytesSentOmit: nat, bytesReceived: nat,
                         sentThisInterval: nat, receivedThisInterval: nat, startTime: nat, endTime: nat,
                         counters: Totals, omittedCounters: Totals, intervals: seq<Interval>)

  function Difference(now: Totals, before: Totals): Change {
    Change(now.packetCount - before.packetCount, now.cntError - before.cntError, now.outOfOrder - before.outOfOrder)
  }

  function Plus(a: Change, b: Change): Change {
    Change(a.packets + b.packets, a.errors + b.errors, a.outOfOrder + b.outOfOrder)
  }

  // ----- sums over an interval list

  function Bytes(list: seq<Interval>): nat {
    if list == [] then 0 else Bytes(list[..|list| - 1]) + list[|list| - 1].bytes
  }

  /** Bytes of the intervals a summary keeps: those not marked omitted. */
  function KeptBytes(list: seq<Interval>): nat {
    if list == [] then 0
    else KeptBytes(list[..|list| - 1]) + (if list[|list| - 1].omitted then 0 else list[|list| - 1].bytes)
  }

  function Changes(list: seq<Interval>): Change {
    if list == [] then NOTHING else Plus(Changes(list[..|list| - 1]), list[|list| - 1].change)
  }

  function Duration(list: seq<Interval>): int {
    if list == [] then 0 else Duration(list[..|list| - 1]) + (list[|list| - 1].end - list[|list| - 1].start)
  }

  // ----- the invariant of one stream; `mark` is the number of intervals at the last reset

  /** Bytes since the last reset: those in closed intervals and those of the current one. */
  ghost predicate Conserved(s: Stats, mark: nat) {
    && mark <= |s.intervals| && s.bytesSentOmit <= s.bytesSent
    && Bytes(s.intervals[mark..]) + (if s.sender then s.sentThisInterval else s.receivedThisInterval)
       == if s.sender then s.bytesSent - s.bytesSentOmit else s.bytesReceived
  }

  /** Consecutive intervals abut, the last ends at `endTime`, and the first begins the test unless a reset moved
      the start after it was closed. */
  ghost predicate Abutting(s: Stats, mark: nat) {
    && (forall i :: 0 <= i < |s.intervals| ==> s.intervals[i].start <= s.intervals[i].end)
    && (forall i :: 0 < i < |s.intervals| ==> s.intervals[i - 1].end == s.intervals[i].start)
    && (s.intervals != [] ==> s.intervals[|s.intervals| - 1].end == s.endTime)
    && (s.intervals != [] && mark == 0 ==> s.intervals[0].start == s.startTime)
  }

  function TotalsBefore(list: seq<Interval>, i: nat): Totals
    requires i <= |list|
  {
    if i == 0 then ZERO else list[i - 1].totals
  }

  /** Each interval holds what the counters changed by since the one before it. */
  ghost predicate Counted(list: seq<Interval>) {
    forall i :: 0 <= i < |list| ==> list[i].change == Difference(list[i].totals, TotalsBefore(list, i))
  }

  ghost predicate Good(s: Stats, mark: nat, udp: bool, clock: nat) {
    && Conserved(s, mark) && Abutting(s, mark) && (udp ==> Counted(s.intervals))
    && s.startTime <= clock && (s.intervals != [] ==> s.endTime <= clock)
  }

  /** Interval `i` is marked omitted exactly if it was closed before the omit reset. */
  ghost predicate Marked(s: Stats, mark: nat, omitting: bool) {
    forall i :: 0 <= i < |s.intervals| ==> (s.intervals[i].omitted <==> omitting || i < mark)
  }

  // ----- the four events on one stream

  /** `iperf_tcp_send` and `iperf_udp_send`; the datagram number advances even if the write fails. */
  function Sent(s: Stats, r: int, udp: bool): Stats {
    var t := if udp then s.(counters := s.counters.(packetCount := s.counters.packetCount + 1)) else s;
    if r < 0 then t else t.(bytesSent := t.bytesSent + r, sentThisInterval := t.sentThisInterval + r)
  }

  /** `iperf_tcp_recv` and `iperf_udp_recv`, which count only while the test runs. */
  function Arrived(s: Stats, r: int, udp: bool, pcount: nat, running: bool): Stats {
    if r <= 0 || !running then s
    else
      var t := s.(bytesReceived := s.bytesReceived + r, receivedThisInterval := s.receivedThisInterval + r);
      if udp then t.(counters := UdpLoss.Arrive(t.counters, pcount)) else t
  }

  /** The body of the loop of `iperf_stats_callback`. */
  function Closed(s: Stats, udp: bool, omitting: bool, now: nat): Stats {
    var n := |s.intervals|;
    var interval := Interval(
      if n != 0 then s.endTime else s.startTime,
      now,
      if s.sender then s.sentThisInterval else s.receivedThisInterval,
      omitting,
      if udp then Difference(s.counters, TotalsBefore(s.intervals, n)) else NOTHING,
      if udp then s.counters else ZERO);
    s.(intervals := s.intervals + [interval], endTime := now, sentThisInterval := 0, receivedThisInterval := 0)
  }

  /** The body of the loop of `iperf_reset_stats`. */
  function Cleared(s: Stats, now: nat): Stats {
    s.(omittedCounters := s.counters, bytesSentOmit := s.bytesSent, bytesReceived := 0,
       sentThisInterval := 0, receivedThisInterval := 0, startTime := now)
  }

  lemma SentGood(s: Stats, r: int, mark: nat, udp: bool, clock: nat)
    requires s.sender && Good(s, mark, udp, clock)
    ensures Good(Sent(s, r, udp), mark, udp, clock)
  {
    hide Counted, Bytes;
  }

  lemma ArrivedGood(s: Stats, r: int, pcount: nat, running: bool, mark: nat, udp: bool, clock: nat)
    requires !s.sender && Good(s, mark, udp, clock)
    ensures Good(Arrived(s, r, udp, pcount, running), mark, udp, clock)
  {
    hide Counted, Bytes, UdpLoss.Arrive;
  }

  lemma SentMarked(s: Stats, r: int, udp: bool, mark: nat, omitting: bool)
    ensures Marked(Sent(s, r, udp), mark, omitting) == Marked(s, mark, omitting)
  {
  }

  lemma ArrivedMarked(s: Stats, r: int, udp: bool, pcount: nat, running: bool, mark: nat, omitting: bool)
    ensures Marked(Arrived(s, r, udp, pcount, running), mark, omitting) == Marked(s, mark, omitting)
  {
  }

  lemma ClosedConserved(s: Stats, omitting: bool, mark: nat, udp: bool, now: nat)
    requires Conserved(s, mark)
    ensures Conserved(Closed(s, udp, omitting, now), mark)
  {
    var t := Closed(s, udp, omitting, now);
    var n := |s.intervals|;
    assert t.intervals[mark..][..n - mark] == s.intervals[mark..];
    assert t.intervals[mark..][n - mark] == t.intervals[n];
  }

  lemma ClosedCounted(s: Stats, omitting: bool, now: nat)
    requires Counted(s.intervals)
    ensures Counted(Closed(s, true, omitting, now).intervals)
  {
    hide Difference;
    var t := Closed(s, true, omitting, now);
    var n := |s.intervals|;
    forall i | 0 <= i <= n
      ensures t.intervals[i].change == Difference(t.intervals[i].totals, TotalsBefore(t.intervals, i))
    {
      assert TotalsBefore(t.intervals, i) == TotalsBefore(s.intervals, i);
      if i < n {
        assert t.intervals[i] == s.intervals[i];
      }
    }
  }

  lemma ClosedAbuts(s: Stats, omitting: bool, mark: nat, udp: bool, clock: nat, now: nat)
    requires Abutting(s, mark) && s.startTime <= clock && (s.intervals != [] ==> s.endTime <= clock) && clock <= now
    ensures Abutting(Closed(s, udp, omitting, now), mark)
  {
    hide Difference, TotalsBefore;
  }

  lemma ClosedGood(s: Stats, omitting: bool, mark: nat, udp: bool, clock: nat, now: nat)
    requires Good(s, mark, udp, clock) && clock <= now
    ensures Good(Closed(s, udp, omitting, now), mark, udp, now)
  {
    hide Conserved, Counted, Abutting, Difference, TotalsBefore;
    ClosedConserved(s, omitting, mark, udp, now);
    ClosedAbuts(s, omitting, mark, udp, clock, now);
    if udp {
      ClosedCounted(s, omitting, now);
    }
  }

  lemma ClosedMarked(s: Stats, omitting: bool, mark: nat, udp: bool, now: nat)
    requires Marked(s, mark, omitting) && mark <= |s.intervals|
    ensures Marked(Closed(s, udp, omitting, now), mark, omitting)
  {
    hide Difference, TotalsBefore;
  }

  lemma GoodLater(s: Stats, mark: nat, udp: bool, clock: nat, later: nat)
    requires Good(s, mark, udp, clock) && clock <= later
    ensures Good(s, mark, udp, later) && mark <= |s.intervals|
  {
    hide Counted, Abutting, Bytes;
  }

  lemma ClearedGood(s: Stats, mark: nat, udp: bool, clock: nat, now: nat)
    requires Good(s, mark, udp, clock) && clock <= now
    ensures Good(Cleared(s, now), |s.intervals|, udp, now)
    ensures Marked(s, mark, true) ==> Marked(Cleared(s, now), |s.intervals|, false)
  {
    hide Counted;
  }

  // ----- what the invariant says about reports

  /** Interval counters add up: from any interval on, to the difference of the totals at the two ends. */
  lemma {:induction false} ChangesTelescope(list: seq<Interval>, mark: nat)
    requires Counted(list) && mark <= |list|
    ensures Changes(list[mark..]) == Difference(TotalsBefore(list, |list|), TotalsBefore(list, mark))
  {
    var n := |list|;
    if mark < n {
      hide Difference;
      var init := list[..n - 1];
      forall i | 0 <= i < n
        ensures TotalsBefore(init, i) == TotalsBefore(list, i)
        ensures i < n - 1 ==> init[i] == list[i]
      {
      }
      ChangesTelescope(init, mark);
      assert list[mark..][..n - 1 - mark] == init[mark..];
      assert list[mark..][n - 1 - mark] == list[n - 1];
      Telescope(list[n - 1].totals, TotalsBefore(list, n - 1), TotalsBefore(list, mark));
    }
  }

  lemma Telescope(a: Totals, b: Totals, c: Totals)
    ensures Plus(Difference(b, c), Difference(a, b)) == Difference(a, c)
  {
  }

  /** The durations of abutting intervals add up to the time from the first start to the last end. */
  lemma {:induction false} DurationTelescopes(list: seq<Interval>)
    requires forall i :: 0 < i < |list| ==> list[i - 1].end == list[i].start
    ensures list != [] ==> Duration(list) == list[|list| - 1].end - list[0].start
  {
    if |list| > 1 {
      DurationTelescopes(list[..|list| - 1]);
    }
  }

  lemma {:induction false} KeptIsTail(list: seq<Interval>, mark: nat)
    requires mark <= |list| && forall i :: 0 <= i < |list| ==> (list[i].omitted <==> i < mark)
    ensures KeptBytes(list) == Bytes(list[mark..])
  {
    var n := |list|;
    if mark < n {
      assert list[mark..][..n - 1 - mark] == list[..n - 1][mark..];
      KeptIsTail(list[..n - 1], mark);
    } else if n > 0 {
      KeptIsTail(list[..n - 1], n - 1);
    }
  }

  /** The intervals a summary keeps and the open one hold what the stream reports. */
  ghost predicate Reported(s: Stats) {
    KeptBytes(s.intervals) + (if s.sender then s.sentThisInterval else s.receivedThisInterval)
    == if s.sender then s.bytesSent - s.bytesSentOmit else s.bytesReceived
  }

  /** After the omit period the intervals a summary keeps, with the open one, hold exactly the bytes the stream
      reports; and all intervals together cover the time from the first start to the last callback. */
  lemma ReportedBytes(s: Stats, mark: nat, udp: bool, clock: nat)
    requires Good(s, mark, udp, clock) && Marked(s, mark, false)
    ensures Reported(s)
    ensures s.intervals != [] ==> Duration(s.intervals) == s.endTime - s.intervals[0].start
  {
    KeptIsTail(s.intervals, mark);
    DurationTelescopes(s.intervals);
  }

  /** Datagram counters are not split at the reset as bytes are: the first interval after it also holds what
      happened between the last callback before the reset and the reset. The kept intervals add up to the reported
      `total - omitted` if and only if the counters stood still in that gap. */
  lemma ReportedCounters(s: Stats, mark: nat, clock: nat)
    requires Good(s, mark, true, clock) && mark < |s.intervals|
    ensures Changes(s.intervals) == Difference(TotalsBefore(s.intervals, |s.intervals|), ZERO)
    ensures Changes(s.intervals[mark..]) == Difference(TotalsBefore(s.intervals, |s.intervals|), s.omittedCounters)
            <==> s.omittedCounters == TotalsBefore(s.intervals, mark)
  {
    ChangesTelescope(s.intervals, mark);
    assert s.intervals[0..] == s.intervals;
    ChangesTelescope(s.intervals, 0);
  }

  // ----- the whole test

  function NetSent(streams: seq<Stats>): int {
    if streams == [] then 0
    else NetSent(streams[..|streams| - 1]) + (streams[|streams| - 1].bytesSent - streams[|streams| - 1].bytesSentOmit)
  }

  function Received(streams: seq<Stats>): nat {
    if streams == [] then 0 else Received(streams[..|streams| - 1]) + streams[|streams| - 1].bytesReceived
  }

  lemma {:induction false} SumsUpdate(streams: seq<Stats>, i: nat, s: Stats)
    requires i < |streams|
    ensures NetSent(streams[i := s])
         == NetSent(streams) - (streams[i].bytesSent - streams[i].bytesSentOmit) + (s.bytesSent - s.bytesSentOmit)
    ensures Received(streams[i := s]) == Received(streams) - streams[i].bytesReceived + s.bytesReceived
  {
    var n := |streams| - 1;
    var t := streams[i := s];
    if i < n {
      assert t[..n] == streams[..n][i := s];
      SumsUpdate(streams[..n], i, s);
    } else {
      assert t[..n] == streams[..n];
    }
  }

  lemma {:induction false} SumsZero(streams: seq<Stats>)
    requires forall i :: 0 <= i < |streams| ==>
      streams[i].bytesSent == streams[i].bytesSentOmit && streams[i].bytesReceived == 0
    ensures NetSent(streams) == 0 && Received(streams) == 0
  {
    if streams != [] {
      SumsZero(streams[..|streams| - 1]);
    }
  }

  ghost predicate SameSums(s: Stats, t: Stats) {
    s.bytesSent == t.bytesSent && s.bytesSentOmit == t.bytesSentOmit && s.bytesReceived == t.bytesReceived
  }

  lemma ClosedSame(s: Stats, udp: bool, omitting: bool, now: nat)
    ensures SameSums(Closed(s, udp, omitting, now), s)
  {
  }

  lemma {:induction false} SumsSame(a: seq<Stats>, b: seq<Stats>)
    requires |a| == |b|
    requires forall i :: 0 <= i < |a| ==> SameSums(a[i], b[i])
    ensures NetSent(a) == NetSent(b) && Received(a) == Received(b)
  {
    if a != [] {
      SumsSame(a[..|a| - 1], b[..|b| - 1]);
    }
  }

  /** What happens to a test: a write or a read on a stream, a statistics callback, or the omit timer. */
  datatype Event =
    | Write(stream: nat, bytes: int)
    | Read(stream: nat, bytes: int, pcount: nat, running: bool)
    | Callback(times: nat -> nat)
    | OmitTimer(now: nat)

  /** Writes are on sending streams, reads on the others, and the clock does not run backwards in a callback. */
  ghost predicate Possible(e: Event, senders: seq<bool>) {
    match e
    case Write(i, _) => i < |senders| && senders[i]
    case Read(i, _, _, _) => i < |senders| && !senders[i]
    case Callback(times) => forall j, k :: j <= k ==> times(j) <= times(k)
    case OmitTimer(_) => true
  }

  /** The first and the last time an event reads the clock; it need not read it at all. */
  function Begins(e: Event, clock: nat): nat {
    match e
    case Callback(times) => times(0)
    case OmitTimer(now) => now
    case _ => clock
  }

  function Ends(e: Event, streams: nat, clock: nat): nat {
    match e
    case Callback(times) => times(streams)
    case OmitTimer(now) => now
    case _ => clock
  }

  /** The events happen one after another, from `clock` on. */
  ghost predicate InOrder(events: seq<Event>, streams: nat, clock: nat) {
    events == [] ||
    (clock <= Begins(events[0], clock) && InOrder(events[1..], streams, Ends(events[0], streams, clock)))
  }

  lemma {:induction false} InOrderEarlier(events: seq<Event>, streams: nat, earlier: nat, clock: nat)
    requires InOrder(events, streams, clock) && earlier <= clock
    ensures InOrder(events, streams, earlier)
  {
    if events != [] {
      InOrderEarlier(events[1..], streams, Ends(events[0], streams, earlier), Ends(events[0], streams, clock));
    }
  }

  lemma NextInOrder(events: seq<Event>, k: nat, streams: nat, clock: nat)
    requires k < |events| && InOrder(events[k..], streams, clock)
    ensures clock <= Begins(events[k], clock) && InOrder(events[k + 1..], streams, Ends(events[k], streams, clock))
  {
    assert events[k..][0] == events[k] && events[k..][1..] == events[k + 1..];
  }

  /** What one event makes of the streams. The omit timer fires once, at the end of the omit period. */
  function Happens(streams: seq<Stats>, e: Event, udp: bool, omitting: bool): (r: seq<Stats>)
    ensures |r| == |streams|
  {
    match e
    case Write(i, bytes) => if i < |streams| then streams[i := Sent(streams[i], bytes, udp)] else streams
    case Read(i, bytes, pcount, running) =>
      if i < |streams| then streams[i := Arrived(streams[i], bytes, udp, pcount, running)] else streams
    case Callback(times) =>
      seq(|streams|, i requires 0 <= i < |streams| => Closed(streams[i], udp, omitting, times(i)))
    case OmitTimer(now) =>
      if omitting then seq(|streams|, i requires 0 <= i < |streams| => Cleared(streams[i], now)) else streams
  }

  function StillOmitting(events: seq<Event>, omitting: bool): bool {
    omitting && forall k :: 0 <= k < |events| ==> !events[k].OmitTimer?
  }

  /** What a run of events makes of the streams. */
  function AfterAll(streams: seq<Stats>, events: seq<Event>, udp: bool, omitting: bool): (r: seq<Stats>)
    ensures |r| == |streams|
  {
    if events == [] then streams
    else
      var init := events[..|events| - 1];
      Happens(AfterAll(streams, init, udp, omitting), events[|events| - 1], udp, StillOmitting(init, omitting))
  }

  lemma NoEvents(streams: seq<Stats>, udp: bool, omitting: bool)
    ensures AfterAll(streams, [], udp, omitting) == streams && StillOmitting([], omitting) == omitting
  {
  }

  lemma AfterNext(streams: seq<Stats>, events: seq<Event>, k: nat, udp: bool, omitting: bool)
    requires k < |events|
    ensures AfterAll(streams, events[..k + 1], udp, omitting)
         == Happens(AfterAll(streams, events[..k], udp, omitting), events[k], udp, StillOmitting(events[..k], omitting))
    ensures StillOmitting(events[..k + 1], omitting) <==> StillOmitting(events[..k], omitting) && !events[k].OmitTimer?
  {
    var some := events[..k + 1];
    assert some[..k] == events[..k] && some[k] == events[k];
    assert forall j :: 0 <= j < k ==> some[j] == events[..k][j];
  }

  /** Which streams send; this never changes. */
  function Directions(streams: seq<Stats>): (r: seq<bool>)
    ensures |r| == |streams| && forall i :: 0 <= i < |streams| ==> r[i] == streams[i].sender
  {
    seq(|streams|, i requires 0 <= i < |streams| => streams[i].sender)
  }

  class Test {
    const udp: bool
    var streams: seq<Stats>
    var bytesSent: nat
    var blocksSent: nat
    var bytesReceived: nat
    var blocksReceived: nat
    var omitting: bool
    var clock: nat
    /** Intervals per stream at the last reset. */
    ghost var mark: nat
    /** Bytes that arrived while the test was not running or that a reset dropped. */
    ghost var dropped: nat

    ghost predicate Valid()
      reads this
    {
      && (forall i :: 0 <= i < |streams| ==> Good(streams[i], mark, udp, clock))
      && (forall i, j :: 0 <= i < j < |streams| ==> |streams[i].intervals| == |streams[j].intervals|)
      && bytesSent == NetSent(streams)
      && bytesReceived == Received(streams) + dropped
    }

    /** The marks of the intervals, kept as long as every reset ends an omit period. */
    ghost predicate AllMarked()
      reads this
    {
      (omitting ==> mark == 0) && forall i :: 0 <= i < |streams| ==> Marked(streams[i], mark, omitting)
    }

    constructor (udp: bool, senders: seq<bool>, omit: nat, now: nat)
      ensures Valid() && AllMarked() && this.udp == udp && omitting == (omit != 0) && clock == now
      ensures bytesSent == blocksSent == bytesReceived == blocksReceived == 0 && |streams| == |senders|
      ensures forall i :: 0 <= i < |senders| ==>
        streams[i] == Stats(senders[i], 0, 0, 0, 0, 0, now, 0, ZERO, ZERO, [])
    {
      this.udp := udp;
      streams := seq(|senders|, i requires 0 <= i < |senders| =>
        Stats(senders[i], 0, 0, 0, 0, 0, now, 0, ZERO, ZERO, []));
      bytesSent, blocksSent, bytesReceived, blocksReceived := 0, 0, 0, 0;
      omitting, clock := omit != 0, now;
      mark, dropped := 0, 0;
      new;
      SumsZero(streams);
    }

    /** One iteration of `iperf_send` that gets to the write. */
    method Send(i: nat, r: int)
      requires Valid() && i < |streams| && streams[i].sender
      modifies this`streams, this`bytesSent, this`blocksSent
      ensures Valid() && (old(AllMarked()) ==> AllMarked())
      ensures streams == old(streams)[i := Sent(old(streams)[i], r, udp)]
      ensures bytesSent == old(bytesSent) + if r < 0 then 0 else r
      ensures blocksSent == old(blocksSent) + if r < 0 then 0 else 1
    {
      hide Good, Marked, NetSent, Received;
      var s := streams[i];
      SentGood(s, r, mark, udp, clock);
      SentMarked(s, r, udp, mark, omitting);
      SumsUpdate(streams, i, Sent(s, r, udp));
      if udp {
        s := s.(counters := s.counters.(packetCount := s.counters.packetCount + 1));
      }
      if r >= 0 {
        s := s.(bytesSent := s.bytesSent + r, sentThisInterval := s.sentThisInterval + r);
        bytesSent, blocksSent := bytesSent + r, blocksSent + 1;
      }
      streams := streams[i := s];
    }

    /** One iteration of `iperf_recv` that gets to the read. */
    method Receive(i: nat, r: int, pcount: nat, running: bool)
      requires Valid() && i < |streams| && !streams[i].sender
      modifies this`streams, this`bytesReceived, this`blocksReceived, this`dropped
      ensures Valid() && (old(AllMarked()) ==> AllMarked())
      ensures streams == old(streams)[i := Arrived(old(streams)[i], r, udp, pcount, running)]
      ensures bytesReceived == old(bytesReceived) + if r < 0 then 0 else r
      ensures blocksReceived == old(blocksReceived) + if r < 0 then 0 else 1
      ensures dropped == old(dropped) + if r < 0 || running then 0 else r
    {
      hide Good, Marked, NetSent, Received, UdpLoss.Arrive;
      var s := streams[i];
      ArrivedGood(s, r, pcount, running, mark, udp, clock);
      ArrivedMarked(s, r, udp, pcount, running, mark, omitting);
      SumsUpdate(streams, i, Arrived(s, r, udp, pcount, running));
      if r < 0 {
        assert streams == streams[i := s];
        return;
      }
      if running {
        s := s.(bytesReceived := s.bytesReceived + r, receivedThisInterval := s.receivedThisInterval + r);
        if udp && r > 0 {
          s := s.(counters := UdpLoss.Arrive(s.counters, pcount));
        }
      } else {
        dropped := dropped + r;
      }
      streams := streams[i := s];
      bytesReceived, blocksReceived := bytesReceived + r, blocksReceived + 1;
    }

    /** `iperf_stats_callback`; `times` answers the clock for each stream. */
    method StatsCallback(times: nat -> nat)
      requires Valid()
      requires clock <= times(0) && forall j, k :: j <= k ==> times(j) <= times(k)
      modifies this`streams, this`clock
      ensures Valid() && (old(AllMarked()) ==> AllMarked()) && clock == times(|streams|)
      ensures |streams| == |old(streams)|
      ensures forall i :: 0 <= i < |streams| ==> streams[i] == Closed(old(streams)[i], udp, omitting, times(i))
    {
      hide Good, Marked, NetSent, Received, Closed;
      var i := 0;
      while i < |streams|
        invariant 0 <= i <= |streams| == |old(streams)|
        invariant clock == old(clock)
        invariant forall j :: 0 <= j < i ==> streams[j] == Closed(old(streams)[j], udp, omitting, times(j))
        invariant forall j :: i <= j < |streams| ==> streams[j] == old(streams)[j]
      {
        streams := streams[i := Closed(streams[i], udp, omitting, times(i))];
        i := i + 1;
      }
      AllClosed(old(streams), times, times(i));
      clock := times(i);
    }

    /** Closing every stream keeps the parts of the invariant. */
    lemma AllClosed(before: seq<Stats>, times: nat -> nat, later: nat)
      requires |before| == |streams|
      requires clock <= times(0) && forall j, k :: j <= k ==> times(j) <= times(k)
      requires later == times(|streams|)
      requires forall i :: 0 <= i < |streams| ==>
        Good(before[i], mark, udp, clock) && streams[i] == Closed(before[i], udp, omitting, times(i))
      ensures forall i :: 0 <= i < |streams| ==>
        Good(streams[i], mark, udp, later) && |streams[i].intervals| == |before[i].intervals| + 1
      ensures forall i :: 0 <= i < |streams| && Marked(before[i], mark, omitting) ==> Marked(streams[i], mark, omitting)
      ensures NetSent(streams) == NetSent(before) && Received(streams) == Received(before)
    {
      hide Good, Marked, NetSent, Received, Closed;
      forall i | 0 <= i < |streams|
        ensures Good(streams[i], mark, udp, later) && |streams[i].intervals| == |before[i].intervals| + 1
        ensures Marked(before[i], mark, omitting) ==> Marked(streams[i], mark, omitting)
      {
        OneClosed(before[i], times(i), later);
      }
      forall i | 0 <= i < |streams|
        ensures SameSums(streams[i], before[i])
      {
        ClosedSame(before[i], udp, omitting, times(i));
      }
      SumsSame(streams, before);
    }

    lemma OneClosed(s: Stats, now: nat, later: nat)
      requires clock <= now <= later && Good(s, mark, udp, clock)
      ensures Good(Closed(s, udp, omitting, now), mark, udp, later)
      ensures |Closed(s, udp, omitting, now).intervals| == |s.intervals| + 1
      ensures Marked(s, mark, omitting) ==> Marked(Closed(s, udp, omitting, now), mark, omitting)
    {
      hide Good, Marked;
      ClosedGood(s, omitting, mark, udp, clock, now);
      GoodLater(Closed(s, udp, omitting, now), mark, udp, now, later);
      GoodLater(s, mark, udp, clock, clock);
      if Marked(s, mark, omitting) {
        ClosedMarked(s, omitting, mark, udp, now);
      }
    }

    /** `iperf_reset_stats`. */
    method ResetStats(now: nat)
      requires Valid() && clock <= now
      modifies this`streams, this`bytesSent, this`blocksSent, this`clock, this`mark, this`dropped
      ensures Valid() && |streams| == |old(streams)| && clock == now && bytesSent == blocksSent == 0
      ensures forall i :: 0 <= i < |streams| ==>
        streams[i] == Cleared(old(streams)[i], now) && mark == |streams[i].intervals|
      ensures dropped == bytesReceived
    {
      hide Good, NetSent, Received;
      bytesSent, blocksSent := 0, 0;
      var i := 0;
      while i < |streams|
        invariant 0 <= i <= |streams| == |old(streams)|
        invariant clock == old(clock) && mark == old(mark) && bytesSent == blocksSent == 0
        invariant forall j :: 0 <= j < i ==> streams[j] == Cleared(old(streams)[j], now)
        invariant forall j :: i <= j < |streams| ==> streams[j] == old(streams)[j]
      {
        streams := streams[i := Cleared(streams[i], now)];
        i := i + 1;
      }
      forall j | 0 <= j < |streams|
        ensures Good(streams[j], |streams[j].intervals|, udp, now)
      {
        ClearedGood(old(streams)[j], old(mark), udp, clock, now);
      }
      mark := if streams == [] then mark else |streams[0].intervals|;
      dropped, clock := bytesReceived, now;
      SumsZero(streams);
    }

    /** The omit timer of either side. */
    method OmitDone(now: nat)
      requires Valid() && clock <= now && omitting && AllMarked()
      modifies this
      ensures Valid() && !omitting && AllMarked() && |streams| == |old(streams)| && clock == now
      ensures forall i :: 0 <= i < |streams| ==>
        streams[i] == Cleared(old(streams)[i], now) && mark == |streams[i].intervals|
      ensures bytesSent == blocksSent == 0 && bytesReceived == old(bytesReceived) == dropped
      ensures blocksReceived == old(blocksReceived)
    {
      omitting := false;
      ResetStats(now);
      forall j | 0 <= j < |streams|
        ensures Marked(streams[j], mark, false)
      {
        ClearedGood(old(streams)[j], old(mark), udp, old(clock), now);
      }
    }

    /** One event. The omit timer fires once, at the end of the omit period. */
    method Handle(e: Event)
      requires Valid() && AllMarked() && Possible(e, Directions(streams)) && clock <= Begins(e, clock)
      modifies this
      ensures Valid() && AllMarked() && Directions(streams) == old(Directions(streams))
      ensures clock <= Ends(e, |streams|, old(clock))
      ensures streams == Happens(old(streams), e, udp, old(omitting)) && omitting == (old(omitting) && !e.OmitTimer?)
    {
      hide Good, Marked, NetSent, Received, UdpLoss.Arrive;
      match e
      case Write(i, r) => Send(i, r);
      case Read(i, r, pcount, running) => Receive(i, r, pcount, running);
      case Callback(times) => StatsCallback(times);
      case OmitTimer(now) =>
        if omitting {
          OmitDone(now);
        }
    }

    /** Interval conservation over any run of writes, reads, callbacks and the omit timer. Once the omit period is
        over, the intervals not marked omitted and the open one hold exactly what the stream reports. */
    method Drive(events: seq<Event>)
      requires Valid() && AllMarked() && InOrder(events, |streams|, clock)
      requires forall k :: 0 <= k < |events| ==> Possible(events[k], Directions(streams))
      modifies this
      ensures Valid() && AllMarked() && Directions(streams) == old(Directions(streams))
      ensures !omitting ==> forall i :: 0 <= i < |streams| ==> Reported(streams[i])
      ensures streams == AfterAll(old(streams), events, udp, old(omitting))
      ensures omitting == StillOmitting(events, old(omitting))
    {
      hide Good, Marked, NetSent, Received, Possible, InOrder, Reported, Happens, AfterAll, StillOmitting;
      NoEvents(streams, udp, omitting);
      var k, n := 0, |streams|;
      assert events[0..] == events && events[..0] == [];
      while k < |events|
        invariant 0 <= k <= |events| && Valid() && AllMarked() && Directions(streams) == old(Directions(streams))
        invariant |streams| == n && InOrder(events[k..], n, clock)
        invariant streams == AfterAll(old(streams), events[..k], udp, old(omitting))
        invariant omitting == StillOmitting(events[..k], old(omitting))
      {
        NextInOrder(events, k, n, clock);
        AfterNext(old(streams), events, k, udp, old(omitting));
        ghost var before := clock;
        Handle(events[k]);
        assert |Directions(streams)| == |streams|;
        InOrderEarlier(events[k + 1..], n, clock, Ends(events[k], n, before));
        k := k + 1;
      }
      assert events[..k] == events;
      if !omitting {
        forall i | 0 <= i < |streams|
          ensures Reported(streams[i])
        {
          ReportedBytes(streams[i], mark, udp, clock);
        }
      }
    }
  }
}
