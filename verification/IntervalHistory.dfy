/** Statistics as sums over the events of a test: what every field of a stream holds after any run. */
module IntervalHistory {
  import opened Intervals
  import UdpLoss

  // ----- what the events say about stream `i`

  /** Bytes moved on the stream, as far as they are counted. */
  function Amount(e: Event, i: nat): nat {
    match e
    case Write(k, bytes) => if k == i && bytes > 0 then bytes else 0
    case Read(k, bytes, _, running) => if k == i && bytes > 0 && running then bytes else 0
    case _ => 0
  }

  function Amounts(events: seq<Event>, from: nat, i: nat): nat {
    if |events| <= from then 0 else Amounts(events[..|events| - 1], from, i) + Amount(events[|events| - 1], i)
  }

  /** The event moves the datagram counters of the stream. */
  predicate Counts(e: Event, i: nat) {
    match e
    case Write(k, _) => k == i
    case Read(k, bytes, _, running) => k == i && bytes > 0 && running
    case _ => false
  }

  /** Datagrams written, and the numbers of those that arrived. */
  function Writes(events: seq<Event>, i: nat): nat {
    if events == [] then 0
    else
      var e := events[|events| - 1];
      Writes(events[..|events| - 1], i) + (if e.Write? && e.stream == i then 1 else 0)
  }

  function Arrivals(events: seq<Event>, i: nat): seq<nat> {
    if events == [] then []
    else
      var e := events[|events| - 1];
      Arrivals(events[..|events| - 1], i) + (if e.Read? && Counts(e, i) then [e.pcount] else [])
  }

  function CountersOf(events: seq<Event>, i: nat, sender: bool): Totals {
    if sender then UdpLoss.Counters(Writes(events, i), 0, 0) else UdpLoss.Tally(Arrivals(events, i))
  }

  function Callbacks(events: seq<Event>): nat {
    if events == [] then 0 else Callbacks(events[..|events| - 1]) + (if events[|events| - 1].Callback? then 1 else 0)
  }

  /** The number of events up to and including the omit timer, which fires once; 0 if it has not. */
  function ResetFrom(events: seq<Event>, omitting: bool): (r: nat)
    ensures r <= |events| && (r > 0 ==> events[r - 1].OmitTimer?)
  {
    if events == [] then 0
    else
      var init := events[..|events| - 1];
      if StillOmitting(init, omitting) && events[|events| - 1].OmitTimer? then |events| else ResetFrom(init, omitting)
  }

  /** The number of events before the open interval: up to the last callback or the omit timer. */
  function OpenFrom(events: seq<Event>, omitting: bool): (r: nat)
    ensures r <= |events|
  {
    if events == [] then 0
    else
      var init, e := events[..|events| - 1], events[|events| - 1];
      if e.Callback? || (StillOmitting(init, omitting) && e.OmitTimer?) then |events| else OpenFrom(init, omitting)
  }

  /** The number of events up to and including the last callback. */
  function CallbackEnd(events: seq<Event>): (q: nat)
    ensures q <= |events| && (q > 0 ==> events[q - 1].Callback?)
    ensures forall k :: q <= k < |events| ==> !events[k].Callback?
  {
    if events == [] then 0
    else if events[|events| - 1].Callback? then |events|
    else CallbackEnd(events[..|events| - 1])
  }

  // ----- the story of one stream

  /** One event, as stream `i` sees it. */
  function Step(s: Stats, e: Event, i: nat, udp: bool, omitting: bool): Stats {
    match e
    case Write(k, bytes) => if k == i then Sent(s, bytes, udp) else s
    case Read(k, bytes, pcount, running) => if k == i then Arrived(s, bytes, udp, pcount, running) else s
    case Callback(times) => Closed(s, udp, omitting, times(i))
    case OmitTimer(now) => if omitting then Cleared(s, now) else s
  }

  function Story(s: Stats, events: seq<Event>, i: nat, udp: bool, omitting: bool): Stats {
    if events == [] then s
    else
      var init := events[..|events| - 1];
      Step(Story(s, init, i, udp, omitting), events[|events| - 1], i, udp, StillOmitting(init, omitting))
  }

  lemma {:induction false} StreamStory(streams: seq<Stats>, events: seq<Event>, i: nat, udp: bool, omitting: bool)
    requires i < |streams|
    ensures AfterAll(streams, events, udp, omitting)[i] == Story(streams[i], events, i, udp, omitting)
  {
    hide Sent, Arrived, Closed, Cleared;
    if events != [] {
      StreamStory(streams, events[..|events| - 1], i, udp, omitting);
    }
  }

  /** A stream at the start of a test. */
  predicate Fresh(s: Stats) {
    && s.bytesSent == s.bytesSentOmit == s.bytesReceived == s.sentThisInterval == s.receivedThisInterval == 0
    && s.counters == s.omittedCounters == ZERO && s.intervals == []
  }

  /** Senders only write, receivers only read. */
  ghost predicate OnSide(events: seq<Event>, i: nat, sender: bool) {
    forall k :: 0 <= k < |events| ==> OneSide(events[k], i, sender)
  }

  predicate OneSide(e: Event, i: nat, sender: bool) {
    match e
    case Write(k, _) => k == i ==> sender
    case Read(k, _, _, _) => k == i ==> !sender
    case _ => true
  }

  lemma {:induction false} SameSide(s: Stats, events: seq<Event>, i: nat, udp: bool, omitting: bool)
    ensures Story(s, events, i, udp, omitting).sender == s.sender
  {
    if events != [] {
      SameSide(s, events[..|events| - 1], i, udp, omitting);
    }
  }

  lemma ResetWithin(events: seq<Event>, omitting: bool)
    requires events != []
    ensures var n := |events| - 1;
            ResetFrom(events, omitting) <= n ==>
              && ResetFrom(events, omitting) == ResetFrom(events[..n], omitting)
              && events[..ResetFrom(events, omitting)] == events[..n][..ResetFrom(events, omitting)]
  {
  }

  // ----- times

  /** When the test started, or its omit period ended. */
  function StartOf(events: seq<Event>, omitting: bool, start: nat): nat {
    var r := ResetFrom(events, omitting);
    if r == 0 then start else events[r - 1].now
  }

  ghost predicate TimesTold(s: Stats, events: seq<Event>, i: nat, omitting: bool, start: nat) {
    var q := CallbackEnd(events);
    && s.startTime == StartOf(events, omitting, start) && (q > 0 ==> s.endTime == events[q - 1].times(i))
    && (q == 0 <==> s.intervals == [])
  }

  lemma {:induction false} TimesAre(s: Stats, events: seq<Event>, i: nat, udp: bool, omitting: bool)
    requires Fresh(s)
    ensures TimesTold(Story(s, events, i, udp, omitting), events, i, omitting, s.startTime)
  {
    if events != [] {
      var n := |events| - 1;
      TimesAre(s, events[..n], i, udp, omitting);
      TimesStep(Story(s, events[..n], i, udp, omitting), events, i, udp, omitting, s.startTime);
    }
  }

  lemma TimesStep(t: Stats, events: seq<Event>, i: nat, udp: bool, omitting: bool, start: nat)
    requires events != [] && TimesTold(t, events[..|events| - 1], i, omitting, start)
    ensures var n := |events| - 1;
            TimesTold(Step(t, events[n], i, udp, StillOmitting(events[..n], omitting)), events, i, omitting, start)
  {
    hide StillOmitting, StartOf, CallbackEnd;
    var n := |events| - 1;
    StartStep(t, events, i, udp, omitting, start);
    CallbackStep(events);
    hide Sent, Arrived, Difference, TotalsBefore;
    KeepsTimes(t, events[n], i, udp, StillOmitting(events[..n], omitting));
  }

  lemma KeepsTimes(t: Stats, e: Event, i: nat, udp: bool, omitting: bool)
    ensures var u := Step(t, e, i, udp, omitting);
            if e.Callback? then u.endTime == e.times(i) && u.intervals != []
            else u.endTime == t.endTime && u.intervals == t.intervals
  {
  }

  lemma StartStep(t: Stats, events: seq<Event>, i: nat, udp: bool, omitting: bool, start: nat)
    requires events != [] && t.startTime == StartOf(events[..|events| - 1], omitting, start)
    ensures var n := |events| - 1;
            Step(t, events[n], i, udp, StillOmitting(events[..n], omitting)).startTime
            == StartOf(events, omitting, start)
  {
    hide StillOmitting, UdpLoss.Arrive, Difference, TotalsBefore;
    ResetWithin(events, omitting);
  }

  lemma CallbackStep(events: seq<Event>)
    requires events != []
    ensures var n := |events| - 1;
            CallbackEnd(events) == if events[n].Callback? then |events| else CallbackEnd(events[..n])
  {
  }

  // ----- bytes

  ghost predicate BytesTold(s: Stats, events: seq<Event>, i: nat, omitting: bool) {
    var r, o := ResetFrom(events, omitting), OpenFrom(events, omitting);
    if s.sender then
      && s.bytesSent == Amounts(events, 0, i) && s.bytesSentOmit == Amounts(events[..r], 0, i)
      && s.sentThisInterval == Amounts(events, o, i)
    else s.bytesReceived == Amounts(events, r, i) && s.receivedThisInterval == Amounts(events, o, i)
  }

  /** The byte counters are the bytes written; written before the reset; received since the reset; and moved since
      the last callback or the reset. */
  lemma {:induction false} BytesAre(s: Stats, events: seq<Event>, i: nat, udp: bool, omitting: bool)
    requires Fresh(s) && OnSide(events, i, s.sender)
    ensures BytesTold(Story(s, events, i, udp, omitting), events, i, omitting)
  {
    if events != [] {
      var n := |events| - 1;
      BytesAre(s, events[..n], i, udp, omitting);
      SameSide(s, events[..n], i, udp, omitting);
      ResetWithin(events, omitting);
      BytesStep(Story(s, events[..n], i, udp, omitting), events, i, udp, omitting);
    }
  }

  lemma BytesStep(t: Stats, events: seq<Event>, i: nat, udp: bool, omitting: bool)
    requires events != [] && BytesTold(t, events[..|events| - 1], i, omitting)
    requires OneSide(events[|events| - 1], i, t.sender)
    ensures var n := |events| - 1;
            BytesTold(Step(t, events[n], i, udp, StillOmitting(events[..n], omitting)), events, i, omitting)
  {
    hide StillOmitting, UdpLoss.Arrive, Difference, TotalsBefore;
    ResetWithin(events, omitting);
    assert events[..|events|] == events;
  }

  // ----- datagram counters

  lemma CountersNext(events: seq<Event>, i: nat, sender: bool)
    requires events != [] && OneSide(events[|events| - 1], i, sender)
    ensures var n := |events| - 1;
            CountersOf(events, i, sender) == match events[n]
              case Write(k, _) =>
                var c := CountersOf(events[..n], i, sender);
                if k == i then c.(packetCount := c.packetCount + 1) else c
              case Read(_, _, pcount, _) =>
                if Counts(events[n], i) then UdpLoss.Arrive(CountersOf(events[..n], i, sender), pcount)
                else CountersOf(events[..n], i, sender)
              case _ => CountersOf(events[..n], i, sender)
  {
    hide UdpLoss.Arrive;
    var n := |events| - 1;
    var e := events[n];
    if e.Read? && Counts(e, i) {
      UdpLoss.Last(Arrivals(events[..n], i), e.pcount);
    } else {
      assert Arrivals(events, i) == Arrivals(events[..n], i);
    }
  }

  ghost predicate CountersTold(s: Stats, events: seq<Event>, i: nat, omitting: bool) {
    && s.counters == CountersOf(events, i, s.sender)
    && s.omittedCounters == CountersOf(events[..ResetFrom(events, omitting)], i, s.sender)
  }

  /** The datagram counters are those of the events; the omitted ones those of the events before the reset. */
  lemma {:induction false} CountersAre(s: Stats, events: seq<Event>, i: nat, omitting: bool)
    requires Fresh(s) && OnSide(events, i, s.sender)
    ensures CountersTold(Story(s, events, i, true, omitting), events, i, omitting)
  {
    if events != [] {
      var n := |events| - 1;
      CountersAre(s, events[..n], i, omitting);
      SameSide(s, events[..n], i, true, omitting);
      CountersStep(Story(s, events[..n], i, true, omitting), events, i, omitting);
    }
  }

  lemma CountersStep(t: Stats, events: seq<Event>, i: nat, omitting: bool)
    requires events != [] && CountersTold(t, events[..|events| - 1], i, omitting)
    requires OneSide(events[|events| - 1], i, t.sender)
    ensures var n := |events| - 1;
            CountersTold(Step(t, events[n], i, true, StillOmitting(events[..n], omitting)), events, i, omitting)
  {
    hide StillOmitting, UdpLoss.Arrive, Difference, TotalsBefore, CountersOf;
    ResetWithin(events, omitting);
    CountersNext(events, i, t.sender);
    assert events[..|events|] == events;
  }

  /** Counters tell how many events moved them, so they stand still exactly if none did. */
  function Level(c: Totals): nat {
    c.packetCount + c.outOfOrder
  }

  ghost predicate Quiet(events: seq<Event>, from: nat, i: nat) {
    forall k :: from <= k < |events| ==> !Counts(events[k], i)
  }

  lemma {:induction false} StandStill(events: seq<Event>, from: nat, i: nat, sender: bool)
    requires from <= |events| && OnSide(events, i, sender)
    ensures Level(CountersOf(events[..from], i, sender)) <= Level(CountersOf(events, i, sender))
    ensures Quiet(events, from, i) ==> CountersOf(events, i, sender) == CountersOf(events[..from], i, sender)
    ensures !Quiet(events, from, i) ==>
      Level(CountersOf(events[..from], i, sender)) < Level(CountersOf(events, i, sender))
    decreases |events|
  {
    hide CountersOf;
    if from == |events| {
      assert events[..from] == events;
    } else {
      var n := |events| - 1;
      var init := events[..n];
      assert init[..from] == events[..from];
      StandStill(init, from, i, sender);
      CountersNext(events, i, sender);
      if !Quiet(events, from, i) && !Counts(events[n], i) {
        var k :| from <= k < |events| && Counts(events[k], i);
        assert Counts(init[k], i);
      }
    }
  }

  // ----- intervals

  /** Interval number `Callbacks(events[..p])` was closed by the callback at `p`. */
  ghost predicate ClosedBy(v: Interval, events: seq<Event>, p: nat, i: nat, sender: bool, udp: bool, omitting: bool,
                           start: nat)
    requires p < |events| && events[p].Callback?
  {
    var q := CallbackEnd(events[..p]);
    && v.start == (if q == 0 then StartOf(events[..p], omitting, start) else events[q - 1].times(i))
    && v.end == events[p].times(i) && v.omitted == StillOmitting(events[..p], omitting)
    && v.bytes == Amounts(events[..p], OpenFrom(events[..p], omitting), i)
    && (udp ==> v.totals == CountersOf(events[..p], i, sender))
  }

  ghost predicate IntervalsTold(s: Stats, events: seq<Event>, i: nat, udp: bool, omitting: bool, start: nat) {
    && |s.intervals| == Callbacks(events)
    && forall p :: 0 <= p < |events| && events[p].Callback? ==>
         && Callbacks(events[..p]) < |s.intervals|
         && ClosedBy(s.intervals[Callbacks(events[..p])], events, p, i, s.sender, udp, omitting, start)
  }

  /** There is one interval per callback, with the bytes since the one before or the reset, and the counters then. */
  lemma {:induction false} IntervalsAre(s: Stats, events: seq<Event>, i: nat, udp: bool, omitting: bool)
    requires Fresh(s) && OnSide(events, i, s.sender)
    ensures IntervalsTold(Story(s, events, i, udp, omitting), events, i, udp, omitting, s.startTime)
  {
    if events != [] {
      var n := |events| - 1;
      var init := events[..n];
      IntervalsAre(s, init, i, udp, omitting);
      SameSide(s, init, i, udp, omitting);
      BytesAre(s, init, i, udp, omitting);
      if udp {
        CountersAre(s, init, i, omitting);
      }
      TimesAre(s, init, i, udp, omitting);
      IntervalsStep(Story(s, init, i, udp, omitting), events, i, udp, omitting, s.startTime);
    }
  }

  lemma IntervalsStep(t: Stats, events: seq<Event>, i: nat, udp: bool, omitting: bool, start: nat)
    requires events != []
    requires var init := events[..|events| - 1];
             && IntervalsTold(t, init, i, udp, omitting, start) && BytesTold(t, init, i, omitting)
             && TimesTold(t, init, i, omitting, start) && (udp ==> CountersTold(t, init, i, omitting))
    ensures var n := |events| - 1;
            IntervalsTold(Step(t, events[n], i, udp, StillOmitting(events[..n], omitting)), events, i, udp, omitting,
                          start)
  {
    hide ClosedBy, StillOmitting, UdpLoss.Arrive, Difference, TotalsBefore, BytesTold, CountersTold, TimesTold;
    var n := |events| - 1;
    var init := events[..n];
    var u := Step(t, events[n], i, udp, StillOmitting(init, omitting));
    if events[n].Callback? {
      NewInterval(t, events, i, udp, omitting, start);
    }
    forall p | 0 <= p < |events| && events[p].Callback?
      ensures Callbacks(events[..p]) < |u.intervals|
      ensures ClosedBy(u.intervals[Callbacks(events[..p])], events, p, i, u.sender, udp, omitting, start)
    {
      if p < n {
        assert init[..p] == events[..p] && init[p] == events[p];
        OldInterval(t.intervals[Callbacks(events[..p])], events, p, i, t.sender, udp, omitting, start);
      }
    }
  }

  lemma OldInterval(v: Interval, events: seq<Event>, p: nat, i: nat, sender: bool, udp: bool, omitting: bool,
                    start: nat)
    requires p < |events| - 1 && events[p].Callback?
    requires ClosedBy(v, events[..|events| - 1], p, i, sender, udp, omitting, start)
    ensures ClosedBy(v, events, p, i, sender, udp, omitting, start)
  {
    hide StillOmitting, CountersOf, Amounts, OpenFrom, StartOf, CallbackEnd;
    assert events[..|events| - 1][..p] == events[..p];
  }

  lemma NewInterval(t: Stats, events: seq<Event>, i: nat, udp: bool, omitting: bool, start: nat)
    requires events != [] && events[|events| - 1].Callback?
    requires var init := events[..|events| - 1];
             && BytesTold(t, init, i, omitting) && TimesTold(t, init, i, omitting, start)
             && (udp ==> CountersTold(t, init, i, omitting))
    ensures var n := |events| - 1;
            var v := Closed(t, udp, StillOmitting(events[..n], omitting), events[n].times(i)).intervals[|t.intervals|];
            ClosedBy(v, events, n, i, t.sender, udp, omitting, start)
  {
    hide StillOmitting, CountersOf, Amounts, OpenFrom, ResetFrom, StartOf, Difference, TotalsBefore;
  }

  // ----- what is reported for the datagrams after the omit period

  lemma {:induction false} StoryCounted(s: Stats, events: seq<Event>, i: nat, omitting: bool)
    requires Fresh(s)
    ensures Counted(Story(s, events, i, true, omitting).intervals)
  {
    hide Difference, TotalsBefore, UdpLoss.Arrive;
    if events != [] {
      var init, e := events[..|events| - 1], events[|events| - 1];
      StoryCounted(s, init, i, omitting);
      if e.Callback? {
        ClosedCounted(Story(s, init, i, true, omitting), StillOmitting(init, omitting), e.times(i));
      }
    }
  }

  lemma {:induction false} CallbacksUpTo(events: seq<Event>)
    ensures var q := CallbackEnd(events);
            Callbacks(events) == if q == 0 then 0 else Callbacks(events[..q - 1]) + 1
  {
    if events != [] {
      var init := events[..|events| - 1];
      CallbacksUpTo(init);
      var q := CallbackEnd(events);
      if q > 0 {
        assert events[..q - 1] == if q == |events| then init else init[..q - 1];
      }
    }
  }

  lemma CallbackNeutral(events: seq<Event>, q: nat, i: nat, sender: bool)
    requires 0 < q <= |events| && events[q - 1].Callback?
    ensures CountersOf(events[..q], i, sender) == CountersOf(events[..q - 1], i, sender)
  {
    assert events[..q][..q - 1] == events[..q - 1];
    CountersNext(events[..q], i, sender);
  }

  lemma TotalsThen(t: Stats, events: seq<Event>, p: nat, i: nat, omitting: bool, start: nat)
    requires IntervalsTold(t, events, i, true, omitting, start) && p < |events| && events[p].Callback?
    ensures Callbacks(events[..p]) < |t.intervals|
    ensures t.intervals[Callbacks(events[..p])].totals == CountersOf(events[..p], i, t.sender)
  {
    hide CountersOf;
  }

  /** Totals at the last callback before event `r`, from the events. */
  lemma TotalsAt(s: Stats, events: seq<Event>, r: nat, i: nat, omitting: bool)
    requires Fresh(s) && OnSide(events, i, s.sender) && r <= |events|
    ensures var t := Story(s, events, i, true, omitting);
            && Callbacks(events[..r]) <= |t.intervals|
            && TotalsBefore(t.intervals, Callbacks(events[..r]))
               == CountersOf(events[..CallbackEnd(events[..r])], i, s.sender)
  {
    hide CountersOf, Story, IntervalsTold, Callbacks;
    var t := Story(s, events, i, true, omitting);
    var some := events[..r];
    var q := CallbackEnd(some);
    IntervalsAre(s, events, i, true, omitting);
    SameSide(s, events, i, true, omitting);
    CallbacksUpTo(some);
    if q == 0 {
      assert events[..0] == [];
      NoEventsCounted(i, s.sender);
    } else {
      assert some[..q - 1] == events[..q - 1] && some[q - 1] == events[q - 1];
      TotalsThen(t, events, q - 1, i, omitting, s.startTime);
      CallbackNeutral(events, q, i, s.sender);
    }
  }

  lemma NoEventsCounted(i: nat, sender: bool)
    ensures CountersOf([], i, sender) == ZERO
  {
  }

  /** The datagram counters of the intervals after the omit timer add up to what is reported, total less omitted, if
      and only if no datagram of the stream was counted between the last callback before the timer and the timer. */
  lemma DatagramsReported(s: Stats, events: seq<Event>, i: nat)
    requires Fresh(s) && OnSide(events, i, s.sender) && ResetFrom(events, true) > 0
    ensures var t := Story(s, events, i, true, true);
            var r := ResetFrom(events, true);
            var mark := Callbacks(events[..r]);
            && mark <= |t.intervals|
            && (Changes(t.intervals[mark..]) == Difference(TotalsBefore(t.intervals, |t.intervals|), t.omittedCounters)
                <==> Quiet(events[..r], CallbackEnd(events[..r]), i))
  {
    hide Story, CountersOf, Difference, TotalsBefore, Changes;
    var t := Story(s, events, i, true, true);
    var r := ResetFrom(events, true);
    var some := events[..r];
    TotalsAt(s, events, r, i, true);
    StoryCounted(s, events, i, true);
    ChangesTelescope(t.intervals, Callbacks(some));
    CountersAre(s, events, i, true);
    SameSide(s, events, i, true, true);
    StandStill(some, CallbackEnd(some), i, s.sender);
    assert some[..CallbackEnd(some)] == events[..CallbackEnd(some)];
    SameDifference(TotalsBefore(t.intervals, |t.intervals|), TotalsBefore(t.intervals, Callbacks(some)),
                   t.omittedCounters);
  }

  lemma SameDifference(a: Totals, b: Totals, c: Totals)
    ensures Difference(a, b) == Difference(a, c) <==> b == c
  {
  }

  /** A whole test: every field of every stream is what the events say. */
  method RunTest(udp: bool, senders: seq<bool>, omit: nat, now: nat, events: seq<Event>) returns (test: Test)
    requires InOrder(events, |senders|, now)
    requires forall k :: 0 <= k < |events| ==> Possible(events[k], senders)
    ensures test.Valid() && |test.streams| == |senders|
    ensures forall i :: 0 <= i < |senders| ==>
      && test.streams[i].sender == senders[i]
      && BytesTold(test.streams[i], events, i, omit != 0) && TimesTold(test.streams[i], events, i, omit != 0, now)
      && IntervalsTold(test.streams[i], events, i, udp, omit != 0, now)
      && (udp ==> CountersTold(test.streams[i], events, i, omit != 0))
  {
    hide BytesTold, TimesTold, IntervalsTold, CountersTold, InOrder, AfterAll, Story, Good;
    test := new Test(udp, senders, omit, now);
    assert Directions(test.streams) == senders;
    ghost var start := test.streams;
    test.Drive(events);
    forall i | 0 <= i < |senders|
      ensures test.streams[i].sender == senders[i]
      ensures BytesTold(test.streams[i], events, i, omit != 0)
      ensures TimesTold(test.streams[i], events, i, omit != 0, now)
      ensures IntervalsTold(test.streams[i], events, i, udp, omit != 0, now)
      ensures udp ==> CountersTold(test.streams[i], events, i, omit != 0)
    {
      StreamStory(start, events, i, udp, omit != 0);
      Sides(events, senders, i);
      SameSide(start[i], events, i, udp, omit != 0);
      BytesAre(start[i], events, i, udp, omit != 0);
      TimesAre(start[i], events, i, udp, omit != 0);
      IntervalsAre(start[i], events, i, udp, omit != 0);
      if udp {
        CountersAre(start[i], events, i, omit != 0);
      }
    }
  }

  lemma Sides(events: seq<Event>, senders: seq<bool>, i: nat)
    requires i < |senders| && forall k :: 0 <= k < |events| ==> Possible(events[k], senders)
    ensures OnSide(events, i, senders[i])
  {
  }
}
