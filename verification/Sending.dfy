/** `iperf_send` and `iperf_check_throttle`: nested send loops, byte and block limits, and pacing. */
module Sending {
  import opened Common

  /** A data stream as the sending side sees it; `start` is `start_time_fixed` in microseconds. */
  datatype Stream = Stream(greenLight: bool, sender: bool, bytesSent: nat, start: nat)

  function Senders(streams: seq<Stream>): nat {
    if streams == [] then 0 else Senders(streams[..|streams| - 1]) + (if streams[|streams| - 1].sender then 1 else 0)
  }

  function SumSent(streams: seq<Stream>): nat {
    if streams == [] then 0 else SumSent(streams[..|streams| - 1]) + streams[|streams| - 1].bytesSent
  }

  lemma {:induction false} SumUpdate(streams: seq<Stream>, i: nat, s: Stream)
    requires i < |streams|
    ensures SumSent(streams[i := s]) == SumSent(streams) - streams[i].bytesSent + s.bytesSent
    ensures s.sender == streams[i].sender ==> Senders(streams[i := s]) == Senders(streams)
  {
    var n := |streams| - 1;
    var t := streams[i := s];
    if i < n {
      assert t[..n] == streams[..n][i := s];
      SumUpdate(streams[..n], i, s);
    } else {
      assert t[..n] == streams[..n];
    }
  }

  /** `unit` for every sending stream. */
  function Capacity(streams: seq<Stream>, unit: nat): nat {
    if streams == [] then 0
    else Capacity(streams[..|streams| - 1], unit) + (if streams[|streams| - 1].sender then unit else 0)
  }

  lemma {:induction false} CapacityIs(streams: seq<Stream>, unit: nat)
    ensures Capacity(streams, unit) == unit * Senders(streams)
  {
    if streams != [] {
      CapacityIs(streams[..|streams| - 1], unit);
    }
  }

  lemma {:induction false} CapacityStep(streams: seq<Stream>, i: nat, unit: nat)
    requires i < |streams|
    ensures Capacity(streams[..i], unit) + (if streams[i].sender then unit else 0)
            == Capacity(streams[..i + 1], unit) <= Capacity(streams, unit)
    decreases |streams| - i
  {
    assert streams[..i + 1][..i] == streams[..i];
    if i + 1 < |streams| {
      CapacityStep(streams, i + 1, unit);
    } else {
      assert streams[..i + 1] == streams;
    }
  }

  // ----- the throttle decision

  /** "bits per second so far, rounded down, are below the rate", in exact arithmetic. With no time elapsed the
      quotient is infinite, or not a number if nothing was sent; `undefined` is what the comparison gives then. */
  predicate BelowRate(bytes: nat, elapsed: nat, rate: nat, undefined: bool) {
    if elapsed == 0 then bytes == 0 && undefined else 8 * bytes * MILLION / elapsed < rate
  }

  /** At most `rate * elapsed` bits, apart from `allowance` bytes. */
  ghost predicate Within(s: Stream, rate: nat, clock: nat, allowance: int) {
    s.start <= clock && 8 * MILLION * (s.bytesSent - allowance) <= rate * (clock - s.start)
  }

  /** The decision is whether the bits sent are below rate times elapsed time, without the rounding of the quotient. */
  lemma BelowRateExact(bytes: nat, elapsed: nat, rate: nat, undefined: bool)
    requires elapsed > 0
    ensures BelowRate(bytes, elapsed, rate, undefined) <==> 8 * MILLION * bytes < rate * elapsed
  {
    DivisionBelow(8 * bytes * MILLION, elapsed, rate);
  }

  /** A green light means the stream is within its rate now. */
  lemma BelowRateMeans(s: Stream, rate: nat, clock: nat, undefined: bool)
    requires s.start <= clock && BelowRate(s.bytesSent, clock - s.start, rate, undefined)
    ensures Within(s, rate, clock, 0)
  {
    if clock > s.start {
      BelowRateExact(s.bytesSent, clock - s.start, rate, undefined);
    }
  }

  lemma DivisionBelow(a: nat, b: nat, c: nat)
    requires b > 0
    ensures a / b < c <==> a < c * b
  {
    QuotientBelow(a / b, a % b, b, c);
  }

  lemma QuotientBelow(q: nat, r: nat, b: nat, c: nat)
    requires r < b
    ensures q < c <==> q * b + r < c * b
  {
    if q < c {
      ProductGrows(q + 1, c, b);
      assert (q + 1) * b == q * b + b;
    } else {
      ProductGrows(c, q, b);
    }
  }

  lemma ProductGrows(x: nat, y: nat, z: nat)
    requires x <= y
    ensures x * z <= y * z
  {
  }

  lemma WithinLater(s: Stream, rate: nat, clock: nat, later: nat, allowance: int, more: int)
    requires Within(s, rate, clock, allowance) && clock <= later && allowance <= more
    ensures Within(s, rate, later, more)
  {
    ProductGrows(clock - s.start, later - s.start, rate);
  }

  lemma WriteAhead(s: Stream, r: nat, rate: nat, clock: nat, ahead: nat, blksize: nat)
    requires r <= blksize && Within(s, rate, clock, ahead)
    ensures Within(s.(bytesSent := s.bytesSent + r), rate, clock, ahead + blksize)
  {
  }

  // ----- what the write calls answered, and whose turn they were

  /** Bytes taken by the calls numbered `from` up to `to`. */
  function Accepted(write: nat -> int, from: nat, to: nat): nat {
    if to <= from then 0 else Accepted(write, from, to - 1) + (if write(to - 1) < 0 then 0 else write(to - 1))
  }

  function Successes(write: nat -> int, from: nat, to: nat): nat {
    if to <= from then 0 else Successes(write, from, to - 1) + (if write(to - 1) < 0 then 0 else 1)
  }

  lemma {:induction false} AcceptedJoin(write: nat -> int, a: nat, b: nat, c: nat)
    requires a <= b <= c
    ensures Accepted(write, a, c) == Accepted(write, a, b) + Accepted(write, b, c)
    ensures Successes(write, a, c) == Successes(write, a, b) + Successes(write, b, c)
  {
    if b < c {
      AcceptedJoin(write, a, b, c - 1);
    }
  }

  lemma NoCalls(write: nat -> int)
    ensures Accepted(write, 0, 0) == 0 && Successes(write, 0, 0) == 0
  {
  }

  lemma AcceptedNext(write: nat -> int, from: nat, to: nat)
    requires from <= to
    ensures Accepted(write, from, from) == Successes(write, from, from) == 0
    ensures write(to) >= 0 ==> Accepted(write, from, to + 1) == Accepted(write, from, to) + write(to)
    ensures write(to) < 0 ==> Accepted(write, from, to + 1) == Accepted(write, from, to)
    ensures Successes(write, from, to + 1) == Successes(write, from, to) + if write(to) < 0 then 0 else 1
  {
  }

  predicate Eligible(s: Stream, writable: bool) {
    s.greenLight && s.sender && writable
  }

  /** How many of the first `i` streams may send in this pass. */
  function Ready(streams: seq<Stream>, writable: nat -> bool, i: nat): nat
    requires i <= |streams|
  {
    if i == 0 then 0 else Ready(streams, writable, i - 1) + (if Eligible(streams[i - 1], writable(i - 1)) then 1 else 0)
  }

  lemma {:induction false} ReadyGrows(streams: seq<Stream>, writable: nat -> bool, i: nat, j: nat)
    requires i <= j <= |streams|
    ensures Ready(streams, writable, i) <= Ready(streams, writable, j)
    ensures i < j && Eligible(streams[i], writable(i)) ==> Ready(streams, writable, i) < Ready(streams, writable, j)
  {
    if i < j {
      ReadyGrows(streams, writable, i, j - 1);
    }
  }

  lemma NoneReady(streams: seq<Stream>, writable: nat -> bool)
    ensures Ready(streams, writable, 0) == 0
  {
  }

  lemma ReadyStep(streams: seq<Stream>, writable: nat -> bool, i: nat)
    requires i < |streams|
    ensures Ready(streams, writable, i + 1)
         == Ready(streams, writable, i) + if Eligible(streams[i], writable(i)) then 1 else 0
  {
  }

  /** A pass in which the limit is looked at writes at most one unit beyond it, or beyond where it started. */
  predicate Overshoot(limit: nat, before: nat, after: nat, unit: nat) {
    limit != 0 ==> after <= before + unit || after < limit + unit
  }

  /** No write of this pass has reached the limit yet. */
  predicate Stopped(limit: nat, before: nat, now: nat) {
    limit == 0 || now < limit || now == before
  }

  /** The streams, and the number of write calls made so far. */
  datatype Snapshot = Snapshot(streams: seq<Stream>, calls: nat)

  /** What happens to a sender: a call of `iperf_send`, or the pacing timer of a stream. */
  datatype Event =
    | Call(writable: nat -> bool, write: nat -> int, times: nat -> nat)
    | Fires(stream: nat, now: nat)

  function Time(e: Event): nat {
    match e
    case Call(_, _, times) => times(0)
    case Fires(_, now) => now
  }

  /** Writes move at most a block, timers belong to streams, and the clock does not run backwards. */
  ghost predicate Possible(e: Event, blksize: nat, streams: nat) {
    match e
    case Call(_, write, times) => (forall k :: write(k) <= blksize) && (forall j, k :: j <= k ==> times(j) <= times(k))
    case Fires(stream, _) => stream < streams
  }

  /** The state after an event: streams, totals, clock, result and the snapshots of the passes. */
  datatype Record =
    Record(streams: seq<Stream>, bytes: nat, blocks: nat, clock: nat, rc: int, trace: seq<Snapshot>)

  /** What `iperf_send` returns after that many write calls: the error of the last one, unless it was a soft one. */
  function Result(write: nat -> int, calls: nat): int {
    if calls > 0 && write(calls - 1) < 0 && write(calls - 1) != SOFT_ERROR then write(calls - 1) else 0
  }

  /** The same streams: directions and start times do not change. */
  ghost predicate SameStreams(a: seq<Stream>, b: seq<Stream>) {
    |a| == |b| && forall j :: 0 <= j < |a| ==> a[j].sender == b[j].sender && a[j].start == b[j].start
  }

  ghost predicate AllWithin(streams: seq<Stream>, rate: nat, clock: nat, allowance: int) {
    forall j :: 0 <= j < |streams| ==> Within(streams[j], rate, clock, allowance)
  }

  lemma AllWithinLater(streams: seq<Stream>, rate: nat, clock: nat, later: nat, allowance: int)
    requires AllWithin(streams, rate, clock, allowance) && clock <= later
    ensures AllWithin(streams, rate, later, allowance)
  {
    forall j | 0 <= j < |streams|
      ensures Within(streams[j], rate, later, allowance)
    {
      WithinLater(streams[j], rate, clock, later, allowance, allowance);
    }
  }

  class Sender {
    const blksize: nat
    const rate: nat
    const burst: nat
    const byteLimit: nat
    const blockLimit: nat
    const multisend: nat
    const undefined: bool
    var streams: seq<Stream>
    var bytesSent: nat
    var blocksSent: nat
    var clock: nat

    constructor (blksize: nat, rate: nat, burst: nat, byteLimit: nat, blockLimit: nat, multisend: nat, undefined: bool,
                 senders: seq<bool>, now: nat)
      ensures this.blksize == blksize && this.rate == rate && this.burst == burst && this.byteLimit == byteLimit
      ensures this.blockLimit == blockLimit && this.multisend == multisend && this.undefined == undefined
      ensures Paced() && bytesSent == SumSent(streams) == 0 && blocksSent == 0 && clock == now && |streams| == |senders|
      ensures forall i :: 0 <= i < |senders| ==> streams[i] == Stream(true, senders[i], 0, now)
    {
      this.blksize, this.rate, this.burst, this.byteLimit := blksize, rate, burst, byteLimit;
      this.blockLimit, this.multisend, this.undefined := blockLimit, multisend, undefined;
      bytesSent, blocksSent, clock := 0, 0, now;
      streams := seq(|senders|, i requires 0 <= i < |senders| => Stream(true, senders[i], 0, now));
      new;
      NothingSent(streams);
    }

    /** Bytes a stream may be ahead of its rate: one block, or one burst. */
    function Allowance(): nat {
      (if burst != 0 then burst else 1) * blksize
    }

    /** In a test with a rate every stream is within it but for the allowance, and without it while its light is
        green. */
    ghost predicate Paced()
      reads this
    {
      PassPaced(0, 0)
    }

    /** The passes of one call. */
    function Passes(): nat {
      if burst != 0 then burst else if rate == 0 then multisend else 1
    }

    /** The throttle decision now. */
    predicate Allowed(s: Stream, now: nat)
      requires s.start <= now
    {
      BelowRate(s.bytesSent, now - s.start, rate, undefined)
    }

    /** `iperf_check_throttle` at the time just read, for a test that is not done. */
    method CheckThrottle(i: nat)
      requires i < |streams| && streams[i].start <= clock
      modifies this`streams
      ensures streams == old(streams)[i := old(streams)[i].(greenLight := Allowed(old(streams)[i], clock))]
      ensures streams[i].greenLight ==> Within(streams[i], rate, clock, 0)
      ensures LightDecided(streams[i], clock)
    {
      hide LightDecided;
      var s := streams[i];
      AllowedMeans(s, clock);
      var green := BelowRate(s.bytesSent, clock - s.start, rate, undefined);
      if green {
        BelowRateMeans(s, rate, clock, undefined);
      }
      streams := streams[i := s.(greenLight := green)];
    }

    /** `send_timer_proc`: the pacing timer of one stream fires at a later time. */
    method SendTimer(i: nat, now: nat)
      requires Paced() && i < |streams| && clock <= now
      modifies this`streams, this`clock
      ensures Paced() && clock == now && SumSent(streams) == SumSent(old(streams))
      ensures old(streams)[i].start <= clock
      ensures streams == old(streams)[i := old(streams)[i].(greenLight := Allowed(old(streams)[i], clock))]
      ensures LightDecided(streams[i], clock)
    {
      hide LightDecided;
      ReadClock(now, 0);
      CheckThrottle(i);
      SumUpdate(old(streams), i, streams[i]);
    }

    /** The stream has started and, in a test with a rate, is within its allowance, and within `ahead` while green. */
    ghost predicate Near(s: Stream, ahead: int)
      reads this`clock
    {
      && s.start <= clock
      && (rate != 0 ==> Within(s, rate, clock, Allowance()) && (s.greenLight ==> Within(s, rate, clock, ahead)))
    }

    /** How far green streams may be ahead inside a call: streams below `i` have had their turn in this pass. */
    ghost predicate PassPaced(i: nat, ahead: nat)
      reads this
    {
      forall j :: 0 <= j < |streams| ==> Near(streams[j], if burst != 0 && j < i then ahead + blksize else ahead)
    }

    lemma NearWidens(s: Stream, ahead: int, more: int)
      requires Near(s, ahead) && ahead <= more
      ensures Near(s, more)
    {
      if rate != 0 && s.greenLight {
        WithinLater(s, rate, clock, clock, ahead, more);
      }
    }

    lemma PassWidens(i: nat, k: nat, ahead: nat)
      requires PassPaced(i, ahead) && i <= k
      ensures PassPaced(k, ahead)
    {
      hide Near;
      forall j | 0 <= j < |streams|
        ensures Near(streams[j], if burst != 0 && j < k then ahead + blksize else ahead)
      {
        NearWidens(streams[j], if burst != 0 && j < i then ahead + blksize else ahead,
                   if burst != 0 && j < k then ahead + blksize else ahead);
      }
    }

    function Written(s: Stream, r: nat, now: nat): Stream
      requires s.start <= now
    {
      var t := s.(bytesSent := s.bytesSent + r);
      if rate != 0 && burst == 0 then t.(greenLight := Allowed(t, now)) else t
    }

    /** A write by a green stream, with the throttle check, keeps it within its allowance. */
    lemma WrittenNear(s: Stream, r: nat, ahead: nat)
      requires Near(s, ahead) && s.greenLight && r <= blksize && (rate != 0 ==> ahead + blksize <= Allowance())
      ensures Near(Written(s, r, clock), if burst != 0 then ahead + blksize else ahead)
    {
      if rate != 0 {
        var t := s.(bytesSent := s.bytesSent + r);
        WriteAhead(s, r, rate, clock, ahead, blksize);
        WithinLater(t, rate, clock, clock, ahead + blksize, Allowance());
        if burst == 0 && Allowed(t, clock) {
          BelowRateMeans(t, rate, clock, undefined);
          WithinLater(t, rate, clock, clock, 0, ahead);
        }
      }
    }

    /** One successful write of `r` bytes on stream `i`, and the throttle check that follows it without bursts. */
    method SendOne(i: nat, r: nat, ghost ahead: nat)
      requires i < |streams| && streams[i].start <= clock && streams[i].greenLight && r <= blksize
      requires PassPaced(i, ahead) && (rate != 0 ==> ahead + blksize <= Allowance())
      modifies this`streams, this`bytesSent, this`blocksSent
      ensures bytesSent == old(bytesSent) + r && blocksSent == old(blocksSent) + 1
      ensures streams == old(streams)[i := Written(old(streams)[i], r, clock)]
      ensures SumSent(streams) == SumSent(old(streams)) + r && Senders(streams) == Senders(old(streams))
      ensures PassPaced(i + 1, ahead)
      ensures Meaning(old(streams)[i], streams[i], true, r, clock)
    {
      hide Near, Within, BelowRate, Allowance, SumSent, Senders, LightDecided;
      var s := streams[i];
      WrittenNear(s, r, ahead);
      SumUpdate(streams, i, Written(s, r, clock));
      streams := streams[i := s.(bytesSent := s.bytesSent + r)];
      bytesSent, blocksSent := bytesSent + r, blocksSent + 1;
      if rate != 0 && burst == 0 {
        CheckThrottle(i);
      }
    }

    /** What a pass that made the write calls `calls` up to `next` leaves of stream `j`: the streams that may send
        take the calls in list order. */
    function Turn(before: seq<Stream>, j: nat, writable: nat -> bool, write: nat -> int, calls: nat, next: nat,
                  now: nat): Stream
      requires j < |before| && before[j].start <= now
    {
      var k := calls + Ready(before, writable, j);
      if Eligible(before[j], writable(j)) && k < next && write(k) >= 0 then Written(before[j], write(k), now)
      else before[j]
    }

    /** The first `i` streams of `before` have had their turn. */
    ghost predicate Turns(before: seq<Stream>, i: nat, writable: nat -> bool, write: nat -> int, calls: nat, next: nat)
      reads this
    {
      && i <= |before| == |streams| && calls <= next
      && (forall j :: 0 <= j < |before| ==> before[j].start <= clock)
      && (forall j :: 0 <= j < i ==> streams[j] == Turn(before, j, writable, write, calls, next, clock))
      && (forall j :: i <= j < |before| ==> streams[j] == before[j])
    }

    lemma NoTurns(before: seq<Stream>, writable: nat -> bool, write: nat -> int, calls: nat)
      requires before == streams && forall j :: 0 <= j < |before| ==> before[j].start <= clock
      ensures Turns(before, 0, writable, write, calls, calls)
    {
    }

    /** A stream that may not send, or is not reached any more, keeps its value. */
    lemma SkipTurn(before: seq<Stream>, i: nat, writable: nat -> bool, write: nat -> int, calls: nat, next: nat)
      requires Turns(before, i, writable, write, calls, next) && i < |before|
      requires Eligible(before[i], writable(i)) ==> next <= calls + Ready(before, writable, i)
      ensures Turns(before, i + 1, writable, write, calls, next)
    {
      hide Written, Ready;
    }

    lemma {:induction false} SkipRest(before: seq<Stream>, i: nat, writable: nat -> bool, write: nat -> int,
                                      calls: nat, next: nat)
      requires i <= |before| && Turns(before, i, writable, write, calls, next)
      requires next <= calls + Ready(before, writable, i)
      ensures Turns(before, |before|, writable, write, calls, next)
      decreases |before| - i
    {
      hide Turns;
      if i < |before| {
        ReadyGrows(before, writable, i, i + 1);
        SkipTurn(before, i, writable, write, calls, next);
        SkipRest(before, i + 1, writable, write, calls, next);
      }
    }

    /** Another call does not change what earlier streams were given. */
    lemma TurnKept(before: seq<Stream>, j: nat, i: nat, writable: nat -> bool, write: nat -> int, calls: nat,
                   next: nat, later: nat)
      requires j < i < |before| && before[j].start <= clock && next == calls + Ready(before, writable, i) <= later
      ensures Turn(before, j, writable, write, calls, later, clock)
           == Turn(before, j, writable, write, calls, next, clock)
    {
      ReadyGrows(before, writable, j, i);
    }

    lemma TurnNow(before: seq<Stream>, i: nat, writable: nat -> bool, write: nat -> int, calls: nat, next: nat,
                  later: nat)
      requires i < |before| && before[i].start <= clock && Eligible(before[i], writable(i))
      requires next == calls + Ready(before, writable, i) < later
      ensures Turn(before, i, writable, write, calls, later, clock)
              == if write(next) >= 0 then Written(before[i], write(next), clock) else before[i]
    {
      hide Written, Ready;
    }

    lemma TurnTaken(before: seq<Stream>, i: nat, writable: nat -> bool, write: nat -> int, calls: nat, next: nat,
                    later: nat)
      requires Turns(before, i, writable, write, calls, next) && i < |before|
      requires next == calls + Ready(before, writable, i)
      requires Eligible(before[i], writable(i)) && later == next + 1
      ensures forall j :: 0 <= j < i ==> streams[j] == Turn(before, j, writable, write, calls, later, clock)
      ensures Turn(before, i, writable, write, calls, later, clock)
              == if write(next) >= 0 then Written(before[i], write(next), clock) else before[i]
    {
      hide Written, Ready, Turn, Eligible;
      TurnNow(before, i, writable, write, calls, next, later);
      forall j | 0 <= j < i
        ensures streams[j] == Turn(before, j, writable, write, calls, later, clock)
      {
        TurnKept(before, j, i, writable, write, calls, next, later);
      }
    }

    /** The write call of stream `i` and what follows it. */
    method TakeTurn(i: nat, writable: nat -> bool, write: nat -> int, ghost calls: nat, next: nat,
                    ghost before: seq<Stream>, ghost ahead: nat) returns (r: int)
      requires i < |streams| && Eligible(streams[i], writable(i)) && write(next) <= blksize
      requires PassPaced(i, ahead) && (rate != 0 ==> ahead + blksize <= Allowance())
      requires Turns(before, i, writable, write, calls, next) && next == calls + Ready(before, writable, i)
      modifies this`streams, this`bytesSent, this`blocksSent
      ensures r == write(next) && |streams| == |old(streams)| && Turns(before, i + 1, writable, write, calls, next + 1)
      ensures r < 0 ==> streams == old(streams) && bytesSent == old(bytesSent) && blocksSent == old(blocksSent)
      ensures r >= 0 ==> bytesSent == old(bytesSent) + r && blocksSent == old(blocksSent) + 1
      ensures r >= 0 ==> SumSent(streams) == SumSent(old(streams)) + r && Senders(streams) == Senders(old(streams))
      ensures PassPaced(i + 1, ahead)
    {
      hide PassPaced, Senders, SumSent, Allowance, Ready, Written, Turn;
      TurnTaken(before, i, writable, write, calls, next, next + 1);
      r := write(next);
      if r < 0 {
        PassWidens(i, i + 1, ahead);
      } else {
        SendOne(i, r, ahead);
      }
    }

    /** A pass ends early only after a failed write or, unless it is the last one, at a limit. */
    ghost predicate Finished(last: bool, ready: nat, write: nat -> int, calls: nat, next: nat, bytes: nat,
                             blocks: nat) {
      || next == calls + ready
      || (calls < next < calls + ready && write(next - 1) < 0)
      || (calls < next < calls + ready && !last &&
          ((byteLimit != 0 && bytes >= byteLimit) || (blockLimit != 0 && blocks >= blockLimit)))
    }

    /** One pass of the outer loop. `write` answers the write calls, a negative answer being an error; `last` is
        the pass in which the limits are not looked at. */
    method SendPass(last: bool, writable: nat -> bool, write: nat -> int, calls: nat, ghost ahead: nat)
      returns (rc: int, active: bool, next: nat)
      requires forall k :: write(k) <= blksize
      requires PassPaced(0, ahead) && (rate != 0 ==> ahead + blksize <= Allowance())
      modifies this`streams, this`bytesSent, this`blocksSent
      ensures |streams| == |old(streams)| && Senders(streams) == Senders(old(streams))
      ensures bytesSent - SumSent(streams) == old(bytesSent) - SumSent(old(streams))
      ensures bytesSent <= old(bytesSent) + Capacity(old(streams), blksize)
      ensures blocksSent <= old(blocksSent) + Capacity(old(streams), 1)
      ensures !last ==> Overshoot(byteLimit, old(bytesSent), bytesSent, blksize)
      ensures !last ==> Overshoot(blockLimit, old(blocksSent), blocksSent, 1)
      ensures PassPaced(|streams|, ahead)
      ensures bytesSent == old(bytesSent) + Accepted(write, calls, next)
      ensures blocksSent == old(blocksSent) + Successes(write, calls, next)
      ensures active <==> blocksSent > old(blocksSent)
      ensures rc == if calls < next && write(next - 1) < 0 && write(next - 1) != SOFT_ERROR then write(next - 1) else 0
      ensures Finished(last, Ready(old(streams), writable, |old(streams)|), write, calls, next, bytesSent, blocksSent)
      ensures Turns(old(streams), |old(streams)|, writable, write, calls, next)
    {
      hide PassPaced, Capacity, Senders, SumSent, Allowance, Accepted, Successes, Ready, Turns;
      rc, active, next := 0, false, calls;
      ghost var before := streams;
      AllStarted(ahead);
      NoTurns(before, writable, write, calls);
      AcceptedNext(write, calls, calls);
      NoneReady(before, writable);
      var i := 0;
      while i < |streams|
        invariant 0 <= i <= |streams| == |before| && Senders(streams) == Senders(before)
        invariant bytesSent - SumSent(streams) == old(bytesSent) - SumSent(before)
        invariant bytesSent <= old(bytesSent) + Capacity(before[..i], blksize)
        invariant blocksSent <= old(blocksSent) + Capacity(before[..i], 1)
        invariant !last ==> Stopped(byteLimit, old(bytesSent), bytesSent)
        invariant !last ==> Stopped(blockLimit, old(blocksSent), blocksSent)
        invariant PassPaced(i, ahead) && Turns(before, i, writable, write, calls, next)
        invariant next == calls + Ready(before, writable, i)
        invariant bytesSent == old(bytesSent) + Accepted(write, calls, next)
        invariant blocksSent == old(blocksSent) + Successes(write, calls, next)
        invariant active <==> blocksSent > old(blocksSent)
        invariant calls < next ==> write(next - 1) >= 0
      {
        CapacityStep(before, i, blksize);
        CapacityStep(before, i, 1);
        Unturned(before, i, writable, write, calls, next);
        ReadyStep(before, writable, i);
        ReadyGrows(before, writable, i + 1, |before|);
        if streams[i].greenLight && streams[i].sender && writable(i) {
          AcceptedNext(write, calls, next);
          var r := TakeTurn(i, writable, write, calls, next, before, ahead);
          next := next + 1;
          SkipRest(before, i + 1, writable, write, calls, next);
          PassWidens(i + 1, |streams|, ahead);
          if r < 0 {
            rc := if r == SOFT_ERROR then 0 else r;
            return;
          }
          active := true;
          if !last && byteLimit != 0 && bytesSent >= byteLimit {
            return;
          }
          if !last && blockLimit != 0 && blocksSent >= blockLimit {
            return;
          }
        } else {
          SkipTurn(before, i, writable, write, calls, next);
          PassWidens(i, i + 1, ahead);
        }
        i := i + 1;
      }
      assert before[..i] == before;
    }

    lemma AllStarted(ahead: nat)
      requires PassPaced(0, ahead)
      ensures forall j :: 0 <= j < |streams| ==> streams[j].start <= clock
    {
    }

    lemma TurnsSame(before: seq<Stream>, writable: nat -> bool, write: nat -> int, calls: nat, next: nat)
      requires Turns(before, |before|, writable, write, calls, next)
      ensures SameStreams(before, streams)
    {
      hide Ready, Allowed;
    }

    lemma Unturned(before: seq<Stream>, i: nat, writable: nat -> bool, write: nat -> int, calls: nat, next: nat)
      requires Turns(before, i, writable, write, calls, next) && i < |before|
      ensures streams[i] == before[i]
    {
    }

    /** Reading a later clock keeps every bound. */
    method ReadClock(now: nat, ghost ahead: nat)
      requires PassPaced(0, ahead) && clock <= now
      modifies this`clock
      ensures PassPaced(0, ahead) && clock == now
    {
      forall i | 0 <= i < |streams| && rate != 0
        ensures Within(streams[i], rate, now, Allowance())
        ensures streams[i].greenLight ==> Within(streams[i], rate, now, ahead)
      {
        WithinLater(streams[i], rate, clock, now, Allowance(), Allowance());
        if streams[i].greenLight {
          WithinLater(streams[i], rate, clock, now, ahead, ahead);
        }
      }
      clock := now;
    }

    /** The first `i` lights are what a throttle check decides now, and nothing else has changed. */
    ghost predicate RecheckedAt(before: seq<Stream>, after: seq<Stream>, i: nat, now: nat) {
      && i <= |after| == |before|
      && (forall j :: 0 <= j < i ==>
            before[j].start <= now && after[j] == before[j].(greenLight := Allowed(before[j], now)))
      && (forall j :: i <= j < |before| ==> after[j] == before[j])
    }

    ghost predicate Rechecked(before: seq<Stream>, i: nat)
      reads this
    {
      RecheckedAt(before, streams, i, clock)
    }

    /** The throttle checks that end a call in burst mode. */
    method CheckAll(ghost ahead: nat)
      requires PassPaced(0, ahead)
      modifies this`streams
      ensures Paced() && SameStreams(old(streams), streams) && Rechecked(old(streams), |streams|)
      ensures Senders(streams) == Senders(old(streams)) && SumSent(streams) == SumSent(old(streams))
    {
      var i := 0;
      while i < |streams|
        invariant 0 <= i <= |streams| == |old(streams)| && PassPaced(0, ahead)
        invariant Senders(streams) == Senders(old(streams)) && SumSent(streams) == SumSent(old(streams))
        invariant forall j :: 0 <= j < i && streams[j].greenLight ==> Within(streams[j], rate, clock, 0)
        invariant Rechecked(old(streams), i)
      {
        CheckOne(i, ahead);
        i := i + 1;
      }
    }

    method CheckOne(i: nat, ghost ahead: nat)
      requires PassPaced(0, ahead) && i < |streams|
      modifies this`streams
      ensures PassPaced(0, ahead) && old(streams)[i].start <= clock
      ensures streams == old(streams)[i := old(streams)[i].(greenLight := Allowed(old(streams)[i], clock))]
      ensures Senders(streams) == Senders(old(streams)) && SumSent(streams) == SumSent(old(streams))
      ensures streams[i].greenLight ==> Within(streams[i], rate, clock, 0)
    {
      CheckThrottle(i);
      if streams[i].greenLight {
        WithinLater(streams[i], rate, clock, clock, 0, ahead);
      }
      SumUpdate(old(streams), i, streams[i]);
    }

    /** What green streams may be ahead after `p` passes. */
    function Ahead(p: nat): nat {
      if burst != 0 then p * blksize else 0
    }

    lemma AheadFits(p: nat)
      requires p < Passes()
      ensures rate != 0 ==> Ahead(p) + blksize <= Allowance()
      ensures Ahead(p + 1) == Ahead(p) + (if burst != 0 then blksize else 0)
    {
      if burst != 0 {
        ProductGrows(p + 1, burst, blksize);
      }
    }

    lemma PassDone(p: nat)
      requires p < Passes() && PassPaced(|streams|, Ahead(p))
      ensures PassPaced(0, Ahead(p + 1))
    {
      AheadFits(p);
    }

    // ----- whole calls

    /** One pass, at the time `now`, of a call that started with the given totals. */
    ghost predicate Passed(a: Snapshot, b: Snapshot, last: bool, writable: nat -> bool, write: nat -> int,
                           bytes: nat, blocks: nat, now: nat) {
      && |b.streams| == |a.streams| && a.calls <= b.calls
      && (forall j :: 0 <= j < |a.streams| ==> a.streams[j].start <= now)
      && (forall j :: 0 <= j < |a.streams| ==>
            b.streams[j] == Turn(a.streams, j, writable, write, a.calls, b.calls, now))
      && Finished(last, Ready(a.streams, writable, |a.streams|), write, a.calls, b.calls,
                  bytes + Accepted(write, 0, b.calls), blocks + Successes(write, 0, b.calls))
    }

    /** In a pass that made the write calls `calls` up to `next`, stream `j` had its turn and its write succeeded. */
    predicate Wrote(before: seq<Stream>, j: nat, writable: nat -> bool, write: nat -> int, calls: nat, next: nat)
      requires j < |before|
    {
      var k := calls + Ready(before, writable, j);
      Eligible(before[j], writable(j)) && k < next && write(k) >= 0
    }

    /** The light is green exactly if the stream is below its rate; before any time has passed it is red once
        something was sent. */
    ghost predicate LightDecided(s: Stream, now: nat) {
      && (s.start < now ==> (s.greenLight <==> 8_000_000 * s.bytesSent < rate * (now - s.start)))
      && (s.start == now && s.bytesSent > 0 ==> !s.greenLight)
    }

    /** What a pass means for a stream: its bytes grow by what its write took, and with a rate and no bursts a
        stream that wrote has its light decided anew; all else stays. */
    ghost predicate Meaning(a: Stream, b: Stream, wrote: bool, bytes: int, now: nat) {
      && b.sender == a.sender && b.start == a.start && b.bytesSent == a.bytesSent + (if wrote then bytes else 0)
      && if wrote && rate != 0 && burst == 0 then LightDecided(b, now) else b.greenLight == a.greenLight
    }

    lemma AllowedMeans(s: Stream, now: nat)
      requires s.start <= now
      ensures LightDecided(s.(greenLight := Allowed(s, now)), now)
    {
      if s.start < now {
        BelowRateExact(s.bytesSent, now - s.start, rate, undefined);
      }
    }

    lemma TurnMeans(before: seq<Stream>, j: nat, writable: nat -> bool, write: nat -> int, calls: nat, next: nat,
                    now: nat)
      requires j < |before| && before[j].start <= now
      ensures Meaning(before[j], Turn(before, j, writable, write, calls, next, now),
                      Wrote(before, j, writable, write, calls, next), write(calls + Ready(before, writable, j)), now)
    {
      hide LightDecided, Allowed, Ready;
      var k := calls + Ready(before, writable, j);
      if Wrote(before, j, writable, write, calls, next) {
        AllowedMeans(before[j].(bytesSent := before[j].bytesSent + write(k)), now);
      }
    }

    /** Every pass of a call means that for every stream. */
    lemma PassMeans(a: Snapshot, b: Snapshot, last: bool, writable: nat -> bool, write: nat -> int,
                    bytes: nat, blocks: nat, now: nat, j: nat)
      requires Passed(a, b, last, writable, write, bytes, blocks, now) && j < |a.streams|
      ensures Meaning(a.streams[j], b.streams[j], Wrote(a.streams, j, writable, write, a.calls, b.calls),
                      write(a.calls + Ready(a.streams, writable, j)), now)
    {
      hide Meaning, Wrote, Turn, Ready, Finished;
      TurnMeans(a.streams, j, writable, write, a.calls, b.calls, now);
    }

    /** The snapshots before and after each pass of a call. Only the last pass may have written nothing. */
    ghost predicate Traced(trace: seq<Snapshot>, writable: nat -> bool, write: nat -> int, bytes: nat, blocks: nat,
                           now: nat) {
      && 0 < |trace| <= Passes() + 1
      && (forall p :: 0 < p < |trace| ==>
            Passed(trace[p - 1], trace[p], p == Passes(), writable, write, bytes, blocks, now))
      && (forall p :: 0 < p < |trace| - 1 ==> Successes(write, trace[p - 1].calls, trace[p].calls) > 0)
    }

    /** The passes were all made, or the last one wrote nothing or failed. */
    ghost predicate AllPasses(trace: seq<Snapshot>, write: nat -> int, rc: int)
      requires trace != []
    {
      var n := |trace| - 1;
      n == Passes() || rc < 0 || (n > 0 && Successes(write, trace[n - 1].calls, trace[n].calls) == 0)
    }

    lemma PassedLater(a: Snapshot, b: Snapshot, last: bool, writable: nat -> bool, write: nat -> int,
                      bytes: nat, blocks: nat, now: nat, later: nat)
      requires Passed(a, b, last, writable, write, bytes, blocks, now) && now <= later
      requires rate == 0 || burst != 0
      ensures Passed(a, b, last, writable, write, bytes, blocks, later)
    {
      hide Ready, Accepted, Successes, Finished;
    }

    /** Throttle checks read the clock only in a test with a rate and no bursts. */
    lemma TraceKept(trace: seq<Snapshot>, writable: nat -> bool, write: nat -> int, bytes: nat, blocks: nat,
                    now: nat, later: nat)
      requires Traced(trace, writable, write, bytes, blocks, now) && now <= later
      requires |trace| == 1 || rate == 0 || burst != 0
      ensures Traced(trace, writable, write, bytes, blocks, later)
    {
      hide Passed, Passes, Successes;
      forall p | 0 < p < |trace|
        ensures Passed(trace[p - 1], trace[p], p == Passes(), writable, write, bytes, blocks, later)
      {
        PassedLater(trace[p - 1], trace[p], p == Passes(), writable, write, bytes, blocks, now, later);
      }
    }

    lemma TraceGrows(trace: seq<Snapshot>, s: Snapshot, writable: nat -> bool, write: nat -> int, bytes: nat,
                     blocks: nat, now: nat)
      requires Traced(trace, writable, write, bytes, blocks, now) && |trace| <= Passes()
      requires Passed(trace[|trace| - 1], s, |trace| == Passes(), writable, write, bytes, blocks, now)
      requires |trace| > 1 ==> Successes(write, trace[|trace| - 2].calls, trace[|trace| - 1].calls) > 0
      ensures Traced(trace + [s], writable, write, bytes, blocks, now)
    {
      hide Passed, Passes, Successes;
      var n := |trace|;
      var all := trace + [s];
      assert all[n] == s && forall p :: 0 <= p < n ==> all[p] == trace[p];
    }

    /** The outer loop of `iperf_send`; `done` passes were made, and the clock was read `ticks` times. */
    method SendPasses(writable: nat -> bool, write: nat -> int, times: nat -> nat)
      returns (rc: int, calls: nat, ticks: nat, ghost done: nat, ghost trace: seq<Snapshot>)
      requires Paced()
      requires forall k :: write(k) <= blksize
      requires clock <= times(0) && forall j, k :: j <= k ==> times(j) <= times(k)
      modifies this`streams, this`bytesSent, this`blocksSent, this`clock
      ensures SameStreams(old(streams), streams) && Senders(streams) == Senders(old(streams))
      ensures bytesSent - SumSent(streams) == old(bytesSent) - SumSent(old(streams))
      ensures if rate != 0 && burst == 0 then ticks == 1 && clock == times(0)
              else ticks == 0 && clock == old(clock)
      ensures PassPaced(0, Ahead(done))
      ensures done <= Passes()
      ensures old(bytesSent) < byteLimit ==> Reached(byteLimit, blksize, done, Passes(), Senders(streams), bytesSent)
      ensures old(blocksSent) < blockLimit ==> Reached(blockLimit, 1, done, Passes(), Senders(streams), blocksSent)
      ensures bytesSent == old(bytesSent) + Accepted(write, 0, calls)
      ensures blocksSent == old(blocksSent) + Successes(write, 0, calls)
      ensures rc == Result(write, calls)
      ensures Passes() > 0 && Ready(old(streams), writable, |old(streams)|) > 0 ==> calls > 0
      ensures Traced(trace, writable, write, old(bytesSent), old(blocksSent), clock) && AllPasses(trace, write, rc)
      ensures trace[0] == Snapshot(old(streams), 0) && trace[|trace| - 1] == Snapshot(streams, calls)
    {
      hide Ahead, Senders, SumSent, Within, Capacity, PassPaced, Allowance, Passes, Reached, Overshoot;
      hide Accepted, Successes, Ready, Passed, Traced;
      ghost var passes, n := Passes(), Senders(streams);
      var multisend := Passes();
      rc, calls, ticks, done, trace := 0, 0, 0, 0, [Snapshot(streams, 0)];
      if rate != 0 && burst == 0 {
        OnePass();
      }
      NoCalls(write);
      NoPass(trace, writable, write, bytesSent, blocksSent, clock);
      AheadStart();
      ReachedFirst(byteLimit, blksize, passes, n, bytesSent);
      ReachedFirst(blockLimit, 1, passes, n, blocksSent);
      while multisend > 0
        invariant rc == 0 && 0 <= multisend <= passes == Passes() && done == passes - multisend
        invariant if rate != 0 && burst == 0 && done > 0 then ticks == 1 && clock == times(0)
                  else ticks == 0 && clock == old(clock)
        invariant SameStreams(old(streams), streams) && Senders(streams) == n
        invariant bytesSent - SumSent(streams) == old(bytesSent) - SumSent(old(streams))
        invariant PassPaced(0, Ahead(done))
        invariant old(bytesSent) < byteLimit ==> Reached(byteLimit, blksize, done, passes, n, bytesSent)
        invariant old(blocksSent) < blockLimit ==> Reached(blockLimit, 1, done, passes, n, blocksSent)
        invariant bytesSent == old(bytesSent) + Accepted(write, 0, calls)
        invariant blocksSent == old(blocksSent) + Successes(write, 0, calls)
        invariant 0 < calls && write(calls - 1) < 0 ==> write(calls - 1) == SOFT_ERROR
        invariant done > 0 && Ready(old(streams), writable, |old(streams)|) > 0 ==> calls > 0
        invariant |trace| == done + 1 && trace[0] == Snapshot(old(streams), 0)
        invariant trace[|trace| - 1] == Snapshot(streams, calls)
        invariant Traced(trace, writable, write, old(bytesSent), old(blocksSent), clock)
        invariant |trace| > 1 ==> Successes(write, trace[|trace| - 2].calls, calls) > 0
      {
        if rate != 0 && burst == 0 {
          OnePass();
          TraceKept(trace, writable, write, old(bytesSent), old(blocksSent), clock, times(ticks));
          ReadClock(times(ticks), Ahead(done));
          ticks := ticks + 1;
        }
        var active, next;
        rc, active, next := OuterPass(multisend, writable, write, calls, passes, n,
                                      old(bytesSent) < byteLimit, old(blocksSent) < blockLimit,
                                      old(bytesSent), old(blocksSent));
        AcceptedJoin(write, 0, calls, next);
        TraceGrows(trace, Snapshot(streams, next), writable, write, old(bytesSent), old(blocksSent), clock);
        trace := trace + [Snapshot(streams, next)];
        calls, multisend, done := next, multisend - 1, done + 1;
        if rc < 0 || !active {
          break;
        }
      }
    }

    /** `iperf_send`. `times` answers the clock; a negative result is a failed write, which ends the test. */
    method Send(writable: nat -> bool, write: nat -> int, times: nat -> nat)
      returns (rc: int, calls: nat, ghost trace: seq<Snapshot>)
      requires Paced()
      requires forall k :: write(k) <= blksize
      requires clock <= times(0) && forall j, k :: j <= k ==> times(j) <= times(k)
      modifies this`streams, this`bytesSent, this`blocksSent, this`clock
      ensures SameStreams(old(streams), streams) && Senders(streams) == Senders(old(streams))
      ensures bytesSent - SumSent(streams) == old(bytesSent) - SumSent(old(streams))
      ensures rate != 0 ==> forall j :: 0 <= j < |streams| ==> Within(streams[j], rate, clock, Allowance())
      ensures rate != 0 ==> forall j :: 0 <= j < |streams| ==>
        8_000_000 * (streams[j].bytesSent - (if burst != 0 then burst else 1) * blksize)
        <= rate * (clock - streams[j].start)
      ensures rc == 0 ==> Paced()
      ensures Passes() == if burst != 0 then burst else if rate == 0 then multisend else 1
      ensures Passes() > 0 && old(bytesSent) < byteLimit ==>
        bytesSent <= byteLimit - 1 + (Passes() - 1 + Senders(streams)) * blksize
      ensures Passes() > 0 && old(blocksSent) < blockLimit ==>
        blocksSent <= blockLimit - 1 + (Passes() - 1 + Senders(streams))
      ensures bytesSent == old(bytesSent) + Accepted(write, 0, calls)
      ensures blocksSent == old(blocksSent) + Successes(write, 0, calls)
      ensures rc == Result(write, calls)
      ensures Passes() > 0 && Ready(old(streams), writable, |old(streams)|) > 0 ==> calls > 0
      ensures Traced(trace, writable, write, old(bytesSent), old(blocksSent), clock) && AllPasses(trace, write, rc)
      ensures trace[0] == Snapshot(old(streams), 0) && trace[|trace| - 1].calls == calls
      ensures var last := trace[|trace| - 1].streams;
              if burst != 0 && rc == 0 then Rechecked(last, |last|) else streams == last
      ensures clock == if (rate != 0 && burst == 0) || (burst != 0 && rc == 0) then times(0) else old(clock)
      ensures rate != 0 && burst == 0 ==> forall j :: 0 <= j < |streams| ==>
        Meaning(old(streams)[j], streams[j], Wrote(old(streams), j, writable, write, 0, calls),
                write(Ready(old(streams), writable, j)), clock)
      ensures burst != 0 && rc == 0 ==> forall j :: 0 <= j < |streams| ==> LightDecided(streams[j], clock)
    {
      hide Ahead, Senders, SumSent, Within, Capacity, PassPaced, Allowance, Passes, Reached, Overshoot;
      hide Accepted, Successes, Ready, Passed, Traced, Rechecked;
      PassesAre();
      var ticks;
      ghost var done;
      if rate != 0 && burst == 0 {
        OnePass();
      }
      rc, calls, ticks, done, trace := SendPasses(writable, write, times);
      ReachedEnd(byteLimit, blksize, done, Passes(), Senders(streams), bytesSent);
      ReachedEnd(blockLimit, 1, done, Passes(), Senders(streams), blocksSent);
      if rc < 0 {
        WithinAllowance(Ahead(done));
        CallMeans(trace, writable, write, old(bytesSent), old(blocksSent), rc);
        WithinMeans();
        return;
      }
      if burst != 0 {
        TraceKept(trace, writable, write, old(bytesSent), old(blocksSent), clock, times(ticks));
        ReadClock(times(ticks), Ahead(done));
        CheckAll(Ahead(done));
      } else {
        AheadWithoutBurst(done);
      }
      WithinAllowance(0);
      CallMeans(trace, writable, write, old(bytesSent), old(blocksSent), rc);
      RecheckedMeans(trace[|trace| - 1].streams);
      WithinMeans();
    }

    lemma PassesAre()
      ensures Passes() == if burst != 0 then burst else if rate == 0 then multisend else 1
    {
    }

    /** The bound in numbers: bits sent beyond one block, or one burst, are at most rate times elapsed time. */
    lemma WithinMeans()
      ensures AllWithin(streams, rate, clock, Allowance()) ==> forall j :: 0 <= j < |streams| ==>
        8_000_000 * (streams[j].bytesSent - (if burst != 0 then burst else 1) * blksize)
        <= rate * (clock - streams[j].start)
    {
    }

    /** With a rate and no bursts a call is one pass. */
    lemma CallMeans(trace: seq<Snapshot>, writable: nat -> bool, write: nat -> int, bytes: nat, blocks: nat, rc: int)
      requires Traced(trace, writable, write, bytes, blocks, clock) && AllPasses(trace, write, rc)
      requires trace[0].calls == 0 && (rc < 0 ==> trace[|trace| - 1].calls > 0)
      ensures rate != 0 && burst == 0 ==> forall j :: 0 <= j < |trace[0].streams| ==>
        && |trace[|trace| - 1].streams| == |trace[0].streams|
        && Meaning(trace[0].streams[j], trace[|trace| - 1].streams[j],
                   Wrote(trace[0].streams, j, writable, write, 0, trace[|trace| - 1].calls),
                   write(Ready(trace[0].streams, writable, j)), clock)
    {
      hide Meaning, Wrote, Ready, Turn, Finished, Successes, Accepted;
      if rate != 0 && burst == 0 {
        OnePass();
        assert |trace| == 2 && Passed(trace[0], trace[1], true, writable, write, bytes, blocks, clock);
        forall j | 0 <= j < |trace[0].streams|
          ensures Meaning(trace[0].streams[j], trace[1].streams[j],
                          Wrote(trace[0].streams, j, writable, write, 0, trace[1].calls),
                          write(Ready(trace[0].streams, writable, j)), clock)
        {
          PassMeans(trace[0], trace[1], true, writable, write, bytes, blocks, clock, j);
        }
      }
    }

    lemma RecheckedMeans(before: seq<Stream>)
      ensures Rechecked(before, |before|) ==> forall j :: 0 <= j < |streams| ==> LightDecided(streams[j], clock)
    {
      hide LightDecided, Allowed;
      if Rechecked(before, |before|) {
        forall j | 0 <= j < |streams|
          ensures LightDecided(streams[j], clock)
        {
          AllowedMeans(before[j], clock);
        }
      }
    }

    lemma OnePass()
      requires rate != 0 && burst == 0
      ensures Passes() == 1
    {
    }

    lemma NoPass(trace: seq<Snapshot>, writable: nat -> bool, write: nat -> int, bytes: nat, blocks: nat, now: nat)
      requires |trace| == 1
      ensures Traced(trace, writable, write, bytes, blocks, now)
    {
    }

    lemma AheadStart()
      ensures Ahead(0) == 0
    {
    }

    lemma AheadWithoutBurst(p: nat)
      requires burst == 0
      ensures Ahead(p) == 0
    {
    }

    lemma WithinAllowance(ahead: nat)
      requires PassPaced(0, ahead)
      ensures rate != 0 ==> forall j :: 0 <= j < |streams| ==> Within(streams[j], rate, clock, Allowance())
    {
    }

    /** The second record is what the event makes of the first. */
    ghost predicate Follows(a: Record, b: Record, e: Event) {
      match e
      case Call(writable, write, times) =>
        && Traced(b.trace, writable, write, a.bytes, a.blocks, b.clock) && AllPasses(b.trace, write, b.rc)
        && b.trace[0] == Snapshot(a.streams, 0)
        && var last := b.trace[|b.trace| - 1];
        && b.bytes == a.bytes + Accepted(write, 0, last.calls) && b.blocks == a.blocks + Successes(write, 0, last.calls)
        && b.rc == Result(write, last.calls)
        && b.clock == (if (rate != 0 && burst == 0) || (burst != 0 && b.rc == 0) then times(0) else a.clock)
        && if burst != 0 && b.rc == 0 then RecheckedAt(last.streams, b.streams, |last.streams|, b.clock)
           else b.streams == last.streams
      case Fires(i, now) =>
        && b.bytes == a.bytes && b.blocks == a.blocks && b.rc == 0 && b.clock == now
        && i < |a.streams| && a.streams[i].start <= now
        && b.streams == a.streams[i := a.streams[i].(greenLight := Allowed(a.streams[i], now))]
    }

    /** A green stream that may write does so in the next call, if no write fails. */
    lemma GreenSends(a: Record, b: Record, writable: nat -> bool, write: nat -> int, times: nat -> nat, j: nat)
      requires rate != 0 && burst == 0 && Follows(a, b, Call(writable, write, times)) && forall k :: write(k) >= 0
      requires j < |a.streams| && Eligible(a.streams[j], writable(j))
      ensures j < |b.streams| && b.streams[j].bytesSent == a.streams[j].bytesSent + write(Ready(a.streams, writable, j))
      ensures LightDecided(b.streams[j], b.clock)
    {
      hide Ready, Turn, Successes, Accepted, LightDecided;
      OnePass();
      var trace := b.trace;
      assert |trace| == 2 && Passed(trace[0], trace[1], true, writable, write, a.bytes, a.blocks, b.clock);
      PassMeans(trace[0], trace[1], true, writable, write, a.bytes, a.blocks, b.clock, j);
      ReadyGrows(a.streams, writable, j, |a.streams|);
    }

    /** Pacing from below: a stream that is below its rate when its pacing timer fires sends in the next call. */
    lemma BelowRateSends(a: Record, b: Record, c: Record, now: nat, writable: nat -> bool, write: nat -> int,
                         times: nat -> nat, j: nat)
      requires rate != 0 && burst == 0 && forall k :: write(k) >= 0
      requires Follows(a, b, Fires(j, now)) && Follows(b, c, Call(writable, write, times))
      requires j < |a.streams| && a.streams[j].sender && writable(j) && a.streams[j].start < now
      requires 8_000_000 * a.streams[j].bytesSent < rate * (now - a.streams[j].start)
      ensures j < |c.streams|
      ensures c.streams[j].bytesSent == a.streams[j].bytesSent + write(Ready(b.streams, writable, j))
    {
      hide Ready, Traced, AllPasses, Accepted, Successes;
      AllowedMeans(a.streams[j], now);
      GreenSends(b, c, writable, write, times, j);
    }

    ghost function State(rc: int, trace: seq<Snapshot>): Record
      reads this
    {
      Record(streams, bytesSent, blocksSent, clock, rc, trace)
    }

    /** One event; a write error ends the test. */
    method Handle(e: Event) returns (rc: int, ghost trace: seq<Snapshot>)
      requires Paced() && Possible(e, blksize, |streams|) && clock <= Time(e)
      modifies this`streams, this`bytesSent, this`blocksSent, this`clock
      ensures SameStreams(old(streams), streams) && clock <= Time(e) && (rc == 0 ==> Paced())
      ensures rate != 0 ==> AllWithin(streams, rate, Time(e), Allowance())
      ensures bytesSent - SumSent(streams) == old(bytesSent) - SumSent(old(streams))
      ensures forall before :: Follows(old(State(0, before)), State(rc, trace), e)
    {
      hide PassPaced, Allowance, Within, Traced, AllPasses, SumSent, Accepted, Successes, RecheckedAt;
      rc, trace := 0, [];
      match e {
        case Call(writable, write, times) =>
          var calls;
          rc, calls, trace := Send(writable, write, times);
        case Fires(stream, now) =>
          SendTimer(stream, now);
          WithinAllowance(0);
      }
      if rate != 0 {
        AllWithinLater(streams, rate, clock, Time(e), Allowance());
      }
    }

    /** A record before the first and after every event: each follows from the one before, is about the same streams,
        and has every stream within rate times the time since its start, but for the allowance. */
    ghost predicate Logged(log: seq<Record>, events: seq<Event>, streams: seq<Stream>) {
      && 0 < |log| <= |events| + 1
      && (forall k :: 0 <= k < |log| ==> SameStreams(streams, log[k].streams))
      && (forall k :: 0 < k < |log| ==> Follows(log[k - 1], log[k], events[k - 1]))
      && (rate != 0 ==>
            forall k :: 0 < k < |log| ==> AllWithin(log[k].streams, rate, Time(events[k - 1]), Allowance()))
    }

    lemma LogGrows(log: seq<Record>, events: seq<Event>, streams: seq<Stream>, r: Record)
      requires Logged(log, events, streams) && |log| <= |events| && SameStreams(streams, r.streams)
      requires Follows(log[|log| - 1], r, events[|log| - 1])
      requires rate != 0 ==> AllWithin(r.streams, rate, Time(events[|log| - 1]), Allowance())
      ensures Logged(log + [r], events, streams)
    {
      hide SameStreams, Follows, AllWithin;
      var n := |log|;
      var all := log + [r];
      assert all[n] == r && forall k :: 0 <= k < n ==> all[k] == log[k];
    }

    /** Any run of sends and pacing timers, up to the first write error. */
    method Drive(events: seq<Event>) returns (rc: int, done: nat, ghost log: seq<Record>)
      requires Paced() && forall k :: 0 <= k < |events| ==> Possible(events[k], blksize, |streams|)
      requires forall k :: 0 <= k < |events| ==> clock <= Time(events[k])
      requires forall j, k :: 0 <= j <= k < |events| ==> Time(events[j]) <= Time(events[k])
      modifies this`streams, this`bytesSent, this`blocksSent, this`clock
      ensures done <= |events| && (done < |events| ==> rc != 0) && (rc == 0 ==> Paced())
      ensures |log| == done + 1 && log[0] == old(State(0, [])) && log[done] == State(rc, log[done].trace)
      ensures Logged(log, events, old(streams))
      ensures bytesSent - SumSent(streams) == old(bytesSent) - SumSent(old(streams))
    {
      hide PassPaced, AllWithin, Allowance, SumSent, Possible, Follows, Logged;
      rc, done, log := 0, 0, [State(0, [])];
      assert Logged(log, events, streams) by { LogStarts(log, events, streams); }
      while done < |events|
        invariant 0 <= done <= |events| && rc == 0 && Paced() && SameStreams(old(streams), streams)
        invariant forall k :: done <= k < |events| ==> clock <= Time(events[k])
        invariant |log| == done + 1 && log[0] == old(State(0, [])) && log[done] == State(0, log[done].trace)
        invariant Logged(log, events, old(streams))
        invariant bytesSent - SumSent(streams) == old(bytesSent) - SumSent(old(streams))
      {
        ghost var trace;
        rc, trace := Handle(events[done]);
        LogGrows(log, events, old(streams), State(rc, trace));
        log := log + [State(rc, trace)];
        done := done + 1;
        if rc != 0 {
          return;
        }
      }
    }

    lemma LogStarts(log: seq<Record>, events: seq<Event>, streams: seq<Stream>)
      requires |log| == 1 && log[0].streams == streams
      ensures Logged(log, events, streams)
    {
    }

    /** One pass inside the outer loop, with the loop's own invariant. */
    method OuterPass(multisend: nat, writable: nat -> bool, write: nat -> int, calls: nat,
                     ghost passes: nat, ghost n: nat, ghost belowBytes: bool, ghost belowBlocks: bool,
                     ghost bytes: nat, ghost blocks: nat)
      returns (rc: int, active: bool, next: nat)
      requires forall k :: write(k) <= blksize
      requires 0 < multisend <= passes == Passes() && Senders(streams) == n
      requires bytesSent == bytes + Accepted(write, 0, calls) && blocksSent == blocks + Successes(write, 0, calls)
      requires PassPaced(0, Ahead(passes - multisend))
      requires belowBytes ==> byteLimit != 0 && Reached(byteLimit, blksize, passes - multisend, passes, n, bytesSent)
      requires belowBlocks ==> blockLimit != 0 && Reached(blockLimit, 1, passes - multisend, passes, n, blocksSent)
      modifies this`streams, this`bytesSent, this`blocksSent
      ensures SameStreams(old(streams), streams) && Senders(streams) == n
      ensures bytesSent - SumSent(streams) == old(bytesSent) - SumSent(old(streams))
      ensures PassPaced(0, Ahead(passes - multisend + 1))
      ensures belowBytes ==> Reached(byteLimit, blksize, passes - multisend + 1, passes, n, bytesSent)
      ensures belowBlocks ==> Reached(blockLimit, 1, passes - multisend + 1, passes, n, blocksSent)
      ensures calls <= next && bytesSent == old(bytesSent) + Accepted(write, calls, next)
      ensures blocksSent == old(blocksSent) + Successes(write, calls, next)
      ensures active <==> blocksSent > old(blocksSent)
      ensures rc == if calls < next && write(next - 1) < 0 && write(next - 1) != SOFT_ERROR then write(next - 1) else 0
      ensures Ready(old(streams), writable, |old(streams)|) > 0 ==> calls < next
      ensures Passed(Snapshot(old(streams), calls), Snapshot(streams, next), multisend == 1, writable, write, bytes,
                     blocks, clock)
    {
      hide Ahead, Senders, SumSent, Within, Capacity, PassPaced, Allowance, Passes, Reached, Overshoot;
      hide Accepted, Successes, Ready, Turn;
      ghost var p := passes - multisend;
      AheadFits(p);
      CapacityIs(streams, blksize);
      CapacityIs(streams, 1);
      rc, active, next := SendPass(multisend <= 1, writable, write, calls, Ahead(p));
      AcceptedJoin(write, 0, calls, next);
      TurnsSame(old(streams), writable, write, calls, next);
      PassDone(p);
      if belowBytes {
        ReachedPass(byteLimit, blksize, p, passes, n, old(bytesSent), bytesSent);
      }
      if belowBlocks {
        ReachedPass(blockLimit, 1, p, passes, n, old(blocksSent), blocksSent);
      }
    }
  }

  // ----- how far the outer loop can overshoot a limit

  /** Each of the first passes adds at most one unit beyond the limit; the last adds one for each of `n` senders. */
  predicate Reached(limit: nat, unit: nat, p: nat, passes: nat, n: nat, sent: nat) {
    sent <= limit - 1 + (if p < passes || p == 0 then p else p - 1 + n) * unit
  }

  lemma ReachedFirst(limit: nat, unit: nat, passes: nat, n: nat, sent: nat)
    ensures sent < limit ==> Reached(limit, unit, 0, passes, n, sent)
  {
  }

  lemma ReachedPass(limit: nat, unit: nat, p: nat, passes: nat, n: nat, before: nat, after: nat)
    requires p < passes && Reached(limit, unit, p, passes, n, before) && limit != 0
    requires p + 1 < passes ==> Overshoot(limit, before, after, unit)
    requires after <= before + unit * n
    ensures Reached(limit, unit, p + 1, passes, n, after)
  {
    assert (p + 1) * unit == p * unit + unit;
    assert (p + n) * unit == p * unit + unit * n;
    ProductGrows(0, p, unit);
  }

  lemma ReachedEnd(limit: nat, unit: nat, p: nat, passes: nat, n: nat, sent: nat)
    requires p <= passes
    ensures passes > 0 && Reached(limit, unit, p, passes, n, sent) ==> sent <= limit - 1 + (passes - 1 + n) * unit
  {
    if 0 < passes && p < passes {
      ProductGrows(p, passes - 1 + n, unit);
    }
  }

  lemma {:induction false} NothingSent(streams: seq<Stream>)
    requires forall i :: 0 <= i < |streams| ==> streams[i].bytesSent == 0
    ensures SumSent(streams) == 0
  {
    if streams != [] {
      NothingSent(streams[..|streams| - 1]);
    }
  }
}
