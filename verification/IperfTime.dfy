/** `iperf_time`: 32-bit seconds and microseconds. */
module IperfTime {
  import opened Common

  datatype Time = Time(secs: nat, usecs: nat)

  /** Fields in range, microseconds below one second: every time the clock and the sums produce. */
  predicate Normal(t: Time) {
    t.secs < WORD && t.usecs < MILLION
  }

  /** `iperf_time_in_usecs`. */
  function Micros(t: Time): nat {
    t.secs * MILLION + t.usecs
  }

  /** `iperf_time_add_usecs`: the seconds field wraps at 2^32. */
  function AddUsecs(t: Time, n: nat): Time {
    var secs := (t.secs + n / MILLION) % WORD;
    var usecs := t.usecs + n % MILLION;
    if usecs >= MILLION then Time((secs + usecs / MILLION) % WORD, usecs % MILLION) else Time(secs, usecs)
  }

  /** Addition is addition of microseconds modulo 2^32 seconds, so it is exact just when nothing wraps. */
  lemma AddUsecsModular(t: Time, n: nat)
    requires Normal(t)
    ensures Normal(AddUsecs(t, n))
    ensures Micros(AddUsecs(t, n)) == (Micros(t) + n) % (WORD * MILLION)
    ensures Micros(AddUsecs(t, n)) == Micros(t) + n <==> Micros(t) + n < WORD * MILLION
  {
    var carry := (t.usecs + n % MILLION) / MILLION;
    var secs := t.secs + n / MILLION + carry;
    var usecs := (t.usecs + n % MILLION) % MILLION;
    assert Micros(t) + n == secs * MILLION + usecs;
    WrapTwice(t.secs + n / MILLION, carry);
    assert AddUsecs(t, n) == Time(secs % WORD, usecs);
    Split(secs, usecs);
  }

  lemma WrapTwice(a: nat, c: nat)
    requires c <= 1
    ensures (a % WORD + c) % WORD == (a + c) % WORD
  {
  }

  /** Wrapping the seconds wraps the microseconds. */
  lemma Split(secs: nat, usecs: nat)
    requires usecs < MILLION
    ensures (secs * MILLION + usecs) % (WORD * MILLION) == secs % WORD * MILLION + usecs
  {
    var q, r := secs / WORD, secs % WORD;
    var rest := r * MILLION + usecs;
    assert secs * MILLION + usecs == q * (WORD * MILLION) + rest;
    assert rest < WORD * MILLION;
    assert rest == (q * (WORD * MILLION) + rest) % (WORD * MILLION);
  }

  /** `iperf_time_compare`. */
  function Compare(a: Time, b: Time): (r: int)
    ensures -1 <= r <= 1
  {
    if a.secs < b.secs then -1
    else if a.secs > b.secs then 1
    else if a.usecs < b.usecs then -1
    else if a.usecs > b.usecs then 1
    else 0
  }

  lemma CompareMicros(a: Time, b: Time)
    requires Normal(a) && Normal(b)
    ensures Compare(a, b) < 0 <==> Micros(a) < Micros(b)
    ensures Compare(a, b) > 0 <==> Micros(a) > Micros(b)
    ensures Compare(a, b) == 0 <==> a == b
  {
  }

  /** `iperf_time_diff`: whether `a` is not later than `b`, and the distance between them. */
  method Diff(a: Time, b: Time) returns (past: bool, diff: Time)
    requires Normal(a) && Normal(b)
    ensures Normal(diff)
    ensures past <==> Micros(a) <= Micros(b)
    ensures Micros(diff) == if past then Micros(b) - Micros(a) else Micros(a) - Micros(b)
  {
    var cmp := Compare(a, b);
    if cmp == 0 {
      return true, Time(0, 0);
    }
    var late, early := if cmp == 1 then a else b, if cmp == 1 then b else a;
    var secs, usecs := late.secs - early.secs, late.usecs;
    if usecs < early.usecs {
      secs := secs - 1;
      usecs := usecs + MILLION;
    }
    diff := Time(secs, usecs - early.usecs);
    past := cmp != 1;
  }
}
