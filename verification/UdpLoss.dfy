/** UDP loss accounting in constant storage, against the set of sequence numbers that arrived. */
module UdpLoss {
  import opened Common

  /** The counters of a receiving stream. */
  datatype Counters = Counters(packetCount: nat, cntError: nat, outOfOrder: nat)

  function Arrive(c: Counters, pcount: nat): Counters {
    if pcount >= c.packetCount + 1 then
      c.(packetCount := pcount, cntError := c.cntError + (pcount - 1 - c.packetCount))
    else
      c.(outOfOrder := c.outOfOrder + 1, cntError := if c.cntError > 0 then c.cntError - 1 else 0)
  }

  /** The counters after a run of arrivals. */
  function Tally(run: seq<nat>): Counters {
    if run == [] then Counters(0, 0, 0) else Arrive(Tally(run[..|run| - 1]), run[|run| - 1])
  }

  /** `iperf_udp_recv`, as far as the counters go. */
  class Receiver {
    var packetCount: nat
    var cntError: nat
    var outOfOrder: nat
    ghost var run: seq<nat>

    ghost predicate Valid()
      reads this
    {
      Counters(packetCount, cntError, outOfOrder) == Tally(run)
    }

    constructor ()
      ensures Valid() && run == []
    {
      packetCount, cntError, outOfOrder, run := 0, 0, 0, [];
    }

    method Receive(pcount: nat)
      requires Valid()
      modifies this
      ensures Valid() && run == old(run) + [pcount]
    {
      if pcount >= packetCount + 1 {
        if pcount > packetCount + 1 {
          cntError := cntError + (pcount - 1 - packetCount);
        }
        packetCount := pcount;
      } else {
        outOfOrder := outOfOrder + 1;
        if cntError > 0 {
          cntError := cntError - 1;
        }
      }
      assert (run + [pcount])[..|run|] == run;
      run := run + [pcount];
    }
  }

  // ----- the set model

  /** Sequence numbers start at 1 and fit the counter. */
  predicate Numbers(run: seq<nat>) {
    forall i :: 0 <= i < |run| ==> 1 <= run[i] < INT_LIMIT
  }

  function Highest(run: seq<nat>): (m: nat)
    ensures forall i :: 0 <= i < |run| ==> run[i] <= m
    ensures run == [] ==> m == 0
    ensures run != [] ==> m in run
  {
    if run == [] then 0
    else
      var m := Highest(run[..|run| - 1]);
      assert forall i :: 0 <= i < |run| - 1 ==> run[i] == run[..|run| - 1][i];
      if run[|run| - 1] > m || |run| == 1 then run[|run| - 1] else m
  }

  /** The numbers up to the highest that have not arrived. */
  function Missing(run: seq<nat>): set<nat> {
    set k | 1 <= k <= Highest(run) && k !in run
  }

  /** Arrivals of a number that had arrived before. */
  function Duplicates(run: seq<nat>): nat {
    if run == [] then 0
    else Duplicates(run[..|run| - 1]) + (if run[|run| - 1] in run[..|run| - 1] then 1 else 0)
  }

  /** The numbers from `lo` up to but not including `hi`. */
  function Range(lo: nat, hi: nat): (r: set<nat>)
    requires lo <= hi
    ensures forall k :: k in r <==> lo <= k < hi
    ensures |r| == hi - lo
    decreases hi - lo
  {
    if lo == hi then {} else Range(lo, hi - 1) + {hi - 1}
  }

  lemma Last(run: seq<nat>, p: nat)
    ensures (run + [p])[..|run|] == run && (run + [p])[|run|] == p
    ensures Tally(run + [p]) == Arrive(Tally(run), p)
    ensures Highest(run + [p]) == if p > Highest(run) then p else Highest(run)
    ensures Duplicates(run + [p]) == Duplicates(run) + (if p in run then 1 else 0)
  {
    assert (run + [p])[..|run|] == run;
  }

  /** How one arrival changes the set of missing numbers. */
  lemma MissingStep(run: seq<nat>, p: nat)
    requires Numbers(run) && p >= 1
    ensures |Missing(run + [p])|
         == if p > Highest(run) then |Missing(run)| + (p - 1 - Highest(run))
            else if p in run then |Missing(run)| else |Missing(run)| - 1
  {
    hide Missing;
    if p > Highest(run) {
      GapOpens(run, p);
    } else {
      GapCloses(run, p);
    }
  }

  lemma GapOpens(run: seq<nat>, p: nat)
    requires Numbers(run) && p > Highest(run)
    ensures |Missing(run + [p])| == |Missing(run)| + (p - 1 - Highest(run))
  {
    hide Highest, Duplicates, Tally, Range;
    Last(run, p);
    var gap := Range(Highest(run) + 1, p);
    assert Missing(run + [p]) == Missing(run) + gap;
    assert Missing(run) !! gap;
  }

  lemma GapCloses(run: seq<nat>, p: nat)
    requires Numbers(run) && 1 <= p <= Highest(run)
    ensures |Missing(run + [p])| == if p in run then |Missing(run)| else |Missing(run)| - 1
  {
    hide Highest, Duplicates, Tally;
    Last(run, p);
    if p in run {
      assert Missing(run + [p]) == Missing(run);
    } else {
      assert p in Missing(run);
      assert Missing(run + [p]) == Missing(run) - {p};
    }
  }

  /** Loss accounting refines the set model: the highest number is exact, and the loss count is too low by at
      most one per duplicate. */
  lemma {:induction false} LossBounds(run: seq<nat>)
    requires Numbers(run)
    ensures Tally(run).packetCount == Highest(run)
    ensures |Missing(run)| - Duplicates(run) <= Tally(run).cntError <= |Missing(run)|
  {
    if run == [] {
      assert Missing(run) == {};
    } else {
      var before, p := run[..|run| - 1], run[|run| - 1];
      assert run == before + [p];
      LossBounds(before);
      Last(before, p);
      MissingStep(before, p);
    }
  }

  lemma {:induction false} DistinctCount(run: seq<nat>)
    requires Numbers(run)
    ensures |Missing(run)| == Highest(run) - (|run| - Duplicates(run))
  {
    if run == [] {
      assert Missing(run) == {};
    } else {
      var before, p := run[..|run| - 1], run[|run| - 1];
      assert run == before + [p];
      DistinctCount(before);
      Last(before, p);
      MissingStep(before, p);
    }
  }

  /** Arrival `i` came after one with the same or a higher number. */
  ghost predicate Late(run: seq<nat>, i: nat)
    requires i < |run|
  {
    exists j :: 0 <= j < i && run[j] >= run[i]
  }

  ghost function LateOnes(run: seq<nat>): set<nat> {
    set i | 0 <= i < |run| && Late(run, i)
  }

  /** The out-of-order counter is the number of arrivals that came late. */
  lemma {:induction false} OutOfOrderCounts(run: seq<nat>)
    requires Numbers(run)
    ensures Tally(run).outOfOrder == |LateOnes(run)|
  {
    if run == [] {
      assert LateOnes(run) == {};
    } else {
      var n := |run| - 1;
      var init, p := run[..n], run[n];
      assert run == init + [p];
      OutOfOrderCounts(init);
      LossBounds(init);
      Last(init, p);
      LateStep(init, p);
    }
  }

  lemma LateStep(run: seq<nat>, p: nat)
    requires p >= 1
    ensures |LateOnes(run + [p])| == |LateOnes(run)| + if p <= Highest(run) then 1 else 0
  {
    var n := |run|;
    var after := run + [p];
    forall i | 0 <= i < n
      ensures Late(after, i) <==> Late(run, i)
    {
      if Late(run, i) {
        var j :| 0 <= j < i && run[j] >= run[i];
        assert after[j] >= after[i];
      }
      if Late(after, i) {
        var j :| 0 <= j < i && after[j] >= after[i];
        assert run[j] >= run[i];
      }
    }
    if p <= Highest(run) {
      var j :| 0 <= j < n && run[j] == Highest(run);
      assert after[j] >= after[n];
      assert LateOnes(after) == LateOnes(run) + {n};
    } else {
      assert !Late(after, n);
      assert LateOnes(after) == LateOnes(run);
    }
  }

  // ----- exactly when the count is right

  /** How far, at its worst moment, the number of arrivals was ahead of the highest number. */
  function Surplus(run: seq<nat>): (r: nat) {
    if run == [] then 0
    else
      var before := Surplus(run[..|run| - 1]);
      if |run| - Highest(run) > before then |run| - Highest(run) else before
  }

  lemma SurplusStep(run: seq<nat>)
    requires run != []
    ensures Surplus(run[..|run| - 1]) <= Surplus(run) && |run| - Highest(run) <= Surplus(run)
    ensures Surplus(run) == Surplus(run[..|run| - 1]) || Surplus(run) == |run| - Highest(run)
  {
    hide Highest;
  }

  lemma {:induction false} SurplusBounds(run: seq<nat>, k: nat)
    requires k <= |run|
    ensures k - Highest(run[..k]) <= Surplus(run)
  {
    hide Highest, Surplus;
    if k == |run| {
      assert run[..k] == run;
    } else {
      assert run[..|run| - 1][..k] == run[..k];
      SurplusBounds(run[..|run| - 1], k);
    }
    if run != [] {
      SurplusStep(run);
    }
  }

  lemma {:induction false} SurplusReached(run: seq<nat>) returns (k: nat)
    ensures k <= |run| && k - Highest(run[..k]) == Surplus(run)
  {
    k := |run|;
    assert run[..k] == run;
    if run != [] {
      hide Highest, Surplus;
      SurplusStep(run);
      if Surplus(run) != |run| - Highest(run) {
        k := SurplusReached(run[..|run| - 1]);
        assert run[..|run| - 1][..k] == run[..k];
      }
    }
  }

  /** It is the maximum over all prefixes. */
  lemma SurplusIsMaximum(run: seq<nat>)
    ensures forall k :: 0 <= k <= |run| ==> k - Highest(run[..k]) <= Surplus(run)
    ensures exists k :: 0 <= k <= |run| && k - Highest(run[..k]) == Surplus(run)
  {
    hide Highest, Surplus;
    forall k | 0 <= k <= |run|
      ensures k - Highest(run[..k]) <= Surplus(run)
    {
      SurplusBounds(run, k);
    }
    var k := SurplusReached(run);
  }

  /** The loss count in closed form, whatever arrives. */
  lemma {:induction false} LossFormula(run: seq<nat>)
    requires Numbers(run)
    ensures Tally(run).cntError == Highest(run) - |run| + Surplus(run)
  {
    if run != [] {
      var before, p := run[..|run| - 1], run[|run| - 1];
      assert run == before + [p];
      LossFormula(before);
      LossBounds(before);
      Last(before, p);
      assert |before| - Highest(before) <= Surplus(before) by {
        SurplusIsMaximum(before);
        assert before[..|before|] == before;
      }
    }
  }

  lemma {:induction false} DuplicatesGrow(run: seq<nat>, k: nat)
    requires k <= |run|
    ensures Duplicates(run[..k]) <= Duplicates(run)
  {
    if k == |run| {
      assert run[..k] == run;
    } else {
      assert run[..|run| - 1][..k] == run[..k];
      DuplicatesGrow(run[..|run| - 1], k);
    }
  }

  /** At a moment when nothing was missing, every duplicate had arrived. */
  ghost predicate CaughtUp(run: seq<nat>, k: nat)
    requires k <= |run|
  {
    Missing(run[..k]) == {} && Duplicates(run[..k]) == Duplicates(run)
  }

  /** The count is exact if and only if there was such a moment. */
  lemma LossExact(run: seq<nat>)
    requires Numbers(run)
    ensures Tally(run).cntError == |Missing(run)| <==> Surplus(run) == Duplicates(run)
    ensures Tally(run).cntError == |Missing(run)| <==> exists k :: 0 <= k <= |run| && CaughtUp(run, k)
  {
    hide Missing, Tally, Highest, Duplicates, Surplus;
    LossFormula(run);
    DistinctCount(run);
    SurplusIsMaximum(run);
    forall k | 0 <= k <= |run|
      ensures k - Highest(run[..k]) == Duplicates(run[..k]) - |Missing(run[..k])|
      ensures Duplicates(run[..k]) <= Duplicates(run)
    {
      DistinctCount(run[..k]);
      DuplicatesGrow(run, k);
    }
    if Surplus(run) == Duplicates(run) {
      var k :| 0 <= k <= |run| && k - Highest(run[..k]) == Surplus(run);
      assert CaughtUp(run, k);
    }
  }

  /** Without duplicates the count is exact, and what is not lost is what arrived. */
  lemma NoDuplicatesExact(run: seq<nat>)
    requires Numbers(run) && Duplicates(run) == 0
    ensures Tally(run).cntError == |Missing(run)|
    ensures Tally(run).packetCount - Tally(run).cntError == |run|
  {
    assert run[..0] == [] && Missing(run[..0]) == {};
    assert CaughtUp(run, 0);
    LossExact(run);
    LossBounds(run);
    DistinctCount(run);
  }

  /** ... and then the result does not depend on the order of arrival. */
  lemma OrderIrrelevant(run: seq<nat>, other: seq<nat>)
    requires Numbers(run) && Numbers(other) && Duplicates(run) == 0 && Duplicates(other) == 0
    requires forall k :: k in run <==> k in other
    ensures Tally(run).packetCount == Tally(other).packetCount && Tally(run).cntError == Tally(other).cntError
  {
    LossBounds(run);
    LossBounds(other);
    SameHighest(run, other);
    SameMissing(run, other);
  }

  lemma {:induction false} SecondFirst(run: seq<nat>)
    requires run != [] && run[0] == 1 && Duplicates(run) == 0
    ensures Duplicates([1] + run) == 1
  {
    var n := |run|;
    var more := [1] + run;
    if n == 1 {
      assert more == [1, 1] && more[..1] == [1];
      assert Duplicates(more[..1]) == 0;
    } else {
      var init := run[..n - 1];
      assert more[..n] == [1] + init && init[0] == 1;
      SecondFirst(init);
    }
  }

  /** With a duplicate the count depends on the order. Take any run that begins with packet 1, repeats none and has
      losses, and a second copy of packet 1: in front, while nothing is missing, it does no harm; at the end it
      hides one loss. */
  lemma DuplicatesDependOnOrder(run: seq<nat>)
    requires Numbers(run) && run != [] && run[0] == 1 && Duplicates(run) == 0 && Missing(run) != {}
    ensures Tally([1] + run).cntError == |Missing(run)| && Missing([1] + run) == Missing(run)
    ensures Tally(run + [1]).cntError == |Missing(run)| - 1 && Missing(run + [1]) == Missing(run)
  {
    hide Tally, Duplicates, Missing, Highest;
    SameMissing([1] + run, run);
    SameMissing(run + [1], run);
    EarlyCopy(run);
    NoDuplicatesExact(run);
    LossBounds(run);
    Last(run, 1);
  }

  /** A second copy of packet 1 right behind the first: all is caught up then. */
  lemma EarlyCopy(run: seq<nat>)
    requires Numbers(run) && run != [] && run[0] == 1 && Duplicates(run) == 0
    ensures Tally([1] + run).cntError == |Missing([1] + run)|
  {
    hide Tally, Duplicates;
    var early := [1] + run;
    SecondFirst(run);
    DuplicatesGrow(run, 1);
    SecondFirst(run[..1]);
    assert early[..2] == [1] + run[..1] == [1, 1];
    assert Missing([1, 1]) == {};
    assert CaughtUp(early, 2);
    hide Missing, Highest;
    LossExact(early);
  }

  lemma SameMissing(a: seq<nat>, b: seq<nat>)
    requires forall k :: k in a <==> k in b
    ensures Missing(a) == Missing(b)
  {
    SameHighest(a, b);
  }

  lemma SameHighest(a: seq<nat>, b: seq<nat>)
    requires forall k :: k in a <==> k in b
    ensures Highest(a) == Highest(b)
  {
    if a != [] {
      assert Highest(a) in b;
      assert Highest(b) in a;
    } else if b != [] {
      assert b[0] in b;
    }
  }
}
