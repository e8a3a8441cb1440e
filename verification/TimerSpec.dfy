/** The timer list as a sequence: stable sorted insertion, and what a run of the due timers does to it. */
module TimerSpec {
  import opened Seqs

  /** An active timer: due at `time`, and every `usecs` again if periodic. */
  datatype Entry<T> = Entry(id: T, time: int, usecs: nat, periodic: bool)

  ghost predicate Sorted<T>(list: seq<Entry<T>>) {
    forall i, j :: 0 <= i < j < |list| ==> list[i].time <= list[j].time
  }

  ghost predicate Distinct<T>(list: seq<Entry<T>>) {
    forall i, j :: 0 <= i < j < |list| ==> list[i].id != list[j].id
  }

  /** Periodic timers have a positive period. */
  ghost predicate Positive<T>(list: seq<Entry<T>>) {
    forall i :: 0 <= i < |list| && list[i].periodic ==> list[i].usecs > 0
  }

  /** Where `list_add` stops: behind every timer that is due no later. */
  function Position<T>(list: seq<Entry<T>>, time: int): (p: nat)
    ensures p <= |list|
    ensures forall i :: 0 <= i < p ==> list[i].time <= time
    ensures p < |list| ==> time < list[p].time
  {
    if list == [] || time < list[0].time then 0
    else
      var q := Position(list[1..], time);
      assert forall i :: 1 <= i < q + 1 ==> list[i] == list[1..][i - 1];
      q + 1
  }

  /** The place is determined by those two facts. */
  lemma PositionIs<T>(list: seq<Entry<T>>, time: int, p: nat)
    requires Sorted(list) && p <= |list|
    requires forall i :: 0 <= i < p ==> list[i].time <= time
    requires p < |list| ==> time < list[p].time
    ensures Position(list, time) == p
  {
    hide Position;
    var q := Position(list, time);
  }

  /** `list_add`. */
  function Add<T>(list: seq<Entry<T>>, e: Entry<T>): seq<Entry<T>> {
    InsertAt(list, Position(list, e.time), e)
  }

  lemma AddSorted<T>(list: seq<Entry<T>>, e: Entry<T>)
    requires Sorted(list)
    ensures Sorted(Add(list, e))
  {
    hide Position;
    var p := Position(list, e.time);
    assert forall i :: p <= i < |list| ==> e.time < list[i].time;
  }

  lemma RemoveSorted<T>(list: seq<Entry<T>>, k: nat)
    requires Sorted(list) && k < |list|
    ensures Sorted(RemoveAt(list, k))
  {
  }

  // ----- how much firing is still owed

  function Lag<T>(e: Entry<T>, now: int): nat {
    if e.time <= now then now + 1 - e.time else 0
  }

  /** Total time by which the due timers are late: every firing reduces it. */
  function Debt<T>(list: seq<Entry<T>>, now: int): nat {
    if list == [] then 0 else Lag(list[0], now) + Debt(list[1..], now)
  }

  lemma {:induction false} DebtConcat<T>(a: seq<Entry<T>>, b: seq<Entry<T>>, now: int)
    ensures Debt(a + b, now) == Debt(a, now) + Debt(b, now)
  {
    if a == [] {
      assert a + b == b;
    } else {
      DebtConcat(a[1..], b, now);
      assert (a + b)[1..] == a[1..] + b;
    }
  }

  lemma DebtRemove<T>(list: seq<Entry<T>>, k: nat, now: int)
    requires k < |list|
    ensures Debt(RemoveAt(list, k), now) + Lag(list[k], now) == Debt(list, now)
  {
    assert list == list[..k] + list[k..] && list[k..][1..] == list[k + 1..];
    DebtConcat(list[..k], list[k..], now);
    DebtConcat(list[..k], list[k + 1..], now);
  }

  lemma DebtInsert<T>(list: seq<Entry<T>>, p: nat, e: Entry<T>, now: int)
    requires p <= |list|
    ensures Debt(InsertAt(list, p, e), now) == Debt(list, now) + Lag(e, now)
  {
    DebtRemove(InsertAt(list, p, e), p, now);
    assert RemoveAt(InsertAt(list, p, e), p) == list;
  }

  // ----- one firing

  /** The list after the timer at the cursor has fired: rescheduled if periodic, removed if not. */
  function Fired<T>(list: seq<Entry<T>>, c: nat): (r: seq<Entry<T>>)
    requires c < |list|
  {
    var e := list[c];
    if e.periodic then Add(RemoveAt(list, c), e.(time := e.time + e.usecs)) else RemoveAt(list, c)
  }

  /** Where the timer that followed the cursor is now. */
  function Resume<T>(list: seq<Entry<T>>, c: nat): (r: nat)
    requires c < |list|
  {
    var e := list[c];
    if e.periodic && Position(RemoveAt(list, c), e.time + e.usecs) <= c then c + 1 else c
  }

  lemma FiredOrdered<T>(list: seq<Entry<T>>, c: nat)
    requires Sorted(list) && c < |list|
    ensures Sorted(Fired(list, c)) && Resume(list, c) <= |Fired(list, c)|
  {
    hide Position, Sorted;
    var e := list[c];
    RemoveSorted(list, c);
    if e.periodic {
      AddSorted(RemoveAt(list, c), e.(time := e.time + e.usecs));
    }
  }

  lemma FiredPositive<T>(list: seq<Entry<T>>, c: nat)
    requires Positive(list) && c < |list|
    ensures Positive(Fired(list, c))
  {
    hide Position;
  }

  /** The termination measure of the loop. */
  lemma FiredDebt<T>(list: seq<Entry<T>>, c: nat, now: int)
    requires Positive(list) && c < |list| && list[c].time <= now
    ensures Debt(Fired(list, c), now) < Debt(list, now)
  {
    hide Position, Debt, InsertAt, RemoveAt;
    var e := list[c];
    var rest := RemoveAt(list, c);
    DebtRemove(list, c, now);
    if e.periodic {
      var e' := e.(time := e.time + e.usecs);
      DebtInsert(rest, Position(rest, e'.time), e', now);
    }
  }

  lemma FiredKeeps<T>(list: seq<Entry<T>>, c: nat, now: int)
    requires Sorted(list) && Positive(list) && c < |list| && list[c].time <= now
    ensures Sorted(Fired(list, c)) && Positive(Fired(list, c))
    ensures Debt(Fired(list, c), now) < Debt(list, now)
    ensures Resume(list, c) <= |Fired(list, c)|
  {
    hide Sorted, Positive, Fired, Resume, Debt;
    FiredOrdered(list, c);
    FiredPositive(list, c);
    FiredDebt(list, c, now);
  }

  /** A timer behind the cursor stays behind the place where the run resumes. */
  lemma FiredPlaces<T>(list: seq<Entry<T>>, c: nat, k: nat)
    requires Sorted(list) && Positive(list) && c < k < |list|
    ensures exists m :: Resume(list, c) <= m < |Fired(list, c)| && Fired(list, c)[m] == list[k]
  {
    hide Position;
    var e := list[c];
    var rest := RemoveAt(list, c);
    assert rest[k - 1] == list[k];
    if e.periodic {
      var p := Position(rest, e.time + e.usecs);
      assert Fired(list, c)[if k - 1 < p then k - 1 else k] == list[k];
    } else {
      assert Fired(list, c)[k - 1] == list[k];
    }
  }

  /** The run resumes at the timer that was next, or at the end if there was none. */
  lemma ResumeNext<T>(list: seq<Entry<T>>, c: nat)
    requires Sorted(list) && Positive(list) && c < |list|
    ensures c + 1 < |list| ==> Resume(list, c) < |Fired(list, c)| && Fired(list, c)[Resume(list, c)] == list[c + 1]
    ensures c + 1 == |list| ==> Resume(list, c) == |Fired(list, c)|
  {
    hide Position;
    if list[c].periodic {
      PositionBehind(list, c);
    }
  }

  /** Pushing a timer back to a time that is not due can only reduce the debt. */
  lemma PostponeDebt<T>(list: seq<Entry<T>>, k: nat, time: int, now: int)
    requires k < |list| && time > now
    ensures Debt(Add(RemoveAt(list, k), list[k].(time := time)), now) <= Debt(list, now)
  {
    hide Position, Debt, InsertAt, RemoveAt;
    var rest := RemoveAt(list, k);
    DebtRemove(list, k, now);
    DebtInsert(rest, Position(rest, time), list[k].(time := time), now);
  }

  /** Every period fits on the clock from `now` on. */
  ghost predicate Fits<T>(list: seq<Entry<T>>, now: int, limit: int) {
    forall i :: 0 <= i < |list| ==> now + list[i].usecs < limit
  }

  lemma FitsAt<T>(list: seq<Entry<T>>, k: nat, now: int, limit: int)
    requires Fits(list, now, limit) && k < |list|
    ensures now + list[k].usecs < limit
  {
  }

  lemma MoveFits<T>(list: seq<Entry<T>>, k: nat, time: int, now: int, limit: int)
    requires k < |list| && Fits(list, now, limit)
    ensures Fits(Add(RemoveAt(list, k), list[k].(time := time)), now, limit)
  {
    hide Position;
  }

  lemma FiredFits<T>(list: seq<Entry<T>>, c: nat, now: int, limit: int)
    requires c < |list| && Fits(list, now, limit)
    ensures Fits(Fired(list, c), now, limit)
  {
    hide Position;
  }

  lemma RemoveDistinct<T>(list: seq<Entry<T>>, k: nat)
    requires Distinct(list) && k < |list|
    ensures Distinct(RemoveAt(list, k))
    ensures forall i :: 0 <= i < |list| - 1 ==> RemoveAt(list, k)[i].id != list[k].id
  {
  }

  lemma InsertDistinct<T>(list: seq<Entry<T>>, p: nat, e: Entry<T>)
    requires Distinct(list) && p <= |list| && forall i :: 0 <= i < |list| ==> list[i].id != e.id
    ensures Distinct(InsertAt(list, p, e))
  {
  }

  lemma FiredDistinct<T>(list: seq<Entry<T>>, c: nat)
    requires Distinct(list) && c < |list|
    ensures Distinct(Fired(list, c))
  {
    hide Position, Distinct;
    RemoveDistinct(list, c);
    var e := list[c];
    if e.periodic {
      var later := e.(time := e.time + e.usecs);
      InsertDistinct(RemoveAt(list, c), Position(RemoveAt(list, c), later.time), later);
    }
  }

  // ----- a whole run, for callbacks that leave the list alone

  datatype Outcome<T> = Outcome(active: seq<Entry<T>>, fired: seq<Entry<T>>)

  /** `tmr_run` from the timer at index `c`: the list it leaves, and every timer as it was when it fired. */
  function Run<T>(list: seq<Entry<T>>, c: nat, now: int): (r: Outcome<T>)
    requires Sorted(list) && Positive(list) && c <= |list|
    decreases Debt(list, now)
  {
    if c == |list| || list[c].time > now then Outcome(list, [])
    else
      FiredKeeps(list, c, now);
      var r := Run(Fired(list, c), Resume(list, c), now);
      Outcome(r.active, [list[c]] + r.fired)
  }

  lemma {:induction false} RunSorted<T>(list: seq<Entry<T>>, c: nat, now: int)
    requires Sorted(list) && Positive(list) && c <= |list|
    ensures Sorted(Run(list, c, now).active) && Positive(Run(list, c, now).active)
    decreases Debt(list, now)
  {
    hide Sorted, Positive, Fired, Resume, Debt;
    if c < |list| && list[c].time <= now {
      FiredKeeps(list, c, now);
      RunSorted(Fired(list, c), Resume(list, c), now);
    }
  }

  /** No timer fires before it is due. */
  lemma {:induction false} NeverEarly<T>(list: seq<Entry<T>>, c: nat, now: int)
    requires Sorted(list) && Positive(list) && c <= |list|
    ensures forall i :: 0 <= i < |Run(list, c, now).fired| ==> Run(list, c, now).fired[i].time <= now
    decreases Debt(list, now)
  {
    hide Sorted, Positive, Fired, Resume, Debt;
    if c < |list| && list[c].time <= now {
      FiredKeeps(list, c, now);
      NeverEarly(Fired(list, c), Resume(list, c), now);
    }
  }

  /** Every timer due when the run starts fires, as it stood at the start. */
  lemma {:induction false} DueFires<T>(list: seq<Entry<T>>, c: nat, now: int, k: nat)
    requires Sorted(list) && Positive(list) && c <= k < |list| && list[k].time <= now
    ensures list[k] in Run(list, c, now).fired
    decreases Debt(list, now)
  {
    assert list[c].time <= now;
    FiredKeeps(list, c, now);
    if c < k {
      FiredPlaces(list, c, k);
      var m :| Resume(list, c) <= m < |Fired(list, c)| && Fired(list, c)[m] == list[k];
      DueFires(Fired(list, c), Resume(list, c), now, m);
    }
  }

  /** How often `id` fired. */
  function Firings<T(==)>(fired: seq<Entry<T>>, id: T): nat {
    if fired == [] then 0 else (if fired[0].id == id then 1 else 0) + Firings(fired[1..], id)
  }

  /** The run is its first firing and the run from there. */
  lemma RunStep<T>(list: seq<Entry<T>>, c: nat, now: int, id: T)
    requires Sorted(list) && Positive(list) && c < |list| && list[c].time <= now
    ensures Sorted(Fired(list, c)) && Positive(Fired(list, c)) && Resume(list, c) <= |Fired(list, c)|
    ensures Debt(Fired(list, c), now) < Debt(list, now)
    ensures var r := Run(Fired(list, c), Resume(list, c), now);
            && Run(list, c, now).active == r.active
            && Firings(Run(list, c, now).fired, id) == (if list[c].id == id then 1 else 0) + Firings(r.fired, id)
  {
    hide Sorted, Positive, Fired, Resume, Debt;
    FiredKeeps(list, c, now);
    var r := Run(Fired(list, c), Resume(list, c), now);
    assert ([list[c]] + r.fired)[1..] == r.fired;
  }

  lemma DistinctIds<T>(list: seq<Entry<T>>, i: nat, j: nat)
    requires Distinct(list) && i < |list| && j < |list| && i != j
    ensures list[i].id != list[j].id
  {
  }

  lemma SortedAt<T>(list: seq<Entry<T>>, i: nat, j: nat)
    requires Sorted(list) && i <= j < |list|
    ensures list[i].time <= list[j].time
  {
  }

  ghost predicate Behind<T>(list: seq<Entry<T>>, c: nat, id: T) {
    exists k :: c <= k < |list| && list[k].id == id
  }

  /** What is not at or behind the cursor does not fire. */
  lemma {:induction false} OthersRest<T>(list: seq<Entry<T>>, c: nat, now: int, id: T)
    requires Sorted(list) && Positive(list) && Distinct(list) && c <= |list| && !Behind(list, c, id)
    ensures Firings(Run(list, c, now).fired, id) == 0
    decreases Debt(list, now)
  {
    if c < |list| && list[c].time <= now {
      FiredKeeps(list, c, now);
      FiredDistinct(list, c);
      assert !Behind(Fired(list, c), Resume(list, c), id) by {
        if Behind(Fired(list, c), Resume(list, c), id) {
          FiredOrigin(list, c, id);
        }
      }
      OthersRest(Fired(list, c), Resume(list, c), now, id);
    }
  }

  /** Whatever is behind the resumed cursor was at or behind the cursor. */
  lemma FiredOrigin<T>(list: seq<Entry<T>>, c: nat, id: T)
    requires c < |list| && Behind(Fired(list, c), Resume(list, c), id)
    ensures Behind(list, c, id)
    ensures !list[c].periodic && Distinct(list) ==> id != list[c].id
  {
    hide Position;
    var m :| Resume(list, c) <= m < |Fired(list, c)| && Fired(list, c)[m].id == id;
    var rest := RemoveAt(list, c);
    if list[c].periodic {
      var p := Position(rest, list[c].time + list[c].usecs);
      if m < p {
        assert rest[m] == list[m + 1];
      } else if m > p {
        assert rest[m - 1].id == id;
      }
    } else {
      assert rest[m] == list[m + 1];
    }
  }

  ghost predicate In<T>(list: seq<Entry<T>>, id: T) {
    Behind(list, 0, id)
  }

  /** A timer that is not active does not become active. */
  lemma {:induction false} NoneRevived<T>(list: seq<Entry<T>>, c: nat, now: int, id: T)
    requires Sorted(list) && Positive(list) && c <= |list| && !In(list, id)
    ensures !In(Run(list, c, now).active, id)
    decreases Debt(list, now)
  {
    if c < |list| && list[c].time <= now {
      FiredKeeps(list, c, now);
      NoneAdded(list, c, id);
      NoneRevived(Fired(list, c), Resume(list, c), now, id);
    }
  }

  lemma NoneAdded<T>(list: seq<Entry<T>>, c: nat, id: T)
    requires c < |list| && !In(list, id)
    ensures !In(Fired(list, c), id)
  {
    hide Position;
    if In(Fired(list, c), id) {
      var m :| 0 <= m < |Fired(list, c)| && Fired(list, c)[m].id == id;
      OriginIndex(list, c, m);
    }
  }

  lemma OriginIndex<T>(list: seq<Entry<T>>, c: nat, m: nat)
    requires c < |list| && m < |Fired(list, c)|
    ensures exists k :: 0 <= k < |list| && list[k].id == Fired(list, c)[m].id
  {
    hide Position;
    var rest := RemoveAt(list, c);
    var q := if list[c].periodic && m > Position(rest, list[c].time + list[c].usecs) then m - 1 else m;
    var id := Fired(list, c)[m].id;
    if list[c].periodic && m == Position(rest, list[c].time + list[c].usecs) {
      assert list[c].id == id;
    } else {
      assert rest[q].id == id && list[if q < c then q else q + 1].id == id;
    }
  }

  /** A due one-shot fires exactly once and is no longer active afterwards. */
  lemma {:induction false} OneShotOnce<T>(list: seq<Entry<T>>, c: nat, now: int, k: nat)
    requires Sorted(list) && Positive(list) && Distinct(list)
    requires c <= k < |list| && list[k].time <= now && !list[k].periodic
    ensures Firings(Run(list, c, now).fired, list[k].id) == 1
    ensures !In(Run(list, c, now).active, list[k].id)
    decreases Debt(list, now)
  {
    hide Sorted, Positive, Distinct, Fired, Resume, Debt, Run, In, Behind;
    SortedAt(list, c, k);
    RunStep(list, c, now, list[k].id);
    FiredDistinct(list, c);
    var next, at := Fired(list, c), Resume(list, c);
    if c < k {
      DistinctIds(list, c, k);
      FiredPlaces(list, c, k);
      var m :| at <= m < |next| && next[m] == list[k];
      OneShotOnce(next, at, now, m);
    } else {
      OneShotGone(list, c);
      OthersRest(next, at, now, list[c].id);
      NoneRevived(next, at, now, list[c].id);
    }
  }

  lemma OneShotGone<T>(list: seq<Entry<T>>, c: nat)
    requires Distinct(list) && c < |list| && !list[c].periodic
    ensures !In(Fired(list, c), list[c].id) && !Behind(Fired(list, c), Resume(list, c), list[c].id)
  {
  }

  /** Where every timer but the fired one goes: in front of the cursor nothing moves. */
  lemma FiredMoves<T>(list: seq<Entry<T>>, c: nat, k: nat)
    requires Sorted(list) && Positive(list) && c < |list| && k < |list| && k != c
    ensures exists m :: 0 <= m < |Fired(list, c)| && Fired(list, c)[m] == list[k]
                        && (k < c ==> m < Resume(list, c)) && (c < k ==> Resume(list, c) <= m)
  {
    hide Position;
    if c < k {
      FiredPlaces(list, c, k);
    } else {
      var rest := RemoveAt(list, c);
      assert rest[k] == list[k];
      if list[c].periodic {
        PositionBehind(list, c);
      }
      assert Fired(list, c)[k] == list[k];
    }
  }

  /** A rescheduled timer is never put in front of the cursor. */
  lemma PositionBehind<T>(list: seq<Entry<T>>, c: nat)
    requires Sorted(list) && Positive(list) && c < |list| && list[c].periodic
    ensures Position(RemoveAt(list, c), list[c].time + list[c].usecs) >= c
  {
    hide Position;
    assert forall i :: 0 <= i < c ==> RemoveAt(list, c)[i] == list[i];
  }

  /** `e` after `n` reschedulings. */
  function Advanced<T>(e: Entry<T>, n: nat): Entry<T> {
    e.(time := e.time + n * e.usecs)
  }

  /** Every timer that is not a due one-shot stays active, later by exactly one period per firing. */
  lemma {:induction false} Accounted<T>(list: seq<Entry<T>>, c: nat, now: int, k: nat)
    requires Sorted(list) && Positive(list) && Distinct(list) && c <= |list|
    requires k < |list| && (list[k].periodic || k < c || list[k].time > now)
    ensures Advanced(list[k], Firings(Run(list, c, now).fired, list[k].id)) in Run(list, c, now).active
    decreases Debt(list, now)
  {
    hide Sorted, Positive, Distinct, Fired, Resume, Debt;
    var e := list[k];
    if c == |list| || list[c].time > now {
      assert Advanced(e, 0) == e;
    } else {
      RunStep(list, c, now, e.id);
      FiredDistinct(list, c);
      var next, at := Fired(list, c), Resume(list, c);
      if k != c {
        DistinctIds(list, c, k);
        FiredMoves(list, c, k);
        var m :| 0 <= m < |next| && next[m] == e && (k < c ==> m < at) && (c < k ==> at <= m);
        Accounted(next, at, now, m);
      } else {
        Rescheduled(list, c);
        var p :| 0 <= p < |next| && next[p] == e.(time := e.time + e.usecs);
        Accounted(next, at, now, p);
        AdvanceOnce(e, Firings(Run(next, at, now).fired, e.id));
      }
    }
  }

  lemma Rescheduled<T>(list: seq<Entry<T>>, c: nat)
    requires c < |list| && list[c].periodic
    ensures exists p :: 0 <= p < |Fired(list, c)| && Fired(list, c)[p] == list[c].(time := list[c].time + list[c].usecs)
  {
    hide Position;
    var p := Position(RemoveAt(list, c), list[c].time + list[c].usecs);
    assert Fired(list, c)[p] == list[c].(time := list[c].time + list[c].usecs);
  }

  lemma AdvanceOnce<T>(e: Entry<T>, n: nat)
    ensures Advanced(e.(time := e.time + e.usecs), n) == Advanced(e, 1 + n)
  {
    assert (1 + n) * e.usecs == e.usecs + n * e.usecs;
  }

  /** What a call of `tmr_run` owes each timer of the list: due ones fire, one-shots exactly once and for good,
      periodic ones are put off by one period per firing, and what is not due rests. */
  ghost predicate Served<T>(list: seq<Entry<T>>, r: Outcome<T>, now: int) {
    forall k {:trigger list[k]} :: 0 <= k < |list| ==>
      var e := list[k];
      && (e.time <= now ==> e in r.fired)
      && (e.time <= now && !e.periodic ==> Firings(r.fired, e.id) == 1 && !In(r.active, e.id))
      && (e.periodic || e.time > now ==> Advanced(e, Firings(r.fired, e.id)) in r.active)
      && (e.time > now ==> Firings(r.fired, e.id) == 0)
  }

  lemma RunServes<T>(list: seq<Entry<T>>, now: int)
    requires Sorted(list) && Positive(list) && Distinct(list)
    ensures Served(list, Run(list, 0, now), now)
  {
    hide Sorted, Positive, Distinct, Run, Debt, In;
    forall k | 0 <= k < |list|
      ensures var e, r := list[k], Run(list, 0, now);
              && (e.time <= now ==> e in r.fired)
              && (e.time <= now && !e.periodic ==> Firings(r.fired, e.id) == 1 && !In(r.active, e.id))
              && (e.periodic || e.time > now ==> Advanced(e, Firings(r.fired, e.id)) in r.active)
              && (e.time > now ==> Firings(r.fired, e.id) == 0)
    {
      if list[k].time <= now {
        DueFires(list, 0, now, k);
        if !list[k].periodic {
          OneShotOnce(list, 0, now, k);
        }
      } else {
        LateRests(list, 0, now, k);
      }
      if list[k].periodic || list[k].time > now {
        Accounted(list, 0, now, k);
      }
    }
  }

  lemma {:induction false} LateRests<T>(list: seq<Entry<T>>, c: nat, now: int, k: nat)
    requires Sorted(list) && Positive(list) && Distinct(list) && c <= |list| && k < |list| && list[k].time > now
    ensures Firings(Run(list, c, now).fired, list[k].id) == 0
    decreases Debt(list, now)
  {
    if c < |list| && list[c].time <= now {
      FiredKeeps(list, c, now);
      FiredDistinct(list, c);
      FiredMoves(list, c, k);
      var m :| 0 <= m < |Fired(list, c)| && Fired(list, c)[m] == list[k];
      LateRests(Fired(list, c), Resume(list, c), now, m);
    }
  }

  // ----- exactly when a run leaves nothing due

  ghost predicate AllLater<T>(list: seq<Entry<T>>, now: int) {
    forall i :: 0 <= i < |list| ==> list[i].time > now
  }

  /** The timer at the cursor is not lost sight of: if it is due again after its firing, there is a captured next
      timer that is due no later than that, so that it is put behind that one. */
  ghost predicate KeptInSight<T>(list: seq<Entry<T>>, c: nat, now: int)
    requires c < |list|
  {
    var again := list[c].time + list[c].usecs;
    list[c].periodic && again <= now ==> c + 1 < |list| && list[c + 1].time <= again
  }

  /** That holds at every firing of the run from index `c`. */
  ghost predicate NoneSkipped<T>(list: seq<Entry<T>>, c: nat, now: int)
    requires Sorted(list) && Positive(list) && c <= |list|
    decreases Debt(list, now)
  {
    if c == |list| || list[c].time > now then true
    else
      FiredKeeps(list, c, now);
      KeptInSight(list, c, now) && NoneSkipped(Fired(list, c), Resume(list, c), now)
  }

  /** What is in front of the cursor stays there for the rest of the run. */
  lemma {:induction false} SkippedStays<T>(list: seq<Entry<T>>, c: nat, now: int)
    requires Sorted(list) && Positive(list) && 0 < c <= |list|
    ensures Run(list, c, now).active != [] && Run(list, c, now).active[0] == list[0]
    decreases Debt(list, now)
  {
    if c < |list| && list[c].time <= now {
      FiredKeeps(list, c, now);
      FrontKept(list, c);
      SkippedStays(Fired(list, c), Resume(list, c), now);
    }
  }

  lemma FrontKept<T>(list: seq<Entry<T>>, c: nat)
    requires Sorted(list) && Positive(list) && 0 < c < |list|
    ensures Resume(list, c) > 0 && Fired(list, c) != [] && Fired(list, c)[0] == list[0]
  {
    if list[c].periodic {
      PositionBehind(list, c);
    }
  }

  /** The iteration goes on at the head: the fired timer is gone, or behind the captured next one. */
  lemma PutBehind<T>(list: seq<Entry<T>>, now: int)
    requires Sorted(list) && Positive(list) && list != [] && Resume(list, 0) == 0
    ensures KeptInSight(list, 0, now)
  {
    var rest := RemoveAt(list, 0);
    if list[0].periodic {
      assert Position(rest, list[0].time + list[0].usecs) > 0;
      assert rest[0] == list[1];
    }
  }

  /** The iteration goes on behind the fired timer, which is at the head again. */
  lemma PutInFront<T>(list: seq<Entry<T>>, now: int)
    requires Sorted(list) && Positive(list) && list != [] && Resume(list, 0) != 0
    ensures Resume(list, 0) == 1 && |Fired(list, 0)| == |list| && Fired(list, 0)[0].time == list[0].time + list[0].usecs
    ensures KeptInSight(list, 0, now) <==> AllLater(Fired(list, 0), now)
  {
    var rest := RemoveAt(list, 0);
    var again := list[0].time + list[0].usecs;
    assert Position(rest, again) == 0;
    if |list| > 1 {
      assert rest[0] == list[1];
    }
    FiredOrdered(list, 0);
    assert Fired(list, 0)[0].time == again;
  }

  /** A run leaves nothing due if and only if no timer was lost sight of. */
  lemma {:induction false} LeavesNothingDue<T>(list: seq<Entry<T>>, now: int)
    requires Sorted(list) && Positive(list)
    ensures AllLater(Run(list, 0, now).active, now) <==> NoneSkipped(list, 0, now)
    decreases Debt(list, now)
  {
    hide Fired, Resume, Debt;
    if list != [] && list[0].time <= now {
      FiredKeeps(list, 0, now);
      if Resume(list, 0) == 0 {
        PutBehind(list, now);
        LeavesNothingDue(Fired(list, 0), now);
      } else {
        PutInFront(list, now);
        SkippedStays(Fired(list, 0), 1, now);
      }
    }
  }

  /** The same before the call, where only the first timer is due: the run leaves nothing due exactly if that timer
      is a one-shot or less than one period late. */
  lemma OnlyOneDue<T>(list: seq<Entry<T>>, now: int)
    requires Sorted(list) && Positive(list) && list != [] && list[0].time <= now && AllLater(list[1..], now)
    ensures AllLater(Run(list, 0, now).active, now) <==> !list[0].periodic || now < list[0].time + list[0].usecs
  {
    LeavesNothingDue(list, now);
    FiredKeeps(list, 0, now);
    if |list| > 1 {
      assert list[1] == list[1..][0];
    }
    if KeptInSight(list, 0, now) {
      RestLater(list, now);
    }
  }

  lemma RestLater<T>(list: seq<Entry<T>>, now: int)
    requires Sorted(list) && Positive(list) && list != [] && AllLater(list[1..], now)
    requires !list[0].periodic || now < list[0].time + list[0].usecs
    ensures AllLater(Fired(list, 0), now)
  {
    assert RemoveAt(list, 0) == list[1..];
  }

  /** A run that is less than one period late for every periodic timer leaves nothing due. */
  lemma {:induction false} OnTime<T>(list: seq<Entry<T>>, c: nat, now: int)
    requires Sorted(list) && Positive(list) && c <= |list|
    requires forall k :: 0 <= k < |list| && list[k].periodic ==> now < list[k].time + list[k].usecs
    ensures NoneSkipped(list, c, now)
    decreases Debt(list, now)
  {
    if c < |list| && list[c].time <= now {
      FiredKeeps(list, c, now);
      FiredOnTime(list, c, now);
      OnTime(Fired(list, c), Resume(list, c), now);
    }
  }

  lemma FiredOnTime<T>(list: seq<Entry<T>>, c: nat, now: int)
    requires Positive(list) && c < |list|
    requires forall k :: 0 <= k < |list| && list[k].periodic ==> now < list[k].time + list[k].usecs
    ensures forall k :: 0 <= k < |Fired(list, c)| && Fired(list, c)[k].periodic ==>
              now < Fired(list, c)[k].time + Fired(list, c)[k].usecs
  {
    hide Position;
  }

  lemma NoneLeftDue<T>(list: seq<Entry<T>>, now: int)
    requires Sorted(list) && Positive(list)
    requires forall k :: 0 <= k < |list| && list[k].periodic ==> now < list[k].time + list[k].usecs
    ensures AllLater(Run(list, 0, now).active, now)
  {
    OnTime(list, 0, now);
    LeavesNothingDue(list, now);
  }

  /** A periodic timer can still be due after the run: nothing returns to it once its successor is not due. */
  lemma StillDue(a: nat, b: nat)
    requires a != b
    ensures var list := [Entry(a, 0, 1, true), Entry(b, 100, 1, true)];
            && Sorted(list) && Positive(list)
            && Run(list, 0, 50) == Outcome([Entry(a, 1, 1, true), Entry(b, 100, 1, true)], [list[0]])
  {
    var first, second := Entry(a, 0, 1, true), Entry(b, 100, 1, true);
    var list := [first, second];
    var moved := first.(time := 1);
    assert RemoveAt(list, 0) == [second];
    assert Position([second], 1) == 0;
    assert Fired(list, 0) == [moved, second];
    assert Run([moved, second], 1, 50) == Outcome([moved, second], []);
  }
}
