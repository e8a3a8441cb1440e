/** Runs whose callbacks reset other timers, as the omit timers do: the list as a value. */
module TimerResets {
  import opened Seqs
  import opened TimerSpec

  ghost predicate Proper<T>(list: seq<Entry<T>>) {
    Sorted(list) && Positive(list) && Distinct(list)
  }

  /** Index of the timer, |list| if it is not active. */
  function Place<T(==)>(list: seq<Entry<T>>, id: T): (k: nat)
    ensures k <= |list| && (k < |list| ==> list[k].id == id)
    ensures forall i :: 0 <= i < k ==> list[i].id != id
  {
    if list == [] || list[0].id == id then 0
    else
      var k := Place(list[1..], id);
      assert forall i :: 1 <= i < k + 1 ==> list[i] == list[1..][i - 1];
      k + 1
  }

  lemma PlaceIs<T>(list: seq<Entry<T>>, k: nat)
    requires Distinct(list) && k < |list|
    ensures Place(list, list[k].id) == k
  {
  }

  /** `tmr_reset` of one timer. */
  function Postpone<T(==)>(list: seq<Entry<T>>, id: T, now: int): seq<Entry<T>> {
    var k := Place(list, id);
    if k == |list| then list else Add(RemoveAt(list, k), list[k].(time := now + list[k].usecs))
  }

  /** The resets of one callback, in order. */
  function PostponeAll<T(==)>(list: seq<Entry<T>>, ids: seq<T>, now: int): seq<Entry<T>> {
    if ids == [] then list else Postpone(PostponeAll(list, ids[..|ids| - 1], now), ids[|ids| - 1], now)
  }

  // ----- what moving a timer leaves alone

  /** The timers of a list, whenever they are due. */
  ghost function Shape<T>(list: seq<Entry<T>>): set<Entry<T>> {
    set k | 0 <= k < |list| :: list[k].(time := 0)
  }

  lemma ShapeInsert<T>(list: seq<Entry<T>>, p: nat, e: Entry<T>)
    requires p <= |list|
    ensures Shape(InsertAt(list, p, e)) == Shape(list) + {e.(time := 0)}
  {
    var r := InsertAt(list, p, e);
    forall x | x in Shape(list) + {e.(time := 0)}
      ensures x in Shape(r)
    {
      if x == e.(time := 0) {
        assert r[p] == e;
      } else {
        var k :| 0 <= k < |list| && x == list[k].(time := 0);
        assert r[if k < p then k else k + 1] == list[k];
      }
    }
  }

  lemma ShapeRemove<T>(list: seq<Entry<T>>, k: nat)
    requires k < |list|
    ensures Shape(RemoveAt(list, k)) + {list[k].(time := 0)} == Shape(list)
  {
    ShapeInsert(RemoveAt(list, k), k, list[k]);
    assert InsertAt(RemoveAt(list, k), k, list[k]) == list;
  }

  lemma ShapeHas<T>(list: seq<Entry<T>>, k: nat)
    requires k < |list|
    ensures list[k].(time := 0) in Shape(list)
  {
  }

  /** Timer `id` is active and periodic. */
  ghost predicate Repeats<T>(list: seq<Entry<T>>, id: T) {
    exists k :: 0 <= k < |list| && list[k].id == id && list[k].periodic
  }

  lemma RepeatsShape<T>(list: seq<Entry<T>>, after: seq<Entry<T>>, id: T)
    requires Shape(list) <= Shape(after) && Repeats(list, id)
    ensures Repeats(after, id)
  {
    var k :| 0 <= k < |list| && list[k].id == id && list[k].periodic;
    assert list[k].(time := 0) in Shape(after);
    var m :| 0 <= m < |after| && after[m].(time := 0) == list[k].(time := 0);
    assert after[m].id == id && after[m].periodic;
  }

  /** A periodic timer is not a one-shot: the place of its id is its own. */
  lemma RepeatsAt<T>(list: seq<Entry<T>>, id: T)
    requires Distinct(list) && Repeats(list, id)
    ensures Place(list, id) < |list| && list[Place(list, id)].periodic
  {
    var k :| 0 <= k < |list| && list[k].id == id && list[k].periodic;
    PlaceIs(list, k);
  }

  /** The same timers, all in order, and those not in `ids` as they were. */
  ghost predicate Reshuffled<T>(list: seq<Entry<T>>, after: seq<Entry<T>>, ids: seq<T>, now: int) {
    && Proper(after) && |after| == |list| && Shape(after) == Shape(list) && Debt(after, now) <= Debt(list, now)
    && forall k :: 0 <= k < |list| && list[k].id !in ids ==> list[k] in after
  }

  lemma MoveProper<T>(list: seq<Entry<T>>, k: nat, time: int)
    requires Proper(list) && k < |list|
    ensures Proper(Add(RemoveAt(list, k), list[k].(time := time)))
  {
    hide Sorted, Distinct, Position;
    var rest := RemoveAt(list, k);
    var e := list[k].(time := time);
    RemoveSorted(list, k);
    AddSorted(rest, e);
    RemoveDistinct(list, k);
    InsertDistinct(rest, Position(rest, time), e);
  }

  lemma MoveShape<T>(list: seq<Entry<T>>, k: nat, time: int)
    requires k < |list|
    ensures var r := Add(RemoveAt(list, k), list[k].(time := time));
            && |r| == |list| && Shape(r) == Shape(list)
            && exists m :: 0 <= m < |r| && r[m] == list[k].(time := time)
  {
    hide Shape, Position;
    var rest := RemoveAt(list, k);
    var e := list[k].(time := time);
    ShapeRemove(list, k);
    ShapeInsert(rest, Position(rest, time), e);
    assert Add(rest, e)[Position(rest, time)] == e;
  }

  lemma MoveOthers<T>(list: seq<Entry<T>>, k: nat, time: int, i: nat)
    requires k < |list| && i < |list| && i != k
    ensures list[i] in Add(RemoveAt(list, k), list[k].(time := time))
  {
    hide Position;
    var rest := RemoveAt(list, k);
    var r := Add(rest, list[k].(time := time));
    var p := Position(rest, time);
    var m := if i < k then i else i - 1;
    assert rest[m] == list[i] && r[if m < p then m else m + 1] == list[i];
  }

  lemma PostponeReshuffles<T>(list: seq<Entry<T>>, id: T, now: int)
    requires Proper(list) && Repeats(list, id)
    ensures Reshuffled(list, Postpone(list, id, now), [id], now)
    ensures exists m :: 0 <= m < |list| && Postpone(list, id, now)[m].id == id && Postpone(list, id, now)[m].time > now
  {
    RepeatsAt(list, id);
    var k := Place(list, id);
    var time := now + list[k].usecs;
    assert time > now;
    hide Proper, Distinct, Debt, Shape, Add, RemoveAt;
    MoveProper(list, k, time);
    MoveShape(list, k, time);
    PostponeDebt(list, k, time, now);
    forall i | 0 <= i < |list| && list[i].id != id
      ensures list[i] in Postpone(list, id, now)
    {
      MoveOthers(list, k, time, i);
    }
  }

  ghost predicate AllRepeat<T>(list: seq<Entry<T>>, ids: seq<T>) {
    forall i :: 0 <= i < |ids| ==> Repeats(list, ids[i])
  }

  lemma {:induction false} PostponeAllReshuffles<T>(list: seq<Entry<T>>, ids: seq<T>, now: int)
    requires Proper(list) && AllRepeat(list, ids)
    ensures Reshuffled(list, PostponeAll(list, ids, now), ids, now)
  {
    hide Proper, Shape, Debt, Postpone;
    if ids != [] {
      var n := |ids| - 1;
      var init := ids[..n];
      var l := PostponeAll(list, init, now);
      PostponeAllReshuffles(list, init, now);
      RepeatsShape(list, l, ids[n]);
      PostponeReshuffles(l, ids[n], now);
      var r := Postpone(l, ids[n], now);
      forall k | 0 <= k < |list| && list[k].id !in ids
        ensures list[k] in r
      {
        assert list[k] in l;
        var m :| 0 <= m < |l| && l[m] == list[k];
        assert l[m].id != ids[n];
      }
    }
  }

  // ----- one firing

  function ResetsOf<T(==)>(resets: map<T, seq<T>>, id: T): seq<T> {
    if id in resets then resets[id] else []
  }

  /** Callbacks reset other timers only, and only active periodic ones. */
  ghost predicate ResetsOthers<T>(list: seq<Entry<T>>, resets: map<T, seq<T>>) {
    forall t :: t in resets ==> t !in resets[t] && AllRepeat(list, resets[t])
  }

  /** The callback of the timer at the cursor, then its rescheduling or removal. */
  function FiredWith<T(==)>(list: seq<Entry<T>>, c: nat, now: int, resets: map<T, seq<T>>): seq<Entry<T>>
    requires c < |list|
  {
    var after := PostponeAll(list, ResetsOf(resets, list[c].id), now);
    var k := Place(after, list[c].id);
    if k == |after| then after else Fired(after, k)
  }

  /** Where the timer captured as next is now. */
  function ResumeWith<T(==)>(list: seq<Entry<T>>, c: nat, now: int, resets: map<T, seq<T>>): (r: nat)
    requires c < |list|
    ensures r <= |FiredWith(list, c, now, resets)|
  {
    var after := FiredWith(list, c, now, resets);
    if c + 1 == |list| then |after| else Place(after, list[c + 1].id)
  }

  /** After the callback the fired timer is still active and as it was. */
  lemma CallbackDone<T>(list: seq<Entry<T>>, c: nat, now: int, resets: map<T, seq<T>>)
    requires Proper(list) && c < |list| && ResetsOthers(list, resets)
    ensures var ids := ResetsOf(resets, list[c].id);
            var after := PostponeAll(list, ids, now);
            var k := Place(after, list[c].id);
            && Reshuffled(list, after, ids, now) && k < |after| && after[k] == list[c]
            && FiredWith(list, c, now, resets) == Fired(after, k)
  {
    hide Shape, Debt, Sorted, Positive, Fired, PostponeAll;
    var ids := ResetsOf(resets, list[c].id);
    var after := PostponeAll(list, ids, now);
    PostponeAllReshuffles(list, ids, now);
    assert list[c] in after;
    var k :| 0 <= k < |after| && after[k] == list[c];
    PlaceIs(after, k);
  }

  /** Firing loses nothing but a one-shot that fired. */
  lemma FiredShape<T>(list: seq<Entry<T>>, c: nat)
    requires c < |list|
    ensures list[c].periodic ==> Shape(Fired(list, c)) == Shape(list)
    ensures Shape(Fired(list, c)) + {list[c].(time := 0)} == Shape(list)
  {
    hide Shape, Position;
    ShapeRemove(list, c);
    ShapeHas(list, c);
    if list[c].periodic {
      MoveShape(list, c, list[c].time + list[c].usecs);
    }
  }

  lemma FiredRepeats<T>(list: seq<Entry<T>>, c: nat, id: T)
    requires c < |list| && Repeats(list, id) && Distinct(list)
    ensures Repeats(Fired(list, c), id)
  {
    hide Fired;
    FiredShape(list, c);
    var k :| 0 <= k < |list| && list[k].id == id && list[k].periodic;
    ShapeHas(list, k);
    var x := list[k].(time := 0);
    assert x in Shape(Fired(list, c));
    var m :| 0 <= m < |Fired(list, c)| && Fired(list, c)[m].(time := 0) == x;
    assert Fired(list, c)[m].id == id;
  }

  lemma FiredWithKeeps<T>(list: seq<Entry<T>>, c: nat, now: int, resets: map<T, seq<T>>)
    requires Proper(list) && ResetsOthers(list, resets) && c < |list| && list[c].time <= now
    ensures Proper(FiredWith(list, c, now, resets)) && ResetsOthers(FiredWith(list, c, now, resets), resets)
    ensures Debt(FiredWith(list, c, now, resets), now) < Debt(list, now)
  {
    hide Shape, Debt, Sorted, Positive, Distinct, Fired, PostponeAll, FiredWith, Place, Repeats;
    var after := PostponeAll(list, ResetsOf(resets, list[c].id), now);
    var k := Place(after, list[c].id);
    CallbackDone(list, c, now, resets);
    FiredKeeps(after, k, now);
    FiredDistinct(after, k);
    forall t, i | t in resets && 0 <= i < |resets[t]|
      ensures Repeats(Fired(after, k), resets[t][i])
    {
      RepeatsShape(list, after, resets[t][i]);
      FiredRepeats(after, k, resets[t][i]);
    }
  }

  // ----- the whole run

  /** `tmr_run` from the timer at index `c`. */
  function RunWith<T(==)>(list: seq<Entry<T>>, c: nat, now: int, resets: map<T, seq<T>>): (r: Outcome<T>)
    requires Proper(list) && ResetsOthers(list, resets) && c <= |list|
    decreases Debt(list, now)
  {
    if c == |list| || list[c].time > now then Outcome(list, [])
    else
      FiredWithKeeps(list, c, now, resets);
      var r := RunWith(FiredWith(list, c, now, resets), ResumeWith(list, c, now, resets), now, resets);
      Outcome(r.active, [list[c]] + r.fired)
  }

  /** The list stays in order and nothing fires before it is due. */
  lemma {:induction false} RunKeeps<T>(list: seq<Entry<T>>, c: nat, now: int, resets: map<T, seq<T>>)
    requires Proper(list) && ResetsOthers(list, resets) && c <= |list|
    ensures Proper(RunWith(list, c, now, resets).active)
    ensures forall i :: 0 <= i < |RunWith(list, c, now, resets).fired| ==>
      RunWith(list, c, now, resets).fired[i].time <= now
    decreases Debt(list, now)
  {
    hide Proper, Debt, ResetsOthers, FiredWith, ResumeWith;
    if c < |list| && list[c].time <= now {
      FiredWithKeeps(list, c, now, resets);
      RunKeeps(FiredWith(list, c, now, resets), ResumeWith(list, c, now, resets), now, resets);
    }
  }

  /** Timers that are not active any more: the one-shots that fired. */
  ghost function Gone<T>(fired: seq<Entry<T>>): set<Entry<T>> {
    set i | 0 <= i < |fired| && !fired[i].periodic :: fired[i].(time := 0)
  }

  lemma GoneFirst<T>(e: Entry<T>, fired: seq<Entry<T>>)
    ensures Gone([e] + fired) == Gone(fired) + (if e.periodic then {} else {e.(time := 0)})
  {
    var all := [e] + fired;
    assert all[0] == e;
    forall x | x in Gone(fired)
      ensures x in Gone(all)
    {
      var i :| 0 <= i < |fired| && !fired[i].periodic && x == fired[i].(time := 0);
      assert all[i + 1] == fired[i];
    }
  }

  lemma OneShotLeaves<T>(list: seq<Entry<T>>, c: nat)
    requires Distinct(list) && c < |list| && !list[c].periodic
    ensures list[c].(time := 0) !in Shape(Fired(list, c))
  {
    RemoveDistinct(list, c);
  }

  lemma FiredWithShape<T>(list: seq<Entry<T>>, c: nat, now: int, resets: map<T, seq<T>>)
    requires Proper(list) && ResetsOthers(list, resets) && c < |list|
    ensures var after := FiredWith(list, c, now, resets);
            var e := list[c].(time := 0);
            if list[c].periodic then Shape(after) == Shape(list)
            else Shape(after) + {e} == Shape(list) && e !in Shape(after)
  {
    hide Shape, Debt, Sorted, Positive, Distinct, Fired, PostponeAll, FiredWith, Place, ResetsOthers;
    var after := PostponeAll(list, ResetsOf(resets, list[c].id), now);
    var k := Place(after, list[c].id);
    CallbackDone(list, c, now, resets);
    FiredShape(after, k);
    if !list[c].periodic {
      OneShotLeaves(after, k);
    }
  }

  /** Every timer of the list is still active or a one-shot that fired, and never both. */
  lemma {:induction false} RunConserves<T>(list: seq<Entry<T>>, c: nat, now: int, resets: map<T, seq<T>>)
    requires Proper(list) && ResetsOthers(list, resets) && c <= |list|
    ensures var r := RunWith(list, c, now, resets);
            Shape(r.active) + Gone(r.fired) == Shape(list) && Shape(r.active) !! Gone(r.fired)
    decreases Debt(list, now)
  {
    hide Proper, Debt, ResetsOthers, FiredWith, ResumeWith, Shape;
    if c < |list| && list[c].time <= now {
      FiredWithKeeps(list, c, now, resets);
      FiredWithShape(list, c, now, resets);
      var next, k := FiredWith(list, c, now, resets), ResumeWith(list, c, now, resets);
      RunConserves(next, k, now, resets);
      GoneFirst(list[c], RunWith(next, k, now, resets).fired);
    }
  }

  /** A timer that neither fires nor is reset by this callback is as it was. */
  lemma FiredWithLeaves<T>(list: seq<Entry<T>>, c: nat, now: int, resets: map<T, seq<T>>, k: nat)
    requires Proper(list) && ResetsOthers(list, resets) && c < |list| && k < |list| && k != c
    requires list[k].id !in ResetsOf(resets, list[c].id)
    ensures list[k] in FiredWith(list, c, now, resets)
  {
    hide Shape, Debt, Fired, PostponeAll, FiredWith, Place;
    DistinctIds(list, k, c);
    hide Distinct, ResetsOthers;
    var after := PostponeAll(list, ResetsOf(resets, list[c].id), now);
    var p := Place(after, list[c].id);
    CallbackDone(list, c, now, resets);
    assert list[k] in after;
    var m :| 0 <= m < |after| && after[m] == list[k];
    FiredMoves(after, p, m);
  }

  /** A timer that neither fired nor was reset by a timer that fired is as it was. */
  lemma {:induction false} RunLeaves<T>(list: seq<Entry<T>>, c: nat, now: int, resets: map<T, seq<T>>, k: nat)
    requires Proper(list) && ResetsOthers(list, resets) && c <= |list| && k < |list|
    requires var fired := RunWith(list, c, now, resets).fired;
             forall i :: 0 <= i < |fired| ==> fired[i].id != list[k].id && list[k].id !in ResetsOf(resets, fired[i].id)
    ensures list[k] in RunWith(list, c, now, resets).active
    decreases Debt(list, now)
  {
    hide Proper, Debt, ResetsOthers, FiredWith, ResumeWith;
    if c < |list| && list[c].time <= now {
      FiredWithKeeps(list, c, now, resets);
      var next, p := FiredWith(list, c, now, resets), ResumeWith(list, c, now, resets);
      var fired, rest := RunWith(list, c, now, resets).fired, RunWith(next, p, now, resets).fired;
      assert fired[0] == list[c];
      forall i | 0 <= i < |rest|
        ensures rest[i] == fired[i + 1]
      {
      }
      FiredWithLeaves(list, c, now, resets, k);
      var m :| 0 <= m < |next| && next[m] == list[k];
      RunLeaves(next, p, now, resets, m);
    }
  }

  /** A timer that the callback resets is not due afterwards. */
  lemma {:induction false} PostponedLater<T>(list: seq<Entry<T>>, ids: seq<T>, now: int, id: T)
    requires Proper(list) && AllRepeat(list, ids) && id in ids
    ensures exists m :: 0 <= m < |PostponeAll(list, ids, now)|
              && PostponeAll(list, ids, now)[m].id == id && PostponeAll(list, ids, now)[m].time > now
  {
    hide Proper, Shape, Debt, Postpone, Repeats;
    var n := |ids| - 1;
    var l := PostponeAll(list, ids[..n], now);
    PostponeAllReshuffles(list, ids[..n], now);
    RepeatsShape(list, l, ids[n]);
    PostponeReshuffles(l, ids[n], now);
    var r := Postpone(l, ids[n], now);
    if id == ids[n] {
      var q :| 0 <= q < |l| && r[q].id == id && r[q].time > now;
      assert PostponeAll(list, ids, now)[q].id == id;
    } else {
      PostponedLater(list, ids[..n], now, id);
      var m :| 0 <= m < |l| && l[m].id == id && l[m].time > now;
      assert l[m] in r;
      var q :| 0 <= q < |r| && r[q] == l[m];
      assert PostponeAll(list, ids, now)[q].id == id;
    }
  }

  /** The timer captured as next, after the firing: put off if the callback reset it, as it was otherwise. */
  lemma NextAfter<T>(list: seq<Entry<T>>, c: nat, now: int, resets: map<T, seq<T>>)
    requires Proper(list) && ResetsOthers(list, resets) && c + 1 < |list| && list[c].time <= now
    ensures var r, k := FiredWith(list, c, now, resets), ResumeWith(list, c, now, resets);
            && k < |r| && r[k].id == list[c + 1].id
            && if list[c + 1].id in ResetsOf(resets, list[c].id) then r[k].time > now else r[k] == list[c + 1]
  {
    hide Shape, Debt, Fired, PostponeAll, FiredWith, Place;
    var r := FiredWith(list, c, now, resets);
    var ids := ResetsOf(resets, list[c].id);
    DistinctIds(list, c, c + 1);
    FiredWithKeeps(list, c, now, resets);
    var m: nat;
    if list[c + 1].id in ids {
      var after := PostponeAll(list, ids, now);
      CallbackDone(list, c, now, resets);
      PostponedLater(list, ids, now, list[c + 1].id);
      var q :| 0 <= q < |after| && after[q].id == list[c + 1].id && after[q].time > now;
      FiredMoves(after, Place(after, list[c].id), q);
      m :| 0 <= m < |r| && r[m] == after[q];
    } else {
      FiredWithLeaves(list, c, now, resets, c + 1);
      m :| 0 <= m < |r| && r[m] == list[c + 1];
    }
    PlaceIs(r, m);
  }

  /** A run goes on after a firing if and only if the captured next timer is due and the callback did not reset it.
      Otherwise it ends there, even if timers behind that one are due. */
  lemma StopsAtReset<T>(list: seq<Entry<T>>, c: nat, now: int, resets: map<T, seq<T>>)
    requires Proper(list) && ResetsOthers(list, resets) && c < |list| && list[c].time <= now
    ensures RunWith(list, c, now, resets).fired == [list[c]] <==>
              c + 1 == |list| || list[c + 1].time > now || list[c + 1].id in ResetsOf(resets, list[c].id)
  {
    hide Proper, Debt, FiredWith, ResetsOthers;
    FiredWithKeeps(list, c, now, resets);
    if c + 1 < |list| {
      NextAfter(list, c, now, resets);
    }
  }

  // ----- where every timer ends up

  lemma PostponeMoves<T>(list: seq<Entry<T>>, id: T, now: int, k: nat)
    requires Distinct(list) && k < |list|
    ensures (if list[k].id == id then list[k].(time := now + list[k].usecs) else list[k]) in Postpone(list, id, now)
  {
    hide Add, RemoveAt, Distinct;
    var p := Place(list, id);
    if list[k].id == id {
      PlaceIs(list, k);
      MoveShape(list, k, now + list[k].usecs);
    } else if p < |list| {
      MoveOthers(list, p, now + list[p].usecs, k);
    }
  }

  /** The timers that the callback resets are due one period from now, the others as before. */
  lemma {:induction false} PostponedTo<T>(list: seq<Entry<T>>, ids: seq<T>, now: int, k: nat)
    requires Proper(list) && AllRepeat(list, ids) && k < |list|
    ensures (if list[k].id in ids then list[k].(time := now + list[k].usecs) else list[k])
            in PostponeAll(list, ids, now)
  {
    hide Shape, Debt, Postpone, Repeats, Sorted, Positive, Distinct;
    if ids != [] {
      var n := |ids| - 1;
      var l := PostponeAll(list, ids[..n], now);
      PostponeAllReshuffles(list, ids[..n], now);
      PostponedTo(list, ids[..n], now, k);
      var e := if list[k].id in ids[..n] then list[k].(time := now + list[k].usecs) else list[k];
      var m :| 0 <= m < |l| && l[m] == e;
      PostponeMoves(l, ids[n], now, m);
    }
  }

  /** Any timer but the one that fires, after the firing. */
  lemma EntryAfter<T>(list: seq<Entry<T>>, c: nat, now: int, resets: map<T, seq<T>>, k: nat) returns (m: nat)
    requires Proper(list) && ResetsOthers(list, resets) && c < |list| && k < |list| && k != c
    ensures m < |FiredWith(list, c, now, resets)|
    ensures FiredWith(list, c, now, resets)[m]
         == if list[k].id in ResetsOf(resets, list[c].id) then list[k].(time := now + list[k].usecs) else list[k]
  {
    hide Shape, Debt, Fired, PostponeAll, FiredWith, Place;
    DistinctIds(list, k, c);
    var ids := ResetsOf(resets, list[c].id);
    PostponedTo(list, ids, now, k);
    hide Distinct, ResetsOthers;
    var after := PostponeAll(list, ids, now);
    var p := Place(after, list[c].id);
    CallbackDone(list, c, now, resets);
    var e := if list[k].id in ids then list[k].(time := now + list[k].usecs) else list[k];
    var q :| 0 <= q < |after| && after[q] == e;
    FiredMoves(after, p, q);
    m :| 0 <= m < |Fired(after, p)| && Fired(after, p)[m] == e;
  }

  /** A periodic timer that fires is due one period later. */
  lemma FiredEntry<T>(list: seq<Entry<T>>, c: nat, now: int, resets: map<T, seq<T>>) returns (m: nat)
    requires Proper(list) && ResetsOthers(list, resets) && c < |list| && list[c].periodic
    ensures m < |FiredWith(list, c, now, resets)|
    ensures FiredWith(list, c, now, resets)[m] == list[c].(time := list[c].time + list[c].usecs)
  {
    hide Shape, Debt, Fired, PostponeAll, FiredWith, Place, Proper, ResetsOthers;
    var after := PostponeAll(list, ResetsOf(resets, list[c].id), now);
    var p := Place(after, list[c].id);
    CallbackDone(list, c, now, resets);
    Rescheduled(after, p);
    m :| 0 <= m < |Fired(after, p)| && Fired(after, p)[m] == after[p].(time := after[p].time + after[p].usecs);
  }

  lemma OnlyRepeatsReset<T>(list: seq<Entry<T>>, resets: map<T, seq<T>>, k: nat, source: T)
    requires Proper(list) && ResetsOthers(list, resets) && k < |list| && list[k].id in ResetsOf(resets, source)
    ensures list[k].periodic && list[k].usecs > 0
  {
    assert Repeats(list, list[k].id);
    RepeatsAt(list, list[k].id);
    PlaceIs(list, k);
  }

  /** A timer that is not due does not fire, reset or not. */
  lemma {:induction false} LateRestsWith<T>(list: seq<Entry<T>>, c: nat, now: int, resets: map<T, seq<T>>, k: nat)
    requires Proper(list) && ResetsOthers(list, resets) && c <= |list| && k < |list| && list[k].time > now
    ensures Firings(RunWith(list, c, now, resets).fired, list[k].id) == 0
    decreases Debt(list, now)
  {
    hide Proper, Debt, ResetsOthers, FiredWith, ResumeWith;
    if c < |list| && list[c].time <= now {
      FiredWithKeeps(list, c, now, resets);
      DistinctAt(list, k, c);
      var next, p := FiredWith(list, c, now, resets), ResumeWith(list, c, now, resets);
      var m := EntryAfter(list, c, now, resets, k);
      if list[k].id in ResetsOf(resets, list[c].id) {
        OnlyRepeatsReset(list, resets, k, list[c].id);
      }
      LateRestsWith(next, p, now, resets, m);
      var rest := RunWith(next, p, now, resets).fired;
      assert RunWith(list, c, now, resets).fired == [list[c]] + rest;
      assert ([list[c]] + rest)[1..] == rest;
    }
  }

  /** Some timer that fired reset this one. */
  ghost predicate WasReset<T>(id: T, fired: seq<Entry<T>>, resets: map<T, seq<T>>) {
    exists i :: 0 <= i < |fired| && id in ResetsOf(resets, fired[i].id)
  }

  lemma WasResetFirst<T>(id: T, e: Entry<T>, rest: seq<Entry<T>>, resets: map<T, seq<T>>)
    ensures WasReset(id, [e] + rest, resets) <==> id in ResetsOf(resets, e.id) || WasReset(id, rest, resets)
    ensures Firings([e] + rest, id) == (if e.id == id then 1 else 0) + Firings(rest, id)
  {
    var all := [e] + rest;
    assert all[1..] == rest && all[0] == e;
    if WasReset(id, rest, resets) {
      var i :| 0 <= i < |rest| && id in ResetsOf(resets, rest[i].id);
      assert all[i + 1] == rest[i];
    }
    if WasReset(id, all, resets) && id !in ResetsOf(resets, e.id) {
      var i :| 0 <= i < |all| && id in ResetsOf(resets, all[i].id);
      assert rest[i - 1] == all[i];
    }
  }

  /** Where a timer ends up: one that was reset is due one period from now; any other that is still active is later
      by one period per firing. */
  ghost predicate EndsUp<T>(e: Entry<T>, r: Outcome<T>, now: int, resets: map<T, seq<T>>) {
    if WasReset(e.id, r.fired, resets) then e.(time := now + e.usecs) in r.active
    else e.periodic || Firings(r.fired, e.id) == 0 ==> Advanced(e, Firings(r.fired, e.id)) in r.active
  }

  lemma KeptEndsUp<T>(e: Entry<T>, f: Entry<T>, rest: Outcome<T>, now: int, resets: map<T, seq<T>>)
    requires e.id != f.id && e.id !in ResetsOf(resets, f.id) && EndsUp(e, rest, now, resets)
    ensures EndsUp(e, Outcome(rest.active, [f] + rest.fired), now, resets)
  {
    WasResetFirst(e.id, f, rest.fired, resets);
  }

  lemma ResetEndsUp<T>(e: Entry<T>, f: Entry<T>, rest: Outcome<T>, now: int, resets: map<T, seq<T>>)
    requires e.id != f.id && e.id in ResetsOf(resets, f.id) && Firings(rest.fired, e.id) == 0
    requires EndsUp(e.(time := now + e.usecs), rest, now, resets)
    ensures EndsUp(e, Outcome(rest.active, [f] + rest.fired), now, resets)
  {
    hide Firings;
    WasResetFirst(e.id, f, rest.fired, resets);
    AdvanceNone(e.(time := now + e.usecs));
  }

  lemma AdvanceNone<T>(e: Entry<T>)
    ensures Advanced(e, 0) == e
  {
  }

  lemma FiredEndsUp<T>(e: Entry<T>, rest: Outcome<T>, now: int, resets: map<T, seq<T>>)
    requires e.periodic && e.id !in ResetsOf(resets, e.id)
    requires EndsUp(e.(time := e.time + e.usecs), rest, now, resets)
    ensures EndsUp(e, Outcome(rest.active, [e] + rest.fired), now, resets)
  {
    hide Firings, Advanced;
    WasResetFirst(e.id, e, rest.fired, resets);
    AdvanceOnce(e, Firings(rest.fired, e.id));
  }

  lemma GoneEndsUp<T>(list: seq<Entry<T>>, c: nat, rest: Outcome<T>, now: int, resets: map<T, seq<T>>)
    requires Proper(list) && ResetsOthers(list, resets) && c < |list| && !list[c].periodic
    ensures EndsUp(list[c], Outcome(rest.active, [list[c]] + rest.fired), now, resets)
  {
    var e := list[c];
    var fired := [e] + rest.fired;
    WasResetFirst(e.id, e, rest.fired, resets);
    if WasReset(e.id, fired, resets) {
      var i :| 0 <= i < |fired| && e.id in ResetsOf(resets, fired[i].id);
      OnlyRepeatsReset(list, resets, c, fired[i].id);
    }
  }

  lemma {:induction false} RunAccounted<T>(list: seq<Entry<T>>, c: nat, now: int, resets: map<T, seq<T>>, k: nat)
    requires Proper(list) && ResetsOthers(list, resets) && c <= |list| && k < |list|
    ensures EndsUp(list[k], RunWith(list, c, now, resets), now, resets)
    decreases Debt(list, now)
  {
    hide Proper, Debt, FiredWith, ResumeWith, EndsUp;
    if c == |list| || list[c].time > now {
      Untouched(list, k, now, resets);
    } else {
      FiredWithKeeps(list, c, now, resets);
      var next, p := FiredWith(list, c, now, resets), ResumeWith(list, c, now, resets);
      var rest := RunWith(next, p, now, resets);
      assert RunWith(list, c, now, resets) == Outcome(rest.active, [list[c]] + rest.fired);
      if k != c {
        DistinctAt(list, k, c);
        var m := EntryAfter(list, c, now, resets, k);
        RunAccounted(next, p, now, resets, m);
        if list[k].id in ResetsOf(resets, list[c].id) {
          OnlyRepeatsReset(list, resets, k, list[c].id);
          LateRestsWith(next, p, now, resets, m);
          ResetEndsUp(list[k], list[c], rest, now, resets);
        } else {
          KeptEndsUp(list[k], list[c], rest, now, resets);
        }
      } else if list[c].periodic {
        var m := FiredEntry(list, c, now, resets);
        RunAccounted(next, p, now, resets, m);
        FiredEndsUp(list[c], rest, now, resets);
      } else {
        GoneEndsUp(list, c, rest, now, resets);
      }
    }
  }

  lemma DistinctAt<T>(list: seq<Entry<T>>, i: nat, j: nat)
    requires Proper(list) && i < |list| && j < |list| && i != j
    ensures list[i].id != list[j].id
  {
  }

  lemma Untouched<T>(list: seq<Entry<T>>, k: nat, now: int, resets: map<T, seq<T>>)
    requires k < |list|
    ensures EndsUp(list[k], Outcome(list, []), now, resets)
  {
    AdvanceNone(list[k]);
  }

  /** A run that leaves a due timer behind: the first timer's callback resets the second, and the third, also due,
      does not fire. */
  lemma LeftBehind(a: nat, b: nat, c: nat)
    requires a != b && b != c && a != c
    ensures var list := [Entry(a, 0, 100, false), Entry(b, 10, 100, true), Entry(c, 20, 100, true)];
            var resets := map[a := [b]];
            && Proper(list) && ResetsOthers(list, resets)
            && RunWith(list, 0, 50, resets).fired == [list[0]]
            && list[2].time <= 50 && list[2] in RunWith(list, 0, 50, resets).active
  {
    var list := [Entry(a, 0, 100, false), Entry(b, 10, 100, true), Entry(c, 20, 100, true)];
    var resets := map[a := [b]];
    assert Repeats(list, b) by { assert list[1].id == b; }
    hide RunWith, FiredWith, ResumeWith;
    StopsAtReset(list, 0, 50, resets);
    RunLeaves(list, 0, 50, resets, 2);
  }

  // ----- the order of timers that are left alone

  /** The entries at `i` and `j` of one list are in the other in the same order. */
  ghost predicate OrderKept<T>(list: seq<Entry<T>>, i: nat, j: nat, after: seq<Entry<T>>)
    requires i < |list| && j < |list|
  {
    exists p, q :: 0 <= p < q < |after| && after[p] == list[i] && after[q] == list[j]
  }

  lemma RemoveOrder<T>(list: seq<Entry<T>>, k: nat, i: nat, j: nat)
    requires i < j < |list| && k < |list| && i != k && j != k
    ensures OrderKept(list, i, j, RemoveAt(list, k))
  {
    var rest := RemoveAt(list, k);
    var p, q := if i < k then i else i - 1, if j < k then j else j - 1;
    assert rest[p] == list[i] && rest[q] == list[j];
  }

  lemma InsertOrder<T>(list: seq<Entry<T>>, at: nat, e: Entry<T>, i: nat, j: nat)
    requires i < j < |list| && at <= |list|
    ensures OrderKept(list, i, j, InsertAt(list, at, e))
  {
    var more := InsertAt(list, at, e);
    var p, q := if i < at then i else i + 1, if j < at then j else j + 1;
    assert more[p] == list[i] && more[q] == list[j];
  }

  lemma MoveOrder<T>(list: seq<Entry<T>>, k: nat, time: int, i: nat, j: nat)
    requires i < j < |list| && k < |list| && i != k && j != k
    ensures OrderKept(list, i, j, Add(RemoveAt(list, k), list[k].(time := time)))
  {
    hide Position, InsertAt, RemoveAt;
    var rest := RemoveAt(list, k);
    RemoveOrder(list, k, i, j);
    var p, q :| 0 <= p < q < |rest| && rest[p] == list[i] && rest[q] == list[j];
    InsertOrder(rest, Position(rest, time), list[k].(time := time), p, q);
  }

  lemma FiredOrder<T>(list: seq<Entry<T>>, c: nat, i: nat, j: nat)
    requires i < j < |list| && c < |list| && i != c && j != c
    ensures OrderKept(list, i, j, Fired(list, c))
  {
    if list[c].periodic {
      MoveOrder(list, c, list[c].time + list[c].usecs, i, j);
    } else {
      RemoveOrder(list, c, i, j);
    }
  }

  lemma PostponeOrder<T>(list: seq<Entry<T>>, id: T, now: int, i: nat, j: nat)
    requires i < j < |list| && list[i].id != id && list[j].id != id
    ensures OrderKept(list, i, j, Postpone(list, id, now))
  {
    hide Add, RemoveAt;
    var k := Place(list, id);
    if k < |list| {
      MoveOrder(list, k, now + list[k].usecs, i, j);
    }
  }

  lemma {:induction false} PostponeAllOrder<T>(list: seq<Entry<T>>, ids: seq<T>, now: int, i: nat, j: nat)
    requires i < j < |list| && list[i].id !in ids && list[j].id !in ids
    ensures OrderKept(list, i, j, PostponeAll(list, ids, now))
  {
    hide Postpone;
    if ids == [] {
      assert list[i] == PostponeAll(list, ids, now)[i];
    } else {
      var n := |ids| - 1;
      var l := PostponeAll(list, ids[..n], now);
      PostponeAllOrder(list, ids[..n], now, i, j);
      var p, q :| 0 <= p < q < |l| && l[p] == list[i] && l[q] == list[j];
      PostponeOrder(l, ids[n], now, p, q);
    }
  }

  lemma FiredWithOrder<T>(list: seq<Entry<T>>, c: nat, now: int, resets: map<T, seq<T>>, i: nat, j: nat)
    requires Proper(list) && ResetsOthers(list, resets) && c < i < j < |list|
    requires list[i].id !in ResetsOf(resets, list[c].id) && list[j].id !in ResetsOf(resets, list[c].id)
    ensures OrderKept(list, i, j, FiredWith(list, c, now, resets))
  {
    hide Shape, Debt, Fired, PostponeAll, FiredWith, Place;
    DistinctIds(list, c, i);
    DistinctIds(list, c, j);
    hide Distinct, ResetsOthers;
    var ids := ResetsOf(resets, list[c].id);
    var after := PostponeAll(list, ids, now);
    CallbackDone(list, c, now, resets);
    PostponeAllOrder(list, ids, now, i, j);
    var p, q :| 0 <= p < q < |after| && after[p] == list[i] && after[q] == list[j];
    FiredOrder(after, Place(after, list[c].id), p, q);
  }

  /** No firing of the run resets the timer captured as next. */
  ghost predicate NextSpared<T>(list: seq<Entry<T>>, c: nat, now: int, resets: map<T, seq<T>>)
    requires Proper(list) && ResetsOthers(list, resets) && c <= |list|
    decreases Debt(list, now)
  {
    if c == |list| || list[c].time > now then true
    else
      FiredWithKeeps(list, c, now, resets);
      && (c + 1 < |list| ==> list[c + 1].id !in ResetsOf(resets, list[c].id))
      && NextSpared(FiredWith(list, c, now, resets), ResumeWith(list, c, now, resets), now, resets)
  }

  ghost predicate FiresOrReset<T>(e: Entry<T>, fired: seq<Entry<T>>, resets: map<T, seq<T>>) {
    e in fired || exists i :: 0 <= i < |fired| && e.id in ResetsOf(resets, fired[i].id)
  }

  /** Then every timer due at the start fires or is reset by one that fires. */
  lemma {:induction false} DueFiresOrReset<T>(list: seq<Entry<T>>, c: nat, now: int, resets: map<T, seq<T>>, k: nat)
    requires Proper(list) && ResetsOthers(list, resets) && c <= k < |list| && list[k].time <= now
    requires NextSpared(list, c, now, resets)
    ensures FiresOrReset(list[k], RunWith(list, c, now, resets).fired, resets)
    decreases Debt(list, now)
  {
    SortedAt(list, c, k);
    hide Debt, FiredWith, ResumeWith, ResetsOthers, Proper;
    FiredWithKeeps(list, c, now, resets);
    var next, r := FiredWith(list, c, now, resets), ResumeWith(list, c, now, resets);
    var rest := RunWith(next, r, now, resets).fired;
    var fired := RunWith(list, c, now, resets).fired;
    assert fired == [list[c]] + rest && fired[0] == list[c];
    if c < k && list[k].id !in ResetsOf(resets, list[c].id) {
      var m := StaysBehind(list, c, now, resets, k);
      DueFiresOrReset(next, r, now, resets, m);
      FiresOrResetLater(list[k], list[c], rest, resets);
    }
  }

  lemma FiresOrResetLater<T>(e: Entry<T>, first: Entry<T>, rest: seq<Entry<T>>, resets: map<T, seq<T>>)
    requires FiresOrReset(e, rest, resets)
    ensures FiresOrReset(e, [first] + rest, resets)
  {
    var all := [first] + rest;
    if e !in rest {
      var i :| 0 <= i < |rest| && e.id in ResetsOf(resets, rest[i].id);
      assert all[i + 1] == rest[i];
    }
  }

  /** A timer behind the cursor that is left alone stays at or behind the place where the run goes on. */
  lemma StaysBehind<T>(list: seq<Entry<T>>, c: nat, now: int, resets: map<T, seq<T>>, k: nat) returns (m: nat)
    requires Proper(list) && ResetsOthers(list, resets) && c < k < |list| && list[c].time <= now
    requires list[c + 1].id !in ResetsOf(resets, list[c].id) && list[k].id !in ResetsOf(resets, list[c].id)
    ensures var next := FiredWith(list, c, now, resets);
            ResumeWith(list, c, now, resets) <= m < |next| && next[m] == list[k]
  {
    hide Debt, FiredWith, Place, Shape, ResetsOthers, Sorted, Positive;
    var next, r := FiredWith(list, c, now, resets), ResumeWith(list, c, now, resets);
    NextAfter(list, c, now, resets);
    FiredWithKeeps(list, c, now, resets);
    if k == c + 1 {
      m := r;
    } else {
      FiredWithOrder(list, c, now, resets, c + 1, k);
      var p, q :| 0 <= p < q < |next| && next[p] == list[c + 1] && next[q] == list[k];
      PlaceIs(next, p);
      m := q;
    }
  }

  /** Without resets this is the plain run. */
  lemma {:induction false} RunPlain<T>(list: seq<Entry<T>>, c: nat, now: int)
    requires Proper(list) && c <= |list|
    ensures RunWith(list, c, now, map[]) == TimerSpec.Run(list, c, now)
    decreases Debt(list, now)
  {
    if c < |list| && list[c].time <= now {
      FiredWithKeeps(list, c, now, map[]);
      FiredKeeps(list, c, now);
      PlainStep(list, c, now);
      RunPlain(Fired(list, c), Resume(list, c), now);
    }
  }

  lemma PlainStep<T>(list: seq<Entry<T>>, c: nat, now: int)
    requires Proper(list) && c < |list|
    ensures FiredWith(list, c, now, map[]) == Fired(list, c) && ResumeWith(list, c, now, map[]) == Resume(list, c)
  {
    hide Fired, Resume;
    PlaceIs(list, c);
    FiredDistinct(list, c);
    ResumeNext(list, c);
    if c + 1 < |list| {
      PlaceIs(Fired(list, c), Resume(list, c));
    }
  }
}
