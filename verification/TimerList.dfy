/** timer.c: the active list, sorted and doubly linked, and the free list, relinked in place. */
module TimerList {
  import opened Common
  import opened IperfTime
  import opened Seqs
  import opened TimerSpec
  import opened TimerResets

  class Timer {
    var usecs: nat
    var periodic: bool
    var time: Time
    var prev: Timer?
    var next: Timer?

    constructor () {
      usecs, periodic, time, prev, next := 0, false, Time(0, 0), null, null;
    }
  }

  const TIME_LIMIT: nat := WORD * MILLION

  function Successor(nodes: seq<Timer>, i: int): Timer? {
    if 0 <= i + 1 < |nodes| then nodes[i + 1] else null
  }

  function Predecessor(nodes: seq<Timer>, i: int): Timer? {
    if 0 < i <= |nodes| then nodes[i - 1] else null
  }

  /** The timer as the list sees it. */
  ghost function Snapshot(t: Timer): Entry<Timer>
    reads t`time, t`usecs, t`periodic
  {
    Entry(t, Micros(t.time), t.usecs, t.periodic)
  }

  lemma PopFree(free: seq<Timer>)
    requires Unique(free) && free != []
    ensures Unique(free[1..]) && free[0] !in free[1..]
    ensures forall i :: 0 <= i < |free| - 1 ==> Successor(free[1..], i) == Successor(free, i + 1)
    ensures forall t :: t in free[1..] ==> t in free
  {
  }

  /** The free list gains the one-shots, last one first. */
  ghost function Freed(fired: seq<Entry<Timer>>): seq<Timer> {
    if fired == [] then []
    else
      var e := fired[|fired| - 1];
      (if e.periodic then [] else [e.id]) + Freed(fired[..|fired| - 1])
  }

  /** The whole run is what has fired so far and the run from here. */
  ghost predicate Owed(whole: Outcome<Timer>, fired: seq<Entry<Timer>>, rest: Outcome<Timer>) {
    whole == Outcome(rest.active, fired + rest.fired)
  }

  lemma RunUnfolds(whole: Outcome<Timer>, fired: seq<Entry<Timer>>, list: seq<Entry<Timer>>, c: nat, now: int,
                   resets: map<Timer, seq<Timer>>)
    requires Proper(list) && ResetsOthers(list, resets) && c < |list| && list[c].time <= now
    requires Owed(whole, fired, RunWith(list, c, now, resets))
    ensures var r := FiredWith(list, c, now, resets);
            && Proper(r) && ResetsOthers(r, resets) && Debt(r, now) < Debt(list, now)
            && Owed(whole, fired + [list[c]], RunWith(r, ResumeWith(list, c, now, resets), now, resets))
  {
    hide Proper, ResetsOthers, FiredWith, Debt;
    FiredWithKeeps(list, c, now, resets);
    var rest := RunWith(FiredWith(list, c, now, resets), ResumeWith(list, c, now, resets), now, resets);
    assert fired + ([list[c]] + rest.fired) == (fired + [list[c]]) + rest.fired;
  }

  lemma {:induction false} FreedHas(fired: seq<Entry<Timer>>, i: nat)
    requires i < |fired| && !fired[i].periodic
    ensures fired[i].id in Freed(fired)
  {
    if i < |fired| - 1 {
      FreedHas(fired[..|fired| - 1], i);
    }
  }

  lemma FreedPush(fired: seq<Entry<Timer>>, e: Entry<Timer>, base: seq<Timer>)
    ensures Freed(fired + [e]) + base == (if e.periodic then [] else [e.id]) + (Freed(fired) + base)
  {
    assert (fired + [e])[..|fired|] == fired;
  }

  datatype Timeout = NoTimer | In(time: Time)

  function Wait(e: Entry<Timer>, now: int): nat {
    if e.time <= now then 0 else e.time - now
  }

  class TimerList {
    var timers: Timer?
    var freeTimers: Timer?
    ghost var nodes: seq<Timer>
    ghost var free: seq<Timer>
    ghost var active: seq<Entry<Timer>>

    /** Both lists are chains without repetition, they share no timer, and `active` is sorted by time. */
    ghost predicate Valid()
      reads this, nodes, free
    {
      Linked() && FreeLinked() && Apart() && Values() && Sorted(active)
    }

    /** `next` and `prev` mirror each other along the active list. */
    ghost predicate Linked()
      reads this`timers, this`nodes, nodes`next, nodes`prev
    {
      Unique(nodes) && timers == Successor(nodes, -1) && Forward() && Backward()
    }

    ghost predicate FreeLinked()
      reads this`freeTimers, this`free, free`next
    {
      && Unique(free) && freeTimers == Successor(free, -1)
      && forall i {:trigger free[i].next} :: 0 <= i < |free| ==> free[i].next == Successor(free, i)
    }

    ghost predicate Apart()
      reads this`nodes, this`free
    {
      forall t :: t in nodes ==> t !in free
    }

    ghost predicate Forward()
      reads this`nodes, nodes`next
    {
      forall i {:trigger nodes[i].next} :: 0 <= i < |nodes| ==> nodes[i].next == Successor(nodes, i)
    }

    ghost predicate Backward()
      reads this`nodes, nodes`prev
    {
      forall i {:trigger nodes[i].prev} :: 0 <= i < |nodes| ==> nodes[i].prev == Predecessor(nodes, i)
    }

    ghost predicate Values()
      reads this`nodes, this`active, nodes`time, nodes`usecs, nodes`periodic
    {
      && |active| == |nodes|
      && forall i {:trigger active[i]} {:trigger nodes[i]} :: 0 <= i < |nodes| ==>
        active[i] == Snapshot(nodes[i]) && Normal(nodes[i].time)
    }

    /** Valid, except that the time of the timer at `k` may have been changed already. */
    ghost predicate ValidBut(k: nat)
      reads this, nodes, free
    {
      && Linked() && FreeLinked() && Apart() && Sorted(active)
      && |active| == |nodes|
      && forall i {:trigger active[i]} {:trigger nodes[i]} ::
           0 <= i < |nodes| && i != k ==> active[i] == Snapshot(nodes[i]) && Normal(nodes[i].time)
    }

    constructor ()
      ensures Valid() && nodes == [] && free == [] && active == []
    {
      timers, freeTimers, nodes, free, active := null, null, [], [], [];
    }

    /** Take the node at `k` out of the chain. */
    method Unlink(t: Timer, ghost k: nat)
      requires Linked() && k < |nodes| && nodes[k] == t
      modifies this`timers, this`nodes, nodes`next, nodes`prev
      ensures Linked() && nodes == RemoveAt(old(nodes), k)
    {
      hide Unique;
      OnlyAt(nodes, k);
      RemoveUnique(nodes, k);
      if t.prev == null {
        timers := t.next;
      } else {
        OnlyAt(nodes, k - 1);
        t.prev.next := t.next;
      }
      if t.next != null {
        OnlyAt(nodes, k + 1);
        t.next.prev := t.prev;
      }
      nodes := RemoveAt(nodes, k);
      assert Forward();
      assert Backward();
    }

    /** Put `t` between its two new neighbours, either of which may be missing. */
    method Link(before: Timer?, t: Timer, after: Timer?, ghost p: nat)
      requires Linked() && t !in nodes && p <= |nodes|
      requires before == Predecessor(nodes, p) && after == Successor(nodes, p - 1)
      modifies this`timers, this`nodes, nodes`next, nodes`prev, t`next, t`prev
      ensures Linked() && nodes == InsertAt(old(nodes), p, t)
    {
      InsertUnique(nodes, p, t);
      LinkForward(before, t, after, p);
      LinkBackward(before, t, after, p);
      nodes := InsertAt(nodes, p, t);
    }

    method LinkForward(before: Timer?, t: Timer, after: Timer?, ghost p: nat)
      requires Unique(nodes) && timers == Successor(nodes, -1) && Forward() && t !in nodes && p <= |nodes|
      requires before == Predecessor(nodes, p) && after == Successor(nodes, p - 1)
      modifies this`timers, nodes`next, t`next
      ensures var m := InsertAt(nodes, p, t);
              && timers == Successor(m, -1)
              && forall i {:trigger m[i].next} :: 0 <= i < |m| ==> m[i].next == Successor(m, i)
    {
      hide Unique;
      t.next := after;
      if before == null {
        timers := t;
      } else {
        OnlyAt(nodes, p - 1);
        before.next := t;
      }
    }

    method LinkBackward(before: Timer?, t: Timer, after: Timer?, ghost p: nat)
      requires Unique(nodes) && Backward() && t !in nodes && p <= |nodes|
      requires before == Predecessor(nodes, p) && after == Successor(nodes, p - 1)
      modifies nodes`prev, t`prev
      ensures var m := InsertAt(nodes, p, t);
              forall i {:trigger m[i].prev} :: 0 <= i < |m| ==> m[i].prev == Predecessor(m, i)
    {
      hide Unique;
      t.prev := before;
      if after != null {
        OnlyAt(nodes, p);
        after.prev := t;
      }
    }

    /** `list_remove`. */
    method ListRemove(t: Timer, ghost k: nat)
      requires ValidBut(k) && k < |nodes| && nodes[k] == t
      modifies this`timers, this`nodes, this`active, nodes`next, nodes`prev
      ensures Valid() && nodes == RemoveAt(old(nodes), k) && active == RemoveAt(old(active), k)
      ensures t !in nodes
    {
      hide Linked, Sorted;
      ghost var all := nodes;
      assert Unique(all) by { LinkedUnique(); }
      RemoveUnique(all, k);
      RemoveSorted(active, k);
      FreeApart();
      Unlink(t, k);
      active := RemoveAt(active, k);
    }

    /** `list_add`: walk to the first timer due later and link in front of it. */
    method ListAdd(t: Timer)
      requires Valid() && t !in nodes && t !in free && Normal(t.time)
      modifies this`timers, this`nodes, this`active, nodes`next, nodes`prev, t`next, t`prev
      ensures Valid() && active == Add(old(active), Snapshot(t))
      ensures nodes == InsertAt(old(nodes), Position(old(active), Micros(t.time)), t)
    {
      hide Sorted, Position;
      var before, after, p := FindPlace(t);
      AddSorted(active, Snapshot(t));
      FreeApart();
      LinkIn(before, t, after, p);
    }

    method LinkIn(before: Timer?, t: Timer, after: Timer?, ghost p: nat)
      requires Valid() && t !in nodes && t !in free && Normal(t.time)
      requires p <= |nodes| && before == Predecessor(nodes, p) && after == Successor(nodes, p - 1)
      requires Sorted(InsertAt(active, p, Snapshot(t)))
      modifies this`timers, this`nodes, this`active, nodes`next, nodes`prev, t`next, t`prev
      ensures Valid() && active == InsertAt(old(active), p, Snapshot(t)) && nodes == InsertAt(old(nodes), p, t)
    {
      hide Linked, Sorted;
      FreeApart();
      assert Unique(nodes) by { LinkedUnique(); }
      InsertUnique(nodes, p, t);
      Link(before, t, after, p);
      active := InsertAt(active, p, Snapshot(t));
      assert FreeLinked();
      assert Apart();
      assert Values();
    }

    /** The neighbours of the insertion point. */
    method FindPlace(t: Timer) returns (before: Timer?, after: Timer?, ghost p: nat)
      requires Valid() && Normal(t.time)
      ensures p == Position(active, Micros(t.time))
      ensures before == Predecessor(nodes, p) && after == Successor(nodes, p - 1)
    {
      hide Position, Unique;
      before, after, p := null, timers, 0;
      while after != null
        invariant 0 <= p <= |nodes| && before == Predecessor(nodes, p) && after == Successor(nodes, p - 1)
        invariant forall i :: 0 <= i < p ==> active[i].time <= Micros(t.time)
        decreases |nodes| - p
      {
        CompareMicros(t.time, after.time);
        assert active[p] == Snapshot(nodes[p]);
        if Compare(t.time, after.time) < 0 {
          break;
        }
        before, after, p := after, after.next, p + 1;
      }
      PositionIs(active, Micros(t.time), p);
    }

    /** `tmr_cancel`: off the active list, onto the front of the free list. */
    method Cancel(t: Timer, ghost k: nat)
      requires Valid() && k < |nodes| && nodes[k] == t
      modifies this, nodes`next, nodes`prev
      ensures Valid() && nodes == RemoveAt(old(nodes), k) && active == RemoveAt(old(active), k)
      ensures free == [t] + old(free)
    {
      hide Sorted, Linked;
      ghost var all := nodes;
      FreeApart();
      ListRemove(t, k);
      t.next := freeTimers;
      freeTimers := t;
      t.prev := null;
      free := [t] + free;

    }

    /** `list_resort`, for a timer whose time has just been changed. */
    method Resort(t: Timer, ghost k: nat)
      requires ValidBut(k) && k < |nodes| && nodes[k] == t && Normal(t.time)
      modifies this`timers, this`nodes, this`active, nodes`next, nodes`prev
      ensures Valid() && active == Add(RemoveAt(old(active), k), Snapshot(t))
      ensures nodes == InsertAt(RemoveAt(old(nodes), k), Position(RemoveAt(old(active), k), Micros(t.time)), t)
    {
      hide Sorted, Position, Linked, FreeLinked;
      ListRemove(t, k);
      ListAdd(t);
    }

    /** Change the time of an active timer and put it where it now belongs. */
    method SetTime(t: Timer, time: Time, ghost k: nat)
      requires Valid() && k < |nodes| && nodes[k] == t && Normal(time)
      modifies this`timers, this`nodes, this`active, nodes`next, nodes`prev, t`time
      ensures Valid() && active == Add(RemoveAt(old(active), k), old(active)[k].(time := Micros(time)))
      ensures nodes == InsertAt(RemoveAt(old(nodes), k), Position(RemoveAt(old(active), k), Micros(time)), t)
    {
      hide Sorted, Position, Linked, FreeLinked, Apart;
      assert active[k] == Snapshot(nodes[k]);
      assert Unique(nodes) by { LinkedUnique(); }
      OnlyAt(nodes, k);
      t.time := time;
      Resort(t, k);
    }

    /** `tmr_reset`. */
    method Reset(now: Time, t: Timer, ghost k: nat)
      requires Valid() && k < |nodes| && nodes[k] == t && Normal(now) && Micros(now) + t.usecs < TIME_LIMIT
      modifies this`timers, this`nodes, this`active, nodes`next, nodes`prev, t`time
      ensures Valid() && active == Add(RemoveAt(old(active), k), old(active)[k].(time := Micros(now) + t.usecs))
      ensures nodes == InsertAt(RemoveAt(old(nodes), k), Position(RemoveAt(old(active), k), Micros(now) + t.usecs), t)
    {
      hide Sorted, Position, Linked, FreeLinked, Apart, Values;
      AddUsecsModular(now, t.usecs);
      SetTime(t, AddUsecs(now, t.usecs), k);
    }

    /** A timer from the free list, or a new one if that is empty. */
    method TakeTimer() returns (t: Timer)
      requires Valid()
      modifies this`freeTimers, this`free
      ensures Valid() && nodes == old(nodes) && active == old(active) && t !in nodes && t !in free
      ensures if old(free) == [] then fresh(t) && free == [] else t == old(free)[0] && free == old(free)[1..]
    {
      hide Sorted, Linked, Values;
      if freeTimers != null {
        t := freeTimers;
        FreeApart();
        PopFree(free);
        freeTimers := t.next;
        free := free[1..];
      } else {
        t := new Timer();
      }
    }

    /** `tmr_create`. */
    method Create(now: Time, usecs: nat, periodic: bool) returns (t: Timer)
      requires Valid() && Normal(now) && Micros(now) + usecs < TIME_LIMIT
      modifies this, nodes`next, nodes`prev, free
      ensures Valid() && active == Add(old(active), Entry(t, Micros(now) + usecs, usecs, periodic))
      ensures nodes == InsertAt(old(nodes), Position(old(active), Micros(now) + usecs), t)
      ensures if old(free) == [] then fresh(t) && free == [] else t == old(free)[0] && free == old(free)[1..]
    {
      hide Sorted, Position, Linked, FreeLinked, Apart;
      t := TakeTimer();
      AddUsecsModular(now, usecs);
      t.usecs, t.periodic := usecs, periodic;
      t.time := AddUsecs(now, usecs);
      ListAdd(t);
    }

    /** `tmr_timeout`: how long until the earliest of all active timers is due, 0 if it is overdue. */
    method Timeout(now: Time) returns (r: Timeout)
      requires Valid() && Normal(now)
      ensures active == [] <==> r.NoTimer?
      ensures r.In? ==> Normal(r.time)
      ensures r.In? ==> forall i :: 0 <= i < |active| ==> Micros(r.time) <= Wait(active[i], Micros(now))
      ensures r.In? ==> exists i :: 0 <= i < |active| && Micros(r.time) == Wait(active[i], Micros(now))
    {
      if timers == null {
        return NoTimer;
      }
      assert active[0] == Snapshot(nodes[0]);
      var past, diff := Diff(timers.time, now);
      var usecs := if past then 0 else Micros(diff);
      r := In(Time(usecs / MILLION, usecs % MILLION));
      assert Micros(r.time) == usecs == Wait(active[0], Micros(now));
      forall i | 0 <= i < |active|
        ensures usecs <= Wait(active[i], Micros(now))
      {
        SortedAt(active, 0, i);
      }
    }

    /** `tmr_destroy`: every timer is cancelled, then the free list is emptied. */
    method Destroy()
      requires Valid()
      modifies this, nodes`next, nodes`prev
      ensures Valid() && active == [] && nodes == [] && free == []
    {
      hide Sorted, Linked, Unique;
      while timers != null
        invariant Valid() && forall i :: 0 <= i < |nodes| ==> nodes[i] in old(nodes)
        decreases |nodes|
      {
        HeadNode();
        Cancel(timers, 0);
      }
      HeadNode();
      while freeTimers != null
        invariant Valid() && nodes == [] && active == []
        decreases |free|
      {
        PopFree(free);
        freeTimers := freeTimers.next;
        free := free[1..];
      }
    }

    /** What follows the callback: reschedule a periodic timer, cancel any other. */
    method AfterCallback(t: Timer, ghost k: nat)
      requires Valid() && k < |nodes| && nodes[k] == t
      requires t.periodic ==> Micros(t.time) + t.usecs < TIME_LIMIT
      modifies this, nodes`next, nodes`prev, t`time
      ensures Valid() && active == Fired(old(active), k)
      ensures free == (if t.periodic then [] else [t]) + old(free)
      ensures forall x :: x in nodes ==> x in old(nodes)
      ensures forall x :: x in old(nodes) && (x != t || t.periodic) ==> x in nodes
    {
      hide Sorted, Position, Linked, FreeLinked, Apart, Values;
      ValueAt(k);
      Membership(k);
      if t.periodic {
        AddUsecsModular(t.time, t.usecs);
        SetTime(t, AddUsecs(t.time, t.usecs), k);
        assert [] + free == free;
      } else {
        Cancel(t, k);
      }
    }

    /** Resorting keeps the members of the list. */
    lemma Membership(k: nat)
      requires Valid() && k < |nodes|
      ensures var rest := RemoveAt(nodes, k);
              && (forall x :: x in rest <==> x in nodes && x != nodes[k])
              && (forall p :: 0 <= p <= |rest| ==> forall x :: x in InsertAt(rest, p, nodes[k]) <==> x in nodes)
    {
      RemoveUnique(nodes, k);
      var rest := RemoveAt(nodes, k);
      forall p | 0 <= p <= |rest|
        ensures forall x :: x in InsertAt(rest, p, nodes[k]) <==> x in nodes
      {
        InsertUnique(rest, p, nodes[k]);
      }
    }

    /** A reset by a callback. */
    method ResetOne(now: Time, r: Timer, ghost k: nat)
      requires Valid() && Normal(now) && Fits(active, Micros(now), TIME_LIMIT) && k < |nodes| && nodes[k] == r
      modifies this`timers, this`nodes, this`active, nodes`next, nodes`prev, r`time
      ensures Valid() && Fits(active, Micros(now), TIME_LIMIT) && active == Postpone(old(active), r, Micros(now))
      ensures forall x :: x in nodes <==> x in old(nodes)
    {
      hide Sorted, Position, Linked, FreeLinked, Apart, Values, Add;
      ValueAt(k);
      IdsDistinct();
      PlaceIs(active, k);
      assert Micros(now) + r.usecs < TIME_LIMIT;
      hide Fits, Distinct;
      Membership(k);
      MoveFits(active, k, Micros(now) + r.usecs, Micros(now), TIME_LIMIT);
      Reset(now, r, k);
    }

    /** The resets one callback performs. */
    method ResetAll(now: Time, rs: seq<Timer>)
      requires Valid() && Normal(now) && Fits(active, Micros(now), TIME_LIMIT)
      requires forall r :: r in rs ==> r in nodes
      modifies this`timers, this`nodes, this`active, nodes`next, nodes`prev, nodes`time
      ensures Valid() && Fits(active, Micros(now), TIME_LIMIT) && active == PostponeAll(old(active), rs, Micros(now))
      ensures forall x :: x in nodes <==> x in old(nodes)
    {
      hide Sorted, Position, Linked, FreeLinked, Apart, Values, Fits, Postpone;
      var j := 0;
      while j < |rs|
        invariant 0 <= j <= |rs| && Valid() && Fits(active, Micros(now), TIME_LIMIT)
        invariant active == PostponeAll(old(active), rs[..j], Micros(now))
        invariant forall x :: x in nodes <==> x in old(nodes)
      {
        var r := rs[j];
        assert r in rs && r in nodes;
        ghost var k :| 0 <= k < |nodes| && nodes[k] == r;
        assert forall i :: 0 <= i < |nodes| ==> nodes[i] in old(nodes);
        ResetOne(now, r, k);
        assert rs[..j + 1][..j] == rs[..j];
        j := j + 1;
      }
      assert rs[..j] == rs;
    }

    /** One timer of the run: its callback, then rescheduling or cancelling. */
    method FireOne(now: Time, t: Timer, resets: map<Timer, seq<Timer>>, ghost c: nat)
      requires Valid() && Normal(now) && Positive(active) && Fits(active, Micros(now), TIME_LIMIT)
      requires ResetsOthers(active, resets)
      requires c < |nodes| && nodes[c] == t && Micros(t.time) <= Micros(now)
      modifies this, nodes`next, nodes`prev, nodes`time
      ensures c < |old(active)| && Valid() && Fits(active, Micros(now), TIME_LIMIT)
      ensures active == FiredWith(old(active), c, Micros(now), resets)
      ensures forall x :: x in nodes ==> x in old(nodes)
      ensures free == (if t.periodic then [] else [t]) + old(free)
    {
      hide Sorted, Position, Linked, FreeLinked, Apart, Values, Positive, Fits, Fired, FiredWith, PostponeAll, Distinct;
      ValueAt(c);
      IdsDistinct();
      Sizes();
      ghost var list := active;
      var rs := ResetsOf(resets, t);
      ResetsActive(resets, t);
      CallbackDone(list, c, Micros(now), resets);
      hide ResetsOthers, Place;
      ResetAll(now, rs);
      ghost var k := Place(active, t);
      Sizes();
      ValueAt(k);
      FitsAt(active, k, Micros(now), TIME_LIMIT);
      FiredFits(active, k, Micros(now), TIME_LIMIT);
      assert forall i :: 0 <= i < |nodes| ==> nodes[i] in old(nodes);
      AfterCallback(t, k);
    }

    /** The timers a callback resets are active. */
    lemma ResetsActive(resets: map<Timer, seq<Timer>>, t: Timer)
      requires Valid() && ResetsOthers(active, resets)
      ensures forall r :: r in ResetsOf(resets, t) ==> r in nodes
    {
      forall r | r in ResetsOf(resets, t)
        ensures r in nodes
      {
        var i :| 0 <= i < |resets[t]| && resets[t][i] == r;
        assert Repeats(active, r);
        var k :| 0 <= k < |active| && active[k].id == r;
        assert nodes[k] == r;
      }
    }

    /** The loop body for a timer that is due: remember the next timer, fire this one. */
    method RunStep(now: Time, t: Timer, resets: map<Timer, seq<Timer>>, ghost c: nat)
      returns (next: Timer?, e: Entry<Timer>)
      requires Valid() && Normal(now) && Positive(active) && Fits(active, Micros(now), TIME_LIMIT)
      requires ResetsOthers(active, resets)
      requires c < |nodes| && nodes[c] == t && Micros(t.time) <= Micros(now)
      modifies this, nodes`next, nodes`prev, nodes`time
      ensures c < |old(active)| && Valid() && Fits(active, Micros(now), TIME_LIMIT)
      ensures e == old(active)[c] && e.time <= Micros(now) && active == FiredWith(old(active), c, Micros(now), resets)
      ensures next == Successor(nodes, ResumeWith(old(active), c, Micros(now), resets) - 1)
      ensures forall x :: x in nodes ==> x in old(nodes)
      ensures free == (if e.periodic then [] else [e.id]) + old(free)
    {
      hide Sorted, Position, Linked, FreeLinked, Apart, Values, Positive, Fits, Fired, FiredWith, ResetsOthers, Place;
      ghost var list := active;
      Sizes();
      ValueAt(c);
      NextNode(c);
      IdsDistinct();
      if c + 1 < |nodes| {
        ValueAt(c + 1);
        NextAfter(list, c, Micros(now), resets);
      }
      next := t.next;
      e := Entry(t, Micros(t.time), t.usecs, t.periodic);
      FireOne(now, t, resets, c);
      Sizes();
      if c + 1 < |list| {
        ValueAt(ResumeWith(list, c, Micros(now), resets));
      }
    }

    /** A timer that neither fired nor was reset by one that fired is as it was. */
    ghost predicate Untouched(list: seq<Entry<Timer>>, fired: seq<Entry<Timer>>, resets: map<Timer, seq<Timer>>)
      reads this`active
    {
      forall k :: 0 <= k < |list| ==>
        list[k] in active || exists i :: 0 <= i < |fired| && Touches(fired[i].id, list[k].id, resets)
    }

    static predicate Touches(source: Timer, id: Timer, resets: map<Timer, seq<Timer>>) {
      source == id || id in ResetsOf(resets, source)
    }

    /** `tmr_run`. `resets` says which other timers the callback of each timer resets; the result lists the
        timers in the order they fired, each as it stood then. */
    method Run(now: Time, resets: map<Timer, seq<Timer>>) returns (fired: seq<Entry<Timer>>)
      requires Valid() && Normal(now) && Positive(active) && Fits(active, Micros(now), TIME_LIMIT)
      requires ResetsOthers(active, resets)
      modifies this, nodes
      ensures Valid()
      ensures Outcome(active, fired) == RunWith(old(active), 0, Micros(now), resets)
      ensures free == Freed(fired) + old(free)
      ensures forall x :: x in old(nodes) ==> x in nodes || x in Freed(fired)
      ensures forall i :: 0 <= i < |fired| ==> fired[i].time <= Micros(now)
      ensures Untouched(old(active), fired, resets)
      ensures forall k :: 0 <= k < |old(active)| ==>
        EndsUp(old(active)[k], Outcome(active, fired), Micros(now), resets)
      ensures resets == map[] ==> Outcome(active, fired) == TimerSpec.Run(old(active), 0, Micros(now))
      ensures resets == map[] ==> Served(old(active), Outcome(active, fired), Micros(now))
    {
      hide Sorted, Position, Linked, FreeLinked, Apart, Values, Debt, Positive, Fits, Fired, Resume, Served;
      hide FiredWith, ResumeWith, ResetsOthers, Distinct, EndsUp;
      Sizes();
      IdsDistinct();
      IdsMatch();
      ghost var whole := RunWith(active, 0, Micros(now), resets);
      fired := [];
      var t := timers;
      ghost var c: nat := 0;
      HeadNode();
      assert [] + whole.fired == whole.fired && Freed([]) + free == free;
      while t != null
        invariant Valid() && Proper(active) && ResetsOthers(active, resets) && Fits(active, Micros(now), TIME_LIMIT)
        invariant c <= |active| == |nodes| && t == Successor(nodes, c - 1)
        invariant forall i :: 0 <= i < |nodes| ==> nodes[i] in old(nodes)
        invariant free == Freed(fired) + old(free)
        invariant Owed(whole, fired, RunWith(active, c, Micros(now), resets))
        decreases Debt(active, Micros(now))
      {
        ValueAt(c);
        CompareMicros(t.time, now);
        if Compare(t.time, now) > 0 {
          break;
        }
        ghost var list, before := active, nodes;
        RunUnfolds(whole, fired, list, c, Micros(now), resets);
        FreedPush(fired, active[c], old(free));
        var next, e := RunStep(now, t, resets, c);
        Sizes();
        assert forall i :: 0 <= i < |nodes| ==> nodes[i] in before;
        t, fired := next, fired + [e];
        c := ResumeWith(list, c, Micros(now), resets);
      }
      assert fired + [] == fired;
      RunOutcome(old(nodes), old(active), Micros(now), resets, fired);
    }

    /** What the specified run means for nodes and entries. */
    lemma RunOutcome(before: seq<Timer>, list: seq<Entry<Timer>>, now: int, resets: map<Timer, seq<Timer>>,
                     fired: seq<Entry<Timer>>)
      requires Valid() && Proper(list) && ResetsOthers(list, resets)
      requires |before| == |list| && forall i :: 0 <= i < |list| ==> list[i].id == before[i]
      requires Outcome(active, fired) == RunWith(list, 0, now, resets)
      ensures forall x :: x in before ==> x in nodes || x in Freed(fired)
      ensures forall i :: 0 <= i < |fired| ==> fired[i].time <= now
      ensures Untouched(list, fired, resets)
      ensures forall k :: 0 <= k < |list| ==> EndsUp(list[k], Outcome(active, fired), now, resets)
      ensures resets == map[] ==> Outcome(active, fired) == TimerSpec.Run(list, 0, now)
      ensures resets == map[] ==> Served(list, Outcome(active, fired), now)
    {
      hide Sorted, Position, Linked, FreeLinked, Apart, Served, ResetsOthers, Distinct, RunWith, Touches, EndsUp;
      RunKeeps(list, 0, now, resets);
      forall k | 0 <= k < |list|
        ensures EndsUp(list[k], Outcome(active, fired), now, resets)
      {
        RunAccounted(list, 0, now, resets, k);
      }
      forall x | x in before
        ensures x in nodes || x in Freed(fired)
      {
        var k :| 0 <= k < |before| && before[k] == x;
        NodeKept(list, now, resets, fired, k);
      }
      forall k | 0 <= k < |list|
        ensures list[k] in active || exists i :: 0 <= i < |fired| && Touches(fired[i].id, list[k].id, resets)
      {
        EntryKept(list, now, resets, fired, k);
      }
      if resets == map[] {
        RunPlain(list, 0, now);
        RunServes(list, now);
      }
    }

    lemma NodeKept(list: seq<Entry<Timer>>, now: int, resets: map<Timer, seq<Timer>>, fired: seq<Entry<Timer>>, k: nat)
      requires Valid() && Proper(list) && ResetsOthers(list, resets) && k < |list|
      requires Outcome(active, fired) == RunWith(list, 0, now, resets)
      ensures list[k].id in nodes || list[k].id in Freed(fired)
    {
      hide Proper, RunWith, Linked, FreeLinked, Apart, ResetsOthers;
      RunConserves(list, 0, now, resets);
      var e := list[k].(time := 0);
      ShapeHas(list, k);
      if e in Shape(active) {
        var m :| 0 <= m < |active| && active[m].(time := 0) == e;
        assert nodes[m] == active[m].id == e.id;
      } else {
        assert e in Gone(fired);
        var i :| 0 <= i < |fired| && !fired[i].periodic && fired[i].(time := 0) == e;
        assert fired[i].id == e.id;
        FreedHas(fired, i);
      }
    }

    lemma EntryKept(list: seq<Entry<Timer>>, now: int, resets: map<Timer, seq<Timer>>, fired: seq<Entry<Timer>>, k: nat)
      requires Proper(list) && ResetsOthers(list, resets) && k < |list|
      requires Outcome(active, fired) == RunWith(list, 0, now, resets)
      ensures list[k] in active || exists i :: 0 <= i < |fired| && Touches(fired[i].id, list[k].id, resets)
    {
      hide Proper, RunWith, ResetsOthers;
      if forall i :: 0 <= i < |fired| ==> !Touches(fired[i].id, list[k].id, resets) {
        RunLeaves(list, 0, now, resets, k);
      }
    }

    lemma IdsDistinct()
      requires Valid()
      ensures Distinct(active)
    {
      forall i, j | 0 <= i < j < |active|
        ensures active[i].id != active[j].id
      {
        assert nodes[i] == active[i].id && nodes[j] == active[j].id;
      }
    }

    lemma IdsMatch()
      requires Valid()
      ensures |active| == |nodes| && forall i :: 0 <= i < |active| ==> active[i].id == nodes[i]
    {
    }

    lemma Sizes()
      requires Valid()
      ensures |active| == |nodes| && Sorted(active)
    {
    }

    /** The node that follows, and that it is another one. */
    lemma NextNode(c: nat)
      requires Valid() && c < |nodes|
      ensures nodes[c].next == Successor(nodes, c)
      ensures nodes[c].next != null ==> nodes[c].next in nodes && nodes[c].next != nodes[c]
    {
      OnlyAt(nodes, c);
    }

    lemma ValueAt(k: nat)
      requires Valid() && k < |nodes|
      ensures |active| == |nodes| && active[k] == Snapshot(nodes[k]) && Normal(nodes[k].time)
    {
    }

    lemma HeadNode()
      requires Valid()
      ensures timers == null <==> nodes == []
      ensures timers != null ==> nodes[0] == timers
    {
    }

    lemma LinkedUnique()
      requires Linked()
      ensures Unique(nodes)
    {
    }

    lemma FreeApart()
      requires Apart()
      ensures forall i :: 0 <= i < |free| ==> free[i] !in nodes
    {
    }
  }
}
