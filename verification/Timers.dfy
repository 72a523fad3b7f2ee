/**
 * The timers of a worker: added with an interval, cancelled, and fired by a pass over the heap whose
 * callbacks may add and cancel others.
 */
module Timers {
  import opened Counting
  import opened MinHeap

  /** A time as the clock gives it. */
  predicate Normal(t: Time) {
    0 <= t.usec < 1000000
  }

  /** An interval that is longer than nothing; its microseconds may exceed a second. */
  predicate Positive(d: Time) {
    d.sec >= 0 && d.usec >= 0 && (d.sec > 0 || d.usec > 0)
  }

  function Deadline(now: Time, d: Time): (t: Time)
    requires Normal(now) && Positive(d)
    ensures Normal(t) && Greater(t, now)
    ensures t.sec * 1000000 + t.usec == (now.sec + d.sec) * 1000000 + now.usec + d.usec
  {
    var usec := now.usec + d.usec;
    Time(now.sec + d.sec + usec / 1000000, usec % 1000000)
  }

  /** The timers that are due at time t. */
  ghost function Due(items: seq<Item>, t: Time): set<Item> {
    set x | x in items && !Greater(x.timeout, t)
  }

  /** No timer became due: what is due at the new time was due before. */
  ghost predicate NoneNewlyDue(items: seq<Item>, now: Time, later: seq<Item>, thenNow: Time) {
    Due(later, thenNow) <= Due(items, now) && (thenNow != now ==> Due(later, thenNow) == {})
  }

  /** Adding a timer: the clock was read only if there was no other. */
  lemma AddedNotDue(items: seq<Item>, now: Time, e: Item, later: seq<Item>, thenNow: Time)
    requires multiset(later) == multiset(items) + multiset{e} && Greater(e.timeout, thenNow)
    requires items != [] ==> thenNow == now
    ensures NoneNewlyDue(items, now, later, thenNow)
  {
    Members(items, e, later);
  }

  lemma CancelledNotDue(items: seq<Item>, now: Time, e: Item, later: seq<Item>)
    requires multiset(later) == multiset(items) - multiset{e}
    ensures NoneNewlyDue(items, now, later, now)
    ensures forall x :: x in items && x != e ==> x in later
    ensures forall x :: x in later ==> x in items
  {
    forall x | x in later
      ensures x in items
    {
      assert x in multiset(later);
    }
    forall x | x in items && x != e
      ensures x in later
    {
      assert x in multiset(later);
    }
  }

  lemma StillDueTrans(a: seq<Item>, ta: Time, b: seq<Item>, tb: Time, x: set<Item>, c: seq<Item>, tc: Time,
      y: set<Item>)
    requires DueOrCancelled(a, ta, b, tb, x) && DueOrCancelled(b, tb, c, tc, y)
    ensures DueOrCancelled(a, ta, c, tc, x + y)
  {
  }

  lemma NotDueTrans(a: seq<Item>, ta: Time, b: seq<Item>, tb: Time, c: seq<Item>, tc: Time)
    requires NoneNewlyDue(a, ta, b, tb) && NoneNewlyDue(b, tb, c, tc)
    ensures NoneNewlyDue(a, ta, c, tc)
  {
  }

  /** What a callback does: add a timer, which reads the clock if it is the only one, or cancel that in some place. */
  datatype Act = Add(interval: Time, clock: Time) | Cancel(place: nat) {
    predicate Ok() {
      Add? ==> Positive(interval) && Normal(clock)
    }
  }

  function Adds(acts: seq<Act>): nat {
    if acts == [] then 0 else (if acts[0].Add? then 1 else 0) + Adds(acts[1..])
  }

  /** What the clock said to the callback. */
  function Clocks(acts: seq<Act>): set<Time> {
    set act | act in acts && act.Add? :: act.clock
  }

  predicate AllOk(scripts: seq<seq<Act>>) {
    forall i, j :: 0 <= i < |scripts| && 0 <= j < |scripts[i]| ==> scripts[i][j].Ok()
  }

  /** How many timers the first n callbacks add. */
  function AllAdds(scripts: seq<seq<Act>>, n: nat): nat {
    if n == 0 then 0 else AllAdds(scripts, n - 1) + if n - 1 < |scripts| then Adds(scripts[n - 1]) else 0
  }

  ghost function SetOf(items: seq<Item>): set<Item> {
    set x | x in items
  }

  /** No timer was forgotten, and none is there that was not added. */
  ghost predicate Accounted(items: seq<Item>, added: set<Item>, gone: set<Item>, later: seq<Item>) {
    && (forall x :: x in later ==> (x in items || x in added) && x !in gone)
    && (forall x :: x in items ==> x in later || x in gone)
    && (forall x :: x in added ==> x in later || x in gone)
  }

  lemma NothingDone(items: seq<Item>, acts: seq<Act>)
    ensures Accounted(items, {}, {}, items) && DueOrCancelled(items, Time(0, 0), items, Time(0, 0), {})
    ensures forall now :: DueOrCancelled(items, now, items, now, {})
    ensures Adds(acts[..0]) == 0
  {
  }

  lemma NoAdds(scripts: seq<seq<Act>>)
    ensures AllAdds(scripts, 0) == 0
  {
  }

  lemma {:induction false} ActsSnoc(acts: seq<Act>, act: Act)
    ensures Adds(acts + [act]) == Adds(acts) + if act.Add? then 1 else 0
    ensures Clocks(acts + [act]) == Clocks(acts) + if act.Add? then {act.clock} else {}
  {
    if acts == [] {
      assert acts + [act] == [act];
    } else {
      assert (acts + [act])[1..] == acts[1..] + [act];
      ActsSnoc(acts[1..], act);
    }
    assert forall a :: a in acts + [act] <==> a in acts || a == act;
  }

  lemma OneScript(scripts: seq<seq<Act>>, n: nat)
    requires AllOk(scripts)
    ensures var script := if n < |scripts| then scripts[n] else [];
            && AllAdds(scripts, n + 1) == AllAdds(scripts, n) + Adds(script)
            && (forall i :: 0 <= i < |script| ==> script[i].Ok())
            && forall t :: t in Clocks(script) ==> exists i :: 0 <= i < |scripts| && t in Clocks(scripts[i])
  {
    if n >= |scripts| { assert Clocks([]) == {}; }
  }

  lemma AccountedTrans(items: seq<Item>, added: set<Item>, gone: set<Item>, was: seq<Item>, more: set<Item>,
                       some: set<Item>, later: seq<Item>)
    requires Accounted(items, added, gone, was) && Accounted(was, more, some, later) && more !! gone
    ensures Accounted(items, added + more, gone + some, later)
  {
  }

  lemma AccountedPop(items: seq<Item>, added: set<Item>, cancelled: set<Item>, fired: seq<Item>, was: seq<Item>,
                     e: Item, popped: seq<Item>)
    requires Accounted(items, added, cancelled + SetOf(fired), was) && forall x :: x in popped <==> x in was && x != e
    ensures Accounted(items, added, cancelled + SetOf(fired + [e]), popped)
  {
    assert SetOf(fired + [e]) == SetOf(fired) + {e};
  }

  class Worker {
    const heap: Heap
    var now: Time

    ghost predicate Valid()
      reads this, heap, heap.items
    {
      heap.Valid() && Normal(now)
    }

    constructor ()
      ensures Valid() && heap.items == [] && fresh(heap)
    {
      heap := new Heap();
      now := Time(0, 0);
    }

    /** The first timer of all reads the clock; others count from the time of the pass they run in. */
    method AddLocalTimer(interval: Time, clock: Time) returns (e: Item)
      requires Valid() && Positive(interval) && Normal(clock)
      modifies this`now, heap, heap.items`idx
      ensures Valid() && fresh(e) && multiset(heap.items) == multiset(old(heap.items)) + multiset{e}
      ensures now == if old(heap.items) == [] then clock else old(now)
      ensures e.timeout == Deadline(now, interval) && Greater(e.timeout, now) && |heap.p| >= 10000
    {
      if heap.n == 0 {
        now := clock;
      }
      if 10000 > heap.n {
        heap.Reserve(10000);
      }
      e := new Item(Deadline(now, interval));
      assert forall i :: 0 <= i < |heap.items| ==> heap.items[i] != e;
      heap.Push(e);
    }

    /** Cancelling takes a timer out of the heap, if it is in there. */
    method CancelLocalTimer(e: Item)
      requires Valid() && (e.idx != -1 ==> e in heap.items)
      modifies heap, heap.items`idx
      ensures Valid() && e !in heap.items
      ensures multiset(heap.items) == if old(e.idx) == -1 then multiset(old(heap.items))
              else multiset(old(heap.items)) - multiset{e}
    {
      var r := heap.Erase(e);
    }

    /** One action of a callback; what it adds and what it cancels. */
    method Perform(act: Act) returns (ghost added: set<Item>, ghost cancelled: set<Item>)
      requires Valid() && act.Ok()
      modifies this`now, heap, heap.items`idx
      ensures Valid() && NoneNewlyDue(old(heap.items), old(now), heap.items, now)
      ensures DueOrCancelled(old(heap.items), old(now), heap.items, now, cancelled)
      ensures Accounted(old(heap.items), added, cancelled, heap.items) && forall x :: x in added ==> fresh(x)
      ensures |added| == (if act.Add? then 1 else 0) && (act.Add? ==> cancelled == {})
      ensures act.Cancel? && act.place < |old(heap.items)| ==> |cancelled| == 1
      ensures now == if act.Add? && old(heap.items) == [] then act.clock else old(now)
    {
      hide NoneNewlyDue, Ordered;
      added, cancelled := {}, {};
      ghost var was, before := heap.items, now;
      match act
      case Add(interval, clock) =>
        var e := AddLocalTimer(interval, clock);
        added := {e};
        AddedNotDue(was, before, e, heap.items, now);
        Members(was, e, heap.items);
      case Cancel(j) =>
        if j < heap.n {
          var e := heap.p[j];
          assert e == heap.items[j];
          CancelLocalTimer(e);
          cancelled := {e};
          CancelledNotDue(was, now, e, heap.items);
        } else {
          Unchanged(was, now);
        }
    }

    /** What a callback may do: any number of timers added, with whatever the clock says, and of others
        cancelled, in any order. */
    method Callback(acts: seq<Act>) returns (ghost added: set<Item>, ghost cancelled: set<Item>)
      requires Valid() && forall i :: 0 <= i < |acts| ==> acts[i].Ok()
      modifies this`now, heap, heap.items`idx
      ensures Valid() && NoneNewlyDue(old(heap.items), old(now), heap.items, now)
      ensures DueOrCancelled(old(heap.items), old(now), heap.items, now, cancelled)
      ensures Accounted(old(heap.items), added, cancelled, heap.items) && forall x :: x in added ==> fresh(x)
      ensures forall x :: x in heap.items ==> x in old(heap.items) || fresh(x)
      ensures |added| == Adds(acts) && (now == old(now) || now in Clocks(acts))
    {
      hide Heap.Valid, NoneNewlyDue, Accounted, Adds, Clocks, DueOrCancelled, Due;
      added, cancelled := {}, {};
      Unchanged(heap.items, now);
      NothingDone(heap.items, acts);
      for k := 0 to |acts|
        invariant Valid() && NoneNewlyDue(old(heap.items), old(now), heap.items, now)
        invariant DueOrCancelled(old(heap.items), old(now), heap.items, now, cancelled)
        invariant Accounted(old(heap.items), added, cancelled, heap.items) && forall x :: x in added ==> fresh(x)
        invariant forall x :: x in heap.items ==> x in old(heap.items) || fresh(x)
        invariant |added| == Adds(acts[..k]) && (now == old(now) || now in Clocks(acts[..k]))
      {
        ghost var was, before := heap.items, now;
        assert forall i :: 0 <= i < |heap.items| ==> heap.items[i] in heap.items;
        assert acts[..k + 1] == acts[..k] + [acts[k]];
        ActsSnoc(acts[..k], acts[k]);
        ghost var more, some := Perform(acts[k]);
        NotDueTrans(old(heap.items), old(now), was, before, heap.items, now);
        StillDueTrans(old(heap.items), old(now), was, before, cancelled, heap.items, now, some);
        assert more !! added && more !! cancelled;
        AccountedTrans(old(heap.items), added, cancelled, was, more, some, heap.items);
        added, cancelled := added + more, cancelled + some;
      }
      assert acts[..|acts|] == acts;
    }

    /** Fire what is due, where the callback of the i-th timer fired does scripts[i].  The pass ends although callbacks
        add and cancel timers; it fires, each once and in the order in which they were due, timers that were due when
        it began, misses none of these but the cancelled ones, and leaves nothing that is due.  All other timers stay,
        and the time kept is that of the pass, or one that a callback read. */
    method HandleLocalTimer(clock: Time, scripts: seq<seq<Act>>)
        returns (fired: seq<Item>, ghost added: set<Item>, ghost cancelled: set<Item>)
      requires Valid() && Normal(clock) && AllOk(scripts)
      modifies this`now, heap, heap.items`idx
      ensures Valid() && Due(heap.items, now) == {}
      ensures Sorted(fired) && NoDup(fired)
      ensures forall x :: x in fired ==> x in Due(old(heap.items), clock)
      ensures forall x :: x in Due(old(heap.items), clock) ==> x in fired || x in cancelled
      ensures Accounted(old(heap.items), added, cancelled + SetOf(fired), heap.items)
      ensures forall x :: x in added ==> fresh(x)
      ensures |added| == AllAdds(scripts, |fired|)
      ensures old(heap.items) == [] ==> now == old(now)
      ensures old(heap.items) != [] ==> now == clock || exists i :: 0 <= i < |scripts| && now in Clocks(scripts[i])
    {
      hide Heap.Valid, NoneNewlyDue, Sorted, NoDup, Due, Fired, Accounted, AllAdds, Clocks, AllOk, DueOrCancelled;
      fired, added, cancelled := [], {}, {};
      ghost var before := heap.items;
      heap.NotEmpty();
      NothingFired(before, clock);
      NothingDone(before, []);
      NoAdds(scripts);
      assert {} + SetOf([]) == {};
      if heap.n == 0 {
        NoneDue(heap, clock);
        NoneDue(heap, now);
        AllFired(fired, before, clock, heap.items, clock, cancelled);
        return;
      }
      now := clock;
      while heap.n > 0
        invariant Valid() && Fired(fired, before, clock, heap.items, now, cancelled)
        invariant Accounted(before, added, cancelled + SetOf(fired), heap.items)
        invariant forall x :: x in heap.items ==> x in old(heap.items) || fresh(x)
        invariant (forall x :: x in added ==> fresh(x)) && |added| == AllAdds(scripts, |fired|)
        invariant now == clock || exists i :: 0 <= i < |scripts| && now in Clocks(scripts[i])
        decreases |Due(heap.items, now)|
      {
        heap.NotEmpty();
        var topEvent := heap.Top();
        if Greater(topEvent.timeout, now) {
          TopNotDue(heap.items, now);
          break;
        }
        assert forall i :: 0 <= i < |heap.items| ==> heap.items[i] in heap.items;
        var script := if |fired| < |scripts| then scripts[|fired|] else [];
        OneScript(scripts, |fired|);
        fired, added, cancelled := Fire(script, fired, before, clock, added, cancelled);
      }
      if heap.n == 0 { NoneDue(heap, now); }
      AllFired(fired, before, clock, heap.items, now, cancelled);
    }

    /** Pop the first timer and run its callback. */
    method Fire(script: seq<Act>, fired0: seq<Item>, ghost before: seq<Item>, ghost clock: Time,
                ghost added0: set<Item>, ghost cancelled0: set<Item>)
        returns (fired: seq<Item>, ghost added: set<Item>, ghost cancelled: set<Item>)
      requires Valid() && heap.items != [] && !Greater(heap.items[0].timeout, now)
      requires forall i :: 0 <= i < |script| ==> script[i].Ok()
      requires Fired(fired0, before, clock, heap.items, now, cancelled0)
      requires Accounted(before, added0, cancelled0 + SetOf(fired0), heap.items)
      modifies this`now, heap, heap.items`idx
      ensures Valid() && Fired(fired, before, clock, heap.items, now, cancelled)
      ensures Accounted(before, added, cancelled + SetOf(fired), heap.items)
      ensures |fired| == |fired0| + 1 && (now == old(now) || now in Clocks(script))
      ensures |added| == |added0| + Adds(script) && forall x :: x in added ==> x in added0 || fresh(x)
      ensures |Due(heap.items, now)| < |Due(old(heap.items), old(now))|
      ensures forall x :: x in heap.items ==> x in old(heap.items) || fresh(x)
    {
      hide Heap.Valid, NoneNewlyDue, Sorted, NoDup, Due, Fired, Accounted, Clocks, Adds, DueOrCancelled;
      ghost var was := heap.items;
      var e := heap.Pop();
      ghost var popped := heap.items;
      Popped(was, e, popped, now);
      NotAgain(fired0, before, clock, was, now, cancelled0);
      ghost var thenNow := now;
      assert forall i :: 0 <= i < |heap.items| ==> heap.items[i] in was;
      ghost var more, some := Callback(script);
      fired, added, cancelled := fired0 + [e], added0 + more, cancelled0 + some;
      AfterCallback(was, e, popped, thenNow, heap.items, now, some);
      assert more !! added0 && more !! cancelled0 + SetOf(fired0) + {e};
      AccountedPop(before, added0, cancelled0, fired0, was, e, popped);
      AccountedTrans(before, added0, cancelled0 + SetOf(fired0 + [e]), popped, more, some, heap.items);
      assert cancelled + SetOf(fired) == cancelled0 + SetOf(fired0 + [e]) + some;
      FiredOne(fired0, before, clock, was, thenNow, cancelled0, e, heap.items, now, some);
    }
  }

  /** The state of a pass: what was fired, in order, was due and is gone; what is due still was due when
      the pass began and comes later; and nothing that was due is forgotten. */
  ghost predicate Fired(fired: seq<Item>, before: seq<Item>, clock: Time, items: seq<Item>, now: Time,
      cancelled: set<Item>) {
    && Sorted(fired) && NoDup(fired)
    && (forall x :: x in fired ==> x in Due(before, clock) && x !in items)
    && (forall x :: x in Due(items, now) ==> x in Due(before, clock) && forall i :: 0 <= i < |fired| ==>
       !Greater(fired[i].timeout, x.timeout))
    && (forall x :: x in Due(before, clock) ==> x in fired || x in cancelled || x in Due(items, now))
  }

  /** What was due is so still, unless it was cancelled. */
  ghost predicate DueOrCancelled(items: seq<Item>, now: Time, later: seq<Item>, thenNow: Time, cancelled: set<Item>) {
    forall x :: x in Due(items, now) ==> x in Due(later, thenNow) || x in cancelled
  }

  lemma NothingFired(items: seq<Item>, clock: Time)
    ensures Fired([], items, clock, items, clock, {})
  {
  }

  lemma NoneDue(heap: Heap, now: Time)
    requires heap.Valid() && heap.n == 0
    ensures Due(heap.items, now) == {}
  {
  }

  lemma TopNotDue(items: seq<Item>, now: Time)
    requires items != [] && Greater(items[0].timeout, now) && forall i :: 0 <= i < |items| ==>
             !Greater(items[0].timeout, items[i].timeout)
    ensures Due(items, now) == {}
  {
  }

  lemma AllFired(fired: seq<Item>, before: seq<Item>, clock: Time, items: seq<Item>, now: Time, cancelled: set<Item>)
    requires Fired(fired, before, clock, items, now, cancelled) && Due(items, now) == {}
    ensures Sorted(fired) && NoDup(fired)
    ensures forall x :: x in fired ==> x in Due(before, clock)
    ensures forall x :: x in Due(before, clock) ==> x in fired || x in cancelled
  {
  }

  lemma NotAgain(fired: seq<Item>, before: seq<Item>, clock: Time, items: seq<Item>, now: Time, cancelled: set<Item>)
    requires Fired(fired, before, clock, items, now, cancelled)
    ensures forall x :: x in fired ==> x !in items
  {
  }

  lemma Popped(items: seq<Item>, e: Item, popped: seq<Item>, now: Time)
    requires items != [] && e == items[0] && multiset(popped) == multiset(items) - multiset{e} && e !in popped
    ensures forall x :: x in popped <==> x in items && x != e
  {
    CancelledNotDue(items, now, e, popped);
  }

  lemma AfterCallback(items: seq<Item>, e: Item, popped: seq<Item>, now: Time, later: seq<Item>, thenNow: Time,
      some: set<Item>)
    requires forall x :: x in popped <==> x in items && x != e
    requires NoneNewlyDue(popped, now, later, thenNow) && DueOrCancelled(popped, now, later, thenNow, some)
    ensures Due(later, thenNow) <= Due(items, now) - {e}
    ensures forall x :: x in Due(items, now) - {e} ==> x in Due(later, thenNow) || x in some
  {
    assert Due(popped, now) == Due(items, now) - {e};
  }

  lemma FiredOne(fired: seq<Item>, before: seq<Item>, clock: Time, items: seq<Item>, now: Time, cancelled: set<Item>,
                 e: Item, later: seq<Item>, thenNow: Time, some: set<Item>)
    requires Fired(fired, before, clock, items, now, cancelled)
    requires e in items && !Greater(e.timeout, now) && forall i :: 0 <= i < |items| ==>
             !Greater(e.timeout, items[i].timeout)
    requires Due(later, thenNow) <= Due(items, now) - {e} && forall x :: x in fired || x == e ==> x !in later
    requires forall x :: x in Due(items, now) - {e} ==> x in Due(later, thenNow) || x in some
    ensures Fired(fired + [e], before, clock, later, thenNow, cancelled + some)
    ensures |Due(later, thenNow)| < |Due(items, now)|
  {
    Subset(Due(later, thenNow), Due(items, now) - {e});
    assert e in Due(items, now);
    assert e !in fired;
  }

  lemma Members(items: seq<Item>, e: Item, later: seq<Item>)
    requires multiset(later) == multiset(items) + multiset{e}
    ensures forall x :: x in later <==> x in items || x == e
  {
    forall x
      ensures x in later <==> x in items || x == e
    {
      assert x in later <==> x in multiset(later);
    }
  }

  lemma Unchanged(items: seq<Item>, now: Time)
    ensures NoneNewlyDue(items, now, items, now)
  {
  }
}
