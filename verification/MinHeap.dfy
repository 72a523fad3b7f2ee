/** The intrusive binary heap of timers: every item knows its place. */
module MinHeap {
  import opened Counting

  datatype Time = Time(sec: int, usec: int)

  /** item_cmp(a, b, >) */
  predicate Greater(a: Time, b: Time) {
    if a.sec == b.sec then a.usec > b.usec else a.sec > b.sec
  }

  class Item {
    const timeout: Time
    var idx: int

    constructor (timeout: Time)
      ensures this.timeout == timeout && idx == -1
    {
      this.timeout := timeout;
      idx := -1;
    }
  }

  function Parent(i: nat): (j: nat)
    requires i > 0
    ensures j < i
  {
    (i - 1) / 2
  }

  /** No item is due later than its children, the edges into and out of h left aside. */
  ghost predicate OrderedBut(q: seq<Item>, h: nat) {
    forall i :: 0 < i < |q| && i != h && Parent(i) != h ==> !Greater(q[Parent(i)].timeout, q[i].timeout)
  }

  ghost predicate Ordered(q: seq<Item>) {
    forall i :: 0 < i < |q| ==> !Greater(q[Parent(i)].timeout, q[i].timeout)
  }

  /** The parent of h is not due later than the children of h. */
  ghost predicate Bridged(q: seq<Item>, h: nat) {
    0 < h < |q| ==> forall i :: 0 < i < |q| && Parent(i) == h ==> !Greater(q[Parent(h)].timeout, q[i].timeout)
  }

  ghost predicate BelowOk(q: seq<Item>, h: nat) {
    h < |q| ==> forall i :: 0 < i < |q| && Parent(i) == h ==> !Greater(q[h].timeout, q[i].timeout)
  }

  ghost predicate AboveOk(q: seq<Item>, h: nat) {
    0 < h < |q| ==> !Greater(q[Parent(h)].timeout, q[h].timeout)
  }

  lemma SettledUp(q: seq<Item>, h: nat)
    requires h < |q| && OrderedBut(q, h) && BelowOk(q, h) && (h > 0 ==> !Greater(q[Parent(h)].timeout, q[h].timeout))
    ensures Ordered(q)
  {
  }

  lemma SettledDown(q: seq<Item>, h: nat)
    requires h < |q| && OrderedBut(q, h) && AboveOk(q, h)
    requires forall i :: 0 < i < |q| && Parent(i) == h ==> !Greater(q[h].timeout, q[i].timeout)
    ensures Ordered(q)
  {
  }

  function Swap(q: seq<Item>, i: nat, j: nat): seq<Item>
    requires i < |q| && j < |q|
  {
    q[i := q[j]][j := q[i]]
  }

  lemma SwapAt(q: seq<Item>, i: nat, j: nat)
    requires i < |q| && j < |q|
    ensures |Swap(q, i, j)| == |q| && Swap(q, i, j)[j] == q[i]
  {
  }

  lemma SwapSame(q: seq<Item>, i: nat, j: nat)
    requires i < |q| && j < |q|
    ensures multiset(Swap(q, i, j)) == multiset(q)
  {
  }

  /** One step of the hole upwards: its parent comes down. */
  lemma Up(q: seq<Item>, h: nat)
    requires 0 < h < |q| && OrderedBut(q, h) && Bridged(q, h) && BelowOk(q, h) &&
             Greater(q[Parent(h)].timeout, q[h].timeout)
    ensures var r := Swap(q, h, Parent(h)); OrderedBut(r, Parent(h)) && Bridged(r, Parent(h)) && BelowOk(r, Parent(h))
  {
  }

  /** One step downwards: the child that is due first comes up. */
  lemma Down(q: seq<Item>, h: nat, c: nat)
    requires h < c < |q| && Parent(c) == h && OrderedBut(q, h) && Bridged(q, h) && AboveOk(q, h)
    requires Greater(q[h].timeout, q[c].timeout)
    requires forall i :: 0 < i < |q| && Parent(i) == h ==> !Greater(q[c].timeout, q[i].timeout)
    ensures var r := Swap(q, h, c); OrderedBut(r, c) && Bridged(r, c) && AboveOk(r, c)
  {
  }

  /** The item at the top is due no later than any other. */
  lemma {:induction false} TopFirst(q: seq<Item>, i: nat)
    requires Ordered(q) && i < |q|
    ensures !Greater(q[0].timeout, q[i].timeout)
  {
    if i > 0 { TopFirst(q, Parent(i)); }
  }

  /** Every item of q but the one at h is in its slot and knows it. */
  ghost predicate Placed(p: seq<Item?>, q: seq<Item>, h: nat)
    reads q
  {
    |q| <= |p| && forall i :: 0 <= i < |q| && i != h ==> p[i] == q[i] && q[i].idx == i
  }

  function Most(a: nat, b: nat): nat {
    if a < b then b else a
  }

  class Heap {
    var p: seq<Item?>        // the allocated slots; the first n are in use
    var n: nat
    ghost var items: seq<Item>

    ghost predicate Valid()
      reads this, items
    {
      && n == |items| <= |p| && Ordered(items)
      && forall i :: 0 <= i < n ==> p[i] == items[i] && items[i].idx == i
    }

    constructor ()
      ensures Valid() && items == []
    {
      p, n, items := [], 0, [];
    }

    /** Room for m slots: double, or as many as are needed. */
    method Reserve(m: nat)
      requires Valid()
      modifies this`p
      ensures Valid() && |p| >= m && |p| >= old(|p|) && (old(|p|) >= m ==> p == old(p))
      ensures old(|p|) < m ==> |p| == Most(m, if old(|p|) > 0 then 2 * old(|p|) else 8)
    {
      if |p| < m {
        var a := if |p| > 0 then |p| * 2 else 8;
        if a < m {
          a := m;
        }
        p := p + seq(a - |p|, _ => null);
      }
    }

    /** The hole at h closes on e. */
    method Fill(h: nat, e: Item, ghost q: seq<Item>)
      requires n == |q| && h < n && q[h] == e && NoDup(q) && Placed(p, q, h) && Ordered(q)
      modifies this`p, this`items, e`idx
      ensures Valid() && items == q && |p| == old(|p|)
    {
      hide Ordered;
      p := p[h := e];
      e.idx := h;
      items := q;
    }

    /** The item at `from` moves into the hole, and leaves one behind. */
    method MoveHole(hole: nat, from: nat, ghost r: seq<Item>)
      requires hole < |r| && from < |r| && hole != from && NoDup(r) && Placed(p, r, hole)
      modifies this`p, {r[from]}`idx
      ensures NoDup(Swap(r, hole, from)) && Placed(p, Swap(r, hole, from), from) && |p| == old(|p|)
      ensures multiset(Swap(r, hole, from)) == multiset(r)
    {
      SwapSame(r, hole, from);
      p := p[hole := p[from]];
      p[hole].idx := hole;
    }

    /** Move the hole at h, meant for e, up to its place.  q is the heap as it would be with e in the hole. */
    method ShiftUp(h: nat, e: Item, ghost q: seq<Item>)
      requires n == |q| && h < n && q[h] == e && NoDup(q) && Placed(p, q, h)
      requires OrderedBut(q, h) && Bridged(q, h) && BelowOk(q, h)
      modifies this`p, this`items, q`idx
      ensures Valid() && multiset(items) == multiset(q) && |p| == old(|p|)
    {
      hide Ordered, OrderedBut, Bridged, BelowOk, AboveOk, NoDup, Swap;
      var hole: nat := h;
      ghost var r := q;
      while hole > 0 && Greater(p[Parent(hole)].timeout, e.timeout)
        invariant |r| == n && hole < n && r[hole] == e && NoDup(r) && Placed(p, r, hole)
        invariant OrderedBut(r, hole) && Bridged(r, hole) && BelowOk(r, hole)
        invariant multiset(r) == multiset(q) && |p| == old(|p|)
        decreases hole
        modifies this`p, q`idx
      {
        var parent := Parent(hole);
        Up(r, hole);
        assert r[parent] in multiset(r);
        MoveHole(hole, parent, r);
        SwapAt(r, hole, parent);
        r := Swap(r, hole, parent);
        hole := parent;
      }
      SettledUp(r, hole);
      assert e in multiset(r);
      Fill(hole, e, r);
    }

    /** Move the hole down, below every item that is due first. */
    method ShiftDown(h: nat, e: Item, ghost q: seq<Item>)
      requires n == |q| && h < n && q[h] == e && NoDup(q) && Placed(p, q, h)
      requires OrderedBut(q, h) && Bridged(q, h) && AboveOk(q, h)
      modifies this`p, this`items, q`idx
      ensures Valid() && multiset(items) == multiset(q) && |p| == old(|p|)
    {
      hide Ordered, OrderedBut, Bridged, BelowOk, AboveOk, NoDup, Swap;
      var hole: nat := h;
      ghost var r := q;
      var minChild := 2 * (hole + 1);
      while minChild <= n
        invariant minChild == 2 * (hole + 1)
        invariant |r| == n && hole < n && r[hole] == e && NoDup(r) && Placed(p, r, hole)
        invariant OrderedBut(r, hole) && Bridged(r, hole) && AboveOk(r, hole)
        invariant multiset(r) == multiset(q) && |p| == old(|p|)
        decreases n - hole
        modifies this`p, q`idx
      {
        if minChild == n || Greater(p[minChild].timeout, p[minChild - 1].timeout) {
          minChild := minChild - 1;
        }
        assert p[minChild] == r[minChild];
        Children(r, hole, minChild);
        if !Greater(e.timeout, p[minChild].timeout) {
          break;
        }
        Down(r, hole, minChild);
        assert r[minChild] in multiset(r);
        MoveHole(hole, minChild, r);
        SwapAt(r, hole, minChild);
        r := Swap(r, hole, minChild);
        hole := minChild;
        minChild := 2 * (hole + 1);
      }
      SettledDown(r, hole);
      assert e in multiset(r);
      Fill(hole, e, r);
    }

    lemma ValidDistinct()
      requires Valid()
      ensures NoDup(items)
    {
    }

    /** min_heap_top */
    method Top() returns (e: Item?)
      requires Valid()
      ensures if items == [] then e == null
              else e != null && e == items[0] && forall i :: 0 <= i < |items| ==> !Greater(e.timeout, items[i].timeout)
    {
      if n == 0 {
        return null;
      }
      e := p[0];
      forall i | 0 <= i < |items|
        ensures !Greater(items[0].timeout, items[i].timeout)
      {
        TopFirst(items, i);
      }
    }

    /** min_heap_push */
    method Push(e: Item)
      requires Valid() && e !in items
      modifies this, items`idx, e`idx
      ensures Valid() && multiset(items) == multiset(old(items)) + multiset{e} && |p| >= old(|p|)
    {
      hide Ordered, OrderedBut, Bridged, BelowOk;
      Reserve(n + 1);
      ValidDistinct();
      AtTheEnd(items, e);
      ghost var q := items + [e];
      assert forall i :: 0 <= i < n ==> items[i] != e;
      n := n + 1;
      ShiftUp(n - 1, e, q);
    }

    /** Close the gap that the item at h leaves with the last item. */
    method Close(h: nat)
      requires Valid() && h < n
      modifies this, items`idx
      ensures Valid() && multiset(items) == multiset(old(items)) - multiset{old(items)[h]}
      ensures old(items)[h] !in items
    {
      hide Ordered, OrderedBut, Bridged, BelowOk, AboveOk;
      ValidDistinct();
      ghost var was := items;
      n := n - 1;
      var last := p[n];
      if h == n {
        // no item is behind the hole: it is filled with the item itself, out of the heap
        p := p[h := last];
        last.idx := h;
        WithoutLast(was);
        items := was[..n];
      } else {
        Replaced(was, h);
        if h > 0 && Greater(p[Parent(h)].timeout, last.timeout) {
          ShiftUp(h, last, Replace(was, h));
        } else {
          ShiftDown(h, last, Replace(was, h));
        }
      }
      Gone(was, h, items);
    }

    /** min_heap_pop: an item that is due first. */
    method Pop() returns (e: Item?)
      requires Valid()
      modifies this, items`idx
      ensures Valid() && (e == null <==> old(items) == [])
      ensures e == null ==> items == []
      ensures e != null ==>
        && e == old(items)[0] && e.idx == -1 && e !in items
        && multiset(items) == multiset(old(items)) - multiset{e}
        && forall i :: 0 <= i < |old(items)| ==> !Greater(e.timeout, old(items)[i].timeout)
    {
      if n == 0 {
        return null;
      }
      e := Top();
      Close(0);
      assert forall i :: 0 <= i < |items| ==> items[i] != e;
      e.idx := -1;
    }

    /** min_heap_erase */
    method Erase(e: Item) returns (r: int)
      requires Valid() && (e.idx != -1 ==> e in items)
      modifies this, items`idx
      ensures Valid() && r == if old(e.idx) == -1 then -1 else 0
      ensures e.idx == -1 && e !in items
      ensures r == -1 ==> items == old(items)
      ensures r == 0 ==> multiset(items) == multiset(old(items)) - multiset{e}
    {
      if e.idx == -1 {
        assert forall i :: 0 <= i < |items| ==> items[i] != e;
        return -1;
      }
      Close(e.idx);
      assert forall i :: 0 <= i < |items| ==> items[i] != e;
      e.idx := -1;
      return 0;
    }

    /** Popping until the heap is empty yields all items, those due first first. */
    method Drain() returns (out: seq<Item>)
      requires Valid()
      modifies this, items`idx
      ensures items == [] && multiset(out) == multiset(old(items)) && Sorted(out)
    {
      hide Valid, Sorted, Before;
      out := [];
      StartDrain(items);
      ghost var was := items;
      while n > 0
        invariant Valid() && multiset(out) + multiset(items) == multiset(was)
        invariant Sorted(out) && Before(out, items)
        invariant forall i :: 0 <= i < |items| ==> items[i] in was
        decreases |items|
      {
        ghost var before := items;
        NotEmpty();
        var e := Pop();
        DrainStep(out, before, e, items, was);
        out := out + [e];
      }
      NotEmpty();
    }

    lemma NotEmpty()
      requires Valid()
      ensures n == |items|
    {
    }
  }

  ghost predicate Sorted(out: seq<Item>) {
    forall i, j :: 0 <= i < j < |out| ==> !Greater(out[i].timeout, out[j].timeout)
  }

  ghost predicate Before(out: seq<Item>, q: seq<Item>) {
    forall i, j :: 0 <= i < |out| && 0 <= j < |q| ==> !Greater(out[i].timeout, q[j].timeout)
  }

  lemma StartDrain(q: seq<Item>)
    ensures Sorted([]) && Before([], q) && forall i :: 0 <= i < |q| ==> q[i] in q
  {
  }

  lemma DrainStep(out: seq<Item>, q: seq<Item>, e: Item, r: seq<Item>, all: seq<Item>)
    requires Sorted(out) && Before(out, q) && multiset(r) == multiset(q) - multiset{e} && q != [] && e == q[0]
    requires forall i :: 0 <= i < |q| ==> !Greater(e.timeout, q[i].timeout) && q[i] in all
    requires multiset(out) + multiset(q) == multiset(all)
    ensures Sorted(out + [e]) && Before(out + [e], r) && |r| < |q| && forall i :: 0 <= i < |r| ==> r[i] in all
    ensures multiset(out + [e]) + multiset(r) == multiset(all)
  {
    assert e in multiset(q);
    assert |multiset(r)| == |multiset(q)| - 1;
    forall i | 0 <= i < |r|
      ensures r[i] in q
    {
      assert r[i] in multiset(r);
    }
  }

  lemma AtTheEnd(q: seq<Item>, e: Item)
    requires Ordered(q)
    ensures OrderedBut(q + [e], |q|) && Bridged(q + [e], |q|) && BelowOk(q + [e], |q|)
    ensures e !in q && NoDup(q) ==> NoDup(q + [e])
  {
  }

  function Replace(q: seq<Item>, h: nat): seq<Item>
    requires h < |q| - 1
  {
    q[..|q| - 1][h := q[|q| - 1]]
  }

  /** The last item in the place of the one at h. */
  lemma Replaced(q: seq<Item>, h: nat)
    requires Ordered(q) && NoDup(q) && h < |q| - 1
    ensures var r := Replace(q, h); var last := q[|q| - 1];
            && OrderedBut(r, h) && Bridged(r, h) && NoDup(r) && multiset(r) == multiset(q) - multiset{q[h]}
            && if h > 0 && Greater(q[Parent(h)].timeout, last.timeout) then BelowOk(r, h) else AboveOk(r, h)
  {
    hide Ordered, OrderedBut, Bridged, BelowOk, AboveOk;
    ReplacedOrder(q, h);
    assert q == q[..|q| - 1] + [q[|q| - 1]];
  }

  lemma ReplacedOrder(q: seq<Item>, h: nat)
    requires Ordered(q) && h < |q| - 1
    ensures var r := Replace(q, h); var last := q[|q| - 1];
            && OrderedBut(r, h) && Bridged(r, h)
            && if h > 0 && Greater(q[Parent(h)].timeout, last.timeout) then BelowOk(r, h) else AboveOk(r, h)
  {
  }

  lemma WithoutLast(q: seq<Item>)
    requires q != [] && Ordered(q)
    ensures Ordered(q[..|q| - 1]) && multiset(q[..|q| - 1]) == multiset(q) - multiset{q[|q| - 1]}
  {
    assert q == q[..|q| - 1] + [q[|q| - 1]];
  }

  lemma Gone(q: seq<Item>, h: nat, r: seq<Item>)
    requires h < |q| && NoDup(q) && multiset(r) == multiset(q) - multiset{q[h]}
    ensures q[h] !in r
  {
    assert q == q[..h] + [q[h]] + q[h + 1..];
    assert q[h] !in q[..h] && q[h] !in q[h + 1..];
    assert multiset(q)[q[h]] == 1;
    assert q[h] !in multiset(r);
  }

  lemma Children(q: seq<Item>, h: nat, c: nat)
    requires h < |q| && 2 * h + 1 <= c <= 2 * h + 2 && c < |q|
    requires c == 2 * h + 2 ==> !Greater(q[c].timeout, q[c - 1].timeout)
    requires c == 2 * h + 1 && c + 1 < |q| ==> Greater(q[c + 1].timeout, q[c].timeout)
    ensures Parent(c) == h
    ensures forall i :: 0 < i < |q| && Parent(i) == h ==> !Greater(q[c].timeout, q[i].timeout)
  {
  }
}
